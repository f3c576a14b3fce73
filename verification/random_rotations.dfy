/** The sampler that builds random reduced words with their labels. The
    random draws are nondeterministic choices: every outcome the random
    number generator could produce is allowed, and none is preferred. */
module RandomRotations {
  import opened Generators
  import opened FreeWords
  import opened Labels

  /** One generated rotation: its components and its LaTeX label. */
  datatype LabelledRotation = LabelledRotation(components: seq<int>, latex: string)

  const MinComponents: nat := 2
  const MaxComponents: nat := 7

  /** Builds `n` reduced words of 2 to 7 components, each with the
      concatenation of its components' translations as label. */
  method GenerateRandomRotationsWithLabels(n: int) returns (rotations: seq<LabelledRotation>)
    ensures |rotations| == if n > 0 then n else 0
    ensures forall k :: 0 <= k < |rotations| ==>
              MinComponents <= |rotations[k].components| <= MaxComponents
    ensures forall k :: 0 <= k < |rotations| ==> IsWord(rotations[k].components)
    ensures forall k :: 0 <= k < |rotations| ==> IsReduced(rotations[k].components)
    ensures forall k :: 0 <= k < |rotations| ==>
              rotations[k].latex == Label(rotations[k].components)
  {
    rotations := [];
    // range(n) is empty when n <= 0
    var rounds := if n > 0 then n else 0;
    for i := 0 to rounds
      invariant |rotations| == i
      invariant forall k :: 0 <= k < i ==>
                  MinComponents <= |rotations[k].components| <= MaxComponents
      invariant forall k :: 0 <= k < i ==> IsWord(rotations[k].components)
      invariant forall k :: 0 <= k < i ==> IsReduced(rotations[k].components)
      invariant forall k :: 0 <= k < i ==> rotations[k].latex == Label(rotations[k].components)
    {
      var components: seq<int> := [];
      var rotationLabel: string := "";
      // randint is inclusive at both ends
      var count :| MinComponents <= count <= MaxComponents;
      for j := 0 to count
        invariant |components| == j
        invariant IsWord(components) && IsReduced(components)
        invariant rotationLabel == Label(components)
      {
        var rotation :| 0 <= rotation <= 3;
        if j >= 1 {
          var last := components[|components| - 1];
          // the rejection loop redraws until the new component does not
          // cancel the last one; its outcome is any such component
          if Cancels(last, rotation) {
            // a component never cancels itself, so a non-cancelling draw exists
            assert !Cancels(last, last);
            rotation :| 0 <= rotation <= 3 && !Cancels(last, rotation);
          }
        }
        ExtendReduced(components, rotation);
        LabelAppend(components, rotation);
        DictKeysAreGenerators(rotation);
        components := components + [rotation];
        rotationLabel := rotationLabel + RotationTranslationDict[rotation];
      }
      rotations := rotations + [LabelledRotation(components, rotationLabel)];
    }
  }
}
