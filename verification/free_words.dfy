/** Words over the generator alphabet, what it means for a word to be
    reduced, and free reduction as the reference for "reduced". */
module FreeWords {
  import opened Generators

  /** Every component of `w` is one of the four generators. */
  predicate IsWord(w: seq<int>) {
    forall i :: 0 <= i < |w| ==> IsGenerator(w[i])
  }

  /** No component cancels the one just before it. */
  predicate IsReduced(w: seq<int>) {
    forall i :: 1 <= i < |w| ==> !Cancels(w[i - 1], w[i])
  }

  /** Free reduction, read left to right with the result as a stack: a letter
      that cancels the top of the stack pops it, any other letter is pushed. */
  function Reduce(w: seq<int>): seq<int>
  {
    if |w| == 0 then []
    else
      var p := Reduce(w[..|w| - 1]);
      var c := w[|w| - 1];
      if |p| > 0 && Cancels(p[|p| - 1], c) then p[..|p| - 1] else p + [c]
  }

  /** Free reduction always yields a reduced word. */
  lemma {:induction false} ReduceIsReduced(w: seq<int>)
    ensures IsReduced(Reduce(w))
  {
    if |w| > 0 {
      ReduceIsReduced(w[..|w| - 1]);
    }
  }

  /** A reduced word is left unchanged by free reduction. */
  lemma {:induction false} ReducedIsFixed(w: seq<int>)
    requires IsReduced(w)
    ensures Reduce(w) == w
  {
    if |w| > 0 {
      var q := w[..|w| - 1];
      assert IsReduced(q) by {
        forall i | 1 <= i < |q| ensures !Cancels(q[i - 1], q[i]) {
          assert q[i - 1] == w[i - 1] && q[i] == w[i];
        }
      }
      ReducedIsFixed(q);
      assert q + [w[|w| - 1]] == w;
    }
  }

  /** A word is reduced exactly when free reduction leaves it unchanged. */
  lemma {:induction false} ReducedIffFixed(w: seq<int>)
    ensures IsReduced(w) <==> Reduce(w) == w
  {
    if IsReduced(w) {
      ReducedIsFixed(w);
    } else {
      ReduceIsReduced(w);
    }
  }

  /** Extending a reduced word by a letter that does not cancel its last
      letter keeps it reduced. */
  lemma ExtendReduced(w: seq<int>, c: int)
    requires IsReduced(w)
    requires |w| > 0 ==> !Cancels(w[|w| - 1], c)
    ensures IsReduced(w + [c])
  {
  }

  /** Played one after the other, the rotations of a reduced word never
      undo the rotation just played. */
  lemma ReducedWordNeverUndoes(w: seq<int>)
    requires IsReduced(w)
    ensures forall i :: 1 <= i < |w| ==>
              !Undoes(AxisAngleFromRotationComponent(w[i - 1]), AxisAngleFromRotationComponent(w[i]))
  {
  }
}
