/** The LaTeX label of a component and of a whole word, and a parser that
    reads a word back from its label. */
module Labels {
  import opened Generators
  import opened FreeWords

  datatype Option<T> = None | Some(value: T)

  const SigmaTex: string := @"\sigma"
  const SigmaInvTex: string := @"\sigma^{-1}"
  const TauTex: string := @"\tau"
  const TauInvTex: string := @"\tau^{-1}"

  /** The dictionary from components to their LaTeX. */
  const RotationTranslationDict: map<int, string> :=
    map[Sigma := SigmaTex, SigmaInv := SigmaInvTex, Tau := TauTex, TauInv := TauInvTex]

  /** The dictionary has a key for exactly the four generators, so the lookup
      made for every accepted component never fails. */
  lemma DictKeysAreGenerators(c: int)
    ensures c in RotationTranslationDict <==> IsGenerator(c)
  {
  }

  /** Looking up one component; every translation is a LaTeX command of 4
      to 11 characters, so it starts with a backslash. */
  function Translate(c: int): (t: string)
    requires IsGenerator(c)
    ensures 4 <= |t| <= 11 && t[0] == '\\'
  {
    assert c == 0 || c == 1 || c == 2 || c == 3;
    RotationTranslationDict[c]
  }

  /** The label of a word: its components' translations, concatenated in
      order. It is empty exactly for the empty word, otherwise it starts with
      a backslash, and each component adds 4 to 11 characters. */
  function Label(w: seq<int>): (r: string)
    requires IsWord(w)
    ensures 4 * |w| <= |r| <= 11 * |w|
    ensures |w| > 0 ==> r[0] == '\\'
  {
    if |w| == 0 then "" else Translate(w[0]) + Label(w[1..])
  }

  /** Growing the label with `+=` after each appended component keeps it
      equal to the label of the word built so far. */
  lemma {:induction false} LabelAppend(w: seq<int>, c: int)
    requires IsWord(w) && IsGenerator(c)
    ensures IsWord(w + [c])
    ensures Label(w + [c]) == Label(w) + Translate(c)
  {
    if |w| > 0 {
      assert (w + [c])[1..] == w[1..] + [c];
      LabelAppend(w[1..], c);
    }
  }

  /** Reads a label back into its word, trying the longer `^{-1}` forms
      first; None for a string that is not a label. Whatever it returns is
      a word whose label is exactly the input. */
  function ParseLabel(s: string): (r: Option<seq<int>>)
    ensures r.Some? ==> IsWord(r.value) && Label(r.value) == s
    decreases |s|
  {
    if s == "" then Some([])
    else if SigmaInvTex <= s then Prepend(SigmaInv, ParseLabel(s[|SigmaInvTex|..]))
    else if SigmaTex <= s then Prepend(Sigma, ParseLabel(s[|SigmaTex|..]))
    else if TauInvTex <= s then Prepend(TauInv, ParseLabel(s[|TauInvTex|..]))
    else if TauTex <= s then Prepend(Tau, ParseLabel(s[|TauTex|..]))
    else None
  }

  /** Puts `c` in front of a parsed word; a failed parse stays failed. */
  function Prepend(c: int, r: Option<seq<int>>): Option<seq<int>> {
    match r
    case None => None
    case Some(w) => Some([c] + w)
  }

  /** The label determines the word: parsing the label of any word gives
      that word back. */
  lemma {:induction false} ParseLabelOfLabel(w: seq<int>)
    requires IsWord(w)
    ensures ParseLabel(Label(w)) == Some(w)
  {
    if |w| > 0 {
      var c, rest := w[0], w[1..];
      var tail := Label(rest);
      var s := Label(w);
      assert s == Translate(c) + tail;
      ParseLabelOfLabel(rest);
      assert [c] + rest == w;
      if c == Sigma {
        assert s == SigmaTex + tail;
        assert !(SigmaInvTex <= s) by {
          if |s| >= |SigmaInvTex| {
            assert s[6] == tail[0] == '\\';
            assert SigmaInvTex[6] == '^';
          }
        }
        assert s[|SigmaTex|..] == tail;
      } else if c == SigmaInv {
        assert s == SigmaInvTex + tail;
        assert s[|SigmaInvTex|..] == tail;
      } else if c == Tau {
        assert s == TauTex + tail;
        assert s[1] == 't';
        assert SigmaInvTex[1] == 's' && SigmaTex[1] == 's';
        assert !(TauInvTex <= s) by {
          if |s| >= |TauInvTex| {
            assert s[4] == tail[0] == '\\';
            assert TauInvTex[4] == '^';
          }
        }
        assert s[|TauTex|..] == tail;
      } else {
        assert c == TauInv;
        assert s == TauInvTex + tail;
        assert s[1] == 't';
        assert SigmaInvTex[1] == 's' && SigmaTex[1] == 's';
        assert s[|TauInvTex|..] == tail;
      }
    }
  }

  /** Two words with the same label are the same word. */
  lemma LabelInjective(v: seq<int>, w: seq<int>)
    requires IsWord(v) && IsWord(w)
    requires Label(v) == Label(w)
    ensures v == w
  {
    ParseLabelOfLabel(v);
    ParseLabelOfLabel(w);
  }
}
