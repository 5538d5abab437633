/** What the colour modes promise, said of the characters of a line and where they stand. */
module TextColours {
  import opened Whitespace
  import opened Wrappers
  import opened ColourCodes
  import opened TextEffects
  import F = IrcFormatting

  predicate IsVisible(line: string, k: nat) {
    k < |line| && !IsSpace(line[k])
  }

  /** The positions of the visible characters in front of position `k`. */
  function VisibleBefore(line: string, k: nat): set<nat> {
    set j | 0 <= j < k && IsVisible(line, j)
  }

  predicate BeginsWord(line: string, k: nat) {
    IsVisible(line, k) && !(k > 0 && IsVisible(line, k - 1))
  }

  /** The positions at or in front of `k` where a word starts. */
  function StartsUpTo(line: string, k: nat): set<nat> {
    set j | 0 <= j <= k && BeginsWord(line, j)
  }

  lemma {:induction false} VisibleIsCount(line: string, k: nat)
    requires k <= |line|
    ensures Visible(line, k) == |VisibleBefore(line, k)|
  {
    if k == 0 {
      assert VisibleBefore(line, 0) == {};
    } else {
      VisibleIsCount(line, k - 1);
      if IsSpace(line[k - 1]) {
        assert VisibleBefore(line, k) == VisibleBefore(line, k - 1);
      } else {
        assert VisibleBefore(line, k) == VisibleBefore(line, k - 1) + {k - 1};
      }
    }
  }

  lemma {:induction false} WordsIsCount(line: string, k: nat)
    requires k < |line|
    ensures Words(line, k + 1) == |StartsUpTo(line, k)|
  {
    if k == 0 {
      assert Words(line, 0) == 0;
      assert StartsUpTo(line, 0) == if StartsWord(line, 0) then {0} else {};
    } else {
      WordsIsCount(line, k - 1);
      if StartsWord(line, k) {
        assert StartsUpTo(line, k) == StartsUpTo(line, k - 1) + {k};
      } else {
        assert StartsUpTo(line, k) == StartsUpTo(line, k - 1);
      }
    }
  }

  /** The style in which the coloured line shows a visible character. */
  function StyleOf(base: F.Style, line: string, mode: Mode, k: nat): F.Style
    requires mode.Valid() && IsVisible(line, k)
  {
    Shown(base, line, mode)[k].style
  }

  /** Every character is shown, and every visible one in a colour of the mode, on its background if it has one. */
  lemma ShownInColour(base: F.Style, line: string, mode: Mode, k: nat)
    requires mode.Valid() && IsVisible(line, k) && !mode.Plain? && !mode.Solid?
    ensures |Shown(base, line, mode)| == |line| && Shown(base, line, mode)[k].ch == line[k]
    ensures StyleOf(base, line, mode, k)
         == base.(fg := Some(Wanted(line, mode, k)), bg := if mode.bg.Some? then mode.bg else base.bg,
                  hexFg := None, hexBg := None)
  {
    assert !AllSpace(line);
  }

  /** In a rainbow the visible characters take the colours of the palette in turn. */
  lemma RainbowTakesTurns(base: F.Style, line: string, mode: Mode, k: nat)
    requires mode.Valid() && mode.Rainbow? && IsVisible(line, k)
    ensures StyleOf(base, line, mode, k).fg == Some(mode.palette[|VisibleBefore(line, k)| % |mode.palette|])
  {
    VisibleIsCount(line, k);
    ShownInColour(base, line, mode, k);
  }

  /** In a word cycle the words take the colours in turn, all characters of a word the same one. */
  lemma WordsTakeTurns(base: F.Style, line: string, mode: Mode, k: nat)
    requires mode.Valid() && mode.WordCycle? && IsVisible(line, k)
    ensures StartsUpTo(line, k) != {}
    ensures StyleOf(base, line, mode, k).fg
         == Some(if mode.colors == [] then 0 else mode.colors[(|StartsUpTo(line, k)| - 1) % |mode.colors|])
  {
    InsideWord(line, k);
    WordsIsCount(line, k);
    ShownInColour(base, line, mode, k);
  }

  lemma OneWordOneColour(base: F.Style, line: string, mode: Mode, j: nat, k: nat)
    requires mode.Valid() && mode.WordCycle? && j <= k < |line|
    requires forall i :: j <= i <= k ==> !IsSpace(line[i])
    ensures StyleOf(base, line, mode, j) == StyleOf(base, line, mode, k)
  {
    assert StartsUpTo(line, k) == StartsUpTo(line, j) by {
      assert forall i :: j < i <= k ==> !BeginsWord(line, i);
    }
    WordsTakeTurns(base, line, mode, j);
    WordsTakeTurns(base, line, mode, k);
    ShownInColour(base, line, mode, j);
    ShownInColour(base, line, mode, k);
  }

  /** A gradient starts in its first colour. */
  lemma GradientStarts(base: F.Style, line: string, mode: Mode, k: nat)
    requires mode.Valid() && mode.Gradient? && IsVisible(line, k) && VisibleBefore(line, k) == {}
    ensures StyleOf(base, line, mode, k).fg == Some(mode.from)
  {
    ShownInColour(base, line, mode, k);
    VisibleIsCount(line, k);
  }

  lemma VisibleUpToLast(line: string, k: nat)
    requires IsVisible(line, k) && forall j :: k < j < |line| ==> IsSpace(line[j])
    ensures VisibleBefore(line, |line|) == VisibleBefore(line, k) + {k} && k !in VisibleBefore(line, k)
  {
  }

  /** Unless there is one visible character only, it ends in its last colour. */
  lemma GradientEnds(base: F.Style, line: string, mode: Mode, k: nat)
    requires mode.Valid() && mode.Gradient? && IsVisible(line, k) && VisibleBefore(line, k) != {}
    requires forall j :: k < j < |line| ==> IsSpace(line[j])
    ensures StyleOf(base, line, mode, k).fg == Some(mode.to)
  {
    ShownInColour(base, line, mode, k);
    VisibleIsCount(line, k);
    VisibleIsCount(line, |line|);
    VisibleUpToLast(line, k);
  }
}
