/**
 Greedy word wrapping: words are put onto a line while they fit. With widths and gap
 that are never negative no other wrapping has fewer lines.
 */
module GroupWidths {
  import opened Sequences

  /** Columns of the words from `i` to `j - 1` on one line. */
  function Width(widths: seq<int>, gap: int, i: nat, j: nat): int
    requires i < j <= |widths|
  {
    if j == i + 1 then widths[i] else Width(widths, gap, i, j - 1) + gap + widths[j - 1]
  }

  function Range(i: nat, j: nat): (r: seq<nat>)
    requires i <= j
    ensures |r| == j - i && forall k :: 0 <= k < |r| ==> r[k] == i + k
  {
    if i == j then [] else Range(i, j - 1) + [j - 1]
  }

  /** A line fits, or is a single word. */
  predicate Acceptable(widths: seq<int>, gap: int, max: int, i: nat, j: nat)
    requires i < j <= |widths|
  {
    j == i + 1 || Width(widths, gap, i, j) <= max
  }

  /** `groups` are the words from `from` on, in order, in acceptable lines. */
  ghost predicate Wraps(widths: seq<int>, gap: int, max: int, from: nat, groups: seq<seq<nat>>)
    decreases |groups|
  {
    if groups == [] then from == |widths|
    else
      var to := from + |groups[0]|;
      && from < to <= |widths|
      && groups[0] == Range(from, to)
      && Acceptable(widths, gap, max, from, to)
      && Wraps(widths, gap, max, to, groups[1..])
  }

  /** How far the line that starts at `i` and already reaches `j` is filled. */
  function Fill(widths: seq<int>, gap: int, max: int, i: nat, j: nat): (r: nat)
    requires i < j <= |widths|
    ensures j <= r <= |widths|
    decreases |widths| - j
  {
    if j < |widths| && Width(widths, gap, i, j) + gap + widths[j] <= max then Fill(widths, gap, max, i, j + 1) else j
  }

  /** The greedy wrapping of the words from `from` on. */
  function Greedy(widths: seq<int>, gap: int, max: int, from: nat): seq<seq<nat>>
    requires from <= |widths|
    decreases |widths| - from
  {
    if from == |widths| then []
    else
      var to := Fill(widths, gap, max, from, from + 1);
      [Range(from, to)] + Greedy(widths, gap, max, to)
  }

  lemma {:induction false} FillAcceptable(widths: seq<int>, gap: int, max: int, i: nat, j: nat)
    requires i < j <= |widths| && Acceptable(widths, gap, max, i, j)
    ensures Acceptable(widths, gap, max, i, Fill(widths, gap, max, i, j))
    decreases |widths| - j
  {
    if j < |widths| && Width(widths, gap, i, j) + gap + widths[j] <= max {
      FillAcceptable(widths, gap, max, i, j + 1);
    }
  }

  lemma {:induction false} GreedyWraps(widths: seq<int>, gap: int, max: int, from: nat)
    requires from <= |widths|
    ensures Wraps(widths, gap, max, from, Greedy(widths, gap, max, from))
    decreases |widths| - from
  {
    if from < |widths| {
      var to := Fill(widths, gap, max, from, from + 1);
      FillAcceptable(widths, gap, max, from, from + 1);
      GreedyWraps(widths, gap, max, to);
      assert ([Range(from, to)] + Greedy(widths, gap, max, to))[1..] == Greedy(widths, gap, max, to);
    }
  }

  ghost predicate NonNegative(widths: seq<int>, gap: int) {
    gap >= 0 && forall i :: 0 <= i < |widths| ==> widths[i] >= 0
  }

  /** A later start makes a line no wider. */
  lemma {:induction false} LaterStart(widths: seq<int>, gap: int, b: nat, a: nat, e: nat)
    requires NonNegative(widths, gap) && b <= a < e <= |widths|
    ensures Width(widths, gap, a, e) <= Width(widths, gap, b, e)
    decreases e
  {
    if b < a {
      if e == a + 1 {
        WidthNonNegative(widths, gap, b, a);
      } else {
        LaterStart(widths, gap, b, a, e - 1);
      }
    }
  }

  lemma {:induction false} WidthNonNegative(widths: seq<int>, gap: int, i: nat, j: nat)
    requires NonNegative(widths, gap) && i < j <= |widths|
    ensures Width(widths, gap, i, j) >= 0
    decreases j
  {
    if j > i + 1 {
      WidthNonNegative(widths, gap, i, j - 1);
    }
  }

  /** The greedy line reaches every end at which the line would fit. */
  lemma {:induction false} FillReaches(widths: seq<int>, gap: int, max: int, i: nat, j: nat, e: nat)
    requires NonNegative(widths, gap) && i < j <= e <= |widths| && (j < e ==> Width(widths, gap, i, e) <= max)
    ensures Fill(widths, gap, max, i, j) >= e
    decreases e - j
  {
    if j < e {
      ShorterFits(widths, gap, i, j + 1, e);
      FillReaches(widths, gap, max, i, j + 1, e);
    }
  }

  lemma {:induction false} ShorterFits(widths: seq<int>, gap: int, i: nat, j: nat, e: nat)
    requires NonNegative(widths, gap) && i < j <= e <= |widths|
    ensures Width(widths, gap, i, j) <= Width(widths, gap, i, e)
    decreases e
  {
    if j < e {
      ShorterFits(widths, gap, i, j, e - 1);
    }
  }

  /** Greedy stays ahead: starting later, it needs no more lines than any wrapping that starts earlier. */
  lemma {:induction false} GreedyStaysAhead(widths: seq<int>, gap: int, max: int, a: nat, b: nat, groups: seq<seq<nat>>)
    requires NonNegative(widths, gap) && b <= a <= |widths| && Wraps(widths, gap, max, b, groups)
    ensures |Greedy(widths, gap, max, a)| <= |groups|
    decreases |groups|
  {
    if a < |widths| {
      var e := b + |groups[0]|;
      if e <= a {
        GreedyStaysAhead(widths, gap, max, a, e, groups[1..]);
      } else {
        var to := Fill(widths, gap, max, a, a + 1);
        if a + 1 < e {
          LaterStart(widths, gap, b, a, e);
        }
        FillReaches(widths, gap, max, a, a + 1, e);
        GreedyStaysAhead(widths, gap, max, to, e, groups[1..]);
      }
    }
  }

  /** What greedy wrapping still adds when the current line holds the words from `from` to `i - 1`. */
  function Remaining(widths: seq<int>, gap: int, max: int, from: nat, i: nat): seq<seq<nat>>
    requires from <= i <= |widths|
  {
    if from == i then Greedy(widths, gap, max, from)
    else
      var to := Fill(widths, gap, max, from, i);
      [Range(from, to)] + Greedy(widths, gap, max, to)
  }

  /** Word `i` does not fit and starts the next line. */
  lemma StartsLine(widths: seq<int>, gap: int, max: int, from: nat, i: nat, groups: seq<seq<nat>>)
    requires from < i < |widths| && Width(widths, gap, from, i) + gap + widths[i] > max
    ensures groups + Remaining(widths, gap, max, from, i)
         == (groups + [Range(from, i)]) + Remaining(widths, gap, max, i, i + 1)
  {
    var next := Remaining(widths, gap, max, i, i + 1);
    assert Greedy(widths, gap, max, i) == next;
    Assoc(groups, [Range(from, i)], next);
  }

  /** Word `i` joins the current line. */
  lemma JoinsLine(widths: seq<int>, gap: int, max: int, from: nat, i: nat)
    requires from <= i < |widths| && (from < i ==> Width(widths, gap, from, i) + gap + widths[i] <= max)
    ensures Remaining(widths, gap, max, from, i) == Remaining(widths, gap, max, from, i + 1)
  {
  }

  lemma LastLine(widths: seq<int>, gap: int, max: int, from: nat, groups: seq<seq<nat>>)
    requires from <= |widths|
    ensures groups + Remaining(widths, gap, max, from, |widths|)
         == if from < |widths| then groups + [Range(from, |widths|)] else groups
  {
  }

  lemma GreedyIsFewest(widths: seq<int>, gap: int, max: int, groups: seq<seq<nat>>)
    requires groups == Greedy(widths, gap, max, 0)
    ensures Wraps(widths, gap, max, 0, groups)
    ensures NonNegative(widths, gap) ==>
      forall other :: Wraps(widths, gap, max, 0, other) ==> |groups| <= |other|
  {
    GreedyWraps(widths, gap, max, 0);
    if NonNegative(widths, gap) {
      forall other | Wraps(widths, gap, max, 0, other)
        ensures |groups| <= |other|
      {
        GreedyStaysAhead(widths, gap, max, 0, 0, other);
      }
    }
  }

  /** `groupWidths`: a wrapping in order, and one with the fewest lines. */
  method Group(widths: seq<int>, gap: int, maxWidth: int) returns (groups: seq<seq<nat>>)
    ensures Wraps(widths, gap, maxWidth, 0, groups)
    ensures NonNegative(widths, gap) ==>
      forall other :: Wraps(widths, gap, maxWidth, 0, other) ==> |groups| <= |other|
  {
    groups := [];
    var cur: seq<nat>, curW := [], 0;
    ghost var from := 0;
    for i := 0 to |widths|
      invariant from <= i && (i > 0 ==> from < i) && cur == Range(from, i)
      invariant curW == if from == i then 0 else Width(widths, gap, from, i)
      invariant Greedy(widths, gap, maxWidth, 0) == groups + Remaining(widths, gap, maxWidth, from, i)
    {
      var w := widths[i];
      if |cur| > 0 && curW + gap + w > maxWidth {
        StartsLine(widths, gap, maxWidth, from, i, groups);
        groups := groups + [cur];
        cur, curW := [], 0;
        from := i;
      } else {
        JoinsLine(widths, gap, maxWidth, from, i);
      }
      RangePush(from, i);
      cur := cur + [i];
      curW := curW + if |cur| == 1 then w else gap + w;
    }
    LastLine(widths, gap, maxWidth, from, groups);
    if |cur| > 0 {
      groups := groups + [cur];
    }
    GreedyIsFewest(widths, gap, maxWidth, groups);
  }

  lemma RangePush(i: nat, j: nat)
    requires i <= j
    ensures Range(i, j) + [j] == Range(i, j + 1)
  {
  }

}
