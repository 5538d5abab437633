/**
 The row optimiser: a dynamic program whose transition looks at three
 predecessors only (the same state, the cheapest state with the same paper, the
 cheapest state of all), followed by a walk along the back pointers.
 */
module RowViterbi {
  import opened Wrappers
  import opened RowModel

  /**
   `nd`/`back` are the exact minimum over ALL predecessor states, attained at the
   back pointer; before the first opaque cell nothing has been paid.
   */
  ghost predicate Relaxed(row: Row, i: nat, dp: seq<real>, nd: seq<real>, back: seq<nat>)
    requires row.Valid() && i < |row.cells|
  {
    var k := |row.states|;
    && |dp| == |nd| == |back| == k
    && (forall s :: 0 <= s < k ==> back[s] < k)
    && (row.cells[i].Transparent? ==> nd == dp && forall s :: 0 <= s < k ==> back[s] == s)
    && (row.cells[i].Opaque? && row.Blank(i) ==>
          forall s :: 0 <= s < k ==> back[s] == s && nd[s] == row.Charge(i, None, s))
    && (row.cells[i].Opaque? && !row.Blank(i) ==>
          && (forall s :: 0 <= s < k ==> nd[s] == dp[back[s]] + row.Charge(i, Some(back[s]), s))
          && (forall s, q :: 0 <= s < k && 0 <= q < k ==> nd[s] <= dp[q] + row.Charge(i, Some(q), s)))
  }

  lemma WeightSplits(w: real, m: nat, n: nat)
    ensures w * (m + n) as real == w * m as real + w * n as real
  {
    assert (m + n) as real == m as real + n as real;
  }

  lemma PriceMonotone(w: real, m: nat, n: nat)
    requires w >= 0.0 && m <= n
    ensures 0.0 <= w * m as real <= w * n as real
  {
  }

  /** The cheapest state of all: `gmin`/`gidx`. */
  method CheapestOverall(dp: seq<real>) returns (gmin: real, gidx: nat)
    requires exists s :: 0 <= s < |dp| && dp[s] < SENTINEL
    ensures gidx < |dp| && dp[gidx] == gmin
    ensures forall s :: 0 <= s < |dp| ==> gmin <= dp[s]
  {
    gmin := SENTINEL;
    var found := -1;
    for s := 0 to |dp|
      invariant found == -1 ==> gmin == SENTINEL && forall q :: 0 <= q < s ==> dp[q] >= SENTINEL
      invariant found != -1 ==> 0 <= found < s && dp[found] == gmin
      invariant forall q :: 0 <= q < s ==> gmin <= dp[q]
    {
      if dp[s] < gmin {
        gmin, found := dp[s], s;
      }
    }
    gidx := found;
  }

  /** For every paper colour, the cheapest state that has it. */
  method CheapestPerPaper(states: seq<State>, dp: seq<real>) returns (best: map<nat, nat>)
    requires |states| == |dp|
    ensures forall s :: 0 <= s < |states| ==>
      && states[s].b in best
      && best[states[s].b] < |states|
      && states[best[states[s].b]].b == states[s].b
      && dp[best[states[s].b]] <= dp[s]
  {
    best := map[];
    for s := 0 to |states|
      invariant forall b :: b in best ==> best[b] < s && states[best[b]].b == b
      invariant forall q :: 0 <= q < s ==> states[q].b in best && dp[best[states[q].b]] <= dp[q]
    {
      var b := states[s].b;
      if b !in best || dp[s] < dp[best[b]] {
        best := best[b := s];
      }
    }
  }

  /** `cost` is the least cost of reaching state `s` of cell `i`, attained from state `p`. */
  ghost predicate Minimal(row: Row, i: nat, dp: seq<real>, s: nat, cost: real, p: nat)
    requires row.Valid() && i < |row.cells| && |dp| == |row.states| && s < |dp|
  {
    && p < |dp|
    && cost == dp[p] + row.Charge(i, Some(p), s)
    && forall q :: 0 <= q < |dp| ==> cost <= dp[q] + row.Charge(i, Some(q), s)
  }

  /** Three candidates stand for all predecessors: `best`/`bestIdxPrev` of the source. */
  method BestPredecessor(row: Row, dp: seq<real>, s: nat, same: nat, cheapest: nat) returns (best: real, p: nat)
    requires row.Valid() && |dp| == |row.states| && s < |dp| && same < |dp| && cheapest < |dp|
    requires row.states[same].b == row.states[s].b
    requires forall t :: 0 <= t < |dp| && row.states[t].b == row.states[s].b ==> dp[same] <= dp[t]
    requires forall t :: 0 <= t < |dp| ==> dp[cheapest] <= dp[t]
    ensures p < |dp| && best == dp[p] + row.w * row.Prefix(Some(p), s) as real
    ensures forall q :: 0 <= q < |dp| ==> best <= dp[q] + row.w * row.Prefix(Some(q), s) as real
  {
    var candStay := dp[same] + row.w * row.FgPref(s) as real;
    var candSwitch := dp[cheapest] + row.w * row.PairPref(s) as real;
    best, p := dp[s], s;
    if candStay < best {
      best, p := candStay, same;
    }
    if candSwitch < best {
      best, p := candSwitch, cheapest;
    }
    PriceMonotone(row.w, row.FgPref(s), row.PairPref(s));
    forall q | 0 <= q < |dp|
      ensures best <= dp[q] + row.w * row.Prefix(Some(q), s) as real
    {
      if q == s {
        assert row.Prefix(Some(q), s) == 0;
      } else if row.states[q].b == row.states[s].b {
        assert row.Prefix(Some(q), s) == row.FgPref(s);
      } else {
        assert row.Prefix(Some(q), s) == row.PairPref(s);
      }
    }
  }

  /** A cell's charge is its own cost plus the cost of its prefix. */
  lemma ChargeSplits(row: Row, i: nat, p: nat, s: nat)
    requires row.Valid() && i < |row.cells| && row.cells[i].Opaque? && s < |row.states| && p < |row.states|
    ensures var g := row.cells[i].choices[s];
            row.Charge(i, Some(p), s) == g.err + row.w * g.bytes as real + row.w * row.Prefix(Some(p), s) as real
  {
    WeightSplits(row.w, row.cells[i].choices[s].bytes, row.Prefix(Some(p), s));
  }

  /** Adding the cell's own cost keeps the minimum. */
  lemma MinimalFromPrefix(row: Row, i: nat, dp: seq<real>, s: nat, best: real, p: nat)
    requires row.Valid() && i < |row.cells| && row.cells[i].Opaque?
    requires |dp| == |row.states| && s < |dp| && p < |dp|
    requires best == dp[p] + row.w * row.Prefix(Some(p), s) as real
    requires forall q :: 0 <= q < |dp| ==> best <= dp[q] + row.w * row.Prefix(Some(q), s) as real
    ensures var g := row.cells[i].choices[s];
            Minimal(row, i, dp, s, best + g.err + row.w * g.bytes as real, p)
  {
    var g := row.cells[i].choices[s];
    ChargeSplits(row, i, p, s);
    forall q | 0 <= q < |dp|
      ensures best + g.err + row.w * g.bytes as real <= dp[q] + row.Charge(i, Some(q), s)
    {
      ChargeSplits(row, i, q, s);
      assert best <= dp[q] + row.w * row.Prefix(Some(q), s) as real;
    }
  }

  /** Costs of an opaque cell with nothing in force: every state pays its full pair. */
  method OpeningCosts(row: Row, i: nat) returns (nd: seq<real>)
    requires row.Valid() && i < |row.cells|
    ensures |nd| == |row.states|
    ensures forall s :: 0 <= s < |nd| ==> nd[s] == row.Charge(i, None, s)
  {
    var a := new real[|row.states|];
    for s := 0 to |row.states|
      invariant forall t :: 0 <= t < s ==> a[t] == row.Charge(i, None, t)
    {
      if row.cells[i].Transparent? {
        a[s] := 0.0;
      } else {
        var g := row.cells[i].choices[s];
        a[s] := g.err + row.w * (g.bytes + row.PairPref(s)) as real;
      }
    }
    nd := a[..];
  }

  /** `nd[s]` and `back[i][s]` of a later opaque cell. */
  method RelaxState(row: Row, i: nat, dp: seq<real>, s: nat, same: nat, cheapest: nat) returns (cost: real, p: nat)
    requires row.Valid() && i < |row.cells| && row.cells[i].Opaque?
    requires |dp| == |row.states| && s < |dp| && same < |dp| && cheapest < |dp|
    requires row.states[same].b == row.states[s].b
    requires forall t :: 0 <= t < |dp| && row.states[t].b == row.states[s].b ==> dp[same] <= dp[t]
    requires forall t :: 0 <= t < |dp| ==> dp[cheapest] <= dp[t]
    ensures Minimal(row, i, dp, s, cost, p)
  {
    var g := row.cells[i].choices[s];
    var best;
    best, p := BestPredecessor(row, dp, s, same, cheapest);
    MinimalFromPrefix(row, i, dp, s, best, p);
    cost := best + g.err + row.w * g.bytes as real;
  }

  /** Costs of a later opaque cell, starting from the costs `dp` of the cells before it. */
  method RelaxOpaque(row: Row, i: nat, dp: seq<real>) returns (nd: seq<real>, back: seq<nat>)
    requires row.Valid() && i < |row.cells| && row.cells[i].Opaque? && |dp| == |row.states|
    requires exists s :: 0 <= s < |dp| && dp[s] < SENTINEL
    ensures |nd| == |back| == |dp|
    ensures forall s :: 0 <= s < |dp| ==> Minimal(row, i, dp, s, nd[s], back[s])
  {
    var gmin, gidx := CheapestOverall(dp);
    var bMin := CheapestPerPaper(row.states, dp);
    var ndA := new real[|dp|];
    var backA := new nat[|dp|];
    for s := 0 to |dp|
      invariant forall t :: 0 <= t < s ==> Minimal(row, i, dp, t, ndA[t], backA[t])
    {
      ndA[s], backA[s] := RelaxState(row, i, dp, s, bMin[row.states[s].b], gidx);
    }
    nd, back := ndA[..], backA[..];
  }

  /** One cell of the forward pass. */
  method RelaxCell(row: Row, i: nat, dp: seq<real>, isFirst: bool) returns (nd: seq<real>, back: seq<nat>)
    requires row.Valid() && i < |row.cells| && |dp| == |row.states|
    requires isFirst <==> row.cells[i].Opaque? && row.Blank(i)
    requires row.cells[i].Opaque? && !isFirst ==> exists s :: 0 <= s < |dp| && dp[s] < SENTINEL
    ensures Relaxed(row, i, dp, nd, back)
  {
    if row.cells[i].Transparent? {
      nd, back := dp, seq(|dp|, s => s);
    } else if isFirst {
      nd := OpeningCosts(row, i);
      back := seq(|dp|, s => s);
    } else {
      nd, back := RelaxOpaque(row, i, dp);
    }
  }

  /**
   What the cost table means: `hist[i][s]` bounds every choice that is in state `s`
   after cell `i`.
   */
  ghost predicate LowerBound(row: Row, i: nat, dp: seq<real>)
    requires row.Valid() && i <= |row.cells| && |dp| == |row.states|
  {
    && (row.Blank(i) ==> forall s :: 0 <= s < |dp| ==> dp[s] == 0.0)
    && forall path :: row.IsPath(path) ==>
         match row.InForce(path, i)
         case None => row.Blank(i) && row.Cost(path, i) == 0.0
         case Some(s) => !row.Blank(i) && dp[s] <= row.Cost(path, i)
  }

  lemma LowerBoundFirst(row: Row, dp: seq<real>)
    requires row.Valid() && |dp| == |row.states|
    requires forall s :: 0 <= s < |dp| ==> dp[s] == row.Charge(0, None, s)
    ensures LowerBound(row, 1, dp)
  {
    forall path | row.IsPath(path)
      ensures match row.InForce(path, 1)
              case None => row.Blank(1) && row.Cost(path, 1) == 0.0
              case Some(s) => !row.Blank(1) && dp[s] <= row.Cost(path, 1)
    {
      assert row.InForce(path, 0) == None && row.Cost(path, 0) == 0.0;
    }
  }

  lemma LowerBoundStep(row: Row, i: nat, dp: seq<real>, nd: seq<real>, back: seq<nat>)
    requires row.Valid() && i < |row.cells| && |dp| == |row.states|
    requires LowerBound(row, i, dp) && Relaxed(row, i, dp, nd, back)
    ensures LowerBound(row, i + 1, nd)
  {
    assert row.Blank(i + 1) <==> row.Blank(i) && row.cells[i].Transparent?;
    forall path | row.IsPath(path)
      ensures match row.InForce(path, i + 1)
              case None => row.Blank(i + 1) && row.Cost(path, i + 1) == 0.0
              case Some(s) => !row.Blank(i + 1) && nd[s] <= row.Cost(path, i + 1)
    {
      var prev, s := row.InForce(path, i), path[i];
      assert row.Cost(path, i + 1) == row.Cost(path, i) + row.Charge(i, prev, s);
      if row.cells[i].Opaque? && prev.Some? {
        assert nd[s] <= dp[prev.value] + row.Charge(i, prev, s);
      }
    }
  }

  /** The walk along the back pointers pays exactly what the table says. */
  ghost predicate Attained(row: Row, path: seq<nat>, i: nat, dp: seq<real>)
    requires row.Valid() && row.IsPath(path) && 0 < i <= |row.cells| && |dp| == |row.states|
  {
    && row.Cost(path, i) == dp[path[i - 1]]
    && row.InForce(path, i) == if row.Blank(i) then None else Some(path[i - 1])
  }

  lemma AttainedStep(row: Row, path: seq<nat>, i: nat, dp: seq<real>, nd: seq<real>, back: seq<nat>)
    requires row.Valid() && row.IsPath(path) && 0 < i < |row.cells| && |dp| == |row.states|
    requires LowerBound(row, i, dp) && Relaxed(row, i, dp, nd, back)
    requires path[i - 1] == back[path[i]]
    requires Attained(row, path, i, dp)
    ensures Attained(row, path, i + 1, nd)
  {
    assert row.Blank(i + 1) <==> row.Blank(i) && row.cells[i].Transparent?;
    assert row.Cost(path, i + 1) == row.Cost(path, i) + row.Charge(i, row.InForce(path, i), path[i]);
  }

  /** Back pointers of cell `i`: real states, and no change across a transparent cell. */
  ghost predicate GoodLinks(row: Row, i: nat, back: seq<nat>)
    requires i < |row.cells|
  {
    && |back| == |row.states|
    && forall s :: 0 <= s < |back| ==> back[s] < |back| && (row.cells[i].Transparent? ==> back[s] == s)
  }

  /** Every table of the forward pass. */
  ghost predicate Tables(row: Row, hist: seq<seq<real>>, back: seq<seq<nat>>, n: nat)
    requires row.Valid() && 0 < n <= |row.cells|
  {
    && |hist| == |back| == n
    && (forall i :: 0 <= i < n ==> GoodLinks(row, i, back[i]))
    && (forall i :: 0 <= i < n ==> |hist[i]| == |row.states| && LowerBound(row, i + 1, hist[i]))
    && (forall s :: 0 <= s < |row.states| ==> hist[0][s] == row.Charge(0, None, s))
    && forall i :: 1 <= i < n ==> Relaxed(row, i, hist[i - 1], hist[i], back[i])
  }

  ghost predicate WalksBack(row: Row, path: seq<nat>, back: seq<seq<nat>>) {
    && |back| == |row.cells| && (forall i :: 0 <= i < |back| ==> |back[i]| == |row.states|)
    && row.IsPath(path)
    && forall j :: 1 <= j < |path| ==> path[j - 1] == back[j][path[j]]
  }

  lemma {:induction false} WalkAttains(row: Row, path: seq<nat>, hist: seq<seq<real>>, back: seq<seq<nat>>, i: nat)
    requires row.Valid() && Tables(row, hist, back, |row.cells|) && row.IsPath(path)
    requires WalksBack(row, path, back)
    requires 0 < i <= |row.cells|
    ensures Attained(row, path, i, hist[i - 1])
  {
    if i == 1 {
      assert row.InForce(path, 0) == None && row.Cost(path, 0) == 0.0;
      assert row.Cost(path, 1) == row.Charge(0, None, path[0]);
    } else {
      WalkAttains(row, path, hist, back, i - 1);
      AttainedStep(row, path, i - 1, hist[i - 2], hist[i - 1], back[i - 1]);
    }
  }

  lemma SomeStateBelowSentinel(row: Row, i: nat, dp: seq<real>)
    requires row.Valid() && row.BelowSentinel() && i < |row.cells| && |dp| == |row.states|
    requires LowerBound(row, i, dp) && row.cells[i].Opaque? && !row.Blank(i)
    ensures exists s :: 0 <= s < |dp| && dp[s] < SENTINEL
  {
    var path :| row.IsPath(path) && row.Cost(path, i) < SENTINEL;
    assert row.InForce(path, i).Some?;
    var s := row.InForce(path, i).value;
    assert dp[s] < SENTINEL;
  }

  lemma TablesExtend(row: Row, hist: seq<seq<real>>, back: seq<seq<nat>>, i: nat, nd: seq<real>, b: seq<nat>)
    requires row.Valid() && 0 < i < |row.cells| && Tables(row, hist, back, i)
    requires Relaxed(row, i, hist[i - 1], nd, b)
    ensures Tables(row, hist + [nd], back + [b], i + 1)
  {
    LowerBoundStep(row, i, hist[i - 1], nd, b);
  }

  /** The forward pass over all cells. */
  method ForwardPass(row: Row) returns (dp: seq<real>, back: seq<seq<nat>>, ghost hist: seq<seq<real>>)
    requires row.Valid() && row.BelowSentinel()
    ensures Tables(row, hist, back, |row.cells|) && hist[|hist| - 1] == dp
  {
    dp := OpeningCosts(row, 0);
    back := [seq(|row.states|, s => s)];
    hist := [dp];
    LowerBoundFirst(row, dp);
    var seenOpaque := row.cells[0].Opaque?;
    for i := 1 to |row.cells|
      invariant Tables(row, hist, back, i) && hist[i - 1] == dp
      invariant seenOpaque <==> !row.Blank(i)
    {
      if row.cells[i].Opaque? && seenOpaque {
        SomeStateBelowSentinel(row, i, dp);
      }
      var nd, b := RelaxCell(row, i, dp, row.cells[i].Opaque? && !seenOpaque);
      TablesExtend(row, hist, back, i, nd, b);
      hist, back := hist + [nd], back + [b];
      dp := nd;
      seenOpaque := seenOpaque || row.cells[i].Opaque?;
    }
  }

  /** `chosenIdx`: from the cheapest end state back to cell 0. */
  method WalkBack(row: Row, back: seq<seq<nat>>, bestEnd: nat) returns (chosen: seq<nat>)
    requires row.Valid() && bestEnd < |row.states| && |back| == |row.cells|
    requires forall i :: 0 <= i < |back| ==> GoodLinks(row, i, back[i])
    ensures WalksBack(row, chosen, back) && chosen[|chosen| - 1] == bestEnd
    ensures forall i :: 0 < i < |chosen| && row.cells[i].Transparent? ==> chosen[i] == chosen[i - 1]
  {
    var m := |row.cells|;
    var a := new nat[m](_ => 0);
    a[m - 1] := bestEnd;
    for i := m - 1 downto 0
      invariant a[m - 1] == bestEnd
      invariant forall j :: i <= j < m ==> a[j] < |row.states|
      invariant forall j :: i < j < m ==> a[j - 1] == back[j][a[j]]
      invariant forall j :: i < j < m && row.cells[j].Transparent? ==> a[j] == a[j - 1]
    {
      if row.cells[i + 1].Transparent? {
        a[i] := a[i + 1];
      } else {
        a[i] := back[i + 1][a[i + 1]];
      }
    }
    chosen := a[..];
  }

  /**
   The row optimiser: no sequence of states over the whole row costs less than the
   chosen one.
   */
  method SolveRow(row: Row) returns (chosen: seq<nat>, total: real)
    requires row.Valid() && row.BelowSentinel()
    ensures row.IsPath(chosen) && total == row.Cost(chosen, |row.cells|)
    ensures forall path :: row.IsPath(path) ==> total <= row.Cost(path, |row.cells|)
    ensures forall i :: 0 < i < |chosen| && row.cells[i].Transparent? ==> chosen[i] == chosen[i - 1]
  {
    var dp, back, hist := ForwardPass(row);
    var bestEnd := 0;
    for s := 1 to |row.states|
      invariant bestEnd < |row.states| && forall q :: 0 <= q < s ==> dp[bestEnd] <= dp[q]
    {
      if dp[s] < dp[bestEnd] {
        bestEnd := s;
      }
    }
    total := dp[bestEnd];
    chosen := WalkBack(row, back, bestEnd);
    WalkAttains(row, chosen, hist, back, |row.cells|);
    BestEndIsLeast(row, dp, bestEnd);
  }

  lemma BestEndIsLeast(row: Row, dp: seq<real>, bestEnd: nat)
    requires row.Valid() && |dp| == |row.states| && bestEnd < |dp| && LowerBound(row, |row.cells|, dp)
    requires forall s :: 0 <= s < |dp| ==> dp[bestEnd] <= dp[s]
    ensures forall path :: row.IsPath(path) ==> dp[bestEnd] <= row.Cost(path, |row.cells|)
  {
    forall path | row.IsPath(path)
      ensures dp[bestEnd] <= row.Cost(path, |row.cells|)
    {
      var last := row.InForce(path, |row.cells|);
      if last.Some? {
        assert dp[bestEnd] <= dp[last.value];
      }
    }
  }
}
