/**
 Cutting a row of cells into segments of mixed kinds at least cost: the suffix
 dynamic program and the pruned search it is checked against.
 */
module Segmentation {
  import opened Wrappers

  datatype Seg<G> = Seg(len: nat, g: G)

  type Weight<!G> = (nat, nat, G) -> real

  const INF: real := 1000000000000000000.0

  function Total<G>(segs: seq<Seg<G>>): nat {
    if segs == [] then 0 else segs[0].len + Total(segs[1..])
  }

  /** `isValid`: positive lengths that add up to `n`. */
  predicate Valid<G>(n: int, segs: seq<Seg<G>>) {
    (forall i :: 0 <= i < |segs| ==> segs[i].len > 0) && Total(segs) == n
  }

  /** `segCost`, from position `i` on. */
  function SegCost<G>(w: Weight<G>, i: nat, segs: seq<Seg<G>>): real
    decreases |segs|
  {
    if segs == [] then 0.0 else w(i, segs[0].len, segs[0].g) + SegCost(w, i + segs[0].len, segs[1..])
  }

  /** The loop of `segCost`. */
  method ComputeSegCost<G>(w: Weight<G>, i: nat, segs: seq<Seg<G>>) returns (acc: real)
    ensures acc == SegCost(w, i, segs)
  {
    acc := 0.0;
    var pos: nat := i;
    for k := 0 to |segs|
      invariant acc + SegCost(w, pos, segs[k..]) == SegCost(w, i, segs)
    {
      assert segs[k..][1..] == segs[k + 1..];
      acc := acc + w(pos, segs[k].len, segs[k].g);
      pos := pos + segs[k].len;
    }
  }

  /** The loop of `isValid`. */
  method CheckValid<G>(n: int, segs: seq<Seg<G>>) returns (ok: bool)
    ensures ok == Valid(n, segs)
  {
    var sum := 0;
    for k := 0 to |segs|
      invariant sum + Total(segs[k..]) == Total(segs)
      invariant forall i :: 0 <= i < k ==> segs[i].len > 0
    {
      if segs[k].len <= 0 {
        return false;
      }
      assert segs[k..][1..] == segs[k + 1..];
      sum := sum + segs[k].len;
    }
    ok := sum == n;
  }

  /** A missing or zero cap is no cap. */
  predicate WithinCap(cap: Option<int>, len: nat) {
    cap.None? || cap.value == 0 || len <= cap.value
  }

  /**
   `segs` covers the cells from `pos` to `n` with kinds from `kinds`, no segment over
   the cap, and every suffix of it costs less than the sentinel.
   */
  ghost predicate Fits<G>(w: Weight<G>, kinds: seq<G>, cap: Option<int>, n: nat, pos: nat, segs: seq<Seg<G>>)
    decreases |segs|
  {
    if segs == [] then pos == n
    else
      && segs[0].len > 0 && WithinCap(cap, segs[0].len) && segs[0].g in kinds
      && pos + segs[0].len <= n
      && SegCost(w, pos, segs) < INF
      && Fits(w, kinds, cap, n, pos + segs[0].len, segs[1..])
  }

  /** `d` is the least cost from `pos`, attained by `sol`; the sentinel if nothing fits. */
  ghost predicate Least<G(!new)>(w: Weight<G>, kinds: seq<G>, cap: Option<int>, n: nat, pos: nat,
                                 d: real, sol: seq<Seg<G>>) {
    && (d < INF ==> Fits(w, kinds, cap, n, pos, sol) && SegCost(w, pos, sol) == d)
    && (d >= INF ==> d == INF && sol == [])
    && forall segs: seq<Seg<G>> :: Fits(w, kinds, cap, n, pos, segs) ==> d <= SegCost(w, pos, segs) && d < INF
  }

  /** `Chosen(len, g)`: the first segment of the best suffix, the source's back entry. */
  datatype Choice<G> = NoChoice | Chosen(len: nat, g: G)

  ghost predicate Backed<G>(w: Weight<G>, kinds: seq<G>, cap: Option<int>, pos: nat, dp: seq<real>,
                            best: real, choice: Choice<G>) {
    && (choice.NoChoice? ==> best == INF)
    && (choice.Chosen? ==>
          && 0 < choice.len && pos + choice.len < |dp| && WithinCap(cap, choice.len) && choice.g in kinds
          && dp[pos + choice.len] < INF && best < INF
          && best == w(pos, choice.len, choice.g) + dp[pos + choice.len])
  }

  /** The inner loops for one position: `dp` holds the costs of all later positions. */
  method BestChoice<G>(w: Weight<G>, kinds: seq<G>, cap: Option<int>, pos: nat, dp: seq<real>)
    returns (best: real, choice: Choice<G>)
    requires pos + 1 < |dp|
    ensures Backed(w, kinds, cap, pos, dp, best, choice) && best <= INF
    ensures forall l, j :: 0 < l && pos + l < |dp| && WithinCap(cap, l) && 0 <= j < |kinds| && dp[pos + l] < INF ==>
              best <= w(pos, l, kinds[j]) + dp[pos + l]
  {
    best, choice := INF, NoChoice;
    var maxLen := |dp| - 1 - pos;
    if cap.Some? && cap.value != 0 && cap.value < maxLen {
      maxLen := cap.value;
    }
    var len := 1;
    while len <= maxLen
      invariant 1 <= len && (len <= maxLen + 1 || maxLen < 0)
      invariant Backed(w, kinds, cap, pos, dp, best, choice) && best <= INF
      invariant forall l, j :: 0 < l < len && pos + l < |dp| && 0 <= j < |kinds| && dp[pos + l] < INF ==>
                  best <= w(pos, l, kinds[j]) + dp[pos + l]
    {
      if dp[pos + len] < INF {
        best, choice := TryKinds(w, kinds, cap, pos, dp, len, best, choice);
      }
      len := len + 1;
    }
  }

  /** The innermost loop, over the kinds. */
  method TryKinds<G>(w: Weight<G>, kinds: seq<G>, cap: Option<int>, pos: nat, dp: seq<real>, len: nat,
                     best0: real, choice0: Choice<G>)
    returns (best: real, choice: Choice<G>)
    requires 0 < len && pos + len < |dp| && dp[pos + len] < INF && WithinCap(cap, len)
    requires Backed(w, kinds, cap, pos, dp, best0, choice0) && best0 <= INF
    ensures Backed(w, kinds, cap, pos, dp, best, choice) && best <= best0
    ensures forall j :: 0 <= j < |kinds| ==> best <= w(pos, len, kinds[j]) + dp[pos + len]
  {
    best, choice := best0, choice0;
    for k := 0 to |kinds|
      invariant Backed(w, kinds, cap, pos, dp, best, choice) && best <= best0
      invariant forall j :: 0 <= j < k ==> best <= w(pos, len, kinds[j]) + dp[pos + len]
    {
      var c := w(pos, len, kinds[k]) + dp[pos + len];
      if c < best {
        best, choice := c, Chosen(len, kinds[k]);
      }
    }
  }

  /** One more position is solved. */
  lemma LeastStep<G(!new)>(w: Weight<G>, kinds: seq<G>, cap: Option<int>, n: nat, pos: nat, dp: seq<real>,
                           sols: seq<seq<Seg<G>>>, best: real, choice: Choice<G>)
    returns (sol: seq<Seg<G>>)
    requires pos < n && |dp| == |sols| == n + 1
    requires forall q :: pos < q <= n ==> Least(w, kinds, cap, n, q, dp[q], sols[q])
    requires Backed(w, kinds, cap, pos, dp, best, choice) && best <= INF
    requires forall l, j :: 0 < l && pos + l < |dp| && WithinCap(cap, l) && 0 <= j < |kinds| && dp[pos + l] < INF ==>
               best <= w(pos, l, kinds[j]) + dp[pos + l]
    ensures Least(w, kinds, cap, n, pos, best, sol)
    ensures sol == if choice.Chosen? then [Seg(choice.len, choice.g)] + sols[pos + choice.len] else []
  {
    sol := if choice.Chosen? then [Seg(choice.len, choice.g)] + sols[pos + choice.len] else [];
    if choice.Chosen? {
      assert sol[1..] == sols[pos + choice.len];
    }
    forall segs: seq<Seg<G>> | Fits(w, kinds, cap, n, pos, segs)
      ensures best <= SegCost(w, pos, segs) && best < INF
    {
      var l, g := segs[0].len, segs[0].g;
      var j :| 0 <= j < |kinds| && kinds[j] == g;
      assert Least(w, kinds, cap, n, pos + l, dp[pos + l], sols[pos + l]);
      assert Fits(w, kinds, cap, n, pos + l, segs[1..]);
      assert best <= w(pos, l, kinds[j]) + dp[pos + l];
    }
  }

  /** The tables from position `pos` on. */
  ghost predicate Solved<G(!new)>(w: Weight<G>, kinds: seq<G>, cap: Option<int>, n: nat, pos: nat,
                                  dp: seq<real>, back: seq<Choice<G>>, sols: seq<seq<Seg<G>>>)
    requires |dp| == |back| == |sols| == n + 1
  {
    && (forall q :: pos <= q <= n ==> Least(w, kinds, cap, n, q, dp[q], sols[q]))
    && sols[n] == []
    && forall q :: pos <= q < n ==> Linked(n, q, back, sols)
  }

  /** The back entry of position `q` starts its best suffix. */
  ghost predicate Linked<G>(n: nat, q: nat, back: seq<Choice<G>>, sols: seq<seq<Seg<G>>>)
    requires |back| == |sols| == n + 1 && q < n
  {
    if back[q].NoChoice? then sols[q] == []
    else 0 < back[q].len && q + back[q].len <= n
         && sols[q] == [Seg(back[q].len, back[q].g)] + sols[q + back[q].len]
  }

  lemma LinkedStep<G>(n: nat, pos: nat, back: seq<Choice<G>>, back': seq<Choice<G>>,
                      sols: seq<seq<Seg<G>>>, sols': seq<seq<Seg<G>>>)
    requires |back| == |sols| == |back'| == |sols'| == n + 1 && pos < n
    requires forall q :: pos < q < n ==> Linked(n, q, back, sols)
    requires back' == back[pos := back'[pos]] && sols' == sols[pos := sols'[pos]]
    requires Linked(n, pos, back', sols')
    ensures forall q :: pos <= q < n ==> Linked(n, q, back', sols')
  {
    forall q | pos <= q < n
      ensures Linked(n, q, back', sols')
    {
      assert q > pos ==> Linked(n, q, back, sols);
    }
  }

  /** The tables, filled from the last position to the first. */
  method FillTables<G(0, !new)>(w: Weight<G>, kinds: seq<G>, n: nat, cap: Option<int>)
    returns (dp: seq<real>, back: seq<Choice<G>>, ghost sols: seq<seq<Seg<G>>>)
    ensures |dp| == |back| == |sols| == n + 1
    ensures Solved(w, kinds, cap, n, 0, dp, back, sols)
  {
    dp, back := seq(n + 1, _ => INF)[n := 0.0], seq(n + 1, _ => NoChoice);
    sols := seq(n + 1, _ => []);
    for pos := n downto 0
      invariant |dp| == |back| == |sols| == n + 1
      invariant Solved(w, kinds, cap, n, pos, dp, back, sols)
    {
      var best, choice := BestChoice(w, kinds, cap, pos, dp);
      ghost var sol := LeastStep(w, kinds, cap, n, pos, dp, sols, best, choice);
      ghost var back0, sols0 := back, sols;
      dp, back, sols := dp[pos := best], back[pos := choice], sols[pos := sol];
      LinkedStep(n, pos, back0, back, sols0, sols);
    }
  }

  /**
   `dpSeg`: throws on an empty kind list; otherwise the cost is below the sentinel if
   and only if something fits, and then the segments fit, cost just that, and
   nothing that fits costs less.
   */
  method DpSeg<G(0, !new)>(w: Weight<G>, kinds: seq<G>, n: nat, cap: Option<int>)
    returns (r: Result<(real, seq<Seg<G>>), string>)
    ensures r.Err? <==> kinds == []
    ensures r.Ok? ==>
      var (cost, segs) := r.value;
      && (cost < INF <==> exists s: seq<Seg<G>> :: Fits(w, kinds, cap, n, 0, s))
      && (cost < INF ==> Fits(w, kinds, cap, n, 0, segs) && SegCost(w, 0, segs) == cost)
      && (forall s: seq<Seg<G>> :: Fits(w, kinds, cap, n, 0, s) ==> cost <= SegCost(w, 0, s))
      && (cost >= INF ==> cost == INF && segs == [])
  {
    if |kinds| == 0 {
      return Err("G must be nonempty");
    }
    var dp, back, sols := FillTables(w, kinds, n, cap);
    var segs: seq<Seg<G>> := [];
    var cur := 0;
    while cur < n && back[cur].Chosen?
      invariant cur <= n && segs + sols[cur] == sols[0]
    {
      var ch := back[cur];
      assert Linked(n, cur, back, sols);
      assert segs + ([Seg(ch.len, ch.g)] + sols[cur + ch.len]) == (segs + [Seg(ch.len, ch.g)]) + sols[cur + ch.len];
      segs := segs + [Seg(ch.len, ch.g)];
      cur := cur + ch.len;
    }
    assert cur < n ==> Linked(n, cur, back, sols);
    assert segs + [] == segs;
    r := Ok((dp[0], segs));
    assert segs == sols[0] && Least(w, kinds, cap, n, 0, dp[0], sols[0]);
    if dp[0] < INF {
      assert Fits(w, kinds, cap, n, 0, segs);
      assert exists s: seq<Seg<G>> :: Fits(w, kinds, cap, n, 0, s);
    }
  }

  // ---------------------------------------------------------------- the pruned search

  ghost predicate NonNegative<G(!new)>(w: Weight<G>) {
    forall i: nat, len: nat, g: G :: w(i, len, g) >= 0.0
  }

  /** A valid segmentation of `n` cells with kinds from the list. */
  ghost predicate Covers<G>(kinds: seq<G>, n: int, segs: seq<Seg<G>>) {
    Valid(n, segs) && forall k :: 0 <= k < |segs| ==> segs[k].g in kinds
  }

  lemma {:induction false} CostNonNegative<G(!new)>(w: Weight<G>, i: nat, segs: seq<Seg<G>>)
    requires NonNegative(w)
    ensures SegCost(w, i, segs) >= 0.0
    decreases |segs|
  {
    if segs != [] {
      CostNonNegative(w, i + segs[0].len, segs[1..]);
    }
  }

  lemma {:induction false} CostAppend<G>(w: Weight<G>, i: nat, segs: seq<Seg<G>>, s: Seg<G>)
    ensures Total(segs + [s]) == Total(segs) + s.len
    ensures SegCost(w, i, segs + [s]) == SegCost(w, i, segs) + w(i + Total(segs), s.len, s.g)
    decreases |segs|
  {
    if segs == [] {
      assert [s][1..] == [] && [] + [s] == [s];
    } else {
      assert (segs + [s])[1..] == segs[1..] + [s];
      CostAppend(w, i + segs[0].len, segs[1..], s);
    }
  }

  lemma CoversTail<G>(kinds: seq<G>, n: nat, segs: seq<Seg<G>>)
    requires Covers(kinds, n, segs) && segs != []
    ensures 0 < segs[0].len <= n && segs[0].g in kinds && Covers(kinds, n - segs[0].len, segs[1..])
  {
    assert forall k :: 0 <= k < |segs[1..]| ==> segs[1..][k] == segs[k + 1];
  }

  /** The best cover found so far, if any. */
  datatype Found<G(!new)> = Found(cost: Option<real>, segs: seq<Seg<G>>) {
    ghost predicate Ok(w: Weight<G>, kinds: seq<G>, n: nat) {
      cost.Some? ==> Covers(kinds, n, segs) && SegCost(w, 0, segs) == cost.value
    }

    ghost predicate NoWorse(other: Found<G>) {
      other.cost.Some? ==> cost.Some? && cost.value <= other.cost.value
    }

    /** No cover of the cells from `pos` on makes a stack of cost `acc` cheaper. */
    ghost predicate BeatsAll(w: Weight<G>, kinds: seq<G>, n: nat, pos: nat, acc: real) {
      forall segs: seq<Seg<G>> :: Covers(kinds, n - pos, segs) ==> Beats(w, pos, acc, segs)
    }

    /** The same for covers that start with segment `s`. */
    ghost predicate BeatsVia(w: Weight<G>, kinds: seq<G>, n: nat, pos: nat, acc: real, s: Seg<G>) {
      forall segs: seq<Seg<G>> :: segs != [] && segs[0] == s && Covers(kinds, n - pos, segs) ==>
        Beats(w, pos, acc, segs)
    }

    ghost predicate Beats(w: Weight<G>, pos: nat, acc: real, segs: seq<Seg<G>>) {
      cost.Some? && cost.value <= acc + SegCost(w, pos, segs)
    }
  }

  lemma BeatsViaSegment<G(!new)>(f: Found<G>, w: Weight<G>, kinds: seq<G>, n: nat, pos: nat, acc: real, s: Seg<G>)
    requires pos + s.len <= n
    requires f.BeatsAll(w, kinds, n, pos + s.len, acc + w(pos, s.len, s.g))
    ensures f.BeatsVia(w, kinds, n, pos, acc, s)
  {
    forall segs: seq<Seg<G>> | segs != [] && segs[0] == s && Covers(kinds, n - pos, segs)
      ensures f.Beats(w, pos, acc, segs)
    {
      CoversTail(kinds, n - pos, segs);
      assert Covers(kinds, n - (pos + s.len), segs[1..]);
      assert f.Beats(w, pos + s.len, acc + w(pos, s.len, s.g), segs[1..]);
    }
  }

  lemma BeatsAllSegments<G(!new)>(f: Found<G>, w: Weight<G>, kinds: seq<G>, n: nat, pos: nat, acc: real)
    requires pos < n
    requires forall l, j :: 1 <= l <= n - pos && 0 <= j < |kinds| ==>
               f.BeatsVia(w, kinds, n, pos, acc, Seg(l, kinds[j]))
    ensures f.BeatsAll(w, kinds, n, pos, acc)
  {
    forall segs: seq<Seg<G>> | Covers(kinds, n - pos, segs)
      ensures f.Beats(w, pos, acc, segs)
    {
      CoversTail(kinds, n - pos, segs);
      var j :| 0 <= j < |kinds| && kinds[j] == segs[0].g;
      assert f.BeatsVia(w, kinds, n, pos, acc, Seg(segs[0].len, kinds[j]));
    }
  }

  /** Pruning: what already costs as much as the best cannot become cheaper. */
  lemma BeatsByPrefix<G(!new)>(f: Found<G>, w: Weight<G>, kinds: seq<G>, n: nat, pos: nat, acc: real)
    requires NonNegative(w) && f.cost.Some? && f.cost.value <= acc
    ensures f.BeatsAll(w, kinds, n, pos, acc)
  {
    forall segs: seq<Seg<G>> | Covers(kinds, n - pos, segs)
      ensures f.Beats(w, pos, acc, segs)
    {
      CostNonNegative(w, pos, segs);
    }
  }

  /** The search with its shared stack. */
  class Search<G(!new, ==)> {
    const w: Weight<G>
    const kinds: seq<G>
    const n: nat
    var found: Found<G>
    var cur: seq<Seg<G>>

    constructor (w: Weight<G>, kinds: seq<G>, n: nat)
      ensures this.w == w && this.kinds == kinds && this.n == n
      ensures found == Found(None, []) && cur == []
    {
      this.w, this.kinds, this.n := w, kinds, n;
      found, cur := Found(None, []), [];
    }

    /** `dfs`: the stack comes back as it was, and every continuation of it is beaten. */
    method Dfs(pos: nat, acc: real)
      requires pos <= n && found.Ok(w, kinds, n)
      requires Covers(kinds, pos, cur) && SegCost(w, 0, cur) == acc
      modifies this
      ensures cur == old(cur) && found.Ok(w, kinds, n) && found.NoWorse(old(found))
      ensures NonNegative(w) ==> found.BeatsAll(w, kinds, n, pos, acc)
      decreases n - pos, 1, 0
    {
      if pos == n {
        if found.cost.None? || acc < found.cost.value {
          found := Found(Some(acc), cur);
        }
        if NonNegative(w) {
          BeatsByPrefix(found, w, kinds, n, pos, acc);
        }
        return;
      }
      if found.cost.Some? && acc >= found.cost.value {
        if NonNegative(w) {
          BeatsByPrefix(found, w, kinds, n, pos, acc);
        }
        return;
      }
      for len := 1 to n - pos + 1
        invariant cur == old(cur) && found.Ok(w, kinds, n) && found.NoWorse(old(found))
        invariant NonNegative(w) ==> forall l, j :: 1 <= l < len && 0 <= j < |kinds| ==>
                    found.BeatsVia(w, kinds, n, pos, acc, Seg(l, kinds[j]))
      {
        TryLength(pos, acc, len);
      }
      if NonNegative(w) {
        BeatsAllSegments(found, w, kinds, n, pos, acc);
      }
    }

    /** The inner loop: every kind for one length. */
    method TryLength(pos: nat, acc: real, len: nat)
      requires pos < n && 0 < len <= n - pos && found.Ok(w, kinds, n)
      requires Covers(kinds, pos, cur) && SegCost(w, 0, cur) == acc
      modifies this
      ensures cur == old(cur) && found.Ok(w, kinds, n) && found.NoWorse(old(found))
      ensures NonNegative(w) ==>
        forall j :: 0 <= j < |kinds| ==> found.BeatsVia(w, kinds, n, pos, acc, Seg(len, kinds[j]))
      decreases n - pos, 0, 1
    {
      for k := 0 to |kinds|
        invariant cur == old(cur) && found.Ok(w, kinds, n) && found.NoWorse(old(found))
        invariant NonNegative(w) ==>
          forall j :: 0 <= j < k ==> found.BeatsVia(w, kinds, n, pos, acc, Seg(len, kinds[j]))
      {
        TrySegment(pos, acc, Seg(len, kinds[k]));
      }
    }

    /** One segment is pushed, continued and popped. */
    method TrySegment(pos: nat, acc: real, s: Seg<G>)
      requires pos < n && 0 < s.len <= n - pos && s.g in kinds && found.Ok(w, kinds, n)
      requires Covers(kinds, pos, cur) && SegCost(w, 0, cur) == acc
      modifies this
      ensures cur == old(cur) && found.Ok(w, kinds, n) && found.NoWorse(old(found))
      ensures NonNegative(w) ==> found.BeatsVia(w, kinds, n, pos, acc, s)
      decreases n - pos, 0, 0
    {
      var c := w(pos, s.len, s.g);
      CostAppend(w, 0, cur, s);
      cur := cur + [s];
      Dfs(pos + s.len, acc + c);
      cur := cur[..|cur| - 1];
      if NonNegative(w) {
        BeatsViaSegment(found, w, kinds, n, pos, acc, s);
      }
    }
  }

  /** `bruteSeg`: always a cover, and with weights that are never negative the least one. */
  method BruteSeg<G(!new, ==)>(w: Weight<G>, kinds: seq<G>, n: nat) returns (found: Found<G>)
    ensures found.Ok(w, kinds, n)
    ensures NonNegative(w) ==> found.BeatsAll(w, kinds, n, 0, 0.0)
  {
    var search := new Search(w, kinds, n);
    search.Dfs(0, 0.0);
    found := search.found;
  }

  // ---------------------------------------------------------------- both agree

  /** Without a cap and with weights that are never negative, fitting is covering below the sentinel. */
  lemma {:induction false} FitsIsCovers<G(!new)>(w: Weight<G>, kinds: seq<G>, n: nat, pos: nat, segs: seq<Seg<G>>)
    requires NonNegative(w) && pos <= n
    ensures Fits(w, kinds, None, n, pos, segs) <==>
              Covers(kinds, n - pos, segs) && (segs == [] || SegCost(w, pos, segs) < INF)
    decreases |segs|
  {
    if segs != [] {
      var s, rest := segs[0], segs[1..];
      assert forall k :: 0 < k < |segs| ==> segs[k] == rest[k - 1];
      CostNonNegative(w, pos + s.len, rest);
      if 0 < s.len && pos + s.len <= n {
        FitsIsCovers(w, kinds, n, pos + s.len, rest);
      }
      if Covers(kinds, n - pos, segs) {
        CoversTail(kinds, n - pos, segs);
      }
    }
  }

  /** The two searches find the same cost whenever the least cost is below the sentinel. */
  method SearchesAgree<G(0, !new, ==)>(w: Weight<G>, kinds: seq<G>, n: nat) returns (cost: real, found: Found<G>)
    requires NonNegative(w) && kinds != []
    ensures cost < INF ==> found.cost == Some(cost)
    ensures cost >= INF ==> found.cost.None? || found.cost.value >= INF
  {
    var r := DpSeg(w, kinds, n, None);
    found := BruteSeg(w, kinds, n);
    cost := r.value.0;
    FitsIsCovers(w, kinds, n, 0, r.value.1);
    assert n - 0 == n;
    if cost < INF {
      assert Covers(kinds, n - 0, r.value.1);
      assert found.Beats(w, 0, 0.0, r.value.1);
    }
    FitsIsCovers(w, kinds, n, 0, found.segs);
  }
}
