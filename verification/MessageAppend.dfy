/**
 Extending a processed buffer at its end: the trailing group, or a buried MOTD group
 when MOTD lines arrive, is taken apart and processed again with the new rows.
 */
module MessageAppend {
  import opened Sequences
  import opened Wrappers
  import opened MessageGroups

  /** What stays as it is, and what is processed again. */
  datatype Cut = Cut(keep: seq<Item>, again: seq<Item>)

  function MotdRows(lines: seq<string>): seq<Item> {
    if lines == [] then [] else [Raw(Row(MotdLine, lines[0], None, ""))] + MotdRows(lines[1..])
  }

  /** `peelGroup`: MOTD lines come back as text only. */
  function Peel(m: Item): seq<Item> {
    match m
    case Raw(_) => [m]
    case MotdGroup(_, lines) => MotdRows(lines)
    case JoinPartGroup(rows) => RawRows(rows)
    case DiscoGroup(items) => items
  }

  function LastMotdGroup(ms: seq<Item>): (r: Option<nat>)
    ensures r.Some? ==> r.value < |ms| && ms[r.value].MotdGroup?
  {
    if ms == [] then None
    else if ms[|ms| - 1].MotdGroup? then Some(|ms| - 1)
    else LastMotdGroup(ms[..|ms| - 1])
  }

  predicate BringsMotd(news: seq<Item>) {
    exists i :: 0 <= i < |news| && IsMotd(news[i])
  }

  predicate EndsInGroup(ms: seq<Item>) {
    ms != [] && IsGroup(ms[|ms| - 1])
  }

  function CutFor(prev: seq<Item>, news: seq<Item>): Cut {
    if EndsInGroup(prev) then
      Cut(prev[..|prev| - 1], Peel(prev[|prev| - 1]))
    else if BringsMotd(news) && LastMotdGroup(prev).Some? then
      var k := LastMotdGroup(prev).value;
      Cut(prev[..k], Peel(prev[k]) + prev[k + 1..])
    else Cut(prev, [])
  }

  /** `appendToProcessed`. */
  function Append(prev: seq<Item>, news: seq<Item>): seq<Item> {
    if news == [] then prev
    else
      var c := CutFor(prev, news);
      c.keep + Process(c.again + news)
  }

  // ---------------------------------------------------------------- nothing is lost

  /** Inside a wholesome entry nothing waits to be dropped. */
  ghost predicate Wholesome(m: Item) {
    match m
    case Raw(_) => !IsGhost(m) && !IsMotdEnd(m)
    case MotdGroup(_, _) => true
    case JoinPartGroup(rows) => AllJoinPart(rows)
    case DiscoGroup(items) => AllWholesome(items)
  }

  ghost predicate AllWholesome(ms: seq<Item>) {
    forall i :: 0 <= i < |ms| ==> Wholesome(ms[i])
  }

  /** Incoming rows are raw; entries of a buffer are wholesome. */
  ghost predicate Acceptable(ms: seq<Item>) {
    forall i :: 0 <= i < |ms| ==> ms[i].Raw? || Wholesome(ms[i])
  }

  lemma {:induction false} MotdRowsContent(lines: seq<string>)
    ensures Content(MotdRows(lines)) == Lines(lines) && AllWholesome(MotdRows(lines))
  {
    if lines != [] {
      MotdRowsContent(lines[1..]);
    }
  }

  lemma {:induction false} RawRowsWholesome(rows: seq<Row>)
    requires AllJoinPart(rows)
    ensures AllWholesome(RawRows(rows))
  {
    if rows != [] {
      RawRowsWholesome(rows[1..]);
    }
  }

  lemma PeelContent(m: Item)
    requires Wholesome(m)
    ensures Content(Peel(m)) == AtomsOf(m) && AllWholesome(Peel(m))
  {
    match m
    case Raw(_) => ContentOne(m);
    case MotdGroup(_, lines) => MotdRowsContent(lines);
    case JoinPartGroup(rows) => RawRowsContent(rows); RawRowsWholesome(rows);
    case DiscoGroup(_) =>
  }

  lemma TrailingGroupContent(prev: seq<Item>)
    requires AllWholesome(prev) && prev != []
    ensures Content(prev[..|prev| - 1]) + Content(Peel(prev[|prev| - 1])) == Content(prev)
  {
    var m := prev[|prev| - 1];
    PeelContent(m);
    ContentOne(m);
    ContentConcat(prev[..|prev| - 1], [m]);
    assert prev == prev[..|prev| - 1] + [m];
  }

  lemma ReplacedContent(a: seq<Item>, m: Item, b: seq<Item>, peeled: seq<Item>)
    requires Content(peeled) == AtomsOf(m)
    ensures Content(a) + Content(peeled + b) == Content(a + [m] + b)
  {
    Content3(a, m, b);
    ContentConcat(peeled, b);
    Assoc(Content(a), AtomsOf(m), Content(b));
  }

  lemma AroundItem(prev: seq<Item>, k: nat)
    requires k < |prev|
    ensures prev[..k] + [prev[k]] + prev[k + 1..] == prev
  {
  }

  lemma BuriedGroupContent(prev: seq<Item>, k: nat, peeled: seq<Item>)
    requires k < |prev| && Content(peeled) == AtomsOf(prev[k])
    ensures Content(prev[..k]) + Content(peeled + prev[k + 1..]) == Content(prev)
  {
    ReplacedContent(prev[..k], prev[k], prev[k + 1..], peeled);
    AroundItem(prev, k);
  }

  lemma CutContent(prev: seq<Item>, news: seq<Item>)
    requires AllWholesome(prev)
    ensures var c := CutFor(prev, news);
            && Content(c.keep) + Content(c.again) == Content(prev)
            && AllWholesome(c.keep) && AllWholesome(c.again)
  {
    if EndsInGroup(prev) {
      PeelContent(prev[|prev| - 1]);
      TrailingGroupContent(prev);
    } else if BringsMotd(news) && LastMotdGroup(prev).Some? {
      var k := LastMotdGroup(prev).value;
      PeelContent(prev[k]);
      BuriedGroupContent(prev, k, Peel(prev[k]));
    } else {
      assert Content(prev) + [] == Content(prev);
    }
  }

  lemma {:induction false} CleanConcat(a: seq<Item>, b: seq<Item>)
    requires AllWholesome(a)
    ensures Clean(a + b) == a + Clean(b)
  {
    if a == [] {
      assert a + b == b;
    } else {
      assert (a + b)[1..] == a[1..] + b;
      assert Wholesome(a[0]);
      CleanConcat(a[1..], b);
    }
  }

  /**
   Appending shows the old content and the clean new rows, nothing more and nothing
   less; only join/part-like rows of the part processed again may change places.
   */
  lemma AppendContent(prev: seq<Item>, news: seq<Item>)
    requires AllWholesome(prev)
    ensures var c := CutFor(prev, news);
            news != [] ==>
              Content(Append(prev, news)) == Content(c.keep) + Content(RunsInOrder(c.again + Clean(news), []))
    ensures multiset(Content(Append(prev, news))) == multiset(Content(prev)) + multiset(Content(Clean(news)))
  {
    if news != [] {
      var c := CutFor(prev, news);
      CutContent(prev, news);
      CleanConcat(c.again, news);
      ContentConcat(c.keep, Process(c.again + news));
      ProcessContent(c.again + news);
      RunsKeepContent(c.again + Clean(news), []);
      ContentConcat(c.again, Clean(news));
      AssocBags(multiset(Content(c.keep)), multiset(Content(c.again)), multiset(Content(Clean(news))));
    }
  }

  // ---------------------------------------------------------------- buffers stay wholesome

  lemma {:induction false} GhostlessAcceptable(ms: seq<Item>)
    requires Acceptable(ms)
    ensures Acceptable(WithoutGhosts(ms))
    ensures forall i :: 0 <= i < |WithoutGhosts(ms)| ==> !IsGhost(WithoutGhosts(ms)[i])
  {
    if ms != [] {
      assert forall i :: 0 <= i < |ms[1..]| ==> ms[1..][i] == ms[i + 1];
      GhostlessAcceptable(ms[1..]);
    }
  }

  lemma {:induction false} MotdPassWholesome(ms: seq<Item>, head: Option<Row>, lines: seq<string>)
    requires Acceptable(ms) && forall i :: 0 <= i < |ms| ==> !IsGhost(ms[i])
    ensures AllWholesome(GroupMotd(ms, head, lines))
  {
    if ms != [] {
      assert forall i :: 0 <= i < |ms[1..]| ==> ms[1..][i] == ms[i + 1];
      if IsMotd(ms[0]) {
        MotdPassWholesome(ms[1..], if head.Some? then head else Some(ms[0].row), lines + [ms[0].row.text]);
      } else if IsMotdEnd(ms[0]) {
        MotdPassWholesome(ms[1..], head, lines);
      } else {
        MotdPassWholesome(ms[1..], None, []);
      }
    }
  }

  lemma {:induction false} JoinPartPassWholesome(ms: seq<Item>, run: seq<Row>)
    requires AllWholesome(ms) && AllJoinPart(run)
    ensures AllWholesome(GroupJoinPart(ms, run))
  {
    SortKeeps(run);
    assert AllWholesome(FlushJoinPart(run));
    if ms != [] {
      assert forall i :: 0 <= i < |ms[1..]| ==> ms[1..][i] == ms[i + 1];
      if IsJoinPart(ms[0]) {
        JoinPartPassWholesome(ms[1..], run + [ms[0].row]);
      } else {
        JoinPartPassWholesome(ms[1..], []);
      }
    }
  }

  lemma {:induction false} DiscoPassWholesome(ms: seq<Item>, buffer: seq<Item>)
    requires AllWholesome(ms) && AllWholesome(buffer)
    ensures AllWholesome(GroupDisco(ms, buffer))
  {
    assert AllWholesome(FlushDisco(buffer));
    if ms != [] {
      assert forall i :: 0 <= i < |ms[1..]| ==> ms[1..][i] == ms[i + 1];
      if IsDisco(ms[0]) {
        DiscoPassWholesome(ms[1..], buffer + [ms[0]]);
      } else {
        DiscoPassWholesome(ms[1..], []);
      }
    }
  }

  lemma ProcessWholesome(ms: seq<Item>)
    requires Acceptable(ms)
    ensures AllWholesome(Process(ms))
  {
    var kept := WithoutGhosts(ms);
    GhostlessAcceptable(ms);
    MotdPassWholesome(kept, None, []);
    JoinPartPassWholesome(GroupMotd(kept, None, []), []);
    DiscoPassWholesome(GroupJoinPart(GroupMotd(kept, None, []), []), []);
  }

  ghost predicate AllRaw(ms: seq<Item>) {
    forall i :: 0 <= i < |ms| ==> ms[i].Raw?
  }

  lemma AppendWholesome(prev: seq<Item>, news: seq<Item>)
    requires AllWholesome(prev) && AllRaw(news)
    ensures AllWholesome(Append(prev, news))
  {
    CutContent(prev, news);
    ProcessWholesome(CutFor(prev, news).again + news);
  }

  /** A buffer built from scratch and then extended batch by batch. */
  function Batches(raw: seq<Item>, batches: seq<seq<Item>>): seq<Item> {
    if batches == [] then Process(raw)
    else Append(Batches(raw, batches[..|batches| - 1]), batches[|batches| - 1])
  }

  function CleanAll(batches: seq<seq<Item>>): multiset<Atom> {
    if batches == [] then multiset{}
    else CleanAll(batches[..|batches| - 1]) + multiset(Content(Clean(batches[|batches| - 1])))
  }

  lemma {:induction false} BatchesWholesome(raw: seq<Item>, batches: seq<seq<Item>>)
    requires AllRaw(raw) && forall i :: 0 <= i < |batches| ==> AllRaw(batches[i])
    ensures AllWholesome(Batches(raw, batches))
  {
    if batches == [] {
      ProcessWholesome(raw);
    } else {
      var n := |batches| - 1;
      BatchesWholesome(raw, batches[..n]);
      AppendWholesome(Batches(raw, batches[..n]), batches[n]);
    }
  }

  lemma OneMoreBatch(prev: seq<Item>, news: seq<Item>, first: multiset<Atom>, sofar: multiset<Atom>)
    requires AllWholesome(prev) && multiset(Content(prev)) == first + sofar
    ensures multiset(Content(Append(prev, news))) == first + (sofar + multiset(Content(Clean(news))))
  {
    AppendContent(prev, news);
    AssocBags(first, sofar, multiset(Content(Clean(news))));
  }

  /** However the rows arrive, the buffer shows exactly the clean ones. */
  lemma {:induction false} BatchesConserve(raw: seq<Item>, batches: seq<seq<Item>>)
    requires AllRaw(raw) && forall i :: 0 <= i < |batches| ==> AllRaw(batches[i])
    ensures multiset(Content(Batches(raw, batches))) == multiset(Content(Clean(raw))) + CleanAll(batches)
  {
    if batches == [] {
      ProcessContent(raw);
      RunsKeepContent(Clean(raw), []);
    } else {
      var n := |batches| - 1;
      BatchesConserve(raw, batches[..n]);
      BatchesWholesome(raw, batches[..n]);
      OneMoreBatch(Batches(raw, batches[..n]), batches[n], multiset(Content(Clean(raw))), CleanAll(batches[..n]));
    }
  }

  // ---------------------------------------------------------------- what appending leaves ungrouped

  lemma {:induction false} SettledConcat(a: seq<Item>, b: seq<Item>)
    requires Settled(b)
    ensures Settled(a + b) <==> Settled(a) && (a != [] && b != [] ==> !Attract(a[|a| - 1], b[0]))
  {
    if a == [] {
      assert a + b == b;
    } else {
      assert (a + b)[1..] == a[1..] + b;
      SettledConcat(a[1..], b);
    }
  }

  lemma SettledPrefix(a: seq<Item>, b: seq<Item>)
    requires Settled(a + b)
    ensures Settled(a)
  {
    if a != [] {
      assert (a + b)[1..] == a[1..] + b;
      SettledPrefix(a[1..], b);
    }
  }

  /**
   An appended buffer needs no further grouping if and only if the last entry that was
   kept does not attract the first one that was made; nothing else can be amiss.
   */
  lemma AppendSettles(prev: seq<Item>, news: seq<Item>)
    requires Settled(prev) && news != []
    ensures var keep := CutFor(prev, news).keep;
            var made := Process(CutFor(prev, news).again + news);
            Settled(Append(prev, news)) <==> (keep != [] && made != [] ==> !Attract(keep[|keep| - 1], made[0]))
  {
    var c := CutFor(prev, news);
    assert prev == c.keep + prev[|c.keep|..];
    SettledPrefix(c.keep, prev[|c.keep|..]);
    ProcessSettles(c.again + news);
    SettledConcat(c.keep, Process(c.again + news));
  }

  lemma ProcessOne(m: Item)
    requires Quiet(m)
    ensures Process([m]) == [m] && Settled([m])
  {
    SettledIsKept([m]);
  }

  /** A lone join at the end is not grouped with the next one, although a full pass groups them. */
  lemma LoneJoinIsNotMerged(a: Row, b: Row)
    requires a.command == Join && b.command == Join && !MentionsFailure(a.text)
    ensures Append([Raw(a)], [Raw(b)]) == [Raw(a), Raw(b)]
    ensures |Process([Raw(a), Raw(b)])| == 1
  {
    ProcessOne(Raw(b));
    assert [] + [Raw(b)] == [Raw(b)];
    var ms := [Raw(a), Raw(b)];
    assert ms[1..] == [Raw(b)];
    SettledIsKept([Raw(b)]);
    assert WithoutGhosts(ms) == ms && GroupMotd(ms, None, []) == ms;
    assert [] + [a] == [a] && [a] + [b] == [a, b] && [Raw(b)][1..] == [];
    var g := GroupJoinPart(ms, []);
    assert g == GroupJoinPart([Raw(b)], [a]) == GroupJoinPart([], [a, b]) == [JoinPartGroup(SortRows([a, b]))];
    assert |GroupDisco(g, [])| == 1 by {
      assert g[1..] == [];
    }
  }

  lemma BuriedCut(prev: seq<Item>, news: seq<Item>)
    requires prev != [] && !IsGroup(prev[|prev| - 1]) && BringsMotd(news) && LastMotdGroup(prev).Some?
    ensures var k := LastMotdGroup(prev).value;
            k + 1 < |prev| && CutFor(prev, news) == Cut(prev[..k], MotdRows(prev[k].lines) + prev[k + 1..])
  {
  }

  lemma {:induction false} SettledIsQuiet(ms: seq<Item>, i: nat)
    requires Settled(ms) && i < |ms|
    ensures Quiet(ms[i])
  {
    if i > 0 {
      SettledIsQuiet(ms[1..], i - 1);
    }
  }
}
