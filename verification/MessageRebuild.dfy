/**
 Appending to a processed buffer against processing everything again.

 `Seamless` looks at the last two entries of the buffer and at the first new rows; it is
 proved to be the exact condition under which both ways agree, heads of MOTD groups aside.
 */
module MessageRebuild {
  import opened Sequences
  import opened Wrappers
  import opened MessageGroups
  import opened MessageAppend
  import opened MessageSeams
  import opened DiscoSeams

  // ---------------------------------------------------------------- the condition

  function LastItem(m: Item): Item {
    if m.DiscoGroup? && m.items != [] then m.items[|m.items| - 1] else m
  }

  /** New MOTD lines make the buffer be taken apart from its last MOTD group on. */
  predicate Buried(prev: seq<Item>, news: seq<Item>) {
    BringsMotd(news) && LastMotdGroup(prev).Some?
  }

  /**
   The seam between the last entry, the one above it if there is one, and the rows that
   are shown of a batch.

   When the new rows do not go on with the run at the end, all is well unless two raw
   disconnect-like entries meet. When they do, the run must be within reach: not a group
   inside a disconnect group, and not a raw row, unless a buried MOTD group has the end
   processed again. Last, the run that grew must not have become disconnect-like below an
   entry that it should now join.
   */
  predicate SeamHolds(above: Option<Item>, last: Item, buried: bool, n: seq<Item>)
    requires n != []
  {
    if !Continues(LastItem(last), n[0]) then IsGroup(last) || buried || !(IsDisco(last) && IsDisco(Lead(n)))
    else if last.DiscoGroup? then LastItem(last).Raw?
    else if IsGroup(last) then above.Some? ==> !(Discoish(above.value) && IsDisco(Merged(last, n)))
    else buried && (above.Some? ==> !(above.value.DiscoGroup? && IsDisco(Merged(last, n))))
  }

  function Above(prev: seq<Item>): Option<Item> {
    if |prev| > 1 then Some(prev[|prev| - 2]) else None
  }

  /** Does appending give what processing everything again gives? */
  predicate Seamless(prev: seq<Item>, news: seq<Item>) {
    var n := Clean(news);
    prev != [] && n != [] ==> SeamHolds(Above(prev), prev[|prev| - 1], Buried(prev, news), n)
  }

  // ---------------------------------------------------------------- what processing builds

  /** Entries that the first two passes leave. */
  ghost predicate PieceOk(m: Item) {
    && !m.DiscoGroup?
    && (m.MotdGroup? ==> m.head == NO_HEAD && m.lines != [])
    && (m.JoinPartGroup? ==> |m.members| > 1 && AllJoinPart(m.members) && SortRows(m.members) == m.members)
  }

  ghost predicate AllPieces(ms: seq<Item>) {
    forall m :: m in ms ==> PieceOk(m)
  }

  ghost predicate Built(p: seq<Item>) {
    && Maximal(p) && Settled(p)
    && AllQuiet(Opened(p)) && Spread(Opened(p)) && AllPieces(Opened(p))
  }

  ghost predicate AllClean(ms: seq<Item>) {
    forall m :: m in ms ==> m.Raw? && !IsGhost(m) && !IsMotdEnd(m)
  }

  lemma {:induction false} CleanIsClean(ms: seq<Item>)
    requires AllRaw(ms)
    ensures AllClean(Clean(ms)) && HeadlessAll(Clean(ms)) == Clean(ms)
  {
    if ms != [] {
      assert forall i :: 0 <= i < |ms[1..]| ==> ms[1..][i] == ms[i + 1];
      CleanIsClean(ms[1..]);
    }
  }

  lemma {:induction false} CleanBoth(a: seq<Item>, b: seq<Item>)
    ensures Clean(a + b) == Clean(a) + Clean(b)
  {
    if a == [] {
      assert a + b == b;
    } else {
      assert (a + b)[1..] == a[1..] + b;
      CleanBoth(a[1..], b);
    }
  }

  lemma {:induction false} MotdsArePieces(ms: seq<Item>, lines: seq<string>)
    requires AllClean(ms)
    ensures AllPieces(Motds(ms, lines)) && AllQuiet(Motds(ms, lines))
  {
    if ms != [] {
      var m, rest := ms[0], ms[1..];
      assert ms == [m] + rest;
      if IsMotd(m) {
        MotdsArePieces(rest, lines + [m.row.text]);
      } else {
        MotdsArePieces(rest, []);
        assert m in ms;
        QuietConcat(FlushLines(lines) + [m], Motds(rest, []));
      }
    }
  }

  lemma FlushedPieces(run: seq<Row>)
    requires AllJoinPart(run)
    ensures AllPieces(FlushJoinPart(run))
  {
    SortKeeps(run);
    SortTwice(run, []);
    assert SortRows(run) + [] == SortRows(run) && run + [] == run;
  }

  lemma PiecesJoin(a: seq<Item>, m: Item, b: seq<Item>)
    requires AllPieces(a) && PieceOk(m) && AllPieces(b)
    ensures AllPieces(a + [m] + b)
  {
  }

  lemma {:induction false} JoinsArePieces(ms: seq<Item>, run: seq<Row>)
    requires AllPieces(ms) && AllJoinPart(run)
    ensures AllPieces(GroupJoinPart(ms, run))
  {
    FlushedPieces(run);
    if ms != [] {
      var m, rest := ms[0], ms[1..];
      assert m in ms && forall x :: x in rest ==> x in ms;
      if IsJoinPart(m) {
        JoinsArePieces(rest, run + [m.row]);
      } else {
        JoinsArePieces(rest, []);
        PiecesJoin(FlushJoinPart(run), m, GroupJoinPart(rest, []));
      }
    }
  }

  lemma RunsArePieces(c: seq<Item>)
    requires AllClean(c)
    ensures AllPieces(Runs(c)) && AllQuiet(Runs(c)) && Spread(Runs(c))
  {
    MotdsArePieces(c, []);
    JoinsArePieces(Motds(c, []), []);
    JoinPartPassSpreads(Motds(c, []), []);
  }

  lemma DiscoBuilds(q: seq<Item>)
    requires AllPieces(q) && AllQuiet(q) && Spread(q)
    ensures Built(GroupDisco(q, [])) && Opened(GroupDisco(q, [])) == q
  {
    assert [] + q == q;
    OpenedDisco(q, []);
    DiscoIsMaximal(q, []);
    DiscoPassSettles(q, []);
  }

  lemma ProcessBuilds(raw: seq<Item>)
    requires AllRaw(raw)
    ensures Built(HeadlessAll(Process(raw))) && Opened(HeadlessAll(Process(raw))) == Runs(Clean(raw))
  {
    CleanIsClean(raw);
    ProcessHeadless(raw);
    RunsArePieces(Clean(raw));
    DiscoBuilds(Runs(Clean(raw)));
  }

  // ---------------------------------------------------------------- both ways, without heads

  function Rebuilt(p: seq<Item>, n: seq<Item>): seq<Item>
    requires n != [] && Runs(n) != []
  {
    GroupDisco(Onto(Opened(p), n), [])
  }

  lemma ProcessIsRebuilt(raw: seq<Item>, news: seq<Item>)
    requires AllRaw(raw) && AllRaw(news) && Clean(news) != []
    ensures Runs(Clean(news)) != []
    ensures HeadlessAll(Process(raw + news)) == Rebuilt(HeadlessAll(Process(raw)), Clean(news))
  {
    CleanIsClean(raw + news);
    CleanIsClean(raw);
    CleanBoth(raw, news);
    ProcessHeadless(raw + news);
    ProcessBuilds(raw);
    RowsMeet(Clean(raw), Clean(news));
  }

  function Appended(p: seq<Item>, news: seq<Item>): seq<Item> {
    var c := CutFor(p, news);
    c.keep + GroupDisco(Runs(c.again + Clean(news)), [])
  }

  lemma {:induction false} SameLastMotd(p: seq<Item>)
    ensures LastMotdGroup(HeadlessAll(p)) == LastMotdGroup(p)
  {
    if p != [] && !p[|p| - 1].MotdGroup? {
      assert HeadlessAll(p)[..|p| - 1] == HeadlessAll(p[..|p| - 1]);
      SameLastMotd(p[..|p| - 1]);
    }
  }

  lemma {:induction false} RawHeadless(ms: seq<Item>)
    requires AllRaw(ms)
    ensures HeadlessAll(ms) == ms
  {
  }

  lemma {:induction false} PeelHeadless(m: Item)
    ensures HeadlessAll(Peel(m)) == Peel(Headless(m))
  {
    match m
    case Raw(_) =>
    case MotdGroup(_, lines) => MotdRowsRaw(lines); RawHeadless(MotdRows(lines));
    case JoinPartGroup(rows) => RawRowsRaw(rows); RawHeadless(RawRows(rows));
    case DiscoGroup(_) =>
  }

  lemma {:induction false} MotdRowsRaw(lines: seq<string>)
    ensures AllRaw(MotdRows(lines))
  {
    if lines != [] {
      MotdRowsRaw(lines[1..]);
    }
  }

  lemma {:induction false} RawRowsRaw(rows: seq<Row>)
    ensures AllRaw(RawRows(rows))
  {
    if rows != [] {
      RawRowsRaw(rows[1..]);
    }
  }

  lemma HeadlessSlices(ms: seq<Item>, k: nat)
    requires k <= |ms|
    ensures HeadlessAll(ms)[..k] == HeadlessAll(ms[..k]) && HeadlessAll(ms)[k..] == HeadlessAll(ms[k..])
  {
    SplitAt(ms, k);
    HeadlessConcat(ms[..k], ms[k..]);
  }

  lemma TailCutHeadless(prev: seq<Item>)
    requires prev != []
    ensures var p := HeadlessAll(prev);
      p[..|p| - 1] == HeadlessAll(prev[..|prev| - 1]) && Peel(p[|p| - 1]) == HeadlessAll(Peel(prev[|prev| - 1]))
  {
    PeelHeadless(prev[|prev| - 1]);
    HeadlessSlices(prev, |prev| - 1);
  }

  lemma BuriedCutHeadless(prev: seq<Item>, k: nat)
    requires k < |prev|
    ensures var p := HeadlessAll(prev);
      p[..k] == HeadlessAll(prev[..k]) && Peel(p[k]) + p[k + 1..] == HeadlessAll(Peel(prev[k]) + prev[k + 1..])
  {
    PeelHeadless(prev[k]);
    HeadlessConcat(Peel(prev[k]), prev[k + 1..]);
    HeadlessSlices(prev, k);
    HeadlessSlices(prev, k + 1);
  }

  lemma EndsHeadless(prev: seq<Item>)
    ensures EndsInGroup(HeadlessAll(prev)) == EndsInGroup(prev)
  {
  }

  function HeadlessCut(c: Cut): Cut {
    Cut(HeadlessAll(c.keep), HeadlessAll(c.again))
  }

  lemma CutGroupHeadless(prev: seq<Item>, news: seq<Item>)
    requires EndsInGroup(prev) && EndsInGroup(HeadlessAll(prev))
    ensures CutFor(HeadlessAll(prev), news) == HeadlessCut(CutFor(prev, news))
  {
    TailCutHeadless(prev);
  }

  lemma CutBuriedHeadless(prev: seq<Item>, news: seq<Item>)
    requires !EndsInGroup(prev) && !EndsInGroup(HeadlessAll(prev)) && Buried(prev, news)
    ensures CutFor(HeadlessAll(prev), news) == HeadlessCut(CutFor(prev, news))
  {
    SameLastMotd(prev);
    BuriedCutHeadless(prev, LastMotdGroup(prev).value);
  }

  lemma CutRowHeadless(prev: seq<Item>, news: seq<Item>)
    requires !EndsInGroup(prev) && !EndsInGroup(HeadlessAll(prev)) && !Buried(prev, news)
    ensures CutFor(HeadlessAll(prev), news) == HeadlessCut(CutFor(prev, news))
  {
    SameLastMotd(prev);
  }

  lemma CutHeadless(prev: seq<Item>, news: seq<Item>)
    ensures CutFor(HeadlessAll(prev), news) == HeadlessCut(CutFor(prev, news))
  {
    EndsHeadless(prev);
    if EndsInGroup(prev) {
      CutGroupHeadless(prev, news);
    } else if Buried(prev, news) {
      CutBuriedHeadless(prev, news);
    } else {
      CutRowHeadless(prev, news);
    }
  }

  lemma AppendIsAppended(prev: seq<Item>, news: seq<Item>)
    requires AllWholesome(prev) && AllRaw(news) && news != []
    ensures HeadlessAll(Append(prev, news)) == Appended(HeadlessAll(prev), news)
  {
    var c := CutFor(prev, news);
    CutHeadless(prev, news);
    CutContent(prev, news);
    CleanConcat(c.again, news);
    CleanIsClean(news);
    ProcessHeadless(c.again + news);
    HeadlessConcat(c.again, Clean(news));
    HeadlessConcat(c.keep, Process(c.again + news));
  }

  // ---------------------------------------------------------------- the last entry

  lemma LastOpened(p: seq<Item>)
    requires Maximal(p) && p != []
    ensures var before, last := p[..|p| - 1], p[|p| - 1];
      Opened(p) == Opened(before) + Open(last) && Maximal(before) && EntryOk(last)
      && (before != [] ==> !(Discoish(before[|before| - 1]) && Discoish(last)))
  {
    var before, last := p[..|p| - 1], p[|p| - 1];
    LastApart(p);
    OpenedConcat(before, [last]);
    OpenedOne(last);
    MaximalConcat(before, [last]);
  }

  /** How the last entry of a processed buffer stands to those before it. */
  lemma LastSeam(p: seq<Item>)
    requires Maximal(p) && p != []
    ensures var before, last := p[..|p| - 1], p[|p| - 1];
      && Maximal(before) && EntryOk(last) && Open(last) != []
      && (before != [] ==> !(Discoish(before[|before| - 1]) && IsDisco(Open(last)[0])))
  {
    LastOpened(p);
    EntryIsGroup(p[|p| - 1]);
  }

  /** The opened last entry ends the opened buffer. */
  lemma LastOfOpened(p: seq<Item>)
    requires Maximal(p) && p != []
    ensures var before, last, q := p[..|p| - 1], p[|p| - 1], Opened(p);
      && Open(last) != [] && q != [] && q[|q| - 1] == LastItem(last) == Open(last)[|Open(last)| - 1]
      && q[..|q| - 1] == Opened(before) + Open(last)[..|Open(last)| - 1]
      && q == Opened(before) + Open(last)
  {
    LastOpened(p);
    EntryIsGroup(p[|p| - 1]);
    ConcatEnds(Opened(p[..|p| - 1]), Open(p[|p| - 1]));
  }

  lemma LastPieces(p: seq<Item>)
    requires Built(p) && p != []
    ensures var o := Open(p[|p| - 1]); AllQuiet(o) && Spread(o) && AllPieces(o)
  {
    var before, last := p[..|p| - 1], p[|p| - 1];
    LastOpened(p);
    SpreadTail(Opened(before), Open(last));
    QuietTail(Opened(before), Open(last));
    forall m | m in Open(last)
      ensures PieceOk(m)
    {
      assert m in Opened(p);
    }
  }

  lemma {:induction false} QuietTail(a: seq<Item>, b: seq<Item>)
    requires AllQuiet(a + b)
    ensures AllQuiet(b)
  {
    if a == [] {
      assert a + b == b;
    } else {
      assert (a + b)[1..] == a[1..] + b;
      QuietTail(a[1..], b);
    }
  }

  /** What the first two passes make of a group taken apart with the new rows behind it. */
  lemma PeelMeets(last: Item, n: seq<Item>)
    requires IsGroup(last) && EntryOk(last) && n != []
    requires AllQuiet(Open(last)) && Spread(Open(last)) && AllPieces(Open(last))
    ensures Runs(n) != []
    ensures Runs(Peel(last) + n) ==
      if last.DiscoGroup? && IsJoinPart(LastItem(last)) && IsJoinPart(n[0])
      then last.items[..|last.items| - 1] + ([Merged(LastItem(last), n)] + Runs(n)[1..])
      else if !last.DiscoGroup? && Continues(last, n[0]) then [Merged(last, n)] + Runs(n)[1..]
      else Open(last) + Runs(n)
  {
    RunsNotEmpty(n);
    if last.DiscoGroup? {
      EntriesMeet(last.items, n);
    } else {
      assert last in Open(last);
      if last.MotdGroup? {
        PeeledLines(last.lines, n);
      } else {
        PeeledRows(last.members, n);
      }
    }
  }

  lemma PeeledLines(lines: seq<string>, n: seq<Item>)
    requires n != [] && lines != []
    ensures Runs(n) != []
    ensures Runs(MotdRows(lines) + n) ==
      if IsMotd(n[0]) then [MotdGroup(NO_HEAD, lines + LeadLines(n))] + Runs(n)[1..]
      else [MotdGroup(NO_HEAD, lines)] + Runs(n)
  {
    LinesMeet(lines, n, []);
    assert [] + lines == lines;
    MotdsOntoLines(n, lines);
  }

  lemma PeeledRows(rows: seq<Row>, n: seq<Item>)
    requires n != [] && |rows| > 1 && AllJoinPart(rows) && SortRows(rows) == rows
    ensures Runs(n) != []
    ensures Runs(RawRows(rows) + n) ==
      if IsJoinPart(n[0]) then [JoinPartGroup(SortRows(rows + LeadRun(n)))] + Runs(n)[1..]
      else [JoinPartGroup(rows)] + Runs(n)
  {
    RowsRun(rows, n, []);
    RowsRun(rows, Motds(n, []), []);
    assert [] + rows == rows;
    JoinsOntoRun(n, rows);
  }

  lemma PeelKeeps(last: Item)
    requires IsGroup(last) && EntryOk(last)
    requires AllQuiet(Open(last)) && Spread(Open(last)) && AllPieces(Open(last))
    ensures Runs(Peel(last)) == Open(last)
  {
    if last.DiscoGroup? {
      EntriesKept(last.items);
    } else {
      assert last in Open(last);
      if last.MotdGroup? {
        LinesKept(last.lines);
      } else {
        RowsKept(last.members);
      }
    }
  }

  lemma LinesKept(lines: seq<string>)
    requires lines != []
    ensures Runs(MotdRows(lines)) == [MotdGroup(NO_HEAD, lines)]
  {
    var g := MotdGroup(NO_HEAD, lines);
    assert MotdRows(lines) + [] == MotdRows(lines) && [] + lines == lines;
    LinesMeet(lines, [], []);
    GroupAlone(g, [], []);
    assert [g] + [] == [g] && [] + [g] == [g];
  }

  lemma RowsKept(rows: seq<Row>)
    requires |rows| > 1 && AllJoinPart(rows) && SortRows(rows) == rows
    ensures Runs(RawRows(rows)) == [JoinPartGroup(rows)]
  {
    assert RawRows(rows) + [] == RawRows(rows) && [] + rows == rows;
    RowsRun(rows, [], []);
  }

  lemma PiecesOfRows(n: seq<Item>)
    requires AllClean(n)
    ensures NoDiscoGroups(Runs(n))
  {
    RunsArePieces(n);
  }

  /** New rows joined onto entries of which the last ones are apart. */
  lemma OntoEnd(a: seq<Item>, o: seq<Item>, n: seq<Item>)
    requires o != [] && n != [] && Runs(n) != []
    ensures var l := o[|o| - 1];
      Onto(a + o, n) == a + if Continues(l, n[0]) then o[..|o| - 1] + ([Merged(l, n)] + Runs(n)[1..]) else o + Runs(n)
  {
    var l := o[|o| - 1];
    ConcatEnds(a, o);
    if Continues(l, n[0]) {
      Assoc(o[..|o| - 1], [Merged(l, n)], Runs(n)[1..]);
      Assoc(a, o[..|o| - 1] + [Merged(l, n)], Runs(n)[1..]);
      Assoc(a, o[..|o| - 1], [Merged(l, n)]);
    } else {
      Assoc(a, o, Runs(n));
    }
  }

  /** Both ways have to start from the last entry. */
  lemma OntoLast(p: seq<Item>, n: seq<Item>)
    requires Maximal(p) && p != [] && n != []
    ensures Runs(n) != [] && Open(p[|p| - 1]) != []
    ensures var before, last, l := p[..|p| - 1], Open(p[|p| - 1]), LastItem(p[|p| - 1]);
      Rebuilt(p, n) == GroupDisco(Opened(before)
        + (if Continues(l, n[0]) then last[..|last| - 1] + ([Merged(l, n)] + Runs(n)[1..]) else last + Runs(n)), [])
  {
    RunsNotEmpty(n);
    LastOfOpened(p);
    OntoEnd(Opened(p[..|p| - 1]), Open(p[|p| - 1]), n);
  }

  // ---------------------------------------------------------------- the cases

  /** The three ways of appending: to a group, to a raw row, and from a buried group on. */
  function ToGroup(p: seq<Item>, n: seq<Item>): seq<Item>
    requires p != []
  {
    p[..|p| - 1] + GroupDisco(Runs(Peel(p[|p| - 1]) + n), [])
  }

  function ToRow(p: seq<Item>, n: seq<Item>): seq<Item> {
    p + GroupDisco(Runs(n), [])
  }

  function FromBuried(p: seq<Item>, k: nat, n: seq<Item>): seq<Item>
    requires k <= |p|
  {
    p[..k] + GroupDisco(Runs(p[k..] + n), [])
  }

  lemma AppendedToGroup(p: seq<Item>, news: seq<Item>)
    requires EndsInGroup(p)
    ensures Appended(p, news) == ToGroup(p, Clean(news))
  {
  }

  lemma AppendedToRow(p: seq<Item>, news: seq<Item>)
    requires !EndsInGroup(p) && !Buried(p, news)
    ensures Appended(p, news) == ToRow(p, Clean(news))
  {
    assert [] + Clean(news) == Clean(news);
  }

  /** A group at the end that the new rows do not go on with is taken apart and put together again. */
  lemma GroupBeforeOther(p: seq<Item>, n: seq<Item>)
    requires Built(p) && EndsInGroup(p) && n != [] && !Continues(LastItem(p[|p| - 1]), n[0])
    ensures Runs(n) != [] && ToGroup(p, n) == Rebuilt(p, n)
  {
    var before, last := p[..|p| - 1], p[|p| - 1];
    LastSeam(p);
    LastPieces(p);
    PeelMeets(last, n);
    OntoLast(p, n);
    OpenedThen(before, Open(last) + Runs(n));
  }

  lemma OpenedSize(p: seq<Item>, x: seq<Item>)
    requires NoDiscoGroups(x)
    ensures |Opened(p + GroupDisco(x, []))| == |Opened(p)| + |x|
  {
    OpenedConcat(p, GroupDisco(x, []));
    OpenedDisco(x, []);
  }

  lemma BothWithoutGroups(a: seq<Item>, b: seq<Item>)
    ensures NoDiscoGroups(a + b) <==> NoDiscoGroups(a) && NoDiscoGroups(b)
  {
    forall m
      ensures m in a + b <==> m in a || m in b
    {
    }
  }

  /** Put together again, opened, the buffer has one entry less than apart. */
  lemma RebuiltSize(p: seq<Item>, n: seq<Item>)
    requires Built(p) && p != [] && n != [] && AllClean(n) && Continues(LastItem(p[|p| - 1]), n[0])
    ensures Runs(n) != [] && |Opened(Rebuilt(p, n))| == |Opened(p)| + |Runs(n)| - 1
  {
    LastOfOpened(p);
    OntoSize(Opened(p), n);
  }

  lemma OntoSize(q: seq<Item>, n: seq<Item>)
    requires AllPieces(q) && q != [] && n != [] && AllClean(n) && Continues(q[|q| - 1], n[0])
    ensures Runs(n) != [] && |Opened(GroupDisco(Onto(q, n), []))| == |q| + |Runs(n)| - 1
  {
    var init, l := q[..|q| - 1], q[|q| - 1];
    RunsNotEmpty(n);
    PiecesOfRows(n);
    LastApart(q);
    assert NoDiscoGroups(q) && PieceOk(l);
    BothWithoutGroups(init, [l]);
    FirstApart(Runs(n));
    BothWithoutGroups([Runs(n)[0]], Runs(n)[1..]);
    BothWithoutGroups(init, [Merged(l, n)]);
    BothWithoutGroups(init + [Merged(l, n)], Runs(n)[1..]);
    OpenedDisco(Onto(q, n), []);
    assert [] + Onto(q, n) == Onto(q, n);
  }

  /** A run inside a disconnect group can be taken up if it ends in a raw row. */
  lemma DiscoBeforeMore(p: seq<Item>, n: seq<Item>)
    requires Built(p) && p != [] && p[|p| - 1].DiscoGroup? && n != [] && AllClean(n)
    requires Continues(LastItem(p[|p| - 1]), n[0])
    ensures Runs(n) != []
    ensures ToGroup(p, n) == Rebuilt(p, n) <==> LastItem(p[|p| - 1]).Raw?
  {
    var last := p[|p| - 1];
    LastSeam(p);
    LastPieces(p);
    PeelMeets(last, n);
    if LastItem(last).Raw? {
      DiscoTakesUp(p, n);
    } else {
      OutOfReach(p, n);
    }
  }

  /** With the run left closed, the buffer opened has an entry too many. */
  lemma OutOfReach(p: seq<Item>, n: seq<Item>)
    requires Built(p) && p != [] && n != [] && AllClean(n) && Continues(LastItem(p[|p| - 1]), n[0])
    ensures Runs(n) != []
    ensures p[..|p| - 1] + GroupDisco(Open(p[|p| - 1]) + Runs(n), []) != Rebuilt(p, n)
  {
    var before, last := p[..|p| - 1], p[|p| - 1];
    LastOpened(p);
    LastPieces(p);
    PiecesOfRows(n);
    assert NoDiscoGroups(Open(last));
    BothWithoutGroups(Open(last), Runs(n));
    OpenedSize(before, Open(last) + Runs(n));
    RebuiltSize(p, n);
  }

  lemma DiscoTakesUp(p: seq<Item>, n: seq<Item>)
    requires Built(p) && p != [] && p[|p| - 1].DiscoGroup? && n != []
    requires Continues(LastItem(p[|p| - 1]), n[0])
    ensures Runs(n) != []
    ensures var before, last := p[..|p| - 1], p[|p| - 1];
      EntryOk(last) && Rebuilt(p, n) == before
        + GroupDisco(last.items[..|last.items| - 1] + ([Merged(LastItem(last), n)] + Runs(n)[1..]), [])
  {
    var before, last := p[..|p| - 1], p[|p| - 1];
    OntoLast(p, n);
    LastSeam(p);
    OpenedThen(before, last.items[..|last.items| - 1] + ([Merged(LastItem(last), n)] + Runs(n)[1..]));
  }

  /** A group that the new rows go on with must not become disconnect-like behind such an entry. */
  lemma GroupBeforeMore(p: seq<Item>, n: seq<Item>)
    requires Built(p) && EndsInGroup(p) && !p[|p| - 1].DiscoGroup? && n != [] && Continues(p[|p| - 1], n[0])
    ensures Runs(n) != []
    ensures ToGroup(p, n) == Rebuilt(p, n)
            <==> (Above(p).Some? ==> !(Discoish(Above(p).value) && IsDisco(Merged(p[|p| - 1], n))))
  {
    var before, last := p[..|p| - 1], p[|p| - 1];
    assert before != [] ==> Above(p) == Some(before[|before| - 1]);
    LastSeam(p);
    LastPieces(p);
    PeelMeets(last, n);
    OntoLast(p, n);
    var y := [Merged(last, n)] + Runs(n)[1..];
    assert [] + y == y;
    OpenedThenOrAcross(before, y);
  }

  /** Opened entries with more behind them come out as they were, if no run spans the seam. */
  lemma OpenedThenOrAcross(p: seq<Item>, y: seq<Item>)
    requires Maximal(p) && y != []
    ensures GroupDisco(Opened(p) + y, []) == p + GroupDisco(y, [])
            <==> (p != [] ==> !(Discoish(p[|p| - 1]) && IsDisco(y[0])))
  {
    if p != [] && Discoish(p[|p| - 1]) && IsDisco(y[0]) {
      OpenedAcross(p, y);
    } else {
      OpenedThen(p, y);
    }
  }

  /** A raw row at the end is left alone. */
  lemma RawBeforeMore(p: seq<Item>, n: seq<Item>)
    requires Built(p) && p != [] && n != [] && AllClean(n) && Continues(LastItem(p[|p| - 1]), n[0])
    ensures Runs(n) != [] && ToRow(p, n) != Rebuilt(p, n)
  {
    PiecesOfRows(n);
    OpenedSize(p, Runs(n));
    RebuiltSize(p, n);
  }

  lemma RawBeforeOther(p: seq<Item>, n: seq<Item>)
    requires Built(p) && p != [] && p[|p| - 1].Raw? && n != [] && !Continues(p[|p| - 1], n[0])
    ensures Runs(n) != []
    ensures ToRow(p, n) == Rebuilt(p, n) <==> !(IsDisco(p[|p| - 1]) && IsDisco(Lead(n)))
  {
    RunsNotEmpty(n);
    LastOfOpened(p);
    OpenedThenOrAcross(p, Runs(n));
  }

  // ---------------------------------------------------------------- a buried MOTD group

  lemma {:induction false} SettledParts(a: seq<Item>, b: seq<Item>)
    requires Settled(a + b)
    ensures Settled(b)
  {
    if a == [] {
      assert a + b == b;
    } else {
      assert (a + b)[1..] == a[1..] + b;
      SettledParts(a[1..], b);
    }
  }

  lemma {:induction false} SettledIsSpread(ms: seq<Item>)
    requires Settled(ms)
    ensures AllQuiet(ms) && Spread(ms)
  {
    if ms != [] {
      SettledIsSpread(ms[1..]);
    }
  }

  /** The lines of an MOTD group taken apart group again as soon as another entry comes. */
  lemma LinesBeforeEntry(lines: seq<string>, tail: seq<Item>, n: seq<Item>)
    requires lines != [] && tail != [] && Quiet(tail[0])
    ensures Motds(MotdRows(lines) + tail + n, []) == Motds([MotdGroup(NO_HEAD, lines)] + tail + n, [])
  {
    Assoc(MotdRows(lines), tail, n);
    Assoc([MotdGroup(NO_HEAD, lines)], tail, n);
    LinesMeet(lines, tail + n, []);
    MotdsStep(MotdGroup(NO_HEAD, lines), tail + n, []);
    assert [] + lines == lines;
    FirstApart(tail);
    Assoc([tail[0]], tail[1..], n);
    EntryClosesLines(tail[0], tail[1..] + n, lines);
  }

  lemma EntryClosesLines(m: Item, rest: seq<Item>, lines: seq<string>)
    requires lines != [] && !IsMotd(m)
    ensures Motds([m] + rest, lines) == [MotdGroup(NO_HEAD, lines)] + Motds([m] + rest, [])
  {
    MotdsStep(m, rest, lines);
    MotdsStep(m, rest, []);
    Assoc([MotdGroup(NO_HEAD, lines)], [m], Motds(rest, []));
  }

  /** From the buried group on everything is processed again. */
  lemma BuriedAppended(p: seq<Item>, news: seq<Item>) returns (k: nat)
    requires Built(p) && p != [] && !EndsInGroup(p) && Buried(p, news)
    ensures k < |p| - 1 && p[k].MotdGroup?
    ensures Appended(p, news) == FromBuried(p, k, Clean(news))
  {
    k := LastMotdGroup(p).value;
    BuriedCut(p, news);
    MotdEntry(p, k);
    SettledIsQuiet(p, k + 1);
    SameAgain(p, k, Clean(news));
  }

  lemma SameAgain(p: seq<Item>, k: nat, n: seq<Item>)
    requires k < |p| - 1 && Quiet(p[k + 1]) && p[k].MotdGroup? && p[k].lines != [] && p[k].head == NO_HEAD
    ensures Runs(MotdRows(p[k].lines) + p[k + 1..] + n) == Runs(p[k..] + n)
  {
    LinesBeforeEntry(p[k].lines, p[k + 1..], n);
    FirstApart(p[k..]);
    assert p[k..][1..] == p[k + 1..];
  }

  lemma {:induction false} MotdEntry(p: seq<Item>, k: nat)
    requires AllPieces(Opened(p)) && k < |p| && p[k].MotdGroup?
    ensures p[k] == MotdGroup(NO_HEAD, p[k].lines) && p[k].lines != []
  {
    if k == 0 {
      assert Opened(p) == [p[0]] + Opened(p[1..]);
      assert p[0] in Opened(p);
    } else {
      var first, rest := Open(p[0]), Opened(p[1..]);
      forall m | m in rest
        ensures PieceOk(m)
      {
        assert m in first + rest;
      }
      MotdEntry(p[1..], k - 1);
    }
  }

  lemma BuriedRuns(p: seq<Item>, k: nat, n: seq<Item>)
    requires Built(p) && k < |p| && n != []
    ensures Runs(n) != [] && Runs(p[k..] + n) ==
      if IsJoinPart(p[|p| - 1]) && IsJoinPart(n[0]) then p[k..|p| - 1] + ([Merged(p[|p| - 1], n)] + Runs(n)[1..])
      else p[k..|p| - 1] + ([p[|p| - 1]] + Runs(n))
  {
    var x := p[k..];
    TailIsSpread(p, k);
    EntriesMeet(x, n);
    SplitBeforeLast(p, k);
    BeforeLast(x, Runs(n));
  }

  /** Entries from `k` on, kept as they are or opened, with more behind them. */
  lemma SameFrom(p: seq<Item>, k: nat, y: seq<Item>)
    requires Maximal(p) && k <= |p|
    requires p != [] && y != [] ==> !(Discoish(p[|p| - 1]) && IsDisco(y[0]))
    ensures p[..k] + GroupDisco(p[k..] + y, []) == GroupDisco(Opened(p) + y, [])
  {
    assert p == p[..k] + p[k..];
    MaximalConcat(p[..k], p[k..]);
    KeptThen(p[k..], y);
    OpenedThen(p, y);
    Assoc(p[..k], p[k..], GroupDisco(y, []));
  }

  lemma BuriedBeforeOther(p: seq<Item>, k: nat, n: seq<Item>)
    requires Built(p) && k < |p| - 1 && p[|p| - 1].Raw? && n != [] && !Continues(p[|p| - 1], n[0])
    ensures Runs(n) != [] && FromBuried(p, k, n) == Rebuilt(p, n)
  {
    var before, last := p[..|p| - 1], p[|p| - 1];
    BuriedRuns(p, k, n);
    OntoLast(p, n);
    LastSeam(p);
    SplitBeforeLast(p, k);
    SameFrom(before, k, [last] + Runs(n));
  }

  lemma {:induction false} FirstGroup(ms: seq<Item>, buffer: seq<Item>)
    requires |buffer| > 1
    ensures var g := GroupDisco(ms, buffer);
            g != [] && g[0].DiscoGroup? && g[0].items != [] && g[0].items[0] == buffer[0]
  {
    if ms != [] && IsDisco(ms[0]) {
      FirstGroup(ms[1..], buffer + [ms[0]]);
    }
  }

  lemma {:induction false} DiscoPrefix(x: seq<Item>, y: seq<Item>, buffer: seq<Item>)
    requires AllDisco(x)
    ensures GroupDisco(x + y, buffer) == GroupDisco(y, buffer + x)
  {
    if x == [] {
      assert x + y == y && buffer + x == buffer;
    } else {
      assert x == [x[0]] + x[1..] && x + y == [x[0]] + (x[1..] + y);
      DiscoStep(x[0], x[1..] + y, buffer);
      DiscoPrefix(x[1..], y, buffer + [x[0]]);
      Assoc(buffer, [x[0]], x[1..]);
    }
  }

  /** A disconnect group and a disconnect-like entry behind it become one group only if the group is opened. */
  lemma GroupInGroup(w: Item, m: Item, rest: seq<Item>)
    requires w.DiscoGroup? && EntryOk(w) && IsDisco(m)
    ensures GroupDisco([w] + ([m] + rest), []) != GroupDisco(w.items + ([m] + rest), [])
  {
    var y := [m] + rest;
    DiscoPrefix(w.items, y, []);
    assert [] + w.items == w.items && w.items[0] in w.items;
    FirstGroup(y, w.items);
    DiscoStep(w, y, []);
    DiscoStep(m, rest, [] + [w]);
    if IsDisco(w) {
      FirstGroup(rest, [w] + [m]);
      assert [] + [w] == [w];
    } else {
      assert [] + [w] + GroupDisco(y, []) == [w] + GroupDisco(y, []);
      DiscoSize(rest, [m], w.items + [m]);
      DiscoStep(m, rest, w.items);
      DiscoStep(m, rest, []);
      assert [] + [m] == [m];
    }
  }

  lemma OpenedUpTo(a: seq<Item>, w: Item, y: seq<Item>)
    requires Maximal(a + [w]) && EntryOk(w)
    ensures GroupDisco(Opened(a + [w]) + y, []) == a + GroupDisco(Open(w) + y, [])
  {
    MaximalConcat(a, [w]);
    OpenedConcat(a, [w]);
    OpenedOne(w);
    EntryIsGroup(w);
    Assoc(Opened(a), Open(w), y);
    OpenedThen(a, Open(w) + y);
  }

  lemma KeptUpTo(b: seq<Item>, w: Item, y: seq<Item>)
    requires Maximal(b + [w])
    ensures GroupDisco((b + [w]) + y, []) == b + GroupDisco([w] + y, [])
  {
    MaximalConcat(b, [w]);
    Assoc(b, [w], y);
    KeptThen(b, [w] + y);
  }

  /** A disconnect-like row behind entries of which the first `a` are left alone. */
  lemma TakenUpOnlyIfOpen(a: seq<Item>, b: seq<Item>, w: Item, y: seq<Item>)
    requires Maximal((a + b) + [w]) && EntryOk(w) && y != [] && IsDisco(y[0])
    ensures a + GroupDisco((b + [w]) + y, []) == GroupDisco(Opened((a + b) + [w]) + y, []) <==> !w.DiscoGroup?
  {
    OpenedUpTo(a + b, w, y);
    Assoc(a, b, [w]);
    MaximalConcat(a, b + [w]);
    KeptUpTo(b, w, y);
    Assoc(a, b, GroupDisco([w] + y, []));
    if w.DiscoGroup? {
      assert y == [y[0]] + y[1..];
      GroupInGroup(w, y[0], y[1..]);
      SamePrefix(a + b, GroupDisco([w] + y, []), GroupDisco(Open(w) + y, []));
    }
  }

  lemma SamePrefix(a: seq<Item>, x: seq<Item>, y: seq<Item>)
    ensures a + x == a + y <==> x == y
  {
    assert (a + x)[|a|..] == x && (a + y)[|a|..] == y;
  }

  lemma BeforeBuried(p: seq<Item>, k: nat)
    requires Maximal(p) && k < |p|
    ensures var a, b, w := p[..k], p[k..|p| - 1], p[|p| - 1];
      (a + b) + [w] == p && b + [w] == p[k..] && EntryOk(w)
  {
    LastApart(p);
    SplitBeforeLast(p, k);
    MaximalConcat(p[..|p| - 1], [p[|p| - 1]]);
  }

  /** Both ways when a raw row at the end goes on and a buried MOTD group has it processed again. */
  lemma BuriedForms(p: seq<Item>, k: nat, n: seq<Item>) returns (y: seq<Item>)
    requires Built(p) && k < |p| - 1 && p[|p| - 1].Raw? && n != [] && Continues(p[|p| - 1], n[0])
    ensures Runs(n) != [] && y != [] && y[0] == Merged(p[|p| - 1], n)
    ensures var before := p[..|p| - 1];
      && Maximal(before)
      && FromBuried(p, k, n) == before[..k] + GroupDisco(before[k..] + y, [])
      && Rebuilt(p, n) == GroupDisco(Opened(before) + y, [])
  {
    BuriedRuns(p, k, n);
    OntoLast(p, n);
    LastSeam(p);
    SplitBeforeLast(p, k);
    y := [Merged(p[|p| - 1], n)] + Runs(n)[1..];
    assert [] + y == y;
  }

  /** A raw row at the end is within reach when a buried MOTD group has it processed again. */
  lemma BuriedBeforeMore(p: seq<Item>, k: nat, n: seq<Item>)
    requires Built(p) && k < |p| - 1 && p[|p| - 1].Raw? && n != [] && Continues(p[|p| - 1], n[0])
    ensures Runs(n) != []
    ensures FromBuried(p, k, n) == Rebuilt(p, n)
            <==> (Above(p).Some? ==> !(Above(p).value.DiscoGroup? && IsDisco(Merged(p[|p| - 1], n))))
  {
    var y := BuriedForms(p, k, n);
    BuriedSeam(p[..|p| - 1], k, y);
  }

  lemma BuriedSeam(p: seq<Item>, k: nat, y: seq<Item>)
    requires Maximal(p) && k < |p| && y != []
    ensures p[..k] + GroupDisco(p[k..] + y, []) == GroupDisco(Opened(p) + y, [])
            <==> !(p[|p| - 1].DiscoGroup? && IsDisco(y[0]))
  {
    if Discoish(p[|p| - 1]) && IsDisco(y[0]) {
      BeforeBuried(p, k);
      TakenUpOnlyIfOpen(p[..k], p[k..|p| - 1], p[|p| - 1], y);
    } else {
      SameFrom(p, k, y);
    }
  }

  // ---------------------------------------------------------------- the theorem

  function HeadlessOption(m: Option<Item>): Option<Item> {
    if m.None? then None else Some(Headless(m.value))
  }

  lemma SeamHeadless(above: Option<Item>, last: Item, buried: bool, n: seq<Item>)
    requires n != []
    ensures SeamHolds(HeadlessOption(above), Headless(last), buried, n) == SeamHolds(above, last, buried, n)
  {
    HeadlessSame(last);
    HeadlessMerged(last, n);
    HeadlessLastItem(last, n);
    if above.Some? {
      HeadlessSame(above.value);
    }
  }

  lemma HeadlessLastItem(last: Item, n: seq<Item>)
    requires n != []
    ensures Continues(LastItem(Headless(last)), n[0]) == Continues(LastItem(last), n[0])
    ensures LastItem(Headless(last)).Raw? == LastItem(last).Raw?
  {
    HeadlessSame(LastItem(last));
    assert LastItem(Headless(last)) == Headless(LastItem(last));
  }

  lemma HeadlessMerged(last: Item, n: seq<Item>)
    ensures IsDisco(Merged(Headless(last), n)) == IsDisco(Merged(last, n))
  {
    if last.DiscoGroup? {
      HeadlessSame(last);
    }
  }

  lemma AboveHeadless(prev: seq<Item>)
    ensures Above(HeadlessAll(prev)) == HeadlessOption(Above(prev))
  {
  }

  lemma BuriedHeadless(prev: seq<Item>, news: seq<Item>)
    ensures Buried(HeadlessAll(prev), news) == Buried(prev, news)
  {
    SameLastMotd(prev);
  }

  lemma SeamlessHeadless(prev: seq<Item>, news: seq<Item>)
    requires prev != [] && Clean(news) != []
    ensures Seamless(HeadlessAll(prev), news) == Seamless(prev, news)
  {
    AboveHeadless(prev);
    BuriedHeadless(prev, news);
    SeamHeadless(Above(prev), prev[|prev| - 1], Buried(prev, news), Clean(news));
  }

  lemma ToGroupIsRebuilt(p: seq<Item>, buried: bool, n: seq<Item>)
    requires Built(p) && EndsInGroup(p) && n != [] && AllClean(n)
    ensures Runs(n) != [] && (ToGroup(p, n) == Rebuilt(p, n) <==> SeamHolds(Above(p), p[|p| - 1], buried, n))
  {
    var last := p[|p| - 1];
    if !Continues(LastItem(last), n[0]) {
      GroupBeforeOther(p, n);
    } else if last.DiscoGroup? {
      DiscoBeforeMore(p, n);
    } else {
      GroupBeforeMore(p, n);
    }
  }

  lemma ToRowIsRebuilt(p: seq<Item>, n: seq<Item>)
    requires Built(p) && p != [] && !EndsInGroup(p) && n != [] && AllClean(n)
    ensures Runs(n) != [] && (ToRow(p, n) == Rebuilt(p, n) <==> SeamHolds(Above(p), p[|p| - 1], false, n))
  {
    if Continues(p[|p| - 1], n[0]) {
      RawBeforeMore(p, n);
    } else {
      RawBeforeOther(p, n);
    }
  }

  lemma FromBuriedIsRebuilt(p: seq<Item>, k: nat, n: seq<Item>)
    requires Built(p) && k < |p| - 1 && !EndsInGroup(p) && n != []
    ensures Runs(n) != []
    ensures FromBuried(p, k, n) == Rebuilt(p, n) <==> SeamHolds(Above(p), p[|p| - 1], true, n)
  {
    if Continues(p[|p| - 1], n[0]) {
      BuriedBeforeMore(p, k, n);
    } else {
      BuriedBeforeOther(p, k, n);
    }
  }

  lemma AppendedIsRebuilt(p: seq<Item>, news: seq<Item>)
    requires Built(p) && p != [] && AllRaw(news) && Clean(news) != []
    ensures Runs(Clean(news)) != [] && (Appended(p, news) == Rebuilt(p, Clean(news)) <==> Seamless(p, news))
  {
    CleanIsClean(news);
    if EndsInGroup(p) {
      AppendedToGroup(p, news);
      ToGroupIsRebuilt(p, Buried(p, news), Clean(news));
    } else if Buried(p, news) {
      var k := BuriedAppended(p, news);
      FromBuriedIsRebuilt(p, k, Clean(news));
    } else {
      AppendedToRow(p, news);
      ToRowIsRebuilt(p, Clean(news));
    }
  }

  /** A batch of which nothing is shown leaves a processed buffer as it is. */
  lemma NothingNew(p: seq<Item>, news: seq<Item>)
    requires Built(p) && AllRaw(news) && Clean(news) == []
    ensures Appended(p, news) == p
  {
    if EndsInGroup(p) {
      var last := p[|p| - 1];
      LastSeam(p);
      LastPieces(p);
      PeelKeeps(last);
      EntryIsGroup(last);
      assert Peel(last) + [] == Peel(last);
      LastApart(p);
    } else {
      NoMotdShown(news);
      assert p + [] == p;
    }
  }

  lemma {:induction false} NoMotdShown(news: seq<Item>)
    requires Clean(news) == []
    ensures !BringsMotd(news)
  {
    if news != [] {
      NoMotdShown(news[1..]);
      assert forall i :: 1 <= i < |news| ==> news[i] == news[1..][i - 1];
    }
  }

  /** The same, of the whole buffer. */
  lemma NothingNewAtAll(raw: seq<Item>, news: seq<Item>)
    requires AllRaw(raw) && AllRaw(news) && Clean(news) == []
    ensures HeadlessAll(Append(Process(raw), news)) == HeadlessAll(Process(raw + news)) == HeadlessAll(Process(raw))
  {
    CleanBoth(raw, news);
    assert Clean(raw) + [] == Clean(raw);
    ProcessHeadless(raw);
    ProcessHeadless(raw + news);
    if news != [] {
      ProcessBuilds(raw);
      ProcessWholesome(raw);
      AppendIsAppended(Process(raw), news);
      NothingNew(HeadlessAll(Process(raw)), news);
    }
  }

  /** Into an empty buffer. */
  lemma FirstRows(news: seq<Item>)
    requires Clean(news) != []
    ensures Runs(Clean(news)) != [] && Appended([], news) == Rebuilt([], Clean(news))
  {
    AppendedToRow([], news);
    RunsNotEmpty(Clean(news));
    IntoNothing(Clean(news));
  }

  lemma IntoNothing(n: seq<Item>)
    requires n != [] && Runs(n) != []
    ensures ToRow([], n) == Rebuilt([], n)
  {
    assert Onto([], n) == [] + Runs(n) == Runs(n);
    assert [] + GroupDisco(Runs(n), []) == GroupDisco(Runs(n), []);
  }

  /**
   Appending raw rows to a processed buffer gives what processing all rows gives, heads of
   MOTD groups aside, if and only if the seam allows it.
   */
  lemma AppendIsProcess(raw: seq<Item>, news: seq<Item>)
    requires AllRaw(raw) && AllRaw(news)
    ensures HeadlessAll(Append(Process(raw), news)) == HeadlessAll(Process(raw + news))
            <==> Seamless(Process(raw), news)
  {
    var prev := Process(raw);
    if Clean(news) == [] {
      NothingNewAtAll(raw, news);
    } else {
      ProcessBuilds(raw);
      ProcessWholesome(raw);
      AppendIsAppended(prev, news);
      ProcessIsRebuilt(raw, news);
      if prev == [] {
        FirstRows(news);
      } else {
        AppendedIsRebuilt(HeadlessAll(prev), news);
        SeamlessHeadless(prev, news);
      }
    }
  }

  function Joined(raw: seq<Item>, batches: seq<seq<Item>>): seq<Item> {
    if batches == [] then raw else Joined(raw, batches[..|batches| - 1]) + batches[|batches| - 1]
  }

  lemma {:induction false} JoinedIsRaw(raw: seq<Item>, batches: seq<seq<Item>>)
    requires AllRaw(raw) && forall i :: 0 <= i < |batches| ==> AllRaw(batches[i])
    ensures AllRaw(Joined(raw, batches))
  {
    if batches != [] {
      JoinedIsRaw(raw, batches[..|batches| - 1]);
    }
  }

  /** What appending shows depends on what the buffer shows, not on heads. */
  lemma SameAppended(prev: seq<Item>, prev': seq<Item>, news: seq<Item>)
    requires AllWholesome(prev) && AllWholesome(prev') && AllRaw(news) && HeadlessAll(prev) == HeadlessAll(prev')
    ensures HeadlessAll(Append(prev, news)) == HeadlessAll(Append(prev', news))
  {
    if news != [] {
      AppendIsAppended(prev, news);
      AppendIsAppended(prev', news);
    }
  }

  /** Any number of batches with seams that hold give what processing all rows at once gives. */
  lemma {:induction false} BatchesAreProcess(raw: seq<Item>, batches: seq<seq<Item>>)
    requires AllRaw(raw) && forall i :: 0 <= i < |batches| ==> AllRaw(batches[i])
    requires forall i :: 0 <= i < |batches| ==> Seamless(Process(Joined(raw, batches[..i])), batches[i])
    ensures HeadlessAll(Batches(raw, batches)) == HeadlessAll(Process(Joined(raw, batches)))
  {
    if batches != [] {
      var n := |batches| - 1;
      var sofar, news := batches[..n], batches[n];
      assert forall i :: 0 <= i < n ==> sofar[i] == batches[i] && sofar[..i] == batches[..i];
      BatchesAreProcess(raw, sofar);
      JoinedIsRaw(raw, sofar);
      AppendIsProcess(Joined(raw, sofar), news);
      BatchesWholesome(raw, sofar);
      ProcessWholesome(Joined(raw, sofar));
      SameAppended(Batches(raw, sofar), Process(Joined(raw, sofar)), news);
    }
  }

  // ---------------------------------------------------------------- a buried group keeps its lines

  lemma {:induction false} QuietIsClean(x: seq<Item>, n: seq<Item>)
    requires AllQuiet(x)
    ensures Clean(x + n) == x + Clean(n)
  {
    if x == [] {
      assert x + n == n;
    } else {
      assert (x + n)[1..] == x[1..] + n;
      QuietIsClean(x[1..], n);
      assert x == [x[0]] + x[1..];
    }
  }

  lemma CleanStep(m: Item, z: seq<Item>)
    requires !IsGhost(m) && !IsMotdEnd(m)
    ensures Clean([m] + z) == [m] + Clean(z)
  {
    assert ([m] + z)[1..] == z;
  }

  lemma {:induction false} LinesAreClean(lines: seq<string>, z: seq<Item>)
    ensures Clean(MotdRows(lines) + z) == MotdRows(lines) + Clean(z)
  {
    if lines == [] {
      assert MotdRows(lines) + z == z;
      assert [] + Clean(z) == Clean(z);
    } else {
      var m, rest := Raw(Row(MotdLine, lines[0], None, "")), MotdRows(lines[1..]);
      Assoc([m], rest, z);
      CleanStep(m, rest + z);
      LinesAreClean(lines[1..], z);
      Assoc([m], rest, Clean(z));
    }
  }

  lemma {:induction false} HeadlessQuiet(x: seq<Item>)
    requires AllQuiet(x) && Spread(x)
    ensures AllQuiet(HeadlessAll(x)) && Spread(HeadlessAll(x))
  {
    if x != [] {
      assert HeadlessAll(x)[1..] == HeadlessAll(x[1..]);
      HeadlessQuiet(x[1..]);
      HeadlessSame(x[0]);
      if |x| > 1 {
        HeadlessSame(x[1]);
      }
    }
  }

  /** The first entry that the disconnect pass leaves. */
  lemma FirstEntry(m: Item, z: seq<Item>)
    ensures var g := GroupDisco([m] + z, []);
      g != [] && if IsDisco(m) && z != [] && IsDisco(z[0])
                 then g[0].DiscoGroup? && g[0].items != [] && g[0].items[0] == m else g[0] == m
  {
    DiscoStep(m, z, []);
    assert [] + [m] == [m];
    if IsDisco(m) && z != [] {
      FirstApart(z);
      DiscoStep(z[0], z[1..], [m]);
      if IsDisco(z[0]) {
        FirstGroup(z[1..], [m] + [z[0]]);
      }
    }
  }

  /** What comes right behind the buried group, the new rows included. */
  function Behind(prev: seq<Item>, k: nat, n: seq<Item>): Item
    requires k + 1 < |prev|
  {
    if k + 2 == |prev| && n != [] && IsJoinPart(prev[k + 1]) && IsJoinPart(n[0]) then Merged(prev[k + 1], n)
    else prev[k + 1]
  }

  lemma RunsBehind(prev: seq<Item>, k: nat, n: seq<Item>)
    requires k + 1 < |prev| && AllQuiet(prev[k + 1..]) && Spread(prev[k + 1..])
    ensures var z := Runs(HeadlessAll(prev[k + 1..]) + n); z != [] && IsDisco(z[0]) == IsDisco(Behind(prev, k, n))
  {
    var x := HeadlessAll(prev[k + 1..]);
    HeadlessQuiet(prev[k + 1..]);
    HeadlessSame(prev[k + 1]);
    if n == [] {
      assert x + n == x;
      EntriesKept(x);
    } else {
      EntriesMeet(x, n);
      HeadlessSame(prev[|prev| - 1]);
    }
  }

  /** From the buried group on: the group with its old lines, and then what is behind it. */
  lemma ProcessFromBuried(lines: seq<string>, tail: seq<Item>, news: seq<Item>)
    requires lines != [] && tail != [] && AllQuiet(tail) && AllRaw(news)
    ensures HeadlessAll(Process(MotdRows(lines) + tail + news))
         == GroupDisco([MotdGroup(NO_HEAD, lines)] + Runs(HeadlessAll(tail) + Clean(news)), [])
  {
    var g, h, n := MotdGroup(NO_HEAD, lines), HeadlessAll(tail), Clean(news);
    Assoc(MotdRows(lines), tail, news);
    LinesAreClean(lines, tail + news);
    QuietIsClean(tail, news);
    ProcessHeadless(MotdRows(lines) + tail + news);
    CleanIsClean(news);
    MotdRowsRaw(lines);
    RawHeadless(MotdRows(lines));
    HeadlessConcat(tail, n);
    HeadlessConcat(MotdRows(lines), tail + n);
    HeadlessSame(tail[0]);
    Assoc(MotdRows(lines), h, n);
    LinesBeforeEntry(lines, h, n);
    Assoc([g], h, n);
    MotdsStep(g, h + n, []);
    GroupAlone(g, Motds(h + n, []), []);
    assert [] + [g] == [g];
  }

  lemma TailIsSpread(prev: seq<Item>, k: nat)
    requires Settled(prev) && k <= |prev|
    ensures AllQuiet(prev[k..]) && Spread(prev[k..])
  {
    SplitAt(prev, k);
    SettledParts(prev[..k], prev[k..]);
    SettledIsSpread(prev[k..]);
  }

  /**
   New MOTD lines never extend a buried MOTD group. It keeps its place and exactly its
   lines, alone or, if a row behind it grows into a disconnect-like run, in a group.
   */
  lemma BuriedMotdIsNotExtended(prev: seq<Item>, news: seq<Item>, k: nat)
    requires Settled(prev) && prev != [] && !EndsInGroup(prev) && AllRaw(news)
    requires BringsMotd(news) && LastMotdGroup(prev) == Some(k) && prev[k].lines != []
    ensures k + 1 < |prev| && k < |Append(prev, news)|
    ensures var entry := Append(prev, news)[k];
      if IsDisco(prev[k]) && IsDisco(Behind(prev, k, Clean(news)))
      then entry.DiscoGroup? && entry.items != [] && entry.items[0].MotdGroup? && entry.items[0].lines == prev[k].lines
      else entry.MotdGroup? && entry.lines == prev[k].lines
  {
    var again := AppendFromBuried(prev, news, k);
    TailIsSpread(prev, k + 1);
    RunsBehind(prev, k, Clean(news));
    FirstFromBuried(prev[k], prev[k + 1..], news);
    EntryAt(prev, k, again);
  }

  lemma AppendFromBuried(prev: seq<Item>, news: seq<Item>, k: nat) returns (again: seq<Item>)
    requires prev != [] && !EndsInGroup(prev) && BringsMotd(news) && LastMotdGroup(prev) == Some(k)
    ensures k + 1 < |prev| && again == Process(MotdRows(prev[k].lines) + prev[k + 1..] + news)
    ensures Append(prev, news) == prev[..k] + again
  {
    BuriedCut(prev, news);
    again := Process(MotdRows(prev[k].lines) + prev[k + 1..] + news);
  }

  lemma EntryAt(prev: seq<Item>, k: nat, again: seq<Item>)
    requires k <= |prev| && again != []
    ensures k < |prev[..k] + again| && (prev[..k] + again)[k] == again[0]
  {
  }

  /** The first entry of what is processed again. */
  lemma FirstFromBuried(m: Item, tail: seq<Item>, news: seq<Item>)
    requires m.MotdGroup? && m.lines != [] && tail != [] && AllQuiet(tail) && AllRaw(news)
    ensures Process(MotdRows(m.lines) + tail + news) != []
    ensures var entry, z := Process(MotdRows(m.lines) + tail + news)[0], Runs(HeadlessAll(tail) + Clean(news));
      if IsDisco(m) && z != [] && IsDisco(z[0])
      then entry.DiscoGroup? && entry.items != [] && entry.items[0].MotdGroup? && entry.items[0].lines == m.lines
      else entry.MotdGroup? && entry.lines == m.lines
  {
    var again, g := Process(MotdRows(m.lines) + tail + news), MotdGroup(NO_HEAD, m.lines);
    ProcessFromBuried(m.lines, tail, news);
    FirstEntry(g, Runs(HeadlessAll(tail) + Clean(news)));
    assert IsDisco(g) == IsDisco(m);
    assert HeadlessAll(again)[0] == Headless(again[0]);
  }

  /** The case in which it does not stay alone: a joining row that grows at the very end. */
  lemma BuriedMotdJoinsRun(prev: seq<Item>, k: nat, n: seq<Item>)
    requires Settled(prev) && k + 1 < |prev| && IsDisco(prev[k]) && IsDisco(Behind(prev, k, n))
    ensures k + 2 == |prev| && n != [] && IsJoinPart(prev[k + 1]) && IsJoinPart(n[0])
  {
    SplitAt(prev, k);
    SettledParts(prev[..k], prev[k..]);
  }
}
