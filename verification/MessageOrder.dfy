/**
 What the groups of a processed buffer look like: members in time order, rows of one
 time as they came, everything outside the runs in its place, and no group that could
 have been longer. All of it is stated on positions and times.
 */
module MessageOrder {
  import opened Sequences
  import opened Wrappers
  import opened MessageGroups
  import opened MessageAppend

  // ---------------------------------------------------------------- inside the groups

  ghost predicate OldestFirst(rows: seq<Row>) {
    forall i, j :: 0 <= i < j < |rows| ==> rows[i].Time() <= rows[j].Time()
  }

  /** A group of at least two entries that belong together; the head of an MOTD group is its first line. */
  ghost predicate Grouped(m: Item) {
    match m
    case Raw(_) => true
    case MotdGroup(head, lines) => lines != [] && head.text == lines[0] && IsMotdCommand(head.command)
    case JoinPartGroup(rows) => |rows| >= 2 && AllJoinPart(rows) && OldestFirst(rows)
    case DiscoGroup(items) => |items| >= 2 && AllDisco(items) && forall k :: 0 <= k < |items| ==> Grouped(items[k])
  }

  ghost predicate AllGrouped(ms: seq<Item>) {
    forall k :: 0 <= k < |ms| ==> Grouped(ms[k])
  }

  lemma {:induction false} InsertOldestFirst(r: Row, rows: seq<Row>)
    requires OldestFirst(rows)
    ensures OldestFirst(InsertRow(r, rows))
  {
    if rows != [] && r.Time() > rows[0].Time() {
      var rest := InsertRow(r, rows[1..]);
      InsertOldestFirst(r, rows[1..]);
      InsertKeeps(r, rows[1..]);
      forall j | 0 <= j < |rest|
        ensures rows[0].Time() <= rest[j].Time()
      {
        assert rest[j] in rest;
        if rest[j] != r {
          var k :| 0 <= k < |rows[1..]| && rows[1..][k] == rest[j];
          assert rows[k + 1] == rest[j];
        }
      }
    }
  }

  lemma {:induction false} SortOldestFirst(rows: seq<Row>)
    ensures OldestFirst(SortRows(rows))
  {
    if rows != [] {
      SortOldestFirst(rows[1..]);
      InsertOldestFirst(rows[0], SortRows(rows[1..]));
    }
  }

  lemma FlushedGrouped(run: seq<Row>)
    requires AllJoinPart(run)
    ensures AllGrouped(FlushJoinPart(run))
  {
    SortKeeps(run);
    SortOldestFirst(run);
  }

  lemma GroupedConcat(a: seq<Item>, b: seq<Item>)
    requires AllGrouped(a) && AllGrouped(b)
    ensures AllGrouped(a + b)
  {
  }

  lemma GroupedTail(ms: seq<Item>)
    requires AllGrouped(ms) && ms != []
    ensures Grouped(ms[0]) && AllGrouped(ms[1..]) && AllGrouped([ms[0]])
  {
    assert forall k :: 0 <= k < |ms[1..]| ==> ms[1..][k] == ms[k + 1];
  }

  lemma {:induction false} GhostlessGrouped(ms: seq<Item>)
    requires AllGrouped(ms)
    ensures AllGrouped(WithoutGhosts(ms))
  {
    if ms != [] {
      GroupedTail(ms);
      GhostlessGrouped(ms[1..]);
      GroupedConcat([ms[0]], WithoutGhosts(ms[1..]));
    }
  }

  lemma {:induction false} MotdPassGrouped(ms: seq<Item>, head: Option<Row>, lines: seq<string>)
    requires AllGrouped(ms) && (head.None? <==> lines == [])
    requires head.Some? ==> head.value.text == lines[0] && IsMotdCommand(head.value.command)
    ensures AllGrouped(GroupMotd(ms, head, lines))
  {
    if ms != [] {
      GroupedTail(ms);
      if IsMotd(ms[0]) {
        MotdPassGrouped(ms[1..], if head.Some? then head else Some(ms[0].row), lines + [ms[0].row.text]);
      } else if IsMotdEnd(ms[0]) {
        MotdPassGrouped(ms[1..], head, lines);
      } else {
        MotdPassGrouped(ms[1..], None, []);
        GroupedConcat(FlushMotd(head, lines), [ms[0]]);
        GroupedConcat(FlushMotd(head, lines) + [ms[0]], GroupMotd(ms[1..], None, []));
      }
    }
  }

  lemma {:induction false} JoinPartPassGrouped(ms: seq<Item>, run: seq<Row>)
    requires AllGrouped(ms) && AllJoinPart(run)
    ensures AllGrouped(GroupJoinPart(ms, run))
  {
    FlushedGrouped(run);
    if ms != [] {
      GroupedTail(ms);
      if IsJoinPart(ms[0]) {
        JoinPartPassGrouped(ms[1..], run + [ms[0].row]);
      } else {
        JoinPartPassGrouped(ms[1..], []);
        GroupedConcat(FlushJoinPart(run), [ms[0]]);
        GroupedConcat(FlushJoinPart(run) + [ms[0]], GroupJoinPart(ms[1..], []));
      }
    }
  }

  lemma {:induction false} DiscoPassGrouped(ms: seq<Item>, buffer: seq<Item>)
    requires AllGrouped(ms) && AllGrouped(buffer) && AllDisco(buffer)
    ensures AllGrouped(GroupDisco(ms, buffer))
  {
    assert AllGrouped(FlushDisco(buffer));
    if ms != [] {
      GroupedTail(ms);
      if IsDisco(ms[0]) {
        GroupedConcat(buffer, [ms[0]]);
        DiscoPassGrouped(ms[1..], buffer + [ms[0]]);
      } else {
        DiscoPassGrouped(ms[1..], []);
        GroupedConcat(FlushDisco(buffer), [ms[0]]);
        GroupedConcat(FlushDisco(buffer) + [ms[0]], GroupDisco(ms[1..], []));
      }
    }
  }

  /** Every group of a processed buffer, inside others too, is in time order and of its kind. */
  lemma ProcessGrouped(ms: seq<Item>)
    requires AllGrouped(ms)
    ensures AllGrouped(Process(ms))
  {
    var kept := WithoutGhosts(ms);
    GhostlessGrouped(ms);
    MotdPassGrouped(kept, None, []);
    JoinPartPassGrouped(GroupMotd(kept, None, []), []);
    DiscoPassGrouped(GroupJoinPart(GroupMotd(kept, None, []), []), []);
  }

  lemma {:induction false} PeeledRowsAreRaw(rows: seq<Row>, lines: seq<string>)
    ensures AllRaw(RawRows(rows)) && AllRaw(MotdRows(lines))
    decreases |rows| + |lines|
  {
    if rows != [] {
      PeeledRowsAreRaw(rows[1..], lines);
    } else if lines != [] {
      PeeledRowsAreRaw(rows, lines[1..]);
    }
  }

  lemma PeelGrouped(m: Item)
    requires Grouped(m)
    ensures AllGrouped(Peel(m))
  {
    PeeledRowsAreRaw(if m.JoinPartGroup? then m.members else [], if m.MotdGroup? then m.lines else []);
  }

  lemma CutGrouped(prev: seq<Item>, news: seq<Item>)
    requires AllGrouped(prev)
    ensures AllGrouped(CutFor(prev, news).keep) && AllGrouped(CutFor(prev, news).again)
  {
    if EndsInGroup(prev) {
      PeelGrouped(prev[|prev| - 1]);
    } else if BringsMotd(news) && LastMotdGroup(prev).Some? {
      PeelGrouped(prev[LastMotdGroup(prev).value]);
    }
  }

  lemma AppendGrouped(prev: seq<Item>, news: seq<Item>)
    requires AllGrouped(prev) && AllGrouped(news)
    ensures AllGrouped(Append(prev, news))
  {
    if news != [] {
      var c := CutFor(prev, news);
      CutGrouped(prev, news);
      GroupedConcat(c.again, news);
      ProcessGrouped(c.again + news);
      GroupedConcat(c.keep, Process(c.again + news));
    }
  }

  /** The same of a buffer built from raw rows in any number of batches. */
  lemma {:induction false} BatchesGrouped(raw: seq<Item>, batches: seq<seq<Item>>)
    requires AllRaw(raw) && forall i :: 0 <= i < |batches| ==> AllRaw(batches[i])
    ensures AllGrouped(Batches(raw, batches))
  {
    if batches == [] {
      ProcessGrouped(raw);
    } else {
      BatchesGrouped(raw, batches[..|batches| - 1]);
      AppendGrouped(Batches(raw, batches[..|batches| - 1]), batches[|batches| - 1]);
    }
  }

  // ---------------------------------------------------------------- rows of one time

  /** The join/part-like rows of time `t`, in their order. */
  function JoinsAt(atoms: seq<Atom>, t: int): seq<Row> {
    if atoms == [] then []
    else
      var a := atoms[0];
      (if a.Plain? && IsJoinPartCommand(a.row.command) && a.row.Time() == t then [a.row] else [])
      + JoinsAt(atoms[1..], t)
  }

  lemma {:induction false} JoinsAtConcat(a: seq<Atom>, b: seq<Atom>, t: int)
    ensures JoinsAt(a + b, t) == JoinsAt(a, t) + JoinsAt(b, t)
  {
    if a == [] {
      assert a + b == b;
    } else {
      assert (a + b)[1..] == a[1..] + b;
      JoinsAtConcat(a[1..], b, t);
    }
  }

  function IfAt(r: Row, t: int): seq<Row> {
    if r.Time() == t then [r] else []
  }

  lemma JoinsAtFirst(r: Row, rows: seq<Row>, t: int)
    requires IsJoinPartCommand(r.command)
    ensures JoinsAt(Plains([r] + rows), t) == IfAt(r, t) + JoinsAt(Plains(rows), t)
  {
    assert ([r] + rows)[1..] == rows;
    assert Plains([r] + rows) == [Plain(r)] + Plains(rows) && ([Plain(r)] + Plains(rows))[1..] == Plains(rows);
  }

  lemma SwapApart(r: Row, q: Row, rows: seq<Row>, t: int)
    requires r.Time() != q.Time()
    ensures IfAt(r, t) + (IfAt(q, t) + rows) == IfAt(q, t) + (IfAt(r, t) + rows)
  {
    assert [] + (IfAt(q, t) + rows) == IfAt(q, t) + ([] + rows);
    assert [] + (IfAt(r, t) + rows) == IfAt(r, t) + ([] + rows);
  }

  lemma {:induction false} InsertStable(r: Row, rows: seq<Row>, t: int)
    requires IsJoinPartCommand(r.command) && AllJoinPart(rows)
    ensures JoinsAt(Plains(InsertRow(r, rows)), t) == JoinsAt(Plains([r] + rows), t)
  {
    if rows != [] && r.Time() > rows[0].Time() {
      var q, rest := rows[0], rows[1..];
      InsertStable(r, rest, t);
      JoinsAtFirst(r, rest, t);
      JoinsAtFirst(q, InsertRow(r, rest), t);
      FirstApart(rows);
      JoinsAtFirst(q, rest, t);
      JoinsAtFirst(r, rows, t);
      SwapApart(r, q, JoinsAt(Plains(rest), t), t);
    } else if rows == [] {
      assert [r] + rows == [r];
    }
  }

  lemma {:induction false} SortStable(rows: seq<Row>, t: int)
    requires AllJoinPart(rows)
    ensures JoinsAt(Plains(SortRows(rows)), t) == JoinsAt(Plains(rows), t)
  {
    if rows != [] {
      FirstApart(rows);
      SortStable(rows[1..], t);
      SortKeeps(rows[1..]);
      InsertStable(rows[0], SortRows(rows[1..]), t);
      JoinsAtFirst(rows[0], SortRows(rows[1..]), t);
      JoinsAtFirst(rows[0], rows[1..], t);
    }
  }

  lemma RunGrows(m: Item, rest: seq<Item>, run: seq<Row>)
    requires IsJoinPart(m)
    ensures RunsInOrder([m] + rest, run) == RunsInOrder(rest, run + [m.row])
    ensures Plains(run) + Content([m] + rest) == Plains(run + [m.row]) + Content(rest)
  {
    assert ([m] + rest)[1..] == rest;
    PlainsPush(run, m.row);
    Assoc(Plains(run), [Plain(m.row)], Content(rest));
  }

  lemma RunEnds(m: Item, rest: seq<Item>, run: seq<Row>)
    requires !IsJoinPart(m)
    ensures Content(RunsInOrder([m] + rest, run))
         == Content(RawRows(SortRows(run))) + AtomsOf(m) + Content(RunsInOrder(rest, []))
    ensures Content([m] + rest) == AtomsOf(m) + Content(rest) && Plains([]) + Content(rest) == Content(rest)
  {
    assert ([m] + rest)[1..] == rest;
    Content3(RawRows(SortRows(run)), m, RunsInOrder(rest, []));
  }

  lemma SameJoins(a: seq<Atom>, b: seq<Atom>, c: seq<Atom>, d: seq<Atom>, t: int)
    requires a + b == c + d
    ensures JoinsAt(a, t) + JoinsAt(b, t) == JoinsAt(c, t) + JoinsAt(d, t)
  {
    JoinsAtConcat(a, b, t);
    JoinsAtConcat(c, d, t);
  }

  lemma JoinsAround(a: seq<Atom>, b: seq<Atom>, x: seq<Atom>, c: seq<Atom>, d: seq<Atom>, t: int)
    requires JoinsAt(a, t) == JoinsAt(b, t) && JoinsAt(c, t) == JoinsAt([], t) + JoinsAt(d, t)
    ensures JoinsAt(a + x + c, t) == JoinsAt(b, t) + JoinsAt(x + d, t)
  {
    JoinsAtConcat(a + x, c, t);
    JoinsAtConcat(a, x, t);
    JoinsAtConcat(x, d, t);
    Assoc(JoinsAt(b, t), JoinsAt(x, t), JoinsAt(d, t));
  }

  lemma {:induction false} RunsStable(ms: seq<Item>, run: seq<Row>, t: int)
    requires AllJoinPart(run)
    ensures JoinsAt(Content(RunsInOrder(ms, run)), t) == JoinsAt(Plains(run), t) + JoinsAt(Content(ms), t)
  {
    var sorted := Content(RawRows(SortRows(run)));
    SortKeeps(run);
    RawRowsContent(SortRows(run));
    SortStable(run, t);
    if ms != [] {
      var m, rest := ms[0], ms[1..];
      FirstApart(ms);
      if IsJoinPart(m) {
        RunGrows(m, rest, run);
        RunsStable(rest, run + [m.row], t);
        SameJoins(Plains(run + [m.row]), Content(rest), Plains(run), Content(ms), t);
      } else {
        RunEnds(m, rest, run);
        RunsStable(rest, [], t);
        JoinsAround(sorted, Plains(run), AtomsOf(m), Content(RunsInOrder(rest, [])), Content(rest), t);
      }
    }
  }

  /** Rows of one time keep the order in which they came. */
  lemma ProcessStable(ms: seq<Item>, t: int)
    ensures JoinsAt(Content(Process(ms)), t) == JoinsAt(Content(Clean(ms)), t)
  {
    ProcessContent(ms);
    RunsStable(Clean(ms), [], t);
  }

  lemma AppendStable(prev: seq<Item>, news: seq<Item>, t: int)
    requires AllWholesome(prev)
    ensures JoinsAt(Content(Append(prev, news)), t) == JoinsAt(Content(prev), t) + JoinsAt(Content(Clean(news)), t)
  {
    if news != [] {
      var c := CutFor(prev, news);
      CutContent(prev, news);
      AppendContent(prev, news);
      RunsStable(c.again + Clean(news), [], t);
      ContentConcat(c.again, Clean(news));
      JoinsAtConcat(Content(c.keep), Content(RunsInOrder(c.again + Clean(news), [])), t);
      JoinsAtConcat(Content(c.again), Content(Clean(news)), t);
      JoinsAtConcat(Content(c.keep), Content(c.again), t);
      Assoc(JoinsAt(Content(c.keep), t), JoinsAt(Content(c.again), t), JoinsAt(Content(Clean(news)), t));
    }
  }

  // ---------------------------------------------------------------- everything else in its place

  predicate Joins(a: Atom) {
    a.Plain? && IsJoinPartCommand(a.row.command)
  }

  /** Only join/part-like rows are moved, and none of them across any other row. */
  ghost predicate InPlace(after: seq<Atom>, before: seq<Atom>) {
    && |after| == |before| && multiset(after) == multiset(before)
    && forall p :: 0 <= p < |before| && !Joins(before[p]) ==>
         after[p] == before[p] && multiset(after[..p]) == multiset(before[..p])
  }

  lemma InPlaceConcat(a: seq<Atom>, b: seq<Atom>, c: seq<Atom>, d: seq<Atom>)
    requires InPlace(a, b) && InPlace(c, d)
    ensures InPlace(a + c, b + d)
  {
    forall p | 0 <= p < |b + d| && !Joins((b + d)[p])
      ensures (a + c)[p] == (b + d)[p] && multiset((a + c)[..p]) == multiset((b + d)[..p])
    {
      if p < |b| {
        assert (a + c)[..p] == a[..p] && (b + d)[..p] == b[..p];
      } else {
        assert (a + c)[..p] == a + c[..p - |b|] && (b + d)[..p] == b + d[..p - |b|];
      }
    }
  }

  lemma InPlaceAround(a: seq<Atom>, b: seq<Atom>, x: seq<Atom>, c: seq<Atom>, d: seq<Atom>)
    requires InPlace(a, b) && InPlace(c, d)
    ensures InPlace(a + x + c, b + (x + d))
  {
    InPlaceConcat(a, b, x, x);
    InPlaceConcat(a + x, b + x, c, d);
    Assoc(b, x, d);
  }

  lemma {:induction false} PlainsJoin(rows: seq<Row>)
    requires AllJoinPart(rows)
    ensures |Plains(rows)| == |rows| && forall p :: 0 <= p < |rows| ==> Joins(Plains(rows)[p])
  {
    if rows != [] {
      PlainsJoin(rows[1..]);
    }
  }

  lemma SortedInPlace(run: seq<Row>)
    requires AllJoinPart(run)
    ensures InPlace(Content(RawRows(SortRows(run))), Plains(run))
  {
    SortKeeps(run);
    RawRowsContent(SortRows(run));
    PlainsOfSame(run, SortRows(run));
    PlainsJoin(run);
    PlainsJoin(SortRows(run));
  }

  lemma {:induction false} RunsInPlace(ms: seq<Item>, run: seq<Row>)
    requires AllJoinPart(run)
    ensures InPlace(Content(RunsInOrder(ms, run)), Plains(run) + Content(ms))
  {
    SortedInPlace(run);
    if ms == [] {
      assert Plains(run) + [] == Plains(run);
    } else {
      var m, rest := ms[0], ms[1..];
      FirstApart(ms);
      if IsJoinPart(m) {
        RunGrows(m, rest, run);
        RunsInPlace(rest, run + [m.row]);
      } else {
        RunEnds(m, rest, run);
        RunsInPlace(rest, []);
        InPlaceAround(Content(RawRows(SortRows(run))), Plains(run), AtomsOf(m),
          Content(RunsInOrder(rest, [])), Content(rest));
      }
    }
  }

  /** Processing moves join/part-like rows within their runs and nothing else. */
  lemma ProcessInPlace(ms: seq<Item>)
    ensures InPlace(Content(Process(ms)), Content(Clean(ms)))
  {
    ProcessContent(ms);
    RunsInPlace(Clean(ms), []);
    NothingBefore(Content(Clean(ms)));
  }

  /** So does appending, with the old content in front. */
  lemma AppendInPlace(prev: seq<Item>, news: seq<Item>)
    requires AllWholesome(prev)
    ensures InPlace(Content(Append(prev, news)), Content(prev) + Content(Clean(news)))
  {
    if news == [] {
      assert Content(prev) + [] == Content(prev);
    } else {
      var c := CutFor(prev, news);
      CutContent(prev, news);
      AppendContent(prev, news);
      RunsInPlace(c.again + Clean(news), []);
      ContentConcat(c.again, Clean(news));
      NothingBefore(Content(c.again) + Content(Clean(news)));
      InPlaceConcat(Content(c.keep), Content(c.keep), Content(RunsInOrder(c.again + Clean(news), [])),
        Content(c.again) + Content(Clean(news)));
      Assoc(Content(c.keep), Content(c.again), Content(Clean(news)));
    }
  }

  // ---------------------------------------------------------------- no group could be longer

  predicate RunLike(m: Item) { IsJoinPart(m) || m.JoinPartGroup? }

  predicate MotdLike(m: Item) { IsMotd(m) || m.MotdGroup? }

  predicate DiscoLike(m: Item) { IsDisco(m) || m.DiscoGroup? }

  /** No two neighbours are of the given kind. */
  ghost predicate NoTwo(ms: seq<Item>, like: Item -> bool) {
    forall i :: 0 <= i < |ms| - 1 ==> !(like(ms[i]) && like(ms[i + 1]))
  }

  lemma NoTwoAround(a: seq<Item>, m: Item, b: seq<Item>, like: Item -> bool)
    requires NoTwo(a, like) && NoTwo(b, like)
    requires a != [] ==> !(like(a[|a| - 1]) && like(m))
    requires b != [] ==> !(like(m) && like(b[0]))
    ensures NoTwo(a + [m] + b, like)
  {
    var all := a + [m] + b;
    forall i | 0 <= i < |all| - 1
      ensures !(like(all[i]) && like(all[i + 1]))
    {
      if i < |a| {
        assert all[i] == a[i];
      } else if i > |a| {
        assert all[i] == b[i - |a| - 1];
      }
    }
  }

  lemma {:induction false} MotdPassMaximal(ms: seq<Item>, head: Option<Row>, lines: seq<string>)
    requires AllRaw(ms)
    ensures NoTwo(GroupMotd(ms, head, lines), MotdLike)
    ensures forall m :: m in GroupMotd(ms, head, lines) ==> (m.Raw? && !IsMotd(m)) || m.MotdGroup?
  {
    if ms != [] {
      assert forall i :: 0 <= i < |ms[1..]| ==> ms[1..][i] == ms[i + 1];
      if IsMotd(ms[0]) {
        MotdPassMaximal(ms[1..], if head.Some? then head else Some(ms[0].row), lines + [ms[0].row.text]);
      } else if IsMotdEnd(ms[0]) {
        MotdPassMaximal(ms[1..], head, lines);
      } else {
        MotdPassMaximal(ms[1..], None, []);
        NoTwoAround(FlushMotd(head, lines), ms[0], GroupMotd(ms[1..], None, []), MotdLike);
      }
    }
  }

  lemma {:induction false} JoinPartPassMaximal(ms: seq<Item>, run: seq<Row>)
    requires NoTwo(ms, MotdLike) && forall m :: m in ms ==> (m.Raw? && !IsMotd(m)) || m.MotdGroup?
    requires AllJoinPart(run)
    ensures var out := GroupJoinPart(ms, run);
            && NoTwo(out, MotdLike) && NoTwo(out, RunLike) && (forall m :: m in out ==> !m.DiscoGroup?)
            && (out != [] && MotdLike(out[0]) ==> run == [] && ms != [] && MotdLike(ms[0]))
  {
    var flushed := FlushJoinPart(run);
    assert flushed != [] ==> run != [] && RunLike(flushed[0]) && !MotdLike(flushed[0]);
    if ms != [] {
      var m, rest := ms[0], ms[1..];
      assert forall i :: 0 <= i < |rest| ==> rest[i] == ms[i + 1];
      if IsJoinPart(m) {
        JoinPartPassMaximal(rest, run + [m.row]);
      } else {
        JoinPartPassMaximal(rest, []);
        assert m in ms && !RunLike(m);
        NoTwoAround(flushed, m, GroupJoinPart(rest, []), MotdLike);
        NoTwoAround(flushed, m, GroupJoinPart(rest, []), RunLike);
      }
    }
  }

  /** What the disconnect pass puts in front. */
  lemma {:induction false} DiscoPassFront(ms: seq<Item>, buffer: seq<Item>)
    ensures var out := GroupDisco(ms, buffer);
            out != [] ==>
              || out[0].DiscoGroup?
              || (buffer != [] && out[0] == buffer[0]) || (buffer == [] && ms != [] && out[0] == ms[0])
  {
    if ms != [] && IsDisco(ms[0]) {
      DiscoPassFront(ms[1..], buffer + [ms[0]]);
    }
  }

  lemma NoTwoPart(a: seq<Item>, b: seq<Item>, like: Item -> bool)
    requires NoTwo(a + b, like)
    ensures NoTwo(a, like) && NoTwo(b, like)
    ensures a != [] && b != [] ==> !(like(a[|a| - 1]) && like(b[0]))
  {
    var all := a + b;
    assert forall i :: 0 <= i < |a| ==> all[i] == a[i];
    assert forall i :: 0 <= i < |b| ==> all[|a| + i] == b[i];
    if a != [] && b != [] {
      assert all[|a| - 1 + 1] == b[0];
    }
    forall i | 0 <= i < |b| - 1
      ensures !(like(b[i]) && like(b[i + 1]))
    {
      assert all[|a| + i] == b[i] && all[|a| + i + 1] == b[i + 1];
    }
  }

  /** A kind of entry that a disconnect group is not. */
  lemma {:induction false} DiscoPassKeepsApart(ms: seq<Item>, buffer: seq<Item>, like: Item -> bool)
    requires NoTwo(buffer, like) && NoTwo(ms, like)
    requires buffer != [] && ms != [] ==> !(like(buffer[|buffer| - 1]) && like(ms[0]))
    requires forall m: Item :: m.DiscoGroup? ==> !like(m)
    ensures NoTwo(GroupDisco(ms, buffer), like)
  {
    if ms != [] {
      var m, rest := ms[0], ms[1..];
      FirstApart(ms);
      NoTwoPart([m], rest, like);
      if IsDisco(m) {
        NoTwoAround(buffer, m, [], like);
        assert buffer + [m] + [] == buffer + [m];
        DiscoPassKeepsApart(rest, buffer + [m], like);
      } else {
        DiscoPassKeepsApart(rest, [], like);
        DiscoPassFront(rest, []);
        NoTwoAround(FlushDisco(buffer), m, GroupDisco(rest, []), like);
      }
    }
  }

  lemma {:induction false} DiscoPassApartInside(ms: seq<Item>, buffer: seq<Item>, like: Item -> bool)
    requires NoTwo(buffer, like) && NoTwo(ms, like)
    requires buffer != [] && ms != [] ==> !(like(buffer[|buffer| - 1]) && like(ms[0]))
    requires forall m :: m in ms || m in buffer ==> !m.DiscoGroup?
    ensures forall m :: m in GroupDisco(ms, buffer) && m.DiscoGroup? ==> NoTwo(m.items, like)
  {
    if ms != [] {
      var m, rest := ms[0], ms[1..];
      FirstApart(ms);
      NoTwoPart([m], rest, like);
      if IsDisco(m) {
        NoTwoAround(buffer, m, [], like);
        assert buffer + [m] + [] == buffer + [m];
        DiscoPassApartInside(rest, buffer + [m], like);
      } else {
        DiscoPassApartInside(rest, [], like);
      }
    }
  }

  lemma {:induction false} DiscoPassMaximal(ms: seq<Item>, buffer: seq<Item>)
    requires AllDisco(buffer) && forall m :: m in ms ==> !m.DiscoGroup?
    ensures NoTwo(GroupDisco(ms, buffer), DiscoLike)
  {
    if ms != [] {
      var m, rest := ms[0], ms[1..];
      FirstApart(ms);
      if IsDisco(m) {
        DiscoPassMaximal(rest, buffer + [m]);
      } else {
        DiscoPassMaximal(rest, []);
        assert m in ms;
        NoTwoAround(FlushDisco(buffer), m, GroupDisco(rest, []), DiscoLike);
      }
    }
  }

  lemma {:induction false} GhostlessRaw(ms: seq<Item>)
    requires AllRaw(ms)
    ensures AllRaw(WithoutGhosts(ms))
  {
    if ms != [] {
      assert forall i :: 0 <= i < |ms[1..]| ==> ms[1..][i] == ms[i + 1];
      GhostlessRaw(ms[1..]);
    }
  }

  /**
   Raw rows are grouped as far as they can be: no two neighbours of the result are of
   one kind, nor are two neighbours inside a disconnect group MOTD or join/part entries.
   */
  lemma ProcessMaximal(ms: seq<Item>)
    requires AllRaw(ms)
    ensures var out := Process(ms);
            && NoTwo(out, MotdLike) && NoTwo(out, RunLike) && NoTwo(out, DiscoLike)
            && forall m :: m in out && m.DiscoGroup? ==> NoTwo(m.items, MotdLike) && NoTwo(m.items, RunLike)
  {
    var kept := WithoutGhosts(ms);
    var motd := GroupMotd(kept, None, []);
    var runs := GroupJoinPart(motd, []);
    GhostlessRaw(ms);
    MotdPassMaximal(kept, None, []);
    JoinPartPassMaximal(motd, []);
    DiscoPassKeepsApart(runs, [], MotdLike);
    DiscoPassKeepsApart(runs, [], RunLike);
    DiscoPassApartInside(runs, [], MotdLike);
    DiscoPassApartInside(runs, [], RunLike);
    DiscoPassMaximal(runs, []);
  }
}
