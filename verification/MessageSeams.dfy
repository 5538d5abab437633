/**
 Where two lists of rows meet: what the three grouping passes make of both together, from
 what they make of each.

 Taking an MOTD group apart forgets its head, so buffers are compared without the heads
 of MOTD groups.
 */
module MessageSeams {
  import opened Sequences
  import opened Wrappers
  import opened MessageGroups
  import opened MessageAppend

  // ---------------------------------------------------------------- buffers without MOTD heads

  const NO_HEAD := Row(NoCommand, "", None, "")

  function Headless(m: Item): Item {
    match m
    case MotdGroup(_, lines) => MotdGroup(NO_HEAD, lines)
    case DiscoGroup(items) => DiscoGroup(HeadlessAll(items))
    case _ => m
  }

  function HeadlessAll(ms: seq<Item>): (r: seq<Item>)
    ensures |r| == |ms| && forall i :: 0 <= i < |ms| ==> r[i] == Headless(ms[i])
  {
    if ms == [] then [] else [Headless(ms[0])] + HeadlessAll(ms[1..])
  }

  lemma {:induction false} HeadlessText(m: Item)
    ensures TextOf(Headless(m)) == TextOf(m)
  {
    if m.DiscoGroup? && m.items != [] {
      HeadlessText(m.items[0]);
    }
  }

  /** Nothing that grouping looks at depends on a head. */
  lemma HeadlessSame(m: Item)
    ensures IsDisco(Headless(m)) == IsDisco(m) && IsJoinPart(Headless(m)) == IsJoinPart(m)
    ensures IsMotd(Headless(m)) == IsMotd(m) && (m.Raw? ==> Headless(m) == m)
  {
    HeadlessText(m);
  }

  lemma HeadlessConcat(a: seq<Item>, b: seq<Item>)
    ensures HeadlessAll(a + b) == HeadlessAll(a) + HeadlessAll(b)
  {
  }

  /** The MOTD pass without heads, over rows of which none is dropped. */
  function Motds(ms: seq<Item>, lines: seq<string>): seq<Item> {
    if ms == [] then FlushLines(lines)
    else if IsMotd(ms[0]) then Motds(ms[1..], lines + [ms[0].row.text])
    else FlushLines(lines) + [ms[0]] + Motds(ms[1..], [])
  }

  function FlushLines(lines: seq<string>): seq<Item> {
    if lines == [] then [] else [MotdGroup(NO_HEAD, lines)]
  }

  /** The first two passes. */
  function Runs(ms: seq<Item>): seq<Item> {
    GroupJoinPart(Motds(ms, []), [])
  }

  lemma HeadlessPiece(flushed: seq<Item>, m: Item, rest: seq<Item>)
    ensures HeadlessAll(flushed + [m] + rest) == HeadlessAll(flushed) + [Headless(m)] + HeadlessAll(rest)
  {
  }

  lemma MotdsStep(m: Item, rest: seq<Item>, lines: seq<string>)
    ensures Motds([m] + rest, lines) ==
      if IsMotd(m) then Motds(rest, lines + [m.row.text]) else FlushLines(lines) + [m] + Motds(rest, [])
  {
    assert ([m] + rest)[1..] == rest;
  }

  lemma GroupMotdStep(m: Item, rest: seq<Item>, head: Option<Row>, lines: seq<string>)
    ensures GroupMotd([m] + rest, head, lines) ==
      if IsMotd(m) then GroupMotd(rest, if head.Some? then head else Some(m.row), lines + [m.row.text])
      else if IsMotdEnd(m) then GroupMotd(rest, head, lines)
      else FlushMotd(head, lines) + [m] + GroupMotd(rest, None, [])
  {
    assert ([m] + rest)[1..] == rest;
  }

  lemma {:induction false} MotdPassHeadless(ms: seq<Item>, head: Option<Row>, lines: seq<string>)
    requires head.Some? <==> lines != []
    ensures HeadlessAll(GroupMotd(WithoutGhosts(ms), head, lines)) == Motds(HeadlessAll(Clean(ms)), lines)
  {
    if ms != [] {
      var m, rest := ms[0], ms[1..];
      if IsGhost(m) {
        MotdPassHeadless(rest, head, lines);
      } else {
        GroupMotdStep(m, WithoutGhosts(rest), head, lines);
        if IsMotdEnd(m) {
          MotdPassHeadless(rest, head, lines);
        } else {
          HeadlessSame(m);
          MotdsStep(Headless(m), HeadlessAll(Clean(rest)), lines);
          HeadlessPiece([], m, Clean(rest));
          if IsMotd(m) {
            MotdPassHeadless(rest, if head.Some? then head else Some(m.row), lines + [m.row.text]);
          } else {
            MotdPassHeadless(rest, None, []);
            HeadlessPiece(FlushMotd(head, lines), m, GroupMotd(WithoutGhosts(rest), None, []));
          }
        }
      }
    }
  }

  lemma {:induction false} JoinPassHeadless(ms: seq<Item>, run: seq<Row>)
    ensures HeadlessAll(GroupJoinPart(ms, run)) == GroupJoinPart(HeadlessAll(ms), run)
  {
    if ms != [] {
      var m, rest := ms[0], ms[1..];
      HeadlessSame(m);
      assert HeadlessAll(ms)[1..] == HeadlessAll(rest);
      if IsJoinPart(m) {
        JoinPassHeadless(rest, run + [m.row]);
      } else {
        JoinPassHeadless(rest, []);
        HeadlessPiece(FlushJoinPart(run), m, GroupJoinPart(rest, []));
      }
    }
  }

  lemma {:induction false} DiscoPassHeadless(ms: seq<Item>, buffer: seq<Item>)
    ensures HeadlessAll(GroupDisco(ms, buffer)) == GroupDisco(HeadlessAll(ms), HeadlessAll(buffer))
  {
    assert HeadlessAll(FlushDisco(buffer)) == FlushDisco(HeadlessAll(buffer));
    if ms != [] {
      var m, rest := ms[0], ms[1..];
      HeadlessSame(m);
      assert HeadlessAll(ms)[1..] == HeadlessAll(rest);
      if IsDisco(m) {
        DiscoPassHeadless(rest, buffer + [m]);
        assert HeadlessAll(buffer + [m]) == HeadlessAll(buffer) + [Headless(m)];
      } else {
        DiscoPassHeadless(rest, []);
        HeadlessPiece(FlushDisco(buffer), m, GroupDisco(rest, []));
      }
    }
  }

  lemma ProcessHeadless(ms: seq<Item>)
    ensures HeadlessAll(Process(ms)) == GroupDisco(Runs(HeadlessAll(Clean(ms))), [])
  {
    MotdPassHeadless(ms, None, []);
    JoinPassHeadless(GroupMotd(WithoutGhosts(ms), None, []), []);
    DiscoPassHeadless(GroupJoinPart(GroupMotd(WithoutGhosts(ms), None, []), []), []);
  }

  // ---------------------------------------------------------------- sorting twice

  lemma {:induction false} InsertsCommute(a: Row, r: Row, rows: seq<Row>)
    requires a.Time() < r.Time()
    ensures InsertRow(a, InsertRow(r, rows)) == InsertRow(r, InsertRow(a, rows))
  {
    if rows != [] && a.Time() > rows[0].Time() {
      InsertsCommute(a, r, rows[1..]);
      assert ([rows[0]] + InsertRow(r, rows[1..]))[1..] == InsertRow(r, rows[1..]);
      assert ([rows[0]] + InsertRow(a, rows[1..]))[1..] == InsertRow(a, rows[1..]);
    } else {
      assert ([a] + rows)[1..] == rows;
    }
  }

  lemma {:induction false} SortInserted(r: Row, rows: seq<Row>, more: seq<Row>)
    ensures SortRows(InsertRow(r, rows) + more) == InsertRow(r, SortRows(rows + more))
  {
    if rows == [] || r.Time() <= rows[0].Time() {
      assert ([r] + rows + more)[1..] == rows + more;
      assert InsertRow(r, rows) == [r] + rows;
    } else {
      var a, rest := rows[0], rows[1..];
      assert ([a] + InsertRow(r, rest) + more)[1..] == InsertRow(r, rest) + more;
      assert (rows + more)[1..] == rest + more;
      SortInserted(r, rest, more);
      InsertsCommute(a, r, SortRows(rest + more));
    }
  }

  /** Sorting is stable, so a run may be sorted before more rows come. */
  lemma {:induction false} SortTwice(rows: seq<Row>, more: seq<Row>)
    ensures SortRows(SortRows(rows) + more) == SortRows(rows + more)
  {
    if rows != [] {
      SortTwice(rows[1..], more);
      SortInserted(rows[0], SortRows(rows[1..]), more);
      assert (rows + more)[1..] == rows[1..] + more;
    }
  }

  // ---------------------------------------------------------------- where two lists of rows meet

  /** The leading join/part-like rows, and the leading MOTD lines. */
  function LeadRun(ms: seq<Item>): (rows: seq<Row>)
    ensures |rows| <= |ms| && (|rows| < |ms| ==> !IsJoinPart(ms[|rows|]))
  {
    if ms != [] && IsJoinPart(ms[0]) then [ms[0].row] + LeadRun(ms[1..]) else []
  }

  function LeadLines(ms: seq<Item>): (lines: seq<string>)
    ensures |lines| <= |ms| && (|lines| < |ms| ==> !IsMotd(ms[|lines|]))
  {
    if ms != [] && IsMotd(ms[0]) then [ms[0].row.text] + LeadLines(ms[1..]) else []
  }

  /** The entry that the first new rows form on their own. */
  function Lead(n: seq<Item>): Item
    requires n != []
  {
    if IsJoinPart(n[0]) then FlushJoinPart(LeadRun(n))[0]
    else if IsMotd(n[0]) then MotdGroup(NO_HEAD, LeadLines(n))
    else n[0]
  }

  /** The new rows go on with the run that ends in `last`. */
  predicate Continues(last: Item, n0: Item) {
    ((IsJoinPart(last) || last.JoinPartGroup?) && IsJoinPart(n0)) || (last.MotdGroup? && IsMotd(n0))
  }

  /** The entry which that run and the first new rows form together. */
  function Merged(last: Item, n: seq<Item>): Item {
    match last
    case Raw(r) => JoinPartGroup(SortRows([r] + LeadRun(n)))
    case JoinPartGroup(rows) => JoinPartGroup(SortRows(rows + LeadRun(n)))
    case MotdGroup(_, lines) => MotdGroup(NO_HEAD, lines + LeadLines(n))
    case DiscoGroup(_) => last
  }

  /** A leading run is closed by whatever comes behind it. */
  lemma {:induction false} MotdLead(ms: seq<Item>, lines: seq<string>)
    ensures Motds(ms, lines) == FlushLines(lines + LeadLines(ms)) + Motds(ms[|LeadLines(ms)|..], [])
  {
    if ms != [] && IsMotd(ms[0]) {
      MotdLead(ms[1..], lines + [ms[0].row.text]);
      assert lines + LeadLines(ms) == (lines + [ms[0].row.text]) + LeadLines(ms[1..]);
      assert ms[|LeadLines(ms)|..] == ms[1..][|LeadLines(ms[1..])|..];
    } else {
      assert lines + [] == lines && ms[0..] == ms;
      if ms != [] {
        assert Motds(ms, []) == [ms[0]] + Motds(ms[1..], []);
        Assoc(FlushLines(lines), [ms[0]], Motds(ms[1..], []));
      }
    }
  }

  lemma {:induction false} JoinLead(ms: seq<Item>, run: seq<Row>)
    ensures GroupJoinPart(ms, run) == FlushJoinPart(run + LeadRun(ms)) + GroupJoinPart(ms[|LeadRun(ms)|..], [])
  {
    if ms != [] && IsJoinPart(ms[0]) {
      JoinLead(ms[1..], run + [ms[0].row]);
      assert run + LeadRun(ms) == (run + [ms[0].row]) + LeadRun(ms[1..]);
      assert ms[|LeadRun(ms)|..] == ms[1..][|LeadRun(ms[1..])|..];
    } else {
      assert run + [] == run && ms[0..] == ms;
      if ms != [] {
        assert GroupJoinPart(ms, []) == [ms[0]] + GroupJoinPart(ms[1..], []);
        Assoc(FlushJoinPart(run), [ms[0]], GroupJoinPart(ms[1..], []));
      }
    }
  }

  lemma {:induction false} MotdsKeepLeadRun(ms: seq<Item>)
    ensures LeadRun(Motds(ms, [])) == LeadRun(ms)
    ensures Motds(ms, []) != [] <==> ms != []
    ensures ms != [] ==> Motds(ms, [])[0] == if IsMotd(ms[0]) then MotdGroup(NO_HEAD, LeadLines(ms)) else ms[0]
  {
    MotdLead(ms, []);
    assert [] + LeadLines(ms) == LeadLines(ms);
    if ms != [] && IsJoinPart(ms[0]) {
      assert Motds(ms, []) == [ms[0]] + Motds(ms[1..], []);
      assert ([ms[0]] + Motds(ms[1..], []))[1..] == Motds(ms[1..], []);
      MotdsKeepLeadRun(ms[1..]);
    }
  }

  // The part of a pass that no later row can change, and what is still open behind it.

  function MotdsClosed(ms: seq<Item>, lines: seq<string>): seq<Item> {
    if ms == [] then []
    else if IsMotd(ms[0]) then MotdsClosed(ms[1..], lines + [ms[0].row.text])
    else FlushLines(lines) + [ms[0]] + MotdsClosed(ms[1..], [])
  }

  function OpenLines(ms: seq<Item>, lines: seq<string>): seq<string> {
    if ms == [] then lines
    else if IsMotd(ms[0]) then OpenLines(ms[1..], lines + [ms[0].row.text])
    else OpenLines(ms[1..], [])
  }

  function JoinsClosed(ms: seq<Item>, run: seq<Row>): seq<Item> {
    if ms == [] then []
    else if IsJoinPart(ms[0]) then JoinsClosed(ms[1..], run + [ms[0].row])
    else FlushJoinPart(run) + [ms[0]] + JoinsClosed(ms[1..], [])
  }

  function OpenRun(ms: seq<Item>, run: seq<Row>): seq<Row> {
    if ms == [] then run
    else if IsJoinPart(ms[0]) then OpenRun(ms[1..], run + [ms[0].row])
    else OpenRun(ms[1..], [])
  }

  lemma {:induction false} MotdsSplit(a: seq<Item>, b: seq<Item>, lines: seq<string>)
    ensures Motds(a + b, lines) == MotdsClosed(a, lines) + Motds(b, OpenLines(a, lines))
  {
    if a == [] {
      assert a + b == b;
    } else {
      assert (a + b)[1..] == a[1..] + b;
      if IsMotd(a[0]) {
        MotdsSplit(a[1..], b, lines + [a[0].row.text]);
      } else {
        MotdsSplit(a[1..], b, []);
        Assoc(FlushLines(lines) + [a[0]], MotdsClosed(a[1..], []), Motds(b, OpenLines(a[1..], [])));
      }
    }
  }

  lemma {:induction false} JoinsSplit(a: seq<Item>, b: seq<Item>, run: seq<Row>)
    ensures GroupJoinPart(a + b, run) == JoinsClosed(a, run) + GroupJoinPart(b, OpenRun(a, run))
  {
    if a == [] {
      assert a + b == b;
    } else {
      assert (a + b)[1..] == a[1..] + b;
      if IsJoinPart(a[0]) {
        JoinsSplit(a[1..], b, run + [a[0].row]);
      } else {
        JoinsSplit(a[1..], b, []);
        Assoc(FlushJoinPart(run) + [a[0]], JoinsClosed(a[1..], []), GroupJoinPart(b, OpenRun(a[1..], [])));
      }
    }
  }

  /** What is closed over rows ends in a row that is no MOTD line. */
  lemma {:induction false} ClosedMotdsEnd(ms: seq<Item>, lines: seq<string>)
    requires forall m :: m in ms ==> m.Raw?
    ensures var c := MotdsClosed(ms, lines); c != [] ==> c[|c| - 1].Raw? && !IsMotd(c[|c| - 1])
  {
    if ms != [] {
      ClosedMotdsEnd(ms[1..], if IsMotd(ms[0]) then lines + [ms[0].row.text] else []);
    }
  }

  lemma {:induction false} ClosedJoinsEnd(ms: seq<Item>, run: seq<Row>)
    requires AllJoinPart(run)
    ensures AllJoinPart(OpenRun(ms, run))
    ensures OpenRun(ms, run) == [] && ms != [] ==>
      JoinsClosed(ms, run) != [] && !IsJoinPart(ms[|ms| - 1])
      && JoinsClosed(ms, run)[|JoinsClosed(ms, run)| - 1] == ms[|ms| - 1]
    ensures OpenRun(ms, run) == [] && ms == [] ==> JoinsClosed(ms, run) == []
  {
    if ms != [] {
      if IsJoinPart(ms[0]) {
        ClosedJoinsEnd(ms[1..], run + [ms[0].row]);
        OpenRunKeeps(ms[1..], run + [ms[0].row]);
      } else {
        ClosedJoinsEnd(ms[1..], []);
      }
    }
  }

  lemma OpenRunKeeps(ms: seq<Item>, run: seq<Row>)
    ensures ms == [] ==> OpenRun(ms, run) == run
  {
  }

  /** New rows behind a run that is still open. */
  lemma JoinsOntoRun(n: seq<Item>, run: seq<Row>)
    requires n != []
    ensures Runs(n) != [] && Runs(n)[0] == Lead(n)
    ensures GroupJoinPart(Motds(n, []), run) ==
      if IsJoinPart(n[0]) && run != [] then [JoinPartGroup(SortRows(run + LeadRun(n)))] + Runs(n)[1..]
      else FlushJoinPart(run) + Runs(n)
  {
    var ms := Motds(n, []);
    MotdsKeepLeadRun(n);
    JoinLead(ms, run);
    JoinLead(ms, []);
    assert [] + LeadRun(n) == LeadRun(n) && run + [] == run && ms[0..] == ms;
  }

  lemma LinesThenRuns(n: seq<Item>, lines: seq<string>)
    requires lines + LeadLines(n) != []
    ensures GroupJoinPart(Motds(n, lines), [])
         == [MotdGroup(NO_HEAD, lines + LeadLines(n))] + GroupJoinPart(Motds(n[|LeadLines(n)|..], []), [])
  {
    var rest := Motds(n[|LeadLines(n)|..], []);
    MotdLead(n, lines);
    GroupAlone(MotdGroup(NO_HEAD, lines + LeadLines(n)), rest, []);
  }

  /** New rows behind MOTD lines that are still open. */
  lemma MotdsOntoLines(n: seq<Item>, lines: seq<string>)
    requires n != [] && lines != []
    ensures Runs(n) != []
    ensures GroupJoinPart(Motds(n, lines), []) ==
      if IsMotd(n[0]) then [MotdGroup(NO_HEAD, lines + LeadLines(n))] + Runs(n)[1..]
      else [MotdGroup(NO_HEAD, lines)] + Runs(n)
  {
    JoinsOntoRun(n, []);
    LinesThenRuns(n, lines);
    if IsMotd(n[0]) {
      LinesThenRuns(n, []);
      assert [] + LeadLines(n) == LeadLines(n);
    } else {
      assert lines + [] == lines && n[0..] == n;
    }
  }

  lemma GroupAlone(g: Item, rest: seq<Item>, run: seq<Row>)
    requires !IsJoinPart(g)
    ensures GroupJoinPart([g] + rest, run) == FlushJoinPart(run) + [g] + GroupJoinPart(rest, [])
  {
    assert ([g] + rest)[1..] == rest;
  }

  /** How new rows join onto rows that have been grouped already. */
  function Onto(q: seq<Item>, n: seq<Item>): seq<Item>
    requires n != [] && Runs(n) != []
  {
    if q != [] && Continues(q[|q| - 1], n[0]) then q[..|q| - 1] + [Merged(q[|q| - 1], n)] + Runs(n)[1..]
    else q + Runs(n)
  }

  lemma RunsNotEmpty(n: seq<Item>)
    requires n != []
    ensures Runs(n) != [] && Runs(n)[0] == Lead(n)
  {
    JoinsOntoRun(n, []);
  }

  lemma OntoEntry(closed: seq<Item>, e: Item, n: seq<Item>)
    requires n != [] && Runs(n) != []
    ensures Onto(closed + [e], n) ==
      if Continues(e, n[0]) then closed + ([Merged(e, n)] + Runs(n)[1..]) else closed + ([e] + Runs(n))
  {
    var q := closed + [e];
    assert q[..|q| - 1] == closed && q[|q| - 1] == e;
    Assoc(closed, [e], Runs(n));
    Assoc(closed, [Merged(e, n)], Runs(n)[1..]);
  }

  /** What an open run would leave behind if it ended here. */
  lemma RunEntry(run: seq<Row>, n: seq<Item>) returns (e: Item)
    requires run != [] && AllJoinPart(run)
    ensures FlushJoinPart(run) == [e] && (IsJoinPart(e) || e.JoinPartGroup?)
    ensures Merged(e, n) == JoinPartGroup(SortRows(run + LeadRun(n)))
  {
    assert run[0] in run;
    e := FlushJoinPart(run)[0];
    if |run| == 1 {
      assert run == [run[0]];
    } else {
      SortTwice(run, LeadRun(n));
    }
  }

  lemma OntoRun(closed: seq<Item>, run: seq<Row>, n: seq<Item>)
    requires n != [] && run != [] && AllJoinPart(run)
    ensures Runs(n) != []
    ensures closed + GroupJoinPart(Motds(n, []), run) == Onto(closed + FlushJoinPart(run), n)
  {
    JoinsOntoRun(n, run);
    var e := RunEntry(run, n);
    OntoEntry(closed, e, n);
  }

  lemma OntoLines(closed: seq<Item>, lines: seq<string>, n: seq<Item>)
    requires n != [] && lines != []
    ensures Runs(n) != []
    ensures closed + GroupJoinPart(Motds(n, lines), []) == Onto(closed + [MotdGroup(NO_HEAD, lines)], n)
  {
    MotdsOntoLines(n, lines);
    OntoEntry(closed, MotdGroup(NO_HEAD, lines), n);
  }

  lemma RunBeforeLines(run: seq<Row>, lines: seq<string>, n: seq<Item>)
    requires lines != []
    ensures GroupJoinPart(Motds(n, lines), run) == FlushJoinPart(run) + GroupJoinPart(Motds(n, lines), [])
  {
    var rest := Motds(n[|LeadLines(n)|..], []);
    MotdLead(n, lines);
    GroupAlone(MotdGroup(NO_HEAD, lines + LeadLines(n)), rest, run);
    GroupAlone(MotdGroup(NO_HEAD, lines + LeadLines(n)), rest, []);
    Assoc(FlushJoinPart(run), [MotdGroup(NO_HEAD, lines + LeadLines(n))], GroupJoinPart(rest, []));
  }

  lemma RowsMeetOpen(c: seq<Item>, n: seq<Item>)
    ensures var lines, cm := OpenLines(c, []), MotdsClosed(c, []);
            Runs(c + n) == JoinsClosed(cm, []) + GroupJoinPart(Motds(n, lines), OpenRun(cm, []))
  {
    MotdsSplit(c, n, []);
    JoinsSplit(MotdsClosed(c, []), Motds(n, OpenLines(c, [])), []);
  }

  /** New rows behind rows: the last entry that these made goes on, or everything stays. */
  lemma RowsMeet(c: seq<Item>, n: seq<Item>)
    requires (forall m :: m in c ==> m.Raw?) && n != []
    ensures Runs(n) != [] && Runs(c + n) == Onto(Runs(c), n)
  {
    var lines, cm := OpenLines(c, []), MotdsClosed(c, []);
    var run, cj := OpenRun(cm, []), JoinsClosed(cm, []);
    RunsNotEmpty(n);
    RowsMeetOpen(c, n);
    RunsOfRows(c);
    ClosedMotdsEnd(c, []);
    ClosedJoinsEnd(cm, []);
    if lines != [] {
      RunBeforeLines(run, lines, n);
      Assoc(cj, FlushJoinPart(run), GroupJoinPart(Motds(n, lines), []));
      OntoLines(cj + FlushJoinPart(run), lines, n);
    } else if run != [] {
      OntoRun(cj, run, n);
      assert cj + FlushJoinPart(run) + [] == cj + FlushJoinPart(run);
    } else {
      assert cj + [] + [] == cj;
      NothingOpen(cj, n);
    }
  }

  lemma NothingOpen(closed: seq<Item>, n: seq<Item>)
    requires n != [] && (closed != [] ==> !Continues(closed[|closed| - 1], n[0]))
    ensures Runs(n) != [] && closed + GroupJoinPart(Motds(n, []), []) == Onto(closed, n)
  {
    RunsNotEmpty(n);
  }

  lemma RunsOfRows(c: seq<Item>)
    ensures var lines, cm := OpenLines(c, []), MotdsClosed(c, []);
            Runs(c) == JoinsClosed(cm, []) + FlushJoinPart(OpenRun(cm, [])) + FlushLines(lines)
  {
    var lines, cm := OpenLines(c, []), MotdsClosed(c, []);
    var run, cj := OpenRun(cm, []), JoinsClosed(cm, []);
    assert c + [] == c;
    MotdsSplit(c, [], []);
    JoinsSplit(cm, FlushLines(lines), []);
    if lines == [] {
      assert FlushJoinPart(run) + [] == FlushJoinPart(run);
      assert cj + FlushJoinPart(run) + [] == cj + FlushJoinPart(run);
    } else {
      GroupAlone(MotdGroup(NO_HEAD, lines), [], run);
      assert [MotdGroup(NO_HEAD, lines)] + [] == [MotdGroup(NO_HEAD, lines)];
      Assoc(cj, FlushJoinPart(run), FlushLines(lines));
    }
  }

  // ---------------------------------------------------------------- entries in front of new rows

  lemma {:induction false} QuietMotds(x: seq<Item>, n: seq<Item>)
    requires AllQuiet(x)
    ensures Motds(x + n, []) == x + Motds(n, [])
  {
    if x == [] {
      assert x + n == n;
    } else {
      assert (x + n)[1..] == x[1..] + n;
      QuietMotds(x[1..], n);
      assert x == [x[0]] + x[1..];
    }
  }

  lemma FirstStays(m: Item, z: seq<Item>)
    requires z != [] && !(IsJoinPart(m) && IsJoinPart(z[0]))
    ensures GroupJoinPart([m] + z, []) == [m] + GroupJoinPart(z, [])
  {
    OneThenMore(m, z);
    if IsJoinPart(m) {
      Assoc([m], [z[0]], GroupJoinPart(z[1..], []));
    }
  }

  lemma OneThenMore(m: Item, y: seq<Item>)
    ensures GroupJoinPart([m] + y, [])
         == if IsJoinPart(m) then GroupJoinPart(y, [m.row]) else [m] + GroupJoinPart(y, [])
  {
    assert ([m] + y)[1..] == y;
    if IsJoinPart(m) {
      assert [] + [m.row] == [m.row];
    }
  }

  /** Only a raw row at the end of settled entries can go on. */
  lemma {:induction false} SpreadJoins(x: seq<Item>, y: seq<Item>)
    requires Spread(x) && x != []
    ensures GroupJoinPart(x + y, []) ==
      if IsJoinPart(x[|x| - 1]) then x[..|x| - 1] + GroupJoinPart(y, [x[|x| - 1].row])
      else x + GroupJoinPart(y, [])
  {
    var m, rest, last := x[0], x[1..], x[|x| - 1];
    FirstApart(x);
    if rest == [] {
      OneThenMore(m, y);
      assert x == [m] && x[..0] == [];
      if IsJoinPart(m) {
        assert [] + GroupJoinPart(y, [m.row]) == GroupJoinPart(y, [m.row]);
      }
    } else {
      SpreadJoins(rest, y);
      FirstStays(m, rest + y);
      Assoc([m], rest, y);
      ConcatEnds([m], rest);
      if IsJoinPart(last) {
        Assoc([m], rest[..|rest| - 1], GroupJoinPart(y, [last.row]));
      } else {
        Assoc([m], rest, GroupJoinPart(y, []));
      }
    }
  }

  /** New rows behind entries of a settled buffer. */
  lemma EntriesMeet(x: seq<Item>, n: seq<Item>)
    requires AllQuiet(x) && Spread(x) && x != [] && n != []
    ensures Runs(n) != [] && Runs(x + n) ==
      if IsJoinPart(x[|x| - 1]) && IsJoinPart(n[0]) then x[..|x| - 1] + ([Merged(x[|x| - 1], n)] + Runs(n)[1..])
      else x + Runs(n)
  {
    QuietMotds(x, n);
    SpreadJoins(x, Motds(n, []));
    var last := x[|x| - 1];
    if IsJoinPart(last) {
      JoinsOntoRun(n, [last.row]);
      BeforeLast(x, Runs(n));
    } else {
      RunsNotEmpty(n);
    }
  }

  lemma BeforeLast(x: seq<Item>, y: seq<Item>)
    requires x != []
    ensures x[..|x| - 1] + ([x[|x| - 1]] + y) == x + y
  {
  }

  lemma EntriesKept(x: seq<Item>)
    requires AllQuiet(x) && Spread(x)
    ensures Runs(x) == x
  {
    assert x + [] == x;
    QuietMotds(x, []);
    if x != [] {
      SpreadJoins(x, []);
    }
  }

  /** The lines of an MOTD group taken apart, with entries of the buffer behind them or none. */
  lemma {:induction false} LinesMeet(lines: seq<string>, rest: seq<Item>, sofar: seq<string>)
    ensures Motds(MotdRows(lines) + rest, sofar) == Motds(rest, sofar + lines)
    decreases |lines|
  {
    if lines == [] {
      assert MotdRows(lines) + rest == rest && sofar + lines == sofar;
    } else {
      var m := Raw(Row(MotdLine, lines[0], None, ""));
      assert MotdRows(lines) + rest == [m] + (MotdRows(lines[1..]) + rest);
      assert ([m] + (MotdRows(lines[1..]) + rest))[1..] == MotdRows(lines[1..]) + rest;
      assert (sofar + [lines[0]]) + lines[1..] == sofar + lines;
      LinesMeet(lines[1..], rest, sofar + [lines[0]]);
    }
  }

  /** The rows of a join/part group taken apart. */
  lemma {:induction false} RowsRun(rows: seq<Row>, n: seq<Item>, run: seq<Row>)
    requires AllJoinPart(rows)
    ensures Motds(RawRows(rows) + n, []) == RawRows(rows) + Motds(n, [])
    ensures GroupJoinPart(RawRows(rows) + n, run) == GroupJoinPart(n, run + rows)
    decreases |rows|
  {
    if rows == [] {
      assert RawRows(rows) + n == n && run + rows == run;
      assert RawRows(rows) + Motds(n, []) == Motds(n, []);
    } else {
      var m := Raw(rows[0]);
      assert rows[0] in rows;
      assert RawRows(rows) + n == [m] + (RawRows(rows[1..]) + n);
      assert ([m] + (RawRows(rows[1..]) + n))[1..] == RawRows(rows[1..]) + n;
      assert (run + [rows[0]]) + rows[1..] == run + rows;
      RowsRun(rows[1..], n, run + [rows[0]]);
      Assoc([m], RawRows(rows[1..]), Motds(n, []));
    }
  }
}
