/**
 Grouping the rows of a message buffer: MOTD lines, join/part-like rows and
 disconnect-like rows collapse into group rows, either over the whole buffer or
 incrementally at its end. This module is the transformation on values and what it
 keeps.
 */
module MessageGroups {
  import opened Sequences
  import opened Wrappers

  datatype Command =
    | NoCommand | Tagmsg | MotdLine | MotdStart | MotdEnd
    | Join | Part | Quit | Nick | Chghost | Mode | Away
    | Disconnect | ErrorCommand | OtherCommand(name: string)

  /** A message as it arrives; `rest` is everything else it carries. */
  datatype Row = Row(command: Command, text: string, t: Option<int>, rest: string) {
    function Time(): int {
      if t.Some? then t.value else 0
    }
  }

  /** An entry of a processed buffer. A group keeps the fields of its first member. */
  datatype Item =
    | Raw(row: Row)
    | MotdGroup(head: Row, lines: seq<string>)
    | JoinPartGroup(members: seq<Row>)
    | DiscoGroup(items: seq<Item>)

  // ---------------------------------------------------------------- what groups with what

  predicate IsJoinPartCommand(c: Command) {
    c == Join || c == Part || c == Quit || c == Nick || c == Chghost || c == Mode || c == Away
  }

  predicate IsMotdCommand(c: Command) {
    c == MotdLine || c == MotdStart
  }

  function Lower(c: char): char {
    if 'A' <= c <= 'Z' then c - 'A' + 'a' else c
  }

  const FAILED := "failed to connect"

  /** The text mentions a failed connection, in any case. */
  predicate MentionsFailure(text: string) {
    exists i :: 0 <= i && i + |FAILED| <= |text| && MatchesAt(text, i)
  }

  predicate MatchesAt(text: string, i: nat)
    requires i + |FAILED| <= |text|
  {
    forall k :: 0 <= k < |FAILED| ==> Lower(text[i + k]) == FAILED[k]
  }

  function JoinLines(lines: seq<string>): string {
    if lines == [] then "" else if |lines| == 1 then lines[0] else lines[0] + "\n" + JoinLines(lines[1..])
  }

  /** The text field: a group has that of its head, an MOTD group all its lines. */
  function TextOf(m: Item): string {
    match m
    case Raw(r) => r.text
    case MotdGroup(_, lines) => JoinLines(lines)
    case JoinPartGroup(rows) => if rows == [] then "" else rows[0].text
    case DiscoGroup(items) => if items == [] then "" else TextOf(items[0])
  }

  predicate IsGroup(m: Item) { !m.Raw? }

  predicate IsJoinPart(m: Item) { m.Raw? && IsJoinPartCommand(m.row.command) }

  predicate IsDisco(m: Item) {
    (m.Raw? && (m.row.command == Disconnect || m.row.command == ErrorCommand)) || MentionsFailure(TextOf(m))
  }

  predicate IsMotd(m: Item) { m.Raw? && IsMotdCommand(m.row.command) }

  /** Removed at the door: tag-only rows and rows with neither command nor text. */
  predicate IsGhost(m: Item) {
    m.Raw? && (m.row.command == Tagmsg || (m.row.command == NoCommand && m.row.text == ""))
  }

  predicate IsMotdEnd(m: Item) { m.Raw? && m.row.command == MotdEnd }

  // ---------------------------------------------------------------- the three passes

  function WithoutGhosts(ms: seq<Item>): seq<Item> {
    if ms == [] then []
    else if IsGhost(ms[0]) then WithoutGhosts(ms[1..])
    else [ms[0]] + WithoutGhosts(ms[1..])
  }

  function FlushMotd(head: Option<Row>, lines: seq<string>): seq<Item> {
    if lines != [] && head.Some? then [MotdGroup(head.value, lines)] else []
  }

  /** MOTD lines up to the next other row form one group; end-of-MOTD rows vanish. */
  function GroupMotd(ms: seq<Item>, head: Option<Row>, lines: seq<string>): seq<Item> {
    if ms == [] then FlushMotd(head, lines)
    else if IsMotd(ms[0]) then
      GroupMotd(ms[1..], if head.Some? then head else Some(ms[0].row), lines + [ms[0].row.text])
    else if IsMotdEnd(ms[0]) then GroupMotd(ms[1..], head, lines)
    else FlushMotd(head, lines) + [ms[0]] + GroupMotd(ms[1..], None, [])
  }

  /** Stable insertion by time. */
  function InsertRow(r: Row, rows: seq<Row>): seq<Row> {
    if rows == [] then [r]
    else if r.Time() <= rows[0].Time() then [r] + rows
    else [rows[0]] + InsertRow(r, rows[1..])
  }

  function SortRows(rows: seq<Row>): seq<Row> {
    if rows == [] then [] else InsertRow(rows[0], SortRows(rows[1..]))
  }

  function FlushJoinPart(buffer: seq<Row>): seq<Item> {
    if buffer == [] then []
    else if |buffer| == 1 then [Raw(buffer[0])]
    else [JoinPartGroup(SortRows(buffer))]
  }

  function GroupJoinPart(ms: seq<Item>, buffer: seq<Row>): seq<Item> {
    if ms == [] then FlushJoinPart(buffer)
    else if IsJoinPart(ms[0]) then GroupJoinPart(ms[1..], buffer + [ms[0].row])
    else FlushJoinPart(buffer) + [ms[0]] + GroupJoinPart(ms[1..], [])
  }

  function FlushDisco(buffer: seq<Item>): seq<Item> {
    if buffer == [] then []
    else if |buffer| == 1 then buffer
    else [DiscoGroup(buffer)]
  }

  function GroupDisco(ms: seq<Item>, buffer: seq<Item>): seq<Item> {
    if ms == [] then FlushDisco(buffer)
    else if IsDisco(ms[0]) then GroupDisco(ms[1..], buffer + [ms[0]])
    else FlushDisco(buffer) + [ms[0]] + GroupDisco(ms[1..], [])
  }

  /** `preprocessMessages`. */
  function Process(ms: seq<Item>): seq<Item> {
    GroupDisco(GroupJoinPart(GroupMotd(WithoutGhosts(ms), None, []), []), [])
  }

  // ---------------------------------------------------------------- content

  /** One line of MOTD, of which only the text matters, or one row. */
  datatype Atom = Line(text: string) | Plain(row: Row)

  function Lines(lines: seq<string>): seq<Atom> {
    if lines == [] then [] else [Line(lines[0])] + Lines(lines[1..])
  }

  function Plains(rows: seq<Row>): seq<Atom> {
    if rows == [] then [] else [Plain(rows[0])] + Plains(rows[1..])
  }

  function AtomsOf(m: Item): seq<Atom> {
    match m
    case Raw(r) => if IsMotdCommand(r.command) then [Line(r.text)] else [Plain(r)]
    case MotdGroup(_, lines) => Lines(lines)
    case JoinPartGroup(rows) => Plains(rows)
    case DiscoGroup(items) => Content(items)
  }

  /** A buffer with all groups expanded. */
  function Content(ms: seq<Item>): seq<Atom> {
    if ms == [] then [] else AtomsOf(ms[0]) + Content(ms[1..])
  }

  /** The rows that may be shown at all. */
  function Clean(ms: seq<Item>): seq<Item> {
    if ms == [] then []
    else if IsGhost(ms[0]) || IsMotdEnd(ms[0]) then Clean(ms[1..])
    else [ms[0]] + Clean(ms[1..])
  }

  function RawRows(rows: seq<Row>): seq<Item> {
    if rows == [] then [] else [Raw(rows[0])] + RawRows(rows[1..])
  }

  /** Every run of join/part-like rows put into time order, everything else in place. */
  function RunsInOrder(ms: seq<Item>, run: seq<Row>): seq<Item> {
    if ms == [] then RawRows(SortRows(run))
    else if IsJoinPart(ms[0]) then RunsInOrder(ms[1..], run + [ms[0].row])
    else RawRows(SortRows(run)) + [ms[0]] + RunsInOrder(ms[1..], [])
  }

  lemma {:induction false} ContentConcat(a: seq<Item>, b: seq<Item>)
    ensures Content(a + b) == Content(a) + Content(b)
  {
    if a == [] {
      assert a + b == b;
    } else {
      assert (a + b)[1..] == a[1..] + b;
      ContentConcat(a[1..], b);
    }
  }

  lemma ContentOne(m: Item)
    ensures Content([m]) == AtomsOf(m)
  {
    assert [m][1..] == [];
    assert AtomsOf(m) + [] == AtomsOf(m);
  }

  lemma Content3(a: seq<Item>, m: Item, b: seq<Item>)
    ensures Content(a + [m] + b) == Content(a) + AtomsOf(m) + Content(b)
  {
    ContentConcat(a + [m], b);
    ContentConcat(a, [m]);
    ContentOne(m);
  }

  lemma {:induction false} LinesPush(lines: seq<string>, text: string)
    ensures Lines(lines + [text]) == Lines(lines) + [Line(text)]
  {
    if lines == [] {
      assert [text][1..] == [] && [] + [text] == [text];
    } else {
      assert (lines + [text])[1..] == lines[1..] + [text];
      LinesPush(lines[1..], text);
    }
  }

  lemma {:induction false} RawRowsContent(rows: seq<Row>)
    requires forall i :: 0 <= i < |rows| ==> IsJoinPartCommand(rows[i].command)
    ensures Content(RawRows(rows)) == Plains(rows)
  {
    if rows != [] {
      RawRowsContent(rows[1..]);
    }
  }

  lemma {:induction false} InsertKeeps(r: Row, rows: seq<Row>)
    ensures multiset(InsertRow(r, rows)) == multiset{r} + multiset(rows)
    ensures |InsertRow(r, rows)| == |rows| + 1
    ensures forall q :: q in InsertRow(r, rows) <==> q == r || q in rows
  {
    if rows != [] {
      assert rows == [rows[0]] + rows[1..];
      if r.Time() > rows[0].Time() {
        InsertKeeps(r, rows[1..]);
      }
    }
  }

  lemma {:induction false} SortKeeps(rows: seq<Row>)
    ensures multiset(SortRows(rows)) == multiset(rows) && |SortRows(rows)| == |rows|
    ensures forall q :: q in SortRows(rows) <==> q in rows
  {
    if rows != [] {
      assert rows == [rows[0]] + rows[1..];
      SortKeeps(rows[1..]);
      InsertKeeps(rows[0], SortRows(rows[1..]));
    }
  }

  ghost predicate AllJoinPart(rows: seq<Row>) {
    forall r :: r in rows ==> IsJoinPartCommand(r.command)
  }

  /** A flushed run has the content of the run in order. */
  lemma FlushedRun(run: seq<Row>)
    requires AllJoinPart(run)
    ensures Content(FlushJoinPart(run)) == Content(RawRows(SortRows(run)))
  {
    SortKeeps(run);
    RawRowsContent(SortRows(run));
    if |run| == 1 {
      assert run == [run[0]] && run[1..] == [];
      assert SortRows(run) == run && RawRows(run) == [Raw(run[0])] + RawRows(run[1..]);
    } else if |run| > 1 {
      ContentOne(JoinPartGroup(SortRows(run)));
    }
  }

  /** The join/part pass only puts runs into order. */
  lemma {:induction false} JoinPartContent(ms: seq<Item>, run: seq<Row>)
    requires AllJoinPart(run)
    ensures Content(GroupJoinPart(ms, run)) == Content(RunsInOrder(ms, run))
  {
    FlushedRun(run);
    if ms != [] {
      if IsJoinPart(ms[0]) {
        JoinPartContent(ms[1..], run + [ms[0].row]);
      } else {
        JoinPartContent(ms[1..], []);
        Content3(FlushJoinPart(run), ms[0], GroupJoinPart(ms[1..], []));
        Content3(RawRows(SortRows(run)), ms[0], RunsInOrder(ms[1..], []));
      }
    }
  }

  /** The disconnect pass changes no content. */
  lemma {:induction false} DiscoContent(ms: seq<Item>, buffer: seq<Item>)
    ensures Content(GroupDisco(ms, buffer)) == Content(buffer) + Content(ms)
  {
    if |buffer| > 1 {
      ContentOne(DiscoGroup(buffer));
    }
    assert Content(FlushDisco(buffer)) == Content(buffer);
    if ms != [] {
      if IsDisco(ms[0]) {
        DiscoContent(ms[1..], buffer + [ms[0]]);
        ContentConcat(buffer, [ms[0]]);
        ContentOne(ms[0]);
        Assoc(Content(buffer), AtomsOf(ms[0]), Content(ms[1..]));
      } else {
        DiscoContent(ms[1..], []);
        Content3(FlushDisco(buffer), ms[0], GroupDisco(ms[1..], []));
        Assoc(Content(buffer), AtomsOf(ms[0]), Content(ms[1..]));
        assert [] + Content(ms[1..]) == Content(ms[1..]);
      }
    }
  }

  /** Grouping MOTD lines does not disturb the runs around them. */
  lemma {:induction false} MotdThenRuns(ms: seq<Item>, head: Option<Row>, lines: seq<string>, run: seq<Row>)
    requires lines != [] ==> head.Some?
    ensures Content(RunsInOrder(GroupMotd(WithoutGhosts(ms), head, lines), run)) ==
      if lines == [] then Content(RunsInOrder(Clean(ms), run))
      else Content(RawRows(SortRows(run))) + Lines(lines) + Content(RunsInOrder(Clean(ms), []))
    decreases |ms|, 0
  {
    var sorted := RawRows(SortRows(run));
    if ms == [] {
      if lines != [] {
        MotdGroupBreaksRun(head.value, lines, [], run);
        assert RunsInOrder([], []) == [];
      }
    } else if IsGhost(ms[0]) {
      MotdThenRuns(ms[1..], head, lines, run);
    } else {
      var m, rest := ms[0], WithoutGhosts(ms[1..]);
      assert WithoutGhosts(ms) == [m] + rest && ([m] + rest)[1..] == rest;
      if IsMotdEnd(m) {
        MotdThenRuns(ms[1..], head, lines, run);
      } else {
        assert Clean(ms) == [m] + Clean(ms[1..]) && ([m] + Clean(ms[1..]))[1..] == Clean(ms[1..]);
        if IsMotd(m) {
          MotdThenRuns(ms[1..], if head.Some? then head else Some(m.row), lines + [m.row.text], run);
          LineJoinsGroup(m, Clean(ms[1..]), lines, run);
        } else if lines == [] {
          OtherRow(m, ms[1..], run);
        } else {
          OtherRow(m, ms[1..], []);
          MotdGroupBreaksRun(head.value, lines, [m] + GroupMotd(rest, None, []), run);
          Assoc([MotdGroup(head.value, lines)], [m], GroupMotd(rest, None, []));
        }
      }
    }
  }

  /** A row that is neither MOTD nor ghost, with no lines pending. */
  lemma {:induction false} OtherRow(m: Item, ms: seq<Item>, run: seq<Row>)
    requires !IsGhost(m) && !IsMotdEnd(m) && !IsMotd(m)
    ensures Content(RunsInOrder([m] + GroupMotd(WithoutGhosts(ms), None, []), run))
         == Content(RunsInOrder([m] + Clean(ms), run))
    decreases |ms|, 1
  {
    var a, b := GroupMotd(WithoutGhosts(ms), None, []), Clean(ms);
    assert ([m] + a)[1..] == a && ([m] + b)[1..] == b;
    if IsJoinPart(m) {
      MotdThenRuns(ms, None, [], run + [m.row]);
    } else {
      MotdThenRuns(ms, None, [], []);
      Content3(RawRows(SortRows(run)), m, RunsInOrder(a, []));
      Content3(RawRows(SortRows(run)), m, RunsInOrder(b, []));
    }
  }

  /** A further line belongs to the lines before it. */
  lemma LineJoinsGroup(m: Item, rest: seq<Item>, lines: seq<string>, run: seq<Row>)
    requires IsMotd(m)
    ensures var before, after := Content(RawRows(SortRows(run))), Content(RunsInOrder(rest, []));
            before + Lines(lines + [m.row.text]) + after
            == if lines == [] then Content(RunsInOrder([m] + rest, run))
               else before + Lines(lines) + Content(RunsInOrder([m] + rest, []))
  {
    var before, after := Content(RawRows(SortRows(run))), Content(RunsInOrder(rest, []));
    var line := [Line(m.row.text)];
    LinesPush(lines, m.row.text);
    if lines == [] {
      MotdLineBreaksRun(m, rest, run);
      assert Lines(lines) + line == line;
    } else {
      MotdLineBreaksRun(m, rest, []);
      Assoc(before, Lines(lines), line);
      Assoc(before + Lines(lines), line, after);
    }
  }

  lemma MotdGroupBreaksRun(head: Row, lines: seq<string>, rest: seq<Item>, run: seq<Row>)
    ensures Content(RunsInOrder([MotdGroup(head, lines)] + rest, run))
         == Content(RawRows(SortRows(run))) + Lines(lines) + Content(RunsInOrder(rest, []))
  {
    var g := MotdGroup(head, lines);
    assert ([g] + rest)[1..] == rest;
    Content3(RawRows(SortRows(run)), g, RunsInOrder(rest, []));
  }

  lemma MotdLineBreaksRun(m: Item, rest: seq<Item>, run: seq<Row>)
    requires IsMotd(m)
    ensures Content(RunsInOrder([m] + rest, run))
         == Content(RawRows(SortRows(run))) + [Line(m.row.text)] + Content(RunsInOrder(rest, []))
    ensures run == [] ==> Content(RunsInOrder([m] + rest, run)) == [Line(m.row.text)] + Content(RunsInOrder(rest, []))
  {
    assert ([m] + rest)[1..] == rest;
    Content3(RawRows(SortRows(run)), m, RunsInOrder(rest, []));
  }

  /**
   Processing loses nothing and moves nothing but join/part-like rows within their
   own run: expanding the result gives the clean input with every such run in time
   order.
   */
  lemma ProcessContent(ms: seq<Item>)
    ensures Content(Process(ms)) == Content(RunsInOrder(Clean(ms), []))
  {
    var motd := GroupMotd(WithoutGhosts(ms), None, []);
    DiscoContent(GroupJoinPart(motd, []), []);
    JoinPartContent(motd, []);
    MotdThenRuns(ms, None, [], []);
  }

  lemma AssocBags(a: multiset<Atom>, b: multiset<Atom>, c: multiset<Atom>)
    ensures a + (b + c) == (a + b) + c
  {
  }

  lemma {:induction false} RunsKeepContent(ms: seq<Item>, run: seq<Row>)
    requires AllJoinPart(run)
    ensures multiset(Content(RunsInOrder(ms, run))) == multiset(Plains(run)) + multiset(Content(ms))
  {
    SortKeeps(run);
    RawRowsContent(SortRows(run));
    PlainsOfSame(run, SortRows(run));
    if ms != [] {
      var m, rest := ms[0], ms[1..];
      var rows, tail := multiset(Plains(run)), multiset(Content(rest));
      assert Content(ms) == AtomsOf(m) + Content(rest);
      AssocBags(rows, multiset(AtomsOf(m)), tail);
      if IsJoinPart(m) {
        RunsKeepContent(rest, run + [m.row]);
        PlainsPush(run, m.row);
      } else {
        RunsKeepContent(rest, []);
        Content3(RawRows(SortRows(run)), m, RunsInOrder(rest, []));
      }
    }
  }

  lemma {:induction false} PlainsPush(rows: seq<Row>, r: Row)
    ensures Plains(rows + [r]) == Plains(rows) + [Plain(r)]
  {
    if rows == [] {
      assert [r][1..] == [] && [] + [r] == [r];
    } else {
      assert (rows + [r])[1..] == rows[1..] + [r];
      PlainsPush(rows[1..], r);
    }
  }

  lemma {:induction false} PlainsCount(rows: seq<Row>, a: Atom)
    ensures multiset(Plains(rows))[a] == if a.Plain? then multiset(rows)[a.row] else 0
  {
    if rows != [] {
      assert rows == [rows[0]] + rows[1..];
      PlainsCount(rows[1..], a);
    }
  }

  lemma PlainsOfSame(rows: seq<Row>, rows': seq<Row>)
    requires multiset(rows) == multiset(rows')
    ensures multiset(Plains(rows)) == multiset(Plains(rows'))
  {
    forall a: Atom
      ensures multiset(Plains(rows))[a] == multiset(Plains(rows'))[a]
    {
      PlainsCount(rows, a);
      PlainsCount(rows', a);
    }
  }

  // ---------------------------------------------------------------- settled buffers

  /** Two neighbours that a pass would put together. */
  predicate Attract(a: Item, b: Item) {
    (IsJoinPart(a) && IsJoinPart(b)) || (IsDisco(a) && IsDisco(b))
  }

  /** An entry that no pass would touch when it stands alone. */
  predicate Quiet(m: Item) {
    !IsGhost(m) && !IsMotdEnd(m) && !IsMotd(m)
  }

  ghost predicate AllQuiet(ms: seq<Item>) {
    ms != [] ==> Quiet(ms[0]) && AllQuiet(ms[1..])
  }

  /** No two neighbours are both join/part-like rows. */
  ghost predicate Spread(ms: seq<Item>) {
    ms != [] ==> (|ms| > 1 ==> !(IsJoinPart(ms[0]) && IsJoinPart(ms[1]))) && Spread(ms[1..])
  }

  /** Nothing is left to group. */
  ghost predicate Settled(ms: seq<Item>) {
    ms != [] ==> Quiet(ms[0]) && (|ms| > 1 ==> !Attract(ms[0], ms[1])) && Settled(ms[1..])
  }

  lemma {:induction false} SettledIsKept(ms: seq<Item>)
    requires Settled(ms)
    ensures WithoutGhosts(ms) == ms && GroupMotd(ms, None, []) == ms
    ensures GroupJoinPart(ms, []) == ms && GroupDisco(ms, []) == ms
  {
    if ms != [] {
      var m, rest := ms[0], ms[1..];
      assert ms == [m] + rest;
      SettledIsKept(rest);
      JoinPartKept(m, rest);
      DiscoKept(m, rest);
    }
  }

  lemma JoinPartKept(m: Item, rest: seq<Item>)
    requires GroupJoinPart(rest, []) == rest && (rest != [] ==> !(IsJoinPart(m) && IsJoinPart(rest[0])))
    ensures GroupJoinPart([m] + rest, []) == [m] + rest
  {
    assert ([m] + rest)[1..] == rest;
    if IsJoinPart(m) {
      assert [] + [m.row] == [m.row];
      if rest != [] {
        assert rest == [] + [rest[0]] + GroupJoinPart(rest[1..], []);
      }
    }
  }

  lemma DiscoKept(m: Item, rest: seq<Item>)
    requires GroupDisco(rest, []) == rest && (rest != [] ==> !(IsDisco(m) && IsDisco(rest[0])))
    ensures GroupDisco([m] + rest, []) == [m] + rest
  {
    assert ([m] + rest)[1..] == rest;
    if IsDisco(m) {
      assert [] + [m] == [m];
      if rest != [] {
        assert rest == [] + [rest[0]] + GroupDisco(rest[1..], []);
      }
    }
  }

  lemma {:induction false} QuietConcat(a: seq<Item>, b: seq<Item>)
    requires AllQuiet(a) && AllQuiet(b)
    ensures AllQuiet(a + b)
  {
    if a == [] {
      assert a + b == b;
    } else {
      assert (a + b)[1..] == a[1..] + b;
      QuietConcat(a[1..], b);
    }
  }

  lemma {:induction false} MotdPassQuiets(ms: seq<Item>, head: Option<Row>, lines: seq<string>)
    ensures AllQuiet(GroupMotd(WithoutGhosts(ms), head, lines))
  {
    if ms != [] {
      var m, rest := ms[0], WithoutGhosts(ms[1..]);
      if IsGhost(m) {
        MotdPassQuiets(ms[1..], head, lines);
      } else {
        assert ([m] + rest)[1..] == rest;
        if IsMotdEnd(m) {
          MotdPassQuiets(ms[1..], head, lines);
        } else if IsMotd(m) {
          MotdPassQuiets(ms[1..], if head.Some? then head else Some(m.row), lines + [m.row.text]);
        } else {
          MotdPassQuiets(ms[1..], None, []);
          QuietConcat(FlushMotd(head, lines) + [m], GroupMotd(rest, None, []));
        }
      }
    }
  }

  lemma {:induction false} JoinPartPassSpreads(ms: seq<Item>, run: seq<Row>)
    requires AllQuiet(ms) && AllJoinPart(run)
    ensures AllQuiet(GroupJoinPart(ms, run)) && Spread(GroupJoinPart(ms, run))
  {
    var flushed := FlushJoinPart(run);
    assert AllQuiet(flushed) && Spread(flushed);
    if ms != [] {
      if IsJoinPart(ms[0]) {
        JoinPartPassSpreads(ms[1..], run + [ms[0].row]);
      } else {
        var rest := GroupJoinPart(ms[1..], []);
        JoinPartPassSpreads(ms[1..], []);
        QuietConcat(flushed + [ms[0]], rest);
        assert ([ms[0]] + rest)[1..] == rest;
        if flushed == [] {
          assert flushed + [ms[0]] + rest == [ms[0]] + rest;
        } else {
          assert (flushed + [ms[0]] + rest)[1..] == [ms[0]] + rest;
        }
      }
    }
  }

  /** The disconnect pass puts no join/part-like row in front that was not there. */
  lemma {:induction false} DiscoFirst(ms: seq<Item>, buffer: seq<Item>)
    ensures GroupDisco(ms, buffer) == [] <==> buffer + ms == []
    ensures GroupDisco(ms, buffer) != [] && IsJoinPart(GroupDisco(ms, buffer)[0])
            ==> GroupDisco(ms, buffer)[0] == (buffer + ms)[0]
  {
    if ms != [] && IsDisco(ms[0]) {
      DiscoFirst(ms[1..], buffer + [ms[0]]);
      assert (buffer + [ms[0]]) + ms[1..] == buffer + ms;
    }
  }

  ghost predicate AllDisco(ms: seq<Item>) {
    forall m :: m in ms ==> IsDisco(m)
  }

  lemma {:induction false} SpreadTail(a: seq<Item>, b: seq<Item>)
    requires Spread(a + b)
    ensures Spread(b)
    ensures a != [] && b != [] ==> !(IsJoinPart(a[|a| - 1]) && IsJoinPart(b[0]))
  {
    if a == [] {
      assert a + b == b;
    } else {
      assert (a + b)[1..] == a[1..] + b;
      SpreadTail(a[1..], b);
      if |a| == 1 && b != [] {
        assert (a + b)[1] == b[0];
      }
    }
  }

  /** What a flush and the row behind it look like in front of a settled rest. */
  lemma SettledAround(flushed: seq<Item>, m: Item, rest: seq<Item>)
    requires |flushed| <= 1 && AllQuiet(flushed) && Quiet(m) && !IsDisco(m) && Settled(rest)
    requires flushed != [] ==> !(IsJoinPart(flushed[0]) && IsJoinPart(m))
    requires rest != [] ==> !(IsJoinPart(m) && IsJoinPart(rest[0]))
    ensures Settled(flushed + [m] + rest)
  {
    assert ([m] + rest)[1..] == rest;
    if flushed == [] {
      assert flushed + [m] + rest == [m] + rest;
    } else {
      assert (flushed + [m] + rest)[1..] == [m] + rest;
    }
  }

  /** The disconnect pass leaves no two attracting neighbours. */
  lemma {:induction false} DiscoPassSettles(ms: seq<Item>, buffer: seq<Item>)
    requires AllQuiet(ms) && AllQuiet(buffer) && AllDisco(buffer) && Spread(buffer + ms)
    ensures Settled(GroupDisco(ms, buffer))
  {
    if ms != [] {
      var m, rest := ms[0], ms[1..];
      assert ms == [m] + rest;
      if IsDisco(m) {
        assert (buffer + [m]) + rest == buffer + ms;
        QuietConcat(buffer, [m]);
        DiscoPassSettles(rest, buffer + [m]);
      } else {
        SpreadTail(buffer, ms);
        SpreadTail([m], rest);
        assert [] + rest == rest;
        DiscoPassSettles(rest, []);
        DiscoFirst(rest, []);
        SettledAround(FlushDisco(buffer), m, GroupDisco(rest, []));
      }
    }
  }

  /** A processed buffer is settled, so processing it again changes nothing. */
  lemma ProcessSettles(ms: seq<Item>)
    ensures Settled(Process(ms)) && Process(Process(ms)) == Process(ms)
  {
    var motd := GroupMotd(WithoutGhosts(ms), None, []);
    var runs := GroupJoinPart(motd, []);
    MotdPassQuiets(ms, None, []);
    JoinPartPassSpreads(motd, []);
    assert [] + runs == runs;
    DiscoPassSettles(runs, []);
    SettledIsKept(Process(ms));
  }
}
