/**
 What one line does to the attempts, and what the lines of an attempt say about it.

 The rules are stated over one turn of the machine and over whole runs, on the
 fields of the attempts and on the commands and phases of their lines.
 */
module ServerLogVerdicts {
  import opened Sequences
  import opened Wrappers
  import opened ServerLog

  // ---------------------------------------------------------------- one line

  /** What a line does to the status of the attempt that gets it. */
  function Judged(status: Status, m: Message): Status {
    if m.phase == Error then Failed
    else if m.phase == NoPhase && m.IsDisconnect() then Dropped
    else if m.phase == Welcome && status == Pending then Success
    else status
  }

  predicate Closes(m: Message) {
    m.phase == Welcome || m.phase == Error || m.IsDisconnect()
  }

  predicate IsLifecycle(m: Message) {
    m.phase == NoPhase && (m.IsConnect() || m.IsDisconnect())
  }

  /** Phase and lifecycle rows are one more line of the phases. */
  predicate OneLineMore(c: Card, d: Card, m: Message) {
    && d.phases == (if m.phase != NoPhase || IsLifecycle(m) then c.phases + [m] else c.phases)
    && d.start == c.start
  }

  /** An attempt before and after it gets a line. */
  predicate Gets(c: Card, d: Card, m: Message) {
    && OneLineMore(c, d, m)
    && d.end == (if Closes(m) then Some(m) else c.end)
    && d.status == Judged(c.status, m)
  }

  /** The older attempts stay as they are, only those of status `gone` are superseded. */
  ghost predicate OlderKept(xs: seq<Card>, ys: seq<Card>, gone: set<Status>) {
    && |ys| > 0 && |xs| >= |ys| - 1
    && forall k :: 0 <= k < |ys| - 1 ==>
         ys[k] == if xs[k].status in gone then xs[k].(status := Superseded) else xs[k]
  }

  /** A first welcome pushes every other success aside. */
  function Ousted(c: Card, m: Message): set<Status> {
    if m.phase == Welcome && c.status == Pending then {Success} else {}
  }

  // ---------------------------------------------------------------- lines within an attempt

  /** Which lines each list gets. A line with a phase is a phase row, whatever its command. */
  lemma ListsGet(m: Message)
    ensures Share(m, Phases) == if m.phase != NoPhase || m.IsConnect() || m.IsDisconnect() then [m] else []
    ensures Share(m, Motd)
         == if m.phase == NoPhase && m.command in {Numeric(372), Numeric(375), Numeric(376)} then [m] else []
    ensures Share(m, Banner)
         == if m.phase == NoPhase && m.command in {Numeric(1), Numeric(2), Numeric(3)} then [m] else []
    ensures Share(m, Caps) == if m.phase == NoPhase && m.command == Numeric(5) then [m] else []
    ensures Share(m, Numerics)
         == if m.phase == NoPhase && m.command.Numeric? && m.command.code !in WHOIS_FAMILY
               && m.command.code !in {1, 2, 3, 5, 303, 367, 368, 372, 375, 376} then [m] else []
    ensures Share(m, Notices)
         == if m.phase == NoPhase && (m.command == Notice || m.command.OtherCommand?) && WorthNoting(m) then [m] else []
  {
  }

  predicate Files(c: Card, d: Card, m: Message) {
    && OneLineMore(c, d, m) && d.end == c.end
    && d.status == if m.phase == Welcome then c.status else Judged(c.status, m)
  }

  lemma DistributedFiles(c: Card, m: Message)
    requires Classify(m) != SkipKind
    ensures Files(c, Distributed(c, m), m)
  {
  }

  lemma SetCurrentTop(log: Log, d: Card)
    requires log.Ok() && !log.current.Idle?
    ensures Cards(log) != [] && Cards(log)[|Cards(log)| - 1] == log.CurrentCard().value
    ensures Cards(log.SetCurrent(d)) == Cards(log)[..|Cards(log)| - 1] + [d]
  {
  }

  lemma FiledTop(log: Log, m: Message)
    requires log.Ok() && !log.current.Idle? && Classify(m) != SkipKind
    ensures var xs, ys := Cards(log), Cards(Filed(log, m));
            && |ys| == |xs| > 0 && ys[..|ys| - 1] == xs[..|xs| - 1]
            && Files(xs[|xs| - 1], ys[|ys| - 1], m)
  {
    DistributedFiles(log.CurrentCard().value, m);
    SetCurrentTop(log, Distributed(log.CurrentCard().value, m));
  }

  lemma PushTop(log: Log, m: Message)
    requires log.Ok() && !log.current.Idle?
    ensures var xs := Cards(log);
            && xs != []
            && Cards(log.SetCurrent(log.CurrentCard().value.(end := Some(m))).Push())
               == xs[..|xs| - 1] + [xs[|xs| - 1].(end := Some(m))]
  {
  }

  lemma WonTop(log: Log)
    requires log.Ok() && !log.current.Idle?
    ensures var xs, ys := Cards(log), Cards(Won(log));
            && |ys| == |xs| > 0 && OlderKept(xs, ys, {Success})
            && ys[|ys| - 1] == xs[|xs| - 1].(status := Success)
  {
  }

  /** A card that is closed. */
  function Shut(c: Card, m: Message): Card {
    c.(end := Some(m), status := if m.phase == Welcome then Judged(c.status, m) else c.status)
  }

  lemma EndedWon(log: Log, m: Message)
    requires log.Ok() && !log.current.Idle? && m.phase == Welcome && log.CurrentCard().value.status == Pending
    ensures var xs, ys := Cards(log), Cards(Ended(log, m));
            && |ys| == |xs| > 0 && OlderKept(xs, ys, {Success}) && ys[|ys| - 1] == Shut(xs[|xs| - 1], m)
  {
    WonTop(log);
    PushTop(Won(log), m);
  }

  lemma EndedPlain(log: Log, m: Message)
    requires log.Ok() && !log.current.Idle? && !(m.phase == Welcome && log.CurrentCard().value.status == Pending)
    ensures var xs, ys := Cards(log), Cards(Ended(log, m));
            && |ys| == |xs| > 0 && OlderKept(xs, ys, {}) && ys[|ys| - 1] == Shut(xs[|xs| - 1], m)
  {
    PushTop(log, m);
  }

  lemma EndedTop(log: Log, m: Message)
    requires log.Ok() && !log.current.Idle?
    ensures var xs, ys := Cards(log), Cards(Ended(log, m));
            && |ys| == |xs| > 0 && OlderKept(xs, ys, Ousted(xs[|xs| - 1], m))
            && ys[|ys| - 1] == Shut(xs[|xs| - 1], m)
  {
    SetCurrentTop(log, log.CurrentCard().value);
    if m.phase == Welcome && log.CurrentCard().value.status == Pending {
      EndedWon(log, m);
    } else {
      EndedPlain(log, m);
    }
  }

  /** Filed and, if the line closes the attempt, ended. */
  lemma FilesThenCloses(xs: seq<Card>, ys: seq<Card>, zs: seq<Card>, m: Message)
    requires |ys| == |xs| == |zs| > 0 && ys[..|ys| - 1] == xs[..|xs| - 1]
    requires Files(xs[|xs| - 1], ys[|ys| - 1], m)
    requires !Closes(m) ==> zs == ys
    requires Closes(m) ==>
      var d := ys[|ys| - 1];
      && OlderKept(ys, zs, Ousted(d, m))
      && zs[|zs| - 1] == Shut(d, m)
    ensures OlderKept(xs, zs, Ousted(xs[|xs| - 1], m))
    ensures Gets(xs[|xs| - 1], zs[|zs| - 1], m)
  {
    assert forall k :: 0 <= k < |xs| - 1 ==> ys[k] == ys[..|ys| - 1][k] == xs[k];
  }

  /** Filed and, if the line closes the attempt, ended. */
  function Settled(log: Log, m: Message): (r: Log)
    requires log.Ok() && !log.current.Idle?
    ensures r.current.Idle? <==> Closes(m)
  {
    if Closes(m) then Ended(Filed(log, m), m) else Filed(log, m)
  }

  lemma OtherIsSettled(log: Log, m: Message)
    requires log.Ok()
    ensures StepOther(log, m) == Settled(Opened(log, m), m)
  {
  }

  lemma EndedGets(log: Log, m: Message)
    requires log.Ok() && !log.current.Idle? && Classify(m) != SkipKind && Closes(m)
    ensures var xs, ys := Cards(log), Cards(Ended(Filed(log, m), m));
            && |ys| == |xs| > 0 && OlderKept(xs, ys, Ousted(xs[|xs| - 1], m))
            && Gets(xs[|xs| - 1], ys[|ys| - 1], m)
  {
    FiledTop(log, m);
    var log1 := Filed(log, m);
    EndedTop(log1, m);
    FilesThenCloses(Cards(log), Cards(log1), Cards(Ended(log1, m)), m);
  }

  /** The line goes to the attempt that is open. */
  lemma SettledGets(log: Log, m: Message)
    requires log.Ok() && !log.current.Idle? && Classify(m) != SkipKind
    ensures var xs, ys := Cards(log), Cards(Settled(log, m));
            && |ys| == |xs| > 0 && OlderKept(xs, ys, Ousted(xs[|xs| - 1], m))
            && Gets(xs[|xs| - 1], ys[|ys| - 1], m)
  {
    if Closes(m) {
      EndedGets(log, m);
    } else {
      FiledTop(log, m);
      FilesThenCloses(Cards(log), Cards(Filed(log, m)), Cards(Filed(log, m)), m);
    }
  }

  // ---------------------------------------------------------------- one turn of the machine

  /** Phases that show that a connection is under way. */
  const UNDER_WAY := { Connecting, Dns, Try, TryFail, TcpOpen, Tls, TlsDone, Registering,
                       SaslStart, SaslDone, SaslFail, Welcome }

  /**
   A line that starts an attempt: queued, resolving, or connecting, unless the open
   attempt has phase rows and none of them shows a connection under way.
   */
  predicate Starts(log: Log, m: Message)
    requires log.Ok()
  {
    || m.phase == Queued || m.phase == Resolving
    || (m.phase == Connecting && (
      || log.current.Idle?
      || (forall k :: 0 <= k < |Newest(log).phases| ==> Newest(log).phases[k].phase == NoPhase)
      || (exists k :: 0 <= k < |Newest(log).phases| && Newest(log).phases[k].phase in UNDER_WAY)))
  }

  function Newest(log: Log): Card
    requires log.Ok() && Cards(log) != []
  {
    Cards(log)[|Cards(log)| - 1]
  }

  /** The newest attempt is closed and was not reopened since. */
  predicate JustClosed(log: Log)
    requires log.Ok()
  {
    log.current.Idle? && log.last.Some? && Newest(log).Closed()
  }

  lemma StartsIsStartPhase(log: Log, m: Message)
    requires log.Ok()
    ensures Starts(log, m) <==> IsStartPhase(m, log.CurrentCard())
  {
    assert forall p :: IsConnectBody(p) <==> p in UNDER_WAY;
    if !log.current.Idle? {
      assert Newest(log) == log.CurrentCard().value;
    }
  }

  lemma OpenedTop(log: Log, m: Message)
    requires log.Ok() && Classify(m) != SkipKind && !(IsLifecycle(m) && log.current.Idle?)
    ensures Cards(Opened(log, m)) ==
            if !log.current.Idle? || (JustClosed(log) && m.phase == NoPhase) then Cards(log)
            else Cards(log) + [NewCard(m)]
  {
  }

  lemma OtherGets(log: Log, m: Message)
    requires log.Ok() && Classify(m) != SkipKind && !(IsLifecycle(m) && log.current.Idle?)
    ensures var xs, ys := Cards(log), Cards(Settled(Opened(log, m), m));
            var joins := !log.current.Idle? || (JustClosed(log) && m.phase == NoPhase);
            var met := if joins then Newest(log) else NewCard(m);
            && |ys| == |xs| + (if joins then 0 else 1)
            && OlderKept(xs, ys, Ousted(met, m)) && Gets(met, ys[|ys| - 1], m)
  {
    OpenedTop(log, m);
    SettledGets(Opened(log, m), m);
  }

  lemma StepIsSettled(log: Log, m: Message)
    requires log.Ok() && Classify(m) != SkipKind && !Starts(log, m) && !(IsLifecycle(m) && log.current.Idle?)
    ensures Step(log, m) == Settled(Opened(log, m), m)
  {
    StartsIsStartPhase(log, m);
    OtherIsSettled(log, m);
  }

  /** A line that starts nothing goes to the newest attempt if that is open, or closed and the line is chatter. */
  lemma StepGets(log: Log, m: Message)
    requires log.Ok() && Classify(m) != SkipKind && !Starts(log, m)
    requires !(IsLifecycle(m) && log.current.Idle?)
    ensures var xs, ys := Cards(log), Cards(Step(log, m));
            var joins := !log.current.Idle? || (JustClosed(log) && m.phase == NoPhase);
            var met := if joins then Newest(log) else NewCard(m);
            && |ys| == |xs| + (if joins then 0 else 1)
            && OlderKept(xs, ys, Ousted(met, m)) && Gets(met, ys[|ys| - 1], m)
    ensures Step(log, m).current.Idle? <==> Closes(m)
  {
    StepIsSettled(log, m);
    OtherGets(log, m);
  }

  /** An attempt gets a connect or disconnect row while nothing is open. */
  function Extended(c: Card, m: Message, joins: bool): Card {
    c.(phases := c.phases + [m], status := Judged(c.status, m),
       end := if joins || m.IsDisconnect() then Some(m) else None)
  }

  lemma ExtendedIsMore(c: Card, m: Message, joins: bool)
    requires IsLifecycle(m)
    ensures OneLineMore(c, Extended(c, m, joins), m)
  {
  }

  lemma StepLifecycleTop(log: Log, m: Message)
    requires log.Ok() && log.current.Idle? && IsLifecycle(m)
    ensures Cards(Step(log, m)) ==
            if JustClosed(log) then log.done[..|log.done| - 1] + [Extended(Newest(log), m, true)]
            else log.done + [Extended(NewCard(m), m, false)]
  {
    assert Classify(m) == LifecycleKind && Step(log, m) == StepLifecycle(log, m);
    assert [] + [m] == [m];
    if JustClosed(log) {
      var n, c := |log.done| - 1, Extended(Newest(log), m, true);
      assert log.done[n := c] == log.done[..n] + [c];
    }
  }

  /** A connect or disconnect row while nothing is open extends the closed attempt before it. */
  lemma StepExtends(log: Log, m: Message)
    requires log.Ok() && log.current.Idle? && IsLifecycle(m)
    ensures var xs, ys, joins := Cards(log), Cards(Step(log, m)), JustClosed(log);
            var met := if joins then Newest(log) else NewCard(m);
            && |ys| == |xs| + (if joins then 0 else 1)
            && OlderKept(xs, ys, {}) && OneLineMore(met, ys[|ys| - 1], m)
            && ys[|ys| - 1].status == Judged(met.status, m)
            && ys[|ys| - 1].end == (if joins || m.IsDisconnect() then Some(m) else None)
  {
    StepLifecycleTop(log, m);
    ExtendedIsMore(if JustClosed(log) then Newest(log) else NewCard(m), m, JustClosed(log));
  }

  /** Some line of the attempt is not much older than the given time. */
  ghost predicate HeardSince(c: Card, t: int) {
    c.start.Time() >= t || exists b, k :: 0 <= k < |c.Contents(b)| && c.Contents(b)[k].Time() >= t
  }

  lemma {:induction false} MaxTimeReaches(ms: seq<Message>, t0: int, t: int)
    ensures MaxTime(ms, t0) >= t <==> t0 >= t || exists k :: 0 <= k < |ms| && ms[k].Time() >= t
  {
    if ms != [] {
      MaxTimeReaches(ms[1..], if ms[0].Time() > t0 then ms[0].Time() else t0, t);
      assert forall k :: 0 < k < |ms| ==> ms[k] == ms[1..][k - 1];
    }
  }

  lemma HeardIsRecent(c: Card, t: int)
    ensures HeardSince(c, t) <==> LastMessageTime(c) >= t
  {
    var t0 := c.start.Time();
    MaxTimeReaches(c.phases, t0, t);
    var t1 := MaxTime(c.phases, t0);
    MaxTimeReaches(c.motd, t1, t);
    var t2 := MaxTime(c.motd, t1);
    MaxTimeReaches(c.welcome, t2, t);
    var t3 := MaxTime(c.welcome, t2);
    MaxTimeReaches(c.cap, t3, t);
    var t4 := MaxTime(c.cap, t3);
    MaxTimeReaches(c.notices, t4, t);
    MaxTimeReaches(c.numeric, MaxTime(c.notices, t4), t);
    assert c.Contents(Phases) == c.phases && c.Contents(Motd) == c.motd && c.Contents(Banner) == c.welcome;
    assert c.Contents(Caps) == c.cap && c.Contents(Notices) == c.notices && c.Contents(Numerics) == c.numeric;
  }

  /** The newest attempt is still open. */
  predicate StillOpen(log: Log)
    requires log.Ok()
  {
    !log.current.Idle? && !Newest(log).Closed()
  }

  /** Queued or resolving behind phases of a pending attempt is one more line of it. */
  lemma StepMerges(log: Log, m: Message)
    requires log.Ok() && (m.phase == Queued || m.phase == Resolving)
    requires StillOpen(log) && Newest(log).status == Pending && Newest(log).phases != []
    ensures var c := Newest(log);
            Cards(Step(log, m)) == Cards(log)[..|Cards(log)| - 1] + [c.(phases := c.phases + [m])]
  {
    SetCurrentTop(log, Newest(log).(phases := Newest(log).phases + [m]));
  }

  /** The attempt a start opens, with the chatter it takes over. */
  predicate Begins(d: Card, m: Message, from: Option<Card>) {
    && d.start == m && d.end == None && d.status == Pending && d.phases == [m]
    && forall b :: b != Phases ==> d.Contents(b) == if from.Some? then from.value.Contents(b) else []
  }

  lemma OpenedBegins(m: Message, from: Option<Card>)
    ensures Begins(OpenedCard(m, from), m, from)
  {
  }

  /** Exactly the settled attempts are superseded. */
  lemma StepOpenTop(log: Log, m: Message)
    requires log.Ok()
    ensures var xs := if Discards(m, log.CurrentCard()) then log.done else Cards(log);
            var ys := Cards(StepOpen(log, m));
            && |ys| == |xs| + 1
            && ys[|xs|] == OpenedCard(m, if Discards(m, log.CurrentCard()) then log.CurrentCard() else None)
            && OlderKept(xs, ys, if IsStartMarker(m.phase) then {Success, Failed, Dropped, Superseded} else {})
  {
  }

  /** A start takes over from an open attempt that has no phases yet and a line in the last minute. */
  ghost predicate TakesOver(log: Log, m: Message)
    requires log.Ok()
  {
    StillOpen(log) && Newest(log).phases == [] && HeardSince(Newest(log), m.Time() - 60000)
  }

  lemma TakesOverIsDiscards(log: Log, m: Message)
    requires log.Ok()
    ensures TakesOver(log, m) <==> Discards(m, log.CurrentCard())
    ensures !log.current.Idle? ==> Cards(log) != [] && log.CurrentCard() == Some(Newest(log))
    ensures log.current.Fresh? ==> log.done == Cards(log)[..|Cards(log)| - 1]
    ensures Discards(m, log.CurrentCard()) ==> log.current.Fresh?
  {
    if !log.current.Idle? {
      assert Newest(log) == log.CurrentCard().value;
      HeardIsRecent(Newest(log), m.Time() - 60000);
    }
  }

  lemma StepOpenBegins(log: Log, m: Message)
    requires log.Ok()
    ensures var xs, ys := Cards(log), Cards(StepOpen(log, m));
            && |ys| == |xs| + (if TakesOver(log, m) then 0 else 1)
            && OlderKept(xs, ys, if IsStartMarker(m.phase) then {Success, Failed, Dropped, Superseded} else {})
            && Begins(ys[|ys| - 1], m, if TakesOver(log, m) then Some(Newest(log)) else None)
  {
    TakesOverIsDiscards(log, m);
    StepOpenTop(log, m);
    OpenedBegins(m, if TakesOver(log, m) then Some(Newest(log)) else None);
  }

  lemma StepIsOpen(log: Log, m: Message)
    requires log.Ok() && Starts(log, m)
    requires m.phase == Connecting || !StillOpen(log) || Newest(log).status != Pending || Newest(log).phases == []
    ensures Step(log, m) == StepOpen(log, m) && (IsStartMarker(m.phase) <==> m.phase != Connecting)
  {
    StartsIsStartPhase(log, m);
  }

  /**
   Any other start opens a pending attempt. It replaces the open one whose chatter it
   takes over. Queued and resolving supersede every older attempt that is not pending.
   */
  lemma StepOpens(log: Log, m: Message)
    requires log.Ok() && Starts(log, m)
    requires m.phase == Connecting || !StillOpen(log) || Newest(log).status != Pending || Newest(log).phases == []
    ensures var xs, ys := Cards(log), Cards(Step(log, m));
            && |ys| == |xs| + (if TakesOver(log, m) then 0 else 1)
            && OlderKept(xs, ys, if m.phase == Connecting then {} else {Success, Failed, Dropped, Superseded})
            && Begins(ys[|ys| - 1], m, if TakesOver(log, m) then Some(Newest(log)) else None)
  {
    StepIsOpen(log, m);
    StepOpenBegins(log, m);
  }

  // ---------------------------------------------------------------- the verdicts

  /** A welcome makes the pending attempt the one success. */
  lemma WelcomeWins(log: Log, m: Message)
    requires log.Ok() && m.phase == Welcome
    requires log.current.Idle? || Newest(log).status == Pending
    ensures var xs, ys := Cards(log), Cards(Step(log, m));
            && |ys| == |xs| + (if log.current.Idle? then 1 else 0) && Step(log, m).current.Idle?
            && ys[|ys| - 1].status == Success && ys[|ys| - 1].end == Some(m)
            && forall k :: 0 <= k < |ys| - 1 ==>
                 ys[k] == if xs[k].status == Success then xs[k].(status := Superseded) else xs[k]
  {
    StepGets(log, m);
  }

  /** The rest of the newest attempt is older; what a line adds to the whole, it adds to the newest. */
  lemma AddedToNewest(xs: seq<Card>, ys: seq<Card>, b: Bucket, more: seq<Message>)
    requires |xs| == |ys| > 0 && Flat(ys, b) == Flat(xs, b) + more
    requires forall k :: 0 <= k < |ys| - 1 ==> ys[k].Contents(b) == xs[k].Contents(b)
    ensures ys[|ys| - 1].Contents(b) == xs[|xs| - 1].Contents(b) + more
  {
    var n := |xs| - 1;
    FlatSame(xs[..n], ys[..n], b);
    var flat := Flat(xs[..n], b);
    Assoc(flat, xs[n].Contents(b), more);
    SameBehind(flat, ys[n].Contents(b), xs[n].Contents(b) + more);
  }

  /** An error phase fails the attempt, a disconnect row drops it, and either closes it. */
  lemma EndIsJudged(log: Log, m: Message)
    requires log.Ok() && (m.phase == Error || (m.phase == NoPhase && m.IsDisconnect()))
    ensures var xs, ys := Cards(log), Cards(Step(log, m));
            && |ys| == |xs| + (if !log.current.Idle? || (m.phase == NoPhase && JustClosed(log)) then 0 else 1)
            && ys[|ys| - 1].status == (if m.phase == Error then Failed else Dropped)
            && ys[|ys| - 1].end == Some(m)
            && forall k :: 0 <= k < |ys| - 1 ==> ys[k] == xs[k]
  {
    if IsLifecycle(m) && log.current.Idle? {
      StepExtends(log, m);
    } else {
      StepGets(log, m);
    }
  }

  /** Chatter behind a closed attempt lands in that attempt and changes nothing else. */
  lemma ChatterStays(log: Log, m: Message, b: Bucket)
    requires log.Ok() && JustClosed(log) && m.phase == NoPhase && !IsLifecycle(m) && Classify(m) != SkipKind
    ensures var xs, ys := Cards(log), Cards(Step(log, m));
            && |ys| == |xs| && (forall k :: 0 <= k < |ys| - 1 ==> ys[k] == xs[k])
            && var c, d := xs[|xs| - 1], ys[|ys| - 1];
               && d.start == c.start && d.end == c.end && d.status == c.status
               && d.Contents(b) == c.Contents(b) + Share(m, b)
  {
    StepGets(log, m);
    StepFlat(log, m, b);
    AddedToNewest(Cards(log), Cards(Step(log, m)), b, Share(m, b));
  }

  // ---------------------------------------------------------------- whole runs

  /** What the lines of an attempt say of it: an error, a disconnect, or the first welcome. */
  function Verdict(rows: seq<Message>): Status {
    if rows == [] then Pending else Judged(Verdict(rows[..|rows| - 1]), rows[|rows| - 1])
  }

  /** A welcome, an error or a disconnect ends an attempt, unless it is the line that starts it. */
  predicate Ends(m: Message, first: bool) {
    Closes(m) && m.phase != Queued && m.phase != Resolving && !(m.phase == Connecting && first)
  }

  predicate Finished(rows: seq<Message>) {
    exists k :: 0 <= k < |rows| && Ends(rows[k], k == 0)
  }

  /** An attempt is what its own lines say, unless it is superseded. */
  predicate Earned(c: Card) {
    && (c.status == Superseded || c.status == Verdict(c.phases))
    && (c.Closed() <==> Finished(c.phases))
    && (c.Closed() ==> c.end.value in c.phases)
  }

  ghost predicate AllEarned(cards: seq<Card>) {
    && (forall k :: 0 <= k < |cards| ==> Earned(cards[k]))
    && (cards != [] ==> cards[|cards| - 1].status != Superseded)
  }

  lemma OneMore(rows: seq<Message>, m: Message)
    ensures Verdict(rows + [m]) == Judged(Verdict(rows), m)
    ensures Finished(rows + [m]) <==> Finished(rows) || Ends(m, rows == [])
  {
    var more := rows + [m];
    assert more[..|rows|] == rows;
    assert forall k :: 0 <= k < |rows| ==> more[k] == rows[k];
    assert more[|rows|] == m;
  }

  /** One more line in an attempt. */
  lemma EarnedMore(c: Card, d: Card, m: Message)
    requires Earned(c) && c.status != Superseded && d.phases == c.phases + [m] && d.status == Judged(c.status, m)
    requires d.end == (if Ends(m, c.phases == []) then Some(m) else c.end) || (d.end == Some(m) && c.Closed())
    ensures Earned(d) && d.status != Superseded
  {
    OneMore(c.phases, m);
  }

  lemma NewIsEarned(m: Message)
    ensures Earned(NewCard(m))
  {
  }

  /** The newest attempt is earned again, and older ones are at most superseded. */
  lemma EarnedTop(xs: seq<Card>, ys: seq<Card>, gone: set<Status>)
    requires AllEarned(xs) && OlderKept(xs, ys, gone)
    requires Earned(ys[|ys| - 1]) && ys[|ys| - 1].status != Superseded
    ensures AllEarned(ys)
  {
    forall k | 0 <= k < |ys| - 1
      ensures Earned(ys[k])
    {
      SupersededIsEarned(xs[k]);
    }
  }

  lemma SupersededIsEarned(c: Card)
    requires Earned(c)
    ensures Earned(c.(status := Superseded))
  {
  }

  lemma GetsEarned(log: Log, m: Message)
    requires log.Ok() && AllEarned(Cards(log)) && Classify(m) != SkipKind && !Starts(log, m)
    requires !(IsLifecycle(m) && log.current.Idle?)
    ensures AllEarned(Cards(Step(log, m)))
  {
    StepGets(log, m);
    var xs, ys := Cards(log), Cards(Step(log, m));
    var joins := !log.current.Idle? || (JustClosed(log) && m.phase == NoPhase);
    var met := if joins then Newest(log) else NewCard(m);
    NewIsEarned(m);
    if m.phase != NoPhase || IsLifecycle(m) {
      EarnedMore(met, ys[|ys| - 1], m);
    }
    EarnedTop(xs, ys, Ousted(met, m));
  }

  lemma ExtendsEarned(log: Log, m: Message)
    requires log.Ok() && AllEarned(Cards(log)) && log.current.Idle? && IsLifecycle(m)
    ensures AllEarned(Cards(Step(log, m)))
  {
    StepExtends(log, m);
    NewIsEarned(m);
    var ys := Cards(Step(log, m));
    EarnedMore(if JustClosed(log) then Newest(log) else NewCard(m), ys[|ys| - 1], m);
    EarnedTop(Cards(log), ys, {});
  }

  lemma BeginsEarned(d: Card, m: Message, from: Option<Card>)
    requires Begins(d, m, from) && (m.phase == Queued || m.phase == Resolving || m.phase == Connecting)
    ensures Earned(d) && d.status != Superseded
  {
    OneMore([], m);
    assert [] + [m] == [m];
  }

  lemma OpensEarned(log: Log, m: Message)
    requires log.Ok() && AllEarned(Cards(log)) && Starts(log, m)
    requires m.phase == Connecting || !StillOpen(log) || Newest(log).status != Pending || Newest(log).phases == []
    ensures AllEarned(Cards(Step(log, m)))
  {
    StepOpens(log, m);
    var xs, ys := Cards(log), Cards(Step(log, m));
    BeginsEarned(ys[|ys| - 1], m, if TakesOver(log, m) then Some(Newest(log)) else None);
    EarnedTop(xs, ys, if m.phase == Connecting then {} else {Success, Failed, Dropped, Superseded});
  }

  lemma SnocEarned(xs: seq<Card>, d: Card, m: Message)
    requires AllEarned(xs) && xs != [] && (m.phase == Queued || m.phase == Resolving)
    requires d == xs[|xs| - 1].(phases := xs[|xs| - 1].phases + [m])
    ensures AllEarned(xs[..|xs| - 1] + [d])
  {
    EarnedMore(xs[|xs| - 1], d, m);
    EarnedTop(xs, xs[..|xs| - 1] + [d], {});
  }

  lemma MergesEarned(log: Log, m: Message)
    requires log.Ok() && AllEarned(Cards(log)) && (m.phase == Queued || m.phase == Resolving)
    requires StillOpen(log) && Newest(log).status == Pending && Newest(log).phases != []
    ensures AllEarned(Cards(Step(log, m)))
  {
    StepMerges(log, m);
    SnocEarned(Cards(log), Newest(log).(phases := Newest(log).phases + [m]), m);
  }

  lemma StepEarned(log: Log, m: Message)
    requires log.Ok() && AllEarned(Cards(log))
    ensures AllEarned(Cards(Step(log, m)))
  {
    if Classify(m) == SkipKind {
    } else if Starts(log, m) {
      if m.phase == Connecting || !StillOpen(log) || Newest(log).status != Pending || Newest(log).phases == [] {
        OpensEarned(log, m);
      } else {
        MergesEarned(log, m);
      }
    } else if IsLifecycle(m) && log.current.Idle? {
      ExtendsEarned(log, m);
    } else {
      GetsEarned(log, m);
    }
  }

  /** In every run every attempt is what its own lines say, unless it is superseded, and the newest never is. */
  lemma {:induction false} RunEarned(log: Log, ms: seq<Message>)
    requires log.Ok() && AllEarned(Cards(log))
    ensures AllEarned(Cards(Run(log, ms)))
    decreases |ms|
  {
    if ms != [] {
      StepEarned(log, ms[0]);
      RunEarned(Step(log, ms[0]), ms[1..]);
    }
  }
}
