/** Status safety over every run of the grouping loop. */
module ServerLogStatus {
  import opened Wrappers
  import opened ServerLog

  /** No two attempts are successful. */
  ghost predicate OneSuccess(cards: seq<Card>) {
    forall i, j :: 0 <= i < j < |cards| ==> cards[i].status != Success || cards[j].status != Success
  }

  /** A closed attempt has a verdict. */
  ghost predicate ClosedIsSettled(cards: seq<Card>) {
    forall i :: 0 <= i < |cards| ==> cards[i].Closed() ==> cards[i].status != Pending
  }

  /** The newest attempt is on show. */
  ghost predicate NewestOnShow(cards: seq<Card>) {
    cards != [] ==> cards[|cards| - 1].status != Superseded
  }

  ghost predicate SafeCards(cards: seq<Card>) {
    OneSuccess(cards) && ClosedIsSettled(cards) && NewestOnShow(cards)
  }

  ghost predicate Safe(log: Log) {
    log.Ok() && SafeCards(Cards(log))
  }

  /** The newest attempt changes, to no new success. */
  lemma SafeTop(xs: seq<Card>, ys: seq<Card>)
    requires SafeCards(xs) && |xs| == |ys| > 0
    requires forall k :: 0 <= k < |xs| - 1 ==> ys[k] == xs[k]
    requires var c := ys[|ys| - 1];
             && c.status != Superseded && (c.Closed() ==> c.status != Pending)
             && (c.status == Success ==> xs[|xs| - 1].status == Success)
    ensures SafeCards(ys)
  {
  }

  /** A new attempt that is no success, while older ones may be superseded. */
  lemma SafeNew(xs: seq<Card>, ys: seq<Card>)
    requires SafeCards(xs) && |ys| > 0 && |xs| >= |ys| - 1
    requires forall k :: 0 <= k < |ys| - 1 ==> ys[k] == xs[k] || ys[k] == xs[k].(status := Superseded)
    requires var c := ys[|ys| - 1];
             c.status != Superseded && c.status != Success && (c.Closed() ==> c.status != Pending)
    ensures SafeCards(ys)
  {
  }

  /**
   The one way to close an attempt without a verdict: a row that is a phase row by
   its tag and a disconnect by its command, while the attempt is pending and the
   phase is no verdict itself.
   */
  predicate Unsettles(log: Log, m: Message)
    requires log.Ok()
  {
    && m.phase != NoPhase && m.IsDisconnect()
    && !IsStartPhase(m, log.CurrentCard())
    && m.phase != Welcome && m.phase != Error
    && (log.CurrentCard().None? || log.CurrentCard().value.status == Pending)
  }

  lemma LifecycleSafe(log: Log, m: Message)
    requires Safe(log) && log.current.Idle? && Classify(m) == LifecycleKind
    ensures Safe(StepLifecycle(log, m))
  {
    if log.last.Some? && log.done[log.last.value].Closed() {
      SafeTop(Cards(log), Cards(StepLifecycle(log, m)));
    } else {
      SafeNew(Cards(log), Cards(StepLifecycle(log, m)));
    }
  }

  lemma MergeSafe(log: Log, m: Message)
    requires Safe(log) && Merges(m, log.CurrentCard())
    ensures Safe(StepMerge(log, m))
  {
    SafeTop(Cards(log), Cards(StepMerge(log, m)));
  }

  lemma OpenSafe(log: Log, m: Message)
    requires Safe(log)
    ensures Safe(StepOpen(log, m))
  {
    SafeNew(Cards(log), Cards(StepOpen(log, m)));
  }

  lemma OpenedSafe(log: Log, m: Message)
    requires Safe(log)
    ensures Safe(Opened(log, m))
  {
    if Opened(log, m).current.Fresh? && log.current.Idle? {
      SafeNew(Cards(log), Cards(Opened(log, m)));
    }
  }

  /** The verdict a filed message may give. */
  function Verdict(status: Status, m: Message): Status {
    if Classify(m) == PhaseKind && m.phase == Error then Failed
    else if Classify(m) == LifecycleKind && m.IsDisconnect() then Dropped
    else status
  }

  lemma DistributedStatus(c: Card, m: Message)
    ensures Distributed(c, m).status == Verdict(c.status, m) && Distributed(c, m).end == c.end
  {
  }

  /** The open attempt is replaced by one with the same end and no new success. */
  lemma SetSafe(log: Log, c: Card)
    requires Safe(log) && !log.current.Idle? && log.SetCurrent(c).Ok()
    requires var old' := log.CurrentCard().value;
             c.end == old'.end && (c.status == old'.status || c.status == Failed || c.status == Dropped)
    ensures Safe(log.SetCurrent(c)) && log.SetCurrent(c).CurrentCard() == Some(c)
  {
    assert Cards(log)[|Cards(log)| - 1] == log.CurrentCard().value;
    SafeTop(Cards(log), Cards(log.SetCurrent(c)));
  }

  lemma FiledSafe(log: Log, m: Message)
    requires Safe(log) && !log.current.Idle?
    ensures Safe(Filed(log, m))
    ensures Filed(log, m).CurrentCard().value.status == Verdict(log.CurrentCard().value.status, m)
  {
    var c := log.CurrentCard().value;
    DistributedStatus(c, m);
    SetSafe(log, Distributed(c, m));
  }

  /** Closing an attempt, maybe as the one success. */
  lemma SafeEnd(xs: seq<Card>, ys: seq<Card>, m: Message)
    requires SafeCards(xs) && |xs| == |ys| > 0
    requires var c, won := xs[|xs| - 1], m.phase == Welcome && xs[|xs| - 1].status == Pending;
             && ys[|ys| - 1] == c.(status := if won then Success else c.status, end := Some(m))
             && forall k :: 0 <= k < |xs| - 1 ==>
                  ys[k] == if won && xs[k].status == Success then xs[k].(status := Superseded) else xs[k]
    ensures ClosedIsSettled(ys) <==> m.phase == Welcome || xs[|xs| - 1].status != Pending
    ensures OneSuccess(ys) && NewestOnShow(ys)
  {
  }

  /** Closing is safe exactly when the attempt has a verdict or is being welcomed. */
  lemma EndedSafe(log: Log, m: Message)
    requires Safe(log) && !log.current.Idle?
    ensures Safe(Ended(log, m)) <==> m.phase == Welcome || log.CurrentCard().value.status != Pending
  {
    SafeEnd(Cards(log), Cards(Ended(log, m)), m);
  }

  lemma OtherSafe(log: Log, m: Message)
    requires Safe(log) && Classify(m) != SkipKind
    requires !(Classify(m) == LifecycleKind && log.current.Idle?)
    requires !(Classify(m) == PhaseKind && IsStartPhase(m, log.CurrentCard()))
    ensures Safe(StepOther(log, m)) <==> !Unsettles(log, m)
  {
    var log1 := Opened(log, m);
    OpenedSafe(log, m);
    FiledSafe(log1, m);
    if IsEndOfAttempt(m) {
      EndedSafe(Filed(log1, m), m);
    }
  }

  /** From a safe state the next state is safe if and only if the message does not unsettle it. */
  lemma StepSafe(log: Log, m: Message)
    requires Safe(log)
    ensures Safe(Step(log, m)) <==> !Unsettles(log, m)
  {
    if Classify(m) == SkipKind {
    } else if Classify(m) == LifecycleKind && log.current.Idle? {
      LifecycleSafe(log, m);
    } else if Classify(m) == PhaseKind && IsStartPhase(m, log.CurrentCard()) {
      if Merges(m, log.CurrentCard()) {
        MergeSafe(log, m);
      } else {
        OpenSafe(log, m);
      }
    } else {
      OtherSafe(log, m);
    }
  }

  /** A phase tag never sits on a disconnect command. */
  ghost predicate WellTagged(ms: seq<Message>) {
    forall i :: 0 <= i < |ms| ==> ms[i].phase == NoPhase || !ms[i].IsDisconnect()
  }

  lemma {:induction false} RunSafe(log: Log, ms: seq<Message>)
    requires Safe(log) && WellTagged(ms)
    ensures Safe(Run(log, ms))
    decreases |ms|
  {
    if ms != [] {
      StepSafe(log, ms[0]);
      assert WellTagged(ms[1..]);
      RunSafe(Step(log, ms[0]), ms[1..]);
    }
  }

  /** Safe before the run and after every message of it. */
  ghost predicate StaysSafe(log: Log, ms: seq<Message>)
    requires log.Ok()
    decreases |ms|
  {
    Safe(log) && (ms != [] ==> StaysSafe(Step(log, ms[0]), ms[1..]))
  }

  /** Some message of the run unsettles the log it meets. */
  predicate Unsettled(log: Log, ms: seq<Message>)
    requires log.Ok()
    decreases |ms|
  {
    ms != [] && (Unsettles(log, ms[0]) || Unsettled(Step(log, ms[0]), ms[1..]))
  }

  /** The log is safe all along a run if and only if no message unsettles it. */
  lemma {:induction false} RunStaysSafe(log: Log, ms: seq<Message>)
    requires Safe(log)
    ensures StaysSafe(log, ms) <==> !Unsettled(log, ms)
    decreases |ms|
  {
    if ms != [] {
      StepSafe(log, ms[0]);
      if Safe(Step(log, ms[0])) {
        RunStaysSafe(Step(log, ms[0]), ms[1..]);
      }
    }
  }

  /** A tagged disconnect leaves an attempt that is closed and still pending. */
  lemma TaggedDisconnectUnsettles()
    ensures var m := Message(Disconnected, Registering, None, "", [], false, "");
            var c := Step(EMPTY, m).done;
            |c| == 1 && c[0].Closed() && c[0].status == Pending
  {
  }
}
