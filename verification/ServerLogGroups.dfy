/**
 Grouping as the source runs it: attempts are records updated in place, and the
 open attempt, the last pushed one and the returned list may share them.

 Each piece of the loop is proved to do to those records what `ServerLog.Step`
 does to values; the two main results about the returned list follow.
 */
module ServerLogGroups {
  import opened Sequences
  import opened Wrappers
  import opened ServerLog
  import opened ServerLogStatus
  import D = ServerLogDedup
  import V = ServerLogVerdicts

  /** What the grouping of `messages` returns, as values. */
  function Group(messages: seq<Message>): seq<Card> {
    Run(EMPTY, D.Dedup(D.FRESH, messages)).Push().done
  }

  lemma GroupIsCards(messages: seq<Message>)
    ensures Group(messages) == Cards(Run(EMPTY, D.Dedup(D.FRESH, messages)))
  {
  }

  /**
   Nothing is lost, doubled or reordered: joining one list of all returned attempts
   gives exactly the deduplicated messages that belong into that list, in order.
   */
  lemma GroupConserves(messages: seq<Message>, b: Bucket)
    ensures Flat(Group(messages), b) == Filter(D.Dedup(D.FRESH, messages), b)
  {
    GroupIsCards(messages);
    RunFlat(EMPTY, D.Dedup(D.FRESH, messages), b);
    assert [] + Filter(D.Dedup(D.FRESH, messages), b) == Filter(D.Dedup(D.FRESH, messages), b);
  }

  /** In the returned list one success at most, no closed attempt pending, the newest on show. */
  lemma GroupIsSafe(messages: seq<Message>)
    requires WellTagged(messages)
    ensures var cards := Group(messages);
            && (forall i, j :: 0 <= i < j < |cards| ==> cards[i].status != Success || cards[j].status != Success)
            && (forall i :: 0 <= i < |cards| && cards[i].Closed() ==> cards[i].status != Pending)
            && (cards != [] ==> cards[|cards| - 1].status != Superseded)
  {
    var deduped := D.Dedup(D.FRESH, messages);
    D.DedupOnlyDrops(D.FRESH, messages);
    SubsequenceMembers(deduped, messages);
    assert WellTagged(deduped) by {
      forall i | 0 <= i < |deduped|
        ensures deduped[i].phase == NoPhase || !deduped[i].IsDisconnect()
      {
        assert deduped[i] in deduped;
      }
    }
    assert Cards(EMPTY) == [];
    RunSafe(EMPTY, deduped);
    GroupIsCards(messages);
  }

  /** Every returned attempt is what its own lines say, unless it is superseded, and the newest never is. */
  lemma GroupIsEarned(messages: seq<Message>)
    ensures V.AllEarned(Group(messages))
  {
    assert Cards(EMPTY) == [];
    V.RunEarned(EMPTY, D.Dedup(D.FRESH, messages));
    GroupIsCards(messages);
  }

  lemma RunTurn(log: Log, messages: seq<Message>, i: nat)
    requires log.Ok() && i < |messages|
    ensures Run(log, messages[i..]) == Run(Step(log, messages[i]), messages[i + 1..])
  {
    assert messages[i..][1..] == messages[i + 1..];
  }

  /** The record of one attempt. */
  class Attempt {
    var start: Message
    var end: Option<Message>
    var phases: seq<Message>
    var motd: seq<Message>
    var welcome: seq<Message>
    var cap: seq<Message>
    var notices: seq<Message>
    var numeric: seq<Message>
    var status: Status

    ghost function View(): Card
      reads this
    {
      Card(start, end, phases, motd, welcome, cap, notices, numeric, status)
    }

    constructor (seed: Message)
      ensures View() == NewCard(seed)
    {
      start, end := seed, None;
      phases, motd, welcome, cap, notices, numeric := [], [], [], [], [], [];
      status := Pending;
    }

    /** Newest timestamp across the lists. */
    method LastMessageT() returns (t: int)
      ensures t == LastMessageTime(View())
    {
      t := start.Time();
      t := Newest(phases, t);
      t := Newest(motd, t);
      t := Newest(welcome, t);
      t := Newest(cap, t);
      t := Newest(notices, t);
      t := Newest(numeric, t);
    }

    static method Newest(bucket: seq<Message>, t: int) returns (r: int)
      ensures r == MaxTime(bucket, t)
    {
      r := t;
      for i := 0 to |bucket|
        invariant MaxTime(bucket[i..], r) == MaxTime(bucket, t)
      {
        if bucket[i].Time() > r {
          r := bucket[i].Time();
        }
      }
    }

    /** The bucket switch of the loop. */
    method Distribute(msg: Message)
      modifies this
      ensures View() == Distributed(old(View()), msg)
    {
      var kind := Classify(msg);
      match kind {
        case PhaseKind =>
          phases := phases + [msg];
          if msg.phase == Error {
            status := Failed;
          }
        case MotdKind => motd := motd + [msg];
        case WelcomeKind => welcome := welcome + [msg];
        case CapKind => cap := cap + [msg];
        case NumericKind => numeric := numeric + [msg];
        case NoticeKind =>
          if WorthNoting(msg) {
            notices := notices + [msg];
          }
        case LifecycleKind =>
          phases := phases + [msg];
          if msg.IsDisconnect() {
            status := Dropped;
          }
        case SelfKind | SkipKind =>
      }
    }
  }

  /** The variables of the loop; `log` is the machine state they stand for, `Repr` every record made. */
  class Grouper {
    var attempts: seq<Attempt>
    var current: Attempt?
    var lastAttempt: Attempt?
    var pushed: set<Attempt>
    ghost var log: Log
    ghost var Repr: set<Attempt>

    ghost predicate Valid()
      reads this, Repr
    {
      && log.Ok()
      && |attempts| == |log.done|
      && pushed <= Repr
      && (forall k :: 0 <= k < |attempts| ==> attempts[k] in pushed && attempts[k].View() == log.done[k])
      && (forall j, k :: 0 <= j < k < |attempts| ==> attempts[j] != attempts[k])
      && (match log.current
          case Idle => current == null
          case Fresh(c) => current != null && current in Repr && current !in pushed && current.View() == c
          case Reopened(k) => current == attempts[k])
      && lastAttempt == if log.last.Some? then attempts[log.last.value] else null
    }

    constructor ()
      ensures Valid() && log == EMPTY && Repr == {}
    {
      attempts, current, lastAttempt, pushed := [], null, null, {};
      log, Repr := EMPTY, {};
    }

    method PushCurrent()
      requires Valid()
      modifies this
      ensures Valid() && log == old(log).Push() && Repr == old(Repr)
    {
      if current != null && current !in pushed {
        attempts := attempts + [current];
        pushed := pushed + {current};
        lastAttempt := current;
        current := null;
      } else {
        current := null;
      }
      log := log.Push();
    }

    /** `current = card` for a new record. */
    method Install(card: Attempt)
      requires Valid() && log.current.Idle? && card !in Repr
      modifies this
      ensures Valid() && log == old(log).(current := Fresh(card.View())) && Repr == old(Repr) + {card}
    {
      current := card;
      log, Repr := log.(current := Fresh(card.View())), Repr + {card};
    }

    /** A lifecycle row after a closed attempt extends it. */
    method ExtendPrevious(prev: Attempt, msg: Message)
      requires Valid() && log.current.Idle? && prev == lastAttempt && prev.end != None
      modifies `log, prev
      ensures Valid() && log == StepLifecycle(old(log), msg)
    {
      ghost var next := StepLifecycle(log, msg);
      prev.phases := prev.phases + [msg];
      if msg.IsDisconnect() {
        prev.status := Dropped;
      }
      prev.end := Some(msg);
      log := next;
    }

    /** A lifecycle row while no attempt is open. */
    method FeedLifecycle(msg: Message)
      requires Valid() && log.current.Idle?
      modifies this, Repr
      ensures Valid() && log == StepLifecycle(old(log), msg)
      ensures fresh(Repr - old(Repr))
    {
      var prev := lastAttempt;
      if prev != null && prev.end != None {
        ExtendPrevious(prev, msg);
        return;
      }
      var card := new Attempt(msg);
      card.phases := card.phases + [msg];
      if msg.IsDisconnect() {
        card.status := Dropped;
        card.end := Some(msg);
      }
      Install(card);
    }

    /** A start phase during a pending attempt. */
    method FeedMerge(msg: Message)
      requires Valid() && Merges(msg, log.CurrentCard())
      modifies `log, current
      ensures Valid() && log == StepMerge(old(log), msg)
    {
      current.phases := current.phases + [msg];
      log := StepMerge(log, msg);
    }

    /** `superseded` for every attempt with a verdict. */
    method SupersedeAllSettled()
      requires Valid() && current == null
      modifies `log, Repr
      ensures Valid() && log == old(log).(done := SupersedeSettled(old(log).done))
    {
      for i := 0 to |attempts|
        invariant log == old(log)
        invariant forall k :: 0 <= k < i ==> attempts[k].View() == SupersedeSettled(log.done)[k]
        invariant forall k :: i <= k < |attempts| ==> attempts[k].View() == log.done[k]
      {
        if attempts[i].status != Pending {
          attempts[i].status := Superseded;
        }
      }
      log := log.(done := SupersedeSettled(log.done));
    }

    /** Before a new attempt: chatter that belongs to it is taken over, anything else is pushed. */
    method SetAside(msg: Message) returns (discarded: Attempt?)
      requires Valid()
      modifies this
      ensures Valid() && current == null && Repr == old(Repr)
      ensures discarded != null <==> Discards(msg, old(log).CurrentCard())
      ensures discarded != null ==> Some(discarded.View()) == old(log).CurrentCard()
      ensures log == if discarded != null then old(log).(current := Idle) else old(log).Push()
    {
      discarded := null;
      if current != null && current.phases == [] && current.end == None {
        var lastT := current.LastMessageT();
        if msg.Time() - lastT <= PRE_ATTEMPT_CHATTER_MS {
          discarded := current;
        }
      }
      if discarded != null {
        current := null;
        log := log.(current := Idle);
      } else {
        PushCurrent();
      }
    }

    /** The record of a new attempt, with the chatter of the one it replaces. */
    static method StartCard(msg: Message, discarded: Attempt?) returns (card: Attempt)
      ensures fresh(card)
      ensures card.View() == OpenedCard(msg, if discarded == null then None else Some(discarded.View()))
    {
      card := new Attempt(msg);
      if discarded != null {
        card.welcome := discarded.welcome;
        card.motd := discarded.motd;
        card.cap := discarded.cap;
        card.numeric := discarded.numeric;
        card.notices := discarded.notices;
      }
      card.phases := card.phases + [msg];
    }

    /** A start phase that opens a new attempt. */
    method FeedOpen(msg: Message)
      requires Valid()
      modifies this, Repr
      ensures Valid() && log == StepOpen(old(log), msg)
      ensures fresh(Repr - old(Repr))
    {
      var discarded := SetAside(msg);
      var card := StartCard(msg, discarded);
      ghost var view := card.View();
      if IsStartMarker(msg.phase) {
        SupersedeAllSettled();
      }
      assert card.View() == view;
      Install(card);
    }

    /** Some attempt to put the message into. */
    method OpenFor(msg: Message)
      requires Valid()
      modifies this
      ensures Valid() && log == Opened(old(log), msg)
      ensures fresh(Repr - old(Repr)) && old(Repr) <= Repr
    {
      var kind := Classify(msg);
      var prev := lastAttempt;
      if current == null && prev != null && prev.end != None && IsChatter(kind) {
        current := prev;
        lastAttempt := null;
        log := Opened(log, msg);
      } else if current == null {
        var card := new Attempt(msg);
        Install(card);
      }
    }

    /** `superseded` for every other success. */
    method SupersedeOtherSuccesses(ghost except: Option<nat>)
      requires Valid() && current != null
      requires except == if log.current.Reopened? then Some(log.current.at) else None
      modifies Repr - {current}
      ensures forall k :: 0 <= k < |attempts| ==> attempts[k].View() == SupersedeSuccesses(log.done, except)[k]
    {
      for i := 0 to |attempts|
        invariant forall k :: 0 <= k < i ==> attempts[k].View() == SupersedeSuccesses(log.done, except)[k]
        invariant forall k :: i <= k < |attempts| ==> attempts[k].View() == log.done[k]
        invariant current.View() == old(current.View())
      {
        if attempts[i].status == Success && attempts[i] != current {
          attempts[i].status := Superseded;
        }
      }
    }

    /** A first welcome: this attempt is the success, every other one is superseded. */
    method Win()
      requires Valid() && current != null
      modifies `log, Repr
      ensures Valid() && log == Won(old(log))
    {
      current.status := Success;
      log := log.SetCurrent(log.CurrentCard().value.(status := Success));
      ghost var except := if log.current.Reopened? then Some(log.current.at) else None;
      SupersedeOtherSuccesses(except);
      log := log.(done := SupersedeSuccesses(log.done, except));
    }

    method CloseCurrent(msg: Message)
      requires Valid() && current != null
      modifies `log, current
      ensures Valid() && log == old(log).SetCurrent(old(log).CurrentCard().value.(end := Some(msg)))
    {
      current.end := Some(msg);
      log := log.SetCurrent(log.CurrentCard().value.(end := Some(msg)));
    }

    /** The end of an attempt. */
    method Finish(msg: Message)
      requires Valid() && current != null
      modifies this, Repr
      ensures Valid() && log == Ended(old(log), msg) && Repr == old(Repr)
    {
      if msg.phase == Welcome && current.status == Pending {
        Win();
      }
      CloseCurrent(msg);
      PushCurrent();
    }

    method FileInto(msg: Message)
      requires Valid() && current != null
      modifies `log, current
      ensures Valid() && log == Filed(old(log), msg)
    {
      current.Distribute(msg);
      log := Filed(log, msg);
    }

    /** Every other message. */
    method FeedOther(msg: Message)
      requires Valid()
      modifies this, Repr
      ensures Valid() && log == StepOther(old(log), msg)
      ensures fresh(Repr - old(Repr))
    {
      OpenFor(msg);
      FileInto(msg);
      if IsEndOfAttempt(msg) {
        Finish(msg);
      }
    }

    /** `isStartPhase` on the open attempt. */
    method StartsAttempt(msg: Message) returns (r: bool)
      requires Valid()
      ensures r == IsStartPhase(msg, log.CurrentCard())
    {
      if msg.phase == NoPhase {
        return false;
      }
      if IsStartMarker(msg.phase) {
        return true;
      }
      if msg.phase != Connecting {
        return false;
      }
      if current == null {
        return true;
      }
      if !exists k :: 0 <= k < |current.phases| && current.phases[k].phase != NoPhase {
        return true;
      }
      return exists k :: 0 <= k < |current.phases| && IsConnectBody(current.phases[k].phase);
    }

    /** A phase row that starts an attempt. */
    method FeedStart(msg: Message)
      requires Valid()
      modifies this, Repr
      ensures Valid() && fresh(Repr - old(Repr))
      ensures log == if Merges(msg, old(log).CurrentCard()) then StepMerge(old(log), msg) else StepOpen(old(log), msg)
    {
      if current != null && current.end == None && current.status == Pending
         && |current.phases| > 0 && msg.phase != Connecting {
        FeedMerge(msg);
      } else {
        FeedOpen(msg);
      }
    }

    /** One turn of the loop. */
    method Feed(msg: Message)
      requires Valid()
      modifies this, Repr
      ensures Valid() && log == Step(old(log), msg)
      ensures fresh(Repr - old(Repr))
    {
      var kind := Classify(msg);
      if kind == SkipKind {
        return;
      }
      if kind == LifecycleKind && current == null {
        FeedLifecycle(msg);
        return;
      }
      var isStart := StartsAttempt(msg);
      if kind == PhaseKind && isStart {
        FeedStart(msg);
      } else {
        FeedOther(msg);
      }
    }

    method FeedAll(messages: seq<Message>)
      requires Valid()
      modifies this, Repr
      ensures Valid() && log == Run(old(log), messages)
      ensures fresh(Repr - old(Repr))
    {
      assert messages[0..] == messages;
      for i := 0 to |messages|
        invariant Valid() && fresh(Repr - old(Repr))
        invariant Run(log, messages[i..]) == Run(old(log), messages)
      {
        RunTurn(log, messages, i);
        Feed(messages[i]);
      }
    }
  }

  /** The values behind a list of records. */
  ghost function Views(attempts: seq<Attempt>): (cards: seq<Card>)
    reads set a | a in attempts
  {
    seq(|attempts|, k requires 0 <= k < |attempts| reads set a | a in attempts => attempts[k].View())
  }

  /** The grouping: distinct new records that stand for what `Group` describes. */
  method GroupServerLog(messages: seq<Message>) returns (attempts: seq<Attempt>)
    ensures forall k :: 0 <= k < |attempts| ==> fresh(attempts[k])
    ensures forall j, k :: 0 <= j < k < |attempts| ==> attempts[j] != attempts[k]
    ensures Views(attempts) == Group(messages)
  {
    var dedupedMessages := D.DedupPhaseEvents(messages);
    var g := new Grouper();
    g.FeedAll(dedupedMessages);
    g.PushCurrent();
    attempts := g.attempts;
  }
}
