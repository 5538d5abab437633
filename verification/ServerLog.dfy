/**
 Grouping a server buffer into connection attempts, as a machine on values.

 `Step` is one turn of the grouping loop. An attempt that was closed and then
 reopened for late chatter is the same record as the one in the returned list, so
 the machine names it by its position there.
 */
module ServerLog {
  import opened Sequences
  import opened Whitespace
  import opened Wrappers

  datatype Phase =
    | NoPhase | Queued | Resolving | Connecting | Dns | Try | TryFail | TcpOpen | Tls | TlsDone
    | Registering | SaslStart | SaslDone | SaslFail | Welcome | Error | OtherPhase(name: string)

  /** A command word; `Numeric` is any three-digit reply. */
  datatype Command =
    | Ping | Pong | ErrorCommand | Isupport | ConnectionRetryStatus | ConnectionFail | ChannelList
    | Quit | Chghost | Account | Authenticate | Tagmsg | Connect | Disconnect | Connected | Disconnected
    | Notice | Mode | Nick | Numeric(code: nat) | OtherCommand(name: string)

  /** `canonText` is the text with the variable parts of a phase line stripped. */
  datatype Message = Message(
    command: Command, phase: Phase, t: Option<int>, text: string, params: seq<string>,
    selfEcho: bool, canonText: string)
  {
    function Time(): int {
      if t.Some? then t.value else 0
    }

    predicate IsDisconnect() {
      command == Disconnect || command == Disconnected
    }

    predicate IsConnect() {
      command == Connect || command == Connected
    }
  }

  // ---------------------------------------------------------------- classification

  datatype Kind =
    | PhaseKind | MotdKind | WelcomeKind | CapKind | NumericKind | NoticeKind | LifecycleKind | SelfKind | SkipKind

  const WHOIS_FAMILY: set<nat> := {
    301, 275, 276, 307, 310, 311, 312, 313, 314, 315, 316, 317, 318, 319, 320, 330, 335, 337, 338, 339,
    369, 378, 379, 352, 354, 615, 616, 617, 671, 672, 690 }

  function Classify(m: Message): Kind {
    if m.phase != NoPhase then PhaseKind
    else
      match m.command
      case Ping | Pong | ErrorCommand | Isupport | ConnectionRetryStatus | ConnectionFail | ChannelList => SkipKind
      case Quit | Chghost | Account | Authenticate | Tagmsg => SkipKind
      case Connect | Disconnect | Connected | Disconnected => LifecycleKind
      case Notice => NoticeKind
      case Mode => SelfKind
      case Nick => if m.selfEcho then SelfKind else SkipKind
      case Numeric(n) =>
        if n == 5 then CapKind
        else if n == 372 || n == 375 || n == 376 then MotdKind
        else if n == 1 || n == 2 || n == 3 then WelcomeKind
        else if n in WHOIS_FAMILY || n == 367 || n == 368 || n == 303 then SkipKind
        else NumericKind
      case OtherCommand(_) => NoticeKind
  }

  /** Something is left of `s` after trimming. */
  predicate HasInk(s: string) {
    exists i :: 0 <= i < |s| && !IsSpace(s[i])
  }

  /** Empty notices are keepalives and are dropped. */
  predicate WorthNoting(m: Message) {
    m.text != "" && (HasInk(m.text) || exists k :: 0 <= k < |m.params| && HasInk(m.params[k]))
  }

  /** The six lists of an attempt. */
  datatype Bucket = Phases | Motd | Banner | Caps | Notices | Numerics

  /** Where a message belongs, if anywhere. */
  function BucketOf(m: Message): Option<Bucket> {
    match Classify(m)
    case PhaseKind | LifecycleKind => Some(Phases)
    case MotdKind => Some(Motd)
    case WelcomeKind => Some(Banner)
    case CapKind => Some(Caps)
    case NumericKind => Some(Numerics)
    case NoticeKind => if WorthNoting(m) then Some(Notices) else None
    case SelfKind | SkipKind => None
  }

  // ---------------------------------------------------------------- attempts

  datatype Status = Pending | Success | Failed | Dropped | Superseded

  /** One connection attempt. */
  datatype Card = Card(
    start: Message, end: Option<Message>,
    phases: seq<Message>, motd: seq<Message>, welcome: seq<Message>, cap: seq<Message>,
    notices: seq<Message>, numeric: seq<Message>, status: Status)
  {
    function Contents(b: Bucket): seq<Message> {
      match b
      case Phases => phases
      case Motd => motd
      case Banner => welcome
      case Caps => cap
      case Notices => notices
      case Numerics => numeric
    }

    function Put(b: Bucket, m: Message): Card {
      match b
      case Phases => this.(phases := phases + [m])
      case Motd => this.(motd := motd + [m])
      case Banner => this.(welcome := welcome + [m])
      case Caps => this.(cap := cap + [m])
      case Notices => this.(notices := notices + [m])
      case Numerics => this.(numeric := numeric + [m])
    }

    predicate Closed() { end.Some? }
  }

  function NewCard(seed: Message): Card {
    Card(seed, None, [], [], [], [], [], [], Pending)
  }

  function MaxTime(ms: seq<Message>, t: int): int {
    if ms == [] then t
    else MaxTime(ms[1..], if ms[0].Time() > t then ms[0].Time() else t)
  }

  /** Newest timestamp across an attempt's lists. */
  function LastMessageTime(c: Card): int {
    MaxTime(c.numeric, MaxTime(c.notices, MaxTime(c.cap,
      MaxTime(c.welcome, MaxTime(c.motd, MaxTime(c.phases, c.start.Time()))))))
  }

  const PRE_ATTEMPT_CHATTER_MS := 60000

  predicate IsStartMarker(p: Phase) { p == Queued || p == Resolving }

  predicate IsConnectBody(p: Phase) {
    match p
    case Connecting | Dns | Try | TryFail | TcpOpen | Tls | TlsDone | Registering
       | SaslStart | SaslDone | SaslFail | Welcome => true
    case _ => false
  }

  predicate IsStartPhase(m: Message, current: Option<Card>) {
    if m.phase == NoPhase then false
    else if IsStartMarker(m.phase) then true
    else if m.phase != Connecting then false
    else if current.None? then true
    else
      || (forall k :: 0 <= k < |current.value.phases| ==> current.value.phases[k].phase == NoPhase)
      || (exists k :: 0 <= k < |current.value.phases| && IsConnectBody(current.value.phases[k].phase))
  }

  predicate IsEndOfAttempt(m: Message) {
    m.phase == Welcome || m.phase == Error || m.IsDisconnect()
  }

  // ---------------------------------------------------------------- the machine

  /** `Fresh` is not in the returned list yet; `Reopened(k)` is entry `k` of it. */
  datatype Current = Idle | Fresh(card: Card) | Reopened(at: nat)

  /** `last` is the most recently pushed attempt, forgotten once it is reopened. */
  datatype Log = Log(done: seq<Card>, current: Current, last: Option<nat>) {
    ghost predicate Ok() {
      && (last.Some? ==> last.value + 1 == |done|)
      && (current.Reopened? ==> current.at + 1 == |done| && done[current.at].Closed() && last.None?)
    }

    function CurrentCard(): Option<Card>
      requires current.Reopened? ==> current.at < |done|
    {
      match current
      case Idle => None
      case Fresh(c) => Some(c)
      case Reopened(k) => Some(done[k])
    }

    function SetCurrent(c: Card): Log
      requires current.Reopened? ==> current.at < |done|
      requires !current.Idle?
    {
      match current
      case Fresh(_) => this.(current := Fresh(c))
      case Reopened(k) => this.(done := done[k := c])
    }

    /** `pushCurrent`: an attempt already in the list is not added again. */
    function Push(): Log {
      match current
      case Fresh(c) => Log(done + [c], Idle, Some(|done|))
      case _ => this.(current := Idle)
    }
  }

  const EMPTY := Log([], Idle, None)

  /** A lifecycle row while no attempt is open. */
  function StepLifecycle(log: Log, m: Message): (r: Log)
    requires log.Ok() && log.current.Idle?
    ensures r.Ok()
  {
    if log.last.Some? && log.done[log.last.value].Closed() then
      var prev := log.done[log.last.value];
      log.(done := log.done[log.last.value :=
             prev.(phases := prev.phases + [m], end := Some(m),
                   status := if m.IsDisconnect() then Dropped else prev.status)])
    else
      var c := NewCard(m).(phases := [m]);
      log.(current := Fresh(if m.IsDisconnect() then c.(status := Dropped, end := Some(m)) else c))
  }

  predicate Merges(m: Message, current: Option<Card>) {
    && current.Some? && !current.value.Closed() && current.value.status == Pending
    && current.value.phases != [] && m.phase != Connecting
  }

  predicate Discards(m: Message, current: Option<Card>) {
    && current.Some? && current.value.phases == [] && !current.value.Closed()
    && m.Time() - LastMessageTime(current.value) <= PRE_ATTEMPT_CHATTER_MS
  }

  function SupersedeSettled(cards: seq<Card>): (r: seq<Card>)
    ensures |r| == |cards|
    ensures forall k :: 0 <= k < |cards| ==>
      r[k] == if cards[k].status != Pending then cards[k].(status := Superseded) else cards[k]
  {
    seq(|cards|, k requires 0 <= k < |cards| =>
      if cards[k].status != Pending then cards[k].(status := Superseded) else cards[k])
  }

  /** All successes but entry `except` are superseded. */
  function SupersedeSuccesses(cards: seq<Card>, except: Option<nat>): (r: seq<Card>)
    ensures |r| == |cards|
    ensures forall k :: 0 <= k < |cards| ==>
      r[k] == if cards[k].status == Success && except != Some(k) then cards[k].(status := Superseded) else cards[k]
  {
    seq(|cards|, k requires 0 <= k < |cards| =>
      if cards[k].status == Success && except != Some(k) then cards[k].(status := Superseded) else cards[k])
  }

  /** The attempt a start phase opens, with the chatter of the one it replaces. */
  function OpenedCard(m: Message, discarded: Option<Card>): Card {
    var c := NewCard(m).(phases := [m]);
    if discarded.None? then c
    else
      var d := discarded.value;
      c.(welcome := d.welcome, motd := d.motd, cap := d.cap, numeric := d.numeric, notices := d.notices)
  }

  /** A start phase opens a new attempt. */
  function StepOpen(log: Log, m: Message): (r: Log)
    requires log.Ok()
    ensures r.Ok() && r.current.Fresh?
  {
    var cur := log.CurrentCard();
    var base := if Discards(m, cur) then log.(current := Idle) else log.Push();
    var done := if IsStartMarker(m.phase) then SupersedeSettled(base.done) else base.done;
    Log(done, Fresh(OpenedCard(m, if Discards(m, cur) then cur else None)), base.last)
  }

  /** A start phase during a pending attempt is part of it. */
  function StepMerge(log: Log, m: Message): (r: Log)
    requires log.Ok() && Merges(m, log.CurrentCard())
    ensures r.Ok()
  {
    var c := log.CurrentCard().value;
    log.SetCurrent(c.(phases := c.phases + [m]))
  }

  predicate IsChatter(k: Kind) {
    k == MotdKind || k == CapKind || k == NumericKind || k == NoticeKind || k == WelcomeKind || k == SelfKind
  }

  /** Some attempt to put the message into: the open one, the last closed one, or a new one. */
  function Opened(log: Log, m: Message): (r: Log)
    requires log.Ok()
    ensures r.Ok() && !r.current.Idle?
  {
    if !log.current.Idle? then log
    else if log.last.Some? && log.done[log.last.value].Closed() && IsChatter(Classify(m))
    then log.(current := Reopened(log.last.value), last := None)
    else log.(current := Fresh(NewCard(m)))
  }

  /** The message lands in its list; error phases and disconnect rows set the status. */
  function Distributed(c: Card, m: Message): Card {
    var c' := if BucketOf(m).Some? then c.Put(BucketOf(m).value, m) else c;
    if Classify(m) == PhaseKind && m.phase == Error then c'.(status := Failed)
    else if Classify(m) == LifecycleKind && m.IsDisconnect() then c'.(status := Dropped)
    else c'
  }

  function Filed(log: Log, m: Message): (r: Log)
    requires log.Ok() && !log.current.Idle?
    ensures r.Ok() && !r.current.Idle?
  {
    log.SetCurrent(Distributed(log.CurrentCard().value, m))
  }

  /** A first welcome: this attempt is the success, every other success is superseded. */
  function Won(log: Log): (r: Log)
    requires log.Ok() && !log.current.Idle?
    ensures r.Ok() && !r.current.Idle?
  {
    var log1 := log.SetCurrent(log.CurrentCard().value.(status := Success));
    log1.(done := SupersedeSuccesses(log1.done, if log.current.Reopened? then Some(log.current.at) else None))
  }

  /** The end of an attempt. */
  function Ended(log: Log, m: Message): (r: Log)
    requires log.Ok() && !log.current.Idle?
    ensures r.Ok() && r.current.Idle?
  {
    var log1 := if m.phase == Welcome && log.CurrentCard().value.status == Pending then Won(log) else log;
    log1.SetCurrent(log1.CurrentCard().value.(end := Some(m))).Push()
  }

  /** Every other message: into its list, and maybe the end of the attempt. */
  function StepOther(log: Log, m: Message): (r: Log)
    requires log.Ok()
    ensures r.Ok()
  {
    var log1 := Filed(Opened(log, m), m);
    if IsEndOfAttempt(m) then Ended(log1, m) else log1
  }

  /** One turn of the loop. */
  function Step(log: Log, m: Message): (r: Log)
    requires log.Ok()
    ensures r.Ok()
  {
    if Classify(m) == SkipKind then log
    else if Classify(m) == LifecycleKind && log.current.Idle? then StepLifecycle(log, m)
    else if Classify(m) == PhaseKind && IsStartPhase(m, log.CurrentCard()) then
      if Merges(m, log.CurrentCard()) then StepMerge(log, m) else StepOpen(log, m)
    else StepOther(log, m)
  }

  function Run(log: Log, ms: seq<Message>): (r: Log)
    requires log.Ok()
    ensures r.Ok()
    decreases |ms|
  {
    if ms == [] then log else Run(Step(log, ms[0]), ms[1..])
  }

  // ---------------------------------------------------------------- conservation

  /** Every attempt so far, the open one last. */
  function Cards(log: Log): seq<Card> {
    log.done + if log.current.Fresh? then [log.current.card] else []
  }

  /** One list of all attempts, joined in order. */
  function Flat(cards: seq<Card>, b: Bucket): seq<Message> {
    if cards == [] then [] else Flat(cards[..|cards| - 1], b) + cards[|cards| - 1].Contents(b)
  }

  /** What a message adds to list `b`. */
  function Share(m: Message, b: Bucket): seq<Message> {
    if BucketOf(m) == Some(b) then [m] else []
  }

  /** The messages of `ms` that belong into list `b`. */
  function Filter(ms: seq<Message>, b: Bucket): seq<Message> {
    if ms == [] then []
    else Share(ms[0], b) + Filter(ms[1..], b)
  }

  /** Only the lists matter. */
  lemma {:induction false} FlatSame(xs: seq<Card>, ys: seq<Card>, b: Bucket)
    requires |xs| == |ys| && forall k :: 0 <= k < |xs| ==> xs[k].Contents(b) == ys[k].Contents(b)
    ensures Flat(xs, b) == Flat(ys, b)
  {
    if xs != [] {
      FlatSame(xs[..|xs| - 1], ys[..|ys| - 1], b);
    }
  }

  /** More in a list of the newest attempt is more at the end of the joined list. */
  lemma FlatTop(xs: seq<Card>, ys: seq<Card>, b: Bucket, more: seq<Message>)
    requires |xs| == |ys| > 0
    requires forall k :: 0 <= k < |xs| - 1 ==> xs[k].Contents(b) == ys[k].Contents(b)
    requires ys[|ys| - 1].Contents(b) == xs[|xs| - 1].Contents(b) + more
    ensures Flat(ys, b) == Flat(xs, b) + more
  {
    var n := |xs| - 1;
    FlatSame(xs[..n], ys[..n], b);
    Assoc(Flat(xs[..n], b), xs[n].Contents(b), more);
  }

  /** A new attempt at the end. */
  lemma FlatNew(xs: seq<Card>, ys: seq<Card>, b: Bucket)
    requires |ys| == |xs| + 1
    requires forall k :: 0 <= k < |xs| ==> xs[k].Contents(b) == ys[k].Contents(b)
    ensures Flat(ys, b) == Flat(xs, b) + ys[|xs|].Contents(b)
  {
    FlatSame(xs, ys[..|xs|], b);
  }

  /** The newest attempt, open or reopened, gets more into its lists. */
  lemma SetCurrentFlat(log: Log, c: Card, b: Bucket, more: seq<Message>)
    requires log.Ok() && !log.current.Idle?
    requires c.Contents(b) == log.CurrentCard().value.Contents(b) + more
    ensures Flat(Cards(log.SetCurrent(c)), b) == Flat(Cards(log), b) + more
  {
    FlatTop(Cards(log), Cards(log.SetCurrent(c)), b, more);
  }

  lemma LifecycleFlat(log: Log, m: Message, b: Bucket)
    requires log.Ok() && log.current.Idle? && Classify(m) == LifecycleKind
    ensures Flat(Cards(StepLifecycle(log, m)), b) == Flat(Cards(log), b) + Share(m, b)
  {
    if log.last.Some? && log.done[log.last.value].Closed() {
      FlatTop(Cards(log), Cards(StepLifecycle(log, m)), b, Share(m, b));
    } else {
      FlatNew(Cards(log), Cards(StepLifecycle(log, m)), b);
    }
  }

  lemma MergeFlat(log: Log, m: Message, b: Bucket)
    requires log.Ok() && Classify(m) == PhaseKind && Merges(m, log.CurrentCard())
    ensures Flat(Cards(StepMerge(log, m)), b) == Flat(Cards(log), b) + Share(m, b)
  {
    var c := log.CurrentCard().value;
    SetCurrentFlat(log, c.(phases := c.phases + [m]), b, Share(m, b));
  }

  /** Taking over the chatter of a discarded attempt. */
  lemma TakenOver(m: Message, d: Card, b: Bucket)
    requires Classify(m) == PhaseKind && d.phases == []
    ensures OpenedCard(m, Some(d)).Contents(b) == d.Contents(b) + Share(m, b)
    ensures OpenedCard(m, None).Contents(b) == Share(m, b)
  {
  }

  lemma OpenDiscardFlat(log: Log, m: Message, b: Bucket)
    requires log.Ok() && Classify(m) == PhaseKind && Discards(m, log.CurrentCard())
    ensures Flat(Cards(StepOpen(log, m)), b) == Flat(Cards(log), b) + Share(m, b)
  {
    TakenOver(m, log.CurrentCard().value, b);
    FlatTop(Cards(log), Cards(StepOpen(log, m)), b, Share(m, b));
  }

  lemma OpenFlat(log: Log, m: Message, b: Bucket)
    requires log.Ok() && Classify(m) == PhaseKind && !Discards(m, log.CurrentCard())
    ensures Flat(Cards(StepOpen(log, m)), b) == Flat(Cards(log), b) + Share(m, b)
  {
    TakenOver(m, NewCard(m), b);
    FlatNew(Cards(log), Cards(StepOpen(log, m)), b);
  }

  lemma OpenedFlat(log: Log, m: Message, b: Bucket)
    requires log.Ok()
    ensures Flat(Cards(Opened(log, m)), b) == Flat(Cards(log), b)
  {
    if Opened(log, m).current.Fresh? && log.current.Idle? {
      FlatNew(Cards(log), Cards(Opened(log, m)), b);
    }
  }

  lemma EndedFlat(log: Log, m: Message, b: Bucket)
    requires log.Ok() && !log.current.Idle?
    ensures Flat(Cards(Ended(log, m)), b) == Flat(Cards(log), b)
  {
    var xs, ys := Cards(Ended(log, m)), Cards(log);
    forall k | 0 <= k < |xs|
      ensures xs[k].Contents(b) == ys[k].Contents(b)
    {
    }
    FlatSame(xs, ys, b);
  }

  lemma FiledFlat(log: Log, m: Message, b: Bucket)
    requires log.Ok() && !log.current.Idle?
    ensures Flat(Cards(Filed(log, m)), b) == Flat(Cards(log), b) + Share(m, b)
  {
    SetCurrentFlat(log, Distributed(log.CurrentCard().value, m), b, Share(m, b));
  }

  lemma OtherFlat(log: Log, m: Message, b: Bucket)
    requires log.Ok()
    ensures Flat(Cards(StepOther(log, m)), b) == Flat(Cards(log), b) + Share(m, b)
  {
    var log1 := Opened(log, m);
    OpenedFlat(log, m, b);
    FiledFlat(log1, m, b);
    if IsEndOfAttempt(m) {
      EndedFlat(Filed(log1, m), m, b);
    }
  }

  /** One turn adds the message to its list of the newest attempt and loses nothing. */
  lemma StepFlat(log: Log, m: Message, b: Bucket)
    requires log.Ok()
    ensures Flat(Cards(Step(log, m)), b) == Flat(Cards(log), b) + Share(m, b)
  {
    if Classify(m) == SkipKind {
    } else if Classify(m) == LifecycleKind && log.current.Idle? {
      LifecycleFlat(log, m, b);
    } else if Classify(m) == PhaseKind && IsStartPhase(m, log.CurrentCard()) {
      if Merges(m, log.CurrentCard()) {
        MergeFlat(log, m, b);
      } else if Discards(m, log.CurrentCard()) {
        OpenDiscardFlat(log, m, b);
      } else {
        OpenFlat(log, m, b);
      }
    } else {
      OtherFlat(log, m, b);
    }
  }

  lemma {:induction false} RunFlat(log: Log, ms: seq<Message>, b: Bucket)
    requires log.Ok()
    ensures Flat(Cards(Run(log, ms)), b) == Flat(Cards(log), b) + Filter(ms, b)
    decreases |ms|
  {
    if ms != [] {
      var log1, m, rest := Step(log, ms[0]), ms[0], ms[1..];
      RunFlat(log1, rest, b);
      StepFlat(log, m, b);
      Assoc(Flat(Cards(log), b), Share(m, b), Filter(rest, b));
    }
  }
}
