/**
 The message batcher as a timed machine on values: two queues, two timers and the
 time of the last flush. An event is an enqueued message or a timer that fires.
 */
module Batching {
  import opened Wrappers

  const MAX_BUFFER_SIZE := 200
  const MAX_BACKFILL_SIZE := 400
  const BACKFILL_DEBOUNCE_MS := 200
  const FLUSH_INTERVAL_MS := 200

  /** `rank` orders message ids the way the locale does. */
  datatype Message = Message(t: Option<int>, eid: Option<int>, rank: int, body: string)

  /** A queued message with the time it was enqueued, which only the statements here look at. */
  datatype Post = Post(msg: Message, at: int)

  datatype Kind = Live | Backfill

  /** The posts of one network and buffer, under their joint key. */
  datatype Lane = Lane(key: string, posts: seq<Post>)

  /** One call of a flush callback. */
  datatype Delivery = Delivery(kind: Kind, net: string, buf: string, posts: seq<Post>, time: int)

  datatype Action = FlushNow | CheckThenFlush

  datatype Timer = Timer(deadline: int, action: Action)

  datatype State = State(
    live: seq<Lane>, back: seq<Lane>, liveTotal: nat, backTotal: nat, lastFlush: int,
    flushTimer: Option<Timer>, backTimer: Option<int>,
    hasLiveFn: bool, hasBackFn: bool, delivered: seq<Delivery>)

  const IDLE := State([], [], 0, 0, 0, None, None, true, true, [])

  // ---------------------------------------------------------------- keys

  function Key(net: string, buf: string): (k: string)
    ensures ':' in k
  {
    assert (net + ":" + buf)[|net|] == ':';
    net + ":" + buf
  }

  /** Position of the first colon. */
  function Colon(key: string): (i: nat)
    requires ':' in key
    ensures i < |key| && key[i] == ':' && ':' !in key[..i]
  {
    if key[0] == ':' then 0
    else
      assert key == [key[0]] + key[1..];
      var i := Colon(key[1..]) + 1;
      assert key[..i] == [key[0]] + key[1..][..i - 1];
      i
  }

  function Split(key: string): (string, string)
    requires ':' in key
  {
    (key[..Colon(key)], key[Colon(key) + 1..])
  }

  lemma {:induction false} ColonAt(key: string, k: nat)
    requires k < |key| && key[k] == ':' && ':' !in key[..k]
    ensures ':' in key && Colon(key) == k
  {
    if k > 0 {
      assert key[0] in key[..k];
      assert key[1..][..k - 1] == key[..k][1..];
      ColonAt(key[1..], k - 1);
    }
  }

  /** A key leads back to its own network and buffer exactly when the network id has no colon. */
  lemma SplitInvertsKey(net: string, buf: string)
    ensures Split(Key(net, buf)) == (net, buf) <==> ':' !in net
  {
    var key := Key(net, buf);
    assert key[..|net|] == net && key[|net| + 1..] == buf;
    if ':' !in net {
      ColonAt(key, |net|);
    }
  }

  // ---------------------------------------------------------------- order within a batch

  function Compare(a: Message, b: Message): int {
    var ta := if a.t.Some? then a.t.value else 0;
    var tb := if b.t.Some? then b.t.value else 0;
    if ta != tb then ta - tb
    else if a.eid.Some? && b.eid.Some? then a.eid.value - b.eid.value
    else if a.eid.Some? then -1
    else if b.eid.Some? then 1
    else a.rank - b.rank
  }

  /** The comparator is a total preorder, so sorting by it is well defined. */
  lemma CompareIsPreorder(a: Message, b: Message, c: Message)
    ensures Compare(a, a) == 0
    ensures Compare(a, b) <= 0 || Compare(b, a) <= 0
    ensures Compare(a, b) > 0 <==> Compare(b, a) < 0
    ensures Compare(a, b) <= 0 && Compare(b, c) <= 0 ==> Compare(a, c) <= 0
  {
  }

  /** `p` does not come after any of `posts`. */
  predicate Leads(p: Post, posts: seq<Post>) {
    forall q :: q in posts ==> Compare(p.msg, q.msg) <= 0
  }

  predicate InOrder(posts: seq<Post>) {
    posts != [] ==> Leads(posts[0], posts[1..]) && InOrder(posts[1..])
  }

  /** Stable insertion from the right: equal elements keep their order. */
  function Insert(p: Post, posts: seq<Post>): seq<Post> {
    if posts == [] then [p]
    else if Compare(p.msg, posts[0].msg) <= 0 then [p] + posts
    else [posts[0]] + Insert(p, posts[1..])
  }

  function Sort(posts: seq<Post>): seq<Post> {
    if posts == [] then [] else Insert(posts[0], Sort(posts[1..]))
  }

  lemma {:induction false} InsertIsMore(p: Post, posts: seq<Post>)
    ensures multiset(Insert(p, posts)) == multiset{p} + multiset(posts)
    ensures forall q :: q in Insert(p, posts) <==> q == p || q in posts
  {
    if posts != [] {
      assert posts == [posts[0]] + posts[1..];
      if Compare(p.msg, posts[0].msg) > 0 {
        InsertIsMore(p, posts[1..]);
      }
    }
  }

  lemma LeadsFurther(p: Post, q: Post, posts: seq<Post>)
    requires Compare(p.msg, q.msg) <= 0 && Leads(q, posts)
    ensures Leads(p, posts)
  {
    forall r | r in posts
      ensures Compare(p.msg, r.msg) <= 0
    {
      CompareIsPreorder(p.msg, q.msg, r.msg);
    }
  }

  lemma {:induction false} InsertInOrder(p: Post, posts: seq<Post>)
    requires InOrder(posts)
    ensures InOrder(Insert(p, posts))
  {
    if posts != [] {
      var q, rest := posts[0], posts[1..];
      assert posts == [q] + rest;
      if Compare(p.msg, q.msg) <= 0 {
        LeadsFurther(p, q, rest);
        assert ([p] + posts)[1..] == posts;
      } else {
        CompareIsPreorder(p.msg, q.msg, p.msg);
        InsertInOrder(p, rest);
        InsertIsMore(p, rest);
        assert ([q] + Insert(p, rest))[1..] == Insert(p, rest);
      }
    }
  }

  /** What a callback receives is in order and is the lane, nothing more and nothing less. */
  lemma {:induction false} SortSorts(posts: seq<Post>)
    ensures InOrder(Sort(posts)) && multiset(Sort(posts)) == multiset(posts)
  {
    if posts != [] {
      SortSorts(posts[1..]);
      InsertInOrder(posts[0], Sort(posts[1..]));
      InsertIsMore(posts[0], Sort(posts[1..]));
      assert posts == [posts[0]] + posts[1..];
    }
  }

  // ---------------------------------------------------------------- the machine

  function AddPost(lanes: seq<Lane>, key: string, p: Post): seq<Lane> {
    if lanes == [] then [Lane(key, [p])]
    else if lanes[0].key == key then [Lane(key, lanes[0].posts + [p])] + lanes[1..]
    else [lanes[0]] + AddPost(lanes[1..], key, p)
  }

  function Size(lanes: seq<Lane>): nat {
    if lanes == [] then 0 else |lanes[0].posts| + Size(lanes[1..])
  }

  predicate GoodLanes(lanes: seq<Lane>) {
    forall i :: 0 <= i < |lanes| ==> ':' in lanes[i].key && lanes[i].posts != []
  }

  /** The callbacks made for one queue. */
  function Calls(kind: Kind, lanes: seq<Lane>, now: int): seq<Delivery>
    requires GoodLanes(lanes)
  {
    if lanes == [] then []
    else
      var (net, buf) := Split(lanes[0].key);
      [Delivery(kind, net, buf, Sort(lanes[0].posts), now)] + Calls(kind, lanes[1..], now)
  }

  /** `flushAll`: both queues go out; a queue without a callback is thrown away. */
  function FlushAll(s: State, now: int): State
    requires GoodLanes(s.live) && GoodLanes(s.back)
  {
    s.(live := [], back := [], liveTotal := if s.live == [] then s.liveTotal else 0,
       backTotal := if s.back == [] then s.backTotal else 0,
       lastFlush := now, flushTimer := None, backTimer := None,
       delivered := s.delivered + (if s.hasLiveFn then Calls(Live, s.live, now) else [])
                                + (if s.hasBackFn then Calls(Backfill, s.back, now) else []))
  }

  function CheckFlush(s: State, now: int): State
    requires GoodLanes(s.live) && GoodLanes(s.back)
  {
    if s.lastFlush == 0 || now - s.lastFlush >= FLUSH_INTERVAL_MS then FlushAll(s, now)
    else if s.flushTimer.None? then s.(flushTimer := Some(Timer(now + FLUSH_INTERVAL_MS, CheckThenFlush)))
    else s
  }

  lemma {:induction false} AddPostGood(lanes: seq<Lane>, key: string, p: Post)
    requires GoodLanes(lanes) && ':' in key
    ensures GoodLanes(AddPost(lanes, key, p)) && Size(AddPost(lanes, key, p)) == Size(lanes) + 1
    ensures AddPost(lanes, key, p) != []
  {
    if lanes != [] && lanes[0].key != key {
      AddPostGood(lanes[1..], key, p);
    }
  }

  /** The message is in its queue. */
  function Queued(s: State, key: string, p: Post, backfill: bool): (r: State)
    requires GoodLanes(s.live) && GoodLanes(s.back) && ':' in key
    ensures GoodLanes(r.live) && GoodLanes(r.back)
  {
    if backfill then
      AddPostGood(s.back, key, p);
      s.(back := AddPost(s.back, key, p), backTotal := s.backTotal + 1)
    else
      AddPostGood(s.live, key, p);
      s.(live := AddPost(s.live, key, p), liveTotal := s.liveTotal + 1)
  }

  /** A full queue flushes; otherwise the timers see to it. */
  function Scheduled(s: State, now: int, backfill: bool): State
    requires GoodLanes(s.live) && GoodLanes(s.back)
  {
    if backfill then
      if s.backTotal >= MAX_BACKFILL_SIZE then FlushAll(s, now)
      else
        s.(backTimer := Some(now + BACKFILL_DEBOUNCE_MS),
           flushTimer := if s.flushTimer.None? then Some(Timer(now, FlushNow)) else s.flushTimer)
    else if s.liveTotal >= MAX_BUFFER_SIZE then FlushAll(s, now)
    else CheckFlush(s, now)
  }

  function Enqueue(s: State, now: int, net: string, buf: string, msg: Message, backfill: bool): State
    requires GoodLanes(s.live) && GoodLanes(s.back)
  {
    Scheduled(Queued(s, Key(net, buf), Post(msg, now), backfill), now, backfill)
  }

  /** The flush timer fires: its handle is still set while the callback runs. */
  function FireFlush(s: State, now: int): State
    requires GoodLanes(s.live) && GoodLanes(s.back) && s.flushTimer.Some?
  {
    match s.flushTimer.value.action
    case FlushNow => FlushAll(s, now)
    case CheckThenFlush => CheckFlush(s, now)
  }

  function FireBackfill(s: State, now: int): State
    requires GoodLanes(s.live) && GoodLanes(s.back) && s.backTimer.Some?
  {
    FlushAll(s, now)
  }

  // ---------------------------------------------------------------- runs

  datatype Event =
    | Arrives(net: string, buf: string, msg: Message, backfill: bool)
    | FlushTimerFires
    | BackfillTimerFires

  datatype Timed = Timed(now: int, event: Event)

  /** Everything still queued waits for an armed timer that comes in time and really flushes. */
  ghost predicate Inv(s: State, clock: int) {
    && s.hasLiveFn && s.hasBackFn
    && GoodLanes(s.live) && GoodLanes(s.back)
    && s.liveTotal == Size(s.live) < MAX_BUFFER_SIZE
    && s.backTotal == Size(s.back) < MAX_BACKFILL_SIZE
    && 0 <= s.lastFlush <= clock
    && (s.live != [] || s.back != [] ==> s.flushTimer.Some?)
    && (s.flushTimer.Some? ==> s.flushTimer.value.deadline <= clock + FLUSH_INTERVAL_MS)
    && (s.flushTimer.Some? && s.flushTimer.value.action == CheckThenFlush ==>
          s.flushTimer.value.deadline >= s.lastFlush + FLUSH_INTERVAL_MS)
    && (s.backTimer.Some? ==> s.flushTimer.Some? && s.flushTimer.value.deadline <= s.backTimer.value)
    && Waiting(s, s.live) && Waiting(s, s.back)
  }

  /** Every queued post was enqueued at most 200 ms before the armed deadline. */
  ghost predicate Waiting(s: State, lanes: seq<Lane>) {
    forall i, j :: 0 <= i < |lanes| && 0 <= j < |lanes[i].posts| ==>
      s.flushTimer.Some? && s.flushTimer.value.deadline <= lanes[i].posts[j].at + FLUSH_INTERVAL_MS
  }

  /** The event can happen now: clocks do not run backwards and timers do not fire early. */
  predicate Enabled(s: State, clock: int, e: Timed) {
    && clock <= e.now && 0 < e.now
    && match e.event
       case Arrives(_, _, _, _) => true
       case FlushTimerFires => s.flushTimer.Some? && s.flushTimer.value.deadline <= e.now
       case BackfillTimerFires => s.backTimer.Some? && s.backTimer.value <= e.now
  }

  function Next(s: State, e: Timed): State
    requires GoodLanes(s.live) && GoodLanes(s.back)
    requires e.event.FlushTimerFires? ==> s.flushTimer.Some?
    requires e.event.BackfillTimerFires? ==> s.backTimer.Some?
  {
    match e.event
    case Arrives(net, buf, msg, backfill) => Enqueue(s, e.now, net, buf, msg, backfill)
    case FlushTimerFires => FireFlush(s, e.now)
    case BackfillTimerFires => FireBackfill(s, e.now)
  }

  lemma FlushInv(s: State, now: int)
    requires GoodLanes(s.live) && GoodLanes(s.back) && s.hasLiveFn && s.hasBackFn && 0 <= now
    requires s.liveTotal == Size(s.live) && s.backTotal == Size(s.back)
    ensures Inv(FlushAll(s, now), now)
    ensures FlushAll(s, now).live == [] && FlushAll(s, now).back == []
  {
  }

  lemma {:induction false} WaitingAfterAdd(s: State, s': State, lanes: seq<Lane>, key: string, p: Post)
    requires Waiting(s, lanes) && s'.flushTimer.Some?
    requires s.flushTimer.Some? ==> s'.flushTimer == s.flushTimer
    requires s'.flushTimer.value.deadline <= p.at + FLUSH_INTERVAL_MS
    requires s.flushTimer.None? ==> lanes == []
    ensures Waiting(s', AddPost(lanes, key, p))
  {
    if lanes != [] {
      if lanes[0].key == key {
        var after := AddPost(lanes, key, p);
        assert after[0].posts == lanes[0].posts + [p];
        assert forall i :: 1 <= i < |after| ==> after[i] == lanes[i];
      } else {
        assert Waiting(s, lanes[1..]) by {
          assert forall i :: 0 <= i < |lanes[1..]| ==> lanes[1..][i] == lanes[i + 1];
        }
        WaitingAfterAdd(s, s', lanes[1..], key, p);
        var after := AddPost(lanes, key, p);
        assert after[0] == lanes[0];
        assert forall i :: 1 <= i < |after| ==> after[i] == AddPost(lanes[1..], key, p)[i - 1];
      }
    }
  }

  /** An arrival either flushes everything or leaves both queues waiting for a timer. */
  lemma ArrivalInv(s: State, clock: int, now: int, net: string, buf: string, msg: Message, backfill: bool)
    requires Inv(s, clock) && clock <= now && 0 < now
    ensures Inv(Enqueue(s, now, net, buf, msg, backfill), now)
  {
    var key, p := Key(net, buf), Post(msg, now);
    var s1, s' := Queued(s, key, p, backfill), Enqueue(s, now, net, buf, msg, backfill);
    AddPostGood(if backfill then s.back else s.live, key, p);
    if s' == FlushAll(s1, now) {
      FlushInv(s1, now);
    } else {
      WaitingAfterAdd(s, s', if backfill then s.back else s.live, key, p);
    }
  }

  /** A timer that fires when it is due empties both queues. */
  lemma FiringFlushes(s: State, clock: int, e: Timed)
    requires Inv(s, clock) && Enabled(s, clock, e) && !e.event.Arrives?
    ensures Next(s, e) == FlushAll(s, e.now)
    ensures Inv(Next(s, e), e.now) && Next(s, e).live == [] && Next(s, e).back == []
  {
    FlushInv(s, e.now);
  }

  /**
   A check that fires before its time changes nothing, and the handle it leaves set
   keeps any later live message from arming a new one: that timers are never early
   is all that stands between the queue and a stall.
   */
  lemma EarlyCheckDoesNothing(s: State, clock: int, now: int)
    requires Inv(s, clock) && s.flushTimer.Some? && s.flushTimer.value.action == CheckThenFlush
    ensures FireFlush(s, now) == s <==> s.lastFlush != 0 && now < s.lastFlush + FLUSH_INTERVAL_MS
  {
  }

  /** The backfill debounce never decides: whenever its timer may fire, the flush timer may too. */
  lemma DebounceNeverDecides(s: State, clock: int, e: Timed)
    requires Inv(s, clock) && e.event.BackfillTimerFires? && Enabled(s, clock, e)
    ensures Enabled(s, clock, e.(event := FlushTimerFires)) && Next(s, e) == Next(s, e.(event := FlushTimerFires))
  {
    FiringFlushes(s, clock, e);
    FiringFlushes(s, clock, e.(event := FlushTimerFires));
  }

  lemma NextInv(s: State, clock: int, e: Timed)
    requires Inv(s, clock) && Enabled(s, clock, e)
    ensures Inv(Next(s, e), e.now)
  {
    match e.event {
      case Arrives(net, buf, msg, backfill) => ArrivalInv(s, clock, e.now, net, buf, msg, backfill);
      case FlushTimerFires => FiringFlushes(s, clock, e);
      case BackfillTimerFires => FiringFlushes(s, clock, e);
    }
  }
}
