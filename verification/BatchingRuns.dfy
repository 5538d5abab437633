/** The batcher over whole runs: nothing is lost, doubled or misdirected, and nothing is late. */
module BatchingRuns {
  import opened Wrappers
  import opened Batching

  /** `es` can happen one after the other, starting from state `s` at time `clock`. */
  ghost predicate Possible(s: State, clock: int, es: seq<Timed>)
    requires Inv(s, clock)
    decreases |es|
  {
    es != [] ==>
      Enabled(s, clock, es[0]) &&
      (NextInv(s, clock, es[0]);
       Possible(Next(s, es[0]), es[0].now, es[1..]))
  }

  /** The state after the run. */
  ghost function Exec(s: State, clock: int, es: seq<Timed>): (r: State)
    requires Inv(s, clock) && Possible(s, clock, es)
    ensures Inv(r, if es == [] then clock else es[|es| - 1].now)
    decreases |es|
  {
    if es == [] then s
    else
      NextInv(s, clock, es[0]);
      Exec(Next(s, es[0]), es[0].now, es[1..])
  }

  // ---------------------------------------------------------------- conservation

  /** A post together with where it belongs. */
  datatype Parcel = Parcel(kind: Kind, net: string, buf: string, post: Post)

  function Bag(kind: Kind, net: string, buf: string, posts: seq<Post>): multiset<Parcel> {
    if posts == [] then multiset{}
    else multiset{Parcel(kind, net, buf, posts[0])} + Bag(kind, net, buf, posts[1..])
  }

  /** What is queued, each post addressed by its key. */
  function Held(kind: Kind, lanes: seq<Lane>): multiset<Parcel>
    requires GoodLanes(lanes)
  {
    if lanes == [] then multiset{}
    else
      var (net, buf) := Split(lanes[0].key);
      Bag(kind, net, buf, lanes[0].posts) + Held(kind, lanes[1..])
  }

  /** What the callbacks were given. */
  function Given(ds: seq<Delivery>): multiset<Parcel> {
    if ds == [] then multiset{} else Bag(ds[0].kind, ds[0].net, ds[0].buf, ds[0].posts) + Given(ds[1..])
  }

  function Arrival(e: Timed): multiset<Parcel> {
    match e.event
    case Arrives(net, buf, msg, backfill) =>
      multiset{Parcel(if backfill then Backfill else Live, net, buf, Post(msg, e.now))}
    case _ => multiset{}
  }

  /** What was enqueued during the run. */
  function Arrivals(es: seq<Timed>): multiset<Parcel> {
    if es == [] then multiset{} else Arrival(es[0]) + Arrivals(es[1..])
  }

  function Everything(s: State): multiset<Parcel>
    requires GoodLanes(s.live) && GoodLanes(s.back)
  {
    Given(s.delivered) + Held(Live, s.live) + Held(Backfill, s.back)
  }

  lemma {:induction false} BagAppend(kind: Kind, net: string, buf: string, posts: seq<Post>, p: Post)
    ensures Bag(kind, net, buf, posts + [p]) == Bag(kind, net, buf, posts) + multiset{Parcel(kind, net, buf, p)}
  {
    if posts != [] {
      BagAppend(kind, net, buf, posts[1..], p);
      assert (posts + [p])[1..] == posts[1..] + [p];
    }
  }

  lemma {:induction false} BagInsert(kind: Kind, net: string, buf: string, p: Post, posts: seq<Post>)
    ensures Bag(kind, net, buf, Insert(p, posts)) == Bag(kind, net, buf, posts) + multiset{Parcel(kind, net, buf, p)}
  {
    if posts != [] && Compare(p.msg, posts[0].msg) > 0 {
      BagInsert(kind, net, buf, p, posts[1..]);
      assert Insert(p, posts)[1..] == Insert(p, posts[1..]);
    } else {
      assert Insert(p, posts)[1..] == posts;
    }
  }

  lemma {:induction false} BagSort(kind: Kind, net: string, buf: string, posts: seq<Post>)
    ensures Bag(kind, net, buf, Sort(posts)) == Bag(kind, net, buf, posts)
  {
    if posts != [] {
      BagSort(kind, net, buf, posts[1..]);
      BagInsert(kind, net, buf, posts[0], Sort(posts[1..]));
    }
  }

  lemma {:induction false} GivenAppend(a: seq<Delivery>, b: seq<Delivery>)
    ensures Given(a + b) == Given(a) + Given(b)
  {
    if a == [] {
      assert a + b == b;
    } else {
      var rest := a[1..] + b;
      assert (a + b)[0] == a[0] && (a + b)[1..] == rest;
      GivenAppend(a[1..], b);
    }
  }

  /** The calls made for a queue hand over exactly what it held. */
  lemma {:induction false} CallsGiveHeld(kind: Kind, lanes: seq<Lane>, now: int)
    requires GoodLanes(lanes)
    ensures Given(Calls(kind, lanes, now)) == Held(kind, lanes)
  {
    if lanes != [] {
      var (net, buf) := Split(lanes[0].key);
      var rest := Calls(kind, lanes[1..], now);
      CallsGiveHeld(kind, lanes[1..], now);
      BagSort(kind, net, buf, lanes[0].posts);
      assert Calls(kind, lanes, now)[1..] == rest;
    }
  }

  lemma FlushConserves(s: State, now: int)
    requires GoodLanes(s.live) && GoodLanes(s.back) && s.hasLiveFn && s.hasBackFn
    ensures Everything(FlushAll(s, now)) == Everything(s)
  {
    CallsGiveHeld(Live, s.live, now);
    CallsGiveHeld(Backfill, s.back, now);
    GivenAppend(s.delivered, Calls(Live, s.live, now));
    GivenAppend(s.delivered + Calls(Live, s.live, now), Calls(Backfill, s.back, now));
  }

  lemma HeldStep(kind: Kind, lane: Lane, rest: seq<Lane>, net: string, buf: string)
    requires GoodLanes([lane] + rest) && ':' in lane.key && Split(lane.key) == (net, buf)
    ensures GoodLanes(rest) && Held(kind, [lane] + rest) == Bag(kind, net, buf, lane.posts) + Held(kind, rest)
  {
    assert ([lane] + rest)[1..] == rest;
    assert forall i :: 0 <= i < |rest| ==> rest[i] == ([lane] + rest)[i + 1];
  }

  lemma {:induction false} AddConserves(kind: Kind, lanes: seq<Lane>, net: string, buf: string, p: Post)
    requires GoodLanes(lanes) && ':' !in net
    ensures GoodLanes(AddPost(lanes, Key(net, buf), p))
    ensures Held(kind, AddPost(lanes, Key(net, buf), p)) == Held(kind, lanes) + multiset{Parcel(kind, net, buf, p)}
  {
    var key := Key(net, buf);
    AddPostGood(lanes, key, p);
    SplitInvertsKey(net, buf);
    if lanes == [] {
      BagAppend(kind, net, buf, [], p);
      assert [] + [p] == [p];
      HeldStep(kind, Lane(key, [p]), [], net, buf);
      assert [Lane(key, [p])] + [] == [Lane(key, [p])];
    } else {
      var first, rest := lanes[0], lanes[1..];
      var split := Split(first.key);
      assert lanes == [first] + rest;
      HeldStep(kind, first, rest, split.0, split.1);
      if first.key == key {
        BagAppend(kind, net, buf, first.posts, p);
        HeldStep(kind, Lane(key, first.posts + [p]), rest, net, buf);
      } else {
        AddConserves(kind, rest, net, buf, p);
        HeldStep(kind, first, AddPost(rest, key, p), split.0, split.1);
      }
    }
  }

  ghost predicate NoColon(e: Timed) {
    e.event.Arrives? ==> ':' !in e.event.net
  }

  lemma QueuedConserves(s: State, net: string, buf: string, p: Post, backfill: bool)
    requires GoodLanes(s.live) && GoodLanes(s.back) && ':' !in net
    ensures Everything(Queued(s, Key(net, buf), p, backfill))
         == Everything(s) + multiset{Parcel(if backfill then Backfill else Live, net, buf, p)}
  {
    if backfill {
      AddConserves(Backfill, s.back, net, buf, p);
    } else {
      AddConserves(Live, s.live, net, buf, p);
    }
  }

  /** Scheduling flushes or touches the timers only. */
  lemma ScheduledFlushesOrWaits(s: State, now: int, backfill: bool)
    requires GoodLanes(s.live) && GoodLanes(s.back)
    ensures var s' := Scheduled(s, now, backfill);
            s' == FlushAll(s, now) || (s'.live == s.live && s'.back == s.back && s'.delivered == s.delivered)
  {
  }

  lemma ScheduledConserves(s: State, now: int, backfill: bool)
    requires GoodLanes(s.live) && GoodLanes(s.back) && s.hasLiveFn && s.hasBackFn
    ensures var s' := Scheduled(s, now, backfill);
            GoodLanes(s'.live) && GoodLanes(s'.back) && Everything(s') == Everything(s)
  {
    ScheduledFlushesOrWaits(s, now, backfill);
    if Scheduled(s, now, backfill) == FlushAll(s, now) {
      FlushConserves(s, now);
    }
  }

  lemma NextConserves(s: State, clock: int, e: Timed)
    requires Inv(s, clock) && Enabled(s, clock, e) && NoColon(e)
    ensures GoodLanes(Next(s, e).live) && GoodLanes(Next(s, e).back)
    ensures Everything(Next(s, e)) == Everything(s) + Arrival(e)
  {
    if e.event.Arrives? {
      var Arrives(net, buf, msg, backfill) := e.event;
      QueuedConserves(s, net, buf, Post(msg, e.now), backfill);
      ScheduledConserves(Queued(s, Key(net, buf), Post(msg, e.now), backfill), e.now, backfill);
    } else {
      FiringFlushes(s, clock, e);
      FlushConserves(s, e.now);
    }
  }

  lemma BagAssoc(x: multiset<Parcel>, y: multiset<Parcel>, z: multiset<Parcel>)
    ensures (x + y) + z == x + (y + z)
  {
  }

  /**
   Exactly once: at every moment of every run, what the callbacks got plus what is
   queued is what was enqueued, each message under its own network, buffer and kind.
   */
  lemma {:induction false} RunConserves(s: State, clock: int, es: seq<Timed>)
    requires Inv(s, clock) && Possible(s, clock, es)
    requires forall i :: 0 <= i < |es| ==> NoColon(es[i])
    ensures Everything(Exec(s, clock, es)) == Everything(s) + Arrivals(es)
    decreases |es|
  {
    if es != [] {
      NextInv(s, clock, es[0]);
      var s1, rest := Next(s, es[0]), es[1..];
      assert forall i :: 0 <= i < |rest| ==> rest[i] == es[i + 1];
      RunConserves(s1, es[0].now, rest);
      NextConserves(s, clock, es[0]);
      BagAssoc(Everything(s), Arrival(es[0]), Arrivals(rest));
    }
  }

  // ---------------------------------------------------------------- time

  /** No armed timer is overdue when the event happens. */
  ghost predicate Punctual(s: State, e: Timed) {
    && (s.flushTimer.Some? ==> e.now <= s.flushTimer.value.deadline)
    && (s.backTimer.Some? ==> e.now <= s.backTimer.value)
  }

  ghost predicate PunctualRun(s: State, clock: int, es: seq<Timed>)
    requires Inv(s, clock) && Possible(s, clock, es)
    decreases |es|
  {
    es != [] ==>
      Punctual(s, es[0]) &&
      (NextInv(s, clock, es[0]);
       PunctualRun(Next(s, es[0]), es[0].now, es[1..]))
  }

  /** A post given to a callback at `time` waited 200 ms at most. */
  ghost predicate Prompt(posts: seq<Post>, time: int) {
    forall p :: p in posts ==> p.at <= time <= p.at + FLUSH_INTERVAL_MS
  }

  ghost predicate AllPrompt(ds: seq<Delivery>) {
    forall i :: 0 <= i < |ds| ==> Prompt(ds[i].posts, ds[i].time)
  }

  /** Everything queued could be delivered promptly at `time`. */
  ghost predicate CanBePrompt(lanes: seq<Lane>, time: int) {
    forall i :: 0 <= i < |lanes| ==> Prompt(lanes[i].posts, time)
  }

  ghost predicate NotFromTheFuture(lanes: seq<Lane>, clock: int) {
    forall i :: 0 <= i < |lanes| ==> forall p :: p in lanes[i].posts ==> p.at <= clock
  }

  lemma WaitingIsPrompt(s: State, clock: int, lanes: seq<Lane>, now: int)
    requires Waiting(s, lanes) && NotFromTheFuture(lanes, clock) && clock <= now
    requires s.flushTimer.Some? ==> now <= s.flushTimer.value.deadline
    ensures CanBePrompt(lanes, now)
  {
    forall i, p | 0 <= i < |lanes| && p in lanes[i].posts
      ensures p.at <= now <= p.at + FLUSH_INTERVAL_MS
    {
      var j :| 0 <= j < |lanes[i].posts| && lanes[i].posts[j] == p;
    }
  }

  lemma {:induction false} AddIsPrompt(lanes: seq<Lane>, key: string, p: Post, time: int)
    requires CanBePrompt(lanes, time) && p.at <= time <= p.at + FLUSH_INTERVAL_MS
    ensures CanBePrompt(AddPost(lanes, key, p), time)
  {
    if lanes != [] {
      var after := AddPost(lanes, key, p);
      if lanes[0].key == key {
        assert forall i :: 1 <= i < |after| ==> after[i] == lanes[i];
      } else {
        assert forall i :: 0 <= i < |lanes[1..]| ==> lanes[1..][i] == lanes[i + 1];
        AddIsPrompt(lanes[1..], key, p, time);
        assert forall i :: 1 <= i < |after| ==> after[i] == AddPost(lanes[1..], key, p)[i - 1];
      }
    }
  }

  lemma {:induction false} AddNotFromTheFuture(lanes: seq<Lane>, key: string, p: Post, clock: int)
    requires NotFromTheFuture(lanes, clock) && clock <= p.at
    ensures NotFromTheFuture(AddPost(lanes, key, p), p.at)
  {
    if lanes != [] {
      var after := AddPost(lanes, key, p);
      if lanes[0].key == key {
        assert forall i :: 1 <= i < |after| ==> after[i] == lanes[i];
      } else {
        assert forall i :: 0 <= i < |lanes[1..]| ==> lanes[1..][i] == lanes[i + 1];
        AddNotFromTheFuture(lanes[1..], key, p, clock);
        assert forall i :: 1 <= i < |after| ==> after[i] == AddPost(lanes[1..], key, p)[i - 1];
      }
    }
  }

  lemma {:induction false} CallsArePrompt(kind: Kind, lanes: seq<Lane>, now: int)
    requires GoodLanes(lanes) && CanBePrompt(lanes, now)
    ensures AllPrompt(Calls(kind, lanes, now))
  {
    if lanes != [] {
      assert forall i :: 0 <= i < |lanes[1..]| ==> lanes[1..][i] == lanes[i + 1];
      CallsArePrompt(kind, lanes[1..], now);
      SortSorts(lanes[0].posts);
      assert forall p :: p in Sort(lanes[0].posts) ==> p in multiset(lanes[0].posts);
    }
  }

  lemma FlushIsPrompt(s: State, now: int)
    requires GoodLanes(s.live) && GoodLanes(s.back)
    requires AllPrompt(s.delivered) && CanBePrompt(s.live, now) && CanBePrompt(s.back, now)
    ensures AllPrompt(FlushAll(s, now).delivered)
  {
    CallsArePrompt(Live, s.live, now);
    CallsArePrompt(Backfill, s.back, now);
  }

  /** No message was or is kept waiting for more than 200 ms. */
  ghost predicate OnTime(s: State, clock: int) {
    && AllPrompt(s.delivered)
    && NotFromTheFuture(s.live, clock) && NotFromTheFuture(s.back, clock)
    && CanBePrompt(s.live, clock) && CanBePrompt(s.back, clock)
  }

  lemma QueuedOnTime(s: State, clock: int, key: string, p: Post, backfill: bool)
    requires GoodLanes(s.live) && GoodLanes(s.back) && ':' in key && OnTime(s, clock) && clock <= p.at
    requires CanBePrompt(s.live, p.at) && CanBePrompt(s.back, p.at)
    ensures var s1 := Queued(s, key, p, backfill);
            OnTime(s1, p.at) && CanBePrompt(s1.live, p.at) && CanBePrompt(s1.back, p.at)
  {
    var lanes := if backfill then s.back else s.live;
    AddIsPrompt(lanes, key, p, p.at);
    AddNotFromTheFuture(lanes, key, p, clock);
  }

  lemma NextOnTime(s: State, clock: int, e: Timed)
    requires Inv(s, clock) && OnTime(s, clock) && Enabled(s, clock, e) && Punctual(s, e)
    ensures OnTime(Next(s, e), e.now)
  {
    WaitingIsPrompt(s, clock, s.live, e.now);
    WaitingIsPrompt(s, clock, s.back, e.now);
    if e.event.Arrives? {
      var Arrives(net, buf, msg, backfill) := e.event;
      var s1 := Queued(s, Key(net, buf), Post(msg, e.now), backfill);
      QueuedOnTime(s, clock, Key(net, buf), Post(msg, e.now), backfill);
      ScheduledFlushesOrWaits(s1, e.now, backfill);
      FlushIsPrompt(s1, e.now);
    } else {
      FiringFlushes(s, clock, e);
      FlushIsPrompt(s, e.now);
    }
  }

  function EndOf(clock: int, es: seq<Timed>): int {
    if es == [] then clock else es[|es| - 1].now
  }

  /** Until the armed timer fires, nothing that is queued has waited too long. */
  ghost predicate StaysPrompt(s: State, clock: int) {
    forall t :: clock <= t && (s.flushTimer.Some? ==> t <= s.flushTimer.value.deadline) ==>
      CanBePrompt(s.live, t) && CanBePrompt(s.back, t)
  }

  lemma WaitingStaysPrompt(s: State, clock: int)
    requires Inv(s, clock) && OnTime(s, clock)
    ensures StaysPrompt(s, clock)
  {
    forall t | clock <= t && (s.flushTimer.Some? ==> t <= s.flushTimer.value.deadline)
      ensures CanBePrompt(s.live, t) && CanBePrompt(s.back, t)
    {
      WaitingIsPrompt(s, clock, s.live, t);
      WaitingIsPrompt(s, clock, s.back, t);
    }
  }

  /**
   In every run whose timers fire on time, every callback gets its messages within 200 ms,
   and none that is still queued has waited longer or will have when the armed timer fires.
   */
  lemma {:induction false} RunOnTime(s: State, clock: int, es: seq<Timed>)
    requires Inv(s, clock) && Possible(s, clock, es) && PunctualRun(s, clock, es) && OnTime(s, clock)
    ensures OnTime(Exec(s, clock, es), EndOf(clock, es)) && StaysPrompt(Exec(s, clock, es), EndOf(clock, es))
    decreases |es|
  {
    if es != [] {
      NextInv(s, clock, es[0]);
      NextOnTime(s, clock, es[0]);
      RunOnTime(Next(s, es[0]), es[0].now, es[1..]);
      assert EndOf(es[0].now, es[1..]) == EndOf(clock, es);
    } else {
      WaitingStaysPrompt(s, clock);
    }
  }
}
