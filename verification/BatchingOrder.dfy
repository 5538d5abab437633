/**
 What the callbacks get, in every run: the messages of one buffer in one call,
 oldest first.
 */
module BatchingOrder {
  import opened Sequences
  import opened Wrappers
  import opened Batching
  import opened BatchingRuns

  /** A message without a time counts as one of time zero. */
  function TimeOf(p: Post): int {
    if p.msg.t.Some? then p.msg.t.value else 0
  }

  /**
   The order a reader wants: by time; at equal times messages with an event id first,
   by that id, the others by the order of their message ids; and what is still equal
   as it was enqueued.
   */
  predicate Precedes(p: Post, q: Post) {
    || TimeOf(p) < TimeOf(q)
    || (TimeOf(p) == TimeOf(q) && (
         match (p.msg.eid, q.msg.eid)
         case (Some(a), Some(b)) => a < b || (a == b && p.at <= q.at)
         case (Some(_), None) => true
         case (None, Some(_)) => false
         case (None, None) => p.msg.rank < q.msg.rank || (p.msg.rank == q.msg.rank && p.at <= q.at)))
  }

  /** Every pair, on positions. */
  ghost predicate Ordered(posts: seq<Post>) {
    forall i, j :: 0 <= i < j < |posts| ==> Precedes(posts[i], posts[j])
  }

  ghost predicate AsEnqueued(posts: seq<Post>) {
    forall i, j :: 0 <= i < j < |posts| ==> posts[i].at <= posts[j].at
  }

  lemma {:induction false} InsertOrdered(p: Post, posts: seq<Post>)
    requires Ordered(posts) && forall q :: q in posts ==> p.at <= q.at
    ensures Ordered(Insert(p, posts))
  {
    if posts != [] {
      var q, rest := posts[0], posts[1..];
      FirstApart(posts);
      if Compare(p.msg, q.msg) <= 0 {
        forall j | 0 <= j < |posts|
          ensures Precedes(p, posts[j])
        {
          assert Precedes(p, q);
          if j > 0 {
            assert Precedes(q, posts[j]);
          }
        }
      } else {
        InsertOrdered(p, rest);
        InsertIsMore(p, rest);
        var r := Insert(p, rest);
        forall j | 0 <= j < |r|
          ensures Precedes(q, r[j])
        {
          assert r[j] in r;
          if r[j] != p {
            var k :| 0 <= k < |rest| && rest[k] == r[j];
            assert Precedes(posts[0], posts[k + 1]);
          }
        }
      }
    }
  }

  lemma {:induction false} SortOrdered(posts: seq<Post>)
    requires AsEnqueued(posts)
    ensures Ordered(Sort(posts))
  {
    if posts != [] {
      SortOrdered(posts[1..]);
      SortSorts(posts[1..]);
      forall q | q in Sort(posts[1..])
        ensures posts[0].at <= q.at
      {
        assert q in multiset(posts[1..]);
        var k :| 0 <= k < |posts[1..]| && posts[1..][k] == q;
      }
      InsertOrdered(posts[0], Sort(posts[1..]));
    }
  }

  ghost predicate LanesAsEnqueued(lanes: seq<Lane>, clock: int) {
    forall i :: 0 <= i < |lanes| ==> AsEnqueued(lanes[i].posts) && forall p :: p in lanes[i].posts ==> p.at <= clock
  }

  ghost predicate AllOrdered(ds: seq<Delivery>) {
    forall i :: 0 <= i < |ds| ==> Ordered(ds[i].posts)
  }

  ghost predicate DistinctKeys(lanes: seq<Lane>) {
    forall i, j :: 0 <= i < j < |lanes| ==> lanes[i].key != lanes[j].key
  }

  /** What was handed over is in order, and what waits is as it was enqueued, one lane a buffer. */
  ghost predicate Orderly(s: State, clock: int) {
    && AllOrdered(s.delivered) && LanesAsEnqueued(s.live, clock) && LanesAsEnqueued(s.back, clock)
    && DistinctKeys(s.live) && DistinctKeys(s.back)
  }

  lemma {:induction false} AddDistinct(lanes: seq<Lane>, key: string, p: Post)
    requires DistinctKeys(lanes)
    ensures DistinctKeys(AddPost(lanes, key, p))
    ensures forall lane :: lane in AddPost(lanes, key, p) ==> lane.key == key || lane in lanes
  {
    if lanes != [] {
      var rest := lanes[1..];
      FirstApart(lanes);
      if lanes[0].key != key {
        AddDistinct(rest, key, p);
        var after := AddPost(rest, key, p);
        forall j | 0 <= j < |after|
          ensures after[j].key != lanes[0].key
        {
          if after[j] in rest {
            var k :| 0 <= k < |rest| && rest[k] == after[j];
            assert lanes[k + 1] == rest[k];
          }
        }
      }
    }
  }

  lemma {:induction false} AddAsEnqueued(lanes: seq<Lane>, key: string, p: Post, clock: int)
    requires LanesAsEnqueued(lanes, clock) && clock <= p.at
    ensures LanesAsEnqueued(AddPost(lanes, key, p), p.at)
  {
    if lanes != [] {
      var after, rest := AddPost(lanes, key, p), lanes[1..];
      assert forall i :: 0 <= i < |rest| ==> rest[i] == lanes[i + 1];
      if lanes[0].key == key {
        assert after[0].posts == lanes[0].posts + [p];
        assert forall q :: q in lanes[0].posts + [p] ==> q in lanes[0].posts || q == p;
        assert forall i :: 0 <= i < |lanes[0].posts| ==> lanes[0].posts[i] in lanes[0].posts;
        assert forall i :: 1 <= i < |after| ==> after[i] == lanes[i];
      } else {
        AddAsEnqueued(rest, key, p, clock);
        assert forall i :: 1 <= i < |after| ==> after[i] == AddPost(rest, key, p)[i - 1];
      }
    }
  }

  lemma {:induction false} CallsOrdered(kind: Kind, lanes: seq<Lane>, now: int, clock: int)
    requires GoodLanes(lanes) && LanesAsEnqueued(lanes, clock)
    ensures AllOrdered(Calls(kind, lanes, now))
  {
    if lanes != [] {
      assert forall i :: 0 <= i < |lanes[1..]| ==> lanes[1..][i] == lanes[i + 1];
      CallsOrdered(kind, lanes[1..], now, clock);
      SortOrdered(lanes[0].posts);
    }
  }

  /** A call with all posts of a lane and nothing else, under the two halves of its key. */
  ghost predicate Carries(d: Delivery, kind: Kind, lane: Lane, now: int) {
    && d.kind == kind && d.time == now
    && d.net + ":" + d.buf == lane.key && ':' !in d.net
    && multiset(d.posts) == multiset(lane.posts)
  }

  /** One call for every lane, in their order. */
  ghost predicate HandsOver(ds: seq<Delivery>, kind: Kind, lanes: seq<Lane>, now: int) {
    |ds| == |lanes| && forall k :: 0 <= k < |ds| ==> Carries(ds[k], kind, lanes[k], now)
  }

  lemma SplitJoins(key: string)
    requires ':' in key
    ensures Split(key).0 + ":" + Split(key).1 == key && ':' !in Split(key).0
  {
    var k := Colon(key);
    assert key[..k] + [key[k]] + key[k + 1..] == key;
  }

  lemma CallCarries(kind: Kind, lane: Lane, now: int)
    requires ':' in lane.key
    ensures Carries(Delivery(kind, Split(lane.key).0, Split(lane.key).1, Sort(lane.posts), now), kind, lane, now)
  {
    SortSorts(lane.posts);
    SplitJoins(lane.key);
  }

  lemma OneMoreCall(d: Delivery, ds: seq<Delivery>, kind: Kind, lanes: seq<Lane>, now: int)
    requires lanes != [] && Carries(d, kind, lanes[0], now) && HandsOver(ds, kind, lanes[1..], now)
    ensures HandsOver([d] + ds, kind, lanes, now)
  {
  }

  lemma {:induction false} CallsHandOver(kind: Kind, lanes: seq<Lane>, now: int)
    requires GoodLanes(lanes)
    ensures HandsOver(Calls(kind, lanes, now), kind, lanes, now)
  {
    if lanes != [] {
      CallsHandOver(kind, lanes[1..], now);
      var (net, buf) := Split(lanes[0].key);
      CallCarries(kind, lanes[0], now);
      OneMoreCall(Delivery(kind, net, buf, Sort(lanes[0].posts), now), Calls(kind, lanes[1..], now), kind, lanes, now);
    }
  }

  /**
   A due timer makes one call for every buffer that waits, live ones first, each in
   the order the buffers came, and leaves nothing queued.
   */
  lemma FiringHandsOver(s: State, clock: int, e: Timed)
    requires Inv(s, clock) && Enabled(s, clock, e) && !e.event.Arrives?
    ensures exists live, back ::
              && Next(s, e).delivered == s.delivered + live + back
              && HandsOver(live, Live, s.live, e.now) && HandsOver(back, Backfill, s.back, e.now)
    ensures Next(s, e).live == [] && Next(s, e).back == []
  {
    FiringFlushes(s, clock, e);
    CallsHandOver(Live, s.live, e.now);
    CallsHandOver(Backfill, s.back, e.now);
    assert Next(s, e).delivered == s.delivered + Calls(Live, s.live, e.now) + Calls(Backfill, s.back, e.now);
  }

  /** All posts of one lane, or none. */
  function PostsUnder(lanes: seq<Lane>, key: string): seq<Post> {
    if lanes == [] then [] else if lanes[0].key == key then lanes[0].posts else PostsUnder(lanes[1..], key)
  }

  /** `after` holds one post more at the end of one lane; new lanes come last. */
  ghost predicate OnePostMore(after: seq<Lane>, before: seq<Lane>, key: string, p: Post) {
    && (forall k :: PostsUnder(after, k) == PostsUnder(before, k) + if k == key then [p] else [])
    && |after| >= |before| && forall i :: 0 <= i < |before| ==> after[i].key == before[i].key
  }

  lemma {:induction false} AddIsOneMore(lanes: seq<Lane>, key: string, p: Post)
    ensures OnePostMore(AddPost(lanes, key, p), lanes, key, p)
  {
    if lanes != [] && lanes[0].key != key {
      AddIsOneMore(lanes[1..], key, p);
    }
    forall k
      ensures PostsUnder(AddPost(lanes, key, p), k) == PostsUnder(lanes, k) + if k == key then [p] else []
    {
    }
  }

  /** Does an arrival flush: is its queue full, or, for a live message, is the interval over? */
  predicate FlushesOnArrival(s: State, now: int, backfill: bool) {
    if backfill then s.backTotal + 1 >= 400
    else s.liveTotal + 1 >= 200 || s.lastFlush == 0 || now - s.lastFlush >= 200
  }

  /**
   An arrival hands everything over if its queue is full or, for a live message, 200 ms
   have passed since the last flush. Otherwise nothing is handed over, the message joins
   the others of its buffer, and a timer that is armed already stays as it is.
   */
  lemma ArrivalWaits(s: State, clock: int, now: int, net: string, buf: string, msg: Message, backfill: bool)
    requires Inv(s, clock) && clock <= now && 0 < now
    ensures var s' := Enqueue(s, now, net, buf, msg, backfill);
            var key, post := net + ":" + buf, Post(msg, now);
            if FlushesOnArrival(s, now, backfill) then s'.live == [] && s'.back == [] && s'.lastFlush == now
            else
              && s'.delivered == s.delivered && s'.lastFlush == s.lastFlush
              && (if backfill then s'.live == s.live && OnePostMore(s'.back, s.back, key, post)
                  else s'.back == s.back && OnePostMore(s'.live, s.live, key, post))
              && (s.flushTimer.Some? ==> s'.flushTimer == s.flushTimer)
              && (s.flushTimer.None? ==> s'.flushTimer == Some(
                    if backfill then Timer(now, FlushNow) else Timer(now + 200, CheckThenFlush)))
              && s'.backTimer == if backfill then Some(now + 200) else s.backTimer
  {
    AddIsOneMore(if backfill then s.back else s.live, Key(net, buf), Post(msg, now));
  }

  lemma FlushOrderly(s: State, clock: int, now: int)
    requires GoodLanes(s.live) && GoodLanes(s.back) && Orderly(s, clock)
    ensures Orderly(FlushAll(s, now), now)
  {
    CallsOrdered(Live, s.live, now, clock);
    CallsOrdered(Backfill, s.back, now, clock);
  }

  lemma NextOrderly(s: State, clock: int, e: Timed)
    requires Inv(s, clock) && Orderly(s, clock) && Enabled(s, clock, e)
    ensures Orderly(Next(s, e), e.now)
  {
    if e.event.Arrives? {
      var Arrives(net, buf, msg, backfill) := e.event;
      var p := Post(msg, e.now);
      var s1 := Queued(s, Key(net, buf), p, backfill);
      AddAsEnqueued(if backfill then s.back else s.live, Key(net, buf), p, clock);
      AddDistinct(if backfill then s.back else s.live, Key(net, buf), p);
      ScheduledFlushesOrWaits(s1, e.now, backfill);
      FlushOrderly(s1, e.now, e.now);
    } else {
      FiringFlushes(s, clock, e);
      FlushOrderly(s, clock, e.now);
    }
  }

  lemma ExecStep(s: State, clock: int, es: seq<Timed>)
    requires Inv(s, clock) && Possible(s, clock, es) && es != []
    ensures Inv(Next(s, es[0]), es[0].now) && Possible(Next(s, es[0]), es[0].now, es[1..])
    ensures Exec(s, clock, es) == Exec(Next(s, es[0]), es[0].now, es[1..])
    ensures EndOf(clock, es) == EndOf(es[0].now, es[1..])
  {
    NextInv(s, clock, es[0]);
  }

  /** In every run every callback gets its messages in the order a reader wants, and no buffer waits twice. */
  lemma {:induction false} RunOrderly(s: State, clock: int, es: seq<Timed>)
    requires Inv(s, clock) && Possible(s, clock, es) && Orderly(s, clock)
    ensures Orderly(Exec(s, clock, es), EndOf(clock, es))
    decreases |es|
  {
    if es != [] {
      var s1, now, rest := Next(s, es[0]), es[0].now, es[1..];
      NextInv(s, clock, es[0]);
      NextOrderly(s, clock, es[0]);
      RunOrderly(s1, now, rest);
      ExecStep(s, clock, es);
    }
  }
}
