/** The batcher as the source keeps it: module variables updated by every call. */
module MessageBatcher {
  import opened Wrappers
  import opened Batching

  class Batcher {
    var queue: seq<Lane>
    var backfillQueue: seq<Lane>
    var totalQueued: nat
    var totalBackfillQueued: nat
    var lastFlush: int
    var flushTimeout: Option<Timer>
    var backfillTimeout: Option<int>
    var flushFn: bool
    var backfillFlushFn: bool
    ghost var calls: seq<Delivery>

    ghost function View(): State
      reads this
    {
      State(queue, backfillQueue, totalQueued, totalBackfillQueued, lastFlush, flushTimeout, backfillTimeout,
            flushFn, backfillFlushFn, calls)
    }

    ghost predicate Valid()
      reads this
    {
      GoodLanes(queue) && GoodLanes(backfillQueue)
    }

    /** Module start with both callbacks set. */
    constructor ()
      ensures Valid() && View() == IDLE
    {
      queue, backfillQueue := [], [];
      totalQueued, totalBackfillQueued, lastFlush := 0, 0, 0;
      flushTimeout, backfillTimeout := None, None;
      flushFn, backfillFlushFn := true, true;
      calls := [];
    }

    /** Hands every lane of a snapshot to its callback. */
    method Deliver(kind: Kind, snapshot: seq<Lane>, now: int)
      requires GoodLanes(snapshot)
      modifies `calls
      ensures calls == old(calls) + Calls(kind, snapshot, now)
    {
      assert snapshot[0..] == snapshot;
      for i := 0 to |snapshot|
        invariant calls + Calls(kind, snapshot[i..], now) == old(calls) + Calls(kind, snapshot, now)
      {
        var lane := snapshot[i];
        assert snapshot[i..][1..] == snapshot[i + 1..];
        var (networkId, bufferName) := Split(lane.key);
        var msgs := Sort(lane.posts);
        ghost var call := Delivery(kind, networkId, bufferName, msgs, now);
        ghost var more := Calls(kind, snapshot[i + 1..], now);
        assert calls + ([call] + more) == calls + [call] + more;
        calls := calls + [call];
      }
    }

    /** A queue without a callback is thrown away. */
    method FlushLive(now: int)
      requires GoodLanes(queue)
      modifies `queue, `totalQueued, `calls
      ensures queue == [] && totalQueued == if old(queue) == [] then old(totalQueued) else 0
      ensures calls == old(calls) + if flushFn then Calls(Live, old(queue), now) else []
    {
      var snapshot := queue;
      if |queue| > 0 {
        queue, totalQueued := [], 0;
        if flushFn {
          Deliver(Live, snapshot, now);
        }
      }
    }

    method FlushBackfill(now: int)
      requires GoodLanes(backfillQueue)
      modifies `backfillQueue, `totalBackfillQueued, `calls
      ensures backfillQueue == []
      ensures totalBackfillQueued == if old(backfillQueue) == [] then old(totalBackfillQueued) else 0
      ensures calls == old(calls) + if backfillFlushFn then Calls(Backfill, old(backfillQueue), now) else []
    {
      var snapshot := backfillQueue;
      if |backfillQueue| > 0 {
        backfillQueue, totalBackfillQueued := [], 0;
        if backfillFlushFn {
          Deliver(Backfill, snapshot, now);
        }
      }
    }

    method FlushAllNow(now: int)
      requires Valid()
      modifies this
      ensures Valid() && View() == FlushAll(old(View()), now)
    {
      lastFlush := now;
      flushTimeout := None;
      backfillTimeout := None;
      FlushLive(now);
      FlushBackfill(now);
    }

    method CheckFlushNow(now: int)
      requires Valid()
      modifies this
      ensures Valid() && View() == CheckFlush(old(View()), now)
    {
      if lastFlush == 0 || now - lastFlush >= FLUSH_INTERVAL_MS {
        FlushAllNow(now);
      } else if flushTimeout == None {
        flushTimeout := Some(Timer(now + FLUSH_INTERVAL_MS, CheckThenFlush));
      }
    }

    method EnqueueMessage(now: int, networkId: string, bufferName: string, msg: Message, isBackfill: bool)
      requires Valid()
      modifies this
      ensures Valid() && View() == Enqueue(old(View()), now, networkId, bufferName, msg, isBackfill)
    {
      var key, post := Key(networkId, bufferName), Post(msg, now);
      if isBackfill {
        AddPostGood(backfillQueue, key, post);
        backfillQueue := Push(backfillQueue, key, post);
        totalBackfillQueued := totalBackfillQueued + 1;
        if totalBackfillQueued >= MAX_BACKFILL_SIZE {
          FlushAllNow(now);
          return;
        }
        backfillTimeout := Some(now + BACKFILL_DEBOUNCE_MS);
        if flushTimeout == None {
          flushTimeout := Some(Timer(now, FlushNow));
        }
        return;
      }
      AddPostGood(queue, key, post);
      queue := Push(queue, key, post);
      totalQueued := totalQueued + 1;
      if totalQueued >= MAX_BUFFER_SIZE {
        FlushAllNow(now);
        return;
      }
      CheckFlushNow(now);
    }

    /** The list under `key`, made if it is missing, gets one more post. */
    static method Push(lanes: seq<Lane>, key: string, post: Post) returns (r: seq<Lane>)
      ensures r == AddPost(lanes, key, post)
    {
      var i := 0;
      while i < |lanes| && lanes[i].key != key
        invariant i <= |lanes| && forall j :: 0 <= j < i ==> lanes[j].key != key
      {
        i := i + 1;
      }
      AddPostAt(lanes, i, key, post);
      if i == |lanes| {
        r := lanes + [Lane(key, [post])];
      } else {
        r := lanes[i := Lane(key, lanes[i].posts + [post])];
      }
    }

    static lemma {:induction false} AddPostAt(lanes: seq<Lane>, i: nat, key: string, post: Post)
      requires i <= |lanes| && forall j :: 0 <= j < i ==> lanes[j].key != key
      requires i < |lanes| ==> lanes[i].key == key
      ensures AddPost(lanes, key, post) ==
        if i == |lanes| then lanes + [Lane(key, [post])] else lanes[i := Lane(key, lanes[i].posts + [post])]
    {
      if i > 0 {
        AddPostAt(lanes[1..], i - 1, key, post);
      }
    }

    /** The callback of the flush timer. */
    method OnFlushTimer(now: int)
      requires Valid() && flushTimeout.Some?
      modifies this
      ensures Valid() && View() == FireFlush(old(View()), now)
    {
      match flushTimeout.value.action {
        case FlushNow => FlushAllNow(now);
        case CheckThenFlush => CheckFlushNow(now);
      }
    }

    /** The callback of the backfill timer. */
    method OnBackfillTimer(now: int)
      requires Valid() && backfillTimeout.Some?
      modifies this
      ensures Valid() && View() == FireBackfill(old(View()), now)
    {
      FlushAllNow(now);
    }
  }
}
