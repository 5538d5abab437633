/**
 Which rows the first pass drops, said of the rows it has kept so far and of nothing
 else: a row is a repeat if the last kept row like it is less than a minute older and
 no change of the connection lies between them.
 */
module ServerLogRepeats {
  import opened Sequences
  import opened Wrappers
  import opened ServerLog
  import opened ServerLogDedup

  predicate IsLifecycle(m: Message) { m.IsConnect() || m.IsDisconnect() }

  /** A phase row, by its tag; a connect or disconnect command goes first. */
  predicate IsPhase(m: Message) { m.phase != NoPhase && !IsLifecycle(m) }

  /** The row ends an attempt: a disconnect, or a welcome, an error or a failed try. */
  predicate EndsIt(m: Message) {
    m.IsDisconnect() || (IsPhase(m) && (m.phase == Welcome || m.phase == Error || m.phase == TryFail))
  }

  predicate StartsIt(m: Message) {
    IsPhase(m) && (m.phase == Queued || m.phase == Resolving || m.phase == Connecting)
  }

  /** The kept rows end in an attempt that is over and not followed by another one yet. */
  predicate Over(kept: seq<Message>) {
    kept != [] && (EndsIt(kept[|kept| - 1]) || (!StartsIt(kept[|kept| - 1]) && Over(kept[..|kept| - 1])))
  }

  /** The first start row behind an attempt that is over. */
  predicate Restarts(kept: seq<Message>, m: Message) {
    StartsIt(m) && Over(kept)
  }

  /** The time of the last kept phase row with this key since the connection was last restarted. */
  function LastPhase(kept: seq<Message>, key: Key): Option<int> {
    if kept == [] then None
    else
      var init, m := kept[..|kept| - 1], kept[|kept| - 1];
      if IsPhase(m) && KeyOf(m) == key then Some(m.Time())
      else if Restarts(init, m) then None
      else LastPhase(init, key)
  }

  /** A kept row after which this lifecycle command is news again. */
  predicate Forgets(m: Message, command: Command) {
    if command == Connect || command == Connected then m.IsDisconnect()
    else m.IsConnect() || (IsPhase(m) && EndsIt(m))
  }

  /** The time of the last kept row with this command, unless something made it news again. */
  function LastLifecycle(kept: seq<Message>, command: Command): Option<int> {
    if kept == [] then None
    else
      var m := kept[|kept| - 1];
      if m.command == command then Some(m.Time())
      else if Forgets(m, command) then None
      else LastLifecycle(kept[..|kept| - 1], command)
  }

  predicate Recent(last: Option<int>, now: int) {
    last.Some? && now - last.value < 60000
  }

  /** Is `m` a repeat of what was kept? */
  predicate IsRepeat(kept: seq<Message>, m: Message) {
    if IsLifecycle(m) then Recent(LastLifecycle(kept, m.command), m.Time())
    else IsPhase(m) && !Restarts(kept, m) && Recent(LastPhase(kept, KeyOf(m)), m.Time())
  }

  // ---------------------------------------------------------------- the tables say the same

  function Look<K>(table: map<K, int>, k: K): Option<int> {
    if k in table then Some(table[k]) else None
  }

  predicate IsLifecycleCommand(c: Command) {
    c == Connect || c == Connected || c == Disconnect || c == Disconnected
  }

  ghost predicate Remembers(seen: Seen, kept: seq<Message>) {
    && seen.ended == Over(kept)
    && (forall key :: Look(seen.phases, key) == LastPhase(kept, key))
    && (forall c :: IsLifecycleCommand(c) ==> Look(seen.lifecycle, c) == LastLifecycle(kept, c))
  }

  /** What one more kept row makes of the three questions. */
  lemma OneMoreKept(kept: seq<Message>, m: Message)
    ensures Over(kept + [m]) == (EndsIt(m) || (!StartsIt(m) && Over(kept)))
    ensures forall key :: LastPhase(kept + [m], key) ==
              if IsPhase(m) && KeyOf(m) == key then Some(m.Time())
              else if Restarts(kept, m) then None else LastPhase(kept, key)
    ensures forall c :: LastLifecycle(kept + [m], c) ==
              if m.command == c then Some(m.Time()) else if Forgets(m, c) then None else LastLifecycle(kept, c)
  {
    assert (kept + [m])[..|kept|] == kept;
  }

  lemma LifecycleTurn(seen: Seen, kept: seq<Message>, m: Message)
    requires Remembers(seen, kept) && IsLifecycle(m)
    ensures Turn(seen, m).0 <==> !IsRepeat(kept, m)
    ensures Remembers(Turn(seen, m).1, if IsRepeat(kept, m) then kept else kept + [m])
  {
    assert Look(seen.lifecycle, m.command) == LastLifecycle(kept, m.command);
    if !IsRepeat(kept, m) {
      OneMoreKept(kept, m);
      var after := Turn(seen, m).1;
      forall c | IsLifecycleCommand(c)
        ensures Look(after.lifecycle, c) == LastLifecycle(kept + [m], c)
      {
        assert Look(seen.lifecycle, c) == LastLifecycle(kept, c);
      }
    }
  }

  lemma PhaseTurn(seen: Seen, kept: seq<Message>, m: Message)
    requires Remembers(seen, kept) && IsPhase(m)
    ensures Turn(seen, m).0 <==> !IsRepeat(kept, m)
    ensures Remembers(Turn(seen, m).1, if IsRepeat(kept, m) then kept else kept + [m])
  {
    assert Look(seen.phases, KeyOf(m)) == LastPhase(kept, KeyOf(m));
    if !IsRepeat(kept, m) {
      OneMoreKept(kept, m);
      var after := Turn(seen, m).1;
      forall key
        ensures Look(after.phases, key) == LastPhase(kept + [m], key)
      {
        assert Look(seen.phases, key) == LastPhase(kept, key);
      }
      forall c | IsLifecycleCommand(c)
        ensures Look(after.lifecycle, c) == LastLifecycle(kept + [m], c)
      {
        assert Look(seen.lifecycle, c) == LastLifecycle(kept, c);
      }
    }
  }

  lemma TurnRemembers(seen: Seen, kept: seq<Message>, m: Message)
    requires Remembers(seen, kept)
    ensures Turn(seen, m).0 <==> !IsRepeat(kept, m)
    ensures Remembers(Turn(seen, m).1, if IsRepeat(kept, m) then kept else kept + [m])
  {
    if IsLifecycle(m) {
      LifecycleTurn(seen, kept, m);
    } else if IsPhase(m) {
      PhaseTurn(seen, kept, m);
    } else {
      OneMoreKept(kept, m);
    }
  }

  /** The rows that are no repeats of those kept before them. */
  function Fresh(kept: seq<Message>, ms: seq<Message>): seq<Message>
    decreases |ms|
  {
    if ms == [] then []
    else if IsRepeat(kept, ms[0]) then Fresh(kept, ms[1..])
    else [ms[0]] + Fresh(kept + [ms[0]], ms[1..])
  }

  /** The pass over its tables keeps exactly the rows that are no repeats of the kept ones. */
  lemma {:induction false} DedupKeepsFresh(seen: Seen, kept: seq<Message>, ms: seq<Message>)
    requires Remembers(seen, kept)
    ensures Dedup(seen, ms) == Fresh(kept, ms)
    decreases |ms|
  {
    if ms != [] {
      TurnRemembers(seen, kept, ms[0]);
      DedupKeepsFresh(Turn(seen, ms[0]).1, if IsRepeat(kept, ms[0]) then kept else kept + [ms[0]], ms[1..]);
    }
  }

  /** From the start: a row is kept if and only if it is no repeat of what was kept. */
  lemma DedupIsFresh(ms: seq<Message>)
    ensures Dedup(FRESH, ms) == Fresh([], ms)
  {
    DedupKeepsFresh(FRESH, [], ms);
  }
}
