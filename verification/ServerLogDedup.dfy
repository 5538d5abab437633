/**
 Dropping repeated phase and lifecycle rows before grouping.

 `Dedup` is the pass as a machine on values; `DedupPhaseEvents` is the loop over
 its two tables. A dropped row never changes the tables, so the pass is idempotent.
 */
module ServerLogDedup {
  import opened Sequences
  import opened Wrappers
  import opened ServerLog

  const DUP_WINDOW_MS := 60000

  /** Phase tag and the first 60 characters of the canonical text. */
  datatype Key = Key(phase: Phase, text: string)

  datatype Seen = Seen(phases: map<Key, int>, lifecycle: map<Command, int>, ended: bool)

  const FRESH := Seen(map[], map[], false)

  function KeyOf(m: Message): Key {
    Key(m.phase, if |m.canonText| <= 60 then m.canonText else m.canonText[..60])
  }

  predicate IsAttemptStart(p: Phase) { p == Queued || p == Resolving || p == Connecting }

  predicate EndsAttempt(p: Phase) { p == Welcome || p == Error || p == TryFail }

  predicate Repeats<K>(table: map<K, int>, k: K, now: int) {
    k in table && now - table[k] < DUP_WINDOW_MS
  }

  /** The window for phase rows restarts with the first start phase after an ended attempt. */
  function Reset(seen: Seen, m: Message): Seen {
    if seen.ended && IsAttemptStart(m.phase) then seen.(phases := map[], ended := false) else seen
  }

  /** Is `m` kept, and what is remembered afterwards. */
  function Turn(seen: Seen, m: Message): (bool, Seen) {
    if m.phase == NoPhase && !m.IsDisconnect() && !m.IsConnect() then (true, seen)
    else if m.IsDisconnect() || m.IsConnect() then
      if Repeats(seen.lifecycle, m.command, m.Time()) then (false, seen)
      else
        var opposite := if m.IsDisconnect() then {Connect, Connected} else {Disconnect, Disconnected};
        (true, seen.(lifecycle := seen.lifecycle[m.command := m.Time()] - opposite,
                     ended := seen.ended || m.IsDisconnect()))
    else
      var s := Reset(seen, m);
      if Repeats(s.phases, KeyOf(m), m.Time()) then (false, s)
      else
        var s1 := s.(phases := s.phases[KeyOf(m) := m.Time()]);
        (true, if EndsAttempt(m.phase)
               then s1.(ended := true, lifecycle := s1.lifecycle - {Disconnect, Disconnected})
               else s1)
  }

  function Dedup(seen: Seen, ms: seq<Message>): seq<Message>
    decreases |ms|
  {
    if ms == [] then []
    else (if Turn(seen, ms[0]).0 then [ms[0]] else []) + Dedup(Turn(seen, ms[0]).1, ms[1..])
  }

  /** A dropped row leaves no trace, although the window may be reset before it is judged. */
  lemma DroppedLeavesNoTrace(seen: Seen, m: Message)
    requires !Turn(seen, m).0
    ensures Turn(seen, m).1 == seen
  {
  }

  /** A second pass drops nothing more. */
  lemma {:induction false} DedupIdempotent(seen: Seen, ms: seq<Message>)
    ensures Dedup(seen, Dedup(seen, ms)) == Dedup(seen, ms)
    decreases |ms|
  {
    if ms != [] {
      var (kept, next) := Turn(seen, ms[0]);
      DedupIdempotent(next, ms[1..]);
      if kept {
        assert Dedup(seen, ms)[1..] == Dedup(next, ms[1..]);
      } else {
        DroppedLeavesNoTrace(seen, ms[0]);
        assert Dedup(seen, ms) == Dedup(seen, ms[1..]);
      }
    }
  }

  /** Rows that are neither phase nor lifecycle rows. */
  function Chat(ms: seq<Message>): seq<Message> {
    if ms == [] then []
    else (if ms[0].phase == NoPhase && !ms[0].IsDisconnect() && !ms[0].IsConnect() then [ms[0]] else []) + Chat(ms[1..])
  }

  /** Chat rows pass untouched and in order. */
  lemma {:induction false} ChatSurvives(seen: Seen, ms: seq<Message>)
    ensures Chat(Dedup(seen, ms)) == Chat(ms)
    decreases |ms|
  {
    if ms != [] {
      var (kept, next) := Turn(seen, ms[0]);
      ChatSurvives(next, ms[1..]);
      var rest := Dedup(next, ms[1..]);
      if kept {
        assert Dedup(seen, ms) == [ms[0]] + rest && ([ms[0]] + rest)[1..] == rest;
      } else {
        assert Dedup(seen, ms) == rest;
      }
    }
  }

  /** Right after a kept row, a row with the same key less than a minute later is dropped. */
  lemma RepeatIsDropped(seen: Seen, m: Message, m': Message)
    requires Turn(seen, m).0
    requires m'.Time() - m.Time() < DUP_WINDOW_MS
    requires if m.IsDisconnect() || m.IsConnect() then m'.command == m.command
             else m.phase != NoPhase && !m'.IsDisconnect() && !m'.IsConnect() && KeyOf(m') == KeyOf(m)
    ensures !Turn(Turn(seen, m).1, m').0
  {
  }

  /** The output is the input with rows left out. */
  lemma {:induction false} DedupOnlyDrops(seen: Seen, ms: seq<Message>)
    ensures Subsequence(Dedup(seen, ms), ms)
    decreases |ms|
  {
    if ms != [] {
      var rest := Dedup(Turn(seen, ms[0]).1, ms[1..]);
      DedupOnlyDrops(Turn(seen, ms[0]).1, ms[1..]);
      if Turn(seen, ms[0]).0 {
        assert ([ms[0]] + rest)[1..] == rest;
      } else {
        assert Dedup(seen, ms) == rest;
      }
    }
  }

  /** The loop of the source over its two tables. */
  method DedupPhaseEvents(messages: seq<Message>) returns (out: seq<Message>)
    ensures out == Dedup(FRESH, messages)
  {
    var lastSeen: map<Key, int> := map[];
    var lifecycleLastSeen: map<Command, int> := map[];
    var attemptEnded := false;
    out := [];
    assert messages[0..] == messages;
    for i := 0 to |messages|
      invariant out + Dedup(Seen(lastSeen, lifecycleLastSeen, attemptEnded), messages[i..]) == Dedup(FRESH, messages)
    {
      var msg := messages[i];
      ghost var before, rest := Seen(lastSeen, lifecycleLastSeen, attemptEnded), messages[i + 1..];
      assert messages[i..][1..] == rest;
      Assoc(out, if Turn(before, msg).0 then [msg] else [], Dedup(Turn(before, msg).1, rest));
      var keep;
      keep, lastSeen, lifecycleLastSeen, attemptEnded := DedupTurn(msg, lastSeen, lifecycleLastSeen, attemptEnded);
      if keep {
        out := out + [msg];
      } else {
        assert out + [] == out;
      }
    }
    assert out + [] == out;
  }

  /** The body of that loop. */
  method DedupTurn(msg: Message, lastSeen: map<Key, int>, lifecycleLastSeen: map<Command, int>, attemptEnded: bool)
    returns (keep: bool, lastSeen': map<Key, int>, lifecycleLastSeen': map<Command, int>, attemptEnded': bool)
    ensures (keep, Seen(lastSeen', lifecycleLastSeen', attemptEnded'))
         == Turn(Seen(lastSeen, lifecycleLastSeen, attemptEnded), msg)
  {
    lastSeen', lifecycleLastSeen', attemptEnded' := lastSeen, lifecycleLastSeen, attemptEnded;
    var cmd, now := msg.command, msg.Time();
    var isDisconnect := cmd == Disconnect || cmd == Disconnected;
    var isConnect := cmd == Connect || cmd == Connected;
    if msg.phase == NoPhase && !isDisconnect && !isConnect {
      keep := true;
      return;
    }
    if isDisconnect || isConnect {
      if cmd in lifecycleLastSeen && now - lifecycleLastSeen[cmd] < DUP_WINDOW_MS {
        keep := false;
        return;
      }
      lifecycleLastSeen' := lifecycleLastSeen'[cmd := now];
      lifecycleLastSeen' := lifecycleLastSeen'
        - if isDisconnect then {Connect, Connected} else {Disconnect, Disconnected};
      if isDisconnect {
        attemptEnded' := true;
      }
      keep := true;
      return;
    }
    if attemptEnded' && IsAttemptStart(msg.phase) {
      lastSeen', attemptEnded' := map[], false;
    }
    var key := KeyOf(msg);
    if key in lastSeen' && now - lastSeen'[key] < DUP_WINDOW_MS {
      keep := false;
      return;
    }
    lastSeen' := lastSeen'[key := now];
    if EndsAttempt(msg.phase) {
      attemptEnded' := true;
      lifecycleLastSeen' := lifecycleLastSeen' - {Disconnect, Disconnected};
    }
    keep := true;
  }
}
