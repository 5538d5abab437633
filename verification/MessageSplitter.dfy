/** Text into messages: physical lines, broken lines, packed messages, and the byte budget. */
module MessageSplitter {
  import opened Sequences
  import opened Wrappers
  import opened Utf8
  import opened LineSplitter

  // ---------------------------------------------------------------- lines

  /** Splitting at CRLF, CR or LF; `cur` is the line read so far. */
  function SplitLines(text: string, cur: string): seq<string>
    decreases |text|
  {
    if text == "" then [cur]
    else if text[0] == '\r' && |text| > 1 && text[1] == '\n' then [cur] + SplitLines(text[2..], "")
    else if text[0] == '\r' || text[0] == '\n' then [cur] + SplitLines(text[1..], "")
    else SplitLines(text[1..], cur + [text[0]])
  }

  /** Every line broken to the budget; a blank line stays as a blank entry. */
  function Pieces(lines: seq<string>, budget: nat): seq<string> {
    if lines == [] then []
    else (if lines[0] == "" then [""] else Break(lines[0], budget)) + Pieces(lines[1..], budget)
  }

  function DropTrailingBlanks(lines: seq<string>): seq<string> {
    if lines != [] && lines[|lines| - 1] == "" then DropTrailingBlanks(lines[..|lines| - 1]) else lines
  }

  /** The separator in front of a line that joins `buf`. */
  function Sep(buf: string): string {
    if buf != "" && buf[|buf| - 1] != ' ' then " " else ""
  }

  /** Joining lines with single spaces while they fit. */
  function Pack(lines: seq<string>, buf: string, budget: nat): seq<string> {
    var flushed := if buf == "" then [] else [buf];
    if lines == [] then flushed
    else if lines[0] == "" then flushed + Pack(lines[1..], "", budget)
    else if buf != "" && Bytes(buf) + |Sep(buf)| + Bytes(lines[0]) > budget
    then flushed + Pack(lines[1..], lines[0], budget)
    else Pack(lines[1..], buf + Sep(buf) + lines[0], budget)
  }

  function BudgetOf(maxBytes: int): nat {
    if maxBytes < 1 then 1 else maxBytes
  }

  function Split(text: string, maxBytes: int, pack: bool): seq<string> {
    var pieces := Pieces(SplitLines(text, ""), BudgetOf(maxBytes));
    if pack then Pack(pieces, "", BudgetOf(maxBytes)) else DropTrailingBlanks(pieces)
  }

  // ---------------------------------------------------------------- what survives

  predicate IsSpacing(c: char) { c == ' ' || c == '\r' || c == '\n' }

  /** The characters that are neither spaces nor line ends, in order. */
  function Inked(s: string): string {
    if s == "" then "" else (if IsSpacing(s[0]) then "" else [s[0]]) + Inked(s[1..])
  }

  lemma {:induction false} InkedConcat(a: string, b: string)
    ensures Inked(a + b) == Inked(a) + Inked(b)
  {
    if a == "" {
      assert a + b == b;
    } else {
      var first := if IsSpacing(a[0]) then "" else [a[0]];
      assert (a + b)[1..] == a[1..] + b;
      InkedConcat(a[1..], b);
      assert first + (Inked(a[1..]) + Inked(b)) == (first + Inked(a[1..])) + Inked(b);
    }
  }

  lemma InkedOne(c: char)
    ensures Inked([c]) == if IsSpacing(c) then "" else [c]
  {
    assert [c][1..] == "";
  }

  lemma InkedJoin(a: seq<string>, b: seq<string>)
    ensures Inked(Join(a + b)) == Inked(Join(a)) + Inked(Join(b))
  {
    JoinConcat(a, b);
    InkedConcat(Join(a), Join(b));
  }

  lemma InkedPart(part: string)
    ensures Inked(Join([part])) == Inked(part)
  {
    assert Join([part]) == part + Join([]);
    InkedConcat(part, "");
  }

  lemma FinishedLine(cur: string, more: seq<string>)
    ensures Inked(Join([cur] + more)) == Inked(cur) + Inked(Join(more))
  {
    InkedJoin([cur], more);
    InkedPart(cur);
  }

  lemma {:induction false} SplitLinesInk(text: string, cur: string)
    ensures Inked(Join(SplitLines(text, cur))) == Inked(cur) + Inked(text)
    decreases |text|
  {
    if text == "" {
      InkedPart(cur);
    } else if text[0] == '\r' || text[0] == '\n' {
      var skip := if text[0] == '\r' && |text| > 1 && text[1] == '\n' then 2 else 1;
      SplitLinesInk(text[skip..], "");
      FinishedLine(cur, SplitLines(text[skip..], ""));
      SkipLineEnd(text, skip);
    } else {
      SplitLinesInk(text[1..], cur + [text[0]]);
      InkedConcat(cur, [text[0]]);
      InkedOne(text[0]);
      Assoc(Inked(cur), Inked([text[0]]), Inked(text[1..]));
    }
  }

  lemma SkipLineEnd(text: string, skip: nat)
    requires 1 <= skip <= 2 && skip <= |text|
    requires forall i :: 0 <= i < skip ==> IsSpacing(text[i])
    ensures Inked(text[skip..]) == Inked(text)
  {
    if skip == 2 {
      assert text[1..][1..] == text[2..];
    }
  }

  lemma {:induction false} PiecesInk(lines: seq<string>, budget: nat)
    ensures Inked(Join(Pieces(lines, budget))) == Inked(Join(lines))
  {
    if lines != [] {
      var first := if lines[0] == "" then [""] else Break(lines[0], budget);
      PiecesInk(lines[1..], budget);
      InkedJoin(first, Pieces(lines[1..], budget));
      InkedConcat(lines[0], Join(lines[1..]));
      BreakIsLossless(lines[0], budget);
      InkedPart("");
    }
  }

  lemma {:induction false} DropInk(lines: seq<string>)
    ensures Inked(Join(DropTrailingBlanks(lines))) == Inked(Join(lines))
  {
    if lines != [] && lines[|lines| - 1] == "" {
      DropInk(lines[..|lines| - 1]);
      assert lines == lines[..|lines| - 1] + [""];
      InkedJoin(lines[..|lines| - 1], [""]);
      InkedPart("");
    }
  }

  lemma FlushedInk(buf: string, more: seq<string>)
    ensures Inked(Join((if buf == "" then [] else [buf]) + more)) == Inked(buf) + Inked(Join(more))
  {
    InkedJoin(if buf == "" then [] else [buf], more);
    InkedPart(buf);
  }

  lemma InkedJoined(buf: string, line: string)
    ensures Inked(buf + Sep(buf) + line) == Inked(buf) + Inked(line)
  {
    InkedConcat(buf + Sep(buf), line);
    InkedConcat(buf, Sep(buf));
    InkedOne(' ');
  }

  lemma {:induction false} PackInk(lines: seq<string>, buf: string, budget: nat)
    ensures Inked(Join(Pack(lines, buf, budget))) == Inked(buf) + Inked(Join(lines))
  {
    if lines == [] {
      FlushedInk(buf, []);
      assert (if buf == "" then [] else [buf]) + [] == if buf == "" then [] else [buf];
    } else {
      var line, rest := lines[0], lines[1..];
      InkedConcat(line, Join(rest));
      if line == "" {
        PackInk(rest, "", budget);
        FlushedInk(buf, Pack(rest, "", budget));
      } else if buf != "" && Bytes(buf) + |Sep(buf)| + Bytes(line) > budget {
        PackInk(rest, line, budget);
        FlushedInk(buf, Pack(rest, line, budget));
      } else {
        PackInk(rest, buf + Sep(buf) + line, budget);
        Assoc(Inked(buf), Inked(line), Inked(Join(rest)));
        InkedJoined(buf, line);
      }
    }
  }

  /** Every character that is no space and no line end is sent, once and in order. */
  lemma SplitKeepsText(text: string, maxBytes: int, pack: bool)
    ensures Inked(Join(Split(text, maxBytes, pack))) == Inked(text)
  {
    var lines, budget := SplitLines(text, ""), BudgetOf(maxBytes);
    SplitLinesInk(text, "");
    PiecesInk(lines, budget);
    PackInk(Pieces(lines, budget), "", budget);
    DropInk(Pieces(lines, budget));
  }

  ghost predicate AllBounded(parts: seq<string>, budget: nat) {
    forall i :: 0 <= i < |parts| ==> parts[i] == "" || Bounded(parts[i], budget)
  }

  lemma {:induction false} PiecesBounded(lines: seq<string>, budget: nat)
    ensures AllBounded(Pieces(lines, budget), budget)
  {
    if lines != [] {
      BreakIsBounded(lines[0], budget);
      PiecesBounded(lines[1..], budget);
    }
  }

  lemma {:induction false} PackBounded(lines: seq<string>, buf: string, budget: nat)
    requires AllBounded(lines, budget) && (buf == "" || Bounded(buf, budget))
    ensures forall i :: 0 <= i < |Pack(lines, buf, budget)| ==> Bounded(Pack(lines, buf, budget)[i], budget)
  {
    if lines != [] {
      var line, rest := lines[0], lines[1..];
      assert AllBounded(rest, budget) by {
        assert forall i :: 0 <= i < |rest| ==> rest[i] == lines[i + 1];
      }
      if line == "" {
        PackBounded(rest, "", budget);
      } else if buf != "" && Bytes(buf) + |Sep(buf)| + Bytes(line) > budget {
        PackBounded(rest, line, budget);
      } else {
        BytesConcat(buf + Sep(buf), line);
        BytesConcat(buf, Sep(buf));
        assert Bytes(" ") == 1 by {
          assert " "[1..] == "";
        }
        if buf == "" {
          assert buf + Sep(buf) + line == line;
        }
        PackBounded(rest, buf + Sep(buf) + line, budget);
      }
    }
  }

  lemma {:induction false} DropBounded(lines: seq<string>, budget: nat)
    requires AllBounded(lines, budget)
    ensures AllBounded(DropTrailingBlanks(lines), budget)
  {
    if lines != [] && lines[|lines| - 1] == "" {
      DropBounded(lines[..|lines| - 1], budget);
    }
  }

  /** Every message fits the budget or is a single over-wide code point; packed ones are never blank. */
  lemma SplitIsBounded(text: string, maxBytes: int, pack: bool)
    ensures forall i :: 0 <= i < |Split(text, maxBytes, pack)| ==>
      Bounded(Split(text, maxBytes, pack)[i], BudgetOf(maxBytes)) || (!pack && Split(text, maxBytes, pack)[i] == "")
  {
    var pieces := Pieces(SplitLines(text, ""), BudgetOf(maxBytes));
    PiecesBounded(SplitLines(text, ""), BudgetOf(maxBytes));
    PackBounded(pieces, "", BudgetOf(maxBytes));
    DropBounded(pieces, BudgetOf(maxBytes));
  }

  // ---------------------------------------------------------------- the loops

  /** `splitIntoMessages`. */
  method SplitIntoMessages(text: string, maxBytes: int, pack: bool) returns (messages: seq<string>)
    ensures messages == Split(text, maxBytes, pack)
  {
    var budget := if maxBytes < 1 then 1 else maxBytes;
    var physical := SplitLines(text, "");
    var lines := BreakAll(physical, budget);
    if !pack {
      ghost var all := lines;
      while |lines| > 0 && lines[|lines| - 1] == ""
        invariant DropTrailingBlanks(lines) == DropTrailingBlanks(all)
      {
        lines := lines[..|lines| - 1];
      }
      return lines;
    }
    messages := PackLines(lines, budget);
  }

  method BreakAll(physical: seq<string>, budget: nat) returns (lines: seq<string>)
    ensures lines == Pieces(physical, budget)
  {
    lines := [];
    assert physical[0..] == physical;
    for i := 0 to |physical|
      invariant lines + Pieces(physical[i..], budget) == Pieces(physical, budget)
    {
      var line := physical[i];
      ghost var rest := Pieces(physical[i + 1..], budget);
      assert physical[i..][1..] == physical[i + 1..];
      var parts: seq<string>;
      if line == "" {
        parts := [""];
      } else if Bytes(line) <= budget {
        BreakWhole(line, budget);
        parts := [line];
      } else {
        parts := BreakLine(line, budget);
      }
      assert lines + (parts + rest) == (lines + parts) + rest;
      lines := lines + parts;
    }
  }

  method PackLines(lines: seq<string>, budget: nat) returns (messages: seq<string>)
    ensures messages == Pack(lines, "", budget)
  {
    messages := [];
    var buf, bufBytes := "", 0;
    assert lines[0..] == lines;
    for i := 0 to |lines|
      invariant bufBytes == Bytes(buf)
      invariant messages + Pack(lines[i..], buf, budget) == Pack(lines, "", budget)
    {
      assert lines[i..][1..] == lines[i + 1..];
      messages, buf, bufBytes := PackLine(messages, buf, bufBytes, lines[i], lines[i + 1..], budget);
    }
    if buf != "" {
      messages := messages + [buf];
    }
  }

  /** One turn of the packing loop. */
  method PackLine(messages: seq<string>, buf: string, bufBytes: nat, line: string, ghost rest: seq<string>, budget: nat)
    returns (messages': seq<string>, buf': string, bufBytes': nat)
    requires bufBytes == Bytes(buf)
    ensures bufBytes' == Bytes(buf')
    ensures messages' + Pack(rest, buf', budget) == messages + Pack([line] + rest, buf, budget)
  {
    messages', buf', bufBytes' := messages, buf, bufBytes;
    assert ([line] + rest)[1..] == rest;
    if line == "" {
      if buf != "" {
        messages', buf', bufBytes' := messages + [buf], "", 0;
        Assoc(messages, [buf], Pack(rest, "", budget));
      } else {
        assert [] + Pack(rest, "", budget) == Pack(rest, "", budget);
      }
      return;
    }
    var lineBytes := Bytes(line);
    var sep := if buf != "" && buf[|buf| - 1] != ' ' then " " else "";
    if buf != "" && bufBytes + |sep| + lineBytes > budget {
      messages', buf', bufBytes' := messages + [buf], line, lineBytes;
      Assoc(messages, [buf], Pack(rest, line, budget));
    } else {
      BytesConcat(buf + sep, line);
      BytesConcat(buf, sep);
      assert Bytes(" ") == 1 by {
        assert " "[1..] == "";
      }
      buf', bufBytes' := buf + sep + line, bufBytes + |sep| + lineBytes;
    }
  }

  // ---------------------------------------------------------------- the budget

  const WORST_CASE_HOSTMASK_BYTES := 105
  const SAFETY := 16

  /** Bytes of the source prefix the server will put in front. */
  function PrefixBytes(hostmask: string): nat {
    if hostmask == "" then WORST_CASE_HOSTMASK_BYTES else Bytes(hostmask)
  }

  /** The budget before it is clamped; `linelen` is the advertised limit, zero when unusable. */
  function RawBudget(linelen: int, hostmask: string, target: string): int {
    (if linelen == 0 then 512 else linelen)
    - 1 - PrefixBytes(hostmask) - 1 - |"PRIVMSG"| - 1 - Bytes(target) - 2 - 2 - SAFETY
  }

  /** `ircPayloadBudget`. */
  function PayloadBudget(linelen: int, hostmask: string, target: string): int {
    var budget := RawBudget(linelen, hostmask, target);
    if budget < 80 then 80 else budget
  }

  /** The line a server relays for one message. */
  function RelayedLine(mask: string, target: string, payload: string): string {
    ":" + mask + " PRIVMSG " + target + " :" + payload + "\r\n"
  }

  lemma RelayedHeadBytes(mask: string, target: string)
    ensures Bytes(":" + mask + " PRIVMSG " + target) == Bytes(mask) + Bytes(target) + 10
  {
    AddAscii("", ":");
    BytesConcat(":", mask);
    AddAscii(":" + mask, " PRIVMSG ");
    BytesConcat(":" + mask + " PRIVMSG ", target);
  }

  lemma RelayedTailBytes(head: string, payload: string)
    ensures Bytes(head + " :" + payload + "\r\n") == Bytes(head) + Bytes(payload) + 4
  {
    AddAscii(head, " :");
    BytesConcat(head + " :", payload);
    AddAscii(head + " :" + payload, "\r\n");
  }

  lemma RelayedBytes(mask: string, target: string, payload: string)
    ensures Bytes(RelayedLine(mask, target, payload)) == Bytes(mask) + Bytes(target) + Bytes(payload) + 14
  {
    RelayedHeadBytes(mask, target);
    RelayedTailBytes(":" + mask + " PRIVMSG " + target, payload);
  }

  lemma AddAscii(a: string, b: string)
    requires forall i :: 0 <= i < |b| ==> b[i] < 0x80 as char
    ensures Bytes(a + b) == Bytes(a) + |b|
  {
    BytesOfAscii(b);
    BytesConcat(a, b);
  }

  /**
   Every payload within the budget gives a relayed line within the limit if and only if
   the clamp does not lift the budget by more than the safety margin.
   */
  lemma PayloadsFit(linelen: int, hostmask: string, target: string)
    ensures (forall payload, mask :: Bytes(payload) <= PayloadBudget(linelen, hostmask, target)
                                     && Bytes(mask) <= PrefixBytes(hostmask) ==>
               Bytes(RelayedLine(mask, target, payload)) <= if linelen == 0 then 512 else linelen)
            <==> RawBudget(linelen, hostmask, target) + SAFETY >= 80
  {
    var limit := if linelen == 0 then 512 else linelen;
    var budget := PayloadBudget(linelen, hostmask, target);
    forall payload, mask | Bytes(payload) <= budget && Bytes(mask) <= PrefixBytes(hostmask)
      ensures RawBudget(linelen, hostmask, target) + SAFETY >= 80 ==> Bytes(RelayedLine(mask, target, payload)) <= limit
    {
      RelayedBytes(mask, target, payload);
    }
    var payload, mask := seq(80, _ => 'x'), seq(PrefixBytes(hostmask), _ => 'x');
    BytesOfAscii(payload);
    BytesOfAscii(mask);
    RelayedBytes(mask, target, payload);
    assert Bytes(RelayedLine(mask, target, payload)) <= limit <==> RawBudget(linelen, hostmask, target) + SAFETY >= 80;
  }
}
