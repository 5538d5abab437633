/** Which lines a packed text joins into one message, said by their positions. */
module MessagePacking {
  import opened Sequences
  import opened Utf8
  import opened LineSplitter
  import opened MessageSplitter

  /** Lines `f` to `t - 1` joined by single spaces; a line that ends in a space needs no other one. */
  function Joined(lines: seq<string>, f: nat, t: nat): string
    requires f <= t <= |lines|
  {
    if f == t then ""
    else
      var before := Joined(lines, f, t - 1);
      if before == "" || before[|before| - 1] == ' ' then before + lines[t - 1] else before + " " + lines[t - 1]
  }

  /** Message `msg` is lines `f` to `t - 1`, none of them blank, and fits unless it is a single line. */
  ghost predicate IsGroup(lines: seq<string>, budget: nat, msg: string, f: nat, t: nat) {
    && f < t <= |lines| && (forall k :: f <= k < t ==> lines[k] != "")
    && msg == Joined(lines, f, t) && (t - f > 1 ==> Bytes(msg) <= budget)
  }

  ghost predicate AllBlank(lines: seq<string>, s: nat, t: nat) {
    s <= t <= |lines| && forall k :: s <= k < t ==> lines[k] == ""
  }

  /**
   From line `s` on: blank lines, then the lines of the first message, then those of the
   others. A message that starts right behind another one starts with a line that did not
   fit into that.
   */
  ghost predicate IsPacking(lines: seq<string>, budget: nat, messages: seq<string>, s: nat,
                            from: seq<nat>, to: seq<nat>)
    decreases from
  {
    && |from| == |messages| == |to|
    && if from == [] then AllBlank(lines, s, |lines|)
       else
         && AllBlank(lines, s, from[0]) && IsGroup(lines, budget, messages[0], from[0], to[0])
         && (|from| > 1 && from[1] == to[0] ==>
               to[0] < |lines| && Bytes(Joined(lines, from[0], to[0] + 1)) > budget)
         && IsPacking(lines, budget, messages[1..], to[0], from[1..], to[1..])
  }

  lemma JoinedMore(lines: seq<string>, s: nat, c: nat)
    requires s <= c < |lines|
    ensures var buf := Joined(lines, s, c);
            && Joined(lines, s, c + 1) == buf + Sep(buf) + lines[c]
            && Bytes(Joined(lines, s, c + 1)) == Bytes(buf) + |Sep(buf)| + Bytes(lines[c])
  {
    var buf := Joined(lines, s, c);
    assert buf + "" == buf;
    BytesConcat(buf + Sep(buf), lines[c]);
    BytesConcat(buf, Sep(buf));
    BytesOfAscii(Sep(buf));
  }

  /** A message in front of a packing of the later lines. */
  lemma OneMoreMessage(lines: seq<string>, budget: nat, msg: string, s: nat, c: nat,
                       messages: seq<string>, from: seq<nat>, to: seq<nat>)
    requires IsGroup(lines, budget, msg, s, c) && IsPacking(lines, budget, messages, c, from, to)
    requires from != [] && from[0] == c ==> c < |lines| && Bytes(Joined(lines, s, c + 1)) > budget
    ensures IsPacking(lines, budget, [msg] + messages, s, [s] + from, [c] + to)
  {
    assert ([s] + from)[1..] == from && ([c] + to)[1..] == to && ([msg] + messages)[1..] == messages;
  }

  lemma FurtherOn(lines: seq<string>, budget: nat, messages: seq<string>, c: nat, from: seq<nat>, to: seq<nat>)
    requires c < |lines| && lines[c] == "" && IsPacking(lines, budget, messages, c + 1, from, to)
    ensures IsPacking(lines, budget, messages, c, from, to) && (from != [] ==> from[0] > c)
  {
  }

  lemma BufferIsBlank(lines: seq<string>, s: nat, c: nat)
    requires s <= c <= |lines| && forall k :: s <= k < c ==> lines[k] != ""
    ensures Joined(lines, s, c) == "" <==> s == c
  {
  }

  /** One turn of the packing with lines `s` to `c - 1` in the buffer. */
  lemma PackTurn(lines: seq<string>, budget: nat, s: nat, c: nat)
    requires s <= c < |lines| && forall k :: s <= k < c ==> lines[k] != ""
    ensures var buf, rest := Joined(lines, s, c), lines[c + 1..];
            Pack(lines[c..], buf, budget) ==
              if lines[c] == "" then (if s < c then [buf] else []) + Pack(rest, "", budget)
              else if s < c && Bytes(Joined(lines, s, c + 1)) > budget then [buf] + Pack(rest, lines[c], budget)
              else Pack(rest, Joined(lines, s, c + 1), budget)
  {
    assert lines[c..][1..] == lines[c + 1..] && lines[c..][0] == lines[c];
    BufferIsBlank(lines, s, c);
    JoinedMore(lines, s, c);
  }

  lemma JoinedOne(lines: seq<string>, c: nat)
    requires c < |lines|
    ensures Joined(lines, c, c) == "" && Joined(lines, c, c + 1) == lines[c]
  {
    assert "" + lines[c] == lines[c];
  }

  lemma GroupGrows(lines: seq<string>, budget: nat, s: nat, c: nat)
    requires s <= c < |lines| && (s < c ==> IsGroup(lines, budget, Joined(lines, s, c), s, c))
    requires lines[c] != "" && (s < c ==> Bytes(Joined(lines, s, c + 1)) <= budget)
    ensures IsGroup(lines, budget, Joined(lines, s, c + 1), s, c + 1)
  {
  }

  lemma LastMessage(lines: seq<string>, budget: nat, s: nat) returns (from: seq<nat>, to: seq<nat>)
    requires s <= |lines| && (s < |lines| ==> IsGroup(lines, budget, Joined(lines, s, |lines|), s, |lines|))
    ensures IsPacking(lines, budget, Pack([], Joined(lines, s, |lines|), budget), s, from, to)
    ensures s < |lines| ==> from == [s]
  {
    BufferIsBlank(lines, s, |lines|);
    from, to := if s < |lines| then [s] else [], if s < |lines| then [|lines|] else [];
  }

  /** With lines `s` to `c - 1` in the buffer. */
  ghost predicate Buffered(lines: seq<string>, budget: nat, s: nat, c: nat) {
    s <= c <= |lines| && (s < c ==> IsGroup(lines, budget, Joined(lines, s, c), s, c))
  }

  ghost predicate PacksFrom(lines: seq<string>, budget: nat, s: nat, c: nat, from: seq<nat>, to: seq<nat>)
    requires Buffered(lines, budget, s, c)
  {
    && IsPacking(lines, budget, Pack(lines[c..], Joined(lines, s, c), budget), s, from, to)
    && (s < c ==> from != [] && from[0] == s)
  }

  lemma BlankTurn(lines: seq<string>, budget: nat, s: nat, c: nat, from: seq<nat>, to: seq<nat>)
    returns (from': seq<nat>, to': seq<nat>)
    requires Buffered(lines, budget, s, c) && c < |lines| && lines[c] == ""
    requires PacksFrom(lines, budget, c + 1, c + 1, from, to)
    ensures PacksFrom(lines, budget, s, c, from', to')
  {
    PackTurn(lines, budget, s, c);
    var messages := Pack(lines[c + 1..], "", budget);
    FurtherOn(lines, budget, messages, c, from, to);
    if s < c {
      OneMoreMessage(lines, budget, Joined(lines, s, c), s, c, messages, from, to);
      from', to' := [s] + from, [c] + to;
    } else {
      NothingBefore(messages);
      from', to' := from, to;
    }
  }

  lemma FullTurn(lines: seq<string>, budget: nat, s: nat, c: nat, from: seq<nat>, to: seq<nat>)
    requires Buffered(lines, budget, s, c) && s < c < |lines| && lines[c] != ""
    requires Bytes(Joined(lines, s, c + 1)) > budget
    requires Buffered(lines, budget, c, c + 1) && PacksFrom(lines, budget, c, c + 1, from, to)
    ensures PacksFrom(lines, budget, s, c, [s] + from, [c] + to)
  {
    PackTurn(lines, budget, s, c);
    JoinedOne(lines, c);
    OneMoreMessage(lines, budget, Joined(lines, s, c), s, c, Pack(lines[c + 1..], lines[c], budget), from, to);
  }

  lemma JoinTurn(lines: seq<string>, budget: nat, s: nat, c: nat, from: seq<nat>, to: seq<nat>)
    requires Buffered(lines, budget, s, c) && c < |lines| && lines[c] != ""
    requires s < c ==> Bytes(Joined(lines, s, c + 1)) <= budget
    requires Buffered(lines, budget, s, c + 1) && PacksFrom(lines, budget, s, c + 1, from, to)
    ensures PacksFrom(lines, budget, s, c, from, to)
  {
    PackTurn(lines, budget, s, c);
  }

  lemma {:induction false} PackGroups(lines: seq<string>, budget: nat, s: nat, c: nat)
    returns (from: seq<nat>, to: seq<nat>)
    requires Buffered(lines, budget, s, c)
    ensures PacksFrom(lines, budget, s, c, from, to)
    decreases |lines| - c, 1
  {
    if c == |lines| {
      assert lines[c..] == [];
      from, to := LastMessage(lines, budget, s);
    } else if lines[c] == "" {
      var from1, to1 := PackGroups(lines, budget, c + 1, c + 1);
      from, to := BlankTurn(lines, budget, s, c, from1, to1);
    } else if s < c && Bytes(Joined(lines, s, c + 1)) > budget {
      from, to := PackFull(lines, budget, s, c);
    } else {
      from, to := PackJoin(lines, budget, s, c);
    }
  }

  lemma {:induction false} PackJoin(lines: seq<string>, budget: nat, s: nat, c: nat)
    returns (from: seq<nat>, to: seq<nat>)
    requires Buffered(lines, budget, s, c) && c < |lines| && lines[c] != ""
    requires s < c ==> Bytes(Joined(lines, s, c + 1)) <= budget
    ensures PacksFrom(lines, budget, s, c, from, to)
    decreases |lines| - c, 0
  {
    GroupGrows(lines, budget, s, c);
    from, to := PackGroups(lines, budget, s, c + 1);
    JoinTurn(lines, budget, s, c, from, to);
  }

  lemma {:induction false} PackFull(lines: seq<string>, budget: nat, s: nat, c: nat)
    returns (from: seq<nat>, to: seq<nat>)
    requires Buffered(lines, budget, s, c) && s < c < |lines| && lines[c] != ""
    requires Bytes(Joined(lines, s, c + 1)) > budget
    ensures PacksFrom(lines, budget, s, c, from, to)
    decreases |lines| - c, 0
  {
    JoinedOne(lines, c);
    GroupGrows(lines, budget, c, c);
    var from1, to1 := PackGroups(lines, budget, c, c + 1);
    FullTurn(lines, budget, s, c, from1, to1);
    from, to := [s] + from1, [c] + to1;
  }

  /**
   Packing joins neighbouring lines as long as they fit and never across a blank one:
   every line that is not blank is in one message, and no message could have taken the
   line behind it.
   */
  lemma PackIsGreedy(lines: seq<string>, budget: nat) returns (from: seq<nat>, to: seq<nat>)
    ensures IsPacking(lines, budget, Pack(lines, "", budget), 0, from, to)
  {
    assert lines[0..] == lines;
    from, to := PackGroups(lines, budget, 0, 0);
  }

  // ---------------------------------------------------------------- lines

  /** A text with every line end written as a line feed; a carriage return with one behind it is part of that. */
  function Normal(text: string): string {
    if text == "" then ""
    else if text[0] == '\r' && |text| > 1 && text[1] == '\n' then Normal(text[1..])
    else [if text[0] == '\r' then '\n' else text[0]] + Normal(text[1..])
  }

  /** Lines with line feeds between them. */
  function Feeds(lines: seq<string>): string
    requires lines != []
  {
    if |lines| == 1 then lines[0] else lines[0] + ['\n'] + Feeds(lines[1..])
  }

  lemma FeedsFirst(line: string, lines: seq<string>)
    requires lines != []
    ensures Feeds([line] + lines) == line + (['\n'] + Feeds(lines))
  {
    assert ([line] + lines)[1..] == lines;
    Assoc(line, ['\n'], Feeds(lines));
  }

  predicate NoLineEnd(line: string) { '\r' !in line && '\n' !in line }

  /** Splitting at line ends: the lines hold none, and put together they are the text again. */
  lemma {:induction false} LinesRejoin(text: string, cur: string)
    requires NoLineEnd(cur)
    ensures SplitLines(text, cur) != [] && Feeds(SplitLines(text, cur)) == cur + Normal(text)
    ensures forall line :: line in SplitLines(text, cur) ==> NoLineEnd(line)
    decreases |text|
  {
    if text == "" {
      assert cur + "" == cur;
    } else if text[0] == '\r' || text[0] == '\n' {
      var skip := if text[0] == '\r' && |text| > 1 && text[1] == '\n' then 2 else 1;
      LinesRejoin(text[skip..], "");
      NothingBefore(Normal(text[skip..]));
      FeedsFirst(cur, SplitLines(text[skip..], ""));
      assert skip == 2 ==> text[1..][1..] == text[2..];
    } else {
      LinesRejoin(text[1..], cur + [text[0]]);
      Assoc(cur, [text[0]], Normal(text[1..]));
    }
  }

  /** Unpacked, the lines go out one by one; only blank ones at the end are dropped. */
  lemma {:induction false} BlanksAtEndDrop(lines: seq<string>)
    ensures var kept := DropTrailingBlanks(lines);
            && |kept| <= |lines| && kept == lines[..|kept|] && AllBlank(lines, |kept|, |lines|)
            && (kept != [] ==> kept[|kept| - 1] != "")
  {
    if lines != [] && lines[|lines| - 1] == "" {
      BlanksAtEndDrop(lines[..|lines| - 1]);
    }
  }
}
