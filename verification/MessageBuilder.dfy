/** The grouping passes and the incremental append as loops over lists that change in place. */
module MessageBuilder {
  import opened Sequences
  import opened Wrappers
  import opened MessageGroups
  import opened MessageAppend

  method GroupMOTDLines(messages: seq<Item>) returns (result: seq<Item>)
    ensures result == GroupMotd(messages, None, [])
  {
    result := [];
    var motdLines: seq<string> := [];
    var motdHead: Option<Row> := None;
    assert messages[0..] == messages;
    for i := 0 to |messages|
      invariant result + GroupMotd(messages[i..], motdHead, motdLines) == GroupMotd(messages, None, [])
      invariant motdHead.Some? <==> motdLines != []
    {
      var msg := messages[i];
      ghost var before, rest := result, GroupMotd(messages[i + 1..], None, []);
      assert messages[i..][1..] == messages[i + 1..];
      if IsMotd(msg) {
        if motdHead == None {
          motdHead := Some(msg.row);
        }
        motdLines := motdLines + [msg.row.text];
      } else if !IsMotdEnd(msg) {
        ghost var flushed := FlushMotd(motdHead, motdLines);
        result := PushMotdGroup(result, motdHead, motdLines);
        motdLines, motdHead := [], None;
        result := result + [msg];
        Assoc(before, flushed, [msg]);
        Assoc(before, flushed + [msg], rest);
      }
    }
    result := PushMotdGroup(result, motdHead, motdLines);
  }

  method PushMotdGroup(result: seq<Item>, motdHead: Option<Row>, motdLines: seq<string>) returns (result': seq<Item>)
    ensures result' == result + FlushMotd(motdHead, motdLines)
  {
    result' := result;
    if |motdLines| > 0 && motdHead.Some? {
      result' := result' + [MotdGroup(motdHead.value, motdLines)];
    }
  }

  method GroupJoinPartEvents(messages: seq<Item>) returns (result: seq<Item>)
    ensures result == GroupJoinPart(messages, [])
  {
    result := [];
    var jpBuffer: seq<Row> := [];
    assert messages[0..] == messages;
    for i := 0 to |messages|
      invariant result + GroupJoinPart(messages[i..], jpBuffer) == GroupJoinPart(messages, [])
    {
      var msg := messages[i];
      ghost var before, rest := result, messages[i + 1..];
      assert messages[i..][1..] == rest;
      if IsJoinPart(msg) {
        jpBuffer := jpBuffer + [msg.row];
      } else {
        ghost var flushed := FlushJoinPart(jpBuffer);
        result := FlushJoinPartGroup(result, jpBuffer);
        jpBuffer := [];
        result := result + [msg];
        Assoc(before, flushed, [msg]);
        Assoc(before, flushed + [msg], GroupJoinPart(rest, []));
      }
    }
    result := FlushJoinPartGroup(result, jpBuffer);
  }

  /** A single event stays as it is; several become one group, oldest first. */
  method FlushJoinPartGroup(result: seq<Item>, jpBuffer: seq<Row>) returns (result': seq<Item>)
    ensures result' == result + FlushJoinPart(jpBuffer)
  {
    if |jpBuffer| == 0 {
      result' := result;
    } else if |jpBuffer| == 1 {
      result' := result + [Raw(jpBuffer[0])];
    } else {
      var sorted := SortRows(jpBuffer);
      result' := result + [JoinPartGroup(sorted)];
    }
  }

  method GroupDisconnectEvents(messages: seq<Item>) returns (result: seq<Item>)
    ensures result == GroupDisco(messages, [])
  {
    result := [];
    var discoBuffer: seq<Item> := [];
    assert messages[0..] == messages;
    for i := 0 to |messages|
      invariant result + GroupDisco(messages[i..], discoBuffer) == GroupDisco(messages, [])
    {
      var msg := messages[i];
      ghost var before, rest := result, messages[i + 1..];
      assert messages[i..][1..] == rest;
      if IsDisco(msg) {
        discoBuffer := discoBuffer + [msg];
      } else {
        ghost var flushed := FlushDisco(discoBuffer);
        result := FlushDiscoGroup(result, discoBuffer);
        discoBuffer := [];
        result := result + [msg];
        Assoc(before, flushed, [msg]);
        Assoc(before, flushed + [msg], GroupDisco(rest, []));
      }
    }
    result := FlushDiscoGroup(result, discoBuffer);
  }

  method FlushDiscoGroup(result: seq<Item>, discoBuffer: seq<Item>) returns (result': seq<Item>)
    ensures result' == result + FlushDisco(discoBuffer)
  {
    if |discoBuffer| == 0 {
      result' := result;
    } else if |discoBuffer| == 1 {
      result' := result + [discoBuffer[0]];
    } else {
      result' := result + [DiscoGroup(discoBuffer)];
    }
  }

  method FilterGhosts(messages: seq<Item>) returns (result: seq<Item>)
    ensures result == WithoutGhosts(messages)
  {
    result := [];
    assert messages[0..] == messages;
    for i := 0 to |messages|
      invariant result + WithoutGhosts(messages[i..]) == WithoutGhosts(messages)
    {
      assert messages[i..][1..] == messages[i + 1..];
      if !IsGhost(messages[i]) {
        assert result + ([messages[i]] + WithoutGhosts(messages[i + 1..]))
            == (result + [messages[i]]) + WithoutGhosts(messages[i + 1..]);
        result := result + [messages[i]];
      }
    }
  }

  method PreprocessMessages(messages: seq<Item>) returns (result: seq<Item>)
    ensures result == Process(messages)
  {
    result := FilterGhosts(messages);
    result := GroupMOTDLines(result);
    result := GroupJoinPartEvents(result);
    result := GroupDisconnectEvents(result);
  }

  /** A processed buffer as the caller holds it. */
  class Buffer {
    var items: seq<Item>

    constructor (items: seq<Item>)
      ensures this.items == items
    {
      this.items := items;
    }
  }

  method FindLastMotdGroupIndex(msgs: seq<Item>) returns (r: int)
    ensures r == if LastMotdGroup(msgs).Some? then LastMotdGroup(msgs).value else -1
  {
    r := |msgs| - 1;
    assert msgs[..|msgs|] == msgs;
    while r >= 0 && !msgs[r].MotdGroup?
      invariant -1 <= r < |msgs| && LastMotdGroup(msgs) == LastMotdGroup(msgs[..r + 1])
    {
      assert msgs[..r + 1][..r] == msgs[..r];
      r := r - 1;
    }
  }

  /**
   `appendToProcessed`: the caller's list is returned untouched for an empty batch;
   otherwise a new list comes back, and when a buried MOTD group is taken out the
   caller's own list has been cut short at that group.
   */
  method AppendToProcessed(prev: Buffer, newRaw: seq<Item>) returns (r: Buffer)
    modifies prev
    ensures newRaw == [] ==> r == prev && prev.items == old(prev.items)
    ensures newRaw != [] ==> fresh(r)
    ensures r.items == Append(old(prev.items), newRaw)
    ensures newRaw != [] ==>
      prev.items == if EndsInGroup(old(prev.items)) then old(prev.items)
                    else CutFor(old(prev.items), newRaw).keep
  {
    if |newRaw| == 0 {
      return prev;
    }
    var keep, prefix := TakeApart(prev, newRaw);
    var regrouped := PreprocessMessages(prefix + newRaw);
    r := new Buffer(keep + regrouped);
  }

  /** What stays and what is processed again; a buried MOTD group is cut out of the list itself. */
  method TakeApart(prev: Buffer, newRaw: seq<Item>) returns (keep: seq<Item>, prefix: seq<Item>)
    modifies prev
    ensures Cut(keep, prefix) == CutFor(old(prev.items), newRaw)
    ensures prev.items == if EndsInGroup(old(prev.items)) then old(prev.items) else keep
  {
    keep, prefix := prev.items, [];
    if |keep| > 0 && IsGroup(keep[|keep| - 1]) {
      var last := keep[|keep| - 1];
      keep := keep[..|keep| - 1];
      prefix := Peel(last);
    } else if exists i :: 0 <= i < |newRaw| && IsMotd(newRaw[i]) {
      var motdIdx := FindLastMotdGroupIndex(keep);
      if motdIdx >= 0 {
        var tail := keep[motdIdx..];
        assert tail[1..] == keep[motdIdx + 1..];
        keep := keep[..motdIdx];
        prev.items := keep;
        prefix := Peel(tail[0]) + tail[1..];
      }
    }
  }
}
