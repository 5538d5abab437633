/**
 Where two lists meet in the disconnect pass: it takes them one by one unless a run of
 disconnect-like entries spans the seam. Its groups are maximal, and opening them gives
 back what went in.
 */
module DiscoSeams {
  import opened Sequences
  import opened MessageGroups

  /** A disconnect-like entry, or a group of such. */
  predicate Discoish(m: Item) { m.DiscoGroup? || IsDisco(m) }

  ghost predicate NoDiscoGroups(ms: seq<Item>) {
    forall m :: m in ms ==> !m.DiscoGroup?
  }

  ghost predicate EntryOk(m: Item) {
    m.DiscoGroup? ==> |m.items| > 1 && AllDisco(m.items) && NoDiscoGroups(m.items)
  }

  /** The entries that the disconnect pass leaves: maximal groups. */
  ghost predicate Maximal(p: seq<Item>) {
    p != [] ==>
      EntryOk(p[0]) && (|p| > 1 ==> !(Discoish(p[0]) && Discoish(p[1]))) && Maximal(p[1..])
  }

  function Open(m: Item): seq<Item> {
    if m.DiscoGroup? then m.items else [m]
  }

  function Opened(p: seq<Item>): seq<Item> {
    if p == [] then [] else Open(p[0]) + Opened(p[1..])
  }

  lemma {:induction false} OpenedConcat(a: seq<Item>, b: seq<Item>)
    ensures Opened(a + b) == Opened(a) + Opened(b)
  {
    if a == [] {
      assert a + b == b;
    } else {
      assert (a + b)[1..] == a[1..] + b;
      OpenedConcat(a[1..], b);
      Assoc(Open(a[0]), Opened(a[1..]), Opened(b));
    }
  }

  lemma DiscoStep(m: Item, rest: seq<Item>, buffer: seq<Item>)
    ensures GroupDisco([m] + rest, buffer) ==
      if IsDisco(m) then GroupDisco(rest, buffer + [m]) else FlushDisco(buffer) + [m] + GroupDisco(rest, [])
  {
    assert ([m] + rest)[1..] == rest;
  }

  /** The pass only groups: opened again, its groups give back what went in. */
  lemma {:induction false} OpenedDisco(ms: seq<Item>, buffer: seq<Item>)
    requires NoDiscoGroups(ms) && NoDiscoGroups(buffer)
    ensures Opened(GroupDisco(ms, buffer)) == buffer + ms
  {
    OpenedFlush(buffer);
    if ms == [] {
      assert buffer + [] == buffer;
    } else {
      var m, rest := ms[0], ms[1..];
      assert ms == [m] + rest;
      if IsDisco(m) {
        OpenedDisco(rest, buffer + [m]);
        Assoc(buffer, [m], rest);
      } else {
        OpenedDisco(rest, []);
        assert [] + rest == rest && Open(m) == [m];
        OpenedConcat(FlushDisco(buffer) + [m], GroupDisco(rest, []));
        OpenedConcat(FlushDisco(buffer), [m]);
        OpenedOne(m);
        Assoc(buffer, [m], rest);
      }
    }
  }

  lemma OpenedOne(m: Item)
    ensures Opened([m]) == Open(m)
  {
    assert [m][1..] == [] && Open(m) + [] == Open(m);
  }

  lemma OpenedFlush(buffer: seq<Item>)
    requires NoDiscoGroups(buffer)
    ensures Opened(FlushDisco(buffer)) == buffer
  {
    if buffer != [] {
      OpenedOne(FlushDisco(buffer)[0]);
      assert buffer[0] in buffer;
    }
  }

  lemma {:induction false} MaximalConcat(a: seq<Item>, b: seq<Item>)
    ensures Maximal(a + b) <==>
      Maximal(a) && Maximal(b) && (a != [] && b != [] ==> !(Discoish(a[|a| - 1]) && Discoish(b[0])))
  {
    if a == [] {
      assert a + b == b;
    } else {
      assert (a + b)[1..] == a[1..] + b;
      MaximalConcat(a[1..], b);
    }
  }

  lemma {:induction false} DiscoIsMaximal(ms: seq<Item>, buffer: seq<Item>)
    requires NoDiscoGroups(ms) && NoDiscoGroups(buffer) && AllDisco(buffer)
    ensures Maximal(GroupDisco(ms, buffer))
  {
    if ms != [] {
      var m, rest := ms[0], ms[1..];
      assert ms == [m] + rest;
      if IsDisco(m) {
        DiscoIsMaximal(rest, buffer + [m]);
      } else {
        DiscoIsMaximal(rest, []);
        assert [m][1..] == [];
        MaximalConcat(FlushDisco(buffer), [m]);
        MaximalConcat(FlushDisco(buffer) + [m], GroupDisco(rest, []));
      }
    }
  }

  lemma BufferCloses(y: seq<Item>, buffer: seq<Item>)
    requires AllDisco(buffer) && (buffer != [] && y != [] ==> !IsDisco(y[0]))
    ensures GroupDisco(y, buffer) == FlushDisco(buffer) + GroupDisco(y, [])
  {
    if y == [] {
      assert FlushDisco(buffer) + [] == FlushDisco(buffer);
    } else if buffer == [] {
      assert [] + GroupDisco(y, []) == GroupDisco(y, []);
    } else {
      FirstApart(y);
      DiscoStep(y[0], y[1..], buffer);
      DiscoStep(y[0], y[1..], []);
      Assoc(FlushDisco(buffer), [y[0]], GroupDisco(y[1..], []));
    }
  }

  /** Two lists are passed over one by one, unless a disconnect-like run spans the seam. */
  lemma {:induction false} DiscoApart(x: seq<Item>, y: seq<Item>, buffer: seq<Item>)
    requires AllDisco(buffer)
    requires buffer + x != [] && y != [] ==> !(IsDisco((buffer + x)[|buffer + x| - 1]) && IsDisco(y[0]))
    ensures GroupDisco(x + y, buffer) == GroupDisco(x, buffer) + GroupDisco(y, [])
  {
    if x == [] {
      assert x + y == y && buffer + x == buffer;
      BufferCloses(y, buffer);
    } else {
      var m, rest := x[0], x[1..];
      FirstApart(x);
      Assoc([m], rest, y);
      DiscoStep(m, rest, buffer);
      DiscoStep(m, rest + y, buffer);
      if IsDisco(m) {
        assert (buffer + [m]) + rest == buffer + x;
        DiscoApart(rest, y, buffer + [m]);
      } else {
        assert [] + rest == rest;
        assert rest != [] ==> rest[|rest| - 1] == (buffer + x)[|buffer + x| - 1];
        DiscoApart(rest, y, []);
        Assoc(FlushDisco(buffer) + [m], GroupDisco(rest, []), GroupDisco(y, []));
      }
    }
  }

  lemma {:induction false} DiscoSize(ms: seq<Item>, b: seq<Item>, b': seq<Item>)
    requires b != [] && b' != []
    ensures |GroupDisco(ms, b)| == |GroupDisco(ms, b')|
  {
    if ms != [] && IsDisco(ms[0]) {
      DiscoSize(ms[1..], b + [ms[0]], b' + [ms[0]]);
    }
  }

  lemma BufferTakes(y: seq<Item>, buffer: seq<Item>)
    requires buffer != [] && y != [] && IsDisco(y[0])
    ensures |GroupDisco(y, buffer)| == |FlushDisco(buffer)| + |GroupDisco(y, [])| - 1
  {
    FirstApart(y);
    DiscoStep(y[0], y[1..], buffer);
    DiscoStep(y[0], y[1..], []);
    DiscoSize(y[1..], buffer + [y[0]], [] + [y[0]]);
  }

  /** A run across the seam makes one entry of two. */
  lemma {:induction false} DiscoAcross(x: seq<Item>, y: seq<Item>, buffer: seq<Item>)
    requires AllDisco(buffer) && buffer + x != [] && y != []
    requires IsDisco((buffer + x)[|buffer + x| - 1]) && IsDisco(y[0])
    ensures |GroupDisco(x + y, buffer)| == |GroupDisco(x, buffer)| + |GroupDisco(y, [])| - 1
    decreases |x|
  {
    if x == [] {
      assert x + y == y && buffer + x == buffer;
      BufferTakes(y, buffer);
    } else {
      var m, rest := x[0], x[1..];
      FirstApart(x);
      Assoc([m], rest, y);
      ConcatEnds(buffer, x);
      DiscoStep(m, rest, buffer);
      DiscoStep(m, rest + y, buffer);
      if IsDisco(m) {
        Assoc(buffer, [m], rest);
        DiscoAcross(rest, y, buffer + [m]);
      } else {
        assert rest != [] && [] + rest == rest;
        DiscoAcross(rest, y, []);
      }
    }
  }

  lemma {:induction false} AllOneGroup(ms: seq<Item>, buffer: seq<Item>)
    requires AllDisco(ms)
    ensures GroupDisco(ms, buffer) == FlushDisco(buffer + ms)
  {
    if ms == [] {
      assert buffer + ms == buffer;
    } else {
      assert ms == [ms[0]] + ms[1..];
      AllOneGroup(ms[1..], buffer + [ms[0]]);
      Assoc(buffer, [ms[0]], ms[1..]);
    }
  }

  lemma EntryIsGroup(m: Item)
    requires EntryOk(m)
    ensures GroupDisco(Open(m), []) == [m] && Open(m) != []
    ensures IsDisco(Open(m)[0]) == IsDisco(Open(m)[|Open(m)| - 1]) == Discoish(m)
  {
    if m.DiscoGroup? {
      AllOneGroup(m.items, []);
      assert [] + m.items == m.items && m.items[0] in m.items && m.items[|m.items| - 1] in m.items;
    } else {
      DiscoStep(m, [], []);
      assert [m] + [] == [m] && [] + [m] == [m];
    }
  }

  lemma {:induction false} OpenedEnds(p: seq<Item>)
    requires Maximal(p) && p != []
    ensures var q := Opened(p);
            q != [] && IsDisco(q[0]) == Discoish(p[0]) && IsDisco(q[|q| - 1]) == Discoish(p[|p| - 1])
  {
    var m, rest := p[0], p[1..];
    EntryIsGroup(m);
    if rest == [] {
      assert p == [m];
      OpenedOne(m);
    } else {
      OpenedEnds(rest);
      ConcatEnds(Open(m), Opened(rest));
    }
  }

  /** Maximal groups are what the pass makes of the opened entries. */
  lemma {:induction false} MaximalIsDisco(p: seq<Item>)
    requires Maximal(p)
    ensures GroupDisco(Opened(p), []) == p
  {
    if p != [] {
      var m, rest := p[0], p[1..];
      assert p == [m] + rest && [] + Open(m) == Open(m);
      EntryIsGroup(m);
      MaximalIsDisco(rest);
      if rest != [] {
        OpenedEnds(rest);
      }
      DiscoApart(Open(m), Opened(rest), []);
    }
  }

  lemma {:induction false} MaximalIsKept(p: seq<Item>)
    requires Maximal(p)
    ensures GroupDisco(p, []) == p
  {
    if p != [] {
      var m, rest := p[0], p[1..];
      assert p == [m] + rest && [] + [m] == [m];
      MaximalIsKept(rest);
      DiscoStep(m, [], []);
      assert [m] + [] == [m];
      DiscoApart([m], rest, []);
    }
  }

  /** Opened entries with more behind them: as they were, and then the rest. */
  lemma OpenedThen(p: seq<Item>, y: seq<Item>)
    requires Maximal(p) && (p != [] && y != [] ==> !(Discoish(p[|p| - 1]) && IsDisco(y[0])))
    ensures GroupDisco(Opened(p) + y, []) == p + GroupDisco(y, [])
  {
    if p != [] {
      OpenedEnds(p);
    }
    assert [] + Opened(p) == Opened(p);
    DiscoApart(Opened(p), y, []);
    MaximalIsDisco(p);
  }

  lemma OpenedAcross(p: seq<Item>, y: seq<Item>)
    requires Maximal(p) && p != [] && y != [] && Discoish(p[|p| - 1]) && IsDisco(y[0])
    ensures |GroupDisco(Opened(p) + y, [])| == |p| + |GroupDisco(y, [])| - 1
  {
    OpenedEnds(p);
    assert [] + Opened(p) == Opened(p);
    DiscoAcross(Opened(p), y, []);
    MaximalIsDisco(p);
  }

  /** Entries as they are with more behind them. */
  lemma KeptThen(p: seq<Item>, y: seq<Item>)
    requires Maximal(p) && (p != [] && y != [] ==> !(IsDisco(p[|p| - 1]) && IsDisco(y[0])))
    ensures GroupDisco(p + y, []) == p + GroupDisco(y, [])
  {
    assert [] + p == p;
    DiscoApart(p, y, []);
    MaximalIsKept(p);
  }
}
