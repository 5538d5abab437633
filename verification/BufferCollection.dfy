/**
 The collection of open buffers: a map by name and a list in display order, kept in
 step by every operation.

 `Table` and the lists of names are the specification; the class is proved to follow
 them, with the server buffer first and the others in natural order.
 */
module BufferCollection {
  import opened Wrappers

  const SERVER := "_server"

  /** The fields of a buffer besides its name. */
  type Fields = map<string, string>

  /** What is known under each name. */
  type Table = map<string, Fields>

  /** Name folding and display order, as laid down by the client's helpers. */
  datatype Naming = Naming(norm: string -> string, compare: (string, string) -> int) {
    ghost predicate Lawful() {
      && (forall s :: norm(norm(s)) == norm(s))
      && (forall a, b :: compare(a, b) < 0 <==> compare(b, a) > 0)
      && (forall a, b, c :: compare(a, b) <= 0 && compare(b, c) <= 0 ==> compare(a, c) <= 0)
    }
  }

  // ---------------------------------------------------------------- display order

  /** `a` stands above `b`: the server buffer above all others, the others in natural order. */
  predicate Above(nm: Naming, a: string, b: string) {
    a != b && b != SERVER && (a != SERVER ==> nm.compare(a, b) <= 0)
  }

  ghost predicate Ordered(nm: Naming, names: seq<string>) {
    forall i, j :: 0 <= i < j < |names| ==> Above(nm, names[i], names[j])
  }

  /** Where `_insertSorted` puts `name`, looking from `i` on. */
  function Place(nm: Naming, names: seq<string>, name: string, i: nat): (p: nat)
    requires i <= |names|
    ensures i <= p <= |names|
    ensures forall k :: i <= k < p ==> names[k] == SERVER || nm.compare(name, names[k]) >= 0
    ensures p < |names| ==> names[p] != SERVER && nm.compare(name, names[p]) < 0
    decreases |names| - i
  {
    if i == |names| then i
    else if names[i] != SERVER && nm.compare(name, names[i]) < 0 then i
    else Place(nm, names, name, i + 1)
  }

  function At<T>(names: seq<T>, p: nat, name: T): seq<T>
    requires p <= |names|
  {
    names[..p] + [name] + names[p..]
  }

  function PlaceOf(nm: Naming, names: seq<string>, name: string): (p: nat)
    ensures p <= |names|
  {
    if name == SERVER then 0 else Place(nm, names, name, 0)
  }

  lemma OrderedJoin(nm: Naming, a: seq<string>, b: seq<string>)
    requires Ordered(nm, a) && Ordered(nm, b)
    requires forall i, j :: 0 <= i < |a| && 0 <= j < |b| ==> Above(nm, a[i], b[j])
    ensures Ordered(nm, a + b)
  {
    forall i, j | 0 <= i < j < |a + b|
      ensures Above(nm, (a + b)[i], (a + b)[j])
    {
      if i < |a| <= j {
        assert Above(nm, a[i], b[j - |a|]);
      } else if j < |a| {
        assert Above(nm, a[i], a[j]);
      } else {
        assert Above(nm, b[i - |a|], b[j - |a|]);
      }
    }
  }

  /** A new name put in its place keeps the order. */
  lemma InsertKeepsOrder(nm: Naming, names: seq<string>, name: string)
    requires nm.Lawful() && Ordered(nm, names) && name !in names
    ensures Ordered(nm, At(names, PlaceOf(nm, names, name), name))
  {
    var p := PlaceOf(nm, names, name);
    forall k | 0 <= k < p
      ensures Above(nm, names[k], name)
    {
      assert names[k] in names;
    }
    forall k | p <= k < |names|
      ensures Above(nm, name, names[k])
    {
      NotAbove(nm, names, name, k);
    }
    assert Ordered(nm, names[..p]) by {
      forall i, j | 0 <= i < j < p
        ensures Above(nm, names[..p][i], names[..p][j])
      {
        assert Above(nm, names[i], names[j]);
      }
    }
    assert Ordered(nm, names[p..]) by {
      forall i, j | 0 <= i < j < |names| - p
        ensures Above(nm, names[p..][i], names[p..][j])
      {
        assert Above(nm, names[p + i], names[p + j]);
      }
    }
    OrderedJoin(nm, names[..p], [name]);
    OrderedJoin(nm, names[..p] + [name], names[p..]);
  }

  lemma NotAbove(nm: Naming, names: seq<string>, name: string, k: nat)
    requires nm.Lawful() && Ordered(nm, names) && name !in names && PlaceOf(nm, names, name) <= k < |names|
    ensures Above(nm, name, names[k])
  {
    var p := PlaceOf(nm, names, name);
    assert names[k] in names;
    if name != SERVER && p < k {
      assert Above(nm, names[p], names[k]);
      assert nm.compare(name, names[p]) <= 0;
    }
  }

  /** A new name goes to its place, a known one stays where it is. */
  function AddName(nm: Naming, names: seq<string>, name: string): seq<string> {
    if name in names then names else At(names, PlaceOf(nm, names, name), name)
  }

  /** `filter(b => b.name !== name)` on the names. */
  function Without(names: seq<string>, name: string): seq<string> {
    if names == [] then []
    else (if names[0] == name then [] else [names[0]]) + Without(names[1..], name)
  }

  /** What is left once every name outside `wanted` has been removed. */
  function Keep(names: seq<string>, wanted: set<string>): seq<string> {
    if names == [] then []
    else (if names[0] in wanted then [names[0]] else []) + Keep(names[1..], wanted)
  }

  lemma {:induction false} KeepLess(names: seq<string>, wanted: set<string>, name: string)
    ensures Without(Keep(names, wanted), name) == Keep(names, wanted - {name})
  {
    if names != [] {
      KeepLess(names[1..], wanted, name);
      var rest := Keep(names[1..], wanted);
      assert ([names[0]] + rest)[1..] == rest && [] + rest == rest;
      assert [] + Keep(names[1..], wanted - {name}) == Keep(names[1..], wanted - {name});
    }
  }

  lemma {:induction false} KeepAll(names: seq<string>, wanted: set<string>)
    requires forall n :: n in names ==> n in wanted
    ensures Keep(names, wanted) == names
  {
    if names != [] {
      assert names == [names[0]] + names[1..];
      KeepAll(names[1..], wanted);
    }
  }

  lemma {:induction false} KeepsOrder(nm: Naming, names: seq<string>, wanted: set<string>)
    requires Ordered(nm, names)
    ensures Ordered(nm, Keep(names, wanted))
    ensures forall n :: n in Keep(names, wanted) <==> n in names && n in wanted
  {
    if names != [] {
      var rest := names[1..];
      assert Ordered(nm, rest) by {
        forall i, j | 0 <= i < j < |rest|
          ensures Above(nm, rest[i], rest[j])
        {
          assert Above(nm, names[i + 1], names[j + 1]);
        }
      }
      KeepsOrder(nm, rest, wanted);
      assert names == [names[0]] + rest;
      if names[0] in wanted {
        var less := Keep(rest, wanted);
        forall i | 0 <= i < |less|
          ensures Above(nm, names[0], less[i])
        {
          assert less[i] in rest;
          var k :| 0 <= k < |rest| && rest[k] == less[i];
          assert Above(nm, names[0], names[k + 1]);
        }
        OrderedJoin(nm, [names[0]], less);
      }
    }
  }

  lemma {:induction false} WithoutMembers(names: seq<string>, name: string)
    ensures forall n :: n in Without(names, name) <==> n in names && n != name
  {
    if names != [] {
      assert names == [names[0]] + names[1..];
      WithoutMembers(names[1..], name);
    }
  }

  lemma {:induction false} NothingWithout(names: seq<string>, name: string)
    requires name !in names
    ensures Without(names, name) == names
  {
    if names != [] {
      assert names == [names[0]] + names[1..];
      NothingWithout(names[1..], name);
    }
  }

  lemma {:induction false} WithoutOneMore(names: seq<string>, last: string, name: string)
    ensures Without(names + [last], name) == Without(names, name) + if last == name then [] else [last]
  {
    if names == [] {
      assert [] + [last] == [last] && [last][1..] == [];
    } else {
      assert (names + [last])[1..] == names[1..] + [last];
      WithoutOneMore(names[1..], last, name);
    }
  }

  // ---------------------------------------------------------------- what the table becomes

  function FieldsIn(t: Table, name: string): Fields {
    if name in t then t[name] else map[]
  }

  /** `add`: fields already known stay unless they are given anew. */
  function AddTo(t: Table, name: string, fields: Fields): Table {
    t[name := FieldsIn(t, name) + fields]
  }

  lemma NewFields(t: Table, name: string, fields: Fields)
    requires name !in t
    ensures AddTo(t, name, fields) == t[name := fields]
  {
    assert map[] + fields == fields;
  }

  datatype Entry = Entry(name: string, fields: Fields)

  function AddAll(nm: Naming, t: Table, entries: seq<Entry>): Table
    decreases entries
  {
    if entries == [] then t
    else AddAll(nm, AddTo(t, nm.norm(entries[0].name), entries[0].fields), entries[1..])
  }

  function NamesOf(nm: Naming, entries: seq<Entry>): set<string> {
    set e | e in entries :: nm.norm(e.name)
  }

  /** `sync`: names that are not in the payload go, then every entry is added. */
  function SyncTo(nm: Naming, t: Table, entries: seq<Entry>): Table {
    AddAll(nm, Restrict(t, NamesOf(nm, entries)), entries)
  }

  function Restrict(t: Table, names: set<string>): Table {
    map n | n in t && n in names :: t[n]
  }

  lemma RestrictSteps(t: Table, names: set<string>, name: string)
    ensures Restrict(t, names) - {name} == Restrict(t, names - {name})
    ensures Restrict(t, t.Keys + names) == t
  {
  }

  /** All fields a payload gives for one name, later ones winning. */
  function Given(nm: Naming, entries: seq<Entry>, name: string): Fields {
    if entries == [] then map[]
    else
      (if nm.norm(entries[0].name) == name then entries[0].fields else map[]) + Given(nm, entries[1..], name)
  }

  lemma {:induction false} AddAllGives(nm: Naming, t: Table, entries: seq<Entry>)
    ensures AddAll(nm, t, entries).Keys == t.Keys + NamesOf(nm, entries)
    ensures forall n :: n in AddAll(nm, t, entries) ==>
      AddAll(nm, t, entries)[n] == FieldsIn(t, n) + Given(nm, entries, n)
    decreases entries
  {
    if entries == [] {
      forall n | n in t
        ensures t[n] == FieldsIn(t, n) + Given(nm, entries, n)
      {
        assert t[n] + map[] == t[n];
      }
    } else {
      var name, fields, rest := nm.norm(entries[0].name), entries[0].fields, entries[1..];
      AddAllGives(nm, AddTo(t, name, fields), rest);
      FirstName(nm, entries);
      forall n | n in AddAll(nm, t, entries)
        ensures AddAll(nm, t, entries)[n] == FieldsIn(t, n) + Given(nm, entries, n)
      {
        FirstGiven(nm, t, entries, n);
      }
    }
  }

  lemma FirstName(nm: Naming, entries: seq<Entry>)
    requires entries != []
    ensures NamesOf(nm, entries) == {nm.norm(entries[0].name)} + NamesOf(nm, entries[1..])
  {
    assert entries == [entries[0]] + entries[1..];
  }

  lemma FirstGiven(nm: Naming, t: Table, entries: seq<Entry>, n: string)
    requires entries != []
    ensures var t' := AddTo(t, nm.norm(entries[0].name), entries[0].fields);
            FieldsIn(t', n) + Given(nm, entries[1..], n) == FieldsIn(t, n) + Given(nm, entries, n)
  {
    MergeTwice(FieldsIn(t, n), if nm.norm(entries[0].name) == n then entries[0].fields else map[],
               Given(nm, entries[1..], n));
  }

  lemma MergeTwice(a: Fields, b: Fields, c: Fields)
    ensures (a + b) + c == a + (b + c)
    ensures a + map[] == a
  {
  }

  /** After a sync exactly the payload's names are left, with the payload's fields on top. */
  lemma SyncGives(nm: Naming, t: Table, entries: seq<Entry>)
    ensures SyncTo(nm, t, entries).Keys == NamesOf(nm, entries)
    ensures forall n :: n in NamesOf(nm, entries) ==>
      SyncTo(nm, t, entries)[n] == FieldsIn(t, n) + Given(nm, entries, n)
  {
    var kept := Restrict(t, NamesOf(nm, entries));
    AddAllGives(nm, kept, entries);
    forall n | n in NamesOf(nm, entries)
      ensures FieldsIn(kept, n) == FieldsIn(t, n)
    {
    }
  }

  lemma Again(a: Fields, b: Fields)
    ensures (a + b) + b == a + b
  {
  }

  /** The same payload a second time changes nothing. */
  lemma SyncTwice(nm: Naming, t: Table, entries: seq<Entry>)
    ensures SyncTo(nm, SyncTo(nm, t, entries), entries) == SyncTo(nm, t, entries)
  {
    var once := SyncTo(nm, t, entries);
    var twice := SyncTo(nm, once, entries);
    SyncGives(nm, t, entries);
    SyncGives(nm, once, entries);
    forall n | n in NamesOf(nm, entries)
      ensures twice[n] == once[n]
    {
      Again(FieldsIn(t, n), Given(nm, entries, n));
    }
  }

  // ---------------------------------------------------------------- whole runs

  function AddNames(nm: Naming, names: seq<string>, entries: seq<Entry>): seq<string>
    decreases entries
  {
    if entries == [] then names
    else AddNames(nm, AddName(nm, names, nm.norm(entries[0].name)), entries[1..])
  }

  datatype State = State(names: seq<string>, table: Table)

  const EMPTY := State([], map[])

  /** Every name outside `wanted` removed. */
  function OnlyNames(s: State, wanted: set<string>): State {
    State(Keep(s.names, wanted), Restrict(s.table, wanted))
  }

  lemma OnlyNamesLess(nm: Naming, s: State, wanted: set<string>, name: string)
    requires nm.norm(name) == name
    ensures Step(nm, OnlyNames(s, wanted), Remove(name)) == OnlyNames(s, wanted - {name})
  {
    KeepLess(s.names, wanted, name);
    RestrictSteps(s.table, wanted, name);
  }

  lemma OnlyNamesAll(s: State, wanted: set<string>)
    requires forall n :: n in s.names ==> n in s.table
    ensures OnlyNames(s, s.table.Keys + wanted) == s
  {
    KeepAll(s.names, s.table.Keys + wanted);
    RestrictSteps(s.table, wanted, "");
  }

  function AddEntries(nm: Naming, s: State, entries: seq<Entry>): State
    decreases entries
  {
    if entries == [] then s else AddEntries(nm, Step(nm, s, Add(entries[0])), entries[1..])
  }

  lemma {:induction false} AddEntriesIs(nm: Naming, s: State, entries: seq<Entry>)
    ensures AddEntries(nm, s, entries) == State(AddNames(nm, s.names, entries), AddAll(nm, s.table, entries))
    decreases entries
  {
    if entries != [] {
      AddEntriesIs(nm, Step(nm, s, Add(entries[0])), entries[1..]);
    }
  }

  lemma NextEntry(nm: Naming, s: State, entries: seq<Entry>, i: nat)
    requires i < |entries|
    ensures AddEntries(nm, s, entries[i..]) == AddEntries(nm, Step(nm, s, Add(entries[i])), entries[i + 1..])
  {
    assert entries[i..][1..] == entries[i + 1..];
  }

  datatype Op = Add(e: Entry) | Remove(name: string) | Clear | Sync(payload: seq<Entry>)

  /** What one operation makes of the collection. */
  function Step(nm: Naming, s: State, op: Op): State {
    match op
    case Add(e) => State(AddName(nm, s.names, nm.norm(e.name)), AddTo(s.table, nm.norm(e.name), e.fields))
    case Remove(name) => State(Without(s.names, nm.norm(name)), s.table - {nm.norm(name)})
    case Clear => EMPTY
    case Sync(payload) =>
      State(AddNames(nm, Keep(s.names, NamesOf(nm, payload)), payload), SyncTo(nm, s.table, payload))
  }

  /** A sync is a removal of names and then one `add` after the other. */
  lemma SyncIsSteps(nm: Naming, s: State, payload: seq<Entry>)
    ensures Step(nm, s, Sync(payload)) == AddEntries(nm, OnlyNames(s, NamesOf(nm, payload)), payload)
  {
    AddEntriesIs(nm, OnlyNames(s, NamesOf(nm, payload)), payload);
  }

  function Run(nm: Naming, s: State, ops: seq<Op>): State
    decreases ops
  {
    if ops == [] then s else Run(nm, Step(nm, s, ops[0]), ops[1..])
  }

  /** Each known name once, normalised, in display order. */
  ghost predicate Sound(nm: Naming, s: State) {
    && Ordered(nm, s.names)
    && (forall n :: n in s.names <==> n in s.table)
    && (forall n :: n in s.table ==> nm.norm(n) == n)
  }

  lemma AddIsSound(nm: Naming, names: seq<string>, table: Table, name: string, fields: Fields)
    requires nm.Lawful() && Sound(nm, State(names, table)) && nm.norm(name) == name
    ensures Sound(nm, State(AddName(nm, names, name), AddTo(table, name, fields)))
  {
    if name !in names {
      InsertKeepsOrder(nm, names, name);
      var p := PlaceOf(nm, names, name);
      assert names == names[..p] + names[p..];
    }
  }

  lemma {:induction false} AddsAreSound(nm: Naming, names: seq<string>, table: Table, entries: seq<Entry>)
    requires nm.Lawful() && Sound(nm, State(names, table))
    ensures Sound(nm, State(AddNames(nm, names, entries), AddAll(nm, table, entries)))
    decreases entries
  {
    if entries != [] {
      var name, fields := nm.norm(entries[0].name), entries[0].fields;
      AddIsSound(nm, names, table, name, fields);
      AddsAreSound(nm, AddName(nm, names, name), AddTo(table, name, fields), entries[1..]);
    }
  }

  lemma StepIsSound(nm: Naming, s: State, op: Op)
    requires nm.Lawful() && Sound(nm, s)
    ensures Sound(nm, Step(nm, s, op))
  {
    match op
    case Add(e) => AddIsSound(nm, s.names, s.table, nm.norm(e.name), e.fields);
    case Remove(name) =>
      var all := s.table.Keys;
      KeepAll(s.names, all);
      KeepLess(s.names, all, nm.norm(name));
      KeepsOrder(nm, s.names, all - {nm.norm(name)});
    case Clear =>
    case Sync(payload) =>
      KeepsOrder(nm, s.names, NamesOf(nm, payload));
      AddsAreSound(nm, Keep(s.names, NamesOf(nm, payload)), Restrict(s.table, NamesOf(nm, payload)), payload);
  }

  /** After any run list and map agree on the names, each once, the server first and the rest in order. */
  lemma {:induction false} RunIsSound(nm: Naming, s: State, ops: seq<Op>)
    requires nm.Lawful() && Sound(nm, s)
    ensures Sound(nm, Run(nm, s, ops))
    decreases ops
  {
    if ops != [] {
      StepIsSound(nm, s, ops[0]);
      RunIsSound(nm, Step(nm, s, ops[0]), ops[1..]);
    }
  }

  // ---------------------------------------------------------------- the collection

  class Buffer {
    var name: string
    var fields: Fields

    constructor (name: string, fields: Fields)
      ensures this.name == name && this.fields == fields
    {
      this.name := name;
      this.fields := fields;
    }
  }

  /** Map and list hold the same buffers under the same names. */
  ghost predicate InStep(byName: map<string, Buffer>, items: seq<Buffer>, names: seq<string>) {
    && |items| == |names|
    && (forall i :: 0 <= i < |items| ==> names[i] in byName && byName[names[i]] == items[i])
    && (forall n :: n in byName ==> n in names)
  }

  lemma InsertedInStep(byName: map<string, Buffer>, items: seq<Buffer>, names: seq<string>,
                       p: nat, name: string, buf: Buffer)
    requires InStep(byName, items, names) && p <= |items| && name !in byName
    ensures InStep(byName[name := buf], At(items, p, buf), At(names, p, name))
    ensures name !in names
  {
    var map', items', names' := byName[name := buf], At(items, p, buf), At(names, p, name);
    forall i | 0 <= i < |items'|
      ensures names'[i] in map' && map'[names'[i]] == items'[i]
    {
      if i != p {
        var k := if i < p then i else i - 1;
        assert names'[i] == names[k] && items'[i] == items[k] && names[k] in byName;
      }
    }
    assert names'[p] == name;
    forall n | n in map'
      ensures n in names'
    {
      if n != name {
        var k :| 0 <= k < |names| && names[k] == n;
        assert names'[if k < p then k else k + 1] == n;
      }
    }
  }

  lemma LeftInStep(byName: map<string, Buffer>, items: seq<Buffer>, left: seq<string>, name: string)
    requires |items| == |left| && forall i :: 0 <= i < |items| ==> left[i] in byName && byName[left[i]] == items[i]
    requires name !in left && forall n :: n in byName && n != name ==> n in left
    ensures InStep(byName - {name}, items, left)
  {
    forall i | 0 <= i < |items|
      ensures left[i] in byName - {name}
    {
      assert left[i] in left;
    }
  }

  /** The buffer has this name, which is normalised, and these fields. */
  ghost predicate Matches(nm: Naming, b: Buffer, name: string, fields: Fields)
    reads b
  {
    b.name == name == nm.norm(name) && b.fields == fields
  }

  /** Every buffer under a name has that name and the fields the table gives. */
  ghost predicate Fits(nm: Naming, byName: map<string, Buffer>, table: Table, repr: set<Buffer>)
    reads repr
  {
    && byName.Keys == table.Keys
    && forall n :: n in byName ==> byName[n] in repr && Matches(nm, byName[n], n, table[n])
  }

  lemma FitsMore(nm: Naming, byName: map<string, Buffer>, table: Table, repr: set<Buffer>, buf: Buffer)
    requires Fits(nm, byName, table, repr) && buf.name == nm.norm(buf.name)
    ensures Fits(nm, byName[buf.name := buf], table[buf.name := buf.fields], repr + {buf})
  {
  }

  lemma FitsLess(nm: Naming, byName: map<string, Buffer>, table: Table, repr: set<Buffer>, name: string)
    requires Fits(nm, byName, table, repr)
    ensures Fits(nm, byName - {name}, table - {name}, repr)
  {
  }

  lemma ListedNames(nm: Naming, byName: map<string, Buffer>, table: Table, repr: set<Buffer>,
                    items: seq<Buffer>, names: seq<string>)
    requires Fits(nm, byName, table, repr) && InStep(byName, items, names)
    ensures forall i :: 0 <= i < |items| ==> items[i].name == names[i]
  {
    forall i | 0 <= i < |items|
      ensures items[i].name == names[i]
    {
      assert names[i] in byName;
    }
  }

  class BufferCollection {
    const nm: Naming
    var byName: map<string, Buffer>
    var items: seq<Buffer>

    /** The names in display order, and the fields under each of them. */
    ghost var model: State

    /** Every buffer that is or was held. */
    ghost var repr: set<Buffer>

    /** List and map hold the same buffers, each under its own normalised name. */
    ghost predicate Valid()
      reads this, repr
    {
      && (forall s :: nm.norm(nm.norm(s)) == nm.norm(s))
      && InStep(byName, items, model.names)
      && Fits(nm, byName, model.table, repr)
    }

    lemma Held(n: string)
      requires Valid() && n in byName
      ensures byName[n] in items && n in model.names
    {
      var i :| 0 <= i < |model.names| && model.names[i] == n;
      assert items[i] == byName[n];
    }

    constructor (nm: Naming)
      requires forall s :: nm.norm(nm.norm(s)) == nm.norm(s)
      ensures Valid() && this.nm == nm && model == EMPTY && repr == {}
    {
      this.nm := nm;
      byName, items, model, repr := map[], [], EMPTY, {};
    }

    method Get(name: string) returns (r: Option<Buffer>)
      requires Valid()
      ensures r.Some? <==> nm.norm(name) in model.table
      ensures r.Some? ==> r.value in items && nm.norm(name) in model.table
                          && Matches(nm, r.value, nm.norm(name), model.table[nm.norm(name)])
    {
      var n := nm.norm(name);
      if n in byName {
        Held(n);
        r := Some(byName[n]);
      } else {
        r := None;
      }
    }

    /** `_insertSorted`. */
    method InsertSorted(buf: Buffer)
      requires |items| == |model.names| && forall i :: 0 <= i < |items| ==> items[i].name == model.names[i]
      modifies this`items
      ensures var p := PlaceOf(nm, model.names, buf.name); items == At(old(items), p, buf)
    {
      if buf.name == SERVER {
        items := [buf] + items;
        return;
      }
      for i := 0 to |items|
        invariant items == old(items)
        invariant Place(nm, model.names, buf.name, 0) == Place(nm, model.names, buf.name, i)
      {
        if items[i].name != SERVER && nm.compare(buf.name, items[i].name) < 0 {
          items := items[..i] + [buf] + items[i..];
          return;
        }
      }
      items := items + [buf];
    }

    /** `add`, when the name is known: the fields are merged into the buffer already held. */
    method Merge(buf: Buffer) returns (existing: Buffer)
      requires Valid() && buf.name in byName
      modifies this`model, byName[buf.name]
      ensures Valid() && existing == byName[buf.name]
      ensures model == old(model).(table := AddTo(old(model).table, old(buf.name), old(buf.fields)))
    {
      existing := byName[buf.name];
      SetFields(existing, existing.fields + buf.fields);
    }

    method SetFields(held: Buffer, fields: Fields)
      requires Valid() && held.name in byName && byName[held.name] == held
      modifies this`model, held`fields
      ensures Valid() && model == old(model).(table := old(model).table[held.name := fields])
    {
      model := model.(table := model.table[held.name := fields]);
      held.fields := fields;
    }

    /** `add`, when the name is new. */
    method Insert(buf: Buffer)
      requires Valid() && buf.name !in byName && buf.name == nm.norm(buf.name)
      modifies this
      ensures Valid() && byName == old(byName)[buf.name := buf] && repr == old(repr) + {buf}
      ensures model == State(AddName(nm, old(model).names, buf.name), AddTo(old(model).table, buf.name, buf.fields))
      ensures items == At(old(items), PlaceOf(nm, old(model).names, buf.name), buf)
    {
      ghost var next := Inserted(buf);
      ListedNames(nm, byName, model.table, repr, items, model.names);
      InsertSorted(buf);
      Become(byName[buf.name := buf], items, next, repr + {buf});
    }

    /** The state with one buffer more fits the map and the list with it. */
    lemma Inserted(buf: Buffer) returns (next: State)
      requires Valid() && buf.name !in byName && buf.name == nm.norm(buf.name)
      ensures next == State(AddName(nm, model.names, buf.name), AddTo(model.table, buf.name, buf.fields))
      ensures InStep(byName[buf.name := buf], At(items, PlaceOf(nm, model.names, buf.name), buf), next.names)
      ensures Fits(nm, byName[buf.name := buf], next.table, repr + {buf})
    {
      ghost var p := PlaceOf(nm, model.names, buf.name);
      FitsMore(nm, byName, model.table, repr, buf);
      InsertedInStep(byName, items, model.names, p, buf.name, buf);
      NewFields(model.table, buf.name, buf.fields);
      next := State(At(model.names, p, buf.name), model.table[buf.name := buf.fields]);
    }

    /** A buffer under a new name is put in its place; one under a known name is merged. */
    method Add(buf: Buffer) returns (r: Buffer)
      requires Valid()
      modifies this, buf, repr
      ensures Valid() && r in items && r.name == nm.norm(old(buf.name)) && repr <= old(repr) + {buf}
      ensures model == Step(nm, old(model), Op.Add(Entry(old(buf.name), old(buf.fields))))
      ensures if nm.norm(old(buf.name)) in old(byName)
              then r == old(byName)[nm.norm(old(buf.name))] && items == old(items) && byName == old(byName)
              else r == buf && items == At(old(items), PlaceOf(nm, old(model).names, nm.norm(old(buf.name))), buf)
    {
      Rename(buf);
      if buf.name in byName {
        Held(buf.name);
        r := Merge(buf);
      } else {
        Unknown(buf.name);
        Insert(buf);
        r := buf;
        ghost var p := PlaceOf(nm, old(model).names, buf.name);
        assert items[p] == buf;
      }
    }

    lemma Unknown(n: string)
      requires Valid() && n !in byName
      ensures n !in model.names
    {
      assert forall i :: 0 <= i < |model.names| ==> model.names[i] in byName;
    }

    /** `buf.name = normalizeChannelName(buf.name)`; a buffer already held keeps its name. */
    method Rename(buf: Buffer)
      requires Valid()
      modifies buf`name
      ensures Valid() && buf.name == nm.norm(old(buf.name)) == nm.norm(buf.name)
    {
      buf.name := nm.norm(buf.name);
    }

    method Remove(name: string) returns (r: Option<Buffer>)
      requires Valid()
      modifies this
      ensures Valid() && model == Step(nm, old(model), Op.Remove(name))
      ensures r == if nm.norm(name) in old(byName) then Some(old(byName)[nm.norm(name)]) else None
      ensures repr == old(repr)
    {
      var norm := nm.norm(name);
      if norm !in byName {
        Unknown(norm);
        NothingWithout(model.names, norm);
        assert model.table - {norm} == model.table;
        return None;
      }
      r := Some(byName[norm]);
      Drop(norm);
    }

    method Drop(norm: string)
      requires Valid() && norm in byName
      modifies this
      ensures Valid() && repr == old(repr) && model == State(Without(old(model).names, norm), old(model).table - {norm})
    {
      var kept := Others(norm);
      FitsLess(nm, byName, model.table, repr, norm);
      Become(byName - {norm}, kept, State(Without(model.names, norm), model.table - {norm}), repr);
    }

    /** Map, list and model change together. */
    method Become(byName': map<string, Buffer>, items': seq<Buffer>, ghost model': State, ghost repr': set<Buffer>)
      requires (forall s :: nm.norm(nm.norm(s)) == nm.norm(s)) && InStep(byName', items', model'.names)
      requires Fits(nm, byName', model'.table, repr')
      modifies this
      ensures Valid() && byName == byName' && items == items' && model == model' && repr == repr'
    {
      byName, items, model, repr := byName', items', model', repr';
    }

    /** The other buffers are in step with the other names. */
    method Others(norm: string) returns (kept: seq<Buffer>)
      requires Valid() && norm in byName
      ensures InStep(byName - {norm}, kept, Without(model.names, norm))
    {
      WithoutMembers(model.names, norm);
      ListedNames(nm, byName, model.table, repr, items, model.names);
      kept := FilterOut(items, norm, byName, model.names);
      LeftInStep(byName, kept, Without(model.names, norm), norm);
    }

    /** `_items.filter(b => b.name !== norm)`. */
    static method FilterOut(items: seq<Buffer>, norm: string,
                            ghost byName: map<string, Buffer>, ghost names: seq<string>)
      returns (kept: seq<Buffer>)
      requires InStep(byName, items, names) && forall i :: 0 <= i < |items| ==> items[i].name == names[i]
      ensures var left := Without(names, norm);
        |kept| == |left| && forall i :: 0 <= i < |kept| ==> left[i] in byName && byName[left[i]] == kept[i]
    {
      kept := [];
      ghost var left: seq<string> := [];
      assert names[..0] == [];
      for i := 0 to |items|
        invariant left == Without(names[..i], norm) && |kept| == |left|
        invariant forall k :: 0 <= k < |kept| ==> left[k] in byName && byName[left[k]] == kept[k]
      {
        assert names[..i + 1] == names[..i] + [names[i]];
        WithoutOneMore(names[..i], names[i], norm);
        if items[i].name != norm {
          kept, left := kept + [items[i]], left + [names[i]];
        }
      }
      assert names[..|items|] == names;
    }

    method Clear()
      requires Valid()
      modifies this
      ensures Valid() && model == Step(nm, old(model), Op.Clear) && repr == old(repr)
    {
      byName, items, model := map[], [], EMPTY;
    }

    /** `add({ ...b })`. */
    method AddCopy(e: Entry)
      requires Valid()
      modifies this, repr
      ensures Valid() && model == Step(nm, old(model), Op.Add(e))
      ensures fresh(repr - old(repr))
    {
      var copy := new Buffer(e.name, e.fields);
      var r := Add(copy);
    }

    method AddCopies(payload: seq<Entry>)
      requires Valid()
      modifies this, repr
      ensures Valid() && model == AddEntries(nm, old(model), payload) && fresh(repr - old(repr))
    {
      assert payload[0..] == payload;
      for i := 0 to |payload|
        invariant Valid() && fresh(repr - old(repr))
        invariant AddEntries(nm, model, payload[i..]) == AddEntries(nm, old(model), payload)
      {
        NextEntry(nm, model, payload, i);
        AddCopy(payload[i]);
      }
    }

    static lemma LessPending(pending: set<string>, wanted: set<string>, name: string)
      ensures (pending - {name}) + wanted == if name in wanted then pending + wanted else (pending + wanted) - {name}
      requires name in pending
    {
    }

    /** The names that are not wanted are removed one by one. */
    method DropAllBut(wanted: set<string>)
      requires Valid()
      modifies this
      ensures Valid() && model == OnlyNames(old(model), wanted)
      ensures repr == old(repr)
    {
      var pending := byName.Keys;
      ghost var left := pending + wanted;
      OnlyNamesAll(model, wanted);
      while pending != {}
        invariant Valid() && pending <= byName.Keys && left == pending + wanted
        invariant model == OnlyNames(old(model), left)
        invariant repr == old(repr)
        decreases pending
      {
        var name :| name in pending;
        Held(name);
        LessPending(pending, wanted, name);
        if name !in wanted {
          OnlyNamesLess(nm, old(model), left, name);
          left := left - {name};
          var r := Remove(name);
        }
        pending := pending - {name};
      }
      assert left == wanted;
    }

    /** `sync`: the payload arrives decoded, and every entry is copied into a buffer of its own. */
    method Sync(payload: seq<Entry>)
      requires Valid()
      modifies this, repr
      ensures Valid() && model == Step(nm, old(model), Op.Sync(payload)) && fresh(repr - old(repr))
    {
      SyncIsSteps(nm, model, payload);
      DropAllBut(NamesOf(nm, payload));
      AddCopies(payload);
    }
  }
}
