/**
 When the optimiser's charge is exactly what the emitter sends. A code that a coloured
 space skips is charged all the same; it is sent later, in front of the first other
 glyph of the same state, or never.
 */
module RowExact {
  import opened Wrappers
  import opened RowModel
  import opened RowEmitter
  import opened Utf8

  predicate InksApart(row: Row, a: nat, b: nat) {
    a < |row.ink| && b < |row.ink| && a != b ==> row.ink[a] != row.ink[b]
  }

  predicate StatesApart(row: Row, s: nat, t: nat) {
    s < |row.states| && t < |row.states| && s != t ==> row.states[s] != row.states[t]
  }

  /** No two palette positions print the same ink and no two states are the same pair. */
  ghost predicate Distinct(row: Row) {
    (forall a, b :: InksApart(row, a, b)) && (forall s, t :: StatesApart(row, s, t))
  }

  predicate DrawsSpace(row: Row, path: seq<nat>, i: nat)
    requires row.Valid() && row.IsPath(path) && i < |path| && row.cells[i].Opaque?
  {
    row.cells[i].choices[path[i]].ch == ' '
  }

  /** Only spaces were drawn since the state in force took over from another one of the same paper. */
  predicate Owes(row: Row, path: seq<nat>, i: nat)
    requires row.Valid() && row.IsPath(path) && i <= |path|
  {
    i > 0 && (
      if row.cells[i - 1].Transparent? then Owes(row, path, i - 1)
      else
        DrawsSpace(row, path, i - 1) &&
        match row.InForce(path, i - 1)
        case None => false
        case Some(p) =>
          if p == path[i - 1] then Owes(row, path, i - 1) else row.states[p].b == row.states[path[i - 1]].b)
  }

  /** At cell `i` another state takes over while the one in force has drawn nothing but such spaces. */
  predicate Idles(row: Row, path: seq<nat>, i: nat)
    requires row.Valid() && row.IsPath(path) && i < |path|
  {
    row.cells[i].Opaque? && row.InForce(path, i) != Some(path[i]) && Owes(row, path, i)
  }

  /** Among the first `i` cells no state takes over from another one of its paper to draw spaces only. */
  predicate NeverIdle(row: Row, path: seq<nat>, i: nat)
    requires row.Valid() && row.IsPath(path) && i <= |path|
  {
    i > 0 ==> NeverIdle(row, path, i - 1) && !Idles(row, path, i - 1)
  }

  // ---------------------------------------------------------------- printed inks differ

  lemma DigitsDiffer(a: nat, b: nat)
    requires a < 100 && b < 100 && a != b
    ensures Dec(a) != Dec(b)
  {
  }

  lemma HexDigitsDiffer(a: nat, b: nat)
    requires a < 16 && b < 16 && a != b
    ensures HexDigit(a) != HexDigit(b)
  {
  }

  lemma Hex2Differ(a: nat, b: nat)
    requires a < 256 && b < 256 && a != b
    ensures Hex2(a) != Hex2(b)
  {
    assert a / 16 != b / 16 || a % 16 != b % 16;
    if a / 16 != b / 16 {
      HexDigitsDiffer(a / 16, b / 16);
    } else {
      HexDigitsDiffer(a % 16, b % 16);
    }
    assert Hex2(a)[0] == HexDigit(a / 16) && Hex2(b)[0] == HexDigit(b / 16);
    assert Hex2(a)[1] == HexDigit(a % 16) && Hex2(b)[1] == HexDigit(b % 16);
  }

  lemma Hex6Parts(n: nat)
    requires n < 0x100_0000
    ensures Hex6(n)[..2] == Hex2(n / 0x1_0000)
    ensures Hex6(n)[2..4] == Hex2(n / 0x100 % 0x100)
    ensures Hex6(n)[4..] == Hex2(n % 0x100)
  {
  }

  lemma HexInksDiffer(a: nat, b: nat)
    requires a < 0x100_0000 && b < 0x100_0000 && a != b
    ensures Hex6(a) != Hex6(b)
  {
    Hex6Parts(a);
    Hex6Parts(b);
    ThreeParts(a);
    ThreeParts(b);
    if a / 0x1_0000 != b / 0x1_0000 {
      Hex2Differ(a / 0x1_0000, b / 0x1_0000);
    } else if a / 0x100 % 0x100 != b / 0x100 % 0x100 {
      Hex2Differ(a / 0x100 % 0x100, b / 0x100 % 0x100);
    } else {
      Hex2Differ(a % 0x100, b % 0x100);
    }
  }

  lemma ThreeParts(n: nat)
    requires n < 0x100_0000
    ensures n == n / 0x1_0000 * 0x1_0000 + n / 0x100 % 0x100 * 0x100 + n % 0x100 && n / 0x1_0000 < 256
  {
  }

  lemma InksDiffer(wire: Wire, a: nat, b: nat)
    requires a != b
    requires a < if wire.Indexed? then 100 else 0x100_0000
    requires b < if wire.Indexed? then 100 else 0x100_0000
    ensures Ink(wire, a) != Ink(wire, b)
  {
    if wire.Indexed? {
      DigitsDiffer(a, b);
    } else {
      HexInksDiffer(a, b);
    }
  }

  /** Two states of one paper print different inks; others print different papers. */
  lemma StatesDiffer(row: Row, p: nat, s: nat)
    requires row.Valid() && Distinct(row) && p < |row.states| && s < |row.states| && p != s
    ensures if row.states[p].b == row.states[s].b then Ink(row.wire, row.Fg(p)) != Ink(row.wire, row.Fg(s))
            else Ink(row.wire, row.Bg(p)) != Ink(row.wire, row.Bg(s))
  {
    assert StatesApart(row, p, s);
    var a, b := row.states[p], row.states[s];
    assert InksApart(row, a.f, b.f) && InksApart(row, a.b, b.b);
    if a.b == b.b {
      assert a.f != b.f;
      InksDiffer(row.wire, row.ink[a.f], row.ink[b.f]);
    } else {
      InksDiffer(row.wire, row.ink[a.b], row.ink[b.b]);
    }
  }

  // ---------------------------------------------------------------- one cell

  /** What a cell sends is what it was charged, unless ink that is still owed is forgotten. */
  lemma CellPaysExactly(row: Row, prev: Option<nat>, s: nat, ch: char, pen: Pen)
    requires row.Valid() && Distinct(row) && s < |row.states| && (prev.Some? ==> prev.value < |row.states|)
    requires PenFits(row, prev, pen)
    ensures var d := Drawn(ch, Ink(row.wire, row.Fg(s)), Ink(row.wire, row.Bg(s)));
            var owed, owed' := Credit(row, prev, pen), Credit(row, Some(s), PenAfter(d, pen));
            && (CodeCost(d, pen) + owed' == row.Prefix(prev, s) + owed <==> prev == Some(s) || owed == 0)
            && (prev == Some(s) || owed == 0 ==>
                  (owed' > 0 <==> ch == ' ' && if prev == Some(s) then owed > 0
                                               else prev.Some? && row.states[prev.value].b == row.states[s].b))
  {
    InkIsOk(row.wire, row.Fg(s));
    InkIsOk(row.wire, row.Bg(s));
    if prev.Some? && prev.value != s {
      StatesDiffer(row, prev.value, s);
    }
  }

  // ---------------------------------------------------------------- the whole row

  /** What was sent and is still owed is what was charged, as long as nothing idled. */
  ghost predicate Tallied(row: Row, path: seq<nat>, i: nat, sent: nat, pen: Pen)
    requires row.Valid() && row.IsPath(path) && i <= |path|
  {
    var owed := Credit(row, row.InForce(path, i), pen);
    && Covered(row, path, i, sent, pen)
    && (NeverIdle(row, path, i)
        <==> sent + owed == row.ChargedBytes(path, i) + Gaps(row, i) + Understated(row, path, i))
    && (NeverIdle(row, path, i) ==> (owed > 0 <==> Owes(row, path, i)))
  }

  lemma TalliedStep(row: Row, path: seq<nat>, i: nat, sent: nat, pen: Pen) returns (sent': nat, pen': Pen)
    requires row.Valid() && Distinct(row) && row.IsPath(path) && i < |path| && Tallied(row, path, i, sent, pen)
    ensures Tallied(row, path, i + 1, sent', pen')
    ensures sent + Bytes(Text(row.wire, Picture(row, path)[i..], pen))
         == sent' + Bytes(Text(row.wire, Picture(row, path)[i + 1..], pen'))
  {
    var d := Draw(row, path, i);
    BytesStep(row.wire, Picture(row, path), i, pen);
    PieceBytes(row.wire, d, pen);
    sent', pen' := sent + CodeCost(d, pen) + CharBytes(d.Shows()), PenAfter(d, pen);
    if row.cells[i].Opaque? {
      var prev, s, ch := row.InForce(path, i), path[i], row.cells[i].choices[path[i]].ch;
      CellPays(row, prev, s, ch, pen);
      CellPaysExactly(row, prev, s, ch, pen);
    }
  }

  lemma {:induction false} BytesTallied(row: Row, path: seq<nat>, i: nat, sent: nat, pen: Pen)
    returns (sent': nat, pen': Pen)
    requires row.Valid() && Distinct(row) && row.IsPath(path) && i <= |path| && Tallied(row, path, i, sent, pen)
    ensures sent' == sent + Bytes(Text(row.wire, Picture(row, path)[i..], pen))
    ensures Tallied(row, path, |path|, sent', pen')
    decreases |path| - i
  {
    if i == |path| {
      assert Picture(row, path)[i..] == [];
      sent', pen' := sent, pen;
    } else {
      var sent1, pen1 := TalliedStep(row, path, i, sent, pen);
      sent', pen' := BytesTallied(row, path, i + 1, sent1, pen1);
    }
  }

  /**
   The line a choice prints is exactly as long as it was charged for, one byte more for
   every transparent cell, if and only if no state takes over from another one of its
   paper to draw spaces only.
   */
  lemma ExactBytes(row: Row, path: seq<nat>)
    requires row.Valid() && Distinct(row) && row.IsPath(path)
    ensures Bytes(Text(row.wire, Picture(row, path), START))
         == row.ChargedBytes(path, |path|) + Gaps(row, |path|) + Understated(row, path, |path|)
        <==> NeverIdle(row, path, |path|) && !Owes(row, path, |path|)
  {
    var cells := Picture(row, path);
    assert cells[0..] == cells;
    var sent, pen := BytesTallied(row, path, 0, 0, START);
  }

  /** A choice that draws no spaces never idles. */
  lemma {:induction false} NoSpacesNoIdling(row: Row, path: seq<nat>, i: nat)
    requires row.Valid() && row.IsPath(path) && i <= |path|
    requires forall k :: 0 <= k < |path| && row.cells[k].Opaque? ==> !DrawsSpace(row, path, k)
    ensures !Owes(row, path, i) && NeverIdle(row, path, i)
  {
    if i > 0 {
      NoSpacesNoIdling(row, path, i - 1);
    }
  }
}
