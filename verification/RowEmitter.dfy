/**
 The row emitter: prints a chosen row as IRC text, sending a colour code only when
 the pen does not already hold the colours the cell needs.
 */
module RowEmitter {
  import opened Sequences
  import opened Wrappers
  import opened RowModel
  import opened Utf8
  import F = IrcFormatting

  /** `first`, `lastFg`, `lastBg`: the colours as printed text, empty before any code. */
  datatype Pen = Pen(first: bool, fg: string, bg: string)

  const START := Pen(true, "", "")

  /** Which code a cell sends. */
  datatype Code = NoCode | FgOnly | Full

  function Digit(n: nat): char
    requires n < 10
  {
    n as char + '0'
  }

  function Dec(n: nat): string
    requires n < 100
  {
    if n < 10 then [Digit(n)] else [Digit(n / 10), Digit(n % 10)]
  }

  function HexDigit(n: nat): char
    requires n < 16
  {
    if n < 10 then Digit(n) else (n - 10) as char + 'a'
  }

  function Hex2(n: nat): string
    requires n < 256
  {
    [HexDigit(n / 16), HexDigit(n % 16)]
  }

  function Hex6(n: nat): (s: string)
    requires n < 0x100_0000
    ensures |s| == 6
  {
    Hex2(n / 0x1_0000) + Hex2(n / 0x100 % 0x100) + Hex2(n % 0x100)
  }

  /** A colour as it is printed inside a code. */
  function Ink(wire: Wire, n: nat): string
    requires n < if wire.Indexed? then 100 else 0x100_0000
  {
    if wire.Indexed? then Dec(n) else Hex6(n)
  }

  /** One or two decimal digits, or six hexadecimal ones. */
  predicate InkOk(wire: Wire, ink: string) {
    if wire.Indexed? then 1 <= |ink| <= 2 && F.AllDigits(ink)
    else |ink| == 6 && forall k :: 0 <= k < 6 ==> F.IsHexDigit(ink[k])
  }

  lemma InkIsOk(wire: Wire, n: nat)
    requires n < if wire.Indexed? then 100 else 0x100_0000
    ensures InkOk(wire, Ink(wire, n))
    ensures wire.Indexed? ==> |Ink(wire, n)| == CodeLen(n)
  {
  }

  /** A cell as chosen: nothing, or a character with its printed colours. */
  datatype Drawn = Gap | Drawn(ch: char, fg: string, bg: string) {
    predicate Ok(wire: Wire) {
      Drawn? ==> InkOk(wire, fg) && InkOk(wire, bg)
    }

    function Shows(): char {
      if Gap? then ' ' else ch
    }
  }

  predicate AllOk(wire: Wire, cells: seq<Drawn>) {
    forall i :: 0 <= i < |cells| ==> cells[i].Ok(wire)
  }

  function Draw(row: Row, path: seq<nat>, i: nat): (d: Drawn)
    requires row.Valid() && row.IsPath(path) && i < |path|
    ensures d.Ok(row.wire)
  {
    if row.cells[i].Transparent? then Gap
    else
      var s := path[i];
      InkIsOk(row.wire, row.Fg(s));
      InkIsOk(row.wire, row.Bg(s));
      Drawn(row.cells[i].choices[s].ch, Ink(row.wire, row.Fg(s)), Ink(row.wire, row.Bg(s)))
  }

  /** The row as chosen, cell by cell. */
  function Picture(row: Row, path: seq<nat>): (cells: seq<Drawn>)
    requires row.Valid() && row.IsPath(path)
    ensures |cells| == |path| && AllOk(row.wire, cells)
    ensures forall i :: 0 <= i < |path| ==> cells[i] == Draw(row, path, i)
  {
    seq(|path|, i requires 0 <= i < |path| => Draw(row, path, i))
  }

  function Lead(wire: Wire): char {
    if wire.Indexed? then F.COLOUR else F.HEX
  }

  function CodeText(wire: Wire, code: Code, fg: string, bg: string): string {
    match code
    case NoCode => ""
    case FgOnly => [Lead(wire)] + fg
    case Full => [Lead(wire)] + fg + "," + bg
  }

  /** The code a cell sends: a coloured space does not care for the foreground. */
  function CodeFor(d: Drawn, pen: Pen): Code {
    if d.Gap? then NoCode
    else if d.ch == ' ' then if pen.first || pen.bg != d.bg then Full else NoCode
    else if !pen.first && pen.bg == d.bg && pen.fg != d.fg then FgOnly
    else if pen.first || pen.fg != d.fg || pen.bg != d.bg then Full
    else NoCode
  }

  function PenAfter(d: Drawn, pen: Pen): Pen {
    match CodeFor(d, pen)
    case NoCode => pen.(first := false)
    case FgOnly => Pen(false, d.fg, pen.bg)
    case Full => Pen(false, d.fg, d.bg)
  }

  /** What a cell prints: its code, if it sends one, and its character. */
  function Piece(wire: Wire, d: Drawn, pen: Pen): string {
    (if d.Gap? then "" else CodeText(wire, CodeFor(d, pen), d.fg, d.bg)) + [d.Shows()]
  }

  /** The text of a row of cells printed with `pen` in hand. */
  function Text(wire: Wire, cells: seq<Drawn>, pen: Pen): string {
    if cells == [] then ""
    else Piece(wire, cells[0], pen) + Text(wire, cells[1..], PenAfter(cells[0], pen))
  }

  lemma TextStep(wire: Wire, cells: seq<Drawn>, i: nat, pen: Pen)
    requires i < |cells|
    ensures Text(wire, cells[i..], pen)
         == Piece(wire, cells[i], pen) + Text(wire, cells[i + 1..], PenAfter(cells[i], pen))
  {
    assert cells[i..][1..] == cells[i + 1..];
  }

  /** One turn of the emitter's loop: the text of one cell and the pen after it. */
  method EmitCell(row: Row, path: seq<nat>, c: nat, first: bool, lastFg: string, lastBg: string)
    returns (piece: string, fg': string, bg': string)
    requires row.Valid() && row.IsPath(path) && c < |path|
    ensures piece == Piece(row.wire, Draw(row, path, c), Pen(first, lastFg, lastBg))
    ensures Pen(false, fg', bg') == PenAfter(Draw(row, path, c), Pen(first, lastFg, lastBg))
  {
    var s := path[c];
    piece, fg', bg' := "", lastFg, lastBg;
    if row.cells[c].Transparent? {
      piece := " ";
      return;
    }
    var glyph, fg, bg := row.cells[c].choices[s].ch, Ink(row.wire, row.Fg(s)), Ink(row.wire, row.Bg(s));
    if glyph == ' ' {
      if first || lastBg != bg {
        piece := [Lead(row.wire)] + fg + "," + bg;
        fg', bg' := fg, bg;
      }
    } else {
      var needFull := first || lastFg != fg || lastBg != bg;
      var needFgOnly := !first && lastBg == bg && lastFg != fg;
      if needFgOnly {
        piece := [Lead(row.wire)] + fg;
        fg' := fg;
      } else if needFull {
        piece := [Lead(row.wire)] + fg + "," + bg;
        fg', bg' := fg, bg;
      }
    }
    piece := piece + [glyph];
  }

  /** The emitter's loop. */
  method EmitRow(row: Row, path: seq<nat>) returns (ln: string)
    requires row.Valid() && row.IsPath(path)
    ensures ln == Text(row.wire, Picture(row, path), START)
  {
    ln := "";
    var lastFg, lastBg, first := "", "", true;
    ghost var cells := Picture(row, path);
    assert cells[0..] == cells;
    for c := 0 to |path|
      invariant ln + Text(row.wire, cells[c..], Pen(first, lastFg, lastBg)) == Text(row.wire, cells, START)
    {
      TextStep(row.wire, cells, c, Pen(first, lastFg, lastBg));
      var piece;
      piece, lastFg, lastBg := EmitCell(row, path, c, first, lastFg, lastBg);
      Assoc(ln, piece, Text(row.wire, cells[c + 1..], Pen(false, lastFg, lastBg)));
      ln := ln + piece;
      first := false;
    }
  }

  // ---------------------------------------------------------------- bytes

  lemma InkBytes(wire: Wire, ink: string)
    requires InkOk(wire, ink)
    ensures Bytes(ink) == |ink|
  {
    BytesOfAscii(ink);
  }

  lemma CodeBytes(wire: Wire, code: Code, fg: string, bg: string)
    requires InkOk(wire, fg) && InkOk(wire, bg)
    ensures Bytes(CodeText(wire, code, fg, bg)) == match code
                                                   case NoCode => 0
                                                   case FgOnly => 1 + |fg|
                                                   case Full => 2 + |fg| + |bg|
  {
    var lead := [Lead(wire)];
    InkBytes(wire, fg);
    InkBytes(wire, bg);
    BytesConcat(lead, fg);
    BytesConcat(lead + fg, ",");
    BytesConcat(lead + fg + ",", bg);
  }

  /** Code bytes a cell sends with `pen` in hand. */
  function CodeCost(d: Drawn, pen: Pen): nat {
    match CodeFor(d, pen)
    case NoCode => 0
    case FgOnly => 1 + |d.fg|
    case Full => 2 + |d.fg| + |d.bg|
  }

  lemma PieceBytes(wire: Wire, d: Drawn, pen: Pen)
    requires d.Ok(wire)
    ensures Bytes(Piece(wire, d, pen)) == CodeCost(d, pen) + CharBytes(d.Shows())
  {
    var ch := [d.Shows()];
    var code := if d.Gap? then "" else CodeText(wire, CodeFor(d, pen), d.fg, d.bg);
    BytesConcat(code, ch);
    assert Bytes(ch) == CharBytes(ch[0]) + Bytes(ch[1..]);
    if d.Drawn? {
      CodeBytes(wire, CodeFor(d, pen), d.fg, d.bg);
    }
  }

  /** Transparent cells among the first `i`; each prints one space the optimiser does not charge. */
  function Gaps(row: Row, i: nat): nat
    requires i <= |row.cells|
  {
    if i == 0 then 0 else Gaps(row, i - 1) + if row.cells[i - 1].Transparent? then 1 else 0
  }

  /** By how much the glyph table understates the UTF-8 size of cell `i`'s glyph. */
  function Shortfall(row: Row, path: seq<nat>, i: nat): int
    requires row.Valid() && row.IsPath(path) && i < |path|
  {
    if row.cells[i].Transparent? then 0
    else CharBytes(row.cells[i].choices[path[i]].ch) - row.cells[i].choices[path[i]].bytes
  }

  /** The same over the first `i` cells; zero when every declared size is the true one. */
  function Understated(row: Row, path: seq<nat>, i: nat): int
    requires row.Valid() && row.IsPath(path) && i <= |path|
  {
    if i == 0 then 0 else Understated(row, path, i - 1) + Shortfall(row, path, i - 1)
  }

  /** The pen holds the paper of the state in force; its ink may lag behind. */
  ghost predicate PenFits(row: Row, inForce: Option<nat>, pen: Pen)
    requires row.Valid() && (inForce.Some? ==> inForce.value < |row.states|)
  {
    match inForce
    case None => pen.fg == "" && pen.bg == ""
    case Some(s) => !pen.first && pen.bg == Ink(row.wire, row.Bg(s))
  }

  /** Foreground bytes charged already but not yet sent, because spaces skipped them. */
  function Credit(row: Row, inForce: Option<nat>, pen: Pen): nat
    requires row.Valid() && (inForce.Some? ==> inForce.value < |row.states|)
  {
    match inForce
    case None => 0
    case Some(s) => if pen.fg != Ink(row.wire, row.Fg(s)) then row.FgPref(s) else 0
  }

  /** One opaque cell: the code it sends is covered by its prefix charge and the change of credit. */
  lemma CellPays(row: Row, prev: Option<nat>, s: nat, ch: char, pen: Pen)
    requires row.Valid() && s < |row.states| && (prev.Some? ==> prev.value < |row.states|)
    requires PenFits(row, prev, pen)
    ensures var d := Drawn(ch, Ink(row.wire, row.Fg(s)), Ink(row.wire, row.Bg(s)));
            && PenFits(row, Some(s), PenAfter(d, pen))
            && CodeCost(d, pen) + Credit(row, Some(s), PenAfter(d, pen)) <= row.Prefix(prev, s) + Credit(row, prev, pen)
  {
    InkIsOk(row.wire, row.Fg(s));
    InkIsOk(row.wire, row.Bg(s));
    if prev.Some? && prev.value != s && row.states[prev.value].b == row.states[s].b {
      assert row.Bg(prev.value) == row.Bg(s);
    }
  }

  /** What is sent and still owed stays within what was charged. */
  ghost predicate Covered(row: Row, path: seq<nat>, i: nat, sent: nat, pen: Pen)
    requires row.Valid() && row.IsPath(path) && i <= |path|
  {
    && PenFits(row, row.InForce(path, i), pen)
    && sent + Credit(row, row.InForce(path, i), pen)
       <= row.ChargedBytes(path, i) + Gaps(row, i) + Understated(row, path, i)
  }

  lemma BytesStep(wire: Wire, cells: seq<Drawn>, i: nat, pen: Pen)
    requires i < |cells|
    ensures Bytes(Text(wire, cells[i..], pen))
         == Bytes(Piece(wire, cells[i], pen)) + Bytes(Text(wire, cells[i + 1..], PenAfter(cells[i], pen)))
  {
    TextStep(wire, cells, i, pen);
    BytesConcat(Piece(wire, cells[i], pen), Text(wire, cells[i + 1..], PenAfter(cells[i], pen)));
  }

  lemma CoveredStep(row: Row, path: seq<nat>, i: nat, sent: nat, pen: Pen) returns (sent': nat, pen': Pen)
    requires row.Valid() && row.IsPath(path) && i < |path| && Covered(row, path, i, sent, pen)
    ensures Covered(row, path, i + 1, sent', pen')
    ensures sent + Bytes(Text(row.wire, Picture(row, path)[i..], pen))
         == sent' + Bytes(Text(row.wire, Picture(row, path)[i + 1..], pen'))
  {
    var cells := Picture(row, path);
    var d := Draw(row, path, i);
    BytesStep(row.wire, cells, i, pen);
    PieceBytes(row.wire, d, pen);
    sent', pen' := sent + CodeCost(d, pen) + CharBytes(d.Shows()), PenAfter(d, pen);
    if row.cells[i].Opaque? {
      CellPays(row, row.InForce(path, i), path[i], row.cells[i].choices[path[i]].ch, pen);
    }
  }

  /** Everything printed from cell `i` on fits into what is left of the charge. */
  lemma {:induction false} BytesFrom(row: Row, path: seq<nat>, i: nat, sent: nat, pen: Pen)
    returns (sent': nat, pen': Pen)
    requires row.Valid() && row.IsPath(path) && i <= |path|
    requires Covered(row, path, i, sent, pen)
    ensures sent' == sent + Bytes(Text(row.wire, Picture(row, path)[i..], pen))
    ensures Covered(row, path, |path|, sent', pen')
    decreases |path| - i
  {
    if i == |path| {
      assert Picture(row, path)[i..] == [];
      sent', pen' := sent, pen;
    } else {
      var sent1, pen1 := CoveredStep(row, path, i, sent, pen);
      sent', pen' := BytesFrom(row, path, i + 1, sent1, pen1);
    }
  }

  /**
   The line a choice prints is never longer than the optimiser charged for it, plus
   one byte per transparent cell, plus whatever the glyph table understates.
   */
  lemma EmittedBytes(row: Row, path: seq<nat>)
    requires row.Valid() && row.IsPath(path)
    ensures Bytes(Text(row.wire, Picture(row, path), START))
            <= row.ChargedBytes(path, |path|) + Gaps(row, |path|) + Understated(row, path, |path|)
  {
    var cells := Picture(row, path);
    assert cells[0..] == cells;
    var sent, pen := BytesFrom(row, path, 0, 0, START);
  }
}
