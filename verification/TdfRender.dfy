/**
 Rendering text in a TheDraw colour font: rows of glyph cells printed with colour
 codes on change only.

 A row's `Slots` say which cells stand side by side; a rendered line is proved to show
 them, each in its own colours, up to white space dropped at the end.
 */
module TdfRender {
  import opened Sequences
  import opened Whitespace
  import opened Wrappers
  import opened ColourCodes
  import F = IrcFormatting

  /** A font cell: its character and its attribute byte. */
  datatype Cell = Cell(ch: char, attr: bv8)

  datatype Glyph = Glyph(width: nat, cells: seq<Cell>)

  /** `height` is that of the tallest glyph; every glyph has so many rows of cells. */
  datatype Font = Font(spacing: int, height: nat, glyphs: seq<Option<Glyph>>) {
    ghost predicate Valid() {
      |glyphs| == 94 && forall k :: 0 <= k < 94 && glyphs[k].Some? ==> GlyphOk(glyphs[k].value, height)
    }
  }

  ghost predicate GlyphOk(g: Glyph, height: nat) {
    && |g.cells| == g.width * height
    && forall i :: 0 <= i < |g.cells| ==> !F.IsControl(g.cells[i].ch)
  }

  const FG_MIRC: seq<nat> := [1, 2, 3, 10, 5, 6, 7, 15, 14, 12, 9, 11, 4, 13, 8, 0]

  function FgNibble(attr: bv8): nat { (attr & 0x0f) as nat }
  function BgNibble(attr: bv8): nat { ((attr >> 4) & 0x07) as nat }

  function Fg(attr: bv8): (c: nat)
    ensures c < 100
  {
    FG_MIRC[FgNibble(attr)]
  }

  function Bg(attr: bv8): (c: nat)
    ensures c < 100
  {
    FG_MIRC[BgNibble(attr)]
  }

  // ---------------------------------------------------------------- what a row should show

  /** A position of a row: without colour, or with the colours of an attribute. */
  datatype Slot = Bare(ch: char) | Painted(ch: char, attr: bv8)

  /** Blank cells on black are plain spaces; without colour every cell is plain. */
  function SlotOf(cell: Cell, color: bool): Slot {
    if !color then Bare(cell.ch)
    else if cell.ch == ' ' && BgNibble(cell.attr) == 0 then Bare(' ')
    else Painted(cell.ch, cell.attr)
  }

  function Blanks(n: int): seq<Slot> {
    if n <= 0 then [] else [Bare(' ')] + Blanks(n - 1)
  }

  /** `None` stands for a space of the text. */
  type Shape = Option<Glyph>

  /** The glyphs of a text; characters that the font lacks are skipped. */
  function Shapes(font: Font, text: string): (gs: seq<Shape>)
    requires font.Valid()
    ensures forall i :: 0 <= i < |gs| && gs[i].Some? ==> GlyphOk(gs[i].value, font.height)
  {
    if text == "" then []
    else ShapesOf(font, text[0]) + Shapes(font, text[1..])
  }

  function ShapesOf(font: Font, c: char): (gs: seq<Shape>)
    requires font.Valid()
    ensures forall i :: 0 <= i < |gs| && gs[i].Some? ==> GlyphOk(gs[i].value, font.height)
  {
    if c == ' ' then [None]
    else if '!' <= c <= '~' && font.glyphs[c as nat - '!' as nat].Some? then [font.glyphs[c as nat - '!' as nat]]
    else []
  }

  lemma RowFits(row: nat, height: nat, width: nat, x: nat)
    requires row < height && x < width
    ensures row * width + x < width * height
  {
    assert (row + 1) * width <= height * width;
  }

  /** The cell in column `x` of row `row`; cells are kept row by row. */
  function CellAt(g: Glyph, height: nat, row: nat, x: nat): (c: Cell)
    requires GlyphOk(g, height) && row < height && x < g.width
    ensures !F.IsControl(c.ch)
  {
    RowFits(row, height, g.width, x);
    g.cells[row * g.width + x]
  }

  /** The cells of one glyph row, from column `x` on. */
  function CellSlots(g: Glyph, height: nat, row: nat, x: nat, color: bool): seq<Slot>
    requires GlyphOk(g, height) && row < height && x <= g.width
    decreases g.width - x
  {
    if x == g.width then []
    else
      [SlotOf(CellAt(g, height, row, x), color)] + CellSlots(g, height, row, x + 1, color)
  }

  datatype Setup = Setup(height: nat, spacing: int, spaceWidth: int, color: bool)

  ghost predicate ShapesOk(shapes: seq<Shape>, height: nat) {
    forall i :: 0 <= i < |shapes| && shapes[i].Some? ==> GlyphOk(shapes[i].value, height)
  }

  function ShapeSlots(su: Setup, shape: Shape, row: nat, isLast: bool): seq<Slot>
    requires row < su.height && (shape.Some? ==> GlyphOk(shape.value, su.height))
  {
    if shape.None? then Blanks(su.spaceWidth)
    else CellSlots(shape.value, su.height, row, 0, su.color) + if isLast then [] else Blanks(su.spacing)
  }

  /** All positions of a row, side by side. */
  function Slots(su: Setup, shapes: seq<Shape>, row: nat): seq<Slot>
    requires row < su.height && ShapesOk(shapes, su.height)
  {
    if shapes == [] then []
    else
      ShapeSlots(su, shapes[0], row, |shapes| == 1) + Slots(su, shapes[1..], row)
  }

  function Seen(slot: Slot): F.Seen {
    match slot
    case Bare(ch) => F.Seen(ch, F.DEFAULT)
    case Painted(ch, attr) => F.Seen(ch, Coloured(F.DEFAULT, Fg(attr), Some(Bg(attr))))
  }

  function Picture(slots: seq<Slot>): (seen: seq<F.Seen>)
    ensures |seen| == |slots| && forall i :: 0 <= i < |slots| ==> seen[i] == Seen(slots[i])
  {
    if slots == [] then [] else [Seen(slots[0])] + Picture(slots[1..])
  }

  // ---------------------------------------------------------------- printing

  /** What a position sends, `last` being the attribute in force. */
  function Piece(slot: Slot, last: Option<bv8>): string {
    match slot
    case Bare(ch) => (if last.Some? then [F.COLOUR] else "") + [ch]
    case Painted(ch, attr) => (if last == Some(attr) then "" else Code(Fg(attr), Some(Bg(attr)))) + [ch]
  }

  function LastAfter(slot: Slot, last: Option<bv8>): Option<bv8> {
    if slot.Bare? then None else Some(slot.attr)
  }

  function Print(slots: seq<Slot>, last: Option<bv8>): string {
    if slots == [] then ""
    else Piece(slots[0], last) + Print(slots[1..], LastAfter(slots[0], last))
  }

  /** A closing code in front of a plain position must not meet a digit or comma. */
  predicate Printable(slots: seq<Slot>, last: Option<bv8>) {
    && (forall i :: 0 <= i < |slots| ==> !F.IsControl(slots[i].ch))
    && ((forall i :: 0 <= i < |slots| && slots[i].Bare? ==> slots[i].ch == ' ')
        || (last == None && forall i :: 0 <= i < |slots| ==> slots[i].Bare?))
  }

  function StyleOf(last: Option<bv8>): F.Style {
    if last.None? then F.DEFAULT else Coloured(F.DEFAULT, Fg(last.value), Some(Bg(last.value)))
  }

  lemma ReadPiece(slot: Slot, last: Option<bv8>, rest: string)
    requires !F.IsControl(slot.ch) && (slot.Bare? && last.Some? ==> slot.ch == ' ')
    ensures F.Read(F.Text, StyleOf(last), Piece(slot, last) + rest)
         == [Seen(slot)] + F.Read(F.Text, StyleOf(LastAfter(slot, last)), rest)
  {
    var plain := [slot.ch] + rest;
    assert plain[1..] == rest;
    if slot.Bare? && last.Some? {
      var t := Piece(slot, last) + rest;
      assert t == [F.COLOUR] + plain && t[1..] == plain;
      assert F.Fg("").Settle(StyleOf(last)) == F.DEFAULT;
      F.ReadSettles(F.Fg(""), StyleOf(last), plain);
    } else if slot.Painted? && last != Some(slot.attr) {
      CodeThenChar(Fg(slot.attr), Some(Bg(slot.attr)), StyleOf(last), slot.ch, rest);
    } else {
      assert Piece(slot, last) == [slot.ch];
    }
  }

  /** A printed row shows its slots. */
  lemma {:induction false} PrintedShows(slots: seq<Slot>, last: Option<bv8>)
    requires Printable(slots, last)
    ensures F.Read(F.Text, StyleOf(last), Print(slots, last)) == Picture(slots)
  {
    if slots != [] {
      assert !F.IsControl(slots[0].ch);
      ReadPiece(slots[0], last, Print(slots[1..], LastAfter(slots[0], last)));
      PrintedShows(slots[1..], LastAfter(slots[0], last));
    }
  }

  /** `\s+$`, then a dangling `\x03`, are cut off; a coloured line ends in a reset. */
  function Finish(out: string, color: bool): string {
    var trimmed := TrimEnd(out);
    var cut := if trimmed != "" && trimmed[|trimmed| - 1] == F.COLOUR then trimmed[..|trimmed| - 1] else trimmed;
    if color && F.COLOUR in cut then cut + [F.RESET] else cut
  }

  lemma FinishShows(style: F.Style, out: string, color: bool)
    ensures F.Read(F.Text, style, Finish(out, color)) == F.Read(F.Text, style, TrimEnd(out))
  {
    var trimmed := TrimEnd(out);
    var cut := if trimmed != "" && trimmed[|trimmed| - 1] == F.COLOUR then trimmed[..|trimmed| - 1] else trimmed;
    if |cut| < |trimmed| {
      ReadMoreControl(F.Text, style, cut, F.COLOUR);
      assert trimmed == cut + [F.COLOUR];
    }
    ReadMoreControl(F.Text, style, cut, F.RESET);
  }

  /** The line shows the leading slots as they are, and only white space is missing at the end. */
  ghost predicate ShowsUpToBlanks(line: string, slots: seq<Slot>) {
    var seen, all := F.Read(F.Text, F.DEFAULT, line), Picture(slots);
    |seen| <= |all| && seen == all[..|seen|] && AllBlank(all[|seen|..])
  }

  lemma {:induction false} CellSlotsPrintable(g: Glyph, height: nat, row: nat, x: nat, color: bool)
    requires GlyphOk(g, height) && row < height && x <= g.width
    ensures SlotsOk(CellSlots(g, height, row, x, color), color)
    decreases g.width - x
  {
    if x < g.width {
      CellSlotsPrintable(g, height, row, x + 1, color);
    }
  }

  predicate SlotsOk(slots: seq<Slot>, color: bool) {
    forall i :: 0 <= i < |slots| ==>
      !F.IsControl(slots[i].ch) && if color then slots[i].Bare? ==> slots[i].ch == ' ' else slots[i].Bare?
  }

  lemma {:induction false} BlanksOk(n: int, color: bool)
    ensures SlotsOk(Blanks(n), color)
  {
    if n > 0 {
      BlanksOk(n - 1, color);
    }
  }

  lemma {:induction false} RowSlotsOk(su: Setup, shapes: seq<Shape>, row: nat)
    requires row < su.height && ShapesOk(shapes, su.height)
    ensures SlotsOk(Slots(su, shapes, row), su.color)
  {
    if shapes != [] {
      BlanksOk(su.spaceWidth, su.color);
      BlanksOk(su.spacing, su.color);
      if shapes[0].Some? {
        CellSlotsPrintable(shapes[0].value, su.height, row, 0, su.color);
      }
      RowSlotsOk(su, shapes[1..], row);
    }
  }

  function Line(su: Setup, shapes: seq<Shape>, row: nat): string
    requires row < su.height && ShapesOk(shapes, su.height)
  {
    Finish(Print(Slots(su, shapes, row), None), su.color)
  }

  /** A rendered line shows its row of the picture. */
  lemma LineShows(su: Setup, shapes: seq<Shape>, row: nat)
    requires row < su.height && ShapesOk(shapes, su.height)
    ensures ShowsUpToBlanks(Line(su, shapes, row), Slots(su, shapes, row))
  {
    var slots := Slots(su, shapes, row);
    RowSlotsOk(su, shapes, row);
    PrintedShows(slots, None);
    FinishShows(F.DEFAULT, Print(slots, None), su.color);
    ReadTrimmed(F.DEFAULT, Print(slots, None));
  }

  // ---------------------------------------------------------------- what is dropped at the end

  /** The attribute in force behind a row. */
  function LastOf(slots: seq<Slot>, last: Option<bv8>): Option<bv8> {
    if slots == [] then last else LastOf(slots[1..], LastAfter(slots[0], last))
  }

  lemma {:induction false} PrintOneMore(slots: seq<Slot>, last: Option<bv8>, slot: Slot)
    ensures Print(slots + [slot], last) == Print(slots, last) + Piece(slot, LastOf(slots, last))
    decreases slots
  {
    if slots == [] {
      assert [] + [slot] == [slot] && [slot][1..] == [];
      assert Piece(slot, last) + "" == Piece(slot, last) == "" + Piece(slot, last);
    } else {
      var after := LastAfter(slots[0], last);
      assert (slots + [slot])[1..] == slots[1..] + [slot];
      PrintOneMore(slots[1..], after, slot);
      Assoc(Piece(slots[0], last), Print(slots[1..], after), Piece(slot, LastOf(slots, last)));
    }
  }

  /** The position sends a code in front of its character. */
  predicate SendsCode(slot: Slot, last: Option<bv8>) {
    if slot.Bare? then last.Some? else last != Some(slot.attr)
  }

  /** How many positions of a row are shown: trimming goes back over blanks, up to one with a code. */
  function Kept(slots: seq<Slot>): (k: nat)
    ensures k <= |slots|
  {
    if slots == [] then 0
    else
      var init, slot := slots[..|slots| - 1], slots[|slots| - 1];
      if !IsSpace(slot.ch) then |slots|
      else if SendsCode(slot, LastOf(init, None)) then |init|
      else Kept(init)
  }

  lemma TrimOneMore(t: string, c: char)
    ensures TrimEnd(t + [c]) == if IsSpace(c) then TrimEnd(t) else t + [c]
  {
    assert (t + [c])[..|t|] == t;
  }

  /** A code ends in a character that trimming leaves alone. */
  lemma CodeEnds(slot: Slot, last: Option<bv8>) returns (code: string, c: char)
    requires SendsCode(slot, last)
    ensures Piece(slot, last) == (code + [c]) + [slot.ch] && !IsSpace(c)
  {
    if slot.Bare? {
      code, c := "", F.COLOUR;
    } else {
      var text := Code(Fg(slot.attr), Some(Bg(slot.attr)));
      code, c := text[..|text| - 1], text[|text| - 1];
      LastApart(text);
    }
  }

  /** A row that does not end in white space loses nothing; one that does loses the last position first. */
  lemma LastPositionTrims(slots: seq<Slot>)
    requires slots != []
    ensures var init, slot := slots[..|slots| - 1], slots[|slots| - 1];
      TrimEnd(Print(slots, None)) ==
        if IsSpace(slot.ch) && !SendsCode(slot, LastOf(init, None)) then TrimEnd(Print(init, None))
        else if IsSpace(slot.ch) then Print(slots, None)[..|Print(slots, None)| - 1]
        else Print(slots, None)
    ensures Print(slots, None) != [] && Print(slots, None)[|Print(slots, None)| - 1] == slots[|slots| - 1].ch
  {
    var init, slot := slots[..|slots| - 1], slots[|slots| - 1];
    var t, last := Print(init, None), LastOf(init, None);
    LastApart(slots);
    PrintOneMore(init, None, slot);
    if SendsCode(slot, last) {
      var code, c := CodeEnds(slot, last);
      Assoc(t, code + [c], [slot.ch]);
      Assoc(t, code, [c]);
      TrimOneMore((t + code) + [c], slot.ch);
      TrimOneMore(t + code, c);
    } else {
      assert Piece(slot, last) == [slot.ch];
      TrimOneMore(t, slot.ch);
    }
  }

  lemma InitOk(slots: seq<Slot>, color: bool)
    requires SlotsOk(slots, color) && slots != []
    ensures SlotsOk(slots[..|slots| - 1], color)
  {
  }

  lemma {:induction false} PictureConcat(a: seq<Slot>, b: seq<Slot>)
    ensures Picture(a + b) == Picture(a) + Picture(b)
  {
    if a == [] {
      assert a + b == b;
    } else {
      assert (a + b)[1..] == a[1..] + b;
      PictureConcat(a[1..], b);
      Assoc([Seen(a[0])], Picture(a[1..]), Picture(b));
    }
  }

  /** A shorter picture of a row without its last position. */
  lemma PictureOfInit(slots: seq<Slot>, k: nat)
    requires slots != [] && k < |slots|
    ensures Picture(slots[..|slots| - 1])[..k] == Picture(slots)[..k]
  {
    LastApart(slots);
    PictureConcat(slots[..|slots| - 1], [slots[|slots| - 1]]);
  }

  /** Without the blank at its end a row shows one position less. */
  lemma WithoutBlank(slots: seq<Slot>, color: bool)
    requires SlotsOk(slots, color) && slots != [] && IsSpace(slots[|slots| - 1].ch)
    ensures Print(slots, None) != []
    ensures var all := Print(slots, None);
            F.Read(F.Text, F.DEFAULT, all[..|all| - 1]) == Picture(slots)[..|slots| - 1]
  {
    var all := Print(slots, None);
    PrintedShows(slots, None);
    LastPositionTrims(slots);
    LastApart(all);
    var style := ReadMoreSpace(F.Text, F.DEFAULT, all[..|all| - 1], all[|all| - 1]);
  }

  /** Exactly the kept positions are shown. */
  lemma {:induction false} TrimmedShows(slots: seq<Slot>, color: bool)
    requires SlotsOk(slots, color)
    ensures F.Read(F.Text, F.DEFAULT, TrimEnd(Print(slots, None))) == Picture(slots)[..Kept(slots)]
  {
    if slots != [] {
      var init, slot := slots[..|slots| - 1], slots[|slots| - 1];
      LastPositionTrims(slots);
      if !IsSpace(slot.ch) {
        PrintedShows(slots, None);
        assert Picture(slots)[..|slots|] == Picture(slots);
      } else if SendsCode(slot, LastOf(init, None)) {
        WithoutBlank(slots, color);
      } else {
        InitOk(slots, color);
        TrimmedShows(init, color);
        PictureOfInit(slots, Kept(init));
      }
    }
  }

  /** A rendered line shows exactly the kept positions of its row. */
  lemma LineShowsKept(su: Setup, shapes: seq<Shape>, row: nat)
    requires row < su.height && ShapesOk(shapes, su.height)
    ensures var slots := Slots(su, shapes, row);
      F.Read(F.Text, F.DEFAULT, Line(su, shapes, row)) == Picture(slots)[..Kept(slots)]
  {
    var slots := Slots(su, shapes, row);
    RowSlotsOk(su, shapes, row);
    TrimmedShows(slots, su.color);
    FinishShows(F.DEFAULT, Print(slots, None), su.color);
  }

  /** The whole row is shown if and only if it does not end in white space. */
  lemma LineShowsAll(su: Setup, shapes: seq<Shape>, row: nat)
    requires row < su.height && ShapesOk(shapes, su.height)
    ensures var slots := Slots(su, shapes, row);
      F.Read(F.Text, F.DEFAULT, Line(su, shapes, row)) == Picture(slots)
      <==> slots == [] || !IsSpace(slots[|slots| - 1].ch)
  {
    var slots := Slots(su, shapes, row);
    LineShowsKept(su, shapes, row);
    KeptIsLess(slots);
    assert Picture(slots)[..|slots|] == Picture(slots);
  }

  lemma KeptIsLess(slots: seq<Slot>)
    ensures Kept(slots) == |slots| <==> slots == [] || !IsSpace(slots[|slots| - 1].ch)
  {
  }

  /** Behind a plain blank at the end only plain positions are dropped. */
  lemma {:induction false} PlainEndDropsPlain(slots: seq<Slot>)
    requires slots != [] && slots[|slots| - 1].Bare?
    ensures forall j :: Kept(slots) <= j < |slots| ==> slots[j].Bare?
  {
    var init, slot := slots[..|slots| - 1], slots[|slots| - 1];
    if IsSpace(slot.ch) && !SendsCode(slot, LastOf(init, None)) && init != [] {
      LastOfIs(init, None);
      PlainEndDropsPlain(init);
    }
  }

  lemma {:induction false} LastOfIs(slots: seq<Slot>, last: Option<bv8>)
    requires slots != []
    ensures LastOf(slots, last) == LastAfter(slots[|slots| - 1], None)
  {
    if |slots| > 1 {
      LastOfIs(slots[1..], LastAfter(slots[0], last));
    }
  }

  /** A painted position is dropped. */
  ghost predicate LosesPaint(line: string, slots: seq<Slot>) {
    exists j :: |F.Read(F.Text, F.DEFAULT, line)| <= j < |slots| && slots[j].Painted?
  }

  /** Paint is lost if and only if the row ends in a painted blank. */
  lemma TrailingPaintIsDropped(su: Setup, shapes: seq<Shape>, row: nat)
    requires row < su.height && ShapesOk(shapes, su.height)
    ensures var slots := Slots(su, shapes, row);
      LosesPaint(Line(su, shapes, row), slots)
      <==> slots != [] && slots[|slots| - 1].Painted? && IsSpace(slots[|slots| - 1].ch)
  {
    var slots := Slots(su, shapes, row);
    LineShowsKept(su, shapes, row);
    KeptIsLess(slots);
    if slots != [] {
      var last := slots[|slots| - 1];
      if last.Bare? {
        PlainEndDropsPlain(slots);
      } else if IsSpace(last.ch) {
        assert slots[|slots| - 1].Painted?;
      }
    }
  }

  /** One letter and one blank on a background. */
  lemma LetterAndBlank() returns (g: Glyph)
    ensures g == Glyph(2, [Cell('x', 0x17), Cell(' ', 0x17)]) && GlyphOk(g, 1) && BgNibble(g.cells[1].attr) != 0
    ensures CellSlots(g, 1, 0, 0, true) == [Painted('x', 0x17), Painted(' ', 0x17)]
  {
    g := Glyph(2, [Cell('x', 0x17), Cell(' ', 0x17)]);
    assert CellSlots(g, 1, 0, 1, true) == [Painted(' ', 0x17)] + CellSlots(g, 1, 0, 2, true);
    assert CellSlots(g, 1, 0, 0, true) == [Painted('x', 0x17)] + CellSlots(g, 1, 0, 1, true);
  }

  /** Such a glyph, rendered alone, loses the blank. */
  lemma PaintedBlankIsLost() returns (g: Glyph, su: Setup, shapes: seq<Shape>)
    ensures g == Glyph(2, [Cell('x', 0x17), Cell(' ', 0x17)]) && BgNibble(g.cells[1].attr) != 0
    ensures su == Setup(1, 0, 1, true) && shapes == [Some(g)] && ShapesOk(shapes, 1)
    ensures Slots(su, shapes, 0) == [Painted('x', 0x17), Painted(' ', 0x17)]
    ensures LosesPaint(Line(su, shapes, 0), Slots(su, shapes, 0))
  {
    g := LetterAndBlank();
    su, shapes := Setup(1, 0, 1, true), [Some(g)];
    assert shapes[1..] == [];
    assert Slots(su, shapes, 0) == (CellSlots(g, 1, 0, 0, true) + []) + [];
    TrailingPaintIsDropped(su, shapes, 0);
  }

  /** With a space of the text behind it the painted blank stays, although both are white space. */
  lemma PaintedBlankIsKept() returns (g: Glyph, su: Setup, shapes: seq<Shape>)
    ensures g == Glyph(2, [Cell('x', 0x17), Cell(' ', 0x17)])
    ensures su == Setup(1, 0, 1, true) && shapes == [Some(g), None] && ShapesOk(shapes, 1)
    ensures Slots(su, shapes, 0) == [Painted('x', 0x17), Painted(' ', 0x17), Bare(' ')]
    ensures !LosesPaint(Line(su, shapes, 0), Slots(su, shapes, 0))
  {
    g := LetterAndBlank();
    su, shapes := Setup(1, 0, 1, true), [Some(g), None];
    assert shapes[1..] == [None] && shapes[1..][1..] == [];
    assert Blanks(1) == [Bare(' ')] + Blanks(0);
    assert Blanks(0) == [] && Slots(su, shapes[1..], 0) == Blanks(1) + [];
    assert Slots(su, shapes, 0) == (CellSlots(g, 1, 0, 0, true) + Blanks(0)) + Slots(su, shapes[1..], 0);
    TrailingPaintIsDropped(su, shapes, 0);
  }

  // ---------------------------------------------------------------- the rows of a text

  /** A line of white space only comes from a row of white space only. */
  lemma BlankLineIsBlankRow(line: string, slots: seq<Slot>)
    requires ShowsUpToBlanks(line, slots) && AllSpace(line)
    ensures AllBlank(Picture(slots))
  {
    ReadBlank(line);
    var seen, all := F.Read(F.Text, F.DEFAULT, line), Picture(slots);
    forall i | 0 <= i < |all|
      ensures IsSpace(all[i].ch)
    {
      if i < |seen| {
        assert seen[i] == all[i];
      } else {
        assert all[i] == all[|seen|..][i - |seen|];
      }
    }
  }

  lemma {:induction false} ReadBlank(line: string)
    requires AllSpace(line)
    ensures AllBlank(F.Read(F.Text, F.DEFAULT, line))
  {
    if line != "" {
      assert IsSpace(line[0]);
      assert forall i :: 0 <= i < |line[1..]| ==> line[1..][i] == line[i + 1];
      ReadBlank(line[1..]);
    }
  }

  /** A row as it should be, for every row of the text. */
  function Rows(su: Setup, shapes: seq<Shape>): (rows: seq<seq<Slot>>)
    requires ShapesOk(shapes, su.height)
    ensures |rows| == su.height && forall r :: 0 <= r < |rows| ==> rows[r] == Slots(su, shapes, r)
  {
    seq(su.height, r requires 0 <= r < su.height => Slots(su, shapes, r))
  }

  /**
   `renderTdfFont`: the rows of the picture from `top` to `bottom - 1`, each shown as
   it is up to white space at its end; every other row holds nothing but white space.
   */
  method RenderTdfFont(font: Font, text: string, spaceWidth: int, color: bool)
    returns (lines: seq<string>, ghost top: nat, ghost bottom: nat)
    requires font.Valid()
    ensures var rows := Rows(Setup(font.height, font.spacing, spaceWidth, color), Shapes(font, text));
      && top <= bottom <= |rows| && |lines| == bottom - top
      && (forall i :: 0 <= i < |lines| ==> ShowsUpToBlanks(lines[i], rows[top + i]))
      && (forall r :: 0 <= r < |rows| && !(top <= r < bottom) ==> AllBlank(Picture(rows[r])))
    ensures lines != [] ==> !AllSpace(lines[0]) && !AllSpace(lines[|lines| - 1])
  {
    var su := Setup(font.height, font.spacing, spaceWidth, color);
    var shapes := CollectShapes(font, text);
    var all := RenderRows(su, shapes);
    lines, top, bottom := DropBlankEdges(all);
    ghost var rows := Rows(su, shapes);
    forall r | 0 <= r < |rows| && !(top <= r < bottom)
      ensures AllBlank(Picture(rows[r]))
    {
      BlankLineIsBlankRow(all[r], rows[r]);
    }
  }

  method RenderRows(su: Setup, shapes: seq<Shape>) returns (lines: seq<string>)
    requires ShapesOk(shapes, su.height)
    ensures |lines| == su.height
    ensures forall r :: 0 <= r < |lines| ==> ShowsUpToBlanks(lines[r], Rows(su, shapes)[r])
  {
    lines := [];
    ghost var rows := Rows(su, shapes);
    for row := 0 to su.height
      invariant |lines| == row
      invariant forall r :: 0 <= r < row ==> ShowsUpToBlanks(lines[r], rows[r])
    {
      var line := RenderRow(su, shapes, row);
      lines := lines + [line];
    }
  }

  /** Lines of white space only are dropped at the top and at the bottom. */
  method DropBlankEdges(all: seq<string>) returns (lines: seq<string>, ghost top: nat, ghost bottom: nat)
    ensures top <= bottom <= |all| && lines == all[top..bottom]
    ensures forall r :: 0 <= r < |all| && !(top <= r < bottom) ==> AllSpace(all[r])
    ensures lines != [] ==> !AllSpace(lines[0]) && !AllSpace(lines[|lines| - 1])
  {
    lines, top, bottom := all, 0, |all|;
    while |lines| > 0 && AllSpace(lines[0])
      invariant top <= bottom == |all| && lines == all[top..]
      invariant forall r :: 0 <= r < top ==> AllSpace(all[r])
    {
      lines := lines[1..];
      top := top + 1;
    }
    while |lines| > 0 && AllSpace(lines[|lines| - 1])
      invariant top <= bottom <= |all| && lines == all[top..bottom]
      invariant forall r :: 0 <= r < |all| && !(top <= r < bottom) ==> AllSpace(all[r])
      invariant lines != [] ==> !AllSpace(lines[0])
    {
      lines := lines[..|lines| - 1];
      bottom := bottom - 1;
    }
  }

  method CollectShapes(font: Font, text: string) returns (glyphs: seq<Shape>)
    requires font.Valid()
    ensures glyphs == Shapes(font, text)
  {
    glyphs := [];
    assert text[0..] == text;
    for i := 0 to |text|
      invariant glyphs + Shapes(font, text[i..]) == Shapes(font, text)
    {
      NextShapes(glyphs, font, text, i);
      glyphs := glyphs + ShapesOf(font, text[i]);
    }
  }

  lemma NextShapes(before: seq<Shape>, font: Font, text: string, i: nat)
    requires font.Valid() && i < |text|
    ensures before + Shapes(font, text[i..]) == (before + ShapesOf(font, text[i])) + Shapes(font, text[i + 1..])
    ensures before + [] == before
  {
    assert text[i..][1..] == text[i + 1..];
    Assoc(before, ShapesOf(font, text[i]), Shapes(font, text[i + 1..]));
  }

  /** A row under way: the text so far and the attribute in force. */
  datatype Pen = Pen(out: string, last: Option<bv8>)

  function Put(pen: Pen, slot: Slot): Pen {
    Pen(pen.out + Piece(slot, pen.last), LastAfter(slot, pen.last))
  }

  function PutAll(pen: Pen, slots: seq<Slot>): Pen
    decreases slots
  {
    if slots == [] then pen else PutAll(Put(pen, slots[0]), slots[1..])
  }

  lemma {:induction false} PutAllPrints(pen: Pen, slots: seq<Slot>)
    ensures PutAll(pen, slots).out == pen.out + Print(slots, pen.last)
    decreases slots
  {
    if slots != [] {
      PutAllPrints(Put(pen, slots[0]), slots[1..]);
    }
  }

  lemma PutNext(pen: Pen, slot: Slot, rest: seq<Slot>)
    ensures PutAll(pen, [slot] + rest) == PutAll(Put(pen, slot), rest)
  {
    assert ([slot] + rest)[1..] == rest;
  }

  lemma {:induction false} PutBoth(pen: Pen, a: seq<Slot>, b: seq<Slot>)
    ensures PutAll(pen, a + b) == PutAll(PutAll(pen, a), b)
    decreases a
  {
    if a == [] {
      assert a + b == b;
    } else {
      assert (a + b)[1..] == a[1..] + b;
      PutBoth(Put(pen, a[0]), a[1..], b);
    }
  }

  /** One row: the glyphs one after the other. */
  method RenderRow(su: Setup, shapes: seq<Shape>, row: nat) returns (line: string)
    requires row < su.height && ShapesOk(shapes, su.height)
    ensures ShowsUpToBlanks(line, Slots(su, shapes, row))
  {
    var pen := Pen("", None);
    assert shapes[0..] == shapes;
    for gi := 0 to |shapes|
      invariant PutAll(pen, Slots(su, shapes[gi..], row)) == PutAll(Pen("", None), Slots(su, shapes, row))
      invariant !su.color ==> pen.last == None
    {
      assert shapes[gi..][1..] == shapes[gi + 1..];
      PutBoth(pen, ShapeSlots(su, shapes[gi], row, gi == |shapes| - 1), Slots(su, shapes[gi + 1..], row));
      pen := RenderShape(pen, su, shapes[gi], row, gi == |shapes| - 1);
    }
    PutAllPrints(Pen("", None), Slots(su, shapes, row));
    assert pen.out == Print(Slots(su, shapes, row), None);
    line := Finish(pen.out, su.color);
    LineShows(su, shapes, row);
  }

  /** A space of the text, or a glyph row and the gap behind it. */
  method RenderShape(pen: Pen, su: Setup, shape: Shape, row: nat, isLast: bool) returns (pen': Pen)
    requires row < su.height && (shape.Some? ==> GlyphOk(shape.value, su.height)) && (!su.color ==> pen.last == None)
    ensures pen' == PutAll(pen, ShapeSlots(su, shape, row, isLast))
    ensures !su.color ==> pen'.last == None
  {
    if shape.None? {
      pen' := Pad(pen, su.spaceWidth);
      return;
    }
    ghost var gap := if isLast then [] else Blanks(su.spacing);
    PutBoth(pen, CellSlots(shape.value, su.height, row, 0, su.color), gap);
    pen' := RenderCells(pen, su, shape.value, row);
    if !isLast {
      pen' := Pad(pen', su.spacing);
    }
  }

  function Spaces(n: int): string {
    if n <= 0 then "" else " " + Spaces(n - 1)
  }

  lemma {:induction false} PutBlanks(out: string, n: int)
    ensures PutAll(Pen(out, None), Blanks(n)) == Pen(out + Spaces(n), None)
    decreases n
  {
    if n > 0 {
      PutBlanks(out + " ", n - 1);
      assert Put(Pen(out, None), Bare(' ')) == Pen(out + " ", None);
      Assoc(out, " ", Spaces(n - 1));
    }
  }

  /** The first blank closes an open colour. */
  lemma PutFirstBlank(pen: Pen, n: int)
    requires n > 0
    ensures PutAll(pen, Blanks(n))
         == PutAll(Pen(if pen.last.Some? then pen.out + [F.COLOUR] else pen.out, None), Blanks(n))
  {
    var closed := Pen(if pen.last.Some? then pen.out + [F.COLOUR] else pen.out, None);
    assert Put(pen, Bare(' ')).out == closed.out + [' '] == Put(closed, Bare(' ')).out;
  }

  /** `pad`: an open colour is closed first. */
  method Pad(pen: Pen, n: int) returns (pen': Pen)
    ensures pen' == PutAll(pen, Blanks(n))
    ensures pen.last == None ==> pen'.last == None
  {
    pen' := pen;
    if n <= 0 {
      return;
    }
    PutFirstBlank(pen, n);
    if pen'.last.Some? {
      pen' := Pen(pen'.out + [F.COLOUR], None);
    }
    PutBlanks(pen'.out, n);
    pen' := pen'.(out := pen'.out + Spaces(n));
  }

  /** The columns of one glyph row. */
  method RenderCells(pen: Pen, su: Setup, g: Glyph, row: nat) returns (pen': Pen)
    requires row < su.height && GlyphOk(g, su.height) && (!su.color ==> pen.last == None)
    ensures pen' == PutAll(pen, CellSlots(g, su.height, row, 0, su.color))
    ensures !su.color ==> pen'.last == None
  {
    pen' := pen;
    for x := 0 to g.width
      invariant PutAll(pen', CellSlots(g, su.height, row, x, su.color))
             == PutAll(pen, CellSlots(g, su.height, row, 0, su.color))
      invariant !su.color ==> pen'.last == None
    {
      var cell := CellAt(g, su.height, row, x);
      PutNext(pen', SlotOf(cell, su.color), CellSlots(g, su.height, row, x + 1, su.color));
      pen' := RenderCell(pen', cell, su.color);
    }
  }

  method RenderCell(pen: Pen, cell: Cell, color: bool) returns (pen': Pen)
    requires !color ==> pen.last == None
    ensures pen' == Put(pen, SlotOf(cell, color))
    ensures !color ==> pen'.last == None
  {
    pen' := pen;
    if !color {
      pen' := pen'.(out := pen'.out + [cell.ch]);
    } else if cell.ch == ' ' && BgNibble(cell.attr) == 0 {
      pen' := Pad(pen', 1);
      assert Blanks(1) == [Bare(' ')] + Blanks(0) && Blanks(1)[1..] == [];
    } else {
      if pen'.last != Some(cell.attr) {
        pen' := Pen(pen'.out + Code(Fg(cell.attr), Some(Bg(cell.attr))), Some(cell.attr));
      }
      pen' := pen'.(out := pen'.out + [cell.ch]);
    }
  }
}
