/** Where the cells of a font's glyphs stand in a rendered line, and which colours they are shown in. */
module TdfCells {
  import opened Sequences
  import opened Wrappers
  import opened ColourCodes
  import opened TdfRender
  import F = IrcFormatting

  // ---------------------------------------------------------------- colours

  /** The client's sixteen colours by their parts: white, yellow, lime and so on are bright. */
  const WITH_RED: set<nat> := {0, 4, 5, 6, 7, 8, 13, 15}
  const WITH_GREEN: set<nat> := {0, 3, 7, 8, 9, 10, 11, 15}
  const WITH_BLUE: set<nat> := {0, 2, 6, 10, 11, 12, 13, 15}
  const BRIGHT: set<nat> := {0, 4, 8, 9, 11, 12, 13, 14}

  /** A colour has exactly the named parts. */
  predicate Has(c: nat, red: bool, green: bool, blue: bool, bright: bool) {
    c < 16 && (c in WITH_RED <==> red) && (c in WITH_GREEN <==> green) && (c in WITH_BLUE <==> blue)
    && (c in BRIGHT <==> bright)
  }

  /** No two colours have the same parts. */
  lemma PartsDecide(c: nat, d: nat)
    requires c < 16 && d < 16
    requires Has(c, d in WITH_RED, d in WITH_GREEN, d in WITH_BLUE, d in BRIGHT)
    ensures c == d
  {
  }

  /** The bits of an attribute are the parts of its colours; a background is never bright. */
  lemma AttributeBits(attr: bv8)
    ensures Has(Fg(attr), attr & 0x04 != 0, attr & 0x02 != 0, attr & 0x01 != 0, attr & 0x08 != 0)
    ensures Has(Bg(attr), attr & 0x40 != 0, attr & 0x20 != 0, attr & 0x10 != 0, false)
  {
  }

  // ---------------------------------------------------------------- positions

  function AtLeast0(n: int): nat { if n < 0 then 0 else n }

  /** How far a glyph that is not the last one moves the next one on. */
  function Advance(su: Setup, shape: Shape): nat {
    if shape.None? then AtLeast0(su.spaceWidth) else shape.value.width + AtLeast0(su.spacing)
  }

  /** Where glyph `k` begins. */
  function Start(su: Setup, shapes: seq<Shape>, k: nat): nat
    requires k <= |shapes|
  {
    if k == 0 then 0 else Start(su, shapes, k - 1) + Advance(su, shapes[k - 1])
  }

  lemma {:induction false} StartBehindFirst(su: Setup, shapes: seq<Shape>, k: nat)
    requires shapes != [] && k < |shapes|
    ensures Start(su, shapes, k + 1) == Advance(su, shapes[0]) + Start(su, shapes[1..], k)
  {
    if k > 0 {
      StartBehindFirst(su, shapes, k - 1);
    }
  }

  lemma {:induction false} BlanksAre(n: int)
    ensures |Blanks(n)| == AtLeast0(n) && forall i :: 0 <= i < |Blanks(n)| ==> Blanks(n)[i] == Bare(' ')
  {
    if n > 0 {
      BlanksAre(n - 1);
    }
  }

  lemma {:induction false} CellSlotsAre(g: Glyph, height: nat, row: nat, x: nat, color: bool)
    requires GlyphOk(g, height) && row < height && x <= g.width
    ensures var slots := CellSlots(g, height, row, x, color);
            && |slots| == g.width - x
            && forall i :: 0 <= i < |slots| ==> slots[i] == SlotOf(CellAt(g, height, row, x + i), color)
    decreases g.width - x
  {
    if x < g.width {
      CellSlotsAre(g, height, row, x + 1, color);
    }
  }

  lemma ShapeSlotsAre(su: Setup, shape: Shape, row: nat, isLast: bool)
    requires row < su.height && (shape.Some? ==> GlyphOk(shape.value, su.height))
    ensures var slots := ShapeSlots(su, shape, row, isLast);
            && (!isLast ==> |slots| == Advance(su, shape))
            && (shape.None? ==>
                  |slots| == AtLeast0(su.spaceWidth) && forall i :: 0 <= i < |slots| ==> slots[i] == Bare(' '))
            && (shape.Some? ==>
                  var g := shape.value;
                  && |slots| == g.width + (if isLast then 0 else AtLeast0(su.spacing))
                  && forall i :: 0 <= i < |slots| ==>
                       slots[i] == if i < g.width then SlotOf(CellAt(g, su.height, row, i), su.color) else Bare(' '))
  {
    BlanksAre(su.spaceWidth);
    BlanksAre(su.spacing);
    if shape.Some? {
      CellSlotsAre(shape.value, su.height, row, 0, su.color);
    }
  }

  /** Column `x` of glyph `k` stands where the widths before it put it. */
  lemma {:induction false} CellStands(su: Setup, shapes: seq<Shape>, row: nat, k: nat, x: nat)
    requires row < su.height && ShapesOk(shapes, su.height)
    requires k < |shapes| && shapes[k].Some? && x < shapes[k].value.width
    ensures var p := Start(su, shapes, k) + x;
            && p < |Slots(su, shapes, row)|
            && Slots(su, shapes, row)[p] == SlotOf(CellAt(shapes[k].value, su.height, row, x), su.color)
    decreases k
  {
    ShapeSlotsAre(su, shapes[0], row, |shapes| == 1);
    if k > 0 {
      CellStands(su, shapes[1..], row, k - 1, x);
      StartBehindFirst(su, shapes, k - 1);
    }
  }

  /**
   What the client shows at the place of a cell, if the line reaches that far: its
   character, plain if it is a blank on black or colour is off, and else in the
   colours its attribute bits spell.
   */
  lemma CellIsShown(su: Setup, shapes: seq<Shape>, row: nat, k: nat, x: nat)
    requires row < su.height && ShapesOk(shapes, su.height)
    requires k < |shapes| && shapes[k].Some? && x < shapes[k].value.width
    requires row * shapes[k].value.width + x < |shapes[k].value.cells|
    ensures var g := shapes[k].value;
            var cell := g.cells[row * g.width + x];
            var seen := F.Read(F.Text, F.DEFAULT, Line(su, shapes, row));
            var p := Start(su, shapes, k) + x;
            p < |seen| ==>
              && seen[p].ch == cell.ch
              && (!su.color || (cell.ch == ' ' && cell.attr & 0x70 == 0) ==> seen[p].style == F.DEFAULT)
              && (su.color && !(cell.ch == ' ' && cell.attr & 0x70 == 0) ==>
                    exists fg, bg ::
                      && seen[p].style == F.DEFAULT.(fg := Some(fg), bg := Some(bg))
                      && Has(fg, cell.attr & 0x04 != 0, cell.attr & 0x02 != 0, cell.attr & 0x01 != 0,
                             cell.attr & 0x08 != 0)
                      && Has(bg, cell.attr & 0x40 != 0, cell.attr & 0x20 != 0, cell.attr & 0x10 != 0, false))
  {
    var cell := shapes[k].value.cells[row * shapes[k].value.width + x];
    CellStands(su, shapes, row, k, x);
    LineShowsKept(su, shapes, row);
    AttributeBits(cell.attr);
    BlackBackground(cell.attr);
    assert F.DEFAULT.(fg := Some(Fg(cell.attr)), bg := Some(Bg(cell.attr)))
        == Coloured(F.DEFAULT, Fg(cell.attr), Some(Bg(cell.attr)));
  }

  lemma BlackBackground(attr: bv8)
    ensures BgNibble(attr) == 0 <==> attr & 0x70 == 0
  {
    assert (attr >> 4) & 0x07 == 0 <==> attr & 0x70 == 0;
  }
}
