/**
 Reading an emitted row back with the client's own reader.

 The row shows every cell's character on the right paper, and in the right ink
 unless the character is a space, exactly when no cell's character is a control
 code, none is swallowed by the code in front of it, and no true-colour cell sends
 its foreground alone.
 */
module RowDecode {
  import opened Sequences
  import opened Wrappers
  import opened RowModel
  import opened RowEmitter
  import F = IrcFormatting

  /** Behind the code `code`, an indexed reader would take `ch` as one more digit or as the comma. */
  predicate Swallows(code: Code, fg: string, bg: string, ch: char) {
    match code
    case NoCode => false
    case FgOnly => ch == ',' || (F.IsDigit(ch) && |fg| < 2)
    case Full => F.IsDigit(ch) && |bg| < 2
  }

  /** A condition on what a cell is about to send. */
  predicate CellReadable(wire: Wire, d: Drawn, pen: Pen) {
    d.Drawn? ==>
      && !F.IsControl(d.ch)
      && if wire.Indexed? then !Swallows(CodeFor(d, pen), d.fg, d.bg, d.ch) else CodeFor(d, pen) != FgOnly
  }

  predicate Readable(wire: Wire, cells: seq<Drawn>, pen: Pen) {
    cells != [] ==> CellReadable(wire, cells[0], pen) && Readable(wire, cells[1..], PenAfter(cells[0], pen))
  }

  /** Style `st` has the ink / the paper that is printed as `ink` on this wire. */
  predicate HasFg(wire: Wire, st: F.Style, ink: string) {
    if wire.Indexed? then F.AllDigits(ink) && st.fg == Some(F.Value(ink)) && st.hexFg == None
    else st.hexFg == Some(ink) && st.fg == None
  }

  predicate HasBg(wire: Wire, st: F.Style, ink: string) {
    if wire.Indexed? then F.AllDigits(ink) && st.bg == Some(F.Value(ink)) && st.hexBg == None
    else st.hexBg == Some(ink) && st.bg == None
  }

  /** What the reader saw is what was drawn. */
  predicate CellShown(wire: Wire, d: Drawn, seen: F.Seen) {
    && seen.ch == d.Shows()
    && (d.Drawn? ==> HasBg(wire, seen.style, d.bg) && (d.ch != ' ' ==> HasFg(wire, seen.style, d.fg)))
  }

  /** One seen character per cell, each of them right. */
  predicate Faithful(wire: Wire, cells: seq<Drawn>, seen: seq<F.Seen>) {
    if cells == [] then seen == []
    else seen != [] && CellShown(wire, cells[0], seen[0]) && Faithful(wire, cells[1..], seen[1..])
  }

  /** The reader's style agrees with the emitter's pen. */
  predicate StyleFits(wire: Wire, pen: Pen, st: F.Style) {
    && (pen.fg != "" ==> HasFg(wire, st, pen.fg))
    && (pen.bg != "" ==> HasBg(wire, st, pen.bg))
  }

  // ------------------------------------------------- reading one code

  /** The mode in which the reader stands right after a code. */
  function ModeAfter(wire: Wire, code: Code, fg: string, bg: string): F.Mode {
    match code
    case NoCode => F.Text
    case FgOnly => if wire.Indexed? then F.Fg(fg) else F.HexFg(fg)
    case Full => if wire.Indexed? then F.Bg(fg, bg) else F.HexBg(fg, bg)
  }

  /** Reading a lead character ends whatever code was under way. */
  lemma ReadLead(wire: Wire, mode: F.Mode, style: F.Style, t: string)
    requires mode.Ok() && t != "" && t[0] == Lead(wire)
    ensures var start := if wire.Indexed? then F.Fg("") else F.HexFg("");
            F.Read(mode, style, t) == F.Read(start, mode.Settle(style), t[1..])
  {
    if mode != F.Text {
      assert !mode.Takes(t[0]);
      assert F.Read(mode, style, t) == F.Read(F.Text, mode.Settle(style), t);
    }
  }

  lemma ReadInk(mode: F.Mode, style: F.Style, ink: string, rest: string)
    requires mode.Ok() && mode != F.Text && F.RunFor(mode, ink) && F.Grown(mode, ink).Ok()
    ensures F.Read(mode, style, ink + rest) == F.Read(F.Grown(mode, ink), style, rest)
  {
    var t := ink + rest;
    assert t[0..] == t && t[0..|ink|] == ink && t[|ink|..] == rest;
    F.ReadTakesRun(mode, style, t, 0, |ink|);
  }

  /** The lead and the foreground digits of a code. */
  lemma ReadFgPart(wire: Wire, fg: string, mode: F.Mode, style: F.Style, tail: string)
    requires InkOk(wire, fg) && mode.Ok()
    ensures F.Read(mode, style, [Lead(wire)] + (fg + tail))
         == F.Read(ModeAfter(wire, FgOnly, fg, ""), mode.Settle(style), tail)
  {
    var t := [Lead(wire)] + (fg + tail);
    assert t[1..] == fg + tail;
    ReadLead(wire, mode, style, t);
    assert "" + fg == fg;
    ReadInk(if wire.Indexed? then F.Fg("") else F.HexFg(""), mode.Settle(style), fg, tail);
  }

  /** The comma and the background digits of a code. */
  lemma ReadBgPart(wire: Wire, fg: string, bg: string, style: F.Style, rest: string)
    requires InkOk(wire, fg) && InkOk(wire, bg)
    ensures F.Read(ModeAfter(wire, FgOnly, fg, ""), style, [','] + (bg + rest))
         == F.Read(ModeAfter(wire, Full, fg, bg), style, rest)
  {
    var tail := [','] + (bg + rest);
    assert tail[0..] == tail && tail[1..] == bg + rest;
    F.ReadComma(ModeAfter(wire, FgOnly, fg, ""), style, tail, 0);
    assert "" + bg == bg;
    ReadInk(if wire.Indexed? then F.Bg(fg, "") else F.HexBg(fg, ""), style, bg, rest);
  }

  /** A code shows nothing and leaves the reader just behind its last digit. */
  lemma ReadCode(wire: Wire, code: Code, fg: string, bg: string, mode: F.Mode, style: F.Style, rest: string)
    requires InkOk(wire, fg) && InkOk(wire, bg) && code != NoCode && mode.Ok()
    ensures F.Read(mode, style, CodeText(wire, code, fg, bg) + rest)
         == F.Read(ModeAfter(wire, code, fg, bg), mode.Settle(style), rest)
  {
    var lead := [Lead(wire)];
    if code == FgOnly {
      Assoc(lead, fg, rest);
      ReadFgPart(wire, fg, mode, style, rest);
    } else {
      var tail := [','] + (bg + rest);
      assert CodeText(wire, code, fg, bg) + rest == lead + (fg + tail);
      ReadFgPart(wire, fg, mode, style, tail);
      ReadBgPart(wire, fg, bg, mode.Settle(style), rest);
    }
  }

  /** What a code does to the style, once it is over. */
  lemma CodeSettles(wire: Wire, code: Code, fg: string, bg: string, st: F.Style)
    requires InkOk(wire, fg) && InkOk(wire, bg) && code != NoCode
    ensures var after := ModeAfter(wire, code, fg, bg).Settle(st);
            && HasFg(wire, after, fg)
            && (code == Full ==> HasBg(wire, after, bg))
            && (code == FgOnly && wire.Indexed? ==> after.bg == st.bg && after.hexBg == None)
            && (code == FgOnly && wire.TrueColour? ==> after.hexBg == None)
  {
  }

  // ------------------------------------------------- reading the row

  /** The mode in which the reader meets the character of cell `d`. */
  function ModeOf(wire: Wire, d: Drawn, pen: Pen): F.Mode {
    if d.Gap? then F.Text else ModeAfter(wire, CodeFor(d, pen), d.fg, d.bg)
  }

  /** From anywhere, reading a cell's code leaves the reader in front of its character. */
  lemma ReachChar(wire: Wire, d: Drawn, pen: Pen, mode: F.Mode, style: F.Style, rest: string)
    returns (m: F.Mode, st: F.Style)
    requires d.Ok(wire) && mode.Ok()
    ensures m.Ok()
    ensures mode == F.Text ==> m == ModeOf(wire, d, pen) && st == style
    ensures F.Read(mode, style, Piece(wire, d, pen) + rest) == F.Read(m, st, [d.Shows()] + rest)
  {
    var ch := [d.Shows()];
    if d.Gap? || CodeFor(d, pen) == NoCode {
      assert Piece(wire, d, pen) == ch;
      m, st := mode, style;
    } else {
      var code := CodeText(wire, CodeFor(d, pen), d.fg, d.bg);
      Assoc(code, ch, rest);
      ReadCode(wire, CodeFor(d, pen), d.fg, d.bg, mode, style, ch + rest);
      m, st := ModeOf(wire, d, pen), mode.Settle(style);
    }
  }

  /** Reading one character shows that character, unless it is taken by a code or is one. */
  lemma AfterChar(mode: F.Mode, style: F.Style, ch: char, rest: string) returns (next: F.Mode, st: F.Style)
    requires mode.Ok()
    ensures next.Ok()
    ensures |F.Read(mode, style, [ch] + rest)| == |F.Read(next, st, rest)|
              + if mode.Takes(ch) || F.IsControl(ch) then 0 else 1
  {
    var t := [ch] + rest;
    assert t[1..] == rest;
    if mode.Takes(ch) {
      next, st := mode.Take(ch), style;
    } else {
      st := mode.Settle(style);
      assert F.Read(mode, style, t) == F.Read(F.Text, st, t);
      next := if ch == F.COLOUR then F.Fg("") else if ch == F.HEX then F.HexFg("") else F.Text;
      st := if F.IsSwitch(ch) then F.Switch(st, ch) else st;
    }
  }

  /** From any point of any code, a row shows at most one character per cell. */
  lemma {:induction false} AtMostOnePerCell(wire: Wire, cells: seq<Drawn>, pen: Pen, mode: F.Mode, style: F.Style)
    requires AllOk(wire, cells) && mode.Ok()
    ensures |F.Read(mode, style, Text(wire, cells, pen))| <= |cells|
    decreases |cells|
  {
    if cells != [] {
      var d, rest := cells[0], Text(wire, cells[1..], PenAfter(cells[0], pen));
      var m, st := ReachChar(wire, d, pen, mode, style, rest);
      var next, st' := AfterChar(m, st, d.Shows(), rest);
      AtMostOnePerCell(wire, cells[1..], PenAfter(d, pen), next, st');
    }
  }

  /** A character that is lost leaves the row short. */
  lemma LostChar(wire: Wire, cells: seq<Drawn>, pen: Pen, style: F.Style)
    requires AllOk(wire, cells) && cells != []
    requires ModeOf(wire, cells[0], pen).Takes(cells[0].Shows()) || F.IsControl(cells[0].Shows())
    ensures |F.Read(F.Text, style, Text(wire, cells, pen))| < |cells|
  {
    var d, rest := cells[0], Text(wire, cells[1..], PenAfter(cells[0], pen));
    var m, st := ReachChar(wire, d, pen, F.Text, style, rest);
    var next, st' := AfterChar(m, st, d.Shows(), rest);
    AtMostOnePerCell(wire, cells[1..], PenAfter(d, pen), next, st');
  }

  /** The style in which a plain character is shown, and the pen that goes with it. */
  lemma ShownAfterCode(wire: Wire, d: Drawn, pen: Pen, style: F.Style)
    requires d.Ok(wire) && StyleFits(wire, pen, style)
    ensures ModeOf(wire, d, pen).Ok()
    ensures var after := ModeOf(wire, d, pen).Settle(style);
            if d.Drawn? && wire.TrueColour? && CodeFor(d, pen) == FgOnly
            then !CellShown(wire, d, F.Seen(d.Shows(), after))
            else CellShown(wire, d, F.Seen(d.Shows(), after)) && StyleFits(wire, PenAfter(d, pen), after)
  {
    if d.Drawn? && CodeFor(d, pen) != NoCode {
      CodeSettles(wire, CodeFor(d, pen), d.fg, d.bg, style);
    }
  }

  lemma {:induction false} FaithfulLength(wire: Wire, cells: seq<Drawn>, seen: seq<F.Seen>)
    requires Faithful(wire, cells, seen)
    ensures |seen| == |cells|
  {
    if cells != [] {
      FaithfulLength(wire, cells[1..], seen[1..]);
    }
  }

  /** The reader, in text and with a fitting style, reads the first cell right or loses the row. */
  lemma CellReads(wire: Wire, cells: seq<Drawn>, pen: Pen, style: F.Style) returns (after: F.Style)
    requires AllOk(wire, cells) && cells != [] && StyleFits(wire, pen, style)
    ensures !CellReadable(wire, cells[0], pen) ==>
              !Faithful(wire, cells, F.Read(F.Text, style, Text(wire, cells, pen)))
    ensures CellReadable(wire, cells[0], pen) ==>
              && StyleFits(wire, PenAfter(cells[0], pen), after)
              && CellShown(wire, cells[0], F.Seen(cells[0].Shows(), after))
              && F.Read(F.Text, style, Text(wire, cells, pen))
                 == [F.Seen(cells[0].Shows(), after)]
                    + F.Read(F.Text, after, Text(wire, cells[1..], PenAfter(cells[0], pen)))
  {
    var d, rest := cells[0], Text(wire, cells[1..], PenAfter(cells[0], pen));
    var m, st := ReachChar(wire, d, pen, F.Text, style, rest);
    after := m.Settle(style);
    ShownAfterCode(wire, d, pen, style);
    var seen := F.Read(F.Text, style, Text(wire, cells, pen));
    if m.Takes(d.Shows()) || F.IsControl(d.Shows()) {
      LostChar(wire, cells, pen, style);
      if Faithful(wire, cells, seen) {
        FaithfulLength(wire, cells, seen);
      }
    } else {
      PlainCharIsShown(m, style, d.Shows(), rest);
      assert seen[0] == F.Seen(d.Shows(), after);
    }
  }

  /** A character that is neither taken nor a control code is shown. */
  lemma PlainCharIsShown(mode: F.Mode, style: F.Style, ch: char, rest: string)
    requires mode.Ok() && !mode.Takes(ch) && !F.IsControl(ch)
    ensures F.Read(mode, style, [ch] + rest)
         == [F.Seen(ch, mode.Settle(style))] + F.Read(F.Text, mode.Settle(style), rest)
  {
    assert ([ch] + rest)[1..] == rest;
    F.ReadSettles(mode, style, [ch] + rest);
  }

  /**
   A printed row, read by the client, shows every cell as drawn if and only if every
   cell is readable.
   */
  lemma {:induction false} RowReads(wire: Wire, cells: seq<Drawn>, pen: Pen, style: F.Style)
    requires AllOk(wire, cells) && StyleFits(wire, pen, style)
    ensures Faithful(wire, cells, F.Read(F.Text, style, Text(wire, cells, pen))) <==> Readable(wire, cells, pen)
    decreases |cells|
  {
    if cells != [] {
      var after := CellReads(wire, cells, pen, style);
      if CellReadable(wire, cells[0], pen) {
        RowReads(wire, cells[1..], PenAfter(cells[0], pen), after);
        var rest := F.Read(F.Text, after, Text(wire, cells[1..], PenAfter(cells[0], pen)));
        assert ([F.Seen(cells[0].Shows(), after)] + rest)[1..] == rest;
      }
    }
  }

  // ------------------------------------------------- the renderer's rows

  /** Cell `i` is seen as the renderer chose it, in colour numbers rather than printed digits. */
  ghost predicate ChoiceShown(row: Row, path: seq<nat>, i: nat, seen: F.Seen)
    requires row.Valid() && row.IsPath(path) && i < |path|
  {
    var s := path[i];
    if row.cells[i].Transparent? then seen.ch == ' '
    else
      && seen.ch == row.cells[i].choices[s].ch
      && (if row.wire.Indexed? then seen.style.bg == Some(row.Bg(s)) && seen.style.hexBg == None
          else seen.style.hexBg == Some(Hex6(row.Bg(s))) && seen.style.bg == None)
      && (seen.ch != ' ' ==>
            if row.wire.Indexed? then seen.style.fg == Some(row.Fg(s)) && seen.style.hexFg == None
            else seen.style.hexFg == Some(Hex6(row.Fg(s))) && seen.style.fg == None)
  }

  ghost predicate RowShown(row: Row, path: seq<nat>, seen: seq<F.Seen>)
    requires row.Valid() && row.IsPath(path)
  {
    |seen| == |path| && forall i :: 0 <= i < |path| ==> ChoiceShown(row, path, i, seen[i])
  }

  lemma DigitValue(n: nat)
    requires n < 10
    ensures F.AllDigits([Digit(n)]) && F.Value([Digit(n)]) == n
  {
    assert [Digit(n)][..0] == "";
    assert F.Value("") == 0;
  }

  lemma DecValue(n: nat)
    requires n < 100
    ensures F.AllDigits(Dec(n)) && F.Value(Dec(n)) == n
  {
    DigitValue(if n < 10 then n else n / 10);
    if n >= 10 {
      assert Dec(n)[..1] == [Digit(n / 10)];
    }
  }

  lemma ChoiceIsCell(row: Row, path: seq<nat>, i: nat, seen: F.Seen)
    requires row.Valid() && row.IsPath(path) && i < |path|
    ensures ChoiceShown(row, path, i, seen) <==> CellShown(row.wire, Draw(row, path, i), seen)
  {
    if row.wire.Indexed? {
      DecValue(row.Fg(path[i]));
      DecValue(row.Bg(path[i]));
    }
  }

  lemma {:induction false} FaithfulAll(wire: Wire, cells: seq<Drawn>, seen: seq<F.Seen>)
    requires |seen| == |cells|
    ensures Faithful(wire, cells, seen) <==> forall i :: 0 <= i < |cells| ==> CellShown(wire, cells[i], seen[i])
  {
    if cells != [] {
      FaithfulAll(wire, cells[1..], seen[1..]);
      assert forall i :: 0 < i < |cells| ==> cells[i] == cells[1..][i - 1] && seen[i] == seen[1..][i - 1];
      assert forall i :: 0 <= i < |cells[1..]| ==> cells[1..][i] == cells[i + 1] && seen[1..][i] == seen[i + 1];
    }
  }

  lemma FaithfulIsShown(row: Row, path: seq<nat>, seen: seq<F.Seen>)
    requires row.Valid() && row.IsPath(path)
    ensures Faithful(row.wire, Picture(row, path), seen) <==> RowShown(row, path, seen)
  {
    var cells := Picture(row, path);
    if |seen| == |path| {
      FaithfulAll(row.wire, cells, seen);
      forall i | 0 <= i < |path|
        ensures ChoiceShown(row, path, i, seen[i]) <==> CellShown(row.wire, cells[i], seen[i])
      {
        ChoiceIsCell(row, path, i, seen[i]);
      }
    } else if Faithful(row.wire, cells, seen) {
      FaithfulLength(row.wire, cells, seen);
    }
  }

  /**
   The emitted row, read by the client from a fresh style, shows every cell as
   chosen if and only if every cell is readable.
   */
  lemma EmittedRowDecodes(row: Row, path: seq<nat>)
    requires row.Valid() && row.IsPath(path)
    ensures var cells := Picture(row, path);
            RowShown(row, path, F.Read(F.Text, F.DEFAULT, Text(row.wire, cells, START)))
            <==> Readable(row.wire, cells, START)
  {
    var cells := Picture(row, path);
    RowReads(row.wire, cells, START, F.DEFAULT);
    FaithfulIsShown(row, path, F.Read(F.Text, F.DEFAULT, Text(row.wire, cells, START)));
  }

  predicate SafeChar(ch: char) {
    !F.IsDigit(ch) && ch != ',' && !F.IsControl(ch)
  }

  lemma {:induction false} SafeIsReadable(cells: seq<Drawn>, pen: Pen)
    requires forall i :: 0 <= i < |cells| ==> SafeChar(cells[i].Shows())
    ensures Readable(Indexed, cells, pen)
  {
    if cells != [] {
      assert SafeChar(cells[0].Shows());
      SafeIsReadable(cells[1..], PenAfter(cells[0], pen));
    }
  }

  /** On the indexed wire a glyph table without digits, commas and control codes is always safe. */
  lemma SafeAlphabetDecodes(row: Row, path: seq<nat>)
    requires row.Valid() && row.IsPath(path) && row.wire.Indexed?
    requires forall i, s :: 0 <= i < |row.cells| && row.cells[i].Opaque? && 0 <= s < |row.states| ==>
               SafeChar(row.cells[i].choices[s].ch)
    ensures RowShown(row, path, F.Read(F.Text, F.DEFAULT, Text(row.wire, Picture(row, path), START)))
  {
    var cells := Picture(row, path);
    forall i | 0 <= i < |cells|
      ensures SafeChar(cells[i].Shows())
    {
      assert cells[i] == Draw(row, path, i);
    }
    SafeIsReadable(cells, START);
    EmittedRowDecodes(row, path);
  }

  /** Two true-colour cells, the second differing in ink only, which is read without paper. */
  lemma TrueColourLosesPaper()
    ensures var cells := [Drawn('x', Hex6(0), Hex6(0)), Drawn('x', Hex6(1), Hex6(0))];
            var seen := F.Read(F.Text, F.DEFAULT, Text(TrueColour, cells, START));
            && AllOk(TrueColour, cells) && !Faithful(TrueColour, cells, seen)
            && |seen| == 2 && seen[1].ch == 'x' && HasFg(TrueColour, seen[1].style, Hex6(1))
            && seen[1].style.bg == None && seen[1].style.hexBg == None
  {
    var cells := [Drawn('x', Hex6(0), Hex6(0)), Drawn('x', Hex6(1), Hex6(0))];
    InkIsOk(TrueColour, 0);
    InkIsOk(TrueColour, 1);
    assert Hex6(0)[5] == '0' && Hex6(1)[5] == '1';
    var pen := PenAfter(cells[0], START);
    assert CodeFor(cells[1], pen) == FgOnly;
    assert cells[1..] == [cells[1]] && cells[1..][1..] == [];
    RowReads(TrueColour, cells, START, F.DEFAULT);
    var after := CellReads(TrueColour, cells, START, F.DEFAULT);
    InkOnlyReads(cells[1], pen, after);
    assert Text(TrueColour, [], PenAfter(cells[1], pen)) == "";
  }

  /** A code with ink only, and its character: the ink is right and the paper is gone. */
  lemma InkOnlyReads(d: Drawn, pen: Pen, style: F.Style)
    requires d.Drawn? && d.Ok(TrueColour) && !F.IsControl(d.ch) && d.ch != ',' && CodeFor(d, pen) == FgOnly
    ensures var seen := F.Read(F.Text, style, Text(TrueColour, [d], pen));
            |seen| == 1 && seen[0].ch == d.ch && HasFg(TrueColour, seen[0].style, d.fg)
            && seen[0].style.bg == None && seen[0].style.hexBg == None
  {
    var m, st := ReachChar(TrueColour, d, pen, F.Text, style, "");
    assert [d][1..] == [] && Text(TrueColour, [d], pen) == Piece(TrueColour, d, pen) + "";
    CodeSettles(TrueColour, FgOnly, d.fg, d.bg, style);
    PlainCharIsShown(m, st, d.ch, "");
  }
}
