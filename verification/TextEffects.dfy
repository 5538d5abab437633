/**
 Colouring a line of text: a code in front of a character only when the colour changes,
 and attribute codes around the whole line.

 `FgAt` and the counting functions say which colour a character should have; the printed
 line is proved to decode to exactly that for all but the lines named by `Readable`.
 */
module TextEffects {
  import opened Sequences
  import opened Whitespace
  import opened Wrappers
  import opened ColourCodes
  import opened RowDecode
  import F = IrcFormatting

  /** The colour modes; `between` gives the colour of an inner step of a gradient. */
  datatype Mode =
    | Plain
    | Solid(fg: nat, bg: Option<nat>)
    | Rainbow(palette: seq<nat>, bg: Option<nat>)
    | Gradient(from: nat, to: nat, between: (nat, nat) -> nat, bg: Option<nat>)
    | WordCycle(colors: seq<nat>, bg: Option<nat>)
  {
    ghost predicate Valid() {
      match this
      case Plain => true
      case Solid(fg, bg) => fg < 99 && IsColour(bg)
      case Rainbow(palette, bg) => palette != [] && AllColours(palette) && IsColour(bg)
      case Gradient(from, to, between, bg) =>
        from < 99 && to < 99 && IsColour(bg) && forall i, n :: between(i, n) < 99
      case WordCycle(colors, bg) => AllColours(colors) && IsColour(bg)
    }
  }

  predicate AllColours(cs: seq<nat>) {
    forall i :: 0 <= i < |cs| ==> cs[i] < 99
  }

  /** The colour of the `i`-th visible character, which stands in word `word`, out of `n`. */
  function FgAt(mode: Mode, i: nat, word: nat, n: nat): (c: nat)
    requires mode.Valid()
    ensures c < 99
  {
    match mode
    case Plain => 0
    case Solid(fg, _) => fg
    case Rainbow(palette, _) => palette[i % |palette|]
    case Gradient(from, to, between, _) => if i == 0 then from else if i == n - 1 then to else between(i, n)
    case WordCycle(colors, _) => if colors == [] then 0 else colors[word % |colors|]
  }

  /** Visible characters among the first `k`. */
  function Visible(line: string, k: nat): nat
    requires k <= |line|
  {
    if k == 0 then 0 else Visible(line, k - 1) + if IsSpace(line[k - 1]) then 0 else 1
  }

  predicate StartsWord(line: string, k: nat)
    requires k < |line|
  {
    !IsSpace(line[k]) && (k == 0 || IsSpace(line[k - 1]))
  }

  /** Words that start among the first `k` characters. */
  function Words(line: string, k: nat): nat
    requires k <= |line|
  {
    if k == 0 then 0 else Words(line, k - 1) + if StartsWord(line, k - 1) then 1 else 0
  }

  lemma {:induction false} InsideWord(line: string, k: nat)
    requires k < |line| && !IsSpace(line[k])
    ensures Words(line, k + 1) > 0
  {
    if !StartsWord(line, k) {
      InsideWord(line, k - 1);
    }
  }

  /** The colour that visible character `k` should have. */
  function Wanted(line: string, mode: Mode, k: nat): (c: nat)
    requires mode.Valid() && k < |line| && !IsSpace(line[k])
    ensures c < 99
  {
    InsideWord(line, k);
    FgAt(mode, Visible(line, k), Words(line, k + 1) - 1, Visible(line, |line|))
  }

  /** The colour of the last visible character among the first `k`. */
  function Active(line: string, mode: Mode, k: nat): (c: Option<nat>)
    requires mode.Valid() && k <= |line|
    ensures IsColour(c)
  {
    if k == 0 then None
    else if IsSpace(line[k - 1]) then Active(line, mode, k - 1)
    else Some(Wanted(line, mode, k - 1))
  }

  function Bg(mode: Mode): (c: Option<nat>)
    requires mode.Valid()
    ensures IsColour(c)
  {
    if mode.Plain? then None else mode.bg
  }

  /** The style in force after `k` characters of a line that started in `base`. */
  function StyleAt(base: F.Style, line: string, mode: Mode, k: nat): F.Style
    requires mode.Valid() && k <= |line|
  {
    var c := Active(line, mode, k);
    if c.None? then base else Coloured(base, c.value, Bg(mode))
  }

  /** Every character is kept; a visible one has its own colour, a space that of the text before it. */
  function Picture(base: F.Style, line: string, mode: Mode, k: nat): (seen: seq<F.Seen>)
    requires mode.Valid() && k <= |line|
    ensures |seen| == |line| - k
    ensures forall i :: k <= i < |line| ==> seen[i - k] == F.Seen(line[i], StyleAt(base, line, mode, i + 1))
    decreases |line| - k
  {
    if k == |line| then []
    else [F.Seen(line[k], StyleAt(base, line, mode, k + 1))] + Picture(base, line, mode, k + 1)
  }

  // ---------------------------------------------------------------- printing

  /** A code is due in front of character `k`. */
  predicate Changes(line: string, mode: Mode, k: nat)
    requires mode.Valid() && k < |line|
  {
    !IsSpace(line[k]) && Active(line, mode, k) != Some(Wanted(line, mode, k))
  }

  /** Only the first code of a line carries the background. */
  function CodeBg(line: string, mode: Mode, k: nat): (c: Option<nat>)
    requires mode.Valid() && k < |line|
    ensures IsColour(c)
  {
    if Active(line, mode, k).None? then Bg(mode) else None
  }

  function Piece(line: string, mode: Mode, k: nat): string
    requires mode.Valid() && k < |line|
  {
    (if Changes(line, mode, k) then Code(Wanted(line, mode, k), CodeBg(line, mode, k)) else "") + [line[k]]
  }

  function Print(line: string, mode: Mode, k: nat): string
    requires mode.Valid() && k <= |line|
    decreases |line| - k
  {
    if k == |line| then "" else Piece(line, mode, k) + Print(line, mode, k + 1)
  }

  /** No control codes, and no comma right behind a code without background. */
  predicate CharReadable(line: string, mode: Mode, k: nat)
    requires mode.Valid() && k < |line|
  {
    && !F.IsControl(line[k])
    && (line[k] == ',' && Changes(line, mode, k) ==> CodeBg(line, mode, k).Some?)
  }

  predicate Readable(line: string, mode: Mode, k: nat)
    requires mode.Valid() && k <= |line|
    decreases |line| - k
  {
    k < |line| ==> CharReadable(line, mode, k) && Readable(line, mode, k + 1)
  }

  lemma ReadPiece(base: F.Style, line: string, mode: Mode, k: nat, rest: string)
    requires mode.Valid() && k < |line| && CharReadable(line, mode, k)
    ensures F.Read(F.Text, StyleAt(base, line, mode, k), Piece(line, mode, k) + rest)
         == [F.Seen(line[k], StyleAt(base, line, mode, k + 1))] + F.Read(F.Text, StyleAt(base, line, mode, k + 1), rest)
  {
    var style := StyleAt(base, line, mode, k);
    if Changes(line, mode, k) {
      CodeThenChar(Wanted(line, mode, k), CodeBg(line, mode, k), style, line[k], rest);
    } else {
      assert Piece(line, mode, k) == [line[k]];
      PlainCharIsShown(F.Text, style, line[k], rest);
    }
  }

  /** From anywhere, a piece shows its character or nothing. */
  lemma PieceShowsOne(mode': F.Mode, style: F.Style, line: string, mode: Mode, k: nat, rest: string)
    returns (next: F.Mode, st: F.Style)
    requires mode'.Ok() && mode.Valid() && k < |line|
    ensures next.Ok()
    ensures |F.Read(mode', style, Piece(line, mode, k) + rest)| <= |F.Read(next, st, rest)| + 1
    ensures mode' == F.Text && !CharReadable(line, mode, k) ==>
      |F.Read(mode', style, Piece(line, mode, k) + rest)| == |F.Read(next, st, rest)|
  {
    if Changes(line, mode, k) {
      var fg, bg := Wanted(line, mode, k), CodeBg(line, mode, k);
      assert Piece(line, mode, k) + rest == Code(fg, bg) + ([line[k]] + rest);
      ReadColourCode(fg, bg, mode', style, [line[k]] + rest);
      next, st := AfterChar(BehindCode(fg, bg), mode'.Settle(style), line[k], rest);
    } else {
      assert Piece(line, mode, k) == [line[k]];
      next, st := AfterChar(mode', style, line[k], rest);
    }
  }

  lemma {:induction false} AtMostOneEach(mode': F.Mode, style: F.Style, line: string, mode: Mode, k: nat)
    requires mode'.Ok() && mode.Valid() && k <= |line|
    ensures |F.Read(mode', style, Print(line, mode, k))| <= |line| - k
    decreases |line| - k
  {
    if k < |line| {
      var next, st := PieceShowsOne(mode', style, line, mode, k, Print(line, mode, k + 1));
      AtMostOneEach(next, st, line, mode, k + 1);
    }
  }

  lemma LosesChar(style: F.Style, line: string, mode: Mode, k: nat)
    requires mode.Valid() && k < |line| && !CharReadable(line, mode, k)
    ensures |F.Read(F.Text, style, Print(line, mode, k))| < |line| - k
  {
    var next, st := PieceShowsOne(F.Text, style, line, mode, k, Print(line, mode, k + 1));
    AtMostOneEach(next, st, line, mode, k + 1);
  }

  /** Whether the rest decodes decides for a line whose next character is readable. */
  lemma ReadableChar(base: F.Style, line: string, mode: Mode, k: nat)
    requires mode.Valid() && k < |line| && CharReadable(line, mode, k)
    ensures F.Read(F.Text, StyleAt(base, line, mode, k), Print(line, mode, k)) == Picture(base, line, mode, k)
            <==> F.Read(F.Text, StyleAt(base, line, mode, k + 1), Print(line, mode, k + 1))
                 == Picture(base, line, mode, k + 1)
  {
    var style, rest := StyleAt(base, line, mode, k + 1), Print(line, mode, k + 1);
    ReadPiece(base, line, mode, k, rest);
    SameTail(F.Seen(line[k], style), F.Read(F.Text, style, rest), Picture(base, line, mode, k + 1));
  }

  lemma UnreadableChar(base: F.Style, line: string, mode: Mode, k: nat)
    requires mode.Valid() && k < |line| && !CharReadable(line, mode, k)
    ensures F.Read(F.Text, StyleAt(base, line, mode, k), Print(line, mode, k)) != Picture(base, line, mode, k)
  {
    LosesChar(StyleAt(base, line, mode, k), line, mode, k);
  }

  /** The printed line decodes to its picture if and only if it is readable. */
  lemma {:induction false} PrintedShows(base: F.Style, line: string, mode: Mode, k: nat)
    requires mode.Valid() && k <= |line|
    ensures F.Read(F.Text, StyleAt(base, line, mode, k), Print(line, mode, k)) == Picture(base, line, mode, k)
            <==> Readable(line, mode, k)
    decreases |line| - k
  {
    if k < |line| {
      if CharReadable(line, mode, k) {
        PrintedShows(base, line, mode, k + 1);
        ReadableChar(base, line, mode, k);
      } else {
        UnreadableChar(base, line, mode, k);
      }
    }
  }

  lemma SameTail(x: F.Seen, a: seq<F.Seen>, b: seq<F.Seen>)
    ensures [x] + a == [x] + b <==> a == b
  {
    assert ([x] + a)[1..] == a && ([x] + b)[1..] == b;
  }

  // ---------------------------------------------------------------- whole lines

  /** `colorizeLine`. */
  function Colorized(line: string, mode: Mode): string
    requires mode.Valid()
  {
    if mode.Plain? || AllSpace(line) then line
    else if mode.Solid? then Code(mode.fg, mode.bg) + line
    else Print(line, mode, 0)
  }

  /** What the coloured line should show. */
  function Shown(base: F.Style, line: string, mode: Mode): seq<F.Seen>
    requires mode.Valid()
  {
    if mode.Plain? || AllSpace(line) then InStyle(line, base)
    else if mode.Solid? then InStyle(line, Coloured(base, mode.fg, mode.bg))
    else Picture(base, line, mode, 0)
  }

  function InStyle(line: string, style: F.Style): (seen: seq<F.Seen>)
    ensures |seen| == |line|
  {
    if line == "" then [] else [F.Seen(line[0], style)] + InStyle(line[1..], style)
  }

  predicate NoControls(line: string) {
    forall i :: 0 <= i < |line| ==> !F.IsControl(line[i])
  }

  /** When a coloured line decodes: no control codes, and no comma where a code would take it. */
  predicate Decodes(line: string, mode: Mode)
    requires mode.Valid()
  {
    if mode.Plain? || AllSpace(line) then NoControls(line)
    else if mode.Solid? then NoControls(line) && (line[0] == ',' ==> mode.bg.Some?)
    else Readable(line, mode, 0)
  }

  lemma {:induction false} AtMostAll(m: F.Mode, style: F.Style, line: string)
    requires m.Ok()
    ensures |F.Read(m, style, line)| <= |line|
    decreases |line|
  {
    if line != "" {
      var next, st := AfterChar(m, style, line[0], line[1..]);
      assert [line[0]] + line[1..] == line;
      AtMostAll(next, st, line[1..]);
    }
  }

  /** Uncoloured text shows itself exactly when the mode takes nothing of it and it holds no codes. */
  lemma {:induction false} ReadPlain(m: F.Mode, style: F.Style, line: string)
    requires m.Ok()
    ensures F.Read(m, style, line) == InStyle(line, m.Settle(style))
            <==> NoControls(line) && (line != "" ==> !m.Takes(line[0]))
    decreases |line|
  {
    if line != "" {
      var c, rest := line[0], line[1..];
      assert [c] + rest == line;
      assert NoControls(line) <==> !F.IsControl(c) && NoControls(rest) by {
        assert forall i :: 0 <= i < |rest| ==> rest[i] == line[i + 1];
        assert forall i :: 0 < i < |line| ==> line[i] == rest[i - 1];
      }
      if m.Takes(c) || F.IsControl(c) {
        var next, st := AfterChar(m, style, c, rest);
        AtMostAll(next, st, rest);
      } else {
        PlainCharIsShown(m, style, c, rest);
        ReadPlain(F.Text, m.Settle(style), rest);
        SameTail(F.Seen(c, m.Settle(style)), F.Read(F.Text, m.Settle(style), rest), InStyle(rest, m.Settle(style)));
      }
    }
  }

  /** A coloured line, read in any style, shows all its text in its colours if and only if it decodes. */
  lemma ColorizedShows(base: F.Style, line: string, mode: Mode)
    requires mode.Valid()
    ensures F.Read(F.Text, base, Colorized(line, mode)) == Shown(base, line, mode) <==> Decodes(line, mode)
  {
    if mode.Plain? || AllSpace(line) {
      ReadPlain(F.Text, base, line);
    } else if mode.Solid? {
      ReadColourCode(mode.fg, mode.bg, F.Text, base, line);
      ReadPlain(BehindCode(mode.fg, mode.bg), base, line);
    } else {
      PrintedShows(base, line, mode, 0);
    }
  }

  lemma {:induction false} CommaFreeIsReadable(line: string, mode: Mode, k: nat)
    requires mode.Valid() && NoControls(line) && ',' !in line && k <= |line|
    ensures Readable(line, mode, k)
    decreases |line| - k
  {
    if k < |line| {
      assert line[k] in line;
      CommaFreeIsReadable(line, mode, k + 1);
    }
  }

  /** Without commas and control codes every mode decodes. */
  lemma CommaFreeDecodes(line: string, mode: Mode)
    requires mode.Valid() && NoControls(line) && ',' !in line
    ensures Decodes(line, mode)
  {
    CommaFreeIsReadable(line, mode, 0);
  }

  /** The colours of the classic rainbow. */
  const CLASSIC: seq<nat> := [4, 7, 8, 9, 11, 12, 13]

  /** How the classic rainbow prints the line `a,`. */
  lemma CommaPrinted()
    ensures var mode := Rainbow(CLASSIC, Some(1));
            mode.Valid() && !AllSpace("a,") && !Decodes("a,", mode)
            && Colorized("a,", mode) == Code(4, Some(1)) + ['a'] + (Code(7, None) + [','])
  {
    var line, mode := "a,", Rainbow(CLASSIC, Some(1));
    assert Visible(line, 1) == Visible(line, 0) + 1 == 1;
    assert Wanted(line, mode, 0) == 4 && Wanted(line, mode, 1) == 7;
    assert Active(line, mode, 0) == None && Active(line, mode, 1) == Some(4);
    assert !CharReadable(line, mode, 1) && !IsSpace(line[0]);
    assert Print(line, mode, 1) == (Code(7, None) + [',']) + Print(line, mode, 2) == Code(7, None) + [','];
    assert Print(line, mode, 0) == (Code(4, Some(1)) + ['a']) + Print(line, mode, 1);
  }

  /** A comma right behind a code without background is taken by the code. */
  lemma CommaTaken(style: F.Style, fg: nat)
    requires fg < 100
    ensures F.Read(F.Text, style, Code(fg, None) + [',']) == []
  {
    ReadColourCode(fg, None, F.Text, style, [',']);
    var m := BehindCode(fg, None);
    assert [','][1..] == "" && F.Read(m.Take(','), style, "") == [];
    assert F.Read(m, style, [',']) == F.Read(m.Take(','), style, [','][1..]);
  }

  /** In the classic rainbow the line `a,` is read as `a` alone: the code in front of the comma takes it. */
  lemma CommaIsLost()
    ensures var mode := Rainbow(CLASSIC, Some(1));
            mode.Valid() && !Decodes("a,", mode)
            && F.Read(F.Text, F.DEFAULT, Colorized("a,", mode)) == [F.Seen('a', Coloured(F.DEFAULT, 4, Some(1)))]
  {
    CommaPrinted();
    CodeThenChar(4, Some(1), F.DEFAULT, 'a', Code(7, None) + [',']);
    CommaTaken(Coloured(F.DEFAULT, 4, Some(1)), 7);
  }

  // ---------------------------------------------------------------- the loops

  /** `colorizeLine`: the loop with its counters and the colour last sent. */
  method ColorizeLine(line: string, mode: Mode) returns (out: string)
    requires mode.Valid()
    ensures out == Colorized(line, mode)
  {
    if mode.Plain? || AllSpace(line) {
      return line;
    }
    if mode.Solid? {
      return Code(mode.fg, mode.bg) + line;
    }
    out := PrintLine(line, mode);
  }

  /** The loop over the characters. */
  method PrintLine(line: string, mode: Mode) returns (out: string)
    requires mode.Valid() && !mode.Plain?
    ensures out == Print(line, mode, 0)
  {
    var nonSpace := CountVisible(line);
    out := "";
    var i, word, inWord: bool, active: Option<nat> := 0, -1, false, None;
    for k := 0 to |line|
      invariant i == Visible(line, k) && word == Words(line, k) - 1
      invariant inWord == (k > 0 && !IsSpace(line[k - 1]))
      invariant active == Active(line, mode, k)
      invariant out + Print(line, mode, k) == Print(line, mode, 0)
    {
      Counters(line, mode, k);
      if IsSpace(line[k]) {
        inWord := false;
        SpacePiece(out, line, mode, k);
        out := out + [line[k]];
      } else {
        if !inWord {
          inWord := true;
          word := word + 1;
        }
        var fg := FgAt(mode, i, word, nonSpace);
        out := Send(out, line, mode, k, fg, active);
        active := Some(fg);
        i := i + 1;
      }
    }
    assert out + "" == out;
  }

  lemma SpacePiece(out: string, line: string, mode: Mode, k: nat)
    requires mode.Valid() && k < |line| && IsSpace(line[k])
    ensures (out + [line[k]]) + Print(line, mode, k + 1) == out + Print(line, mode, k)
  {
    assert Piece(line, mode, k) == [line[k]];
    Assoc(out, [line[k]], Print(line, mode, k + 1));
  }

  /** A visible character, with a code in front of it when its colour is not the active one. */
  method Send(out: string, line: string, mode: Mode, k: nat, fg: nat, active: Option<nat>) returns (out': string)
    requires mode.Valid() && k < |line| && !IsSpace(line[k])
    requires fg == Wanted(line, mode, k) && active == Active(line, mode, k) && !mode.Plain?
    ensures out' + Print(line, mode, k + 1) == out + Print(line, mode, k)
  {
    NextPiece(out, line, mode, k);
    out' := out;
    if Some(fg) != active {
      out' := out' + Code(fg, if active.None? then mode.bg else None);
    }
    out' := out' + [line[k]];
  }

  /** What has been sent after character `k`. */
  function Sent(out: string, line: string, mode: Mode, k: nat): string
    requires mode.Valid() && k < |line|
  {
    (if Changes(line, mode, k) then out + Code(Wanted(line, mode, k), CodeBg(line, mode, k)) else out) + [line[k]]
  }

  lemma NextPiece(out: string, line: string, mode: Mode, k: nat)
    requires mode.Valid() && k < |line|
    ensures out + Print(line, mode, k) == Sent(out, line, mode, k) + Print(line, mode, k + 1)
  {
    Assoc(out, Piece(line, mode, k), Print(line, mode, k + 1));
    if Changes(line, mode, k) {
      Assoc(out, Code(Wanted(line, mode, k), CodeBg(line, mode, k)), [line[k]]);
    } else {
      assert Piece(line, mode, k) == [line[k]];
    }
  }

  /** How the counters move past character `k`. */
  lemma Counters(line: string, mode: Mode, k: nat)
    requires mode.Valid() && k < |line|
    ensures IsSpace(line[k]) ==>
      Visible(line, k + 1) == Visible(line, k) && Words(line, k + 1) == Words(line, k)
      && Active(line, mode, k + 1) == Active(line, mode, k)
    ensures !IsSpace(line[k]) ==>
      && Visible(line, k + 1) == Visible(line, k) + 1
      && Words(line, k + 1) == Words(line, k) + (if k > 0 && !IsSpace(line[k - 1]) then 0 else 1)
      && Words(line, k + 1) > 0
      && Wanted(line, mode, k) == FgAt(mode, Visible(line, k), Words(line, k + 1) - 1, Visible(line, |line|))
      && Active(line, mode, k + 1) == Some(Wanted(line, mode, k))
  {
    if !IsSpace(line[k]) {
      InsideWord(line, k);
    }
  }

  method CountVisible(line: string) returns (n: nat)
    ensures n == Visible(line, |line|)
  {
    n := 0;
    for k := 0 to |line|
      invariant n == Visible(line, k)
    {
      if !IsSpace(line[k]) {
        n := n + 1;
      }
    }
  }

  // ---------------------------------------------------------------- attributes

  datatype Attributes = Attributes(
    bold: bool, italic: bool, underline: bool, strikethrough: bool, monospace: bool, reverse: bool)

  function Flag(on: bool, code: char): string { if on then [code] else "" }

  function Prefix(a: Attributes): string {
    Flag(a.bold, F.BOLD) + (Flag(a.italic, F.ITALIC) + (Flag(a.underline, F.UNDERLINE)
    + (Flag(a.strikethrough, F.STRIKE) + (Flag(a.monospace, F.MONO) + Flag(a.reverse, F.REVERSE)))))
  }

  /** The style with which a line in these attributes starts. */
  function Base(a: Attributes): F.Style {
    F.DEFAULT.(bold := a.bold, italic := a.italic, underline := a.underline,
               strike := a.strikethrough, mono := a.monospace, reverse := a.reverse)
  }

  /** `wrapAttrs`. */
  function Wrapped(line: string, a: Attributes): string {
    if AllSpace(line) then line
    else if Prefix(a) == "" && F.COLOUR !in line then line
    else Prefix(a) + line + if line[|line| - 1] == F.RESET then "" else [F.RESET]
  }

  lemma ReadFlag(style: F.Style, on: bool, code: char, rest: string)
    requires F.IsSwitch(code)
    ensures F.Read(F.Text, style, Flag(on, code) + rest)
         == F.Read(F.Text, if on then F.Switch(style, code) else style, rest)
  {
    if on {
      assert ([code] + rest)[1..] == rest;
    } else {
      assert "" + rest == rest;
    }
  }

  lemma ReadPrefix(a: Attributes, rest: string)
    ensures F.Read(F.Text, F.DEFAULT, Prefix(a) + rest) == F.Read(F.Text, Base(a), rest)
  {
    var p5 := Flag(a.reverse, F.REVERSE);
    var p4 := Flag(a.monospace, F.MONO) + p5;
    var p3 := Flag(a.strikethrough, F.STRIKE) + p4;
    var p2 := Flag(a.underline, F.UNDERLINE) + p3;
    var p1 := Flag(a.italic, F.ITALIC) + p2;
    var s0 := F.DEFAULT.(bold := a.bold);
    var s1 := s0.(italic := a.italic);
    var s2 := s1.(underline := a.underline);
    var s3 := s2.(strike := a.strikethrough);
    var s4 := s3.(mono := a.monospace);
    OneFlag(F.DEFAULT, s0, a.bold, F.BOLD, p1, rest);
    OneFlag(s0, s1, a.italic, F.ITALIC, p2, rest);
    OneFlag(s1, s2, a.underline, F.UNDERLINE, p3, rest);
    OneFlag(s2, s3, a.strikethrough, F.STRIKE, p4, rest);
    OneFlag(s3, s4, a.monospace, F.MONO, p5, rest);
    ReadFlag(s4, a.reverse, F.REVERSE, rest);
  }

  lemma OneFlag(style: F.Style, after: F.Style, on: bool, code: char, more: string, rest: string)
    requires F.IsSwitch(code) && after == if on then F.Switch(style, code) else style
    ensures F.Read(F.Text, style, (Flag(on, code) + more) + rest) == F.Read(F.Text, after, more + rest)
  {
    assert (Flag(on, code) + more) + rest == Flag(on, code) + (more + rest);
    ReadFlag(style, on, code, more + rest);
  }

  /** Attributes come on top of whatever the line shows; the closing reset shows nothing. */
  lemma WrappedShows(line: string, a: Attributes)
    ensures F.Read(F.Text, F.DEFAULT, Wrapped(line, a))
         == F.Read(F.Text, if AllSpace(line) then F.DEFAULT else Base(a), line)
  {
    if !AllSpace(line) {
      if Prefix(a) == "" && F.COLOUR !in line {
        assert Base(a) == F.DEFAULT;
      } else {
        var t := Prefix(a) + line;
        ReadMoreControl(F.Text, F.DEFAULT, t, F.RESET);
        assert t + "" == t;
        ReadPrefix(a, line);
      }
    }
  }

  /** A composed line: coloured, then wrapped, it shows every character in its colours and attributes. */
  lemma ComposedLineShows(line: string, mode: Mode, a: Attributes)
    requires mode.Valid() && !AllSpace(line)
    ensures F.Read(F.Text, F.DEFAULT, Wrapped(Colorized(line, mode), a)) == Shown(Base(a), line, mode)
            <==> Decodes(line, mode)
  {
    ColorizedIsNotBlank(line, mode);
    WrappedShows(Colorized(line, mode), a);
    ColorizedShows(Base(a), line, mode);
  }

  lemma ColorizedIsNotBlank(line: string, mode: Mode)
    requires mode.Valid() && !AllSpace(line)
    ensures !AllSpace(Colorized(line, mode))
  {
    var k :| 0 <= k < |line| && !IsSpace(line[k]);
    if mode.Solid? {
      assert Colorized(line, mode)[0] == F.COLOUR;
    } else if !mode.Plain? {
      PrintKeeps(line, mode, 0, k);
    }
  }

  lemma {:induction false} PrintKeeps(line: string, mode: Mode, from: nat, k: nat)
    requires mode.Valid() && from <= k < |line| && !IsSpace(line[k])
    ensures !AllSpace(Print(line, mode, from))
    decreases k - from
  {
    var piece, rest := Piece(line, mode, from), Print(line, mode, from + 1);
    if from == k {
      assert (piece + rest)[|piece| - 1] == line[k];
    } else {
      PrintKeeps(line, mode, from + 1, k);
      var j :| 0 <= j < |rest| && !IsSpace(rest[j]);
      assert (piece + rest)[|piece| + j] == rest[j];
    }
  }
}
