/**
 The client's reader of IRC formatting codes.

 `Read` is an automaton over single characters: it says which characters a line
 shows and in which style. `ParseIrcFormatting` is the reader itself, a loop over
 an index that looks ahead into a code and prints span markup; it is proved to
 print balanced spans that show exactly what the automaton shows.
 */
module IrcFormatting {
  import opened Wrappers

  const BOLD := '\U{02}'
  const COLOUR := '\U{03}'
  const HEX := '\U{04}'
  const RESET := '\U{0F}'
  const MONO := '\U{11}'
  const REVERSE := '\U{16}'
  const ITALIC := '\U{1D}'
  const STRIKE := '\U{1E}'
  const UNDERLINE := '\U{1F}'

  datatype Style = Style(
    bold: bool, italic: bool, underline: bool, reverse: bool, mono: bool, strike: bool,
    fg: Option<nat>, bg: Option<nat>, hexFg: Option<string>, hexBg: Option<string>)

  const DEFAULT := Style(false, false, false, false, false, false, None, None, None, None)

  /** One visible character and the style it is shown in. */
  datatype Seen = Seen(ch: char, style: Style)

  predicate IsDigit(c: char) { '0' <= c <= '9' }

  predicate IsHexDigit(c: char) { '0' <= c <= '9' || 'A' <= c <= 'F' || 'a' <= c <= 'f' }

  /** The codes that take no argument. */
  predicate IsSwitch(c: char) {
    c == BOLD || c == ITALIC || c == UNDERLINE || c == REVERSE || c == MONO || c == STRIKE || c == RESET
  }

  predicate IsControl(c: char) { IsSwitch(c) || c == COLOUR || c == HEX }

  function Switch(style: Style, c: char): Style
    requires IsSwitch(c)
  {
    if c == BOLD then style.(bold := !style.bold)
    else if c == ITALIC then style.(italic := !style.italic)
    else if c == UNDERLINE then style.(underline := !style.underline)
    else if c == REVERSE then style.(reverse := !style.reverse)
    else if c == MONO then style.(mono := !style.mono)
    else if c == STRIKE then style.(strike := !style.strike)
    else DEFAULT
  }

  predicate AllDigits(s: string) { forall i :: 0 <= i < |s| ==> IsDigit(s[i]) }

  /** Decimal value of a digit string. */
  function Value(s: string): nat
    requires AllDigits(s)
  {
    if s == "" then 0
    else Value(s[..|s| - 1]) * 10 + (s[|s| - 1] as nat - '0' as nat)
  }

  /** A `\x03` code with its arguments read: `comma` tells whether one followed the foreground. */
  function ApplyColour(style: Style, fnum: string, comma: bool, bnum: string): Style
    requires AllDigits(fnum) && AllDigits(bnum)
  {
    var fg := if |fnum| > 0 then Some(Value(fnum)) else if comma then style.fg else None;
    var bg := if comma then (if |bnum| > 0 then Some(Value(bnum)) else None)
              else if |fnum| == 0 then None else style.bg;
    style.(fg := fg, bg := bg, hexFg := None, hexBg := None)
  }

  /** A `\x04` code with its arguments read; without six digits a colour is dropped. */
  function ApplyHex(style: Style, hf: string, hb: string): Style {
    style.(hexFg := if |hf| == 6 then Some(hf) else None,
           hexBg := if |hb| == 6 then Some(hb) else None, fg := None, bg := None)
  }

  /** Where the automaton is: in text, or inside the arguments of a colour code. */
  datatype Mode =
    | Text
    | Fg(fnum: string)
    | Bg(fnum: string, bnum: string)
    | HexFg(hf: string)
    | HexBg(hf: string, hb: string)
  {
    predicate Ok() {
      match this
      case Text => true
      case Fg(f) => |f| <= 2 && AllDigits(f)
      case Bg(f, b) => |f| <= 2 && AllDigits(f) && |b| <= 2 && AllDigits(b)
      case HexFg(f) => |f| <= 6
      case HexBg(f, b) => |f| <= 6 && |b| <= 6
    }

    /** Does the code under way take `c` as one of its own characters? */
    predicate Takes(c: char) {
      match this
      case Text => false
      case Fg(f) => (|f| < 2 && IsDigit(c)) || c == ','
      case Bg(_, b) => |b| < 2 && IsDigit(c)
      case HexFg(f) => (|f| < 6 && IsHexDigit(c)) || c == ','
      case HexBg(_, b) => |b| < 6 && IsHexDigit(c)
    }

    function Take(c: char): (m: Mode)
      requires Ok() && Takes(c)
      ensures m.Ok() && m != Text
    {
      match this
      case Fg(f) => if |f| < 2 && IsDigit(c) then Fg(f + [c]) else Bg(f, "")
      case Bg(f, b) => Bg(f, b + [c])
      case HexFg(f) => if |f| < 6 && IsHexDigit(c) then HexFg(f + [c]) else HexBg(f, "")
      case HexBg(f, b) => HexBg(f, b + [c])
    }

    /** The style once the code is over. */
    function Settle(style: Style): Style
      requires Ok()
    {
      match this
      case Text => style
      case Fg(f) => ApplyColour(style, f, false, "")
      case Bg(f, b) => ApplyColour(style, f, true, b)
      case HexFg(f) => ApplyHex(style, f, "")
      case HexBg(f, b) => ApplyHex(style, f, b)
    }
  }

  /** Everything `t` shows when read from `mode` with `style` in force. */
  function Read(mode: Mode, style: Style, t: string): seq<Seen>
    requires mode.Ok()
    decreases |t|, if mode == Text then 0 else 1
  {
    if t == "" then []
    else if mode != Text then
      if mode.Takes(t[0]) then Read(mode.Take(t[0]), style, t[1..])
      else Read(Text, mode.Settle(style), t)
    else if IsSwitch(t[0]) then Read(Text, Switch(style, t[0]), t[1..])
    else if t[0] == COLOUR then Read(Fg(""), style, t[1..])
    else if t[0] == HEX then Read(HexFg(""), style, t[1..])
    else [Seen(t[0], style)] + Read(Text, style, t[1..])
  }

  // ---------------------------------------------------------------- markup

  /** A piece of the printed markup. */
  datatype Token = Open(style: Style) | Close | Wbr | Chr(ch: char)

  /** What a browser has after some markup: is a span open, in which style, what is on screen. */
  datatype Screen = Screen(open: bool, style: Style, shown: seq<Seen>)

  /** `None` as soon as spans nest or a span is closed that is not open. */
  function Render(out: seq<Token>): Option<Screen> {
    if |out| == 0 then Some(Screen(false, DEFAULT, []))
    else
      var before := Render(out[..|out| - 1]);
      if before.None? then None
      else
        var s := before.value;
        match out[|out| - 1]
        case Open(style) => if s.open then None else Some(Screen(true, style, s.shown))
        case Close => if s.open then Some(Screen(false, DEFAULT, s.shown)) else None
        case Wbr => Some(s)
        case Chr(c) => Some(s.(shown := s.shown + [Seen(c, s.style)]))
  }

  lemma RenderPush(out: seq<Token>, t: Token)
    ensures Render(out + [t]) ==
      var before := Render(out);
      if before.None? then None
      else
        var s := before.value;
        match t
        case Open(style) => if s.open then None else Some(Screen(true, style, s.shown))
        case Close => if s.open then Some(Screen(false, DEFAULT, s.shown)) else None
        case Wbr => Some(s)
        case Chr(c) => Some(s.(shown := s.shown + [Seen(c, s.style)]))
  {
    assert (out + [t])[..|out|] == out;
  }

  /** `mode` with a whole run of its own characters read. */
  function Grown(mode: Mode, run: string): Mode
    requires mode != Text
  {
    match mode
    case Fg(f) => Fg(f + run)
    case Bg(f, b) => Bg(f, b + run)
    case HexFg(f) => HexFg(f + run)
    case HexBg(f, b) => HexBg(f, b + run)
  }

  predicate RunFor(mode: Mode, run: string)
    requires mode != Text
  {
    forall k :: 0 <= k < |run| ==> if mode.Fg? || mode.Bg? then IsDigit(run[k]) else IsHexDigit(run[k])
  }

  /** The automaton takes a run of digits one by one. */
  lemma {:induction false} ReadTakesRun(mode: Mode, style: Style, text: string, from: nat, to: nat)
    requires from <= to <= |text| && mode.Ok() && mode != Text
    requires RunFor(mode, text[from..to]) && Grown(mode, text[from..to]).Ok()
    ensures Read(mode, style, text[from..]) == Read(Grown(mode, text[from..to]), style, text[to..])
    decreases |text| - from
  {
    var run := text[from..to];
    if from == to {
      assert Grown(mode, run) == mode;
    } else {
      var c, rest := text[from], text[from + 1..to];
      assert run == [c] + rest && run[0] == c;
      assert forall k :: 0 <= k < |rest| ==> rest[k] == run[k + 1];
      assert text[from..][1..] == text[from + 1..];
      assert mode.Takes(c) && mode.Take(c) == Grown(mode, [c]);
      GrownTwice(mode, [c], rest);
      ReadTakesRun(mode.Take(c), style, text, from + 1, to);
    }
  }

  lemma GrownTwice(mode: Mode, a: string, b: string)
    requires mode != Text
    ensures Grown(Grown(mode, a), b) == Grown(mode, a + b)
  {
    match mode
    case Fg(f) => assert f + a + b == f + (a + b);
    case Bg(_, g) => assert g + a + b == g + (a + b);
    case HexFg(f) => assert f + a + b == f + (a + b);
    case HexBg(_, g) => assert g + a + b == g + (a + b);
  }

  /** Up to `max` digits from position `start`; the automaton, at the start of a number, reads them too. */
  method ReadRun(text: string, start: nat, max: nat, hex: bool, ghost mode: Mode, ghost style: Style)
    returns (run: string, i: nat)
    requires start <= |text| && mode.Ok()
    requires if hex then max == 6 && (mode == HexFg("") || (mode.HexBg? && mode.hb == ""))
             else max == 2 && (mode == Fg("") || (mode.Bg? && mode.bnum == ""))
    ensures start <= i <= |text| && run == text[start..i]
    ensures Grown(mode, run).Ok()
    ensures Read(mode, style, text[start..]) == Read(Grown(mode, run), style, text[i..])
    ensures i < |text| && Grown(mode, run).Takes(text[i]) ==> text[i] == ',' && (mode.Fg? || mode.HexFg?)
  {
    i := start;
    while i < |text| && i - start < max && if hex then IsHexDigit(text[i]) else IsDigit(text[i])
      invariant start <= i <= |text| && i - start <= max
      invariant RunFor(mode, text[start..i])
    {
      assert text[start..i + 1] == text[start..i] + [text[i]];
      i := i + 1;
    }
    run := text[start..i];
    ReadTakesRun(mode, style, text, start, i);
  }

  /** A comma after the foreground starts the background. */
  lemma ReadComma(mode: Mode, style: Style, text: string, i: nat)
    requires mode.Ok() && (mode.Fg? || mode.HexFg?) && i < |text| && text[i] == ','
    ensures Read(mode, style, text[i..])
         == Read(if mode.Fg? then Bg(mode.fnum, "") else HexBg(mode.hf, ""), style, text[i + 1..])
  {
    assert text[i..][1..] == text[i + 1..];
  }

  /** A code that cannot take the next character is over. */
  lemma ReadSettles(mode: Mode, style: Style, t: string)
    requires mode.Ok() && (t == "" || !mode.Takes(t[0]))
    ensures Read(mode, style, t) == Read(Text, mode.Settle(style), t)
  {
  }

  lemma SettlesAt(mode: Mode, style: Style, text: string, i: nat)
    requires mode.Ok() && i <= |text| && (i < |text| ==> !mode.Takes(text[i]))
    ensures Read(mode, style, text[i..]) == Read(Text, mode.Settle(style), text[i..])
  {
    ReadSettles(mode, style, text[i..]);
  }

  /** What the reader does to the four colours once a `\x03` code is read. */
  method SetColours(style: Style, fnum: string, hadComma: bool, bnum: string) returns (after: Style)
    requires AllDigits(fnum) && AllDigits(bnum)
    ensures after == ApplyColour(style, fnum, hadComma, bnum)
  {
    var fg, bg := style.fg, style.bg;
    if |fnum| > 0 {
      fg := Some(Value(fnum));
    } else if !hadComma {
      fg := None;
    }
    if hadComma {
      bg := if |bnum| > 0 then Some(Value(bnum)) else None;
    }
    if |fnum| == 0 && !hadComma {
      fg, bg := None, None;
    }
    after := style.(fg := fg, bg := bg, hexFg := None, hexBg := None);
  }

  /** The arguments of a `\x03` code, read from just after it. */
  method ReadColourArguments(text: string, start: nat, style: Style) returns (after: Style, i: nat)
    requires start <= |text|
    ensures start <= i <= |text|
    ensures Read(Fg(""), style, text[start..]) == Read(Text, after, text[i..])
  {
    var fnum;
    fnum, i := ReadRun(text, start, 2, false, Fg(""), style);
    assert "" + fnum == fnum;
    if i < |text| && text[i] == ',' {
      ReadComma(Fg(fnum), style, text, i);
      after, i := ReadBackground(text, i + 1, fnum, style);
    } else {
      SettlesAt(Fg(fnum), style, text, i);
      after := SetColours(style, fnum, false, "");
    }
  }

  /** The background of a code, read from just after the comma. */
  method ReadBackground(text: string, start: nat, fnum: string, style: Style) returns (after: Style, i: nat)
    requires start <= |text| && Fg(fnum).Ok()
    ensures start <= i <= |text|
    ensures Read(Bg(fnum, ""), style, text[start..]) == Read(Text, after, text[i..])
  {
    var bnum;
    bnum, i := ReadRun(text, start, 2, false, Bg(fnum, ""), style);
    assert "" + bnum == bnum;
    SettlesAt(Bg(fnum, bnum), style, text, i);
    after := SetColours(style, fnum, true, bnum);
  }

  /** The arguments of a `\x04` code, read from just after it. */
  method ReadHexArguments(text: string, start: nat, style: Style) returns (after: Style, i: nat)
    requires start <= |text|
    ensures start <= i <= |text|
    ensures Read(HexFg(""), style, text[start..]) == Read(Text, after, text[i..])
  {
    var hf, hb;
    hf, i := ReadRun(text, start, 6, true, HexFg(""), style);
    assert "" + hf == hf;
    hb := "";
    ghost var mode := HexFg(hf);
    if i < |text| && text[i] == ',' {
      ReadComma(mode, style, text, i);
      hb, i := ReadRun(text, i + 1, 6, true, HexBg(hf, ""), style);
      assert "" + hb == hb;
      mode := HexBg(hf, hb);
    }
    ReadSettles(mode, style, text[i..]);
    after := style.(hexFg := if |hf| == 6 then Some(hf) else None,
                    hexBg := if |hb| == 6 then Some(hb) else None, fg := None, bg := None);
    assert after == mode.Settle(style);
  }

  /** `closeAll`, then a new span unless the style needs none. */
  method Reopen(out: seq<Token>, openStack: nat, style: Style, ghost before: Screen)
    returns (out': seq<Token>, openStack': nat)
    requires !before.open ==> before.style == DEFAULT
    requires Render(out) == Some(before) && openStack == if before.open then 1 else 0
    ensures Render(out') == Some(Screen(style != DEFAULT, style, before.shown))
    ensures openStack' == if style != DEFAULT then 1 else 0
  {
    out', openStack' := out, openStack;
    if openStack' > 0 {
      RenderPush(out', Close);
      out', openStack' := out' + [Close], 0;
    }
    if style != DEFAULT {
      if style.fg.Some? || style.bg.Some? || style.hexFg.Some? || style.hexBg.Some? {
        RenderPush(out', Wbr);
        out' := out' + [Wbr];
      }
      RenderPush(out', Open(style));
      out', openStack' := out' + [Open(style)], 1;
    }
  }

  /**
   The reader: its spans are balanced and never nested, none is left open, and the
   screen shows exactly the automaton's characters in the automaton's styles.
   */
  method ParseIrcFormatting(text: string) returns (out: seq<Token>)
    ensures Render(out) == Some(Screen(false, DEFAULT, Read(Text, DEFAULT, text)))
  {
    var i, openStack, style := 0, 0, DEFAULT;
    out := [];
    ghost var shown: seq<Seen> := [];
    assert text[0..] == text;
    while i < |text|
      invariant i <= |text|
      invariant openStack == if style != DEFAULT then 1 else 0
      invariant Render(out) == Some(Screen(style != DEFAULT, style, shown))
      invariant shown + Read(Text, style, text[i..]) == Read(Text, DEFAULT, text)
    {
      var ch := text[i];
      ghost var was := Screen(style != DEFAULT, style, shown);
      assert text[i..][1..] == text[i + 1..];
      if IsControl(ch) {
        if IsSwitch(ch) {
          style, i := Switch(style, ch), i + 1;
        } else if ch == COLOUR {
          style, i := ReadColourArguments(text, i + 1, style);
        } else {
          style, i := ReadHexArguments(text, i + 1, style);
        }
        out, openStack := Reopen(out, openStack, style, was);
      } else {
        RenderPush(out, Chr(ch));
        out := out + [Chr(ch)];
        assert shown + ([Seen(ch, style)] + Read(Text, style, text[i + 1..]))
            == (shown + [Seen(ch, style)]) + Read(Text, style, text[i + 1..]);
        shown := shown + [Seen(ch, style)];
        i := i + 1;
      }
    }
    assert text[i..] == "";
    assert shown + [] == shown;
    if openStack > 0 {
      RenderPush(out, Close);
      out := out + [Close];
    }
  }
}
