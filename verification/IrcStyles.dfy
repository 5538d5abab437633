/**
 What the formatting codes mean, said of what a line shows: an attribute is on behind
 an odd number of its codes, a reset ends everything, and the arguments of a colour
 code are decimal numbers.
 */
module IrcStyles {
  import opened Sequences
  import opened Wrappers
  import opened IrcFormatting

  function Count(t: string, c: char): nat {
    if t == "" then 0 else (if t[0] == c then 1 else 0) + Count(t[1..], c)
  }

  predicate Odd(n: nat) { n % 2 == 1 }

  /** The part of `t` behind its last reset, or all of it. */
  function SinceReset(t: string): string {
    if t == "" then ""
    else if RESET in t[1..] then SinceReset(t[1..])
    else if t[0] == RESET then t[1..]
    else t
  }

  /** Behind `t`, is the attribute of `code` on? `before` tells whether it was on in front of `t`. */
  predicate On(before: bool, code: char, t: string) {
    if RESET in t then Odd(Count(SinceReset(t), code)) else before != Odd(Count(t, code))
  }

  /** The six attributes behind `t`. */
  predicate Switched(before: Style, t: string, after: Style) {
    && after.bold == On(before.bold, BOLD, t)
    && after.italic == On(before.italic, ITALIC, t)
    && after.underline == On(before.underline, UNDERLINE, t)
    && after.reverse == On(before.reverse, REVERSE, t)
    && after.mono == On(before.mono, MONO, t)
    && after.strike == On(before.strike, STRIKE, t)
  }

  /** No colour code in `t`: the colours stay, or a reset takes them. */
  predicate Uncoloured(t: string) {
    COLOUR !in t && HEX !in t
  }

  predicate ColoursKept(before: Style, t: string, after: Style) {
    && after.fg == (if RESET in t then None else before.fg) && after.bg == (if RESET in t then None else before.bg)
    && after.hexFg == (if RESET in t then None else before.hexFg)
    && after.hexBg == (if RESET in t then None else before.hexBg)
  }

  /** The first character of `t` decides about what is on in front of the rest. */
  lemma OnFirst(before: bool, code: char, c: char, t: string)
    requires code != RESET
    ensures On(before, code, [c] + t) == On(if c == RESET then false else (before != (c == code)), code, t)
    ensures RESET in [c] + t <==> c == RESET || RESET in t
  {
    assert ([c] + t)[1..] == t;
  }

  lemma SwitchedFirst(before: Style, c: char, t: string, middle: Style, after: Style)
    requires middle.bold == if c == RESET then false else (before.bold != (c == BOLD))
    requires middle.italic == if c == RESET then false else (before.italic != (c == ITALIC))
    requires middle.underline == if c == RESET then false else (before.underline != (c == UNDERLINE))
    requires middle.reverse == if c == RESET then false else (before.reverse != (c == REVERSE))
    requires middle.mono == if c == RESET then false else (before.mono != (c == MONO))
    requires middle.strike == if c == RESET then false else (before.strike != (c == STRIKE))
    requires Switched(middle, t, after)
    ensures Switched(before, [c] + t, after)
  {
    OnFirst(before.bold, BOLD, c, t);
    OnFirst(before.italic, ITALIC, c, t);
    OnFirst(before.underline, UNDERLINE, c, t);
    OnFirst(before.reverse, REVERSE, c, t);
    OnFirst(before.mono, MONO, c, t);
    OnFirst(before.strike, STRIKE, c, t);
  }

  /** Where the reader is behind `t`. */
  function Behind(mode: Mode, style: Style, t: string): (r: (Mode, Style))
    requires mode.Ok()
    ensures r.0.Ok()
    decreases |t|, if mode == Text then 0 else 1
  {
    if t == "" then (mode, style)
    else if mode != Text then
      if mode.Takes(t[0]) then Behind(mode.Take(t[0]), style, t[1..])
      else Behind(Text, mode.Settle(style), t)
    else if IsSwitch(t[0]) then Behind(Text, Switch(style, t[0]), t[1..])
    else if t[0] == COLOUR then Behind(Fg(""), style, t[1..])
    else if t[0] == HEX then Behind(HexFg(""), style, t[1..])
    else Behind(Text, style, t[1..])
  }

  lemma {:induction false} BehindReads(mode: Mode, style: Style, t: string, rest: string)
    requires mode.Ok()
    ensures Read(mode, style, t + rest)
         == Read(mode, style, t) + Read(Behind(mode, style, t).0, Behind(mode, style, t).1, rest)
    decreases |t|, if mode == Text then 0 else 1
  {
    if t == "" {
      NothingBefore(rest);
      NothingBefore(Read(mode, style, rest));
    } else {
      var c, t1 := t[0], t[1..];
      assert (t + rest)[0] == c && (t + rest)[1..] == t1 + rest;
      if mode != Text && !mode.Takes(c) {
        BehindReads(Text, mode.Settle(style), t, rest);
      } else if mode != Text {
        BehindReads(mode.Take(c), style, t1, rest);
      } else if IsSwitch(c) {
        BehindReads(Text, Switch(style, c), t1, rest);
      } else if c == COLOUR {
        BehindReads(Fg(""), style, t1, rest);
      } else if c == HEX {
        BehindReads(HexFg(""), style, t1, rest);
      } else {
        BehindReads(Text, style, t1, rest);
        var (m, s) := Behind(Text, style, t1);
        Assoc([Seen(c, style)], Read(Text, style, t1), Read(m, s, rest));
      }
    }
  }

  lemma SettleKeepsSwitches(mode: Mode, style: Style, t: string, after: Style)
    requires mode.Ok() && Switched(mode.Settle(style), t, after)
    ensures Switched(style, t, after)
  {
  }

  /** A character that is no switch. */
  lemma SwitchedPast(style: Style, c: char, t: string, after: Style)
    requires !IsSwitch(c) && Switched(style, t, after)
    ensures Switched(style, [c] + t, after)
  {
    SwitchedFirst(style, c, t, style, after);
  }

  /** A character that is a switch. */
  lemma SwitchedBy(style: Style, c: char, t: string, after: Style)
    requires IsSwitch(c) && Switched(Switch(style, c), t, after)
    ensures Switched(style, [c] + t, after)
  {
    SwitchedFirst(style, c, t, Switch(style, c), after);
  }

  /** Behind the first character of `t`, where that is not a switch. */
  lemma BehindFirst(mode: Mode, style: Style, t: string) returns (m: Mode)
    requires mode.Ok() && t != "" && (mode == Text || mode.Takes(t[0])) && !(mode == Text && IsSwitch(t[0]))
    ensures m.Ok() && !IsSwitch(t[0]) && Behind(mode, style, t) == Behind(m, style, t[1..])
  {
    m := if mode != Text then mode.Take(t[0])
         else if t[0] == COLOUR then Fg("") else if t[0] == HEX then HexFg("") else Text;
  }

  lemma {:induction false} BehindSwitched(mode: Mode, style: Style, t: string)
    requires mode.Ok()
    ensures Switched(style, t, Behind(mode, style, t).1)
    decreases |t|, if mode == Text then 0 else 1
  {
    if t != "" {
      var c, t1 := t[0], t[1..];
      FirstApart(t);
      if mode != Text && !mode.Takes(c) {
        BehindSwitched(Text, mode.Settle(style), t);
        SettleKeepsSwitches(mode, style, t, Behind(mode, style, t).1);
      } else if mode == Text && IsSwitch(c) {
        BehindSwitched(Text, Switch(style, c), t1);
        SwitchedBy(style, c, t1, Behind(mode, style, t).1);
      } else {
        var m := BehindFirst(mode, style, t);
        BehindSwitched(m, style, t1);
        SwitchedPast(style, c, t1, Behind(mode, style, t).1);
      }
    }
  }

  lemma {:induction false} BehindUncoloured(style: Style, t: string)
    requires Uncoloured(t)
    ensures Behind(Text, style, t).0 == Text && ColoursKept(style, t, Behind(Text, style, t).1)
    decreases |t|
  {
    if t != "" {
      FirstApart(t);
      BehindUncoloured(if IsSwitch(t[0]) then Switch(style, t[0]) else style, t[1..]);
    }
  }

  /**
   Behind any text, codes in any places, each attribute is on exactly when its code
   stood there an odd number of times since the last reset.
   */
  lemma ReadOn(style: Style, t: string, rest: string) returns (m: Mode, s: Style)
    ensures m.Ok() && Read(Text, style, t + rest) == Read(Text, style, t) + Read(m, s, rest)
    ensures Switched(style, t, s)
    ensures Uncoloured(t) ==> m == Text && ColoursKept(style, t, s)
  {
    m, s := Behind(Text, style, t).0, Behind(Text, style, t).1;
    BehindReads(Text, style, t, rest);
    BehindSwitched(Text, style, t);
    if Uncoloured(t) {
      BehindUncoloured(style, t);
    }
  }

  /** A character behind a text without colour codes is shown in exactly that style. */
  lemma ShownBehind(style: Style, t: string, c: char, rest: string) returns (s: Style)
    requires Uncoloured(t) && !IsControl(c)
    ensures Switched(style, t, s) && ColoursKept(style, t, s)
    ensures Read(Text, style, t + [c] + rest) == Read(Text, style, t) + [Seen(c, s)] + Read(Text, s, rest)
  {
    Assoc(t, [c], rest);
    var m;
    m, s := ReadOn(style, t, [c] + rest);
    assert ([c] + rest)[1..] == rest;
    Assoc(Read(Text, style, t), [Seen(c, s)], Read(Text, s, rest));
  }

  /** Behind a reset everything reads as at the start of a line, whatever code was under way. */
  lemma ResetForgets(style: Style, t: string, rest: string)
    ensures Read(Text, style, t + [RESET] + rest) == Read(Text, style, t) + Read(Text, DEFAULT, rest)
  {
    Assoc(t, [RESET], rest);
    var m, s := ReadOn(style, t, [RESET] + rest);
    assert ([RESET] + rest)[1..] == rest;
    ReadSettles(m, s, [RESET] + rest);
    assert Read(Text, m.Settle(s), [RESET] + rest) == Read(Text, DEFAULT, rest);
  }

  // ---------------------------------------------------------------- the arguments of colour codes

  function DigitOf(c: char): int { c as int - '0' as int }

  /** `f` is the number `n` in one or two digits, or nothing at all. */
  predicate Writes(f: string, n: Option<nat>) {
    && AllDigits(f) && |f| <= 2
    && match n
       case None => f == ""
       case Some(v) => f != "" && v == if |f| == 1 then DigitOf(f[0]) else 10 * DigitOf(f[0]) + DigitOf(f[1])
  }

  /** `c` would be read as one more character of the code. */
  predicate Continues(f: string, comma: bool, b: string, c: char) {
    (IsDigit(c) && |if comma then b else f| < 2) || (c == ',' && !comma)
  }

  lemma WritesValue(f: string, n: nat)
    requires Writes(f, Some(n))
    ensures Value(f) == n
  {
    assert f[..1][..0] == "" && Value(f[..1]) == DigitOf(f[0]);
    if |f| == 1 {
      assert f[..1] == f;
    } else {
      assert Value(f) == Value(f[..1]) * 10 + DigitOf(f[1]);
    }
  }

  /** The automaton reads a number at the start of what is left. */
  lemma ReadNumber(mode: Mode, style: Style, f: string, rest: string)
    requires mode != Text && mode.Ok() && RunFor(mode, f) && Grown(mode, f).Ok()
    ensures Read(mode, style, f + rest) == Read(Grown(mode, f), style, rest)
  {
    var t := f + rest;
    assert t[0..] == t && t[|f|..] == rest && t[0..|f|] == f;
    ReadTakesRun(mode, style, t, 0, |f|);
  }

  lemma ReadCodeEnd(mode: Mode, style: Style, c: char, rest: string)
    requires mode.Ok() && !mode.Takes(c) && !IsControl(c)
    ensures Read(mode, style, [c] + rest) == [Seen(c, mode.Settle(style))] + Read(Text, mode.Settle(style), rest)
  {
    assert ([c] + rest)[1..] == rest;
    ReadSettles(mode, style, [c] + rest);
  }

  lemma ReadForeground(style: Style, f: string, rest: string)
    requires AllDigits(f) && |f| <= 2
    ensures Read(Text, style, [COLOUR] + (f + rest)) == Read(Fg(f), style, rest)
  {
    assert ([COLOUR] + (f + rest))[1..] == f + rest && "" + f == f;
    ReadNumber(Fg(""), style, f, rest);
  }

  /** A foreground alone leaves the background, and no number at all clears both. */
  lemma ForegroundCode(style: Style, f: string, fg: Option<nat>, c: char, rest: string)
    requires Writes(f, fg) && !IsControl(c) && !Continues(f, false, "", c)
    ensures var s := style.(fg := fg, bg := if fg.Some? then style.bg else None, hexFg := None, hexBg := None);
            Read(Text, style, [COLOUR] + (f + ([c] + rest))) == [Seen(c, s)] + Read(Text, s, rest)
  {
    ReadForeground(style, f, [c] + rest);
    if fg.Some? {
      WritesValue(f, fg.value);
    }
    ReadCodeEnd(Fg(f), style, c, rest);
  }

  lemma ReadBackgroundNumber(style: Style, f: string, b: string, rest: string)
    requires AllDigits(f) && |f| <= 2 && AllDigits(b) && |b| <= 2
    ensures Read(Fg(f), style, [','] + (b + rest)) == Read(Bg(f, b), style, rest)
  {
    var t := [','] + (b + rest);
    assert t[0..] == t && t[1..] == b + rest && "" + b == b;
    ReadComma(Fg(f), style, t, 0);
    ReadNumber(Bg(f, ""), style, b, rest);
  }

  lemma BothSettle(style: Style, f: string, fg: Option<nat>, b: string, bg: Option<nat>)
    requires Writes(f, fg) && Writes(b, bg)
    ensures Bg(f, b).Settle(style)
         == style.(fg := if fg.Some? then fg else style.fg, bg := bg, hexFg := None, hexBg := None)
  {
    if fg.Some? {
      WritesValue(f, fg.value);
    }
    if bg.Some? {
      WritesValue(b, bg.value);
    }
  }

  /** Behind a comma a background is set, or cleared where its number is missing; a missing foreground stays. */
  lemma BackgroundCode(style: Style, f: string, fg: Option<nat>, b: string, bg: Option<nat>, c: char, rest: string)
    requires Writes(f, fg) && Writes(b, bg) && !IsControl(c) && !Continues(f, true, b, c)
    ensures var s := style.(fg := if fg.Some? then fg else style.fg, bg := bg, hexFg := None, hexBg := None);
            Read(Text, style, [COLOUR] + (f + ([','] + (b + ([c] + rest))))) == [Seen(c, s)] + Read(Text, s, rest)
  {
    var t := [','] + (b + ([c] + rest));
    ReadForeground(style, f, t);
    ReadBackgroundNumber(style, f, b, [c] + rest);
    BothSettle(style, f, fg, b, bg);
    ReadCodeEnd(Bg(f, b), style, c, rest);
  }

  predicate HexDigits(f: string) {
    |f| <= 6 && forall k :: 0 <= k < |f| ==> IsHexDigit(f[k])
  }

  function SixOrNone(f: string): Option<string> {
    if |f| == 6 then Some(f) else None
  }

  lemma ReadHexForeground(style: Style, f: string, rest: string)
    requires HexDigits(f)
    ensures Read(Text, style, [HEX] + (f + rest)) == Read(HexFg(f), style, rest)
  {
    assert ([HEX] + (f + rest))[1..] == f + rest && "" + f == f;
    ReadNumber(HexFg(""), style, f, rest);
  }

  /** A true colour: six digits set the foreground, fewer clear it, and every other colour goes. */
  lemma HexForegroundCode(style: Style, f: string, c: char, rest: string)
    requires HexDigits(f) && !IsControl(c) && !(IsHexDigit(c) && |f| < 6) && c != ','
    ensures var s := style.(fg := None, bg := None, hexFg := SixOrNone(f), hexBg := None);
            Read(Text, style, [HEX] + (f + ([c] + rest))) == [Seen(c, s)] + Read(Text, s, rest)
  {
    ReadHexForeground(style, f, [c] + rest);
    ReadCodeEnd(HexFg(f), style, c, rest);
  }

  lemma ReadHexBackground(style: Style, f: string, b: string, rest: string)
    requires HexDigits(f) && HexDigits(b)
    ensures Read(HexFg(f), style, [','] + (b + rest)) == Read(HexBg(f, b), style, rest)
  {
    var t := [','] + (b + rest);
    assert t[0..] == t && t[1..] == b + rest && "" + b == b;
    ReadComma(HexFg(f), style, t, 0);
    ReadNumber(HexBg(f, ""), style, b, rest);
  }

  /** With a background behind a comma, both are set or cleared by their six digits. */
  lemma HexBothCode(style: Style, f: string, b: string, c: char, rest: string)
    requires HexDigits(f) && HexDigits(b) && !IsControl(c) && !(IsHexDigit(c) && |b| < 6)
    ensures var s := style.(fg := None, bg := None, hexFg := SixOrNone(f), hexBg := SixOrNone(b));
            Read(Text, style, [HEX] + (f + ([','] + (b + ([c] + rest))))) == [Seen(c, s)] + Read(Text, s, rest)
  {
    var t := [','] + (b + ([c] + rest));
    ReadHexForeground(style, f, t);
    ReadHexBackground(style, f, b, [c] + rest);
    ReadCodeEnd(HexBg(f, b), style, c, rest);
  }
}
