/**
 What the colour printers share: two-digit colour codes, white space, and how the
 client's reader sees text that grows or shrinks at its end.
 */
module ColourCodes {
  import opened Whitespace
  import opened Wrappers
  import opened RowModel
  import opened RowEmitter
  import opened RowDecode
  import F = IrcFormatting

  /** Always two digits, so that no digit behind the code can extend it. */
  function Two(n: nat): string
    requires n < 100
  {
    [Digit(n / 10), Digit(n % 10)]
  }

  lemma TwoValue(n: nat)
    requires n < 100
    ensures F.AllDigits(Two(n)) && F.Value(Two(n)) == n
  {
    DigitValue(n / 10);
    assert Two(n)[..1] == [Digit(n / 10)];
  }

  predicate IsColour(c: Option<nat>) {
    c.Some? ==> c.value < 100
  }

  /** A colour code with or without a background. */
  function Code(fg: nat, bg: Option<nat>): string
    requires fg < 100 && IsColour(bg)
  {
    [F.COLOUR] + Two(fg) + if bg.None? then "" else [','] + Two(bg.value)
  }

  /** The style after a colour code; without a background the old one stays. */
  function Coloured(style: F.Style, fg: nat, bg: Option<nat>): F.Style {
    style.(fg := Some(fg), bg := if bg.None? then style.bg else bg, hexFg := None, hexBg := None)
  }

  /** The reader's mode right behind a code. */
  function BehindCode(fg: nat, bg: Option<nat>): (m: F.Mode)
    requires fg < 100 && IsColour(bg)
    ensures m.Ok()
    ensures forall ch :: m.Takes(ch) <==> bg.None? && ch == ','
    ensures forall style :: m.Settle(style) == Coloured(style, fg, bg)
  {
    TwoValue(fg);
    if bg.None? then F.Fg(Two(fg))
    else
      TwoValue(bg.value);
      F.Bg(Two(fg), Two(bg.value))
  }

  /** Reading a code shows nothing. */
  lemma ReadColourCode(fg: nat, bg: Option<nat>, mode: F.Mode, style: F.Style, rest: string)
    requires fg < 100 && IsColour(bg) && mode.Ok()
    ensures F.Read(mode, style, Code(fg, bg) + rest) == F.Read(BehindCode(fg, bg), mode.Settle(style), rest)
  {
    TwoValue(fg);
    if bg.None? {
      assert Code(fg, bg) == CodeText(Indexed, FgOnly, Two(fg), "00");
      ReadCode(Indexed, FgOnly, Two(fg), "00", mode, style, rest);
    } else {
      TwoValue(bg.value);
      assert Code(fg, bg) == CodeText(Indexed, Full, Two(fg), Two(bg.value));
      ReadCode(Indexed, Full, Two(fg), Two(bg.value), mode, style, rest);
    }
  }

  /** A code and the character behind it. */
  lemma CodeThenChar(fg: nat, bg: Option<nat>, style: F.Style, ch: char, rest: string)
    requires fg < 100 && IsColour(bg) && !F.IsControl(ch) && (bg.None? ==> ch != ',')
    ensures F.Read(F.Text, style, Code(fg, bg) + [ch] + rest)
         == [F.Seen(ch, Coloured(style, fg, bg))] + F.Read(F.Text, Coloured(style, fg, bg), rest)
  {
    assert Code(fg, bg) + [ch] + rest == Code(fg, bg) + ([ch] + rest);
    ReadColourCode(fg, bg, F.Text, style, [ch] + rest);
    PlainCharIsShown(BehindCode(fg, bg), style, ch, rest);
  }

  predicate AllSpace(s: string) {
    forall i :: 0 <= i < |s| ==> IsSpace(s[i])
  }

  predicate AllBlank(seen: seq<F.Seen>) {
    forall i :: 0 <= i < |seen| ==> IsSpace(seen[i].ch)
  }

  function TrimEnd(s: string): (t: string)
    ensures |t| <= |s| && t == s[..|t|]
  {
    if s != "" && IsSpace(s[|s| - 1]) then TrimEnd(s[..|s| - 1]) else s
  }

  /** White space at the end is shown after everything else. */
  lemma {:induction false} ReadMoreSpace(mode: F.Mode, style: F.Style, t: string, c: char) returns (last: F.Style)
    requires mode.Ok() && IsSpace(c)
    ensures F.Read(mode, style, t + [c]) == F.Read(mode, style, t) + [F.Seen(c, last)]
    decreases |t|, if mode == F.Text then 0 else 1
  {
    if t == "" {
      last := mode.Settle(style);
      assert t + [c] == [c] && [c][1..] == "" && [c] + "" == [c];
      PlainCharIsShown(mode, style, c, "");
    } else {
      assert (t + [c])[1..] == t[1..] + [c];
      if mode != F.Text {
        if mode.Takes(t[0]) {
          last := ReadMoreSpace(mode.Take(t[0]), style, t[1..], c);
        } else {
          last := ReadMoreSpace(F.Text, mode.Settle(style), t, c);
        }
      } else if F.IsSwitch(t[0]) {
        last := ReadMoreSpace(F.Text, F.Switch(style, t[0]), t[1..], c);
      } else if t[0] == F.COLOUR {
        last := ReadMoreSpace(F.Fg(""), style, t[1..], c);
      } else if t[0] == F.HEX {
        last := ReadMoreSpace(F.HexFg(""), style, t[1..], c);
      } else {
        last := ReadMoreSpace(F.Text, style, t[1..], c);
      }
    }
  }

  /** A lone code at the end shows nothing. */
  lemma {:induction false} ReadMoreControl(mode: F.Mode, style: F.Style, t: string, c: char)
    requires mode.Ok() && (c == F.COLOUR || c == F.RESET)
    ensures F.Read(mode, style, t + [c]) == F.Read(mode, style, t)
    decreases |t|, if mode == F.Text then 0 else 1
  {
    if t == "" {
      assert t + [c] == [c] && [c][1..] == "";
      var settled := mode.Settle(style);
      assert !mode.Takes(c) && F.Read(F.Text, F.Switch(settled, F.RESET), "") == [] == F.Read(F.Fg(""), settled, "");
      assert F.Read(F.Text, settled, [c]) == [];
      F.ReadSettles(mode, style, [c]);
    } else {
      assert (t + [c])[1..] == t[1..] + [c];
      if mode != F.Text {
        if mode.Takes(t[0]) {
          ReadMoreControl(mode.Take(t[0]), style, t[1..], c);
        } else {
          ReadMoreControl(F.Text, mode.Settle(style), t, c);
        }
      } else if F.IsSwitch(t[0]) {
        ReadMoreControl(F.Text, F.Switch(style, t[0]), t[1..], c);
      } else if t[0] == F.COLOUR {
        ReadMoreControl(F.Fg(""), style, t[1..], c);
      } else if t[0] == F.HEX {
        ReadMoreControl(F.HexFg(""), style, t[1..], c);
      } else {
        ReadMoreControl(F.Text, style, t[1..], c);
      }
    }
  }

  /** Trimming hides white space only. */
  lemma {:induction false} ReadTrimmed(style: F.Style, t: string)
    ensures var all, left := F.Read(F.Text, style, t), F.Read(F.Text, style, TrimEnd(t));
            |left| <= |all| && left == all[..|left|] && AllBlank(all[|left|..])
  {
    if t != "" && IsSpace(t[|t| - 1]) {
      var init, c := t[..|t| - 1], t[|t| - 1];
      ReadTrimmed(style, init);
      var last := ReadMoreSpace(F.Text, style, init, c);
      assert t == init + [c];
      var all, some, left := F.Read(F.Text, style, t), F.Read(F.Text, style, init), F.Read(F.Text, style, TrimEnd(t));
      assert all[|left|..] == some[|left|..] + [F.Seen(c, last)];
    }
  }
}
