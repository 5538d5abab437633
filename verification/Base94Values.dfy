/**
 What the characters of an encoding stand for: block by block, text and bytes are one
 and the same big-endian number, and a text that is no encoding is cut to its low bytes.
 */
module Base94Values {
  import opened Sequences
  import opened Wrappers
  import opened Base94

  /** Digits weighted by their positions, the first one most. */
  function Weighted(base: nat, digits: seq<nat>): nat {
    if digits == [] then 0 else digits[0] * Pow(base, |digits| - 1) + Weighted(base, digits[1..])
  }

  /** The places of the characters in the alphabet, `!` being the first and `~` the last. */
  function Places(s: string): (digits: seq<nat>)
    requires forall i :: 0 <= i < |s| ==> '!' <= s[i] <= '~'
    ensures |digits| == |s|
  {
    seq(|s|, i requires 0 <= i < |s| => s[i] as nat - '!' as nat)
  }

  lemma SwapFactors(a: nat, b: nat, p: nat)
    ensures a * (b * p) == a * p * b
  {
  }

  lemma TimesSum(a: nat, b: nat, c: nat)
    ensures (a + b) * c == a * c + b * c
  {
  }

  lemma {:induction false} WeightedPush(base: nat, digits: seq<nat>, d: nat)
    ensures Weighted(base, digits + [d]) == Weighted(base, digits) * base + d
  {
    if digits == [] {
      assert [] + [d] == [d] && [d][1..] == [] && Pow(base, 0) == 1;
    } else {
      var a, t := digits[0], digits[1..];
      assert (digits + [d])[1..] == t + [d];
      WeightedPush(base, t, d);
      SwapFactors(a, base, Pow(base, |t|));
      TimesSum(a * Pow(base, |t|), Weighted(base, t), base);
    }
  }

  lemma {:induction false} BigIsWeighted(bytes: Bytes)
    ensures Big(bytes) == Weighted(256, bytes)
  {
    if bytes != [] {
      BigIsWeighted(bytes[..|bytes| - 1]);
      LastApart(bytes);
      WeightedPush(256, bytes[..|bytes| - 1], bytes[|bytes| - 1]);
    }
  }

  lemma {:induction false} NumberIsWeighted(s: string)
    requires AllSymbols(s)
    ensures Number(s) == Weighted(94, Places(s))
  {
    if s != "" {
      var init, last := s[..|s| - 1], s[|s| - 1];
      NumberIsWeighted(init);
      assert Places(s) == Places(init) + [last as nat - '!' as nat];
      WeightedPush(94, Places(init), last as nat - '!' as nat);
    }
  }

  // ---------------------------------------------------------------- encoding

  function Least(a: nat, b: nat): nat { if a < b then a else b }

  lemma FirstBlock(bytes: Bytes)
    requires bytes != []
    ensures var k := Least(9, |bytes|);
            var text := Encode(bytes);
            && MinChars(k) <= |text| && text[MinChars(k)..] == Encode(bytes[k..])
            && AllSymbols(text[..MinChars(k)])
            && Weighted(94, Places(text[..MinChars(k)])) == Weighted(256, bytes[..k])
  {
    var k := Least(9, |bytes|);
    var chunk := Digits(Big(bytes[..k]), CharsFor(k));
    CharsForIsMinChars(k);
    BigFits(bytes[..k]);
    NumberOfDigits(Big(bytes[..k]), CharsFor(k));
    BigIsWeighted(bytes[..k]);
    NumberIsWeighted(chunk);
    assert Encode(bytes)[..|chunk|] == chunk && Encode(bytes)[|chunk|..] == Encode(bytes[k..]);
  }

  lemma DropTwice<T>(s: seq<T>, m: nat, n: nat)
    requires m + n <= |s|
    ensures s[m..][n..] == s[m + n..]
  {
  }

  /** Nine bytes further is eleven characters further. */
  lemma {:induction false} EncodedFrom(bytes: Bytes, j: nat)
    requires 9 * j <= |bytes|
    ensures 11 * j <= |Encode(bytes)| && Encode(bytes)[11 * j..] == Encode(bytes[9 * j..])
  {
    if j == 0 {
      assert bytes[0..] == bytes && Encode(bytes)[0..] == Encode(bytes);
    } else {
      EncodedFrom(bytes, j - 1);
      FirstBlock(bytes[9 * (j - 1)..]);
      NineIntoEleven();
      DropTwice(bytes, 9 * (j - 1), 9);
      DropTwice(Encode(bytes), 11 * (j - 1), 11);
    }
  }

  /**
   Nine bytes at a time, and what is left at the end: each block of the text is the same
   number as its block of bytes, in the fewest characters that can hold every such block.
   */
  lemma EncodedBlock(bytes: Bytes, j: nat)
    requires 9 * j < |bytes|
    ensures 11 * j <= |Encode(bytes)|
    ensures var (left, text) := (bytes[9 * j..], Encode(bytes)[11 * j..]);
            var k := Least(9, |left|);
            var m := MinChars(k);
            && m <= |text| && (k == |left| ==> m == |text|) && AllSymbols(text[..m])
            && Weighted(94, Places(text[..m])) == Weighted(256, left[..k])
  {
    EncodedFrom(bytes, j);
    FirstBlock(bytes[9 * j..]);
  }

  // ---------------------------------------------------------------- decoding

  lemma ModIs(n: nat, q: nat, d: nat, r: nat)
    requires n == q * d + r && r < d
    ensures n % d == r
  {
    var q' := n / d;
    assert n == q' * d + n % d;
    if q < q' {
      TimesSum(q, q' - q, d);
      TimesGrows(q' - q, d);
    } else if q' < q {
      TimesSum(q', q - q', d);
      TimesGrows(q - q', d);
    }
  }

  lemma DigitFits(v: nat, b: nat, p: nat, r: nat)
    requires v < p && r < b
    ensures v * b + r < b * p
  {
    TimesSum(v, 1, b);
    TimesSum(v + 1, p - v - 1, b);
  }

  lemma Digits3(n: nat, b: nat, p: nat)
    requires b > 0 && p > 0
    ensures n == n / b / p * (b * p) + (n / b % p * b + n % b)
  {
    var q := n / b;
    var u, v := q / p, q % p;
    assert n == q * b + n % b && q == u * p + v;
    TimesSum(u * p, v, b);
    SwapFactors(u, b, p);
  }

  /** The low digit and the digits above it. */
  lemma ModSplits(n: nat, b: nat, p: nat)
    requires b > 0 && p > 0
    ensures b * p > 0 && n % (b * p) == n / b % p * b + n % b
  {
    var q := n / b;
    var u, v := q / p, q % p;
    DigitFits(v, b, p, n % b);
    Digits3(n, b, p);
    ModIs(n, u, b * p, v * b + n % b);
  }

  lemma {:induction false} LowIsMod(n: nat, k: nat)
    ensures Pow(256, k) > 0 && Weighted(256, Low(n, k)) == n % Pow(256, k)
  {
    PowPositive(256, k);
    if k > 0 {
      PowPositive(256, k - 1);
      LowIsMod(n / 256, k - 1);
      WeightedPush(256, Low(n / 256, k - 1), n % 256);
      ModSplits(n, 256, Pow(256, k - 1));
    }
  }

  /** How many bytes `c` characters at the end stand for: the count that needs `c`, or else the most that fit. */
  ghost predicate TailCount(c: nat, k: nat) {
    if c == 11 then k == 9
    else if exists n: nat :: n <= 9 && MinChars(n) == c then k <= 9 && MinChars(k) == c
    else Pow(256, k) <= Pow(94, c) < Pow(256, k + 1)
  }

  lemma BytesForIsTailCount(c: nat)
    requires 0 < c <= 11
    ensures TailCount(c, BytesFor(c, c < 11))
  {
    if c < 11 {
      if n: nat :| n <= 9 && MinChars(n) == c {
        CandidateFinds(n, 0);
      } else if Candidate(c, 0).Some? {
        CandidateIs(c, 0);
      }
    }
  }

  lemma {:induction false} CandidateIs(c: nat, cand: nat)
    requires cand <= 10
    ensures Candidate(c, cand).Some? ==> Candidate(c, cand).value <= 9 && MinChars(Candidate(c, cand).value) == c
    decreases 10 - cand
  {
    if cand < 10 {
      CandidateIs(c, cand + 1);
    }
  }

  lemma SymbolsBehind(s: string, n: nat)
    requires AllSymbols(s) && n <= |s|
    ensures AllSymbols(s[..n]) && AllSymbols(s[n..])
  {
  }

  lemma {:induction false} SymbolsDecode(s: string)
    requires AllSymbols(s)
    ensures Decode(s).Some?
    decreases |s|
  {
    if s != "" {
      SymbolsBehind(s, Least(11, |s|));
      SymbolsDecode(s[Least(11, |s|)..]);
    }
  }

  lemma FirstDecoded(s: string)
    requires AllSymbols(s) && s != ""
    ensures var c := Least(11, |s|);
            var k := BytesFor(c, c < 11);
            && Decode(s).Some? && Decode(s[c..]).Some? && k <= |Decode(s).value|
            && Decode(s).value[k..] == Decode(s[c..]).value
            && Pow(256, k) > 0
            && Weighted(256, Decode(s).value[..k]) == Weighted(94, Places(s[..c])) % Pow(256, k)
  {
    var c := Least(11, |s|);
    var k := BytesFor(c, c < 11);
    SymbolsDecode(s);
    NumberIsWeighted(s[..c]);
    LowIsMod(Number(s[..c]), k);
    assert Decode(s).value[..k] == Low(Number(s[..c]), k);
  }

  lemma DecodedNext(s: string, a: nat, bytes: Bytes, b: nat)
    requires AllSymbols(s) && a + 11 <= |s| && b <= |bytes| && Decode(s[a..]) == Some(bytes[b..])
    ensures b + 9 <= |bytes| && Decode(s[a + 11..]) == Some(bytes[b + 9..])
  {
    SymbolsBehind(s, a);
    FirstDecoded(s[a..]);
    DropTwice(s, a, 11);
    DropTwice(bytes, b, 9);
  }

  /** Eleven characters further is nine bytes further. */
  lemma {:induction false} DecodedFrom(s: string, j: nat)
    requires AllSymbols(s) && 11 * j <= |s|
    ensures Decode(s).Some? && 9 * j <= |Decode(s).value| && Decode(s[11 * j..]) == Some(Decode(s).value[9 * j..])
  {
    SymbolsDecode(s);
    if j == 0 {
      assert s[0..] == s && Decode(s).value[0..] == Decode(s).value;
    } else {
      DecodedFrom(s, j - 1);
      DecodedNext(s, 11 * (j - 1), Decode(s).value, 9 * (j - 1));
    }
  }

  /**
   Eleven characters at a time, and what is left at the end: each block of bytes is the
   number of its block of text, as far as it fits; what is above the top byte is lost.
   */
  lemma DecodedBlock(s: string, j: nat) returns (k: nat)
    requires AllSymbols(s) && 11 * j < |s|
    ensures Decode(s).Some? && 9 * j <= |Decode(s).value| && AllSymbols(s[11 * j..])
    ensures var (left, bytes) := (s[11 * j..], Decode(s).value[9 * j..]);
            var c := Least(11, |left|);
            && TailCount(c, k) && Pow(256, k) > 0 && k <= |bytes| && (c == |left| ==> k == |bytes|)
            && Weighted(256, bytes[..k]) == Weighted(94, Places(left[..c])) % Pow(256, k)
  {
    var left := s[11 * j..];
    var c := Least(11, |left|);
    k := BytesFor(c, c < 11);
    BytesForIsTailCount(c);
    DecodedFrom(s, j);
    SymbolsBehind(s, 11 * j);
    FirstDecoded(left);
  }
}
