/**
 The base-94 framing of byte payloads: nine bytes travel as eleven printable
 characters, a shorter tail as the fewest characters that can hold it.
 */
module Base94 {
  import opened Wrappers

  type Byte = n: nat | n < 256
  type Bytes = seq<Byte>

  /** `B94_CHARS`: the printable ASCII characters from `!` to `~`, in order. */
  function SymbolAt(d: nat): char
    requires d < 94
  {
    '!' + d as char
  }

  /** `B94_MAP`. */
  function ValueOf(c: char): Option<nat> {
    if '!' <= c <= '~' then Some(c as nat - '!' as nat) else None
  }

  lemma ValueOfSymbol(d: nat)
    requires d < 94
    ensures ValueOf(SymbolAt(d)) == Some(d)
  {
  }

  lemma SymbolOfValue(c: char)
    ensures ValueOf(c).Some? ==> ValueOf(c).value < 94 && SymbolAt(ValueOf(c).value) == c
  {
  }

  // ---------------------------------------------------------------- powers

  function Pow(b: nat, n: nat): nat {
    if n == 0 then 1 else b * Pow(b, n - 1)
  }

  lemma {:induction false} PowPositive(b: nat, n: nat)
    requires b > 0
    ensures Pow(b, n) > 0
  {
    if n > 0 {
      PowPositive(b, n - 1);
      assert b * Pow(b, n - 1) > 0;
    }
  }

  lemma {:induction false} PowMonotone(b: nat, m: nat, n: nat)
    requires b > 0 && m <= n
    ensures Pow(b, m) <= Pow(b, n)
    decreases n
  {
    if m < n {
      PowMonotone(b, m, n - 1);
      TimesGrows(b, Pow(b, n - 1));
    }
  }

  lemma TimesGrows(b: nat, x: nat)
    requires b > 0
    ensures x <= b * x
  {
  }

  /** `base94Feasible`: `m` characters can tell all `n`-byte strings apart. */
  predicate Feasible(n: nat, m: nat) {
    Pow(256, n) <= Pow(94, m)
  }

  /** Two characters per byte always suffice. */
  lemma {:induction false} TwiceIsFeasible(n: nat)
    ensures Feasible(n, 2 * n)
  {
    if n > 0 {
      TwiceIsFeasible(n - 1);
      assert Pow(94, 2 * n) == 94 * (94 * Pow(94, 2 * n - 2));
    }
  }

  /** The loops of `base94Feasible`. */
  method TestFeasible(n: nat, m: nat) returns (ok: bool)
    ensures ok == Feasible(n, m)
  {
    var a, b := 1, 1;
    for i := 0 to n
      invariant a == Pow(256, i)
    {
      a := a * 256;
    }
    for i := 0 to m
      invariant b == Pow(94, i)
    {
      b := b * 94;
    }
    ok := a <= b;
  }

  ghost predicate IsMinChars(n: nat, m: nat) {
    Feasible(n, m) && forall k :: 0 <= k < m ==> !Feasible(n, k)
  }

  /** `base94MinChars`: the least feasible character count. */
  function MinChars(n: nat): (m: nat)
    ensures IsMinChars(n, m)
  {
    TwiceIsFeasible(n);
    LeastFrom(n, 0)
  }

  function LeastFrom(n: nat, m: nat): (r: nat)
    requires forall k :: 0 <= k < m ==> !Feasible(n, k)
    requires m <= 2 * n
    ensures IsMinChars(n, r)
    decreases 2 * n - m
  {
    TwiceIsFeasible(n);
    if Feasible(n, m) then m else LeastFrom(n, m + 1)
  }

  lemma MinCharsUnique(n: nat, m: nat)
    requires IsMinChars(n, m)
    ensures m == MinChars(n)
  {
    assert Feasible(n, MinChars(n)) && Feasible(n, m);
  }

  /** The loop of `base94MinChars`. */
  method FindMinChars(n: nat) returns (m: nat)
    ensures m == MinChars(n)
  {
    TwiceIsFeasible(n);
    m := 0;
    var ok := TestFeasible(n, m);
    while !ok
      invariant ok == Feasible(n, m) && m <= 2 * n
      invariant forall k :: 0 <= k < m ==> !Feasible(n, k)
      decreases 2 * n - m, !ok
    {
      assert m < 2 * n;
      m := m + 1;
      ok := TestFeasible(n, m);
    }
    MinCharsUnique(n, m);
  }

  /** One byte more always needs more characters, because 256 > 94. */
  lemma MinCharsIncreases(n: nat)
    ensures MinChars(n) < MinChars(n + 1)
  {
    var m' := MinChars(n + 1);
    PowPositive(256, n);
    assert Pow(256, n + 1) == 256 * Pow(256, n);
    assert m' != 0;
    assert Pow(94, m') == 94 * Pow(94, m' - 1);
    FeasibleIsEnough(n, m' - 1);
  }

  lemma FeasibleIsEnough(n: nat, m: nat)
    requires Feasible(n, m)
    ensures MinChars(n) <= m
  {
    assert m < MinChars(n) ==> !Feasible(n, m);
  }

  lemma {:induction false} MinCharsInjective(n: nat, k: nat)
    requires n < k
    ensures MinChars(n) < MinChars(k)
    decreases k
  {
    MinCharsIncreases(k - 1);
    if n < k - 1 {
      MinCharsInjective(n, k - 1);
    }
  }

  /** Nine bytes fit into eleven characters and not into ten. */
  lemma NineIntoEleven()
    ensures MinChars(9) == 11
  {
    assert Pow(256, 9) == 4722366482869645213696;
    assert Pow(94, 5) == 7339040224;
    assert Pow(94, 10) == 53861511409489970176;
    assert Pow(94, 11) == 94 * Pow(94, 10);
    forall k | 0 <= k < 11
      ensures !Feasible(9, k)
    {
      PowMonotone(94, k, 10);
    }
    MinCharsUnique(9, 11);
  }

  // ---------------------------------------------------------------- one chunk

  /** A chunk as a big-endian number. */
  function Big(bytes: Bytes): nat {
    if bytes == [] then 0 else Big(bytes[..|bytes| - 1]) * 256 + bytes[|bytes| - 1]
  }

  /** The low `k` bytes of a number. */
  function Low(n: nat, k: nat): (bytes: Bytes)
    ensures |bytes| == k
  {
    if k == 0 then [] else Low(n / 256, k - 1) + [n % 256]
  }

  /** `m` characters of a number, most significant first. */
  function Digits(n: nat, m: nat): (s: string)
    ensures |s| == m
  {
    if m == 0 then "" else Digits(n / 94, m - 1) + [SymbolAt(n % 94)]
  }

  predicate AllSymbols(s: string) {
    forall i :: 0 <= i < |s| ==> ValueOf(s[i]).Some?
  }

  function Number(s: string): nat
    requires AllSymbols(s)
  {
    if s == "" then 0 else Number(s[..|s| - 1]) * 94 + ValueOf(s[|s| - 1]).value
  }

  lemma {:induction false} BigFits(bytes: Bytes)
    ensures Big(bytes) < Pow(256, |bytes|)
  {
    if bytes != [] {
      BigFits(bytes[..|bytes| - 1]);
    }
  }

  lemma {:induction false} LowOfBig(bytes: Bytes)
    ensures Low(Big(bytes), |bytes|) == bytes
  {
    if bytes != [] {
      LowOfBig(bytes[..|bytes| - 1]);
    }
  }

  /** Numbers that fit survive; larger ones lose their high part. */
  lemma {:induction false} BigOfLow(n: nat, k: nat)
    ensures n < Pow(256, k) ==> Big(Low(n, k)) == n
  {
    if k > 0 {
      BigOfLow(n / 256, k - 1);
      assert Low(n, k)[..k - 1] == Low(n / 256, k - 1);
    }
  }

  lemma {:induction false} NumberOfDigits(n: nat, m: nat)
    requires n < Pow(94, m)
    ensures AllSymbols(Digits(n, m)) && Number(Digits(n, m)) == n
  {
    if m > 0 {
      NumberOfDigits(n / 94, m - 1);
      ValueOfSymbol(n % 94);
      assert Digits(n, m)[..m - 1] == Digits(n / 94, m - 1);
    }
  }

  lemma {:induction false} DigitsOfNumber(s: string)
    requires AllSymbols(s)
    ensures Digits(Number(s), |s|) == s
  {
    if s != "" {
      DigitsOfNumber(s[..|s| - 1]);
      SymbolOfValue(s[|s| - 1]);
    }
  }

  lemma {:induction false} DigitsAreSymbols(n: nat, m: nat)
    ensures AllSymbols(Digits(n, m))
  {
    if m > 0 {
      DigitsAreSymbols(n / 94, m - 1);
      ValueOfSymbol(n % 94);
    }
  }

  // ---------------------------------------------------------------- the codec

  function CharsFor(k: nat): nat {
    if k == 9 then 11 else MinChars(k)
  }

  function Encode(bytes: Bytes): string {
    if bytes == [] then ""
    else
      var k := if |bytes| < 9 then |bytes| else 9;
      Digits(Big(bytes[..k]), CharsFor(k)) + Encode(bytes[k..])
  }

  /** The largest byte count a number of `m` characters can hold: the rounded-down logarithm. */
  function MostBytes(m: nat): (k: nat)
    ensures Feasible(k, m) && !Feasible(k + 1, m)
  {
    PowPositive(94, m);
    MostFrom(m, 0)
  }

  function MostFrom(m: nat, k: nat): (r: nat)
    requires Feasible(k, m)
    ensures Feasible(r, m) && !Feasible(r + 1, m)
    decreases Pow(94, m) - Pow(256, k)
  {
    PowPositive(256, k);
    if Feasible(k + 1, m) then MostFrom(m, k + 1) else k
  }

  /** The first of 0 to 9 whose encoding has `clen` characters, if there is one. */
  function Candidate(clen: nat, cand: nat): (r: Option<nat>)
    requires cand <= 10
    decreases 10 - cand
  {
    if cand == 10 then None
    else if MinChars(cand) == clen then Some(cand)
    else Candidate(clen, cand + 1)
  }

  /** How many bytes a chunk of `clen` characters decodes to. */
  function BytesFor(clen: nat, isLast: bool): nat {
    if !isLast then 9
    else if Candidate(clen, 0).Some? then Candidate(clen, 0).value
    else MostBytes(clen)
  }

  /** `None` when the text holds a character outside the alphabet. */
  function Decode(s: string): Option<Bytes> {
    if s == "" then Some([])
    else
      var clen := if |s| < 11 then |s| else 11;
      if !AllSymbols(s[..clen]) then None
      else Prepend(Low(Number(s[..clen]), BytesFor(clen, |s| < 11)), Decode(s[clen..]))
  }

  function Prepend(bytes: Bytes, r: Option<Bytes>): Option<Bytes> {
    if r.None? then None else Some(bytes + r.value)
  }

  lemma PrependTwice(a: Bytes, b: Bytes, r: Option<Bytes>)
    ensures Prepend(a, Prepend(b, r)) == Prepend(a + b, r)
    ensures Prepend([], r) == r
  {
    if r.Some? {
      assert a + (b + r.value) == (a + b) + r.value;
      assert [] + r.value == r.value;
    }
  }

  /** `base94EncodedLength`. */
  function EncodedLength(byteLen: nat): nat {
    byteLen / 9 * 11 + if byteLen % 9 == 0 then 0 else MinChars(byteLen % 9)
  }

  lemma CharsForIsMinChars(k: nat)
    ensures CharsFor(k) == MinChars(k)
  {
    NineIntoEleven();
  }

  lemma {:induction false} CandidateFinds(k: nat, cand: nat)
    requires cand <= k <= 9
    ensures Candidate(MinChars(k), cand) == Some(k)
    decreases k - cand
  {
    if cand < k {
      MinCharsInjective(cand, k);
      CandidateFinds(k, cand + 1);
    }
  }

  /** A tail of fewer than nine bytes is recognised by its character count. */
  lemma TailLength(k: nat)
    requires 0 < k <= 9
    ensures 0 < MinChars(k) && (k < 9 ==> MinChars(k) < 11)
    ensures BytesFor(CharsFor(k), k < 9) == k
  {
    CharsForIsMinChars(k);
    MinCharsInjective(0, k);
    if k < 9 {
      MinCharsInjective(k, 9);
      NineIntoEleven();
      CandidateFinds(k, 0);
    }
  }

  /** One chunk there and back. */
  lemma ChunkRoundTrip(chunk: Bytes)
    ensures var s := Digits(Big(chunk), CharsFor(|chunk|));
            AllSymbols(s) && Low(Number(s), |chunk|) == chunk
  {
    BigFits(chunk);
    CharsForIsMinChars(|chunk|);
    NumberOfDigits(Big(chunk), CharsFor(|chunk|));
    LowOfBig(chunk);
  }

  /** Every byte string survives the codec. */
  lemma {:induction false} RoundTrip(bytes: Bytes)
    ensures Decode(Encode(bytes)) == Some(bytes)
    decreases |bytes|
  {
    if bytes != [] {
      var k := if |bytes| < 9 then |bytes| else 9;
      var chunk, rest := Digits(Big(bytes[..k]), CharsFor(k)), Encode(bytes[k..]);
      TailLength(k);
      CharsForIsMinChars(k);
      ChunkRoundTrip(bytes[..k]);
      RoundTrip(bytes[k..]);
      if k < 9 {
        assert bytes[k..] == [];
        assert rest == "";
      }
      var s := chunk + rest;
      assert s[..|chunk|] == chunk && s[|chunk|..] == rest;
      assert bytes == bytes[..k] + bytes[k..];
    }
  }

  lemma NineMore(n: nat)
    requires n >= 9
    ensures EncodedLength(n) == 11 + EncodedLength(n - 9)
  {
    assert n / 9 == (n - 9) / 9 + 1 && n % 9 == (n - 9) % 9;
  }

  lemma TailOnly(n: nat)
    requires 0 < n < 9
    ensures EncodedLength(n) == MinChars(n)
  {
    assert n / 9 == 0 && n % 9 == n;
  }

  /** The lengths of the chunks, added up. */
  function ChunkLengths(n: nat): nat {
    if n < 9 then CharsFor(n) else CharsFor(9) + ChunkLengths(n - 9)
  }

  lemma {:induction false} EncodesChunkwise(bytes: Bytes)
    ensures |Encode(bytes)| == ChunkLengths(|bytes|)
    decreases |bytes|
  {
    CharsForIsMinChars(0);
    if bytes != [] {
      EncodesChunkwise(bytes[if |bytes| < 9 then |bytes| else 9..]);
    }
  }

  lemma {:induction false} ChunkLengthsAdd(n: nat)
    ensures ChunkLengths(n) == EncodedLength(n)
  {
    if n >= 9 {
      ChunkLengthsAdd(n - 9);
      NineMore(n);
    } else {
      CharsForIsMinChars(n);
      if n > 0 {
        TailOnly(n);
      }
    }
  }

  lemma LengthIsAnnounced(bytes: Bytes)
    ensures |Encode(bytes)| == EncodedLength(|bytes|)
  {
    EncodesChunkwise(bytes);
    ChunkLengthsAdd(|bytes|);
  }

  /** Only characters of the alphabet are sent. */
  lemma {:induction false} EncodesToSymbols(bytes: Bytes)
    ensures AllSymbols(Encode(bytes))
    decreases |bytes|
  {
    if bytes != [] {
      var k := if |bytes| < 9 then |bytes| else 9;
      DigitsAreSymbols(Big(bytes[..k]), CharsFor(k));
      EncodesToSymbols(bytes[k..]);
    }
  }

  // ---------------------------------------------------------------- which texts are encodings

  /** Full chunks below 256^9, and a tail whose length and value a tail can have. */
  ghost predicate Canonical(s: string) {
    s != "" ==>
      var clen := if |s| < 11 then |s| else 11;
      && AllSymbols(s[..clen])
      && (var k := BytesFor(clen, |s| < 11);
          k <= 9 && MinChars(k) == clen && Number(s[..clen]) < Pow(256, k))
      && Canonical(s[clen..])
  }

  lemma {:induction false} EncodingIsCanonical(bytes: Bytes)
    ensures Canonical(Encode(bytes))
    decreases |bytes|
  {
    if bytes != [] {
      var k := if |bytes| < 9 then |bytes| else 9;
      var chunk, rest := Digits(Big(bytes[..k]), CharsFor(k)), Encode(bytes[k..]);
      TailLength(k);
      CharsForIsMinChars(k);
      BigFits(bytes[..k]);
      NumberOfDigits(Big(bytes[..k]), CharsFor(k));
      EncodingIsCanonical(bytes[k..]);
      if k < 9 {
        assert bytes[k..] == [];
        assert rest == "";
      }
      var s := chunk + rest;
      assert s[..|chunk|] == chunk && s[|chunk|..] == rest;
    }
  }

  /** The byte count of a canonical chunk: positive, and nine only for a full chunk. */
  lemma CanonicalCount(clen: nat, k: nat)
    requires 0 < clen <= 11 && k <= 9 && MinChars(k) == clen
    ensures 0 < k && (k < 9 <==> clen < 11)
  {
    FeasibleIsEnough(0, 0);
    NineIntoEleven();
    if k < 9 {
      MinCharsInjective(k, 9);
    }
  }

  lemma ChunkSurvives(chunk: string, k: nat)
    requires AllSymbols(chunk) && MinChars(k) == |chunk| && Number(chunk) < Pow(256, k)
    ensures Digits(Big(Low(Number(chunk), k)), CharsFor(k)) == chunk
  {
    CharsForIsMinChars(k);
    BigOfLow(Number(chunk), k);
    DigitsOfNumber(chunk);
  }

  lemma {:induction false} CanonicalSurvives(s: string)
    requires Canonical(s)
    ensures Decode(s).Some? && Encode(Decode(s).value) == s
    decreases |s|
  {
    if s != "" {
      var clen := if |s| < 11 then |s| else 11;
      var chunk, k := s[..clen], BytesFor(clen, |s| < 11);
      CanonicalSurvives(s[clen..]);
      CanonicalCount(clen, k);
      ChunkSurvives(chunk, k);
      var head, tail := Low(Number(chunk), k), Decode(s[clen..]).value;
      if k < 9 {
        assert s[clen..] == "";
      }
      assert (head + tail)[..k] == head && (head + tail)[k..] == tail;
      assert s == chunk + s[clen..];
    }
  }

  /** A text is given back by decoding and encoding if and only if it is canonical. */
  lemma ExactlyCanonicalTextsSurvive(s: string)
    ensures (Decode(s).Some? && Encode(Decode(s).value) == s) <==> Canonical(s)
  {
    if Canonical(s) {
      CanonicalSurvives(s);
    }
    if Decode(s).Some? && Encode(Decode(s).value) == s {
      EncodingIsCanonical(Decode(s).value);
    }
  }

  // ---------------------------------------------------------------- the loops

  lemma BigGrows(bytes: Bytes, j: nat)
    requires j < |bytes|
    ensures Big(bytes[..j + 1]) == Big(bytes[..j]) * 256 + bytes[j]
  {
    assert bytes[..j + 1][..j] == bytes[..j];
  }

  /** The inner loops of the encoder: one chunk as text. */
  method EncodeChunk(chunk: Bytes) returns (s: string)
    requires 0 < |chunk| <= 9
    ensures s == Digits(Big(chunk), CharsFor(|chunk|))
  {
    var n: nat := 0;
    for j := 0 to |chunk|
      invariant n == Big(chunk[..j])
    {
      BigGrows(chunk, j);
      n := n * 256 + chunk[j];
    }
    assert chunk[..|chunk|] == chunk;
    var need := 11;
    if |chunk| != 9 {
      need := FindMinChars(|chunk|);
    }
    s := "";
    for k := 0 to need
      invariant Digits(Big(chunk), need) == Digits(n, need - k) + s
    {
      assert Digits(n, need - k) + s == Digits(n / 94, need - k - 1) + ([SymbolAt(n % 94)] + s);
      s := [SymbolAt(n % 94)] + s;
      n := n / 94;
    }
    assert Digits(n, 0) + s == s;
  }

  /** `base94Encode`. */
  method EncodeBytes(bytes: Bytes) returns (out: string)
    ensures out == Encode(bytes)
  {
    out := "";
    var i := 0;
    assert bytes[0..] == bytes;
    while i < |bytes|
      invariant i <= |bytes|
      invariant out + Encode(bytes[i..]) == Encode(bytes)
    {
      var next := if i + 9 < |bytes| then i + 9 else |bytes|;
      var chunk := bytes[i..next];
      assert bytes[i..][..next - i] == chunk && bytes[i..][next - i..] == bytes[next..];
      var s := EncodeChunk(chunk);
      assert out + (s + Encode(bytes[next..])) == (out + s) + Encode(bytes[next..]);
      out := out + s;
      i := next;
    }
  }

  lemma NumberGrows(s: string, j: nat)
    requires j < |s| && AllSymbols(s[..j + 1])
    ensures AllSymbols(s[..j]) && Number(s[..j + 1]) == Number(s[..j]) * 94 + ValueOf(s[j]).value
  {
    assert s[..j + 1][..j] == s[..j];
    assert forall k :: 0 <= k < j ==> s[..j][k] == s[..j + 1][k];
  }

  /** The candidate search and its fallback. */
  method FindByteCount(clen: nat) returns (k: nat)
    ensures k == BytesFor(clen, true)
  {
    k := MostBytes(clen);
    for cand := 0 to 10
      invariant Candidate(clen, 0) == Candidate(clen, cand)
    {
      var m := FindMinChars(cand);
      if m == clen {
        return cand;
      }
    }
  }

  /** The inner loops of the decoder: one chunk as bytes. */
  method DecodeChunk(chunk: string, isLast: bool) returns (r: Option<Bytes>)
    ensures r == if AllSymbols(chunk) then Some(Low(Number(chunk), BytesFor(|chunk|, isLast))) else None
  {
    var n: nat := 0;
    for j := 0 to |chunk|
      invariant AllSymbols(chunk[..j]) && n == Number(chunk[..j])
    {
      var v := ValueOf(chunk[j]);
      if v == None {
        return None;
      }
      assert chunk[..j + 1] == chunk[..j] + [chunk[j]];
      NumberGrows(chunk, j);
      n := n * 94 + v.value;
    }
    assert chunk[..|chunk|] == chunk;
    var realBlen := 9;
    if isLast {
      realBlen := FindByteCount(|chunk|);
    }
    var tmp: Bytes := [];
    for k := 0 to realBlen
      invariant Low(Number(chunk), realBlen) == Low(n, realBlen - k) + tmp
    {
      assert Low(n, realBlen - k) + tmp == Low(n / 256, realBlen - k - 1) + ([n % 256] + tmp);
      tmp := [n % 256] + tmp;
      n := n / 256;
    }
    assert Low(n, 0) + tmp == tmp;
    r := Some(tmp);
  }

  /** `base94Decode`. */
  method DecodeText(str: string) returns (r: Option<Bytes>)
    ensures r == Decode(str)
  {
    var bytes: Bytes := [];
    var i := 0;
    assert str[0..] == str;
    PrependTwice([], [], Decode(str));
    while i < |str|
      invariant i <= |str|
      invariant Decode(str) == Prepend(bytes, Decode(str[i..]))
    {
      var isLast := |str| - i < 11;
      var clen := if isLast then |str| - i else 11;
      var chunk := str[i..i + clen];
      assert str[i..][..clen] == chunk && str[i..][clen..] == str[i + clen..];
      var tmp := DecodeChunk(chunk, isLast);
      if tmp == None {
        return None;
      }
      PrependTwice(bytes, tmp.value, Decode(str[i + clen..]));
      bytes := bytes + tmp.value;
      i := i + clen;
    }
    assert bytes + [] == bytes;
    r := Some(bytes);
  }
}
