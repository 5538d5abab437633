/**
 Splitting outgoing text into messages under a byte budget.

 `Break` says where a line is broken; `BreakLine` is the scanner that finds the same
 places in one pass.
 */
module LineSplitter {
  import opened Sequences
  import opened Utf8

  function Join(parts: seq<string>): string {
    if parts == [] then "" else parts[0] + Join(parts[1..])
  }

  lemma {:induction false} JoinConcat(a: seq<string>, b: seq<string>)
    ensures Join(a + b) == Join(a) + Join(b)
  {
    if a == [] {
      assert a + b == b;
    } else {
      assert (a + b)[1..] == a[1..] + b;
      JoinConcat(a[1..], b);
    }
  }

  // ---------------------------------------------------------------- where a line is broken

  /** How many leading code points fit into `max` bytes. */
  function Fit(text: string, max: nat): (k: nat)
    ensures k <= |text|
  {
    if text == "" || CharBytes(text[0]) > max then 0 else 1 + Fit(text[1..], max - CharBytes(text[0]))
  }

  /** The position just after the last space, zero if there is none. */
  function AfterLastSpace(text: string): (k: nat)
    ensures k <= |text|
    ensures k > 0 ==> text[k - 1] == ' '
    ensures forall i :: k <= i < |text| ==> text[i] != ' '
  {
    if text == "" then 0
    else if text[|text| - 1] == ' ' then |text|
    else AfterLastSpace(text[..|text| - 1])
  }

  /** The end of the first part: everything, the last space that fits, or all that fits; never nothing. */
  function Cut(text: string, max: nat): (k: nat)
    requires text != ""
    ensures 0 < k <= |text|
  {
    var fit := Fit(text, max);
    if fit == |text| then fit
    else if fit == 0 then 1
    else if AfterLastSpace(text[..fit]) > 0 then AfterLastSpace(text[..fit])
    else fit
  }

  function Break(text: string, max: nat): seq<string> {
    if text == "" then [] else [text[..Cut(text, max)]] + Break(text[Cut(text, max)..], max)
  }

  lemma {:induction false} FitIsLongest(text: string, max: nat)
    ensures Bytes(text[..Fit(text, max)]) <= max
    ensures Fit(text, max) < |text| ==> Bytes(text[..Fit(text, max) + 1]) > max
  {
    var k := Fit(text, max);
    if k == 0 {
      if text != "" {
        assert text[..1] == [text[0]] && text[..1][1..] == "";
      }
    } else {
      var rest := text[1..];
      FitIsLongest(rest, max - CharBytes(text[0]));
      assert text[..k][1..] == rest[..k - 1];
      if k < |text| {
        assert text[..k + 1][1..] == rest[..k];
      }
    }
  }

  lemma {:induction false} BytesPrefix(text: string, i: nat, j: nat)
    requires i <= j <= |text|
    ensures Bytes(text[..i]) <= Bytes(text[..j])
  {
    assert text[..j] == text[..i] + text[i..j];
    BytesConcat(text[..i], text[i..j]);
  }

  lemma FitIs(text: string, max: nat, k: nat)
    requires k <= |text| && Bytes(text[..k]) <= max
    requires k < |text| ==> Bytes(text[..k + 1]) > max
    ensures Fit(text, max) == k
  {
    var f := Fit(text, max);
    FitIsLongest(text, max);
    if f < k {
      BytesPrefix(text, f + 1, k);
    } else if k < f {
      BytesPrefix(text, k + 1, f);
    }
  }

  /** Nothing is lost. */
  lemma {:induction false} BreakIsLossless(text: string, max: nat)
    ensures Join(Break(text, max)) == text
    decreases |text|
  {
    if text != "" {
      BreakIsLossless(text[Cut(text, max)..], max);
    }
  }

  /** A part fits, or is one code point wider than the whole budget. */
  predicate Bounded(part: string, max: nat) {
    part != "" && (Bytes(part) <= max || |part| == 1)
  }

  lemma {:induction false} BreakIsBounded(text: string, max: nat)
    ensures forall i :: 0 <= i < |Break(text, max)| ==> Bounded(Break(text, max)[i], max)
    decreases |text|
  {
    if text != "" {
      var c := Cut(text, max);
      FitIsLongest(text, max);
      if Fit(text, max) > 0 {
        BytesPrefix(text, c, Fit(text, max));
      }
      BreakIsBounded(text[c..], max);
    }
  }

  /**
   Parts are as long as the rule allows: no longer prefix that ends in a space fits, and
   a part that does not end in a space holds none and could not be longer at all.
   */
  lemma CutIsGreedy(text: string, max: nat, k: nat)
    requires text != "" && Cut(text, max) < k <= |text|
    ensures text[k - 1] == ' ' ==> Bytes(text[..k]) > max
    ensures text[Cut(text, max) - 1] != ' ' ==> Bytes(text[..k]) > max && ' ' !in text[..Cut(text, max)]
  {
    var c, fit := Cut(text, max), Fit(text, max);
    FitIsLongest(text, max);
    if k > fit {
      BytesPrefix(text, fit + 1, k);
    } else {
      assert text[..fit][k - 1] == text[k - 1];
    }
    forall i | 0 <= i < c
      ensures text[c - 1] != ' ' ==> text[..c][i] != ' '
    {
      assert i < fit ==> text[..fit][i] == text[i];
    }
  }

  /** The text from part `i` on. */
  function From(text: string, max: nat, i: nat): string
    requires i < |Break(text, max)|
    decreases |text|
  {
    if i == 0 then text else From(text[Cut(text, max)..], max, i - 1)
  }

  /**
   Every part is the longest that the rule allows: seen from where it starts, no longer
   piece that ends in a space fits, and if it does not end in a space itself, it holds none
   and no longer piece fits at all.
   */
  lemma {:induction false} BreakIsGreedy(text: string, max: nat, i: nat, k: nat)
    requires i < |Break(text, max)|
    requires |Break(text, max)[i]| < k <= |From(text, max, i)|
    ensures var part, rest := Break(text, max)[i], From(text, max, i);
      && part != [] && rest[..|part|] == part && rest == Join(Break(text, max)[i..])
      && (rest[k - 1] == ' ' ==> Bytes(rest[..k]) > max)
      && (part[|part| - 1] != ' ' ==> Bytes(rest[..k]) > max && ' ' !in part)
    decreases |text|
  {
    if i == 0 {
      CutIsGreedy(text, max, k);
      BreakIsLossless(text, max);
      assert Break(text, max)[0..] == Break(text, max);
    } else {
      var more := text[Cut(text, max)..];
      assert Break(text, max)[i..] == Break(more, max)[i - 1..];
      BreakIsGreedy(more, max, i - 1, k);
    }
  }

  // ---------------------------------------------------------------- the scanner

  /** Pushing one more code point onto a chunk. */
  lemma ChunkGrows(chunk: string, ch: char)
    ensures Bytes(chunk + [ch]) == Bytes(chunk) + CharBytes(ch)
    ensures AfterLastSpace(chunk + [ch]) == if ch == ' ' then |chunk| + 1 else AfterLastSpace(chunk)
  {
    BytesConcat(chunk, [ch]);
    assert Bytes([ch]) == CharBytes(ch) + Bytes([ch][1..]);
    assert (chunk + [ch])[..|chunk|] == chunk;
  }

  /** Where a full chunk followed by a code point that does not fit is cut. */
  lemma FullChunkCut(chunk: string, ch: char, rest: string, max: nat)
    requires Bytes(chunk) <= max < Bytes(chunk) + CharBytes(ch) && chunk != ""
    ensures Cut(chunk + [ch] + rest, max) == if AfterLastSpace(chunk) > 0 then AfterLastSpace(chunk) else |chunk|
  {
    var text := chunk + [ch] + rest;
    ChunkGrows(chunk, ch);
    assert text[..|chunk|] == chunk && text[..|chunk| + 1] == chunk + [ch];
    FitIs(text, max, |chunk|);
  }

  lemma SliceJoined(chunk: string, more: string, cut: nat)
    requires cut <= |chunk|
    ensures (chunk + more)[..cut] == chunk[..cut] && (chunk + more)[cut..] == chunk[cut..] + more
  {
  }

  /** The first break of a full chunk followed by a code point that does not fit. */
  lemma BreakFullChunk(out: seq<string>, chunk: string, ch: char, rest: string, max: nat)
    requires Bytes(chunk) <= max < Bytes(chunk) + CharBytes(ch) && chunk != ""
    ensures var cut := if AfterLastSpace(chunk) > 0 then AfterLastSpace(chunk) else |chunk|;
            out + Break(chunk + [ch] + rest, max) == (out + [chunk[..cut]]) + Break(chunk[cut..] + [ch] + rest, max)
  {
    var cut := if AfterLastSpace(chunk) > 0 then AfterLastSpace(chunk) else |chunk|;
    FullChunkCut(chunk, ch, rest, max);
    Assoc(chunk, [ch], rest);
    Assoc(chunk[cut..], [ch], rest);
    SliceJoined(chunk, [ch] + rest, cut);
    Assoc(out, [chunk[..cut]], Break(chunk[cut..] + [ch] + rest, max));
  }

  /** A full chunk without a space goes out whole. */
  lemma BreakFullWord(out: seq<string>, chunk: string, ch: char, rest: string, max: nat)
    requires Bytes(chunk) <= max < Bytes(chunk) + CharBytes(ch) && chunk != "" && AfterLastSpace(chunk) == 0
    ensures out + Break(chunk + [ch] + rest, max) == (out + [chunk]) + Break("" + [ch] + rest, max)
  {
    BreakFullChunk(out, chunk, ch, rest, max);
    assert chunk[..|chunk|] == chunk && chunk[|chunk|..] == "";
  }

  /** A code point wider than the budget stands alone. */
  lemma BreakWide(out: seq<string>, ch: char, rest: string, max: nat)
    requires CharBytes(ch) > max
    ensures out + Break("" + [ch] + rest, max) == (out + [[ch]]) + Break("" + rest, max)
  {
    var text := "" + [ch] + rest;
    assert Fit(text, max) == 0;
    assert text[..1] == [ch] && text[1..] == "" + rest;
    Assoc(out, [[ch]], Break("" + rest, max));
  }

  lemma BreakWhole(chunk: string, max: nat)
    requires Bytes(chunk) <= max
    ensures Break(chunk, max) == if chunk == "" then [] else [chunk]
  {
    assert chunk[..|chunk|] == chunk;
    FitIs(chunk, max, |chunk|);
    if chunk != "" {
      assert Cut(chunk, max) == |chunk|;
      assert chunk[|chunk|..] == "";
    }
  }

  /** `breakLine`: one pass with the current chunk, its bytes and its last space. */
  method BreakLine(line: string, maxBytes: nat) returns (out: seq<string>)
    ensures out == Break(line, maxBytes)
  {
    out := [];
    var chunk: string, bytes, lastSpace := "", 0, -1;
    assert "" + line[0..] == line;
    for i := 0 to |line|
      invariant bytes == Bytes(chunk) <= maxBytes
      invariant lastSpace == if AfterLastSpace(chunk) > 0 then AfterLastSpace(chunk) else -1
      invariant out + Break(chunk + line[i..], maxBytes) == Break(line, maxBytes)
    {
      var ch := line[i];
      ghost var rest := line[i + 1..];
      NextChar(chunk, line, i);
      out, chunk, bytes, lastSpace := Scan(out, chunk, bytes, lastSpace, ch, maxBytes, rest);
    }
    assert chunk + line[|line|..] == chunk;
    BreakWhole(chunk, maxBytes);
    if |chunk| > 0 {
      out := out + [chunk];
    }
    assert out + [] == out;
  }

  lemma NextChar(chunk: string, line: string, i: nat)
    requires i < |line|
    ensures chunk + line[i..] == chunk + [line[i]] + line[i + 1..]
  {
    assert line[i..] == [line[i]] + line[i + 1..];
  }

  /** One turn of the scan. */
  method Scan(out: seq<string>, chunk: string, bytes: nat, lastSpace: int, ch: char, maxBytes: nat, ghost rest: string)
    returns (out': seq<string>, chunk': string, bytes': nat, lastSpace': int)
    requires bytes == Bytes(chunk) <= maxBytes
    requires lastSpace == if AfterLastSpace(chunk) > 0 then AfterLastSpace(chunk) else -1
    ensures bytes' == Bytes(chunk') <= maxBytes
    ensures lastSpace' == if AfterLastSpace(chunk') > 0 then AfterLastSpace(chunk') else -1
    ensures out' + Break(chunk' + rest, maxBytes) == out + Break(chunk + [ch] + rest, maxBytes)
  {
    out', chunk', bytes', lastSpace' := out, chunk, bytes, lastSpace;
    var w := CharBytes(ch);
    if bytes' + w > maxBytes {
      if |chunk'| == 0 {
        BreakWide(out, ch, rest, maxBytes);
        out' := out' + [[ch]];
        return;
      }
      var cut := if lastSpace' > 0 then lastSpace' else |chunk'|;
      BreakFullChunk(out', chunk', ch, rest, maxBytes);
      out' := out' + [chunk'[..cut]];
      CarriedChunk(chunk', cut);
      chunk' := chunk'[cut..];
      bytes' := Bytes(chunk');
      lastSpace' := -1;
      if bytes' + w > maxBytes && |chunk'| > 0 {
        BreakFullWord(out', chunk', ch, rest, maxBytes);
        out' := out' + [chunk'];
        chunk', bytes' := "", 0;
      }
      if bytes' + w > maxBytes {
        BreakWide(out', ch, rest, maxBytes);
        out' := out' + [[ch]];
        return;
      }
    }
    ChunkGrows(chunk', ch);
    chunk' := chunk' + [ch];
    bytes' := bytes' + w;
    if ch == ' ' {
      lastSpace' := |chunk'|;
    }
  }

  lemma Halves(chunk: string, cut: nat)
    requires cut <= |chunk|
    ensures chunk[..cut] + chunk[cut..] == chunk
  {
  }

  /** What is carried over a break is no longer and holds no space. */
  lemma CarriedChunk(chunk: string, cut: nat)
    requires cut <= |chunk| && cut == if AfterLastSpace(chunk) > 0 then AfterLastSpace(chunk) else |chunk|
    ensures Bytes(chunk[cut..]) <= Bytes(chunk) && AfterLastSpace(chunk[cut..]) == 0
  {
    BytesConcat(chunk[..cut], chunk[cut..]);
    Halves(chunk, cut);
  }

}
