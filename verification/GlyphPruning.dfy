/**
 Pruning a glyph alphabet to the glyphs no cheaper one dominates.

 Coverage, luma and weights are real numbers here.
 */
module GlyphPruning {
  import opened Pricing
  import opened Sequences

  /** Ink coverage of the two half-cells and the size in bytes. */
  datatype Glyph = Glyph(ct: real, cb: real, bytes: nat)

  function Abs(x: real): real {
    if x < 0.0 then -x else x
  }

  function Blend(c: real, fg: real, bg: real): real {
    bg + c * (fg - bg)
  }

  /** A half-cell as seen from the target: how far its glyph is off. */
  function Off(t: real, c: real, fg: real, bg: real): real {
    Abs(t - Blend(c, fg, bg))
  }

  /** `glyphCellCost`: distance of both halves from their targets, plus weighted bytes. */
  function CellCost(w: real, g: Glyph, tTop: real, tBot: real, fg: real, bg: real): real {
    Off(tTop, g.ct, fg, bg) + Off(tBot, g.cb, fg, bg) + Price(w, g.bytes)
  }

  /** `glyphDominatedByByteGap`: `g` is cheaper and the coverage gap is worth less than the bytes. */
  predicate Dominates(w: real, fg: real, bg: real, g: Glyph, h: Glyph) {
    g.bytes < h.bytes
    && (Abs(g.ct - h.ct) + Abs(g.cb - h.cb)) * Abs(fg - bg) <= w * (h.bytes - g.bytes) as real
  }

  lemma AbsProduct(x: real, y: real)
    ensures Abs(x * y) == Abs(x) * Abs(y)
  {
    if x < 0.0 && y < 0.0 {
      assert x * y == (-x) * (-y);
      assert (-x) * (-y) >= 0.0;
    } else if x < 0.0 {
      assert x * y == -((-x) * y);
      assert (-x) * y >= 0.0;
    } else if y < 0.0 {
      assert x * y == -(x * (-y));
      assert x * (-y) >= 0.0;
    } else {
      assert x * y >= 0.0;
    }
  }

  lemma BlendGap(c: real, c': real, fg: real, bg: real)
    ensures Blend(c, fg, bg) - Blend(c', fg, bg) == (c - c') * (fg - bg)
  {
  }

  lemma AbsOfProduct(x: real, p: real, q: real)
    requires x == p * q
    ensures Abs(x) == Abs(p) * Abs(q)
  {
    AbsProduct(p, q);
  }

  lemma BlendDistance(c: real, c': real, fg: real, bg: real)
    ensures Abs(Blend(c, fg, bg) - Blend(c', fg, bg)) == Abs(c - c') * Abs(fg - bg)
  {
    BlendGap(c, c', fg, bg);
    AbsOfProduct(Blend(c, fg, bg) - Blend(c', fg, bg), c - c', fg - bg);
  }

  lemma Triangle(t: real, x: real, y: real)
    ensures Abs(t - x) <= Abs(t - y) + Abs(x - y)
  {
  }

  lemma OffDistance(t: real, c: real, c': real, fg: real, bg: real)
    ensures Off(t, c, fg, bg) <= Off(t, c', fg, bg) + Abs(Blend(c, fg, bg) - Blend(c', fg, bg))
  {
    Triangle(t, Blend(c, fg, bg), Blend(c', fg, bg));
  }

  /** Another coverage moves a half-cell by the coverage gap times the contrast at most. */
  lemma HalfCell(t: real, c: real, c': real, fg: real, bg: real)
    ensures Off(t, c, fg, bg) <= Off(t, c', fg, bg) + Abs(c - c') * Abs(fg - bg)
  {
    OffDistance(t, c, c', fg, bg);
    BlendDistance(c, c', fg, bg);
  }

  lemma CellsClose(fg: real, bg: real, g: Glyph, h: Glyph, tTop: real, tBot: real)
    ensures Off(tTop, g.ct, fg, bg) + Off(tBot, g.cb, fg, bg)
         <= Off(tTop, h.ct, fg, bg) + Off(tBot, h.cb, fg, bg)
          + Abs(g.ct - h.ct) * Abs(fg - bg) + Abs(g.cb - h.cb) * Abs(fg - bg)
  {
    HalfCell(tTop, g.ct, h.ct, fg, bg);
    HalfCell(tBot, g.cb, h.cb, fg, bg);
  }

  lemma SavedBytes(w: real, x: real, y: real, z: real, saved: nat)
    requires (x + y) * z <= w * saved as real
    ensures x * z + y * z <= Price(w, saved)
  {
    Distribute(x, y, z);
    PriceIsProduct(w, saved);
  }

  /** What the coverage gaps are worth is no more than the bytes saved. */
  lemma BytesPay(w: real, x: real, y: real, z: real, m: nat, n: nat)
    requires m <= n && (x + y) * z <= w * (n - m) as real
    ensures x * z + y * z + Price(w, m) <= Price(w, n)
  {
    SavedBytes(w, x, y, z, n - m);
    PriceAdds(w, m, n - m);
  }

  /** A dominating glyph costs no more on any cell. */
  lemma DominatingCostsNoMore(w: real, fg: real, bg: real, g: Glyph, h: Glyph, tTop: real, tBot: real)
    requires Dominates(w, fg, bg, g, h)
    ensures CellCost(w, g, tTop, tBot, fg, bg) <= CellCost(w, h, tTop, tBot, fg, bg)
  {
    SavingPays(w, fg, bg, g, h);
    OffsAndBytes(w, fg, bg, g, h, tTop, tBot);
  }

  lemma SavingPays(w: real, fg: real, bg: real, g: Glyph, h: Glyph)
    requires Dominates(w, fg, bg, g, h)
    ensures Abs(g.ct - h.ct) * Abs(fg - bg) + Abs(g.cb - h.cb) * Abs(fg - bg) + Price(w, g.bytes) <= Price(w, h.bytes)
  {
    BytesPay(w, Abs(g.ct - h.ct), Abs(g.cb - h.cb), Abs(fg - bg), g.bytes, h.bytes);
  }

  lemma OffsAndBytes(w: real, fg: real, bg: real, g: Glyph, h: Glyph, tTop: real, tBot: real)
    requires Abs(g.ct - h.ct) * Abs(fg - bg) + Abs(g.cb - h.cb) * Abs(fg - bg) + Price(w, g.bytes) <= Price(w, h.bytes)
    ensures Off(tTop, g.ct, fg, bg) + Off(tBot, g.cb, fg, bg) + Price(w, g.bytes)
         <= Off(tTop, h.ct, fg, bg) + Off(tBot, h.cb, fg, bg) + Price(w, h.bytes)
  {
    CellsClose(fg, bg, g, h, tTop, tBot);
  }

  lemma Distribute(x: real, y: real, z: real)
    ensures (x + y) * z == x * z + y * z
  {
  }

  /** On the cell that `h` meets exactly, `g` is off by its coverage gaps. */
  lemma CostOnOwnCell(w: real, fg: real, bg: real, g: Glyph, h: Glyph)
    ensures var tTop, tBot := Blend(h.ct, fg, bg), Blend(h.cb, fg, bg);
            && CellCost(w, h, tTop, tBot, fg, bg) == Price(w, h.bytes)
            && CellCost(w, g, tTop, tBot, fg, bg)
               == Abs(g.ct - h.ct) * Abs(fg - bg) + Abs(g.cb - h.cb) * Abs(fg - bg) + Price(w, g.bytes)
  {
    BlendDistance(h.ct, g.ct, fg, bg);
    BlendDistance(h.cb, g.cb, fg, bg);
    AbsOfNegated(g.ct - h.ct);
    AbsOfNegated(g.cb - h.cb);
  }

  lemma AbsOfNegated(x: real)
    ensures Abs(-x) == Abs(x)
  {
  }

  lemma GapsBack(w: real, x: real, y: real, z: real, m: nat, n: nat)
    requires m <= n && x * z + y * z + Price(w, m) <= Price(w, n)
    ensures (x + y) * z <= w * (n - m) as real
  {
    PriceAdds(w, m, n - m);
    PriceIsProduct(w, n - m);
    Distribute(x, y, z);
  }

  /** `h` has fewer bytes and costs no more on any cell. */
  ghost predicate Replaces(w: real, fg: real, bg: real, h: Glyph, g: Glyph) {
    && h.bytes < g.bytes
    && forall tTop: real, tBot: real :: CellCost(w, h, tTop, tBot, fg, bg) <= CellCost(w, g, tTop, tBot, fg, bg)
  }

  /** The test is exact: it finds precisely the glyphs with fewer bytes that cost no more on any cell. */
  lemma DominatesExactly(w: real, fg: real, bg: real, g: Glyph, h: Glyph)
    ensures Dominates(w, fg, bg, g, h) <==> Replaces(w, fg, bg, g, h)
  {
    if Dominates(w, fg, bg, g, h) {
      forall tTop: real, tBot: real
        ensures CellCost(w, g, tTop, tBot, fg, bg) <= CellCost(w, h, tTop, tBot, fg, bg)
      {
        DominatingCostsNoMore(w, fg, bg, g, h, tTop, tBot);
      }
    } else if Replaces(w, fg, bg, g, h) {
      CheaperOnOwnCell(w, fg, bg, g, h);
    }
  }

  lemma NoMoreOnOwnCell(w: real, fg: real, bg: real, g: Glyph, h: Glyph)
    requires Replaces(w, fg, bg, g, h)
    ensures Abs(g.ct - h.ct) * Abs(fg - bg) + Abs(g.cb - h.cb) * Abs(fg - bg) + Price(w, g.bytes) <= Price(w, h.bytes)
  {
    var tTop, tBot := Blend(h.ct, fg, bg), Blend(h.cb, fg, bg);
    CostOnOwnCell(w, fg, bg, g, h);
    assert CellCost(w, g, tTop, tBot, fg, bg) <= CellCost(w, h, tTop, tBot, fg, bg);
  }

  lemma CheaperOnOwnCell(w: real, fg: real, bg: real, g: Glyph, h: Glyph)
    requires Replaces(w, fg, bg, g, h)
    ensures Dominates(w, fg, bg, g, h)
  {
    NoMoreOnOwnCell(w, fg, bg, g, h);
    GapsBack(w, Abs(g.ct - h.ct), Abs(g.cb - h.cb), Abs(fg - bg), g.bytes, h.bytes);
  }

  predicate Kept(w: real, fg: real, bg: real, alphabet: seq<Glyph>, g: Glyph) {
    g in alphabet && forall h :: h in alphabet ==> !Dominates(w, fg, bg, h, g)
  }

  /** `paretoPrune`: the glyphs no other one dominates, in order. */
  function Prune(w: real, fg: real, bg: real, alphabet: seq<Glyph>, from: nat): (kept: seq<Glyph>)
    requires from <= |alphabet|
    ensures forall g :: g in kept <==> g in alphabet[from..] && Kept(w, fg, bg, alphabet, g)
    decreases |alphabet| - from
  {
    if from == |alphabet| then []
    else
      var g := alphabet[from];
      assert alphabet[from..] == [g] + alphabet[from + 1..];
      (if Kept(w, fg, bg, alphabet, g) then [g] else []) + Prune(w, fg, bg, alphabet, from + 1)
  }

  /** Exactly the glyphs that no other one replaces are kept, in their order. */
  lemma PruneExactly(w: real, fg: real, bg: real, alphabet: seq<Glyph>)
    ensures Subsequence(Prune(w, fg, bg, alphabet, 0), alphabet)
    ensures forall g :: g in Prune(w, fg, bg, alphabet, 0)
                        <==> g in alphabet && !exists h :: h in alphabet && Replaces(w, fg, bg, h, g)
  {
    PruneInOrder(w, fg, bg, alphabet, 0);
    assert alphabet[0..] == alphabet;
    forall g | g in alphabet
      ensures Kept(w, fg, bg, alphabet, g) <==> !exists h :: h in alphabet && Replaces(w, fg, bg, h, g)
    {
      forall h | h in alphabet
        ensures Dominates(w, fg, bg, h, g) <==> Replaces(w, fg, bg, h, g)
      {
        DominatesExactly(w, fg, bg, h, g);
      }
    }
  }

  lemma {:induction false} PruneInOrder(w: real, fg: real, bg: real, alphabet: seq<Glyph>, from: nat)
    requires from <= |alphabet|
    ensures Subsequence(Prune(w, fg, bg, alphabet, from), alphabet[from..])
    decreases |alphabet| - from
  {
    if from < |alphabet| {
      var g, rest := alphabet[from], Prune(w, fg, bg, alphabet, from + 1);
      PruneInOrder(w, fg, bg, alphabet, from + 1);
      assert alphabet[from..][1..] == alphabet[from + 1..];
      assert ([g] + rest)[1..] == rest && [] + rest == rest;
    }
  }

  /** Every glyph has a kept one that costs no more on any cell of these two colours. */
  lemma {:induction false} PruneKeepsOptimum(w: real, fg: real, bg: real, alphabet: seq<Glyph>, h: Glyph)
    returns (g: Glyph)
    requires h in alphabet
    ensures g in Prune(w, fg, bg, alphabet, 0)
    ensures forall tTop: real, tBot: real ::
      CellCost(w, g, tTop, tBot, fg, bg) <= CellCost(w, h, tTop, tBot, fg, bg)
    decreases h.bytes
  {
    assert alphabet[0..] == alphabet;
    if Kept(w, fg, bg, alphabet, h) {
      g := h;
    } else {
      var better :| better in alphabet && Dominates(w, fg, bg, better, h);
      g := PruneKeepsOptimum(w, fg, bg, alphabet, better);
      forall tTop: real, tBot: real
        ensures CellCost(w, g, tTop, tBot, fg, bg) <= CellCost(w, h, tTop, tBot, fg, bg)
      {
        DominatingCostsNoMore(w, fg, bg, better, h, tTop, tBot);
        assert CellCost(w, g, tTop, tBot, fg, bg) <= CellCost(w, better, tTop, tBot, fg, bg);
      }
    }
  }

  lemma WeightGrows(w: real, w': real, d: real)
    requires w <= w' && 0.0 <= d
    ensures w * d <= w' * d
  {
    assert (w' - w) * d >= 0.0;
  }

  lemma HeavierDominatesMore(w: real, w': real, fg: real, bg: real, g: Glyph, h: Glyph)
    requires w <= w' && Dominates(w, fg, bg, g, h)
    ensures Dominates(w', fg, bg, g, h)
  {
    WeightGrows(w, w', (h.bytes - g.bytes) as real);
  }

  /** Raising the weight can only shrink the kept set. */
  lemma PruneShrinks(w: real, w': real, fg: real, bg: real, alphabet: seq<Glyph>, g: Glyph)
    requires w <= w' && g in Prune(w', fg, bg, alphabet, 0)
    ensures g in Prune(w, fg, bg, alphabet, 0)
  {
    forall h | h in alphabet
      ensures !Dominates(w, fg, bg, h, g)
    {
      if Dominates(w, fg, bg, h, g) {
        HeavierDominatesMore(w, w', fg, bg, h, g);
      }
    }
  }
}
