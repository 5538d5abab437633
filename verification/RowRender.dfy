/** The whole row renderer: optimise, then emit. */
module RowRender {
  import opened Pricing
  import opened Wrappers
  import opened RowModel
  import opened RowEmitter
  import opened RowExact
  import opened Utf8
  import RowViterbi
  import RowDecode
  import F = IrcFormatting

  /** Colour error of one cell and of the first `i` cells of a choice. */
  function CellError(row: Row, path: seq<nat>, i: nat): real
    requires row.Valid() && row.IsPath(path) && i < |path|
  {
    if row.cells[i].Transparent? then 0.0 else row.cells[i].choices[path[i]].err
  }

  function ErrorOf(row: Row, path: seq<nat>, i: nat): real
    requires row.Valid() && row.IsPath(path) && i <= |path|
  {
    if i == 0 then 0.0 else ErrorOf(row, path, i - 1) + CellError(row, path, i - 1)
  }

  lemma ChargeIsPrice(row: Row, i: nat, prev: Option<nat>, s: nat)
    requires row.Valid() && i < |row.cells| && row.cells[i].Opaque?
    requires s < |row.states| && (prev.Some? ==> prev.value < |row.states|)
    ensures row.Charge(i, prev, s) == row.cells[i].choices[s].err + Price(row.w, row.CellBytes(i, prev, s))
  {
    PriceIsProduct(row.w, row.CellBytes(i, prev, s));
  }

  /** The cost being minimised is colour error plus weight times charged bytes. */
  lemma {:induction false} CostSplits(row: Row, path: seq<nat>, i: nat)
    requires row.Valid() && row.IsPath(path) && i <= |path|
    ensures row.Cost(path, i) == ErrorOf(row, path, i) + Price(row.w, row.ChargedBytes(path, i))
  {
    if i > 0 {
      CostSplits(row, path, i - 1);
      var prev, s := row.InForce(path, i - 1), path[i - 1];
      assert row.Cost(path, i) == row.Cost(path, i - 1) + row.Charge(i - 1, prev, s);
      if row.cells[i - 1].Opaque? {
        ChargeIsPrice(row, i - 1, prev, s);
        PriceAdds(row.w, row.ChargedBytes(path, i - 1), row.CellBytes(i - 1, prev, s));
      }
    }
  }

  /** A choice of least cost is never charged more bytes than one with no more error. */
  lemma LeastCostIsLeastBytes(row: Row, chosen: seq<nat>, path: seq<nat>)
    requires row.Valid() && row.IsPath(chosen) && row.IsPath(path) && row.w > 0.0
    requires row.Cost(chosen, |chosen|) <= row.Cost(path, |path|)
    requires ErrorOf(row, path, |path|) <= ErrorOf(row, chosen, |chosen|)
    ensures row.ChargedBytes(chosen, |chosen|) <= row.ChargedBytes(path, |path|)
  {
    var a, b := row.ChargedBytes(chosen, |chosen|), row.ChargedBytes(path, |path|);
    CostSplits(row, chosen, |chosen|);
    CostSplits(row, path, |path|);
    if b < a {
      PriceOrder(row.w, b, a);
    }
  }

  /** The bytes a choice really sends. */
  function Sent(row: Row, path: seq<nat>): nat
    requires row.Valid() && row.IsPath(path)
  {
    Bytes(Text(row.wire, Picture(row, path), START))
  }

  /** Colour error plus weight times the bytes really sent. */
  function RealCost(row: Row, path: seq<nat>): real
    requires row.Valid() && row.IsPath(path)
  {
    ErrorOf(row, path, |path|) + Price(row.w, Sent(row, path))
  }

  /** The glyph table says of every glyph how long it is. */
  ghost predicate TrueSizes(row: Row) {
    forall i, s :: 0 <= i < |row.cells| && row.cells[i].Opaque? && 0 <= s < |row.cells[i].choices| ==>
      row.cells[i].choices[s].bytes == CharBytes(row.cells[i].choices[s].ch)
  }

  /** No state takes over from another one of its paper to draw spaces only. */
  predicate Frugal(row: Row, path: seq<nat>)
    requires row.Valid() && row.IsPath(path)
  {
    NeverIdle(row, path, |path|) && !Owes(row, path, |path|)
  }

  lemma {:induction false} NothingUnderstated(row: Row, path: seq<nat>, i: nat)
    requires row.Valid() && TrueSizes(row) && row.IsPath(path) && i <= |path|
    ensures Understated(row, path, i) == 0
  {
    if i > 0 {
      NothingUnderstated(row, path, i - 1);
    }
  }

  /** What is sent is within the charge and one byte per transparent cell, and exactly that of a frugal choice. */
  lemma SentWithinCharge(row: Row, path: seq<nat>)
    requires row.Valid() && Distinct(row) && TrueSizes(row) && row.IsPath(path)
    ensures Sent(row, path) <= row.ChargedBytes(path, |row.cells|) + Gaps(row, |row.cells|)
    ensures Sent(row, path) == row.ChargedBytes(path, |row.cells|) + Gaps(row, |row.cells|) <==> Frugal(row, path)
  {
    EmittedBytes(row, path);
    ExactBytes(row, path);
    NothingUnderstated(row, path, |path|);
  }

  lemma SentPrice(w: real, sent: nat, a: nat, g: nat)
    requires w >= 0.0 && sent <= a + g
    ensures Price(w, sent) <= Price(w, a) + Price(w, g)
    ensures sent == a + g ==> Price(w, sent) == Price(w, a) + Price(w, g)
  {
    PriceAdds(w, a, g);
    PriceKeepsOrder(w, sent, a + g);
  }

  /**
   A choice of least charged cost has least real cost too, among all choices that draw
   no idle spaces: no other one is better in colour error and bytes on the wire.
   */
  lemma LeastRealCost(row: Row, chosen: seq<nat>, path: seq<nat>)
    requires row.Valid() && Distinct(row) && TrueSizes(row)
    requires row.IsPath(chosen) && row.IsPath(path) && Frugal(row, path)
    requires row.Cost(chosen, |row.cells|) <= row.Cost(path, |row.cells|)
    ensures RealCost(row, chosen) <= RealCost(row, path)
  {
    var n := |row.cells|;
    SentWithinCharge(row, chosen);
    SentWithinCharge(row, path);
    CostSplits(row, chosen, n);
    CostSplits(row, path, n);
    SentPrice(row.w, Sent(row, chosen), row.ChargedBytes(chosen, n), Gaps(row, n));
    SentPrice(row.w, Sent(row, path), row.ChargedBytes(path, n), Gaps(row, n));
  }

  /** Two cells; the second one is a blank in another ink. */
  const OVERCHARGED := Row([Opaque([Glyph(0.0, 1, 'x'), Glyph(9.0, 1, 'x')]),
                            Opaque([Glyph(1.5, 1, 'x'), Glyph(0.0, 1, ' ')])],
                           [State(1, 0), State(2, 0)], [0, 1, 2], Indexed, 1.0)

  lemma OverchargedCosts(path: seq<nat>)
    requires OVERCHARGED.Valid() && OVERCHARGED.IsPath(path)
    ensures OVERCHARGED.ChargedBytes(path, 2) == 5 + (if path[0] == path[1] then 1 else 3)
    ensures ErrorOf(OVERCHARGED, path, 2)
         == (if path[0] == 0 then 0.0 else 9.0) + (if path[1] == 0 then 1.5 else 0.0)
  {
    var row := OVERCHARGED;
    assert row.InForce(path, 0) == None && row.InForce(path, 1) == Some(path[0]);
    assert row.ChargedBytes(path, 1) == row.ChargedBytes(path, 0) + row.CellBytes(0, None, path[0]);
    assert row.ChargedBytes(path, 2) == row.ChargedBytes(path, 1) + row.CellBytes(1, Some(path[0]), path[1]);
    assert ErrorOf(row, path, 1) == ErrorOf(row, path, 0) + CellError(row, path, 0);
  }

  lemma OverchargedIsProper()
    ensures OVERCHARGED.Valid() && Distinct(OVERCHARGED) && TrueSizes(OVERCHARGED)
  {
  }

  lemma OverchargedLeast(path: seq<nat>)
    requires OVERCHARGED.Valid() && OVERCHARGED.IsPath(path)
    ensures OVERCHARGED.Cost([0, 0], 2) <= OVERCHARGED.Cost(path, 2)
  {
    OverchargedCosts([0, 0]);
    OverchargedCosts(path);
    CostSplits(OVERCHARGED, [0, 0], 2);
    CostSplits(OVERCHARGED, path, 2);
    PriceIsProduct(1.0, OVERCHARGED.ChargedBytes([0, 0], 2));
    PriceIsProduct(1.0, OVERCHARGED.ChargedBytes(path, 2));
  }

  lemma OverchargedSent()
    requires OVERCHARGED.Valid()
    ensures Sent(OVERCHARGED, [0, 0]) == 6 && Sent(OVERCHARGED, [0, 1]) < 8
  {
    var row := OVERCHARGED;
    OverchargedIsProper();
    OverchargedCosts([0, 0]);
    OverchargedCosts([0, 1]);
    SentWithinCharge(row, [0, 0]);
    SentWithinCharge(row, [0, 1]);
    assert row.InForce([0, 1], 1) == Some(0) && Owes(row, [0, 1], 2);
    assert row.InForce([0, 0], 1) == Some(0) && !Owes(row, [0, 0], 1) && Frugal(row, [0, 0]);
  }

  /** Beyond the frugal choices it fails: an idle space is charged a code that is never sent. */
  lemma IdleSpaceIsOvercharged()
    ensures var row := OVERCHARGED;
            && row.Valid() && Distinct(row) && TrueSizes(row) && row.IsPath([0, 0]) && row.IsPath([0, 1])
            && (forall path :: row.IsPath(path) ==> row.Cost([0, 0], 2) <= row.Cost(path, 2))
            && RealCost(row, [0, 1]) < RealCost(row, [0, 0])
  {
    OverchargedIsProper();
    forall path | OVERCHARGED.IsPath(path)
      ensures OVERCHARGED.Cost([0, 0], 2) <= OVERCHARGED.Cost(path, 2)
    {
      OverchargedLeast(path);
    }
    OverchargedSent();
    OverchargedCosts([0, 0]);
    OverchargedCosts([0, 1]);
    PriceIsProduct(1.0, Sent(OVERCHARGED, [0, 0]));
    PriceIsProduct(1.0, Sent(OVERCHARGED, [0, 1]));
  }

  lemma LeastOfFrugal(row: Row, chosen: seq<nat>)
    requires row.Valid() && row.IsPath(chosen)
    requires forall path :: row.IsPath(path) ==> row.Cost(chosen, |row.cells|) <= row.Cost(path, |row.cells|)
    ensures Distinct(row) && TrueSizes(row) ==>
              forall path :: row.IsPath(path) && Frugal(row, path) ==> RealCost(row, chosen) <= RealCost(row, path)
  {
    if Distinct(row) && TrueSizes(row) {
      forall path | row.IsPath(path) && Frugal(row, path)
        ensures RealCost(row, chosen) <= RealCost(row, path)
      {
        LeastRealCost(row, chosen, path);
      }
    }
  }

  /**
   One row: a choice of least cost over all choices, printed within its charge, and
   read back by the client exactly when every cell is readable.
   */
  method RenderRow(row: Row) returns (ln: string, chosen: seq<nat>)
    requires row.Valid() && row.BelowSentinel()
    ensures row.IsPath(chosen)
    ensures forall path :: row.IsPath(path) ==> row.Cost(chosen, |row.cells|) <= row.Cost(path, |row.cells|)
    ensures Bytes(ln) == Sent(row, chosen)
    ensures Distinct(row) && TrueSizes(row) ==>
              forall path :: row.IsPath(path) && Frugal(row, path) ==> RealCost(row, chosen) <= RealCost(row, path)
    ensures Bytes(ln) <= row.ChargedBytes(chosen, |chosen|) + Gaps(row, |chosen|) + Understated(row, chosen, |chosen|)
    ensures RowDecode.RowShown(row, chosen, F.Read(F.Text, F.DEFAULT, ln))
            <==> RowDecode.Readable(row.wire, Picture(row, chosen), START)
  {
    var total;
    chosen, total := RowViterbi.SolveRow(row);
    ln := EmitRow(row, chosen);
    EmittedBytes(row, chosen);
    LeastOfFrugal(row, chosen);
    RowDecode.EmittedRowDecodes(row, chosen);
  }
}
