/**
 The optimisation problem solved for one picture row of the image-to-IRC
 renderer: pick a colour pair for every opaque cell so that colour error plus
 weighted wire bytes is least.

 The cost of a whole choice is defined here cell by cell, over every sequence of
 states, independently of the dynamic program that searches for it.
 */
module RowModel {
  import opened Wrappers

  /** A pair of palette positions: ink and paper. */
  datatype State = State(f: nat, b: nat)

  /** The best glyph for one cell under one state. */
  datatype Glyph = Glyph(err: real, bytes: nat, ch: char)

  datatype Cell = Transparent | Opaque(choices: seq<Glyph>)

  /** Indexed colours travel as `\x03f,b`, true colours as `\x04RRGGBB,RRGGBB`. */
  datatype Wire = Indexed | TrueColour

  const SENTINEL: real := 1000000000000000000.0

  function CodeLen(n: nat): nat {
    if n < 10 then 1 else 2
  }

  /** `ink` maps a palette position to the colour printed on the wire. */
  datatype Row = Row(cells: seq<Cell>, states: seq<State>, ink: seq<nat>, wire: Wire, w: real) {

    ghost predicate Valid() {
      && |cells| > 0
      && |states| > 0
      && w >= 0.0
      && (forall s :: 0 <= s < |states| ==> states[s].f < |ink| && states[s].b < |ink|)
      && (forall k :: 0 <= k < |ink| ==> ink[k] < if wire.Indexed? then 100 else 0x100_0000)
      && (forall i :: 0 <= i < |cells| && cells[i].Opaque? ==> |cells[i].choices| == |states|)
    }

    function Fg(s: nat): nat
      requires s < |states| && states[s].f < |ink|
    {
      ink[states[s].f]
    }

    function Bg(s: nat): nat
      requires s < |states| && states[s].b < |ink|
    {
      ink[states[s].b]
    }

    /** Bytes of a code that changes the foreground only. */
    function FgPref(s: nat): nat
      requires Valid() && s < |states|
    {
      if wire.Indexed? then 1 + CodeLen(Fg(s)) else 7
    }

    /** Bytes of a code that sets both colours. */
    function PairPref(s: nat): nat
      requires Valid() && s < |states|
    {
      if wire.Indexed? then 2 + CodeLen(Fg(s)) + CodeLen(Bg(s)) else 14
    }

    /** Prefix bytes of drawing with state `s` while `prev` is in force. */
    function Prefix(prev: Option<nat>, s: nat): nat
      requires Valid() && s < |states| && (prev.Some? ==> prev.value < |states|)
    {
      match prev
      case None => PairPref(s)
      case Some(p) =>
        if p == s then 0
        else if states[p].b == states[s].b then FgPref(s)
        else PairPref(s)
    }

    /** Glyph and prefix bytes of opaque cell `i` drawn with state `s`. */
    function CellBytes(i: nat, prev: Option<nat>, s: nat): nat
      requires Valid() && i < |cells| && cells[i].Opaque? && s < |states| && (prev.Some? ==> prev.value < |states|)
    {
      cells[i].choices[s].bytes + Prefix(prev, s)
    }

    /** What cell `i` costs when drawn with state `s`; transparent cells are free. */
    function Charge(i: nat, prev: Option<nat>, s: nat): real
      requires Valid() && i < |cells| && s < |states| && (prev.Some? ==> prev.value < |states|)
    {
      if cells[i].Transparent? then 0.0
      else cells[i].choices[s].err + w * CellBytes(i, prev, s) as real
    }

    ghost predicate IsPath(path: seq<nat>) {
      |path| == |cells| && forall i :: 0 <= i < |path| ==> path[i] < |states|
    }

    /** The state of the last opaque cell before cell `i`, if there is one. */
    function InForce(path: seq<nat>, i: nat): (r: Option<nat>)
      requires Valid() && IsPath(path) && i <= |cells|
      ensures r.Some? ==> r.value < |states|
    {
      if i == 0 then None
      else if cells[i - 1].Opaque? then Some(path[i - 1])
      else InForce(path, i - 1)
    }

    /** Total cost of the first `i` cells along `path`. */
    function Cost(path: seq<nat>, i: nat): real
      requires Valid() && IsPath(path) && i <= |cells|
    {
      if i == 0 then 0.0
      else Cost(path, i - 1) + Charge(i - 1, InForce(path, i - 1), path[i - 1])
    }

    /** The bytes the first `i` cells are charged for, without error or weight. */
    function ChargedBytes(path: seq<nat>, i: nat): nat
      requires Valid() && IsPath(path) && i <= |cells|
    {
      if i == 0 then 0
      else ChargedBytes(path, i - 1) +
           if cells[i - 1].Transparent? then 0 else CellBytes(i - 1, InForce(path, i - 1), path[i - 1])
    }

    /** No opaque cell among the first `i`. */
    ghost predicate Blank(i: nat)
      requires i <= |cells|
    {
      forall k :: 0 <= k < i ==> cells[k].Transparent?
    }

    /** In front of every opaque cell but the first one some choice costs less than the sentinel. */
    ghost predicate BelowSentinel()
      requires Valid()
    {
      forall i :: 0 <= i < |cells| && cells[i].Opaque? && !Blank(i) ==>
        exists path :: IsPath(path) && Cost(path, i) < SENTINEL
    }
  }
}
