/**
 Cutting highlighted source into one fragment per line: spans that are open at a line
 end are closed there and opened again on the next line.
 */
module CodeLines {
  import opened Sequences

  /** A piece of highlighted text: an opening span tag, a closing one, or a character. */
  datatype Piece = Open(tag: string) | Close | Ch(c: char)

  /** A character under its enclosing span tags, outermost first. */
  datatype Cell = Cell(c: char, spans: seq<string>)

  /** Closing with nothing open has no effect on the stack. */
  function Pop(spans: seq<string>): seq<string> {
    if spans == [] then [] else spans[..|spans| - 1]
  }

  /** The open spans after `ps`. */
  function After(ps: seq<Piece>, spans: seq<string>): seq<string> {
    if ps == [] then spans
    else
      match ps[0]
      case Open(tag) => After(ps[1..], spans + [tag])
      case Close => After(ps[1..], Pop(spans))
      case Ch(_) => After(ps[1..], spans)
  }

  /** No closing tag comes while nothing is open. */
  predicate Nested(ps: seq<Piece>, spans: seq<string>) {
    if ps == [] then true
    else
      match ps[0]
      case Open(tag) => Nested(ps[1..], spans + [tag])
      case Close => spans != [] && Nested(ps[1..], Pop(spans))
      case Ch(_) => Nested(ps[1..], spans)
  }

  /** A fragment that stands on its own. */
  predicate Balanced(ps: seq<Piece>) {
    Nested(ps, []) && After(ps, []) == []
  }

  /** What a fragment shows. */
  function Show(ps: seq<Piece>, spans: seq<string>): seq<Cell> {
    if ps == [] then []
    else
      match ps[0]
      case Open(tag) => Show(ps[1..], spans + [tag])
      case Close => Show(ps[1..], Pop(spans))
      case Ch(c) => [Cell(c, spans)] + Show(ps[1..], spans)
  }

  /** The source split at line ends before any markup is touched; `row` is the line so far. */
  function Rows(ps: seq<Piece>, spans: seq<string>, row: seq<Cell>): seq<seq<Cell>> {
    if ps == [] then [row]
    else
      match ps[0]
      case Open(tag) => Rows(ps[1..], spans + [tag], row)
      case Close => Rows(ps[1..], Pop(spans), row)
      case Ch(c) =>
        if c == '\n' then [row] + Rows(ps[1..], spans, [])
        else Rows(ps[1..], spans, row + [Cell(c, spans)])
  }

  function Newlines(ps: seq<Piece>): nat {
    if ps == [] then 0 else (if ps[0] == Ch('\n') then 1 else 0) + Newlines(ps[1..])
  }

  lemma {:induction false} RowCount(ps: seq<Piece>, spans: seq<string>, row: seq<Cell>)
    ensures |Rows(ps, spans, row)| == Newlines(ps) + 1
  {
    if ps != [] {
      match ps[0]
      case Open(tag) => RowCount(ps[1..], spans + [tag], row);
      case Close => RowCount(ps[1..], Pop(spans), row);
      case Ch(c) =>
        if c == '\n' {
          RowCount(ps[1..], spans, []);
        } else {
          RowCount(ps[1..], spans, row + [Cell(c, spans)]);
        }
    }
  }

  /** One piece more at the end. */
  lemma {:induction false} PushPiece(ps: seq<Piece>, spans: seq<string>, p: Piece)
    ensures After(ps + [p], spans) == After([p], After(ps, spans))
    ensures Nested(ps + [p], spans) <==> Nested(ps, spans) && (p == Close ==> After(ps, spans) != [])
    ensures Show(ps + [p], spans) == Show(ps, spans) + if p.Ch? then [Cell(p.c, After(ps, spans))] else []
  {
    if ps == [] {
      assert [] + [p] == [p] && [p][1..] == [];
    } else {
      var rest := ps[1..] + [p];
      assert (ps + [p])[1..] == rest;
      match ps[0]
      case Open(tag) => PushPiece(ps[1..], spans + [tag], p);
      case Close => PushPiece(ps[1..], Pop(spans), p);
      case Ch(_) => PushPiece(ps[1..], spans, p);
    }
  }

  /** One piece, then the rest. */
  lemma One(p: Piece, spans: seq<string>)
    ensures After([p], spans) == if p.Open? then spans + [p.tag] else if p.Close? then Pop(spans) else spans
  {
    assert [p][1..] == [];
  }

  function Closes(n: nat): seq<Piece> {
    if n == 0 then [] else Closes(n - 1) + [Close]
  }

  /** Closing open spans shows nothing and closes no more than was open. */
  lemma {:induction false} CloseAll(ps: seq<Piece>, n: nat)
    requires n <= |After(ps, [])|
    ensures var open, all := After(ps, []), ps + Closes(n);
            (Nested(all, []) <==> Nested(ps, [])) && After(all, []) == open[..|open| - n]
            && Show(all, []) == Show(ps, [])
  {
    if n == 0 {
      assert ps + Closes(0) == ps;
    } else {
      CloseAll(ps, n - 1);
      assert ps + Closes(n) == (ps + Closes(n - 1)) + [Close];
      PushPiece(ps + Closes(n - 1), [], Close);
      One(Close, After(ps + Closes(n - 1), []));
    }
  }

  function Opens(tags: seq<string>): seq<Piece> {
    if tags == [] then [] else Opens(tags[..|tags| - 1]) + [Open(tags[|tags| - 1])]
  }

  /** Opening spans again gives the stack back and shows nothing. */
  lemma {:induction false} OpenAll(tags: seq<string>)
    ensures Nested(Opens(tags), []) && After(Opens(tags), []) == tags && Show(Opens(tags), []) == []
  {
    if tags != [] {
      var init, tag := tags[..|tags| - 1], tags[|tags| - 1];
      OpenAll(init);
      PushPiece(Opens(init), [], Open(tag));
      One(Open(tag), init);
    }
  }

  /** What every finished line shows. */
  function Shown(lines: seq<seq<Piece>>): seq<seq<Cell>> {
    if lines == [] then [] else [Show(lines[0], [])] + Shown(lines[1..])
  }

  lemma {:induction false} ShownPush(lines: seq<seq<Piece>>, line: seq<Piece>)
    ensures Shown(lines + [line]) == Shown(lines) + [Show(line, [])]
  {
    if lines == [] {
      assert [line][1..] == [] && [] + [line] == [line];
    } else {
      assert (lines + [line])[1..] == lines[1..] + [line];
      ShownPush(lines[1..], line);
    }
  }

  predicate AllNested(lines: seq<seq<Piece>>) {
    forall k :: 0 <= k < |lines| ==> Nested(lines[k], [])
  }

  lemma AllNestedPush(lines: seq<seq<Piece>>, line: seq<Piece>)
    ensures AllNested(lines + [line]) <==> AllNested(lines) && Nested(line, [])
  {
    var more := lines + [line];
    assert more[|lines|] == line;
    assert forall k :: 0 <= k < |lines| ==> more[k] == lines[k];
  }

  /**
   `splitHighlightedLines`, on any markup: one more line than line ends, every character
   under exactly the spans it had, and all lines balanced on their own exactly when the
   whole is balanced.
   */
  method SplitHighlightedLines(html: seq<Piece>) returns (lines: seq<seq<Piece>>)
    ensures |lines| == Newlines(html) + 1
    ensures Shown(lines) == Rows(html, [], [])
    ensures (forall k :: 0 <= k < |lines| ==> Balanced(lines[k])) <==> Balanced(html)
  {
    lines := [];
    var open: seq<string>, current: seq<Piece> := [], [];
    assert html[0..] == html;
    for i := 0 to |html|
      invariant forall k :: 0 <= k < |lines| ==> After(lines[k], []) == []
      invariant AllNested(lines) && Nested(current, []) && Nested(html[i..], open) <==> Nested(html, [])
      invariant After(current, []) == open
      invariant After(html[i..], open) == After(html, [])
      invariant Shown(lines) + Rows(html[i..], open, Show(current, [])) == Rows(html, [], [])
    {
      var p, shown := html[i], Show(current, []);
      assert html[i..][1..] == html[i + 1..];
      if p == Ch('\n') {
        CloseAll(current, |open|);
        ShownPush(lines, current + Closes(|open|));
        Assoc(Shown(lines), [Show(current, [])], Rows(html[i + 1..], open, []));
        current := current + Closes(|open|);
        AllNestedPush(lines, current);
        lines := lines + [current];
        OpenAll(open);
        current := Opens(open);
      } else {
        PushPiece(current, [], p);
        One(p, open);
        if p == Close {
          open := Pop(open);
        } else if p.Open? {
          open := open + [p.tag];
        }
        current := current + [p];
        assert !p.Ch? ==> Show(current, []) == shown;
      }
    }
    ShownPush(lines, current);
    AllNestedPush(lines, current);
    lines := lines + [current];
    RowCount(html, [], []);
    ShownLength(lines);
    assert lines[|lines| - 1] == current;
  }

  lemma {:induction false} ShownLength(lines: seq<seq<Piece>>)
    ensures |Shown(lines)| == |lines|
  {
    if lines != [] {
      ShownLength(lines[1..]);
    }
  }
}
