/**
 A small terminal emulator, the meaning of what the renderer writes.
 Overwriting one half of a double-width glyph blanks the other half; whether a blank keeps
 the old attributes or takes the current ones is left open by `keepsStyle`.
 */
module Terminal {
  import opened Glyphs

  datatype Op =
    | Erase                          // ESC [ 2 J
    | MoveTo(row: nat, col: nat)     // ESC [ row ; col H, counted from 1
    | SetStyle(st: Style)            // ESC [ 0 ; ... m
    | Put(r: int)

  type Row = seq<Cell>

  datatype Term = Term(w: nat, rows: seq<Row>, row: nat, col: nat, st: Style, keepsStyle: bool) {
    ghost predicate Valid() {
      && 0 < w && row < |rows| && col <= w
      && forall y :: 0 <= y < |rows| ==> |rows[y]| == w
    }

    function Blank(c: Cell): Cell {
      Cell(SPACE, if keepsStyle then c.st else st, false)
    }

    /** Row `row` after a glyph of `k` cells is printed at column x. */
    function Overwrite(row: Row, x: nat, r: int, k: nat): (out: Row)
      requires 1 <= k <= 2 && x + k <= |row|
      ensures |out| == |row|
    {
      var a := if row[x].cont && 0 < x then row[x - 1 := Blank(row[x - 1])] else row;
      var b := if x + k < |row| && row[x + k].cont then a[x + k := Blank(row[x + k])] else a;
      var c := b[x := Cell(r, st, false)];
      if k == 2 then c[x + 1 := Cell(0, st, true)] else c
    }

    function BlankRow(): Row {
      seq(w, _ => Blank(Cell(SPACE, PLAIN, false)))
    }

    /** The pending wrap: down one row, scrolling at the bottom. */
    function Wrapped(): Term
      requires row < |rows|
    {
      if row + 1 < |rows| then this.(row := row + 1, col := 0)
      else this.(rows := rows[1..] + [BlankRow()], col := 0)
    }

    function PutRune(r: int): Term
      requires Valid()
    {
      var k := RuneWidth(r);
      if k == 0 then this
      else
        var t := if w < col + k then Wrapped() else this;
        if t.w < t.col + k then t
        else t.(rows := t.rows[t.row := t.Overwrite(t.rows[t.row], t.col, r, k)], col := t.col + k)
    }

    function Step(op: Op): (t: Term)
      requires Valid()
      ensures t.Valid() && t.w == w && |t.rows| == |rows| && t.keepsStyle == keepsStyle
    {
      match op
      case Erase => this.(rows := seq(|rows|, _ => BlankRow()))
      case MoveTo(r, c) =>
        this.(row := Clamp(r, |rows|), col := Clamp(c, w))
      case SetStyle(s) => this.(st := s)
      case Put(r) => PutRune(r)
    }

    function Run(ops: seq<Op>): (t: Term)
      requires Valid()
      ensures t.Valid() && t.w == w && |t.rows| == |rows| && t.keepsStyle == keepsStyle
      decreases |ops|
    {
      if ops == [] then this else Step(ops[0]).Run(ops[1..])
    }
  }

  function Clamp(i: nat, n: nat): (j: nat)
    requires 0 < n
    ensures j < n && (1 <= i <= n ==> j == i - 1)
  {
    if i < 1 then 0 else if n < i then n - 1 else i - 1
  }

  lemma {:induction false} RunConcat(t: Term, a: seq<Op>, b: seq<Op>)
    requires t.Valid()
    ensures t.Run(a + b) == t.Run(a).Run(b)
    decreases |a|
  {
    if a == [] {
      assert a + b == b;
    } else {
      assert (a + b)[1..] == a[1..] + b;
      RunConcat(t.Step(a[0]), a[1..], b);
    }
  }

  lemma RunCons(t: Term, op: Op, rest: seq<Op>)
    requires t.Valid()
    ensures t.Run([op] + rest) == t.Step(op).Run(rest)
  {
    assert ([op] + rest)[1..] == rest;
  }
}
