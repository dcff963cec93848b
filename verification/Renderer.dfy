/**
 What a frame update writes (internal/tui/screen.go, Render), as a function of the two frames,
 and the proof that a terminal showing the old frame then shows the new one.
 */
module Renderer {
  import opened Glyphs
  import opened Terminal
  import opened Wrappers

  type Frame = seq<Row>

  // ---- frames -------------------------------------------------------------

  predicate Wide(c: Cell) { !c.cont && RuneWidth(c.r) == 2 }

  /** Cells the renderer's output for `c` takes: a zero rune is written as a space. */
  function CellWidth(c: Cell): nat {
    if c.r == 0 then 1 else RuneWidth(c.r)
  }

  /** A cell as the terminal can show it. */
  function Shown(c: Cell): Cell {
    if !c.cont && c.r == 0 then c.(r := SPACE) else c
  }

  function ShownRow(row: Row): (s: Row)
    ensures |s| == |row|
  {
    seq(|row|, i requires 0 <= i < |row| => Shown(row[i]))
  }

  /** Every continuation cell follows its wide lead, in the lead's style, and no lead lacks one. */
  ghost predicate WellFormed(row: Row) {
    forall i :: 0 <= i < |row| ==> WellPlaced(row, i)
  }

  ghost predicate WellPlaced(row: Row, i: nat)
    requires i < |row|
  {
    && (row[i].cont <==> 0 < i && Wide(row[i - 1]))
    && (row[i].cont ==> row[i].r == 0 && row[i].st == row[i - 1].st)
    && (!row[i].cont ==> 1 <= CellWidth(row[i]) && i + CellWidth(row[i]) <= |row|)
  }

  ghost predicate WellFormedFrame(f: Frame, w: nat, h: nat) {
    |f| == h && forall y :: 0 <= y < h ==> |f[y]| == w && WellFormed(f[y])
  }

  ghost predicate Sized(f: Frame, w: nat, h: nat) {
    |f| == h && forall y :: 0 <= y < h ==> |f[y]| == w
  }

  ghost predicate Shows(t: Term, f: Frame) {
    |t.rows| == |f| && forall y :: 0 <= y < |f| ==> t.rows[y] == ShownRow(f[y])
  }

  // ---- the update ---------------------------------------------------------

  predicate Changed(was: Option<Row>, row: Row, x: nat)
    requires x < |row| && (was.Some? ==> |was.value| == |row|)
  {
    !row[x].cont && (was.None? || was.value[x] != row[x])
  }

  /** The least changed column at or after x, or -1. */
  function FirstChanged(was: Option<Row>, row: Row, x: nat): (i: int)
    requires x <= |row| && (was.Some? ==> |was.value| == |row|)
    ensures i == -1 || (x <= i < |row| && Changed(was, row, i))
    ensures forall k :: x <= k < (if i == -1 then |row| else i) ==> !Changed(was, row, k)
    decreases |row| - x
  {
    if x == |row| then -1 else if Changed(was, row, x) then x else FirstChanged(was, row, x + 1)
  }

  /** The greatest changed column before n, or -1. */
  function LastChanged(was: Option<Row>, row: Row, n: nat): (i: int)
    requires n <= |row| && (was.Some? ==> |was.value| == |row|)
    ensures i == -1 || (0 <= i < n && Changed(was, row, i))
    ensures forall k :: i < k < n ==> !Changed(was, row, k)
  {
    if n == 0 then -1 else if Changed(was, row, n - 1) then n - 1 else LastChanged(was, row, n - 1)
  }

  function Restyle(cur: Option<Style>, st: Style): seq<Op> {
    if cur == Some(st) then [] else [SetStyle(st)]
  }

  /** Columns x..last of a row, switching style only where it changes. */
  function Emit(row: Row, x: nat, last: int, cur: Option<Style>): seq<Op>
    requires last < |row|
    decreases last + 1 - x
  {
    if last < x then []
    else if row[x].cont then Emit(row, x + 1, last, cur)
    else
      Restyle(cur, row[x].st)
      + [Put(Shown(row[x]).r)]
      + Emit(row, x + 1, last, Some(row[x].st))
  }

  function RowOps(was: Option<Row>, row: Row, y: nat): seq<Op>
    requires was.Some? ==> |was.value| == |row|
  {
    var first := FirstChanged(was, row, 0);
    if first < 0 then []
    else [MoveTo(y + 1, first + 1)] + Emit(row, first, LastChanged(was, row, |row|), None)
  }

  ghost predicate SameShape(was: Option<Frame>, f: Frame) {
    was.Some? ==> |was.value| == |f| && forall y :: 0 <= y < |f| ==> |was.value[y]| == |f[y]|
  }

  function OldRow(was: Option<Frame>, y: nat): Option<Row>
    requires was.Some? ==> y < |was.value|
  {
    if was.Some? then Some(was.value[y]) else None
  }

  /** The first y rows. */
  function FrameOps(was: Option<Frame>, f: Frame, y: nat): seq<Op>
    requires SameShape(was, f) && y <= |f|
  {
    if y == 0 then [] else FrameOps(was, f, y - 1) + RowOps(OldRow(was, y - 1), f[y - 1], y - 1)
  }

  /** A diff against `was`, or an erase and a repaint when there is no old frame to trust. */
  function RenderOps(was: Option<Frame>, f: Frame): seq<Op>
    requires SameShape(was, f)
  {
    (if was.None? then [Erase] else []) + FrameOps(was, f, |f|) + [SetStyle(PLAIN)]
  }

  // ---- one row ------------------------------------------------------------

  /** Columns before x show `goal`; from x on the row still is `base`, save a half glyph cut off at x. */
  ghost predicate Painted(t: Row, goal: Row, base: Row, x: nat) {
    && |t| == |goal| == |base| && x <= |t|
    && (forall i :: 0 <= i < x ==> t[i] == goal[i])
    && (forall i :: x < i < |t| ==> t[i] == base[i])
    && (x < |t| ==> !t[x].cont && (t[x] == base[x] || base[x].cont))
  }

  ghost predicate SameElsewhere(a: seq<Row>, b: seq<Row>, y: nat) {
    |a| == |b| && forall k :: 0 <= k < |a| && k != y ==> a[k] == b[k]
  }

  /** A glyph ends inside the row, and what follows it is not a continuation. */
  lemma EndOfGlyph(row: Row, x: nat)
    requires WellFormed(row) && x < |row| && !row[x].cont
    ensures x < x + CellWidth(row[x]) <= |row| && CellWidth(row[x]) <= 2
    ensures x + CellWidth(row[x]) < |row| ==> !row[x + CellWidth(row[x])].cont
    ensures CellWidth(row[x]) == 2 ==> row[x + 1] == Cell(0, row[x].st, true)
  {
    assert WellPlaced(row, x);
    assert x + 1 < |row| ==> WellPlaced(row, x + 1);
    assert x + 2 < |row| ==> WellPlaced(row, x + 2);
  }

  /** From column x on the goal is what the row shows. */
  ghost predicate AimsAt(goal: Row, row: Row, x: nat) {
    |goal| == |row| && forall i :: x <= i < |row| ==> goal[i] == Shown(row[i])
  }

  /** What a redrawn stretch that ends in front of column x has made of it: the half it cut off is blanked. */
  ghost predicate EdgeIs(t: Term, base: Row, x: nat)
    requires t.Valid() && |base| == t.w
  {
    x < t.w ==> t.rows[t.row][x] == if base[x].cont then t.Blank(base[x]) else base[x]
  }

  lemma PaintGlyph(t: Term, row: Row, goal: Row, base: Row, x: nat)
    requires t.Valid() && WellFormed(row) && x < |row| && !row[x].cont && t.w == |row| && t.col == x
    requires AimsAt(goal, row, x) && Painted(t.rows[t.row], goal, base, x)
    requires t.st == row[x].st
    ensures var u := t.Step(Put(Shown(row[x]).r));
            && u.row == t.row && u.col == x + CellWidth(row[x]) && u.st == t.st
            && SameElsewhere(u.rows, t.rows, t.row)
            && Painted(u.rows[t.row], goal, base, x + CellWidth(row[x]))
            && EdgeIs(u, base, x + CellWidth(row[x]))
  {
    var k := CellWidth(row[x]);
    EndOfGlyph(row, x);
    assert RuneWidth(Shown(row[x]).r) == k;
  }

  lemma RunRestyled(t: Term, cur: Option<Style>, st: Style, op: Op, rest: seq<Op>)
    requires t.Valid() && (cur.Some? ==> t.st == cur.value)
    ensures t.Run(Restyle(cur, st) + [op] + rest) == t.(st := st).Step(op).Run(rest)
  {
    var u := t.(st := st);
    assert u == t.Step(SetStyle(st));
    if cur == Some(st) {
      assert u == t && Restyle(cur, st) + [op] + rest == [op] + rest;
    } else {
      assert Restyle(cur, st) + [op] + rest == [SetStyle(st)] + ([op] + rest);
      RunCons(t, SetStyle(st), [op] + rest);
    }
    RunCons(u, op, rest);
  }

  /** The style switch and the glyph at column x. */
  lemma PaintStyled(t: Term, row: Row, goal: Row, base: Row, x: nat, last: nat, cur: Option<Style>) returns (u: Term)
    requires t.Valid() && WellFormed(row) && x <= last < |row| && !row[x].cont && t.w == |row| && t.col == x
    requires AimsAt(goal, row, x) && Painted(t.rows[t.row], goal, base, x)
    requires cur.Some? ==> t.st == cur.value
    ensures u.Valid() && u.w == t.w && u.row == t.row && u.col == x + CellWidth(row[x]) && u.st == row[x].st
    ensures SameElsewhere(u.rows, t.rows, t.row)
    ensures Painted(u.rows[t.row], goal, base, x + CellWidth(row[x])) && EdgeIs(u, base, x + CellWidth(row[x]))
    ensures t.Run(Emit(row, x, last, cur)) == u.Run(Emit(row, x + CellWidth(row[x]), last, Some(row[x].st)))
  {
    var st := row[x].st;
    var put := Put(Shown(row[x]).r);
    var next := x + CellWidth(row[x]);
    EndOfGlyph(row, x);
    var rest := Emit(row, next, last, Some(st));
    assert Emit(row, x, last, cur) == Restyle(cur, st) + [put] + rest;
    hide *;
    RunRestyled(t, cur, st, put, rest);
    PaintGlyph(t.(st := st), row, goal, base, x);
    u := t.(st := st).Step(put);
  }

  /** Past the last glyph nothing is written. */
  lemma NothingLeft(t: Term, row: Row, x: nat, last: nat, cur: Option<Style>)
    requires t.Valid() && WellFormed(row) && last < |row| && !row[last].cont
    requires last < x <= last + CellWidth(row[last]) && (x < |row| ==> !row[x].cont)
    ensures x == last + CellWidth(row[last]) && t.Run(Emit(row, x, last, cur)) == t
  {
    EndOfGlyph(row, last);
  }

  lemma {:induction false} PaintRow(t: Term, row: Row, goal: Row, base: Row, x: nat, last: nat, cur: Option<Style>)
    requires t.Valid() && WellFormed(row) && t.w == |row| && t.col == x
    requires last < |row| && !row[last].cont && x <= last + CellWidth(row[last]) && (x < |row| ==> !row[x].cont)
    requires AimsAt(goal, row, x) && Painted(t.rows[t.row], goal, base, x)
    requires last < x ==> EdgeIs(t, base, x) && t.st == row[last].st
    requires cur.Some? ==> t.st == cur.value
    ensures var u := t.Run(Emit(row, x, last, cur));
            && SameElsewhere(u.rows, t.rows, t.row)
            && u.row == t.row && u.st == row[last].st && EdgeIs(u, base, last + CellWidth(row[last]))
            && Painted(u.rows[t.row], goal, base, last + CellWidth(row[last]))
    decreases |row| - x
  {
    hide Term.Run, Term.Step, Emit, WellFormed, Painted, CellWidth, EdgeIs;
    if last < x {
      NothingLeft(t, row, x, last, cur);
    } else {
      EndOfGlyph(row, x);
      BeforeTheEnd(row, x, last);
      var u := PaintStyled(t, row, goal, base, x, last, cur);
      if last < x + CellWidth(row[x]) {
        LastGlyph(row, x, last);
      }
      PaintRow(u, row, goal, base, x + CellWidth(row[x]), last, Some(row[x].st));
    }
  }

  lemma LastGlyph(row: Row, x: nat, last: nat)
    requires WellFormed(row) && x <= last < |row| && !row[x].cont && !row[last].cont && last < x + CellWidth(row[x])
    ensures x == last
  {
    EndOfGlyph(row, x);
  }

  lemma BeforeTheEnd(row: Row, x: nat, last: nat)
    requires WellFormed(row) && x <= last < |row| && !row[x].cont && !row[last].cont
    ensures x + CellWidth(row[x]) <= last + CellWidth(row[last])
  {
    EndOfGlyph(row, x);
    EndOfGlyph(row, last);
  }

  /** Outside the rewritten columns the two frames agree, so the row now shows the new frame. */
  lemma PaintedAll(t: Row, row: Row, was: Row, last: nat)
    requires WellFormed(row) && WellFormed(was) && |row| == |was| && last < |row| && !row[last].cont
    requires forall x :: last < x < |row| ==> !Changed(Some(was), row, x)
    requires Painted(t, ShownRow(row), ShownRow(was), last + CellWidth(row[last]))
    ensures t == ShownRow(row)
  {
    var e := last + CellWidth(row[last]);
    EndOfGlyph(row, last);
    forall i | e <= i < |row|
      ensures row[i] == was[i] && t[i] == ShownRow(row)[i]
    {
      assert WellPlaced(row, i) && WellPlaced(was, i);
      if row[i].cont {
        assert !Changed(Some(was), row, i - 1) && !row[i - 1].cont;
      } else {
        assert !Changed(Some(was), row, i);
      }
    }
  }

  /** A glyph of the old frame never straddles the first changed column. */
  lemma FirstIsNoHalf(row: Row, was: Row)
    requires WellFormed(row) && WellFormed(was) && |row| == |was|
    requires 0 <= FirstChanged(Some(was), row, 0)
    ensures !was[FirstChanged(Some(was), row, 0)].cont
  {
    var x := FirstChanged(Some(was), row, 0);
    if was[x].cont {
      assert WellPlaced(was, x) && WellPlaced(row, x) && WellPlaced(row, x - 1) && WellPlaced(was, x - 1);
      assert Wide(was[x - 1]) && !Wide(row[x - 1]);
      if row[x - 1].cont {
        assert Wide(row[x - 2]) && !Wide(was[x - 2]);
        assert Changed(Some(was), row, x - 2);
      } else {
        assert Changed(Some(was), row, x - 1);
      }
    }
  }

  lemma SameRow(row: Row, was: Row)
    requires WellFormed(row) && WellFormed(was) && |row| == |was|
    requires forall x :: 0 <= x < |row| ==> !Changed(Some(was), row, x)
    ensures row == was
  {
    forall i | 0 <= i < |row|
      ensures row[i] == was[i]
    {
      assert WellPlaced(row, i) && WellPlaced(was, i);
      if row[i].cont {
        assert !Changed(Some(was), row, i - 1);
      } else {
        assert !Changed(Some(was), row, i);
      }
    }
  }

  /** Before the first changed column the two rows agree, second halves included. */
  lemma SameBefore(row: Row, was: Row, first: nat)
    requires WellFormed(row) && WellFormed(was) && |row| == |was| && first < |row|
    requires forall k :: 0 <= k < first ==> !Changed(Some(was), row, k)
    requires !was[first].cont && !row[first].cont
    ensures Painted(ShownRow(was), ShownRow(row), ShownRow(was), first)
  {
    hide RuneWidth;
    forall i | 0 <= i < first
      ensures row[i] == was[i]
    {
      assert WellPlaced(row, i) && WellPlaced(was, i);
      assert !Changed(Some(was), row, i);
      if row[i].cont {
        assert !Changed(Some(was), row, i - 1);
      }
    }
  }

  /** One row of the update, over a terminal row that shows `was`. */
  lemma DiffRow(t: Term, row: Row, was: Row, y: nat)
    requires t.Valid() && y < |t.rows| && |row| == |was| == t.w
    requires WellFormed(row) && WellFormed(was) && t.rows[y] == ShownRow(was)
    ensures t.Run(RowOps(Some(was), row, y)).rows == t.rows[y := ShownRow(row)]
  {
    hide WellFormed, Painted, Emit, Term.Run, FirstChanged, LastChanged, RuneWidth;
    var o := Some(was);
    var first, last := FirstChanged(o, row, 0), LastChanged(o, row, |row|);
    if first < 0 {
      SameRow(row, was);
      NothingRun(t);
    } else {
      assert first <= last;
      FirstIsNoHalf(row, was);
      SameBefore(row, was, first);
      var t1 := t.Step(MoveTo(y + 1, first + 1));
      EndOfGlyph(row, last);
      PaintRow(t1, row, ShownRow(row), ShownRow(was), first, last, None);
      var e := Emit(row, first, last, None);
      RunCons(t, MoveTo(y + 1, first + 1), e);
      PaintedAll(t1.Run(e).rows[y], row, was, last);
    }
  }

  lemma NothingRun(t: Term)
    requires t.Valid()
    ensures t.Run([]) == t
  {
  }

  /** One row of a full repaint, over a row of blanks. */
  lemma FullRow(t: Term, row: Row, y: nat)
    requires t.Valid() && y < |t.rows| && |row| == t.w && WellFormed(row)
    requires forall i :: 0 <= i < t.w ==> !t.rows[y][i].cont
    ensures t.Run(RowOps(None, row, y)).rows == t.rows[y := ShownRow(row)]
  {
    assert WellPlaced(row, 0);
    assert Changed(None, row, 0);
    var last := LastChanged(None, row, |row|);
    EndOfGlyph(row, last);
    var end := last + CellWidth(row[last]);
    assert end < |row| ==> Changed(None, row, end);
    var t1 := t.Step(MoveTo(y + 1, 1));
    PaintRow(t1, row, ShownRow(row), t.rows[y], 0, last, None);
    var e := Emit(row, 0, last, None);
    RunCons(t, MoveTo(y + 1, 1), e);
    assert t1.Run(e).rows[y] == ShownRow(row);
  }

  // ---- whole frames -------------------------------------------------------

  /** What a terminal row must look like before the update reaches it. */
  ghost predicate Before(was: Option<Frame>, t: Term, y: nat)
    requires y < |t.rows| && (was.Some? ==> y < |was.value|)
  {
    match was
    case Some(p) => t.rows[y] == ShownRow(p[y])
    case None => forall i :: 0 <= i < |t.rows[y]| ==> !t.rows[y][i].cont
  }

  /** The first y rows are updated, the others are as they were. */
  lemma {:induction false} PaintFrame(t: Term, was: Option<Frame>, f: Frame, y: nat)
    requires t.Valid() && WellFormedFrame(f, t.w, |t.rows|) && y <= |f|
    requires SameShape(was, f) && (was.Some? ==> WellFormedFrame(was.value, t.w, |t.rows|))
    requires forall k :: 0 <= k < |f| ==> Before(was, t, k)
    ensures var u := t.Run(FrameOps(was, f, y));
            && (forall k :: 0 <= k < y ==> u.rows[k] == ShownRow(f[k]))
            && (forall k :: y <= k < |f| ==> u.rows[k] == t.rows[k])
  {
    if 0 < y {
      var k := y - 1;
      PaintFrame(t, was, f, k);
      var u := t.Run(FrameOps(was, f, k));
      assert Before(was, t, k);
      if was.Some? {
        DiffRow(u, f[k], was.value[k], k);
      } else {
        FullRow(u, f[k], k);
      }
      RunConcat(t, FrameOps(was, f, k), RowOps(OldRow(was, k), f[k], k));
    }
  }

  lemma ResetKeepsRows(t: Term, ops: seq<Op>)
    requires t.Valid()
    ensures t.Run(ops + [SetStyle(PLAIN)]).rows == t.Run(ops).rows
  {
    RunConcat(t, ops, [SetStyle(PLAIN)]);
    assert t.Run(ops).Run([SetStyle(PLAIN)]) == t.Run(ops).Step(SetStyle(PLAIN));
  }

  /** The diff turns a terminal showing the old frame into one showing the new frame. */
  lemma DiffIsCorrect(t: Term, was: Frame, f: Frame)
    requires t.Valid() && Shows(t, was)
    requires WellFormedFrame(was, t.w, |t.rows|) && WellFormedFrame(f, t.w, |t.rows|)
    ensures Shows(t.Run(RenderOps(Some(was), f)), f)
  {
    PaintFrame(t, Some(was), f, |f|);
    assert [] + FrameOps(Some(was), f, |f|) == FrameOps(Some(was), f, |f|);
    ResetKeepsRows(t, FrameOps(Some(was), f, |f|));
  }

  /** A full repaint shows the frame whatever the terminal held: glyphs, cursor, style. */
  lemma FullIsCorrect(t: Term, f: Frame)
    requires t.Valid() && WellFormedFrame(f, t.w, |t.rows|)
    ensures Shows(t.Run(RenderOps(None, f)), f)
  {
    var u := t.Step(Erase);
    PaintFrame(u, None, f, |f|);
    RunCons(t, Erase, FrameOps(None, f, |f|));
    ResetKeepsRows(t, [Erase] + FrameOps(None, f, |f|));
  }

  // ---- only well-formed frames can be shown -------------------------------

  /** A terminal row: no half of a double-width glyph without the other, and no zero rune but in second halves. */
  ghost predicate Whole(row: Row) {
    WellFormed(row) && forall i :: 0 <= i < |row| && row[i].r == 0 ==> row[i].cont
  }

  ghost predicate WholeTerm(t: Term) {
    forall y :: 0 <= y < |t.rows| ==> Whole(t.rows[y])
  }

  lemma BlankIsWhole(t: Term)
    requires t.Valid()
    ensures Whole(t.BlankRow())
  {
  }

  /** Printing a glyph over a whole row leaves it whole: the emulator blanks any half it cuts off. */
  lemma OverwriteKeepsWhole(t: Term, row: Row, x: nat, r: int, k: nat)
    requires Whole(row) && 1 <= k <= 2 && x + k <= |row| && RuneWidth(r) == k
    ensures Whole(t.Overwrite(row, x, r, k))
  {
    hide WellFormed, RuneWidth;
    ZeroAndSpace();
    var out := t.Overwrite(row, x, r, k);
    forall i | 0 <= i < |out|
      ensures WellPlaced(out, i)
    {
      PlacedAt(row, i);
      if 0 < i { PlacedAt(row, i - 1); }
      if i + 1 < |row| { PlacedAt(row, i + 1); }
    }
    AllPlaced(out);
  }

  lemma PlacedAt(row: Row, i: nat)
    requires WellFormed(row) && i < |row|
    ensures WellPlaced(row, i)
  {
  }

  lemma AllPlaced(row: Row)
    requires forall i :: 0 <= i < |row| ==> WellPlaced(row, i)
    ensures WellFormed(row)
  {
  }

  lemma StepKeepsWhole(t: Term, op: Op)
    requires t.Valid() && WholeTerm(t)
    ensures WholeTerm(t.Step(op))
  {
    hide Whole, RuneWidth;
    BlankIsWhole(t);
    if op.Put? && 1 <= RuneWidth(op.r) {
      var k := RuneWidth(op.r);
      var u := if t.w < t.col + k then t.Wrapped() else t;
      assert WholeTerm(u);
      if u.col + k <= u.w {
        OverwriteKeepsWhole(u, u.rows[u.row], u.col, op.r, k);
      }
    }
  }

  lemma {:induction false} RunKeepsWhole(t: Term, ops: seq<Op>)
    requires t.Valid() && WholeTerm(t)
    ensures WholeTerm(t.Run(ops))
    decreases |ops|
  {
    hide WholeTerm;
    if ops != [] {
      StepKeepsWhole(t, ops[0]);
      RunKeepsWhole(t.Step(ops[0]), ops[1..]);
    }
  }

  /** A row is well formed when what it shows is. */
  lemma ShownIsWellFormed(row: Row)
    requires WellFormed(ShownRow(row))
    ensures WellFormed(row)
  {
    hide RuneWidth;
    ZeroAndSpace();
    var s := ShownRow(row);
    forall i | 0 <= i < |row|
      ensures WellPlaced(row, i)
    {
      assert WellPlaced(s, i);
    }
  }

  lemma ZeroAndSpace()
    ensures RuneWidth(0) == 0 && RuneWidth(SPACE) == 1
  {
  }

  /** A terminal without half glyphs shows no ill-formed frame. */
  lemma OnlyWellFormedShows(t: Term, f: Frame)
    requires t.Valid() && WholeTerm(t) && Shows(t, f)
    ensures WellFormedFrame(f, t.w, |t.rows|)
  {
    hide WellFormed;
    forall y | 0 <= y < |f|
      ensures |f[y]| == t.w && WellFormed(f[y])
    {
      assert Whole(t.rows[y]);
      ShownIsWellFormed(f[y]);
    }
  }

  lemma FullKeepsWhole(t: Term, f: Frame)
    requires t.Valid()
    ensures WholeTerm(t.Run(RenderOps(None, f)))
  {
    hide Whole;
    var u := t.Step(Erase);
    BlankIsWhole(t);
    assert WholeTerm(u);
    var rest := FrameOps(None, f, |f|) + [SetStyle(PLAIN)];
    assert RenderOps(None, f) == [Erase] + rest;
    RunCons(t, Erase, rest);
    RunKeepsWhole(u, rest);
  }

  /** From any terminal state a full repaint ends up showing the frame if and only if the frame is well formed. */
  lemma FullShowsExactly(t: Term, f: Frame)
    requires t.Valid() && Sized(f, t.w, |t.rows|)
    ensures Shows(t.Run(RenderOps(None, f)), f) <==> WellFormedFrame(f, t.w, |t.rows|)
  {
    hide Shows, WellFormed, Whole;
    if WellFormedFrame(f, t.w, |t.rows|) {
      FullIsCorrect(t, f);
    } else {
      FullKeepsWhole(t, f);
      if Shows(t.Run(RenderOps(None, f)), f) {
        OnlyWellFormedShows(t.Run(RenderOps(None, f)), f);
      }
    }
  }

  /** And so does the diff, from a terminal without half glyphs that shows the old frame, whatever that is. */
  lemma DiffShowsExactly(t: Term, was: Frame, f: Frame)
    requires t.Valid() && WholeTerm(t) && Shows(t, was) && Sized(f, t.w, |t.rows|)
    ensures SameShape(Some(was), f)
    ensures Shows(t.Run(RenderOps(Some(was), f)), f) <==> WellFormedFrame(f, t.w, |t.rows|)
  {
    hide WellFormed, Whole;
    OnlyWellFormedShows(t, was);
    RunKeepsWhole(t, RenderOps(Some(was), f));
    if WellFormedFrame(f, t.w, |t.rows|) {
      DiffIsCorrect(t, was, f);
    } else if Shows(t.Run(RenderOps(Some(was), f)), f) {
      OnlyWellFormedShows(t.Run(RenderOps(Some(was), f)), f);
    }
  }

  // ---- chains of draws ----------------------------------------------------

  ghost predicate AllSized(frames: seq<Frame>, w: nat, h: nat) {
    forall i :: 0 <= i < |frames| ==> Sized(frames[i], w, h)
  }

  /** What a run of draws of one size writes: each frame is diffed against the one before it. */
  ghost function Draws(frames: seq<Frame>, w: nat, h: nat): seq<Op>
    requires 0 < |frames| && AllSized(frames, w, h)
    decreases |frames|
  {
    var n := |frames| - 1;
    if n == 0 then RenderOps(None, frames[0])
    else
      assert Sized(frames[n - 1], w, h) && Sized(frames[n], w, h);
      Draws(frames[..n], w, h) + RenderOps(Some(frames[n - 1]), frames[n])
  }

  lemma WellFormedIsSized(frames: seq<Frame>, w: nat, h: nat)
    requires forall i :: 0 <= i < |frames| ==> WellFormedFrame(frames[i], w, h)
    ensures AllSized(frames, w, h)
  {
  }

  /** After any run of draws, the first of them full, the terminal shows the last frame. */
  lemma {:induction false} DrawsShowTheLastFrame(t: Term, frames: seq<Frame>)
    requires t.Valid() && 0 < |frames|
    requires forall i :: 0 <= i < |frames| ==> WellFormedFrame(frames[i], t.w, |t.rows|)
    ensures AllSized(frames, t.w, |t.rows|)
    ensures Shows(t.Run(Draws(frames, t.w, |t.rows|)), frames[|frames| - 1])
    decreases |frames|
  {
    hide WellFormed, Shows, RenderOps, Sized;
    WellFormedIsSized(frames, t.w, |t.rows|);
    var n := |frames| - 1;
    if n == 0 {
      FullIsCorrect(t, frames[0]);
    } else {
      var prior := frames[..n];
      DrawsShowTheLastFrame(t, prior);
      var ops := Draws(prior, t.w, |t.rows|);
      SizesMatch(frames[n - 1], frames[n], t.w, |t.rows|);
      DiffIsCorrect(t.Run(ops), frames[n - 1], frames[n]);
      RunConcat(t, ops, RenderOps(Some(frames[n - 1]), frames[n]));
    }
  }

  lemma SizesMatch(was: Frame, f: Frame, w: nat, h: nat)
    requires Sized(was, w, h) && Sized(f, w, h)
    ensures SameShape(Some(was), f)
  {
  }

  /** From the first draw on the terminal has no half glyphs, whatever is drawn. */
  lemma {:induction false} DrawsKeepWhole(t: Term, frames: seq<Frame>)
    requires t.Valid() && 0 < |frames| && AllSized(frames, t.w, |t.rows|)
    ensures WholeTerm(t.Run(Draws(frames, t.w, |t.rows|)))
    decreases |frames|
  {
    hide WholeTerm, Sized, RenderOps;
    var n := |frames| - 1;
    if n == 0 {
      FullKeepsWhole(t, frames[0]);
    } else {
      var prior := frames[..n];
      DrawsKeepWhole(t, prior);
      SizesMatch(frames[n - 1], frames[n], t.w, |t.rows|);
      var ops, more := Draws(prior, t.w, |t.rows|), RenderOps(Some(frames[n - 1]), frames[n]);
      RunConcat(t, ops, more);
      RunKeepsWhole(t.Run(ops), more);
    }
  }

  /** In any chain of draws every frame is shown in its turn if and only if every frame is well formed. */
  lemma ChainShowsExactly(t: Term, frames: seq<Frame>)
    requires t.Valid() && AllSized(frames, t.w, |t.rows|)
    ensures (forall n :: 0 < n <= |frames| ==> Shows(t.Run(Draws(frames[..n], t.w, |t.rows|)), frames[n - 1]))
        <==> (forall i :: 0 <= i < |frames| ==> WellFormedFrame(frames[i], t.w, |t.rows|))
  {
    hide Shows, WellFormedFrame, WholeTerm, Sized, Draws;
    if forall i :: 0 <= i < |frames| ==> WellFormedFrame(frames[i], t.w, |t.rows|) {
      forall n | 0 < n <= |frames|
        ensures Shows(t.Run(Draws(frames[..n], t.w, |t.rows|)), frames[n - 1])
      {
        DrawsShowTheLastFrame(t, frames[..n]);
      }
    } else if forall n :: 0 < n <= |frames| ==> Shows(t.Run(Draws(frames[..n], t.w, |t.rows|)), frames[n - 1]) {
      forall i | 0 <= i < |frames|
        ensures WellFormedFrame(frames[i], t.w, |t.rows|)
      {
        DrawsKeepWhole(t, frames[..i + 1]);
        assert Shows(t.Run(Draws(frames[..i + 1], t.w, |t.rows|)), frames[i + 1 - 1]);
        OnlyWellFormedShows(t.Run(Draws(frames[..i + 1], t.w, |t.rows|)), frames[i]);
      }
    }
  }
}
