/** The off-screen cell buffer of internal/tui/screen.go. */
module Screens {
  import opened Glyphs
  import opened Terminal
  import opened Wrappers
  import R = Renderer

  // ---- writing into one row ----------------------------------------------

  /** The rune `Set` stores: zero and zero-width runes become a space. */
  function Stored(r: int): int {
    if RuneWidth(r) == 0 then SPACE else r
  }

  function SetRow(row: Row, x: nat, r: int, st: Style): (out: Row)
    requires x < |row|
    ensures |out| == |row|
  {
    var a := row[x := Cell(Stored(r), st, false)];
    if RuneWidth(Stored(r)) == 2 && x + 1 < |row| then a[x + 1 := Cell(0, st, true)] else a
  }

  /** Neither end of the write cuts a double-width glyph, and a wide rune has room for both halves. */
  predicate Fits(row: Row, x: nat, r: int)
    requires x < |row|
  {
    && !row[x].cont
    && (if RuneWidth(Stored(r)) == 2 then x + 1 < |row| && !R.Wide(row[x + 1]) else !R.Wide(row[x]))
  }

  /** `Set` keeps a well-formed row well formed exactly when the write fits. */
  lemma SetKeepsWellFormed(row: Row, x: nat, r: int, st: Style)
    requires R.WellFormed(row) && x < |row|
    ensures R.WellFormed(SetRow(row, x, r, st)) <==> Fits(row, x, r)
  {
    var out := SetRow(row, x, r, st);
    assert R.WellPlaced(row, x) && (x + 1 < |row| ==> R.WellPlaced(row, x + 1));
    assert x + 2 < |row| ==> R.WellPlaced(row, x + 2);
    if Fits(row, x, r) {
      forall i | 0 <= i < |row|
        ensures R.WellPlaced(out, i)
      {
        assert R.WellPlaced(row, i);
      }
    } else if row[x].cont || (RuneWidth(Stored(r)) == 2 && x + 1 == |row|) {
      assert !R.WellPlaced(out, x);
    } else if RuneWidth(Stored(r)) == 2 {
      assert !R.WellPlaced(out, x + 2);
    } else {
      assert !R.WellPlaced(out, x + 1);
    }
  }

  /** The property fails in practice: a narrow rune over a wide lead leaves its second half behind. */
  lemma SetCanBreakARow()
    ensures var row := [Cell(0x4e2d, PLAIN, false), Cell(0, PLAIN, true)];
            R.WellFormed(row) && !R.WellFormed(SetRow(row, 0, 'a' as int, PLAIN))
  {
    var row := [Cell(0x4e2d, PLAIN, false), Cell(0, PLAIN, true)];
    assert R.WellPlaced(row, 0) && R.WellPlaced(row, 1);
    SetKeepsWellFormed(row, 0, 'a' as int, PLAIN);
  }

  const NEWLINE := 10

  /** A row after a string is drawn from column x: newlines and zero-width runes are skipped, columns below 0 clipped. */
  function TextRow(row: Row, x: int, s: seq<int>, st: Style): (out: Row)
    ensures |out| == |row|
    decreases |s|
  {
    if s == [] then row
    else if s[0] == NEWLINE || RuneWidth(s[0]) == 0 then TextRow(row, x, s[1..], st)
    else if |row| <= x then row
    else TextRow(if x < 0 then row else SetRow(row, x, s[0], st), x + RuneWidth(s[0]), s[1..], st)
  }

  /** The column `Text` returns. */
  function TextEnd(w: nat, x: int, s: seq<int>): int
    decreases |s|
  {
    if s == [] then x
    else if s[0] == NEWLINE || RuneWidth(s[0]) == 0 then TextEnd(w, x, s[1..])
    else if w <= x then x
    else TextEnd(w, x + RuneWidth(s[0]), s[1..])
  }

  /** Text that fits, drawn where no double-width glyph reaches, keeps the row well formed, wherever it starts. */
  lemma {:induction false} TextKeepsWellFormed(row: Row, x: int, s: seq<int>, st: Style)
    requires R.WellFormed(row) && x + TextWidth(s) <= |row|
    requires forall i :: 0 <= i < |row| && x <= i ==> !row[i].cont && !R.Wide(row[i])
    ensures R.WellFormed(TextRow(row, x, s, st))
    ensures TextEnd(|row|, x, s) == x + TextWidth(s)
    ensures forall i :: 0 <= i < |row| && i < x ==> TextRow(row, x, s, st)[i] == row[i]
    decreases |s|
  {
    if s == [] {
    } else if s[0] == NEWLINE || RuneWidth(s[0]) == 0 {
      TextKeepsWellFormed(row, x, s[1..], st);
    } else if x < 0 {
      TextKeepsWellFormed(row, x + RuneWidth(s[0]), s[1..], st);
    } else {
      SetKeepsWellFormed(row, x, s[0], st);
      TextKeepsWellFormed(SetRow(row, x, s[0], st), x + RuneWidth(s[0]), s[1..], st);
    }
  }

  // ---- what is read back from a row ---------------------------------------

  /** What `Set` is given stands in the cell, a space where the rune takes no room, and all cells but its own stay. */
  lemma SetIsThere(row: Row, x: nat, r: int, st: Style)
    requires x < |row|
    ensures var out := SetRow(row, x, r, st);
            && out[x] == Cell(if RuneWidth(r) == 0 then ' ' as int else r, st, false)
            && (RuneWidth(r) == 2 && x + 1 < |row| ==> out[x + 1] == Cell(0, st, true))
            && forall i :: 0 <= i < |row| && i != x && !(i == x + 1 && RuneWidth(r) == 2) ==> out[i] == row[i]
  {
  }

  /** The runes that stand in columns x up to e, second halves skipped. */
  function Inscribed(row: Row, x: nat, e: nat): seq<int>
    requires e <= |row|
    decreases e - x
  {
    if e <= x then []
    else if row[x].cont then Inscribed(row, x + 1, e)
    else [row[x].r] + Inscribed(row, x + 1, e)
  }

  /** A string as it is drawn: without newlines and runes that take no room. */
  function Drawn(s: seq<int>): seq<int> {
    if s == [] then []
    else if s[0] == NEWLINE || RuneWidth(s[0]) == 0 then Drawn(s[1..])
    else [s[0]] + Drawn(s[1..])
  }

  /** Where it fits, the string stands in the row from its first column on, in its style, and everything else stays. */
  lemma {:induction false} TextIsThere(row: Row, x: nat, s: seq<int>, st: Style)
    requires x + TextWidth(s) <= |row|
    ensures var out, e := TextRow(row, x, s, st), x + TextWidth(s);
            && Inscribed(out, x, e) == Drawn(s)
            && (forall i :: x <= i < e ==> out[i].st == st)
            && (forall i :: 0 <= i < |row| && !(x <= i < e) ==> out[i] == row[i])
    decreases |s|
  {
    hide RuneWidth;
    if s == [] {
    } else if s[0] == NEWLINE || RuneWidth(s[0]) == 0 {
      NewlineIsFlat();
      TextIsThere(row, x, s[1..], st);
    } else {
      var k := RuneWidth(s[0]);
      var next := SetRow(row, x, s[0], st);
      SetIsThere(row, x, s[0], st);
      TextIsThere(next, x + k, s[1..], st);
      var out, e := TextRow(row, x, s, st), x + TextWidth(s);
      assert out[x] == next[x] && (k == 2 ==> out[x + 1] == next[x + 1]);
    }
  }

  lemma NewlineIsFlat()
    ensures RuneWidth(NEWLINE) == 0
  {
  }

  // ---- the buffer ---------------------------------------------------------

  lemma RowInside(y: nat, w: nat, h: nat)
    requires y < h
    ensures 0 <= y * w <= y * w + w <= h * w
  {
    var d := h - y - 1;
    assert h * w == y * w + w + d * w;
  }

  lemma RowsApart(y: nat, z: nat, w: nat)
    requires y < z
    ensures y * w + w <= z * w
  {
    RowInside(y, w, z);
  }

  /** The rows of a buffer stored row after row. */
  ghost function RowIn(cells: seq<Cell>, y: nat, w: nat, h: nat): (r: Row)
    requires |cells| == h * w && y < h
    ensures |r| == w
  {
    RowInside(y, w, h);
    cells[y * w..y * w + w]
  }

  ghost function Rows(cells: seq<Cell>, w: nat, h: nat): (f: R.Frame)
    requires |cells| == h * w
    ensures |f| == h && forall y :: 0 <= y < h ==> f[y] == RowIn(cells, y, w, h)
  {
    seq(h, y requires 0 <= y < h => RowIn(cells, y, w, h))
  }

  /** Writing cell y*w+x changes column x of row y and nothing else. */
  lemma WriteOneCell(cells: seq<Cell>, x: nat, y: nat, w: nat, h: nat, c: Cell)
    requires |cells| == h * w && x < w && y < h
    ensures y * w + x < |cells|
    ensures Rows(cells[y * w + x := c], w, h) == Rows(cells, w, h)[y := RowIn(cells, y, w, h)[x := c]]
  {
    RowInside(y, w, h);
    var out := cells[y * w + x := c];
    forall z | 0 <= z < h
      ensures RowIn(out, z, w, h) == if z == y then RowIn(cells, y, w, h)[x := c] else RowIn(cells, z, w, h)
    {
      RowInside(z, w, h);
      if z < y { RowsApart(z, y, w); } else if y < z { RowsApart(y, z, w); }
    }
  }

  lemma NoRowsYet(was: Option<R.Frame>, f: R.Frame)
    requires R.SameShape(was, f)
    ensures R.FrameOps(was, f, 0) == []
  {
  }

  lemma OneRowMore(was: Option<R.Frame>, f: R.Frame, y: nat)
    requires R.SameShape(was, f) && y < |f|
    ensures R.FrameOps(was, f, y + 1)
         == R.FrameOps(was, f, y) + R.RowOps(if was.None? then None else Some(was.value[y]), f[y], y)
  {
    hide R.RowOps;
  }

  /** One cell of the first scan. */
  lemma ScanStep(was: Option<Row>, row: Row, x: nat)
    requires x < |row| && (was.Some? ==> |was.value| == |row|)
    ensures R.FirstChanged(was, row, x) == if R.Changed(was, row, x) then x else R.FirstChanged(was, row, x + 1)
    ensures R.LastChanged(was, row, x + 1) == if R.Changed(was, row, x) then x else R.LastChanged(was, row, x)
  {
  }

  lemma ScanEnds(was: Option<Row>, row: Row)
    requires was.Some? ==> |was.value| == |row|
    ensures R.FirstChanged(was, row, |row|) == -1 && R.LastChanged(was, row, 0) == -1
  {
  }

  /** One cell of the second scan, after what has been written. */
  lemma DrawStep(row: Row, x: nat, last: int, cur: Option<Style>, ops: seq<Op>)
    requires last < |row|
    ensures ops + R.Emit(row, x, last, cur)
         == if last < x then ops
            else if row[x].cont then ops + R.Emit(row, x + 1, last, cur)
            else ops + (if cur == Some(row[x].st) then [] else [SetStyle(row[x].st)])
                 + [Put(if row[x].r == 0 then SPACE else row[x].r)] + R.Emit(row, x + 1, last, Some(row[x].st))
  {
  }


  class Screen {
    var W: int
    var H: int
    var cells: array<Cell>

    ghost predicate Valid()
      reads this
    {
      1 <= W && 1 <= H && cells.Length == W * H
    }

    /** The frame held by the buffer. */
    ghost function Frame(): R.Frame
      requires Valid()
      reads this, cells
    {
      Rows(cells[..], W, H)
    }

    constructor (w: int, h: int)
      ensures Valid() && fresh(cells)
      ensures W == (if w < 1 then 1 else w) && H == (if h < 1 then 1 else h)
      ensures forall i :: 0 <= i < cells.Length ==> cells[i] == EMPTY
    {
      W, H := 1, 1;
      cells := new Cell[1] (_ => EMPTY);
      new;
      Resize(w, h);
    }

    method Resize(w: int, h: int)
      modifies this
      ensures Valid() && fresh(cells)
      ensures W == (if w < 1 then 1 else w) && H == (if h < 1 then 1 else h)
      ensures forall i :: 0 <= i < cells.Length ==> cells[i] == EMPTY
    {
      W := if w < 1 then 1 else w;
      H := if h < 1 then 1 else h;
      RowInside(0, W, H);
      cells := new Cell[W * H](_ => EMPTY);
    }

    method Clear()
      requires Valid()
      modifies cells
      ensures forall i :: 0 <= i < cells.Length ==> cells[i] == EMPTY
      ensures R.WellFormedFrame(Frame(), W, H)
    {
      for i := 0 to cells.Length
        invariant forall k :: 0 <= k < i ==> cells[k] == EMPTY
      {
        cells[i] := EMPTY;
      }
      forall y | 0 <= y < H
        ensures R.WellFormed(Frame()[y])
      {
        RowInside(y, W, H);
        var row := Frame()[y];
        forall i | 0 <= i < |row|
          ensures R.WellPlaced(row, i)
        {
          assert row[i] == EMPTY && (0 < i ==> row[i - 1] == EMPTY);
        }
      }
    }

    /** Writes one rune; outside the buffer nothing happens. */
    method Set(x: int, y: int, r: int, st: Style)
      requires Valid()
      modifies cells
      ensures !(0 <= x < W && 0 <= y < H) ==> Frame() == old(Frame())
      ensures 0 <= x < W && 0 <= y < H ==>
                Frame() == old(Frame())[y := SetRow(old(Frame())[y], x, r, st)]
    {
      ghost var was := Frame();
      if x < 0 || y < 0 || x >= W || y >= H {
        return;
      }
      var ru := if r == 0 then SPACE else r;
      var w := RuneWidth(ru);
      if w == 0 {
        ru := SPACE;
        w := 1;
      }
      WriteOneCell(cells[..], x, y, W, H, Cell(ru, st, false));
      var i := y * W + x;
      ghost var c0 := cells[..];
      cells[i] := Cell(ru, st, false);
      assert cells[..] == c0[i := Cell(ru, st, false)];
      if w == 2 && x + 1 < W {
        WriteOneCell(cells[..], x + 1, y, W, H, Cell(0, st, true));
        ghost var c1 := cells[..];
        cells[i + 1] := Cell(0, st, true);
        assert cells[..] == c1[i + 1 := Cell(0, st, true)];
      }
    }

    /** Draws a string on row y from column x and returns the next free column. */
    method Text(x: int, y: int, str: seq<int>, st: Style) returns (end: int)
      requires Valid()
      modifies cells
      ensures end == TextEnd(W, x, str)
      ensures !(0 <= y < H) ==> Frame() == old(Frame())
      ensures 0 <= y < H ==> Frame() == old(Frame())[y := TextRow(old(Frame())[y], x, str, st)]
    {
      end := x;
      ghost var f := Frame();
      for i := 0 to |str|
        invariant TextEnd(W, end, str[i..]) == TextEnd(W, x, str)
        invariant !(0 <= y < H) ==> Frame() == f
        invariant 0 <= y < H ==> Frame() == f[y := Frame()[y]]
        invariant 0 <= y < H ==> TextRow(Frame()[y], end, str[i..], st) == TextRow(f[y], x, str, st)
      {
        var r := str[i];
        assert str[i..][0] == r && str[i..][1..] == str[i + 1..];
        if r == NEWLINE {
          continue;
        }
        var w := RuneWidth(r);
        if w == 0 {
          continue;
        }
        if end >= W {
          break;
        }
        Set(end, y, r, st);
        end := end + w;
      }
    }

    lemma CellAt(y: nat, x: nat)
      requires Valid() && y < H && x < W
      ensures 0 <= y * W + x < cells.Length && Frame()[y][x] == cells[y * W + x]
    {
      RowInside(y, W, H);
    }

    /** The first scan of `Render`: the changed columns of row y. */
    method Scan(prev: Screen?, y: nat) returns (first: int, last: int)
      requires Valid() && y < H && (prev != null ==> prev.Valid() && prev.W == W && prev.H == H)
      ensures first == R.FirstChanged(if prev == null then None else Some(prev.Frame()[y]), Frame()[y], 0)
      ensures last == R.LastChanged(if prev == null then None else Some(prev.Frame()[y]), Frame()[y], W)
    {
      hide R.FirstChanged, R.LastChanged, Rows, RowIn;
      ghost var row, was := Frame()[y], if prev == null then None else Some(prev.Frame()[y]);
      ScanEnds(was, row);
      first, last := -1, -1;
      for x := 0 to W
        invariant first < 0 ==> R.FirstChanged(was, row, 0) == R.FirstChanged(was, row, x)
        invariant 0 <= first ==> first == R.FirstChanged(was, row, 0)
        invariant last == R.LastChanged(was, row, x)
        invariant first < 0 ==> first == -1
      {
        ScanStep(was, row, x);
        CellAt(y, x);
        if prev != null {
          prev.CellAt(y, x);
        }
        var i := y * W + x;
        if cells[i].cont {
          continue;
        }
        if prev == null || prev.cells[i] != cells[i] {
          if first < 0 {
            first := x;
          }
          last := x;
        }
      }
    }

    /** The second scan of `Render`: columns first..last of row y. */
    method Draw(y: nat, first: nat, last: int) returns (ops: seq<Op>)
      requires Valid() && y < H && last < W
      ensures ops == R.Emit(Frame()[y], first, last, None)
    {
      hide R.Emit, R.Restyle;
      RowInside(y, W, H);
      ops := [];
      ghost var row := Frame()[y];
      var cur, haveStyle := PLAIN, false;
      var x := first;
      while x <= last
        invariant 0 <= x
        invariant ops + R.Emit(row, x, last, if haveStyle then Some(cur) else None)
                  == R.Emit(row, first, last, None)
      {
        var c := cells[y * W + x];
        DrawStep(row, x, last, if haveStyle then Some(cur) else None, ops);
        x := x + 1;
        if c.cont {
          continue;
        }
        if !haveStyle || c.st != cur {
          ops := ops + [SetStyle(c.st)];
          cur, haveStyle := c.st, true;
        }
        if c.r == 0 {
          ops := ops + [Put(SPACE)];
          continue;
        }
        ops := ops + [Put(c.r)];
      }
      DrawStep(row, x, last, if haveStyle then Some(cur) else None, ops);
    }

    /** One iteration of `Render` over the rows. */
    method RenderRow(prev: Screen?, y: nat) returns (ops: seq<Op>)
      requires Valid() && y < H && (prev != null ==> prev.Valid() && prev.W == W && prev.H == H)
      ensures ops == R.RowOps(if prev == null then None else Some(prev.Frame()[y]), Frame()[y], y)
    {
      var first, last := Scan(prev, y);
      if first < 0 {
        return [];
      }
      var body := Draw(y, first, last);
      ops := [MoveTo(y + 1, first + 1)] + body;
    }

    /** The rows of an update, top down. */
    method RenderRows(prev: Screen?) returns (ops: seq<Op>)
      requires Valid() && (prev != null ==> prev.Valid() && prev.W == W && prev.H == H)
      ensures ops == R.FrameOps(if prev == null then None else Some(prev.Frame()), Frame(), H)
    {
      hide R.FrameOps, R.RowOps, Rows, RowIn;
      ops := [];
      ghost var was := if prev == null then None else Some(prev.Frame());
      NoRowsYet(was, Frame());
      for y := 0 to H
        invariant ops == R.FrameOps(was, Frame(), y)
      {
        var row := RenderRow(prev, y);
        OneRowMore(was, Frame(), y);
        ops := ops + row;
      }
    }

    /**
     The update against `prev`, or a full repaint when asked for, when there is no previous
     frame, or when its size differs. What it writes is `RenderOps` of the two frames.
     */
    method Render(prev: Screen?, full: bool) returns (ops: seq<Op>)
      requires Valid() && (prev != null ==> prev.Valid())
      ensures full || prev == null || prev.W != W || prev.H != H ==> ops == R.RenderOps(None, Frame())
      ensures !full && prev != null && prev.W == W && prev.H == H ==>
                ops == R.RenderOps(Some(prev.Frame()), Frame())
    {
      ops := [];
      var p := prev;
      if full || p == null || p.W != W || p.H != H {
        ops := [Erase];
        p := null;
      }
      var rows := RenderRows(p);
      ops := ops + rows + [SetStyle(PLAIN)];
    }
  }
}
