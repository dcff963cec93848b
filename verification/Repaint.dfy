/** What an update makes of a terminal that does not show the old frame, as after an ill-formed one (internal/tui/screen.go). */
module Repaint {
  import opened Wrappers
  import opened Glyphs
  import opened Terminal
  import opened Renderer

  // ---- one row ------------------------------------------------------------

  /** Column i of a row over `base` after columns `first` to `last` of `row` are redrawn; a half cut off at either end is blanked. */
  function CellAfter(keeps: bool, base: Row, row: Row, first: nat, last: nat, i: nat): Cell
    requires first <= last < |row| == |base| && i < |row|
  {
    var e := last + CellWidth(row[last]);
    var b := base[i];
    if first <= i < e then Shown(row[i])
    else if i == e && b.cont then Cell(SPACE, if keeps then b.st else row[last].st, false)
    else if i + 1 == first && base[first].cont then Cell(SPACE, if keeps then b.st else row[first].st, false)
    else b
  }

  function RowAfter(keeps: bool, was: Row, row: Row, base: Row): (out: Row)
    requires |was| == |row| == |base|
    ensures |out| == |row|
  {
    var first, last := FirstChanged(Some(was), row, 0), LastChanged(Some(was), row, |row|);
    if first < 0 || last < first then base
    else seq(|row|, i requires 0 <= i < |row| => CellAfter(keeps, base, row, first, last, i))
  }

  /** The row with the half that the first glyph cuts off already blanked. */
  function Cut(keeps: bool, base: Row, x: nat, st: Style): (out: Row)
    requires x < |base|
    ensures |out| == |base|
  {
    if !base[x].cont then base
    else
      var a := if 0 < x then base[x - 1 := Cell(SPACE, if keeps then base[x - 1].st else st, false)] else base;
      a[x := base[x].(cont := false)]
  }

  /** The first glyph comes to the same over the row so prepared. */
  lemma CutFirst(t: Term, r: int)
    requires t.Valid() && t.col < t.w && 1 <= RuneWidth(r) && t.col + RuneWidth(r) <= t.w && RuneWidth(r) <= 2
    ensures var cut := Cut(t.keepsStyle, t.rows[t.row], t.col, t.st);
            t.(rows := t.rows[t.row := cut]).Step(Put(r)) == t.Step(Put(r))
  {
    hide RuneWidth;
    var x, k, base := t.col, RuneWidth(r), t.rows[t.row];
    var cut := Cut(t.keepsStyle, base, x, t.st);
    var u := t.(rows := t.rows[t.row := cut]);
    assert u.Overwrite(cut, x, r, k) == t.Overwrite(base, x, r, k);
    assert u.rows[t.row := u.Overwrite(cut, x, r, k)] == t.rows[t.row := t.Overwrite(base, x, r, k)];
  }

  function Goal(base: Row, row: Row, x: nat): Row
    requires x <= |row| == |base|
  {
    base[..x] + ShownRow(row)[x..]
  }

  lemma CutIsPainted(keeps: bool, base: Row, row: Row, x: nat, st: Style)
    requires x < |row| == |base|
    ensures var cut := Cut(keeps, base, x, st);
            Painted(cut, Goal(cut, row, x), cut, x) && AimsAt(Goal(cut, row, x), row, x)
  {
  }

  /** The stretch is emitted alike over the prepared row. */
  lemma EmitOverCut(t: Term, row: Row, x: nat, last: nat)
    requires t.Valid() && WellFormed(row) && t.w == |row| && t.col == x <= last < |row| && !row[x].cont
    ensures var cut := Cut(t.keepsStyle, t.rows[t.row], x, row[x].st);
            t.(rows := t.rows[t.row := cut]).Run(Emit(row, x, last, None)) == t.Run(Emit(row, x, last, None))
  {
    var st := row[x].st;
    var put := Put(Shown(row[x]).r);
    var rest := Emit(row, x + 1, last, Some(st));
    assert Emit(row, x, last, None) == Restyle(None, st) + [put] + rest;
    EndOfGlyph(row, x);
    GlyphWidth(row, x);
    hide *;
    var u := t.(rows := t.rows[t.row := Cut(t.keepsStyle, t.rows[t.row], x, st)]);
    RunRestyled(t, None, st, put, rest);
    RunRestyled(u, None, st, put, rest);
    CutFirst(t.(st := st), put.r);
  }

  lemma GlyphWidth(row: Row, x: nat)
    requires WellFormed(row) && x < |row| && !row[x].cont
    ensures RuneWidth(Shown(row[x]).r) == CellWidth(row[x]) && 1 <= CellWidth(row[x]) <= 2
  {
    EndOfGlyph(row, x);
  }

  /** One row of an update, whatever the terminal showed in it and whatever the old frame was. */
  lemma RowLeaves(t: Term, row: Row, was: Row, y: nat)
    requires t.Valid() && y < |t.rows| && |row| == |was| == t.w && WellFormed(row)
    ensures t.Run(RowOps(Some(was), row, y)).rows == t.rows[y := RowAfter(t.keepsStyle, was, row, t.rows[y])]
  {
    hide WellFormed, Painted, Emit, Term.Run, FirstChanged, LastChanged, RuneWidth, Cut, Goal, AimsAt, CellWidth;
    var first, last := FirstChanged(Some(was), row, 0), LastChanged(Some(was), row, |row|);
    if first < 0 {
      NothingRun(t);
    } else {
      assert first <= last;
      var base := t.rows[y];
      var cut := Cut(t.keepsStyle, base, first, row[first].st);
      var goal := Goal(cut, row, first);
      var e := Emit(row, first, last, None);
      var t1 := t.Step(MoveTo(y + 1, first + 1));
      RunCons(t, MoveTo(y + 1, first + 1), e);
      EmitOverCut(t1, row, first, last);
      CutIsPainted(t.keepsStyle, base, row, first, row[first].st);
      EndOfGlyph(row, last);
      var t2 := t1.(rows := t1.rows[y := cut]);
      PaintRow(t2, row, goal, cut, first, last, None);
      StretchIsRow(t2.Run(e), row, base, first, last);
      assert t2.Run(e).rows[y] == RowAfter(t.keepsStyle, was, row, base);
    }
  }

  lemma StretchIsRow(u: Term, row: Row, base: Row, first: nat, last: nat)
    requires u.Valid() && first <= last < |row| == |base| == u.w && u.st == row[last].st
    requires 1 <= CellWidth(row[last])
    requires var cut := Cut(u.keepsStyle, base, first, row[first].st);
             var e := last + CellWidth(row[last]);
             e <= |row| && Painted(u.rows[u.row], Goal(cut, row, first), cut, e) && EdgeIs(u, cut, e)
    ensures forall i :: 0 <= i < |row| ==> u.rows[u.row][i] == CellAfter(u.keepsStyle, base, row, first, last, i)
  {
    hide RuneWidth;
  }

  // ---- whole frames -------------------------------------------------------

  /** Row y after the update. */
  ghost function Left(t: Term, was: Frame, f: Frame, y: nat): Row
    requires t.Valid() && Sized(was, t.w, |t.rows|) && Sized(f, t.w, |t.rows|) && y < |f|
  {
    RowAfter(t.keepsStyle, was[y], f[y], t.rows[y])
  }

  lemma {:induction false} FrameLeaves(t: Term, was: Frame, f: Frame, y: nat)
    requires t.Valid() && Sized(was, t.w, |t.rows|) && WellFormedFrame(f, t.w, |t.rows|) && y <= |f|
    ensures SameShape(Some(was), f)
    ensures var u := t.Run(FrameOps(Some(was), f, y));
            && (forall k :: 0 <= k < y ==> u.rows[k] == Left(t, was, f, k))
            && (forall k :: y <= k < |f| ==> u.rows[k] == t.rows[k])
  {
    hide WellFormed, RowAfter, RowOps;
    if 0 < y {
      var k := y - 1;
      FrameLeaves(t, was, f, k);
      var u := t.Run(FrameOps(Some(was), f, k));
      RowLeaves(u, f[k], was[k], k);
      RunConcat(t, FrameOps(Some(was), f, k), RowOps(Some(was[k]), f[k], k));
    }
  }

  /**
   An update to a well-formed frame, against any old frame and over any terminal, shows the new frame if and
   only if every row does that is left: the cells not redrawn are already right, or are blanks that stand for
   a half cut off.
   */
  lemma UpdateShowsExactly(t: Term, was: Frame, f: Frame)
    requires t.Valid() && Sized(was, t.w, |t.rows|) && WellFormedFrame(f, t.w, |t.rows|)
    ensures SameShape(Some(was), f)
    ensures Shows(t.Run(RenderOps(Some(was), f)), f)
        <==> forall y :: 0 <= y < |f| ==> Left(t, was, f, y) == ShownRow(f[y])
  {
    hide WellFormed, RowAfter;
    FrameLeaves(t, was, f, |f|);
    var ops := FrameOps(Some(was), f, |f|);
    assert [] + ops == ops;
    ResetKeepsRows(t, ops);
  }

  /**
   In any chain of draws, ill-formed frames among them, a well-formed frame is shown after its draw if and only if
   every row is that its update leaves on what the frames before have made of the terminal.
   */
  lemma ChainHealsExactly(t: Term, frames: seq<Frame>, f: Frame)
    requires t.Valid() && frames != [] && AllSized(frames + [f], t.w, |t.rows|) && WellFormedFrame(f, t.w, |t.rows|)
    ensures AllSized(frames, t.w, |t.rows|) && Sized(frames[|frames| - 1], t.w, |t.rows|) && Sized(f, t.w, |t.rows|)
    ensures var u := t.Run(Draws(frames, t.w, |t.rows|));
            Shows(t.Run(Draws(frames + [f], t.w, |t.rows|)), f)
            <==> forall y :: 0 <= y < |f| ==> Left(u, frames[|frames| - 1], f, y) == ShownRow(f[y])
  {
    hide WellFormed, RowAfter, Shows, RenderOps;
    var all, n := frames + [f], |frames|;
    assert forall i :: 0 <= i < n ==> frames[i] == all[i];
    assert all[..n] == frames && all[n] == f;
    var u := t.Run(Draws(frames, t.w, |t.rows|));
    UpdateShowsExactly(u, frames[n - 1], f);
    RunConcat(t, Draws(frames, t.w, |t.rows|), RenderOps(Some(frames[n - 1]), f));
    assert Draws(all, t.w, |t.rows|) == Draws(frames, t.w, |t.rows|) + RenderOps(Some(frames[n - 1]), f);
  }
}
