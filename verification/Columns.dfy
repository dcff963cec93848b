/** Table columns: their widths (internal/tui/table.go) and the text fitted into them (internal/tui/screen.go). */
module Columns {
  import opened Glyphs

  /** A column is fixed when its width is positive, and flexible otherwise. */
  datatype Column = Column(width: int, right: bool, center: bool)

  const LEAST := 3

  predicate Flexible(c: Column) { c.width <= 0 }

  predicate HasFlexible(cols: seq<Column>) {
    exists i :: 0 <= i < |cols| && Flexible(cols[i])
  }

  function Sum(s: seq<int>): int {
    if s == [] then 0 else Sum(s[..|s| - 1]) + s[|s| - 1]
  }

  /** Cells a row of the table takes: a border, and for each column its text, two blanks and a border. */
  function Span(widths: seq<int>): int { Sum(widths) + 3 * |widths| + 1 }

  predicate AllLeast(s: seq<int>) {
    forall i :: 0 <= i < |s| ==> s[i] <= LEAST
  }

  lemma SumSnoc(s: seq<int>, v: int)
    ensures Sum(s + [v]) == Sum(s) + v
  {
    assert (s + [v])[..|s|] == s;
  }

  lemma {:induction false} SumUpdate(s: seq<int>, i: nat, v: int)
    requires i < |s|
    ensures Sum(s[i := v]) == Sum(s) - s[i] + v
  {
    var n := |s| - 1;
    if i == n {
      assert s[i := v][..n] == s[..n];
    } else {
      SumUpdate(s[..n], i, v);
      assert s[i := v][..n] == s[..n][i := v];
    }
  }

  lemma NoSum()
    ensures Sum([]) == 0
  {
  }

  lemma SumStep(s: seq<int>, i: nat)
    requires i < |s|
    ensures Sum(s[..i + 1]) == Sum(s[..i]) + s[i]
  {
    assert s[..i + 1] == s[..i] + [s[i]];
    SumSnoc(s[..i], s[i]);
  }

  // ---- clipping -----------------------------------------------------------

  /** The first of the widest columns above the least width, or -1. */
  method Widest(widths: array<int>) returns (best: int)
    ensures best == -1 <==> AllLeast(widths[..])
    ensures best == -1 || (0 <= best < widths.Length && LEAST < widths[best])
    ensures best != -1 ==> forall j :: 0 <= j < widths.Length ==> widths[j] <= widths[best]
  {
    best := -1;
    for i := 0 to widths.Length
      invariant best == -1 || (0 <= best < i && LEAST < widths[best])
      invariant best == -1 ==> forall j :: 0 <= j < i ==> widths[j] <= LEAST
      invariant best != -1 ==> forall j :: 0 <= j < i ==> widths[j] <= widths[best]
    {
      if widths[i] <= LEAST {
        continue;
      }
      if best < 0 || widths[best] < widths[i] {
        best := i;
      }
    }
    assert best != -1 ==> widths[..][best] == widths[best];
  }

  /** What clipping may do to columns: narrow some of the widest, none below the least. */
  predicate Clipped(before: seq<int>, after: seq<int>) {
    && |after| == |before|
    && (forall i :: 0 <= i < |after| ==> after[i] <= before[i])
    && (forall i, j :: 0 <= i < |after| && 0 <= j < |after| && after[i] < before[i] ==>
          LEAST <= after[i] && after[j] <= after[i] + 1)
  }

  lemma ClipStep(before: seq<int>, s: seq<int>, b: nat)
    requires Clipped(before, s) && b < |s| && LEAST < s[b]
    requires forall j :: 0 <= j < |s| ==> s[j] <= s[b]
    ensures Clipped(before, s[b := s[b] - 1])
  {
  }

  method Clip(widths: array<int>, total: int)
    modifies widths
    ensures Clipped(old(widths[..]), widths[..])
    ensures Span(old(widths[..])) <= total ==> widths[..] == old(widths[..])
    ensures total < Span(old(widths[..])) ==> Span(widths[..]) == total || (total < Span(widths[..]) && AllLeast(widths[..]))
  {
    hide Sum;
    var n := widths.Length;
    ghost var before := widths[..];
    assert Sum(before[..0]) == 0 by { NoSum(); }
    var over := 0;
    for i := 0 to n
      invariant widths[..] == before && over == Sum(before[..i])
    {
      SumStep(before, i);
      over := over + widths[i];
    }
    assert before[..n] == before;
    over := over + 3 * n + 1 - total;
    while 0 < over
      invariant Clipped(before, widths[..])
      invariant over == Span(widths[..]) - total
      invariant over <= 0 ==> over == 0 || widths[..] == before
      invariant Span(before) <= total ==> widths[..] == before
      decreases over
    {
      var best := Widest(widths);
      if best < 0 {
        break;
      }
      ghost var s := widths[..];
      SumUpdate(s, best, s[best] - 1);
      ClipStep(before, s, best);
      widths[best] := widths[best] - 1;
      assert widths[..] == s[best := s[best] - 1];
      over := over - 1;
    }
  }

  // ---- sharing out --------------------------------------------------------

  /** The widest flexible column, or -1. */
  method WidestFlexible(cols: seq<Column>, widths: array<int>) returns (best: int)
    requires widths.Length == |cols|
    ensures -1 <= best < |cols| && (0 <= best ==> Flexible(cols[best]))
    ensures best == -1 <==> !HasFlexible(cols)
    ensures 0 <= best ==> forall j :: 0 <= j < |cols| && Flexible(cols[j]) ==> widths[j] <= widths[best]
  {
    best := -1;
    for i := 0 to |cols|
      invariant -1 <= best < i && (0 <= best ==> Flexible(cols[best]))
      invariant 0 <= best ==> forall j :: 0 <= j < i && Flexible(cols[j]) ==> widths[j] <= widths[best]
      invariant best == -1 ==> forall j :: 0 <= j < i ==> !Flexible(cols[j])
    {
      if 0 < cols[i].width {
        continue;
      }
      if best < 0 || widths[best] < widths[i] {
        best := i;
      }
    }
  }

  function Max(a: int, b: int): int { if a < b then b else a }

  /** Fixed columns as asked, flexible ones at least the least width. */
  predicate Placed(cols: seq<Column>, w: seq<int>) {
    && |w| == |cols|
    && forall i :: 0 <= i < |w| ==> if Flexible(cols[i]) then LEAST <= w[i] else w[i] == cols[i].width
  }

  /** Widths before clipping; the shares stand for whatever the division of the leftover gives. */
  method Share(cols: seq<Column>, total: int, shares: seq<int>) returns (widths: array<int>)
    requires |shares| == |cols|
    ensures fresh(widths) && Placed(cols, widths[..])
    ensures HasFlexible(cols) ==> total <= Span(widths[..])
  {
    var n := |cols|;
    var avail := total - 3 * n - 1;
    if avail < n {
      avail := n;
    }
    widths := new int[n](_ => 0);
    var fixed := 0;
    for i := 0 to n
      invariant fixed == Sum(widths[..i])
      invariant forall j :: 0 <= j < n ==> widths[j] == if j < i && !Flexible(cols[j]) then cols[j].width else 0
    {
      ghost var before := widths[..i];
      if 0 < cols[i].width {
        widths[i] := cols[i].width;
        fixed := fixed + cols[i].width;
      }
      assert widths[..i + 1] == before + [widths[i]];
      SumSnoc(before, widths[i]);
    }
    assert widths[..n] == widths[..];
    var shared := 0;
    for i := 0 to n
      invariant fixed + shared == Sum(widths[..])
      invariant forall j :: 0 <= j < n ==>
                  if !Flexible(cols[j]) then widths[j] == cols[j].width
                  else if j < i then LEAST <= widths[j] else widths[j] == 0
    {
      if 0 < cols[i].width {
        continue;
      }
      var share := shares[i];
      if share < LEAST {
        share := LEAST;
      }
      ghost var before := widths[..];
      SumUpdate(before, i, share);
      widths[i] := share;
      assert widths[..] == before[i := share];
      shared := shared + share;
    }
    var drift := avail - fixed - shared;
    if drift != 0 {
      var best := WidestFlexible(cols, widths);
      if 0 <= best {
        ghost var s := widths[..];
        var corrected := widths[best] + drift;
        if corrected < LEAST {
          corrected := LEAST;
        }
        SumUpdate(s, best, corrected);
        widths[best] := corrected;
        assert widths[..] == s[best := corrected];
      }
    }
  }

  /**
   columnWidths. With a flexible column the table is exactly `total` cells wide unless no column has
   more than 3; a flexible column never has less; and a fixed column is narrowed only while it is,
   give or take one cell, as wide as any.
   */
  method ColumnWidths(cols: seq<Column>, total: int, shares: seq<int>) returns (r: seq<int>)
    requires |shares| == |cols|
    ensures |r| == |cols|
    ensures HasFlexible(cols) ==> Span(r) == total || (total < Span(r) && AllLeast(r))
    ensures !HasFlexible(cols) ==> Span(r) <= total || AllLeast(r)
    ensures forall i :: 0 <= i < |r| && Flexible(cols[i]) ==> LEAST <= r[i]
    ensures forall i :: 0 <= i < |r| && !Flexible(cols[i]) ==> r[i] <= cols[i].width
    ensures forall i, j :: 0 <= i < |r| && 0 <= j < |r| && !Flexible(cols[i]) && r[i] < cols[i].width ==>
              LEAST <= r[i] && r[j] <= r[i] + 1
    ensures !HasFlexible(cols) && Span(seq(|cols|, i requires 0 <= i < |cols| => cols[i].width)) <= total ==>
              forall i :: 0 <= i < |r| ==> r[i] == cols[i].width
  {
    hide Sum;
    var widths := Share(cols, total, shares);
    ghost var placed := widths[..];
    if !HasFlexible(cols) {
      assert placed == seq(|cols|, i requires 0 <= i < |cols| => cols[i].width);
    }
    Clip(widths, total);
    r := widths[..];
    forall i | 0 <= i < |r| && Flexible(cols[i]) ensures LEAST <= r[i] {
      assert r[i] < placed[i] || r[i] == placed[i];
    }
  }

  // ---- text in a cell -----------------------------------------------------

  const ELLIPSIS := 0x2026

  function Spaces(n: nat): (s: seq<int>)
    ensures |s| == n
  {
    seq(n, _ => SPACE)
  }

  /** The longest beginning that takes at most `room` cells. */
  function Prefix(s: seq<int>, room: int): nat {
    if s == [] || room < RuneWidth(s[0]) then 0 else 1 + Prefix(s[1..], room - RuneWidth(s[0]))
  }

  lemma {:induction false} PrefixIsLongest(s: seq<int>, room: int)
    requires 0 <= room
    ensures Prefix(s, room) <= |s| && TextWidth(s[..Prefix(s, room)]) <= room
    ensures Prefix(s, room) < |s| ==> room < TextWidth(s[..Prefix(s, room) + 1])
  {
    hide RuneWidth;
    if s == [] || room < RuneWidth(s[0]) {
      assert s != [] ==> s[..1][1..] == [];
    } else {
      var k := Prefix(s[1..], room - RuneWidth(s[0]));
      PrefixIsLongest(s[1..], room - RuneWidth(s[0]));
      assert s[..1 + k][1..] == s[1..][..k];
      if 1 + k < |s| {
        assert s[..2 + k][1..] == s[1..][..k + 1];
      }
    }
  }

  /** Truncate: the loop over the runes until one does not fit before the ellipsis. */
  method Truncate(s: seq<int>, width: int) returns (t: seq<int>)
    ensures t == Shortened(s, width)
  {
    hide RuneWidth, TextWidth;
    if width <= 0 {
      return [];
    }
    if TextWidth(s) <= width {
      return s;
    }
    t := [];
    var w, i := 0, 0;
    while i < |s|
      invariant i <= |s| && t == s[..i]
      invariant i + Prefix(s[i..], width - 1 - w) == Prefix(s, width - 1)
    {
      var rw := RuneWidth(s[i]);
      if width - 1 < w + rw {
        break;
      }
      assert s[i..][1..] == s[i + 1..];
      t := t + [s[i]];
      w := w + rw;
      i := i + 1;
    }
    t := t + [ELLIPSIS];
  }

  function Shortened(s: seq<int>, width: int): (t: seq<int>) {
    if width <= 0 then []
    else if TextWidth(s) <= width then s
    else
      var k := Prefix(s, width - 1);
      if k <= |s| then s[..k] + [ELLIPSIS] else s
  }

  datatype Align = Left | Right | Center

  function AlignOf(c: Column): Align { if c.right then Right else if c.center then Center else Left }

  /** Pad, PadLeft and PadCenter over a shortened text. */
  function Fitted(t: seq<int>, width: int, a: Align): seq<int> {
    var w := TextWidth(t);
    if width <= w then t
    else
      match a
      case Left => t + Spaces(width - w)
      case Right => Spaces(width - w) + t
      case Center => Spaces((width - w) / 2) + t + Spaces(width - w - (width - w) / 2)
  }

  /** fitCell: the shortened text, with the blanks in front on the right, behind on the left, and halved in the centre. */
  method FitCell(c: Column, text: seq<int>, width: int) returns (cell: seq<int>)
    ensures cell == Fitted(Shortened(text, width), width, AlignOf(c))
    ensures TextWidth(cell) == Max(width, 0)
    ensures var t := Shortened(text, width);
            var gap := Max(width, 0) - TextWidth(t);
            && 0 <= gap
            && var before := if c.right then gap else if c.center then gap / 2 else 0;
               cell == Spaces(before) + t + Spaces(gap - before)
  {
    hide TextWidth;
    ShortenedFits(text, width);
    NoSpaces();
    var t := Truncate(text, width);
    cell := Fitted(t, width, AlignOf(c));
    CellIsExact(text, width, AlignOf(c));
  }

  lemma NoSpaces()
    ensures Spaces(0) == []
  {
  }

  lemma {:induction false} SpacesWidth(n: nat)
    ensures TextWidth(Spaces(n)) == n
  {
    if 0 < n {
      assert Spaces(n)[1..] == Spaces(n - 1);
      SpacesWidth(n - 1);
    }
  }

  lemma ShortenedFits(s: seq<int>, width: int)
    ensures TextWidth(Shortened(s, width)) <= Max(width, 0)
  {
    if 0 < width < TextWidth(s) {
      var k := Prefix(s, width - 1);
      PrefixIsLongest(s, width - 1);
      TextWidthConcat(s[..k], [ELLIPSIS]);
      assert [ELLIPSIS][1..] == [];
    }
  }

  /** Whatever its text, alignment and width, a cell takes exactly its width: borders line up. */
  lemma CellIsExact(s: seq<int>, width: int, a: Align)
    ensures TextWidth(Fitted(Shortened(s, width), width, a)) == Max(width, 0)
  {
    hide Shortened, TextWidth;
    ShortenedFits(s, width);
    var t := Shortened(s, width);
    var w := TextWidth(t);
    if w < width {
      var gap := width - w;
      SpacesWidth(gap);
      SpacesWidth(gap / 2);
      SpacesWidth(gap - gap / 2);
      TextWidthConcat(t, Spaces(gap));
      TextWidthConcat(Spaces(gap), t);
      TextWidthConcat(Spaces(gap / 2), t);
      TextWidthConcat(Spaces(gap / 2) + t, Spaces(gap - gap / 2));
    }
  }

  lemma ShortenedSplits(s: seq<int>, width: int)
    requires 0 < width < TextWidth(s)
    ensures var k := Prefix(s, width - 1);
            k < |s| && Shortened(s, width) == s[..k] + [ELLIPSIS] && width - 1 < TextWidth(s[..k + 1])
  {
    hide TextWidth, Prefix;
    var k := Prefix(s, width - 1);
    PrefixIsLongest(s, width - 1);
    assert s[..|s|] == s;
  }

  /** Only what does not fit is shortened, and by no more than the ellipsis needs. */
  lemma ShortenedIsLongest(s: seq<int>, width: int)
    requires 0 < width
    ensures Shortened(s, width) == s <==> TextWidth(s) <= width
    ensures width < TextWidth(s) ==>
              var k := Prefix(s, width - 1);
              k < |s| && Shortened(s, width) == s[..k] + [ELLIPSIS] && width - 1 < TextWidth(s[..k + 1])
  {
    hide TextWidth, Prefix;
    if width < TextWidth(s) {
      ShortenedSplits(s, width);
      ShortenedFits(s, width);
    }
  }
}
