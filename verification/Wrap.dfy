/** Wrapping one styled line into rows (internal/tui/views.go, wrapLine). A rune is an integer code point. */
module Wrap {
  import opened Glyphs
  import opened Sequences

  const TAB := 9

  datatype Run = Run(text: seq<int>, st: Style)

  /** A logical line: its runs, or when there are none one text in one style. */
  datatype Line = Line(text: seq<int>, st: Style, runs: seq<Run>)

  datatype Glyph = Glyph(r: int, st: Style)

  function Spans(l: Line): seq<Run> {
    if 0 < |l.runs| then l.runs else [Run(l.text, l.st)]
  }

  function Styled(text: seq<int>, st: Style): (g: seq<Glyph>)
    ensures |g| == |text| && forall i :: 0 <= i < |g| ==> g[i] == Glyph(text[i], st)
  {
    seq(|text|, i requires 0 <= i < |text| => Glyph(text[i], st))
  }

  /** The styled runes of a list of runs. */
  function Flat(runs: seq<Run>): seq<Glyph> {
    if runs == [] then [] else Flat(runs[..|runs| - 1]) + Styled(runs[|runs| - 1].text, runs[|runs| - 1].st)
  }

  function Runes(g: seq<Glyph>): (rs: seq<int>)
    ensures |rs| == |g| && forall i :: 0 <= i < |rs| ==> rs[i] == g[i].r
  {
    seq(|g|, i requires 0 <= i < |g| => g[i].r)
  }

  lemma FlatSnoc(runs: seq<Run>, r: Run)
    ensures Flat(runs + [r]) == Flat(runs) + Styled(r.text, r.st)
  {
    assert (runs + [r])[..|runs|] == runs;
  }

  lemma FlatOne(r: Run)
    ensures Flat([r]) == Styled(r.text, r.st)
  {
    hide Styled;
    assert [r][..0] == [];
    assert Flat([]) == [];
    assert [] + Styled(r.text, r.st) == Styled(r.text, r.st);
  }

  lemma {:induction false} FlatCons(r: Run, runs: seq<Run>)
    ensures Flat([r] + runs) == Styled(r.text, r.st) + Flat(runs)
  {
    hide Styled, Flat;
    if runs == [] {
      FlatOne(r);
      FlatNone();
      assert [r] + runs == [r];
    } else {
      var n := |runs| - 1;
      var first, last := Styled(r.text, r.st), Styled(runs[n].text, runs[n].st);
      FlatCons(r, runs[..n]);
      Assoc([r], runs[..n], [runs[n]]);
      assert runs[..n] + [runs[n]] == runs;
      FlatSnoc([r] + runs[..n], runs[n]);
      FlatSnoc(runs[..n], runs[n]);
      Assoc(first, Flat(runs[..n]), last);
    }
  }

  lemma FlatNone()
    ensures Flat([]) == []
  {
  }

  // ---- where a row ends ---------------------------------------------------

  function Blanks(n: nat): (s: seq<int>)
    ensures |s| == n && forall i :: 0 <= i < n ==> s[i] == SPACE
  {
    seq(n, _ => SPACE)
  }

  function LeadingIndent(rs: seq<int>): (n: nat)
    ensures n <= |rs| && (forall i :: 0 <= i < n ==> rs[i] == SPACE || rs[i] == TAB)
    ensures n < |rs| ==> rs[n] != SPACE && rs[n] != TAB
  {
    if rs == [] || (rs[0] != SPACE && rs[0] != TAB) then 0 else 1 + LeadingIndent(rs[1..])
  }

  /** The indent of continuation rows: the line's own, unless it takes more than half the width. */
  function Hang(rs: seq<int>, width: nat): nat {
    if width / 2 < LeadingIndent(rs) then width / 4 else LeadingIndent(rs)
  }

  /** The longest stretch from `start` that fits, or one rune. */
  predicate Fits(rs: seq<int>, start: nat, limit: int, end: nat) {
    && start < end <= |rs|
    && (TextWidth(rs[start..end]) <= limit || end == start + 1)
    && (end < |rs| ==> limit < TextWidth(rs[start..end + 1]))
  }

  /** The last space strictly between, or -1. */
  function LastSpace(rs: seq<int>, start: nat, end: nat): (k: int)
    requires start <= end <= |rs|
    ensures k == -1 || (start < k < end && rs[k] == SPACE)
    ensures forall i :: start < i < end && k < i ==> rs[i] != SPACE
    decreases end
  {
    if end <= start + 1 then -1
    else if rs[end - 1] == SPACE then end - 1
    else LastSpace(rs, start, end - 1)
  }

  /** Back to the last space when all after it goes into one more row. */
  function WordBreak(rs: seq<int>, start: nat, fit: nat, indent: nat, width: nat): (end: nat)
    requires start < fit <= |rs|
    ensures start < end <= fit
  {
    var k := LastSpace(rs, start, fit);
    if start < k && indent + TextWidth(rs[k + 1..]) <= width then k else fit
  }

  function SkipSpaces(rs: seq<int>, i: nat): (j: nat)
    requires i <= |rs|
    ensures i <= j <= |rs| && (j < |rs| ==> rs[j] != SPACE)
    ensures forall k :: i <= k < j ==> rs[k] == SPACE
    decreases |rs| - i
  {
    if i < |rs| && rs[i] == SPACE then SkipSpaces(rs, i + 1) else i
  }

  function CutAt(rs: seq<int>, start: nat, fit: nat, indent: nat, width: nat): (end: nat)
    requires start < fit <= |rs|
    ensures start < end <= |rs|
  {
    if fit < |rs| then SkipSpaces(rs, WordBreak(rs, start, fit, indent, width)) else fit
  }

  function Limit(k: nat, indent: nat, width: nat): int {
    if k == 0 then width else width - indent
  }

  ghost predicate RowSpan(rs: seq<int>, k: nat, indent: nat, width: nat, start: nat, end: nat) {
    exists fit: nat :: Fits(rs, start, Limit(k, indent, width), fit) && end == CutAt(rs, start, fit, indent, width)
  }

  // ---- rows ---------------------------------------------------------------

  /** Neighbouring runs differ in style and none is empty: as few runs as there can be. */
  predicate Grouped(runs: seq<Run>) {
    && (forall i :: 0 <= i < |runs| ==> runs[i].text != [])
    && (forall i :: 0 < i < |runs| ==> runs[i - 1].st != runs[i].st)
  }

  /** A row's own runs: all but the pad of a continuation row. */
  function Own(row: seq<Run>, k: nat): seq<Run> {
    if k == 0 || row == [] then row else row[1..]
  }

  /** What the rows hold, pads dropped. */
  function Content(out: seq<seq<Run>>): seq<Glyph> {
    if out == [] then []
    else Content(out[..|out| - 1]) + Flat(Own(out[|out| - 1], |out| - 1))
  }

  function At(out: seq<seq<Run>>, k: nat): nat
    requires k <= |out|
  {
    |Content(out[..k])|
  }

  ghost predicate RowOk(rs: seq<int>, indent: nat, width: nat, out: seq<seq<Run>>, k: nat)
    requires k < |out|
  {
    && RowSpan(rs, k, indent, width, At(out, k), At(out, k + 1))
    && (0 < k ==> out[k] != [] && out[k][0] == Run(Blanks(indent), PLAIN))
    && Grouped(Own(out[k], k))
  }

  ghost predicate RowsOk(rs: seq<int>, indent: nat, width: nat, out: seq<seq<Run>>) {
    forall k :: 0 <= k < |out| ==> RowOk(rs, indent, width, out, k)
  }

  lemma ContentSnoc(out: seq<seq<Run>>, row: seq<Run>)
    ensures Content(out + [row]) == Content(out) + Flat(Own(row, |out|))
    ensures At(out + [row], |out|) == |Content(out)| && At(out + [row], |out| + 1) == |Content(out + [row])|
  {
    assert (out + [row])[..|out|] == out;
    assert (out + [row])[..|out| + 1] == out + [row];
  }

  lemma RowsSnoc(rs: seq<int>, indent: nat, width: nat, out: seq<seq<Run>>, row: seq<Run>)
    requires RowsOk(rs, indent, width, out) && RowOk(rs, indent, width, out + [row], |out|)
    ensures RowsOk(rs, indent, width, out + [row])
  {
    hide RowSpan, Grouped, Content;
    var next := out + [row];
    forall k | 0 <= k < |next| ensures RowOk(rs, indent, width, next, k) {
      if k < |out| {
        assert RowOk(rs, indent, width, out, k);
        assert next[..k] == out[..k] && next[..k + 1] == out[..k + 1] && next[k] == out[k];
      }
    }
  }

  // ---- fit ----------------------------------------------------------------

  function Stripped(s: seq<int>): seq<int> {
    if s != [] && s[|s| - 1] == SPACE then Stripped(s[..|s| - 1]) else s
  }

  lemma {:induction false} StrippedWidth(a: seq<int>, n: nat)
    ensures TextWidth(Stripped(a + Blanks(n))) <= TextWidth(a)
    decreases n, |a|
  {
    var s := a + Blanks(n);
    if n == 0 {
      assert s == a;
      if a != [] && a[|a| - 1] == SPACE {
        var b := a[..|a| - 1];
        assert a == b + [SPACE];
        TextWidthConcat(b, [SPACE]);
        assert b + Blanks(0) == b;
        StrippedWidth(b, 0);
      }
    } else {
      assert s[..|s| - 1] == a + Blanks(n - 1);
      StrippedWidth(a, n - 1);
    }
  }

  lemma {:induction false} BlanksWidth(n: nat)
    ensures TextWidth(Blanks(n)) == n
  {
    if 0 < n {
      assert Blanks(n)[1..] == Blanks(n - 1);
      BlanksWidth(n - 1);
    }
  }

  lemma PrefixWidth(rs: seq<int>, a: nat, b: nat, c: nat)
    requires a <= b <= c <= |rs|
    ensures TextWidth(rs[a..b]) <= TextWidth(rs[a..c])
  {
    assert rs[a..c] == rs[a..b] + rs[b..c];
    TextWidthConcat(rs[a..b], rs[b..c]);
  }

  /** Width 3 is enough for any row: the pad leaves room for a double-width rune. */
  lemma HangLeavesRoom(rs: seq<int>, width: nat)
    requires 3 <= width
    ensures Hang(rs, width) <= width / 2 && 2 <= width - Hang(rs, width)
  {
  }

  lemma OneRuneFits(rs: seq<int>, i: nat)
    requires i < |rs|
    ensures TextWidth(rs[i..i + 1]) <= 2
  {
    assert rs[i..i + 1] == [rs[i]];
  }

  /** A row is a stretch that fits, then only spaces. */
  lemma RowSplits(rs: seq<int>, k: nat, indent: nat, width: nat, start: nat, end: nat) returns (text: nat)
    requires RowSpan(rs, k, indent, width, start, end) && 2 <= Limit(k, indent, width)
    ensures start < text <= end <= |rs| && TextWidth(rs[start..text]) <= Limit(k, indent, width)
    ensures rs[start..end] == rs[start..text] + Blanks(end - text)
  {
    hide TextWidth;
    var fit: nat :| Fits(rs, start, Limit(k, indent, width), fit) && end == CutAt(rs, start, fit, indent, width);
    OneRuneFits(rs, start);
    text := if fit < |rs| then WordBreak(rs, start, fit, indent, width) else fit;
    PrefixWidth(rs, start, text, fit);
  }

  /** Continuation rows hang under the line's own indent, or at a quarter of the width where that is over a half. */
  lemma HangIs(rs: seq<int>, width: nat, n: nat)
    requires n <= |rs| && (forall i :: 0 <= i < n ==> rs[i] == SPACE || rs[i] == TAB)
    requires n < |rs| ==> rs[n] != SPACE && rs[n] != TAB
    ensures Hang(rs, width) == if n <= width / 2 then n else width / 4
  {
    IndentIs(rs, n);
  }

  lemma {:induction false} IndentIs(rs: seq<int>, n: nat)
    requires n <= |rs| && (forall i :: 0 <= i < n ==> rs[i] == SPACE || rs[i] == TAB)
    requires n < |rs| ==> rs[n] != SPACE && rs[n] != TAB
    ensures LeadingIndent(rs) == n
  {
    if 0 < n {
      IndentIs(rs[1..], n - 1);
    }
  }

  lemma SkipsOnlySpaces(rs: seq<int>, i: nat)
    requires i <= |rs|
    ensures var j := SkipSpaces(rs, i); i == j || rs[j - 1] == SPACE
  {
  }

  /**
   A row ends inside a word only where it has to: it has no space to go back to, or what follows its last space
   would not fit the next row.
   */
  lemma WordsAreKept(rs: seq<int>, k: nat, indent: nat, width: nat, start: nat, end: nat, j: nat)
    requires RowSpan(rs, k, indent, width, start, end) && end < |rs| && rs[end - 1] != SPACE
    requires start < j < end && rs[j] == SPACE && forall i :: j < i < end ==> rs[i] != SPACE
    ensures width < indent + TextWidth(rs[j + 1..])
    ensures Fits(rs, start, Limit(k, indent, width), end)
  {
    hide TextWidth;
    var fit: nat :| Fits(rs, start, Limit(k, indent, width), fit) && end == CutAt(rs, start, fit, indent, width);
    SkipsOnlySpaces(rs, WordBreak(rs, start, fit, indent, width));
  }

  lemma TailIsNarrower(rs: seq<int>, a: nat, b: nat)
    requires a <= b <= |rs|
    ensures TextWidth(rs[b..]) <= TextWidth(rs[a..])
  {
    assert rs[a..] == rs[a..b] + rs[b..];
    TextWidthConcat(rs[a..b], rs[b..]);
  }

  /** And where it goes back to a space, all that follows the spaces is the last row. */
  lemma TheRestFits(rs: seq<int>, k: nat, indent: nat, width: nat, start: nat, end: nat)
    requires RowSpan(rs, k, indent, width, start, end) && end < |rs|
    requires forall fit: nat :: Fits(rs, start, Limit(k, indent, width), fit) ==> SkipSpaces(rs, fit) != end
    ensures indent + TextWidth(rs[end..]) <= width
  {
    hide TextWidth, Limit, LastSpace, SkipSpaces;
    var fit: nat :| Fits(rs, start, Limit(k, indent, width), fit) && end == CutAt(rs, start, fit, indent, width);
    var j := LastSpace(rs, start, fit);
    TailIsNarrower(rs, j + 1, end);
  }

  /** A row without its trailing spaces takes at most `width` cells, pad and all. */
  lemma RowFits(rs: seq<int>, k: nat, width: nat, start: nat, end: nat)
    requires 3 <= width && RowSpan(rs, k, Hang(rs, width), width, start, end)
    ensures start < end <= |rs|
    ensures TextWidth(Stripped(rs[start..end])) <= Limit(k, Hang(rs, width), width)
    ensures TextWidth(Stripped(Blanks(Hang(rs, width)) + rs[start..end])) <= Hang(rs, width) + Limit(k, Hang(rs, width), width)
  {
    hide TextWidth, Hang, LeadingIndent, Stripped, RowSpan;
    var indent := Hang(rs, width);
    HangLeavesRoom(rs, width);
    var text := RowSplits(rs, k, indent, width, start, end);
    StrippedWidth(rs[start..text], end - text);
    BlanksWidth(indent);
    TextWidthConcat(Blanks(indent), rs[start..text]);
    Assoc(Blanks(indent), rs[start..text], Blanks(end - text));
    StrippedWidth(Blanks(indent) + rs[start..text], end - text);
  }

  // ---- the loops ----------------------------------------------------------

  /** One run's runes and styles, after those before it. */
  method Append(rs0: seq<int>, sts0: seq<Style>, sp: Run) returns (rs: seq<int>, sts: seq<Style>)
    requires |rs0| == |sts0|
    ensures rs == rs0 + sp.text && |sts| == |rs| && sts[..|sts0|] == sts0
    ensures forall i :: |sts0| <= i < |sts| ==> sts[i] == sp.st
  {
    rs, sts := rs0, sts0;
    for b := 0 to |sp.text|
      invariant rs == rs0 + sp.text[..b] && |sts| == |rs| && sts[..|sts0|] == sts0
      invariant forall i :: |sts0| <= i < |sts| ==> sts[i] == sp.st
    {
      rs, sts := rs + [sp.text[b]], sts + [sp.st];
    }
    assert sp.text[..|sp.text|] == sp.text;
  }

  /** The runes and their styles, side by side. */
  method Flatten(spans: seq<Run>) returns (rs: seq<int>, sts: seq<Style>)
    ensures |sts| == |rs| && rs == Runes(Flat(spans))
    ensures forall i :: 0 <= i < |rs| ==> Flat(spans)[i] == Glyph(rs[i], sts[i])
  {
    hide Flat;
    rs, sts := [], [];
    FlatNone();
    assert spans[..0] == [];
    for a := 0 to |spans|
      invariant |sts| == |rs| == |Flat(spans[..a])|
      invariant forall i :: 0 <= i < |rs| ==> Flat(spans[..a])[i] == Glyph(rs[i], sts[i])
    {
      rs, sts := Append(rs, sts, spans[a]);
      assert spans[..a + 1] == spans[..a] + [spans[a]];
      FlatSnoc(spans[..a], spans[a]);
    }
    assert spans[..|spans|] == spans;
  }

  lemma WidthSnoc(rs: seq<int>, start: nat, end: nat)
    requires start <= end < |rs|
    ensures TextWidth(rs[start..end + 1]) == TextWidth(rs[start..end]) + RuneWidth(rs[end])
  {
    hide RuneWidth;
    assert rs[start..end + 1] == rs[start..end] + [rs[end]];
    TextWidthConcat(rs[start..end], [rs[end]]);
    assert [rs[end]][1..] == [];
  }

  /** The inner loop that fills a row. */
  method Fill(rs: seq<int>, start: nat, limit: int) returns (end: nat)
    requires start < |rs|
    ensures Fits(rs, start, limit, end)
  {
    hide TextWidth, RuneWidth;
    var w := 0;
    end := start;
    EmptyWidth(rs, start);
    while end < |rs|
      invariant start <= end <= |rs| && w == TextWidth(rs[start..end])
      invariant w <= limit || end <= start + 1
    {
      var rw := RuneWidth(rs[end]);
      WidthSnoc(rs, start, end);
      if limit < w + rw && start < end {
        break;
      }
      w := w + rw;
      end := end + 1;
    }
  }

  lemma EmptyWidth(rs: seq<int>, start: nat)
    requires start <= |rs|
    ensures TextWidth(rs[start..start]) == 0
  {
  }

  /** The search back for a space. */
  method FindSpace(rs: seq<int>, start: nat, end: nat) returns (lastSpace: int)
    requires start < end <= |rs|
    ensures lastSpace == LastSpace(rs, start, end)
  {
    var k := end - 1;
    while start < k
      invariant start <= k < end
      invariant LastSpace(rs, start, k + 1) == LastSpace(rs, start, end)
    {
      if rs[k] == SPACE {
        return k;
      }
      k := k - 1;
    }
    lastSpace := -1;
  }

  /** The word-break and space-skipping loops. */
  method Cut(rs: seq<int>, start: nat, fit: nat, indent: nat, width: nat) returns (end: nat)
    requires start < fit <= |rs|
    ensures end == CutAt(rs, start, fit, indent, width)
  {
    hide TextWidth, RuneWidth, LastSpace;
    end := fit;
    if end < |rs| {
      var lastSpace := FindSpace(rs, start, end);
      if start < lastSpace {
        var rest := Measure(rs[lastSpace + 1..]);
        if indent + rest <= width {
          end := lastSpace;
        }
      }
      ghost var from := end;
      while end < |rs| && rs[end] == SPACE
        invariant end <= |rs| && SkipSpaces(rs, end) == SkipSpaces(rs, from)
      {
        end := end + 1;
      }
    }
  }

  /** Runs of equal style over a stretch of runes, after the runs already in the row. */
  method Group(rs: seq<int>, sts: seq<Style>, start: nat, end: nat, ghost g: seq<Glyph>) returns (line: seq<Run>)
    requires start <= end <= |rs| == |sts| == |g|
    requires forall i :: 0 <= i < |g| ==> g[i] == Glyph(rs[i], sts[i])
    ensures Flat(line) == g[start..end] && Grouped(line)
  {
    hide Flat;
    line := [];
    FlatNone();
    var i := start;
    while i < end
      invariant start <= i <= end && Flat(line) == g[start..i] && Grouped(line)
      invariant line != [] && i < end ==> line[|line| - 1].st != sts[i]
    {
      var j := i;
      while j < end && sts[j] == sts[i]
        invariant i <= j <= end && forall k :: i <= k < j ==> sts[k] == sts[i]
        invariant j == i ==> i < end
      {
        j := j + 1;
      }
      FlatSnoc(line, Run(rs[i..j], sts[i]));
      assert g[start..j] == g[start..i] + g[i..j];
      assert Styled(rs[i..j], sts[i]) == g[i..j];
      line := line + [Run(rs[i..j], sts[i])];
      i := j;
    }
  }

  // ---- the whole ----------------------------------------------------------

  /** Whether the line is kept as one row. */
  predicate OneRow(rs: seq<int>, width: int) {
    rs == [] || width <= 2 || TextWidth(rs) <= width
  }

  lemma OneRowContent(row: seq<Run>)
    ensures Content([row]) == Flat(row)
  {
    hide Flat;
    assert [row][..0] == [];
    assert Content([]) == [];
    assert [] + Flat(row) == Flat(row);
  }

  lemma NoRows(rs: seq<int>, indent: nat, width: nat)
    ensures Content([]) == [] && RowsOk(rs, indent, width, [])
  {
  }

  lemma LastRowOk(rs: seq<int>, indent: nat, width: nat, out: seq<seq<Run>>, row: seq<Run>, start: nat, end: nat)
    requires |Content(out)| == start && |Content(out + [row])| == end
    requires RowSpan(rs, |out|, indent, width, start, end)
    requires 0 < |out| ==> row != [] && row[0] == Run(Blanks(indent), PLAIN)
    requires Grouped(Own(row, |out|))
    ensures RowOk(rs, indent, width, out + [row], |out|)
  {
    hide RowSpan, Content, Grouped;
    ContentSnoc(out, row);
  }

  lemma SpanOf(rs: seq<int>, k: nat, indent: nat, width: nat, start: nat, fit: nat)
    requires Fits(rs, start, Limit(k, indent, width), fit)
    ensures RowSpan(rs, k, indent, width, start, CutAt(rs, start, fit, indent, width))
  {
  }

  /** One turn of the outer loop: the next row, from `start` to `end`. */
  method NextRow(rs: seq<int>, sts: seq<Style>, start: nat, first: bool, indent: nat, width: nat,
                 ghost g: seq<Glyph>, ghost k: nat) returns (line: seq<Run>, end: nat)
    requires start < |rs| == |sts| == |g| && (first <==> k == 0)
    requires forall i :: 0 <= i < |g| ==> g[i] == Glyph(rs[i], sts[i])
    ensures start < end <= |rs| && RowSpan(rs, k, indent, width, start, end)
    ensures Flat(Own(line, k)) == g[start..end] && Grouped(Own(line, k))
    ensures 0 < k ==> line != [] && line[0] == Run(Blanks(indent), PLAIN)
  {
    hide Fits, CutAt, RowSpan, Grouped, Flat;
    var limit: int := width;
    if !first {
      limit := width - indent;
    }
    var fit := Fill(rs, start, limit);
    assert start < fit <= |rs| by { FitBounds(rs, start, limit, fit); }
    end := Cut(rs, start, fit, indent, width);
    SpanOf(rs, k, indent, width, start, fit);
    line := [];
    if !first {
      line := line + [Run(Blanks(indent), PLAIN)];
    }
    var own := Group(rs, sts, start, end, g);
    line := line + own;
    assert Own(line, k) == own;
  }

  lemma FitBounds(rs: seq<int>, start: nat, limit: int, fit: nat)
    requires Fits(rs, start, limit, fit)
    ensures start < fit <= |rs|
  {
  }

  /**
   wrapLine. The rows hold exactly the line's styled runes once the pads are dropped, and each
   is the stretch that the fitting and word-break rules give.
   */
  method WrapLine(l: Line, width: int) returns (out: seq<seq<Run>>)
    ensures Content(out) == Flat(Spans(l)) && out != []
    ensures var rs := Runes(Flat(Spans(l)));
            if OneRow(rs, width) then |out| == 1 else RowsOk(rs, Hang(rs, width), width, out)
  {
    hide Flat, RowSpan, Grouped, TextWidth, Content, RowsOk;
    var spans := Spans(l);
    ghost var g := Flat(spans);
    var rs, sts := Flatten(spans);
    if |rs| == 0 {
      out := [[Run([], l.st)]];
      OneRowContent(out[0]);
      FlatOne(Run([], l.st));
      return;
    }
    var total := Measure(rs);
    if width <= 2 || total <= width {
      out := [spans];
      OneRowContent(spans);
      return;
    }
    var indent := LeadingIndent(rs);
    if width / 2 < indent {
      indent := width / 4;
    }
    out := [];
    var start, first := 0, true;
    NoRows(rs, indent, width);
    while start < |rs|
      invariant start <= |rs| && (first <==> out == []) && (first ==> start == 0)
      invariant Content(out) == g[..start] && RowsOk(rs, indent, width, out)
    {
      var line, end := NextRow(rs, sts, start, first, indent, width, g, |out|);
      ContentSnoc(out, line);
      assert g[..end] == g[..start] + g[start..end];
      LastRowOk(rs, indent, width, out, line, start, end);
      RowsSnoc(rs, indent, width, out, line);
      out := out + [line];
      start := end;
      first := false;
    }
    assert g[..|rs|] == g;
  }

  /** TextWidth */
  method Measure(rs: seq<int>) returns (w: nat)
    ensures w == TextWidth(rs)
  {
    hide TextWidth, RuneWidth;
    w := 0;
    EmptyWidth(rs, 0);
    for i := 0 to |rs|
      invariant w == TextWidth(rs[0..i])
    {
      WidthSnoc(rs, 0, i);
      w := w + RuneWidth(rs[i]);
    }
    assert rs[0..|rs|] == rs;
  }

  // ---- what that gives ----------------------------------------------------

  /** A row's own runs are its stretch of the line. */
  lemma {:induction false} RowContent(out: seq<seq<Run>>, k: nat)
    requires k < |out|
    ensures At(out, k) <= At(out, k + 1) <= |Content(out)|
    ensures Flat(Own(out[k], k)) == Content(out)[At(out, k)..At(out, k + 1)]
    decreases |out|
  {
    hide Flat;
    var n := |out| - 1;
    assert out[..n + 1] == out;
    if k < n {
      RowContent(out[..n], k);
      assert out[..n][..k] == out[..k] && out[..n][..k + 1] == out[..k + 1];
    }
  }

  lemma CutStopsAtInk(rs: seq<int>, k: nat, indent: nat, width: nat, start: nat, end: nat)
    requires RowSpan(rs, k, indent, width, start, end)
    ensures start < end <= |rs| && (end < |rs| ==> rs[end] != SPACE)
  {
    hide TextWidth;
  }

  lemma PaddedText(row: seq<Run>, indent: nat)
    requires row != [] && row[0] == Run(Blanks(indent), PLAIN)
    ensures Runes(Flat(row)) == Blanks(indent) + Runes(Flat(row[1..]))
  {
    hide Flat;
    assert row == [row[0]] + row[1..];
    FlatCons(row[0], row[1..]);
  }

  lemma RowTaken(g: seq<Glyph>, indent: nat, width: nat, out: seq<seq<Run>>, k: nat)
    requires k < |out| && Content(out) == g && RowOk(Runes(g), indent, width, out, k)
    ensures At(out, k) < At(out, k + 1) <= |g|
    ensures Flat(Own(out[k], k)) == g[At(out, k)..At(out, k + 1)]
    ensures Runes(Flat(Own(out[k], k))) == Runes(g)[At(out, k)..At(out, k + 1)]
  {
    hide Flat, RowSpan, Grouped, Content;
    RowContent(out, k);
    CutStopsAtInk(Runes(g), k, indent, width, At(out, k), At(out, k + 1));
  }

  lemma RowWithin(g: seq<Glyph>, width: nat, out: seq<seq<Run>>, k: nat)
    requires 3 <= width && k < |out| && Content(out) == g && RowOk(Runes(g), Hang(Runes(g), width), width, out, k)
    ensures TextWidth(Stripped(Runes(Flat(out[k])))) <= width
  {
    hide Flat, TextWidth, Stripped, Hang, RowSpan, Grouped, Content, Runes;
    RowTaken(g, Hang(Runes(g), width), width, out, k);
    RowFits(Runes(g), k, width, At(out, k), At(out, k + 1));
    if 0 < k {
      PaddedText(out[k], Hang(Runes(g), width));
    }
  }

  lemma RowStart(g: seq<Glyph>, indent: nat, width: nat, out: seq<seq<Run>>, k: nat)
    requires 0 < k < |out| && Content(out) == g
    requires RowOk(Runes(g), indent, width, out, k) && RowOk(Runes(g), indent, width, out, k - 1)
    ensures Flat(Own(out[k], k)) != [] && Flat(Own(out[k], k))[0].r != SPACE
  {
    hide Flat, RowSpan, Grouped, Content;
    RowTaken(g, indent, width, out, k);
    CutStopsAtInk(Runes(g), k - 1, indent, width, At(out, k - 1), At(out, k));
  }

  /**
   Every row of a wrapped line takes at least one rune of it; in 3 cells or more every row fits,
   its trailing spaces apart; and no continuation row starts, after its pad, with a space.
   */
  lemma WrappedRows(l: Line, width: int, out: seq<seq<Run>>, k: nat)
    requires var rs := Runes(Flat(Spans(l)));
             3 <= width && Content(out) == Flat(Spans(l)) && RowsOk(rs, Hang(rs, width), width, out)
    requires k < |out|
    ensures Flat(Own(out[k], k)) != []
    ensures TextWidth(Stripped(Runes(Flat(out[k])))) <= width
    ensures 0 < k ==> Flat(Own(out[k], k))[0].r != SPACE
  {
    hide Flat, TextWidth, Stripped, Hang, RowOk, Content, Runes;
    var g := Flat(Spans(l));
    var indent := Hang(Runes(g), width);
    RowTaken(g, indent, width, out, k);
    RowWithin(g, width, out, k);
    if 0 < k {
      RowStart(g, indent, width, out, k);
    }
  }
}
