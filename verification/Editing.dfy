/** The breakpoint editor (internal/tui/editor.go), as a flat text with one cursor. */
module Editing {
  import opened Text
  import opened Unicode

  const LF := "\n"
  const NL: Byte := 10
  const CR: Byte := 13

  // ---- lines as one text --------------------------------------------------

  /** Lines each followed by a newline. */
  function Heads(ls: seq<string>): string {
    if ls == [] then "" else Heads(ls[..|ls| - 1]) + ls[|ls| - 1] + LF
  }

  /** Lines each preceded by a newline. */
  function Tails(ls: seq<string>): string {
    if ls == [] then "" else LF + ls[0] + Tails(ls[1..])
  }

  /** The buffer's text: its lines with a newline between any two. */
  function Flat(ls: seq<string>): string
    requires ls != []
  {
    ls[0] + Tails(ls[1..])
  }

  /** A text cut in two at the cursor. */
  datatype View = View(left: string, right: string)

  function ViewAt(ls: seq<string>, cy: nat, cx: nat): View
    requires cy < |ls| && cx <= |ls[cy]|
  {
    View(Heads(ls[..cy]) + ls[cy][..cx], ls[cy][cx..] + Tails(ls[cy + 1..]))
  }

  /** The two halves are the whole text. */
  lemma {:induction false} ViewIsFlat(ls: seq<string>, cy: nat, cx: nat)
    requires cy < |ls| && cx <= |ls[cy]|
    ensures ViewAt(ls, cy, cx).left + ViewAt(ls, cy, cx).right == Flat(ls)
    decreases cy
  {
    hide Heads, Tails;
    LineWhole(ls, cy, cx);
    if cy == 0 {
      NoHeads(ls);
    } else {
      ViewIsFlat(ls, cy - 1, 0);
      LineWhole(ls, cy - 1, 0);
      LineMoves(ls, cy);
    }
  }

  lemma LineWhole(ls: seq<string>, cy: nat, cx: nat)
    requires cy < |ls| && cx <= |ls[cy]|
    ensures ViewAt(ls, cy, cx).left + ViewAt(ls, cy, cx).right == Heads(ls[..cy]) + (ls[cy] + Tails(ls[cy + 1..]))
  {
    hide Heads, Tails;
    assert ls[cy] == ls[cy][..cx] + ls[cy][cx..];
  }

  lemma NoHeads(ls: seq<string>)
    ensures Heads(ls[..0]) == ""
  {
  }

  lemma LineMoves(ls: seq<string>, cy: nat)
    requires 0 < cy < |ls|
    ensures Heads(ls[..cy - 1]) + (ls[cy - 1] + Tails(ls[cy..])) == Heads(ls[..cy]) + (ls[cy] + Tails(ls[cy + 1..]))
  {
    var p := cy - 1;
    assert ls[..cy][..p] == ls[..p] && ls[cy..][0] == ls[cy] && ls[cy..][1..] == ls[cy + 1..];
    assert Tails(ls[cy..]) == LF + ls[cy] + Tails(ls[cy + 1..]);
    hide Tails, Heads;
    Assoc(Heads(ls[..p]), ls[p], LF, ls[cy] + Tails(ls[cy + 1..]));
  }

  lemma Assoc(a: string, b: string, c: string, d: string)
    ensures a + b + c + d == a + (b + (c + d))
  {
  }

  predicate NoNewlines(ls: seq<string>) {
    forall i :: 0 <= i < |ls| ==> '\n' !in ls[i]
  }

  // ---- what the operations do to the text ---------------------------------

  function Typed(v: View, r: char): View { v.(left := v.left + [r]) }

  function Erased(v: View): View {
    if v.left == "" then v else v.(left := v.left[..|v.left| - 1])
  }

  function DeletedAt(v: View): View {
    if v.right == "" then v else v.(right := v.right[1..])
  }

  function Leftward(v: View): View {
    if v.left == "" then v
    else View(v.left[..|v.left| - 1], [v.left[|v.left| - 1]] + v.right)
  }

  function Rightward(v: View): View {
    if v.right == "" then v else View(v.left + [v.right[0]], v.right[1..])
  }

  /** Joining line cy to the one before it. */
  function Joined(ls: seq<string>, cy: nat): seq<string>
    requires 0 < cy < |ls|
  {
    ls[..cy - 1] + [ls[cy - 1] + ls[cy]] + ls[cy + 1..]
  }

  lemma ReplaceLine(ls: seq<string>, cy: nat, line: string, cx: nat)
    requires cy < |ls| && cx <= |line|
    ensures ViewAt(ls[cy := line], cy, cx) == View(Heads(ls[..cy]) + line[..cx], line[cx..] + Tails(ls[cy + 1..]))
  {
    assert ls[cy := line][..cy] == ls[..cy] && ls[cy := line][cy + 1..] == ls[cy + 1..];
  }

  lemma InsertView(ls: seq<string>, cy: nat, cx: nat, r: char)
    requires cy < |ls| && cx <= |ls[cy]|
    ensures var line := ls[cy][..cx] + [r] + ls[cy][cx..];
            ViewAt(ls[cy := line], cy, cx + 1) == Typed(ViewAt(ls, cy, cx), r)
  {
    var line := ls[cy][..cx] + [r] + ls[cy][cx..];
    ReplaceLine(ls, cy, line, cx + 1);
    assert line[..cx + 1] == ls[cy][..cx] + [r] && line[cx + 1..] == ls[cy][cx..];
    assert Heads(ls[..cy]) + (ls[cy][..cx] + [r]) == Heads(ls[..cy]) + ls[cy][..cx] + [r];
  }

  lemma RemoveView(ls: seq<string>, cy: nat, cx: nat)
    requires cy < |ls| && cx < |ls[cy]|
    ensures var line := ls[cy][..cx] + ls[cy][cx + 1..];
            && ViewAt(ls[cy := line], cy, cx) == DeletedAt(ViewAt(ls, cy, cx))
            && ViewAt(ls[cy := line], cy, cx) == Erased(ViewAt(ls, cy, cx + 1))
  {
    var line := ls[cy][..cx] + ls[cy][cx + 1..];
    ReplaceLine(ls, cy, line, cx);
    assert line[..cx] == ls[cy][..cx] && line[cx..] == ls[cy][cx + 1..];
    var h, t := Heads(ls[..cy]), Tails(ls[cy + 1..]);
    assert ls[cy][..cx + 1] == ls[cy][..cx] + [ls[cy][cx]];
    assert (h + ls[cy][..cx + 1])[..|h| + cx] == h + ls[cy][..cx];
    assert (ls[cy][cx..] + t)[1..] == ls[cy][cx + 1..] + t;
  }

  /** The end of one line and the start of the next are one newline apart. */
  lemma LineBreak(ls: seq<string>, cy: nat)
    requires 0 < cy < |ls|
    ensures ViewAt(ls, cy, 0) == View(ViewAt(ls, cy - 1, |ls[cy - 1]|).left + LF, ViewAt(ls, cy, 0).right)
    ensures ViewAt(ls, cy - 1, |ls[cy - 1]|).right == LF + ViewAt(ls, cy, 0).right
  {
    var p := cy - 1;
    assert ls[..cy][..p] == ls[..p] && ls[..cy][p] == ls[p];
    assert ls[p + 1..][0] == ls[cy] && ls[p + 1..][1..] == ls[cy + 1..];
    assert ls[p][..|ls[p]|] == ls[p] && ls[p][|ls[p]|..] == "" && ls[cy][..0] == "" && ls[cy][0..] == ls[cy];
    assert Heads(ls[..cy]) + "" == Heads(ls[..cy]);
    assert "" + Tails(ls[cy..]) == Tails(ls[cy..]) == LF + (ls[cy] + Tails(ls[cy + 1..]));
  }

  lemma LineBreakMoves(ls: seq<string>, cy: nat)
    requires 0 < cy < |ls|
    ensures ViewAt(ls, cy - 1, |ls[cy - 1]|) == Leftward(ViewAt(ls, cy, 0))
    ensures ViewAt(ls, cy, 0) == Rightward(ViewAt(ls, cy - 1, |ls[cy - 1]|))
  {
    LineBreak(ls, cy);
    hide ViewAt;
    var l, r := ViewAt(ls, cy - 1, |ls[cy - 1]|).left, ViewAt(ls, cy, 0).right;
    assert (l + LF)[..|l + LF| - 1] == l && (LF + r)[1..] == r;
  }

  lemma JoinView(ls: seq<string>, cy: nat)
    requires 0 < cy < |ls|
    ensures var p := cy - 1;
            var v := ViewAt(Joined(ls, cy), p, |ls[p]|);
            v.left == ViewAt(ls, p, |ls[p]|).left && v.right == ViewAt(ls, cy, 0).right
  {
    var p := cy - 1;
    var js := Joined(ls, cy);
    assert js[..p] == ls[..p] && js[p] == ls[p] + ls[cy] && js[p + 1..] == ls[cy + 1..];
    assert js[p][..|ls[p]|] == ls[p] == ls[p][..|ls[p]|] && js[p][|ls[p]|..] == ls[cy] == ls[cy][0..];
  }

  lemma SplitView(ls: seq<string>, cy: nat, cx: nat)
    requires cy < |ls| && cx <= |ls[cy]|
    ensures var ss := ls[..cy] + [ls[cy][..cx], ls[cy][cx..]] + ls[cy + 1..];
            ViewAt(ss, cy + 1, 0) == Typed(ViewAt(ls, cy, cx), '\n')
  {
    var ss := ls[..cy] + [ls[cy][..cx], ls[cy][cx..]] + ls[cy + 1..];
    assert ss[..cy + 1][..cy] == ls[..cy] && ss[..cy + 1][cy] == ls[cy][..cx];
    assert ss[cy + 1] == ls[cy][cx..] && ss[cy + 2..] == ls[cy + 1..];
    assert ss[cy + 1][..0] == "" && ss[cy + 1][0..] == ls[cy][cx..];
    assert Heads(ss[..cy + 1]) + "" == Heads(ls[..cy]) + ls[cy][..cx] + LF;
  }

  // ---- the view determines the buffer -------------------------------------

  lemma {:induction false} FlatIsInjective(a: seq<string>, b: seq<string>)
    requires a != [] && b != [] && NoNewlines(a) && NoNewlines(b) && Flat(a) == Flat(b)
    ensures a == b
    decreases |a|
  {
    FirstLineIs(a);
    FirstLineIs(b);
    if |a| > 1 {
      assert Tails(a[1..]) == LF + Flat(a[1..]) by { assert a[1..][0] == a[1]; }
      assert Tails(b[1..]) == LF + Flat(b[1..]) by { assert b[1..][0] == b[1]; }
      assert Flat(a)[|a[0]| + 1..] == Flat(a[1..]) && Flat(b)[|b[0]| + 1..] == Flat(b[1..]);
      FlatIsInjective(a[1..], b[1..]);
      assert a == [a[0]] + a[1..] && b == [b[0]] + b[1..];
    }
  }

  /** The first line is what comes before the first newline. */
  lemma FirstLineIs(ls: seq<string>)
    requires ls != [] && NoNewlines(ls)
    ensures var i := Index(Flat(ls), LF);
            if |ls| == 1 then i == -1 && Flat(ls) == ls[0] else i == |ls[0]| && Flat(ls)[..i] == ls[0]
  {
    var s := Flat(ls);
    forall k: nat | k < |ls[0]|
      ensures !OccursAt(s, LF, k)
    {
      assert ls[0][k] in ls[0] && s[k] == ls[0][k];
      assert s[k..k + 1] == [s[k]];
    }
    if |ls| > 1 {
      assert Tails(ls[1..]) == LF + (ls[1..][0] + Tails(ls[1..][1..]));
      assert OccursAt(s, LF, |ls[0]|);
    } else {
      assert ls[1..] == [] && s == ls[0];
    }
  }

  /** Two newline-free buffers with the same text and the same cursor position are the same, cursor and all. */
  lemma ViewDetermines(a: seq<string>, ay: nat, ax: nat, b: seq<string>, by_: nat, bx: nat)
    requires NoNewlines(a) && NoNewlines(b)
    requires ay < |a| && ax <= |a[ay]| && by_ < |b| && bx <= |b[by_]|
    requires ViewAt(a, ay, ax) == ViewAt(b, by_, bx)
    ensures a == b && ay == by_ && ax == bx
  {
    ViewIsFlat(a, ay, ax);
    ViewIsFlat(b, by_, bx);
    FlatIsInjective(a, b);
    var u, v := |Heads(a[..ay])| + ax, |Heads(b[..by_])| + bx;
    assert |ViewAt(a, ay, ax).left| == u && |ViewAt(b, by_, bx).left| == v;
    if ay < by_ { HeadsGrow(a, ay, by_); }
    if by_ < ay { HeadsGrow(a, by_, ay); }
  }

  lemma {:induction false} HeadsGrow(ls: seq<string>, i: nat, j: nat)
    requires i < j <= |ls|
    ensures |Heads(ls[..i])| + |ls[i]| < |Heads(ls[..j])|
    decreases j
  {
    assert ls[..j][..j - 1] == ls[..j - 1];
    if i < j - 1 {
      HeadsGrow(ls, i, j - 1);
    }
  }

  // ---- text to lines and back ---------------------------------------------

  /** strings.ReplaceAll of CR LF by LF. */
  function ReplaceCRLF(b: Bytes): (t: Bytes)
    ensures |t| <= |b|
  {
    if |b| < 2 then b
    else if b[0] == CR && b[1] == NL then [NL] + ReplaceCRLF(b[2..])
    else [b[0]] + ReplaceCRLF(b[1..])
  }

  predicate HasCRLF(b: Bytes) {
    exists i :: 0 <= i < |b| - 1 && b[i] == CR && b[i + 1] == NL
  }

  lemma HasCRLFAfter(b: Bytes)
    requires 2 <= |b| && !(b[0] == CR && b[1] == NL)
    ensures HasCRLF(b) <==> HasCRLF(b[1..])
  {
    if i :| 0 <= i < |b| - 1 && b[i] == CR && b[i + 1] == NL {
      assert b[1..][i - 1] == CR && b[1..][i] == NL;
    }
    if i :| 0 <= i < |b[1..]| - 1 && b[1..][i] == CR && b[1..][i + 1] == NL {
      assert b[i + 1] == CR && b[i + 2] == NL;
    }
  }

  function CRs(b: Bytes): nat { multiset(b)[CR] }

  lemma CRsConcat(a: Bytes, b: Bytes)
    ensures CRs(a + b) == CRs(a) + CRs(b)
  {
  }

  /** Replacing changes bytes exactly when they have a CR LF pair, and then a CR is gone. */
  lemma {:induction false} ReplaceChanges(b: Bytes)
    ensures ReplaceCRLF(b) == b <==> !HasCRLF(b)
    ensures HasCRLF(b) ==> CRs(ReplaceCRLF(b)) < CRs(b)
  {
    hide CRs, HasCRLF;
    if |b| < 2 {
      TooShort(b);
    } else if b[0] == CR && b[1] == NL {
      ReplaceChanges(b[2..]);
      PairGoes(b);
    } else {
      HasCRLFAfter(b);
      ReplaceChanges(b[1..]);
      CRsConcat([b[0]], b[1..]);
      CRsConcat([b[0]], ReplaceCRLF(b[1..]));
      assert b == [b[0]] + b[1..];
    }
  }

  lemma TooShort(b: Bytes)
    requires |b| < 2
    ensures !HasCRLF(b)
  {
  }

  lemma PairGoes(b: Bytes)
    requires 2 <= |b| && b[0] == CR && b[1] == NL
    ensures HasCRLF(b) && CRs([NL] + b[2..]) < CRs(b)
    ensures CRs([NL] + ReplaceCRLF(b[2..])) == CRs(ReplaceCRLF(b[2..])) && CRs(b) == 1 + CRs(b[2..])
  {
    assert b == [CR, NL] + b[2..];
  }

  /** Each line as runes. */
  function RunesOf(ls: seq<Bytes>): (r: seq<string>)
    ensures |r| == |ls| && forall i :: 0 <= i < |ls| ==> r[i] == Runes(ls[i])
  {
    seq(|ls|, i requires 0 <= i < |ls| => Runes(ls[i]))
  }

  lemma NoneBefore(b: Bytes, n: nat)
    requires n <= |b| && (Index(b, [NL]) == n || (Index(b, [NL]) == -1 && n == |b|))
    ensures NL !in b[..n]
  {
    hide Index;
    forall k | 0 <= k < n
      ensures b[..n][k] != NL
    {
      assert !OccursAt(b, [NL], k);
      assert b[k..k + 1] == [b[k]];
    }
  }

  lemma FlatCons(line: string, ls: seq<string>)
    requires ls != []
    ensures Flat([line] + ls) == line + (LF + Flat(ls))
  {
    assert ([line] + ls)[1..] == ls;
    assert LF + ls[0] + Tails(ls[1..]) == LF + (ls[0] + Tails(ls[1..]));
  }

  lemma {:induction false} NoNewRunes(b: Bytes)
    requires NL !in b
    ensures '\n' !in Runes(b)
  {
    hide Runes;
    SaneHasAscii(b, NL);
    EncodedHasAscii(Runes(b), NL);
  }

  /** Bytes split at newlines, each line turned into runes and joined, are the runes of the whole. */
  lemma {:induction false} FlatOfSplit(b: Bytes)
    ensures Flat(RunesOf(Split(b, [NL]))) == Runes(b) && NoNewlines(RunesOf(Split(b, [NL])))
    decreases |b|
  {
    hide Index, Runes;
    var i := Index(b, [NL]);
    if i < 0 {
      NoneBefore(b, |b|);
      assert b[..|b|] == b;
      NoNewRunes(b);
      assert RunesOf(Split(b, [NL])) == [Runes(b)];
      OneLine(Runes(b));
    } else {
      NoneBefore(b, i);
      var rest := b[i + 1..];
      NoNewRunes(b[..i]);
      FlatOfSplit(rest);
      assert Split(b, [NL]) == [b[..i]] + Split(rest, [NL]);
      assert RunesOf(Split(b, [NL])) == [Runes(b[..i])] + RunesOf(Split(rest, [NL]));
      FlatCons(Runes(b[..i]), RunesOf(Split(rest, [NL])));
      assert b[i..i + 1] == [NL] && b == b[..i] + [NL] + rest;
      RunesAround(b[..i], NL, rest);
    }
  }

  lemma OneLine(line: string)
    ensures Flat([line]) == line
  {
  }

  /** At either end of the text there is nowhere to go. */
  lemma NothingBeyond(ls: seq<string>)
    requires ls != []
    ensures Leftward(ViewAt(ls, 0, 0)) == ViewAt(ls, 0, 0)
    ensures var y := |ls| - 1; Rightward(ViewAt(ls, y, |ls[y]|)) == ViewAt(ls, y, |ls[y]|)
  {
    assert ls[..0] == [] && ls[|ls|..] == [];
  }

  lemma {:induction false} TailsSnoc(ls: seq<string>, l: string)
    ensures Tails(ls + [l]) == Tails(ls) + (LF + l)
  {
    if ls == [] {
      assert ([l])[1..] == [] && Tails([l]) == LF + l + Tails([]);
    } else {
      assert (ls + [l])[1..] == ls[1..] + [l];
      TailsSnoc(ls[1..], l);
    }
  }

  /** Writing a text line by line, a newline before each but the first. */
  lemma NextLine(ls: seq<string>, i: nat)
    requires i < |ls|
    ensures Encoded(Flat(ls[..i + 1]))
         == if i == 0 then Encoded(ls[0]) else Encoded(Flat(ls[..i])) + [NL] + Encoded(ls[i])
  {
    hide Encoded;
    if i == 0 {
      assert ls[..1] == [ls[0]];
      OneLine(ls[0]);
    } else {
      assert ls[..i + 1][1..] == ls[..i][1..] + [ls[i]];
      TailsSnoc(ls[..i][1..], ls[i]);
      hide Tails;
      assert Flat(ls[..i + 1]) == Flat(ls[..i]) + LF + ls[i];
      EncodedConcat(Flat(ls[..i]) + LF, ls[i]);
      EncodedConcat(Flat(ls[..i]), LF);
      EncodedAscii(NL);
    }
  }

  // ---- the editor ---------------------------------------------------------

  class Editor {
    var Lines: seq<string>
    var CY: int
    var CX: int
    var Top: int
    var Left: int
    var Modified: bool

    /** The cursor is inside the buffer. */
    ghost predicate Valid()
      reads this
    {
      0 <= CY < |Lines| && 0 <= CX <= |Lines[CY]|
    }

    /** The text to the left and to the right of the cursor. */
    ghost function Now(): View
      requires Valid()
      reads this
    {
      ViewAt(Lines, CY, CX)
    }

    constructor (text: Bytes)
      ensures Valid() && NoNewlines(Lines)
      ensures Now() == View("", Runes(ReplaceCRLF(text))) && Flat(Lines) == Runes(ReplaceCRLF(text))
      ensures CY == 0 && CX == 0 && !Modified
    {
      hide Runes, ReplaceCRLF, Split;
      var lines := Split(ReplaceCRLF(text), [NL]);
      var read := [];
      for i := 0 to |lines|
        invariant read == RunesOf(lines[..i])
      {
        read := read + [Runes(lines[i])];
      }
      assert lines[..|lines|] == lines;
      Lines := read;
      CY, CX, Top, Left, Modified := 0, 0, 0, 0, false;
      new;
      FlatOfSplit(ReplaceCRLF(text));
      ViewIsFlat(Lines, 0, 0);
      assert Heads(Lines[..0]) == "" && Now().left == "";
      assert "" + Now().right == Now().right;
    }

    /** Text: the lines joined with newlines, as bytes. */
    method Text() returns (s: Bytes)
      requires Valid()
      ensures s == Encoded(Flat(Lines))
    {
      hide Flat;
      s := [];
      for i := 0 to |Lines|
        invariant s == if i == 0 then [] else Encoded(Flat(Lines[..i]))
      {
        if i > 0 {
          s := s + [NL];
        }
        s := s + Encoded(Lines[i]);
        NextLine(Lines, i);
      }
      assert Lines[..|Lines|] == Lines;
    }

    method Insert(r: char)
      requires Valid()
      modifies this
      ensures Valid() && Now() == Typed(old(Now()), r) && Modified
      ensures old(NoNewlines(Lines)) && r != '\n' ==> NoNewlines(Lines)
    {
      InsertView(Lines, CY, CX, r);
      var line := Lines[CY];
      line := line[..CX] + [r] + line[CX..];
      Lines := Lines[CY := line];
      CX := CX + 1;
      Modified := true;
    }

    /** Splits the current line: to the text, a newline is typed. */
    method Newline()
      requires Valid()
      modifies this
      ensures Valid() && Now() == Typed(old(Now()), '\n') && Modified
      ensures old(NoNewlines(Lines)) ==> NoNewlines(Lines)
    {
      SplitView(Lines, CY, CX);
      var line := Lines[CY];
      var head, tail := line[..CX], line[CX..];
      Lines := Lines[..CY] + [head, tail] + Lines[CY + 1..];
      CY := CY + 1;
      CX := 0;
      Modified := true;
    }

    /** Removes the rune before the cursor, a line break too; nothing at the very start. */
    method Backspace()
      requires Valid()
      modifies this
      ensures Valid() && Now() == Erased(old(Now()))
      ensures old(NoNewlines(Lines)) ==> NoNewlines(Lines)
    {
      if CX > 0 {
        RemoveView(Lines, CY, CX - 1);
        Lines := Lines[CY := Lines[CY][..CX - 1] + Lines[CY][CX..]];
        CX := CX - 1;
        Modified := true;
        return;
      }
      if CY > 0 {
        LineBreak(Lines, CY);
        JoinView(Lines, CY);
        var prev, cur := Lines[CY - 1], Lines[CY];
        CX := |prev|;
        Lines := Lines[..CY - 1] + [prev + cur] + Lines[CY + 1..];
        CY := CY - 1;
        Modified := true;
      } else {
        assert Lines[..0] == [] && Now().left == "";
      }
    }

    /** Removes the rune under the cursor, a line break too; nothing at the very end. */
    method Delete()
      requires Valid()
      modifies this
      ensures Valid() && Now() == DeletedAt(old(Now()))
      ensures old(NoNewlines(Lines)) ==> NoNewlines(Lines)
    {
      var line := Lines[CY];
      if CX < |line| {
        RemoveView(Lines, CY, CX);
        Lines := Lines[CY := line[..CX] + line[CX + 1..]];
        Modified := true;
        return;
      }
      if CY < |Lines| - 1 {
        LineBreak(Lines, CY + 1);
        JoinView(Lines, CY + 1);
        Lines := Lines[..CY] + [line + Lines[CY + 1]] + Lines[CY + 2..];
        Modified := true;
      } else {
        assert Lines[CY + 1..] == [] && Now().right == "";
      }
    }

    method MoveLeft()
      requires Valid()
      modifies this`CY, this`CX
      ensures Valid() && Now() == Leftward(old(Now()))
    {
      hide ViewAt, Leftward, Rightward;
      if CX > 0 {
        StepInLine(Lines, CY, CX - 1);
        CX := CX - 1;
      } else if CY > 0 {
        LineBreakMoves(Lines, CY);
        CY := CY - 1;
        CX := |Lines[CY]|;
      } else {
        NothingBeyond(Lines);
      }
    }

    method MoveRight()
      requires Valid()
      modifies this`CY, this`CX
      ensures Valid() && Now() == Rightward(old(Now()))
    {
      hide ViewAt, Leftward, Rightward;
      if CX < |Lines[CY]| {
        StepInLine(Lines, CY, CX);
        CX := CX + 1;
      } else if CY < |Lines| - 1 {
        LineBreakMoves(Lines, CY + 1);
        CY := CY + 1;
        CX := 0;
      } else {
        NothingBeyond(Lines);
      }
    }

    /** Keeps the column where the line is long enough, else goes to its end. */
    method Clamp()
      requires 0 <= CY < |Lines| && 0 <= CX
      modifies this`CX
      ensures Valid() && CX == if old(CX) <= |Lines[CY]| then old(CX) else |Lines[CY]|
    {
      if CX > |Lines[CY]| {
        CX := |Lines[CY]|;
      }
    }

    method MoveUp()
      requires Valid()
      modifies this`CY, this`CX
      ensures Valid() && CY == (if old(CY) == 0 then 0 else old(CY) - 1)
      ensures CX == if old(CX) <= |Lines[CY]| then old(CX) else |Lines[CY]|
    {
      if CY > 0 {
        CY := CY - 1;
        Clamp();
      }
    }

    method MoveDown()
      requires Valid()
      modifies this`CY, this`CX
      ensures Valid() && CY == (if old(CY) == |Lines| - 1 then old(CY) else old(CY) + 1)
      ensures CX == if old(CX) <= |Lines[CY]| then old(CX) else |Lines[CY]|
    {
      if CY < |Lines| - 1 {
        CY := CY + 1;
        Clamp();
      }
    }

    method Home()
      requires Valid()
      modifies this`CX
      ensures Valid() && CX == 0
    {
      CX := 0;
    }

    method End()
      requires Valid()
      modifies this`CX
      ensures Valid() && CX == |Lines[CY]|
    {
      CX := |Lines[CY]|;
    }

    method PageUp(n: nat)
      requires Valid()
      modifies this`CY, this`CX
      ensures Valid() && CY == if old(CY) <= n then 0 else old(CY) - n
      ensures CX == if old(CX) <= |Lines[CY]| then old(CX) else |Lines[CY]|
    {
      CY := CY - n;
      if CY < 0 {
        CY := 0;
      }
      Clamp();
    }

    method PageDown(n: nat)
      requires Valid()
      modifies this`CY, this`CX
      ensures Valid() && CY == if |Lines| <= old(CY) + n then |Lines| - 1 else old(CY) + n
      ensures CX == if old(CX) <= |Lines[CY]| then old(CX) else |Lines[CY]|
    {
      CY := CY + n;
      if CY >= |Lines| {
        CY := |Lines| - 1;
      }
      Clamp();
    }

    /** Scrolls no further than needed to show the cursor; the column shows if and only if w is at least 1. */
    method EnsureVisible(w: int, h: int)
      requires Valid()
      modifies this`Top, this`Left
      ensures Top <= CY < Top + (if h < 1 then 1 else h)
      ensures 0 <= Top && 0 <= Left
      ensures Left <= CX < Left + w <==> 1 <= w
      ensures 0 <= old(Top) <= CY < old(Top) + h ==> Top == old(Top)
      ensures 0 <= old(Left) <= CX < old(Left) + w ==> Left == old(Left)
      ensures CY < old(Top) ==> Top == CY
      ensures 0 <= old(Top) && 1 <= h && old(Top) + h <= CY ==> Top == CY - h + 1
      ensures CX < old(Left) && 1 <= w ==> Left == CX
      ensures 0 <= old(Left) && 1 <= w && old(Left) + w <= CX ==> Left == CX - w + 1
    {
      var height := if h < 1 then 1 else h;
      if CY < Top {
        Top := CY;
      }
      if CY >= Top + height {
        Top := CY - height + 1;
      }
      if Top < 0 {
        Top := 0;
      }
      if CX < Left {
        Left := CX;
      }
      if CX >= Left + w {
        Left := CX - w + 1;
      }
      if Left < 0 {
        Left := 0;
      }
    }

    method SetCursorFromClick(x: int, y: int, w: int, h: int)
      requires Valid()
      modifies this`CY, this`CX
      ensures Valid()
      ensures CY == if Top + y < 0 then 0 else if |Lines| <= Top + y then |Lines| - 1 else Top + y
      ensures CX == if Left + x < 0 then 0 else if |Lines[CY]| < Left + x then |Lines[CY]| else Left + x
    {
      var line := Top + y;
      if line < 0 {
        line := 0;
      }
      if line >= |Lines| {
        line := |Lines| - 1;
      }
      var col := Left + x;
      if col < 0 {
        col := 0;
      }
      if col > |Lines[line]| {
        col := |Lines[line]|;
      }
      CY, CX := line, col;
    }
  }

  lemma StepInLine(ls: seq<string>, cy: nat, cx: nat)
    requires cy < |ls| && cx < |ls[cy]|
    ensures ViewAt(ls, cy, cx) == Leftward(ViewAt(ls, cy, cx + 1))
    ensures ViewAt(ls, cy, cx + 1) == Rightward(ViewAt(ls, cy, cx))
  {
    var c := ls[cy][cx];
    assert ls[cy][..cx + 1] == ls[cy][..cx] + [c] && ls[cy][cx..] == [c] + ls[cy][cx + 1..];
    var h, t := Heads(ls[..cy]), Tails(ls[cy + 1..]);
    assert h + ls[cy][..cx + 1] == (h + ls[cy][..cx]) + [c];
    assert ls[cy][cx..] + t == [c] + (ls[cy][cx + 1..] + t);
  }

  /** Typing a character and erasing it leaves buffer and cursor as they were. */
  method TypeAndErase(e: Editor, r: char)
    requires e.Valid() && NoNewlines(e.Lines) && r != '\n'
    modifies e
    ensures e.Lines == old(e.Lines) && e.CY == old(e.CY) && e.CX == old(e.CX)
  {
    ghost var ls, cy, cx := e.Lines, e.CY, e.CX;
    e.Insert(r);
    e.Backspace();
    ViewDetermines(e.Lines, e.CY, e.CX, ls, cy, cx);
  }

  /** So does breaking a line and erasing the break. */
  method BreakAndErase(e: Editor)
    requires e.Valid() && NoNewlines(e.Lines)
    modifies e
    ensures e.Lines == old(e.Lines) && e.CY == old(e.CY) && e.CX == old(e.CX)
  {
    ghost var ls, cy, cx := e.Lines, e.CY, e.CX;
    e.Newline();
    e.Backspace();
    ViewDetermines(e.Lines, e.CY, e.CX, ls, cy, cx);
  }
}
