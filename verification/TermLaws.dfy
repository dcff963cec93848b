/** What terminals send, and that the decoder reads it back (internal/term/input.go). */
module TermLaws {
  import opened Unicode
  import opened TermInput
  import Decimal
  import Text

  // ---- what is sent -------------------------------------------------------

  /** What the mouse did; wheel buttons beyond the first all count as down. */
  datatype Act = Press(button: int) | Release(button: int) | Drag(button: int) | Hover | Wheel(button: int, moving: bool)

  /** Shift is sent but not reported. */
  datatype Mods = Mods(shift: bool, alt: bool, ctrl: bool)

  /** A mouse report: modifiers are sent but not reported, and buttons of higher banks pass for those of the first. */
  datatype Report = Report(act: Act, mods: Mods, bank: nat)

  datatype Input =
    | Plain(r: int)                       // a printed rune
    | Control(c: int)                     // Ctrl with a letter, or with one of the four runes after z
    | Return(lf: bool)
    | TabKey
    | Rubout(del: bool)
    | CtrlSpace
    | Alone                               // the Escape key: the byte, then a pause
    | Alt(r: int)
    | Ss3(name: Name)                     // arrows, Home, End, F1 to F4 in application mode
    | Csi(name: Name, mods: Mods)         // arrows, Home, End, Shift-Tab
    | Tilde(name: Name, other: bool, mods: Mods)   // editing and function keys; some terminals number Home and End otherwise
    | Sgr(report: Report, x: nat, y: nat)
    | X10(report: Report, x: nat, y: nat)

  predicate ValidAct(a: Act) {
    match a
    case Press(b) => 0 <= b <= 2
    case Drag(b) => 0 <= b <= 2
    case Release(b) => 0 <= b <= 3
    case Wheel(b, _) => 0 <= b <= 3
    case Hover => true
  }

  predicate HasLetter(k: Name) {
    k.Up? || k.Down? || k.Right? || k.Left? || k.Home? || k.End?
  }

  predicate HasNumber(k: Name) {
    k.Home? || k.Insert? || k.Delete? || k.End? || k.PgUp? || k.PgDn? || (k.F? && 1 <= k.n <= 12)
  }

  predicate Sendable(i: Input) {
    match i
    case Plain(r) => Scalar(r) && 0x20 <= r && r != 0x7f
    case Control(c) =>
      ('a' as int <= c <= 'z' as int && c != 'h' as int && c != 'i' as int && c != 'j' as int && c != 'm' as int)
      || 0x7c <= c <= 0x7f
    case Return(_) | TabKey | Rubout(_) | CtrlSpace | Alone => true
    case Alt(r) => Scalar(r) && r != ESC && r != '[' as int && r != 'O' as int
    case Ss3(k) => HasLetter(k) || (k.F? && 1 <= k.n <= 4)
    case Csi(k, _) => HasLetter(k) || k.ShiftTab?
    case Tilde(k, _, _) => HasNumber(k)
    case Sgr(a, x, y) =>
      ValidAct(a.act) && SgrCode(a) <= Decimal.MAX_INT && x < Decimal.MAX_INT && y < Decimal.MAX_INT
    case X10(a, x, y) => ValidAct(a.act) && a.bank == 0 && x <= 222 && y <= 222
  }

  // ---- what it means ------------------------------------------------------

  function MouseOf(a: Act, x: int, y: int): Mouse {
    match a
    case Press(b) => Mouse(x, y, b, true, false, false, 0)
    case Release(_) => Mouse(x, y, -1, false, true, false, 0)
    case Drag(b) => Mouse(x, y, b, false, false, true, 0)
    case Hover => Mouse(x, y, -1, false, false, true, 0)
    case Wheel(b, moving) => Mouse(x, y, 0, false, false, moving, if b == 0 then -1 else 1)
  }

  /** The older report does not tell a wheel turned while moving. */
  function Older(m: Mouse): Mouse {
    if m.wheel != 0 then m.(motion := false) else m
  }

  function Meaning(i: Input): Event {
    match i
    case Plain(r) => EvKey(Key(NoName, r, false, false))
    case Control(c) => EvKey(Key(Letter(c), 0, true, false))
    case Return(_) => Named(Enter)
    case TabKey => Named(Tab)
    case Rubout(_) => Named(Backspace)
    case CtrlSpace => EvKey(Key(Space, 0, true, false))
    case Alone => Named(Esc)
    case Alt(r) => EvKey(Key(NoName, r, false, true))
    case Ss3(k) => Named(k)
    case Csi(k, m) => EvKey(Key(k, 0, m.ctrl, m.alt))
    case Tilde(k, _, m) => EvKey(Key(k, 0, m.ctrl, m.alt))
    case Sgr(a, x, y) => EvMouse(MouseOf(a.act, x, y))
    case X10(a, x, y) => EvMouse(Older(MouseOf(a.act, x, y)))
  }

  // ---- how it is encoded --------------------------------------------------

  function Num(n: nat): (s: seq<Byte>)
    ensures s == Decimal.Codes(Decimal.Digits(n)) && s != []
  {
    var c := Decimal.Codes(Decimal.Digits(n));
    seq(|c|, i requires 0 <= i < |c| => c[i] as Byte)
  }

  function ModCode(m: Mods): nat {
    (if m.shift then 1 else 0) + (if m.alt then 2 else 0) + (if m.ctrl then 4 else 0)
  }

  /** The button bits and the motion and wheel bits; `free` is what a release puts in the button bits. */
  function ActCode(a: Act, free: nat): nat {
    match a
    case Press(b) => if 0 <= b then b else 0
    case Release(_) => free
    case Drag(b) => 32 + if 0 <= b then b else 0
    case Hover => 35
    case Wheel(b, moving) => (if moving then 96 else 64) + if 0 <= b then b else 0
  }

  function MouseMods(m: Mods): nat {
    (if m.shift then 4 else 0) + (if m.alt then 8 else 0) + (if m.ctrl then 16 else 0)
  }

  /** An SGR report tells which button was released, by its final byte; an X10 report only that one was. */
  function SgrCode(a: Report): nat {
    ActCode(a.act, if a.act.Release? && 0 <= a.act.button then a.act.button else 0) + MouseMods(a.mods) + 128 * a.bank
  }

  function X10Code(a: Report): nat {
    ActCode(a.act, 3) + MouseMods(a.mods)
  }

  const SEMI: Byte := 59

  /** The final byte of a key sent as a letter, after CSI or SS3. */
  function LetterOf(k: Name): Byte {
    match k
    case Up => 'A' as int
    case Down => 'B' as int
    case Right => 'C' as int
    case Left => 'D' as int
    case Home => 'H' as int
    case End => 'F' as int
    case ShiftTab => 'Z' as int
    case F(n) => if 1 <= n <= 4 then 'O' as int + n else 0
    case _ => 0
  }

  /** The number of a key sent as CSI number tilde; 16 and 22 are skipped. */
  function NumberOf(k: Name, other: bool): nat {
    match k
    case Home => if other then 7 else 1
    case Insert => 2
    case Delete => 3
    case End => if other then 8 else 4
    case PgUp => 5
    case PgDn => 6
    case F(n) => if n <= 5 then 10 + n else if n <= 10 then 11 + n else 12 + n
    case _ => 0
  }

  function Params(i: Input): seq<Byte> {
    match i
    case Csi(_, m) => if ModCode(m) == 0 then [] else Num(1) + [SEMI] + Num(ModCode(m) + 1)
    case Tilde(k, other, m) =>
      if ModCode(m) == 0 then Num(NumberOf(k, other)) else Num(NumberOf(k, other)) + [SEMI] + Num(ModCode(m) + 1)
    case Sgr(a, x, y) => ['<' as int] + (Num(SgrCode(a)) + [SEMI] + Num(x + 1) + [SEMI] + Num(y + 1))
    case _ => []
  }

  function Final(i: Input): Byte {
    match i
    case Csi(k, _) => LetterOf(k)
    case Tilde(_, _, _) => '~' as int
    case Sgr(a, _, _) => if a.act.Release? then 'm' as int else 'M' as int
    case _ => 0
  }

  /** The bytes of an input, for all but the Escape key alone. */
  function Bytes(i: Input): seq<Byte>
    requires Sendable(i)
  {
    match i
    case Plain(r) => Utf8(r)
    case Control(c) => [c % 32]
    case Return(lf) => [if lf then 10 else 13]
    case TabKey => [9]
    case Rubout(del) => [if del then 0x7f else 8]
    case CtrlSpace => [0]
    case Alone => [ESC]
    case Alt(r) => [ESC] + Utf8(r)
    case Ss3(k) => [ESC, 'O' as int, LetterOf(k)]
    case X10(a, x, y) => [ESC, '[' as int, 'M' as int, 32 + X10Code(a), 33 + x, 33 + y]
    case _ => [ESC, '[' as int] + Params(i) + [Final(i)]
  }

  function Syms(s: seq<Byte>): (ss: seq<Sym>)
    ensures |ss| == |s| && forall i :: 0 <= i < |ss| ==> ss[i] == B(s[i])
  {
    seq(|s|, i requires 0 <= i < |s| => B(s[i]))
  }

  function Encode(i: Input): seq<Sym>
    requires Sendable(i)
  {
    Syms(Bytes(i)) + if i.Alone? then [Pause] else []
  }

  // ---- framing ------------------------------------------------------------

  /** A sequence that the reader takes as one: complete, no proper beginning is, and below the cap. */
  predicate Framed(s: seq<Byte>) {
    && 2 <= |s| <= 129 && s[0] == ESC && Complete(s)
    && forall j :: 2 <= j < |s| ==> !Complete(s[..j])
  }

  lemma {:induction false} FramedIsCollected(s: seq<Byte>, k: nat, rest: seq<Sym>)
    requires Framed(s) && 1 <= k < |s|
    ensures Collect(s[..k], Syms(s[k..]) + rest) == (s, rest)
    decreases |s| - k
  {
    hide Complete;
    var input := Syms(s[k..]) + rest;
    assert input[0] == B(s[k]);
    assert input[1..] == Syms(s[k + 1..]) + rest;
    assert s[..k] + [s[k]] == s[..k + 1];
    if k + 1 == |s| {
      assert s[..k + 1] == s && Syms(s[k + 1..]) == [];
    } else {
      FramedIsCollected(s, k + 1, rest);
    }
  }

  lemma DecodeFramed(s: seq<Byte>, rest: seq<Sym>)
    requires Framed(s)
    ensures Decode(Syms(s) + rest) == [ParseEscape(s)] + Decode(rest)
  {
    hide Complete, ParseEscape, Collect;
    FramedIsCollected(s, 1, rest);
    assert (Syms(s) + rest)[1..] == Syms(s[1..]) + rest;
    assert s[..1] == [ESC];
  }

  predicate ParamBytes(p: seq<Byte>) {
    forall i :: 0 <= i < |p| ==> p[i] < 0x40
  }

  lemma CsiIsFramed(p: seq<Byte>, final: Byte)
    requires ParamBytes(p) && |p| <= 126 && IsFinal(final) && (p == [] ==> final != 'M' as int)
    ensures Framed([ESC, '[' as int] + p + [final])
  {
    var s: seq<Byte> := [ESC, '[' as int] + p + [final];
    assert IsFinal(s[|s| - 1]);
    forall j | 2 <= j < |s| ensures !Complete(s[..j]) {
      assert forall i :: 2 <= i < j ==> s[..j][i] == p[i - 2];
    }
  }

  lemma X10IsFramed(a: Byte, x: Byte, y: Byte)
    ensures Framed([ESC, '[' as int, 'M' as int, a, x, y])
  {
    var s: seq<Byte> := [ESC, '[' as int, 'M' as int, a, x, y];
    assert s[..2] == [ESC, '[' as int];
  }

  lemma Utf8Whole(r: int)
    requires Scalar(r)
    ensures FullRune(Utf8(r))
    ensures Utf8(r)[0] < 0x80 ==> Utf8(r) == [r]
  {
    hide DecodeRune, LeadLen;
    Utf8Decodes(r);
  }

  lemma AltIsFramed(r: int)
    requires Scalar(r) && r != '[' as int && r != 'O' as int
    ensures Framed([ESC] + Utf8(r))
  {
    hide Utf8, FullRune, DecodeRune, RuneSize, LeadLen;
    Utf8Whole(r);
    var p := Utf8(r);
    var s: seq<Byte> := [ESC] + p;
    assert s[1..] == p;
    forall j | 2 <= j < |s| ensures !Complete(s[..j]) {
      Utf8NotFullEarly(r, j - 1);
      assert s[..j][1..] == p[..j - 1];
    }
  }

  // ---- parameters ---------------------------------------------------------

  function Pow10(k: nat): nat { if k == 0 then 1 else 10 * Pow10(k - 1) }

  lemma {:induction false} DigitsAtMost(n: nat, k: nat)
    requires 1 <= k && n < Pow10(k)
    ensures |Decimal.Digits(n)| <= k
  {
    if 10 <= n {
      assert Pow10(1) == 10;
      DigitsAtMost(n / 10, k - 1);
    }
  }

  lemma FourMoreZeros(k: nat)
    ensures Pow10(k + 4) == 10_000 * Pow10(k)
  {
    assert Pow10(k + 2) == 100 * Pow10(k);
  }

  lemma TenToThe19()
    ensures Pow10(19) == 10_000_000_000_000_000_000
  {
    assert Pow10(3) == 1000;
    FourMoreZeros(3);
    FourMoreZeros(7);
    FourMoreZeros(11);
    FourMoreZeros(15);
  }

  /** Every number the decoder's int holds has at most 19 digits. */
  lemma NumBytes(n: nat)
    requires n <= Decimal.MAX_INT
    ensures 1 <= |Num(n)| <= 19 && ParamBytes(Num(n)) && 59 !in Num(n)
  {
    TenToThe19();
    DigitsAtMost(n, 19);
  }

  lemma TrimNum(n: nat)
    ensures TrimCodes(Num(n)) == Num(n)
  {
    hide Decimal.Digits;
    var p := Num(n);
    assert 48 <= p[0] && 48 <= p[|p| - 1];
  }

  lemma NumsCons(n: nat, more: seq<seq<int>>)
    requires n <= Decimal.MAX_INT
    ensures Nums([Num(n)] + more) == [n as int] + Nums(more)
  {
    hide Decimal.Digits, Decimal.Value, TrimCodes;
    TrimNum(n);
    Decimal.NumeralOfDigits(n);
    var p: seq<int> := Num(n);
    assert Decimal.Unsigned(p) == (false, p);
    var parts: seq<seq<int>> := [p] + more;
    assert parts[1..] == more;
  }

  lemma SemiAt(s: seq<int>, k: nat)
    ensures Text.OccursAt(s, [59], k) <==> k < |s| && s[k] == 59
  {
    if k < |s| {
      assert s[k..k + 1] == [s[k]];
    }
  }

  lemma SplitLast(p: seq<int>)
    requires 59 !in p
    ensures Text.Split(p, [59]) == [p]
  {
    forall k: nat ensures !Text.OccursAt(p, [59], k) {
      SemiAt(p, k);
    }
  }

  lemma SplitFirst(p: seq<int>, rest: seq<int>)
    requires 59 !in p
    ensures Text.Split(p + [59] + rest, [59]) == [p] + Text.Split(rest, [59])
  {
    var s := p + [59] + rest;
    forall k: nat | k < |p| ensures !Text.OccursAt(s, [59], k) {
      SemiAt(s, k);
    }
    SemiAt(s, |p|);
    assert Text.Index(s, [59]) == |p|;
    assert s[..|p|] == p && s[|p| + 1..] == rest;
  }

  /** One decimal parameter is read back. */
  lemma OneNum(a: nat)
    requires a <= Decimal.MAX_INT
    ensures SplitNums(Num(a)) == [a as int]
  {
    hide Text.Split, Nums;
    NumBytes(a);
    SplitLast(Num(a));
    NumsCons(a, []);
    var parts: seq<seq<int>> := [Num(a)];
    assert parts + [] == parts;
    NumsOfNone();
  }

  lemma NumsOfNone()
    ensures Nums([]) == []
  {
  }

  lemma TwoNums(a: nat, b: nat)
    requires a <= Decimal.MAX_INT && b <= Decimal.MAX_INT
    ensures SplitNums(Num(a) + [SEMI] + Num(b)) == [a as int, b as int]
  {
    hide Text.Split, Nums;
    NumBytes(a);
    NumBytes(b);
    var tail: seq<int> := Num(b);
    SplitFirst(Num(a), tail);
    NumsCons(a, Text.Split(tail, [59]));
    OneNum(b);
  }

  lemma ThreeNums(a: nat, b: nat, c: nat)
    requires a <= Decimal.MAX_INT && b <= Decimal.MAX_INT && c <= Decimal.MAX_INT
    ensures SplitNums(Num(a) + [SEMI] + Num(b) + [SEMI] + Num(c)) == [a as int, b as int, c as int]
  {
    hide Text.Split, Nums;
    NumBytes(a);
    NumBytes(b);
    var tail: seq<int> := Num(b) + [SEMI] + Num(c);
    assert Num(a) + [SEMI] + Num(b) + [SEMI] + Num(c) == Num(a) + [SEMI] + tail;
    SplitFirst(Num(a), tail);
    NumsCons(a, Text.Split(tail, [59]));
    TwoNums(b, c);
  }

  // ---- one input ----------------------------------------------------------

  /** Alt is bit 1 and Ctrl bit 2 of the number after the last semicolon, less one. */
  lemma ModBits(m: Mods)
    ensures Bit(ModCode(m), 4) == m.ctrl && Bit(ModCode(m), 2) == m.alt
  {
  }

  lemma BitsAbove(rest: nat, a: nat, b: nat, k: nat)
    requires rest < 32 && a < 2 && b < 2
    ensures var code := rest + 32 * a + 64 * b + 128 * k;
            code % 4 == rest % 4 && Bit(code, 32) == (a == 1) && Bit(code, 64) == (b == 1)
  {
    var code := rest + 32 * a + 64 * b + 128 * k;
    assert code / 32 == a + 2 * b + 4 * k;
    assert code / 64 == b + 2 * k;
  }

  /** The bits of a report's code: button, motion, wheel; modifiers and bank lie between and above. */
  lemma CodeBits(low: nat, moving: bool, wheel: bool, m: Mods, bank: nat)
    requires low < 4
    ensures var code := low + (if moving then 32 else 0) + (if wheel then 64 else 0) + MouseMods(m) + 128 * bank;
            code % 4 == low && Bit(code, 32) == moving && Bit(code, 64) == wheel
  {
    hide Bit;
    BitsAbove(low + MouseMods(m), if moving then 1 else 0, if wheel then 1 else 0, bank);
  }

  function Low(a: Act, free: nat): nat {
    match a
    case Hover => 3
    case Release(_) => free
    case _ => if 0 <= a.button then a.button else 0
  }

  lemma ActBits(a: Act, free: nat, m: Mods, bank: nat)
    requires ValidAct(a) && free < 4
    ensures var code := ActCode(a, free) + MouseMods(m) + 128 * bank;
            && code % 4 == Low(a, free)
            && Bit(code, 32) == (a.Drag? || a.Hover? || (a.Wheel? && a.moving)) && Bit(code, 64) == a.Wheel?
  {
    hide Bit, MouseMods;
    CodeBits(Low(a, free), a.Drag? || a.Hover? || (a.Wheel? && a.moving), a.Wheel?, m, bank);
  }

  lemma SgrBits(a: Report, x: nat, y: nat)
    requires ValidAct(a.act)
    ensures SgrMouse(SgrCode(a), x + 1, y + 1, Final(Sgr(a, x, y))) == MouseOf(a.act, x, y)
  {
    hide Bit, MouseMods, ActCode;
    ActBits(a.act, if a.act.Release? then a.act.button else 0, a.mods, a.bank);
  }

  lemma X10Reads(a: Report, x: nat, y: nat)
    requires Sendable(X10(a, x, y))
    ensures X10Code(a) <= 128
    ensures X10Mouse([ESC, '[' as int, 'M' as int, 32 + X10Code(a), 33 + x, 33 + y]) == Older(MouseOf(a.act, x, y))
  {
    hide Bit, SgrCode;
    ActBits(a.act, 3, a.mods, 0);
  }

  lemma CsiBody(p: seq<Byte>, final: Byte)
    ensures var s: seq<Byte> := [ESC, '[' as int] + p + [final];
            s[2..] == p + [final] && s[2..][..|p|] == p
            && s[1] == '[' as int && s[2] == if p == [] then final else p[0]
  {
  }

  lemma KeyCsiReads(p: seq<Byte>, final: Byte, mods: int)
    requires p == [] || p[0] != '<' as int
    requires p == [] ==> final != 'M' as int
    requires ParamBytes(p)
    requires mods == if 2 <= |SplitNums(p)| then SplitNums(p)[|SplitNums(p)| - 1] - 1 else 0
    ensures ParseEscape([ESC, '[' as int] + p + [final])
         == EvKey(Key(CsiKey(final, SplitNums(p)), 0, Bit(mods, 4), Bit(mods, 2)))
  {
    assert p != [] ==> p[0] != 'M' as int;
    hide SplitNums, CsiKey, DecodeRune, SgrMouse, X10Mouse, Bit, ParamBytes;
    CsiBody(p, final);
  }

  lemma MouseCsiReads(p: seq<Byte>, final: Byte)
    requires 3 <= |SplitNums(p)|
    ensures ParseEscape([ESC, '[' as int] + (['<' as int] + p) + [final])
         == EvMouse(SgrMouse(SplitNums(p)[0], SplitNums(p)[1], SplitNums(p)[2], final))
  {
    hide SplitNums, CsiKey, DecodeRune, SgrMouse, X10Mouse, Bit;
    var q: seq<Byte> := ['<' as int] + p;
    var s: seq<Byte> := [ESC, '[' as int] + q + [final];
    assert s[2..] == q + [final];
    assert s[2..][..|q|] == q && q[1..] == p;
  }

  lemma LetterReads(k: Name)
    requires HasLetter(k) || k.ShiftTab?
    ensures IsFinal(LetterOf(k)) && LetterOf(k) != 'M' as int
    ensures forall nums :: CsiKey(LetterOf(k), nums) == k
  {
  }

  lemma NumberReads(k: Name, other: bool)
    requires HasNumber(k)
    ensures NumberOf(k, other) <= 24 && TildeKey(NumberOf(k, other)) == k
  {
  }

  lemma CsiReads(k: Name, m: Mods)
    requires HasLetter(k) || k.ShiftTab?
    ensures Framed(Bytes(Csi(k, m))) && ParseEscape(Bytes(Csi(k, m))) == Meaning(Csi(k, m))
  {
    hide ParseEscape, SplitNums, Decimal.Digits, Framed, Bit, CsiKey, LetterOf, IsFinal;
    LetterReads(k);
    var final := LetterOf(k);
    var p := Params(Csi(k, m));
    ModBits(m);
    NumBytes(1);
    NumBytes(ModCode(m) + 1);
    TwoNums(1, ModCode(m) + 1);
    SplitNone();
    KeyCsiReads(p, final, ModCode(m));
    CsiIsFramed(p, final);
  }

  lemma SplitNone()
    ensures SplitNums([]) == []
  {
  }

  lemma TildeReads(k: Name, other: bool, m: Mods)
    requires HasNumber(k)
    ensures Framed(Bytes(Tilde(k, other, m))) && ParseEscape(Bytes(Tilde(k, other, m))) == Meaning(Tilde(k, other, m))
  {
    hide ParseEscape, SplitNums, Decimal.Digits, Framed, Bit, TildeKey, NumberOf;
    NumberReads(k, other);
    var n := NumberOf(k, other);
    var p := Params(Tilde(k, other, m));
    ModBits(m);
    NumBytes(n);
    NumBytes(ModCode(m) + 1);
    OneNum(n);
    TwoNums(n, ModCode(m) + 1);
    NumStart(n);
    KeyCsiReads(p, '~' as int, ModCode(m));
    CsiIsFramed(p, '~' as int);
  }

  lemma NumStart(n: nat)
    ensures Num(n)[0] < 58
  {
  }

  lemma SgrReads(a: Report, x: nat, y: nat)
    requires Sendable(Sgr(a, x, y))
    ensures Framed(Bytes(Sgr(a, x, y))) && ParseEscape(Bytes(Sgr(a, x, y))) == Meaning(Sgr(a, x, y))
  {
    hide ParseEscape, SplitNums, Decimal.Digits, Framed, SgrMouse, SgrCode;
    var code := SgrCode(a);
    var final := Final(Sgr(a, x, y));
    var p := Num(code) + [SEMI] + Num(x + 1) + [SEMI] + Num(y + 1);
    NumBytes(code);
    NumBytes(x + 1);
    NumBytes(y + 1);
    ThreeNums(code, x + 1, y + 1);
    SgrBits(a, x, y);
    MouseCsiReads(p, final);
    CsiIsFramed(['<' as int] + p, final);
  }

  function SgrBytes(a: Report, x: nat, y: nat): (s: seq<Byte>)
    ensures 3 <= |s|
  {
    [ESC, '[' as int] + Params(Sgr(a, x, y)) + [Final(Sgr(a, x, y))]
  }

  lemma NumsStop(n: nat, more: seq<seq<int>>)
    requires Decimal.MAX_INT < n
    ensures Nums([Num(n)] + more) == []
  {
    hide Decimal.Digits, Decimal.Value, TrimCodes;
    TrimNum(n);
    Decimal.NumeralOfDigits(n);
    var p: seq<int> := Num(n);
    assert Decimal.Unsigned(p) == (false, p);
    var parts: seq<seq<int>> := [p] + more;
    assert parts[0] == p;
  }

  lemma NumBytesOf(n: nat)
    ensures ParamBytes(Num(n)) && 59 !in Num(n)
  {
  }

  lemma LastTooWide(b: nat)
    requires Decimal.MAX_INT < b
    ensures SplitNums(Num(b)) == []
  {
    hide Text.Split, Nums;
    NumBytesOf(b);
    SplitLast(Num(b));
    NumsStop(b, []);
    var parts: seq<seq<int>> := [Num(b)];
    assert parts + [] == parts;
  }

  lemma PairTooWide(a: nat, b: nat)
    requires Decimal.MAX_INT < a || Decimal.MAX_INT < b
    ensures |SplitNums(Num(a) + [SEMI] + Num(b))| <= 1
  {
    hide Text.Split, Nums;
    NumBytesOf(a);
    var tail: seq<int> := Num(b);
    SplitFirst(Num(a), tail);
    if Decimal.MAX_INT < a {
      NumsStop(a, Text.Split(tail, [59]));
    } else {
      NumsCons(a, Text.Split(tail, [59]));
      LastTooWide(b);
    }
  }

  lemma TripleTooWide(a: nat, b: nat, c: nat)
    requires Decimal.MAX_INT < a || Decimal.MAX_INT < b || Decimal.MAX_INT < c
    ensures |SplitNums(Num(a) + [SEMI] + Num(b) + [SEMI] + Num(c))| <= 2
  {
    hide Text.Split, Nums;
    NumBytesOf(a);
    var tail: seq<int> := Num(b) + [SEMI] + Num(c);
    assert Num(a) + [SEMI] + Num(b) + [SEMI] + Num(c) == Num(a) + [SEMI] + tail;
    SplitFirst(Num(a), tail);
    if Decimal.MAX_INT < a {
      NumsStop(a, Text.Split(tail, [59]));
    } else {
      NumsCons(a, Text.Split(tail, [59]));
      PairTooWide(b, c);
    }
  }

  lemma ShortMouseCsi(p: seq<Byte>, final: Byte)
    requires |SplitNums(p)| < 3
    ensures ParseEscape([ESC, '[' as int] + (['<' as int] + p) + [final]) == Named(Unknown)
  {
    hide SplitNums, CsiKey, DecodeRune, SgrMouse, X10Mouse, Bit;
    var q: seq<Byte> := ['<' as int] + p;
    var s: seq<Byte> := [ESC, '[' as int] + q + [final];
    assert s[2..] == q + [final];
    assert s[2..][..|q|] == q && q[1..] == p;
  }

  lemma SgrFramed(a: Report, x: nat, y: nat)
    requires |Params(Sgr(a, x, y))| <= 126
    ensures Framed(SgrBytes(a, x, y))
  {
    hide Decimal.Digits, Framed;
    NumBytesOf(SgrCode(a));
    NumBytesOf(x + 1);
    NumBytesOf(y + 1);
    CsiIsFramed(Params(Sgr(a, x, y)), Final(Sgr(a, x, y)));
  }

  lemma SgrTooWide(a: Report, x: nat, y: nat)
    requires Decimal.MAX_INT < SgrCode(a) || Decimal.MAX_INT <= x || Decimal.MAX_INT <= y
    ensures ParseEscape(SgrBytes(a, x, y)) == Named(Unknown)
  {
    hide ParseEscape, SplitNums, Num;
    var code := SgrCode(a);
    TripleTooWide(code, x + 1, y + 1);
    ShortMouseCsi(Num(code) + [SEMI] + Num(x + 1) + [SEMI] + Num(y + 1), Final(Sgr(a, x, y)));
  }

  /** Below the cap a mouse report is read back exactly when its code and both coordinates fit the decoder's int. */
  lemma SgrExact(a: Report, x: nat, y: nat, rest: seq<Sym>)
    requires ValidAct(a.act) && |Params(Sgr(a, x, y))| <= 126
    ensures Decode(Syms(SgrBytes(a, x, y)) + rest) == [EvMouse(MouseOf(a.act, x, y))] + Decode(rest)
        <==> SgrCode(a) <= Decimal.MAX_INT && x < Decimal.MAX_INT && y < Decimal.MAX_INT
  {
    hide Decode, ParseEscape, Framed, Params, Final, SgrBytes;
    SgrFramed(a, x, y);
    DecodeFramed(SgrBytes(a, x, y), rest);
    var read := [ParseEscape(SgrBytes(a, x, y))] + Decode(rest);
    assert read[0] == ParseEscape(SgrBytes(a, x, y));
    if SgrCode(a) <= Decimal.MAX_INT && x < Decimal.MAX_INT && y < Decimal.MAX_INT {
      SgrIsBytes(a, x, y);
      SgrReads(a, x, y);
    } else {
      SgrTooWide(a, x, y);
    }
  }

  lemma SgrIsBytes(a: Report, x: nat, y: nat)
    requires Sendable(Sgr(a, x, y))
    ensures SgrBytes(a, x, y) == Bytes(Sgr(a, x, y))
  {
  }

  lemma AltReads(r: int)
    requires Sendable(Alt(r))
    ensures Framed(Bytes(Alt(r))) && ParseEscape(Bytes(Alt(r))) == Meaning(Alt(r))
  {
    hide Utf8, Framed, DecodeRune, ParseCsi, X10Mouse;
    AltIsFramed(r);
    Utf8Decodes(r);
    Utf8Whole(r);
    var s := Bytes(Alt(r));
    assert s[1..] == Utf8(r);
  }

  lemma Ss3Reads(k: Name)
    requires Sendable(Ss3(k))
    ensures Framed(Bytes(Ss3(k))) && ParseEscape(Bytes(Ss3(k))) == Meaning(Ss3(k))
  {
    var s := Bytes(Ss3(k));
    assert s[..2] == [ESC, 'O' as int];
  }

  lemma {:induction false} GatherWhole(p: seq<Byte>, k: nat, rest: seq<Sym>)
    requires 1 <= k <= |p|
    ensures Gather(p[..k], |p|, Syms(p[k..]) + rest) == (p, rest)
    decreases |p| - k
  {
    if k == |p| {
      assert p[..k] == p && Syms(p[k..]) + rest == rest;
    } else {
      var input := Syms(p[k..]) + rest;
      assert input[1..] == Syms(p[k + 1..]) + rest;
      assert p[..k] + [p[k]] == p[..k + 1];
      GatherWhole(p, k + 1, rest);
    }
  }

  lemma DecodeByteFirst(b: Byte, rest: seq<Sym>)
    requires b != ESC
    ensures Decode([B(b)] + rest) == [DecodeByte(b, rest).0] + Decode(DecodeByte(b, rest).1)
  {
    hide DecodeByte;
    assert ([B(b)] + rest)[1..] == rest;
  }

  /** The decoder waits for as many bytes as an encoded rune has. */
  lemma LeadAnnounces(r: int)
    requires Scalar(r) && 0x80 <= r
    ensures LeadLen(Utf8(r)[0]) == |Utf8(r)|
  {
    Utf8Decodes(r);
  }

  lemma PlainReads(r: int, rest: seq<Sym>)
    requires Sendable(Plain(r))
    ensures Decode(Syms(Utf8(r)) + rest) == [Meaning(Plain(r))] + Decode(rest)
  {
    hide Utf8, DecodeRune, Decode, LeadLen, RuneSize, Gather, FullRune;
    var p := Utf8(r);
    Utf8Decodes(r);
    Utf8Whole(r);
    var tail := Syms(p[1..]) + rest;
    assert Syms(p) + rest == [B(p[0])] + tail;
    DecodeByteFirst(p[0], tail);
    assert p[..1] == [p[0]];
    if p[0] < 0x80 {
      assert tail == rest;
    } else {
      LeadAnnounces(r);
      GatherWhole(p, 1, rest);
    }
  }

  lemma AloneReads(rest: seq<Sym>)
    ensures Decode([B(ESC), Pause] + rest) == [Named(Esc)] + Decode(rest)
  {
    var s := [B(ESC), Pause] + rest;
    assert s[1..] == [Pause] + rest;
    assert s[1..][1..] == rest;
  }

  predicate OneByte(i: Input) {
    i.Control? || i.Return? || i.TabKey? || i.Rubout? || i.CtrlSpace?
  }

  /** Decoding the encoding of one input gives its meaning and leaves the rest of the stream alone. */
  lemma ReadsBack(i: Input, rest: seq<Sym>)
    requires Sendable(i)
    ensures Decode(Encode(i) + rest) == [Meaning(i)] + Decode(rest)
  {
    hide Decode, ParseEscape, Framed, Utf8, DecodeByte, X10Mouse, Num, Params;
    if i.Alone? {
      assert Encode(i) == [B(ESC), Pause];
      AloneReads(rest);
    } else if OneByte(i) {
      OneByteReads(i, rest);
    } else {
      assert Encode(i) + rest == Syms(Bytes(i)) + rest;
      if i.Plain? {
        PlainReads(i.r, rest);
      } else {
        FramedReads(i);
        DecodeFramed(Bytes(i), rest);
      }
    }
  }

  lemma OneByteReads(i: Input, rest: seq<Sym>)
    requires Sendable(i) && OneByte(i)
    ensures Decode(Encode(i) + rest) == [Meaning(i)] + Decode(rest)
  {
    hide Decode;
    var b := Bytes(i)[0];
    assert Encode(i) + rest == [B(b)] + rest;
    DecodeByteFirst(b, rest);
  }

  lemma FramedReads(i: Input)
    requires Sendable(i) && !i.Plain? && !OneByte(i) && !i.Alone?
    ensures Framed(Bytes(i)) && ParseEscape(Bytes(i)) == Meaning(i)
  {
    hide Framed, Utf8, X10Mouse, Num, Params, ParseCsi, DecodeRune;
    match i
    case Alt(r) => AltReads(r);
    case Ss3(k) => Ss3Reads(k);
    case Csi(k, m) => CsiReads(k, m);
    case Tilde(k, other, m) => TildeReads(k, other, m);
    case Sgr(a, x, y) => SgrReads(a, x, y);
    case X10(a, x, y) =>
      X10Reads(a, x, y);
      X10IsFramed(32 + X10Code(a), 33 + x, 33 + y);
  }

  // ---- any list of inputs -------------------------------------------------

  predicate AllSendable(inputs: seq<Input>) {
    forall k :: 0 <= k < |inputs| ==> Sendable(inputs[k])
  }

  function EncodeAll(inputs: seq<Input>): seq<Sym>
    requires AllSendable(inputs)
  {
    if inputs == [] then [] else Encode(inputs[0]) + EncodeAll(inputs[1..])
  }

  function Meanings(inputs: seq<Input>): (events: seq<Event>)
    ensures |events| == |inputs| && forall k :: 0 <= k < |events| ==> events[k] == Meaning(inputs[k])
  {
    seq(|inputs|, k requires 0 <= k < |inputs| => Meaning(inputs[k]))
  }

  /** Whatever is typed, run together, is decoded as exactly those events in that order. */
  lemma {:induction false} StreamReadsBack(inputs: seq<Input>)
    requires AllSendable(inputs)
    ensures Decode(EncodeAll(inputs)) == Meanings(inputs)
  {
    hide Encode, Meaning, Sendable;
    if inputs == [] {
    } else {
      ReadsBack(inputs[0], EncodeAll(inputs[1..]));
      StreamReadsBack(inputs[1..]);
      assert [Meaning(inputs[0])] + Meanings(inputs[1..]) == Meanings(inputs);
    }
  }
}
