/** Bytes, runes and UTF-8 (section 3 of RFC 3629), as Go's strings and conversions have them. */
module Unicode {
  type Byte = b: int | 0 <= b < 256

  type Bytes = seq<Byte>

  const RUNE_ERROR := 0xfffd

  predicate Scalar(r: int) { 0 <= r < 0xd800 || 0xe000 <= r < 0x110000 }

  // ---- one rune -----------------------------------------------------------

  /** How many bytes the first one announces, for a valid first byte; 1 otherwise. */
  function RuneSize(b: Byte): nat {
    if 0xc2 <= b <= 0xdf then 2 else if 0xe0 <= b <= 0xef then 3 else if 0xf0 <= b <= 0xf4 then 4 else 1
  }

  predicate Trail(b: Byte) { 0x80 <= b <= 0xbf }

  /** The second bytes allowed: no overlong forms, no surrogates, nothing above U+10FFFF. */
  predicate SecondOk(b0: Byte, b1: Byte) {
    if b0 == 0xe0 then 0xa0 <= b1 <= 0xbf
    else if b0 == 0xed then 0x80 <= b1 <= 0x9f
    else if b0 == 0xf0 then 0x90 <= b1 <= 0xbf
    else if b0 == 0xf4 then 0x80 <= b1 <= 0x8f
    else Trail(b1)
  }

  /** The rune of utf8.DecodeRune. */
  function DecodeRune(p: Bytes): (r: int)
    requires p != []
    ensures Scalar(r)
  {
    var n := RuneSize(p[0]);
    if p[0] < 0x80 then p[0]
    else if n == 1 || |p| < n || !SecondOk(p[0], p[1]) then RUNE_ERROR
    else if n == 2 then (p[0] as int - 0xc0) * 64 + (p[1] - 0x80)
    else if !Trail(p[2]) then RUNE_ERROR
    else if n == 3 then (p[0] as int - 0xe0) * 4096 + (p[1] as int - 0x80) * 64 + (p[2] - 0x80)
    else if !Trail(p[3]) then RUNE_ERROR
    else (p[0] as int - 0xf0) * 262144 + (p[1] as int - 0x80) * 4096 + (p[2] as int - 0x80) * 64 + (p[3] - 0x80)
  }

  /** Whether the bytes begin with an encoded rune. */
  predicate Starts(p: Bytes) {
    && p != []
    && var n := RuneSize(p[0]);
       p[0] < 0x80
       || (1 < n <= |p| && SecondOk(p[0], p[1]) && (2 < n ==> Trail(p[2])) && (3 < n ==> Trail(p[3])))
  }

  /** The size of utf8.DecodeRune: one byte where no rune begins. */
  function RuneLen(p: Bytes): (n: nat)
    requires p != []
    ensures 1 <= n <= |p|
  {
    if Starts(p) then RuneSize(p[0]) else 1
  }

  /** utf8.FullRune: an invalid beginning counts as full. */
  predicate FullRune(p: Bytes) {
    && p != []
    && (|p| >= RuneSize(p[0]) || (|p| > 1 && !SecondOk(p[0], p[1])) || (|p| > 2 && !Trail(p[2])))
  }

  function Utf8(r: int): (p: Bytes)
    requires Scalar(r)
    ensures 1 <= |p| <= 4
  {
    if r < 0x80 then [r]
    else if r < 0x800 then [0xc0 + r / 64, 0x80 + r % 64]
    else if r < 0x10000 then [0xe0 + r / 4096, 0x80 + r / 64 % 64, 0x80 + r % 64]
    else [0xf0 + r / 262144, 0x80 + r / 4096 % 64, 0x80 + r / 64 % 64, 0x80 + r % 64]
  }

  lemma Base64(r: nat)
    ensures r == r / 64 * 64 + r % 64
    ensures r / 64 == r / 4096 * 64 + r / 64 % 64
    ensures r / 4096 == r / 262144 * 64 + r / 4096 % 64
  {
  }

  /** Every scalar value is decoded from its UTF-8 bytes, and the first byte announces their number. */
  lemma Utf8Decodes(r: int)
    requires Scalar(r)
    ensures DecodeRune(Utf8(r)) == r && Starts(Utf8(r))
    ensures |Utf8(r)| == RuneSize(Utf8(r)[0])
    ensures 0x80 <= r ==> 0xc2 <= Utf8(r)[0] <= 0xf4
    ensures r < 0x80 <==> Utf8(r)[0] < 0x80
  {
    var p := Utf8(r);
    Base64(r);
    if r < 0x80 {
    } else if r < 0x800 {
      assert RuneSize(p[0]) == 2 && SecondOk(p[0], p[1]);
    } else if r < 0x10000 {
      assert RuneSize(p[0]) == 3 && SecondOk(p[0], p[1]) && Trail(p[2]);
    } else {
      assert RuneSize(p[0]) == 4 && SecondOk(p[0], p[1]) && Trail(p[2]) && Trail(p[3]);
    }
  }

  /** No proper beginning of an encoded rune passes for a full one. */
  lemma Utf8NotFullEarly(r: int, k: nat)
    requires Scalar(r) && 1 <= k < |Utf8(r)|
    ensures !FullRune(Utf8(r)[..k])
  {
    Utf8Decodes(r);
    var p := Utf8(r);
    assert 1 < k ==> SecondOk(p[0], p[1]);
    assert 2 < k ==> Trail(p[2]);
  }

  /** What stands after an encoded rune does not matter to it. */
  lemma DecodesAhead(p: Bytes, rest: Bytes)
    requires Starts(p)
    ensures DecodeRune(p + rest) == DecodeRune(p) && Starts(p + rest)
  {
  }

  /** The bytes an encoded rune was decoded from are its UTF-8. */
  lemma EncodesBack(p: Bytes)
    requires Starts(p)
    ensures Utf8(DecodeRune(p)) == p[..RuneSize(p[0])]
  {
    var n := RuneSize(p[0]);
    if n == 2 {
      Digits2(p[0] as int - 0xc0, p[1] - 0x80);
    } else if n == 3 {
      Digits3(p[0] as int - 0xe0, p[1] as int - 0x80, p[2] - 0x80);
    } else if n == 4 {
      Digits4(p[0] as int - 0xf0, p[1] as int - 0x80, p[2] as int - 0x80, p[3] - 0x80);
    }
  }

  lemma Digits2(a: nat, b: nat)
    requires b < 64
    ensures (a * 64 + b) / 64 == a && (a * 64 + b) % 64 == b
  {
  }

  lemma Digits3(a: nat, b: nat, c: nat)
    requires b < 64 && c < 64
    ensures var r := a * 4096 + b * 64 + c; r / 4096 == a && r / 64 % 64 == b && r % 64 == c
  {
    var r := a * 4096 + b * 64 + c;
    assert r / 64 == a * 64 + b;
    Digits2(a, b);
  }

  lemma Digits4(a: nat, b: nat, c: nat, d: nat)
    requires b < 64 && c < 64 && d < 64
    ensures var r := a * 262144 + b * 4096 + c * 64 + d;
            r / 262144 == a && r / 4096 % 64 == b && r / 64 % 64 == c && r % 64 == d
  {
    var r := a * 262144 + b * 4096 + c * 64 + d;
    assert r / 64 == a * 4096 + b * 64 + c;
    Digits3(a, b, c);
    assert r / 4096 == a * 64 + b && r / 262144 == a;
    Digits2(a, b);
  }

  // ---- texts --------------------------------------------------------------

  /** string(runes) */
  function Encoded(s: string): Bytes {
    if s == "" then [] else Utf8(s[0] as int) + Encoded(s[1..])
  }

  /** []rune(b): every byte that is part of no encoded rune becomes U+FFFD. */
  function Runes(b: Bytes): string {
    if b == [] then "" else [DecodeRune(b) as char] + Runes(b[RuneLen(b)..])
  }

  /** The bytes after a conversion to runes and back. */
  function Sane(b: Bytes): Bytes { Encoded(Runes(b)) }

  /** utf8.Valid: encoded runes and nothing else. */
  predicate IsText(b: Bytes) {
    b == [] || (Starts(b) && IsText(b[RuneLen(b)..]))
  }

  lemma {:induction false} EncodedConcat(s: string, t: string)
    ensures Encoded(s + t) == Encoded(s) + Encoded(t)
  {
    hide Utf8;
    if s == "" {
      assert s + t == t;
    } else {
      assert (s + t)[1..] == s[1..] + t;
      EncodedConcat(s[1..], t);
    }
  }

  lemma RuneAhead(r: int, rest: Bytes)
    requires Scalar(r)
    ensures Runes(Utf8(r) + rest) == [r as char] + Runes(rest)
    ensures IsText(rest) ==> IsText(Utf8(r) + rest)
  {
    hide Utf8, DecodeRune, Starts;
    var u := Utf8(r);
    Utf8Decodes(r);
    DecodesAhead(u, rest);
    assert (u + rest)[|u|..] == rest;
  }

  /** A text in front is read as it is, whatever bytes follow it. */
  lemma {:induction false} RunesOfText(s: string, b: Bytes)
    ensures Runes(Encoded(s) + b) == s + Runes(b)
  {
    hide Utf8, Runes;
    if s == "" {
      assert Encoded(s) + b == b;
    } else {
      var rest := Encoded(s[1..]) + b;
      assert Encoded(s) + b == Utf8(s[0] as int) + rest;
      RuneAhead(s[0] as int, rest);
      RunesOfText(s[1..], b);
    }
  }

  lemma {:induction false} EncodedIsText(s: string)
    ensures IsText(Encoded(s))
  {
    hide Utf8, IsText;
    if s == "" {
      NothingIsText();
    } else {
      RuneAhead(s[0] as int, Encoded(s[1..]));
      EncodedIsText(s[1..]);
    }
  }

  lemma NothingIsText()
    ensures IsText([])
  {
  }

  lemma SaneUnfolds(b: Bytes)
    requires b != []
    ensures Sane(b) == Utf8(DecodeRune(b)) + Sane(b[RuneLen(b)..])
  {
    hide Utf8, DecodeRune, RuneLen;
    assert Runes(b)[1..] == Runes(b[RuneLen(b)..]);
  }

  lemma TextUnfolds(b: Bytes)
    requires IsText(b) && b != []
    ensures Starts(b) && IsText(b[RuneLen(b)..])
  {
    hide Starts, RuneLen;
  }

  lemma FirstRune(b: Bytes)
    requires Starts(b)
    ensures b == Utf8(DecodeRune(b)) + b[RuneLen(b)..]
  {
    EncodesBack(b);
    hide Utf8, DecodeRune, RuneSize, SecondOk, Trail;
  }

  lemma {:induction false} TextIsSane(b: Bytes)
    requires IsText(b)
    ensures Sane(b) == b
  {
    hide Utf8, DecodeRune, RuneLen, IsText, Sane;
    if b == [] {
      NothingIsSane();
    } else {
      TextUnfolds(b);
      FirstRune(b);
      SaneUnfolds(b);
      TextIsSane(b[RuneLen(b)..]);
    }
  }

  lemma NothingIsSane()
    ensures Sane([]) == []
  {
  }

  /** Bytes come back from a conversion to runes and back exactly when they are valid UTF-8. */
  lemma SaneExact(b: Bytes)
    ensures Sane(b) == b <==> IsText(b)
  {
    EncodedIsText(Runes(b));
    if IsText(b) {
      TextIsSane(b);
    }
  }

  lemma AsciiAhead(a: Bytes, c: Byte, b: Bytes)
    requires a != [] && c < 0x80
    ensures DecodeRune(a + [c] + b) == DecodeRune(a) && RuneLen(a + [c] + b) == RuneLen(a)
  {
    var p := a + [c] + b;
    assert p[|a|] == c && p[..|a|] == a;
    assert Starts(p) <==> Starts(a);
  }

  /** An ASCII byte is read by itself and parts what is before it from what is after it. */
  lemma {:induction false} RunesAround(a: Bytes, c: Byte, b: Bytes)
    requires c < 0x80
    ensures Runes(a + [c] + b) == Runes(a) + [c as char] + Runes(b)
  {
    hide DecodeRune, Starts;
    if a == [] {
      var p := a + [c] + b;
      AsciiAlone(c, b);
      assert p == [c] + b && p[1..] == b;
    } else {
      AsciiAhead(a, c, b);
      var n := RuneLen(a);
      assert (a + [c] + b)[n..] == a[n..] + [c] + b;
      RunesAround(a[n..], c, b);
    }
  }

  lemma AsciiAlone(c: Byte, b: Bytes)
    requires c < 0x80
    ensures DecodeRune([c] + b) == c && RuneLen([c] + b) == 1 && Utf8(c) == [c]
  {
  }

  lemma SaneAround(a: Bytes, c: Byte, b: Bytes)
    requires c < 0x80
    ensures Sane(a + [c] + b) == Sane(a) + [c] + Sane(b)
  {
    hide Runes, Encoded;
    RunesAround(a, c, b);
    EncodedConcat(Runes(a) + [c as char], Runes(b));
    EncodedConcat(Runes(a), [c as char]);
    EncodedAscii(c);
  }

  lemma EncodedAscii(c: Byte)
    requires c < 0x80
    ensures Encoded([c as char]) == [c]
  {
    assert [c as char][1..] == "";
  }

  lemma HighBytes(r: int)
    requires Scalar(r) && 0x80 <= r
    ensures forall i :: 0 <= i < |Utf8(r)| ==> 0x80 <= Utf8(r)[i]
  {
  }

  /** A conversion to runes and back keeps every ASCII byte, and adds none. */
  lemma {:induction false} SaneKeepsAscii(b: Bytes, c: Byte)
    requires c < 0x80
    ensures multiset(Sane(b))[c] == multiset(b)[c]
  {
    hide Utf8, DecodeRune, RuneLen;
    if b != [] {
      var n := RuneLen(b);
      SaneKeepsAscii(b[n..], c);
      SaneUnfolds(b);
      assert b == b[..n] + b[n..];
      FirstKeepsAscii(b, c);
    }
  }

  lemma NoRune(b: Bytes)
    requires b != [] && !Starts(b)
    ensures DecodeRune(b) == RUNE_ERROR
  {
  }

  lemma FirstKeepsAscii(b: Bytes, c: Byte)
    requires b != [] && c < 0x80
    ensures multiset(Utf8(DecodeRune(b)))[c] == multiset(b[..RuneLen(b)])[c]
  {
    if b[0] < 0x80 {
      assert b[..1] == [b[0]] == Utf8(DecodeRune(b));
    } else if Starts(b) {
      EncodesBack(b);
    } else {
      NoRune(b);
      HighBytes(RUNE_ERROR);
      hide Utf8, DecodeRune;
      assert b[..1] == [b[0]];
    }
  }

  lemma SaneHasAscii(b: Bytes, c: Byte)
    requires c < 0x80
    ensures c in Sane(b) <==> c in b
  {
    hide Sane;
    SaneKeepsAscii(b, c);
    assert c in Sane(b) <==> c in multiset(Sane(b));
    assert c in b <==> c in multiset(b);
  }

  /** The ASCII characters of a text are the ASCII bytes of its UTF-8. */
  lemma {:induction false} EncodedHasAscii(s: string, c: Byte)
    requires c < 0x80
    ensures c in Encoded(s) <==> c as char in s
  {
    if s != "" {
      EncodedHasAscii(s[1..], c);
      var r := s[0] as int;
      if 0x80 <= r {
        HighBytes(r);
      }
      assert s == [s[0]] + s[1..];
      assert c in Utf8(r) <==> c == r;
    }
  }
}
