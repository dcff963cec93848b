/** Decimal numerals as digit lists, least machinery for strconv.Itoa and strconv.Atoi. */
module Decimal {
  import opened Wrappers

  const MAX_INT := 0x7fff_ffff_ffff_ffff

  type Digit = d: nat | d < 10

  function Digits(n: nat): (ds: seq<Digit>)
    ensures ds != []
  {
    if n < 10 then [n] else Digits(n / 10) + [n % 10]
  }

  function Value(ds: seq<Digit>): nat {
    if ds == [] then 0 else Value(ds[..|ds| - 1]) * 10 + ds[|ds| - 1]
  }

  lemma {:induction false} ValueOfDigits(n: nat)
    ensures Value(Digits(n)) == n
  {
    if n < 10 {
      assert Digits(n)[..0] == [];
    } else {
      ValueOfDigits(n / 10);
      assert Digits(n)[..|Digits(n)| - 1] == Digits(n / 10);
    }
  }

  /** The digits written with the code of each numeral, '0' being 48. */
  function Codes(ds: seq<Digit>): (s: seq<int>)
    ensures |s| == |ds| && forall i :: 0 <= i < |s| ==> s[i] == 48 + ds[i] as int
  {
    seq(|ds|, i requires 0 <= i < |ds| => 48 + ds[i] as int)
  }

  predicate IsNumeral(s: seq<int>) {
    s != [] && forall i :: 0 <= i < |s| ==> 48 <= s[i] < 58
  }

  function FromCodes(s: seq<int>): (ds: seq<Digit>)
    requires IsNumeral(s)
  {
    seq(|s|, i requires 0 <= i < |s| => assert 48 <= s[i] < 58; (s[i] - 48) as Digit)
  }

  /** An optional sign, then the rest. */
  function Unsigned(s: seq<int>): (bool, seq<int>) {
    if s != [] && (s[0] == 43 || s[0] == 45) then (s[0] == 45, s[1..]) else (false, s)
  }

  function InRange(negative: bool, v: int): Option<int> {
    var n := if negative then -v else v;
    if -MAX_INT - 1 <= n <= MAX_INT then Some(n) else None
  }

  /** strconv.Atoi over character codes: optional sign, digits, 64-bit range. */
  function Atoi(s: seq<int>): (r: Option<int>) {
    var (negative, body) := Unsigned(s);
    if IsNumeral(body) then InRange(negative, Value(FromCodes(body))) else None
  }

  function Itoa(n: int): (s: seq<int>)
    ensures s != []
  {
    if n < 0 then [45] + Codes(Digits(-n)) else Codes(Digits(n))
  }

  lemma NumeralOfDigits(m: nat)
    ensures IsNumeral(Codes(Digits(m))) && Value(FromCodes(Codes(Digits(m)))) == m
  {
    ValueOfDigits(m);
    assert FromCodes(Codes(Digits(m))) == Digits(m);
  }

  /** Parsing a printed number gives it back, over the whole 64-bit range. */
  lemma AtoiOfItoa(n: int)
    requires -MAX_INT - 1 <= n <= MAX_INT
    ensures Atoi(Itoa(n)) == Some(n)
  {
    NumeralOfDigits(if n < 0 then -n else n);
    if n < 0 {
      assert Unsigned(Itoa(n)) == (true, Codes(Digits(-n)));
    } else {
      assert Unsigned(Itoa(n)) == (false, Codes(Digits(n)));
    }
  }
}
