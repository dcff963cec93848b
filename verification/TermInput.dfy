/**
 The terminal input decoder (internal/term/input.go): control sequences as in section 5.4 of
 ECMA-48, SGR and X10 mouse reports, and UTF-8 as in section 3 of RFC 3629.
 */
module TermInput {
  import opened Wrappers
  import opened Unicode
  import Decimal
  import Text

  const ESC: Byte := 0x1b

  /** What arrives: a byte, or a pause longer than the decoder waits inside a sequence. */
  datatype Sym = B(b: Byte) | Pause

  datatype Name =
    | NoName | Unknown | Up | Down | Left | Right | Enter | Esc | Tab | ShiftTab | Backspace | Delete | Insert
    | Home | End | PgUp | PgDn | Space | F(n: nat) | Letter(code: int)

  datatype Key = Key(name: Name, rune: int, ctrl: bool, alt: bool)

  datatype Mouse = Mouse(x: int, y: int, button: int, press: bool, release: bool, motion: bool, wheel: int)

  datatype Event = EvKey(key: Key) | EvMouse(mouse: Mouse)

  function Named(n: Name): Event { EvKey(Key(n, 0, false, false)) }

  // ---- numbers ------------------------------------------------------------

  predicate Blank(c: int) { c == 32 || 9 <= c <= 13 }

  function TrimCodes(s: seq<int>): seq<int> {
    if s != [] && Blank(s[0]) then TrimCodes(s[1..])
    else if s != [] && Blank(s[|s| - 1]) then TrimCodes(s[..|s| - 1])
    else s
  }

  /** An empty part is 0; the first part that is no number ends the list. */
  function Nums(parts: seq<seq<int>>): seq<int> {
    if parts == [] then []
    else
      var p := TrimCodes(parts[0]);
      if p == [] then [0] + Nums(parts[1..])
      else
        match Decimal.Atoi(p)
        case None => []
        case Some(n) => [n] + Nums(parts[1..])
  }

  function SplitNums(s: seq<int>): seq<int> {
    if s == [] then [] else Nums(Text.Split(s, [59]))
  }

  /** n & (1 << k) != 0, negative numbers in two's complement. */
  predicate Bit(n: int, pow: int)
    requires pow > 0
  {
    (n / pow) % 2 == 1
  }

  // ---- mouse --------------------------------------------------------------

  function SgrMouse(code: int, col: int, row: int, final: Byte): Mouse {
    var button := code % 4;
    var motion := Bit(code, 32);
    if Bit(code, 64) then Mouse(col - 1, row - 1, 0, false, false, motion, if button == 0 then -1 else 1)
    else if motion then Mouse(col - 1, row - 1, if button == 3 then -1 else button, false, false, true, 0)
    else if final == 'm' as int || button == 3 then Mouse(col - 1, row - 1, -1, false, true, false, 0)
    else Mouse(col - 1, row - 1, button, true, false, false, 0)
  }

  function X10Mouse(s: seq<Byte>): Mouse {
    if |s| < 6 then Mouse(0, 0, -1, false, false, false, 0)
    else
      var code: int := s[3] as int - 32;
      var x: int, y: int := s[4] as int - 33, s[5] as int - 33;
      var button := code % 4;
      if Bit(code, 64) then Mouse(x, y, 0, false, false, false, if button == 0 then -1 else 1)
      else if Bit(code, 32) then Mouse(x, y, if button == 3 then -1 else button, false, false, true, 0)
      else if button == 3 then Mouse(x, y, -1, false, true, false, 0)
      else Mouse(x, y, button, true, false, false, 0)
  }

  // ---- escape sequences ---------------------------------------------------

  predicate IsFinal(c: Byte) { 0x40 <= c <= 0x7e }

  predicate HasFinal(s: seq<Byte>) {
    exists i :: 2 <= i < |s| && IsFinal(s[i])
  }

  /** seqComplete */
  predicate Complete(s: seq<Byte>) {
    if |s| < 2 then false
    else if s[1] == '[' as int then
      if |s| >= 3 && s[2] == 'M' as int then |s| >= 6 else HasFinal(s)
    else if s[1] == 'O' as int then |s| >= 3
    else if s[1] >= 0x80 then FullRune(s[1..])
    else true
  }

  function LetterKey(c: Byte): Name {
    if c == 'A' as int then Up else if c == 'B' as int then Down
    else if c == 'C' as int then Right else if c == 'D' as int then Left
    else if c == 'H' as int then Home else if c == 'F' as int then End
    else Unknown
  }

  function Ss3Key(c: Byte): Name {
    if 'P' as int <= c <= 'S' as int then F(c - 'P' as int + 1) else LetterKey(c)
  }

  function TildeKey(n: int): Name {
    if n == 1 || n == 7 then Home else if n == 2 then Insert else if n == 3 then Delete
    else if n == 4 || n == 8 then End else if n == 5 then PgUp else if n == 6 then PgDn
    else if 11 <= n <= 15 then F(n - 10) else if 17 <= n <= 21 then F(n - 11)
    else if 23 <= n <= 24 then F(n - 12) else Unknown
  }

  function CsiKey(final: Byte, nums: seq<int>): Name {
    if final == 'Z' as int then ShiftTab
    else if final == '~' as int then TildeKey(if nums == [] then 0 else nums[0])
    else LetterKey(final)
  }

  function ParseCsi(s: seq<Byte>): Event
    requires 2 <= |s|
  {
    var body := s[2..];
    var final: Byte := if body == [] then 0 else body[|body| - 1];
    var params := if body == [] then [] else body[..|body| - 1];
    if params != [] && params[0] == '<' as int then
      var nums := SplitNums(params[1..]);
      if 3 <= |nums| then EvMouse(SgrMouse(nums[0], nums[1], nums[2], final)) else Named(Unknown)
    else
      var nums := SplitNums(params);
      var mods := if 2 <= |nums| then nums[|nums| - 1] - 1 else 0;
      EvKey(Key(CsiKey(final, nums), 0, Bit(mods, 4), Bit(mods, 2)))
  }

  function ParseEscape(s: seq<Byte>): Event
    requires s != []
  {
    if |s| == 1 then Named(Esc)
    else if s[1] == '[' as int then
      if |s| >= 3 && s[2] == 'M' as int then EvMouse(X10Mouse(s)) else ParseCsi(s)
    else if s[1] == 'O' as int then Named(if |s| >= 3 then Ss3Key(s[2]) else Esc)
    else
      var r := DecodeRune(s[1..]);
      if r == ESC then Named(Esc) else EvKey(Key(NoName, r, false, true))
  }

  // ---- the stream ---------------------------------------------------------

  /** Bytes up to n in all; a pause is taken and stops early. */
  function Gather(buf: seq<Byte>, n: nat, rest: seq<Sym>): (r: (seq<Byte>, seq<Sym>))
    ensures |r.1| <= |rest| && |buf| <= |r.0|
    decreases |rest|
  {
    if n <= |buf| || rest == [] then (buf, rest)
    else
      match rest[0]
      case Pause => (buf, rest[1..])
      case B(b) => Gather(buf + [b], n, rest[1..])
  }

  function LeadLen(b: Byte): nat {
    if 0xc0 <= b < 0xe0 then 2 else if 0xe0 <= b < 0xf0 then 3 else if 0xf0 <= b < 0xf8 then 4 else 1
  }

  function DecodeByte(b: Byte, rest: seq<Sym>): (r: (Event, seq<Sym>))
    ensures |r.1| <= |rest|
  {
    if b == 0x0d || b == 0x0a then (Named(Enter), rest)
    else if b == 0x09 then (Named(Tab), rest)
    else if b == 0x7f || b == 0x08 then (Named(Backspace), rest)
    else if b == 0 then (EvKey(Key(Space, 0, true, false)), rest)
    else if 1 <= b <= 0x1a || 0x1c <= b <= 0x1f then (EvKey(Key(Letter('a' as int + b - 1), 0, true, false)), rest)
    else if b < 0x80 then (EvKey(Key(NoName, b, false, false)), rest)
    else
      var (buf, left) := Gather([b], LeadLen(b), rest);
      (EvKey(Key(NoName, DecodeRune(buf), false, false)), left)
  }

  /** The bytes of one escape sequence: to its end, to a pause, or to the 129th. */
  function Collect(s: seq<Byte>, rest: seq<Sym>): (r: (seq<Byte>, seq<Sym>))
    ensures |r.1| <= |rest| && |s| <= |r.0|
    decreases |rest|
  {
    if rest == [] then (s, rest)
    else
      match rest[0]
      case Pause => (s, rest[1..])
      case B(b) =>
        var t := s + [b];
        if 128 < |t| || Complete(t) then (t, rest[1..]) else Collect(t, rest[1..])
  }

  function Decode(stream: seq<Sym>): seq<Event>
    decreases |stream|
  {
    if stream == [] then []
    else
      match stream[0]
      case Pause => Decode(stream[1..])
      case B(b) =>
        if b != ESC then
          var (ev, rest) := DecodeByte(b, stream[1..]);
          [ev] + Decode(rest)
        else
          var (s, rest) := Collect([ESC], stream[1..]);
          [ParseEscape(s)] + Decode(rest)
  }

  // ---- the reader ---------------------------------------------------------

  class Reader {
    var input: seq<Sym>
    var events: seq<Event>

    constructor (input: seq<Sym>)
      ensures this.input == input && events == []
    {
      this.input, events := input, [];
    }

    /** A byte, waiting through pauses; None when the input has ended. */
    method NextBlocking() returns (r: Option<Byte>)
      modifies this`input
      ensures r.None? ==> input == [] && Decode(old(input)) == []
      ensures r.Some? ==> |input| < |old(input)| && Decode(old(input)) == Decode([B(r.value)] + input)
    {
      while input != []
        invariant |input| <= |old(input)| && Decode(input) == Decode(old(input))
        decreases |input|
      {
        var s := input[0];
        ghost var was := input;
        input := input[1..];
        if s.B? {
          assert was == [B(s.b)] + input;
          return Some(s.b);
        }
      }
      r := None;
    }

    /** A byte if one comes at once; a pause is used up. */
    method NextTimed() returns (r: Option<Byte>)
      modifies this`input
      ensures old(input) == [] ==> r.None? && input == []
      ensures old(input) != [] ==> input == old(input)[1..] && r == if old(input)[0].B? then Some(old(input)[0].b) else None
    {
      if input == [] {
        return None;
      }
      r := if input[0].B? then Some(input[0].b) else None;
      input := input[1..];
    }

    method ReadSeq() returns (s: seq<Byte>)
      modifies this`input
      ensures (s, input) == Collect([ESC], old(input))
    {
      s := [ESC];
      while true
        invariant s != [] && Collect(s, input) == Collect([ESC], old(input))
        decreases |input|
      {
        var nb := NextTimed();
        if nb.None? {
          return;
        }
        s := s + [nb.value];
        if |s| > 128 || Complete(s) {
          return;
        }
      }
    }

    method ReadRune(b: Byte) returns (buf: seq<Byte>)
      modifies this`input
      ensures (buf, input) == Gather([b], LeadLen(b), old(input))
    {
      var n := LeadLen(b);
      buf := [b];
      while |buf| < n
        invariant Gather(buf, n, input) == Gather([b], n, old(input))
        decreases n - |buf|
      {
        var nb := NextTimed();
        if nb.None? {
          return;
        }
        buf := buf + [nb.value];
      }
    }

    /** parseLoop: one event for each byte or sequence, until the input ends. */
    method ParseLoop()
      modifies this
      ensures events == old(events) + Decode(old(input)) && input == []
    {
      ghost var goal := old(events) + Decode(input);
      while true
        invariant events + Decode(input) == goal
        decreases |input|
      {
        ghost var before := input;
        var b := NextBlocking();
        if b.None? {
          return;
        }
        ghost var rest := input;
        ghost var here := Decode([B(b.value)] + rest);
        assert ([B(b.value)] + rest)[1..] == rest;
        if b.value != ESC {
          var ev := ReadPlain(b.value);
          assert here == [ev] + Decode(input);
          events := events + [ev];
          continue;
        }
        var s := ReadSeq();
        assert here == [ParseEscape(s)] + Decode(input);
        events := events + [ParseEscape(s)];
      }
    }

    /** decodeByte */
    method ReadPlain(b: Byte) returns (ev: Event)
      modifies this`input
      ensures (ev, input) == DecodeByte(b, old(input))
    {
      if b < 0x80 {
        ev := DecodeByte(b, []).0;
        return;
      }
      var buf := ReadRune(b);
      ev := EvKey(Key(NoName, DecodeRune(buf), false, false));
    }
  }
}
