/** Runes, styles and cells (internal/tui/screen.go). A rune is an integer code point. */
module Glyphs {
  const SPACE := 32

  datatype Style = Style(fg: nat, bg: nat, bold: bool, dim: bool, italic: bool, underline: bool, reverse: bool)

  const PLAIN := Style(0, 0, false, false, false, false, false)

  /** One screen cell; `cont` marks the second half of a double-width glyph. */
  datatype Cell = Cell(r: int, st: Style, cont: bool)

  const EMPTY := Cell(SPACE, PLAIN, false)

  function RuneWidth(r: int): (w: nat)
    ensures w <= 2
  {
    if r == 0 then 0
    else if r < 32 || 0x7f <= r < 0xa0 then 0
    else if r < 0x1100 then 1
    else if r == 0x2329 || r == 0x232a then 2
    else if
      || 0x1100 <= r <= 0x115f || 0x2e80 <= r <= 0x303e || 0x3041 <= r <= 0x33ff
      || 0x3400 <= r <= 0x4dbf || 0x4e00 <= r <= 0x9fff || 0xa000 <= r <= 0xa4cf
      || 0xac00 <= r <= 0xd7a3 || 0xf900 <= r <= 0xfaff || 0xfe30 <= r <= 0xfe6f
      || 0xff00 <= r <= 0xff60 || 0xffe0 <= r <= 0xffe6 || 0x1f300 <= r <= 0x1f64f
      || 0x1f900 <= r <= 0x1f9ff || 0x20000 <= r <= 0x3fffd
    then 2
    else 1
  }

  /** Cells taken by a run of runes. */
  function TextWidth(s: seq<int>): nat {
    if s == [] then 0 else RuneWidth(s[0]) + TextWidth(s[1..])
  }

  lemma {:induction false} TextWidthConcat(a: seq<int>, b: seq<int>)
    ensures TextWidth(a + b) == TextWidth(a) + TextWidth(b)
  {
    if a == [] {
      assert a + b == b;
    } else {
      assert (a + b)[1..] == a[1..] + b;
      TextWidthConcat(a[1..], b);
    }
  }
}
