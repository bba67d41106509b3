/** Terminal cells, pens, and the 32-bit colour encoding they share. */
module Cells {
  import opened Arithmetic
  import opened Bytes

  /** `ch` holds the first `ch_len` bytes of the source's four-byte buffer. */
  datatype Cell = Cell(ch: seq<Byte>, fg: nat, bg: nat, attrs: bv8)

  datatype Pen = Pen(fg: nat, bg: nat, attrs: bv8)

  const BLANK: Cell := Cell([32], 0, 0, 0)

  /** Bit 24 marks a truecolour value. */
  const TRUECOLOUR: nat := 0x100_0000

  predicate ValidColour(c: nat) {
    c <= 256 || TRUECOLOUR <= c < 2 * TRUECOLOUR
  }

  /** Only bits 0..5 carry an attribute. */
  predicate ValidAttrs(a: bv8) {
    a & 0xC0 == 0
  }

  predicate ValidPen(p: Pen) {
    ValidColour(p.fg) && ValidColour(p.bg) && ValidAttrs(p.attrs)
  }

  predicate ValidChar(ch: seq<Byte>) {
    && ch != []
    && |ch| == Utf8Length(ch[0])
    && ch[0] != ESC && ch[0] != LF && ch[0] != CR
  }

  /** What an emitter needs of a cell so that printing it can be read back. */
  predicate WellFormed(c: Cell) {
    ValidChar(c.ch) && ValidPen(Pen(c.fg, c.bg, c.attrs))
  }

  predicate AllWellFormed(cells: seq<Cell>) {
    forall i :: 0 <= i < |cells| ==> WellFormed(cells[i])
  }

  /** Every colour is a 32-bit word. */
  predicate Printable(cells: seq<Cell>) {
    forall i :: 0 <= i < |cells| ==> cells[i].fg < WORD && cells[i].bg < WORD
  }

  /** The character and colours of a cell, without its attributes. */
  predicate SameLook(a: Cell, b: Cell) {
    a.ch == b.ch && a.fg == b.fg && a.bg == b.bg
  }

  predicate SameLooks(a: seq<Cell>, b: seq<Cell>) {
    |a| == |b| && forall i :: 0 <= i < |a| ==> SameLook(a[i], b[i])
  }

  // ----- packing three colour components into a word -----

  /** Bitwise or. */
  function BitOr(a: nat, b: nat): nat {
    if a == 0 && b == 0 then 0
    else (if a % 2 == 1 || b % 2 == 1 then 1 else 0) + 2 * BitOr(a / 2, b / 2)
  }

  /** `(1 << 24) | (r << 16) | (g << 8) | b` on 32-bit words. */
  function PackRgb(r: nat, g: nat, b: nat): nat {
    BitOr(BitOr(BitOr(TRUECOLOUR, r * 0x1_0000 % WORD), g * 0x100 % WORD), b % WORD)
  }

  lemma {:induction false} OrWithZero(a: nat)
    ensures BitOr(a, 0) == a
  {
    if a != 0 { OrWithZero(a / 2); }
  }

  /** Or is addition when the right operand fits below the left one's lowest set bit. */
  lemma {:induction false} OrIsAddition(q: nat, b: nat, k: nat)
    requires b < Pow2(k)
    ensures BitOr(q * Pow2(k), b) == q * Pow2(k) + b
  {
    if k == 0 {
      OrWithZero(q);
    } else {
      var h := q * Pow2(k - 1);
      assert q * Pow2(k) == 2 * h;
      OrIsAddition(q, b / 2, k - 1);
      assert (2 * h) / 2 == h && (2 * h) % 2 == 0;
    }
  }

  /** Or stays within the bits of its operands. */
  lemma {:induction false} OrFits(a: nat, b: nat, k: nat)
    requires a < Pow2(k) && b < Pow2(k)
    ensures BitOr(a, b) < Pow2(k)
  {
    if a == 0 && b == 0 {
    } else {
      OrFits(a / 2, b / 2, k - 1);
    }
  }

  lemma PackFitsWord(r: nat, g: nat, b: nat)
    ensures PackRgb(r, g, b) < WORD
  {
    WordIsPower();
    var red, green, blue := r * 0x1_0000 % WORD, g * 0x100 % WORD, b % WORD;
    OrFits(TRUECOLOUR, red, 32);
    OrFits(BitOr(TRUECOLOUR, red), green, 32);
    OrFits(BitOr(BitOr(TRUECOLOUR, red), green), blue, 32);
  }

  lemma BytePowers()
    ensures Pow2(8) == 256 && Pow2(16) == 0x1_0000 && Pow2(24) == TRUECOLOUR
  {
    assert Pow2(4) == 16;
    assert Pow2(12) == 4096;
    assert Pow2(20) == 0x10_0000;
  }

  lemma OrBelow(q: nat, b: nat, k: nat, p: nat)
    requires p == Pow2(k) && b < p
    ensures BitOr(q * p, b) == q * p + b
  {
    OrIsAddition(q, b, k);
  }

  lemma OrOfParts(x: nat, y: nat, z: nat)
    requires x < 256 && y < 256 && z < 256
    ensures BitOr(TRUECOLOUR, x * 0x1_0000) == TRUECOLOUR + x * 0x1_0000
    ensures BitOr((256 + x) * 0x1_0000, y * 0x100) == (256 + x) * 0x1_0000 + y * 0x100
    ensures BitOr((0x1_0000 + x * 256 + y) * 0x100, z) == (0x1_0000 + x * 256 + y) * 0x100 + z
  {
    BytePowers();
    OrBelow(1, x * 0x1_0000, 24, TRUECOLOUR);
    OrBelow(256 + x, y * 0x100, 16, 0x1_0000);
    OrBelow(0x1_0000 + x * 256 + y, z, 8, 0x100);
  }

  lemma FitsWord(x: nat)
    requires x < WORD
    ensures x % WORD == x
  {
  }

  /** Components that fit in a byte occupy disjoint bit ranges. */
  lemma PackIsPositional(r: nat, g: nat, b: nat)
    requires r < 256 && g < 256 && b < 256
    ensures PackRgb(r, g, b) == TRUECOLOUR + r * 0x1_0000 + g * 0x100 + b
    ensures ValidColour(PackRgb(r, g, b))
  {
    OrOfParts(r, g, b);
    FitsWord(r * 0x1_0000);
    FitsWord(g * 0x100);
    FitsWord(b);
  }

  function Red(c: nat): Byte { c / 0x1_0000 % 256 }
  function Green(c: nat): Byte { c / 0x100 % 256 }
  function Blue(c: nat): Byte { c % 256 }

  lemma Positions(c: nat)
    requires TRUECOLOUR <= c < 2 * TRUECOLOUR
    ensures c == TRUECOLOUR + Red(c) * 0x1_0000 + Green(c) * 0x100 + Blue(c)
  {
  }

  /** Unpacking and repacking a truecolour value gives it back. */
  lemma UnpackPack(c: nat)
    requires TRUECOLOUR <= c < 2 * TRUECOLOUR
    ensures PackRgb(Red(c), Green(c), Blue(c)) == c
  {
    Positions(c);
    PackIsPositional(Red(c), Green(c), Blue(c));
  }
}
