/** Byte strings, the byte values the renderer tests for, and decimal printing. */
module Bytes {
  type Byte = b: int | 0 <= b < 256

  const ESC: Byte := 27
  const LF: Byte := 10
  const CR: Byte := 13
  const OPEN: Byte := 91       // '['
  const SEMI: Byte := 59       // ';'
  const QUESTION: Byte := 63   // '?'
  const SGR: Byte := 109       // 'm'
  const HVP: Byte := 102       // 'f'

  predicate IsDigit(b: Byte) {
    48 <= b <= 57
  }

  /** Bytes a character occupies according to its first byte; stray continuation bytes count as one. */
  function Utf8Length(b: Byte): (n: nat)
    ensures 1 <= n <= 4
  {
    if 192 <= b < 224 then 2
    else if 224 <= b < 240 then 3
    else if 240 <= b < 248 then 4
    else 1
  }

  /** The bytes of a string of ASCII characters. */
  function Ascii(s: string): (b: seq<Byte>)
    requires forall i :: 0 <= i < |s| ==> s[i] < 128 as char
    ensures |b| == |s|
  {
    seq(|s|, (i: nat) requires i < |s| && s[i] < 128 as char => s[i] as int)
  }

  /** std::to_string of a non-negative number. */
  function Decimal(n: nat): (s: seq<Byte>)
    ensures s != []
    ensures forall i :: 0 <= i < |s| ==> IsDigit(s[i])
  {
    if n < 10 then [48 + n] else Decimal(n / 10) + [48 + n % 10]
  }
}
