/** UTF-8 as RFC 3629 defines it (section 3), against the way the renderer and the text field read bytes. */
module CodePoints {
  import opened Bytes
  import opened Cells
  import opened Tokens
  import opened Uncoloring
  import opened Utf8

  /** The bytes of one code point. */
  function Encoded(cp: nat): (s: seq<Byte>)
    requires cp < 0x11_0000
    ensures s != []
  {
    if cp < 0x80 then [cp]
    else if cp < 0x800 then [0xC0 + cp / 0x40, 0x80 + cp % 0x40]
    else if cp < 0x1_0000 then [0xE0 + cp / 0x1000, 0x80 + cp / 0x40 % 0x40, 0x80 + cp % 0x40]
    else [0xF0 + cp / 0x4_0000, 0x80 + cp / 0x1000 % 0x40, 0x80 + cp / 0x40 % 0x40, 0x80 + cp % 0x40]
  }

  predicate AllCodePoints(cps: seq<nat>) {
    forall i :: 0 <= i < |cps| ==> cps[i] < 0x11_0000
  }

  /** The characters of a text, in bytes. */
  function Characters(cps: seq<nat>): (cs: seq<seq<Byte>>)
    requires AllCodePoints(cps)
    ensures |cs| == |cps| && forall i :: 0 <= i < |cps| ==> cs[i] == Encoded(cps[i])
  {
    seq(|cps|, (i: nat) requires i < |cps| && AllCodePoints(cps) => Encoded(cps[i]))
  }

  /** The renderer reads an encoded code point as one token, which takes one cell; control characters aside. */
  lemma OneCell(cp: nat)
    requires cp < 0x11_0000 && cp != ESC && cp != LF && cp != CR
    ensures Clean(Glyph(Encoded(cp)))
  {
  }

  /** The text field reads it as one character. */
  lemma OneCharacter(cp: nat)
    requires cp < 0x11_0000
    ensures IsChar(Encoded(cp))
  {
  }

  lemma AllOneCharacter(cps: seq<nat>)
    requires AllCodePoints(cps)
    ensures AllChars(Characters(cps))
  {
    forall i | 0 <= i < |cps| ensures IsChar(Characters(cps)[i]) { OneCharacter(cps[i]); }
  }

  /** `ulen` counts the code points of a text, `uresize` keeps the first ones and `luresize` the last ones. */
  lemma CodePointsCounted(cps: seq<nat>, n: nat)
    requires AllCodePoints(cps) && n <= |cps|
    ensures var text := Join(Characters(cps));
      && Count(text) == |cps|
      && Head(text, n) == Join(Characters(cps[..n])) && Tail(text, n) == Join(Characters(cps[|cps| - n..]))
  {
    AllOneCharacter(cps);
    FirstOfJoin(Characters(cps), n);
    HeadOfJoin(Characters(cps), n);
    TailOfJoin(Characters(cps), n);
    assert Characters(cps)[..n] == Characters(cps[..n]);
    assert Characters(cps)[|cps| - n..] == Characters(cps[|cps| - n..]);
  }
}
