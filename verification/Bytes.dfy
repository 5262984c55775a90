/** Octets, and the two ways the C servers ignore ASCII case.
    An octet is modelled by the `char` with its code, so that request text can be written as a string. */
module Bytes {

  type Text = seq<char>

  const CR: char := '\r'
  const LF: char := '\n'
  const NUL: char := '\0'

  datatype Option<+T> = None | Some(value: T)

  /** What C's `c | 0x20` yields for an octet: bit 5 set, every other bit kept. */
  function SetBit5(c: char): int {
    var b := c as int;
    if 0x20 <= b < 0x40 || 0x60 <= b < 0x80 || 0xa0 <= b < 0xc0 || 0xe0 <= b < 0x100 then b else b + 0x20
  }

  /** nginx's fold: set bit 5 of the letters A to Z only. */
  function ToLower(c: char): char {
    if 'A' <= c <= 'Z' then SetBit5(c) as char else c
  }

  predicate SameFold(a: Text, b: Text) {
    && |a| == |b|
    && forall k | 0 <= k < |a| :: ToLower(a[k]) == ToLower(b[k])
  }

  /** SetBit5 is the bitwise OR of the C source on every octet. */
  lemma SetBit5IsBitwiseOr(b: bv8)
    ensures SetBit5((b as int) as char) == (b | 0x20) as int
  {
  }

  /** Comparing `c | 0x20` with a lower-case letter is exact case folding:
      no octet other than the two forms of the letter passes. */
  lemma SetBit5IsExactFold(c: char, letter: char)
    requires 'a' <= letter <= 'z'
    ensures SetBit5(c) == letter as int <==> ToLower(c) == letter
    ensures ToLower(c) == letter <==> c == letter || c as int == letter as int - 32
  {
  }

  /** Optional white space. */
  predicate Ows(c: char) {
    c == ' ' || c == '\t'
  }

  function Concat(ts: seq<Text>): Text {
    if ts == [] then [] else ts[0] + Concat(ts[1..])
  }
}
