/** Length in bytes of the UTF-8 encoding of a string, which is what Rust's
    `str::len` returns. Dafny strings are sequences of Unicode scalar values. */
module Utf8 {

  function EncodedWidth(c: char): (w: nat)
    ensures 1 <= w <= 4
  {
    if (c as int) < 0x80 then 1
    else if (c as int) < 0x800 then 2
    else if (c as int) < 0x1_0000 then 3
    else 4
  }

  function ByteLength(s: string): (n: nat)
    ensures |s| <= n <= 4 * |s|
  {
    if s == [] then 0 else EncodedWidth(s[0]) + ByteLength(s[1..])
  }

  /** An ASCII string takes one byte per character. */
  lemma {:induction false} AsciiByteLength(s: string)
    requires forall i :: 0 <= i < |s| ==> (s[i] as int) < 0x80
    ensures ByteLength(s) == |s|
  {
    if s != [] {
      AsciiByteLength(s[1..]);
    }
  }
}
