/** Bytes and big-endian lengths. */
module Bytes {
  type byte = x: int | 0 <= x < 256
  type bytes = seq<byte>

  /** A text in ASCII. */
  function Ascii(text: string): bytes
    requires forall i :: 0 <= i < |text| ==> text[i] as int < 128
  {
    seq(|text|, i requires 0 <= i < |text| => text[i] as int)
  }

  function U16(n: nat): bytes
    requires n < 0x1_0000
  {
    [n / 256, n % 256]
  }

  function U32(n: nat): bytes
    requires n < 0x1_0000_0000
  {
    U16(n / 0x1_0000) + U16(n % 0x1_0000)
  }

  function Pair(hi: byte, lo: byte): nat {
    (hi as int) * 256 + (lo as int)
  }

  function Read16(s: bytes): nat
    requires 2 <= |s|
  {
    Pair(s[0], s[1])
  }

  function Read32(s: bytes): nat
    requires 4 <= |s|
  {
    Read16(s) * 0x1_0000 + Read16(s[2..])
  }

  lemma Read16Of(n: nat, rest: bytes)
    requires n < 0x1_0000
    ensures Read16(U16(n) + rest) == n && (U16(n) + rest)[2..] == rest
  {
  }

  lemma U16Of(s: bytes)
    requires 2 <= |s|
    ensures Read16(s) < 0x1_0000 && s == U16(Read16(s)) + s[2..]
  {
  }
}
