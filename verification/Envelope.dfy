/**
 The plain header of an encrypted content, which the server can read without any key.

   LSE3: "LSE3" | keyEpoch(4) | generation(8)
   LSE4: "LSE4" | flags(1) | keyEpoch(4) | generation(8)
 */
module Envelope {
  import opened Bytes
  import opened Options

  const LSE1: bytes := [0x4c, 0x53, 0x45, 0x31]
  const LSE2: bytes := [0x4c, 0x53, 0x45, 0x32]
  const LSE3: bytes := [0x4c, 0x53, 0x45, 0x33]
  const LSE4: bytes := [0x4c, 0x53, 0x45, 0x34]

  /** The envelope version of a content; 0 is plaintext. */
  function EnvelopeVersion(body: bytes): int {
    if |body| < 4 then 0
    else if body[..4] == LSE4 then 4
    else if body[..4] == LSE3 then 3
    else if body[..4] == LSE2 then 2
    else if body[..4] == LSE1 then 1
    else 0
  }

  datatype Header = Header(keyEpoch: int, generation: int, version: int)

  function Read64(s: bytes): nat
    requires 8 <= |s|
  {
    Read32(s) * 0x1_0000_0000 + Read32(s[4..])
  }

  /** The 64 bits read as a signed integer: a generation of 2^63 or more comes out negative. */
  function AsInt64(n: nat): int {
    if n < 0x8000_0000_0000_0000 then n else n - 0x1_0000_0000_0000_0000
  }

  function ParseHeader(body: bytes): Option<Header> {
    if |body| < 16 then None
    else if body[..4] == LSE3 then Some(Header(Read32(body[4..]), AsInt64(Read64(body[8..])), 3))
    else if body[..4] == LSE4 && 17 <= |body| then Some(Header(Read32(body[5..]), AsInt64(Read64(body[9..])), 4))
    else None
  }

  // ---------- the layout, written and read ----------

  /** Bytes, the most significant first. */
  function Number(s: bytes): nat {
    if s == [] then 0 else Number(s[..|s| - 1]) * 256 + s[|s| - 1] as int
  }

  /** A number of 64 bits as a signed one. */
  predicate Signs(n: nat, z: int) {
    -0x8000_0000_0000_0000 <= z < 0x8000_0000_0000_0000 && (z == n || z == n - 0x1_0000_0000_0000_0000)
  }

  lemma OneMoreByte(s: bytes, k: nat)
    requires k < |s|
    ensures Number(s[..k + 1]) == Number(s[..k]) * 256 + s[k] as int
  {
    assert s[..k + 1][..k] == s[..k];
  }

  lemma NumberOf32(s: bytes)
    requires 4 <= |s|
    ensures Number(s[..4]) == Read32(s)
  {
    OneMoreByte(s, 0);
    OneMoreByte(s, 1);
    OneMoreByte(s, 2);
    OneMoreByte(s, 3);
  }

  lemma NumberOf64(s: bytes)
    requires 8 <= |s|
    ensures Number(s[..8]) == Read64(s) < 0x1_0000_0000_0000_0000
  {
    NumberOf32(s);
    OneMoreByte(s, 4);
    OneMoreByte(s, 5);
    OneMoreByte(s, 6);
    OneMoreByte(s, 7);
  }

  /** The version of an envelope is told by its first four bytes, and there are four of them. */
  lemma VersionIsTold(body: bytes)
    ensures EnvelopeVersion(body) == 1 <==> |body| >= 4 && body[..4] == Ascii("LSE1")
    ensures EnvelopeVersion(body) == 2 <==> |body| >= 4 && body[..4] == Ascii("LSE2")
    ensures EnvelopeVersion(body) == 3 <==> |body| >= 4 && body[..4] == Ascii("LSE3")
    ensures EnvelopeVersion(body) == 4 <==> |body| >= 4 && body[..4] == Ascii("LSE4")
    ensures 0 <= EnvelopeVersion(body) <= 4
  {
    assert Ascii("LSE1") == LSE1 && Ascii("LSE2") == LSE2 && Ascii("LSE3") == LSE3 && Ascii("LSE4") == LSE4;
  }

  /** A content of the third envelope has a header of sixteen bytes, one of the fourth of seventeen; a
      shorter one, or one of an earlier envelope, has none that is read. */
  lemma HeaderIsRead(body: bytes)
    ensures ParseHeader(body).Some? <==>
              (EnvelopeVersion(body) == 3 && 16 <= |body|) || (EnvelopeVersion(body) == 4 && 17 <= |body|)
    ensures EnvelopeVersion(body) == 3 && 16 <= |body| ==>
              ParseHeader(body).value.keyEpoch == Number(body[4..8]) &&
              Signs(Number(body[8..16]), ParseHeader(body).value.generation)
    ensures EnvelopeVersion(body) == 4 && 17 <= |body| ==>
              ParseHeader(body).value.keyEpoch == Number(body[5..9]) &&
              Signs(Number(body[9..17]), ParseHeader(body).value.generation)
  {
    if EnvelopeVersion(body) == 3 && 16 <= |body| { FieldsAre(body, 4); }
    if EnvelopeVersion(body) == 4 && 17 <= |body| { FieldsAre(body, 5); }
  }

  lemma FieldsAre(body: bytes, at: nat)
    requires at + 12 <= |body|
    ensures Number(body[at..at + 4]) == Read32(body[at..])
    ensures Signs(Number(body[at + 4..at + 12]), AsInt64(Read64(body[at + 4..])))
  {
    assert body[at..][..4] == body[at..at + 4] && body[at + 4..][..8] == body[at + 4..at + 12];
    NumberOf32(body[at..]);
    NumberOf64(body[at + 4..]);
  }

  /** Only contents of version 3 and above carry a generation. */
  lemma HeaderNeedsVersion(body: bytes)
    requires ParseHeader(body).Some?
    ensures EnvelopeVersion(body) == ParseHeader(body).value.version >= 3
  {
  }
}
