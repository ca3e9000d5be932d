/**
 The fixed-length frame inside a padded content,

   trueLength(8, big-endian) | content | padding

 whose length field says where the content ends.
 */
module PaddedFrame {
  import opened Bytes
  import opened Envelope
  import opened Options

  const MAX_PADDED_LENGTH: nat := 0x100_0000_0000

  function U64(n: nat): bytes
    requires n < 0x1_0000_0000_0000_0000
  {
    U32(n / 0x1_0000_0000) + U32(n % 0x1_0000_0000)
  }

  function Frame(content: bytes, padding: bytes): bytes
    requires |content| <= 1099511627776
  {
    U64(|content|) + content + padding
  }

  function UnframePadded(framed: bytes): Option<bytes> {
    if |framed| < 8 then None
    else
      var n := Read64(framed);
      if n > MAX_PADDED_LENGTH || 8 + n > |framed| then None else Some(framed[8..8 + n])
  }

  lemma Read32Of(n: nat, rest: bytes)
    requires n < 0x1_0000_0000
    ensures |U32(n)| == 4 && Read32(U32(n) + rest) == n
  {
    var s := U32(n) + rest;
    assert s == U16(n / 0x1_0000) + (U16(n % 0x1_0000) + rest);
    Read16Of(n / 0x1_0000, U16(n % 0x1_0000) + rest);
    Read16Of(n % 0x1_0000, rest);
  }

  lemma U32Of(s: bytes)
    requires 4 <= |s|
    ensures Read32(s) < 0x1_0000_0000 && s == U32(Read32(s)) + s[4..]
  {
    U16Of(s);
    U16Of(s[2..]);
    assert Read32(s) / 0x1_0000 == Read16(s) && Read32(s) % 0x1_0000 == Read16(s[2..]);
    assert s[2..][2..] == s[4..];
  }

  lemma Read64Of(n: nat, rest: bytes)
    requires n < 0x1_0000_0000_0000_0000
    ensures |U64(n)| == 8 && Read64(U64(n) + rest) == n
  {
    var hi, lo := n / 0x1_0000_0000, n % 0x1_0000_0000;
    Read32Of(hi, U32(lo) + rest);
    Read32Of(lo, rest);
    assert U64(n) + rest == U32(hi) + (U32(lo) + rest);
    assert (U64(n) + rest)[4..] == U32(lo) + rest;
  }

  lemma U64Of(s: bytes)
    requires 8 <= |s|
    ensures Read64(s) < 0x1_0000_0000_0000_0000 && s == U64(Read64(s)) + s[8..]
  {
    U32Of(s);
    U32Of(s[4..]);
    assert Read64(s) / 0x1_0000_0000 == Read32(s) && Read64(s) % 0x1_0000_0000 == Read32(s[4..]);
    assert s[4..][4..] == s[8..];
  }

  /** Every framed content comes back, whatever it is padded with. */
  lemma UnframeInverts(content: bytes, padding: bytes)
    requires |content| <= MAX_PADDED_LENGTH
    ensures UnframePadded(Frame(content, padding)) == Some(content)
  {
    Read64Of(|content|, content + padding);
    assert Frame(content, padding) == U64(|content|) + (content + padding);
  }

  ghost predicate IsFrameOf(framed: bytes, content: bytes) {
    |content| <= MAX_PADDED_LENGTH && exists padding :: framed == Frame(content, padding)
  }

  lemma AcceptedIsFrame(framed: bytes, content: bytes)
    requires UnframePadded(framed) == Some(content)
    ensures IsFrameOf(framed, content)
  {
    var n := Read64(framed);
    U64Of(framed);
    assert |content| == n;
    SplitAt(U64(n), framed, content, n);
    assert framed == Frame(content, framed[8 + n..]);
  }

  lemma SplitAt(head: bytes, framed: bytes, content: bytes, n: nat)
    requires 8 + n <= |framed| && framed == head + framed[8..] && content == framed[8..8 + n]
    ensures framed == head + content + framed[8 + n..]
  {
    assert framed[8..] == content + framed[8 + n..];
  }

  /** Exactly the frames are accepted, and no frame can be read in two ways.  The padding is
      not looked at: it need not be zeros. */
  lemma UnframeAcceptsFrames(framed: bytes, content: bytes)
    ensures UnframePadded(framed) == Some(content) <==> IsFrameOf(framed, content)
  {
    if UnframePadded(framed) == Some(content) {
      AcceptedIsFrame(framed, content);
    } else if IsFrameOf(framed, content) {
      var padding :| framed == Frame(content, padding);
      UnframeInverts(content, padding);
      assert false;
    }
  }
}
