/**
 Share frames: what an encrypted share decrypts to.  Two layouts carry a name,

   "LSN1" | nameLen(2) | name | content
   "LSN2" | nameLen(2) | name | count(2) | count * (pathLen(2) | path | dataLen(4) | data) | content

 with big-endian lengths; anything else is a bare content.  Names and paths are kept as the
 bytes they are decoded from.
 */
module ShareFrame {
  import opened Options
  import opened Bytes

  const MAGIC1: bytes := [0x4c, 0x53, 0x4e, 0x31]
  const MAGIC2: bytes := [0x4c, 0x53, 0x4e, 0x32]

  datatype Attachment = Attachment(path: bytes, data: bytes)

  datatype Share = Share(name: Option<bytes>, content: bytes, attachments: seq<Attachment>)

  function Bare(plain: bytes): Share {
    Share(None, plain, [])
  }

  // ---------- the documented layouts ----------

  predicate FitsAttachment(t: Attachment) {
    |t.path| < 0x1_0000 && |t.data| < 0x1_0000_0000
  }

  predicate Fits(name: bytes, ts: seq<Attachment>) {
    |name| < 0x1_0000 && |ts| < 0x1_0000 && forall t :: t in ts ==> FitsAttachment(t)
  }

  function FrameAttachment(t: Attachment): bytes
    requires FitsAttachment(t)
  {
    U16(|t.path|) + t.path + U32(|t.data|) + t.data
  }

  function FrameAttachments(ts: seq<Attachment>): bytes
    requires forall t :: t in ts ==> FitsAttachment(t)
  {
    if ts == [] then [] else FrameAttachment(ts[0]) + FrameAttachments(ts[1..])
  }

  function Frame1(name: bytes, content: bytes): bytes
    requires |name| < 0x1_0000
  {
    MAGIC1 + U16(|name|) + name + content
  }

  function Frame2(name: bytes, ts: seq<Attachment>, content: bytes): bytes
    requires Fits(name, ts)
  {
    MAGIC2 + U16(|name|) + name + U16(|ts|) + FrameAttachments(ts) + content
  }

  /** The layouts begin with their names. */
  lemma LayoutsAreNamed()
    ensures MAGIC1 == Ascii("LSN1") && MAGIC2 == Ascii("LSN2")
  {
  }

  // ---------- reading ----------

  /** A length-prefixed field at the head of `s`: the field and what follows it. */
  function Field16(s: bytes): Option<(bytes, bytes)> {
    if |s| < 2 || |s| - 2 < Read16(s) then None
    else Some((s[2..2 + Read16(s)], s[2 + Read16(s)..]))
  }

  function Field32(s: bytes): Option<(bytes, bytes)> {
    if |s| < 4 || |s| - 4 < Read32(s) then None
    else Some((s[4..4 + Read32(s)], s[4 + Read32(s)..]))
  }

  function TakeOne(s: bytes): Option<(Attachment, bytes)> {
    match Field16(s)
    case None => None
    case Some((path, tail)) =>
      match Field32(tail)
      case None => None
      case Some((data, rest)) => Some((Attachment(path, data), rest))
  }

  /** `count` attachments at the head of `s`, and the rest. */
  function TakeAttachments(s: bytes, count: nat): Option<(seq<Attachment>, bytes)> {
    if count == 0 then Some(([], s))
    else match TakeOne(s)
      case None => None
      case Some((t, more)) => match TakeAttachments(more, count - 1)
        case None => None
        case Some((ts, rest)) => Some(([t] + ts, rest))
  }

  function Parse2(plain: bytes): Option<Share> {
    if |plain| < 8 || plain[..4] != MAGIC2 then None
    else match Field16(plain[4..])
      case None => None
      case Some(name) =>
        if |name.1| < 2 then None
        else match TakeAttachments(name.1[2..], Read16(name.1))
          case None => None
          case Some(ts) => Some(Share(Some(name.0), ts.1, ts.0))
  }

  // ---------- reading inverts writing, and writing inverts reading ----------

  lemma Field16Of(field: bytes, rest: bytes)
    requires |field| < 0x1_0000
    ensures Field16(U16(|field|) + field + rest) == Some((field, rest))
  {
    var s := U16(|field|) + field + rest;
    assert s == U16(|field|) + (field + rest);
    Read16Of(|field|, field + rest);
    assert s[2..2 + |field|] == field && s[2 + |field|..] == rest;
  }

  lemma Field16Back(s: bytes)
    requires Field16(s).Some?
    ensures var (field, rest) := Field16(s).value; |field| < 0x1_0000 && s == U16(|field|) + field + rest
  {
    U16Of(s);
  }

  lemma Field32Of(field: bytes, rest: bytes)
    requires |field| < 0x1_0000_0000
    ensures Field32(U32(|field|) + field + rest) == Some((field, rest))
  {
    var s := U32(|field|) + field + rest;
    var hi, lo := |field| / 0x1_0000, |field| % 0x1_0000;
    assert s == U16(hi) + (U16(lo) + (field + rest));
    Read16Of(hi, U16(lo) + (field + rest));
    Read16Of(lo, field + rest);
    assert s[4..4 + |field|] == field && s[4 + |field|..] == rest;
  }

  lemma HighAndLow(hi: nat, lo: nat)
    requires lo < 0x1_0000
    ensures (hi * 0x1_0000 + lo) / 0x1_0000 == hi && (hi * 0x1_0000 + lo) % 0x1_0000 == lo
  {
  }

  lemma U32Of(s: bytes)
    requires 4 <= |s|
    ensures Read32(s) < 0x1_0000_0000 && s == U32(Read32(s)) + s[4..]
  {
    var hi, lo := Read16(s), Read16(s[2..]);
    U16Of(s);
    U16Of(s[2..]);
    HighAndLow(hi, lo);
    assert s[2..][2..] == s[4..];
    Assoc(U16(hi), U16(lo), s[4..]);
  }

  /** A head, and a body in two parts. */
  lemma InParts(s: bytes, head: bytes, n: nat)
    requires |head| + n <= |s| && s == head + s[|head|..]
    ensures s == head + s[|head|..|head| + n] + s[|head| + n..]
  {
    assert s[|head|..] == s[|head|..|head| + n] + s[|head| + n..];
    Assoc(head, s[|head|..|head| + n], s[|head| + n..]);
  }

  lemma Field32Back(s: bytes)
    requires Field32(s).Some?
    ensures var (field, rest) := Field32(s).value; |field| < 0x1_0000_0000 && s == U32(|field|) + field + rest
  {
    U32Of(s);
    InParts(s, U32(Read32(s)), Read32(s));
  }

  lemma TakeOneInverts(t: Attachment, rest: bytes)
    requires FitsAttachment(t)
    ensures TakeOne(FrameAttachment(t) + rest) == Some((t, rest))
  {
    var tail := U32(|t.data|) + t.data + rest;
    assert FrameAttachment(t) + rest == U16(|t.path|) + t.path + tail;
    Field16Of(t.path, tail);
    Field32Of(t.data, rest);
  }

  lemma TakeOneBack(s: bytes)
    requires TakeOne(s).Some?
    ensures FitsAttachment(TakeOne(s).value.0) && s == FrameAttachment(TakeOne(s).value.0) + TakeOne(s).value.1
  {
    var (path, tail) := Field16(s).value;
    var (data, rest) := Field32(tail).value;
    Field16Back(s);
    Field32Back(tail);
    Assoc(U16(|path|) + path, U32(|data|) + data, rest);
    Assoc(U16(|path|) + path, U32(|data|), data);
  }

  lemma {:induction false} TakeInverts(ts: seq<Attachment>, rest: bytes)
    requires forall t :: t in ts ==> FitsAttachment(t)
    ensures TakeAttachments(FrameAttachments(ts) + rest, |ts|) == Some((ts, rest))
  {
    if ts == [] {
      assert FrameAttachments(ts) + rest == rest;
    } else {
      var more := FrameAttachments(ts[1..]) + rest;
      TakeInverts(ts[1..], rest);
      Assoc(FrameAttachment(ts[0]), FrameAttachments(ts[1..]), rest);
      TakeOneInverts(ts[0], more);
      TakesOneMore(FrameAttachment(ts[0]) + more, ts[0], more, ts[1..], rest);
      assert ts == [ts[0]] + ts[1..];
    }
  }

  lemma TakesOneMore(s: bytes, t: Attachment, more: bytes, ts: seq<Attachment>, rest: bytes)
    requires TakeOne(s) == Some((t, more)) && TakeAttachments(more, |ts|) == Some((ts, rest))
    ensures TakeAttachments(s, |ts| + 1) == Some(([t] + ts, rest))
  {
  }

  lemma {:induction false} TakeBack(s: bytes, count: nat)
    requires TakeAttachments(s, count).Some?
    ensures var (ts, rest) := TakeAttachments(s, count).value;
            |ts| == count && (forall t :: t in ts ==> FitsAttachment(t)) && s == FrameAttachments(ts) + rest
  {
    if count == 0 {
      assert FrameAttachments([]) + s == s;
    } else {
      var (t, more) := TakeOne(s).value;
      TakeOneBack(s);
      TakeBack(more, count - 1);
      var (ts, rest) := TakeAttachments(more, count - 1).value;
      assert ([t] + ts)[0] == t && ([t] + ts)[1..] == ts;
      assert FrameAttachments([t] + ts) == FrameAttachment(t) + FrameAttachments(ts);
      Assoc(FrameAttachment(t), FrameAttachments(ts), rest);
    }
  }

  lemma Assoc(a: bytes, b: bytes, c: bytes)
    ensures a + (b + c) == (a + b) + c
  {
  }

  ghost predicate ReadsAs(plain: bytes, share: Share) {
    Parse2(plain) == Some(share)
  }

  /** Reading a written bundle gives back every part of it. */
  lemma Parse2Inverts(name: bytes, ts: seq<Attachment>, content: bytes)
    requires Fits(name, ts)
    ensures ReadsAs(Frame2(name, ts, content), Share(Some(name), content, ts))
  {
    var plain := Frame2(name, ts, content);
    var tail := U16(|ts|) + (FrameAttachments(ts) + content);
    assert plain == MAGIC2 + (U16(|name|) + name + tail);
    assert plain[..4] == MAGIC2 && plain[4..] == U16(|name|) + name + tail;
    Field16Of(name, tail);
    Read16Of(|ts|, FrameAttachments(ts) + content);
    TakeInverts(ts, content);
  }

  /** Whatever is read as a bundle writes back to the same bytes. */
  lemma Parse2Back(plain: bytes)
    requires Parse2(plain).Some?
    ensures var s := Parse2(plain).value;
            s.name.Some? && Fits(s.name.value, s.attachments) && plain == Frame2(s.name.value, s.attachments, s.content)
  {
    Field16Back(plain[4..]);
    var (name, tail) := Field16(plain[4..]).value;
    U16Of(tail);
    TakeBack(tail[2..], Read16(tail));
    var (ts, content) := TakeAttachments(tail[2..], Read16(tail)).value;
    assert plain == MAGIC2 + plain[4..];
    var head := U16(|name|) + name;
    assert tail == U16(|ts|) + (FrameAttachments(ts) + content);
    Assoc(U16(|ts|), FrameAttachments(ts), content);
    Assoc(head, U16(|ts|) + FrameAttachments(ts), content);
    Assoc(head, U16(|ts|), FrameAttachments(ts));
    Assoc(MAGIC2, head + U16(|ts|) + FrameAttachments(ts), content);
    Assoc(MAGIC2, head + U16(|ts|), FrameAttachments(ts));
    Assoc(MAGIC2, head, U16(|ts|));
    Assoc(MAGIC2, U16(|name|), name);
  }

  // ---------- the readers ----------

  method UnframeShareContent(plain: bytes) returns (r: Share)
    ensures forall name, content :: |name| < 0x1_0000 && plain == Frame1(name, content) ==>
            r == Share(Some(name), content, [])
    ensures r.attachments == []
    ensures r.name.Some? ==> |r.name.value| < 0x1_0000 && plain == Frame1(r.name.value, r.content)
    ensures r.name.None? ==> r.content == plain
  {
    forall name: bytes, content: bytes | |name| < 0x1_0000 && plain == Frame1(name, content)
      ensures 6 + |name| <= |plain| && plain[..4] == MAGIC1 && Read16(plain[4..]) == |name|
      ensures plain[6..6 + |name|] == name && plain[6 + |name|..] == content
    {
      assert plain == MAGIC1 + (U16(|name|) + (name + content));
      assert plain[..4] == MAGIC1 && plain[4..] == U16(|name|) + (name + content);
      Read16Of(|name|, name + content);
    }
    if |plain| < 6 { return Bare(plain); }
    if plain[..4] != MAGIC1 { return Bare(plain); }
    var nameLen := Pair(plain[4], plain[5]);
    assert nameLen == Read16(plain[4..]);
    if 6 + nameLen > |plain| { return Bare(plain); }
    r := Share(Some(plain[6..6 + nameLen]), plain[6 + nameLen..], []);
    Frame1Back(plain, nameLen);
  }

  lemma Frame1Back(plain: bytes, n: nat)
    requires 6 + n <= |plain| && plain[..4] == MAGIC1 && n == Pair(plain[4], plain[5])
    ensures n < 0x1_0000 && plain == Frame1(plain[6..6 + n], plain[6 + n..])
  {
    U16Of(plain[4..]);
    assert plain == MAGIC1 + plain[4..] && plain[4..] == U16(n) + plain[6..];
    assert plain[6..] == plain[6..6 + n] + plain[6 + n..];
  }

  /** A 2-byte length at `off`, then that many bytes; None where the typed view or the length
      check throws. */
  method NextField16(plain: bytes, off: nat) returns (r: Option<(bytes, nat)>)
    requires off <= |plain|
    ensures r.None? ==> Field16(plain[off..]).None?
    ensures r.Some? ==> off <= r.value.1 <= |plain| && Field16(plain[off..]) == Some((r.value.0, plain[r.value.1..]))
  {
    if off + 2 > |plain| { return None; }
    var n := Pair(plain[off], plain[off + 1]);
    if off + 2 + n > |plain| { return None; }
    var field := plain[off + 2..off + 2 + n];
    assert plain[off..][2..2 + n] == field && plain[off..][2 + n..] == plain[off + 2 + n..];
    return Some((field, off + 2 + n));
  }

  method NextField32(plain: bytes, off: nat) returns (r: Option<(bytes, nat)>)
    requires off <= |plain|
    ensures r.None? ==> Field32(plain[off..]).None?
    ensures r.Some? ==> off <= r.value.1 <= |plain| && Field32(plain[off..]) == Some((r.value.0, plain[r.value.1..]))
  {
    if off + 4 > |plain| { return None; }
    var n := Pair(plain[off], plain[off + 1]) * 0x1_0000 + Pair(plain[off + 2], plain[off + 3]);
    assert n == Read32(plain[off..]);
    if off + 4 + n > |plain| { return None; }
    var field := plain[off + 4..off + 4 + n];
    assert plain[off..][4..4 + n] == field && plain[off..][4 + n..] == plain[off + 4 + n..];
    return Some((field, off + 4 + n));
  }

  /** Take a share apart.  A well-formed LSN2 bundle comes back part by part, and only a
      well-formed one does; a malformed one degrades to its own bytes as content; anything
      without the LSN2 mark is left to the older layout. */
  method UnbundleShare(plain: bytes) returns (r: Share)
    ensures forall name, ts, content :: Fits(name, ts) && plain == Frame2(name, ts, content) ==>
            r == Share(Some(name), content, ts)
    ensures forall name, content :: |name| < 0x1_0000 && plain == Frame1(name, content) ==>
            r == Share(Some(name), content, [])
    ensures r.name.Some? ==>
              || (Fits(r.name.value, r.attachments) && plain == Frame2(r.name.value, r.attachments, r.content))
              || (|r.name.value| < 0x1_0000 && r.attachments == [] && plain == Frame1(r.name.value, r.content))
    ensures r.name.None? ==> r == Bare(plain)
  {
    forall name, ts, content | Fits(name, ts) && plain == Frame2(name, ts, content)
      ensures Parse2(plain) == Some(Share(Some(name), content, ts))
    {
      Parse2Inverts(name, ts, content);
    }
    forall name: bytes, content: bytes | |name| < 0x1_0000 && plain == Frame1(name, content)
      ensures plain[..4] == MAGIC1 != MAGIC2
    {
      assert MAGIC1[3] != MAGIC2[3];
      assert plain == MAGIC1 + (U16(|name|) + name + content);
    }
    if |plain| < 8 || plain[..4] != MAGIC2 {
      r := UnframeShareContent(plain);
      return;
    }
    var parsed := ParseBundle(plain);
    if parsed.None? { return Bare(plain); }
    Parse2Back(plain);
    return parsed.value;
  }

  /** The cursor over a marked bundle; None is the thrown error. */
  method ParseBundle(plain: bytes) returns (r: Option<Share>)
    requires 8 <= |plain| && plain[..4] == MAGIC2
    ensures r == Parse2(plain)
  {
    var name := NextField16(plain, 4);
    if name.None? { return None; }
    var off: nat := name.value.1;
    if off + 2 > |plain| { return None; }
    var count := Pair(plain[off], plain[off + 1]);
    assert plain[off..][2..] == plain[off + 2..] && Read16(plain[off..]) == count;
    var attachments := ReadAttachments(plain, off + 2, count);
    if attachments.None? { return None; }
    return Some(Share(Some(name.value.0), plain[attachments.value.1..], attachments.value.0));
  }

  method ReadAttachments(plain: bytes, start: nat, count: nat) returns (r: Option<(seq<Attachment>, nat)>)
    requires start <= |plain|
    ensures r.None? ==> TakeAttachments(plain[start..], count).None?
    ensures r.Some? ==>
              r.value.1 <= |plain| &&
              TakeAttachments(plain[start..], count) == Some((r.value.0, plain[r.value.1..]))
  {
    var off: nat := start;
    var attachments: seq<Attachment> := [];
    ghost var all := TakeAttachments(plain[off..], count);
    PrependNothing(all);
    for i := 0 to count
      invariant off <= |plain|
      invariant all == Prepend(attachments, TakeAttachments(plain[off..], count - i))
    {
      var next := NextAttachment(plain, off);
      TakeStep(attachments, plain[off..], count - i);
      if next.None? { return None; }
      attachments := attachments + [next.value.0];
      off := next.value.1;
    }
    assert attachments + [] == attachments;
    return Some((attachments, off));
  }

  method NextAttachment(plain: bytes, off: nat) returns (r: Option<(Attachment, nat)>)
    requires off <= |plain|
    ensures r.None? ==> TakeOne(plain[off..]).None?
    ensures r.Some? ==> off <= r.value.1 <= |plain| && TakeOne(plain[off..]) == Some((r.value.0, plain[r.value.1..]))
  {
    var path := NextField16(plain, off);
    if path.None? { return None; }
    var data := NextField32(plain, path.value.1);
    if data.None? { return None; }
    return Some((Attachment(path.value.0, data.value.0), data.value.1));
  }

  ghost function Prepend(ts: seq<Attachment>, r: Option<(seq<Attachment>, bytes)>): Option<(seq<Attachment>, bytes)> {
    if r.None? then None else Some((ts + r.value.0, r.value.1))
  }

  lemma PrependNothing(r: Option<(seq<Attachment>, bytes)>)
    ensures Prepend([], r) == r
  {
    if r.Some? { assert [] + r.value.0 == r.value.0; }
  }

  /** One iteration: an attachment moves from the input to the list. */
  lemma TakeStep(ts: seq<Attachment>, s: bytes, count: nat)
    requires 0 < count
    ensures TakeOne(s).None? ==> Prepend(ts, TakeAttachments(s, count)).None?
    ensures TakeOne(s).Some? ==>
              var (t, rest) := TakeOne(s).value;
              Prepend(ts, TakeAttachments(s, count)) == Prepend(ts + [t], TakeAttachments(rest, count - 1))
  {
    if TakeOne(s).Some? {
      PrependMore(ts, TakeOne(s).value.0, TakeAttachments(TakeOne(s).value.1, count - 1));
    }
  }

  lemma PrependMore(ts: seq<Attachment>, t: Attachment, r: Option<(seq<Attachment>, bytes)>)
    ensures Prepend(ts + [t], r) == Prepend(ts, Prepend([t], r))
  {
    if r.Some? { assert ts + [t] + r.value.0 == ts + ([t] + r.value.0); }
  }

  /** No bytes can be read two ways. */
  lemma FramesAreUnambiguous(name: bytes, ts: seq<Attachment>, content: bytes,
                             name': bytes, ts': seq<Attachment>, content': bytes)
    requires Fits(name, ts) && Fits(name', ts') && Frame2(name, ts, content) == Frame2(name', ts', content')
    ensures name == name' && ts == ts' && content == content'
  {
    Parse2Inverts(name, ts, content);
    Parse2Inverts(name', ts', content');
  }
}
