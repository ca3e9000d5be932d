/**
 An edit script is the list of lines a diff view shows: each line is common to both
 texts, deleted from the old one or added in the new one.  Nothing here knows how a
 script is computed; "shortest" is stated over every script there is.
 */
module EditScript {

  datatype Kind = Same | Add | Del

  datatype DiffLine = DiffLine(kind: Kind, text: string)

  function Old(l: DiffLine): seq<string> {
    if l.kind == Add then [] else [l.text]
  }

  function New(l: DiffLine): seq<string> {
    if l.kind == Del then [] else [l.text]
  }

  function Cost(l: DiffLine): nat {
    if l.kind == Same then 0 else 1
  }

  /** The lines of the old text that the script mentions, in order. */
  function OldSide(s: seq<DiffLine>): seq<string> {
    if s == [] then [] else Old(s[0]) + OldSide(s[1..])
  }

  /** The lines of the new text that the script mentions, in order. */
  function NewSide(s: seq<DiffLine>): seq<string> {
    if s == [] then [] else New(s[0]) + NewSide(s[1..])
  }

  /** The number of lines that are not common to both texts. */
  function Edits(s: seq<DiffLine>): nat {
    if s == [] then 0 else Cost(s[0]) + Edits(s[1..])
  }

  predicate Rewrites(s: seq<DiffLine>, a: seq<string>, b: seq<string>) {
    OldSide(s) == a && NewSide(s) == b
  }

  /** No script from `a` to `b` has fewer than `d` edits. */
  ghost predicate NeedsAtLeast(a: seq<string>, b: seq<string>, d: nat) {
    forall s :: Rewrites(s, a, b) ==> d <= Edits(s)
  }

  ghost predicate Shortest(s: seq<DiffLine>, a: seq<string>, b: seq<string>) {
    Rewrites(s, a, b) && NeedsAtLeast(a, b, Edits(s))
  }

  /** One text is the other with a single block of lines inserted. */
  ghost predicate OneBlock(a: seq<string>, b: seq<string>) {
    BlockInserted(a, b) || BlockInserted(b, a)
  }

  ghost predicate BlockInserted(short: seq<string>, long: seq<string>) {
    |short| <= |long| &&
    exists i :: 0 <= i <= |short| && short[..i] == long[..i] && short[i..] == long[|long| - |short| + i..]
  }

  function Lines(kind: Kind, texts: seq<string>): seq<DiffLine> {
    if texts == [] then [] else [DiffLine(kind, texts[0])] + Lines(kind, texts[1..])
  }

  lemma {:induction false} LinesSides(kind: Kind, texts: seq<string>)
    ensures |Lines(kind, texts)| == |texts|
    ensures OldSide(Lines(kind, texts)) == if kind == Add then [] else texts
    ensures NewSide(Lines(kind, texts)) == if kind == Del then [] else texts
    ensures Edits(Lines(kind, texts)) == if kind == Same then 0 else |texts|
  {
    if texts != [] {
      LinesSides(kind, texts[1..]);
      assert Lines(kind, texts)[1..] == Lines(kind, texts[1..]);
    }
  }

  lemma {:induction false} Concat(s: seq<DiffLine>, t: seq<DiffLine>)
    ensures OldSide(s + t) == OldSide(s) + OldSide(t)
    ensures NewSide(s + t) == NewSide(s) + NewSide(t)
    ensures Edits(s + t) == Edits(s) + Edits(t)
  {
    if s == [] {
      assert s + t == t;
    } else {
      var u := s[1..];
      Concat(u, t);
      assert s + t != [] && (s + t)[0] == s[0] && (s + t)[1..] == u + t;
      Assoc(Old(s[0]), OldSide(u), OldSide(t));
      Assoc(New(s[0]), NewSide(u), NewSide(t));
    }
  }

  lemma Assoc(a: seq<string>, b: seq<string>, c: seq<string>)
    ensures a + (b + c) == (a + b) + c
  {
  }

  lemma One(l: DiffLine)
    ensures OldSide([l]) == Old(l) && NewSide([l]) == New(l) && Edits([l]) == Cost(l)
  {
    assert [l][1..] == [];
  }

  lemma Snoc(s: seq<DiffLine>, l: DiffLine)
    ensures OldSide(s + [l]) == OldSide(s) + Old(l)
    ensures NewSide(s + [l]) == NewSide(s) + New(l)
    ensures Edits(s + [l]) == Edits(s) + Cost(l)
  {
    Concat(s, [l]);
    One(l);
  }

  /** Deleting every old line and adding every new one is a script. */
  lemma ReplaceAll(a: seq<string>, b: seq<string>) returns (s: seq<DiffLine>)
    ensures Rewrites(s, a, b) && Edits(s) == |a| + |b|
  {
    s := Lines(Del, a) + Lines(Add, b);
    LinesSides(Del, a);
    LinesSides(Add, b);
    Concat(Lines(Del, a), Lines(Add, b));
  }

  // ---------- a common first or last line costs nothing ----------

  lemma {:induction false} DropFirstNew(s: seq<DiffLine>, a: seq<string>, c: string, b: seq<string>)
    returns (t: seq<DiffLine>)
    requires Rewrites(s, a, [c] + b)
    ensures Rewrites(t, a, b) && Edits(t) <= Edits(s) + 1
  {
    assert ([c] + b)[1..] == b;
    if s[0].kind == Del {
      assert NewSide(s) == NewSide(s[1..]);
      t := DropFirstNew(s[1..], a[1..], c, b);
      t := [s[0]] + t;
    } else {
      t := if s[0].kind == Add then s[1..] else [DiffLine(Del, s[0].text)] + s[1..];
    }
  }

  lemma {:induction false} DropFirstOld(s: seq<DiffLine>, a: seq<string>, c: string, b: seq<string>)
    returns (t: seq<DiffLine>)
    requires Rewrites(s, [c] + a, b)
    ensures Rewrites(t, a, b) && Edits(t) <= Edits(s) + 1
  {
    assert ([c] + a)[1..] == a;
    if s[0].kind == Add {
      assert OldSide(s) == OldSide(s[1..]);
      t := DropFirstOld(s[1..], a, c, b[1..]);
      t := [s[0]] + t;
    } else {
      t := if s[0].kind == Del then s[1..] else [DiffLine(Add, s[0].text)] + s[1..];
    }
  }

  lemma DropFirstCommon(s: seq<DiffLine>, a: seq<string>, c: string, b: seq<string>)
    returns (t: seq<DiffLine>)
    requires Rewrites(s, [c] + a, [c] + b)
    ensures Rewrites(t, a, b) && Edits(t) <= Edits(s)
  {
    assert ([c] + a)[1..] == a && ([c] + b)[1..] == b;
    if s[0].kind == Same {
      t := s[1..];
    } else if s[0].kind == Del {
      t := DropFirstNew(s[1..], a, c, b);
    } else {
      t := DropFirstOld(s[1..], a, c, b);
    }
  }

  lemma {:induction false} DropLastNew(s: seq<DiffLine>, a: seq<string>, b: seq<string>, c: string)
    returns (t: seq<DiffLine>)
    requires Rewrites(s, a, b + [c])
    ensures Rewrites(t, a, b) && Edits(t) <= Edits(s) + 1
  {
    var init, last := s[..|s| - 1], s[|s| - 1];
    assert s == init + [last];
    Snoc(init, last);
    if last.kind == Del {
      t := DropLastNew(init, OldSide(init), b, c);
      Snoc(t, last);
      t := t + [last];
    } else {
      assert b == (b + [c])[..|b|] == NewSide(init);
      Snoc(init, DiffLine(Del, last.text));
      t := if last.kind == Add then init else init + [DiffLine(Del, last.text)];
    }
  }

  lemma {:induction false} DropLastOld(s: seq<DiffLine>, a: seq<string>, b: seq<string>, c: string)
    returns (t: seq<DiffLine>)
    requires Rewrites(s, a + [c], b)
    ensures Rewrites(t, a, b) && Edits(t) <= Edits(s) + 1
  {
    var init, last := s[..|s| - 1], s[|s| - 1];
    assert s == init + [last];
    Snoc(init, last);
    if last.kind == Add {
      t := DropLastOld(init, a, NewSide(init), c);
      Snoc(t, last);
      t := t + [last];
    } else {
      assert a == (a + [c])[..|a|] == OldSide(init);
      Snoc(init, DiffLine(Add, last.text));
      t := if last.kind == Del then init else init + [DiffLine(Add, last.text)];
    }
  }

  lemma DropLastCommon(s: seq<DiffLine>, a: seq<string>, b: seq<string>, c: string)
    returns (t: seq<DiffLine>)
    requires Rewrites(s, a + [c], b + [c])
    ensures Rewrites(t, a, b) && Edits(t) <= Edits(s)
  {
    var init, last := s[..|s| - 1], s[|s| - 1];
    assert s == init + [last];
    Snoc(init, last);
    assert last.kind != Add ==> a == (a + [c])[..|a|] == OldSide(init);
    assert last.kind != Del ==> b == (b + [c])[..|b|] == NewSide(init);
    if last.kind == Same {
      t := init;
    } else if last.kind == Del {
      t := DropLastNew(init, a, b, c);
    } else {
      t := DropLastOld(init, a, b, c);
    }
  }

  /** Trimming a common prefix and a common suffix loses no optimality: the distance of the
      whole texts is the distance of the middles. */
  lemma {:induction false} TrimKeepsDistance(p: seq<string>, a: seq<string>, b: seq<string>, q: seq<string>, d: nat)
    ensures NeedsAtLeast(p + a + q, p + b + q, d) <==> NeedsAtLeast(a, b, d)
  {
    if NeedsAtLeast(a, b, d) {
      forall s | Rewrites(s, p + a + q, p + b + q) ensures d <= Edits(s) {
        var t := TrimScript(s, p, a, b, q);
      }
    }
    if NeedsAtLeast(p + a + q, p + b + q, d) {
      forall s | Rewrites(s, a, b) ensures d <= Edits(s) {
        PadScript(s, p, a, b, q);
      }
    }
  }

  lemma PadScript(s: seq<DiffLine>, p: seq<string>, a: seq<string>, b: seq<string>, q: seq<string>)
    requires Rewrites(s, a, b)
    ensures Rewrites(Lines(Same, p) + s + Lines(Same, q), p + a + q, p + b + q)
    ensures Edits(Lines(Same, p) + s + Lines(Same, q)) == Edits(s)
  {
    LinesSides(Same, p);
    LinesSides(Same, q);
    Concat(Lines(Same, p), s);
    Concat(Lines(Same, p) + s, Lines(Same, q));
  }

  lemma {:induction false} TrimScript(s: seq<DiffLine>, p: seq<string>, a: seq<string>, b: seq<string>, q: seq<string>)
    returns (t: seq<DiffLine>)
    requires Rewrites(s, p + a + q, p + b + q)
    ensures Rewrites(t, a, b) && Edits(t) <= Edits(s)
    decreases |p| + |q|
  {
    if p != [] {
      assert p + a + q == [p[0]] + (p[1..] + a + q);
      assert p + b + q == [p[0]] + (p[1..] + b + q);
      t := DropFirstCommon(s, p[1..] + a + q, p[0], p[1..] + b + q);
      t := TrimScript(t, p[1..], a, b, q);
    } else if q != [] {
      var q', c := q[..|q| - 1], q[|q| - 1];
      assert p + a + q == (p + a + q') + [c];
      assert p + b + q == (p + b + q') + [c];
      t := DropLastCommon(s, p + a + q', p + b + q', c);
      t := TrimScript(t, p, a, b, q');
    } else {
      assert p + a + q == a && p + b + q == b;
      t := s;
    }
  }
}
