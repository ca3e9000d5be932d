/**
 The line diff of the version comparison view: trim the common prefix and suffix, search
 the middles with an O(ND) frontier array and a saved trace, walk the trace back into a
 script, and reassemble.  The search is cut off after MAX_D rounds.
 */
module Diff {
  import opened EditScript
  import opened Furthest
  import opened Options

  const MAX_D: nat := 2000

  // ---------- what a list of operations means ----------

  /** The operations consume exactly `a` and produce exactly `b`. */
  predicate Spells(ops: seq<Kind>, a: seq<string>, b: seq<string>) {
    if ops == [] then a == [] && b == []
    else match ops[0]
      case Same => a != [] && b != [] && a[0] == b[0] && Spells(ops[1..], a[1..], b[1..])
      case Del => a != [] && Spells(ops[1..], a[1..], b)
      case Add => b != [] && Spells(ops[1..], a, b[1..])
  }

  function OpEdits(ops: seq<Kind>): nat {
    if ops == [] then 0 else (if ops[0] == Same then 0 else 1) + OpEdits(ops[1..])
  }

  function Reversed(ops: seq<Kind>): seq<Kind> {
    if ops == [] then [] else Reversed(ops[1..]) + [ops[0]]
  }

  lemma {:induction false} ReversedPush(ops: seq<Kind>, op: Kind)
    ensures Reversed(ops + [op]) == [op] + Reversed(ops)
  {
    if ops != [] {
      assert (ops + [op])[1..] == ops[1..] + [op];
      ReversedPush(ops[1..], op);
    }
  }

  /** Pushing an operation prepends it to the script of the remaining suffixes. */
  lemma PushPrepends(ops: seq<Kind>, op: Kind, a: seq<string>, b: seq<string>, x: nat, y: nat)
    requires x <= |a| && y <= |b| && Spells(Reversed(ops), a[x..], b[y..])
    requires op != Add ==> 0 < x
    requires op != Del ==> 0 < y
    requires op == Same ==> a[x - 1] == b[y - 1]
    ensures Spells(Reversed(ops + [op]), a[if op == Add then x else x - 1..], b[if op == Del then y else y - 1..])
    ensures OpEdits(Reversed(ops + [op])) == OpEdits(Reversed(ops)) + if op == Same then 0 else 1
  {
    ReversedPush(ops, op);
    assert ([op] + Reversed(ops))[1..] == Reversed(ops);
    if op != Add { assert a[x - 1..][1..] == a[x..]; }
    if op != Del { assert b[y - 1..][1..] == b[y..]; }
  }

  lemma {:induction false} AllOf(ops: seq<Kind>, op: Kind, texts: seq<string>)
    requires op != Same && |ops| == |texts| && forall i :: 0 <= i < |ops| ==> ops[i] == op
    ensures Spells(ops, if op == Del then texts else [], if op == Add then texts else [])
    ensures OpEdits(ops) == |texts|
  {
    if ops != [] { AllOf(ops[1..], op, texts[1..]); }
  }

  // ---------- the frontier array ----------

  /** `row` is the frontier as a round finds it: diagonal by diagonal, every other cell of the
      array holds a point of the round before. */
  ghost predicate Frontier(row: seq<int>, offset: nat, prev: seq<nat>) {
    |row| == 2 * offset + 1 && 1 <= offset && |prev| <= offset + 1 &&
    (prev == [] ==> row[offset + 1] == 0) &&
    forall i :: 0 <= i < |prev| ==> row[offset + 2 * i - (|prev| - 1)] == prev[i]
  }

  /** The trace holds the frontier every round so far started from. */
  ghost predicate Saved(trace: seq<seq<int>>, offset: nat, rows: seq<seq<nat>>) {
    |trace| <= |rows| && forall e :: 0 <= e < |trace| ==> Frontier(trace[e], offset, rows[e])
  }

  /** Where a round enters the diagonal k = 2*i - d, read off the frontier. */
  method Enter(row: seq<int>, offset: nat, d: nat, k: int, ghost i: nat, ghost prev: seq<nat>) returns (x: nat)
    requires |prev| == d && i <= d <= offset && Frontier(row, offset, prev) && k == 2 * i - d
    ensures x == Entry(prev, i)
  {
    assert offset + k + 1 == offset + 2 * i - (d - 1) && offset + k - 1 == offset + 2 * (i - 1) - (d - 1);
    assert i < d ==> row[offset + k + 1] == prev[i];
    assert 0 < i ==> row[offset + k - 1] == prev[i - 1];
    x :=
      if k == 0 - d || (k != d && row[offset + k - 1] < row[offset + k + 1])
      then row[offset + k + 1]
      else row[offset + k - 1] + 1;
  }

  /** The points a round gets to on its first |next| diagonals. */
  ghost predicate Points(a: seq<string>, b: seq<string>, prev: seq<nat>, next: seq<nat>) {
    InQuadrant(prev) && |next| <= |prev| + 1 && forall j :: 0 <= j < |next| ==> next[j] == Advance(a, b, prev, j)
  }

  /** None of them is at the corner. */
  ghost predicate Missed(a: seq<string>, b: seq<string>, next: seq<nat>, d: nat) {
    forall j :: 0 <= j < |next| ==> !AtCorner(a, b, next[j], 2 * j - d)
  }

  /** One round of the search: the diagonals of round `d`, overwriting the array in place.
      `next` is the points of the round, up to the first one at the corner. */
  method Round(a: seq<string>, b: seq<string>, v: array<int>, offset: nat, d: nat, ghost prev: seq<nat>)
    returns (found: bool, ghost next: seq<nat>)
    requires d <= offset && |prev| == d && InQuadrant(prev) && Frontier(v[..], offset, prev)
    modifies v
    ensures Points(a, b, prev, next)
    ensures found ==> next != [] && AtCorner(a, b, next[|next| - 1], 2 * (|next| - 1) - d)
    ensures !found ==> |next| == d + 1 && Frontier(v[..], offset, next) && Missed(a, b, next, d)
  {
    var k: int := 0 - d;
    next := [];
    found := false;
    while k <= d
      invariant k == 2 * |next| - d && Points(a, b, prev, next) && Missed(a, b, next, d)
      invariant Frontier(v[..], offset, prev) && Written(v[..], offset, d, next)
    {
      var x, y := Extend(a, b, v[..], offset, d, k, |next|, prev);
      Store(v, offset, d, k, x, prev, next);
      OneMorePoint(a, b, prev, next, x, d);
      next := next + [x];
      if x >= |a| && y >= |b| { return true, next; }
      k := k + 2;
    }
  }

  /** A point more is reached; unless it is the corner, the corner is still missed. */
  lemma OneMorePoint(a: seq<string>, b: seq<string>, prev: seq<nat>, next: seq<nat>, x: nat, d: nat)
    requires Points(a, b, prev, next) && Missed(a, b, next, d) && |next| <= |prev|
    requires InQuadrant(prev) && x == Advance(a, b, prev, |next|)
    ensures Points(a, b, prev, next + [x])
    ensures x < |a| || x - (2 * |next| - d) < |b| ==> Missed(a, b, next + [x], d)
  {
  }

  /** Enter diagonal k and follow its common lines. */
  method Extend(a: seq<string>, b: seq<string>, row: seq<int>, offset: nat, d: nat, k: int, ghost i: nat,
          ghost prev: seq<nat>)
    returns (x: nat, y: nat)
    requires |prev| == d && i <= d <= offset && InQuadrant(prev) && Frontier(row, offset, prev) && k == 2 * i - d
    ensures x == Advance(a, b, prev, i) && y == x - k
  {
    x := Enter(row, offset, d, k, i, prev);
    x, y := Follow(a, b, x, x - k);
  }

  method Store(v: array<int>, offset: nat, d: nat, k: int, x: nat, ghost prev: seq<nat>, ghost next: seq<nat>)
    requires |prev| == d && Frontier(v[..], offset, prev) && Written(v[..], offset, d, next)
    requires |next| <= d && k == 2 * |next| - d
    modifies v
    ensures Frontier(v[..], offset, prev) && Written(v[..], offset, d, next + [x])
  {
    ghost var row := v[..];
    v[offset + k] := x;
    assert v[..] == row[offset + k := x];
    WriteKeeps(row, v[..], offset, d, prev, next, x);
  }

  /** The cells of round `d` written so far. */
  ghost predicate Written(row: seq<int>, offset: nat, d: nat, next: seq<nat>)
  {
    |row| == 2 * offset + 1 && d <= offset && |next| <= d + 1 &&
    forall j :: 0 <= j < |next| ==> row[offset + 2 * j - d] == next[j]
  }

  /** Writing the next cell of a round disturbs neither the cells of the round before (they
      have the other parity) nor the cells already written. */
  lemma WriteKeeps(row: seq<int>, row': seq<int>, offset: nat, d: nat, prev: seq<nat>, next: seq<nat>, x: nat)
    requires |prev| == d && Frontier(row, offset, prev) && Written(row, offset, d, next) && |next| <= d
    requires row' == row[offset + 2 * |next| - d := x]
    ensures Frontier(row', offset, prev) && Written(row', offset, d, next + [x])
  {
  }

  /** The point (x, x - k) is at or past the far corner. */
  ghost predicate AtCorner(a: seq<string>, b: seq<string>, x: nat, k: int) {
    |a| <= x && |b| <= x - k
  }

  /** The inner loop of a round: common lines. */
  method Follow(a: seq<string>, b: seq<string>, x0: nat, y0: nat) returns (x: nat, y: nat)
    ensures x == Slide(a, b, x0, y0) && x - y == x0 - y0
  {
    x, y := x0, y0;
    while x < |a| && y < |b| && a[x] == b[y]
      invariant x - y == x0 - y0 && Slide(a, b, x, y) == Slide(a, b, x0, y0)
    {
      x := x + 1;
      y := y + 1;
    }
  }

  /** The point round `d` came from, as the walk back decides it. */
  method Predecessor(row: seq<int>, offset: nat, d: nat, k: int, ghost i: nat, ghost prev: seq<nat>)
    returns (prevX: int, prevY: int)
    requires |prev| == d && i <= d <= offset && Frontier(row, offset, prev) && k == 2 * i - d
    ensures d == 0 ==> prevX == 0 && prevY == -1
    ensures d > 0 && ByAddition(prev, i) ==> i < d && prevX == prev[i] && prevX - prevY == k + 1
    ensures d > 0 && !ByAddition(prev, i) ==> 0 < i && prevX == prev[i - 1] && prevX - prevY == k - 1
  {
    assert offset + k + 1 == offset + 2 * i - (d - 1) && offset + k - 1 == offset + 2 * (i - 1) - (d - 1);
    assert i < d ==> row[offset + k + 1] == prev[i];
    assert 0 < i ==> row[offset + k - 1] == prev[i - 1];
    var prevK := if k == 0 - d || (k != d && row[offset + k - 1] < row[offset + k + 1]) then k + 1 else k - 1;
    prevX := row[offset + prevK];
    prevY := prevX - prevK;
  }

  /** Operations pushed so far, read backwards, are a script of what lies beyond (x, y). */
  ghost predicate Beyond(a: seq<string>, b: seq<string>, ops: seq<Kind>, x: int, y: int, edits: nat) {
    0 <= x <= |a| && 0 <= y <= |b| && Spells(Reversed(ops), a[x..], b[y..]) && OpEdits(Reversed(ops)) == edits
  }

  /** Walk the trace back from the corner.  The result is written from the end. */
  method Backtrack(a: seq<string>, b: seq<string>, trace: seq<seq<int>>, offset: nat,
                   ghost rows: seq<seq<nat>>, ghost corner: nat)
    returns (ops: seq<Kind>)
    requires Rounds(a, b, rows) && 0 < |trace| == |rows| <= offset + 1 && Saved(trace, offset, rows)
    requires corner < |rows| && |a| - |b| == 2 * corner - (|rows| - 1) && Advance(a, b, rows[|rows| - 1], corner) == |a|
    ensures Beyond(a, b, ops, 0, 0, |trace| - 1)
  {
    ops := [];
    var x, y := |a|, |b|;
    var d := |trace| - 1;
    ghost var i: nat := corner;
    while d >= 0
      invariant -1 <= d < |trace|
      invariant d >= 0 ==> OnPath(a, b, rows, d, i, x, y) && Beyond(a, b, ops, x, y, |trace| - 1 - d)
      invariant d < 0 ==> Beyond(a, b, ops, 0, 0, |trace| - 1)
      decreases d
    {
      ops, x, y, i := BacktrackRound(a, b, ops, x, y, trace[d], offset, d, rows, i, |trace| - 1 - d);
      d := d - 1;
    }
  }

  /** The walk stands where round `d` got to on its i-th diagonal. */
  ghost predicate OnPath(a: seq<string>, b: seq<string>, rows: seq<seq<nat>>, d: nat, i: nat, x: int, y: int)
    requires Rounds(a, b, rows)
  {
    i <= d < |rows| && x - y == 2 * i - d && Advance(a, b, rows[d], i) == x
  }

  /** One round of the walk: back along the common lines, and over the edit the round made. */
  method BacktrackRound(a: seq<string>, b: seq<string>, ops0: seq<Kind>, x0: int, y0: int, row: seq<int>, offset: nat,
                        d: nat, ghost rows: seq<seq<nat>>, ghost i: nat, ghost edits: nat)
    returns (ops: seq<Kind>, x: int, y: int, ghost j: nat)
    requires Rounds(a, b, rows) && d < |rows| && d <= offset && Frontier(row, offset, rows[d])
    requires OnPath(a, b, rows, d, i, x0, y0) && Beyond(a, b, ops0, x0, y0, edits)
    ensures d == 0 ==> Beyond(a, b, ops, 0, 0, edits)
    ensures d > 0 ==> OnPath(a, b, rows, d - 1, j, x, y) && Beyond(a, b, ops, x, y, edits + 1)
  {
    ghost var prev := rows[d];
    j := 0;
    var prevX, prevY := Predecessor(row, offset, d, x0 - y0, i, prev);
    ops, x, y := BacktrackSnake(a, b, ops0, x0, y0, prevX, prevY, Entry(prev, i), edits);
    if d > 0 {
      ops := CrossEdge(a, b, ops, x, y, prevX, prevY, edits);
      j := CameFrom(a, b, rows, d, i);
    }
    x := prevX;
    y := prevY;
  }

  lemma CameFrom(a: seq<string>, b: seq<string>, rows: seq<seq<nat>>, d: nat, i: nat) returns (j: nat)
    requires Rounds(a, b, rows) && 0 < d < |rows| && i <= d
    ensures j == (if ByAddition(rows[d], i) then i else i - 1) && j < d
    ensures rows[d][j] == Advance(a, b, rows[d - 1], j)
  {
    j := if ByAddition(rows[d], i) then i else i - 1;
    PointOf(a, b, rows, d - 1, j);
  }

  /** The addition or deletion that entered the diagonal. */
  method CrossEdge(a: seq<string>, b: seq<string>, ops0: seq<Kind>, x: int, y: int, prevX: int, ghost prevY: int,
          ghost edits: nat)
    returns (ops: seq<Kind>)
    requires Beyond(a, b, ops0, x, y, edits) && 0 <= prevX && 0 <= prevY
    requires (x == prevX && y == prevY + 1) || (x == prevX + 1 && y == prevY)
    ensures Beyond(a, b, ops, prevX, prevY, edits + 1)
  {
    if x == prevX {
      PushPrepends(ops0, Add, a, b, x, y);
      ops := ops0 + [Add];
    } else {
      PushPrepends(ops0, Del, a, b, x, y);
      ops := ops0 + [Del];
    }
  }

  /** The inner loop of the walk: common lines back to where the round entered the diagonal. */
  method BacktrackSnake(a: seq<string>, b: seq<string>, ops0: seq<Kind>, x0: int, y0: int, prevX: int, prevY: int,
                        ghost entry: nat, ghost edits: nat)
    returns (ops: seq<Kind>, x: int, y: int)
    requires Beyond(a, b, ops0, x0, y0, edits) && entry <= x0 && 0 <= entry - (x0 - y0)
    requires Slide(a, b, entry, entry - (x0 - y0)) == x0
    requires (prevX == entry && prevY == entry - (x0 - y0) - 1) || (prevX == entry - 1 && prevY == entry - (x0 - y0))
    ensures x == entry && y == entry - (x0 - y0)
    ensures Beyond(a, b, ops, x, y, edits)
  {
    ops, x, y := ops0, x0, y0;
    while x > prevX && y > prevY
      invariant entry <= x <= x0 && x - y == x0 - y0
      invariant Beyond(a, b, ops, x, y, edits)
    {
      SlideMatches(a, b, entry, entry - (x0 - y0), x - 1);
      PushPrepends(ops, Same, a, b, x, y);
      ops := ops + [Same];
      x := x - 1;
      y := y - 1;
    }
  }

  lemma {:induction false} SlideMatches(a: seq<string>, b: seq<string>, x: nat, y: nat, at: nat)
    requires x <= at < Slide(a, b, x, y)
    ensures at < |a| && y + (at - x) < |b| && a[at] == b[y + (at - x)]
    decreases |a| - x
  {
    if x < at { SlideMatches(a, b, x + 1, y + 1, at); }
  }

  method Myers(a: seq<string>, b: seq<string>) returns (r: Option<seq<Kind>>)
    ensures r.Some? ==> Spells(r.value, a, b) && NeedsAtLeast(a, b, OpEdits(r.value))
    ensures r.None? <==> a != [] && b != [] && NeedsAtLeast(a, b, MAX_D + 1)
  {
    var n, m := |a|, |b|;
    if n == 0 && m == 0 { return Some([]); }
    if n == 0 {
      var ops := seq(m, _ => Add);
      AllOf(ops, Add, b);
      OneSided(a, b);
      return Some(ops);
    }
    if m == 0 {
      var ops := seq(n, _ => Del);
      AllOf(ops, Del, a);
      OneSided(a, b);
      return Some(ops);
    }
    var maxD := if n + m < MAX_D then n + m else MAX_D;
    var found, trace, rows, corner := Search(a, b, maxD);
    NoCornerMeansFarther(a, b, rows);
    if !found {
      CutOff(a, b, maxD);
      return None;
    }
    FirstCornerIsExact(a, b, rows, corner);
    var ops := Backtrack(a, b, trace, maxD, rows, corner);
    assert a[0..] == a && b[0..] == b;
    FoundIsNear(Reversed(ops), a, b);
    return Some(Reversed(ops));
  }

  /** The forward search: rounds 0 .. maxD, saving the frontier each round starts from. */
  method Search(a: seq<string>, b: seq<string>, maxD: nat)
    returns (found: bool, trace: seq<seq<int>>, ghost rows: seq<seq<nat>>, ghost corner: nat)
    requires 0 < maxD
    ensures Rounds(a, b, rows) && forall d :: 0 <= d < |rows| ==> NoCorner(a, b, rows[d])
    ensures !found ==> |rows| == maxD + 2
    ensures found ==> |trace| == |rows| <= maxD + 1 && Saved(trace, maxD, rows)
    ensures found ==>
              corner < |rows| &&
              AtCorner(a, b, Advance(a, b, rows[|rows| - 1], corner), 2 * corner - (|rows| - 1))
  {
    var v := new int[2 * maxD + 1](_ => 0);
    trace, rows, corner := [], [[]], 0;
    found := false;
    var d := 0;
    while d <= maxD
      invariant 0 <= d <= maxD + 1 && |trace| == d && Searched(a, b, maxD, trace, rows)
      invariant d <= maxD ==> Frontier(v[..], maxD, rows[d])
    {
      found, trace, rows, corner := SearchRound(a, b, v, maxD, trace, rows);
      if found { return; }
      d := d + 1;
    }
  }

  /** Save the frontier, and search one round from it. */
  method SearchRound(a: seq<string>, b: seq<string>, v: array<int>, maxD: nat, trace0: seq<seq<int>>,
                     ghost rows0: seq<seq<nat>>)
    returns (found: bool, trace: seq<seq<int>>, ghost rows: seq<seq<nat>>, ghost corner: nat)
    requires |trace0| <= maxD && Searched(a, b, maxD, trace0, rows0) && Frontier(v[..], maxD, rows0[|trace0|])
    modifies v
    ensures |trace| == |trace0| + 1
    ensures found ==> rows == rows0 && Saved(trace, maxD, rows) && corner < |rows|
    ensures found ==> AtCorner(a, b, Advance(a, b, rows[|rows| - 1], corner), 2 * corner - (|rows| - 1))
    ensures !found ==> Searched(a, b, maxD, trace, rows) && Frontier(v[..], maxD, rows[|trace|])
  {
    ghost var row, next := v[..], [];
    trace, rows, corner := trace0 + [v[..]], rows0, 0;
    found, next := Round(a, b, v, maxD, |trace0|, rows0[|trace0|]);
    if found {
      corner := |next| - 1;
    } else {
      SearchedGrows(a, b, maxD, trace0, row, rows0, next);
      rows := rows0 + [next];
    }
  }

  /** Rounds that all missed the corner, and the frontiers they started from but for the last. */
  ghost predicate Searched(a: seq<string>, b: seq<string>, maxD: nat, trace: seq<seq<int>>, rows: seq<seq<nat>>) {
    |rows| == |trace| + 1 && Saved(trace, maxD, rows) && Rounds(a, b, rows) &&
    forall e :: 0 <= e < |rows| ==> NoCorner(a, b, rows[e])
  }

  lemma SearchedGrows(a: seq<string>, b: seq<string>, maxD: nat, trace: seq<seq<int>>, v: seq<int>, rows: seq<seq<nat>>,
          next: seq<nat>)
    requires Searched(a, b, maxD, trace, rows) && Frontier(v, maxD, rows[|trace|]) && |next| == |rows|
    requires Points(a, b, rows[|rows| - 1], next) && Missed(a, b, next, |rows| - 1)
    ensures Searched(a, b, maxD, trace + [v], rows + [next])
  {
    RoundsGrow(a, b, rows, next);
  }

  lemma RoundsGrow(a: seq<string>, b: seq<string>, rows: seq<seq<nat>>, next: seq<nat>)
    requires Rounds(a, b, rows) && |next| == |rows|
    requires Points(a, b, rows[|rows| - 1], next) && Missed(a, b, next, |rows| - 1)
    ensures Rounds(a, b, rows + [next]) && NoCorner(a, b, next)
  {
  }

  /** With one side empty every script costs the other side's length. */
  lemma OneSided(a: seq<string>, b: seq<string>)
    requires a == [] || b == []
    ensures NeedsAtLeast(a, b, |a| + |b|)
  {
    forall s | Rewrites(s, a, b) ensures |a| + |b| <= Edits(s) {
      EditsCoverSides(s);
    }
  }

  lemma {:induction false} EditsCoverSides(s: seq<DiffLine>)
    ensures |OldSide(s)| <= |NewSide(s)| + Edits(s)
    ensures |NewSide(s)| <= |OldSide(s)| + Edits(s)
  {
    if s != [] { EditsCoverSides(s[1..]); }
  }

  /** When every round up to the bound failed, the bound was MAX_D: n + m rounds never fail. */
  lemma CutOff(a: seq<string>, b: seq<string>, maxD: nat)
    requires NeedsAtLeast(a, b, maxD + 1)
    requires maxD == if |a| + |b| < MAX_D then |a| + |b| else MAX_D
    ensures maxD == MAX_D
  {
    var s := ReplaceAll(a, b);
    assert maxD + 1 <= Edits(s);
  }

  /** Operations that spell a and b are a script with that many edits. */
  lemma {:induction false} SpellsIsScript(ops: seq<Kind>, a: seq<string>, b: seq<string>) returns (s: seq<DiffLine>)
    requires Spells(ops, a, b)
    ensures Rewrites(s, a, b) && Edits(s) == OpEdits(ops)
  {
    if ops == [] {
      s := [];
    } else {
      s := SpellsIsScript(ops[1..], if ops[0] == Add then a else a[1..], if ops[0] == Del then b else b[1..]);
      s := [DiffLine(ops[0], if ops[0] == Add then b[0] else a[0])] + s;
    }
  }

  lemma FoundIsNear(ops: seq<Kind>, a: seq<string>, b: seq<string>)
    requires Spells(ops, a, b) && OpEdits(ops) <= MAX_D
    ensures !NeedsAtLeast(a, b, MAX_D + 1)
  {
    var s := SpellsIsScript(ops, a, b);
    assert Edits(s) < MAX_D + 1;
  }

  // ---------- trimming and reassembly ----------

  /** The text as the lines between its newlines. */
  function Split(text: string): (lines: seq<string>)
    ensures lines != []
  {
    if text == [] then [[]]
    else
      var rest := Split(text[1..]);
      if text[0] == '\n' then [[]] + rest else [[text[0]] + rest[0]] + rest[1..]
  }

  function Join(lines: seq<string>): string
    requires lines != []
  {
    if |lines| == 1 then lines[0] else lines[0] + "\n" + Join(lines[1..])
  }

  /** Splitting loses nothing, so a script between line lists is a script between texts. */
  lemma {:induction false} JoinSplit(text: string)
    ensures Join(Split(text)) == text
  {
    if text != [] {
      JoinSplit(text[1..]);
      var rest := Split(text[1..]);
      assert text == [text[0]] + text[1..];
      if text[0] == '\n' { JoinNewline(rest); } else { JoinCharacter(text[0], rest); }
    }
  }

  /** These are the lines of the text: none holds a newline, and with newlines between them they are
      the text. */
  ghost predicate LinesOf(lines: seq<string>, text: string) {
    lines != [] && (forall i :: 0 <= i < |lines| ==> '\n' !in lines[i]) && Join(lines) == text
  }

  lemma {:induction false} NoNewlineWithin(text: string)
    ensures forall i :: 0 <= i < |Split(text)| ==> '\n' !in Split(text)[i]
  {
    if text != [] { NoNewlineWithin(text[1..]); }
  }

  lemma {:induction false} SplitAfter(line: string, rest: string)
    requires '\n' !in line
    ensures Split(line + "\n" + rest) == [line] + Split(rest)
    ensures Split(line) == [line]
  {
    if line != [] {
      SplitAfter(line[1..], rest);
      assert (line + "\n" + rest)[1..] == line[1..] + "\n" + rest;
      assert line == [line[0]] + line[1..];
    } else {
      assert (line + "\n" + rest)[1..] == rest;
    }
  }

  /** A text has lines in one way only, and Split finds them. */
  lemma {:induction false} SplitFindsLines(lines: seq<string>, text: string)
    requires LinesOf(lines, text)
    ensures Split(text) == lines
  {
    if |lines| == 1 {
      SplitAfter(lines[0], []);
    } else {
      SplitAfter(lines[0], Join(lines[1..]));
      SplitFindsLines(lines[1..], Join(lines[1..]));
    }
  }

  lemma SplitIsLines(text: string)
    ensures LinesOf(Split(text), text)
  {
    JoinSplit(text);
    NoNewlineWithin(text);
  }

  lemma JoinNewline(rest: seq<string>)
    requires rest != []
    ensures Join([[]] + rest) == "\n" + Join(rest)
  {
    assert ([[]] + rest)[1..] == rest;
  }

  lemma JoinCharacter(c: char, rest: seq<string>)
    requires rest != []
    ensures Join([[c] + rest[0]] + rest[1..]) == [c] + Join(rest)
  {
    var lines := [[c] + rest[0]] + rest[1..];
    assert lines[1..] == rest[1..] && lines[0] == [c] + rest[0];
    if |rest| > 1 { assert lines[0] + "\n" + Join(rest[1..]) == [c] + (rest[0] + "\n" + Join(rest[1..])); }
  }

  method Trim(a: seq<string>, b: seq<string>) returns (start: nat, endA: nat, endB: nat)
    ensures start <= endA <= |a| && start <= endB <= |b| && |a| - endA == |b| - endB
    ensures a[..start] == b[..start] && a[endA..] == b[endB..]
    ensures start == endA || start == endB <==> OneBlock(a, b)
  {
    start := 0;
    while start < |a| && start < |b| && a[start] == b[start]
      invariant start <= |a| && start <= |b| && a[..start] == b[..start]
    {
      start := start + 1;
    }
    endA, endB := |a|, |b|;
    while endA > start && endB > start && a[endA - 1] == b[endB - 1]
      invariant start <= endA <= |a| && start <= endB <= |b| && |a| - endA == |b| - endB
      invariant a[endA..] == b[endB..]
    {
      endA := endA - 1;
      endB := endB - 1;
      assert a[endA..] == [a[endA]] + a[endA + 1..] && b[endB..] == [b[endB]] + b[endB + 1..];
    }
    if start == endA || start == endB { TrimmedAway(a, b, start, endA, endB); }
    if BlockInserted(a, b) { TrimsToBlock(a, b, start, endA, endB); }
    if BlockInserted(b, a) { TrimsToBlock(b, a, start, endB, endA); }
  }

  lemma TrimmedAway(a: seq<string>, b: seq<string>, start: nat, endA: nat, endB: nat)
    requires start <= endA <= |a| && start <= endB <= |b| && |a| - endA == |b| - endB
    requires a[..start] == b[..start] && a[endA..] == b[endB..]
    requires start == endA || start == endB
    ensures OneBlock(a, b)
  {
    if start == endA {
      assert a[..start] == b[..start] && a[start..] == b[|b| - |a| + start..];
      assert BlockInserted(a, b);
    } else {
      assert b[..start] == a[..start] && b[start..] == a[|a| - |b| + start..];
      assert BlockInserted(b, a);
    }
  }

  /** Around an inserted block the texts agree: before it from the front, after it from the back. */
  lemma BlockAgrees(short: seq<string>, long: seq<string>, i: nat, start: nat, end: nat)
    requires i <= |short| <= |long| && short[..i] == long[..i] && short[i..] == long[|long| - |short| + i..]
    requires start < end <= |short|
    ensures start < i ==> short[start] == long[start]
    ensures i <= start ==> short[end - 1] == long[|long| - |short| + end - 1]
  {
    if start < i {
      assert short[start] == short[..i][start];
    } else {
      assert short[end - 1] == short[i..][end - 1 - i];
      assert long[|long| - |short| + i..][end - 1 - i] == long[|long| - |short| + end - 1];
    }
  }

  /** Greedy trimming uses up the shorter text whenever a single block was inserted. */
  lemma TrimsToBlock(short: seq<string>, long: seq<string>, start: nat, endS: nat, endL: nat)
    requires BlockInserted(short, long)
    requires start <= endS <= |short| && start <= endL <= |long| && |short| - endS == |long| - endL
    requires start < endS && start < endL ==> short[start] != long[start] && short[endS - 1] != long[endL - 1]
    ensures start == endS || start == endL
  {
    var i :| 0 <= i <= |short| && short[..i] == long[..i] && short[i..] == long[|long| - |short| + i..];
    if start < endS { BlockAgrees(short, long, i, start, endS); }
  }

  lemma Next<T>(s: seq<T>, i: nat)
    requires i < |s|
    ensures s[..i + 1] == s[..i] + [s[i]] && s[i..][0] == s[i] && s[i..][1..] == s[i + 1..]
  {
  }

  /** The script for one middle operation list, written out with the texts of both sides. */
  method Annotate(ops: seq<Kind>, a: seq<string>, b: seq<string>) returns (out: seq<DiffLine>)
    requires Spells(ops, a, b)
    ensures Rewrites(out, a, b) && Edits(out) == OpEdits(ops)
  {
    out := [];
    var ca, cb := 0, 0;
    for j := 0 to |ops|
      invariant ca <= |a| && cb <= |b|
      invariant Spells(ops[j..], a[ca..], b[cb..])
      invariant Rewrites(out, a[..ca], b[..cb]) && Edits(out) + OpEdits(ops[j..]) == OpEdits(ops)
    {
      var op := ops[j];
      Next(ops, j);
      var line := DiffLine(op, if op == Add then b[cb] else a[ca]);
      Snoc(out, line);
      out := out + [line];
      if op != Add {
        Next(a, ca);
        ca := ca + 1;
      }
      if op != Del {
        Next(b, cb);
        cb := cb + 1;
      }
    }
    assert a[..ca] == a && b[..cb] == b;
  }

  lemma InThree(s: seq<string>, i: nat, j: nat)
    requires i <= j <= |s|
    ensures s == s[..i] + s[i..j] + s[j..]
  {
  }

  /** What is to come of two lists of lines: a shortest script, or nothing.  Nothing exactly when they
      differ by more than one inserted block and by more than 2000 edits. */
  ghost predicate IsDiff(r: Option<seq<DiffLine>>, a: seq<string>, b: seq<string>) {
    (r.Some? ==> Shortest(r.value, a, b)) && (r.None? <==> !OneBlock(a, b) && NeedsAtLeast(a, b, 2001))
  }

  /** The diff of two texts, which is that of their lines. */
  method DiffLines(aText: string, bText: string) returns (r: Option<seq<DiffLine>>)
    ensures forall a, b :: LinesOf(a, aText) && LinesOf(b, bText) ==> IsDiff(r, a, b)
  {
    SplitIsLines(aText);
    SplitIsLines(bText);
    forall a, b | LinesOf(a, aText) && LinesOf(b, bText) ensures a == Split(aText) && b == Split(bText) {
      SplitFindsLines(a, aText);
      SplitFindsLines(b, bText);
    }
    r := DiffLists(Split(aText), Split(bText));
  }

  method DiffLists(a: seq<string>, b: seq<string>) returns (r: Option<seq<DiffLine>>)
    ensures IsDiff(r, a, b)
  {
    var start, endA, endB := Trim(a, b);
    ghost var p, q := a[..start], a[endA..];
    var midA, midB := a[start..endA], b[start..endB];
    InThree(a, start, endA);
    InThree(b, start, endB);
    var ops := Myers(midA, midB);
    TrimKeepsDistance(p, midA, midB, q, MAX_D + 1);
    if ops.None? { return None; }
    TrimKeepsDistance(p, midA, midB, q, OpEdits(ops.value));
    var middle := Annotate(ops.value, midA, midB);
    PadScript(middle, p, midA, midB, q);
    r := Some(Lines(Same, a[..start]) + middle + Lines(Same, a[endA..]));
  }

  /** Two texts of at most 2000 lines together are never given up on. */
  lemma ShortTextsAreNeverCutOff(a: seq<string>, b: seq<string>)
    requires |a| + |b| <= 2000
    ensures !NeedsAtLeast(a, b, 2001)
  {
    var s := ReplaceAll(a, b);
    assert Edits(s) < 2001;
  }
}
