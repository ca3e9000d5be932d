/**
 The furthest-reaching points of the O(ND) difference algorithm, on the edit grid of two
 line lists.  Round `d` has the diagonals k = 2*i - d for 0 <= i <= d.  A row lists, for one
 round, the x-coordinate reached on each of its diagonals.  Points may overrun the grid: a
 deletion or addition is taken even past the last line, exactly as the search does.
 */
module Furthest {
  import opened EditScript

  /** Follow common lines from (x, y). */
  ghost function Slide(a: seq<string>, b: seq<string>, x: nat, y: nat): (r: nat)
    ensures x <= r
    ensures x < r ==> r <= |a| && y + (r - x) <= |b|
    ensures r < |a| && y + (r - x) < |b| ==> a[r] != b[y + (r - x)]
    decreases |a| - x
  {
    if x < |a| && y < |b| && a[x] == b[y] then Slide(a, b, x + 1, y + 1) else x
  }

  /** No point lies left of or above the origin. */
  ghost predicate InQuadrant(row: seq<nat>) {
    forall i :: 0 <= i < |row| ==> 2 * i - (|row| - 1) <= row[i]
  }

  /** Whether diagonal i is entered by an addition (from point i of the round before) rather
      than by a deletion (from point i-1). */
  ghost predicate ByAddition(prev: seq<nat>, i: nat)
    requires i <= |prev| && prev != []
  {
    i == 0 || (i != |prev| && prev[i - 1] < prev[i])
  }

  /** Where a round enters diagonal i, before any common line is followed. */
  ghost function Entry(prev: seq<nat>, i: nat): nat
    requires i <= |prev|
  {
    if prev == [] then 0 else if ByAddition(prev, i) then prev[i] else prev[i - 1] + 1
  }

  ghost function Advance(a: seq<string>, b: seq<string>, prev: seq<nat>, i: nat): (x: nat)
    requires i <= |prev| && InQuadrant(prev)
    ensures 2 * i - |prev| <= x && Entry(prev, i) <= x
    ensures Entry(prev, i) < x ==> x <= |a| && x - (2 * i - |prev|) <= |b|
    ensures x < |a| && x - (2 * i - |prev|) < |b| ==> a[x] != b[x - (2 * i - |prev|)]
    ensures i < |prev| ==> prev[i] <= x
    ensures 0 < i ==> prev[i - 1] + 1 <= x
  {
    Slide(a, b, Entry(prev, i), Entry(prev, i) - (2 * i - |prev|))
  }

  /** rows[d] is what the frontier array holds when round d starts: nothing in round 0, then
      the points of the round before. */
  ghost predicate Rounds(a: seq<string>, b: seq<string>, rows: seq<seq<nat>>) {
    rows != [] &&
    (forall d :: 0 <= d < |rows| ==> |rows[d]| == d && InQuadrant(rows[d])) &&
    forall d, i {:trigger Advance(a, b, rows[d], i)} :: 0 <= d < |rows| - 1 && 0 <= i <= d ==>
      rows[d + 1][i] == Advance(a, b, rows[d], i)
  }

  /** Point i of the row is at or past the far corner of the grid. */
  ghost predicate Corner(a: seq<string>, b: seq<string>, row: seq<nat>, i: nat)
    requires i < |row|
  {
    |a| <= row[i] && |b| <= row[i] - (2 * i - (|row| - 1))
  }

  ghost predicate NoCorner(a: seq<string>, b: seq<string>, row: seq<nat>) {
    forall i :: 0 <= i < |row| ==> !Corner(a, b, row, i)
  }

  lemma PointOf(a: seq<string>, b: seq<string>, rows: seq<seq<nat>>, d: nat, i: nat)
    requires Rounds(a, b, rows) && i <= d < |rows| - 1
    ensures rows[d + 1][i] == Advance(a, b, rows[d], i)
  {
  }

  /** A stored x never exceeds the number of old lines by more than the round number, so it
      stays within 32 bits whenever the text has fewer than 2^31 - 2000 lines. */
  lemma {:induction false} PointBound(a: seq<string>, b: seq<string>, rows: seq<seq<nat>>, d: nat, i: nat)
    requires Rounds(a, b, rows) && i <= d < |rows|
    ensures Advance(a, b, rows[d], i) <= |a| + d
  {
    if d > 0 {
      if ByAddition(rows[d], i) {
        PointOf(a, b, rows, d - 1, i);
        PointBound(a, b, rows, d - 1, i);
      } else {
        PointOf(a, b, rows, d - 1, i - 1);
        PointBound(a, b, rows, d - 1, i - 1);
      }
    }
  }

  /** Furthest-reaching: no script prefix with the same number of edits that ends on the same
      diagonal gets further than the stored point. */
  lemma {:induction false} NothingGetsFurther(s: seq<DiffLine>, a: seq<string>, b: seq<string>, rows: seq<seq<nat>>,
                                              x: nat, y: nat)
    returns (i: nat)
    requires Rounds(a, b, rows) && Edits(s) < |rows|
    requires x <= |a| && y <= |b| && Rewrites(s, a[..x], b[..y])
    ensures i <= Edits(s) && 2 * i - Edits(s) == x - y && x <= Advance(a, b, rows[Edits(s)], i)
  {
    if s == [] {
      i := 0;
    } else {
      var init, last := s[..|s| - 1], s[|s| - 1];
      assert s == init + [last];
      var x', y' := SplitLast(init, last, a, b, x, y);
      i := NothingGetsFurther(init, a, b, rows, x', y');
      i := LastLineGetsNoFurther(last, a, b, rows, Edits(init), i, x', y');
    }
  }

  lemma LastLineGetsNoFurther(last: DiffLine, a: seq<string>, b: seq<string>, rows: seq<seq<nat>>, d: nat, i: nat,
          x: nat, y: nat)
    returns (i': nat)
    requires Rounds(a, b, rows) && i <= d && d + Cost(last) < |rows| && 2 * i - d == x - y &&
             x <= Advance(a, b, rows[d], i)
    requires last.kind == Same ==> x < |a| && y < |b| && a[x] == b[y]
    ensures i' <= d + Cost(last)
    ensures 2 * i' - (d + Cost(last)) ==
            (if last.kind == Add then x else x + 1) - (if last.kind == Del then y else y + 1)
    ensures (if last.kind == Add then x else x + 1) <= Advance(a, b, rows[d + Cost(last)], i')
  {
    i' := i;
    match last.kind
    case Same =>
    case Add => AdditionGetsNoFurther(a, b, rows, d, i, x);
    case Del =>
      DeletionGetsNoFurther(a, b, rows, d, i, x);
      i' := i + 1;
  }

  lemma AdditionGetsNoFurther(a: seq<string>, b: seq<string>, rows: seq<seq<nat>>, d: nat, i: nat, x: nat)
    requires Rounds(a, b, rows) && i <= d < |rows| - 1 && x <= Advance(a, b, rows[d], i)
    ensures x <= Advance(a, b, rows[d + 1], i)
  {
    PointOf(a, b, rows, d, i);
  }

  lemma DeletionGetsNoFurther(a: seq<string>, b: seq<string>, rows: seq<seq<nat>>, d: nat, i: nat, x: nat)
    requires Rounds(a, b, rows) && i <= d < |rows| - 1 && x <= Advance(a, b, rows[d], i)
    ensures x + 1 <= Advance(a, b, rows[d + 1], i + 1)
  {
    PointOf(a, b, rows, d, i);
  }

  /** The last line of a script between prefixes, and the prefixes without it. */
  lemma SplitLast(init: seq<DiffLine>, last: DiffLine, a: seq<string>, b: seq<string>, x: nat, y: nat)
    returns (x': nat, y': nat)
    requires x <= |a| && y <= |b| && Rewrites(init + [last], a[..x], b[..y])
    ensures last.kind != Add ==> x' + 1 == x && a[x'] == last.text
    ensures last.kind != Del ==> y' + 1 == y && b[y'] == last.text
    ensures (last.kind == Add ==> x' == x) && (last.kind == Del ==> y' == y)
    ensures Rewrites(init, a[..x'], b[..y']) && Edits(init + [last]) == Edits(init) + Cost(last)
  {
    x', y' := x, y;
    Snoc(init, last);
    if last.kind != Add {
      PrefixSnoc(a, x, OldSide(init), last.text);
      x' := x - 1;
    }
    if last.kind != Del {
      PrefixSnoc(b, y, NewSide(init), last.text);
      y' := y - 1;
    }
  }

  lemma PrefixSnoc<T>(a: seq<T>, x: nat, init: seq<T>, last: T)
    requires x <= |a| && a[..x] == init + [last]
    ensures 0 < x && init == a[..x - 1] && a[x - 1] == last
  {
    assert init == (init + [last])[..|init|];
    assert a[x - 1] == a[..x][x - 1];
  }

  /** As long as no round has reached the corner, no script is that short. */
  lemma NoCornerMeansFarther(a: seq<string>, b: seq<string>, rows: seq<seq<nat>>)
    requires Rounds(a, b, rows)
    requires forall d :: 0 <= d < |rows| ==> NoCorner(a, b, rows[d])
    ensures NeedsAtLeast(a, b, |rows| - 1)
  {
    forall s | Rewrites(s, a, b) ensures |rows| - 1 <= Edits(s) {
      if Edits(s) < |rows| - 1 {
        ScriptReachesCorner(s, a, b, rows);
      }
    }
  }

  /** Every script has a round that reaches the corner. */
  lemma ScriptReachesCorner(s: seq<DiffLine>, a: seq<string>, b: seq<string>, rows: seq<seq<nat>>)
    requires Rounds(a, b, rows) && Rewrites(s, a, b) && Edits(s) < |rows| - 1
    ensures !NoCorner(a, b, rows[Edits(s) + 1])
  {
    assert a[..|a|] == a && b[..|b|] == b;
    var i := NothingGetsFurther(s, a, b, rows, |a|, |b|);
    PointOf(a, b, rows, Edits(s), i);
    assert Corner(a, b, rows[Edits(s) + 1], i);
  }

  /** A point past the last old line is one deletion beyond a point of the round before. */
  lemma {:induction false} OverrunOld(a: seq<string>, b: seq<string>, rows: seq<seq<nat>>, d: nat, i: nat)
    requires Rounds(a, b, rows) && i <= d < |rows|
    requires |a| < Advance(a, b, rows[d], i)
    ensures 0 < i && Advance(a, b, rows[d], i) - 1 <= rows[d][i - 1]
  {
    if ByAddition(rows[d], i) {
      PointOf(a, b, rows, d - 1, i);
      OverrunOld(a, b, rows, d - 1, i);
      PointOf(a, b, rows, d - 1, i - 1);
    }
  }

  /** A point past the last new line is one addition beyond a point of the round before. */
  lemma {:induction false} OverrunNew(a: seq<string>, b: seq<string>, rows: seq<seq<nat>>, d: nat, i: nat)
    requires Rounds(a, b, rows) && i <= d < |rows|
    requires |b| < Advance(a, b, rows[d], i) - (2 * i - d)
    ensures i < d && Advance(a, b, rows[d], i) <= rows[d][i]
  {
    if !ByAddition(rows[d], i) {
      PointOf(a, b, rows, d - 1, i - 1);
      OverrunNew(a, b, rows, d - 1, i - 1);
      PointOf(a, b, rows, d - 1, i);
    }
  }

  /** The first corner found is the corner itself, never an overrun. */
  lemma FirstCornerIsExact(a: seq<string>, b: seq<string>, rows: seq<seq<nat>>, i: nat)
    requires Rounds(a, b, rows) && i < |rows|
    requires NoCorner(a, b, rows[|rows| - 1])
    requires |a| <= Advance(a, b, rows[|rows| - 1], i) &&
             |b| <= Advance(a, b, rows[|rows| - 1], i) - (2 * i - (|rows| - 1))
    ensures Advance(a, b, rows[|rows| - 1], i) == |a| && |a| - |b| == 2 * i - (|rows| - 1)
  {
    var d := |rows| - 1;
    if |a| < Advance(a, b, rows[d], i) { OverrunMeansCorner(a, b, rows, d, i); }
    if |b| < Advance(a, b, rows[d], i) - (2 * i - d) { OverrunMeansCorner(a, b, rows, d, i); }
  }

  /** An overrun has a point at the corner before it. */
  lemma OverrunMeansCorner(a: seq<string>, b: seq<string>, rows: seq<seq<nat>>, d: nat, i: nat)
    requires Rounds(a, b, rows) && i <= d < |rows|
    requires |a| <= Advance(a, b, rows[d], i) && |b| <= Advance(a, b, rows[d], i) - (2 * i - d)
    requires |a| < Advance(a, b, rows[d], i) || |b| < Advance(a, b, rows[d], i) - (2 * i - d)
    ensures !NoCorner(a, b, rows[d])
  {
    if |a| < Advance(a, b, rows[d], i) {
      OverrunOld(a, b, rows, d, i);
      assert Corner(a, b, rows[d], i - 1);
    } else {
      OverrunNew(a, b, rows, d, i);
      assert Corner(a, b, rows[d], i);
    }
  }
}
