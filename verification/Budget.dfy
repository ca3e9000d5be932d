/** History bytes: which versions count against the budget, and how much they weigh. */
module Budget {
  import opened Bytes
  import opened Options
  import opened Tables
  import opened Requests
  import opened Steps

  type History = map<VersionKey, Version>

  /** Every version but each object's newest. */
  function NonNewest(versions: History): set<VersionKey> {
    set k | k in versions && Newer(versions, k) != {}
  }

  ghost function Weight(versions: History, keys: set<VersionKey>): int
    requires keys <= versions.Keys
  {
    if keys == {} then 0
    else
      var k :| k in keys;
      versions[k].size + Weight(versions, keys - {k})
  }

  /** The sum does not depend on the order it is taken in. */
  lemma {:induction false} WeightWithout(versions: History, keys: set<VersionKey>, k: VersionKey)
    requires keys <= versions.Keys && k in keys
    ensures Weight(versions, keys) == versions[k].size + Weight(versions, keys - {k})
    decreases |keys|
  {
    var j :| j in keys && Weight(versions, keys) == versions[j].size + Weight(versions, keys - {j});
    if j != k {
      WeightWithout(versions, keys - {j}, k);
      WeightWithout(versions, keys - {k}, j);
      assert keys - {j} - {k} == keys - {k} - {j};
    }
  }

  lemma {:induction false} WeightIsLocal(versions: History, versions': History, keys: set<VersionKey>)
    requires keys <= versions.Keys && keys <= versions'.Keys
    requires forall k :: k in keys ==> versions[k] == versions'[k]
    ensures Weight(versions, keys) == Weight(versions', keys)
    decreases |keys|
  {
    if keys != {} {
      var k :| k in keys;
      WeightWithout(versions, keys, k);
      WeightWithout(versions', keys, k);
      WeightIsLocal(versions, versions', keys - {k});
    }
  }

  lemma {:induction false} WeightNonNegative(versions: History, keys: set<VersionKey>)
    requires keys <= versions.Keys && forall k :: k in versions ==> 0 <= versions[k].size
    ensures 0 <= Weight(versions, keys)
    decreases |keys|
  {
    if keys != {} {
      var k :| k in keys;
      WeightWithout(versions, keys, k);
      WeightNonNegative(versions, keys - {k});
    }
  }

  function Without(versions: History, keys: set<VersionKey>): History {
    map k | k in versions && k !in keys :: versions[k]
  }

  /** An object with versions has a newest one. */
  lemma {:induction false} NewestExists(versions: History, k: VersionKey, n: nat) returns (j: VersionKey)
    requires k in versions && |Newer(versions, k)| <= n
    ensures j in versions && j.0 == k.0 && k.1 <= j.1 && Newer(versions, j) == {}
    decreases n
  {
    if Newer(versions, k) == {} {
      j := k;
    } else {
      var k' :| k' in Newer(versions, k);
      assert Newer(versions, k') <= Newer(versions, k) - {k'};
      Smaller(Newer(versions, k'), Newer(versions, k), k');
      j := NewestExists(versions, k', n - 1);
    }
  }

  lemma Smaller(a: set<VersionKey>, b: set<VersionKey>, k: VersionKey)
    requires k in b && a <= b - {k}
    ensures |a| < |b|
  {
    SubsetSize(a, b - {k});
  }

  lemma {:induction false} SubsetSize<T>(a: set<T>, b: set<T>)
    requires a <= b
    ensures |a| <= |b|
  {
    if a != {} {
      var x :| x in a;
      SubsetSize(a - {x}, b - {x});
    }
  }

  /** Giving up versions that are not their object's newest leaves the newest ones, and takes
      exactly those versions off the budget. */
  lemma DroppingKeepsNewest(versions: History, keys: set<VersionKey>)
    requires keys <= NonNewest(versions)
    ensures NonNewest(Without(versions, keys)) == NonNewest(versions) - keys
    ensures forall k :: k in versions && Newer(versions, k) == {} ==> k in Without(versions, keys)
  {
    var rest := Without(versions, keys);
    forall k | k in NonNewest(versions) - keys ensures k in NonNewest(rest) {
      var j := NewestExists(versions, k, |Newer(versions, k)|);
      assert j !in keys && j in rest;
      var k' :| k' in Newer(versions, k);
      assert j.1 > k.1;
      assert j in Newer(rest, k);
    }
    forall k | k in NonNewest(rest) ensures k in NonNewest(versions) - keys {
      var j :| j in Newer(rest, k);
      assert j in Newer(versions, k);
    }
  }

  /** Pruning in several transactions, each with its own collection, comes to one pruning. */
  lemma PruningComposes(s: Store, first: set<VersionKey>, second: set<VersionKey>)
    ensures DropVersions(DropVersions(s, first, true), second, true) == DropVersions(s, first + second, true)
  {
    var s1 := DropVersions(s, first, true);
    var s2 := DropVersions(s1, second, true);
    var both := DropVersions(s, first + second, true);
    assert s2.versions == both.versions;
    forall b ensures b in s2.blobs <==> b in both.blobs {
      BlobGoes(s, first, b);
      BlobGoes(s1, second, b);
      BlobGoes(s, first + second, b);
      GoneInTwo(s, first, second, b);
    }
    assert s2.blobs == both.blobs;
  }

  /** A blob of a dropped version that nothing refers to any more. */
  ghost predicate Goes(s: Store, keys: set<VersionKey>, b: string) {
    b != "" && !Referenced(s.heads, Without(s.versions, keys), b) && HasBlob(s.versions, keys, b)
  }

  ghost predicate HasBlob(versions: History, keys: set<VersionKey>, b: string) {
    exists k :: k in keys && k in versions && versions[k].blobId == b
  }

  lemma BlobGoes(s: Store, keys: set<VersionKey>, b: string)
    ensures b in DropVersions(s, keys, true).blobs <==> b in s.blobs && !Goes(s, keys, b)
  {
    assert DropVersions(s, keys, true).versions == Without(s.versions, keys);
  }

  lemma GoneInTwo(s: Store, first: set<VersionKey>, second: set<VersionKey>, b: string)
    ensures var s1 := DropVersions(s, first, true);
            Goes(s, first + second, b) <==> Goes(s, first, b) || Goes(s1, second, b)
  {
    var m1 := Without(s.versions, first);
    assert DropVersions(s, first, true).versions == m1;
    assert Without(m1, second) == Without(s.versions, first + second);
    if HasBlob(s.versions, first + second, b) { LaterHasIt(s, first, second, b); }
    if HasBlob(m1, second, b) || HasBlob(s.versions, first, b) { assert HasBlob(s.versions, first + second, b); }
  }

  /** If the second pruning drops no version with this blob, the first left none that the
      second would. */
  lemma LaterHasIt(s: Store, first: set<VersionKey>, second: set<VersionKey>, b: string)
    requires HasBlob(s.versions, first + second, b)
    ensures HasBlob(Without(s.versions, first), second, b) ||
            (HasBlob(s.versions, first, b) &&
             (Referenced(s.heads, Without(s.versions, first), b) <==>
               Referenced(s.heads, Without(s.versions, first + second), b)))
  {
    var m1, m2 := Without(s.versions, first), Without(s.versions, first + second);
    if k :| k in second && k !in first && k in s.versions && s.versions[k].blobId == b {
      assert k in m1 && m1[k].blobId == b;
    } else {
      assert forall j :: j in m1 && m1[j].blobId == b ==> j !in second;
      RefersMore(s.heads, m1, m2, b);
      RefersMore(s.heads, m2, m1, b);
    }
  }

  lemma RefersMore(heads: map<string, Head>, from: History, to: History, b: string)
    requires forall k :: k in from && from[k].blobId == b ==> k in to && to[k].blobId == b
    ensures Referenced(heads, from, b) ==> Referenced(heads, to, b)
  {
    if Referenced(heads, from, b) && !exists f :: f in heads && heads[f].blobId == b {
      var k :| k in from && from[k].blobId == b;
      assert k in to && to[k].blobId == b;
    }
  }

  // ---------- oldest first, until the rest fits ----------

  function Elements(keys: seq<VersionKey>): set<VersionKey> {
    set k | k in keys
  }

  /** Each is not its object's newest, and when its turn comes nothing older is left. */
  ghost predicate OldestFirst(versions: History, keys: seq<VersionKey>) {
    forall i :: 0 <= i < |keys| ==> OldestOf(versions, NonNewest(versions) - Elements(keys[..i]), keys[i])
  }

  ghost predicate OldestOf(versions: History, candidates: set<VersionKey>, k: VersionKey)
    requires candidates <= versions.Keys
  {
    k in candidates && forall j :: j in candidates ==> versions[k].createdAt <= versions[j].createdAt
  }

  /** What still counts against the budget once these are gone. */
  ghost function LeftOver(versions: History, keys: seq<VersionKey>): int {
    Weight(versions, NonNewest(versions) - Elements(keys))
  }

  /** Before each one went, the budget was still exceeded. */
  ghost predicate AllNeeded(versions: History, keys: seq<VersionKey>, max: int) {
    forall i :: 0 <= i < |keys| ==> LeftOver(versions, keys[..i]) > max
  }

  lemma LeftAfterBoth(versions: History, first: seq<VersionKey>, second: seq<VersionKey>)
    requires Elements(first) <= NonNewest(versions)
    ensures NonNewest(Without(versions, Elements(first))) - Elements(second) ==
            NonNewest(versions) - Elements(first + second)
    ensures LeftOver(Without(versions, Elements(first)), second) == LeftOver(versions, first + second)
  {
    DroppingKeepsNewest(versions, Elements(first));
    var left := NonNewest(versions) - Elements(first + second);
    assert left == NonNewest(versions) - Elements(first) - Elements(second);
    WeightIsLocal(versions, Without(versions, Elements(first)), left);
  }

  /** One batch after another, read afresh in between, is one list. */
  lemma BatchesAppend(versions: History, first: seq<VersionKey>, second: seq<VersionKey>, max: int)
    requires Elements(first) <= NonNewest(versions) && OldestFirst(versions, first) && AllNeeded(versions, first, max)
    requires OldestFirst(Without(versions, Elements(first)), second) &&
             AllNeeded(Without(versions, Elements(first)), second, max)
    ensures OldestFirst(versions, first + second) && AllNeeded(versions, first + second, max)
    ensures Elements(first + second) <= NonNewest(versions)
  {
    var keys, rest := first + second, Without(versions, Elements(first));
    forall i | 0 <= i < |keys|
      ensures OldestOf(versions, NonNewest(versions) - Elements(keys[..i]), keys[i]) &&
              LeftOver(versions, keys[..i]) > max
    {
      if i < |first| {
        assert keys[..i] == first[..i];
      } else {
        var j := i - |first|;
        assert keys[..i] == first + second[..j] && keys[i] == second[j];
        LeftAfterBoth(versions, first, second[..j]);
        assert OldestOf(rest, NonNewest(rest) - Elements(second[..j]), second[j]);
      }
    }
    forall k | k in Elements(keys) ensures k in NonNewest(versions) {
      var i :| 0 <= i < |keys| && keys[i] == k;
      assert OldestOf(versions, NonNewest(versions) - Elements(keys[..i]), keys[i]);
    }
  }

  ghost predicate DistinctAges(versions: History) {
    var older := NonNewest(versions);
    forall j, k :: j in older && k in older && versions[j].createdAt == versions[k].createdAt ==> j == k
  }

  /** When no two versions are equally old, no fewer would have done: every list that goes
      oldest first and makes the rest fit is at least as long. */
  lemma NoShorterFits(versions: History, keys: seq<VersionKey>, other: seq<VersionKey>, max: int)
    requires DistinctAges(versions)
    requires OldestFirst(versions, keys) && AllNeeded(versions, keys, max)
    requires OldestFirst(versions, other) && LeftOver(versions, other) <= max
    ensures |keys| <= |other| && keys == other[..|keys|]
  {
    if |other| < |keys| {
      OrderIsForced(versions, keys, other, |other|);
      WholeIsItself(other);
      assert false;
    } else {
      OrderIsForced(versions, keys, other, |keys|);
      assert keys == keys[..|keys|];
    }
  }

  lemma WholeIsItself(keys: seq<VersionKey>)
    ensures keys[..|keys|] == keys
  {
  }

  lemma {:induction false} OrderIsForced(versions: History, a: seq<VersionKey>, b: seq<VersionKey>, n: nat)
    requires DistinctAges(versions)
    requires OldestFirst(versions, a) && OldestFirst(versions, b) && n <= |a| && n <= |b|
    ensures a[..n] == b[..n]
  {
    if n > 0 {
      OrderIsForced(versions, a, b, n - 1);
      NextIsForced(versions, a, b, n - 1);
      TakeOneMore(a, b, n - 1);
    }
  }

  lemma TakeOneMore(a: seq<VersionKey>, b: seq<VersionKey>, n: nat)
    requires n < |a| && n < |b| && a[..n] == b[..n] && a[n] == b[n]
    ensures a[..n + 1] == b[..n + 1]
  {
    assert a[..n + 1] == a[..n] + [a[n]] && b[..n + 1] == b[..n] + [b[n]];
  }

  lemma NextIsForced(versions: History, a: seq<VersionKey>, b: seq<VersionKey>, n: nat)
    requires DistinctAges(versions) && OldestFirst(versions, a) && OldestFirst(versions, b)
    requires n < |a| && n < |b| && a[..n] == b[..n]
    ensures a[n] == b[n]
  {
    OneOldest(versions, NonNewest(versions) - Elements(a[..n]), a[n], b[n]);
  }

  lemma OneOldest(versions: History, candidates: set<VersionKey>, j: VersionKey, k: VersionKey)
    requires candidates <= NonNewest(versions) && OldestOf(versions, candidates, j) && OldestOf(versions, candidates, k)
    requires DistinctAges(versions)
    ensures j == k
  {
  }
}
