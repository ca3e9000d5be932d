/**
 Two-round collection of blob files nothing refers to.  The scan runs without the service
 lock, so requests may change the store at any point between two lock sections; each verdict
 on a file is taken again under the lock.
 */
module Collector {
  import opened Bytes
  import opened Options
  import opened Tables
  import opened Requests
  import opened Steps
  import opened Effects
  import opened ServiceModule

  /** What collection did, in order, over all rounds; of a removal, with the tables as they were
      under the lock. */
  datatype Event =
    | Started(busy: bool, meta: MetaState)
    | Saw(blob: string)
    | Marked(blob: string)
    | Removed(blob: string, heads: map<string, Head>, versions: map<VersionKey, Version>)

  /** A round may start: no scrub, backup or metadata migration is under way. */
  predicate Calm(busy: bool, meta: MetaState) {
    !busy && (meta == MetaPlain || meta == MetaEncrypted)
  }

  /** How often a blob was marked since it was last seen referenced or removed. */
  function Marks(events: seq<Event>, b: string): nat {
    if events == [] then 0
    else
      var init, last := events[..|events| - 1], events[|events| - 1];
      if last == Marked(b) then Marks(init, b) + 1
      else if last == Saw(b) || (last.Removed? && last.blob == b) then 0
      else Marks(init, b)
  }

  predicate MarkedThisRound(events: seq<Event>, b: string) {
    events != [] && !events[|events| - 1].Started? &&
    (events[|events| - 1] == Marked(b) || MarkedThisRound(events[..|events| - 1], b))
  }

  /** No round marks a blob twice. */
  predicate MarksOnce(events: seq<Event>) {
    events == [] ||
    (MarksOnce(events[..|events| - 1]) &&
     (events[|events| - 1].Marked? ==> !MarkedThisRound(events[..|events| - 1], events[|events| - 1].blob)))
  }

  /** Two rounds marked the blob, and none since the first of them saw it referenced. */
  ghost predicate TwiceConfirmed(events: seq<Event>, b: string) {
    exists i, m, j :: 0 <= i < m < j < |events| && events[i] == Marked(b) && events[m].Started? &&
      events[j] == Marked(b) && Unseen(events, i, b)
  }

  predicate Unseen(events: seq<Event>, from: nat, b: string) {
    forall k :: from <= k < |events| ==> events[k] != Saw(b) && !(events[k].Removed? && events[k].blob == b)
  }

  /** Some look since then found the blob referenced. */
  ghost predicate SeenSince(events: seq<Event>, from: nat, b: string) {
    exists k :: from <= k < |events| && events[k] == Saw(b)
  }

  /** A round has dealt with the blob: it saw it referenced, or removed it, or marked it for the first
      time. */
  ghost predicate Handled(was: seq<Event>, events: seq<Event>, gone: set<string>, b: string) {
    SeenSince(events, |was|, b) || b in gone || (Marks(was, b) == 0 && Marks(events, b) > 0)
  }

  /** It has not, except that it may have seen it. */
  ghost predicate Unsettled(was: seq<Event>, events: seq<Event>, b: string) {
    SeenSince(events, |was|, b) || Marks(events, b) == Marks(was, b)
  }

  /** What was removed from some point on. */
  function RemovedSince(events: seq<Event>, from: nat): set<string> {
    set n | from <= n < |events| && events[n].Removed? :: events[n].blob
  }

  /** Every removal was of a blob that no row referred to then and that had been confirmed twice. */
  ghost predicate Careful(events: seq<Event>) {
    events == [] ||
    var (init, last) := (events[..|events| - 1], events[|events| - 1]);
    Careful(init) && (last.Removed? ==>
      !Referenced(last.heads, last.versions, last.blob) && TwiceConfirmed(init, last.blob))
  }

  /** Everything happens in a round, and every round started while it may. */
  predicate StartsCalm(events: seq<Event>) {
    events == [] ||
    var (init, last) := (events[..|events| - 1], events[|events| - 1]);
    StartsCalm(init) && if last.Started? then Calm(last.busy, last.meta) else init != []
  }

  ghost predicate Agree(candidates: map<string, nat>, events: seq<Event>) {
    (forall b :: b in candidates <==> Marks(events, b) > 0) && forall b :: b in candidates ==>
      candidates[b] == Marks(events, b)
  }

  class Collector {
    const service: Service
    var candidates: map<string, nat>
    ghost var events: seq<Event>

    ghost predicate Valid()
      reads this
    {
      Agree(candidates, events) && MarksOnce(events) && StartsCalm(events) && Careful(events)
    }

    constructor (service: Service)
      ensures this.service == service && candidates == map[] && events == [] && Valid()
    {
      this.service := service;
      candidates := map[];
      events := [];
    }

    /** Requests served between two lock sections: anything that leaves the service valid.
        None of them touches the candidates. */
    method Others()
      requires service.Valid()
      modifies service, service.store
      ensures service.Valid()
    {
    }

    method MarkGCCandidate(blob: string) returns (rounds: nat)
      requires Valid() && events != [] && !MarkedThisRound(events, blob)
      modifies this
      ensures Valid() && events == old(events) + [Marked(blob)] && rounds == Marks(events, blob)
    {
      rounds := if blob in candidates then candidates[blob] + 1 else 1;
      candidates := candidates[blob := rounds];
      Extend(events, Marked(blob));
      events := events + [Marked(blob)];
    }

    /** A candidate is seen referenced, or was just removed. */
    method ClearGCCandidate(blob: string, ghost why: Event)
      requires Valid() && events != [] && (why == Saw(blob) || (why.Removed? && why.blob == blob))
      requires why.Removed? ==> Marks(events, blob) >= 2 && !Referenced(why.heads, why.versions, blob)
      modifies this
      ensures Valid() && events == old(events) + [why]
    {
      candidates := candidates - {blob};
      if why.Removed? { TwoRounds(events, blob); }
      Extend(events, why);
      events := events + [why];
    }

    /** One lock section: decide on one blob for good. */
    method Settle(blob: string, faulty: bool) returns (removed: bool)
      requires Valid() && service.Valid() && events != [] && !MarkedThisRound(events, blob)
      modifies this, service.store
      ensures Valid() && service.Valid()
      ensures removed <==>
              !Referenced(service.heads, service.versions, blob) && Marks(old(events), blob) > 0 && !faulty
      ensures Referenced(service.heads, service.versions, blob) ==> events == old(events) + [Saw(blob)]
      ensures service.State() == if removed then CollectNext(old(service.State()), {blob}) else old(service.State())
      ensures Settled(old(events), events, blob, removed, service.heads, service.versions) && (removed ==> !faulty)
    {
      removed := false;
      if Referenced(service.heads, service.versions, blob) {
        ClearGCCandidate(blob, Saw(blob));
        return;
      }
      Extend(events, Marked(blob));
      var rounds := MarkGCCandidate(blob);
      if rounds < 2 || faulty { return; }
      RemoveOrphan(blob);
      ClearGCCandidate(blob, Removed(blob, service.heads, service.versions));
      removed := true;
    }

    method RemoveOrphan(blob: string)
      requires !Referenced(service.heads, service.versions, blob)
      modifies service.store
      ensures service.State() == CollectNext(old(service.State()), {blob})
    {
      service.store.Remove(blob);
      assert service.store.files == CollectNext(old(service.State()), {blob}).blobs;
    }

    /** One look of the scan, after whatever requests. */
    method Look(blob: string, ghost was: seq<Event>) returns (referenced: bool)
      requires Valid() && service.Valid() && Scanning(was, events)
      modifies this, service, service.store
      ensures Valid() && service.Valid() && Scanning(was, events)
      ensures forall b :: SeenSince(events, |was|, b) <==>
                SeenSince(old(events), |was|, b) || (referenced && b == blob)
    {
      Others();
      referenced := Referenced(service.heads, service.versions, blob);
      if referenced {
        Extend(events, Saw(blob));
        GrowsBy(was, events, {}, Saw(blob));
        SeesOne(was, events, blob);
        ClearGCCandidate(blob, Saw(blob));
      }
    }

    /** The scan: old enough files that nothing refers to at the moment they are looked at. */
    method Walk(recent: set<string>, ghost was: seq<Event>) returns (found: seq<string>)
      requires Valid() && service.Valid() && Scanning(was, events)
      modifies this, service, service.store
      ensures Valid() && service.Valid() && Scanning(was, events)
      ensures forall i, j :: 0 <= i < j < |found| ==> found[i] != found[j]
      ensures forall i :: 0 <= i < |found| ==> found[i] !in recent
      ensures |found| <= |old(service.store.files)|
      ensures forall b :: b in old(service.store.files) && b !in recent ==>
                b in found || SeenSince(events, |was|, b)
    {
      found := [];
      var rest := service.store.files.Keys;
      while rest != {}
        invariant rest <= old(service.store.files).Keys && |found| + |rest| <= |old(service.store.files)|
        invariant Valid() && service.Valid() && Scanning(was, events)
        invariant forall b :: b in old(service.store.files) && b !in recent && b !in rest ==>
                    b in found || SeenSince(events, |was|, b)
        invariant forall i :: 0 <= i < |found| ==> found[i] !in rest && found[i] !in recent
        invariant forall i, j :: 0 <= i < j < |found| ==> found[i] != found[j]
        decreases rest
      {
        var blob :| blob in rest;
        rest := rest - {blob};
        if blob !in recent {
          var referenced := Look(blob, was);
          if !referenced { found := found + [blob]; }
        }
      }
    }

    /** One round.  `recent` are files too young to be looked at, `faulty` those whose deletion
        does not go through, and the process may die after `stop` candidates. */
    method MaintainOrphanBlobs(busy: bool, recent: set<string>, faulty: set<string>, stop: nat)
      returns (removed: nat, ghost gone: set<string>)
      requires Valid() && service.Valid()
      modifies this, service, service.store
      ensures Valid() && service.Valid()
      ensures Grew(old(events), events, gone) && removed == |gone| && gone !! recent && gone !! faulty
      ensures Calm(busy, old(service.repo.meta)) && |old(service.store.files)| <= stop ==>
                forall b :: b in old(service.store.files) && b !in recent && b !in faulty ==>
                  Handled(old(events), events, gone, b)
      ensures !Calm(busy, old(service.repo.meta)) ==>
              gone == {} && events == old(events) && candidates == old(candidates) &&
              service.State() == old(service.State())
    {
      removed, gone := 0, {};
      ghost var was := events;
      if !Calm(busy, service.repo.meta) { return; }
      Start(busy);
      var found := Walk(recent, was);
      removed, gone := Collect(found, recent, faulty, stop, was);
    }

    method Start(busy: bool)
      requires Valid() && service.Valid() && Calm(busy, service.repo.meta)
      modifies this`events
      ensures Valid() && Scanning(old(events), events)
    {
      Extend(events, Started(busy, service.repo.meta));
      assert forall b :: Unsettled(events, events + [Started(busy, service.repo.meta)], b);
      GrowsBy(events, events, {}, Started(busy, service.repo.meta));
      events := events + [Started(busy, service.repo.meta)];
    }

    /** The candidates, each in a lock section of its own. */
    method Collect(found: seq<string>, recent: set<string>, faulty: set<string>, stop: nat, ghost was: seq<Event>)
      returns (removed: nat, ghost gone: set<string>)
      requires Valid() && service.Valid() && events != [] && Grew(was, events, {})
      requires forall i :: 0 <= i < |found| ==> found[i] !in recent && !MarkedThisRound(events, found[i])
      requires forall i, j :: 0 <= i < j < |found| ==> found[i] != found[j]
      requires forall i :: 0 <= i < |found| ==> Unsettled(was, events, found[i])
      modifies this, service, service.store
      ensures Valid() && service.Valid()
      ensures Grew(was, events, gone) && removed == |gone| && gone !! recent && gone !! faulty
      ensures |found| <= stop ==>
                forall i :: 0 <= i < |found| && found[i] !in faulty ==> Handled(was, events, gone, found[i])
      ensures forall b :: SeenSince(old(events), |was|, b) ==> SeenSince(events, |was|, b)
    {
      removed, gone := 0, {};
      var i := 0;
      while i < |found| && i < stop
        invariant 0 <= i <= |found| && Valid() && service.Valid() && events != []
        invariant Grew(was, events, gone) && removed == |gone| && gone !! recent && gone !! faulty
        invariant SettledUpTo(was, events, gone, found, faulty, i)
        invariant forall b :: SeenSince(old(events), |was|, b) ==> SeenSince(events, |was|, b)
      {
        ghost var before := events;
        var done := SettleAmongOthers(found[i], found[i] in faulty, was, gone);
        SettledOneMore(was, before, events, gone, found, faulty, i, done);
        if done { removed, gone := removed + 1, gone + {found[i]}; }
        i := i + 1;
      }
    }

    method SettleAmongOthers(blob: string, faulty: bool, ghost was: seq<Event>, ghost gone: set<string>)
      returns (removed: bool)
      requires Valid() && service.Valid() && events != [] && Grew(was, events, gone) && !MarkedThisRound(events, blob)
      modifies this, service, service.store
      ensures Valid() && service.Valid() && events != [] && (removed ==> !faulty)
      ensures Grew(was, events, if removed then gone + {blob} else gone)
      ensures forall b :: b != blob && !MarkedThisRound(old(events), b) ==> !MarkedThisRound(events, b)
      ensures SettledSince(was, old(events), events, gone, blob, removed, faulty)
    {
      Others();
      ghost var before := events;
      removed := Settle(blob, faulty);
      SettlesOne(was, before, events, gone, blob, removed, faulty, service.heads, service.versions);
      SettledOne(was, before, events, gone, blob, removed, service.heads, service.versions);
    }
  }

  /** The scan of a round: nothing was removed or marked by it, only sightings were recorded. */
  ghost predicate Scanning(was: seq<Event>, events: seq<Event>) {
    Grew(was, events, {}) && events != [] && forall b :: !MarkedThisRound(events, b) && Unsettled(was, events, b)
  }

  /** The record got longer, and exactly these were removed since. */
  ghost predicate Grew(was: seq<Event>, events: seq<Event>, gone: set<string>) {
    was <= events && RemovedSince(events, |was|) == gone
  }

  /** What one lock section adds to the record. */
  ghost predicate Settled(events: seq<Event>, events': seq<Event>, b: string, removed: bool, heads: map<string, Head>,
          versions: map<VersionKey, Version>)
  {
    if removed then events' == events + [Marked(b)] + [Removed(b, heads, versions)]
    else events' == events + [Saw(b)] || events' == events + [Marked(b)]
  }

  /** What a lock section means for the round it is in: the blob is dealt with, the others stand as
      they did. */
  ghost predicate SettledSince(was: seq<Event>, events: seq<Event>, events': seq<Event>, gone: set<string>,
          blob: string, removed: bool, faulty: bool)
  {
    var gone' := if removed then gone + {blob} else gone;
    (!faulty && Unsettled(was, events, blob) ==> Handled(was, events', gone', blob)) &&
    (forall b :: SeenSince(events, |was|, b) ==> SeenSince(events', |was|, b)) &&
    (forall b :: b != blob && Unsettled(was, events, b) ==> Unsettled(was, events', b)) &&
    forall b :: b != blob && Handled(was, events, gone, b) ==> Handled(was, events', gone', b)
  }

  /** The candidates before the i-th have been dealt with, and the others not yet in this round. */
  ghost predicate SettledUpTo(was: seq<Event>, events: seq<Event>, gone: set<string>, found: seq<string>,
          faulty: set<string>, i: nat)
  {
    (forall k :: 0 <= k < |found| && k < i && found[k] !in faulty ==> Handled(was, events, gone, found[k])) &&
    forall k :: i <= k < |found| ==>
      !MarkedThisRound(events, found[k]) && found[k] !in gone && Unsettled(was, events, found[k])
  }

  lemma SettledOneMore(was: seq<Event>, events: seq<Event>, events': seq<Event>, gone: set<string>,
          found: seq<string>, faulty: set<string>, i: nat, removed: bool)
    requires i < |found| && SettledUpTo(was, events, gone, found, faulty, i)
    requires forall k, m :: 0 <= k < m < |found| ==> found[k] != found[m]
    requires SettledSince(was, events, events', gone, found[i], removed, found[i] in faulty)
    requires forall b :: b != found[i] && !MarkedThisRound(events, b) ==> !MarkedThisRound(events', b)
    ensures SettledUpTo(was, events', if removed then gone + {found[i]} else gone, found, faulty, i + 1)
  {
  }

  // ---------- about the record of events ----------

  lemma Extend(events: seq<Event>, e: Event)
    ensures (events + [e])[..|events|] == events
    ensures forall b :: Marks(events + [e], b) ==
              if e == Marked(b) then Marks(events, b) + 1
              else if e == Saw(b) || (e.Removed? && e.blob == b) then 0 else Marks(events, b)
    ensures forall b :: MarkedThisRound(events + [e], b) <==>
            !e.Started? && (e == Marked(b) || MarkedThisRound(events, b))
    ensures MarksOnce(events + [e]) <==> MarksOnce(events) && (e.Marked? ==> !MarkedThisRound(events, e.blob))
    ensures Careful(events + [e]) <==>
            Careful(events) && (e.Removed? ==>
            !Referenced(e.heads, e.versions, e.blob) && TwiceConfirmed(events, e.blob))
    ensures StartsCalm(events + [e]) <==>
            StartsCalm(events) && if e.Started? then Calm(e.busy, e.meta) else events != []
  {
    assert (events + [e])[..|events|] == events;
  }

  lemma GrowsBy(was: seq<Event>, events: seq<Event>, gone: set<string>, e: Event)
    requires Grew(was, events, gone)
    ensures Grew(was, events + [e], if e.Removed? then gone + {e.blob} else gone)
  {
    var events' := events + [e];
    forall b ensures b in RemovedSince(events', |was|) <==> b in gone || (e.Removed? && b == e.blob) {
      if e.Removed? && b == e.blob { assert events'[|events|].Removed?; }
      if b in gone {
        var n :| |was| <= n < |events| && events[n].Removed? && events[n].blob == b;
        assert events'[n] == events[n];
      }
    }
  }

  lemma SettledOne(was: seq<Event>, events: seq<Event>, events': seq<Event>, gone: set<string>, blob: string,
          removed: bool, heads: map<string, Head>, versions: map<VersionKey, Version>)
    requires Settled(events, events', blob, removed, heads, versions) && Grew(was, events, gone)
    ensures events' != [] && Grew(was, events', if removed then gone + {blob} else gone)
    ensures forall b :: b != blob && !MarkedThisRound(events, b) ==> !MarkedThisRound(events', b)
  {
    Extend(events, Marked(blob));
    Extend(events, Saw(blob));
    GrowsBy(was, events, gone, Marked(blob));
    GrowsBy(was, events, gone, Saw(blob));
    if removed {
      Extend(events + [Marked(blob)], Removed(blob, heads, versions));
      GrowsBy(was, events + [Marked(blob)], gone, Removed(blob, heads, versions));
    }
  }

  lemma StaysSeen(events: seq<Event>, e: Event, from: nat, b: string)
    requires from <= |events|
    ensures SeenSince(events + [e], from, b) <==> SeenSince(events, from, b) || e == Saw(b)
  {
    var events' := events + [e];
    if k :| from <= k < |events| && events[k] == Saw(b) { assert events'[k] == Saw(b); }
    if e == Saw(b) { assert events'[|events|] == Saw(b); }
  }

  lemma SeesOne(was: seq<Event>, events: seq<Event>, blob: string)
    requires was <= events && forall b :: Unsettled(was, events, b)
    ensures forall b :: Unsettled(was, events + [Saw(blob)], b)
    ensures forall b :: SeenSince(events + [Saw(blob)], |was|, b) <==> SeenSince(events, |was|, b) || b == blob
  {
    Extend(events, Saw(blob));
    forall b ensures Unsettled(was, events + [Saw(blob)], b) &&
      (SeenSince(events + [Saw(blob)], |was|, b) <==> SeenSince(events, |was|, b) || b == blob)
    {
      StaysSeen(events, Saw(blob), |was|, b);
      assert Unsettled(was, events, b);
    }
  }

  lemma MarksAfter(events: seq<Event>, events': seq<Event>, blob: string, removed: bool, heads: map<string, Head>,
          versions: map<VersionKey, Version>)
    requires Settled(events, events', blob, removed, heads, versions)
    ensures forall b :: b != blob ==> Marks(events', b) == Marks(events, b)
    ensures !removed && events' != events + [Saw(blob)] ==> Marks(events', blob) == Marks(events, blob) + 1
  {
    Extend(events, Marked(blob));
    Extend(events, Saw(blob));
    Extend(events + [Marked(blob)], Removed(blob, heads, versions));
  }

  lemma SeenAfter(was: seq<Event>, events: seq<Event>, events': seq<Event>, blob: string, removed: bool,
          heads: map<string, Head>, versions: map<VersionKey, Version>, b: string)
    requires Settled(events, events', blob, removed, heads, versions) && was <= events
    ensures SeenSince(events, |was|, b) ==> SeenSince(events', |was|, b)
    ensures events' == events + [Saw(b)] ==> SeenSince(events', |was|, b)
  {
    StaysSeen(events, Marked(blob), |was|, b);
    StaysSeen(events, Saw(blob), |was|, b);
    StaysSeen(events, Saw(b), |was|, b);
    StaysSeen(events + [Marked(blob)], Removed(blob, heads, versions), |was|, b);
  }

  lemma SettlesOne(was: seq<Event>, events: seq<Event>, events': seq<Event>, gone: set<string>, blob: string,
          removed: bool, faulty: bool, heads: map<string, Head>, versions: map<VersionKey, Version>)
    requires Settled(events, events', blob, removed, heads, versions) && was <= events
    requires !removed && !faulty ==> events' == events + [Saw(blob)] || Marks(events, blob) == 0
    ensures SettledSince(was, events, events', gone, blob, removed, faulty)
  {
    MarksAfter(events, events', blob, removed, heads, versions);
    forall b ensures SeenSince(events, |was|, b) ==> SeenSince(events', |was|, b) {
      SeenAfter(was, events, events', blob, removed, heads, versions, b);
    }
    SeenAfter(was, events, events', blob, removed, heads, versions, blob);
  }

  /** Two rounds in a row that each got to the blob and did not see it referenced have removed it. */
  lemma TwoQuietRoundsRemove(e0: seq<Event>, e1: seq<Event>, e2: seq<Event>, gone1: set<string>, gone2: set<string>,
          b: string)
    requires Handled(e0, e1, gone1, b) && Handled(e1, e2, gone2, b)
    requires !SeenSince(e1, |e0|, b) && !SeenSince(e2, |e1|, b)
    ensures b in gone1 + gone2
  {
  }

  /** Where a blob was last marked. */
  lemma {:induction false} LastMark(events: seq<Event>, b: string) returns (j: nat)
    requires Marks(events, b) > 0
    ensures j < |events| && events[j] == Marked(b) && Unseen(events, j, b) &&
            Marks(events[..j], b) == Marks(events, b) - 1
  {
    var init := events[..|events| - 1];
    if events[|events| - 1] == Marked(b) {
      j := |events| - 1;
    } else {
      j := LastMark(init, b);
      assert init[..j] == events[..j];
      assert forall k :: j <= k < |init| ==> init[k] == events[k];
    }
  }

  lemma {:induction false} StartedSince(events: seq<Event>, i: nat, b: string) returns (m: nat)
    requires i < |events| && events[i] == Marked(b) && !MarkedThisRound(events, b)
    ensures i < m < |events| && events[m].Started?
  {
    m := |events| - 1;
    if !events[m].Started? { m := StartedSince(events[..m], i, b); }
  }

  lemma {:induction false} MarksOncePrefix(events: seq<Event>, n: nat)
    requires MarksOnce(events) && n <= |events|
    ensures MarksOnce(events[..n])
  {
    if n < |events| {
      MarksOncePrefix(events[..|events| - 1], n);
      assert events[..|events| - 1][..n] == events[..n];
    } else {
      assert events[..n] == events;
    }
  }

  /** Two marks since a blob was last seen come from two rounds. */
  lemma TwoRounds(events: seq<Event>, b: string)
    requires MarksOnce(events) && Marks(events, b) >= 2
    ensures TwiceConfirmed(events, b)
  {
    var j := LastMark(events, b);
    var i := LastMark(events[..j], b);
    MarksOncePrefix(events, j + 1);
    assert events[..j + 1][..j] == events[..j];
    var m := StartedSince(events[..j], i, b);
    assert Unseen(events, i, b) by {
      forall k | i <= k < |events| ensures events[k] != Saw(b) && !(events[k].Removed? && events[k].blob == b) {
        if k < j { assert events[k] == events[..j][k]; }
      }
    }
    assert events[i] == Marked(b) && events[m].Started? && events[j] == Marked(b);
  }

  /** The round an event belongs to started while no scrub, backup or migration was under way. */
  ghost predicate InCalmRound(events: seq<Event>, n: nat) {
    exists m :: 0 <= m < n < |events| && events[m].Started? && Calm(events[m].busy, events[m].meta) &&
      forall k :: m < k < n ==> !events[k].Started?
  }

  lemma {:induction false} RoundOf(events: seq<Event>, n: nat) returns (m: nat)
    requires StartsCalm(events) && n < |events| && !events[n].Started?
    ensures m < n && events[m].Started? && Calm(events[m].busy, events[m].meta) && forall k :: m < k < n ==>
            !events[k].Started?
    decreases n
  {
    StartsCalmPrefix(events, n + 1);
    assert events[..n + 1][..n] == events[..n];
    if events[n - 1].Started? {
      StartsCalmPrefix(events, n);
      m := n - 1;
    } else {
      m := RoundOf(events, n - 1);
    }
  }

  lemma {:induction false} StartsCalmPrefix(events: seq<Event>, n: nat)
    requires StartsCalm(events) && n <= |events|
    ensures StartsCalm(events[..n])
  {
    if n < |events| {
      StartsCalmPrefix(events[..|events| - 1], n);
      assert events[..|events| - 1][..n] == events[..n];
    } else {
      assert events[..n] == events;
    }
  }

  /** At any point of any history, what was removed was referred to by no row at that moment, had
      been confirmed by two rounds with no sighting in between, and the round that removed it
      had started while nothing stood against it. */
  lemma {:induction false} EveryRemovalIsConfirmed(events: seq<Event>, n: nat)
    requires Careful(events) && StartsCalm(events) && n < |events| && events[n].Removed?
    ensures !Referenced(events[n].heads, events[n].versions, events[n].blob)
    ensures TwiceConfirmed(events[..n], events[n].blob) && InCalmRound(events, n)
  {
    CarefulAt(events, n);
    var m := RoundOf(events, n);
  }

  lemma {:induction false} CarefulAt(events: seq<Event>, n: nat)
    requires Careful(events) && n < |events| && events[n].Removed?
    ensures !Referenced(events[n].heads, events[n].versions, events[n].blob) &&
            TwiceConfirmed(events[..n], events[n].blob)
  {
    if n < |events| - 1 {
      CarefulAt(events[..|events| - 1], n);
      assert events[..|events| - 1][..n] == events[..n];
    }
  }
}
