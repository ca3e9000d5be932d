/** A client that follows the change log page by page while the server goes on. */
module Followers {
  import opened Options
  import opened Tables
  import opened Requests
  import opened Steps
  import opened Effects
  import opened Runs

  /** What a client holds: the live set as it knows it, and how far it has read. */
  datatype Follower = Follower(view: map<string, Seen>, cursor: int)

  /** What the server does first, and how many changes the client then asks for. */
  datatype Fetch = Fetch(before: seq<Step>, limit: nat)

  /** The client takes the page in, or starts over from the snapshot when it is told to. */
  function Take(s: Store, k: Follower, limit: nat): Follower {
    match ChangesReply(s, k.cursor, limit)
    case Resync(_) => Follower(View(s.heads), s.repo.head)
    case Changes(page, _, _) => Follower(Replay(k.view, page), if page == [] then k.cursor
        else page[|page| - 1].sequence)
  }

  ghost function Follow(o: Oracle, c: Config, s: Store, k: Follower, fetches: seq<Fetch>): (Store, Follower) {
    if fetches == [] then (s, k)
    else
      var (s0, k0) := Follow(o, c, s, k, fetches[..|fetches| - 1]);
      var s1 := Run(o, c, s0, fetches[|fetches| - 1].before);
      (s1, Take(s1, k0, fetches[|fetches| - 1].limit))
  }

  /** What the client has not read yet is what it is missing, and no more. */
  ghost predicate InStep(s: Store, k: Follower) {
    s.repo.minRetained <= k.cursor <= s.repo.head && Replay(k.view, After(s.log, k.cursor)) == View(s.heads)
  }

  /** The log no longer reaches back to the client. */
  predicate Lost(s: Store, k: Follower) {
    k.cursor < s.repo.minRetained
  }

  lemma FromSnapshot(s: Store)
    requires LogDense(s)
    ensures InStep(s, Follower(View(s.heads), s.repo.head))
  {
    AfterDense(s.log, s.repo.minRetained, s.repo.head);
  }

  lemma StepKeepsFollower(o: Oracle, c: Config, s: Store, k: Follower, step: Step)
    requires Sound(s) && (InStep(s, k) || Lost(s, k))
    ensures InStep(Next(o, c, s, step), k) || Lost(Next(o, c, s, step), k)
  {
    var s' := Next(o, c, s, step);
    StepKeepsSound(o, c, s, step);
    if InStep(s, k) && !Lost(s', k) {
      var e := StepEffect(o, c, s, step);
      FeedStep(k.view, k.cursor, s, s', e);
    }
  }

  lemma {:induction false} RunKeepsFollower(o: Oracle, c: Config, s: Store, k: Follower, steps: seq<Step>)
    requires Sound(s) && (InStep(s, k) || Lost(s, k))
    ensures InStep(Run(o, c, s, steps), k) || Lost(Run(o, c, s, steps), k)
  {
    if steps != [] {
      var init := steps[..|steps| - 1];
      RunKeepsSound(o, c, s, init);
      RunKeepsFollower(o, c, s, k, init);
      StepKeepsFollower(o, c, Run(o, c, s, init), k, steps[|steps| - 1]);
    }
  }

  lemma {:induction false} ReplayInTwo(view: map<string, Seen>, a: seq<Change>, b: seq<Change>)
    ensures Replay(Replay(view, a), b) == Replay(view, a + b)
  {
    if b == [] {
      assert a + b == a;
    } else {
      ReplayInTwo(view, a, b[..|b| - 1]);
      assert (a + b)[..|a + b| - 1] == a + b[..|b| - 1];
    }
  }

  /** After a fetch the client is in step again, and holds the snapshot when nothing is left. */
  lemma TakeCatchesUp(s: Store, k: Follower, limit: nat)
    requires LogDense(s) && (InStep(s, k) || Lost(s, k)) && 0 < limit
    ensures InStep(s, Take(s, k, limit))
    ensures var r := ChangesReply(s, k.cursor, limit); r.Resync? || !r.more ==> Take(s, k, limit).view == View(s.heads)
  {
    if Lost(s, k) {
      FromSnapshot(s);
    } else {
      var page := Page(s.log, k.cursor, limit);
      PageThenRest(s, k.cursor, limit);
      ReplayInTwo(k.view, page, After(s.log, k.cursor + |page|));
      if page != [] { PageEnds(s, k.cursor, limit); }
      if !ChangesReply(s, k.cursor, limit).more { NoMoreIsAll(s, k.cursor, limit); }
    }
  }

  /** However the server's work and the client's fetches interleave, whatever the size of the
      pages, and however often the log was trimmed past the client: when the last fetch leaves
      nothing to ask for, the client holds exactly the live set. */
  lemma {:induction false} FollowerEndsAtSnapshot(o: Oracle, c: Config, s: Store, k: Follower, fetches: seq<Fetch>)
    requires Sound(s) && (InStep(s, k) || Lost(s, k)) && forall i :: 0 <= i < |fetches| ==> 0 < fetches[i].limit
    ensures var (s', k') := Follow(o, c, s, k, fetches);
            Sound(s') && (InStep(s', k') || Lost(s', k')) &&
            (fetches != [] ==>
               var r := ChangesReply(s', Follow(o, c, s, k, fetches[..|fetches| - 1]).1.cursor,
                 fetches[|fetches| - 1].limit);
               r.Resync? || !r.more ==> k'.view == View(s'.heads))
  {
    if fetches != [] {
      var init, last := fetches[..|fetches| - 1], fetches[|fetches| - 1];
      var (s0, k0) := Follow(o, c, s, k, init);
      FollowerEndsAtSnapshot(o, c, s, k, init);
      RunKeepsSound(o, c, s0, last.before);
      RunKeepsFollower(o, c, s0, k0, last.before);
      TakeCatchesUp(Run(o, c, s0, last.before), k0, last.limit);
    }
  }
}
