/** Whose words an object's encrypted metadata are: names are lost when these are. */
module Metadata {
  import opened Options
  import opened Tables
  import opened Requests
  import opened Steps
  import opened Effects
  import opened Runs

  /** The metadata a step brings along for its object, if it does: one that creates or restores it
      always does, one that renames it may. */
  ghost function Brings(s: Store, step: Step): Option<string> {
    match step
    case Upload(q) => if exists f :: f in s.heads && s.heads[f].pseudonym == q.path then None else Some(q.metaEnc)
    case Rename(q) => if q.metaEnc == "" then None else Some(q.metaEnc)
    case RestoreObject(q) => Some(q.metaEnc)
    case MigrateObject(_, metaEnc, _, _, _) => Some(metaEnc)
    case _ => None
  }

  /** The step was committed, and what it published is of the object. */
  predicate Published(s: Store, s': Store, f: string) {
    s'.repo.head > s.repo.head && s'.log != [] && s'.log[|s'.log| - 1].fileId == f
  }

  /** The metadata of the last committed step of a run that brought one along for the object. */
  ghost function LastBrought(o: Oracle, c: Config, s: Store, steps: seq<Step>, f: string): Option<string> {
    if steps == [] then None
    else
      var init, step := steps[..|steps| - 1], steps[|steps| - 1];
      var s0 := Run(o, c, s, init);
      if Published(s0, Next(o, c, s0, step), f) && Brings(s0, step).Some? then Brings(s0, step)
      else LastBrought(o, c, s, init, f)
  }

  /** The metadata of a head that was written. */
  ghost predicate HasMetadata(s: Store, step: Step, h: Head) {
    h.encryptedMetadata ==
      if Brings(s, step).Some? then Brings(s, step).value
      else if h.fileId in s.heads then s.heads[h.fileId].encryptedMetadata else ""
  }

  lemma UploadHasMetadata(o: Oracle, s: Store, q: UploadRequest)
    requires Sound(s) && UploadVerdict(o, s, q).Commit?
    ensures HasMetadata(s, Upload(q), UploadVerdict(o, s, q).head)
    ensures Brings(s, Upload(q)).None? ==> UploadVerdict(o, s, q).head.fileId in s.heads
  {
    NamedIs(s.heads, q.path);
  }

  lemma RenameHasMetadata(o: Oracle, s: Store, q: RenameRequest)
    requires Sound(s) && RenameVerdict(o, s, q).Commit?
    ensures HasMetadata(s, Rename(q), RenameVerdict(o, s, q).head) && RenameVerdict(o, s, q).head.fileId in s.heads
  {
    NamedIs(s.heads, q.from);
  }

  lemma RestoreHasMetadata(o: Oracle, s: Store, q: RestoreRequest)
    requires RestoreVerdict(o, s, q).Commit?
    ensures HasMetadata(s, RestoreObject(q), RestoreVerdict(o, s, q).head)
  {
  }

  lemma MigrationHasMetadata(s: Store, name: string, metaEnc: string, hash: string, device: string, now: int)
    requires MigrateObjectVerdict(s, name, metaEnc, hash, device, now).Commit?
    ensures HasMetadata(s, MigrateObject(name, metaEnc, hash, device, now),
              MigrateObjectVerdict(s, name, metaEnc, hash, device, now).head)
  {
  }

  lemma CommitHasMetadata(o: Oracle, s: Store, step: Step)
    requires Sound(s) && VerdictOf(o, s, step).Commit?
    ensures HasMetadata(s, step, VerdictOf(o, s, step).head)
    ensures Brings(s, step).None? ==> VerdictOf(o, s, step).head.fileId in s.heads
  {
    if step.Upload? { UploadHasMetadata(o, s, step.upload); }
    else if step.Rename? { RenameHasMetadata(o, s, step.rename); }
    else if step.RestoreObject? { RestoreHasMetadata(o, s, step.restore); }
    else { MigrationHasMetadata(s, step.name, step.metaEnc, step.canonicalHash, step.device, step.now); }
  }

  /** What is true of one object after a step, told by its metadata. */
  ghost predicate Told(s: Store, s': Store, step: Step, f: string) {
    f in s'.heads ==>
      if Published(s, s', f) then
        s'.heads[f].fileId == f && HasMetadata(s, step, s'.heads[f]) && (Brings(s, step).None? ==> f in s.heads)
      else f in s.heads && s'.heads[f] == s.heads[f]
  }

  lemma WriteTold(s: Store, s': Store, e: Effect, step: Step, f: string)
    requires LogDense(s) && HasEffect(s, s', e)
    requires e.Wrote? ==> HasMetadata(s, step, e.h) && (Brings(s, step).None? ==> e.h.fileId in s.heads)
    ensures Told(s, s', step, f)
  {
  }

  lemma StepTold(o: Oracle, c: Config, s: Store, step: Step, f: string)
    requires Sound(s)
    ensures Told(s, Next(o, c, s, step), step, f)
  {
    var e := StepEffect(o, c, s, step);
    if e.Wrote? { CommitHasMetadata(o, s, step); }
    WriteTold(s, Next(o, c, s, step), e, step, f);
  }

  /** In every run a live object's metadata is that of the last committed step that brought one along
      for it; without any, the object has been there all along, with the metadata it had. */
  lemma {:induction false} MetadataIsTheLastBrought(o: Oracle, c: Config, s: Store, steps: seq<Step>, f: string)
    requires Sound(s) && f in Run(o, c, s, steps).heads
    ensures var last := LastBrought(o, c, s, steps, f);
            if last.Some? then Run(o, c, s, steps).heads[f].encryptedMetadata == last.value
            else f in s.heads && Run(o, c, s, steps).heads[f].encryptedMetadata == s.heads[f].encryptedMetadata
  {
    if steps != [] {
      var init, step := steps[..|steps| - 1], steps[|steps| - 1];
      RunKeepsSound(o, c, s, init);
      StepTold(o, c, Run(o, c, s, init), step, f);
      if f in Run(o, c, s, init).heads { MetadataIsTheLastBrought(o, c, s, init, f); }
    }
  }
}
