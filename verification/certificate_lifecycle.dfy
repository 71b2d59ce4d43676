/** Publishing as a user runs it, again and again, with crashes anywhere; and what holds throughout. */
module CertificateLifecycle {
  import opened Wrappers
  import opened CertificateDisk
  import opened PublicationPlan
  import opened Publication

  // The version `current` names is there and holds all five files.
  ghost predicate CurrentSafe(d: Disk) {
    d.current.To? ==> d.current.id in d.versions && Complete(d.versions[d.current.id])
  }

  // Every root that publishing and crashing can make of one that is clean and safe.
  ghost predicate Sound(d: Disk) {
    (Clean(d) && CurrentSafe(d)) || exists p, at :: Tracks(d, p, at) && CurrentSafe(p.base)
  }

  predicate NeedsNoForce(state: RootState) {
    state in {Empty, PublishedTarget, LegacyDirectRootTarget, RecognizedPredecessor}
  }

  const ENOUGH_STEPS := 64

  function DigestDirectState(direct: Files): Files {
    map name | name in ALL_NAMES :: if name in direct then direct[name] else EMPTY_CONTENT
  }

  function GeneratedMaterial(now: int, serial: nat): Material {
    Material(Target, now - 3600, now - 3600 + VALIDITY, serial)
  }

  predicate IsFreshTarget(c: Classified) {
    c.state == PublishedTarget && c.isFresh
  }

  // The files of the version that `current` names, if it is there.
  ghost function CurrentFiles(d: Disk): Option<Files> {
    if d.current.To? && d.current.id in d.versions then Some(d.versions[d.current.id]) else None
  }

  ghost predicate NamesTarget(d: Disk) {
    CurrentFiles(d).Some? && TargetFiles(CurrentFiles(d).value)
  }

  // What runs may do to `current` and to the direct files: leave `current`, its files and the direct files alone, or
  // have `current` name a target set.
  ghost predicate Carried(before: Disk, after: Disk) {
    || (&& after.current == before.current && CurrentFiles(after) == CurrentFiles(before)
        && after.direct == before.direct)
    || NamesTarget(after)
  }

  // `current` is the old one, or names a new version that holds a target set.
  ghost predicate OldOrNew(before: Disk, after: Disk) {
    after.current == before.current || (NamesTarget(after) && after.current.id !in before.versions)
  }

  // A publication that recovery settles, what it settles to, and in how many steps.
  ghost predicate Settles(p: Plan, at: Phase) {
    FateOf(at) == RollBack || (FateOf(at) == Forward && CanComplete(p))
  }

  ghost function Settled(p: Plan, at: Phase): Disk {
    if FateOf(at) == RollBack then p.base else DiskAt(p, Finished)
  }

  ghost function StepsToSettle(p: Plan, at: Phase): int {
    if FateOf(at) == RollBack then UndoLeft(at) else Left(p, at)
  }

  // A root in a publication that no recovery settles.
  ghost predicate Doomed(d: Disk) {
    exists p, at :: Tracks(d, p, at) && CurrentSafe(p.base) && !Settles(p, at)
  }

  // A run finds the root unsafe, or in need of a force that was not given.
  ghost predicate MustRefuse(d: Disk, now: int, force: bool) {
    Class(d, now, false).unsafe || RefusalRequired(Class(d, now, false).state, force)
  }

  // A run may publish: it need not refuse, a partial root has no `current`, and every other version is complete.
  ghost predicate CanPublish(d: Disk, now: int, force: bool) {
    && !MustRefuse(d, now, force)
    && (Class(d, now, false).state == Partial ==> d.current == Absent)
    && forall v | v in d.versions && d.current != To(v) :: Complete(d.versions[v])
  }

  ghost predicate Succeeds(d: Disk, now: int, force: bool) {
    IsFreshTarget(Class(d, now, false)) || CanPublish(d, now, force)
  }

  // How a run with enough steps ends on a clean root: done, refused with nothing changed, or refused for good.
  ghost predicate Decided(before: Disk, now: int, force: bool, outcome: Outcome, after: Disk) {
    if Succeeds(before, now, force) then outcome.Done?
    else outcome.Refused? && if MustRefuse(before, now, force) then after == before else Doomed(after)
  }

  // ---- The same, from the files of the root alone.

  // A clean root that a run may publish to: nothing but direct files, none or an own set, or a publication of an own
  // set; with force the sets need not be own ones, and the direct files need not be a set.
  ghost predicate Publishable(d: Disk, force: bool) {
    || (IsDirect(d) && (force || d.direct == map[] || IsOwnSet(d.direct)))
    || (IsPublished(d) && (force || IsOwnSet(d.versions[d.current.id])))
  }

  // A clean root that a run leaves alone: versions without `current`, or, without force, files that are not an own set.
  ghost predicate LeftAlone(d: Disk, force: bool) {
    if d.current == Absent then d.versions != map[] || (!force && d.direct != map[] && !IsOwnSet(d.direct))
    else !force && !(IsPublished(d) && IsOwnSet(d.versions[d.current.id]))
  }

  // `current` names a target set that is valid now, and nothing else is there.
  ghost predicate IsFreshPublication(d: Disk, now: int) {
    Clean(d) && IsPublished(d) && IsValidSetOf(d.versions[d.current.id], Target, now)
  }

  /** When a run succeeds, when it changes nothing and when there is nothing to do, from the files of the root. */
  lemma OutcomeMeans(d: Disk, now: int, force: bool)
    ensures Clean(d) ==> (Succeeds(d, now, force) <==> Publishable(d, force))
    ensures Clean(d) ==> (MustRefuse(d, now, force) <==> LeftAlone(d, force))
    ensures IsFreshTarget(Class(d, now, false)) <==> IsFreshPublication(d, now)
  {
    hide Class, IsSetOf, IsValidSetOf, Complete;
    ClassMeans(d, now);
    ClassOfOthers(d, now);
    SetsAreComplete(d.direct, now);
    if d.current.To? && d.current.id in d.versions { SetsAreComplete(d.versions[d.current.id], now); }
  }

  // The classes that need force: partial or unknown, and which of them can be published with it.
  lemma ClassOfOthers(d: Disk, now: int)
    ensures Clean(d) && IsPublished(d) && !IsOwnSet(d.versions[d.current.id]) ==>
      Class(d, now, false).state == UnknownComplete
    ensures Clean(d) && d.current != Absent && !Class(d, now, false).unsafe && !IsPublished(d) ==>
      || Class(d, now, false).state == Partial
      || (&& Class(d, now, false).state == UnknownComplete
          && exists v :: v in d.versions && d.current != To(v) && !Complete(d.versions[v]))
    ensures Clean(d) && IsDirect(d) && d.direct != map[] && !IsOwnSet(d.direct) ==>
      Class(d, now, false).state in {Partial, UnknownComplete}
  {
    hide FilesFresh, FileIdentity, IsSetOf, Complete;
    if d.current.To? && d.current.id in d.versions {
      assert |d.versions| >= 1;
      SetsAreComplete(d.versions[d.current.id], now);
    }
    SetsAreComplete(d.direct, now);
  }

  predicate HasEvidence(d: Disk, locked: bool) {
    locked || d.journal.Some? || d.journalTemps != [] || d.candidates != map[]
  }

  /**
   * Ensures that the root holds a complete, fresh publication. `locked`: a lock or lock artifact was found beforehand.
   * `p` and `at` are the publication that an earlier run left unfinished, if there is one.
   */
  method Publish(root: Root, force: bool, now: int, ids: seq<Id>, serial: nat, locked: bool, ghost p: Plan,
      ghost at: Phase)
    returns (outcome: Outcome)
    modifies root
    ensures IsFreshTarget(Class(old(root.disk), now, locked)) ==> outcome.Done? && root.disk == old(root.disk)
    ensures outcome.Done? ==> IsFreshTarget(Class(root.disk, now, false))
    ensures Clean(old(root.disk)) && CurrentSafe(old(root.disk)) ==>
      Sound(root.disk) && Carried(old(root.disk), root.disk) && OldOrNew(old(root.disk), root.disk)
    ensures Tracks(old(root.disk), p, at) && CurrentSafe(p.base) ==>
      && Sound(root.disk) && Carried(old(root.disk), root.disk)
      && (OldOrNew(p.base, root.disk) || OldOrNew(Settled(p, at), root.disk))
    // A root without evidence of another run that must be refused is refused unchanged.
    ensures
      || Clean(old(root.disk))
      || (&& !locked && old(root.disk).journal.None? && old(root.disk).journalTemps == []
          && old(root.disk).candidates == map[]) ==>
      MustRefuse(old(root.disk), now, force) ==>
      outcome.Refused? && root.disk == old(root.disk)
    // From a clean root a run that lives long enough is done exactly when it can be.
    ensures Clean(old(root.disk)) && outcome.Done? ==> Succeeds(old(root.disk), now, force)
    ensures Clean(old(root.disk)) && HasFreeId(ids, old(root.disk)) && old(root.budget) >= ENOUGH_STEPS ==>
      (outcome.Done? <==> Succeeds(old(root.disk), now, force))
    ensures Clean(old(root.disk)) && HasFreeId(ids, old(root.disk)) && old(root.budget) >= ENOUGH_STEPS ==>
      CurrentSafe(old(root.disk)) ==> Decided(old(root.disk), now, force, outcome, root.disk)
    ensures Clean(old(root.disk)) && HasFreeId(ids, old(root.disk)) && old(root.budget) >= ENOUGH_STEPS ==>
      NeedsNoForce(Class(old(root.disk), now, false).state) ==> outcome.Done?
    // So is one that follows a crash, once recovery has settled what was left; if nothing settles it, no run is done.
    ensures Tracks(old(root.disk), p, at) && CurrentSafe(p.base) && Settles(p, at) ==>
      HasFreeId(ids, Settled(p, at)) && old(root.budget) >= StepsToSettle(p, at) + ENOUGH_STEPS ==>
      (outcome.Done? <==> FateOf(at) == Forward || Succeeds(p.base, now, force))
    ensures Tracks(old(root.disk), p, at) && !Settles(p, at) ==>
      !outcome.Done? && (CurrentSafe(p.base) ==> Doomed(root.disk))
    // From the files of a clean root alone: what is left alone, what is published, and that it is valid.
    ensures Clean(old(root.disk)) && LeftAlone(old(root.disk), force) ==>
      outcome.Refused? && root.disk == old(root.disk)
    ensures Clean(old(root.disk)) && outcome.Done? ==> Publishable(old(root.disk), force)
    ensures Clean(old(root.disk)) && HasFreeId(ids, old(root.disk)) && old(root.budget) >= ENOUGH_STEPS ==>
      (outcome.Done? <==> Publishable(old(root.disk), force))
    ensures outcome.Done? ==> IsFreshPublication(root.disk, now)
    ensures Clean(old(root.disk)) && outcome.Done? ==> PublishedFrom(old(root.disk), root.disk, now, serial)
  {
    hide DiskAt, Left, Class, Begun, Sound, CanComplete, CurrentSafe, OldOrNew, HasFreeId, Carried, CanPublish, Doomed,
      Clean, Succeeds, Decided, Legal, Publishable, LeftAlone, IsFreshPublication, PublishedFrom, StepsToSettle,
      NeedsNoForce, FateOf, RefusalRequired, Tracks, Settles, Settled;
    OutcomeMeans(root.disk, now, force);
    PublishedAlready(root.disk, now, serial);
    var evidence := HasEvidence(root.disk, locked);
    var c := ClassifyRoot(root.disk, now, locked);
    LockedIsUnsafe(root.disk, now);
    CleanHasNoEvidence(root.disk);
    DecidedAtOnce(root.disk, now, force);
    NeedsNoForceSucceeds(root.disk, now, force);
    TrackedFacts(root.disk, p, at, now, force, locked);
    UntouchedIsSound(root.disk, p, at);
    if IsFreshTarget(c) { return Done; }
    if !evidence && (c.unsafe || RefusalRequired(c.state, force)) { return Refused; }
    outcome := Recover(root, p, at);
    if !outcome.Done? { return; }
    ghost var recovered := root.disk;
    outcome := PublishRecovered(root, force, now, ids, serial);
    CarriedOn(old(root.disk), recovered, root.disk);
    OutcomeMeans(root.disk, now, force);
  }

  // Publishing under the lock, once recovery is done.
  method PublishRecovered(root: Root, force: bool, now: int, ids: seq<Id>, serial: nat) returns (outcome: Outcome)
    requires root.disk.candidates == map[] && root.disk.journal.None?
    modifies root
    ensures IsFreshTarget(Class(old(root.disk), now, false)) ==> outcome.Done? && root.disk == old(root.disk)
    ensures outcome.Done? ==> IsFreshTarget(Class(root.disk, now, false))
    ensures MustRefuse(old(root.disk), now, force) ==> outcome.Refused? && root.disk == old(root.disk)
    ensures Clean(old(root.disk)) && CurrentSafe(old(root.disk)) ==>
      Sound(root.disk) && Carried(old(root.disk), root.disk) && OldOrNew(old(root.disk), root.disk)
    ensures Clean(old(root.disk)) && outcome.Done? ==> Succeeds(old(root.disk), now, force)
    ensures Clean(old(root.disk)) && HasFreeId(ids, old(root.disk)) && old(root.budget) >= ENOUGH_STEPS ==>
      (outcome.Done? <==> Succeeds(old(root.disk), now, force))
    ensures Clean(old(root.disk)) && HasFreeId(ids, old(root.disk)) && old(root.budget) >= ENOUGH_STEPS ==>
      CurrentSafe(old(root.disk)) ==> Decided(old(root.disk), now, force, outcome, root.disk)
    ensures Clean(old(root.disk)) && outcome.Done? ==> PublishedFrom(old(root.disk), root.disk, now, serial)
  {
    hide DiskAt, Left, Class, Begun, PublishedFrom, CurrentFiles, TargetFiles, FilesFresh, Sound, CanComplete,
      MaterialFiles, DigestDirectState, Carried, OldOrNew, CurrentSafe, CanPublish, Doomed, Publishes;
    var c := ClassifyRoot(root.disk, now, false);
    LockedIsUnsafe(root.disk, now);
    DecidedAtOnce(root.disk, now, force);
    UntouchedIsSound(root.disk, Plan(0, None, None, map[], root.disk), Finished);
    PublishedAlready(root.disk, now, serial);
    if IsFreshTarget(c) { return Done; }
    if c.unsafe || RefusalRequired(c.state, force) { return Refused; }
    var digests := if c.directFiles == map[] then None else Some(DigestDirectState(c.directFiles));
    var files :=
      if c.state == LegacyDirectRootTarget && c.isFresh then c.directFiles
      else MaterialFiles(GeneratedMaterial(now, serial));
    PlanBegins(root.disk, now, c, digests, files, serial);
    ghost var p, to;
    outcome, p, to := root.PublishTransaction(ids, files, c.current, digests, now);
    if to.Some? { NewIsNotCurrent(old(root.disk), now, p.id); }
    if to.Some? && Begun(p) {
      PublicationEnds(outcome, p, to.value, root.disk, now, force, old(root.budget), root.budget);
      if outcome.Done? { PublishedFiles(p, now, serial); }
    }
  }

  // Which files a run has published: a valid publication is kept, a valid direct target set is published as it is, and
  // anything else is replaced by a target set made now.
  ghost predicate PublishedFrom(before: Disk, after: Disk, now: int, serial: nat) {
    if IsFreshPublication(before, now) then after == before
    else
      && CurrentFiles(after).Some?
      && if IsDirect(before) && IsValidSetOf(before.direct, Target, now) then CurrentFiles(after).value == before.direct
         else IsSet(CurrentFiles(after).value, Material(Target, now - 3600, now - 3600 + VALIDITY, serial))
  }

  lemma PublishedAlready(d: Disk, now: int, serial: nat)
    ensures IsFreshTarget(Class(d, now, false)) ==> PublishedFrom(d, d, now, serial)
  {
    hide Class, IsFreshPublication;
    OutcomeMeans(d, now, false);
  }

  lemma PublishedFiles(p: Plan, now: int, serial: nat)
    requires Begun(p) && Legal(p, Finished) && !IsFreshTarget(Class(p.base, now, false))
    requires var c := Class(p.base, now, false);
      p.files == if c.state == LegacyDirectRootTarget && c.isFresh then c.directFiles
                 else MaterialFiles(GeneratedMaterial(now, serial))
    ensures PublishedFrom(p.base, DiskAt(p, Finished), now, serial)
  {
    hide Class, IsSet, IsSetOf, IsValidSetOf, IsFreshPublication, DiskAt, Left, CanComplete;
    StaysSafe(p, Finished);
    OutcomeMeans(p.base, now, false);
    ClassMeans(p.base, now);
    ClassFacts(p.base, now);
    DirectChosen(p.base, now);
    SetMeans(MaterialFiles(GeneratedMaterial(now, serial)), GeneratedMaterial(now, serial));
  }

  // The direct files are chosen exactly when they are a valid target set.
  lemma DirectChosen(d: Disk, now: int)
    requires Clean(d)
    ensures var c := Class(d, now, false);
      c.state == LegacyDirectRootTarget && c.isFresh <==> IsDirect(d) && IsValidSetOf(d.direct, Target, now)
    ensures Class(d, now, false).state == LegacyDirectRootTarget ==> Class(d, now, false).directFiles == d.direct
  {
    hide FilesFresh, FileIdentity, IsSetOf, IsValidSetOf, Complete;
    SetsAreComplete(d.direct, now);
  }

  // A publication that has begun from a classified root ends as its plan and the root say.
  lemma PublicationEnds(outcome: Outcome, p: Plan, to: Phase, d: Disk, now: int, force: bool, before: nat, budget: nat)
    requires Begun(p) && FilesFresh(p.files, now) && Publishes(outcome, p, to, d, now, before - budget, budget)
    requires !MustRefuse(p.base, now, force) && p.predecessor == Class(p.base, now, false).current
    ensures outcome.Done? ==> IsFreshTarget(Class(d, now, false)) && CanPublish(p.base, now, force)
    ensures outcome.Done? ==> Legal(p, Finished) && d == DiskAt(p, Finished)
    ensures before >= ENOUGH_STEPS ==> (outcome.Done? <==> CanPublish(p.base, now, force))
    ensures CurrentSafe(p.base) ==> Sound(d) && Carried(p.base, d) && OldOrNew(p.base, d)
    ensures before >= ENOUGH_STEPS && CurrentSafe(p.base) && !CanPublish(p.base, now, force) ==>
      outcome.Refused? && Doomed(d)
  {
    hide DiskAt, Left, Class, Sound, CanComplete, Carried, OldOrNew, Doomed, FilesFresh;
    CompletesExactly(p, now, force);
    PredecessorIsThere(p, now);
    FewSteps(p, now);
    if outcome.Done? { FinishedIsFresh(p, now); }
    if before >= ENOUGH_STEPS { DoneExactlyWhenPossible(outcome, p, to, d, now, before, budget); }
    if CurrentSafe(p.base) { TrackedIsCarried(d, p, to); UntouchedIsSound(d, p, to); }
  }

  lemma PredecessorIsThere(p: Plan, now: int)
    requires Begun(p) && !Class(p.base, now, false).unsafe && p.predecessor == Class(p.base, now, false).current
    ensures p.predecessor.Some? ==>
      p.predecessor.value in p.base.versions && Complete(p.base.versions[p.predecessor.value])
  {
    hide Class;
    ClassFacts(p.base, now);
  }

  // `current` does not name a version that is not there, unless the root is unsafe for that.
  lemma NewIsNotCurrent(d: Disk, now: int, id: Id)
    requires id !in d.versions && !Class(d, now, false).unsafe && d.candidates == map[]
    ensures CurrentSafe(d) || CurrentMatches(d.current, Class(d, now, false).current) ==> d.current != To(id)
    ensures CanPublish(d, now, true) ==> CurrentMatches(d.current, Class(d, now, false).current)
  {
    hide Class;
    ClassFacts(d, now);
  }

  lemma CleanHasNoEvidence(d: Disk)
    ensures Clean(d) ==> d.journal.None? && d.journalTemps == [] && d.candidates == map[]
  {
  }

  lemma DecidedAtOnce(d: Disk, now: int, force: bool)
    ensures MustRefuse(d, now, force) ==> !Succeeds(d, now, force) && Decided(d, now, force, Refused, d)
    ensures IsFreshTarget(Class(d, now, false)) ==> Succeeds(d, now, force) && Decided(d, now, force, Done, d)
    ensures CanPublish(d, now, force) ==> CanPublish(d, now, true)
  {
  }

  /** A run from one of the four states that need no force can publish, with or without it. */
  lemma NeedsNoForceSucceeds(d: Disk, now: int, force: bool)
    ensures NeedsNoForce(Class(d, now, false).state) ==> Succeeds(d, now, force)
  {
  }

  // A root that nothing was done to.
  lemma UntouchedIsSound(d: Disk, p: Plan, at: Phase)
    ensures Carried(d, d) && OldOrNew(d, d)
    ensures Clean(d) && CurrentSafe(d) ==> Sound(d)
    ensures Tracks(d, p, at) && CurrentSafe(p.base) ==>
      && Sound(d) && OldOrNew(p.base, d)
      && (!Settles(p, at) ==> Doomed(d))
  {
    if Tracks(d, p, at) && CurrentSafe(p.base) { TrackedIsCarried(d, p, at); }
  }

  lemma TrackedIsCarried(d: Disk, p: Plan, at: Phase)
    requires Tracks(d, p, at) && CurrentSafe(p.base)
    ensures Sound(d) && Carried(p.base, d) && OldOrNew(p.base, d)
    ensures IsSwitched(at) ==> NamesTarget(d)
  {
    hide DiskAt, Left, CanComplete, Sound;
    TrackedIsSound(d, p, at);
    StaysSafe(p, at);
    if !IsSwitched(at) { BaseStays(p, at); }
  }

  // Before the swap all that was there is there.
  lemma BaseStays(p: Plan, at: Phase)
    requires !IsSwitched(at) && Begun(p)
    ensures DiskAt(p, at).direct == p.base.direct && DiskAt(p, at).current == p.base.current
    ensures forall v | v in p.base.versions ::
      v in DiskAt(p, at).versions && DiskAt(p, at).versions[v] == p.base.versions[v]
  {
  }

  lemma CarriedOn(a: Disk, b: Disk, c: Disk)
    ensures Carried(a, b) && Carried(b, c) ==> Carried(a, c)
  {
  }

  // An unfinished publication leaves a journal, a journal temp or a candidate, and so no fresh target.
  lemma EvidenceLeft(p: Plan, at: Phase, now: int, locked: bool)
    requires Begun(p) && Legal(p, at)
    ensures at != Finished ==> HasEvidence(DiskAt(p, at), locked) && !IsFreshTarget(Class(DiskAt(p, at), now, locked))
    ensures at == Finished ==> Settles(p, at) && Settled(p, at) == DiskAt(p, at) && Clean(DiskAt(p, at))
  {
    assert at.CandidateMade? || at.OwnerTempWritten? || at.Filled? ==> p.id in DiskAt(p, at).candidates;
  }

  // What a run finds of a publication that was cut off, and what recovery makes of it.
  lemma TrackedFacts(d: Disk, p: Plan, at: Phase, now: int, force: bool, locked: bool)
    ensures Tracks(d, p, at) && at != Finished ==> HasEvidence(d, locked) && !IsFreshTarget(Class(d, now, locked))
    ensures Tracks(d, p, at) && at == Finished ==>
      FateOf(at) == Forward && Settles(p, at) && Settled(p, at) == d && Clean(d)
    ensures Tracks(d, p, at) && CurrentSafe(p.base) && Settles(p, at) ==>
      if FateOf(at) == Forward then Succeeds(Settled(p, at), now, force) else Settled(p, at) == p.base
  {
    hide DiskAt, Left, Class, CanComplete, CurrentSafe, Succeeds, Clean;
    if Tracks(d, p, at) {
      EvidenceLeft(p, at, now, locked);
      if CurrentSafe(p.base) && CanComplete(p) { FinishedSucceeds(p, now, force); }
    }
  }

  /**
   * Recovery of a publication that was cut off leaves a sound root, and a clean one when it is done. It is done exactly
   * when the publication settles at all, given enough steps.
   */
  method Recover(root: Root, ghost p: Plan, ghost at: Phase) returns (outcome: Outcome)
    modifies root
    ensures outcome.Done? ==> root.disk.candidates == map[] && root.disk.journal.None?
    ensures Clean(old(root.disk)) ==> outcome.Done? && root.disk == old(root.disk) && root.budget == old(root.budget)
    ensures Tracks(old(root.disk), p, at) && CurrentSafe(p.base) ==>
      && Sound(root.disk) && Carried(old(root.disk), root.disk) && OldOrNew(p.base, root.disk)
      && (outcome.Done? ==> Clean(root.disk) && CurrentSafe(root.disk))
      && (!Settles(p, at) ==> Doomed(root.disk))
    ensures Tracks(old(root.disk), p, at) && outcome.Done? ==> Settles(p, at) && root.disk == Settled(p, at)
    ensures Tracks(old(root.disk), p, at) && Settles(p, at) && old(root.budget) >= StepsToSettle(p, at) ==>
      outcome.Done? && old(root.budget) - root.budget <= StepsToSettle(p, at)
  {
    hide DiskAt, Left, Begun, CanComplete, Sound, Carried, CurrentSafe, OldOrNew, Doomed;
    ghost var to;
    outcome, to := root.RecoverPublication(p, at);
    if Tracks(old(root.disk), p, at) {
      RecoverySettles(outcome, p, at, to, old(root.disk), root.disk, old(root.budget) - root.budget, root.budget);
      if CurrentSafe(p.base) {
        RecoveredIsSound(outcome, p, at, to, old(root.disk), root.disk, old(root.budget) - root.budget, root.budget);
      }
    }
  }

  lemma RecoverySettles(outcome: Outcome, p: Plan, at: Phase, to: Phase, before: Disk, d: Disk, spent: int, budget: nat)
    requires Tracks(before, p, at)
    requires Recovers(FateOf(at), outcome, p, at, to, before, d, spent, budget)
    ensures outcome.Done? ==> Settles(p, at) && d == Settled(p, at)
    ensures Settles(p, at) && spent + budget >= StepsToSettle(p, at) ==>
      outcome.Done? && spent <= StepsToSettle(p, at)
  {
    hide DiskAt, Left, CanComplete;
    if FateOf(at) == Forward { StepsRemain(p, to); }
  }

  lemma RecoveredIsSound(outcome: Outcome, p: Plan, at: Phase, to: Phase, before: Disk, d: Disk, spent: int,
      budget: nat)
    requires Tracks(before, p, at) && CurrentSafe(p.base)
    requires Recovers(FateOf(at), outcome, p, at, to, before, d, spent, budget)
    ensures Sound(d) && Carried(before, d) && OldOrNew(p.base, d)
    ensures outcome.Done? ==> Clean(d) && CurrentSafe(d)
    ensures !Settles(p, at) ==> Doomed(d)
  {
    hide DiskAt, Left, CanComplete, Sound, OldOrNew;
    UntouchedIsSound(p.base, p, at);
    StaysSafe(p, at);
    if !IsSwitched(at) { BaseStays(p, at); }
    match FateOf(at)
    case RollBack =>
      if !outcome.Done? { TrackedIsCarried(d, p, to); BaseStays(p, to); }
    case Stuck =>
      TrackedIsCarried(d, p, at);
    case Forward =>
      TrackedIsCarried(d, p, to);
      StaysSafe(p, to);
      if IsSwitched(at) { SwitchStays(p, at, to); } else if !IsSwitched(to) { BaseStays(p, to); }
      if outcome.Done? { FinishedIsClean(p); }
  }

  // The swap is not undone.
  lemma SwitchStays(p: Plan, at: Phase, to: Phase)
    requires Legal(p, at) && Legal(p, to) && Left(p, to) <= Left(p, at) && IsSwitched(at)
    ensures IsSwitched(to)
  {
    hide CanComplete;
    if at.Keeping? { CardinalityMonotone(at.rest, Excess(p)); }
  }

  lemma TrackedIsSound(d: Disk, p: Plan, at: Phase)
    requires Tracks(d, p, at) && CurrentSafe(p.base)
    ensures Sound(d)
  {
  }

  /** In every phase `current` is what it was or names the new version, complete; so a safe root stays safe. */
  lemma StaysSafe(p: Plan, at: Phase)
    requires Begun(p) && Legal(p, at)
    ensures DiskAt(p, at).current == if IsSwitched(at) then To(p.id) else p.base.current
    ensures IsSwitched(at) ==> p.id in DiskAt(p, at).versions && DiskAt(p, at).versions[p.id] == p.files
    ensures CurrentSafe(p.base) ==> CurrentSafe(DiskAt(p, at))
  {
  }

  lemma FinishedIsClean(p: Plan)
    requires Begun(p)
    ensures Clean(DiskAt(p, Finished))
  {
  }

  lemma GeneratedIsTarget(now: int, serial: nat)
    ensures var files := MaterialFiles(GeneratedMaterial(now, serial));
      TargetFiles(files) && FilesFresh(files, now)
  {
    assert MaterialFiles(GeneratedMaterial(now, serial)).Keys == ALL_NAMES;
  }

  // What classification tells a publication about to begin.
  lemma PlanBegins(d: Disk, now: int, c: Classified, digests: Option<Files>, files: Files, serial: nat)
    requires c == Class(d, now, false) && !c.unsafe && d.candidates == map[]
    requires digests == if c.directFiles == map[] then None else Some(DigestDirectState(c.directFiles))
    requires files ==
      if c.state == LegacyDirectRootTarget && c.isFresh then c.directFiles
      else MaterialFiles(GeneratedMaterial(now, serial))
    ensures Complete(files) && TargetFiles(files) && FilesFresh(files, now)
    ensures CurrentMatches(d.current, c.current) ==> Clean(d)
    ensures NeedsNoForce(c.state) ==> CurrentMatches(d.current, c.current)
    ensures c.current.Some? ==>
      d.current == To(c.current.value) && c.current.value in d.versions && Complete(d.versions[c.current.value])
    ensures forall id | Clean(d) && id !in d.versions && d.current != To(id) ::
      Begun(Plan(id, c.current, digests, files, d))
  {
    hide Class, FilesFresh, Complete, MaterialFiles;
    GeneratedIsTarget(now, serial);
    ClassFacts(d, now);
    DigestsAreRecorded(c.directFiles);
  }

  // What classification says of `current` and of the direct files.
  lemma ClassFacts(d: Disk, now: int)
    ensures var c := Class(d, now, false); !c.unsafe && d.candidates == map[] ==>
      && (CurrentMatches(d.current, c.current) ==> Clean(d) && c.directFiles == d.direct)
      && (NeedsNoForce(c.state) ==> CurrentMatches(d.current, c.current))
      && ((c.state == Partial ==> d.current == Absent) ==> CurrentMatches(d.current, c.current))
      && (c.state == LegacyDirectRootTarget ==> TargetFiles(c.directFiles))
      && (c.state == LegacyDirectRootTarget && c.isFresh ==> FilesFresh(c.directFiles, now))
      && (c.directFiles != map[] ==> c.directFiles == d.direct)
      && (c.current.Some? ==>
            d.current == To(c.current.value) && c.current.value in d.versions && Complete(d.versions[c.current.value]))
  {
    hide MaterialFiles;
  }

  lemma DigestsAreRecorded(direct: Files)
    ensures Complete(DigestDirectState(direct))
    ensures forall n | n in direct :: n in DigestDirectState(direct) && DigestDirectState(direct)[n] == direct[n]
  {
    assert DigestDirectState(direct).Keys == ALL_NAMES;
    forall n | n in direct ensures n in ALL_NAMES {
      assert n == CaCrt || n == ServerCrt || n == ServerKey || n == ClientCrt || n == ClientKey;
    }
  }

  /** A finished publication is what classification calls a published target, fresh as long as its files are. */
  lemma FinishedIsFresh(p: Plan, now: int)
    requires Begun(p) && CanComplete(p)
    requires p.predecessor.Some? ==>
      p.predecessor.value in p.base.versions && Complete(p.base.versions[p.predecessor.value])
    ensures Class(DiskAt(p, Finished), now, false) ==
            Classified(PublishedTarget, FilesFresh(p.files, now), Some(p.id), map[], false)
    ensures DiskAt(p, Finished).versions.Keys == {p.id} + if p.predecessor.Some? then {p.predecessor.value} else {}
  {
    hide FilesFresh, CanComplete, Complete;
    FinishedVersions(p);
    var versions := DiskAt(p, Finished).versions;
    assert |versions| == |versions.Keys|;
  }

  lemma FinishedSucceeds(p: Plan, now: int, force: bool)
    requires Begun(p) && CurrentSafe(p.base) && CanComplete(p)
    ensures Succeeds(DiskAt(p, Finished), now, force)
  {
    hide DiskAt, Class, Succeeds;
    FinishedIsFresh(p, now);
    NeedsNoForceSucceeds(DiskAt(p, Finished), now, force);
  }

  lemma FinishedVersions(p: Plan)
    requires Begun(p) && (p.predecessor.Some? ==> p.predecessor.value in p.base.versions)
    ensures DiskAt(p, Finished).versions.Keys == {p.id} + if p.predecessor.Some? then {p.predecessor.value} else {}
  {
  }

  lemma LockedIsUnsafe(d: Disk, now: int)
    ensures Class(d, now, true) == UNSAFE && (Class(d, now, false).unsafe ==> Class(d, now, false) == UNSAFE)
  {
  }

  // One run of the publisher: how it is called, what it draws, and how many durable steps it lives to take.
  datatype Attempt = Attempt(force: bool, now: int, ids: seq<Id>, serial: nat, locked: bool, budget: nat)

  /**
   * Whatever runs follow one another and wherever each is cut off, `current` always names a complete version: the one
   * it named, with the direct files all there, or a target set. From a doomed root no run is ever done.
   */
  method RunAttempts(root: Root, attempts: seq<Attempt>) returns (outcomes: seq<Outcome>)
    modifies root
    ensures |outcomes| == |attempts|
    ensures Sound(old(root.disk)) ==>
      Sound(root.disk) && CurrentSafe(root.disk) && Carried(old(root.disk), root.disk)
    ensures Doomed(old(root.disk)) ==> Doomed(root.disk) && forall i | 0 <= i < |outcomes| :: !outcomes[i].Done?
  {
    hide Sound, Tracks, Clean, CurrentSafe, Settles, Carried, Doomed;
    UntouchedIsSound(root.disk, Plan(0, None, None, map[], root.disk), Finished);
    outcomes := [];
    for i := 0 to |attempts|
      invariant |outcomes| == i
      invariant Sound(old(root.disk)) ==> Sound(root.disk) && Carried(old(root.disk), root.disk)
      invariant Doomed(old(root.disk)) ==> Doomed(root.disk) && forall k | 0 <= k < i :: !outcomes[k].Done?
    {
      var a := attempts[i];
      root.budget := a.budget;
      ghost var p, at := SoundBy(root.disk);
      ghost var before := root.disk;
      var outcome := Publish(root, a.force, a.now, a.ids, a.serial, a.locked, p, at);
      CarriedOn(old(root.disk), before, root.disk);
      outcomes := outcomes + [outcome];
    }
    SoundIsSafe(root.disk);
  }

  // The unfinished publication that a sound root is in, if it is not clean, and one that dooms it if there is one.
  lemma SoundBy(d: Disk) returns (p: Plan, at: Phase)
    ensures Sound(d) ==> (Clean(d) && CurrentSafe(d)) || (Tracks(d, p, at) && CurrentSafe(p.base))
    ensures Doomed(d) ==> Tracks(d, p, at) && CurrentSafe(p.base) && !Settles(p, at)
  {
    hide Tracks, Settles;
    p, at := Plan(0, None, None, map[], d), Finished;
    if Doomed(d) {
      p, at :| Tracks(d, p, at) && CurrentSafe(p.base) && !Settles(p, at);
    } else if Sound(d) && !(Clean(d) && CurrentSafe(d)) {
      p, at :| Tracks(d, p, at) && CurrentSafe(p.base);
    }
  }

  lemma SoundIsSafe(d: Disk)
    ensures Sound(d) ==> CurrentSafe(d)
  {
    if Sound(d) && !Clean(d) {
      var p, at :| Tracks(d, p, at) && CurrentSafe(p.base);
      StaysSafe(p, at);
    }
  }

  ghost function Sum(budgets: seq<nat>): nat {
    if budgets == [] then 0 else Sum(budgets[..|budgets| - 1]) + budgets[|budgets| - 1]
  }

  /**
   * Recovery cut off again and again loses no ground, and gets there once the steps add up: to the end of the plan, or
   * back to where it began. It never ends for a plan that cannot complete, and a candidate with an owner and no journal
   * is never touched.
   */
  method RecoverRepeatedly(root: Root, budgets: seq<nat>, ghost p: Plan, ghost at: Phase) returns (ghost to: Phase)
    modifies root
    ensures Tracks(old(root.disk), p, at) && FateOf(at) == Forward ==>
      && At(root.disk, p, to) && FateOf(to) == Forward && Left(p, to) <= Left(p, at)
      && (CanComplete(p) && Sum(budgets) >= Left(p, at) ==> root.disk == DiskAt(p, Finished))
      && (!CanComplete(p) ==> to != Finished)
    ensures Tracks(old(root.disk), p, at) && FateOf(at) == Stuck ==> root.disk == old(root.disk)
    ensures Tracks(old(root.disk), p, at) && FateOf(at) == RollBack ==>
      && (root.disk == p.base || (At(root.disk, p, to) && FateOf(to) == RollBack && UndoLeft(to) <= UndoLeft(at)))
      && (Sum(budgets) >= UndoLeft(at) ==> root.disk == p.base)
  {
    hide DiskAt, Left, Begun, CanComplete;
    to := at;
    if Legal(p, at) && FateOf(at) == Forward { StepsRemain(p, at); }
    for i := 0 to |budgets|
      invariant Tracks(old(root.disk), p, at) && FateOf(at) == Stuck ==> to == at && root.disk == old(root.disk)
      invariant Tracks(old(root.disk), p, at) && FateOf(at) == Forward ==>
        && At(root.disk, p, to) && FateOf(to) == Forward && Left(p, to) <= Left(p, at)
        && (CanComplete(p) ==> to == Finished || Left(p, to) + Sum(budgets[..i]) <= Left(p, at))
      invariant Tracks(old(root.disk), p, at) && FateOf(at) == RollBack ==>
        || root.disk == p.base
        || (At(root.disk, p, to) && FateOf(to) == RollBack && UndoLeft(to) + Sum(budgets[..i]) <= UndoLeft(at))
    {
      root.budget := budgets[i];
      assert budgets[..i + 1][..i] == budgets[..i];
      if Begun(p) { FinishedIsClean(p); BaseIsClean(p); }
      ghost var before, disk := to, root.disk;
      var outcome;
      outcome, to := root.RecoverPublication(p, before);
      if before == Finished || FateOf(at) == Stuck || (FateOf(at) == RollBack && disk == p.base) { to := before; }
    }
    assert budgets[..|budgets|] == budgets;
    if Legal(p, to) && FateOf(to) == Forward { StepsRemain(p, to); }
  }

  lemma BaseIsClean(p: Plan)
    requires Begun(p)
    ensures Clean(p.base)
  {
  }

  lemma StepsRemain(p: Plan, at: Phase)
    requires Legal(p, at) && FateOf(at) == Forward
    ensures at != Finished ==> Left(p, at) >= 1
    ensures Left(p, at) >= Left(p, Finished) == 0
  {
  }

  // The steps that a publication takes at most until it is done or refused.
  ghost function StepsNeeded(p: Plan): int {
    if CurrentMatches(p.base.current, p.predecessor) then Left(p, CandidateMade) + 2 else 16
  }

  // A publication from a classified root is over in no more than ENOUGH_STEPS steps.
  lemma FewSteps(p: Plan, now: int)
    requires Begun(p) && !Class(p.base, now, false).unsafe && p.predecessor == Class(p.base, now, false).current
    ensures StepsNeeded(p) <= ENOUGH_STEPS
  {
    assert Excess(p) <= p.base.versions.Keys;
    if |p.base.versions| <= 2 { CardinalityMonotone(Excess(p), p.base.versions.Keys); }
    if p.base.versions == map[] { assert Excess(p) == {}; }
  }

  lemma CardinalityMonotone<T>(a: set<T>, b: set<T>)
    requires a <= b
    ensures |a| <= |b| && (a < b ==> |a| < |b|)
  {
    assert b == a + (b - a);
    assert a < b ==> b - a != {};
  }

  /** A second run straight after a successful one changes nothing. */
  method PublishTwice(root: Root, force: bool, now: int, ids: seq<Id>, serial: nat, again: Attempt)
    returns (first: Outcome, second: Outcome, ghost published: Disk)
    requires again.now == now && !again.locked
    modifies root
    ensures first.Done? ==> second.Done? && root.disk == published && IsFreshTarget(Class(published, now, false))
  {
    ghost var p, at := SoundBy(root.disk);
    first := Publish(root, force, now, ids, serial, false, p, at);
    published := root.disk;
    root.budget := again.budget;
    second := Publish(root, again.force, now, again.ids, again.serial, false, p, at);
  }

  /**
   * With enough steps a publication of fresh files is done exactly when its plan can complete, and refused otherwise; a
   * refused one is never settled.
   */
  lemma DoneExactlyWhenPossible(outcome: Outcome, p: Plan, to: Phase, d: Disk, now: int, before: nat, budget: nat)
    requires Begun(p) && FilesFresh(p.files, now) && before >= StepsNeeded(p)
    requires Publishes(outcome, p, to, d, now, before - budget, budget)
    ensures if CanComplete(p) then outcome.Done? else outcome.Refused? && !Settles(p, to)
  {
    hide DiskAt, FilesFresh;
    if !IsSwitched(to) { StepsBeforeSwitch(p, to); }
    StepsAfter(p, to);
  }

  lemma StepsBeforeSwitch(p: Plan, to: Phase)
    requires Legal(p, to) && !IsSwitched(to)
    ensures Left(p, CandidateMade) + 1 - Left(p, to) < 16
  {
  }

  lemma StepsAfter(p: Plan, to: Phase)
    requires Legal(p, to)
    ensures Left(p, to) >= 0
  {
  }

  /** A run from a classified root that it need not refuse can complete exactly when it can publish. */
  lemma CompletesExactly(p: Plan, now: int, force: bool)
    requires Begun(p) && !MustRefuse(p.base, now, force) && p.predecessor == Class(p.base, now, false).current
    ensures CanComplete(p) <==> CanPublish(p.base, now, force)
  {
    var base, excess := p.base, Excess(p);
    if CanComplete(p) {
      forall v | v in base.versions && base.current != To(v)
        ensures Complete(base.versions[v])
      {
        assert v in excess;
      }
    }
  }

  // A root with `current` and a direct file beside it.
  ghost function Mixed(files: Files, content: Content): Disk {
    Disk(To(1), [], map[], map[1 := files], map[], None, [], map[CaCrt := content], false)
  }

  /** A forced run on a root with `current` and a direct file need not refuse, and cannot succeed. */
  lemma ForceFailsOnMixedRoot(files: Files, content: Content, now: int)
    requires Complete(files)
    ensures var d := Mixed(files, content);
      && Clean(d) && CurrentSafe(d) && Class(d, now, false) == PARTIAL
      && !MustRefuse(d, now, true) && !Succeeds(d, now, true)
  {
  }

  /** So does one beside an incomplete version, when `current` names an unknown set. */
  lemma ForceFailsBesideIncomplete(files: Files, other: Files, now: int)
    requires Complete(files) && FileIdentity(files) == Unknown && !Complete(other)
    ensures var d := Disk(To(1), [], map[], map[1 := files, 2 := other], map[], None, [], map[], false);
      && Clean(d) && CurrentSafe(d) && Class(d, now, false).state == UnknownComplete
      && !MustRefuse(d, now, true) && !Succeeds(d, now, true)
  {
    var d := Disk(To(1), [], map[], map[1 := files, 2 := other], map[], None, [], map[], false);
    assert d.versions.Keys == {1, 2} && |d.versions| == |d.versions.Keys|;
    assert 2 in d.versions && !Complete(d.versions[2]);
  }

  /** Until the new version is current the direct root is untouched; from then on it only shrinks, and ends empty. */
  lemma DirectNeverLost(p: Plan, at: Phase)
    requires Begun(p) && Legal(p, at) && p.digests.Some?
    ensures !IsSwitched(at) ==> DiskAt(p, at).direct == p.base.direct
    ensures forall n | n in DiskAt(p, at).direct :: n in p.base.direct && DiskAt(p, at).direct[n] == p.base.direct[n]
    ensures at == Finished ==> DiskAt(p, at).direct == map[]
    ensures Complete(p.base.direct) ==>
      || Complete(DiskAt(p, at).direct)
      || (DiskAt(p, at).current == To(p.id) && p.id in DiskAt(p, at).versions && Complete(DiskAt(p, at).versions[p.id]))
    // A fresh direct set is published byte for byte, so its bytes are always there.
    ensures p.files == p.base.direct ==>
      || DiskAt(p, at).direct == p.base.direct
      || (&& DiskAt(p, at).current == To(p.id)
          && p.id in DiskAt(p, at).versions && DiskAt(p, at).versions[p.id] == p.base.direct)
  {
    StaysSafe(p, at);
  }

  /** Retention ends with the new version and, if it was there, the predecessor; no kept file changes. */
  lemma RetainedExactly(p: Plan)
    requires Begun(p)
    ensures
      var versions := DiskAt(p, Finished).versions;
      && (forall v :: v in versions <==> v == p.id || (v in p.base.versions && p.predecessor == Some(v)))
      && versions[p.id] == p.files
      && forall v | v in versions && v != p.id :: versions[v] == p.base.versions[v]
  {
  }

  // The stage on disk, counted from before the journal to after it.
  ghost function StageRank(d: Disk, finished: bool): nat {
    match d.journal
    case None => if finished then 6 else 0
    case Some(journal) => Order(journal.stage)
  }

  // The steps left tell the stage.
  lemma StageByLeft(p: Plan, at: Phase)
    requires Begun(p) && Legal(p, at)
    ensures StageRank(DiskAt(p, at), at == Finished) ==
      if Left(p, at) > LeftSwitched(p) + 6 then 0
      else if Left(p, at) > LeftSwitched(p) + 2 then 1
      else if Left(p, at) > LeftCleaning(p) + 2 then 2
      else if Left(p, at) > LeftCleaning(p) then 3
      else if Left(p, at) > LeftRetaining(p) then 4
      else if Left(p, at) > 0 then 5
      else 6
  {
    if at.Keeping? {
      CardinalityMonotone(at.rest, Excess(p));
      assert at.count < 6 ==> at.rest < Excess(p);
    }
  }

  /** The journal's stage never goes back, and a temp is always exactly one legal stage ahead. */
  lemma StageNeverReturns(p: Plan, at: Phase, later: Phase)
    requires Begun(p) && Legal(p, at) && Legal(p, later) && Left(p, later) <= Left(p, at)
    ensures StageRank(DiskAt(p, at), at == Finished) <= StageRank(DiskAt(p, later), later == Finished)
    ensures DiskAt(p, at).journal.Some? && DiskAt(p, at).journalTemps != [] ==>
      var stage, next := DiskAt(p, at).journal.value.stage, DiskAt(p, at).journalTemps[0].document.stage;
      LegalAdjacentStage(stage, next, p.digests.Some?)
  {
    StageByLeft(p, at);
    StageByLeft(p, later);
  }
}
