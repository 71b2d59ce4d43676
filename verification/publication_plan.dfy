/** Every disk a certificate publication can pass through, and what holds of all of them. */
module PublicationPlan {
  import opened Wrappers
  import opened CertificateDisk

  // What one publication set out to do, and the disk it started from.
  datatype Plan = Plan(id: Id, predecessor: Option<Id>, digests: Option<Files>, files: Files, base: Disk)

  /** How far a publication has got. A `temp` flag tells that the next stage's journal temp is on disk. */
  datatype Phase =
    | CandidateMade
    | OwnerTempWritten
    | Filled(count: nat)          // the candidate owner is published and `count` files are written
    | FirstTemp                   // the candidate_ready journal exists as a temp only
    | Ready                       // the candidate_ready journal is in place
    | OwnerGone
    | Renamed(temp: bool)         // the candidate has become the version
    | VersionSet(link: bool)      // the version_ready journal is in place; `link` is the `current` temp
    | Switched(temp: bool)        // `current` points at the new version
    | Published(temp: bool)       // the current_published journal is in place
    | Cleaning(count: nat)        // the first `count` managed names have left the direct root
    | Cleaned                     // the retaining journal exists as a temp beside cleaning_direct_root
    // The retaining journal is in place and all but `rest` of the excess versions have been claimed, `victim` last: it
    // has lost its first `count` files, and its directory too once `count` is 6.
    | Keeping(rest: set<Id>, victim: Id, count: nat)
    | Finished

  ghost predicate Begun(p: Plan) {
    && Clean(p.base)
    && p.id !in p.base.versions && p.base.current != To(p.id)
    && TargetFiles(p.files)
    && match p.digests
       case None => p.base.direct == map[] || !CurrentMatches(p.base.current, p.predecessor)
       case Some(digests) =>
         Complete(digests) && forall n | n in p.base.direct :: n in digests && digests[n] == p.base.direct[n]
  }

  // What publication needs of the root in order to end: `current` is the recorded predecessor, and every
  // version that retention will delete is complete.
  ghost predicate CanComplete(p: Plan) {
    CurrentMatches(p.base.current, p.predecessor) && forall v | v in Excess(p) :: Complete(VersionFiles(p, v))
  }

  ghost function Excess(p: Plan): set<Id> {
    Unkept(JournalAt(p, Retaining), WithVersion(p).versions)
  }

  ghost function Unkept(journal: Journal, versions: map<Id, Files>): set<Id> {
    set v | v in versions && !Kept(journal, v)
  }

  predicate Kept(journal: Journal, version: Id) {
    version == journal.id || journal.predecessor == Some(version)
  }

  // What is left of `versions` when only the `rest` of those not kept are still there.
  ghost function KeepOnly(journal: Journal, versions: map<Id, Files>, rest: set<Id>): map<Id, Files> {
    map v | v in versions && (Kept(journal, v) || v in rest) :: versions[v]
  }

  // `current` points at the new version from here on.
  ghost predicate IsSwitched(phase: Phase) {
    phase.Switched? || phase.Published? || phase.Cleaning? || phase.Cleaned? || phase.Keeping? || phase.Finished?
  }

  ghost predicate Legal(p: Plan, phase: Phase) {
    && (IsSwitched(phase) ==> CurrentMatches(p.base.current, p.predecessor))
    && (phase.Filled? || phase.Cleaning? ==> phase.count <= 5)
    && (phase.Cleaning? || phase.Cleaned? ==> p.digests.Some?)
    && (phase.Keeping? ==> RetainsSafely(p, phase.rest, phase.victim, phase.count))
    && (phase.Finished? ==> CanComplete(p))
  }

  // Only complete versions are ever claimed.
  ghost predicate RetainsSafely(p: Plan, rest: set<Id>, victim: Id, count: nat) {
    && rest <= Excess(p) && count <= 6
    && (forall v | v in Excess(p) && v !in rest :: Complete(VersionFiles(p, v)))
    && (count < 6 ==> victim in Excess(p) && victim !in rest)
  }

  ghost function VersionFiles(p: Plan, v: Id): Files {
    if v in p.base.versions then p.base.versions[v] else map[]
  }

  ghost function JournalAt(p: Plan, stage: Stage): Journal {
    Journal(p.id, p.predecessor, stage, p.digests)
  }

  ghost function TempAt(p: Plan, temp: bool, stage: Stage): seq<JournalTemp> {
    if temp then [JournalTemp(p.id, JournalAt(p, stage))] else []
  }

  ghost function StageAfterPublished(p: Plan): Stage {
    if p.digests.Some? then CleaningDirectRoot else Retaining
  }

  ghost function WithCandidate(p: Plan, owner: Owner, count: nat): Disk {
    p.base.(candidates := p.base.candidates[p.id := Candidate(owner, Head(p.files, count))])
  }

  ghost function WithVersion(p: Plan): Disk {
    p.base.(versions := p.base.versions[p.id := p.files])
  }

  ghost function WithCurrent(p: Plan): Disk {
    WithVersion(p).(current := To(p.id))
  }

  ghost function Retained(p: Plan, rest: set<Id>): Disk {
    WithCurrent(p).(direct := map[], versions := KeepOnly(JournalAt(p, Retaining), WithVersion(p).versions, rest))
  }

  /** The disk at a phase, exactly. */
  ghost function DiskAt(p: Plan, phase: Phase): Disk
  {
    match phase
    case CandidateMade => WithCandidate(p, NoOwner, 0)
    case OwnerTempWritten => WithCandidate(p, OwnerTemp, 0)
    case Filled(count) => WithCandidate(p, OwnerPublished(p.id), count)
    case FirstTemp => WithCandidate(p, OwnerPublished(p.id), 5).(journalTemps := TempAt(p, true, CandidateReady))
    case Ready => WithCandidate(p, OwnerPublished(p.id), 5).(journal := Some(JournalAt(p, CandidateReady)))
    case OwnerGone => WithCandidate(p, NoOwner, 5).(journal := Some(JournalAt(p, CandidateReady)))
    case Renamed(temp) =>
      WithVersion(p).(journal := Some(JournalAt(p, CandidateReady)), journalTemps := TempAt(p, temp, VersionReady))
    case VersionSet(link) =>
      WithVersion(p).(journal := Some(JournalAt(p, VersionReady)), currentTemps := if link then [To(p.id)] else [])
    case Switched(temp) =>
      WithCurrent(p).(journal := Some(JournalAt(p, VersionReady)), journalTemps := TempAt(p, temp, CurrentPublished))
    case Published(temp) =>
      WithCurrent(p).(journal := Some(JournalAt(p, CurrentPublished)),
                      journalTemps := TempAt(p, temp, StageAfterPublished(p)))
    case Cleaning(count) =>
      WithCurrent(p).(journal := Some(JournalAt(p, CleaningDirectRoot)), direct := Tail(p.base.direct, count))
    case Cleaned =>
      WithCurrent(p).(journal := Some(JournalAt(p, CleaningDirectRoot)), direct := map[],
                      journalTemps := TempAt(p, true, Retaining))
    case Keeping(rest, victim, count) =>
      Retained(p, rest).(journal := Some(JournalAt(p, Retaining)),
                         claimed := if count == 6 then map[]
                                    else map[Claim(p.id, victim) := Tail(VersionFiles(p, victim), count)])
    case Finished => Retained(p, {})
  }

  ghost predicate At(d: Disk, p: Plan, phase: Phase) {
    Legal(p, phase) && d == DiskAt(p, phase)
  }

  // The disk `d` is the one a begun publication has at `phase`.
  ghost predicate Tracks(d: Disk, p: Plan, phase: Phase) {
    Begun(p) && At(d, p, phase)
  }

  /** Durable steps still to be taken, at most. */
  ghost function Left(p: Plan, phase: Phase): int
  {
    match phase
    case CandidateMade => LeftReady(p) + 8
    case OwnerTempWritten => LeftReady(p) + 7
    case Filled(count) => LeftReady(p) + 6 - count
    case FirstTemp => LeftReady(p)
    case Ready => LeftSwitched(p) + 6
    case OwnerGone => LeftSwitched(p) + 5
    case Renamed(temp) => LeftSwitched(p) + if temp then 3 else 4
    case VersionSet(link) => LeftSwitched(p) + if link then 1 else 2
    case Switched(temp) => LeftSwitched(p) - if temp then 1 else 0
    case Published(temp) => LeftCleaning(p) + if temp then 1 else 2
    case Cleaning(count) => LeftRetaining(p) + 7 - count
    case Cleaned => LeftRetaining(p) + 1
    case Keeping(rest, _, count) => 7 * |rest| + 7 - count
    case Finished => 0
  }

  ghost function LeftRetaining(p: Plan): nat { 7 * |Excess(p)| + 1 }
  ghost function LeftCleaning(p: Plan): nat { LeftRetaining(p) + if p.digests.Some? then 7 else 0 }
  ghost function LeftSwitched(p: Plan): nat { LeftCleaning(p) + 4 }
  ghost function LeftReady(p: Plan): nat { LeftSwitched(p) + 7 }

  /** What recovery does with a publication cut off at a phase. */
  datatype Fate = RollBack | Stuck | Forward

  // The steps that rolling back takes.
  ghost function UndoLeft(phase: Phase): nat {
    match phase
    case CandidateMade => 1
    case OwnerTempWritten => 2
    case _ => 0
  }

  ghost function FateOf(phase: Phase): Fate {
    match phase
    case CandidateMade => RollBack
    case OwnerTempWritten => RollBack
    case Filled(_) => Stuck
    case _ => Forward
  }
}
