/** The publisher: candidate, journal, `current` swap, direct-root cleanup, retention and recovery. */
module Publication {
  import opened Wrappers
  import opened CertificateDisk
  import opened PublicationPlan

  datatype Outcome = Done | Refused | Crashed

  const MAX_NAME_ATTEMPTS := 16
  const VALIDITY := 365 * 24 * 3600

  // How a run on a plan that was `at` may end: on the disk of phase `to`, never further back than the steps it spent.
  // It is done only at the end; it is refused only if the plan cannot complete; it crashes when the budget is gone.
  ghost predicate OnTrack(outcome: Outcome, p: Plan, at: Phase, to: Phase, d: Disk, spent: int, budget: nat) {
    && At(d, p, to) && FateOf(to) == Forward
    && 0 <= spent && Left(p, to) + spent <= Left(p, at)
    && match outcome
       case Done => to == Finished
       case Refused => !CanComplete(p)
       case Crashed => to != Finished && budget == 0
  }

  /** A managed root and a process at work on it. The process dies when its budget of durable steps runs out. */
  class Root {
    var disk: Disk
    var budget: nat

    constructor (disk: Disk, budget: nat)
      ensures this.disk == disk && this.budget == budget
    {
      this.disk, this.budget := disk, budget;
    }

    // One durable step: the directory tree becomes `next`, or the process dies first.
    method Commit(next: Disk) returns (alive: bool)
      modifies this
      ensures alive == (old(budget) > 0)
      ensures alive ==> disk == next && budget == old(budget) - 1
      ensures !alive ==> disk == old(disk) && budget == 0
    {
      alive := budget > 0;
      if alive { disk, budget := next, budget - 1; }
    }

    method ReplaceJournal(document: Journal) returns (outcome: Outcome)
      modifies this
      ensures outcome.Refused? <==> !ValidJournal(document)
      ensures outcome.Refused? ==> disk == old(disk) && budget == old(budget)
      ensures outcome.Done? ==> disk == old(disk).(journal := Some(document)) && budget == old(budget) - 2
      ensures outcome.Crashed? ==> budget == 0 && old(budget) < 2
      ensures outcome.Crashed? ==>
        disk == if old(budget) == 0 then old(disk)
                else old(disk).(journalTemps := old(disk.journalTemps) + [JournalTemp(document.id, document)])
    {
      if !ValidJournal(document) { return Refused; }
      var temps := disk.journalTemps;
      var alive := Commit(disk.(journalTemps := temps + [JournalTemp(document.id, document)]));
      if !alive { return Crashed; }
      alive := Commit(disk.(journal := Some(document), journalTemps := temps));
      return if alive then Done else Crashed;
    }

    // Replaces `current` by the temporary link number `index`.
    method ReplaceCurrentSymlink(index: nat, journal: Journal) returns (outcome: Outcome)
      requires index < |disk.currentTemps|
      modifies this
      ensures outcome.Refused? <==>
        !(old(disk.currentTemps)[index] == To(journal.id) && CurrentMatches(old(disk.current), journal.predecessor))
      ensures outcome.Done? ==> budget == old(budget) - 1
      ensures outcome.Done? ==>
        disk ==
          old(disk).(current := To(journal.id),
                     currentTemps := old(disk.currentTemps)[..index] + old(disk.currentTemps)[index + 1..])
      ensures !outcome.Done? ==> disk == old(disk)
      ensures outcome.Refused? ==> budget == old(budget)
      ensures outcome.Crashed? ==> budget == old(budget) == 0
    {
      var temps := disk.currentTemps;
      if temps[index] != To(journal.id) || !CurrentMatches(disk.current, journal.predecessor) { return Refused; }
      var alive := Commit(disk.(current := temps[index], currentTemps := temps[..index] + temps[index + 1..]));
      return if alive then Done else Crashed;
    }

    method PublishCurrent(journal: Journal) returns (outcome: Outcome)
      modifies this
      ensures outcome.Done? ==> CurrentMatches(old(disk.current), journal.predecessor)
      ensures outcome.Done? ==> disk == old(disk).(current := To(journal.id)) && budget == old(budget) - 2
      ensures outcome.Refused? ==>
        || !(journal.id in old(disk.versions) && TargetFiles(old(disk.versions)[journal.id]))
        || !CurrentMatches(old(disk.current), journal.predecessor)
      ensures !outcome.Done? ==>
        || (disk == old(disk) && budget == old(budget))
        || (disk == old(disk).(currentTemps := old(disk.currentTemps) + [To(journal.id)]) && budget == old(budget) - 1)
      ensures outcome.Crashed? ==> budget == 0
    {
      if journal.id !in disk.versions || !TargetFiles(disk.versions[journal.id]) { return Refused; }
      var temps := disk.currentTemps;
      var alive := Commit(disk.(currentTemps := temps + [To(journal.id)]));
      if !alive { return Crashed; }
      outcome := ReplaceCurrentSymlink(|temps|, journal);
      assert (temps + [To(journal.id)])[..|temps|] + (temps + [To(journal.id)])[|temps| + 1..] == temps;
    }

    /** Removes the direct-root files one by one, each only if its digest is the recorded one. */
    method CleanupDirectRoot(digests: Files, ghost start: nat) returns (outcome: Outcome, ghost count: nat)
      modifies this
      ensures count <= 5 && disk == old(disk).(direct := Tail(old(disk.direct), count))
      ensures forall n | n in old(disk.direct) && n !in disk.direct ::
        n in digests && old(disk.direct)[n] == digests[n]
      ensures outcome.Done? ==> count == 5 && disk.direct == map[]
      ensures outcome.Refused? ==>
        exists n :: n in old(disk.direct) && !(n in digests && old(disk.direct)[n] == digests[n])
      ensures outcome.Crashed? ==> budget == 0
      ensures budget <= old(budget)
      // No step is spent on the first `start` files when they are gone already.
      ensures (forall n | n in old(disk.direct) :: Index(n) >= start) ==>
        old(budget) - budget <= if count <= start then 0 else count - start
    {
      hide Tail, Index;
      ghost var direct := disk.direct;
      TailEnds(direct);
      for k := 0 to |MANAGED_FILES|
        invariant disk == old(disk).(direct := Tail(direct, k)) && budget <= old(budget)
        invariant forall n | n in direct && Index(n) < k :: n in digests && direct[n] == digests[n]
        invariant (forall n | n in direct :: Index(n) >= start) ==>
          old(budget) - budget <= if k <= start then 0 else k - start
      {
        NameAt(k);
        outcome := RemoveDirect(direct, k, digests);
        if !outcome.Done? {
          GoneIsRecorded(direct, k, digests);
          return outcome, k;
        }
      }
      GoneIsRecorded(direct, 5, digests);
      return Done, 5;
    }

    // Removes the k-th managed file from what is left of the direct root, if it is there.
    method RemoveDirect(ghost direct: Files, k: nat, digests: Files) returns (outcome: Outcome)
      requires k < |MANAGED_FILES| && disk.direct == Tail(direct, k)
      modifies this
      ensures outcome.Done? ==> disk == old(disk).(direct := Tail(direct, k + 1))
      ensures outcome.Done? ==> budget == if MANAGED_FILES[k] in direct then old(budget) - 1 else old(budget)
      ensures outcome.Done? && MANAGED_FILES[k] in direct ==>
        MANAGED_FILES[k] in digests && direct[MANAGED_FILES[k]] == digests[MANAGED_FILES[k]]
      ensures !outcome.Done? ==> disk == old(disk) && budget == old(budget) && MANAGED_FILES[k] in direct
      ensures outcome.Refused? ==>
        !(MANAGED_FILES[k] in digests && direct[MANAGED_FILES[k]] == digests[MANAGED_FILES[k]])
      ensures outcome.Crashed? ==> budget == 0
    {
      hide Tail, Index;
      var name := MANAGED_FILES[k];
      TailStep(direct, k);
      TailHas(direct, k, name);
      if name in disk.direct {
        if name !in digests || disk.direct[name] != digests[name] { return Refused; }
        var alive := Commit(disk.(direct := disk.direct - {name}));
        if !alive { return Crashed; }
      }
      return Done;
    }

    // Resumes the deletion of a claimed version: the files go in managed order, then the directory.
    method ResumeClaimedVersionDeletion(claim: Claim) returns (outcome: Outcome, ghost count: nat)
      requires claim in disk.claimed
      modifies this
      ensures outcome.Refused? <==> DeletionProgress(old(disk.claimed)[claim]).None?
      ensures outcome.Refused? ==> disk == old(disk) && budget == old(budget)
      ensures outcome.Done? ==> disk == old(disk).(claimed := old(disk.claimed) - {claim})
      ensures outcome.Done? ==> budget == old(budget) - (6 - DeletionProgress(old(disk.claimed)[claim]).value)
      ensures outcome.Crashed? ==>
        budget == 0 && count == DeletionProgress(old(disk.claimed)[claim]).value + old(budget) <= 5
      ensures outcome.Crashed? ==>
        disk == old(disk).(claimed := old(disk.claimed)[claim := Tail(old(disk.claimed)[claim], count)])
    {
      hide Tail, DeletionProgress;
      ghost var claims := disk.claimed;
      var progress := DeletionProgress(disk.claimed[claim]);
      if progress.None? { return Refused, 0; }
      var k := progress.value;
      RemainderIsTail(claims[claim], k);
      while k < |MANAGED_FILES|
        invariant progress.value <= k <= 5
        invariant disk == old(disk).(claimed := claims[claim := Tail(claims[claim], k)])
        invariant budget == old(budget) - (k - progress.value)
      {
        TailStep(claims[claim], k);
        var alive := Commit(disk.(claimed := disk.claimed[claim := disk.claimed[claim] - {MANAGED_FILES[k]}]));
        if !alive { return Crashed, k; }
        k := k + 1;
      }
      assert disk.claimed - {claim} == claims - {claim};
      var alive := Commit(disk.(claimed := disk.claimed - {claim}));
      return if alive then Done else Crashed, 5;
    }

    // Finishes the deletions this transaction has claimed; `claim`, `full` and `count` tell how far a single one is.
    method ResumeClaims(journal: Journal, ghost claim: Claim, ghost full: Files, ghost count: nat)
      returns (outcome: Outcome)
      modifies this
      ensures disk == old(disk).(claimed := disk.claimed)
      ensures outcome.Done? ==> disk.claimed == map[]
      ensures outcome.Crashed? ==> budget == 0
      ensures budget <= old(budget)
      ensures claim.claimant == journal.id && IsProgress(old(disk.claimed), claim, full, count) ==>
        && !outcome.Refused?
        && IsProgress(disk.claimed, claim, full, count + (old(budget) - budget))
    {
      hide Tail, DeletionProgress;
      ghost var single := claim.claimant == journal.id && IsProgress(disk.claimed, claim, full, count);
      var todo := disk.claimed.Keys;
      while todo != {}
        invariant disk == old(disk).(claimed := disk.claimed)
        invariant disk.claimed.Keys == todo <= old(disk.claimed).Keys
        invariant budget <= old(budget)
        invariant single ==> IsProgress(disk.claimed, claim, full, count + (old(budget) - budget))
        invariant single && todo != {} ==> disk == old(disk) && budget == old(budget)
        decreases todo
      {
        var next :| next in todo;
        if next.claimant != journal.id { return Refused; }
        if single {
          ProgressOfTail(full, count);
          assert Tail(Tail(full, count), count + budget) == Tail(full, count + budget) by {
            TailOfTail(full, count, count + budget);
          }
        }
        ghost var n;
        outcome, n := ResumeClaimedVersionDeletion(next);
        if !outcome.Done? { return; }
        todo := todo - {next};
      }
      return Done;
    }

    // Claims one version and deletes it.
    method DeleteVersion(journal: Journal, v: Id) returns (outcome: Outcome)
      requires v in disk.versions && disk.claimed == map[]
      modifies this
      ensures outcome.Refused? <==> !Complete(old(disk.versions)[v])
      ensures outcome.Refused? ==> budget == old(budget)
      ensures outcome.Done? ==> budget == old(budget) - 7
      ensures outcome.Crashed? ==> budget == 0 && old(budget) <= 6
      ensures budget == old(budget) ==> disk == old(disk)
      ensures budget != old(budget) ==>
        && disk == old(disk).(versions := old(disk.versions) - {v}, claimed := disk.claimed)
        && IsProgress(disk.claimed, Claim(journal.id, v), old(disk.versions)[v], old(budget) - budget - 1)
    {
      var full := disk.versions[v];
      if !Complete(full) { return Refused; }
      var claim := Claim(journal.id, v);
      var alive := Commit(disk.(versions := disk.versions - {v}, claimed := map[claim := full]));
      if !alive { return Crashed; }
      TailEnds(full);
      ProgressOfTail(full, 0);
      ghost var n;
      outcome, n := ResumeClaimedVersionDeletion(claim);
    }

    // Deletes every version that is not kept; `rest` are still there, `victim` is the last one claimed.
    method DeleteExcess(journal: Journal)
      returns (outcome: Outcome, ghost rest: set<Id>, ghost victim: Id, ghost count: nat)
      requires disk.claimed == map[]
      modifies this
      ensures OnlyRemoves(journal, old(disk), disk, rest)
      ensures outcome.Done? ==> rest == {} && disk.claimed == map[]
      ensures outcome.Refused? ==>
        exists v :: v in Unkept(journal, old(disk.versions)) && !Complete(old(disk.versions)[v])
      ensures outcome.Crashed? ==> budget == 0
      ensures budget <= old(budget)
      ensures old(budget) - budget == 7 * (|Unkept(journal, old(disk.versions))| - |rest|) + count - 6
      ensures IsVictim(journal, old(disk), rest, victim) ||
        (rest == Unkept(journal, old(disk.versions)) && count == 6 && disk == old(disk))
      ensures IsVictim(journal, old(disk), rest, victim) ==>
        IsProgress(disk.claimed, Claim(journal.id, victim), old(disk.versions)[victim], count)
    {
      var todo := set v | v in disk.versions && !Kept(journal, v);
      rest, victim, count := todo, 0, 6;
      KeepAll(journal, disk.versions);
      while todo != {}
        invariant rest == todo
        invariant disk == old(disk).(versions := KeepOnly(journal, old(disk.versions), todo))
        invariant todo <= Unkept(journal, old(disk.versions))
        invariant forall v | v in Unkept(journal, old(disk.versions)) && v !in todo :: Complete(old(disk.versions)[v])
        invariant IsVictim(journal, old(disk), todo, victim) ||
          (todo == Unkept(journal, old(disk.versions)) && disk == old(disk))
        invariant count == 6
        invariant budget <= old(budget)
        invariant old(budget) - budget == 7 * (|Unkept(journal, old(disk.versions))| - |todo|)
        decreases todo
      {
        var v :| v in todo;
        KeepOneLess(journal, old(disk.versions), todo, v);
        ghost var left := budget;
        outcome := DeleteVersion(journal, v);
        if outcome.Refused? { return; }
        if outcome.Crashed? {
          if left != 0 { rest, victim, count := todo - {v}, v, left - 1; }
          return;
        }
        victim, todo := v, todo - {v};
        rest := todo;
      }
      return Done, rest, victim, count;
    }

    /** Deletes every version but the new one and the recorded predecessor, finishing claimed deletions first. */
    method RetainRecordedVersions(journal: Journal, ghost claim: Claim, ghost full: Files, ghost count: nat)
      returns (outcome: Outcome, ghost rest: set<Id>, ghost victim: Id, ghost last: nat)
      modifies this
      ensures OnlyRemoves(journal, old(disk), disk, rest)
      ensures outcome.Done? ==> rest == {} && disk.claimed == map[] && disk.candidates == map[]
      ensures outcome.Crashed? ==> budget == 0
      ensures budget <= old(budget)
      ensures claim.claimant == journal.id && IsProgress(old(disk.claimed), claim, full, count) ==>
        && (outcome.Refused? ==> CannotRetain(journal, old(disk)))
        && old(budget) - budget == 7 * (|Unkept(journal, old(disk.versions))| - |rest|) + last - count
        && LastClaim(journal, claim, full, count, old(disk), disk, rest, victim, last)
    {
      rest, victim, last := Unkept(journal, disk.versions), claim.version, count;
      KeepAll(journal, disk.versions);
      outcome := ResumeClaims(journal, claim, full, count);
      if count + (old(budget) - budget) >= 0 { last := count + (old(budget) - budget); }
      if !outcome.Done? { return; }
      if disk.candidates != map[] { return Refused, rest, victim, last; }
      ghost var v, n;
      outcome, rest, v, n := DeleteExcess(journal);
      if IsVictim(journal, old(disk), rest, v) { victim := v; }
      last := n;
    }

    // Retention, then the last look at the new version, then the journal goes.
    method RetainAndFinish(journal: Journal, ghost p: Plan, ghost at: Phase) returns (outcome: Outcome, ghost to: Phase)
      modifies this
      ensures outcome.Done? ==> disk.candidates == map[] && disk.journal.None?
      ensures Tracks(old(disk), p, at) && at.Keeping? && journal == JournalAt(p, Retaining) ==>
        OnTrack(outcome, p, at, to, disk, old(budget) - budget, budget)
    {
      hide DiskAt, Left, Begun, TargetFiles, CanComplete, OnlyRemoves, LastClaim, CannotRetain, IsProgress, Unkept;
      ghost var tracked := Tracks(disk, p, at) && at.Keeping? && journal == JournalAt(p, Retaining);
      ghost var claimed, count := if at.Keeping? then at.victim else 0, if at.Keeping? then at.count else 6;
      ghost var rest, victim, last;
      outcome, rest, victim, last :=
        RetainRecordedVersions(journal, Claim(journal.id, claimed), VersionFiles(p, claimed), count);
      to := Keeping(rest, victim, last);
      if tracked { KeepingDisk(p, at.rest, at.victim, at.count); }
      if tracked { RetentionTracked(p, at.rest, at.victim, at.count, disk, outcome, rest, victim, last); }
      if !outcome.Done? { return; }
      if journal.id !in disk.versions || !TargetFiles(disk.versions[journal.id]) { return Refused, to; }
      var alive := Commit(disk.(journal := None));
      if !alive { return Crashed, to; }
      to := Finished;
      return Done, to;
    }

    // Enters the cleaning_direct_root stage if it is not there yet, and empties the direct root.
    method CleanDirectRoot(published: Journal, digests: Files, ghost p: Plan, ghost at: Phase)
      returns (outcome: Outcome, ghost to: Phase)
      modifies this
      ensures disk.candidates == old(disk.candidates) && budget <= old(budget)
      ensures Tracks(old(disk), p, at) && IsFinishing(p, at, published) && p.digests == Some(digests) ==>
        && At(disk, p, to) && FateOf(to) == Forward && Left(p, to) + (old(budget) - budget) <= Left(p, at)
        && !outcome.Refused?
        && (outcome.Done? ==> to == Cleaning(5)) && (outcome.Crashed? ==> budget == 0 && to != Finished)
    {
      ghost var tracked := Tracks(disk, p, at) && IsFinishing(p, at, published) && p.digests == Some(digests);
      to := at;
      if published.stage == CurrentPublished {
        TailEnds(p.base.direct);
        outcome := ReplaceJournal(published.(stage := CleaningDirectRoot));
        if tracked { to := if outcome.Done? then Cleaning(0) else Published(old(budget) > 0); }
        if !outcome.Done? { return; }
      }
      ghost var start, count := if tracked then to.count else 0, 0;
      outcome, count := CleanupDirectRoot(digests, start);
      if tracked {
        to := Cleaning(if count < start then start else count);
        TailOfTail(p.base.direct, start, count);
      }
    }

    // Enters the retaining stage and finishes.
    method StartRetaining(published: Journal, ghost p: Plan) returns (outcome: Outcome, ghost to: Phase)
      modifies this
      ensures outcome.Done? ==> disk.candidates == map[] && disk.journal.None?
      ensures Tracks(old(disk), p, BeforeRetaining(p)) && published.(stage := Retaining) == JournalAt(p, Retaining) ==>
        OnTrack(outcome, p, BeforeRetaining(p), to, disk, old(budget) - budget, budget)
    {
      hide DiskAt, Left, BeforeRetaining;
      ghost var tracked :=
        Tracks(disk, p, BeforeRetaining(p)) && published.(stage := Retaining) == JournalAt(p, Retaining);
      outcome := ReplaceJournal(published.(stage := Retaining));
      if tracked { RetainingStarts(p); }
      if !outcome.Done? {
        to := if old(budget) == 0 then BeforeRetaining(p) else RetainingTemp(p);
        return;
      }
      outcome, to := RetainAndFinish(published.(stage := Retaining), p, Keeping(Excess(p), 0, 6));
    }

    method FinishPublishedTransaction(published: Journal, ghost p: Plan, ghost at: Phase)
      returns (outcome: Outcome, ghost to: Phase)
      modifies this
      ensures outcome.Done? ==> disk.candidates == map[] && disk.journal.None?
      ensures Tracks(old(disk), p, at) && IsFinishing(p, at, published) ==>
        OnTrack(outcome, p, at, to, disk, old(budget) - budget, budget)
    {
      hide DiskAt, Left, Begun, CanComplete;
      if published.digests.Some? {
        outcome, to := CleanDirectRoot(published, published.digests.value, p, at);
        if !outcome.Done? { return; }
      }
      outcome, to := StartRetaining(published, p);
    }

    /** Settles a journal temp left by a crash: promotes it, or drops a duplicate, or refuses. */
    method ReconcileJournalTemps() returns (outcome: Outcome, journal: Option<Journal>)
      modifies this
      ensures outcome.Refused? <==> !TempsAccepted(old(disk))
      ensures !outcome.Done? ==> disk == old(disk) && budget == old(budget)
      ensures outcome.Crashed? ==> budget == 0 && old(disk.journalTemps) != []
      ensures outcome.Done? ==> journal == disk.journal == AcceptedJournal(old(disk))
      ensures outcome.Done? ==> disk == old(disk).(journal := disk.journal, journalTemps := [])
      ensures outcome.Done? ==> budget == old(budget) - |old(disk.journalTemps)|
    {
      var temps, fixed := disk.journalTemps, disk.journal;
      if |temps| > 1 || (fixed.Some? && !ValidJournal(fixed.value)) { return Refused, None; }
      if |temps| == 0 { return Done, fixed; }
      var temporary := temps[0].document;
      if !ValidJournal(temporary) || temps[0].fileTransaction != temporary.id { return Refused, None; }
      var alive;
      if fixed.None? {
        if temporary.stage != CandidateReady || !CandidateEvidence(disk, temporary) { return Refused, None; }
      } else {
        if fixed.value.(stage := temporary.stage) != temporary { return Refused, None; }
        if fixed.value.stage == temporary.stage {
          alive := Commit(disk.(journalTemps := []));
          return if alive then Done else Crashed, fixed;
        }
        if !LegalAdjacentStage(fixed.value.stage, temporary.stage, fixed.value.digests.Some?) { return Refused, None; }
      }
      alive := Commit(disk.(journal := Some(temporary), journalTemps := []));
      return if alive then Done else Crashed, Some(temporary);
    }

    method RemoveIncompleteCandidate(c: Id) returns (alive: bool)
      requires c in disk.candidates && IsIncomplete(disk.candidates[c])
      modifies this
      ensures alive ==> disk == old(disk).(candidates := old(disk.candidates) - {c})
      ensures alive ==> budget == old(budget) - UndoSteps(old(disk.candidates)[c])
      ensures !alive ==> budget == 0 && c in disk.candidates && IsIncomplete(disk.candidates[c])
      ensures !alive ==> old(budget) + UndoSteps(disk.candidates[c]) == UndoSteps(old(disk.candidates)[c])
      ensures !alive ==> UndoneOwner(old(disk.candidates)[c], disk.candidates[c])
      ensures !alive && disk != old(disk) ==>
        && old(disk.candidates)[c].owner == OwnerTemp
        && disk == old(disk).(candidates := old(disk.candidates)[c := Candidate(NoOwner, map[])])
    {
      var candidates := disk.candidates;
      if candidates[c].owner == OwnerTemp {
        alive := Commit(disk.(candidates := candidates[c := Candidate(NoOwner, map[])]));
        if !alive { return; }
      }
      assert disk.candidates - {c} == candidates - {c};
      alive := Commit(disk.(candidates := disk.candidates - {c}));
    }

    /**
     * Removes candidates that never got a published owner, and refuses if one has any more than that; `last` is where
     * it stops.
     */
    method CleanupIncompleteCandidates() returns (outcome: Outcome, ghost last: Id)
      modifies this
      ensures disk == old(disk).(candidates := disk.candidates)
      ensures outcome.Done? ==> disk.candidates == map[]
      ensures old(budget) - budget + Undo(disk.candidates) == Undo(old(disk.candidates))
      ensures old(disk.candidates) == map[] ==> outcome.Done? && budget == old(budget)
      ensures outcome.Refused? ==> last in old(disk.candidates) && !IsIncomplete(old(disk.candidates)[last])
      ensures outcome.Crashed? ==> budget == 0 && last in disk.candidates && IsIncomplete(disk.candidates[last])
      ensures forall c | c in disk.candidates ::
        c in old(disk.candidates) && UndoneOwner(old(disk.candidates)[c], disk.candidates[c])
      ensures forall c | c in old(disk.candidates) && !IsIncomplete(old(disk.candidates)[c]) :: c in disk.candidates
    {
      hide IsIncomplete, Undo, UndoSteps, UndoneOwner;
      assert forall c: Candidate :: UndoneOwner(c, c) by {
        forall c: Candidate { UndoneNothing(c); }
      }
      ghost var before := disk.candidates;
      var todo := disk.candidates.Keys;
      last := 0;
      while todo != {}
        invariant disk == old(disk).(candidates := disk.candidates)
        invariant disk.candidates.Keys == todo
        invariant forall c | c in todo :: c in before && disk.candidates[c] == before[c]
        invariant forall c | c in before && !IsIncomplete(before[c]) :: c in todo
        invariant old(budget) - budget + Undo(disk.candidates) == Undo(before)
        decreases todo
      {
        var c :| c in todo;
        last := c;
        if !IsIncomplete(disk.candidates[c]) { return Refused, c; }
        ghost var candidates := disk.candidates;
        UndoWithout(candidates, c);
        var alive := RemoveIncompleteCandidate(c);
        if !alive {
          UndoWithout(disk.candidates, c);
          assert disk.candidates - {c} == candidates - {c};
          return Crashed, c;
        }
        todo := todo - {c};
      }
      return Done, last;
    }

    // The candidate_ready part of recovery: the candidate becomes the version.
    method ResumeCandidate(journal: Journal) returns (outcome: Outcome)
      modifies this
      ensures outcome.Refused? <==> !CandidateResumable(old(disk), journal)
      ensures outcome.Refused? ==> disk == old(disk) && budget == old(budget)
      ensures outcome.Done? ==>
        && budget == old(budget) - CandidateSteps(old(disk), journal.id)
        && disk == CandidateRenamed(old(disk), journal.id)
      ensures outcome.Crashed? ==>
        && budget == 0 && old(budget) < CandidateSteps(old(disk), journal.id)
        && disk == if old(budget) == 0 then old(disk) else OwnerRemoved(old(disk), journal.id)
    {
      if !CandidateResumable(disk, journal) { return Refused; }
      if journal.id in disk.candidates {
        var candidates := disk.candidates;
        var candidate := candidates[journal.id];
        if candidate.owner != NoOwner {
          var alive := Commit(disk.(candidates := candidates[journal.id := candidate.(owner := NoOwner)]));
          if !alive { return Crashed; }
        }
        assert disk.candidates - {journal.id} == candidates - {journal.id};
        var alive := Commit(disk.(candidates := disk.candidates - {journal.id},
                                  versions := disk.versions[journal.id := candidate.files]));
        if !alive { return Crashed; }
      }
      return Done;
    }

    // The version_ready part of recovery: `current` comes to point at the version.
    method ResumeVersion(journal: Journal) returns (outcome: Outcome)
      modifies this
      ensures outcome.Refused? <==> !VersionResumable(old(disk), journal)
      ensures outcome.Refused? ==> disk == old(disk) && budget == old(budget)
      ensures outcome.Done? ==>
        && budget == old(budget) - SwitchSteps(old(disk), journal.id)
        && disk ==
             if old(disk.current) == To(journal.id) then old(disk)
             else old(disk).(current := To(journal.id), currentTemps := [])
      ensures outcome.Crashed? ==>
        && budget == 0 && old(budget) < SwitchSteps(old(disk), journal.id)
        && disk == if old(budget) == 0 then old(disk) else old(disk).(currentTemps := [To(journal.id)])
    {
      if !VersionResumable(disk, journal) { return Refused; }
      if disk.current == To(journal.id) { return Done; }
      if disk.currentTemps == [] {
        outcome := PublishCurrent(journal);
      } else {
        outcome := ReplaceCurrentSymlink(0, journal);
      }
    }

    // Recovery once `current` is published.
    method ResumePublished(journal: Journal, ghost p: Plan, ghost at: Phase) returns (outcome: Outcome, ghost to: Phase)
      modifies this
      ensures outcome.Done? ==> disk.candidates == map[] && disk.journal.None?
      ensures Tracks(old(disk), p, at) && IsResumingPublished(p, at, journal) ==>
        OnTrack(outcome, p, at, to, disk, old(budget) - budget, budget)
    {
      to := at;
      if disk.current != To(journal.id) || journal.id !in disk.versions || !TargetFiles(disk.versions[journal.id]) {
        return Refused, to;
      }
      if journal.stage == Retaining {
        outcome, to := RetainAndFinish(journal, p, at);
      } else {
        outcome, to := FinishPublishedTransaction(journal, p, at);
      }
    }

    // Recovery from the version_ready stage on.
    method ResumeFromVersion(journal: Journal, ghost p: Plan, ghost at: Phase)
      returns (outcome: Outcome, ghost to: Phase)
      modifies this
      ensures outcome.Done? ==> disk.candidates == map[] && disk.journal.None?
      ensures Tracks(old(disk), p, at) && IsResumingVersion(p, at, journal) ==>
        OnTrack(outcome, p, at, to, disk, old(budget) - budget, budget)
    {
      hide DiskAt, Left, CanComplete, TargetFiles, VersionResumable, SwitchSteps;
      ghost var tracked := Tracks(disk, p, at) && IsResumingVersion(p, at, journal);
      to := at;
      if tracked { VersionResumes(p, at); PublishedSteps(p); NeedsPredecessor(p); }
      outcome := ResumeVersion(journal);
      if !outcome.Done? {
        if tracked && old(budget) > 0 && outcome.Crashed? { to := VersionSet(true); }
        return;
      }
      if tracked { to := Switched(false); }
      ghost var left := budget;
      outcome := ReplaceJournal(journal.(stage := CurrentPublished));
      if !outcome.Done? {
        if left > 0 { to := Switched(true); }
        return;
      }
      outcome, to := ResumePublished(journal.(stage := CurrentPublished), p, Published(false));
    }

    // Recovery from the candidate_ready stage on.
    method ResumeFromCandidate(journal: Journal, ghost p: Plan, ghost at: Phase)
      returns (outcome: Outcome, ghost to: Phase)
      modifies this
      ensures outcome.Done? ==> disk.candidates == map[] && disk.journal.None?
      ensures Tracks(old(disk), p, at) && IsResumingCandidate(p, at, journal) ==>
        OnTrack(outcome, p, at, to, disk, old(budget) - budget, budget)
    {
      hide DiskAt, Left, CanComplete, TargetFiles, CandidateResumable, CandidateSteps, CandidateRenamed, OwnerRemoved,
        CurrentMatches;
      ghost var tracked := Tracks(disk, p, at) && IsResumingCandidate(p, at, journal);
      to := at;
      if tracked { CandidateResumes(p, at); NeedsPredecessor(p); }
      outcome := ResumeCandidate(journal);
      if !outcome.Done? {
        if tracked && old(budget) > 0 && outcome.Crashed? { to := OwnerGone; }
        return;
      }
      ghost var left := budget;
      outcome := ReplaceJournal(journal.(stage := VersionReady));
      if !outcome.Done? {
        to := Renamed(left > 0);
        return;
      }
      outcome, to := ResumeFromVersion(journal.(stage := VersionReady), p, VersionSet(false));
    }

    method ResumeJournal(journal: Journal, ghost p: Plan, ghost at: Phase) returns (outcome: Outcome, ghost to: Phase)
      modifies this
      ensures outcome.Done? ==> disk.candidates == map[] && disk.journal.None?
      ensures Tracks(old(disk), p, at) && IsResuming(p, at, journal) ==>
        OnTrack(outcome, p, at, to, disk, old(budget) - budget, budget)
    {
      hide OnTrack, Begun, At;
      if journal.stage == CandidateReady {
        outcome, to := ResumeFromCandidate(journal, p, at);
      } else if journal.stage == VersionReady {
        outcome, to := ResumeFromVersion(journal, p, at);
      } else {
        outcome, to := ResumePublished(journal, p, at);
      }
    }

    /** Recovery: settle the journal, then resume it, or clear away candidates that never got an owner. */
    method RecoverPublication(ghost p: Plan, ghost at: Phase) returns (outcome: Outcome, ghost to: Phase)
      modifies this
      ensures outcome.Done? ==> disk.candidates == map[] && disk.journal.None?
      ensures Clean(old(disk)) ==> outcome.Done? && disk == old(disk) && budget == old(budget)
      ensures Tracks(old(disk), p, at) ==>
        Recovers(FateOf(at), outcome, p, at, to, old(disk), disk, old(budget) - budget, budget)
    {
      hide DiskAt, Left, CanComplete, TempsAccepted, AcceptedJournal, UndoLeft;
      CleanSettles(disk);
      ghost var tracked := Tracks(disk, p, at);
      to := at;
      if tracked { JournalSettles(p, at); }
      var journal;
      outcome, journal := ReconcileJournalTemps();
      if !outcome.Done? {
        assert outcome.Crashed? && tracked ==> OnTrack(outcome, p, at, at, disk, 0, 0);
        return;
      }
      ghost var settled, spent := if tracked then AfterReconcile(p, at) else at, old(budget) - budget;
      if journal.None? {
        ghost var last;
        outcome, last := CleanupIncompleteCandidates();
        if tracked { to := CandidatesCleared(p, at, outcome, disk, old(budget), budget, last); }
      } else {
        outcome, to := ResumeJournal(journal.value, p, settled);
        assert tracked ==> OnTrack(outcome, p, settled, to, disk, old(budget) - budget - spent, budget);
      }
    }

    // Picks the first free identifier, at most sixteen being tried.
    method ChooseId(ids: seq<Id>) returns (id: Option<Id>)
      ensures id.Some? ==> id.value !in disk.candidates && id.value !in disk.versions
      ensures id.Some? <==> HasFreeId(ids, disk)
      ensures id.Some? ==> exists i :: 0 <= i < |ids| && i < MAX_NAME_ATTEMPTS && IsFirstFree(ids, i, id.value, disk)
    {
      var i := 0;
      while i < |ids| && i < MAX_NAME_ATTEMPTS
        invariant i <= |ids|
        invariant forall j | 0 <= j < i :: ids[j] in disk.candidates || ids[j] in disk.versions
      {
        if ids[i] !in disk.candidates && ids[i] !in disk.versions {
          assert IsFirstFree(ids, i, ids[i], disk);
          return Some(ids[i]);
        }
        i := i + 1;
      }
      return None;
    }

    // Writes the five files into a candidate that has its owner.
    method WriteFiles(id: Id, files: Files) returns (outcome: Outcome)
      requires Complete(files)
      modifies this
      ensures !outcome.Refused? && (outcome.Done? <==> old(budget) >= 5)
      ensures outcome.Done? ==> budget == old(budget) - 5
      ensures outcome.Crashed? ==> budget == 0
      ensures budget != old(budget) ==> disk == WithFiles(old(disk), id, files, old(budget) - budget)
      ensures budget == old(budget) ==> disk == old(disk)
    {
      hide Head;
      var candidates := disk.candidates;
      HeadEnds(files);
      var written: Files := map[];
      for k := 0 to |MANAGED_FILES|
        invariant old(budget) - budget == k && written == Head(files, k)
        invariant disk == if k == 0 then old(disk) else WithFiles(old(disk), id, files, k)
      {
        HeadStep(files, k);
        written := written[MANAGED_FILES[k] := files[MANAGED_FILES[k]]];
        var alive := Commit(disk.(candidates := candidates[id := Candidate(OwnerPublished(id), written)]));
        if !alive { return Crashed; }
      }
      return Done;
    }

    /** Makes the candidate: its directory, its owner, its five files. */
    method WriteCandidate(id: Id, files: Files) returns (outcome: Outcome)
      requires Complete(files)
      modifies this
      ensures !outcome.Refused? && (outcome.Done? <==> old(budget) >= 8)
      ensures outcome.Done? ==> budget == old(budget) - 8
      ensures outcome.Crashed? ==> budget == 0
      ensures disk == CandidateAfter(old(disk), id, files, old(budget) - budget)
    {
      var candidates := disk.candidates;
      var alive := Commit(disk.(candidates := candidates[id := Candidate(NoOwner, map[])]));
      if !alive { return Crashed; }
      alive := Commit(disk.(candidates := candidates[id := Candidate(OwnerTemp, map[])]));
      if !alive { return Crashed; }
      alive := Commit(disk.(candidates := candidates[id := Candidate(OwnerPublished(id), map[])]));
      if !alive { return Crashed; }
      HeadEnds(files);
      ghost var owned, left := disk, budget;
      outcome := WriteFiles(id, files);
      FilesTwice(old(disk), owned, id, files, left - budget);
    }

    // Takes the owner out of the candidate and renames it into the version.
    method RenameCandidate(id: Id) returns (outcome: Outcome)
      requires id in disk.candidates
      modifies this
      ensures disk.current == old(disk.current)
      ensures outcome.Refused? ==> id in old(disk.versions)
      ensures outcome.Done? ==> budget == old(budget) - 2 && disk == CandidateRenamed(OwnerRemoved(old(disk), id), id)
      ensures outcome.Crashed? ==> budget == 0 && old(budget) < 2
      ensures outcome.Crashed? ==> disk == if old(budget) == 0 then old(disk) else OwnerRemoved(old(disk), id)
    {
      var alive := Commit(OwnerRemoved(disk, id));
      if !alive { return Crashed; }
      if id in disk.versions { return Refused; }
      alive := Commit(CandidateRenamed(disk, id));
      return if alive then Done else Crashed;
    }

    // Journals the full candidate and turns it into the version.
    method JournalAndRename(journal: Journal, ghost p: Plan) returns (outcome: Outcome, ghost to: Phase)
      requires journal.id in disk.candidates
      modifies this
      ensures disk.current == old(disk.current)
      ensures Tracks(old(disk), p, Filled(5)) && journal == JournalAt(p, CandidateReady) ==>
        && At(disk, p, to) && Left(p, to) + (old(budget) - budget) <= Left(p, Filled(5)) && !outcome.Refused?
        && (outcome.Done? ==> to == Renamed(false)) && (outcome.Crashed? ==> budget == 0 && to != Finished)
    {
      hide DiskAt, Left, OwnerRemoved, CandidateRenamed, Begun, CanComplete;
      ghost var tracked := Tracks(disk, p, Filled(5)) && journal == JournalAt(p, CandidateReady);
      if tracked { FilledResumes(p); RenameSteps(p); }
      outcome := ReplaceJournal(journal);
      to := if outcome.Done? then Ready else if old(budget) == 0 then Filled(5) else FirstTemp;
      if !outcome.Done? { return; }
      ghost var left := budget;
      outcome := RenameCandidate(journal.id);
      to := if outcome.Done? then Renamed(false) else if left == 0 then Ready else OwnerGone;
    }

    // From the renamed version to the end.
    method FinishVersion(journal: Journal, ghost p: Plan) returns (outcome: Outcome, ghost to: Phase)
      modifies this
      ensures outcome.Done? ==> CurrentMatches(old(disk.current), journal.predecessor)
      ensures Tracks(old(disk), p, Renamed(false)) && journal == JournalAt(p, CandidateReady) ==>
        OnTrack(outcome, p, Renamed(false), to, disk, old(budget) - budget, budget)
    {
      hide DiskAt, Left, Begun;
      ghost var tracked := Tracks(disk, p, Renamed(false)) && journal == JournalAt(p, CandidateReady);
      if tracked { FilledResumes(p); CandidateResumes(p, Renamed(false)); }
      outcome := ReplaceJournal(journal.(stage := VersionReady));
      if !outcome.Done? {
        to := Renamed(old(budget) > 0);
        return;
      }
      outcome, to := SwitchAndFinish(journal.(stage := VersionReady), p);
    }

    // Switches `current` and finishes.
    method SwitchAndFinish(journal: Journal, ghost p: Plan) returns (outcome: Outcome, ghost to: Phase)
      modifies this
      ensures outcome.Done? ==> CurrentMatches(old(disk.current), journal.predecessor)
      ensures Tracks(old(disk), p, VersionSet(false)) && journal == JournalAt(p, VersionReady) ==>
        OnTrack(outcome, p, VersionSet(false), to, disk, old(budget) - budget, budget)
    {
      hide DiskAt, Left, CanComplete, VersionResumable;
      ghost var tracked := Tracks(disk, p, VersionSet(false)) && journal == JournalAt(p, VersionReady);
      if tracked { SwitchSucceeds(p); PublishedSteps(p); NeedsPredecessor(p); }
      outcome := PublishCurrent(journal);
      if !outcome.Done? {
        to := VersionSet(budget != old(budget));
        return;
      }
      ghost var left := budget;
      outcome := ReplaceJournal(journal.(stage := CurrentPublished));
      if !outcome.Done? {
        to := Switched(left > 0);
        return;
      }
      outcome, to := FinishPublishedTransaction(journal.(stage := CurrentPublished), p, Published(false));
    }

    /**
     * One publication. Unless no identifier is free, or the process dies at once, it follows the plan `p` up to phase
     * `to`.
     */
    method PublishTransaction(ids: seq<Id>, files: Files, predecessor: Option<Id>, digests: Option<Files>, now: int)
      returns (outcome: Outcome, ghost p: Plan, ghost to: Option<Phase>)
      requires Complete(files)
      modifies this
      ensures p == Plan(p.id, predecessor, digests, files, old(disk))
      ensures outcome.Done? ==>
        to == Some(Finished) && p.id !in old(disk.versions) && CurrentMatches(old(disk.current), predecessor) &&
        TargetFiles(files) && FilesFresh(files, now)
      ensures to.None? ==>
        disk == old(disk) &&
        (if outcome.Refused? then !HasFreeId(ids, old(disk)) else outcome.Crashed? && old(budget) == 0)
      ensures to.Some? ==> p.id !in old(disk.versions)
      ensures to.Some? && Begun(p) ==> Publishes(outcome, p, to.value, disk, now, old(budget) - budget, budget)
    {
      hide DiskAt, Left, Begun, TargetFiles, FilesFresh, CanComplete, HasFreeId, IsFirstFree,
        CurrentMatches;
      to, p := None, Plan(0, predecessor, digests, files, disk);
      var id := ChooseId(ids);
      if id.None? { return Refused, p, to; }
      p := p.(id := id.value);
      outcome := WriteCandidate(id.value, files);
      if old(budget) > 0 { to := Some(CandidatePhase(old(budget) - budget)); }
      if Begun(p) { CandidateTracked(p, old(budget) - budget); }
      if !outcome.Done? { return; }
      if !TargetFiles(files) || !FilesFresh(files, now) { return Refused, p, to; }
      var journal := Journal(id.value, predecessor, CandidateReady, digests);
      ghost var phase;
      outcome, phase := JournalAndRename(journal, p);
      to := Some(phase);
      if !outcome.Done? { return; }
      outcome, phase := FinishVersion(journal, p);
      to := Some(if outcome.Done? then Finished else phase);
    }
  }

  lemma GoneIsRecorded(direct: Files, k: nat, digests: Files)
    requires forall n | n in direct && Index(n) < k :: n in digests && direct[n] == digests[n]
    ensures forall n | n in direct && n !in Tail(direct, k) :: n in digests && direct[n] == digests[n]
  {
  }

  // How a publication ends: on track, done only at the end, refused exactly when it cannot complete or its files are
  // stale.
  ghost predicate Publishes(outcome: Outcome, p: Plan, to: Phase, d: Disk, now: int, spent: int, budget: nat) {
    && At(d, p, to) && Left(p, to) + spent <= Left(p, CandidateMade) + 1
    && match outcome
       case Done => to == Finished && CanComplete(p)
       case Refused => FateOf(to) != RollBack && !(CanComplete(p) && Complete(p.files) && FilesFresh(p.files, now))
       case Crashed => budget == 0 && to != Finished
  }

  // The i-th identifier is free, and those drawn before it are not.
  ghost predicate IsFirstFree(ids: seq<Id>, i: nat, id: Id, d: Disk)
    requires i < |ids|
  {
    && ids[i] == id && id !in d.candidates && id !in d.versions
    && forall j | 0 <= j < i :: ids[j] in d.candidates || ids[j] in d.versions
  }

  ghost predicate HasFreeId(ids: seq<Id>, d: Disk) {
    exists i :: 0 <= i < |ids| && i < MAX_NAME_ATTEMPTS && ids[i] !in d.candidates && ids[i] !in d.versions
  }

  // The phase after `steps` steps of making the candidate.
  ghost function CandidatePhase(steps: int): Phase {
    if steps <= 1 then CandidateMade else if steps == 2 then OwnerTempWritten else Filled(steps - 3)
  }

  lemma CandidateTracked(p: Plan, steps: int)
    requires Begun(p) && 0 <= steps <= 8
    ensures steps > 0 ==> At(CandidateAfter(p.base, p.id, p.files, steps), p, CandidatePhase(steps))
    ensures steps > 0 ==> Left(p, CandidatePhase(steps)) + steps == Left(p, CandidateMade) + 1
    ensures p.id in CandidateAfter(p.base, p.id, p.files, 8).candidates && TargetFiles(p.files)
  {
    HeadEnds(p.files);
  }

  // The first journal of a plan.
  lemma FilledResumes(p: Plan)
    requires Begun(p)
    ensures DiskAt(p, Filled(5)).journalTemps == [] && p.id !in DiskAt(p, Ready).versions
    ensures ValidJournal(JournalAt(p, CandidateReady)) && ValidJournal(JournalAt(p, VersionReady))
    ensures DiskAt(p, FirstTemp) ==
      DiskAt(p, Filled(5)).(journalTemps := [JournalTemp(p.id, JournalAt(p, CandidateReady))])
    ensures DiskAt(p, Ready) == DiskAt(p, Filled(5)).(journal := Some(JournalAt(p, CandidateReady)))
    ensures Left(p, Ready) + 2 == Left(p, FirstTemp) + 1 == Left(p, Filled(5))
  {
  }

  // The two steps from the first journal to the version.
  lemma RenameSteps(p: Plan)
    requires Begun(p)
    ensures OwnerRemoved(DiskAt(p, Ready), p.id) == DiskAt(p, OwnerGone)
    ensures CandidateRenamed(DiskAt(p, OwnerGone), p.id) == DiskAt(p, Renamed(false))
    ensures Left(p, Renamed(false)) + 2 == Left(p, OwnerGone) + 1 == Left(p, Ready)
  {
    hide DiskAt, Left;
    CandidateResumes(p, Ready);
    CandidateResumes(p, OwnerGone);
  }

  // The two steps of the swap of `current`.
  lemma SwitchSucceeds(p: Plan)
    requires Begun(p)
    ensures p.id in DiskAt(p, VersionSet(false)).versions && DiskAt(p, VersionSet(false)).versions[p.id] == p.files
    ensures DiskAt(p, VersionSet(false)).current == p.base.current && DiskAt(p, VersionSet(false)).currentTemps == []
    ensures DiskAt(p, Switched(false)) == DiskAt(p, VersionSet(false)).(current := To(p.id))
    ensures DiskAt(p, VersionSet(true)) == DiskAt(p, VersionSet(false)).(currentTemps := [To(p.id)])
    ensures Left(p, Switched(false)) + 2 == Left(p, VersionSet(true)) + 1 == Left(p, VersionSet(false))
  {
  }

  ghost function WithFiles(d: Disk, id: Id, files: Files, k: int): Disk {
    d.(candidates := d.candidates[id := Candidate(OwnerPublished(id), Head(files, if k < 0 then 0 else k))])
  }

  lemma FilesTwice(d: Disk, owned: Disk, id: Id, files: Files, k: int)
    requires owned == d.(candidates := d.candidates[id := Candidate(OwnerPublished(id), map[])])
    ensures WithFiles(owned, id, files, k) == WithFiles(d, id, files, k)
    ensures owned == WithFiles(d, id, files, 0)
  {
    HeadEnds(files);
  }

  // The disk after `steps` steps of making a candidate.
  ghost function CandidateAfter(d: Disk, id: Id, files: Files, steps: int): Disk {
    if steps <= 0 then d
    else if steps == 1 then d.(candidates := d.candidates[id := Candidate(NoOwner, map[])])
    else if steps == 2 then d.(candidates := d.candidates[id := Candidate(OwnerTemp, map[])])
    else WithFiles(d, id, files, steps - 3)
  }

  // What recovery promises of a plan cut off at `at`, by the fate of that phase.
  ghost predicate Recovers(fate: Fate, outcome: Outcome, p: Plan, at: Phase, to: Phase, before: Disk, d: Disk,
      spent: int, budget: nat)
  {
    match fate
    case RollBack =>
      || (outcome.Done? && d == p.base && 0 <= spent <= UndoLeft(at))
      || (&& outcome.Crashed? && budget == 0
          && At(d, p, to) && FateOf(to) == RollBack && 0 <= spent <= UndoLeft(at) - UndoLeft(to))
    case Stuck => outcome.Refused? && d == before
    case Forward => OnTrack(outcome, p, at, to, d, spent, budget)
  }

  ghost function AfterReconcile(p: Plan, at: Phase): Phase {
    match at
    case FirstTemp => Ready
    case Renamed(true) => VersionSet(false)
    case Switched(true) => Published(false)
    case Published(true) => if p.digests.Some? then Cleaning(0) else Keeping(Excess(p), 0, 6)
    case Cleaned => Keeping(Excess(p), 0, 6)
    case _ => at
  }

  ghost predicate IsResumingPublished(p: Plan, at: Phase, journal: Journal) {
    IsFinishing(p, at, journal) || (at.Keeping? && journal == JournalAt(p, Retaining))
  }

  ghost predicate IsResumingVersion(p: Plan, at: Phase, journal: Journal) {
    (at.VersionSet? || at == Switched(false)) && journal == JournalAt(p, VersionReady)
  }

  ghost predicate IsResumingCandidate(p: Plan, at: Phase, journal: Journal) {
    at in {Ready, OwnerGone, Renamed(false)} && journal == JournalAt(p, CandidateReady)
  }

  ghost predicate IsResuming(p: Plan, at: Phase, journal: Journal) {
    IsResumingCandidate(p, at, journal) || IsResumingVersion(p, at, journal) || IsResumingPublished(p, at, journal)
  }

  lemma NeedsPredecessor(p: Plan)
    ensures CanComplete(p) ==> CurrentMatches(p.base.current, p.predecessor)
  {
  }

  // From each place in the version_ready stage, what recovery does there is the plan's next phase.
  lemma VersionResumes(p: Plan, at: Phase)
    requires Begun(p) && Legal(p, at) && (at.VersionSet? || at == Switched(false))
    ensures VersionResumable(DiskAt(p, at), JournalAt(p, VersionReady)) <==>
      CurrentMatches(p.base.current, p.predecessor)
    ensures DiskAt(p, Switched(false)) ==
      if DiskAt(p, at).current == To(p.id) then DiskAt(p, at)
      else DiskAt(p, at).(current := To(p.id), currentTemps := [])
    ensures Left(p, Switched(false)) + SwitchSteps(DiskAt(p, at), p.id) == Left(p, at)
    ensures SwitchSteps(DiskAt(p, at), p.id) <= if at == VersionSet(false) then 2 else 1
    ensures at == VersionSet(false) ==>
      DiskAt(p, VersionSet(true)) == DiskAt(p, at).(currentTemps := [To(p.id)]) &&
      Left(p, VersionSet(true)) + 1 == Left(p, at)
  {
  }

  // The journal replacement that follows the swap.
  lemma PublishedSteps(p: Plan)
    requires Begun(p)
    ensures DiskAt(p, Switched(false)).journalTemps == []
    ensures DiskAt(p, Switched(true)) ==
      DiskAt(p, Switched(false)).(journalTemps := [JournalTemp(p.id, JournalAt(p, CurrentPublished))])
    ensures DiskAt(p, Published(false)) == DiskAt(p, Switched(false)).(journal := Some(JournalAt(p, CurrentPublished)))
    ensures Left(p, Published(false)) + 2 == Left(p, Switched(true)) + 1 == Left(p, Switched(false))
  {
  }

  // From each place in the candidate_ready stage, what recovery does there is the plan's next phase.
  lemma CandidateResumes(p: Plan, at: Phase)
    requires Begun(p) && at in {Ready, OwnerGone, Renamed(false)}
    ensures CandidateRenamed(DiskAt(p, at), p.id) == DiskAt(p, Renamed(false))
    ensures CandidateResumable(DiskAt(p, at), JournalAt(p, CandidateReady)) <==>
      CurrentMatches(p.base.current, p.predecessor)
    ensures at == Ready ==> OwnerRemoved(DiskAt(p, at), p.id) == DiskAt(p, OwnerGone)
    ensures CandidateSteps(DiskAt(p, at), p.id) == if at == Ready then 2 else if at == OwnerGone then 1 else 0
    ensures Left(p, Renamed(false)) + CandidateSteps(DiskAt(p, at), p.id) == Left(p, at) &&
      Left(p, OwnerGone) + 1 == Left(p, Ready)
    ensures DiskAt(p, Renamed(false)).journalTemps == []
    ensures DiskAt(p, Renamed(true)) ==
      DiskAt(p, Renamed(false)).(journalTemps := [JournalTemp(p.id, JournalAt(p, VersionReady))])
    ensures DiskAt(p, VersionSet(false)) == DiskAt(p, Renamed(false)).(journal := Some(JournalAt(p, VersionReady)))
    ensures Left(p, VersionSet(false)) + 2 == Left(p, Renamed(true)) + 1 == Left(p, Renamed(false))
  {
    hide DiskAt, Left, Begun, CandidateResumable;
    CandidateDisk(p, at);
    CandidateLeft(p, at);
  }

  lemma CandidateDisk(p: Plan, at: Phase)
    requires Begun(p) && at in {Ready, OwnerGone, Renamed(false)}
    ensures CandidateRenamed(DiskAt(p, at), p.id) == DiskAt(p, Renamed(false))
    ensures CandidateResumable(DiskAt(p, at), JournalAt(p, CandidateReady)) <==>
      CurrentMatches(p.base.current, p.predecessor)
    ensures at == Ready ==> OwnerRemoved(DiskAt(p, at), p.id) == DiskAt(p, OwnerGone)
    ensures CandidateSteps(DiskAt(p, at), p.id) == if at == Ready then 2 else if at == OwnerGone then 1 else 0
    ensures DiskAt(p, Renamed(false)).journalTemps == []
    ensures DiskAt(p, Renamed(true)) ==
      DiskAt(p, Renamed(false)).(journalTemps := [JournalTemp(p.id, JournalAt(p, VersionReady))])
    ensures DiskAt(p, VersionSet(false)) == DiskAt(p, Renamed(false)).(journal := Some(JournalAt(p, VersionReady)))
  {
    hide Head, TargetFiles;
    HeadEnds(p.files);
  }

  lemma CandidateLeft(p: Plan, at: Phase)
    requires at in {Ready, OwnerGone, Renamed(false)}
    ensures Left(p, Renamed(false)) + (if at == Ready then 2 else if at == OwnerGone then 1 else 0) == Left(p, at)
    ensures Left(p, OwnerGone) + 1 == Left(p, Ready)
    ensures Left(p, VersionSet(false)) + 2 == Left(p, Renamed(true)) + 1 == Left(p, Renamed(false))
  {
    hide LeftSwitched;
  }

  predicate CandidateEvidence(d: Disk, journal: Journal) {
    && journal.id in d.candidates && d.candidates[journal.id].owner == OwnerPublished(journal.id)
    && TargetFiles(d.candidates[journal.id].files)
  }

  // A temp beside a journal must be its duplicate or the next stage; a temp alone must be a first stage with its
  // candidate.
  ghost predicate TempsAccepted(d: Disk) {
    && (d.journal.Some? ==> ValidJournal(d.journal.value))
    && (d.journalTemps == [] || (|d.journalTemps| == 1 && TempAccepted(d, d.journalTemps[0])))
  }

  ghost predicate TempAccepted(d: Disk, temp: JournalTemp) {
    && ValidJournal(temp.document) && temp.fileTransaction == temp.document.id
    && match d.journal
       case None => temp.document.stage == CandidateReady && CandidateEvidence(d, temp.document)
       case Some(fixed) =>
         && fixed.(stage := temp.document.stage) == temp.document
         && (|| fixed.stage == temp.document.stage
             || LegalAdjacentStage(fixed.stage, temp.document.stage, fixed.digests.Some?))
  }

  ghost function AcceptedJournal(d: Disk): Option<Journal> {
    if d.journalTemps == [] then d.journal else Some(d.journalTemps[0].document)
  }

  predicate IsIncomplete(candidate: Candidate) {
    candidate.files == map[] && !candidate.owner.OwnerPublished?
  }

  // The steps that removing one candidate takes: its owner temp, if any, and its directory.
  ghost function UndoSteps(candidate: Candidate): nat {
    if candidate.owner == OwnerTemp then 2 else 1
  }

  ghost function WithOwnerTemp(candidates: map<Id, Candidate>): set<Id> {
    set c | c in candidates && candidates[c].owner == OwnerTemp
  }

  // The steps that removing all candidates takes.
  ghost function Undo(candidates: map<Id, Candidate>): nat {
    |candidates.Keys| + |WithOwnerTemp(candidates)|
  }

  lemma UndoWithout(candidates: map<Id, Candidate>, c: Id)
    requires c in candidates
    ensures Undo(candidates) == Undo(candidates - {c}) + UndoSteps(candidates[c])
  {
    hide WithOwnerTemp;
    var others := candidates - {c};
    assert candidates.Keys == others.Keys + {c};
    OneMore(others.Keys, c);
    OwnerTempsWithout(candidates, c);
    OneMore(WithOwnerTemp(others), c);
  }

  lemma OwnerTempsWithout(candidates: map<Id, Candidate>, c: Id)
    requires c in candidates
    ensures c !in WithOwnerTemp(candidates - {c})
    ensures WithOwnerTemp(candidates) ==
      WithOwnerTemp(candidates - {c}) + if candidates[c].owner == OwnerTemp then {c} else {}
  {
  }

  lemma OneMore(ids: set<Id>, c: Id)
    requires c !in ids
    ensures |ids + {c}| == |ids| + 1 && ids + {} == ids
  {
  }

  // A candidate as it was, or one whose owner temp is gone.
  ghost predicate UndoneOwner(before: Candidate, after: Candidate) {
    after == before || (before == Candidate(OwnerTemp, map[]) && after == Candidate(NoOwner, map[]))
  }

  lemma UndoneNothing(candidate: Candidate)
    ensures UndoneOwner(candidate, candidate)
  {
  }

  predicate CandidateResumable(d: Disk, journal: Journal) {
    && (journal.id in d.candidates) != (journal.id in d.versions)
    && CurrentMatches(d.current, journal.predecessor)
    && (if journal.id in d.candidates then
          TargetFiles(d.candidates[journal.id].files) &&
          d.candidates[journal.id].owner in {NoOwner, OwnerPublished(journal.id)}
        else TargetFiles(d.versions[journal.id]))
  }

  function CandidateRenamed(d: Disk, id: Id): Disk {
    if id !in d.candidates then d
    else d.(candidates := d.candidates - {id}, versions := d.versions[id := d.candidates[id].files])
  }

  function OwnerRemoved(d: Disk, id: Id): Disk {
    if id !in d.candidates then d else d.(candidates := d.candidates[id := d.candidates[id].(owner := NoOwner)])
  }

  function CandidateSteps(d: Disk, id: Id): nat {
    if id !in d.candidates then 0 else if d.candidates[id].owner == NoOwner then 1 else 2
  }

  predicate VersionResumable(d: Disk, journal: Journal) {
    && journal.id !in d.candidates && journal.id in d.versions && TargetFiles(d.versions[journal.id])
    && (|| d.current == To(journal.id)
        || (CurrentMatches(d.current, journal.predecessor) && d.currentTemps in {[], [To(journal.id)]}))
  }

  lemma TargetIsSet(files: Files)
    ensures TargetFiles(files) <==> IsSetOf(files, Target)
  {
    SetsAreComplete(files, 0);
  }

  /**
   * On every disk, what recovery takes up is a complete target set: the candidate of a first journal, the candidate or
   * version of candidate_ready, the version of version_ready. A lone temp is taken only as a first journal beside the
   * candidate that its owner published.
   */
  lemma ResumedIsTarget(d: Disk, journal: Journal)
    ensures d.journal.None? && TempsAccepted(d) && AcceptedJournal(d) == Some(journal) ==>
      && journal.stage == CandidateReady && journal.id in d.candidates
      && d.candidates[journal.id].owner == OwnerPublished(journal.id)
      && IsSetOf(d.candidates[journal.id].files, Target)
    ensures CandidateResumable(d, journal) ==>
      var versions := CandidateRenamed(d, journal.id).versions;
      journal.id in versions && IsSetOf(versions[journal.id], Target)
    ensures VersionResumable(d, journal) ==> journal.id in d.versions && IsSetOf(d.versions[journal.id], Target)
  {
    hide TargetFiles, IsSetOf;
    if journal.id in d.candidates { TargetIsSet(d.candidates[journal.id].files); }
    if journal.id in d.versions { TargetIsSet(d.versions[journal.id]); }
  }

  function SwitchSteps(d: Disk, id: Id): nat {
    if d.current == To(id) then 0 else if d.currentTemps == [] then 2 else 1
  }

  ghost function BeforeRetaining(p: Plan): Phase {
    if p.digests.Some? then Cleaning(5) else Published(false)
  }

  // Where finishPublishedTransaction may be entered, and with which journal.
  ghost predicate IsFinishing(p: Plan, at: Phase, journal: Journal) {
    || (at == Published(false) && journal == JournalAt(p, CurrentPublished))
    || (at.Cleaning? && journal == JournalAt(p, CleaningDirectRoot))
  }

  ghost function RetainingTemp(p: Plan): Phase {
    if p.digests.Some? then Cleaned else Published(true)
  }

  // The journal replacement that opens retention.
  lemma RetainingStarts(p: Plan)
    requires Begun(p) && Legal(p, BeforeRetaining(p))
    ensures DiskAt(p, BeforeRetaining(p)).journalTemps == []
    ensures DiskAt(p, RetainingTemp(p)) ==
      DiskAt(p, BeforeRetaining(p)).(journalTemps := [JournalTemp(p.id, JournalAt(p, Retaining))])
    ensures DiskAt(p, Keeping(Excess(p), 0, 6)) ==
      DiskAt(p, BeforeRetaining(p)).(journal := Some(JournalAt(p, Retaining)))
    ensures Left(p, Keeping(Excess(p), 0, 6)) + 2 == Left(p, RetainingTemp(p)) + 1 == Left(p, BeforeRetaining(p))
    ensures Legal(p, RetainingTemp(p)) && Legal(p, Keeping(Excess(p), 0, 6))
    ensures FateOf(BeforeRetaining(p)) == FateOf(RetainingTemp(p)) == Forward && BeforeRetaining(p) != Finished
    ensures ValidJournal(JournalAt(p, Retaining))
  {
    hide DiskAt, Left, Begun, CanComplete, Unkept;
    RetainingDisk(p);
    RetainingLeft(p);
  }

  lemma RetainingDisk(p: Plan)
    requires Begun(p) && Legal(p, BeforeRetaining(p))
    ensures DiskAt(p, BeforeRetaining(p)).journalTemps == []
    ensures DiskAt(p, RetainingTemp(p)) ==
      DiskAt(p, BeforeRetaining(p)).(journalTemps := [JournalTemp(p.id, JournalAt(p, Retaining))])
    ensures DiskAt(p, Keeping(Excess(p), 0, 6)) ==
      DiskAt(p, BeforeRetaining(p)).(journal := Some(JournalAt(p, Retaining)))
    ensures ValidJournal(JournalAt(p, Retaining))
  {
    hide Unkept, KeepOnly, Tail;
    TailEnds(p.base.direct);
    KeepAll(JournalAt(p, Retaining), WithVersion(p).versions);
  }

  lemma RetainingLeft(p: Plan)
    ensures Left(p, Keeping(Excess(p), 0, 6)) + 2 == Left(p, RetainingTemp(p)) + 1 == Left(p, BeforeRetaining(p))
  {
    hide Unkept;
  }

  // Some version that is to be deleted is not complete, or a candidate is in the way.
  ghost predicate CannotRetain(journal: Journal, d: Disk) {
    d.candidates != map[] || exists v :: v in Unkept(journal, d.versions) && !Complete(d.versions[v])
  }

  // How far retention is: with `claim` still, or with a `victim` of its own.
  ghost predicate LastClaim(journal: Journal, claim: Claim, full: Files, count: nat, before: Disk, after: Disk,
                            rest: set<Id>, victim: Id, last: nat)
  {
    if IsVictim(journal, before, rest, victim)
    then IsProgress(after.claimed, Claim(journal.id, victim), before.versions[victim], last)
    else
      && rest == Unkept(journal, before.versions) && victim == claim.version && count <= last
      && IsProgress(after.claimed, claim, full, last)
  }

  // Retention keeps a plan on track; when it is done only the journal is left to remove.
  lemma RetentionTracked(p: Plan, rest0: set<Id>, victim0: Id, count0: nat, d: Disk, outcome: Outcome, rest: set<Id>,
      victim: Id, last: nat)
    requires Begun(p) && Legal(p, Keeping(rest0, victim0, count0))
    requires
      var journal, before := JournalAt(p, Retaining), DiskAt(p, Keeping(rest0, victim0, count0));
      && OnlyRemoves(journal, before, d, rest)
      && (outcome.Done? ==> rest == {} && d.claimed == map[])
      && (outcome.Refused? ==> CannotRetain(journal, before))
      && LastClaim(journal, Claim(p.id, victim0), VersionFiles(p, victim0), count0, before, d, rest, victim, last)
    ensures At(d, p, Keeping(rest, victim, last)) && p.id in d.versions && TargetFiles(d.versions[p.id])
    ensures Left(p, Keeping(rest, victim, last)) == 7 * |rest| + 7 - last && Left(p, Finished) == 0
    ensures |Unkept(JournalAt(p, Retaining), DiskAt(p, Keeping(rest0, victim0, count0)).versions)| == |rest0|
    ensures outcome.Refused? ==> !CanComplete(p)
    ensures outcome.Done? ==> CanComplete(p) && d.(journal := None) == DiskAt(p, Finished) && last == 6
  {
    hide Tail, Complete, IsProgress, TargetFiles, KeepOnly, Unkept, CanComplete, RetainsSafely;
    RestIsUnkept(p, rest0, victim0, count0);
    KeepTwice(JournalAt(p, Retaining), WithVersion(p).versions, rest0, rest);
    ProgressIsMap(d.claimed, Claim(p.id, victim), VersionFiles(p, victim), last);
    RetainedSafely(p, rest0, victim0, count0, d, rest, victim, last);
    if outcome.Refused? { RefusedCannotComplete(p, rest0, victim0, count0); }
    if outcome.Done? { RetainedCanComplete(p, victim, last); }
  }

  // What is still to be deleted is what is not kept of what is there.
  lemma RestIsUnkept(p: Plan, rest: set<Id>, victim: Id, count: nat)
    requires Legal(p, Keeping(rest, victim, count))
    ensures Unkept(JournalAt(p, Retaining), DiskAt(p, Keeping(rest, victim, count)).versions) == rest
    ensures rest <= Excess(p) && p.id !in rest
    ensures forall v | v in rest ::
      v in p.base.versions && DiskAt(p, Keeping(rest, victim, count)).versions[v] == p.base.versions[v]
  {
  }

  lemma RetainedSafely(p: Plan, rest0: set<Id>, victim0: Id, count0: nat, d: Disk, rest: set<Id>, victim: Id, last: nat)
    requires Begun(p) && Legal(p, Keeping(rest0, victim0, count0))
    requires
      var journal, before := JournalAt(p, Retaining), DiskAt(p, Keeping(rest0, victim0, count0));
      && OnlyRemoves(journal, before, d, rest)
      && LastClaim(journal, Claim(p.id, victim0), VersionFiles(p, victim0), count0, before, d, rest, victim, last)
    ensures RetainsSafely(p, rest, victim, last) &&
      IsProgress(d.claimed, Claim(p.id, victim), VersionFiles(p, victim), last)
    ensures p.id in d.versions && TargetFiles(d.versions[p.id])
  {
    hide Tail, TargetFiles, Complete;
    RestIsUnkept(p, rest0, victim0, count0);
  }

  lemma RefusedCannotComplete(p: Plan, rest: set<Id>, victim: Id, count: nat)
    requires Begun(p) && Legal(p, Keeping(rest, victim, count))
    requires CannotRetain(JournalAt(p, Retaining), DiskAt(p, Keeping(rest, victim, count)))
    ensures !CanComplete(p)
  {
    hide Complete;
    RestIsUnkept(p, rest, victim, count);
  }

  lemma RetainedCanComplete(p: Plan, victim: Id, last: nat)
    requires CurrentMatches(p.base.current, p.predecessor) && RetainsSafely(p, {}, victim, last)
    ensures CanComplete(p)
  {
  }

  /**
   * Every journal and journal temp a crash can leave is accepted, and the journal picked is the one of the disk's
   * phase.
   */
  lemma JournalSettles(p: Plan, at: Phase)
    requires Begun(p) && Legal(p, at)
    ensures TempsAccepted(DiskAt(p, at))
    ensures DiskAt(p, AfterReconcile(p, at)) ==
      DiskAt(p, at).(journal := AcceptedJournal(DiskAt(p, at)), journalTemps := [])
    ensures Legal(p, AfterReconcile(p, at)) &&
      Left(p, AfterReconcile(p, at)) + |DiskAt(p, at).journalTemps| <= Left(p, at)
    ensures
      match AcceptedJournal(DiskAt(p, at))
      case None => at.Finished? || FateOf(at) != Forward
      case Some(journal) => FateOf(at) == Forward && IsResuming(p, AfterReconcile(p, at), journal)
  {
    if HasTemp(at) { TempSettles(p, at); } else { NothingSettles(p, at); }
  }

  ghost predicate HasTemp(at: Phase) {
    at in {FirstTemp, Renamed(true), Switched(true), Published(true), Cleaned}
  }

  lemma TempSettles(p: Plan, at: Phase)
    requires Begun(p) && Legal(p, at) && HasTemp(at)
    ensures TempsAccepted(DiskAt(p, at)) && |DiskAt(p, at).journalTemps| == 1
    ensures DiskAt(p, AfterReconcile(p, at)) ==
      DiskAt(p, at).(journal := AcceptedJournal(DiskAt(p, at)), journalTemps := [])
    ensures Legal(p, AfterReconcile(p, at)) && Left(p, AfterReconcile(p, at)) + 1 == Left(p, at)
    ensures AcceptedJournal(DiskAt(p, at)).Some? &&
      IsResuming(p, AfterReconcile(p, at), AcceptedJournal(DiskAt(p, at)).value)
  {
    hide DiskAt, Left, Begun, CanComplete, TempsAccepted, AcceptedJournal, IsResuming;
    TempIsNextStage(p, at);
    TempLeft(p, at);
    TempDisk(p, at);
  }

  lemma TempLeft(p: Plan, at: Phase)
    requires Begun(p) && Legal(p, at) && HasTemp(at)
    ensures Legal(p, AfterReconcile(p, at)) && Left(p, AfterReconcile(p, at)) + 1 == Left(p, at)
  {
    hide DiskAt;
    if at == Published(true) || at == Cleaned { RetainingStarts(p); }
  }

  // Promoting the temp of a phase gives the disk of the next one, and a journal to resume it by.
  ghost predicate Promotes(p: Plan, at: Phase, next: Phase) {
    && DiskAt(p, next) == DiskAt(p, at).(journal := AcceptedJournal(DiskAt(p, at)), journalTemps := [])
    && AcceptedJournal(DiskAt(p, at)).Some? && IsResuming(p, next, AcceptedJournal(DiskAt(p, at)).value)
  }

  lemma TempDisk(p: Plan, at: Phase)
    requires Begun(p) && Legal(p, at) && HasTemp(at)
    ensures Promotes(p, at, AfterReconcile(p, at))
  {
    hide Promotes, Begun, DiskAt, Left, CanComplete;
    match at
    case FirstTemp => FirstPromotes(p);
    case Renamed(_) => VersionPromotes(p);
    case Switched(_) => CurrentPromotes(p);
    case Published(_) => PublishedPromotes(p);
    case Cleaned => CleanedPromotes(p);
    case _ =>
  }

  lemma FirstPromotes(p: Plan)
    requires Begun(p)
    ensures Promotes(p, FirstTemp, Ready)
  {
    HeadEnds(p.files);
  }

  lemma VersionPromotes(p: Plan)
    requires Begun(p)
    ensures Promotes(p, Renamed(true), VersionSet(false))
  {
  }

  lemma CurrentPromotes(p: Plan)
    requires Begun(p)
    ensures Promotes(p, Switched(true), Published(false))
  {
  }

  lemma PublishedPromotes(p: Plan)
    requires Begun(p) && Legal(p, Published(true))
    ensures Promotes(p, Published(true), if p.digests.Some? then Cleaning(0) else Keeping(Excess(p), 0, 6))
  {
    hide Unkept, KeepOnly, Tail;
    TailEnds(p.base.direct);
    KeepAll(JournalAt(p, Retaining), WithVersion(p).versions);
  }

  lemma CleanedPromotes(p: Plan)
    requires Begun(p) && Legal(p, Cleaned)
    ensures Promotes(p, Cleaned, Keeping(Excess(p), 0, 6))
  {
    hide Unkept, KeepOnly;
    KeepAll(JournalAt(p, Retaining), WithVersion(p).versions);
  }

  // A temp is the plan's own journal, one stage on.
  lemma TempIsNextStage(p: Plan, at: Phase)
    requires Begun(p) && Legal(p, at) && HasTemp(at)
    ensures TempsAccepted(DiskAt(p, at)) && |DiskAt(p, at).journalTemps| == 1
  {
    HeadEnds(p.files);
  }

  lemma CleanSettles(d: Disk)
    ensures Clean(d) ==> TempsAccepted(d) && AcceptedJournal(d).None?
  {
  }

  lemma NothingSettles(p: Plan, at: Phase)
    requires Begun(p) && Legal(p, at) && !HasTemp(at)
    ensures AfterReconcile(p, at) == at && DiskAt(p, at).journalTemps == []
    ensures TempsAccepted(DiskAt(p, at)) && AcceptedJournal(DiskAt(p, at)) == DiskAt(p, at).journal
    ensures
      match DiskAt(p, at).journal
      case None => at.Finished? || FateOf(at) != Forward
      case Some(journal) => FateOf(at) == Forward && IsResuming(p, at, journal)
  {
  }

  // Clearing candidates undoes a publication whose candidate has no owner, and leaves any other one alone.
  lemma CandidatesCleared(p: Plan, at: Phase, outcome: Outcome, d: Disk, before: nat, budget: nat, last: Id)
    returns (to: Phase)
    requires Begun(p) && Legal(p, at) && (at.Finished? || FateOf(at) != Forward)
    requires var candidates := DiskAt(p, at).candidates;
      && d == DiskAt(p, at).(candidates := d.candidates)
      && (outcome.Done? ==> d.candidates == map[])
      && before - budget + Undo(d.candidates) == Undo(candidates)
      && (outcome.Refused? ==> last in candidates && !IsIncomplete(candidates[last]))
      && (outcome.Crashed? ==> budget == 0 && last in d.candidates && IsIncomplete(d.candidates[last]))
      && (forall c | c in d.candidates :: c in candidates && UndoneOwner(candidates[c], d.candidates[c]))
      && (forall c | c in candidates && !IsIncomplete(candidates[c]) :: c in d.candidates)
    ensures Recovers(FateOf(at), outcome, p, at, to, DiskAt(p, at), d, before - budget, budget)
  {
    hide Undo, CanComplete, Left, Head, TargetFiles, Complete;
    to := at;
    HeadEnds(p.files);
    if at.Finished? {
      assert d.candidates == map[];
    } else {
      var candidates := DiskAt(p, at).candidates;
      assert candidates == map[p.id := candidates[p.id]];
      assert p.base.candidates == map[];
      UndoOfOne(p.id, candidates[p.id]);
      UndoOfNone();
      if p.id in d.candidates {
        assert d.candidates == map[p.id := d.candidates[p.id]];
        UndoOfOne(p.id, d.candidates[p.id]);
        if d.candidates[p.id] == Candidate(NoOwner, map[]) { to := CandidateMade; }
      } else {
        assert d.candidates == map[];
      }
    }
  }

  lemma UndoOfNone()
    ensures Undo(map[]) == 0
  {
    assert WithOwnerTemp(map[]) == {};
  }

  lemma UndoOfOne(c: Id, candidate: Candidate)
    ensures Undo(map[c := candidate]) == UndoSteps(candidate)
  {
    UndoWithout(map[c := candidate], c);
    UndoOfNone();
    assert map[c := candidate] - {c} == map[];
  }

  // The claimed directory of a plan that is retaining.
  lemma KeepingDisk(p: Plan, rest: set<Id>, victim: Id, count: nat)
    requires Legal(p, Keeping(rest, victim, count))
    ensures
      var claimed := DiskAt(p, Keeping(rest, victim, count)).claimed;
      IsProgress(claimed, Claim(p.id, victim), VersionFiles(p, victim), count)
    ensures Left(p, Keeping(rest, victim, count)) == 7 * |rest| + 7 - count
  {
  }

  lemma KeepTwice(journal: Journal, versions: map<Id, Files>, rest0: set<Id>, rest: set<Id>)
    requires rest0 <= Unkept(journal, versions) && rest <= Unkept(journal, KeepOnly(journal, versions, rest0))
    ensures Unkept(journal, KeepOnly(journal, versions, rest0)) == rest0
    ensures KeepOnly(journal, KeepOnly(journal, versions, rest0), rest) == KeepOnly(journal, versions, rest)
  {
  }

  lemma ProgressIsMap(claimed: map<Claim, Files>, claim: Claim, full: Files, count: int)
    requires IsProgress(claimed, claim, full, count)
    ensures 0 <= count <= 6 && claimed == if count == 6 then map[] else map[claim := Tail(full, count)]
    ensures claimed == map[] <==> count == 6
  {
  }

  // Retention leaves the kept versions and `rest`; whatever it claimed was complete.
  ghost predicate OnlyRemoves(journal: Journal, before: Disk, after: Disk, rest: set<Id>) {
    && after == before.(claimed := after.claimed, versions := KeepOnly(journal, before.versions, rest))
    && rest <= Unkept(journal, before.versions)
    && forall v | v in Unkept(journal, before.versions) && v !in rest :: Complete(before.versions[v])
  }

  ghost predicate IsVictim(journal: Journal, before: Disk, rest: set<Id>, victim: Id) {
    victim in Unkept(journal, before.versions) && victim !in rest
  }

  lemma KeepAll(journal: Journal, versions: map<Id, Files>)
    ensures KeepOnly(journal, versions, Unkept(journal, versions)) == versions
  {
  }

  lemma KeepOneLess(journal: Journal, versions: map<Id, Files>, rest: set<Id>, v: Id)
    requires v in rest && v in versions && !Kept(journal, v)
    ensures v in KeepOnly(journal, versions, rest) && KeepOnly(journal, versions, rest)[v] == versions[v]
    ensures KeepOnly(journal, versions, rest) - {v} == KeepOnly(journal, versions, rest - {v})
  {
  }

  // `claim` alone is claimed, and has lost its first `count` files; at 6 its directory is gone too.
  ghost predicate IsProgress(claimed: map<Claim, Files>, claim: Claim, full: Files, count: int) {
    if count == 6 then claimed == map[]
    else 0 <= count < 6 && Complete(full) && claimed.Keys == {claim} && claimed[claim] == Tail(full, count)
  }

  // Exactly the managed files from position k on are left.
  predicate IsRemainder(files: Files, k: nat) {
    forall name | name in ALL_NAMES :: name in files <==> Index(name) >= k
  }

  function DeletionProgress(files: Files): (removed: Option<nat>)
    ensures removed.Some? ==> removed.value <= 5 && IsRemainder(files, removed.value)
    ensures removed.None? ==> forall k | 0 <= k <= 5 :: !IsRemainder(files, k)
  {
    if IsRemainder(files, 0) then Some(0)
    else if IsRemainder(files, 1) then Some(1)
    else if IsRemainder(files, 2) then Some(2)
    else if IsRemainder(files, 3) then Some(3)
    else if IsRemainder(files, 4) then Some(4)
    else if IsRemainder(files, 5) then Some(5)
    else None
  }

  lemma ProgressOfTail(full: Files, k: nat)
    requires Complete(full) && k <= 5
    ensures DeletionProgress(Tail(full, k)) == Some(k)
  {
    assert IsRemainder(Tail(full, k), k);
  }

  lemma RemainderIsTail(files: Files, k: nat)
    requires IsRemainder(files, k)
    ensures Tail(files, k) == files
  {
    forall name | name in files ensures Index(name) >= k {
      assert name == CaCrt || name == ServerCrt || name == ServerKey || name == ClientCrt || name == ClientKey;
    }
  }
}
