/** The publication lock: a directory made by mkdir, released by renaming it away, reaped when its owner is dead. */
module CertificateLock {
  import opened Wrappers

  type Pid = nat
  type Token = nat

  // A lock directory: the token in owner.json, and the owner temps beside it.
  datatype Dir = Dir(owner: Option<Token>, temps: set<Token>)

  // A lock directory renamed away, for release or as reaped, under the token its mover went by.
  datatype Artifact = Release(token: Token) | Reap(token: Token)

  datatype Pc =
    | Idle
    | Made                                            // mkdir succeeded
    | Wrote(token: Token)                             // the owner temp is written
    | Holding(token: Token)                           // owner.json is published
    | Scanning(token: Token, todo: set<Artifact>)     // the lock artifacts are listed and being cleaned up
    | Working(token: Token)                           // past the scan: recovering, classifying, publishing
    | Leaving(token: Token, passed: bool)             // about to release; `passed` tells that it got past the scan
    | Checked(token: Token, passed: bool)             // release has seen its own token in the lock
    | Moved(token: Token)                             // release has renamed the lock
    | Read(token: Token)                              // a waiter has read the owner of the lock and found it dead
    | Reaped(token: Token)                            // that waiter has renamed the lock
    | Stopped

  datatype State = State(
    lock: Option<Dir>,
    artifacts: map<Artifact, Dir>,
    pcs: map<Pid, Pc>,
    dead: set<Pid>,
    owners: map<Token, Pid>)  // who drew each token

  const INITIAL := State(None, map[], map[], {}, map[])

  datatype Action =
    | MakeDir(p: Pid) | WriteTemp(p: Pid, token: Token) | PublishOwner(p: Pid)
    | List(p: Pid) | CleanUp(p: Pid, artifact: Artifact) | EndScan(p: Pid)
    | Finish(p: Pid) | CheckOwner(p: Pid) | MoveRelease(p: Pid) | RemoveRelease(p: Pid)
    | ReadOwner(p: Pid) | MoveReap(p: Pid) | RemoveReap(p: Pid)
    | Restart(p: Pid) | Die(p: Pid)

  function PcOf(s: State, p: Pid): Pc {
    if p in s.pcs then s.pcs[p] else Idle
  }

  function Goes(s: State, p: Pid, pc: Pc): State {
    s.(pcs := s.pcs[p := pc])
  }

  // The artifact holds the lock of the token it is named after.
  predicate Matches(artifact: Artifact, dir: Dir) {
    dir.owner == Some(artifact.token) && dir.temps <= {artifact.token}
  }

  function MoveLock(s: State, artifact: Artifact): State
    requires s.lock.Some?
  {
    s.(lock := None, artifacts := s.artifacts[artifact := s.lock.value])
  }

  /** One step of one process. An action its process cannot take changes nothing; the dead take none. */
  function Do(s: State, a: Action): State {
    if a.p in s.dead then s else
    var pc := PcOf(s, a.p);
    match a
    case MakeDir(p) =>
      if pc == Idle && s.lock.None? then Goes(s, p, Made).(lock := Some(Dir(None, {}))) else s
    case WriteTemp(p, token) =>
      if pc != Made || token in s.owners then s
      else if s.lock.None? then Goes(s, p, Stopped)
      else
        Goes(s, p, Wrote(token)).(lock := Some(s.lock.value.(temps := s.lock.value.temps + {token})),
                                  owners := s.owners[token := p])
    case PublishOwner(p) =>
      if !pc.Wrote? then s
      else if s.lock.None? || pc.token !in s.lock.value.temps then Goes(s, p, Stopped)
      else Goes(s, p, Holding(pc.token)).(lock := Some(Dir(Some(pc.token), s.lock.value.temps - {pc.token})))
    case List(p) =>
      if pc.Holding? then Goes(s, p, Scanning(pc.token, s.artifacts.Keys)) else s
    case CleanUp(p, artifact) =>
      if !pc.Scanning? || artifact !in pc.todo then s
      else if artifact in s.artifacts && Matches(artifact, s.artifacts[artifact])
      then Goes(s, p, Scanning(pc.token, pc.todo - {artifact})).(artifacts := s.artifacts - {artifact})
      else Goes(s, p, Leaving(pc.token, false))
    case EndScan(p) =>
      if pc.Scanning? && pc.todo == {} then Goes(s, p, Working(pc.token)) else s
    case Finish(p) =>
      if pc.Working? then Goes(s, p, Leaving(pc.token, true)) else s
    case CheckOwner(p) =>
      if !pc.Leaving? then s
      else if s.lock.Some? && s.lock.value.owner == Some(pc.token) then Goes(s, p, Checked(pc.token, pc.passed))
      else Goes(s, p, Stopped)
    case MoveRelease(p) =>
      if !pc.Checked? then s
      else if s.lock.Some? && Release(pc.token) !in s.artifacts
      then Goes(MoveLock(s, Release(pc.token)), p, Moved(pc.token))
      else Goes(s, p, Stopped)
    case RemoveRelease(p) =>
      if !pc.Moved? then s
      else if Release(pc.token) in s.artifacts && Matches(Release(pc.token), s.artifacts[Release(pc.token)])
      then Goes(s, p, Stopped).(artifacts := s.artifacts - {Release(pc.token)})
      else Goes(s, p, Stopped)
    case ReadOwner(p) =>
      // A process is found dead only if it is.
      if pc == Idle && s.lock.Some? && s.lock.value.owner.Some? && s.lock.value.owner.value in s.owners
         && s.owners[s.lock.value.owner.value] in s.dead
      then Goes(s, p, Read(s.lock.value.owner.value)) else s
    case MoveReap(p) =>
      if !pc.Read? then s
      else if s.lock.Some? && Reap(pc.token) !in s.artifacts then Goes(MoveLock(s, Reap(pc.token)), p, Reaped(pc.token))
      else Goes(s, p, Idle)
    case RemoveReap(p) =>
      if !pc.Reaped? then s
      else if Reap(pc.token) in s.artifacts && s.artifacts[Reap(pc.token)] == Dir(Some(pc.token), {})
      then Goes(s, p, Idle).(artifacts := s.artifacts - {Reap(pc.token)})
      else Goes(s, p, Stopped)
    case Restart(p) =>
      if pc == Stopped then Goes(s, p, Idle) else s
    case Die(p) =>
      s.(dead := s.dead + {p})
  }

  // A run: any actions of any processes, interleaved in any way.
  function Run(s: State, actions: seq<Action>): State
    decreases |actions|
  {
    if actions == [] then s else Run(Do(s, actions[0]), actions[1..])
  }

  // A live process past the artifact scan that has not yet moved the lock away.
  ghost predicate IsPast(s: State, p: Pid) {
    var pc := PcOf(s, p);
    p !in s.dead && (pc.Working? || (pc.Leaving? && pc.passed) || (pc.Checked? && pc.passed))
  }

  // Past the scan, or in it with nothing listed that would stop it.
  ghost predicate IsClear(s: State, p: Pid) {
    || IsPast(s, p)
    || (p !in s.dead && PcOf(s, p).Scanning? &&
        forall a | a in PcOf(s, p).todo && a in s.artifacts :: Matches(a, s.artifacts[a]))
  }

  ghost predicate HasMismatch(s: State) {
    exists a :: a in s.artifacts && !Matches(a, s.artifacts[a])
  }

  // A live process between its mkdir and the end of its release.
  ghost predicate IsOwning(s: State, p: Pid) {
    var pc := PcOf(s, p);
    p !in s.dead && (pc.Made? || pc.Wrote? || pc.Holding? || pc.Scanning? || pc.Working? || pc.Leaving? || pc.Checked?)
  }

  // What the lock directory holds while its maker is at `pc`.
  ghost function DirAt(pc: Pc): Dir {
    match pc
    case Wrote(token) => Dir(None, {token})
    case Holding(token) => Dir(Some(token), {})
    case Scanning(token, _) => Dir(Some(token), {})
    case Working(token) => Dir(Some(token), {})
    case Leaving(token, _) => Dir(Some(token), {})
    case Checked(token, _) => Dir(Some(token), {})
    case _ => Dir(None, {})
  }

  ghost predicate TokensKnown(s: State) {
    && (s.lock.Some? && s.lock.value.owner.Some? ==> s.lock.value.owner.value in s.owners)
    && (forall p | IsOwning(s, p) && !PcOf(s, p).Made? ::
          PcOf(s, p).token in s.owners && s.owners[PcOf(s, p).token] == p)
    && (forall p | p in s.pcs && (s.pcs[p].Read? || s.pcs[p].Reaped?) ::
          s.pcs[p].token in s.owners && s.owners[s.pcs[p].token] in s.dead)
    && (s.lock.Some? ==> forall t | t in s.lock.value.temps :: t in s.owners)
  }

  // While no artifact is mismatched, the lock belongs to one live process at most, and shows exactly how far it is.
  ghost predicate OneOwner(s: State) {
    && (forall p, q | IsOwning(s, p) && IsOwning(s, q) :: p == q)
    && (forall p | IsOwning(s, p) :: s.lock == Some(DirAt(PcOf(s, p))))
  }

  ghost predicate OneClear(s: State) {
    forall p, q | IsClear(s, p) && IsClear(s, q) :: p == q
  }

  ghost predicate Inv(s: State) {
    TokensKnown(s) && (if HasMismatch(s) then OneClear(s) else OneOwner(s))
  }

  // A step moves its own process only.
  lemma OthersStay(s: State, a: Action, p: Pid)
    ensures p != a.p ==> PcOf(Do(s, a), p) == PcOf(s, p)
    ensures IsOwning(Do(s, a), p) && p != a.p ==> IsOwning(s, p)
  {
  }

  lemma OwnerTokenStep(s: State, a: Action, p: Pid)
    requires TokensKnown(s) && IsOwning(Do(s, a), p) && !PcOf(Do(s, a), p).Made?
    ensures var token := PcOf(Do(s, a), p).token; token in Do(s, a).owners && Do(s, a).owners[token] == p
  {
    OthersStay(s, a, p);
    assert PcOf(Do(s, a), p).Wrote? || IsOwning(s, p);
  }

  lemma ReaderTokenStep(s: State, a: Action, p: Pid)
    requires TokensKnown(s) && p in Do(s, a).pcs && (Do(s, a).pcs[p].Read? || Do(s, a).pcs[p].Reaped?)
    ensures var token := Do(s, a).pcs[p].token; token in Do(s, a).owners && Do(s, a).owners[token] in Do(s, a).dead
  {
  }

  lemma LockTokensStep(s: State, a: Action)
    requires TokensKnown(s) && Do(s, a).lock.Some?
    ensures Do(s, a).lock.value.owner.Some? ==> Do(s, a).lock.value.owner.value in Do(s, a).owners
    ensures forall t | t in Do(s, a).lock.value.temps :: t in Do(s, a).owners
  {
  }

  lemma TokensStep(s: State, a: Action)
    requires TokensKnown(s)
    ensures TokensKnown(Do(s, a))
  {
    hide Do;
    var s' := Do(s, a);
    forall p | IsOwning(s', p) && !PcOf(s', p).Made?
      ensures PcOf(s', p).token in s'.owners && s'.owners[PcOf(s', p).token] == p
    {
      OwnerTokenStep(s, a, p);
    }
    forall p | p in s'.pcs && (s'.pcs[p].Read? || s'.pcs[p].Reaped?)
      ensures s'.pcs[p].token in s'.owners && s'.owners[s'.pcs[p].token] in s'.dead
    {
      ReaderTokenStep(s, a, p);
    }
    if s'.lock.Some? {
      LockTokensStep(s, a);
    }
  }

  // A mismatched artifact is never cleaned up.
  lemma MismatchStays(s: State, a: Action)
    requires HasMismatch(s)
    ensures HasMismatch(Do(s, a))
  {
    var bad :| bad in s.artifacts && !Matches(bad, s.artifacts[bad]);
    assert bad in Do(s, a).artifacts && !Matches(bad, Do(s, a).artifacts[bad]);
  }

  // Once there is a mismatch, no process becomes clear that was not clear already.
  lemma ClearShrinks(s: State, a: Action, p: Pid)
    requires HasMismatch(s) && IsClear(Do(s, a), p)
    ensures IsClear(s, p)
  {
    hide Do, HasMismatch;
    if IsPast(Do(s, a), p) { PastWasClear(s, a, p); } else { ScanWasClear(s, a, p); }
  }

  lemma PastWasClear(s: State, a: Action, p: Pid)
    requires IsPast(Do(s, a), p)
    ensures IsClear(s, p)
  {
  }

  lemma ScanWasClear(s: State, a: Action, p: Pid)
    requires HasMismatch(s) && IsClear(Do(s, a), p) && !IsPast(Do(s, a), p)
    ensures IsClear(s, p)
  {
    var bad :| bad in s.artifacts && !Matches(bad, s.artifacts[bad]);
    var s' := Do(s, a);
    assert bad in s'.artifacts && s'.artifacts[bad] == s.artifacts[bad];
    assert PcOf(s, p).Scanning?;
    forall x | x in PcOf(s, p).todo && x in s.artifacts
      ensures Matches(x, s.artifacts[x])
    {
      assert x in s'.artifacts ==> s'.artifacts[x] == s.artifacts[x];
    }
  }

  // Whoever is clear owned the lock a step ago.
  lemma ClearWasOwning(s: State, a: Action, p: Pid)
    requires IsClear(Do(s, a), p)
    ensures IsOwning(s, p)
  {
  }

  lemma OwnerStep(s: State, a: Action)
    requires TokensKnown(s) && OneOwner(s) && !HasMismatch(s) && !HasMismatch(Do(s, a))
    ensures OneOwner(Do(s, a))
  {
    var s' := Do(s, a);
    forall p | IsOwning(s', p)
      ensures s'.lock == Some(DirAt(PcOf(s', p))) && (IsOwning(s, p) || (a.MakeDir? && p == a.p))
    {
      OwnerStepOf(s, a, p);
    }
    if a.MakeDir? && IsOwning(s', a.p) && !IsOwning(s, a.p) {
      assert s.lock.None?;
      assert forall q :: !IsOwning(s, q);
    }
  }

  lemma OwnerStepOf(s: State, a: Action, p: Pid)
    requires TokensKnown(s) && OneOwner(s) && !HasMismatch(s) && !HasMismatch(Do(s, a)) && IsOwning(Do(s, a), p)
    ensures Do(s, a).lock == Some(DirAt(PcOf(Do(s, a), p)))
    ensures IsOwning(s, p) || (a.MakeDir? && p == a.p && s.lock.None?)
  {
    OthersStay(s, a, p);
    if a.MoveReap? && PcOf(s, a.p).Read? && s.lock.Some? && a.p !in s.dead {
      var reap := Reap(PcOf(s, a.p).token);
      assert reap in Do(s, a).artifacts;
      assert Matches(reap, Do(s, a).artifacts[reap]);
    }
    if a.p != p {
      assert !IsOwning(s, a.p);
    } else if a.WriteTemp? {
      assert {} + {a.token} == {a.token};
    } else if a.PublishOwner? && PcOf(s, p).Wrote? {
      assert {PcOf(s, p).token} - {PcOf(s, p).token} == {};
    }
  }

  lemma Step(s: State, a: Action)
    requires Inv(s)
    ensures Inv(Do(s, a))
  {
    TokensStep(s, a);
    if HasMismatch(s) {
      MismatchStays(s, a);
      forall p, q | IsClear(Do(s, a), p) && IsClear(Do(s, a), q) ensures p == q {
        ClearShrinks(s, a, p);
        ClearShrinks(s, a, q);
      }
    } else if HasMismatch(Do(s, a)) {
      forall p, q | IsClear(Do(s, a), p) && IsClear(Do(s, a), q) ensures p == q {
        ClearWasOwning(s, a, p);
        ClearWasOwning(s, a, q);
      }
    } else {
      OwnerStep(s, a);
    }
  }

  lemma {:induction false} RunKeepsInv(s: State, actions: seq<Action>)
    requires Inv(s)
    ensures Inv(Run(s, actions))
    decreases |actions|
  {
    if actions != [] {
      Step(s, actions[0]);
      RunKeepsInv(Do(s, actions[0]), actions[1..]);
    }
  }

  /** Over every interleaving of publishers, waiters and crashes, at most one live process is past the artifact scan. */
  lemma AtMostOnePast(actions: seq<Action>, p: Pid, q: Pid)
    requires IsPast(Run(INITIAL, actions), p) && IsPast(Run(INITIAL, actions), q)
    ensures p == q
  {
    RunKeepsInv(INITIAL, actions);
    assert IsClear(Run(INITIAL, actions), p) && IsOwning(Run(INITIAL, actions), p);
    assert IsClear(Run(INITIAL, actions), q) && IsOwning(Run(INITIAL, actions), q);
  }

  /** A mismatched artifact stays for ever, and stops every process that was not clear of it when it came. */
  lemma {:induction false} MismatchStopsLater(s: State, actions: seq<Action>, p: Pid)
    requires HasMismatch(s)
    ensures HasMismatch(Run(s, actions))
    ensures IsPast(Run(s, actions), p) ==> IsClear(s, p)
    decreases |actions|
  {
    if actions != [] {
      MismatchStays(s, actions[0]);
      MismatchStopsLater(Do(s, actions[0]), actions[1..], p);
      if IsClear(Do(s, actions[0]), p) { ClearShrinks(s, actions[0], p); }
    }
  }

  /** A waiter that moves away a lock other than the one it read leaves a mismatched artifact, whoever made the lock. */
  lemma StaleReapLeavesMismatch(s: State, waiter: Pid)
    requires waiter !in s.dead && PcOf(s, waiter).Read?
    requires s.lock.Some? && s.lock.value.owner != Some(PcOf(s, waiter).token)
    requires Reap(PcOf(s, waiter).token) !in s.artifacts
    ensures Do(s, MoveReap(waiter)).lock.None? && HasMismatch(Do(s, MoveReap(waiter)))
  {
    var reap := Reap(PcOf(s, waiter).token);
    assert reap in Do(s, MoveReap(waiter)).artifacts;
  }

  // The lock of a live process is never the one a waiter has read.
  lemma LiveLockIsOther(actions: seq<Action>, waiter: Pid, q: Pid)
    requires var s := Run(INITIAL, actions); IsOwning(s, q) && PcOf(s, waiter).Read? && !HasMismatch(s)
    ensures var s := Run(INITIAL, actions); s.lock.Some? && s.lock.value.owner != Some(PcOf(s, waiter).token)
  {
    RunKeepsInv(INITIAL, actions);
  }

  lemma {:induction false} RunSnoc(s: State, actions: seq<Action>, a: Action)
    ensures Run(s, actions + [a]) == Do(Run(s, actions), a)
    decreases |actions|
  {
    if actions == [] {
      assert ([a] + [])[1..] == [];
    } else {
      assert (actions + [a])[1..] == actions[1..] + [a];
      RunSnoc(Do(s, actions[0]), actions[1..], a);
    }
  }

  lemma RunNothing(s: State)
    ensures Run(s, []) == s
  {
  }

  lemma {:induction false} RunConcat(s: State, before: seq<Action>, after: seq<Action>)
    ensures Run(s, before + after) == Run(Run(s, before), after)
    decreases |before|
  {
    if before == [] {
      assert before + after == after;
    } else {
      assert (before + after)[1..] == before[1..] + after;
      RunConcat(Do(s, before[0]), before[1..], after);
    }
  }

  lemma OneAction(s: State, a: Action)
    ensures Run(s, [a]) == Do(s, a)
  {
    assert [a][1..] == [];
  }

  // Process p makes the lock its own.
  lemma Hold(s: State, p: Pid, token: Token) returns (actions: seq<Action>)
    requires p !in s.dead && PcOf(s, p) == Idle && s.lock.None? && token !in s.owners
    ensures Run(s, actions) ==
      Goes(s, p, Holding(token)).(lock := Some(Dir(Some(token), {})), owners := s.owners[token := p])
  {
    hide Run;
    actions := [MakeDir(p)];
    OneAction(s, MakeDir(p));
    var made := Goes(s, p, Made).(lock := Some(Dir(None, {})));
    RunSnoc(s, actions, WriteTemp(p, token));
    actions := actions + [WriteTemp(p, token)];
    assert {} + {token} == {token} && {token} - {token} == {};
    var wrote := Goes(made, p, Wrote(token)).(lock := Some(Dir(None, {token})), owners := s.owners[token := p]);
    assert Run(s, actions) == wrote;
    RunSnoc(s, actions, PublishOwner(p));
    actions := actions + [PublishOwner(p)];
    assert Run(s, actions).pcs == s.pcs[p := Holding(token)];
  }

  lemma Acquire(actions: seq<Action>, p: Pid, token: Token) returns (next: seq<Action>)
    requires var s := Run(INITIAL, actions); p !in s.dead && PcOf(s, p) == Idle && s.lock.None? && token !in s.owners
    ensures var s := Run(INITIAL, actions);
      Run(INITIAL, next) ==
        Goes(s, p, Holding(token)).(lock := Some(Dir(Some(token), {})), owners := s.owners[token := p])
  {
    hide Run;
    next := Hold(Run(INITIAL, actions), p, token);
    RunConcat(INITIAL, actions, next);
    next := actions + next;
  }

  // Process 0 dies holding the lock; 1 and 2 both read its owner.
  lemma ReadByTwo() returns (actions: seq<Action>)
    ensures Run(INITIAL, actions) ==
      State(Some(Dir(Some(10), {})), map[], map[0 := Holding(10), 1 := Read(10), 2 := Read(10)], {0}, map[10 := 0])
  {
    hide Run;
    RunNothing(INITIAL);
    actions := Acquire([], 0, 10);
    RunSnoc(INITIAL, actions, Die(0));
    actions := actions + [Die(0)];
    RunSnoc(INITIAL, actions, ReadOwner(1));
    actions := actions + [ReadOwner(1)];
    RunSnoc(INITIAL, actions, ReadOwner(2));
    actions := actions + [ReadOwner(2)];
  }

  /**
   * Holding the lock is not exclusive by itself: two waiters that read the same dead owner can end with two live
   * holders.
   */
  lemma TwoCanHold() returns (actions: seq<Action>)
    ensures var s := Run(INITIAL, actions);
      PcOf(s, 1).Holding? && PcOf(s, 3).Holding? && 1 !in s.dead && 3 !in s.dead && HasMismatch(s)
  {
    hide Run;
    // 1 reaps and acquires; 2 then moves the lock of 1; 3 acquires.
    actions := ReadByTwo();
    RunSnoc(INITIAL, actions, MoveReap(1));
    actions := actions + [MoveReap(1)];
    RunSnoc(INITIAL, actions, RemoveReap(1));
    actions := actions + [RemoveReap(1)];
    actions := Acquire(actions, 1, 11);
    RunSnoc(INITIAL, actions, MoveReap(2));
    actions := actions + [MoveReap(2)];
    var reap := Reap(10);
    assert reap in Run(INITIAL, actions).artifacts;
    actions := Acquire(actions, 3, 13);
    assert reap in Run(INITIAL, actions).artifacts && !Matches(reap, Run(INITIAL, actions).artifacts[reap]);
  }

  // ---- What one process can count on.

  /**
   * A process that is past the scan stays so until it dies, has moved its lock away, or finds that the lock is not its
   * own or that its release artifact is there.
   */
  lemma PastUntilReleased(s: State, a: Action, p: Pid)
    requires IsPast(s, p) && !IsPast(Do(s, a), p)
    ensures var t, token := Do(s, a), PcOf(s, p).token;
      || a == Die(p)
      || (&& a == MoveRelease(p) && t.lock.None? && s.lock.Some?
          && t.artifacts == s.artifacts[Release(token) := s.lock.value])
      || (a == CheckOwner(p) && (s.lock.None? || s.lock.value.owner != Some(token)))
      || (a == MoveRelease(p) && (s.lock.None? || Release(token) in s.artifacts))
  {
  }

  // Every artifact holds the owner it is named after, and beside it at most that owner's temp.
  predicate AllClean(artifacts: map<Artifact, Dir>) {
    forall a | a in artifacts :: artifacts[a].owner == Some(a.token) && artifacts[a].temps - {a.token} == {}
  }

  lemma GoesOn(s: State, p: Pid, first: Pc, second: Pc)
    ensures Goes(Goes(s, p, first), p, second) == Goes(s, p, second)
  {
    assert s.pcs[p := first][p := second] == s.pcs[p := second];
  }

  lemma CleanOne(s: State, p: Pid, token: Token, artifact: Artifact)
    requires p !in s.dead && PcOf(s, p) == Scanning(token, s.artifacts.Keys) && AllClean(s.artifacts)
    requires artifact in s.artifacts
    ensures var next := s.artifacts - {artifact};
      && Do(s, CleanUp(p, artifact)) == Goes(s, p, Scanning(token, next.Keys)).(artifacts := next)
      && AllClean(next) && next.Keys == s.artifacts.Keys - {artifact}
  {
    assert s.artifacts[artifact].temps <= {artifact.token};
    assert (s.artifacts - {artifact}).Keys == s.artifacts.Keys - {artifact};
  }

  // The scan of a process that is not disturbed cleans up every artifact.
  lemma {:induction false} ScanAlone(s: State, p: Pid, token: Token) returns (actions: seq<Action>)
    requires p !in s.dead && PcOf(s, p) == Scanning(token, s.artifacts.Keys) && AllClean(s.artifacts)
    ensures Run(s, actions) == Goes(s, p, Scanning(token, {})).(artifacts := map[])
    decreases |s.artifacts.Keys|
  {
    hide Run, Do, AllClean;
    if s.artifacts == map[] {
      actions := [];
      RunNothing(s);
      assert s.pcs[p := Scanning(token, {})] == s.pcs;
    } else {
      var artifact :| artifact in s.artifacts;
      CleanOne(s, p, token, artifact);
      var next := Do(s, CleanUp(p, artifact));
      var rest := ScanAlone(next, p, token);
      actions := [CleanUp(p, artifact)] + rest;
      RunConcat(s, [CleanUp(p, artifact)], rest);
      OneAction(s, CleanUp(p, artifact));
      GoesOn(s, p, PcOf(next, p), Scanning(token, {}));
    }
  }

  lemma AcquireAlone(s: State, p: Pid, token: Token) returns (actions: seq<Action>)
    requires p !in s.dead && PcOf(s, p) == Idle && s.lock.None? && token !in s.owners
    ensures Run(s, actions) ==
      Goes(s, p, Scanning(token, s.artifacts.Keys)).(lock := Some(Dir(Some(token), {})), owners := s.owners[token := p])
  {
    hide Run, Do;
    actions := Hold(s, p, token);
    RunSnoc(s, actions, List(p));
    Lists(Run(s, actions), p, token);
    GoesOn(s, p, Holding(token), Scanning(token, s.artifacts.Keys));
    actions := actions + [List(p)];
  }

  lemma Lists(s: State, p: Pid, token: Token)
    requires p !in s.dead && PcOf(s, p) == Holding(token)
    ensures Do(s, List(p)) == Goes(s, p, Scanning(token, s.artifacts.Keys))
  {
  }

  lemma MovesOut(s: State, p: Pid, token: Token) returns (actions: seq<Action>)
    requires p !in s.dead && PcOf(s, p) == Working(token)
    requires s.lock == Some(Dir(Some(token), {})) && s.artifacts == map[]
    ensures Run(s, actions) ==
      Goes(s, p, Moved(token)).(lock := None, artifacts := map[Release(token) := Dir(Some(token), {})])
  {
    hide Run;
    actions := [Finish(p)];
    OneAction(s, Finish(p));
    RunSnoc(s, actions, CheckOwner(p));
    actions := actions + [CheckOwner(p)];
    RunSnoc(s, actions, MoveRelease(p));
    actions := actions + [MoveRelease(p)];
    assert Run(s, actions).pcs == s.pcs[p := Moved(token)];
  }

  lemma ClearsOut(s: State, p: Pid, token: Token) returns (actions: seq<Action>)
    requires p !in s.dead && PcOf(s, p) == Moved(token)
    requires s.artifacts == map[Release(token) := Dir(Some(token), {})]
    ensures Run(s, actions) == Goes(s, p, Idle).(artifacts := map[])
  {
    hide Run;
    actions := [RemoveRelease(p)];
    OneAction(s, RemoveRelease(p));
    assert s.artifacts - {Release(token)} == map[];
    RunSnoc(s, actions, Restart(p));
    actions := actions + [Restart(p)];
    assert Run(s, actions).pcs == s.pcs[p := Idle];
  }

  lemma ReleaseAlone(s: State, p: Pid, token: Token) returns (actions: seq<Action>)
    requires p !in s.dead && PcOf(s, p) == Working(token)
    requires s.lock == Some(Dir(Some(token), {})) && s.artifacts == map[]
    ensures Run(s, actions) == Goes(s, p, Idle).(lock := None)
  {
    hide Run;
    actions := MovesOut(s, p, token);
    var rest := ClearsOut(Run(s, actions), p, token);
    RunConcat(s, actions, rest);
    GoesOn(s, p, Moved(token), Idle);
    actions := actions + rest;
  }

  /**
   * From every state without a lock and with clean artifacts, a process that is not disturbed gets past the scan,
   * having removed every artifact, and releases the lock without a trace.
   */
  lemma PublishAlone(s: State, p: Pid, token: Token) returns (acquire: seq<Action>, release: seq<Action>)
    requires p !in s.dead && PcOf(s, p) == Idle && s.lock.None? && token !in s.owners && AllClean(s.artifacts)
    ensures Run(s, acquire) ==
      s.(pcs := s.pcs[p := Working(token)], lock := Some(Dir(Some(token), {})), artifacts := map[],
         owners := s.owners[token := p])
    ensures Run(s, acquire + release) ==
      s.(pcs := s.pcs[p := Idle], artifacts := map[], owners := s.owners[token := p])
  {
    hide Run, Do;
    var begin := AcquireAlone(s, p, token);
    var scanning := Run(s, begin);
    var scan := ScanAlone(scanning, p, token);
    var scanned := Run(scanning, scan);
    acquire := begin + scan + [EndScan(p)];
    RunConcat(s, begin, scan);
    RunSnoc(s, begin + scan, EndScan(p));
    EndsScan(scanned, p, token);
    assert Run(s, acquire).pcs == s.pcs[p := Working(token)];
    release := ReleaseAlone(Run(s, acquire), p, token);
    RunConcat(s, acquire, release);
    assert Run(s, acquire + release).pcs == s.pcs[p := Idle];
  }

  lemma EndsScan(s: State, p: Pid, token: Token)
    requires p !in s.dead && PcOf(s, p) == Scanning(token, {})
    ensures Do(s, EndScan(p)) == Goes(s, p, Working(token))
  {
  }

  /** A waiter reaps the lock of a dead owner, and nothing else. */
  lemma ReapAlone(s: State, p: Pid, token: Token) returns (actions: seq<Action>)
    requires p !in s.dead && PcOf(s, p) == Idle && s.lock == Some(Dir(Some(token), {}))
    requires token in s.owners && s.owners[token] in s.dead && Reap(token) !in s.artifacts
    ensures Run(s, actions) == s.(pcs := s.pcs[p := Idle], lock := None)
  {
    hide Run;
    actions := [ReadOwner(p)];
    OneAction(s, ReadOwner(p));
    RunSnoc(s, actions, MoveReap(p));
    actions := actions + [MoveReap(p)];
    var moved := Run(s, actions);
    assert moved.artifacts - {Reap(token)} == s.artifacts;
    RunSnoc(s, actions, RemoveReap(p));
    actions := actions + [RemoveReap(p)];
    assert Run(s, actions).pcs == s.pcs[p := Idle];
  }
}
