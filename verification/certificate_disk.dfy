/** The managed certificate root: the five managed files, the journal, and how a root is classified. */
module CertificateDisk {
  import opened Wrappers

  // A 128-bit random name. Its order is the order of its fixed-width hexadecimal text.
  type Id = nat

  datatype Name = CaCrt | ServerCrt | ServerKey | ClientCrt | ClientKey

  const MANAGED_FILES: seq<Name> := [CaCrt, ServerCrt, ServerKey, ClientCrt, ClientKey]
  const ALL_NAMES: set<Name> := {CaCrt, ServerCrt, ServerKey, ClientCrt, ClientKey}

  function Index(name: Name): (i: nat)
    ensures i < |MANAGED_FILES| && MANAGED_FILES[i] == name
  {
    match name
    case CaCrt => 0
    case ServerCrt => 1
    case ServerKey => 2
    case ClientCrt => 3
    case ClientKey => 4
  }

  datatype Identity = Unknown | Target | Predecessor

  // One generated certificate set: its profile, its validity period and its serial numbers.
  datatype Material = Material(identity: Identity, notBefore: int, notAfter: int, serial: nat)

  // A file holds one part of a certificate set, or some other bytes. Its digest stands for itself.
  datatype Content = Part(material: Material, name: Name) | Raw(bytes: nat)

  const EMPTY_CONTENT := Raw(0)

  type Files = map<Name, Content>

  predicate Complete(files: Files) {
    files.Keys == ALL_NAMES
  }

  // The files at managed positions k and above: what is left once k have been removed in order.
  function Tail(files: Files, k: nat): Files {
    map name | name in files && Index(name) >= k :: files[name]
  }

  // The files at managed positions below k: what is there once k have been written in order.
  function Head(files: Files, k: nat): Files {
    map name | name in files && Index(name) < k :: files[name]
  }

  lemma TailEnds(files: Files)
    ensures Tail(files, 0) == files
    ensures Tail(files, 5) == map[]
  {
    assert forall name: Name :: Index(name) < 5;
  }

  lemma TailOfTail(files: Files, j: nat, k: nat)
    ensures Tail(Tail(files, j), k) == Tail(files, if k < j then j else k)
  {
  }

  lemma TailStep(files: Files, k: nat)
    requires k < 5
    ensures Tail(files, k + 1) == Tail(files, k) - {MANAGED_FILES[k]}
    ensures MANAGED_FILES[k] !in files ==> Tail(files, k + 1) == Tail(files, k)
    ensures MANAGED_FILES[k] in Tail(files, k) <==> MANAGED_FILES[k] in files
  {
    assert forall name: Name :: Index(name) == k <==> name == MANAGED_FILES[k];
  }

  lemma TailHas(files: Files, k: nat, name: Name)
    ensures name in Tail(files, k) <==> name in files && Index(name) >= k
    ensures name in Tail(files, k) ==> Tail(files, k)[name] == files[name]
  {
  }

  lemma HeadEnds(files: Files)
    ensures Head(files, 0) == map[]
    ensures Head(files, 5) == files
  {
    assert forall name: Name :: Index(name) < 5;
  }

  lemma HeadStep(files: Files, k: nat)
    requires k < 5 && Complete(files)
    ensures MANAGED_FILES[k] in files &&
      Head(files, k + 1) == Head(files, k)[MANAGED_FILES[k] := files[MANAGED_FILES[k]]]
  {
    assert forall name: Name :: Index(name) == k <==> name == MANAGED_FILES[k];
  }

  function MaterialFiles(material: Material): Files {
    map name | name in ALL_NAMES :: Part(material, name)
  }

  function FileIdentity(files: Files): Identity
    requires Complete(files)
  {
    var first := files[CaCrt];
    if first.Part? && files == MaterialFiles(first.material) then first.material.identity else Unknown
  }

  predicate FilesFresh(files: Files, now: int)
    requires Complete(files)
  {
    var first := files[CaCrt];
    first.Part? && files == MaterialFiles(first.material) && first.material.notBefore <= now < first.material.notAfter
  }

  // Five files of the target profile, whatever the date.
  predicate TargetFiles(files: Files) {
    Complete(files) && FileIdentity(files) == Target
  }

  // ---- What a set is, file by file.

  // Every file is there and is the part of the set `m` that its name says.
  ghost predicate IsSet(files: Files, m: Material) {
    forall name: Name :: name in files && files[name] == Part(m, name)
  }

  ghost predicate IsSetOf(files: Files, identity: Identity) {
    exists m: Material :: m.identity == identity && IsSet(files, m)
  }

  ghost predicate IsValidSetOf(files: Files, identity: Identity, now: int) {
    exists m: Material :: m.identity == identity && IsSet(files, m) && m.notBefore <= now < m.notAfter
  }

  // A set that was made for this program or for its predecessor.
  ghost predicate IsOwnSet(files: Files) {
    IsSetOf(files, Target) || IsSetOf(files, Predecessor)
  }

  lemma CompleteMeans(files: Files)
    ensures Complete(files) <==> forall name: Name :: name in files
  {
    assert forall name: Name :: name in ALL_NAMES by {
      forall name: Name ensures name in ALL_NAMES {
        assert name == CaCrt || name == ServerCrt || name == ServerKey || name == ClientCrt || name == ClientKey;
      }
    }
  }

  lemma SetMeans(files: Files, m: Material)
    ensures IsSet(files, m) <==> files == MaterialFiles(m)
  {
    CompleteMeans(files);
    CompleteMeans(MaterialFiles(m));
  }

  /** The identity and the freshness of five files, from the files one by one. */
  lemma IdentityMeans(files: Files, now: int)
    requires Complete(files)
    ensures FileIdentity(files) == Target <==> IsSetOf(files, Target)
    ensures FileIdentity(files) == Predecessor <==> IsSetOf(files, Predecessor)
    ensures FileIdentity(files) != Unknown <==> IsOwnSet(files)
    ensures FileIdentity(files) == Target && FilesFresh(files, now) <==> IsValidSetOf(files, Target, now)
    ensures FileIdentity(files) == Predecessor && FilesFresh(files, now) <==> IsValidSetOf(files, Predecessor, now)
  {
    hide IsSet, MaterialFiles;
    forall m: Material
      ensures IsSet(files, m) <==> files == MaterialFiles(m)
      ensures files == MaterialFiles(m) ==> files[CaCrt] == Part(m, CaCrt)
    {
      SetMeans(files, m);
      PartOf(m);
    }
    var first := files[CaCrt];
    if first.Part? {
      assert IsSet(files, first.material) <==> files == MaterialFiles(first.material);
    }
  }

  lemma PartOf(m: Material)
    ensures CaCrt in MaterialFiles(m) && MaterialFiles(m)[CaCrt] == Part(m, CaCrt)
  {
  }

  datatype Owner = NoOwner | OwnerTemp | OwnerPublished(transaction: Id)

  datatype Candidate = Candidate(owner: Owner, files: Files)

  // `current`: missing, a safe link to a version, or something else.
  datatype Link = Absent | To(id: Id) | Unsafe

  datatype Stage = CandidateReady | VersionReady | CurrentPublished | CleaningDirectRoot | Retaining

  datatype Journal = Journal(id: Id, predecessor: Option<Id>, stage: Stage, digests: Option<Files>)

  datatype JournalTemp = JournalTemp(fileTransaction: Id, document: Journal)

  // A version directory renamed for deletion by the transaction `claimant`.
  datatype Claim = Claim(claimant: Id, version: Id)

  datatype Disk = Disk(
    current: Link,
    currentTemps: seq<Link>,
    candidates: map<Id, Candidate>,
    versions: map<Id, Files>,
    claimed: map<Claim, Files>,
    journal: Option<Journal>,
    journalTemps: seq<JournalTemp>,
    direct: Files,
    foreign: bool)  // an entry of the root that the publisher does not know

  predicate ValidJournal(document: Journal) {
    match document.digests
    case None => document.stage != CleaningDirectRoot
    case Some(digests) => Complete(digests)
  }

  predicate LegalAdjacentStage(from: Stage, to: Stage, direct: bool) {
    match from
    case CandidateReady => to == VersionReady
    case VersionReady => to == CurrentPublished
    case CurrentPublished => to == (if direct then CleaningDirectRoot else Retaining)
    case CleaningDirectRoot => to == Retaining
    case Retaining => false
  }

  // The place of a stage in the course of a publication.
  function Order(stage: Stage): nat {
    match stage
    case CandidateReady => 1
    case VersionReady => 2
    case CurrentPublished => 3
    case CleaningDirectRoot => 4
    case Retaining => 5
  }

  /** A stage follows another exactly when no stage is between them, or only the cleaning that there is no need for. */
  lemma StageFollows(from: Stage, to: Stage, direct: bool)
    ensures LegalAdjacentStage(from, to, direct) <==>
      && Order(from) < Order(to) && (direct || to != CleaningDirectRoot)
      && forall stage :: Order(from) < Order(stage) < Order(to) ==> !direct && stage == CleaningDirectRoot
  {
    assert Order(VersionReady) == 2 && Order(CurrentPublished) == 3 && Order(CleaningDirectRoot) == 4;
  }

  predicate CurrentMatches(current: Link, predecessor: Option<Id>) {
    match predecessor
    case None => current == Absent
    case Some(id) => current == To(id)
  }

  datatype RootState =
    Empty | PublishedTarget | LegacyDirectRootTarget | RecognizedPredecessor | Partial | UnknownComplete

  datatype Classified = Classified(
    state: RootState, isFresh: bool, current: Option<Id>, directFiles: Files, unsafe: bool)

  const PARTIAL := Classified(Partial, false, None, map[], false)
  const UNSAFE := Classified(Partial, false, None, map[], true)

  // The classification of a root that has `current`, read off the whole `versions` directory at once.
  ghost function VersionedClass(d: Disk, now: int): Classified {
    if !d.current.To? || d.candidates != map[] || d.claimed != map[] || !(1 <= |d.versions| <= 2) then PARTIAL
    else
      var id := d.current.id;
      var known := id in d.versions && Complete(d.versions[id]);
      if known && FileIdentity(d.versions[id]) == Unknown then
        // The entries are read in name order, and reading stops at an unknown current version.
        if forall v | v in d.versions && v < id :: Complete(d.versions[v])
        then Classified(UnknownComplete, false, Some(id), map[], false)
        else PARTIAL
      else if !known || exists v :: v in d.versions && !Complete(d.versions[v]) then PARTIAL
      else
        Classified(if FileIdentity(d.versions[id]) == Target then PublishedTarget else RecognizedPredecessor,
                   FilesFresh(d.versions[id], now), Some(id), map[], false)
  }

  // `locked` tells that the root holds a lock directory or lock artifact that is not the caller's.
  ghost function Class(d: Disk, now: int, locked: bool): Classified {
    if d.foreign || locked || d.journal.Some? || d.journalTemps != [] || d.currentTemps != [] then UNSAFE
    else if d.current != Absent then
      if d.direct != map[] then PARTIAL else VersionedClass(d, now)
    else DirectClass(d, now)
  }

  function DirectClass(d: Disk, now: int): Classified {
    if d.versions != map[] || d.candidates != map[] || d.claimed != map[] then UNSAFE
    else if d.direct == map[] then Classified(Empty, false, None, map[], false)
    else if !Complete(d.direct) then Classified(Partial, false, None, d.direct, false)
    else match FileIdentity(d.direct)
      case Unknown => Classified(UnknownComplete, false, None, d.direct, false)
      case Target => Classified(LegacyDirectRootTarget, FilesFresh(d.direct, now), None, d.direct, false)
      case Predecessor => Classified(RecognizedPredecessor, FilesFresh(d.direct, now), None, d.direct, false)
  }

  // A directory listing: the names in ascending order.
  ghost predicate IsListing(entries: seq<Id>, names: set<Id>) {
    && (forall i, j | 0 <= i < j < |entries| :: entries[i] < entries[j])
    && (forall v :: v in entries <==> v in names)
  }

  method ListDirectory(names: set<Id>) returns (entries: seq<Id>)
    ensures IsListing(entries, names)
    ensures |entries| == |names|
  {
    entries := [];
    var rest := names;
    while rest != {}
      invariant rest <= names
      invariant IsListing(entries, names - rest)
      invariant forall i, w :: 0 <= i < |entries| && w in rest ==> entries[i] < w
      invariant |entries| + |rest| == |names|
      decreases rest
    {
      var least :| least in rest;
      var others := rest - {least};
      while others != {}
        invariant least in rest
        invariant forall w :: w in rest && w !in others ==> least <= w
        decreases others
      {
        var w :| w in others;
        if w < least { least := w; }
        others := others - {w};
      }
      entries := entries + [least];
      rest := rest - {least};
    }
  }

  // The root has `current` and, beside one or two versions, nothing under way.
  ghost predicate IsPublication(d: Disk) {
    d.current.To? && d.candidates == map[] && d.claimed == map[] && 1 <= |d.versions| <= 2
  }

  // The first `count` versions, in name order, are complete, and none of them is an unknown current one.
  ghost predicate ReadSoFar(d: Disk, entries: seq<Id>, count: nat)
    requires IsListing(entries, d.versions.Keys) && d.current.To? && count <= |entries|
  {
    forall j | 0 <= j < count ::
      entries[j] in d.versions && Complete(d.versions[entries[j]])
      && (entries[j] == d.current.id ==> FileIdentity(d.versions[entries[j]]) != Unknown)
  }

  lemma StopsAtIncomplete(d: Disk, now: int, entries: seq<Id>, i: nat)
    requires IsListing(entries, d.versions.Keys) && IsPublication(d) && i < |entries| && ReadSoFar(d, entries, i)
    requires entries[i] in d.versions && !Complete(d.versions[entries[i]])
    ensures VersionedClass(d, now) == PARTIAL
  {
    hide Complete, FileIdentity, FilesFresh;
    var id, v := d.current.id, entries[i];
    if id in d.versions && Complete(d.versions[id]) && FileIdentity(d.versions[id]) == Unknown {
      var k :| 0 <= k < |entries| && entries[k] == id;
      assert k > i;
      assert v < id;
    }
  }

  lemma StopsAtUnknown(d: Disk, now: int, entries: seq<Id>, i: nat)
    requires IsListing(entries, d.versions.Keys) && IsPublication(d) && i < |entries| && ReadSoFar(d, entries, i)
    requires entries[i] == d.current.id && entries[i] in d.versions && Complete(d.versions[entries[i]])
    requires FileIdentity(d.versions[entries[i]]) == Unknown
    ensures VersionedClass(d, now) == Classified(UnknownComplete, false, Some(d.current.id), map[], false)
  {
    hide Complete, FileIdentity, FilesFresh;
    var id := d.current.id;
    forall w | w in d.versions && w < id
      ensures Complete(d.versions[w])
    {
      var k :| 0 <= k < |entries| && entries[k] == w;
      assert k < i;
    }
  }

  lemma ReadsAll(d: Disk, now: int, entries: seq<Id>)
    requires IsListing(entries, d.versions.Keys) && IsPublication(d) && ReadSoFar(d, entries, |entries|)
    ensures var id := d.current.id;
      if id !in entries then VersionedClass(d, now) == PARTIAL
      else
        && id in d.versions && Complete(d.versions[id])
        && VersionedClass(d, now) ==
             Classified(if FileIdentity(d.versions[id]) == Target then PublishedTarget else RecognizedPredecessor,
                        FilesFresh(d.versions[id], now), Some(id), map[], false)
  {
    hide Complete, FileIdentity, FilesFresh;
    forall v | v in d.versions
      ensures Complete(d.versions[v])
    {
      assert v in entries;
    }
  }

  // Reads the versions one by one, as the program does, and stops early as the program does.
  method ClassifyVersionedRoot(d: Disk, now: int) returns (c: Classified)
    ensures c == VersionedClass(d, now)
  {
    hide VersionedClass, Complete, FileIdentity, FilesFresh, IsListing;
    OtherwisePartial(d, now);
    if !d.current.To? { return PARTIAL; }
    var id := d.current.id;
    var count := |d.versions| + |d.candidates| + |d.claimed|;
    if count == 0 || count > 2 || d.candidates != map[] || d.claimed != map[] { return PARTIAL; }
    var entries := ListDirectory(d.versions.Keys);
    ListingHas(entries, d.versions.Keys);
    var found, identity, isFresh := false, Unknown, false;
    for i := 0 to |entries|
      invariant ReadSoFar(d, entries, i)
      invariant found <==> exists j :: 0 <= j < i && entries[j] == id
      invariant found ==> id in d.versions && Complete(d.versions[id])
      invariant found ==> identity == FileIdentity(d.versions[id]) && isFresh == FilesFresh(d.versions[id], now)
    {
      var v := entries[i];
      if !Complete(d.versions[v]) {
        StopsAtIncomplete(d, now, entries, i);
        return PARTIAL;
      }
      if v == id {
        if FileIdentity(d.versions[v]) == Unknown {
          StopsAtUnknown(d, now, entries, i);
          return Classified(UnknownComplete, false, Some(id), map[], false);
        }
        found, identity, isFresh := true, FileIdentity(d.versions[v]), FilesFresh(d.versions[v], now);
      }
    }
    ReadsAll(d, now, entries);
    if !found { return PARTIAL; }
    var state := if identity == Target then PublishedTarget else RecognizedPredecessor;
    return Classified(state, isFresh, Some(id), map[], false);
  }

  lemma OtherwisePartial(d: Disk, now: int)
    ensures !IsPublication(d) ==> VersionedClass(d, now) == PARTIAL
  {
  }

  lemma ListingHas(entries: seq<Id>, names: set<Id>)
    requires IsListing(entries, names)
    ensures forall i | 0 <= i < |entries| :: entries[i] in names
  {
    assert forall i | 0 <= i < |entries| :: entries[i] in entries;
  }

  // ---- The scan of the root.

  // The entries of the root directory. The lock stands for any lock directory or artifact that is not the caller's.
  datatype RootEntry =
    | CurrentLink | CurrentTemp | VersionsDirectory | Managed(name: Name)
    | JournalFile | JournalTempFile | Lock | Stranger

  ghost predicate IsPresent(entry: RootEntry, d: Disk, locked: bool) {
    match entry
    case CurrentLink => d.current != Absent
    case CurrentTemp => d.currentTemps != []
    case VersionsDirectory => true
    case Managed(name) => name in d.direct
    case JournalFile => d.journal.Some?
    case JournalTempFile => d.journalTemps != []
    case Lock => locked
    case Stranger => d.foreign
  }

  // The entries that a root may have when nothing is going on.
  predicate IsExpected(entry: RootEntry) {
    entry.CurrentLink? || entry.VersionsDirectory? || entry.Managed?
  }

  function Listed(entries: seq<RootEntry>, entry: RootEntry, present: bool): (r: seq<RootEntry>)
    ensures forall e :: e in r <==> e in entries || (present && e == entry)
  {
    if present then entries + [entry] else entries
  }

  method ListManaged(d: Disk) returns (entries: seq<RootEntry>)
    ensures forall entry :: entry in entries <==> entry.Managed? && entry.name in d.direct
  {
    hide Listed;
    entries := [];
    for k := 0 to |MANAGED_FILES|
      invariant forall entry :: entry in entries <==> entry.Managed? && Index(entry.name) < k && entry.name in d.direct
    {
      NameAt(k);
      entries := Listed(entries, Managed(MANAGED_FILES[k]), MANAGED_FILES[k] in d.direct);
    }
  }

  method ListRoot(d: Disk, locked: bool) returns (entries: seq<RootEntry>)
    ensures forall entry :: entry in entries <==> IsPresent(entry, d, locked)
  {
    hide Listed;
    entries := ListManaged(d);
    entries := Listed(entries, VersionsDirectory, true);
    entries := Listed(entries, CurrentLink, d.current != Absent);
    entries := Listed(entries, CurrentTemp, d.currentTemps != []);
    entries := Listed(entries, JournalFile, d.journal.Some?);
    entries := Listed(entries, JournalTempFile, d.journalTemps != []);
    entries := Listed(entries, Lock, locked);
    entries := Listed(entries, Stranger, d.foreign);
  }

  lemma NameAt(k: nat)
    requires k < |MANAGED_FILES|
    ensures forall name :: Index(name) == k <==> name == MANAGED_FILES[k]
  {
  }

  // How many of the managed files are in the direct root.
  method CountManaged(d: Disk) returns (count: nat)
    ensures count == 0 <==> d.direct == map[]
    ensures count == |MANAGED_FILES| <==> Complete(d.direct)
  {
    count := 0;
    for k := 0 to |MANAGED_FILES|
      invariant count <= k
      invariant count == 0 <==> forall name | name in d.direct :: Index(name) >= k
      invariant count == k <==> forall name | Index(name) < k :: name in d.direct
    {
      NameAt(k);
      if MANAGED_FILES[k] in d.direct { count := count + 1; }
    }
  }

  /** Counting the managed files and scanning the entries of the root gives the class of the whole root. */
  method ClassifyRoot(d: Disk, now: int, locked: bool) returns (c: Classified)
    ensures c == Class(d, now, locked)
  {
    var entries := ListRoot(d, locked);
    var managedPresent := CountManaged(d);
    for i := 0 to |entries|
      invariant forall k | 0 <= k < i :: IsExpected(entries[k])
    {
      if !IsExpected(entries[i]) {
        assert entries[i] in entries;
        return UNSAFE;
      }
    }
    NothingElse(entries, d, locked);
    if d.current != Absent {
      if managedPresent != 0 { return PARTIAL; }
      c := ClassifyVersionedRoot(d, now);
      return;
    }
    if d.versions != map[] || d.candidates != map[] || d.claimed != map[] { return UNSAFE; }
    if managedPresent == 0 { return Classified(Empty, false, None, map[], false); }
    if managedPresent != |MANAGED_FILES| { return Classified(Partial, false, None, d.direct, false); }
    var identity, isFresh := FileIdentity(d.direct), FilesFresh(d.direct, now);
    if identity == Unknown { return Classified(UnknownComplete, false, None, d.direct, false); }
    var state := if identity == Target then LegacyDirectRootTarget else RecognizedPredecessor;
    return Classified(state, isFresh, None, d.direct, false);
  }

  // When only expected entries are found, the root shows no trace of a run or a stranger.
  lemma NothingElse(entries: seq<RootEntry>, d: Disk, locked: bool)
    requires forall entry :: entry in entries <==> IsPresent(entry, d, locked)
    requires forall k | 0 <= k < |entries| :: IsExpected(entries[k])
    ensures !d.foreign && !locked && d.journal.None? && d.journalTemps == [] && d.currentTemps == []
  {
    assert Stranger !in entries && Lock !in entries && JournalFile !in entries;
    assert JournalTempFile !in entries && CurrentTemp !in entries;
  }

  // A root with no trace of an unfinished publication.
  ghost predicate Clean(d: Disk) {
    && d.journal.None? && d.journalTemps == [] && d.currentTemps == []
    && d.candidates == map[] && d.claimed == map[] && !d.foreign
  }

  // `current` names one of one or two versions, all complete, and there are no direct files.
  ghost predicate IsPublished(d: Disk) {
    && d.direct == map[] && d.current.To? && d.current.id in d.versions && |d.versions| <= 2
    && forall v | v in d.versions :: Complete(d.versions[v])
  }

  // There is nothing but direct files.
  ghost predicate IsDirect(d: Disk) {
    d.current == Absent && d.versions == map[]
  }

  /**
   * What the classes mean, from the files. A root is a published target when it is clean and `current` names, among one
   * or two complete versions and with no direct files, a target set; an unpublished set is a complete one in a root
   * with no `current` and no versions; a root is empty when there is none of these.
   */
  lemma ClassMeans(d: Disk, now: int)
    ensures Class(d, now, false).state == PublishedTarget <==>
      Clean(d) && IsPublished(d) && IsSetOf(d.versions[d.current.id], Target)
    ensures Class(d, now, false).state == RecognizedPredecessor <==>
      && Clean(d)
      && (|| (IsPublished(d) && IsSetOf(d.versions[d.current.id], Predecessor))
          || (IsDirect(d) && IsSetOf(d.direct, Predecessor)))
    ensures Class(d, now, false).state == LegacyDirectRootTarget <==>
      Clean(d) && IsDirect(d) && IsSetOf(d.direct, Target)
    ensures Class(d, now, false).state == Empty <==> Clean(d) && IsDirect(d) && d.direct == map[]
    ensures Class(d, now, false).isFresh <==>
      && Clean(d)
      && (|| (IsPublished(d) && (|| IsValidSetOf(d.versions[d.current.id], Target, now)
                                 || IsValidSetOf(d.versions[d.current.id], Predecessor, now)))
          || (IsDirect(d) && (IsValidSetOf(d.direct, Target, now) || IsValidSetOf(d.direct, Predecessor, now))))
    ensures Class(d, now, false).unsafe <==>
      || d.foreign || d.journal.Some? || d.journalTemps != [] || d.currentTemps != []
      || (d.current == Absent && !(d.versions == map[] && d.candidates == map[] && d.claimed == map[]))
  {
    hide FilesFresh, FileIdentity, IsSetOf, IsValidSetOf, Complete;
    if d.current.To? && d.current.id in d.versions {
      assert |d.versions| >= 1;
      SetsAreComplete(d.versions[d.current.id], now);
    }
    SetsAreComplete(d.direct, now);
  }

  lemma SetsAreComplete(files: Files, now: int)
    ensures IsOwnSet(files) ==> Complete(files)
    ensures Complete(files) ==>
      && (FileIdentity(files) == Target <==> IsSetOf(files, Target))
      && (FileIdentity(files) == Predecessor <==> IsSetOf(files, Predecessor))
      && (FileIdentity(files) == Target && FilesFresh(files, now) <==> IsValidSetOf(files, Target, now))
      && (FileIdentity(files) == Predecessor && FilesFresh(files, now) <==> IsValidSetOf(files, Predecessor, now))
    ensures IsValidSetOf(files, Target, now) ==> IsSetOf(files, Target)
    ensures IsValidSetOf(files, Predecessor, now) ==> IsSetOf(files, Predecessor)
    ensures IsOwnSet(files) ==> files != map[]
  {
    hide FilesFresh, FileIdentity;
    CompleteMeans(files);
    if Complete(files) { IdentityMeans(files, now); }
  }

  predicate RefusalRequired(state: RootState, force: bool) {
    (state == Partial || state == UnknownComplete) && !force
  }
}
