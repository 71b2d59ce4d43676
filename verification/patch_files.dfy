/** Applying hunks to a virtual copy of the repository, against changing a plain copy of it hunk by hunk. */
module PatchFiles {
  import opened Wrappers
  import PatchSplice

  type Path = string

  // What is at a path on disk: text, or something that cannot be read as text, which may still be a regular file.
  datatype Entry = Text(content: string) | Unreadable(regular: bool)

  type Repository = map<Path, Entry>

  // Hunks with their paths resolved.
  datatype Hunk =
    | Add(path: Path, contents: string)
    | Delete(path: Path)
    | Update(path: Path, move: Option<Path>, chunks: seq<PatchSplice.Chunk>)

  // ---- The reference: a plain copy that every hunk changes.

  predicate IsFile(repository: Repository, path: Path) {
    path in repository && (repository[path].Text? || repository[path].regular)
  }

  function Changed(repository: Repository, hunk: Hunk): Result<Repository> {
    match hunk
    case Add(path, contents) => Ok(repository[path := Text(contents)])
    case Delete(path) => if IsFile(repository, path) then Ok(repository - {path}) else Err
    case Update(path, move, chunks) =>
      if path !in repository || repository[path].Unreadable? then Err
      else match PatchSplice.Derived(repository[path].content, chunks)
        case Err => Err
        case Ok(content) =>
          if move.Some? then Ok((repository - {path})[move.value := Text(content)])
          else Ok(repository[path := Text(content)])
  }

  function ChangedByAll(repository: Repository, hunks: seq<Hunk>): Result<Repository>
    decreases |hunks|
  {
    if hunks == [] then Ok(repository)
    else match Changed(repository, hunks[0])
      case Err => Err
      case Ok(next) => ChangedByAll(next, hunks[1..])
  }

  // The path a hunk writes, if any.
  function Writes(hunk: Hunk): seq<Path> {
    match hunk
    case Add(path, _) => [path]
    case Delete(_) => []
    case Update(path, move, _) => if move.Some? then [move.value] else [path]
  }

  // The paths that hunks write, each once, in the order in which they are first written.
  function FirstWritten(seen: seq<Path>, hunks: seq<Hunk>): seq<Path>
    decreases |hunks|
  {
    if hunks == [] then seen else FirstWritten(Seen(seen, Writes(hunks[0])), hunks[1..])
  }

  function Seen(seen: seq<Path>, paths: seq<Path>): seq<Path> {
    if paths == [] || paths[0] in seen then seen else seen + [paths[0]]
  }

  // The written paths that are there at the end, with their contents.
  function Present(repository: Repository, paths: seq<Path>): seq<(Path, string)> {
    if paths == [] then []
    else
      var path := paths[0];
      (if path in repository && repository[path].Text? then [(path, repository[path].content)] else []) +
      Present(repository, paths[1..])
  }

  // ---- The virtual copy.

  type Overlay = map<Path, Option<string>>

  // The repository as the overlay shows it.
  function View(disk: Repository, state: Overlay): Repository {
    map path | path in disk.Keys + state.Keys && (path in state ==> state[path].Some?) ::
      if path in state then Text(state[path].value) else disk[path]
  }

  lemma ViewSet(disk: Repository, state: Overlay, path: Path, content: Option<string>)
    ensures View(disk, state[path := content]) ==
            if content.Some? then View(disk, state)[path := Text(content.value)] else View(disk, state) - {path}
  {
  }

  class Files {
    const disk: Repository
    var state: Overlay
    // The keys of the ordered dictionary of written paths.
    var order: seq<Path>

    predicate Valid()
      reads this
    {
      forall i | 0 <= i < |order| :: order[i] in state
    }

    constructor (disk: Repository)
      ensures Valid() && this.disk == disk && state == map[] && order == []
    {
      this.disk, state, order := disk, map[], [];
    }

    method Set(path: Path, content: Option<string>)
      requires Valid()
      modifies this
      ensures Valid()
      ensures state == old(state)[path := content]
      ensures order == if content.Some? then Seen(old(order), [path]) else old(order)
    {
      if content.Some? && path !in order {
        order := order + [path];
      }
      state := state[path := content];
    }

    method Exists(path: Path) returns (r: bool)
      ensures r <==> IsFile(View(disk, state), path)
    {
      if path in state {
        return state[path].Some?;
      }
      r := path in disk && (disk[path].Text? || disk[path].regular);
    }

    method Read(path: Path) returns (r: Result<string>)
      ensures r.Ok? <==> path in View(disk, state) && View(disk, state)[path].Text?
      ensures r.Ok? ==> r.value == View(disk, state)[path].content
    {
      if path in state {
        return if state[path].Some? then Ok(state[path].value) else Err;
      }
      if path !in disk || disk[path].Unreadable? {
        return Err;
      }
      r := Ok(disk[path].content);
    }

    method ApplyUpdate(path: Path, move: Option<Path>, chunks: seq<PatchSplice.Chunk>) returns (ok: bool)
      requires Valid()
      modifies this
      ensures Valid()
      ensures ok <==> Changed(old(View(disk, state)), Update(path, move, chunks)).Ok?
      ensures ok ==> Ok(View(disk, state)) == Changed(old(View(disk, state)), Update(path, move, chunks))
      ensures ok ==> order == Seen(old(order), Writes(Update(path, move, chunks)))
    {
      var read := Read(path);
      if read.Err? {
        return false;
      }
      var content := PatchSplice.Derive(read.value, chunks);
      if content.Err? {
        return false;
      }
      if move.Some? {
        ViewSet(disk, state, path, None);
        Set(path, None);
      }
      var target := if move.Some? then move.value else path;
      ViewSet(disk, state, target, Some(content.value));
      Set(target, Some(content.value));
      ok := true;
    }

    /** A hunk changes what the overlay shows as it changes a plain copy, and fails when that fails. */
    method Apply(hunk: Hunk) returns (ok: bool)
      requires Valid()
      modifies this
      ensures Valid()
      ensures ok <==> Changed(old(View(disk, state)), hunk).Ok?
      ensures ok ==> Ok(View(disk, state)) == Changed(old(View(disk, state)), hunk)
      ensures ok ==> order == Seen(old(order), Writes(hunk))
    {
      match hunk
      case Add(path, contents) =>
        ViewSet(disk, state, path, Some(contents));
        Set(path, Some(contents));
        ok := true;
      case Delete(path) =>
        var present := Exists(path);
        if !present {
          return false;
        }
        ViewSet(disk, state, path, None);
        Set(path, None);
        ok := true;
      case Update(path, move, chunks) =>
        ok := ApplyUpdate(path, move, chunks);
    }

    method Survivors() returns (r: seq<(Path, string)>)
      requires Valid()
      ensures r == Present(View(disk, state), order)
    {
      r := [];
      for i := 0 to |order|
        invariant r + Present(View(disk, state), order[i..]) == Present(View(disk, state), order)
      {
        assert order[i..][1..] == order[i + 1..];
        if state[order[i]].Some? {
          r := r + [(order[i], state[order[i]].value)];
        }
      }
    }
  }

  /**
   * Running hunks over the overlay gives what changing a plain copy hunk by hunk gives: the same failure, or the
   * written files that are still there, each once, in the order in which they were first written.
   */
  method Run(disk: Repository, hunks: seq<Hunk>) returns (r: Result<seq<(Path, string)>>)
    ensures r == match ChangedByAll(disk, hunks)
                 case Err => Err
                 case Ok(final) => Ok(Present(final, FirstWritten([], hunks)))
  {
    var files := new Files(disk);
    assert View(disk, map[]) == disk;
    assert hunks[0..] == hunks;
    for i := 0 to |hunks|
      invariant files.Valid() && files.disk == disk
      invariant ChangedByAll(View(disk, files.state), hunks[i..]) == ChangedByAll(disk, hunks)
      invariant FirstWritten(files.order, hunks[i..]) == FirstWritten([], hunks)
    {
      assert hunks[i..][1..] == hunks[i + 1..];
      var ok := files.Apply(hunks[i]);
      if !ok {
        return Err;
      }
    }
    assert hunks[|hunks|..] == [];
    var survivors := files.Survivors();
    r := Ok(survivors);
  }

  // ---- What survives.

  // What survives is exactly what was written and is still there.
  lemma {:induction false} PresentExactly(repository: Repository, paths: seq<Path>, path: Path, content: string)
    ensures (path, content) in Present(repository, paths) <==>
      path in paths && path in repository && repository[path] == Text(content)
  {
    if paths != [] {
      PresentExactly(repository, paths[1..], path, content);
    }
  }

  // A path is listed exactly when some hunk writes it.
  lemma {:induction false} WrittenExactly(seen: seq<Path>, hunks: seq<Hunk>, path: Path)
    ensures path in FirstWritten(seen, hunks) <==>
      path in seen || exists i :: 0 <= i < |hunks| && path in Writes(hunks[i])
    decreases |hunks|
  {
    if hunks != [] {
      WrittenExactly(Seen(seen, Writes(hunks[0])), hunks[1..], path);
      assert forall i | 0 <= i < |hunks[1..]| :: hunks[1..][i] == hunks[i + 1];
      if i :| 0 < i < |hunks| && path in Writes(hunks[i]) {
        assert hunks[1..][i - 1] == hunks[i];
      }
    }
  }

  predicate Distinct(paths: seq<Path>) {
    forall i, j | 0 <= i < j < |paths| :: paths[i] != paths[j]
  }

  // Each path is listed once, and those seen before keep their places.
  lemma {:induction false} WrittenOnce(seen: seq<Path>, hunks: seq<Hunk>)
    requires Distinct(seen)
    ensures Distinct(FirstWritten(seen, hunks)) && seen <= FirstWritten(seen, hunks)
    decreases |hunks|
  {
    if hunks != [] {
      WrittenOnce(Seen(seen, Writes(hunks[0])), hunks[1..]);
    }
  }

  // The survivors are listed in the order of the paths.
  lemma {:induction false} PresentInOrder(repository: Repository, before: seq<Path>, after: seq<Path>)
    ensures Present(repository, before + after) == Present(repository, before) + Present(repository, after)
    decreases |before|
  {
    if before == [] {
      assert before + after == after;
    } else {
      assert (before + after)[1..] == before[1..] + after;
      PresentInOrder(repository, before[1..], after);
    }
  }

  // ---- What a hunk does to each path.

  ghost predicate SameBut(before: Repository, after: Repository, paths: set<Path>) {
    forall path | path !in paths ::
      (path in before <==> path in after) && (path in before ==> before[path] == after[path])
  }

  /**
   * An added file holds its contents; a deleted one is gone; an updated one holds the text that its chunks make of it;
   * a moved one holds that text at its new path and is gone from the old one. Every other path is as it was.
   */
  lemma ChangedMeans(before: Repository, hunk: Hunk)
    requires Changed(before, hunk).Ok?
    ensures var after := Changed(before, hunk).value;
      match hunk
      case Add(path, contents) => SameBut(before, after, {path}) && path in after && after[path] == Text(contents)
      case Delete(path) => SameBut(before, after, {path}) && path in before && path !in after
      case Update(path, move, chunks) =>
        var target := if move.Some? then move.value else path;
        && SameBut(before, after, {path, target})
        && path in before && before[path].Text? && target in after && after[target].Text?
        && Ok(after[target].content) == PatchSplice.Derived(before[path].content, chunks)
        && (target != path ==> path !in after)
  {
  }

  /** An add never fails; a delete fails without a regular file; an update fails without text that its chunks fit. */
  lemma FailsExactly(before: Repository, hunk: Hunk)
    ensures Changed(before, hunk).Err? <==>
      match hunk
      case Add(_, _) => false
      case Delete(path) => path !in before || before[path] == Unreadable(false)
      case Update(path, _, chunks) =>
        path !in before || before[path].Unreadable? || PatchSplice.Derived(before[path].content, chunks).Err?
  {
  }

  // What becomes of a path: what the last hunk that touches it does.
  datatype Fate = Untouched | Written | Removed

  function FateOf(hunks: seq<Hunk>, path: Path): Fate {
    if hunks == [] then Untouched
    else if FateOf(hunks[1..], path) != Untouched then FateOf(hunks[1..], path)
    else if path in Writes(hunks[0]) then Written
    else if path == hunks[0].path then Removed
    else Untouched
  }

  lemma {:induction false} FateIsMet(before: Repository, hunks: seq<Hunk>, path: Path)
    requires ChangedByAll(before, hunks).Ok?
    ensures var after, fate := ChangedByAll(before, hunks).value, FateOf(hunks, path);
      match fate
      case Untouched => (path in after <==> path in before) && (path in after ==> after[path] == before[path])
      case Written => path in after && after[path].Text?
      case Removed => path !in after
    decreases |hunks|
  {
    hide PatchSplice.Derived, Changed;
    if hunks != [] {
      ChangedMeans(before, hunks[0]);
      FateIsMet(Changed(before, hunks[0]).value, hunks[1..], path);
    }
  }

  lemma {:induction false} FateIsWritten(hunks: seq<Hunk>, path: Path)
    requires FateOf(hunks, path).Written?
    ensures exists i :: 0 <= i < |hunks| && path in Writes(hunks[i])
  {
    if FateOf(hunks[1..], path).Written? {
      FateIsWritten(hunks[1..], path);
      var i :| 0 <= i < |hunks[1..]| && path in Writes(hunks[1..][i]);
      assert hunks[1..][i] == hunks[i + 1];
    } else {
      assert path in Writes(hunks[0]);
    }
  }

  lemma {:induction false} WrittenIsTouched(hunks: seq<Hunk>, path: Path, i: nat)
    requires i < |hunks| && path in Writes(hunks[i])
    ensures !FateOf(hunks, path).Untouched?
  {
    if i > 0 { WrittenIsTouched(hunks[1..], path, i - 1); }
  }

  ghost predicate IsListed(survivors: seq<(Path, string)>, path: Path) {
    exists content :: (path, content) in survivors
  }

  /** A path is proposed exactly when the last hunk that touches it writes it: a file that was moved away is not. */
  lemma SurvivesExactly(disk: Repository, hunks: seq<Hunk>, path: Path)
    requires ChangedByAll(disk, hunks).Ok?
    ensures IsListed(Present(ChangedByAll(disk, hunks).value, FirstWritten([], hunks)), path) <==>
            FateOf(hunks, path).Written?
  {
    hide ChangedByAll, FateOf, Present, FirstWritten;
    var final, paths := ChangedByAll(disk, hunks).value, FirstWritten([], hunks);
    FateIsMet(disk, hunks, path);
    WrittenExactly([], hunks, path);
    if FateOf(hunks, path).Written? {
      FateIsWritten(hunks, path);
      PresentExactly(final, paths, path, final[path].content);
    }
    if content :| (path, content) in Present(final, paths) {
      PresentExactly(final, paths, path, content);
      var i :| 0 <= i < |hunks| && path in Writes(hunks[i]);
      WrittenIsTouched(hunks, path, i);
    }
  }
}
