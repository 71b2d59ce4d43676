/**
 * Which imports a Python module uses: a walk that keeps the bindings each name may have and joins them
 * after a branch, against the paths through the program.
 */
module ImportResolver {

  type Name = string
  type Record = nat

  // One imported name and its record. `reexported` tells that it is imported `as` its own name.
  datatype Alias = Alias(name: Name, record: Record, reexported: bool)

  // What is assigned: a variable, or an attribute or item whose expression loads names.
  datatype Target = Variable(name: Name) | Place(loads: seq<Name>)

  // One target of a deletion: the names its parts load, and the names it removes once all of them are loaded.
  datatype Deletion = Deletion(loads: seq<Name>, names: seq<Name>)

  // Module-level statements, with the names their expressions load. The names in an `__all__` list count as loads.
  datatype Stmt =
    | Import(aliases: seq<Alias>)
    | Assign(loads: seq<Name>, targets: seq<Target>)
    | AugAssign(target: Target, loads: seq<Name>)
    | Delete(deletions: seq<Deletion>)
    | Evaluate(loads: seq<Name>)
    | If(test: seq<Name>, body: seq<Stmt>, orelse: seq<Stmt>)

  // What a name is bound to.
  datatype Binding = Removed | Plain | Imported(record: Record)

  // ---- Paths: straight lines of loads and bindings.

  datatype Step = Load(name: Name) | Bind(name: Name, binding: Binding)

  function Loads(names: seq<Name>): seq<Step> {
    if names == [] then [] else [Load(names[0])] + Loads(names[1..])
  }

  function Targets(targets: seq<Target>): seq<Step> {
    if targets == [] then []
    else
      (match targets[0]
       case Variable(name) => [Bind(name, Plain)]
       case Place(loads) => Loads(loads)) + Targets(targets[1..])
  }

  function Removals(names: seq<Name>): seq<Step> {
    if names == [] then [] else [Bind(names[0], Removed)] + Removals(names[1..])
  }

  function Deletions(targets: seq<Deletion>): seq<Step> {
    if targets == [] then []
    else Loads(targets[0].loads) + Removals(targets[0].names) + Deletions(targets[1..])
  }

  function Imports(aliases: seq<Alias>): seq<Step> {
    if aliases == [] then [] else [Bind(aliases[0].name, Imported(aliases[0].record))] + Imports(aliases[1..])
  }

  function Straight(stmt: Stmt): seq<Step>
    requires !stmt.If?
  {
    match stmt
    case Import(aliases) => Imports(aliases)
    case Assign(loads, targets) => Loads(loads) + Targets(targets)
    case AugAssign(target, loads) =>
      Loads(if target.Variable? then [target.name] else target.loads) + Loads(loads) + Targets([target])
    case Delete(targets) => Deletions(targets)
    case Evaluate(loads) => Loads(loads)
  }

  // `line` is what one path through the statements executes.
  ghost predicate IsPath(stmts: seq<Stmt>, line: seq<Step>)
    decreases stmts
  {
    if stmts == [] then line == []
    else exists k | 0 <= k <= |line| :: IsPathOf(stmts[0], line[..k]) && IsPath(stmts[1..], line[k..])
  }

  ghost predicate IsPathOf(stmt: Stmt, line: seq<Step>)
    decreases stmt
  {
    match stmt
    case If(test, body, orelse) =>
      var n := |Loads(test)|;
      && n <= |line|
      && line[..n] == Loads(test)
      && (IsPath(body, line[n..]) || IsPath(orelse, line[n..]))
    case _ => line == Straight(stmt)
  }

  function Next(step: Step, name: Name, binding: Binding): Binding {
    if step.Bind? && step.name == name then step.binding else binding
  }

  // What `name` is bound to after `line`, if it is bound to `start` before.
  function After(line: seq<Step>, name: Name, start: Binding): Binding {
    if line == [] then start else After(line[1..], name, Next(line[0], name, start))
  }

  // `line` loads `name` while the import `record` is its latest binding.
  predicate UsesOn(line: seq<Step>, name: Name, start: Binding, record: Record) {
    line != [] &&
    ((line[0] == Load(name) && start == Imported(record)) ||
     UsesOn(line[1..], name, Next(line[0], name, start), record))
  }

  // ---- The walk.

  // The value of a name: one binding, or a set of bindings that may hold.
  datatype Value = One(binding: Binding) | Many(bindings: set<Binding>)

  type Flow = map<Name, Value>

  function Candidates(value: Value): set<Binding> {
    match value
    case One(binding) => {binding}
    case Many(bindings) => bindings
  }

  function At(flow: Flow, name: Name): set<Binding> {
    if name in flow then Candidates(flow[name]) else {Removed}
  }

  function MergeImportStates(left: Flow, right: Flow): Flow {
    map name | name in left.Keys + right.Keys :: Many(At(left, name) + At(right, name))
  }

  function Marked(bindings: set<Binding>): set<Record> {
    set b | b in bindings && b.Imported? :: b.record
  }

  function Written(binding: Binding): Value {
    if binding.Imported? then Many({binding}) else One(binding)
  }

  function WalkLine(line: seq<Step>, flow: Flow, used: set<Record>): (Flow, set<Record>) {
    if line == [] then (flow, used)
    else match line[0]
      case Load(name) => WalkLine(line[1..], flow, used + Marked(At(flow, name)))
      case Bind(name, binding) => WalkLine(line[1..], flow[name := Written(binding)], used)
  }

  // The bindings that may hold after the statements, and the imports marked used.
  function Walk(stmts: seq<Stmt>, flow: Flow, used: set<Record>): (Flow, set<Record>)
    decreases stmts
  {
    if stmts == [] then (flow, used)
    else
      var (flow1, used1) := WalkStmt(stmts[0], flow, used);
      Walk(stmts[1..], flow1, used1)
  }

  function WalkStmt(stmt: Stmt, flow: Flow, used: set<Record>): (Flow, set<Record>)
    decreases stmt
  {
    match stmt
    case If(test, body, orelse) =>
      var (incoming, used0) := WalkLine(Loads(test), flow, used);
      var (left, used1) := Walk(body, incoming, used0);
      var (right, used2) := Walk(orelse, incoming, used1);
      (MergeImportStates(left, right), used2)
    case _ => WalkLine(Straight(stmt), flow, used)
  }

  // ---- The walk against the paths.

  predicate Inhabited(flow: Flow) {
    forall name | name in flow :: Candidates(flow[name]) != {}
  }

  lemma {:induction false} AfterConcat(a: seq<Step>, b: seq<Step>, name: Name, start: Binding)
    ensures After(a + b, name, start) == After(b, name, After(a, name, start))
  {
    if a == [] {
      assert a + b == b;
    } else {
      assert (a + b)[1..] == a[1..] + b;
      AfterConcat(a[1..], b, name, Next(a[0], name, start));
    }
  }

  lemma {:induction false} UsesConcat(a: seq<Step>, b: seq<Step>, name: Name, start: Binding, record: Record)
    ensures UsesOn(a + b, name, start, record) <==>
            UsesOn(a, name, start, record) || UsesOn(b, name, After(a, name, start), record)
  {
    if a == [] {
      assert a + b == b;
    } else {
      assert (a + b)[1..] == a[1..] + b;
      UsesConcat(a[1..], b, name, Next(a[0], name, start), record);
    }
  }

  // The test of a branch binds nothing.
  lemma {:induction false} LoadsBindNothing(names: seq<Name>, flow: Flow, used: set<Record>)
    ensures WalkLine(Loads(names), flow, used).0 == flow
    ensures forall name, start :: After(Loads(names), name, start) == start
  {
    if names != [] {
      assert Loads(names)[1..] == Loads(names[1..]);
      LoadsBindNothing(names[1..], flow, used + Marked(At(flow, names[0])));
    }
  }

  // Paths of a list are a path of its first statement followed by a path of the rest.
  lemma PathsConcat(stmts: seq<Stmt>, first: seq<Step>, rest: seq<Step>)
    requires stmts != [] && IsPathOf(stmts[0], first) && IsPath(stmts[1..], rest)
    ensures IsPath(stmts, first + rest)
  {
    var k := |first|;
    assert (first + rest)[..k] == first && (first + rest)[k..] == rest;
  }

  lemma PathsCut(stmts: seq<Stmt>, line: seq<Step>) returns (first: seq<Step>, rest: seq<Step>)
    requires stmts != [] && IsPath(stmts, line)
    ensures line == first + rest && IsPathOf(stmts[0], first) && IsPath(stmts[1..], rest)
  {
    var k :| 0 <= k <= |line| && IsPathOf(stmts[0], line[..k]) && IsPath(stmts[1..], line[k..]);
    first, rest := line[..k], line[k..];
  }

  lemma ArmPath(stmt: Stmt, arm: seq<Step>)
    requires stmt.If? && (IsPath(stmt.body, arm) || IsPath(stmt.orelse, arm))
    ensures IsPathOf(stmt, Loads(stmt.test) + arm)
  {
    var n, line := |Loads(stmt.test)|, Loads(stmt.test) + arm;
    assert line[..n] == Loads(stmt.test) && line[n..] == arm;
  }

  lemma {:induction false} SomePath(stmts: seq<Stmt>) returns (line: seq<Step>)
    ensures IsPath(stmts, line)
    decreases stmts
  {
    if stmts == [] {
      line := [];
    } else {
      var first := SomePathOf(stmts[0]);
      var rest := SomePath(stmts[1..]);
      PathsConcat(stmts, first, rest);
      line := first + rest;
    }
  }

  lemma {:induction false} SomePathOf(stmt: Stmt) returns (line: seq<Step>)
    ensures IsPathOf(stmt, line)
    decreases stmt
  {
    match stmt
    case If(test, body, orelse) =>
      var arm := SomePath(body);
      ArmPath(stmt, arm);
      line := Loads(test) + arm;
    case _ =>
      line := Straight(stmt);
  }

  // Every name keeps a candidate, and marks are never taken back.
  lemma {:induction false} LineKeeps(line: seq<Step>, flow: Flow, used: set<Record>)
    requires Inhabited(flow)
    ensures Inhabited(WalkLine(line, flow, used).0) && used <= WalkLine(line, flow, used).1
  {
    if line != [] {
      match line[0]
      case Load(name) => LineKeeps(line[1..], flow, used + Marked(At(flow, name)));
      case Bind(name, binding) => LineKeeps(line[1..], flow[name := Written(binding)], used);
    }
  }

  lemma {:induction false} WalkKeeps(stmts: seq<Stmt>, flow: Flow, used: set<Record>)
    requires Inhabited(flow)
    ensures Inhabited(Walk(stmts, flow, used).0) && used <= Walk(stmts, flow, used).1
    decreases stmts
  {
    if stmts != [] {
      var (flow1, used1) := WalkStmt(stmts[0], flow, used);
      StmtKeeps(stmts[0], flow, used);
      WalkKeeps(stmts[1..], flow1, used1);
    }
  }

  lemma {:induction false} StmtKeeps(stmt: Stmt, flow: Flow, used: set<Record>)
    requires Inhabited(flow)
    ensures Inhabited(WalkStmt(stmt, flow, used).0) && used <= WalkStmt(stmt, flow, used).1
    decreases stmt
  {
    match stmt
    case If(test, body, orelse) =>
      var used0 := WalkLine(Loads(test), flow, used).1;
      LoadsBindNothing(test, flow, used);
      LineKeeps(Loads(test), flow, used);
      var (left, used1) := Walk(body, flow, used0);
      WalkKeeps(body, flow, used0);
      WalkKeeps(orelse, flow, used1);
      MergedInhabited(left, Walk(orelse, flow, used1).0);
    case _ => LineKeeps(Straight(stmt), flow, used);
  }

  lemma MergedInhabited(left: Flow, right: Flow)
    requires Inhabited(left) && Inhabited(right)
    ensures Inhabited(MergeImportStates(left, right))
  {
    forall name | name in left.Keys + right.Keys
      ensures Candidates(MergeImportStates(left, right)[name]) != {}
    {
      var b :| b in At(left, name);
      assert b in At(left, name) + At(right, name);
    }
  }

  // ---- Every path is covered.

  lemma {:induction false} LineCovers(line: seq<Step>, flow: Flow, used: set<Record>, name: Name, start: Binding)
    requires start in At(flow, name)
    ensures After(line, name, start) in At(WalkLine(line, flow, used).0, name)
  {
    if line != [] {
      match line[0]
      case Load(n) => LineCovers(line[1..], flow, used + Marked(At(flow, n)), name, start);
      case Bind(n, binding) =>
        LineCovers(line[1..], flow[n := Written(binding)], used, name, Next(line[0], name, start));
    }
  }

  lemma {:induction false} LineMarks(line: seq<Step>, flow: Flow, used: set<Record>, name: Name, start: Binding,
      record: Record)
    requires Inhabited(flow) && start in At(flow, name) && UsesOn(line, name, start, record)
    ensures record in WalkLine(line, flow, used).1
  {
    match line[0]
    case Load(n) =>
      var used1 := used + Marked(At(flow, n));
      if n == name && start == Imported(record) {
        assert record in used1;
        LineKeeps(line[1..], flow, used1);
      } else {
        LineMarks(line[1..], flow, used1, name, start, record);
      }
    case Bind(n, binding) =>
      LineMarks(line[1..], flow[n := Written(binding)], used, name, Next(line[0], name, start), record);
  }

  /** What a path binds a name to is among the bindings the walk allows. */
  lemma {:induction false} WalkCovers(stmts: seq<Stmt>, flow: Flow, used: set<Record>, line: seq<Step>, name: Name,
      start: Binding)
    requires IsPath(stmts, line) && start in At(flow, name)
    ensures After(line, name, start) in At(Walk(stmts, flow, used).0, name)
    decreases stmts
  {
    if stmts != [] {
      var first, rest := PathsCut(stmts, line);
      var (flow1, used1) := WalkStmt(stmts[0], flow, used);
      AfterConcat(first, rest, name, start);
      StmtCovers(stmts[0], flow, used, first, name, start);
      WalkCovers(stmts[1..], flow1, used1, rest, name, After(first, name, start));
    }
  }

  lemma {:induction false} StmtCovers(stmt: Stmt, flow: Flow, used: set<Record>, line: seq<Step>, name: Name,
      start: Binding)
    requires IsPathOf(stmt, line) && start in At(flow, name)
    ensures After(line, name, start) in At(WalkStmt(stmt, flow, used).0, name)
    decreases stmt
  {
    match stmt
    case If(test, body, orelse) =>
      var used0, arm := WalkLine(Loads(test), flow, used).1, line[|Loads(test)|..];
      LoadsBindNothing(test, flow, used);
      assert line == Loads(test) + arm;
      AfterConcat(Loads(test), arm, name, start);
      if IsPath(body, arm) {
        WalkCovers(body, flow, used0, arm, name, start);
      } else {
        WalkCovers(orelse, flow, Walk(body, flow, used0).1, arm, name, start);
      }
    case _ => LineCovers(line, flow, used, name, start);
  }

  /** An import that a path uses is marked. */
  lemma {:induction false} WalkMarks(stmts: seq<Stmt>, flow: Flow, used: set<Record>, line: seq<Step>, name: Name,
      start: Binding, record: Record)
    requires Inhabited(flow) && IsPath(stmts, line) && start in At(flow, name) && UsesOn(line, name, start, record)
    ensures record in Walk(stmts, flow, used).1
    decreases stmts
  {
    if stmts != [] {
      var first, rest := PathsCut(stmts, line);
      var (flow1, used1) := WalkStmt(stmts[0], flow, used);
      UsesConcat(first, rest, name, start, record);
      StmtKeeps(stmts[0], flow, used);
      if UsesOn(first, name, start, record) {
        StmtMarks(stmts[0], flow, used, first, name, start, record);
        WalkKeeps(stmts[1..], flow1, used1);
      } else {
        StmtCovers(stmts[0], flow, used, first, name, start);
        WalkMarks(stmts[1..], flow1, used1, rest, name, After(first, name, start), record);
      }
    }
  }

  lemma {:induction false} StmtMarks(stmt: Stmt, flow: Flow, used: set<Record>, line: seq<Step>, name: Name,
      start: Binding, record: Record)
    requires Inhabited(flow) && IsPathOf(stmt, line) && start in At(flow, name) && UsesOn(line, name, start, record)
    ensures record in WalkStmt(stmt, flow, used).1
    decreases stmt
  {
    match stmt
    case If(test, body, orelse) =>
      var used0, arm := WalkLine(Loads(test), flow, used).1, line[|Loads(test)|..];
      var used1 := Walk(body, flow, used0).1;
      LoadsBindNothing(test, flow, used);
      assert line == Loads(test) + arm;
      UsesConcat(Loads(test), arm, name, start, record);
      WalkKeeps(body, flow, used0);
      WalkKeeps(orelse, flow, used1);
      if UsesOn(Loads(test), name, start, record) {
        LineMarks(Loads(test), flow, used, name, start, record);
      } else if IsPath(body, arm) {
        WalkMarks(body, flow, used0, arm, name, start, record);
      } else {
        WalkMarks(orelse, flow, used1, arm, name, start, record);
      }
    case _ => LineMarks(line, flow, used, name, start, record);
  }

  // ---- Nothing else is allowed or marked: each comes with the path that shows it.

  lemma {:induction false} LineReached(line: seq<Step>, flow: Flow, used: set<Record>, name: Name, b: Binding)
    returns (start: Binding)
    requires Inhabited(flow) && b in At(WalkLine(line, flow, used).0, name)
    ensures start in At(flow, name) && After(line, name, start) == b
  {
    if line == [] {
      start := b;
    } else {
      match line[0]
      case Load(n) => start := LineReached(line[1..], flow, used + Marked(At(flow, n)), name, b);
      case Bind(n, binding) =>
        start := LineReached(line[1..], flow[n := Written(binding)], used, name, b);
        if n == name {
          start :| start in At(flow, name);
        }
    }
  }

  lemma {:induction false} LineUsed(line: seq<Step>, flow: Flow, used: set<Record>, record: Record)
    returns (name: Name, start: Binding)
    requires Inhabited(flow) && record in WalkLine(line, flow, used).1 && record !in used
    ensures start in At(flow, name) && UsesOn(line, name, start, record)
  {
    match line[0]
    case Load(n) =>
      var used1 := used + Marked(At(flow, n));
      if record in used1 {
        name, start := n, Imported(record);
      } else {
        name, start := LineUsed(line[1..], flow, used1, record);
      }
    case Bind(n, binding) =>
      name, start := LineUsed(line[1..], flow[n := Written(binding)], used, record);
      if n == name {
        start :| start in At(flow, name);
      }
  }

  /** A binding the walk allows is what some path binds the name to. */
  lemma {:induction false} WalkReached(stmts: seq<Stmt>, flow: Flow, used: set<Record>, name: Name, b: Binding)
    returns (line: seq<Step>, start: Binding)
    requires Inhabited(flow) && b in At(Walk(stmts, flow, used).0, name)
    ensures IsPath(stmts, line) && start in At(flow, name) && After(line, name, start) == b
    decreases stmts
  {
    if stmts == [] {
      line, start := [], b;
    } else {
      var (flow1, used1) := WalkStmt(stmts[0], flow, used);
      StmtKeeps(stmts[0], flow, used);
      var rest, mid := WalkReached(stmts[1..], flow1, used1, name, b);
      var first, start0 := StmtReached(stmts[0], flow, used, name, mid);
      AfterConcat(first, rest, name, start0);
      PathsConcat(stmts, first, rest);
      line, start := first + rest, start0;
    }
  }

  lemma {:induction false} StmtReached(stmt: Stmt, flow: Flow, used: set<Record>, name: Name, b: Binding)
    returns (line: seq<Step>, start: Binding)
    requires Inhabited(flow) && b in At(WalkStmt(stmt, flow, used).0, name)
    ensures IsPathOf(stmt, line) && start in At(flow, name) && After(line, name, start) == b
    decreases stmt
  {
    match stmt
    case If(test, body, orelse) =>
      var used0 := WalkLine(Loads(test), flow, used).1;
      var (left, used1) := Walk(body, flow, used0);
      LoadsBindNothing(test, flow, used);
      var arm;
      if b in At(left, name) {
        arm, start := WalkReached(body, flow, used0, name, b);
      } else {
        arm, start := WalkReached(orelse, flow, used1, name, b);
      }
      ArmPath(stmt, arm);
      AfterConcat(Loads(test), arm, name, start);
      line := Loads(test) + arm;
    case _ =>
      line := Straight(stmt);
      start := LineReached(line, flow, used, name, b);
  }

  /** A mark the walk adds is a use on some path. */
  lemma {:induction false} WalkUsed(stmts: seq<Stmt>, flow: Flow, used: set<Record>, record: Record)
    returns (line: seq<Step>, name: Name, start: Binding)
    requires Inhabited(flow) && record in Walk(stmts, flow, used).1 && record !in used
    ensures IsPath(stmts, line) && start in At(flow, name) && UsesOn(line, name, start, record)
    decreases stmts
  {
    var (flow1, used1) := WalkStmt(stmts[0], flow, used);
    StmtKeeps(stmts[0], flow, used);
    var first, rest;
    if record in used1 {
      first, name, start := StmtUsed(stmts[0], flow, used, record);
      rest := SomePath(stmts[1..]);
    } else {
      var mid;
      rest, name, mid := WalkUsed(stmts[1..], flow1, used1, record);
      first, start := StmtReached(stmts[0], flow, used, name, mid);
    }
    UsesConcat(first, rest, name, start, record);
    PathsConcat(stmts, first, rest);
    line := first + rest;
  }

  lemma {:induction false} StmtUsed(stmt: Stmt, flow: Flow, used: set<Record>, record: Record)
    returns (line: seq<Step>, name: Name, start: Binding)
    requires Inhabited(flow) && record in WalkStmt(stmt, flow, used).1 && record !in used
    ensures IsPathOf(stmt, line) && start in At(flow, name) && UsesOn(line, name, start, record)
    decreases stmt
  {
    match stmt
    case If(test, body, orelse) =>
      var used0 := WalkLine(Loads(test), flow, used).1;
      var (left, used1) := Walk(body, flow, used0);
      LoadsBindNothing(test, flow, used);
      var arm;
      if record in used0 {
        name, start := LineUsed(Loads(test), flow, used, record);
        arm := SomePath(body);
      } else if record in used1 {
        arm, name, start := WalkUsed(body, flow, used0, record);
      } else {
        arm, name, start := WalkUsed(orelse, flow, used1, record);
      }
      ArmPath(stmt, arm);
      UsesConcat(Loads(test), arm, name, start, record);
      line := Loads(test) + arm;
    case _ =>
      line := Straight(stmt);
      name, start := LineUsed(line, flow, used, record);
  }

  // Some path through the program loads a name while the import `record` is its latest binding.
  ghost predicate UsedOnSomePath(program: seq<Stmt>, record: Record) {
    exists line, name :: IsPath(program, line) && UsesOn(line, name, Removed, record)
  }

  /** From an empty scope, the walk adds exactly the imports that some path uses. */
  lemma UsedExactly(program: seq<Stmt>, used: set<Record>, record: Record)
    ensures record in Walk(program, map[], used).1 <==> record in used || UsedOnSomePath(program, record)
  {
    WalkKeeps(program, map[], used);
    if record in Walk(program, map[], used).1 && record !in used {
      var line, name, start := WalkUsed(program, map[], used, record);
      assert UsesOn(line, name, Removed, record);
    }
    if UsedOnSomePath(program, record) {
      var line, name :| IsPath(program, line) && UsesOn(line, name, Removed, record);
      WalkMarks(program, map[], used, line, name, Removed, record);
    }
  }

  // ---- What each statement does, from its parts.

  // Some of the names may be bound to the import `record`.
  ghost predicate Reads(flow: Flow, names: seq<Name>, record: Record) {
    exists name :: name in names && Imported(record) in At(flow, name)
  }

  // Some target loads a name that may be bound to the import `record` and that no earlier target assigns.
  ghost predicate TargetReads(flow: Flow, targets: seq<Target>, record: Record) {
    exists i, name ::
      && 0 <= i < |targets| && targets[i].Place? && name in targets[i].loads
      && Variable(name) !in targets[..i] && Imported(record) in At(flow, name)
  }

  // Some deleted target loads a name that may be bound to the import `record` and that no earlier target removes.
  ghost predicate DeletionReads(flow: Flow, deletions: seq<Deletion>, record: Record) {
    exists i, name ::
      && 0 <= i < |deletions| && name in deletions[i].loads
      && !Removes(deletions[..i], name) && Imported(record) in At(flow, name)
  }

  ghost predicate Removes(deletions: seq<Deletion>, name: Name) {
    exists i :: 0 <= i < |deletions| && name in deletions[i].names
  }

  // The last alias that binds `name`.
  ghost predicate IsLastAlias(aliases: seq<Alias>, name: Name, i: nat) {
    i < |aliases| && aliases[i].name == name && forall j | i < j < |aliases| :: aliases[j].name != name
  }

  lemma {:induction false} LoadsMean(names: seq<Name>, flow: Flow, used: set<Record>, record: Record)
    ensures WalkLine(Loads(names), flow, used).0 == flow
    ensures record in WalkLine(Loads(names), flow, used).1 <==> record in used || Reads(flow, names, record)
  {
    if names != [] {
      assert Loads(names)[1..] == Loads(names[1..]);
      LoadsMean(names[1..], flow, used + Marked(At(flow, names[0])), record);
      assert names == [names[0]] + names[1..];
      MarkedMeans(At(flow, names[0]), record);
    }
  }

  lemma MarkedMeans(bindings: set<Binding>, record: Record)
    ensures record in Marked(bindings) <==> Imported(record) in bindings
  {
    if Imported(record) in bindings { assert Imported(record).record == record; }
  }

  lemma {:induction false} TargetsBind(targets: seq<Target>, flow: Flow, used: set<Record>, name: Name)
    ensures At(WalkLine(Targets(targets), flow, used).0, name) ==
            if Variable(name) in targets then {Plain} else At(flow, name)
  {
    if targets != [] {
      var first, rest := Targets([targets[0]]), Targets(targets[1..]);
      FirstTarget(targets);
      WalkLineConcat(first, rest, flow, used);
      var (flow1, used1) := WalkLine(first, flow, used);
      OneTarget(targets[0], flow, used, name, 0);
      TargetsBind(targets[1..], flow1, used1, name);
      assert targets == [targets[0]] + targets[1..];
    }
  }

  lemma FirstTarget(targets: seq<Target>)
    requires targets != []
    ensures Targets(targets) == Targets([targets[0]]) + Targets(targets[1..])
  {
    assert [targets[0]][1..] == [];
  }

  lemma OneTarget(target: Target, flow: Flow, used: set<Record>, name: Name, record: Record)
    ensures var (flow1, used1) := WalkLine(Targets([target]), flow, used);
      && At(flow1, name) == (if target == Variable(name) then {Plain} else At(flow, name))
      && (record in used1 <==> record in used || (target.Place? && Reads(flow, target.loads, record)))
  {
    assert [target][1..] == [];
    match target
    case Variable(n) => assert Targets([target]) == [Bind(n, Plain)];
    case Place(loads) =>
      assert Targets([target]) == Loads(loads);
      LoadsMean(loads, flow, used, record);
  }

  lemma {:induction false} TargetsMark(targets: seq<Target>, flow: Flow, used: set<Record>, record: Record)
    ensures record in WalkLine(Targets(targets), flow, used).1 <==>
            record in used || TargetReads(flow, targets, record)
  {
    if targets != [] {
      var first, rest := Targets([targets[0]]), Targets(targets[1..]);
      FirstTarget(targets);
      WalkLineConcat(first, rest, flow, used);
      var (flow1, used1) := WalkLine(first, flow, used);
      OneTarget(targets[0], flow, used, "", record);
      TargetsMark(targets[1..], flow1, used1, record);
      forall name
        ensures At(flow1, name) == if targets[0] == Variable(name) then {Plain} else At(flow, name)
      {
        OneTarget(targets[0], flow, used, name, record);
      }
      TargetReadsSplit(targets, flow, flow1, record);
    }
  }

  lemma TargetReadsSplit(targets: seq<Target>, flow: Flow, flow1: Flow, record: Record)
    requires targets != []
    requires forall name :: At(flow1, name) == if targets[0] == Variable(name) then {Plain} else At(flow, name)
    ensures TargetReads(flow, targets, record) <==>
            (targets[0].Place? && Reads(flow, targets[0].loads, record)) || TargetReads(flow1, targets[1..], record)
  {
    hide At;
    var rest := targets[1..];
    if TargetReads(flow, targets, record) {
      var i, name :|
        && 0 <= i < |targets| && targets[i].Place? && name in targets[i].loads
        && Variable(name) !in targets[..i] && Imported(record) in At(flow, name);
      if i > 0 {
        assert rest[i - 1] == targets[i] && targets[..i] == [targets[0]] + rest[..i - 1];
        assert Imported(record) in At(flow1, name);
      }
    }
    if targets[0].Place? && Reads(flow, targets[0].loads, record) {
      var name :| name in targets[0].loads && Imported(record) in At(flow, name);
      assert Variable(name) !in targets[..0];
    }
    if TargetReads(flow1, rest, record) {
      var i, name :|
        && 0 <= i < |rest| && rest[i].Place? && name in rest[i].loads
        && Variable(name) !in rest[..i] && Imported(record) in At(flow1, name);
      assert targets[i + 1] == rest[i] && targets[..i + 1] == [targets[0]] + rest[..i];
    }
  }

  /**
   * An assignment loads its value before it binds anything: an import a loaded name may be bound to is used, whatever
   * the targets are. Then the targets are assigned from left to right.
   */
  lemma AssignMeans(loads: seq<Name>, targets: seq<Target>, flow: Flow, used: set<Record>, name: Name, record: Record)
    ensures var (flow1, used1) := WalkStmt(Assign(loads, targets), flow, used);
      && (record in used1 <==> record in used || Reads(flow, loads, record) || TargetReads(flow, targets, record))
      && At(flow1, name) == if Variable(name) in targets then {Plain} else At(flow, name)
  {
    WalkLineConcat(Loads(loads), Targets(targets), flow, used);
    LoadsMean(loads, flow, used, record);
    var used0 := WalkLine(Loads(loads), flow, used).1;
    TargetsMark(targets, flow, used0, record);
    TargetsBind(targets, flow, used0, name);
  }

  // What an augmented assignment reads of its target: the variable itself, or the names of its expression.
  function OwnNames(target: Target): seq<Name> {
    if target.Variable? then [target.name] else target.loads
  }

  /** An augmented assignment also reads its target, before it binds it. */
  lemma AugAssignMeans(target: Target, loads: seq<Name>, flow: Flow, used: set<Record>, name: Name, record: Record)
    ensures var (flow1, used1) := WalkStmt(AugAssign(target, loads), flow, used);
      && (record in used1 <==> record in used || Reads(flow, OwnNames(target), record) || Reads(flow, loads, record))
      && At(flow1, name) == if target == Variable(name) then {Plain} else At(flow, name)
  {
    var first, second, third := Loads(OwnNames(target)), Loads(loads), Targets([target]);
    WalkLineConcat(first, second, flow, used);
    WalkLineConcat(first + second, third, flow, used);
    LoadsMean(OwnNames(target), flow, used, record);
    var used0 := WalkLine(first, flow, used).1;
    LoadsMean(loads, flow, used0, record);
    OneTarget(target, flow, WalkLine(second, flow, used0).1, name, record);
  }

  lemma {:induction false} RemovalsMean(names: seq<Name>, flow: Flow, used: set<Record>, name: Name)
    ensures At(WalkLine(Removals(names), flow, used).0, name) == if name in names then {Removed} else At(flow, name)
    ensures WalkLine(Removals(names), flow, used).1 == used
  {
    if names != [] {
      assert Removals(names)[1..] == Removals(names[1..]);
      RemovalsMean(names[1..], flow[names[0] := Written(Removed)], used, name);
      assert names == [names[0]] + names[1..];
    }
  }

  lemma OneDeletion(target: Deletion, flow: Flow, used: set<Record>, name: Name, record: Record)
    ensures var (flow1, used1) := WalkLine(Loads(target.loads) + Removals(target.names), flow, used);
      && At(flow1, name) == (if name in target.names then {Removed} else At(flow, name))
      && (record in used1 <==> record in used || Reads(flow, target.loads, record))
  {
    WalkLineConcat(Loads(target.loads), Removals(target.names), flow, used);
    LoadsMean(target.loads, flow, used, record);
    RemovalsMean(target.names, flow, WalkLine(Loads(target.loads), flow, used).1, name);
  }

  lemma {:induction false} DeletionsMean(deletions: seq<Deletion>, flow: Flow, used: set<Record>, name: Name,
      record: Record)
    ensures var (flow1, used1) := WalkLine(Deletions(deletions), flow, used);
      && At(flow1, name) == (if Removes(deletions, name) then {Removed} else At(flow, name))
      && (record in used1 <==> record in used || DeletionReads(flow, deletions, record))
  {
    if deletions != [] {
      var first, rest := Loads(deletions[0].loads) + Removals(deletions[0].names), Deletions(deletions[1..]);
      assert Deletions(deletions) == first + rest;
      WalkLineConcat(first, rest, flow, used);
      var (flow1, used1) := WalkLine(first, flow, used);
      OneDeletion(deletions[0], flow, used, name, record);
      DeletionsMean(deletions[1..], flow1, used1, name, record);
      RemovesSplit(deletions, name);
      forall n
        ensures At(flow1, n) == if n in deletions[0].names then {Removed} else At(flow, n)
      {
        OneDeletion(deletions[0], flow, used, n, record);
      }
      DeletionReadsSplit(deletions, flow, flow1, record);
    }
  }

  lemma RemovesSplit(deletions: seq<Deletion>, name: Name)
    requires deletions != []
    ensures Removes(deletions, name) <==> name in deletions[0].names || Removes(deletions[1..], name)
  {
    if Removes(deletions, name) {
      var i :| 0 <= i < |deletions| && name in deletions[i].names;
      if i > 0 { assert deletions[1..][i - 1] == deletions[i]; }
    }
    if Removes(deletions[1..], name) {
      var i :| 0 <= i < |deletions[1..]| && name in deletions[1..][i].names;
      assert deletions[i + 1] == deletions[1..][i];
    }
  }

  lemma DeletionReadsSplit(deletions: seq<Deletion>, flow: Flow, flow1: Flow, record: Record)
    requires deletions != []
    requires forall name :: At(flow1, name) == if name in deletions[0].names then {Removed} else At(flow, name)
    ensures DeletionReads(flow, deletions, record) <==>
            Reads(flow, deletions[0].loads, record) || DeletionReads(flow1, deletions[1..], record)
  {
    hide At, Removes;
    var rest := deletions[1..];
    if DeletionReads(flow, deletions, record) {
      var i, name :|
        && 0 <= i < |deletions| && name in deletions[i].loads
        && !Removes(deletions[..i], name) && Imported(record) in At(flow, name);
      if i > 0 {
        assert rest[i - 1] == deletions[i] && deletions[..i][1..] == rest[..i - 1] && deletions[..i][0] == deletions[0];
        RemovesSplit(deletions[..i], name);
        assert Imported(record) in At(flow1, name);
      }
    }
    if Reads(flow, deletions[0].loads, record) {
      var name :| name in deletions[0].loads && Imported(record) in At(flow, name);
      RemovesNothing(name);
      assert deletions[..0] == [];
    }
    if DeletionReads(flow1, rest, record) {
      var i, name :|
        && 0 <= i < |rest| && name in rest[i].loads
        && !Removes(rest[..i], name) && Imported(record) in At(flow1, name);
      assert deletions[i + 1] == rest[i] && deletions[..i + 1][1..] == rest[..i];
      RemovesSplit(deletions[..i + 1], name);
    }
  }

  lemma RemovesNothing(name: Name)
    ensures !Removes([], name)
  {
  }

  /** Of each deleted target all names are loaded before any is removed; targets are deleted from left to right. */
  lemma DeleteMeans(deletions: seq<Deletion>, flow: Flow, used: set<Record>, name: Name, record: Record)
    ensures var (flow1, used1) := WalkStmt(Delete(deletions), flow, used);
      && (record in used1 <==> record in used || DeletionReads(flow, deletions, record))
      && At(flow1, name) == if Removes(deletions, name) then {Removed} else At(flow, name)
  {
    DeletionsMean(deletions, flow, used, name, record);
  }

  /** An import binds each name to the record of the last alias that has it, and uses nothing. */
  lemma {:induction false} ImportMeans(aliases: seq<Alias>, flow: Flow, used: set<Record>, name: Name, i: nat)
    ensures var (flow1, used1) := WalkStmt(Import(aliases), flow, used);
      && used1 == used
      && (IsLastAlias(aliases, name, i) ==> At(flow1, name) == {Imported(aliases[i].record)})
      && ((forall k | 0 <= k < |aliases| :: aliases[k].name != name) ==> At(flow1, name) == At(flow, name))
    decreases |aliases|
  {
    if aliases != [] {
      var rest, flow1 := aliases[1..], flow[aliases[0].name := Written(Imported(aliases[0].record))];
      assert forall k | 0 <= k < |rest| :: rest[k] == aliases[k + 1];
      ImportMeans(rest, flow1, used, name, if i > 0 then i - 1 else 0);
      if i > 0 && IsLastAlias(aliases, name, i) { assert IsLastAlias(rest, name, i - 1); }
    }
  }

  /** An expression uses what its names may be bound to, and binds nothing. */
  lemma EvaluateMeans(loads: seq<Name>, flow: Flow, used: set<Record>, record: Record)
    ensures var (flow1, used1) := WalkStmt(Evaluate(loads), flow, used);
      flow1 == flow && (record in used1 <==> record in used || Reads(flow, loads, record))
  {
    LoadsMean(loads, flow, used, record);
  }

  /** A branch reads its test; then a name may have what either arm gives it, and what either arm uses is used. */
  lemma IfMeans(test: seq<Name>, body: seq<Stmt>, orelse: seq<Stmt>, flow: Flow, used: set<Record>, name: Name,
      record: Record)
    requires Inhabited(flow)
    ensures var (flow1, used1) := WalkStmt(If(test, body, orelse), flow, used);
      && (record in used1 <==>
            || record in used || Reads(flow, test, record)
            || record in Walk(body, flow, {}).1 || record in Walk(orelse, flow, {}).1)
      && At(flow1, name) == At(Walk(body, flow, {}).0, name) + At(Walk(orelse, flow, {}).0, name)
  {
    LoadsMean(test, flow, used, record);
    var used0 := WalkLine(Loads(test), flow, used).1;
    var (left, used1) := Walk(body, flow, used0);
    UsedIsApart(body, flow, used0, record);
    UsedIsApart(orelse, flow, used1, record);
    MergedAt(left, Walk(orelse, flow, used1).0, name);
  }

  lemma MergedAt(left: Flow, right: Flow, name: Name)
    ensures At(MergeImportStates(left, right), name) == At(left, name) + At(right, name)
  {
  }

  // The marks so far have no part in the walk.
  lemma {:induction false} UsedIsApart(stmts: seq<Stmt>, flow: Flow, used: set<Record>, record: Record)
    requires Inhabited(flow)
    ensures Walk(stmts, flow, used).0 == Walk(stmts, flow, {}).0
    ensures record in Walk(stmts, flow, used).1 <==> record in used || record in Walk(stmts, flow, {}).1
  {
    FlowIsApart(stmts, flow, used, {});
    WalkKeeps(stmts, flow, used);
    if record in Walk(stmts, flow, used).1 && record !in used {
      var line, name, start := WalkUsed(stmts, flow, used, record);
      WalkMarks(stmts, flow, {}, line, name, start, record);
    }
    if record in Walk(stmts, flow, {}).1 {
      var line, name, start := WalkUsed(stmts, flow, {}, record);
      WalkMarks(stmts, flow, used, line, name, start, record);
    }
  }

  lemma {:induction false} LineFlowIsApart(line: seq<Step>, flow: Flow, a: set<Record>, b: set<Record>)
    ensures WalkLine(line, flow, a).0 == WalkLine(line, flow, b).0
  {
    if line != [] {
      match line[0]
      case Load(name) => LineFlowIsApart(line[1..], flow, a + Marked(At(flow, name)), b + Marked(At(flow, name)));
      case Bind(name, binding) => LineFlowIsApart(line[1..], flow[name := Written(binding)], a, b);
    }
  }

  lemma {:induction false} FlowIsApart(stmts: seq<Stmt>, flow: Flow, a: set<Record>, b: set<Record>)
    ensures Walk(stmts, flow, a).0 == Walk(stmts, flow, b).0
    decreases stmts
  {
    if stmts != [] {
      StmtFlowIsApart(stmts[0], flow, a, b);
      FlowIsApart(stmts[1..], WalkStmt(stmts[0], flow, a).0, WalkStmt(stmts[0], flow, a).1,
        WalkStmt(stmts[0], flow, b).1);
    }
  }

  lemma {:induction false} StmtFlowIsApart(stmt: Stmt, flow: Flow, a: set<Record>, b: set<Record>)
    ensures WalkStmt(stmt, flow, a).0 == WalkStmt(stmt, flow, b).0
    decreases stmt
  {
    match stmt
    case If(test, body, orelse) =>
      LoadsBindNothing(test, flow, a);
      LoadsBindNothing(test, flow, b);
      var a0, b0 := WalkLine(Loads(test), flow, a).1, WalkLine(Loads(test), flow, b).1;
      FlowIsApart(body, flow, a0, b0);
      FlowIsApart(orelse, flow, Walk(body, flow, a0).1, Walk(body, flow, b0).1);
    case _ => LineFlowIsApart(Straight(stmt), flow, a, b);
  }

  // ---- The imports of a program and which of them are used.

  // Every imported name, in source order.
  function Collected(stmts: seq<Stmt>): seq<Alias>
    decreases stmts
  {
    if stmts == [] then []
    else
      (match stmts[0]
       case Import(aliases) => aliases
       case If(_, body, orelse) => Collected(body) + Collected(orelse)
       case _ => []) + Collected(stmts[1..])
  }

  // Some import, at any depth, holds the alias.
  predicate Holds(stmts: seq<Stmt>, alias: Alias)
    decreases stmts
  {
    exists i :: 0 <= i < |stmts| && HoldsIn(stmts[i], alias)
  }

  predicate HoldsIn(stmt: Stmt, alias: Alias)
    decreases stmt
  {
    match stmt
    case Import(aliases) => alias in aliases
    case If(_, body, orelse) => Holds(body, alias) || Holds(orelse, alias)
    case _ => false
  }

  // `a` is written before `b`.
  predicate Before(stmts: seq<Stmt>, a: Alias, b: Alias)
    decreases stmts
  {
    || (exists i, j :: 0 <= i < j < |stmts| && HoldsIn(stmts[i], a) && HoldsIn(stmts[j], b))
    || (exists i :: 0 <= i < |stmts| && BeforeIn(stmts[i], a, b))
  }

  predicate BeforeIn(stmt: Stmt, a: Alias, b: Alias)
    decreases stmt
  {
    match stmt
    case Import(aliases) => exists i, j :: 0 <= i < j < |aliases| && aliases[i] == a && aliases[j] == b
    case If(_, body, orelse) =>
      (Holds(body, a) && Holds(orelse, b)) || Before(body, a, b) || Before(orelse, a, b)
    case _ => false
  }

  function CollectedIn(stmt: Stmt): seq<Alias> {
    match stmt
    case Import(aliases) => aliases
    case If(_, body, orelse) => Collected(body) + Collected(orelse)
    case _ => []
  }

  lemma HoldsSplit(stmts: seq<Stmt>, alias: Alias)
    requires stmts != []
    ensures Holds(stmts, alias) <==> HoldsIn(stmts[0], alias) || Holds(stmts[1..], alias)
  {
    hide HoldsIn;
    if Holds(stmts, alias) {
      var i :| 0 <= i < |stmts| && HoldsIn(stmts[i], alias);
      if i > 0 { assert stmts[1..][i - 1] == stmts[i]; }
    }
    if Holds(stmts[1..], alias) {
      var i :| 0 <= i < |stmts[1..]| && HoldsIn(stmts[1..][i], alias);
      assert stmts[i + 1] == stmts[1..][i];
    }
  }

  /** Exactly the aliases of the imports at any depth, in either arm of a branch, are collected. */
  lemma {:induction false} CollectedExactly(stmts: seq<Stmt>, alias: Alias)
    ensures alias in Collected(stmts) <==> Holds(stmts, alias)
    decreases stmts
  {
    if stmts != [] {
      HoldsSplit(stmts, alias);
      CollectedExactly(stmts[1..], alias);
      match stmts[0]
      case If(_, body, orelse) =>
        CollectedExactly(body, alias);
        CollectedExactly(orelse, alias);
      case _ =>
    }
  }

  /** They are collected in the order in which they are written. */
  lemma {:induction false} CollectedInOrder(stmts: seq<Stmt>, i: nat, j: nat)
    requires i < j < |Collected(stmts)|
    ensures Before(stmts, Collected(stmts)[i], Collected(stmts)[j])
    decreases stmts
  {
    var first, rest := CollectedIn(stmts[0]), Collected(stmts[1..]);
    var a, b := Collected(stmts)[i], Collected(stmts)[j];
    assert Collected(stmts) == first + rest;
    if |first| <= i {
      CollectedInOrder(stmts[1..], i - |first|, j - |first|);
      BeforeLater(stmts, a, b);
    } else if j < |first| {
      FirstInOrder(stmts[0], i, j);
    } else {
      assert a in first && b in rest;
      CollectedExactly(stmts[1..], b);
      FirstHolds(stmts[0], a);
      var k :| 0 <= k < |stmts[1..]| && HoldsIn(stmts[1..][k], b);
      assert HoldsIn(stmts[0], a) && HoldsIn(stmts[k + 1], b);
    }
  }

  lemma FirstHolds(stmt: Stmt, alias: Alias)
    requires alias in CollectedIn(stmt)
    ensures HoldsIn(stmt, alias)
  {
    match stmt
    case If(_, body, orelse) =>
      CollectedExactly(body, alias);
      CollectedExactly(orelse, alias);
    case _ =>
  }

  lemma {:induction false} FirstInOrder(stmt: Stmt, i: nat, j: nat)
    requires i < j < |CollectedIn(stmt)|
    ensures BeforeIn(stmt, CollectedIn(stmt)[i], CollectedIn(stmt)[j])
    decreases stmt
  {
    hide Before, Holds, HoldsIn, Collected;
    match stmt
    case If(_, body, orelse) =>
      var n := |Collected(body)|;
      if j < n {
        CollectedInOrder(body, i, j);
      } else if n <= i {
        CollectedInOrder(orelse, i - n, j - n);
      } else {
        CollectedExactly(body, Collected(body)[i]);
        CollectedExactly(orelse, Collected(orelse)[j - n]);
      }
    case _ =>
  }

  lemma BeforeLater(stmts: seq<Stmt>, a: Alias, b: Alias)
    requires stmts != [] && Before(stmts[1..], a, b)
    ensures Before(stmts, a, b)
  {
    hide HoldsIn, BeforeIn;
    var rest := stmts[1..];
    if i, j :| 0 <= i < j < |rest| && HoldsIn(rest[i], a) && HoldsIn(rest[j], b) {
      assert HoldsIn(stmts[i + 1], a) && HoldsIn(stmts[j + 1], b);
    } else {
      var i :| 0 <= i < |rest| && BeforeIn(rest[i], a, b);
      assert BeforeIn(stmts[i + 1], a, b);
    }
  }

  // The collector numbers its records in source order.
  predicate Numbered(program: seq<Stmt>) {
    var aliases := Collected(program);
    forall i | 0 <= i < |aliases| :: aliases[i].record == i
  }

  // Of the first `count` imports, those neither re-exported nor used on any path.
  ghost function Unused(program: seq<Stmt>, count: nat): seq<Name>
    requires count <= |Collected(program)|
    ensures |Unused(program, count)| <= count
  {
    if count == 0 then []
    else
      var last := Collected(program)[count - 1];
      Unused(program, count - 1) +
      (if last.reexported || UsedOnSomePath(program, count - 1) then [] else [last.name])
  }

  // The i-th import is neither imported `as` its own name nor used on any path.
  ghost predicate IsUnused(program: seq<Stmt>, i: nat)
    requires i < |Collected(program)|
  {
    !Collected(program)[i].reexported && !UsedOnSomePath(program, i)
  }

  ghost function UnusedUpTo(program: seq<Stmt>, count: nat): set<nat>
    requires count <= |Collected(program)|
  {
    set i: nat | i < count && IsUnused(program, i)
  }

  /** A name is listed exactly when an unused import has it, and there is one entry for each unused import. */
  lemma {:induction false} UnusedExactly(program: seq<Stmt>, count: nat, name: Name)
    requires count <= |Collected(program)|
    ensures name in Unused(program, count) <==>
      exists i: nat | i < count :: IsUnused(program, i) && Collected(program)[i].name == name
    ensures |Unused(program, count)| == |UnusedUpTo(program, count)|
    decreases count
  {
    hide Collected, UsedOnSomePath;
    if count == 0 {
      assert UnusedUpTo(program, 0) == {};
    } else {
      UnusedExactly(program, count - 1, name);
      var last := count - 1;
      assert UnusedUpTo(program, count) ==
        UnusedUpTo(program, last) + if IsUnused(program, last) then {last} else {};
    }
  }

  lemma {:induction false} WalkLineConcat(a: seq<Step>, b: seq<Step>, flow: Flow, used: set<Record>)
    ensures var (flow1, used1) := WalkLine(a, flow, used); WalkLine(a + b, flow, used) == WalkLine(b, flow1, used1)
  {
    if a == [] {
      assert a + b == b;
    } else {
      assert (a + b)[1..] == a[1..] + b;
      match a[0]
      case Load(name) => WalkLineConcat(a[1..], b, flow, used + Marked(At(flow, name)));
      case Bind(name, binding) => WalkLineConcat(a[1..], b, flow[name := Written(binding)], used);
    }
  }

  class Resolver {
    var state: Flow
    var used: set<Record>

    constructor ()
      ensures state == map[] && used == {}
    {
      state, used := map[], {};
    }

    method Load(name: Name)
      modifies this
      ensures (state, used) == WalkLine([Step.Load(name)], old(state), old(used))
    {
      var candidates := if name in state then Candidates(state[name]) - {Removed} else {};
      assert Marked(candidates) == Marked(At(state, name));
      used := used + Marked(candidates);
    }

    method Write(name: Name, value: Value)
      modifies this
      ensures state == old(state)[name := value] && used == old(used)
    {
      state := state[name := value];
    }

    method Expr(loads: seq<Name>)
      modifies this
      ensures (state, used) == WalkLine(Loads(loads), old(state), old(used))
    {
      for i := 0 to |loads|
        invariant WalkLine(Loads(loads[i..]), state, used) == WalkLine(Loads(loads), old(state), old(used))
      {
        assert loads[i..][1..] == loads[i + 1..];
        WalkLineConcat([Step.Load(loads[i])], Loads(loads[i + 1..]), state, used);
        Load(loads[i]);
      }
    }

    method WriteTargets(targets: seq<Target>)
      modifies this
      ensures (state, used) == WalkLine(Targets(targets), old(state), old(used))
    {
      for i := 0 to |targets|
        invariant WalkLine(Targets(targets[i..]), state, used) == WalkLine(Targets(targets), old(state), old(used))
      {
        assert targets[i..][1..] == targets[i + 1..];
        match targets[i]
        case Variable(name) =>
          WalkLineConcat([Bind(name, Plain)], Targets(targets[i + 1..]), state, used);
          Write(name, One(Plain));
        case Place(loads) =>
          WalkLineConcat(Loads(loads), Targets(targets[i + 1..]), state, used);
          Expr(loads);
      }
    }

    method Remove(names: seq<Name>)
      modifies this
      ensures (state, used) == WalkLine(Removals(names), old(state), old(used))
    {
      for i := 0 to |names|
        invariant WalkLine(Removals(names[i..]), state, used) == WalkLine(Removals(names), old(state), old(used))
      {
        assert names[i..][1..] == names[i + 1..];
        Write(names[i], One(Removed));
      }
    }

    // Everything a target loads is loaded before any of its names is removed.
    method DeleteTargets(targets: seq<Deletion>)
      modifies this
      ensures (state, used) == WalkLine(Deletions(targets), old(state), old(used))
    {
      for i := 0 to |targets|
        invariant WalkLine(Deletions(targets[i..]), state, used) ==
                  WalkLine(Deletions(targets), old(state), old(used))
      {
        assert targets[i..][1..] == targets[i + 1..];
        ghost var (loads, names, rest) :=
          (Loads(targets[i].loads), Removals(targets[i].names), Deletions(targets[i + 1..]));
        WalkLineConcat(loads, names, state, used);
        WalkLineConcat(loads + names, rest, state, used);
        Expr(targets[i].loads);
        Remove(targets[i].names);
      }
    }

    method WriteImports(aliases: seq<Alias>)
      modifies this
      ensures (state, used) == WalkLine(Imports(aliases), old(state), old(used))
    {
      for i := 0 to |aliases|
        invariant WalkLine(Imports(aliases[i..]), state, used) == WalkLine(Imports(aliases), old(state), old(used))
      {
        assert aliases[i..][1..] == aliases[i + 1..];
        Write(aliases[i].name, Many({Imported(aliases[i].record)}));
      }
    }

    method Augment(target: Target, loads: seq<Name>)
      modifies this
      ensures (state, used) == WalkLine(Straight(AugAssign(target, loads)), old(state), old(used))
    {
      ghost var (first, second, third) :=
        (Loads(if target.Variable? then [target.name] else target.loads), Loads(loads), Targets([target]));
      WalkLineConcat(first, second, state, used);
      WalkLineConcat(first + second, third, state, used);
      Expr(if target.Variable? then [target.name] else target.loads);
      Expr(loads);
      WriteTargets([target]);
    }

    method Statement(stmt: Stmt)
      modifies this
      ensures (state, used) == WalkStmt(stmt, old(state), old(used))
      decreases stmt
    {
      match stmt
      case Import(aliases) => WriteImports(aliases);
      case Assign(loads, targets) =>
        WalkLineConcat(Loads(loads), Targets(targets), state, used);
        Expr(loads);
        WriteTargets(targets);
      case AugAssign(target, loads) => Augment(target, loads);
      case Delete(targets) => DeleteTargets(targets);
      case Evaluate(loads) => Expr(loads);
      case If(test, body, orelse) =>
        Expr(test);
        var incoming := state;
        StatementList(body);
        var left := state;
        state := incoming;
        StatementList(orelse);
        state := MergeImportStates(left, state);
    }

    method StatementList(stmts: seq<Stmt>)
      modifies this
      ensures (state, used) == Walk(stmts, old(state), old(used))
      decreases stmts
    {
      for i := 0 to |stmts|
        invariant Walk(stmts[i..], state, used) == Walk(stmts, old(state), old(used))
      {
        assert stmts[i..][1..] == stmts[i + 1..];
        Statement(stmts[i]);
      }
    }

    // Importing a name `as` itself marks it used when it is collected.
    method MarkReexports(aliases: seq<Alias>)
      modifies this
      ensures state == old(state) && old(used) <= used
      ensures forall record :: record in used <==>
                record in old(used) ||
                exists i :: 0 <= i < |aliases| && aliases[i].reexported && aliases[i].record == record
    {
      for i := 0 to |aliases|
        invariant state == old(state)
        invariant forall record :: record in used <==>
                    record in old(used) ||
                    exists k :: 0 <= k < i && aliases[k].reexported && aliases[k].record == record
      {
        if aliases[i].reexported {
          used := used + {aliases[i].record};
        }
      }
    }
  }

  /** The import metric counts as unused exactly the imports neither re-exported nor used on any path. */
  method ImportMetric(program: seq<Stmt>) returns (total: nat, used: nat, unused: seq<Name>, ddc: real)
    requires Numbered(program)
    ensures total == |Collected(program)| && unused == Unused(program, total) && used == total - |unused|
    ensures ddc == if total == 0 then 1.0 else used as real / total as real
  {
    hide Collected, Walk, UsedOnSomePath;
    var aliases := Collected(program);
    var resolver := new Resolver();
    resolver.MarkReexports(aliases);
    ghost var reexported := resolver.used;
    resolver.StatementList(program);
    var marked := resolver.used;
    total, unused := |aliases|, [];
    for i := 0 to total
      invariant unused == Unused(program, i)
    {
      UsedExactly(program, reexported, i);
      assert aliases[i].record == i;
      assert i in reexported <==> aliases[i].reexported;
      if aliases[i].record !in marked {
        unused := unused + [aliases[i].name];
      }
    }
    used := total - |unused|;
    ddc := if total == 0 then 1.0 else used as real / total as real;
  }
}
