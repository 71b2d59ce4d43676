/** Path globs of architectural layers: the regular expression a glob is compiled to against the glob's meaning. */
module Glob {
  import opened Wrappers

  // ---- What a glob means.

  // The length of the run of stars a glob begins with.
  function StarRun(glob: string): (n: nat)
    ensures n <= |glob|
    ensures forall i | 0 <= i < n :: glob[i] == '*'
    ensures n < |glob| ==> glob[n] != '*'
  {
    if glob == "" || glob[0] != '*' then 0 else 1 + StarRun(glob[1..])
  }

  // One star is any characters but a slash, two stars or more any characters at all, a question mark one character
  // that is not a slash; every other character is itself.
  ghost predicate GlobMatches(glob: string, path: string)
    decreases |glob|
  {
    if glob == "" then path == ""
    else if glob[0] == '*' then
      var n := StarRun(glob);
      exists k :: 0 <= k <= |path| && (n >= 2 || '/' !in path[..k]) && GlobMatches(glob[n..], path[k..])
    else
      && path != ""
      && (if glob[0] == '?' then path[0] != '/' else path[0] == glob[0])
      && GlobMatches(glob[1..], path[1..])
  }

  // ---- Regular expressions: the text of the forms that are used, and what they accept.

  datatype Atom = Literal(c: char) | NotSlash | NotSlashes | Anything

  // The characters that are not themselves in a regular expression.
  predicate IsOperator(c: char) {
    || c == '.' || c == '*' || c == '+' || c == '?'
    || c == '(' || c == ')' || c == '[' || c == ']' || c == '{' || c == '}'
    || c == '|' || c == '^' || c == '$' || c == '\\'
  }

  // The atoms of a text that ends in the end-of-text anchor; None for any other text.
  function ParseAtoms(text: string): Option<seq<Atom>> {
    if text == "$" then Some([])
    else if |text| >= 2 && text[0] == '\\' then Prepend(Literal(text[1]), ParseAtoms(text[2..]))
    else if |text| >= 5 && text[..5] == "[^/]*" then Prepend(NotSlashes, ParseAtoms(text[5..]))
    else if |text| >= 4 && text[..4] == "[^/]" then Prepend(NotSlash, ParseAtoms(text[4..]))
    else if |text| >= 2 && text[..2] == ".*" then Prepend(Anything, ParseAtoms(text[2..]))
    else if text != "" && !IsOperator(text[0]) then Prepend(Literal(text[0]), ParseAtoms(text[1..]))
    else None
  }

  function Prepend(atom: Atom, rest: Option<seq<Atom>>): Option<seq<Atom>> {
    if rest.None? then None else Some([atom] + rest.value)
  }

  function Compile(text: string): Option<seq<Atom>> {
    if text != "" && text[0] == '^' then ParseAtoms(text[1..]) else None
  }

  // A dot is any character but a newline.
  predicate Accepts(atoms: seq<Atom>, path: string)
    decreases |atoms| + |path|
  {
    if atoms == [] then path == ""
    else match atoms[0]
      case Literal(c) => path != "" && path[0] == c && Accepts(atoms[1..], path[1..])
      case NotSlash => path != "" && path[0] != '/' && Accepts(atoms[1..], path[1..])
      case NotSlashes => Accepts(atoms[1..], path) || (path != "" && path[0] != '/' && Accepts(atoms, path[1..]))
      case Anything => Accepts(atoms[1..], path) || (path != "" && path[0] != '\n' && Accepts(atoms, path[1..]))
  }

  // ---- Compilation.

  // The characters that are written with a backslash before them.
  predicate IsMeta(c: char) {
    c in "\\.+*?()|[]{}^$"
  }

  function QuoteMeta(c: char): string {
    if IsMeta(c) then ['\\', c] else [c]
  }

  // What is written for a glob, between the anchors.
  function Emitted(glob: string): string {
    if glob == "" then ""
    else if glob[0] == '*' then
      if |glob| >= 2 && glob[1] == '*' then ".*" + Emitted(glob[2..]) else "[^/]*" + Emitted(glob[1..])
    else if glob[0] == '?' then "[^/]" + Emitted(glob[1..])
    else QuoteMeta(glob[0]) + Emitted(glob[1..])
  }

  function Atoms(glob: string): seq<Atom> {
    if glob == "" then []
    else if glob[0] == '*' then
      if |glob| >= 2 && glob[1] == '*' then [Anything] + Atoms(glob[2..]) else [NotSlashes] + Atoms(glob[1..])
    else if glob[0] == '?' then [NotSlash] + Atoms(glob[1..])
    else [Literal(glob[0])] + Atoms(glob[1..])
  }

  // No text that is written begins with a star, so none continues what is before it.
  lemma EmittedStart(glob: string)
    ensures Emitted(glob) + "$" != "" && (Emitted(glob) + "$")[0] != '*'
  {
  }

  lemma ParseAnything(rest: string)
    ensures ParseAtoms(".*" + rest) == Prepend(Anything, ParseAtoms(rest))
  {
    var text := ".*" + rest;
    assert text[..2] == ".*" && text[2..] == rest && text[0] == '.';
    assert |text| >= 5 ==> text[..5][0] == '.';
    assert |text| >= 4 ==> text[..4][0] == '.';
  }

  lemma ParseNotSlashes(rest: string)
    ensures ParseAtoms("[^/]*" + rest) == Prepend(NotSlashes, ParseAtoms(rest))
  {
    var text := "[^/]*" + rest;
    assert text[..5] == "[^/]*" && text[5..] == rest && text[0] == '[';
  }

  lemma ParseNotSlash(rest: string)
    requires rest != "" && rest[0] != '*'
    ensures ParseAtoms("[^/]" + rest) == Prepend(NotSlash, ParseAtoms(rest))
  {
    var text := "[^/]" + rest;
    assert text[..4] == "[^/]" && text[4..] == rest && text[0] == '[' && text[4] == rest[0];
    assert text[..5][4] == rest[0];
  }

  lemma ParseLiteral(c: char, rest: string)
    ensures ParseAtoms(QuoteMeta(c) + rest) == Prepend(Literal(c), ParseAtoms(rest))
  {
    var text := QuoteMeta(c) + rest;
    if IsMeta(c) {
      assert text[0] == '\\' && text[1] == c && text[2..] == rest;
    } else {
      assert text[0] == c && text[1..] == rest;
      assert !IsOperator(c);
      assert |text| >= 5 ==> text[..5][0] == c;
      assert |text| >= 4 ==> text[..4][0] == c;
      assert |text| >= 2 ==> text[..2][0] == c;
    }
  }

  // The text written for a glob parses back to its atoms.
  lemma {:induction false} ParseEmitted(glob: string)
    ensures ParseAtoms(Emitted(glob) + "$") == Some(Atoms(glob))
    decreases |glob|
  {
    hide ParseAtoms, QuoteMeta;
    if glob == "" {
      ParseEnd();
    } else if glob[0] == '*' && |glob| >= 2 && glob[1] == '*' {
      var rest := Emitted(glob[2..]) + "$";
      ParseEmitted(glob[2..]);
      ParseAnything(rest);
      assert Emitted(glob) + "$" == ".*" + rest;
    } else {
      var rest := Emitted(glob[1..]) + "$";
      ParseEmitted(glob[1..]);
      EmittedStart(glob[1..]);
      if glob[0] == '*' {
        ParseNotSlashes(rest);
        assert Emitted(glob) + "$" == "[^/]*" + rest;
      } else if glob[0] == '?' {
        ParseNotSlash(rest);
        assert Emitted(glob) + "$" == "[^/]" + rest;
      } else {
        ParseLiteral(glob[0], rest);
        assert Emitted(glob) + "$" == QuoteMeta(glob[0]) + rest;
      }
    }
  }

  lemma ParseEnd()
    ensures ParseAtoms("" + "$") == Some([])
  {
    assert "" + "$" == "$";
  }

  // ---- Compiled and meant.

  function Stars(n: nat): seq<Atom> {
    if n == 0 then [] else if n == 1 then [NotSlashes] else [Anything] + Stars(n - 2)
  }

  lemma {:induction false} AtomsOfRun(glob: string)
    ensures Atoms(glob) == Stars(StarRun(glob)) + Atoms(glob[StarRun(glob)..])
    decreases |glob|
  {
    hide StarRun;
    var n := StarRun(glob);
    if n >= 2 {
      TwoStars(glob);
      AtomsOfRun(glob[2..]);
      assert glob[2..][n - 2..] == glob[n..];
      assert [Anything] + (Stars(n - 2) + Atoms(glob[n..])) == Stars(n) + Atoms(glob[n..]);
    } else if n == 1 {
      assert glob[0] == '*' && (|glob| >= 2 ==> glob[1] != '*');
    } else {
      assert glob[0..] == glob;
    }
  }

  lemma TwoStars(glob: string)
    requires StarRun(glob) >= 2
    ensures StarRun(glob[2..]) == StarRun(glob) - 2 && glob[0] == '*' && glob[1] == '*'
  {
    assert glob[1..][1..] == glob[2..];
  }

  lemma {:induction false} AnythingAccepts(rest: seq<Atom>, path: string)
    requires '\n' !in path
    ensures Accepts([Anything] + rest, path) <==> exists k :: 0 <= k <= |path| && Accepts(rest, path[k..])
    decreases |path|
  {
    assert ([Anything] + rest)[1..] == rest;
    assert path[0..] == path;
    if path != "" {
      AnythingAccepts(rest, path[1..]);
      assert forall k | 0 <= k <= |path[1..]| :: path[1..][k..] == path[k + 1..];
      assert forall k | 1 <= k <= |path| :: path[k..] == path[1..][k - 1..];
    }
  }

  lemma {:induction false} NotSlashesAccepts(rest: seq<Atom>, path: string)
    ensures Accepts([NotSlashes] + rest, path) <==>
      exists k :: 0 <= k <= |path| && '/' !in path[..k] && Accepts(rest, path[k..])
    decreases |path|
  {
    var atoms := [NotSlashes] + rest;
    assert atoms[1..] == rest && path[0..] == path;
    if path != "" {
      NotSlashesAccepts(rest, path[1..]);
      if path[0] != '/' && Accepts(atoms, path[1..]) {
        var k :| 0 <= k <= |path[1..]| && '/' !in path[1..][..k] && Accepts(rest, path[1..][k..]);
        assert path[1..][k..] == path[k + 1..] && path[..k + 1] == [path[0]] + path[1..][..k];
      }
      if k :| 0 < k <= |path| && '/' !in path[..k] && Accepts(rest, path[k..]) {
        assert path[..k][0] == path[0];
        assert path[1..][k - 1..] == path[k..] && path[..k] == [path[0]] + path[1..][..k - 1];
      }
    }
  }

  // A run of stars takes any characters, or any without a slash when it is a single star.
  lemma {:induction false} StarsAccept(n: nat, rest: seq<Atom>, path: string)
    requires n >= 1 && '\n' !in path
    ensures Accepts(Stars(n) + rest, path) <==>
      exists k :: 0 <= k <= |path| && (n >= 2 || '/' !in path[..k]) && Accepts(rest, path[k..])
    decreases n
  {
    if n == 1 {
      NotSlashesAccepts(rest, path);
    } else {
      assert Stars(n) + rest == [Anything] + (Stars(n - 2) + rest);
      AnythingAccepts(Stars(n - 2) + rest, path);
      if n == 2 {
        assert Stars(0) + rest == rest;
      } else {
        forall j | 0 <= j <= |path|
          ensures Accepts(Stars(n - 2) + rest, path[j..]) ==>
            exists k :: 0 <= k <= |path| && Accepts(rest, path[k..])
          ensures Accepts(rest, path[j..]) ==> Accepts(Stars(n - 2) + rest, path[j..])
        {
          StarsAccept(n - 2, rest, path[j..]);
          forall k | 0 <= k <= |path[j..]|
            ensures path[j..][k..] == path[j + k..]
          {
          }
          assert path[j..][..0] == "" && path[j..][0..] == path[j..];
        }
      }
    }
  }

  /** On a path without a newline the compiled glob accepts exactly what the glob means. */
  lemma {:induction false} CompiledAsMeant(glob: string, path: string)
    requires '\n' !in path
    ensures Accepts(Atoms(glob), path) <==> GlobMatches(glob, path)
    decreases |glob|
  {
    if glob == "" {
    } else if glob[0] == '*' {
      var n := StarRun(glob);
      AtomsOfRun(glob);
      StarsAccept(n, Atoms(glob[n..]), path);
      forall k | 0 <= k <= |path|
        ensures Accepts(Atoms(glob[n..]), path[k..]) <==> GlobMatches(glob[n..], path[k..])
      {
        CompiledAsMeant(glob[n..], path[k..]);
      }
    } else if path != "" {
      CompiledAsMeant(glob[1..], path[1..]);
    }
  }

  // A newline in the path is out of reach of a double star.
  lemma {:induction false} AnythingNeedsNoNewline(path: string)
    ensures Accepts([Anything], path) <==> '\n' !in path
  {
    assert [Anything][1..] == [];
    if path != "" {
      AnythingNeedsNoNewline(path[1..]);
    }
  }

  ghost predicate AllGlobsAgree(path: string) {
    forall glob :: Accepts(Atoms(glob), path) <==> GlobMatches(glob, path)
  }

  /** Compiled globs and their meaning agree on a path exactly when the path has no newline. */
  lemma AgreeExactlyWithoutNewline(path: string)
    ensures AllGlobsAgree(path) <==> '\n' !in path
  {
    if '\n' !in path {
      forall glob
        ensures Accepts(Atoms(glob), path) <==> GlobMatches(glob, path)
      {
        CompiledAsMeant(glob, path);
      }
    } else {
      DoubleStar(path);
      AnythingNeedsNoNewline(path);
    }
  }

  lemma DoubleStar(path: string)
    ensures Atoms("**") == [Anything] && GlobMatches("**", path)
  {
    assert "**"[2..] == "" && "**"[1..] == "*" && "*"[1..] == "";
    assert StarRun("**") == 2;
    assert path[|path|..] == "" && GlobMatches("**"[2..], path[|path|..]);
  }

  /** Every glob compiles, and what it compiles to accepts a path without a newline exactly when the glob matches. */
  method GlobToRegexp(glob: string) returns (text: string)
    ensures Compile(text).Some?
    ensures forall path :: '\n' !in path ==> (Accepts(Compile(text).value, path) <==> GlobMatches(glob, path))
    ensures Compile(text).value == Atoms(glob)
  {
    hide ParseAtoms, Accepts, GlobMatches, Atoms, QuoteMeta;
    text := "^";
    var i := 0;
    while i < |glob|
      invariant 0 <= i <= |glob|
      invariant text + Emitted(glob[i..]) == "^" + Emitted(glob)
    {
      ghost var before, rest := text, glob[i..];
      if glob[i] == '*' {
        if i + 1 < |glob| && glob[i + 1] == '*' {
          text := text + ".*";
          assert rest[2..] == glob[i + 2..];
          i := i + 1;
        } else {
          text := text + "[^/]*";
          assert rest[1..] == glob[i + 1..];
        }
      } else if glob[i] == '?' {
        text := text + "[^/]";
        assert rest[1..] == glob[i + 1..];
      } else {
        text := text + QuoteMeta(glob[i]);
        assert rest[1..] == glob[i + 1..];
      }
      i := i + 1;
    }
    assert glob[i..] == "";
    text := text + "$";
    assert text == "^" + Emitted(glob) + "$";
    assert text[1..] == Emitted(glob) + "$";
    ParseEmitted(glob);
    forall path | '\n' !in path
      ensures Accepts(Atoms(glob), path) <==> GlobMatches(glob, path)
    {
      CompiledAsMeant(glob, path);
    }
  }

  // ---- Layers.

  function Normalized(path: string): (r: string)
    ensures |r| == |path|
    ensures forall i | 0 <= i < |path| :: r[i] == if path[i] == '\\' then '/' else path[i]
  {
    if path == "" then "" else [if path[0] == '\\' then '/' else path[0]] + Normalized(path[1..])
  }

  datatype LayerRule = LayerRule(name: string, paths: seq<string>, forbiddenPatterns: seq<string>)

  predicate AllCompile(compiles: string -> bool, patterns: seq<string>) {
    forall i | 0 <= i < |patterns| :: compiles(patterns[i])
  }

  // A layer needs a name, a path glob and a forbidden pattern; every forbidden pattern must compile.
  method CompileLayerRule(rule: LayerRule, compiles: string -> bool) returns (r: Result<seq<string>>)
    ensures r.Ok? <==>
      && rule.name != "" && rule.paths != [] && rule.forbiddenPatterns != []
      && AllCompile(compiles, rule.forbiddenPatterns)
    ensures r.Ok? ==> |r.value| == |rule.paths|
    ensures r.Ok? ==> forall i | 0 <= i < |r.value| :: Compile(r.value[i]) == Some(Atoms(rule.paths[i]))
  {
    if rule.name == "" || rule.paths == [] || rule.forbiddenPatterns == [] {
      return Err;
    }
    var patterns := [];
    for i := 0 to |rule.paths|
      invariant |patterns| == i
      invariant forall k | 0 <= k < i :: Compile(patterns[k]) == Some(Atoms(rule.paths[k]))
    {
      var pattern := GlobToRegexp(rule.paths[i]);
      patterns := patterns + [pattern];
    }
    for i := 0 to |rule.forbiddenPatterns|
      invariant forall k | 0 <= k < i :: compiles(rule.forbiddenPatterns[k])
    {
      if !compiles(rule.forbiddenPatterns[i]) {
        return Err;
      }
    }
    r := Ok(patterns);
  }

  /** A path without a newline is in a layer exactly when one of its globs matches the path with slashes. */
  method MatchesPath(rule: LayerRule, patterns: seq<string>, path: string) returns (r: bool)
    requires |patterns| == |rule.paths|
    requires forall i | 0 <= i < |patterns| :: Compile(patterns[i]) == Some(Atoms(rule.paths[i]))
    ensures r <==> exists glob :: glob in rule.paths && Accepts(Atoms(glob), Normalized(path))
    ensures '\n' !in path ==> (r <==> exists glob :: glob in rule.paths && GlobMatches(glob, Normalized(path)))
  {
    var normalized := Normalized(path);
    for i := 0 to |patterns|
      invariant forall k | 0 <= k < i :: !Accepts(Atoms(rule.paths[k]), normalized)
      invariant '\n' !in path ==> forall k | 0 <= k < i :: !GlobMatches(rule.paths[k], normalized)
    {
      var accepted := Accepts(Compile(patterns[i]).value, normalized);
      if '\n' !in path {
        assert '\n' !in normalized;
        CompiledAsMeant(rule.paths[i], normalized);
      }
      if accepted {
        assert rule.paths[i] in rule.paths;
        return true;
      }
    }
    r := false;
  }

  // A glob written with a backslash matches no path, since paths are matched with slashes.
  lemma {:induction false} BackslashMatchesNothing(glob: string, path: string)
    requires '\\' in glob && '\\' !in path
    ensures !GlobMatches(glob, path)
    decreases |glob|
  {
    if glob[0] == '*' {
      var n := StarRun(glob);
      assert glob == glob[..n] + glob[n..];
      assert '\\' in glob[n..];
      forall k | 0 <= k <= |path|
        ensures !GlobMatches(glob[n..], path[k..])
      {
        BackslashMatchesNothing(glob[n..], path[k..]);
      }
    } else if path != "" && path[0] != '\\' && glob[0] != '\\' {
      BackslashMatchesNothing(glob[1..], path[1..]);
    }
  }
}
