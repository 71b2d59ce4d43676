/** Applying the chunks of an update hunk: locating the old lines, and splicing in the new ones. */
module PatchSplice {
  import opened Wrappers
  import opened PatchText

  // The change of one place in a file: a context line to look for first, the old lines, the new lines, and whether
  // the old lines are the end of the file.
  datatype Chunk = Chunk(context: Option<string>, oldLines: seq<string>, newLines: seq<string>, eof: bool)

  // The lines from `start` on, `length` of them, become `lines`.
  datatype Replacement = Replacement(start: nat, length: nat, lines: seq<string>) {
    function End(): nat { start + length }
  }

  // ---- Looking for lines.

  // How lines are compared, from strict to loose.
  datatype Normalizer = Exact | TrimEnd | Trim | Punctuation

  const NORMALIZERS: seq<Normalizer> := [Exact, TrimEnd, Trim, Punctuation]

  // Typographic punctuation as plain ASCII.
  function Plain(c: char): char {
    if c in "\U{2010}\U{2011}\U{2012}\U{2013}\U{2014}\U{2015}\U{2212}" then '-'
    else if c in "\U{2018}\U{2019}\U{201a}\U{201b}" then '\''
    else if c in "\U{201c}\U{201d}\U{201e}\U{201f}" then '\"'
    else if '\U{2002}' <= c <= '\U{200a}' || c in "\U{a0}\U{202f}\U{205f}\U{3000}" then ' '
    else c
  }

  function Translated(text: string): string {
    seq(|text|, i requires 0 <= i < |text| => Plain(text[i]))
  }

  function Normalized(normalizer: Normalizer, text: string): string {
    match normalizer
    case Exact => text
    case TrimEnd => Rstrip(text)
    case Trim => Strip(text)
    case Punctuation => Translated(Strip(text))
  }

  predicate MatchesAt(lines: seq<string>, pattern: seq<string>, at: nat, normalizer: Normalizer) {
    && at + |pattern| <= |lines|
    && forall k | 0 <= k < |pattern| :: Normalized(normalizer, lines[at + k]) == Normalized(normalizer, pattern[k])
  }

  // The first place from `first` on where the pattern matches.
  function Scan(lines: seq<string>, pattern: seq<string>, first: nat, normalizer: Normalizer): (r: Option<nat>)
    ensures r.Some? ==> first <= r.value && r.value + |pattern| <= |lines|
    decreases |lines| + 1 - first
  {
    if first + |pattern| > |lines| then None
    else if MatchesAt(lines, pattern, first, normalizer) then Some(first)
    else Scan(lines, pattern, first + 1, normalizer)
  }

  /** What a scan finds is the first match, and it finds one exactly when there is one. */
  lemma {:induction false} ScanFinds(lines: seq<string>, pattern: seq<string>, first: nat, normalizer: Normalizer)
    ensures match Scan(lines, pattern, first, normalizer)
            case None => forall i: nat | first <= i :: !MatchesAt(lines, pattern, i, normalizer)
            case Some(at) =>
              && first <= at && MatchesAt(lines, pattern, at, normalizer)
              && forall i: nat | first <= i < at :: !MatchesAt(lines, pattern, i, normalizer)
    decreases |lines| + 1 - first
  {
    hide MatchesAt;
    if first + |pattern| > |lines| {
      forall i: nat | first <= i
        ensures !MatchesAt(lines, pattern, i, normalizer)
      {
        if MatchesAt(lines, pattern, i, normalizer) { MatchFits(lines, pattern, i, normalizer); }
      }
    } else if !MatchesAt(lines, pattern, first, normalizer) {
      ScanFinds(lines, pattern, first + 1, normalizer);
    }
  }

  lemma MatchFits(lines: seq<string>, pattern: seq<string>, at: nat, normalizer: Normalizer)
    requires MatchesAt(lines, pattern, at, normalizer)
    ensures at + |pattern| <= |lines|
  {
  }

  // The first place under the strictest comparison that finds one.
  function SeekWith(lines: seq<string>, pattern: seq<string>, first: nat,
      normalizers: seq<Normalizer>): (r: Option<nat>)
    ensures r.Some? ==> first <= r.value && r.value + |pattern| <= |lines|
    ensures r.Some? ==> exists n | 0 <= n < |normalizers| ::
              && Scan(lines, pattern, first, normalizers[n]) == r
              && (forall m | 0 <= m < n :: Scan(lines, pattern, first, normalizers[m]).None?)
    ensures r.None? ==> forall n | 0 <= n < |normalizers| :: Scan(lines, pattern, first, normalizers[n]).None?
  {
    if normalizers == [] then None
    else
      var found := Scan(lines, pattern, first, normalizers[0]);
      if found.Some? then found else SeekWith(lines, pattern, first, normalizers[1..])
  }

  function Seek(lines: seq<string>, pattern: seq<string>, start: nat, eof: bool): (r: Option<nat>)
    ensures r.Some? && pattern != [] ==> r.value + |pattern| <= |lines|
    ensures r.Some? && !eof ==> start <= r.value
    ensures pattern == [] ==> r == Some(start)
  {
    if pattern == [] then Some(start)
    else if |pattern| > |lines| then None
    else SeekWith(lines, pattern, if eof then |lines| - |pattern| else start, NORMALIZERS)
  }

  // ---- Where the chunks go.

  function InsertionIndex(lines: seq<string>): nat {
    if lines != [] && lines[|lines| - 1] == "" then |lines| - 1 else |lines|
  }

  function SeekContext(lines: seq<string>, chunk: Chunk, index: nat): Option<nat> {
    if chunk.context.None? then Some(index)
    else
      var found := Seek(lines, [chunk.context.value], index, false);
      if found.None? then None else Some(found.value + 1)
  }

  // The old lines, or all but a last blank one.
  function Locate(lines: seq<string>, chunk: Chunk, index: nat): Option<Replacement>
    requires chunk.oldLines != []
  {
    var pattern := chunk.oldLines;
    var found := Seek(lines, pattern, index, chunk.eof);
    if found.Some? then Some(Replacement(found.value, |pattern|, chunk.newLines))
    else if pattern[|pattern| - 1] == "" then
      var shorter := pattern[..|pattern| - 1];
      var trimmed :=
        if chunk.newLines != [] && chunk.newLines[|chunk.newLines| - 1] == ""
        then chunk.newLines[..|chunk.newLines| - 1]
        else chunk.newLines;
      var again := Seek(lines, shorter, index, chunk.eof);
      if again.None? then None else Some(Replacement(again.value, |shorter|, trimmed))
    else None
  }

  // Where one chunk goes and where the search for the next one starts.
  function Place(lines: seq<string>, chunk: Chunk, index: nat): Option<(Replacement, nat)> {
    match SeekContext(lines, chunk, index)
    case None => None
    case Some(from) =>
      if chunk.oldLines == [] then Some((Replacement(InsertionIndex(lines), 0, chunk.newLines), from))
      else match Locate(lines, chunk, from)
        case None => None
        case Some(replacement) => Some((replacement, replacement.End()))
  }

  function Places(lines: seq<string>, chunks: seq<Chunk>, index: nat): Option<seq<Replacement>> {
    if chunks == [] then Some([])
    else match Place(lines, chunks[0], index)
      case None => None
      case Some((replacement, next)) => After([replacement], Places(lines, chunks[1..], next))
  }

  function After(first: seq<Replacement>, rest: Option<seq<Replacement>>): Option<seq<Replacement>> {
    if rest.None? then None else Some(first + rest.value)
  }

  lemma AfterAfter(first: seq<Replacement>, second: seq<Replacement>, rest: Option<seq<Replacement>>)
    ensures After(first + second, rest) == After(first, After(second, rest))
  {
    if rest.Some? {
      assert first + second + rest.value == first + (second + rest.value);
    }
  }

  /** The loop over the chunks finds every place, or fails when one chunk has none. */
  method Replacements(lines: seq<string>, chunks: seq<Chunk>) returns (r: Option<seq<Replacement>>)
    ensures r == Places(lines, chunks, 0)
  {
    hide Locate, SeekContext, InsertionIndex;
    var index := 0;
    var result := [];
    assert chunks[0..] == chunks;
    AfterNothing(Places(lines, chunks, 0));
    for i := 0 to |chunks|
      invariant After(result, Places(lines, chunks[i..], index)) == Places(lines, chunks, 0)
    {
      var chunk := chunks[i];
      assert chunks[i..][1..] == chunks[i + 1..];
      var from := SeekContext(lines, chunk, index);
      if from.None? {
        return None;
      }
      index := from.value;
      if chunk.oldLines == [] {
        AfterAfter(result, [Replacement(InsertionIndex(lines), 0, chunk.newLines)],
            Places(lines, chunks[i + 1..], index));
        result := result + [Replacement(InsertionIndex(lines), 0, chunk.newLines)];
      } else {
        var located := Locate(lines, chunk, index);
        if located.None? {
          return None;
        }
        AfterAfter(result, [located.value], Places(lines, chunks[i + 1..], located.value.End()));
        result := result + [located.value];
        index := located.value.End();
      }
    }
    assert chunks[|chunks|..] == [];
    assert result + [] == result;
    r := Some(result);
  }

  lemma AfterNothing(rest: Option<seq<Replacement>>)
    ensures After([], rest) == rest
  {
    if rest.Some? {
      assert [] + rest.value == rest.value;
    }
  }

  // ---- The right places, from the lines alone.

  // How loose a comparison is.
  function Looseness(normalizer: Normalizer): nat {
    match normalizer
    case Exact => 0
    case TrimEnd => 1
    case Trim => 2
    case Punctuation => 3
  }

  // The pattern matches somewhere from `from` on, under some comparison.
  ghost predicate HasMatch(lines: seq<string>, pattern: seq<string>, from: nat) {
    exists i: nat, n :: from <= i && MatchesAt(lines, pattern, i, n)
  }

  // `at` is the first match from `from` on under the comparison `n`, and no stricter one matches anywhere from there.
  ghost predicate IsFirstUnder(lines: seq<string>, pattern: seq<string>, from: nat, at: nat, n: Normalizer) {
    && from <= at && MatchesAt(lines, pattern, at, n)
    && (forall i: nat | from <= i < at :: !MatchesAt(lines, pattern, i, n))
    && (forall i: nat, m | from <= i && Looseness(m) < Looseness(n) :: !MatchesAt(lines, pattern, i, m))
  }

  ghost predicate IsFirstMatch(lines: seq<string>, pattern: seq<string>, from: nat, at: nat) {
    exists n :: IsFirstUnder(lines, pattern, from, at, n)
  }

  // The pattern is the end of the file, under some comparison.
  ghost predicate IsEnd(lines: seq<string>, pattern: seq<string>, at: nat) {
    at + |pattern| == |lines| && exists n :: MatchesAt(lines, pattern, at, n)
  }

  lemma FirstMatchIsUnique(lines: seq<string>, pattern: seq<string>, from: nat, a: nat, b: nat)
    requires IsFirstMatch(lines, pattern, from, a) && IsFirstMatch(lines, pattern, from, b)
    ensures a == b
  {
    hide MatchesAt;
    var n :| IsFirstUnder(lines, pattern, from, a, n);
    var m :| IsFirstUnder(lines, pattern, from, b, m);
    assert n == m;
  }

  lemma SeekWithMeans(lines: seq<string>, pattern: seq<string>, first: nat)
    ensures match SeekWith(lines, pattern, first, NORMALIZERS)
            case Some(at) => IsFirstMatch(lines, pattern, first, at)
            case None => !HasMatch(lines, pattern, first)
  {
    hide MatchesAt, Scan;
    forall n
      ensures match Scan(lines, pattern, first, n)
              case None => forall i: nat | first <= i :: !MatchesAt(lines, pattern, i, n)
              case Some(at) =>
                && first <= at && MatchesAt(lines, pattern, at, n)
                && forall i: nat | first <= i < at :: !MatchesAt(lines, pattern, i, n)
    {
      ScanFinds(lines, pattern, first, n);
    }
    assert forall n :: Looseness(n) < |NORMALIZERS| && NORMALIZERS[Looseness(n)] == n;
    var r := SeekWith(lines, pattern, first, NORMALIZERS);
    if r.Some? {
      var k :| && 0 <= k < |NORMALIZERS| && Scan(lines, pattern, first, NORMALIZERS[k]) == r
               && (forall m | 0 <= m < k :: Scan(lines, pattern, first, NORMALIZERS[m]).None?);
      forall m | Looseness(m) < Looseness(NORMALIZERS[k])
        ensures Scan(lines, pattern, first, m).None?
      {
        assert NORMALIZERS[Looseness(m)] == m && Looseness(NORMALIZERS[k]) == k;
      }
      assert IsFirstUnder(lines, pattern, first, r.value, NORMALIZERS[k]);
    } else {
      forall i: nat, n: Normalizer | first <= i
        ensures !MatchesAt(lines, pattern, i, n)
      {
        assert Scan(lines, pattern, first, NORMALIZERS[Looseness(n)]).None?;
      }
    }
  }

  /**
   * What is sought is found at the first match under the strictest comparison that matches at all; at the end of the
   * file only the end is looked at.
   */
  lemma SeekMeans(lines: seq<string>, pattern: seq<string>, start: nat, at: nat)
    requires pattern != []
    ensures Seek(lines, pattern, start, false) == Some(at) <==> IsFirstMatch(lines, pattern, start, at)
    ensures Seek(lines, pattern, start, false) == None <==> !HasMatch(lines, pattern, start)
    ensures Seek(lines, pattern, start, true) == Some(at) <==> IsEnd(lines, pattern, at)
    ensures Seek(lines, pattern, start, true) == None <==> forall i: nat :: !IsEnd(lines, pattern, i)
  {
    hide MatchesAt, SeekWith;
    forall i: nat, n | MatchesAt(lines, pattern, i, n)
      ensures i + |pattern| <= |lines|
    {
      MatchFits(lines, pattern, i, n);
    }
    if |pattern| <= |lines| {
      var end := |lines| - |pattern|;
      SeekWithMeans(lines, pattern, start);
      SeekWithMeans(lines, pattern, end);
      FirstIsAMatch(lines, pattern, start);
      FirstIsAMatch(lines, pattern, end);
      var r := SeekWith(lines, pattern, start, NORMALIZERS);
      if r.Some? && IsFirstMatch(lines, pattern, start, at) {
        FirstMatchIsUnique(lines, pattern, start, at, r.value);
      }
      var last := SeekWith(lines, pattern, end, NORMALIZERS);
      if last.Some? { assert IsEnd(lines, pattern, last.value); }
    } else {
      FirstIsAMatch(lines, pattern, start);
    }
  }

  lemma FirstIsAMatch(lines: seq<string>, pattern: seq<string>, from: nat)
    ensures forall at: nat | IsFirstMatch(lines, pattern, from, at) ::
      from <= at && HasMatch(lines, pattern, from) && exists n :: MatchesAt(lines, pattern, at, n)
  {
    hide MatchesAt;
  }

  // The search for the old lines starts at `from`: right after the context line, which is the first match from `index`
  // on, or at `index` when there is none.
  ghost predicate StartsAt(lines: seq<string>, chunk: Chunk, index: nat, from: nat) {
    match chunk.context
    case None => from == index
    case Some(context) => from >= 1 && IsFirstMatch(lines, [context], index, from - 1)
  }

  // `pattern` is where the chunk says: first from `from` on, or at the end of the file.
  ghost predicate IsFound(lines: seq<string>, pattern: seq<string>, eof: bool, from: nat, at: nat) {
    if pattern == [] then at == from
    else if eof then IsEnd(lines, pattern, at)
    else IsFirstMatch(lines, pattern, from, at)
  }

  ghost predicate CanBeFound(lines: seq<string>, pattern: seq<string>, eof: bool, from: nat) {
    exists at: nat :: IsFound(lines, pattern, eof, from, at)
  }

  function WithoutLastBlank(lines: seq<string>): seq<string> {
    if lines != [] && lines[|lines| - 1] == "" then lines[..|lines| - 1] else lines
  }

  /**
   * Where a chunk goes. Without old lines it is inserted at the end of the file, before a blank last line. Otherwise it
   * replaces its old lines; or, if they are nowhere and end in a blank line, its old lines without that line, by its
   * new lines without a blank last one.
   */
  ghost predicate Goes(lines: seq<string>, chunk: Chunk, from: nat, r: Replacement) {
    var old_, new_ := chunk.oldLines, chunk.newLines;
    if old_ == [] then
      && r.length == 0 && r.lines == new_
      && r.start == |WithoutLastBlank(lines)|
    else if CanBeFound(lines, old_, chunk.eof, from) then
      IsFound(lines, old_, chunk.eof, from, r.start) && r.length == |old_| && r.lines == new_
    else
      && old_[|old_| - 1] == ""
      && IsFound(lines, WithoutLastBlank(old_), chunk.eof, from, r.start)
      && r.length == |old_| - 1 && r.lines == WithoutLastBlank(new_)
  }

  lemma StartMeans(lines: seq<string>, chunk: Chunk, index: nat, from: nat)
    ensures SeekContext(lines, chunk, index) == Some(from) <==> StartsAt(lines, chunk, index, from)
  {
    hide Seek, IsFirstMatch;
    if chunk.context.Some? && from >= 1 { SeekMeans(lines, [chunk.context.value], index, from - 1); }
  }

  lemma FoundMeans(lines: seq<string>, pattern: seq<string>, eof: bool, from: nat, at: nat)
    ensures Seek(lines, pattern, from, eof) == Some(at) <==> IsFound(lines, pattern, eof, from, at)
  {
    hide IsFirstMatch, IsEnd, SeekWith;
    if pattern != [] { SeekMeans(lines, pattern, from, at); }
  }

  lemma CanBeFoundMeans(lines: seq<string>, pattern: seq<string>, eof: bool, from: nat)
    ensures Seek(lines, pattern, from, eof).Some? <==> CanBeFound(lines, pattern, eof, from)
  {
    hide Seek, IsFound;
    if Seek(lines, pattern, from, eof).Some? {
      FoundMeans(lines, pattern, eof, from, Seek(lines, pattern, from, eof).value);
    }
    if CanBeFound(lines, pattern, eof, from) {
      var at: nat :| IsFound(lines, pattern, eof, from, at);
      FoundMeans(lines, pattern, eof, from, at);
    }
  }

  lemma LocateMeans(lines: seq<string>, chunk: Chunk, from: nat, r: Replacement)
    requires chunk.oldLines != []
    ensures Locate(lines, chunk, from) == Some(r) <==> Goes(lines, chunk, from, r)
  {
    hide Seek, IsFound, CanBeFound;
    var old_ := chunk.oldLines;
    CanBeFoundMeans(lines, old_, chunk.eof, from);
    FoundMeans(lines, old_, chunk.eof, from, r.start);
    FoundMeans(lines, WithoutLastBlank(old_), chunk.eof, from, r.start);
  }

  /** A chunk has a place exactly where it goes, and the search for the next one starts where this one ends. */
  lemma PlaceExactly(lines: seq<string>, chunk: Chunk, index: nat, r: Replacement, next: nat)
    ensures Place(lines, chunk, index) == Some((r, next)) <==>
      exists from: nat ::
        && StartsAt(lines, chunk, index, from) && Goes(lines, chunk, from, r)
        && next == if chunk.oldLines == [] then from else r.End()
  {
    hide SeekContext, Locate, StartsAt, Goes;
    forall from: nat
      ensures SeekContext(lines, chunk, index) == Some(from) <==> StartsAt(lines, chunk, index, from)
      ensures if chunk.oldLines == [] then
                Goes(lines, chunk, from, r) <==> r == Replacement(InsertionIndex(lines), 0, chunk.newLines)
              else Locate(lines, chunk, from) == Some(r) <==> Goes(lines, chunk, from, r)
    {
      StartMeans(lines, chunk, index, from);
      if chunk.oldLines == [] { InsertionMeans(lines, chunk, from, r); } else { LocateMeans(lines, chunk, from, r); }
    }
  }

  lemma InsertionMeans(lines: seq<string>, chunk: Chunk, from: nat, r: Replacement)
    requires chunk.oldLines == []
    ensures Goes(lines, chunk, from, r) <==> r == Replacement(InsertionIndex(lines), 0, chunk.newLines)
  {
  }

  // The chunks go to `places` one after another, each searched for from where the one before it ended.
  ghost predicate AllGo(lines: seq<string>, chunks: seq<Chunk>, index: nat, places: seq<Replacement>)
    decreases |chunks|
  {
    if chunks == [] then places == []
    else
      && places != []
      && exists from: nat ::
           && StartsAt(lines, chunks[0], index, from) && Goes(lines, chunks[0], from, places[0])
           && AllGo(lines, chunks[1..], if chunks[0].oldLines == [] then from else places[0].End(), places[1..])
  }

  /** The places found for a list of chunks are exactly those where they go; it fails when one goes nowhere. */
  lemma {:induction false} PlacesExactly(lines: seq<string>, chunks: seq<Chunk>, index: nat, places: seq<Replacement>)
    ensures Places(lines, chunks, index) == Some(places) <==> AllGo(lines, chunks, index, places)
    decreases |chunks|
  {
    hide Place, StartsAt, Goes;
    if chunks != [] {
      if Places(lines, chunks, index) == Some(places) {
        var (r, next) := Place(lines, chunks[0], index).value;
        PlaceExactly(lines, chunks[0], index, r, next);
        assert places[0] == r && places[1..] == Places(lines, chunks[1..], next).value;
        PlacesExactly(lines, chunks[1..], next, places[1..]);
      }
      if AllGo(lines, chunks, index, places) {
        var from: nat :|
          && StartsAt(lines, chunks[0], index, from) && Goes(lines, chunks[0], from, places[0])
          && AllGo(lines, chunks[1..], if chunks[0].oldLines == [] then from else places[0].End(), places[1..]);
        var next := if chunks[0].oldLines == [] then from else places[0].End();
        PlaceExactly(lines, chunks[0], index, places[0], next);
        PlacesExactly(lines, chunks[1..], next, places[1..]);
        assert places == [places[0]] + places[1..];
      }
    }
  }

  // ---- What the comparisons disregard.

  // `text` is `core` with spaces after it.
  predicate EndsInSpaces(text: string, core: string) {
    core <= text && forall i | |core| <= i < |text| :: IsSpace(text[i])
  }

  // `text` is `core` with spaces before and after it.
  ghost predicate IsSpaced(text: string, core: string) {
    exists k :: 0 <= k <= |text| && (forall i | 0 <= i < k :: IsSpace(text[i])) && EndsInSpaces(text[k..], core)
  }

  lemma {:induction false} RstripOf(text: string, core: string)
    requires EndsInSpaces(text, core)
    ensures Rstrip(text) == Rstrip(core)
    decreases |text|
  {
    if |text| > |core| {
      RstripOf(text[..|text| - 1], core);
    } else {
      assert text == core;
    }
  }

  lemma {:induction false} StripOf(text: string, k: nat)
    requires k <= |text| && forall i | 0 <= i < k :: IsSpace(text[i])
    ensures Strip(text) == Strip(text[k..])
    decreases k
  {
    if k == 0 {
      assert text[0..] == text;
    } else {
      StripOne(text);
      StripOf(text[1..], k - 1);
      assert text[1..][k - 1..] == text[k..];
    }
  }

  lemma StripOne(text: string)
    requires text != "" && IsSpace(text[0])
    ensures Strip(text) == Strip(text[1..])
  {
    RstripTail(text);
    if Rstrip(text) != "" {
      assert Rstrip(text)[0] == text[0];
    }
  }

  lemma {:induction false} RstripTail(text: string)
    requires text != ""
    ensures Rstrip(text[1..]) == if Rstrip(text) == "" then "" else Rstrip(text)[1..]
    decreases |text|
  {
    if |text| == 1 {
      assert text[1..] == "" && text[..0] == "";
    } else if IsSpace(text[|text| - 1]) {
      RstripTail(text[..|text| - 1]);
      assert text[..|text| - 1][1..] == text[1..][..|text| - 2];
    }
  }

  lemma StripIsCore(text: string)
    ensures IsSpaced(text, Strip(text))
  {
    var r := Rstrip(text);
    var k := |r| - |Strip(text)|;
    LstripSpaces(r);
    assert text[k..][..|Strip(text)|] == Strip(text);
  }

  lemma {:induction false} LstripSpaces(text: string)
    ensures forall i | 0 <= i < |text| - |Lstrip(text)| :: IsSpace(text[i])
  {
    if text != "" && IsSpace(text[0]) {
      LstripSpaces(text[1..]);
      assert forall i | 1 <= i < |text| :: text[i] == text[1..][i - 1];
    }
  }

  // The same text but for spaces at the end, or around it.
  ghost predicate SameButEnd(a: string, b: string) {
    exists core :: EndsInSpaces(a, core) && EndsInSpaces(b, core)
  }

  ghost predicate SameButAround(a: string, b: string) {
    exists core :: IsSpaced(a, core) && IsSpaced(b, core)
  }

  /** The second comparison disregards exactly spaces at the end of lines, the third those around them. */
  lemma ComparisonsMean(a: string, b: string)
    ensures Normalized(Exact, a) == Normalized(Exact, b) <==> a == b
    ensures Normalized(TrimEnd, a) == Normalized(TrimEnd, b) <==> SameButEnd(a, b)
    ensures Normalized(Trim, a) == Normalized(Trim, b) <==> SameButAround(a, b)
  {
    if SameButEnd(a, b) {
      var core :| EndsInSpaces(a, core) && EndsInSpaces(b, core);
      RstripOf(a, core);
      RstripOf(b, core);
    }
    if SameButAround(a, b) {
      var core :| IsSpaced(a, core) && IsSpaced(b, core);
      SpacedStrips(a, core);
      SpacedStrips(b, core);
    }
    if Rstrip(a) == Rstrip(b) { assert EndsInSpaces(a, Rstrip(a)) && EndsInSpaces(b, Rstrip(a)); }
    if Strip(a) == Strip(b) {
      StripIsCore(a);
      StripIsCore(b);
    }
  }

  lemma SpacedStrips(text: string, core: string)
    requires IsSpaced(text, core)
    ensures Strip(text) == Strip(core)
  {
    var k :| 0 <= k <= |text| && (forall i | 0 <= i < k :: IsSpace(text[i])) && EndsInSpaces(text[k..], core);
    StripOf(text, k);
    RstripOf(text[k..], core);
  }

  /** A looser comparison accepts whatever a stricter one accepts. */
  lemma LooserAccepts(a: string, b: string, strict: Normalizer, loose: Normalizer)
    requires Looseness(strict) <= Looseness(loose) && Normalized(strict, a) == Normalized(strict, b)
    ensures Normalized(loose, a) == Normalized(loose, b)
  {
    ComparisonsMean(a, b);
    if strict == TrimEnd { assert Strip(a) == Strip(b); }
  }

  // ---- Splicing.

  function Min(a: nat, b: nat): nat {
    if a < b then a else b
  }

  // Assignment to a slice of a list: bounds past the end are cut.
  function Splice(lines: seq<string>, r: Replacement): seq<string> {
    lines[..Min(r.start, |lines|)] + r.lines + lines[Min(r.End(), |lines|)..]
  }

  // A stable sort by where the replacements start.
  function Insert(r: Replacement, sorted: seq<Replacement>): seq<Replacement> {
    if sorted == [] || r.start <= sorted[0].start then [r] + sorted else [sorted[0]] + Insert(r, sorted[1..])
  }

  function Sorted(replacements: seq<Replacement>): seq<Replacement> {
    if replacements == [] then [] else Insert(replacements[0], Sorted(replacements[1..]))
  }

  // The last replacement first.
  function SpliceReversed(lines: seq<string>, replacements: seq<Replacement>): seq<string> {
    if replacements == [] then lines else Splice(SpliceReversed(lines, replacements[1..]), replacements[0])
  }

  // ---- The reference: all replacements at once, from left to right.

  // Each replacement starts at or after the end of the one before it, and all are in the file.
  predicate Chain(replacements: seq<Replacement>, from: nat, count: nat) {
    if replacements == [] then from <= count
    else from <= replacements[0].start && Chain(replacements[1..], replacements[0].End(), count)
  }

  // The lines from `from` on, with every replaced stretch exchanged and every other line kept.
  function Substituted(lines: seq<string>, replacements: seq<Replacement>, from: nat): seq<string>
    requires Chain(replacements, from, |lines|)
  {
    if replacements == [] then lines[from..]
    else
      ChainInFile(replacements, from, |lines|);
      lines[from..replacements[0].start] + replacements[0].lines +
      Substituted(lines, replacements[1..], replacements[0].End())
  }

  lemma ChainInFile(replacements: seq<Replacement>, from: nat, count: nat)
    requires Chain(replacements, from, count)
    ensures from <= count
    ensures replacements != [] ==> replacements[0].End() <= count
  {
    if replacements != [] {
      ChainInFile(replacements[1..], replacements[0].End(), count);
    }
  }

  /** Splicing from the last replacement to the first is the substitution of all at once. */
  lemma {:induction false} SpliceIsSubstitution(lines: seq<string>, replacements: seq<Replacement>, from: nat)
    requires Chain(replacements, from, |lines|)
    ensures from <= |lines|
    ensures SpliceReversed(lines, replacements) == lines[..from] + Substituted(lines, replacements, from)
  {
    hide Splice;
    ChainInFile(replacements, from, |lines|);
    if replacements == [] {
      assert lines == lines[..from] + lines[from..];
    } else {
      var r, rest := replacements[0], replacements[1..];
      SpliceIsSubstitution(lines, rest, r.End());
      SpliceBefore(lines, r, Substituted(lines, rest, r.End()), from);
    }
  }

  // Splicing in front of what was spliced already.
  lemma SpliceBefore(lines: seq<string>, r: Replacement, tail: seq<string>, from: nat)
    requires from <= r.start && r.End() <= |lines|
    ensures Splice(lines[..r.End()] + tail, r) == lines[..from] + (lines[from..r.start] + r.lines + tail)
  {
    var spliced := lines[..r.End()] + tail;
    assert spliced[..r.start] == lines[..from] + lines[from..r.start];
    assert spliced[r.End()..] == tail;
  }

  // ---- Which replacements form a chain once sorted.

  // `a` comes before `b` in the list: the two do not overlap, and neither takes the other's place.
  predicate Apart(a: Replacement, b: Replacement) {
    (a.End() <= b.start || b.End() <= a.start) && (a.start == b.start ==> a.length == 0)
  }

  predicate AllApart(replacements: seq<Replacement>, count: nat) {
    && (forall i | 0 <= i < |replacements| :: replacements[i].End() <= count)
    && (forall i, j | 0 <= i < j < |replacements| :: Apart(replacements[i], replacements[j]))
  }

  lemma {:induction false} InsertChain(r: Replacement, sorted: seq<Replacement>, from: nat, count: nat)
    requires Chain(sorted, from, count) && from <= r.start && r.End() <= count
    requires forall i | 0 <= i < |sorted| :: Apart(r, sorted[i])
    ensures Chain(Insert(r, sorted), from, count)
  {
    if sorted != [] && r.start > sorted[0].start {
      assert Apart(r, sorted[0]);
      InsertChain(r, sorted[1..], sorted[0].End(), count);
    } else if sorted != [] {
      assert Apart(r, sorted[0]);
      assert ([r] + sorted)[1..] == sorted;
    }
  }

  lemma {:induction false} InsertMembers(r: Replacement, sorted: seq<Replacement>)
    ensures multiset(Insert(r, sorted)) == multiset{r} + multiset(sorted)
  {
    if sorted != [] && r.start > sorted[0].start {
      InsertMembers(r, sorted[1..]);
      assert sorted == [sorted[0]] + sorted[1..];
    }
  }

  lemma {:induction false} SortedMembers(replacements: seq<Replacement>)
    ensures multiset(Sorted(replacements)) == multiset(replacements)
  {
    if replacements != [] {
      SortedMembers(replacements[1..]);
      InsertMembers(replacements[0], Sorted(replacements[1..]));
      assert replacements == [replacements[0]] + replacements[1..];
    }
  }

  // The replacements that start at a line, in order.
  function StartingAt(replacements: seq<Replacement>, start: nat): seq<Replacement> {
    if replacements == [] then []
    else (if replacements[0].start == start then [replacements[0]] else []) + StartingAt(replacements[1..], start)
  }

  // In the order in which they start, none before `low`.
  predicate IsSorted(replacements: seq<Replacement>, low: nat) {
    replacements == [] || (low <= replacements[0].start && IsSorted(replacements[1..], replacements[0].start))
  }

  lemma StartingAtFirst(r: Replacement, rest: seq<Replacement>, start: nat)
    ensures StartingAt([r] + rest, start) == (if r.start == start then [r] else []) + StartingAt(rest, start)
  {
    assert ([r] + rest)[1..] == rest;
  }

  lemma SortedFirst(r: Replacement, rest: seq<Replacement>, low: nat)
    requires low <= r.start && IsSorted(rest, r.start)
    ensures IsSorted([r] + rest, low)
  {
    assert ([r] + rest)[1..] == rest;
  }

  lemma {:induction false} InsertSorts(r: Replacement, sorted: seq<Replacement>, low: nat)
    requires IsSorted(sorted, low) && low <= r.start
    ensures IsSorted(Insert(r, sorted), low)
    decreases |sorted|
  {
    if sorted != [] && r.start > sorted[0].start {
      InsertSorts(r, sorted[1..], sorted[0].start);
      SortedFirst(sorted[0], Insert(r, sorted[1..]), low);
    } else {
      SortedFirst(r, sorted, low);
    }
  }

  lemma {:induction false} InsertIsStable(r: Replacement, sorted: seq<Replacement>, start: nat)
    ensures StartingAt(Insert(r, sorted), start) == StartingAt([r] + sorted, start)
    decreases |sorted|
  {
    if sorted != [] && r.start > sorted[0].start {
      var first, rest := sorted[0], sorted[1..];
      InsertIsStable(r, rest, start);
      StartingAtFirst(r, rest, start);
      StartingAtFirst(first, Insert(r, rest), start);
      StartingAtFirst(r, sorted, start);
    }
  }

  /** The sort is by where the replacements start, and keeps those that start together in their order. */
  lemma {:induction false} SortedIsStable(replacements: seq<Replacement>, start: nat)
    ensures IsSorted(Sorted(replacements), 0)
    ensures StartingAt(Sorted(replacements), start) == StartingAt(replacements, start)
    decreases |replacements|
  {
    if replacements != [] {
      var sorted := Sorted(replacements[1..]);
      SortedIsStable(replacements[1..], start);
      InsertSorts(replacements[0], sorted, 0);
      InsertIsStable(replacements[0], sorted, start);
      StartingAtFirst(replacements[0], sorted, start);
    }
  }

  lemma {:induction false} SortedChain(replacements: seq<Replacement>, count: nat)
    requires AllApart(replacements, count)
    ensures Chain(Sorted(replacements), 0, count)
  {
    if replacements != [] {
      var r, sorted := replacements[0], Sorted(replacements[1..]);
      SortedChain(replacements[1..], count);
      SortedMembers(replacements[1..]);
      forall i | 0 <= i < |sorted|
        ensures Apart(r, sorted[i])
      {
        assert sorted[i] in multiset(replacements[1..]);
        var k :| 0 <= k < |replacements[1..]| && replacements[1..][k] == sorted[i];
        assert Apart(replacements[0], replacements[k + 1]);
      }
      InsertChain(r, sorted, 0, count);
    }
  }

  // ---- The places of chunks without end-of-file marks.

  predicate NoEofMarks(chunks: seq<Chunk>) {
    forall i | 0 <= i < |chunks| :: !chunks[i].eof
  }

  predicate LastLineIsText(lines: seq<string>) {
    lines == [] || lines[|lines| - 1] != ""
  }

  lemma PlacedAfter(lines: seq<string>, chunk: Chunk, index: nat)
    requires index <= |lines| && !chunk.eof && Place(lines, chunk, index).Some?
    ensures var (r, next) := Place(lines, chunk, index).value;
      && index <= next <= |lines|
      && r.End() <= |lines|
      && (chunk.oldLines == [] ==> r.start == InsertionIndex(lines) && r.length == 0)
      && (chunk.oldLines != [] ==> index <= r.start && r.End() == next)
  {
  }

  // No replacement starts before the index, and each is apart from those after it.
  lemma {:induction false} PlacesApart(lines: seq<string>, chunks: seq<Chunk>, index: nat)
    requires index <= |lines| && NoEofMarks(chunks) && LastLineIsText(lines) && Places(lines, chunks, index).Some?
    ensures AllApart(Places(lines, chunks, index).value, |lines|)
    ensures forall i | 0 <= i < |Places(lines, chunks, index).value| ::
      index <= Places(lines, chunks, index).value[i].start
    decreases |chunks|
  {
    if chunks != [] {
      PlacedAfter(lines, chunks[0], index);
      var (r, next) := Place(lines, chunks[0], index).value;
      PlacesApart(lines, chunks[1..], next);
      var rest := Places(lines, chunks[1..], next).value;
      assert forall i | 0 <= i < |rest| :: Apart(r, rest[i]);
    }
  }

  ghost predicate AlwaysApart(lines: seq<string>) {
    forall chunks | NoEofMarks(chunks) && Places(lines, chunks, 0).Some? ::
      AllApart(Places(lines, chunks, 0).value, |lines|)
  }

  /**
   * Whatever the chunks, their places are in the file and apart from each other exactly when the last line is not
   * blank: before a blank last line an insertion goes inside a change of that line.
   */
  lemma ApartExactly(lines: seq<string>)
    ensures AlwaysApart(lines) <==> LastLineIsText(lines)
  {
    if LastLineIsText(lines) {
      forall chunks | NoEofMarks(chunks) && Places(lines, chunks, 0).Some?
        ensures AllApart(Places(lines, chunks, 0).value, |lines|)
      {
        PlacesApart(lines, chunks, 0);
      }
    } else {
      var chunks := [Chunk(None, lines, [], false), Chunk(None, [], [], false)];
      var places := [Replacement(0, |lines|, []), Replacement(|lines| - 1, 0, [])];
      ChangeThenInsert(lines, [], []);
      assert !Apart(places[0], places[1]);
    }
  }

  lemma WholeFileIsFound(lines: seq<string>)
    requires lines != []
    ensures Seek(lines, lines, 0, false) == Some(0)
  {
    assert MatchesAt(lines, lines, 0, Exact);
  }

  // Changing the whole file and then inserting.
  lemma ChangeThenInsert(lines: seq<string>, changed: seq<string>, inserted: seq<string>)
    requires lines != []
    ensures Places(lines, [Chunk(None, lines, changed, false), Chunk(None, [], inserted, false)], 0) ==
            Some([Replacement(0, |lines|, changed), Replacement(InsertionIndex(lines), 0, inserted)])
  {
    hide Seek, InsertionIndex;
    var change, insert := Chunk(None, lines, changed, false), Chunk(None, [], inserted, false);
    var first, second := Replacement(0, |lines|, changed), Replacement(InsertionIndex(lines), 0, inserted);
    WholeFileIsFound(lines);
    assert Place(lines, change, 0) == Some((first, |lines|));
    assert Place(lines, insert, |lines|) == Some((second, |lines|));
    assert [insert][1..] == [] && [change, insert][1..] == [insert];
    assert [second] + [] == [second];
    assert Places(lines, [insert], |lines|) == After([second], Some([])) == Some([second]);
    assert [first] + [second] == [first, second];
  }

  // ---- A whole file.

  function Split(content: string): (lines: seq<string>)
    ensures lines != []
  {
    if content == "" then [""]
    else
      var rest := Split(content[1..]);
      if content[0] == '\n' then [""] + rest else [[content[0]] + rest[0]] + rest[1..]
  }

  function Join(lines: seq<string>): string
    requires lines != []
  {
    if |lines| == 1 then lines[0] else lines[0] + "\n" + Join(lines[1..])
  }

  // The lines of a file; a last newline ends a line and does not begin one.
  function Lines(content: string): seq<string> {
    var lines := Split(content);
    if lines[|lines| - 1] == "" then lines[..|lines| - 1] else lines
  }

  function Content(lines: seq<string>): string {
    Join(if LastLineIsText(lines) then lines + [""] else lines)
  }

  function Derived(content: string, chunks: seq<Chunk>): Result<string> {
    match Places(Lines(content), chunks, 0)
    case None => Err
    case Some(replacements) => Ok(Content(SpliceReversed(Lines(content), Sorted(replacements))))
  }

  /** The new content of a file: the sorted replacements are spliced in place, the last one first. */
  method Derive(content: string, chunks: seq<Chunk>) returns (r: Result<string>)
    ensures r == Derived(content, chunks)
  {
    hide Split, Join, Places, Sorted, Splice;
    var lines := Split(content);
    if lines[|lines| - 1] == "" {
      lines := lines[..|lines| - 1];
    }
    var found := Replacements(lines, chunks);
    if found.None? {
      return Err;
    }
    var replacements := Sorted(found.value);
    for i := |replacements| downto 0
      invariant lines == SpliceReversed(Lines(content), replacements[i..])
    {
      assert replacements[i..][1..] == replacements[i + 1..];
      lines := Splice(lines, replacements[i]);
    }
    assert replacements[0..] == replacements;
    if lines == [] || lines[|lines| - 1] != "" {
      lines := lines + [""];
    }
    r := Ok(Join(lines));
  }

  /**
   * Without end-of-file marks and with text on the last line, the new content is that of one substitution of all
   * chunks at once.
   */
  lemma DerivedIsSubstitution(content: string, chunks: seq<Chunk>)
    requires NoEofMarks(chunks) && LastLineIsText(Lines(content)) && Places(Lines(content), chunks, 0).Some?
    ensures var lines, replacements := Lines(content), Sorted(Places(Lines(content), chunks, 0).value);
      && Chain(replacements, 0, |lines|)
      && multiset(replacements) == multiset(Places(lines, chunks, 0).value)
      && Derived(content, chunks) == Ok(Content(Substituted(lines, replacements, 0)))
  {
    var lines, places := Lines(content), Places(Lines(content), chunks, 0).value;
    PlacesApart(lines, chunks, 0);
    SortedChain(places, |lines|);
    SortedMembers(places);
    SpliceIsSubstitution(lines, Sorted(places), 0);
    assert lines[..0] + Substituted(lines, Sorted(places), 0) == Substituted(lines, Sorted(places), 0);
  }

  // Every line ended by a newline.
  function Terminated(lines: seq<string>): string {
    if lines == [] then "" else lines[0] + "\n" + Terminated(lines[1..])
  }

  lemma {:induction false} JoinIsTerminated(lines: seq<string>)
    ensures Join(lines + [""]) == Terminated(lines)
  {
    if lines == [] {
      assert lines + [""] == [""];
    } else {
      assert (lines + [""])[1..] == lines[1..] + [""];
      JoinIsTerminated(lines[1..]);
    }
  }

  /** The written content has all the lines exactly when the last one is not blank; a blank last line is lost. */
  lemma ContentExactly(lines: seq<string>)
    ensures Content(lines) == Terminated(lines) <==> LastLineIsText(lines)
  {
    if LastLineIsText(lines) {
      JoinIsTerminated(lines);
    } else {
      var rest := lines[..|lines| - 1];
      assert lines == rest + [""];
      JoinIsTerminated(rest);
      TerminatedLast(rest, "");
    }
  }

  lemma {:induction false} TerminatedLast(lines: seq<string>, last: string)
    ensures Terminated(lines + [last]) == Terminated(lines) + last + "\n"
  {
    if lines == [] {
      assert lines + [last] == [last];
    } else {
      assert (lines + [last])[1..] == lines[1..] + [last];
      TerminatedLast(lines[1..], last);
    }
  }

  /** No line of a split content has a newline in it. */
  lemma {:induction false} SplitAtNewlines(content: string)
    ensures forall i | 0 <= i < |Split(content)| :: '\n' !in Split(content)[i]
  {
    if content != "" { SplitAtNewlines(content[1..]); }
  }

  /** Splitting and joining give the content back. */
  lemma {:induction false} JoinSplit(content: string)
    ensures Join(Split(content)) == content
  {
    if content != "" {
      var rest := Split(content[1..]);
      JoinSplit(content[1..]);
      if content[0] == '\n' {
        assert ([""] + rest)[1..] == rest;
        assert Join([""] + rest) == "" + "\n" + Join(rest);
      } else {
        var lines := [[content[0]] + rest[0]] + rest[1..];
        assert lines[1..] == rest[1..];
        assert Join(lines) == [content[0]] + Join(rest);
      }
      assert content == [content[0]] + content[1..];
    }
  }

  lemma LaterSpliceOverwrites()
    ensures var places := [Replacement(0, 1, ["changed"]), Replacement(0, 0, ["inserted"])];
      SpliceReversed([""], Sorted(places)) == ["changed", ""]
  {
    var first, second := Replacement(0, 1, ["changed"]), Replacement(0, 0, ["inserted"]);
    assert [first, second][1..] == [second] && [second][1..] == [];
    assert Sorted([second]) == [second] && Sorted([first, second]) == [first, second];
    assert Splice([""], second) == ["inserted", ""];
    assert Splice(["inserted", ""], first) == ["changed", ""];
  }

  lemma SmallFiles()
    ensures Lines("\n") == [""] && Content(["changed", ""]) == "changed\n"
  {
    assert "\n"[1..] == "";
    assert Split("\n") == ["", ""];
    assert ["changed", ""][1..] == [""];
    assert "changed" + "\n" + "" == "changed\n";
  }

  /** A change of a blank last line and an insertion after it: the inserted line is lost. */
  lemma InsertionIsLost()
    ensures var chunks := [Chunk(None, [""], ["changed"], false), Chunk(None, [], ["inserted"], false)];
      Derived("\n", chunks) == Ok("changed\n")
  {
    hide Places, SpliceReversed, Sorted, Content, Lines;
    SmallFiles();
    ChangeThenInsert([""], ["changed"], ["inserted"]);
    LaterSpliceOverwrites();
  }
}
