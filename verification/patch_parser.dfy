/** The line-at-a-time parser of apply_patch bodies. */
module PatchParser {
  import opened Wrappers
  import opened PatchText
  import PatchSplice

  type Chunk = PatchSplice.Chunk

  const END := "*** End Patch"
  const ADD := "*** Add File: "
  const DELETE := "*** Delete File: "
  const UPDATE := "*** Update File: "
  const ENVIRONMENT := "*** Environment ID: "
  const MOVE := "*** Move to: "
  const END_OF_FILE := "*** End of File"

  datatype Hunk =
    | AddFile(path: string, contents: string)
    | DeleteFile(path: string)
    | UpdateFile(path: string, move: Option<string>, chunks: seq<Chunk>)

  // What a handler says of a line: it fails, it does not take the line, or it takes it.
  datatype Step<+T> = Fail | Pass | Take(value: T)

  function EmptyChunk(context: Option<string>): Chunk {
    PatchSplice.Chunk(context, [], [], false)
  }

  predicate IsEmpty(chunk: Chunk) {
    chunk.oldLines == [] && chunk.newLines == []
  }

  predicate IsMarker(text: string) {
    text == "@@" || "@@ " <= text
  }

  function Last<T>(items: seq<T>): T
    requires items != []
  {
    items[|items| - 1]
  }

  function WithLast<T>(items: seq<T>, item: T): seq<T>
    requires items != []
  {
    items[..|items| - 1] + [item]
  }

  // ---- What each line does to the hunks read so far.

  // The last hunk may end: an update has a chunk, and its last chunk has a line.
  predicate MayEnd(hunks: seq<Hunk>) {
    hunks != [] && Last(hunks).UpdateFile? ==> Last(hunks).chunks != [] && !IsEmpty(Last(Last(hunks).chunks))
  }

  function Begin(hunks: seq<Hunk>, hunk: Hunk): Step<seq<Hunk>> {
    if MayEnd(hunks) then Take(hunks + [hunk]) else Fail
  }

  function Header(hunks: seq<Hunk>, text: string): Step<seq<Hunk>> {
    if text == END then Fail
    else if ENVIRONMENT <= text && hunks == [] then Take(hunks)
    else if ADD <= text then Begin(hunks, AddFile(text[|ADD|..], ""))
    else if DELETE <= text then Begin(hunks, DeleteFile(text[|DELETE|..]))
    else if UPDATE <= text then Begin(hunks, UpdateFile(text[|UPDATE|..], None, []))
    else Pass
  }

  // After an end-of-file mark blank lines are skipped and a marker must follow.
  function SkipAfterEof(hunk: Hunk, text: string): Step<Hunk>
    requires hunk.UpdateFile?
  {
    if hunk.chunks == [] || !Last(hunk.chunks).eof then Pass
    else if text == "" then Take(hunk)
    else if !IsMarker(text) then Fail
    else Pass
  }

  function TakeMove(hunk: Hunk, text: string): Step<Hunk>
    requires hunk.UpdateFile?
  {
    if hunk.chunks != [] || hunk.move.Some? || !(MOVE <= text) then Pass
    else Take(hunk.(move := Some(text[|MOVE|..])))
  }

  function Marker(chunks: seq<Chunk>, text: string): Step<seq<Chunk>>
    requires IsMarker(text)
  {
    if chunks != [] && IsEmpty(Last(chunks)) then Fail
    else Take(chunks + [EmptyChunk(if text == "@@" then None else Some(text[3..]))])
  }

  function EndOfFile(chunks: seq<Chunk>): Step<seq<Chunk>> {
    if chunks == [] || IsEmpty(Last(chunks)) then Fail
    else Take(WithLast(chunks, Last(chunks).(eof := true)))
  }

  function Grown(chunk: Chunk, kind: char, text: string): Chunk {
    chunk.(oldLines := if kind != '+' then chunk.oldLines + [text] else chunk.oldLines,
           newLines := if kind != '-' then chunk.newLines + [text] else chunk.newLines)
  }

  function BodyLine(chunks: seq<Chunk>, line: string): Step<seq<Chunk>> {
    if line != "" && line[0] !in " +-" then Fail
    else
      var begun := if chunks == [] then [EmptyChunk(None)] else chunks;
      var grown := if line == "" then Grown(Last(begun), ' ', "") else Grown(Last(begun), line[0], line[1..]);
      Take(WithLast(begun, grown))
  }

  function ChunkLine(chunks: seq<Chunk>, text: string, line: string): Step<seq<Chunk>> {
    if IsMarker(text) then Marker(chunks, text)
    else if text == END_OF_FILE then EndOfFile(chunks)
    else BodyLine(chunks, line)
  }

  function UpdateLine(hunk: Hunk, text: string, line: string): Step<Hunk>
    requires hunk.UpdateFile?
  {
    match SkipAfterEof(hunk, text)
    case Fail => Fail
    case Take(same) => Take(same)
    case Pass =>
      match TakeMove(hunk, text)
      case Fail => Fail
      case Take(moved) => Take(moved)
      case Pass =>
        match ChunkLine(hunk.chunks, text, line)
        case Take(chunks) => Take(hunk.(chunks := chunks))
        case _ => Fail
  }

  function BelowHeader(hunk: Hunk, text: string, line: string): Step<Hunk> {
    match hunk
    case AddFile(path, contents) =>
      if line == "" || line[0] != '+' then Fail else Take(AddFile(path, contents + line[1..] + "\n"))
    case DeleteFile(_) => Fail
    case UpdateFile(_, _, _) => UpdateLine(hunk, text, line)
  }

  function Line(hunks: seq<Hunk>, line: string): Option<seq<Hunk>> {
    var text := if hunks != [] && Last(hunks).UpdateFile? then Rstrip(line) else Strip(line);
    match Header(hunks, text)
    case Fail => None
    case Take(next) => Some(next)
    case Pass =>
      if hunks == [] then None
      else match BelowHeader(Last(hunks), text, line)
        case Take(hunk) => Some(WithLast(hunks, hunk))
        case _ => None
  }

  // The hunks after the lines, None when one of them fails.
  function Lines(hunks: seq<Hunk>, lines: seq<string>): Option<seq<Hunk>>
    decreases |lines|
  {
    if lines == [] then Some(hunks)
    else match Line(hunks, lines[0])
      case None => None
      case Some(next) => Lines(next, lines[1..])
  }

  function Parsed(lines: seq<string>): Result<seq<Hunk>> {
    match Lines([], lines)
    case None => Err
    case Some(hunks) => if MayEnd(hunks) then Ok(hunks) else Err
  }

  // ---- The parser.

  datatype Mode = Started | Adding | Deleting | Updating

  function ModeOf(hunks: seq<Hunk>): Mode {
    if hunks == [] then Started
    else match Last(hunks)
      case AddFile(_, _) => Adding
      case DeleteFile(_) => Deleting
      case UpdateFile(_, _, _) => Updating
  }

  lemma KindStays(hunk: Hunk, text: string, line: string)
    requires BelowHeader(hunk, text, line).Take?
    ensures ModeOf([BelowHeader(hunk, text, line).value]) == ModeOf([hunk])
  {
    hide ChunkLine;
  }

  class Parser {
    var hunks: seq<Hunk>
    var mode: Mode

    predicate Valid()
      reads this
    {
      mode == ModeOf(hunks)
    }

    constructor ()
      ensures Valid() && hunks == []
    {
      hunks, mode := [], Started;
    }

    // Adds a hunk, unless the last one may not end.
    method Start(hunk: Hunk) returns (ok: bool)
      requires Valid()
      modifies this
      ensures Valid()
      ensures ok <==> MayEnd(old(hunks))
      ensures hunks == if ok then old(hunks) + [hunk] else old(hunks)
    {
      if !MayEnd(hunks) {
        return false;
      }
      hunks := hunks + [hunk];
      mode := ModeOf([hunk]);
      ok := true;
    }

    method TakeHeader(text: string) returns (step: Step<()>)
      requires Valid()
      modifies this
      ensures Valid()
      ensures step == match Header(old(hunks), text) case Fail => Fail case Pass => Pass case Take(_) => Take(())
      ensures step.Take? ==> Take(hunks) == Header(old(hunks), text)
      ensures !step.Take? ==> hunks == old(hunks)
    {
      if text == END {
        return Fail;
      }
      if ENVIRONMENT <= text && hunks == [] {
        return Take(());
      }
      var ok;
      if ADD <= text {
        ok := Start(AddFile(text[|ADD|..], ""));
      } else if DELETE <= text {
        ok := Start(DeleteFile(text[|DELETE|..]));
      } else if UPDATE <= text {
        ok := Start(UpdateFile(text[|UPDATE|..], None, []));
      } else {
        return Pass;
      }
      step := if ok then Take(()) else Fail;
    }

    // Handles one line in the current mode.
    method Handle(line: string) returns (ok: bool)
      requires Valid()
      modifies this
      ensures Valid()
      ensures ok <==> Line(old(hunks), line).Some?
      ensures ok ==> Some(hunks) == Line(old(hunks), line)
    {
      hide Header, BelowHeader, Rstrip, Strip;
      var text := if mode.Updating? then Rstrip(line) else Strip(line);
      var step := TakeHeader(text);
      if !step.Pass? {
        return step.Take?;
      }
      if mode.Started? {
        return false;
      }
      var hunk := BelowHeader(Last(hunks), text, line);
      if !hunk.Take? {
        return false;
      }
      KindStays(Last(hunks), text, line);
      hunks := WithLast(hunks, hunk.value);
      ok := true;
    }

    method Parse(lines: seq<string>) returns (r: Result<seq<Hunk>>)
      requires Valid() && hunks == []
      modifies this
      ensures r == Parsed(lines)
    {
      assert lines[0..] == lines;
      for i := 0 to |lines|
        invariant Valid()
        invariant Lines(hunks, lines[i..]) == Lines([], lines)
      {
        assert lines[i..][1..] == lines[i + 1..];
        var ok := Handle(lines[i]);
        if !ok {
          return Err;
        }
      }
      r := if MayEnd(hunks) then Ok(hunks) else Err;
    }
  }

  // ---- What an accepted patch is like.

  // Every chunk has a line, but for the last one while it is being read.
  predicate ChunksFilled(chunks: seq<Chunk>) {
    forall i | 0 <= i < |chunks| - 1 :: !IsEmpty(chunks[i])
  }

  // Every update has a chunk and every chunk a line.
  predicate Filled(hunk: Hunk) {
    hunk.UpdateFile? ==> hunk.chunks != [] && forall i | 0 <= i < |hunk.chunks| :: !IsEmpty(hunk.chunks[i])
  }

  predicate FilledSoFar(hunks: seq<Hunk>) {
    && (forall i | 0 <= i < |hunks| - 1 :: Filled(hunks[i]))
    && (hunks != [] && Last(hunks).UpdateFile? ==> ChunksFilled(Last(hunks).chunks))
  }

  lemma ChunkLineFills(chunks: seq<Chunk>, text: string, line: string)
    requires ChunksFilled(chunks) && ChunkLine(chunks, text, line).Take?
    ensures ChunksFilled(ChunkLine(chunks, text, line).value)
  {
  }

  lemma HeaderFills(hunks: seq<Hunk>, text: string)
    requires FilledSoFar(hunks) && Header(hunks, text).Take?
    ensures FilledSoFar(Header(hunks, text).value)
  {
  }

  lemma BelowFills(hunk: Hunk, text: string, line: string)
    requires hunk.UpdateFile? ==> ChunksFilled(hunk.chunks)
    requires BelowHeader(hunk, text, line).Take?
    ensures var h := BelowHeader(hunk, text, line).value; h.UpdateFile? ==> ChunksFilled(h.chunks)
  {
    hide ChunkLine, ChunksFilled;
    if hunk.UpdateFile? && ChunkLine(hunk.chunks, text, line).Take? {
      ChunkLineFills(hunk.chunks, text, line);
    }
  }

  lemma LineFills(hunks: seq<Hunk>, line: string)
    requires FilledSoFar(hunks) && Line(hunks, line).Some?
    ensures FilledSoFar(Line(hunks, line).value)
  {
    hide Header, BelowHeader, ChunksFilled, Rstrip, Strip;
    var text := if hunks != [] && Last(hunks).UpdateFile? then Rstrip(line) else Strip(line);
    if Header(hunks, text).Take? {
      HeaderFills(hunks, text);
    } else {
      BelowFills(Last(hunks), text, line);
    }
  }

  lemma {:induction false} LinesFill(hunks: seq<Hunk>, lines: seq<string>)
    requires FilledSoFar(hunks) && Lines(hunks, lines).Some?
    ensures FilledSoFar(Lines(hunks, lines).value)
    decreases |lines|
  {
    hide Line;
    if lines != [] {
      LineFills(hunks, lines[0]);
      LinesFill(Line(hunks, lines[0]).value, lines[1..]);
    }
  }

  /** In every patch that is accepted each update has a chunk, and each chunk has a line. */
  lemma AcceptedIsFilled(lines: seq<string>)
    requires Parsed(lines).Ok?
    ensures forall i | 0 <= i < |Parsed(lines).value| :: Filled(Parsed(lines).value[i])
  {
    hide Lines, IsEmpty;
    LinesFill([], lines);
    var hunks := Lines([], lines).value;
    forall i | 0 <= i < |hunks|
      ensures Filled(hunks[i])
    {
    }
  }
}
