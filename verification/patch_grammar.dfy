/** The text of an apply_patch body as a tree, what the tree means, and the parser as the exact reader of such text. */
module PatchGrammar {
  import opened Wrappers
  import opened PatchText
  import opened PatchParser
  import PatchSplice

  // One line of the body of a chunk.
  datatype Edit = Blank | Keep(text: string) | Remove(text: string) | Insert(text: string)

  // The marker line above a chunk; only the first chunk of an update may do without.
  datatype Marking = Unmarked | Marked(line: string, context: Option<string>)

  // The line that says a chunk ends its file, with the blank lines skipped below it.
  datatype Ending = Open | Ended(line: string, blanks: seq<string>)

  datatype Piece = Piece(marking: Marking, edits: seq<Edit>, ending: Ending)

  datatype Moving = Stays | Moves(line: string, to: string)

  datatype Section =
    | Adds(header: string, path: string, texts: seq<string>)
    | Deletes(header: string, path: string)
    | Updates(header: string, path: string, moving: Moving, pieces: seq<Piece>)

  datatype Body = Body(environment: seq<string>, sections: seq<Section>)

  // ---- The lines of a tree.

  function EditLine(edit: Edit): string {
    match edit
    case Blank => ""
    case Keep(text) => " " + text
    case Remove(text) => "-" + text
    case Insert(text) => "+" + text
  }

  function EditLines(edits: seq<Edit>): seq<string> {
    if edits == [] then [] else EditLines(edits[..|edits| - 1]) + [EditLine(Last(edits))]
  }

  function PieceLines(piece: Piece): seq<string> {
    (if piece.marking.Marked? then [piece.marking.line] else []) +
    EditLines(piece.edits) +
    (if piece.ending.Ended? then [piece.ending.line] + piece.ending.blanks else [])
  }

  function PiecesLines(pieces: seq<Piece>): seq<string> {
    if pieces == [] then [] else PiecesLines(pieces[..|pieces| - 1]) + PieceLines(Last(pieces))
  }

  function AddedLines(texts: seq<string>): seq<string> {
    if texts == [] then [] else AddedLines(texts[..|texts| - 1]) + ["+" + Last(texts)]
  }

  function SectionLines(section: Section): seq<string> {
    match section
    case Adds(header, _, texts) => [header] + AddedLines(texts)
    case Deletes(header, _) => [header]
    case Updates(header, _, moving, pieces) =>
      [header] + (if moving.Moves? then [moving.line] else []) + PiecesLines(pieces)
  }

  function SectionsLines(sections: seq<Section>): seq<string> {
    if sections == [] then [] else SectionsLines(sections[..|sections| - 1]) + SectionLines(Last(sections))
  }

  function BodyLines(body: Body): seq<string> {
    body.environment + SectionsLines(body.sections)
  }

  // ---- The hunks that a tree means.

  // The lines to be found: those that are blank, kept or removed, in order.
  function OldTexts(edits: seq<Edit>): seq<string> {
    if edits == [] then []
    else OldTexts(edits[..|edits| - 1]) + match Last(edits)
      case Blank => [""]
      case Keep(text) => [text]
      case Remove(text) => [text]
      case Insert(_) => []
  }

  // The lines to stand there instead: those that are blank, kept or inserted, in order.
  function NewTexts(edits: seq<Edit>): seq<string> {
    if edits == [] then []
    else NewTexts(edits[..|edits| - 1]) + match Last(edits)
      case Blank => [""]
      case Keep(text) => [text]
      case Remove(_) => []
      case Insert(text) => [text]
  }

  function ContextOf(marking: Marking): Option<string> {
    if marking.Marked? then marking.context else None
  }

  function ChunkOf(piece: Piece): Chunk {
    PatchSplice.Chunk(ContextOf(piece.marking), OldTexts(piece.edits), NewTexts(piece.edits), piece.ending.Ended?)
  }

  function ChunksOf(pieces: seq<Piece>): (chunks: seq<Chunk>)
    ensures |chunks| == |pieces|
    ensures pieces != [] ==> Last(chunks) == ChunkOf(Last(pieces))
  {
    if pieces == [] then [] else ChunksOf(pieces[..|pieces| - 1]) + [ChunkOf(Last(pieces))]
  }

  function MoveOf(moving: Moving): Option<string> {
    if moving.Moves? then Some(moving.to) else None
  }

  function HunkOf(section: Section): Hunk {
    match section
    case Adds(_, path, texts) => AddFile(path, PatchSplice.Terminated(texts))
    case Deletes(_, path) => DeleteFile(path)
    case Updates(_, path, moving, pieces) => UpdateFile(path, MoveOf(moving), ChunksOf(pieces))
  }

  function HunksOf(sections: seq<Section>): (hunks: seq<Hunk>)
    ensures |hunks| == |sections|
    ensures sections != [] ==> Last(hunks) == HunkOf(Last(sections))
  {
    if sections == [] then [] else HunksOf(sections[..|sections| - 1]) + [HunkOf(Last(sections))]
  }

  // ---- The trees whose lines are a patch.

  predicate IsMarking(marking: Marking) {
    marking.Marked? ==> Rstrip(marking.line) == MarkerOf(marking.context)
  }

  function MarkerOf(context: Option<string>): string {
    if context.None? then "@@" else "@@ " + context.value
  }

  predicate IsEnding(ending: Ending) {
    ending.Ended? ==>
      Rstrip(ending.line) == END_OF_FILE && forall i | 0 <= i < |ending.blanks| :: Rstrip(ending.blanks[i]) == ""
  }

  // A piece whose lines may still be to come.
  predicate IsBegun(piece: Piece, first: bool) {
    && (piece.marking.Unmarked? ==> first)
    && IsMarking(piece.marking)
    && IsEnding(piece.ending)
  }

  predicate AreBegun(pieces: seq<Piece>) {
    forall i | 0 <= i < |pieces| :: IsBegun(pieces[i], i == 0)
  }

  predicate AreFilled(pieces: seq<Piece>) {
    pieces != [] && forall i | 0 <= i < |pieces| :: pieces[i].edits != []
  }

  predicate IsMoving(moving: Moving) {
    moving.Moves? ==> Rstrip(moving.line) == MOVE + moving.to
  }

  function PrefixOf(section: Section): string {
    match section
    case Adds(_, _, _) => ADD
    case Deletes(_, _) => DELETE
    case Updates(_, _, _, _) => UPDATE
  }

  // A header line may be indented, unless it stands below an update.
  function HeaderText(line: string, belowUpdate: bool): string {
    if belowUpdate then Rstrip(line) else Strip(line)
  }

  predicate IsHeading(section: Section, belowUpdate: bool) {
    HeaderText(section.header, belowUpdate) == PrefixOf(section) + section.path
  }

  predicate IsSectionBegun(section: Section, belowUpdate: bool) {
    && IsHeading(section, belowUpdate)
    && (section.Updates? ==> IsMoving(section.moving) && AreBegun(section.pieces))
  }

  predicate IsSectionFilled(section: Section) {
    section.Updates? ==> AreFilled(section.pieces)
  }

  predicate IsBelowUpdate(sections: seq<Section>, i: nat)
    requires i <= |sections|
  {
    i > 0 && sections[i - 1].Updates?
  }

  predicate AreSectionsBegun(sections: seq<Section>) {
    forall i: nat | i < |sections| :: IsSectionBegun(sections[i], IsBelowUpdate(sections, i))
  }

  predicate IsBodyBegun(body: Body) {
    && (forall i | 0 <= i < |body.environment| :: ENVIRONMENT <= Strip(body.environment[i]))
    && AreSectionsBegun(body.sections)
  }

  // The trees of whole patches: every update has a piece and every piece a line.
  predicate IsBody(body: Body) {
    IsBodyBegun(body) && forall i | 0 <= i < |body.sections| :: IsSectionFilled(body.sections[i])
  }

  // ---- Reading the lines of a tree: headers.

  predicate Trimmed(text: string) {
    text != "" && !IsSpace(text[|text| - 1])
  }

  lemma {:induction false} LinesConcat(hunks: seq<Hunk>, a: seq<string>, b: seq<string>)
    ensures Lines(hunks, a + b) == match Lines(hunks, a) case None => None case Some(next) => Lines(next, b)
    decreases |a|
  {
    hide Line;
    if a == [] {
      assert a + b == b;
    } else {
      assert (a + b)[1..] == a[1..] + b;
      if Line(hunks, a[0]).Some? {
        LinesConcat(Line(hunks, a[0]).value, a[1..], b);
      }
    }
  }

  lemma OneLine(hunks: seq<Hunk>, line: string)
    ensures Lines(hunks, [line]) == Line(hunks, line)
  {
    hide Line;
    assert [line][1..] == [];
  }

  lemma NoLines(hunks: seq<Hunk>)
    ensures Lines(hunks, []) == Some(hunks)
  {
  }

  // The hunk that a header line begins.
  function Heading(section: Section): Hunk {
    match section
    case Adds(_, path, _) => AddFile(path, "")
    case Deletes(_, path) => DeleteFile(path)
    case Updates(_, path, _, _) => UpdateFile(path, None, [])
  }

  // A header is none of the other lines that begin with stars, and its path follows its prefix.
  lemma HeaderIsOwn(section: Section, text: string)
    requires text == PrefixOf(section) + section.path
    ensures text != END && !(ENVIRONMENT <= text)
    ensures section.Adds? <==> ADD <= text
    ensures section.Deletes? <==> DELETE <= text
    ensures section.Updates? <==> UPDATE <= text
    ensures text[|PrefixOf(section)|..] == section.path
  {
    assert text[4] != END[4] && text[4] != ENVIRONMENT[4];
    assert section.Adds? ==> text[4] == 'A';
    assert section.Deletes? ==> text[4] == 'D';
    assert section.Updates? ==> text[4] == 'U';
  }

  lemma HeaderReads(done: seq<Hunk>, section: Section)
    requires MayEnd(done) && IsHeading(section, done != [] && Last(done).UpdateFile?)
    ensures Line(done, section.header) == Some(done + [Heading(section)])
  {
    hide MayEnd, Rstrip, Strip;
    HeaderIsOwn(section, PrefixOf(section) + section.path);
  }

  // ---- Reading the lines of an update.

  // The hunks read while an update is the last of them.
  function Reading(done: seq<Hunk>, path: string, move: Option<string>, chunks: seq<Chunk>): seq<Hunk> {
    done + [UpdateFile(path, move, chunks)]
  }

  lemma HeaderPasses(hunks: seq<Hunk>, text: string)
    requires text == "" || text[0] != '*'
    ensures Header(hunks, text) == Pass
  {
  }

  // A line that is no header is read by the update.
  lemma UpdateReads(done: seq<Hunk>, path: string, move: Option<string>, chunks: seq<Chunk>, line: string, hunk: Hunk)
    requires Header(Reading(done, path, move, chunks), Rstrip(line)) == Pass
    requires UpdateLine(UpdateFile(path, move, chunks), Rstrip(line), line) == Take(hunk)
    ensures Line(Reading(done, path, move, chunks), line) == Some(done + [hunk])
  {
    hide Header, UpdateLine, Rstrip, Strip;
    var now := Reading(done, path, move, chunks);
    assert Last(now) == UpdateFile(path, move, chunks);
    assert now[..|now| - 1] == done;
  }

  lemma MoveIsNoHeader(hunks: seq<Hunk>, text: string)
    requires MOVE <= text
    ensures Header(hunks, text) == Pass
  {
    assert text[4] == MOVE[4] == 'M';
  }

  lemma MoveReads(done: seq<Hunk>, path: string, moving: Moving)
    requires moving.Moves? && IsMoving(moving)
    ensures Line(Reading(done, path, None, []), moving.line) == Some(Reading(done, path, Some(moving.to), []))
  {
    hide Header, Rstrip;
    var text := Rstrip(moving.line);
    assert text[|MOVE|..] == moving.to;
    MoveIsNoHeader(Reading(done, path, None, []), text);
    UpdateReads(done, path, None, [], moving.line, UpdateFile(path, Some(moving.to), []));
  }

  lemma MarkerReads(done: seq<Hunk>, path: string, move: Option<string>, chunks: seq<Chunk>, marking: Marking)
    requires marking.Marked? && IsMarking(marking)
    requires chunks != [] ==> !IsEmpty(Last(chunks))
    ensures Line(Reading(done, path, move, chunks), marking.line) ==
            Some(Reading(done, path, move, chunks + [EmptyChunk(marking.context)]))
  {
    hide IsEmpty, Rstrip;
    var text, context := Rstrip(marking.line), marking.context;
    HeaderPasses(Reading(done, path, move, chunks), text);
    assert context.Some? ==> text[3..] == context.value && text != "@@";
    UpdateReads(done, path, move, chunks, marking.line, UpdateFile(path, move, chunks + [EmptyChunk(context)]));
  }

  // The chunk that the edits make under a context.
  function Edited(context: Option<string>, edits: seq<Edit>): Chunk {
    PatchSplice.Chunk(context, OldTexts(edits), NewTexts(edits), false)
  }

  lemma EditedBy(context: Option<string>, edits: seq<Edit>)
    requires edits != []
    ensures var line, before := EditLine(Last(edits)), Edited(context, edits[..|edits| - 1]);
            Edited(context, edits) ==
            (if line == "" then Grown(before, ' ', "") else Grown(before, line[0], line[1..]))
  {
    var line, edit := EditLine(Last(edits)), Last(edits);
    if !edit.Blank? { assert line[1..] == edit.text; }
  }

  lemma EditText(edit: Edit)
    ensures var line, text := EditLine(edit), Rstrip(EditLine(edit));
      && (line == "" || line[0] in " +-")
      && (text == "" || text[0] in " +-") && text != END_OF_FILE && !IsMarker(text)
  {
    var line, text := EditLine(edit), Rstrip(EditLine(edit));
    if text != "" { assert text[0] == line[0]; }
  }

  lemma EditReads(done: seq<Hunk>, path: string, move: Option<string>, chunks: seq<Chunk>, context: Option<string>,
      edits: seq<Edit>)
    requires edits != []
    ensures Line(Reading(done, path, move, chunks + [Edited(context, edits[..|edits| - 1])]), EditLine(Last(edits))) ==
            Some(Reading(done, path, move, chunks + [Edited(context, edits)]))
  {
    hide Rstrip, OldTexts, NewTexts, Grown, EditLine, IsMarker;
    var line, before := EditLine(Last(edits)), Edited(context, edits[..|edits| - 1]);
    var now := chunks + [before];
    EditText(Last(edits));
    EditedBy(context, edits);
    HeaderPasses(Reading(done, path, move, now), Rstrip(line));
    assert Last(now) == before && now[..|now| - 1] == chunks;
    assert ChunkLine(now, Rstrip(line), line) == Take(chunks + [Edited(context, edits)]);
    assert !(MOVE <= Rstrip(line));
    UpdateReads(done, path, move, now, line, UpdateFile(path, move, chunks + [Edited(context, edits)]));
  }

  // The first line of an update may begin a chunk without a marker.
  lemma FirstReads(done: seq<Hunk>, path: string, move: Option<string>, edit: Edit)
    ensures Line(Reading(done, path, move, []), EditLine(edit)) ==
            Some(Reading(done, path, move, [Edited(None, [edit])]))
  {
    hide Rstrip, Grown, EditLine, IsMarker;
    var line, before := EditLine(edit), Edited(None, []);
    EditText(edit);
    assert [edit][..|[edit]| - 1] == [];
    EditedBy(None, [edit]);
    HeaderPasses(Reading(done, path, move, []), Rstrip(line));
    assert before == EmptyChunk(None);
    assert WithLast([before], Edited(None, [edit])) == [Edited(None, [edit])];
    assert ChunkLine([], Rstrip(line), line) == Take([Edited(None, [edit])]);
    assert !(MOVE <= Rstrip(line));
    UpdateReads(done, path, move, [], line, UpdateFile(path, move, [Edited(None, [edit])]));
  }

  lemma {:induction false} EditsRead(done: seq<Hunk>, path: string, move: Option<string>, chunks: seq<Chunk>,
      marking: Marking, edits: seq<Edit>)
    requires marking.Unmarked? ==> chunks == [] && edits != []
    ensures Lines(Reading(done, path, move, if marking.Unmarked? then [] else chunks + [EmptyChunk(marking.context)]),
                  EditLines(edits)) ==
            Some(Reading(done, path, move, chunks + [Edited(ContextOf(marking), edits)]))
    decreases |edits|
  {
    hide Line, Lines, Reading, Edited;
    var context := ContextOf(marking);
    var begun := if marking.Unmarked? then [] else chunks + [EmptyChunk(marking.context)];
    var start := Reading(done, path, move, begun);
    if edits == [] {
      NoLines(start);
      EditedNothing(context);
    } else {
      var rest, line := edits[..|edits| - 1], EditLine(Last(edits));
      if rest == [] && marking.Unmarked? {
        FirstReads(done, path, move, Last(edits));
        OneLine(start, line);
        assert edits == [Last(edits)];
        assert EditLines(edits) == [line];
        assert chunks + [Edited(context, edits)] == [Edited(context, edits)];
      } else {
        EditsRead(done, path, move, chunks, marking, rest);
        EditReads(done, path, move, chunks, context, edits);
        LinesConcat(start, EditLines(rest), [line]);
        OneLine(Reading(done, path, move, chunks + [Edited(context, rest)]), line);
      }
    }
  }

  lemma EditedNothing(context: Option<string>)
    ensures Edited(context, []) == EmptyChunk(context)
  {
  }

  lemma EditedIsFilled(context: Option<string>, edits: seq<Edit>)
    ensures IsEmpty(Edited(context, edits)) <==> edits == []
  {
  }

  lemma EndReads(done: seq<Hunk>, path: string, move: Option<string>, chunks: seq<Chunk>, chunk: Chunk, line: string)
    requires !IsEmpty(chunk) && !chunk.eof && Rstrip(line) == END_OF_FILE
    ensures Line(Reading(done, path, move, chunks + [chunk]), line) ==
            Some(Reading(done, path, move, chunks + [chunk.(eof := true)]))
  {
    hide IsEmpty, Rstrip;
    var now := chunks + [chunk];
    assert END_OF_FILE[4] == 'E' && END_OF_FILE[8] != END[8];
    assert Last(now) == chunk && now[..|now| - 1] == chunks;
    assert END_OF_FILE[0] == '*' && !IsMarker(END_OF_FILE);
    assert ChunkLine(now, END_OF_FILE, line) == Take(chunks + [chunk.(eof := true)]);
    UpdateReads(done, path, move, now, line, UpdateFile(path, move, chunks + [chunk.(eof := true)]));
  }

  lemma {:induction false} BlanksRead(done: seq<Hunk>, path: string, move: Option<string>, chunks: seq<Chunk>,
      blanks: seq<string>)
    requires chunks != [] && Last(chunks).eof && forall i | 0 <= i < |blanks| :: Rstrip(blanks[i]) == ""
    ensures Lines(Reading(done, path, move, chunks), blanks) == Some(Reading(done, path, move, chunks))
    decreases |blanks|
  {
    hide Line, Header, Rstrip, ChunkLine;
    if blanks != [] {
      HeaderPasses(Reading(done, path, move, chunks), "");
      UpdateReads(done, path, move, chunks, blanks[0], UpdateFile(path, move, chunks));
      BlanksRead(done, path, move, chunks, blanks[1..]);
    }
  }

  lemma EndingReads(done: seq<Hunk>, path: string, move: Option<string>, chunks: seq<Chunk>, chunk: Chunk,
      ending: Ending)
    requires !IsEmpty(chunk) && !chunk.eof && ending.Ended? && IsEnding(ending)
    ensures Lines(Reading(done, path, move, chunks + [chunk]), [ending.line] + ending.blanks) ==
            Some(Reading(done, path, move, chunks + [chunk.(eof := true)]))
  {
    hide Line, Lines, Reading, IsEmpty;
    var start, ended := Reading(done, path, move, chunks + [chunk]), chunks + [chunk.(eof := true)];
    EndReads(done, path, move, chunks, chunk, ending.line);
    OneLine(start, ending.line);
    LinesConcat(start, [ending.line], ending.blanks);
    BlanksRead(done, path, move, ended, ending.blanks);
  }

  lemma PieceReads(done: seq<Hunk>, path: string, move: Option<string>, chunks: seq<Chunk>, piece: Piece)
    requires IsBegun(piece, chunks == []) && piece.edits != []
    requires chunks != [] ==> !IsEmpty(Last(chunks))
    ensures Lines(Reading(done, path, move, chunks), PieceLines(piece)) ==
            Some(Reading(done, path, move, chunks + [ChunkOf(piece)]))
    ensures !IsEmpty(ChunkOf(piece))
  {
    hide Line, Lines, Reading, IsMarking, IsEnding, IsEmpty;
    var start, edited := Reading(done, path, move, chunks), Edited(ContextOf(piece.marking), piece.edits);
    var marked := if piece.marking.Marked? then [piece.marking.line] else [];
    if piece.marking.Marked? {
      MarkerReads(done, path, move, chunks, piece.marking);
      OneLine(start, piece.marking.line);
    } else {
      NoLines(start);
    }
    EditsRead(done, path, move, chunks, piece.marking, piece.edits);
    LinesConcat(start, marked, EditLines(piece.edits));
    EditedIsFilled(ContextOf(piece.marking), piece.edits);
    FilledEvenIfEnded(edited);
    if piece.ending.Ended? {
      EndingReads(done, path, move, chunks, edited, piece.ending);
      LinesConcat(start, marked + EditLines(piece.edits), [piece.ending.line] + piece.ending.blanks);
      assert ChunkOf(piece) == edited.(eof := true);
    } else {
      assert PieceLines(piece) == marked + EditLines(piece.edits);
      assert ChunkOf(piece) == edited;
    }
  }

  lemma FilledEvenIfEnded(chunk: Chunk)
    ensures IsEmpty(chunk.(eof := true)) == IsEmpty(chunk)
  {
  }

  lemma {:induction false} PiecesRead(done: seq<Hunk>, path: string, move: Option<string>, pieces: seq<Piece>)
    requires AreBegun(pieces) && forall i | 0 <= i < |pieces| :: pieces[i].edits != []
    ensures Lines(Reading(done, path, move, []), PiecesLines(pieces)) ==
            Some(Reading(done, path, move, ChunksOf(pieces)))
    ensures pieces != [] ==> !IsEmpty(Last(ChunksOf(pieces)))
    decreases |pieces|
  {
    hide Lines, Reading, PieceLines, ChunkOf, IsBegun, IsEmpty;
    var start := Reading(done, path, move, []);
    if pieces == [] {
      NoLines(start);
    } else {
      var rest, last := pieces[..|pieces| - 1], Last(pieces);
      PiecesRead(done, path, move, rest);
      PieceReads(done, path, move, ChunksOf(rest), last);
      LinesConcat(start, PiecesLines(rest), PieceLines(last));
    }
  }

  lemma UpdateSectionReads(done: seq<Hunk>, section: Section)
    requires section.Updates? && MayEnd(done)
    requires IsSectionBegun(section, done != [] && Last(done).UpdateFile?) && IsSectionFilled(section)
    ensures Lines(done, SectionLines(section)) == Some(done + [HunkOf(section)]) && MayEnd(done + [HunkOf(section)])
  {
    hide Line, Lines, IsHeading, IsMoving, AreBegun, PiecesLines, IsEmpty;
    var path, moving := section.path, section.moving;
    HeaderReads(done, section);
    OneLine(done, section.header);
    var start, moved := Reading(done, path, None, []), if moving.Moves? then [moving.line] else [];
    if moving.Moves? {
      MoveReads(done, path, moving);
      OneLine(start, moving.line);
    } else {
      NoLines(start);
    }
    LinesConcat(done, [section.header], moved);
    PiecesRead(done, path, MoveOf(moving), section.pieces);
    LinesConcat(done, [section.header] + moved, PiecesLines(section.pieces));
  }

  // ---- Reading the lines of an added file.

  lemma AddedLine(done: seq<Hunk>, path: string, contents: string, text: string)
    ensures Line(done + [AddFile(path, contents)], "+" + text) ==
            Some(done + [AddFile(path, contents + text + "\n")])
  {
    var line, now := "+" + text, done + [AddFile(path, contents)];
    assert Strip(line) != "" && Strip(line)[0] == '+' by {
      assert !IsSpace(line[0]);
    }
    HeaderPasses(now, Strip(line));
    assert line[1..] == text && Last(now) == AddFile(path, contents) && now[..|now| - 1] == done;
  }

  lemma TerminatedBy(texts: seq<string>)
    requires texts != []
    ensures PatchSplice.Terminated(texts) == PatchSplice.Terminated(texts[..|texts| - 1]) + Last(texts) + "\n"
  {
    hide PatchSplice.Terminated;
    PatchSplice.TerminatedLast(texts[..|texts| - 1], Last(texts));
    assert texts == texts[..|texts| - 1] + [Last(texts)];
  }

  lemma {:induction false} AddedRead(done: seq<Hunk>, path: string, texts: seq<string>)
    ensures Lines(done + [AddFile(path, "")], AddedLines(texts)) ==
            Some(done + [AddFile(path, PatchSplice.Terminated(texts))])
    decreases |texts|
  {
    hide Line, Lines;
    var start := done + [AddFile(path, "")];
    if texts == [] {
      NoLines(start);
    } else {
      var rest, line := texts[..|texts| - 1], "+" + Last(texts);
      AddedRead(done, path, rest);
      AddedLine(done, path, PatchSplice.Terminated(rest), Last(texts));
      TerminatedBy(texts);
      LinesConcat(start, AddedLines(rest), [line]);
      OneLine(done + [AddFile(path, PatchSplice.Terminated(rest))], line);
    }
  }

  // ---- Reading a whole tree.

  lemma SectionReads(done: seq<Hunk>, section: Section)
    requires MayEnd(done)
    requires IsSectionBegun(section, done != [] && Last(done).UpdateFile?) && IsSectionFilled(section)
    ensures Lines(done, SectionLines(section)) == Some(done + [HunkOf(section)]) && MayEnd(done + [HunkOf(section)])
  {
    hide Line, Lines, IsHeading, AreBegun, AreFilled, PatchSplice.Terminated;
    if section.Updates? {
      UpdateSectionReads(done, section);
    } else {
      HeaderReads(done, section);
      OneLine(done, section.header);
      if section.Adds? {
        AddedRead(done, section.path, section.texts);
        LinesConcat(done, [section.header], AddedLines(section.texts));
      }
    }
  }

  lemma {:induction false} SectionsRead(sections: seq<Section>)
    requires AreSectionsBegun(sections) && forall i | 0 <= i < |sections| :: IsSectionFilled(sections[i])
    ensures Lines([], SectionsLines(sections)) == Some(HunksOf(sections)) && MayEnd(HunksOf(sections))
    decreases |sections|
  {
    hide Lines, SectionLines, HunkOf, IsSectionBegun, IsSectionFilled, MayEnd;
    if sections == [] {
      NoLines([]);
      assert MayEnd([]) by { NothingMayEnd(); }
    } else {
      var front, last := sections[..|sections| - 1], Last(sections);
      assert sections == front + [last];
      FrontIsBegun(front, last);
      SectionsRead(front);
      LastKind(front);
      SectionReads(HunksOf(front), last);
      LinesConcat([], SectionsLines(front), SectionLines(last));
    }
  }

  lemma NothingMayEnd()
    ensures MayEnd([])
  {
  }

  lemma LastKind(sections: seq<Section>)
    ensures (HunksOf(sections) != [] && Last(HunksOf(sections)).UpdateFile?) == IsBelowUpdate(sections, |sections|)
  {
  }

  lemma {:induction false} EnvironmentReads(environment: seq<string>)
    requires forall i | 0 <= i < |environment| :: ENVIRONMENT <= Strip(environment[i])
    ensures Lines([], environment) == Some([])
    decreases |environment|
  {
    hide Strip;
    if environment != [] {
      assert Strip(environment[0])[6] != END[6];
      assert Line([], environment[0]) == Some([]);
      EnvironmentReads(environment[1..]);
    }
  }

  /** The lines of a patch tree are accepted, and they give the hunks that the tree means. */
  lemma TreeParses(body: Body)
    requires IsBody(body)
    ensures Parsed(BodyLines(body)) == Ok(HunksOf(body.sections))
  {
    hide Lines, IsSectionFilled, AreSectionsBegun, MayEnd;
    EnvironmentReads(body.environment);
    SectionsRead(body.sections);
    LinesConcat([], body.environment, SectionsLines(body.sections));
  }

  // ---- The tree of the lines read so far.

  function EditFor(line: string): Edit
    requires line == "" || line[0] in " +-"
  {
    if line == "" then Blank
    else if line[0] == ' ' then Keep(line[1..])
    else if line[0] == '-' then Remove(line[1..])
    else Insert(line[1..])
  }

  lemma EditForLine(line: string)
    requires line == "" || line[0] in " +-"
    ensures EditLine(EditFor(line)) == line
  {
    if line != "" { assert line == [line[0]] + line[1..]; }
  }

  // The trees and what they say, with the last element replaced or one added.
  lemma PiecesWith(pieces: seq<Piece>, piece: Piece)
    ensures PiecesLines(pieces + [piece]) == PiecesLines(pieces) + PieceLines(piece)
    ensures ChunksOf(pieces + [piece]) == ChunksOf(pieces) + [ChunkOf(piece)]
  {
    assert (pieces + [piece])[..|pieces|] == pieces;
  }

  lemma PiecesLast(pieces: seq<Piece>, piece: Piece, line: string)
    requires pieces != [] && PieceLines(piece) == PieceLines(Last(pieces)) + [line]
    ensures PiecesLines(WithLast(pieces, piece)) == PiecesLines(pieces) + [line]
    ensures ChunksOf(WithLast(pieces, piece)) == WithLast(ChunksOf(pieces), ChunkOf(piece))
  {
    hide PieceLines, ChunkOf;
    PiecesWith(pieces[..|pieces| - 1], piece);
  }

  lemma EditsWith(edits: seq<Edit>, edit: Edit)
    ensures EditLines(edits + [edit]) == EditLines(edits) + [EditLine(edit)]
    ensures (edits + [edit])[..|edits|] == edits && Last(edits + [edit]) == edit
  {
    assert (edits + [edit])[..|edits|] == edits;
  }

  lemma GrowsBy(piece: Piece, line: string) returns (next: Piece)
    requires piece.ending.Open? && (line == "" || line[0] in " +-")
    ensures next.marking == piece.marking && next.ending == piece.ending
    ensures PieceLines(next) == PieceLines(piece) + [line]
    ensures ChunkOf(next) ==
            if line == "" then Grown(ChunkOf(piece), ' ', "") else Grown(ChunkOf(piece), line[0], line[1..])
  {
    hide EditLines, OldTexts, NewTexts, Grown;
    var edits := piece.edits + [EditFor(line)];
    next := piece.(edits := edits);
    EditForLine(line);
    EditsWith(piece.edits, EditFor(line));
    EditedBy(ContextOf(piece.marking), edits);
    assert ChunkOf(next) == Edited(ContextOf(piece.marking), edits);
    assert ChunkOf(piece) == Edited(ContextOf(piece.marking), piece.edits);
  }

  // The first line of an update that has no marker makes an unmarked piece.
  lemma FirstGrows(line: string) returns (next: seq<Piece>)
    requires line == "" || line[0] in " +-"
    ensures AreBegun(next) && PiecesLines(next) == [line]
    ensures BodyLine([], line) == Take(ChunksOf(next))
  {
    hide PieceLines, ChunkOf, Grown, IsMarking;
    var none := Piece(Unmarked, [], Open);
    EmptyPiece(none);
    var piece := GrowsBy(none, line);
    next := [] + [piece];
    PiecesWith([], piece);
    MarkingOfNone();
    assert WithLast([EmptyChunk(None)], ChunkOf(piece)) == [ChunkOf(piece)];
  }

  lemma BodyLineGrows(pieces: seq<Piece>, line: string) returns (next: seq<Piece>)
    requires AreBegun(pieces) && (pieces != [] ==> Last(pieces).ending.Open?)
    requires BodyLine(ChunksOf(pieces), line).Take?
    ensures AreBegun(next) && PiecesLines(next) == PiecesLines(pieces) + [line]
    ensures BodyLine(ChunksOf(pieces), line) == Take(ChunksOf(next))
  {
    hide PieceLines, PiecesLines, ChunkOf, ChunksOf, Grown, IsMarking, IsEnding, AreBegun;
    if pieces == [] {
      next := FirstGrows(line);
      NoPieces();
    } else {
      var piece := GrowsBy(Last(pieces), line);
      next := WithLast(pieces, piece);
      PiecesLast(pieces, piece, line);
      LastIsBegun(pieces);
      BegunWithLast(pieces, piece);
    }
  }

  lemma LastIsBegun(pieces: seq<Piece>)
    requires AreBegun(pieces) && pieces != []
    ensures IsBegun(Last(pieces), |pieces| == 1)
  {
  }

  lemma BegunWithLast(pieces: seq<Piece>, piece: Piece)
    requires AreBegun(pieces) && pieces != [] && IsBegun(piece, |pieces| == 1)
    ensures AreBegun(WithLast(pieces, piece))
  {
  }

  lemma MarkingOfNone()
    ensures IsMarking(Unmarked)
  {
  }

  lemma EmptyPiece(piece: Piece)
    requires piece.edits == [] && piece.ending.Open?
    ensures PieceLines(piece) == (if piece.marking.Marked? then [piece.marking.line] else [])
    ensures ChunkOf(piece) == EmptyChunk(ContextOf(piece.marking))
  {
  }

  lemma MarkerGrows(pieces: seq<Piece>, line: string) returns (next: seq<Piece>)
    requires AreBegun(pieces) && IsMarker(Rstrip(line)) && Marker(ChunksOf(pieces), Rstrip(line)).Take?
    ensures AreBegun(next) && PiecesLines(next) == PiecesLines(pieces) + [line]
    ensures Marker(ChunksOf(pieces), Rstrip(line)) == Take(ChunksOf(next))
  {
    hide PieceLines, ChunkOf, Rstrip;
    var text := Rstrip(line);
    var context := if text == "@@" then None else Some(text[3..]);
    var piece := Piece(Marked(line, context), [], Open);
    assert text != "@@" ==> text == "@@ " + text[3..];
    EmptyPiece(piece);
    next := pieces + [piece];
    PiecesWith(pieces, piece);
  }

  lemma EndGrows(pieces: seq<Piece>, line: string) returns (next: seq<Piece>)
    requires AreBegun(pieces) && (pieces != [] ==> Last(pieces).ending.Open?)
    requires Rstrip(line) == END_OF_FILE && EndOfFile(ChunksOf(pieces)).Take?
    ensures AreBegun(next) && PiecesLines(next) == PiecesLines(pieces) + [line]
    ensures EndOfFile(ChunksOf(pieces)) == Take(ChunksOf(next))
  {
    hide Rstrip, EditLines, OldTexts, NewTexts, IsMarking, IsEmpty, AreBegun, PiecesLines, ChunksOf;
    var piece := Last(pieces).(ending := Ended(line, []));
    next := WithLast(pieces, piece);
    assert PieceLines(piece) == PieceLines(Last(pieces)) + [line];
    assert ChunkOf(piece) == ChunkOf(Last(pieces)).(eof := true);
    PiecesLast(pieces, piece, line);
    LastIsBegun(pieces);
    BegunWithLast(pieces, piece);
  }

  lemma ChunkLineGrows(pieces: seq<Piece>, line: string) returns (next: seq<Piece>)
    requires AreBegun(pieces) && ChunkLine(ChunksOf(pieces), Rstrip(line), line).Take?
    requires pieces != [] && Last(pieces).ending.Ended? ==> IsMarker(Rstrip(line))
    ensures AreBegun(next) && PiecesLines(next) == PiecesLines(pieces) + [line]
    ensures ChunkLine(ChunksOf(pieces), Rstrip(line), line) == Take(ChunksOf(next))
  {
    hide Rstrip, IsMarker, Marker, EndOfFile, BodyLine, AreBegun, ChunksOf, PiecesLines;
    if IsMarker(Rstrip(line)) {
      next := MarkerGrows(pieces, line);
    } else if Rstrip(line) == END_OF_FILE {
      next := EndGrows(pieces, line);
    } else {
      next := BodyLineGrows(pieces, line);
    }
  }

  // A blank line below an end-of-file mark belongs to the piece that the mark ends.
  lemma BlankGrows(pieces: seq<Piece>, line: string) returns (next: seq<Piece>)
    requires AreBegun(pieces) && pieces != [] && Last(pieces).ending.Ended? && Rstrip(line) == ""
    ensures AreBegun(next) && PiecesLines(next) == PiecesLines(pieces) + [line]
    ensures ChunksOf(next) == ChunksOf(pieces)
  {
    hide Rstrip, EditLines, OldTexts, NewTexts, IsMarking, AreBegun, PiecesLines, ChunksOf;
    var ending := Last(pieces).ending;
    var piece := Last(pieces).(ending := ending.(blanks := ending.blanks + [line]));
    next := WithLast(pieces, piece);
    assert PieceLines(piece) == PieceLines(Last(pieces)) + [line];
    assert ChunkOf(piece) == ChunkOf(Last(pieces));
    PiecesLast(pieces, piece, line);
    assert WithLast(ChunksOf(pieces), Last(ChunksOf(pieces))) == ChunksOf(pieces);
    LastIsBegun(pieces);
    BegunWithLast(pieces, piece);
  }

  lemma MoveGrows(section: Section, line: string, to: string, belowUpdate: bool) returns (next: Section)
    requires section.Updates? && IsSectionBegun(section, belowUpdate) && section.pieces == [] && section.moving.Stays?
    requires IsMoving(Moves(line, to))
    ensures next.Updates? && IsSectionBegun(next, belowUpdate) && SectionLines(next) == SectionLines(section) + [line]
    ensures HunkOf(next) == UpdateFile(section.path, Some(to), [])
  {
    hide Rstrip, Strip, AreBegun, ChunksOf;
    next := section.(moving := Moves(line, to));
  }

  lemma UpdateGrows(section: Section, line: string, belowUpdate: bool) returns (next: Section)
    requires section.Updates? && IsSectionBegun(section, belowUpdate)
    requires UpdateLine(HunkOf(section), Rstrip(line), line).Take?
    ensures next.Updates? && IsSectionBegun(next, belowUpdate) && SectionLines(next) == SectionLines(section) + [line]
    ensures UpdateLine(HunkOf(section), Rstrip(line), line) == Take(HunkOf(next))
  {
    hide Rstrip, ChunkLine, AreBegun, PiecesLines, ChunksOf, IsMarker, HeaderText;
    var hunk, text, pieces := HunkOf(section), Rstrip(line), section.pieces;
    if SkipAfterEof(hunk, text).Take? {
      var grown := BlankGrows(pieces, line);
      next := section.(pieces := grown);
    } else if TakeMove(hunk, text).Take? {
      assert text == MOVE + text[|MOVE|..];
      next := MoveGrows(section, line, text[|MOVE|..], belowUpdate);
    } else {
      var grown := ChunkLineGrows(pieces, line);
      next := section.(pieces := grown);
    }
  }

  lemma NoPieces()
    ensures PiecesLines([]) == []
  {
  }

  lemma AddGrows(section: Section, line: string) returns (next: Section)
    requires section.Adds? && line != "" && line[0] == '+'
    ensures next.Adds? && next.header == section.header && next.path == section.path
    ensures SectionLines(next) == SectionLines(section) + [line]
    ensures HunkOf(next) == AddFile(section.path, PatchSplice.Terminated(section.texts) + line[1..] + "\n")
  {
    hide PatchSplice.Terminated;
    var texts := section.texts + [line[1..]];
    next := section.(texts := texts);
    assert texts[..|texts| - 1] == section.texts && Last(texts) == line[1..];
    assert line == "+" + line[1..];
    TerminatedBy(texts);
  }

  lemma SectionGrows(section: Section, text: string, line: string, belowUpdate: bool) returns (next: Section)
    requires IsSectionBegun(section, belowUpdate) && (section.Updates? ==> text == Rstrip(line))
    requires BelowHeader(HunkOf(section), text, line).Take?
    ensures IsSectionBegun(next, belowUpdate) && SectionLines(next) == SectionLines(section) + [line]
    ensures next.Updates? == section.Updates?
    ensures BelowHeader(HunkOf(section), text, line) == Take(HunkOf(next))
  {
    hide UpdateLine, Rstrip, Strip, AreBegun, PatchSplice.Terminated, SectionLines, ChunksOf;
    if section.Updates? {
      next := UpdateGrows(section, line, belowUpdate);
    } else {
      next := AddGrows(section, line);
    }
  }

  lemma HeaderBegins(hunks: seq<Hunk>, line: string, belowUpdate: bool) returns (next: Section)
    requires !(ENVIRONMENT <= HeaderText(line, belowUpdate) && hunks == [])
    requires Header(hunks, HeaderText(line, belowUpdate)).Take?
    ensures IsSectionBegun(next, belowUpdate) && SectionLines(next) == [line]
    ensures Header(hunks, HeaderText(line, belowUpdate)) == Take(hunks + [HunkOf(next)])
  {
    hide Rstrip, Strip, MayEnd, HeaderText;
    var text := HeaderText(line, belowUpdate);
    if ADD <= text {
      next := Adds(line, text[|ADD|..], []);
    } else if DELETE <= text {
      next := Deletes(line, text[|DELETE|..]);
    } else {
      next := Updates(line, text[|UPDATE|..], Stays, []);
    }
    assert text == PrefixOf(next) + next.path;
  }

  lemma SectionsWith(sections: seq<Section>, section: Section)
    ensures SectionsLines(sections + [section]) == SectionsLines(sections) + SectionLines(section)
    ensures HunksOf(sections + [section]) == HunksOf(sections) + [HunkOf(section)]
  {
    assert (sections + [section])[..|sections|] == sections;
  }

  lemma SectionsBegunWith(sections: seq<Section>, section: Section)
    requires AreSectionsBegun(sections) && IsSectionBegun(section, IsBelowUpdate(sections, |sections|))
    ensures AreSectionsBegun(sections + [section])
  {
    hide IsSectionBegun;
    var all := sections + [section];
    forall i: nat | i < |all|
      ensures IsSectionBegun(all[i], IsBelowUpdate(all, i))
    {
      if i < |sections| { assert IsSectionBegun(sections[i], IsBelowUpdate(sections, i)); }
    }
  }

  lemma FrontIsBegun(front: seq<Section>, last: Section)
    requires AreSectionsBegun(front + [last])
    ensures AreSectionsBegun(front) && IsSectionBegun(last, IsBelowUpdate(front, |front|))
  {
    hide IsSectionBegun;
    var all := front + [last];
    forall i: nat | i < |front|
      ensures IsSectionBegun(front[i], IsBelowUpdate(front, i))
    {
      assert IsSectionBegun(all[i], IsBelowUpdate(all, i));
    }
    assert IsSectionBegun(all[|front|], IsBelowUpdate(all, |front|));
  }

  lemma Replaced<T>(front: seq<T>, last: T, item: T)
    ensures WithLast(front + [last], item) == front + [item]
  {
    assert (front + [last])[..|front|] == front;
  }

  lemma SectionsGrow(front: seq<Section>, last: Section, section: Section, line: string)
    requires AreSectionsBegun(front) && IsSectionBegun(section, IsBelowUpdate(front, |front|))
    requires SectionLines(section) == SectionLines(last) + [line]
    ensures AreSectionsBegun(front + [section])
    ensures SectionsLines(front + [section]) == SectionsLines(front + [last]) + [line]
    ensures HunksOf(front + [section]) == WithLast(HunksOf(front + [last]), HunkOf(section))
  {
    hide IsSectionBegun, AreSectionsBegun, SectionLines, SectionsLines, HunkOf, HunksOf, WithLast;
    SectionsWith(front, section);
    SectionsWith(front, last);
    SectionsBegunWith(front, section);
    Replaced(HunksOf(front), HunkOf(last), HunkOf(section));
  }

  lemma BodyGrows(body: Body, line: string) returns (next: Body)
    requires IsBodyBegun(body) && Line(HunksOf(body.sections), line).Some?
    ensures IsBodyBegun(next) && BodyLines(next) == BodyLines(body) + [line]
    ensures Line(HunksOf(body.sections), line) == Some(HunksOf(next.sections))
  {
    hide Header, BelowHeader, IsSectionBegun, AreSectionsBegun, SectionLines, SectionsLines, HunkOf, HunksOf, Rstrip,
      Strip;
    var sections, hunks := body.sections, HunksOf(body.sections);
    var belowUpdate := IsBelowUpdate(sections, |sections|);
    LastKind(sections);
    var text := HeaderText(line, belowUpdate);
    if Header(hunks, text).Take? && ENVIRONMENT <= text && hunks == [] {
      next := EnvironmentGrows(body, line);
    } else if Header(hunks, text).Take? {
      var section := HeaderBegins(hunks, line, belowUpdate);
      next := body.(sections := sections + [section]);
      SectionsWith(sections, section);
      SectionsBegunWith(sections, section);
    } else {
      var front, last := sections[..|sections| - 1], Last(sections);
      assert sections == front + [last];
      FrontIsBegun(front, last);
      KindOf(last);
      var section := SectionGrows(last, text, line, IsBelowUpdate(front, |front|));
      next := body.(sections := front + [section]);
      SectionsGrow(front, last, section, line);
    }
  }

  lemma KindOf(section: Section)
    ensures HunkOf(section).UpdateFile? == section.Updates?
  {
  }

  lemma EnvironmentGrows(body: Body, line: string) returns (next: Body)
    requires IsBodyBegun(body) && body.sections == [] && ENVIRONMENT <= Strip(line)
    ensures IsBodyBegun(next) && BodyLines(next) == BodyLines(body) + [line] && next.sections == []
    ensures Line([], line) == Some([])
  {
    hide Strip, Rstrip;
    next := body.(environment := body.environment + [line]);
    assert Strip(line)[6] != END[6];
  }

  lemma {:induction false} LinesGrow(body: Body, lines: seq<string>) returns (next: Body)
    requires IsBodyBegun(body) && Lines(HunksOf(body.sections), lines).Some?
    ensures IsBodyBegun(next) && BodyLines(next) == BodyLines(body) + lines
    ensures Lines(HunksOf(body.sections), lines) == Some(HunksOf(next.sections))
    decreases |lines|
  {
    hide Line, IsBodyBegun, BodyLines, HunksOf;
    if lines == [] {
      next := body;
    } else {
      var grown := BodyGrows(body, lines[0]);
      next := LinesGrow(grown, lines[1..]);
      assert BodyLines(body) + [lines[0]] + lines[1..] == BodyLines(body) + lines;
    }
  }

  lemma {:induction false} ChunkAt(pieces: seq<Piece>, i: nat)
    requires i < |pieces|
    ensures ChunksOf(pieces)[i] == ChunkOf(pieces[i])
  {
    hide ChunkOf;
    if i < |pieces| - 1 { ChunkAt(pieces[..|pieces| - 1], i); }
  }

  lemma {:induction false} HunkAt(sections: seq<Section>, i: nat)
    requires i < |sections|
    ensures HunksOf(sections)[i] == HunkOf(sections[i])
  {
    hide HunkOf;
    if i < |sections| - 1 { HunkAt(sections[..|sections| - 1], i); }
  }

  lemma FilledIsFilled(section: Section)
    ensures IsSectionFilled(section) <==> Filled(HunkOf(section))
  {
    hide ChunksOf, IsEmpty, PatchSplice.Terminated, OldTexts, NewTexts;
    if section.Updates? {
      forall i: nat | i < |section.pieces|
        ensures ChunksOf(section.pieces)[i] == ChunkOf(section.pieces[i])
        ensures IsEmpty(ChunkOf(section.pieces[i])) <==> section.pieces[i].edits == []
      {
        ChunkAt(section.pieces, i);
        ChunkIsFilled(section.pieces[i]);
      }
    }
  }

  lemma ChunkIsFilled(piece: Piece)
    ensures IsEmpty(ChunkOf(piece)) <==> piece.edits == []
  {
    EditedIsFilled(ContextOf(piece.marking), piece.edits);
  }

  /** Every accepted patch is the lines of a patch tree, and its hunks are those that the tree means. */
  lemma ParsedIsTree(lines: seq<string>) returns (body: Body)
    requires Parsed(lines).Ok?
    ensures IsBody(body) && BodyLines(body) == lines && Parsed(lines) == Ok(HunksOf(body.sections))
  {
    hide Lines, Filled, IsSectionFilled, AreSectionsBegun, HunkOf;
    var none := Body([], []);
    assert IsBodyBegun(none) by { NothingIsBegun(); }
    body := LinesGrow(none, lines);
    AcceptedIsFilled(lines);
    forall i | 0 <= i < |body.sections|
      ensures IsSectionFilled(body.sections[i])
    {
      HunkAt(body.sections, i);
      FilledIsFilled(body.sections[i]);
    }
  }

  lemma NothingIsBegun()
    ensures AreSectionsBegun([])
  {
  }

  /** The accepted patches are exactly the lines of the patch trees. */
  lemma AcceptedExactly(lines: seq<string>)
    ensures Parsed(lines).Ok? <==> exists body :: IsBody(body) && BodyLines(body) == lines
  {
    hide Parsed, IsBody, BodyLines, HunksOf;
    if Parsed(lines).Ok? {
      var body := ParsedIsTree(lines);
    }
    if body :| IsBody(body) && BodyLines(body) == lines {
      TreeParses(body);
    }
  }

  // ---- Printing.

  predicate WellFormedChunk(chunk: Chunk) {
    !IsEmpty(chunk) && (chunk.context.Some? ==> Trimmed(chunk.context.value))
  }

  // What a hunk that was read is like: its path, its move and the contexts of its chunks are not empty and have no
  // space at the end, what it adds ends in a newline, and every chunk has a line.
  predicate WellFormed(hunk: Hunk) {
    Trimmed(hunk.path) &&
    match hunk
    case AddFile(_, contents) => contents == "" || Last(contents) == '\n'
    case DeleteFile(_) => true
    case UpdateFile(_, move, chunks) =>
      && (move.Some? ==> Trimmed(move.value))
      && chunks != []
      && forall i | 0 <= i < |chunks| :: WellFormedChunk(chunks[i])
  }

  // The removed lines, then the inserted ones.
  function EditsFor(oldTexts: seq<string>, newTexts: seq<string>): seq<Edit> {
    if newTexts != [] then EditsFor(oldTexts, newTexts[..|newTexts| - 1]) + [Insert(Last(newTexts))]
    else if oldTexts != [] then EditsFor(oldTexts[..|oldTexts| - 1], []) + [Remove(Last(oldTexts))]
    else []
  }

  function PieceFor(chunk: Chunk): Piece {
    Piece(Marked(MarkerOf(chunk.context), chunk.context), EditsFor(chunk.oldLines, chunk.newLines),
          if chunk.eof then Ended(END_OF_FILE, []) else Open)
  }

  function PiecesFor(chunks: seq<Chunk>): (pieces: seq<Piece>)
    ensures |pieces| == |chunks|
  {
    if chunks == [] then [] else PiecesFor(chunks[..|chunks| - 1]) + [PieceFor(Last(chunks))]
  }

  function SectionFor(hunk: Hunk): Section {
    match hunk
    case AddFile(path, contents) => Adds(ADD + path, path, PatchSplice.Lines(contents))
    case DeleteFile(path) => Deletes(DELETE + path, path)
    case UpdateFile(path, move, chunks) =>
      var moving := if move.Some? then Moves(MOVE + move.value, move.value) else Stays;
      Updates(UPDATE + path, path, moving, PiecesFor(chunks))
  }

  function SectionsFor(hunks: seq<Hunk>): (sections: seq<Section>)
    ensures |sections| == |hunks|
  {
    if hunks == [] then [] else SectionsFor(hunks[..|hunks| - 1]) + [SectionFor(Last(hunks))]
  }

  function Printed(hunks: seq<Hunk>): seq<string> {
    BodyLines(Body([], SectionsFor(hunks)))
  }

  lemma OneEdit(edits: seq<Edit>, text: string)
    ensures OldTexts(edits + [Remove(text)]) == OldTexts(edits) + [text]
    ensures NewTexts(edits + [Remove(text)]) == NewTexts(edits)
    ensures OldTexts(edits + [Insert(text)]) == OldTexts(edits)
    ensures NewTexts(edits + [Insert(text)]) == NewTexts(edits) + [text]
  {
    EditsWith(edits, Remove(text));
    EditsWith(edits, Insert(text));
  }

  lemma {:induction false} EditsForMean(oldTexts: seq<string>, newTexts: seq<string>)
    ensures OldTexts(EditsFor(oldTexts, newTexts)) == oldTexts
    ensures NewTexts(EditsFor(oldTexts, newTexts)) == newTexts
    decreases |newTexts|, |oldTexts|
  {
    hide OldTexts, NewTexts;
    if newTexts != [] {
      var rest := newTexts[..|newTexts| - 1];
      EditsForMean(oldTexts, rest);
      OneEdit(EditsFor(oldTexts, rest), Last(newTexts));
    } else if oldTexts != [] {
      var rest := oldTexts[..|oldTexts| - 1];
      EditsForMean(rest, []);
      OneEdit(EditsFor(rest, []), Last(oldTexts));
    } else {
      NoTexts();
    }
  }

  // A text that ends in no space is as it is when the spaces at its end are removed.
  lemma RstripNothing(text: string)
    requires Trimmed(text)
    ensures Rstrip(text) == text && (!IsSpace(text[0]) ==> Strip(text) == text)
  {
  }

  lemma PieceForMeans(chunk: Chunk)
    requires WellFormedChunk(chunk)
    ensures ChunkOf(PieceFor(chunk)) == chunk
    ensures forall first :: IsBegun(PieceFor(chunk), first)
    ensures PieceFor(chunk).edits != []
  {
    hide OldTexts, NewTexts, EditsFor, IsEmpty, Rstrip;
    EditsForMean(chunk.oldLines, chunk.newLines);
    ChunkIsFilled(PieceFor(chunk));
    RstripNothing(MarkerOf(chunk.context));
    RstripNothing(END_OF_FILE);
  }

  lemma {:induction false} PiecesForMean(chunks: seq<Chunk>)
    requires forall i | 0 <= i < |chunks| :: WellFormedChunk(chunks[i])
    ensures ChunksOf(PiecesFor(chunks)) == chunks && AreBegun(PiecesFor(chunks))
    ensures forall i | 0 <= i < |chunks| :: PiecesFor(chunks)[i].edits != []
    decreases |chunks|
  {
    hide WellFormedChunk, ChunksOf, PieceFor, IsBegun, PiecesLines;
    NoChunks();
    if chunks != [] {
      var rest := chunks[..|chunks| - 1];
      PiecesForMean(rest);
      PieceForMeans(Last(chunks));
      PiecesWith(PiecesFor(rest), PieceFor(Last(chunks)));
      assert chunks == rest + [Last(chunks)];
    }
  }

  lemma NoChunks()
    ensures ChunksOf([]) == [] && HunksOf([]) == []
  {
  }

  // A content that is empty or ends in a newline is its lines, each ended by a newline.
  lemma ContentsAreLines(contents: string)
    requires contents == "" || Last(contents) == '\n'
    ensures PatchSplice.Terminated(PatchSplice.Lines(contents)) == contents
  {
    hide PatchSplice.Split, PatchSplice.Join, PatchSplice.Terminated;
    var split := PatchSplice.Split(contents);
    LastOfSplit(contents);
    PatchSplice.JoinSplit(contents);
    PatchSplice.JoinIsTerminated(PatchSplice.Lines(contents));
    assert split == PatchSplice.Lines(contents) + [""];
  }

  lemma {:induction false} LastOfSplit(contents: string)
    requires contents == "" || Last(contents) == '\n'
    ensures Last(PatchSplice.Split(contents)) == ""
    ensures contents != "" ==> |PatchSplice.Split(contents)| > 1
  {
    if contents != "" {
      var rest := contents[1..];
      if rest != "" {
        assert Last(rest) == Last(contents);
      }
      LastOfSplit(rest);
    }
  }

  lemma SectionForMeans(hunk: Hunk)
    requires WellFormed(hunk)
    ensures HunkOf(SectionFor(hunk)) == hunk && IsSectionFilled(SectionFor(hunk))
    ensures forall belowUpdate :: IsSectionBegun(SectionFor(hunk), belowUpdate)
  {
    hide PatchSplice.Terminated, PatchSplice.Lines, PiecesFor, ChunksOf, AreBegun, Rstrip, Strip, WellFormedChunk;
    RstripNothing(SectionFor(hunk).header);
    match hunk {
      case AddFile(_, contents) => ContentsAreLines(contents);
      case DeleteFile(_) =>
      case UpdateFile(_, move, chunks) =>
        PiecesForMean(chunks);
        if move.Some? { RstripNothing(MOVE + move.value); }
    }
  }

  lemma {:induction false} SectionsForMean(hunks: seq<Hunk>)
    requires forall i | 0 <= i < |hunks| :: WellFormed(hunks[i])
    ensures HunksOf(SectionsFor(hunks)) == hunks && AreSectionsBegun(SectionsFor(hunks))
    ensures forall i | 0 <= i < |hunks| :: IsSectionFilled(SectionsFor(hunks)[i])
    decreases |hunks|
  {
    hide WellFormed, HunksOf, SectionFor, AreSectionsBegun, IsSectionBegun, IsSectionFilled, SectionsLines;
    NoChunks();
    NothingIsBegun();
    if hunks != [] {
      var rest := hunks[..|hunks| - 1];
      SectionsForMean(rest);
      SectionForMeans(Last(hunks));
      SectionsWith(SectionsFor(rest), SectionFor(Last(hunks)));
      SectionsBegunWith(SectionsFor(rest), SectionFor(Last(hunks)));
      assert hunks == rest + [Last(hunks)];
    }
  }

  /** Printing well-formed hunks and parsing the lines gives the same hunks back. */
  lemma ParsePrinted(hunks: seq<Hunk>)
    requires forall i | 0 <= i < |hunks| :: WellFormed(hunks[i])
    ensures Parsed(Printed(hunks)) == Ok(hunks)
  {
    hide WellFormed, AreSectionsBegun, IsSectionFilled, BodyLines, Parsed;
    SectionsForMean(hunks);
    TreeParses(Body([], SectionsFor(hunks)));
  }

  // What follows a prefix that ends in a space is trimmed, since the text does not end in that space.
  lemma AfterPrefix(prefix: string, rest: string, line: string)
    requires prefix != "" && IsSpace(Last(prefix)) && (Rstrip(line) == prefix + rest || Strip(line) == prefix + rest)
    ensures Trimmed(rest)
  {
    hide Rstrip, Strip, IsSpace;
    StripTrims(line);
    var text := prefix + rest;
    if rest == "" { assert text == prefix; } else { assert text[|text| - 1] == rest[|rest| - 1]; }
  }

  // Stripped text has no space at its end.
  lemma StripTrims(line: string)
    ensures Rstrip(line) == "" || Trimmed(Rstrip(line))
    ensures Strip(line) == "" || Trimmed(Strip(line))
  {
  }

  lemma PieceIsWellFormed(piece: Piece, first: bool)
    requires IsBegun(piece, first) && piece.edits != []
    ensures WellFormedChunk(ChunkOf(piece))
  {
    hide Rstrip, OldTexts, NewTexts, IsEmpty;
    ChunkIsFilled(piece);
    if piece.marking.Marked? && piece.marking.context.Some? {
      AfterPrefix("@@ ", piece.marking.context.value, piece.marking.line);
    }
  }

  lemma SectionIsWellFormed(section: Section, belowUpdate: bool)
    requires IsSectionBegun(section, belowUpdate) && IsSectionFilled(section)
    ensures WellFormed(HunkOf(section))
  {
    hide Rstrip, Strip, PatchSplice.Terminated, Trimmed, ChunkOf, WellFormedChunk, IsBegun;
    AfterPrefix(PrefixOf(section), section.path, section.header);
    match section {
      case Adds(_, _, texts) =>
        if texts != [] { TerminatedBy(texts); } else { assert PatchSplice.Terminated([]) == "" by { NoTexts(); } }
      case Deletes(_, _) =>
      case Updates(_, _, moving, pieces) =>
        if moving.Moves? { AfterPrefix(MOVE, moving.to, moving.line); }
        forall i: nat | i < |pieces|
          ensures WellFormedChunk(ChunksOf(pieces)[i])
        {
          ChunkAt(pieces, i);
          PieceIsWellFormed(pieces[i], i == 0);
        }
    }
  }

  lemma NoTexts()
    ensures OldTexts([]) == [] && NewTexts([]) == [] && PatchSplice.Terminated([]) == ""
  {
  }

  /** Every patch that is accepted gives well-formed hunks. */
  lemma AcceptedIsWellFormed(lines: seq<string>)
    requires Parsed(lines).Ok?
    ensures forall i | 0 <= i < |Parsed(lines).value| :: WellFormed(Parsed(lines).value[i])
  {
    hide Parsed, BodyLines, WellFormed, HunkOf, IsSectionBegun, IsSectionFilled;
    var body := ParsedIsTree(lines);
    forall i: nat | i < |body.sections|
      ensures WellFormed(HunksOf(body.sections)[i])
    {
      HunkAt(body.sections, i);
      assert IsSectionBegun(body.sections[i], IsBelowUpdate(body.sections, i));
      SectionIsWellFormed(body.sections[i], IsBelowUpdate(body.sections, i));
    }
  }

  /** Printing what was parsed and parsing it again gives the same hunks. */
  lemma ReparsedIsSame(lines: seq<string>)
    requires Parsed(lines).Ok?
    ensures Parsed(Printed(Parsed(lines).value)) == Parsed(lines)
  {
    hide Parsed, Printed, WellFormed;
    AcceptedIsWellFormed(lines);
    ParsePrinted(Parsed(lines).value);
  }

  /** The hunks that some patch gives are exactly the well-formed ones. */
  lemma ParsedExactly(hunks: seq<Hunk>)
    ensures (exists lines :: Parsed(lines) == Ok(hunks)) <==> forall i | 0 <= i < |hunks| :: WellFormed(hunks[i])
  {
    hide Parsed, Printed, WellFormed;
    if lines :| Parsed(lines) == Ok(hunks) {
      AcceptedIsWellFormed(lines);
    }
    if forall i | 0 <= i < |hunks| :: WellFormed(hunks[i]) {
      ParsePrinted(hunks);
    }
  }
}
