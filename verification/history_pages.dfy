/** Paging through the validation history, newest first, while events keep being inserted. */
module HistoryPages {
  import opened Wrappers

  datatype Event = Event(id: string, file: string, session: Option<string>, worktree: string)

  datatype Record = Record(sequence: int, event: Event)

  // An empty filter is no filter; a cursor that is not positive is no cursor.
  datatype Query = Query(file: string, session: string, worktree: string, limit: int, before: int)

  datatype Page = Page(records: seq<Record>, nextBefore: Option<int>)

  const DEFAULT_LIMIT := 50
  const MAX_LIMIT := 1000

  // ---- What a query asks for.

  predicate IsSelected(query: Query, record: Record) {
    && (query.file != "" ==> record.event.file == query.file)
    && (query.session != "" ==> record.event.session == Some(query.session))
    && (query.worktree != "" ==> record.event.worktree == query.worktree)
    && (query.before > 0 ==> record.sequence < query.before)
  }

  // The selected rows, newest first.
  function Selected(rows: seq<Record>, query: Query): seq<Record> {
    if rows == [] then []
    else
      var last := rows[|rows| - 1];
      (if IsSelected(query, last) then [last] else []) + Selected(rows[..|rows| - 1], query)
  }

  // Sequence numbers are positive and grow with insertion.
  predicate Ordered(rows: seq<Record>) {
    && (forall i | 0 <= i < |rows| :: 1 <= rows[i].sequence)
    && (forall i, j | 0 <= i < j < |rows| :: rows[i].sequence < rows[j].sequence)
  }

  predicate NewestFirst(records: seq<Record>) {
    forall i, j | 0 <= i < j < |records| :: records[i].sequence > records[j].sequence
  }

  /** The selected rows are those that the query matches, each once, newest first. */
  lemma {:induction false} SelectedExactly(rows: seq<Record>, query: Query)
    requires Ordered(rows)
    ensures forall record :: record in Selected(rows, query) <==> record in rows && IsSelected(query, record)
    ensures NewestFirst(Selected(rows, query))
  {
    hide IsSelected;
    if rows != [] {
      var rest, last := rows[..|rows| - 1], rows[|rows| - 1];
      SelectedExactly(rest, query);
      assert rows == rest + [last];
      var tail := Selected(rest, query);
      forall i | 0 <= i < |tail|
        ensures tail[i].sequence < last.sequence
      {
        assert tail[i] in tail;
        var k :| 0 <= k < |rest| && rest[k] == tail[i];
        assert rows[k] == rest[k];
      }
      assert NewestFirst([last] + tail);
    }
  }

  // ---- The statement and its evaluation.

  datatype Condition =
    | FileIs(file: string) | SessionIs(session: string) | WorktreeIs(worktree: string) | SequenceBelow(bound: int)

  datatype Statement = Statement(conditions: seq<Condition>, limit: nat)

  predicate Holds(condition: Condition, record: Record) {
    match condition
    case FileIs(file) => record.event.file == file
    case SessionIs(session) => record.event.session == Some(session)
    case WorktreeIs(worktree) => record.event.worktree == worktree
    case SequenceBelow(bound) => record.sequence < bound
  }

  predicate AllHold(conditions: seq<Condition>, record: Record) {
    forall i | 0 <= i < |conditions| :: Holds(conditions[i], record)
  }

  lemma OneMore(conditions: seq<Condition>, condition: Condition, record: Record)
    ensures AllHold(conditions + [condition], record) <==> AllHold(conditions, record) && Holds(condition, record)
  {
    var more := conditions + [condition];
    if AllHold(more, record) {
      assert forall i | 0 <= i < |conditions| :: more[i] == conditions[i];
      assert Holds(more[|conditions|], record);
    }
  }

  method AddFilter(conditions: seq<Condition>, value: string, condition: Condition) returns (more: seq<Condition>)
    ensures forall record :: AllHold(more, record) <==>
              AllHold(conditions, record) && (value != "" ==> Holds(condition, record))
  {
    more := conditions;
    if value != "" {
      more := more + [condition];
      forall record {
        OneMore(conditions, condition, record);
      }
    }
  }

  /** The statement's conditions hold of exactly the rows that the query asks for. */
  method ListStatement(query: Query, limit: nat) returns (statement: Statement)
    ensures statement.limit == limit
    ensures forall record :: AllHold(statement.conditions, record) <==> IsSelected(query, record)
  {
    var conditions := AddFilter([], query.file, FileIs(query.file));
    conditions := AddFilter(conditions, query.session, SessionIs(query.session));
    conditions := AddFilter(conditions, query.worktree, WorktreeIs(query.worktree));
    if query.before > 0 {
      forall record {
        OneMore(conditions, SequenceBelow(query.before), record);
      }
      conditions := conditions + [SequenceBelow(query.before)];
    }
    statement := Statement(conditions, limit);
  }

  // ---- One page.

  // An absent limit is the default one; a limit out of range is an error.
  function QueryLimit(limit: int): Result<nat> {
    if limit == 0 then Ok(DEFAULT_LIMIT)
    else if limit < 0 || limit > MAX_LIMIT then Err
    else Ok(limit)
  }

  function Truncated(records: seq<Record>, limit: nat): seq<Record> {
    if |records| <= limit then records else records[..limit]
  }

  class Store {
    var rows: seq<Record>
    // The largest sequence number given so far.
    var last: nat

    predicate Valid()
      reads this
    {
      && Ordered(rows)
      && (forall i | 0 <= i < |rows| :: rows[i].sequence <= last)
      && (forall i, j | 0 <= i < j < |rows| :: rows[i].event.id != rows[j].event.id)
    }

    constructor ()
      ensures Valid() && rows == []
    {
      rows, last := [], 0;
    }

    // An event that is already stored is ignored; a new one gets the next sequence number.
    method Insert(event: Event)
      requires Valid()
      modifies this
      ensures Valid() && last >= old(last)
      ensures if exists i :: 0 <= i < |old(rows)| && old(rows)[i].event.id == event.id then rows == old(rows)
              else rows == old(rows) + [Record(old(last) + 1, event)]
    {
      var i := 0;
      while i < |rows|
        invariant 0 <= i <= |rows|
        invariant forall k | 0 <= k < i :: rows[k].event.id != event.id
      {
        if rows[i].event.id == event.id {
          return;
        }
        i := i + 1;
      }
      last := last + 1;
      rows := rows + [Record(last, event)];
    }

    // The rows of a statement, newest first.
    method Run(statement: Statement, ghost query: Query) returns (records: seq<Record>)
      requires Valid()
      requires forall record :: AllHold(statement.conditions, record) <==> IsSelected(query, record)
      ensures records == Truncated(Selected(rows, query), statement.limit)
    {
      hide AllHold, IsSelected, Ordered;
      records := [];
      var i := |rows|;
      assert rows[..i] == rows;
      while 0 < i && |records| < statement.limit
        invariant 0 <= i <= |rows| && |records| <= statement.limit
        invariant records + Selected(rows[..i], query) == Selected(rows, query)
      {
        assert rows[..i][..i - 1] == rows[..i - 1];
        i := i - 1;
        if AllHold(statement.conditions, rows[i]) {
          records := records + [rows[i]];
        }
      }
    }

    /**
     * A page holds the newest selected rows, as many as the limit, which is 50 when none is given and may not be over
     * 1000; its cursor is there exactly when older rows are left, and the rows below the cursor are exactly those left.
     */
    method List(query: Query) returns (r: Result<Page>)
      requires Valid()
      ensures r.Ok? <==> 0 <= query.limit <= 1000
      ensures r.Ok? ==>
        var all, limit, page := Selected(rows, query), if query.limit == 0 then 50 else query.limit, r.value;
        && |page.records| == (if |all| <= limit then |all| else limit)
        && page.records <= all
        && (page.nextBefore.Some? <==> |all| > limit)
        && (page.nextBefore.Some? ==>
              && page.nextBefore.value > 0
              && (query.before > 0 ==> page.nextBefore.value < query.before)
              && HasSequence(rows, page.nextBefore.value))
        && page.records + Rest(rows, query, page.nextBefore) == all
    {
      hide Selected, HasSequence, Ordered, AllHold, IsSelected;
      var limit := QueryLimit(query.limit);
      if limit.Err? {
        return Err;
      }
      var statement := ListStatement(query, limit.value + 1);
      var records := Run(statement, query);
      if |records| <= limit.value {
        return Ok(Page(records, None));
      }
      records := records[..limit.value];
      var cursor := records[limit.value - 1].sequence;
      CursorFacts(rows, query, limit.value);
      BelowCursor(rows, query, limit.value);
      r := Ok(Page(records, Some(cursor)));
    }
  }

  lemma CursorFacts(rows: seq<Record>, query: Query, k: nat)
    requires Ordered(rows) && 0 < k <= |Selected(rows, query)|
    ensures var all := Selected(rows, query);
      && 0 < all[k - 1].sequence
      && (query.before > 0 ==> all[k - 1].sequence < query.before)
      && (k > 1 ==> all[k - 1].sequence < all[0].sequence)
      && HasSequence(rows, all[k - 1].sequence)
  {
    SelectedExactly(rows, query);
    assert Selected(rows, query)[k - 1] in rows;
  }

  lemma SelectedLast(rows: seq<Record>, query: Query)
    requires rows != []
    ensures var last := rows[|rows| - 1];
      Selected(rows, query) == (if IsSelected(query, last) then [last] else []) + Selected(rows[..|rows| - 1], query)
  {
  }

  // A lower cursor selects nothing more, and no row at or above it.
  lemma LowerSelects(query: Query, record: Record, bound: int)
    requires bound > 0 && (query.before > 0 ==> bound < query.before)
    ensures IsSelected(query.(before := bound), record) <==> IsSelected(query, record) && record.sequence < bound
  {
  }

  // Asking for what is below the k-th selected row gives the selected rows after it.
  lemma {:induction false} BelowCursor(rows: seq<Record>, query: Query, k: nat)
    requires Ordered(rows) && 0 < k <= |Selected(rows, query)|
    ensures var all := Selected(rows, query);
      Selected(rows, query.(before := all[k - 1].sequence)) == all[k..]
    decreases |rows|
  {
    hide Selected, IsSelected;
    var all := Selected(rows, query);
    if rows == [] {
      NothingSelected(query);
    } else {
      var rest, last, bound := rows[..|rows| - 1], rows[|rows| - 1], all[k - 1].sequence;
      CursorFacts(rows, query, k);
      SelectedLast(rows, query);
      SelectedLast(rows, query.(before := bound));
      LowerSelects(query, last, bound);
      if !IsSelected(query, last) {
        BelowCursor(rest, query, k);
      } else if k > 1 {
        BelowCursor(rest, query, k - 1);
      } else {
        AllBelow(rest, query, last.sequence);
      }
    }
  }

  lemma NothingSelected(query: Query)
    ensures Selected([], query) == []
  {
  }

  lemma {:induction false} AllBelow(rows: seq<Record>, query: Query, bound: int)
    requires forall i | 0 <= i < |rows| :: rows[i].sequence < bound
    requires bound > 0 && (query.before > 0 ==> bound < query.before)
    ensures Selected(rows, query.(before := bound)) == Selected(rows, query)
  {
    if rows != [] {
      AllBelow(rows[..|rows| - 1], query, bound);
    }
  }

  // Later rows are not below a cursor that was given before them.
  lemma {:induction false} LaterRows(rows: seq<Record>, more: seq<Record>, query: Query)
    requires query.before > 0 && forall i | 0 <= i < |more| :: query.before <= more[i].sequence
    ensures Selected(rows + more, query) == Selected(rows, query)
  {
    if more == [] {
      assert rows + more == rows;
    } else {
      var less := more[..|more| - 1];
      assert (rows + more)[..|rows + more| - 1] == rows + less;
      LaterRows(rows, less, query);
    }
  }

  // ---- Reading all pages.

  method InsertAll(store: Store, events: seq<Event>)
    requires store.Valid()
    modifies store
    ensures store.Valid() && old(store.rows) <= store.rows
    ensures forall i | |old(store.rows)| <= i < |store.rows| :: store.rows[i].sequence > old(store.last)
    ensures store.last >= old(store.last)
  {
    for i := 0 to |events|
      invariant store.Valid() && old(store.rows) <= store.rows && store.last >= old(store.last)
      invariant forall k | |old(store.rows)| <= k < |store.rows| :: store.rows[k].sequence > old(store.last)
    {
      store.Insert(events[i]);
    }
  }

  /**
   * Following the cursor until there is none visits exactly the rows that the first read would select with no
   * limit, each once and newest first, whatever is inserted between the pages.
   */
  method ReadAll(store: Store, query: Query, inserts: seq<seq<Event>>) returns (r: Result<seq<Record>>)
    requires store.Valid()
    modifies store
    ensures store.Valid()
    ensures r.Ok? <==> 0 <= query.limit <= 1000
    ensures r.Ok? ==> r.value == Selected(old(store.rows), query)
  {
    hide Selected, IsSelected, HasSequence, Ordered;
    ghost var rows := store.rows;
    var first := store.List(query);
    if first.Err? {
      return Err;
    }
    var visited, cursor, pages := first.value.records, first.value.nextBefore, 0;
    while cursor.Some?
      invariant store.Valid() && rows <= store.rows
      invariant cursor.Some? ==> 0 < cursor.value && HasSequence(rows, cursor.value)
      invariant visited + Rest(rows, query, cursor) == Selected(rows, query)
      decreases if cursor.Some? then cursor.value else 0
    {
      var events := if pages < |inserts| then inserts[pages] else [];
      InsertAll(store, events);
      pages := pages + 1;
      SameBelow(rows, store.rows, query.(before := cursor.value));
      var page := store.List(query.(before := cursor.value));
      PageOfOld(rows, store.rows, query, cursor.value, page.value);
      visited := visited + page.value.records;
      cursor := page.value.nextBefore;
    }
    r := Ok(visited);
  }

  // What is left to read at a cursor.
  ghost function Rest(rows: seq<Record>, query: Query, cursor: Option<int>): seq<Record> {
    if cursor.None? then [] else Selected(rows, query.(before := cursor.value))
  }

  predicate HasSequence(rows: seq<Record>, sequence: int) {
    exists i :: 0 <= i < |rows| && rows[i].sequence == sequence
  }

  // A page read at a cursor from the grown rows continues the rows there were at first.
  lemma PageOfOld(rows: seq<Record>, grown: seq<Record>, query: Query, before: int, page: Page)
    requires Ordered(grown) && rows <= grown && before > 0 && HasSequence(rows, before)
    requires page.records + Rest(grown, query, page.nextBefore) == Selected(grown, query.(before := before))
    requires page.nextBefore.Some? ==> 0 < page.nextBefore.value < before && HasSequence(grown, page.nextBefore.value)
    ensures page.records + Rest(rows, query, page.nextBefore) == Selected(rows, query.(before := before))
    ensures page.nextBefore.Some? ==> HasSequence(rows, page.nextBefore.value)
  {
    hide Selected;
    SameBelow(rows, grown, query.(before := before));
    if page.nextBefore.Some? {
      CursorIsOld(rows, grown, before, page.nextBefore.value);
      SameBelow(rows, grown, query.(before := page.nextBefore.value));
    }
  }

  lemma SameBelow(rows: seq<Record>, grown: seq<Record>, query: Query)
    requires Ordered(grown) && rows <= grown
    requires query.before > 0 && HasSequence(rows, query.before)
    ensures Selected(grown, query) == Selected(rows, query)
  {
    var more := grown[|rows|..];
    assert grown == rows + more;
    var k :| 0 <= k < |rows| && rows[k].sequence == query.before;
    assert forall i | 0 <= i < |more| :: more[i] == grown[|rows| + i] && grown[k].sequence < grown[|rows| + i].sequence;
    LaterRows(rows, more, query);
  }

  lemma CursorIsOld(rows: seq<Record>, grown: seq<Record>, before: int, cursor: int)
    requires Ordered(grown) && rows <= grown && cursor < before
    requires HasSequence(rows, before) && HasSequence(grown, cursor)
    ensures HasSequence(rows, cursor)
  {
    var k :| 0 <= k < |rows| && rows[k].sequence == before;
    var i :| 0 <= i < |grown| && grown[i].sequence == cursor;
    assert grown[k] == rows[k];
    assert i < k;
    assert rows[i] == grown[i];
  }
}
