/**
 The domain event journal: deduplicated append and cursor pagination.

 `content` stands for the fields that only enter the request digest; equal digests are taken to mean
 equal events.
 */
module Journal {
  import opened Prelude

  const MAX_LIMIT: nat := 100

  datatype Event = Event(
    eventId: string,
    eventType: string,
    project: string,
    workspace: Option<string>,
    sourceType: string,
    sourceId: string,
    content: string)

  datatype Record = Record(cursor: nat, event: Event)

  /** The table in cursor order, and the last cursor SQLite has given out. */
  datatype Store = Store(rows: seq<Record>, last: nat)

  const EMPTY := Store([], 0)

  datatype Error = DedupConflict | InvalidArgument

  // ---------------------------------------------------------------- append

  predicate SameSource(a: Event, b: Event) {
    a.sourceType == b.sourceType && a.sourceId == b.sourceId
  }

  function BySource(rows: seq<Record>, e: Event): (r: Option<Record>)
    ensures r.Some? ==> r.value in rows && SameSource(r.value.event, e)
    ensures r.None? ==> forall x | x in rows :: !SameSource(x.event, e)
  {
    if rows == [] then None
    else if SameSource(rows[0].event, e) then Some(rows[0])
    else BySource(rows[1..], e)
  }

  predicate HasEventId(rows: seq<Record>, id: string) {
    exists x | x in rows :: x.event.eventId == id
  }

  function Append(s: Store, e: Event): (Store, Result<Record, Error>) {
    match BySource(s.rows, e)
    case Some(r) => (s, if r.event == e then Ok(r) else Err(DedupConflict))
    case None =>
      if HasEventId(s.rows, e.eventId) then (s, Err(DedupConflict))
      else
        var r := Record(s.last + 1, e);
        (Store(s.rows + [r], s.last + 1), Ok(r))
  }

  function Run(events: seq<Event>): Store {
    if events == [] then EMPTY else Append(Run(events[..|events| - 1]), events[|events| - 1]).0
  }

  ghost predicate Valid(s: Store) {
    && (forall i | 0 <= i < |s.rows| :: 0 < s.rows[i].cursor <= s.last)
    && (forall i, j | 0 <= i < j < |s.rows| ::
          && s.rows[i].cursor < s.rows[j].cursor
          && !SameSource(s.rows[i].event, s.rows[j].event)
          && s.rows[i].event.eventId != s.rows[j].event.eventId)
  }

  lemma AppendKeeps(s: Store, e: Event)
    requires Valid(s)
    ensures Valid(Append(s, e).0) && s.rows <= Append(s, e).0.rows
  {
    assert forall i | 0 <= i < |s.rows| :: s.rows[i] in s.rows;
  }

  /** Cursors rise, and no two rows share a source or an event id. */
  lemma {:induction false} RunValid(events: seq<Event>)
    ensures Valid(Run(events))
  {
    if events != [] {
      RunValid(events[..|events| - 1]);
      AppendKeeps(Run(events[..|events| - 1]), events[|events| - 1]);
    }
  }

  lemma {:induction false} RunGrows(events: seq<Event>, n: nat)
    requires n <= |events|
    ensures Run(events[..n]).rows <= Run(events).rows
  {
    if n == |events| {
      assert events[..n] == events;
    } else {
      var front := events[..|events| - 1];
      RunGrows(front, n);
      assert front[..n] == events[..n];
      RunValid(front);
      AppendKeeps(Run(front), events[|events| - 1]);
    }
  }

  lemma BySourceUnique(s: Store, r: Record)
    requires Valid(s) && r in s.rows
    ensures BySource(s.rows, r.event) == Some(r)
  {
    var found := BySource(s.rows, r.event);
    var i :| 0 <= i < |s.rows| && s.rows[i] == r;
    assert found.Some?;
    var j :| 0 <= j < |s.rows| && s.rows[j] == found.value;
    assert i == j;
  }

  /** Appending once more what was appended, however much later, adds no row and returns the first
      record. */
  lemma AppendIsIdempotent(before: seq<Event>, e: Event, after: seq<Event>)
    requires Append(Run(before), e).1.Ok?
    ensures var s := Run(before + [e] + after);
            Append(s, e) == (s, Append(Run(before), e).1)
  {
    var all := before + [e] + after;
    var r := Append(Run(before), e).1.value;
    assert (before + [e])[..|before|] == before;
    assert all[..|before| + 1] == before + [e];
    RunGrows(all, |before| + 1);
    RunValid(all);
    assert r in Run(before + [e]).rows;
    assert r in Run(all).rows;
    BySourceUnique(Run(all), r);
  }

  /** An append is refused exactly when another event already holds its source or its id. */
  lemma ConflictExact(events: seq<Event>, e: Event)
    ensures var s := Run(events);
            Append(s, e).1.Err? <==>
            && e !in (set x | x in s.rows :: x.event)
            && exists x | x in s.rows ::
                 || (x.event.sourceType == e.sourceType && x.event.sourceId == e.sourceId)
                 || x.event.eventId == e.eventId
  {
    var s := Run(events);
    RunValid(events);
    if x :| x in s.rows && x.event == e {
      BySourceUnique(s, x);
    }
  }

  /** An append that finds neither its source nor its id on the table adds one row at the end, under a cursor
      above all others. */
  lemma AppendExactly(events: seq<Event>, e: Event)
    requires forall x | x in Run(events).rows ::
               && !(x.event.sourceType == e.sourceType && x.event.sourceId == e.sourceId)
               && x.event.eventId != e.eventId
    ensures var s := Run(events);
            var (t, r) := Append(s, e);
            && t.rows == s.rows + [Record(s.last + 1, e)] && r == Ok(t.rows[|s.rows|])
            && forall x | x in s.rows :: x.cursor < s.last + 1 == t.last
  {
    RunValid(events);
  }

  // ---------------------------------------------------------------- pages

  datatype Filter = Filter(project: string, workspace: Option<string>, types: seq<string>)

  predicate Selects(f: Filter, r: Record) {
    && r.event.project == f.project
    && (f.workspace.Some? ==> r.event.workspace == f.workspace)
    && (f.types != [] ==> r.event.eventType in f.types)
  }

  /** Every selected row past a cursor, in cursor order. */
  function Selected(rows: seq<Record>, f: Filter, after: nat): seq<Record> {
    if rows == [] then []
    else
      var front, last := Selected(rows[..|rows| - 1], f, after), rows[|rows| - 1];
      if Selects(f, last) && last.cursor > after then front + [last] else front
  }

  /** Exactly the rows past the cursor of this project, of the workspace if one is asked for, and of the asked
      types if any are; in the order of the table. */
  lemma {:induction false} SelectedExactly(rows: seq<Record>, f: Filter, after: nat) returns (at: seq<nat>)
    ensures TakenAt(Selected(rows, f, after), rows, at)
    ensures forall i | 0 <= i < |rows| ::
              i in at <==> && after < rows[i].cursor && rows[i].event.project == f.project
                           && (f.workspace == None || rows[i].event.workspace == f.workspace)
                           && (f.types == [] || rows[i].event.eventType in f.types)
  {
    if rows == [] {
      at := [];
    } else {
      var front, last := rows[..|rows| - 1], rows[|rows| - 1];
      assert rows == front + [last];
      var before := SelectedExactly(front, f, after);
      TakenNext(Selected(front, f, after), front, before, last);
      at := if Selects(f, last) && last.cursor > after then before + [|front|] else before;
    }
  }

  /** A page, and the cursor to go on from if there is more. */
  function Page(rows: seq<Record>, f: Filter, after: nat, limit: nat): (seq<Record>, Option<nat>)
    requires limit >= 1
  {
    var found := Selected(rows, f, after);
    if |found| > limit then (found[..limit], Some(found[limit - 1].cursor)) else (found, None)
  }

  predicate Distinct(types: seq<string>) {
    forall i, j | 0 <= i < j < |types| :: types[i] != types[j]
  }

  function List(rows: seq<Record>, f: Filter, after: int, limit: int): Result<(seq<Record>, Option<nat>), Error> {
    if after < 0 || limit < 1 || limit > MAX_LIMIT || !Distinct(f.types) then Err(InvalidArgument)
    else Ok(Page(rows, f, after, limit))
  }

  /** A negative cursor, a page size outside 1 to 100 and repeated types are refused; else the page holds the
      first selected rows, as many as fit, and names its last cursor exactly if it leaves any out. */
  lemma ListExactly(rows: seq<Record>, f: Filter, after: int, limit: int)
    ensures List(rows, f, after, limit).Err? <==>
            after < 0 || limit < 1 || limit > 100 || exists i, j :: 0 <= i < j < |f.types| && f.types[i] == f.types[j]
    ensures List(rows, f, after, limit).Ok? ==>
              var (page, next) := List(rows, f, after, limit).value;
              && page <= Selected(rows, f, after)
              && |page| == (if |Selected(rows, f, after)| < limit then |Selected(rows, f, after)| else limit)
              && (next == None <==> page == Selected(rows, f, after))
              && (next.Some? ==> page != [] && next.value == page[|page| - 1].cursor)
  {
  }

  /** Following the returned cursors from 0, each page read from a possibly newer table. */
  function Walk(tables: seq<seq<Record>>, f: Filter, limit: nat): (seq<Record>, Option<nat>)
    requires limit >= 1
  {
    if tables == [] then ([], Some(0))
    else
      var (items, next) := Walk(tables[..|tables| - 1], f, limit);
      if next.None? then (items, None)
      else
        var (page, more) := Page(tables[|tables| - 1], f, next.value, limit);
        (items + page, more)
  }

  ghost predicate Rising(rows: seq<Record>) {
    && (forall r | r in rows :: r.cursor > 0)
    && (forall i, j | 0 <= i < j < |rows| :: rows[i].cursor < rows[j].cursor)
  }

  ghost predicate Growing(tables: seq<seq<Record>>) {
    && (forall t | t in tables :: Rising(t))
    && (forall i, j | 0 <= i < j < |tables| :: tables[i] <= tables[j])
  }

  lemma {:induction false} SelectedRises(rows: seq<Record>, f: Filter)
    requires Rising(rows)
    ensures Rising(Selected(rows, f, 0)) && forall r | r in Selected(rows, f, 0) :: r in rows && Selects(f, r)
  {
    if rows != [] {
      SelectedRises(rows[..|rows| - 1], f);
      assert forall r | r in rows[..|rows| - 1] :: r.cursor < rows[|rows| - 1].cursor;
    }
  }

  lemma {:induction false} SelectedGrows(a: seq<Record>, b: seq<Record>, f: Filter, after: nat)
    requires a <= b
    ensures Selected(a, f, after) <= Selected(b, f, after)
    decreases |b|
  {
    if |a| < |b| {
      SelectedGrows(a, b[..|b| - 1], f, after);
    } else {
      assert a == b;
    }
  }

  /** The rows past the cursor of the `n`th selected row are the selected rows after it. */
  lemma {:induction false} SelectedPast(rows: seq<Record>, f: Filter, n: nat, after: nat)
    requires Rising(rows) && n <= |Selected(rows, f, 0)|
    requires after == if n == 0 then 0 else Selected(rows, f, 0)[n - 1].cursor
    ensures Selected(rows, f, after) == Selected(rows, f, 0)[n..]
  {
    if rows != [] {
      var front, last := rows[..|rows| - 1], rows[|rows| - 1];
      SelectedRises(rows, f);
      SelectedRises(front, f);
      if n <= |Selected(front, f, 0)| {
        var some := Selected(front, f, 0);
        if n > 0 { assert some[n - 1] in some && some[n - 1] == Selected(rows, f, 0)[n - 1]; }
        LastIsHighest(rows);
        SelectedPast(front, f, n, after);
        DropAppended(some, last, n);
      } else {
        SelectedNone(front, f, after);
      }
    }
  }

  lemma LastIsHighest(rows: seq<Record>)
    requires Rising(rows) && rows != []
    ensures forall r | r in rows[..|rows| - 1] :: r.cursor < rows[|rows| - 1].cursor
  {
  }

  lemma DropAppended(s: seq<Record>, last: Record, n: nat)
    requires n <= |s|
    ensures (s + [last])[n..] == s[n..] + [last]
  {
  }

  lemma {:induction false} SelectedNone(rows: seq<Record>, f: Filter, after: nat)
    requires forall r | r in rows :: r.cursor <= after
    ensures Selected(rows, f, after) == []
  {
    if rows != [] { SelectedNone(rows[..|rows| - 1], f, after); }
  }

  ghost predicate WalkIs(items: seq<Record>, next: Option<nat>, rows: seq<Record>, f: Filter) {
    var all := Selected(rows, f, 0);
    && items <= all
    && (next.None? <==> items == all)
    && (next.Some? ==> next.value == if items == [] then 0 else items[|items| - 1].cursor)
  }

  /** While rows are appended between the pages, what has been read is always a prefix of all that is
      selected now: nothing older is skipped or read twice, and the walk ends exactly when everything
      has been read. */
  lemma {:induction false} WalkExact(tables: seq<seq<Record>>, f: Filter, limit: nat)
    requires limit >= 1 && tables != [] && Growing(tables)
    requires Walk(tables[..|tables| - 1], f, limit).1.Some?
    ensures var (items, next) := Walk(tables, f, limit); WalkIs(items, next, tables[|tables| - 1], f)
  {
    var front, rows := tables[..|tables| - 1], tables[|tables| - 1];
    var (items, next) := Walk(front, f, limit);
    assert rows in tables;
    if front == [] {
      PageExact([], 0, rows, f, limit);
    } else {
      Unfinished(front, f, limit);
      assert Growing(front) by { assert forall t | t in front :: t in tables; }
      WalkExact(front, f, limit);
      SelectedGrows(front[|front| - 1], rows, f, 0);
      PageExact(items, next.value, rows, f, limit);
    }
  }

  /** One more page, after a prefix of all that is selected now. */
  lemma PageExact(items: seq<Record>, after: nat, rows: seq<Record>, f: Filter, limit: nat)
    requires limit >= 1 && Rising(rows) && items <= Selected(rows, f, 0)
    requires after == if items == [] then 0 else items[|items| - 1].cursor
    ensures var (page, more) := Page(rows, f, after, limit); WalkIs(items + page, more, rows, f)
  {
    SelectedPast(rows, f, |items|, after);
    NextPart(items, Selected(rows, f, 0), limit);
  }

  lemma NextPart(items: seq<Record>, all: seq<Record>, limit: nat)
    requires items <= all && limit >= 1
    ensures var rest := all[|items|..];
            if |rest| > limit then items + rest[..limit] <= all && items + rest[..limit] != all else items + rest == all
  {
    var rest := all[|items|..];
    if |rest| > limit { assert |items + rest[..limit]| < |all|; }
  }

  lemma Unfinished(tables: seq<seq<Record>>, f: Filter, limit: nat)
    requires limit >= 1 && tables != [] && Walk(tables, f, limit).1.Some?
    ensures Walk(tables[..|tables| - 1], f, limit).1.Some?
  {
  }

  lemma {:induction false} PagesFull(tables: seq<seq<Record>>, f: Filter, limit: nat)
    requires limit >= 1 && Walk(tables, f, limit).1.Some?
    ensures |Walk(tables, f, limit).0| == |tables| * limit
  {
    if tables != [] {
      Unfinished(tables, f, limit);
      PagesFull(tables[..|tables| - 1], f, limit);
      assert |tables| * limit == (|tables| - 1) * limit + limit;
    }
  }

  lemma Repeated(tables: seq<seq<Record>>, rows: seq<Record>)
    requires Rising(rows) && forall t | t in tables :: t == rows
    ensures Growing(tables)
  {
    assert forall i | 0 <= i < |tables| :: tables[i] in tables;
  }

  lemma ProperPrefix<T>(a: seq<T>, b: seq<T>)
    requires a <= b && a != b
    ensures |a| < |b|
  {
    assert a == b[..|a|];
  }

  /** On a table that stays as it is every page but the last is full, so the walk ends after at most
      one page more than the selected rows fill, with all of them. */
  lemma {:induction false} WalkEnds(tables: seq<seq<Record>>, rows: seq<Record>, f: Filter, limit: nat)
    requires limit >= 1 && tables != [] && Rising(rows) && forall t | t in tables :: t == rows
    ensures var (items, next) := Walk(tables, f, limit);
            if next.Some? then |tables| * limit < |Selected(rows, f, 0)| else items == Selected(rows, f, 0)
  {
    var front := tables[..|tables| - 1];
    Repeated(tables, rows);
    assert tables[|tables| - 1] in tables;
    if Walk(front, f, limit).1.Some? {
      WalkExact(tables, f, limit);
      if Walk(tables, f, limit).1.Some? {
        PagesFull(tables, f, limit);
        ProperPrefix(Walk(tables, f, limit).0, Selected(rows, f, 0));
      }
    } else {
      assert forall t | t in front :: t in tables;
      WalkEnds(front, rows, f, limit);
    }
  }

  function Snapshots(events: seq<Event>, counts: seq<nat>): seq<seq<Record>>
    requires forall n | n in counts :: n <= |events|
  {
    seq(|counts|, i requires 0 <= i < |counts| => assert counts[i] in counts; Run(events[..counts[i]]).rows)
  }

  /** Pages read at any moments of a growing journal: the walk never skips or repeats an event. */
  lemma WalkDuringAppends(events: seq<Event>, counts: seq<nat>, f: Filter, limit: nat)
    requires limit >= 1 && counts != [] && forall n | n in counts :: n <= |events|
    requires forall i, j | 0 <= i < j < |counts| :: counts[i] <= counts[j]
    requires var tables := Snapshots(events, counts); Walk(tables[..|tables| - 1], f, limit).1.Some?
    ensures var tables := Snapshots(events, counts);
            var (items, next) := Walk(tables, f, limit); WalkIs(items, next, tables[|tables| - 1], f)
  {
    var tables := Snapshots(events, counts);
    forall i | 0 <= i < |counts| ensures Rising(tables[i]) {
      assert counts[i] in counts;
      RunValid(events[..counts[i]]);
    }
    forall i, j | 0 <= i < j < |counts| ensures tables[i] <= tables[j] {
      assert counts[i] in counts && counts[j] in counts;
      RunGrows(events[..counts[j]], counts[i]);
      assert events[..counts[j]][..counts[i]] == events[..counts[i]];
    }
    WalkExact(tables, f, limit);
  }

  // ---------------------------------------------------------------- the store

  class EventStore {
    var rows: seq<Record>
    var last: nat

    ghost function View(): Store
      reads this
    {
      Store(rows, last)
    }

    constructor ()
      ensures View() == EMPTY
    {
      rows, last := [], 0;
    }

    method AppendEvent(e: Event) returns (r: Result<Record, Error>)
      modifies this
      ensures (View(), r) == Append(old(View()), e)
    {
      var existing := BySource(rows, e);
      if existing.Some? {
        if existing.value.event != e { return Err(DedupConflict); }
        return Ok(existing.value);
      }
      if HasEventId(rows, e.eventId) { return Err(DedupConflict); }
      last := last + 1;
      var record := Record(last, e);
      rows := rows + [record];
      return Ok(record);
    }

    method ListEvents(f: Filter, after: int, limit: int) returns (r: Result<(seq<Record>, Option<nat>), Error>)
      ensures r == List(rows, f, after, limit)
    {
      if after < 0 || limit < 1 || limit > MAX_LIMIT || !Distinct(f.types) { return Err(InvalidArgument); }
      var found := Selected(rows, f, after);
      var fetched := if |found| > limit + 1 then found[..limit + 1] else found;
      var visible := if |fetched| > limit then fetched[..limit] else fetched;
      assert |found| > limit ==> visible == found[..limit];
      return Ok((visible, if |fetched| > limit then Some(visible[|visible| - 1].cursor) else None));
    }
  }
}
