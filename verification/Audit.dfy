/** The audit log, the role history and the audit export: paging by a descending number, and a bounded CSV
    document of the same rows. */
module Audit {
  import opened Wrappers
  import Directories
  import Ordering
  import Paging
  import Text

  type Time = int
  type Bytes = string

  datatype AuditRow = AuditRow(
    id: int, tenant: string, at: Time, actor: string, hostInitiator: string, operation: string, phase: string,
    targetType: string, targetID: string, outcome: string, reason: string, request: string, roleVersion: int)

  datatype AuditFilter = AuditFilter(
    query: string, outcome: string, operation: string, before: int, limit: int, from: Option<Time>, until: Option<Time>)

  const MAX_QUERY := 128
  const MAX_OPERATION_BYTES := 64
  const MAX_LIMIT := 200
  const DEFAULT_LIMIT := 50
  const OUTCOMES := ["", "success", "noop", "denied", "conflict", "failed"]
  // The years 1 to 9999, in seconds.
  const MIN_TIME: Time := -62135596800
  const TIME_LIMIT: Time := 253402300800

  predicate InYears(t: Option<Time>) {
    t.Some? ==> MIN_TIME <= t.value < TIME_LIMIT
  }

  predicate ValidFilter(f: AuditFilter) {
    && f.before >= 0 && |f.query| <= MAX_QUERY && '\0' !in f.query
    && Text.Utf8Length(f.operation) <= MAX_OPERATION_BYTES && '\0' !in f.operation
    && InYears(f.from) && InYears(f.until) && (f.from.Some? && f.until.Some? ==> f.from.value < f.until.value)
    && f.outcome in OUTCOMES
  }

  // normalizeAuditFilter, on a valid filter.
  function Normalized(f: AuditFilter): (g: AuditFilter)
    ensures 1 <= g.limit <= MAX_LIMIT
  {
    f.(query := Text.TrimSpace(f.query), operation := Text.TrimSpace(f.operation),
       limit := if f.limit < 1 || f.limit > MAX_LIMIT then DEFAULT_LIMIT else f.limit)
  }

  // ---------- The query ----------

  function SearchText(row: AuditRow): string {
    row.operation + " " + row.actor + " " + row.targetID + " " + row.reason + " " + row.request
  }

  predicate Matches(row: AuditRow, f: AuditFilter, lower: string -> string) {
    && (f.query == "" || Directories.Contains(lower(SearchText(row)), lower(f.query)))
    && (f.outcome == "" || row.outcome == f.outcome) && (f.operation == "" || row.operation == f.operation)
    && (f.from.Some? ==> row.at >= f.from.value) && (f.until.Some? ==> row.at < f.until.value)
  }

  function Matching(table: seq<AuditRow>, f: AuditFilter, lower: string -> string): (rows: seq<AuditRow>)
    ensures forall row | row in rows :: row in table
  {
    if table == [] then []
    else (if Matches(table[0], f, lower) then [table[0]] else []) + Matching(table[1..], f, lower)
  }

  // The rows that a filter asks for: the search is looked for in the operation, the actor, the target, the reason and
  // the request, and the time is from the first instant up to but not including the second.
  ghost function AskedFor(table: seq<AuditRow>, f: AuditFilter, lower: string -> string): set<AuditRow> {
    var query, operation := Text.TrimSpace(f.query), Text.TrimSpace(f.operation);
    set row | row in table && (f.outcome == "" || row.outcome == f.outcome)
      && (operation == "" || row.operation == operation)
      && (f.from.Some? ==> f.from.value <= row.at) && (f.until.Some? ==> row.at < f.until.value)
      && (query == ""
          || exists i :: var text := lower(row.operation + " " + row.actor + " " + row.targetID + " " + row.reason + " "
                                           + row.request);
                         0 <= i <= |text| && lower(query) <= text[i..])
  }

  lemma {:induction false} MatchingMeans(table: seq<AuditRow>, f: AuditFilter, lower: string -> string)
    ensures forall row :: row in Matching(table, f, lower) <==> row in table && Matches(row, f, lower)
  {
    if table != [] {
      MatchingMeans(table[1..], f, lower);
      assert forall row :: row in table <==> row == table[0] || row in table[1..];
    }
  }

  lemma MatchingExactly(table: seq<AuditRow>, f: AuditFilter, lower: string -> string)
    ensures forall row :: row in Matching(table, Normalized(f), lower) <==> row in AskedFor(table, f, lower)
  {
    MatchingMeans(table, Normalized(f), lower);
  }

  // ---------- Paging by a number, newest first ----------

  predicate Higher(a: int, b: int) {
    a > b
  }

  // Positive numbers, in descending order.
  ghost predicate Descending<T>(list: seq<T>, number: T -> int) {
    && (forall i, j | 0 <= i < j < |list| :: number(list[i]) > number(list[j]))
    && (forall i | 0 <= i < |list| :: number(list[i]) > 0)
  }

  lemma HigherOrders()
    ensures Ordering.StrictOrder(Higher)
  {
  }

  // Zero stands for no cursor.
  function CursorOf(before: int): Option<int> {
    if before == 0 then None else Some(before)
  }

  datatype NumberedPage<T> = NumberedPage(items: seq<T>, next: int)

  function NumberedPageOf<T>(list: seq<T>, number: T -> int, before: int, limit: nat): NumberedPage<T>
    requires limit > 0
  {
    var page := Paging.PageOf(list, number, Higher, CursorOf(before), limit);
    NumberedPage(page.items, if page.next.Some? then page.next.value else 0)
  }

  // Repeating the request with the number returned, until it is zero.
  ghost predicate Session<T>(list: seq<T>, number: T -> int, before: int, pages: seq<NumberedPage<T>>, limits: seq<nat>)
    decreases |pages|
  {
    && |limits| == |pages| && pages != [] && limits[0] > 0
    && pages[0] == NumberedPageOf(list, number, before, limits[0])
    && if pages[0].next == 0 then |pages| == 1 else Session(list, number, pages[0].next, pages[1..], limits[1..])
  }

  function Shown<T>(pages: seq<NumberedPage<T>>): seq<T> {
    if pages == [] then [] else pages[0].items + Shown(pages[1..])
  }

  lemma {:induction false} SessionShowsRest<T(!new)>(list: seq<T>, number: T -> int, before: int,
                                                     pages: seq<NumberedPage<T>>, limits: seq<nat>)
    requires Descending(list, number) && Session(list, number, before, pages, limits)
    requires Paging.HandedOut(list, number, CursorOf(before))
    ensures Shown(pages) == Paging.After(list, number, Higher, CursorOf(before))
    decreases |pages|
  {
    HigherOrders();
    Paging.NextContinues(list, number, Higher, CursorOf(before), limits[0]);
    var page := Paging.PageOf(list, number, Higher, CursorOf(before), limits[0]);
    Directories.AfterRows(list, number, Higher, CursorOf(before));
    if page.next.Some? {
      assert page.items[limits[0] - 1] in page.items;
      assert page.items[limits[0] - 1] in list;
      SessionShowsRest(list, number, pages[0].next, pages[1..], limits[1..]);
    } else {
      assert pages[1..] == [];
    }
  }

  // A session that need not be finished: every page but the last has a number to go on with.
  ghost predicate Following<T>(list: seq<T>, number: T -> int, before: int, pages: seq<NumberedPage<T>>,
                               limits: seq<nat>)
    decreases |pages|
  {
    && |limits| == |pages| && pages != [] && limits[0] > 0
    && pages[0] == NumberedPageOf(list, number, before, limits[0])
    && (|pages| > 1 ==> pages[0].next != 0 && Following(list, number, pages[0].next, pages[1..], limits[1..]))
  }

  // It has at most one page more than rows that are left, and has shown a beginning of those rows.
  lemma {:induction false} FollowingEnds<T(!new)>(list: seq<T>, number: T -> int, before: int,
                                                  pages: seq<NumberedPage<T>>, limits: seq<nat>)
    requires Descending(list, number) && Following(list, number, before, pages, limits)
    requires Paging.HandedOut(list, number, CursorOf(before))
    ensures var rest := Paging.After(list, number, Higher, CursorOf(before));
            |pages| <= 1 + |rest| && Shown(pages) <= rest
    decreases |pages|
  {
    HigherOrders();
    Paging.NextContinues(list, number, Higher, CursorOf(before), limits[0]);
    var page := Paging.PageOf(list, number, Higher, CursorOf(before), limits[0]);
    Directories.AfterRows(list, number, Higher, CursorOf(before));
    if |pages| == 1 {
      assert pages[1..] == [];
    } else {
      assert page.items[limits[0] - 1] in page.items;
      assert page.items[limits[0] - 1] in list;
      FollowingEnds(list, number, pages[0].next, pages[1..], limits[1..]);
    }
  }

  lemma {:induction false} SessionFollows<T>(list: seq<T>, number: T -> int, before: int, pages: seq<NumberedPage<T>>,
                                             limits: seq<nat>)
    requires Session(list, number, before, pages, limits)
    ensures Following(list, number, before, pages, limits)
    decreases |pages|
  {
    if pages[0].next != 0 {
      SessionFollows(list, number, pages[0].next, pages[1..], limits[1..]);
    }
  }

  // A session from the start shows every row in order, each once.
  lemma SessionShowsEverything<T(!new)>(list: seq<T>, number: T -> int, pages: seq<NumberedPage<T>>, limits: seq<nat>)
    requires Descending(list, number) && Session(list, number, 0, pages, limits)
    ensures Shown(pages) == list && |pages| <= 1 + |list|
    ensures forall i, j | 0 <= i < j < |Shown(pages)| :: Shown(pages)[i] != Shown(pages)[j]
  {
    SessionShowsRest(list, number, 0, pages, limits);
    SessionFollows(list, number, 0, pages, limits);
    FollowingEnds(list, number, 0, pages, limits);
    Paging.AfterAll(list, number, Higher, None);
    forall i, j | 0 <= i < j < |list| ensures list[i] != list[j] {
      assert number(list[i]) > number(list[j]);
    }
  }

  function RowNumber(row: AuditRow): int { row.id }

  method AuditLog(input: AuditFilter, table: seq<AuditRow>, lower: string -> string)
    returns (r: Result<NumberedPage<AuditRow>, ()>)
    requires Descending(table, RowNumber)
    ensures r.Ok? <==> ValidFilter(input)
    ensures r.Ok? ==>
      r.value == NumberedPageOf(Matching(table, Normalized(input), lower), RowNumber, input.before,
                                Normalized(input).limit)
    ensures r.Ok? ==> forall row | row in r.value.items :: row in AskedFor(table, input, lower)
    ensures r.Ok? ==> |r.value.items| <= if 1 <= input.limit <= 200 then input.limit else 50
  {
    if !ValidFilter(input) {
      return Err(());
    }
    var filter := Normalized(input);
    var limit: nat := filter.limit;
    var rows := Matching(table, filter, lower);
    MatchingExactly(table, input, lower);
    Directories.AfterRows(rows, RowNumber, Higher, CursorOf(filter.before));
    var items := Paging.Query(rows, RowNumber, Higher, CursorOf(filter.before), limit + 1);
    var next := 0;
    if |items| > limit {
      items := items[..limit];
      next := items[limit - 1].id;
    }
    r := Ok(NumberedPage(items, next));
  }

  const VERSIONS_PER_PAGE := 20

  datatype RoleHistory = RoleHistory(version: int, name: string, description: string)

  function VersionNumber(v: RoleHistory): int { v.version }

  // The version part of a role's details.
  method RoleVersions(table: seq<RoleHistory>, before: int) returns (page: NumberedPage<RoleHistory>)
    requires Descending(table, VersionNumber)
    ensures page == NumberedPageOf(table, VersionNumber, before, VERSIONS_PER_PAGE) && |page.items| <= 20
  {
    var versions := Paging.Query(table, VersionNumber, Higher, CursorOf(before), VERSIONS_PER_PAGE + 1);
    var next := 0;
    if |versions| > VERSIONS_PER_PAGE {
      versions := versions[..VERSIONS_PER_PAGE];
      next := versions[VERSIONS_PER_PAGE - 1].version;
    }
    page := NumberedPage(versions, next);
  }

  // Filtering keeps the order, so the log of a filter pages like the whole log.
  lemma {:induction false} MatchingDescends(table: seq<AuditRow>, f: AuditFilter, lower: string -> string)
    requires Descending(table, RowNumber)
    ensures Descending(Matching(table, f, lower), RowNumber)
  {
    if table != [] {
      MatchingDescends(table[1..], f, lower);
      var rest := Matching(table[1..], f, lower);
      forall i | 0 <= i < |rest| ensures table[0].id > rest[i].id {
        assert rest[i] in table[1..];
        var j :| 0 <= j < |table[1..]| && table[1..][j] == rest[i];
        assert RowNumber(table[0]) > RowNumber(table[j + 1]);
      }
    }
  }

  // A session over the pages of a filter shows exactly the rows that it asks for, the newest first.
  lemma LogShows(input: AuditFilter, table: seq<AuditRow>, lower: string -> string, pages: seq<NumberedPage<AuditRow>>,
                 limits: seq<nat>)
    requires Descending(table, RowNumber)
    requires Session(Matching(table, Normalized(input), lower), RowNumber, 0, pages, limits)
    ensures forall row :: row in Shown(pages) <==> row in AskedFor(table, input, lower)
    ensures forall i, j | 0 <= i < j < |Shown(pages)| :: Shown(pages)[i].id > Shown(pages)[j].id
  {
    MatchingDescends(table, Normalized(input), lower);
    MatchingExactly(table, input, lower);
    var rows := Matching(table, Normalized(input), lower);
    SessionShowsEverything(rows, RowNumber, pages, limits);
    forall i, j | 0 <= i < j < |rows| ensures rows[i].id > rows[j].id {
      assert RowNumber(rows[i]) > RowNumber(rows[j]);
    }
  }
}
