/** The member, role, role member and invitation directories: input validation, cursors bound to their
    collection and filter, and what following them shows. */
module Directories {
  import opened Wrappers
  import Ordering
  import Paging
  import Policy
  import Text

  datatype Kind = Members | Roles | RoleMembers | Invitations

  // A row of one collection; text is what a search looks at, at the creation time of an invitation.
  datatype Row = Row(id: string, at: int, text: string, status: string)

  // Cursors as decoded values; role and assignment are used by the role member directory only.
  datatype Cursor = Cursor(
    tenant: string, kind: Kind, query: string, status: string, id: string, at: Option<int>, role: string,
    assignment: string)

  datatype AfterInput = Start | Malformed | Supplied(cursor: Cursor)

  datatype Filter = Filter(query: string, status: string, after: AfterInput, limit: int)

  datatype DirectoryPage = DirectoryPage(items: seq<Row>, total: nat, next: Option<Cursor>)

  const MAX_QUERY := 128
  const MAX_LIMIT := 100
  const DEFAULT_LIMIT := 30
  const MAX_ID_BYTES := 256

  // The collection a request is about.
  datatype Target = Target(tenant: string, kind: Kind, role: string, assignment: string)

  // What a request can be refused for.
  datatype DirectoryError = InvalidInput | RoleNotFound

  // A role member directory shows the assigned members unless asked for the others.
  function Scoped(t: Target): Target {
    if t.kind.RoleMembers? && t.assignment == "" then t.(assignment := "assigned") else t
  }

  predicate ValidTarget(t: Target) {
    t.kind.RoleMembers? ==> Policy.ValidID(t.role) && t.assignment in ["", "assigned", "available"]
  }

  predicate ValidStatus(kind: Kind, status: string) {
    status == "" ||
    match kind
    case Roles => false
    case Invitations => status in ["pending", "accepted", "revoked", "expired"]
    case _ => status in ["active", "suspended"]
  }

  predicate UsableID(id: string) {
    id != "" && Text.Utf8Length(id) <= MAX_ID_BYTES && '\0' !in id
  }

  predicate CursorFits(t: Target, query: string, status: string, c: Cursor) {
    && c.tenant == t.tenant && c.kind == t.kind && c.query == query && c.status == status && UsableID(c.id)
    && (t.kind.Invitations? ==> c.at.Some?)
    && (t.kind.RoleMembers? ==> c.role == t.role && c.assignment == t.assignment)
  }

  predicate ValidFilter(t: Target, f: Filter) {
    var query := Text.TrimSpace(f.query);
    && |query| <= MAX_QUERY && '\0' !in query && 0 <= f.limit <= MAX_LIMIT && ValidStatus(t.kind, f.status)
    && (f.after.Start? || (f.after.Supplied? && CursorFits(t, query, f.status, f.after.cursor)))
  }

  function LimitOf(f: Filter): nat
    requires f.limit >= 0
  {
    if f.limit == 0 then DEFAULT_LIMIT else f.limit
  }

  // ---------- The query ----------

  predicate Contains(text: string, part: string) {
    exists i :: 0 <= i <= |text| && part <= text[i..]
  }

  predicate Matches(row: Row, query: string, status: string, lower: string -> string) {
    (query == "" || Contains(lower(row.text), lower(query))) && (status == "" || row.status == status)
  }

  function Matching(table: seq<Row>, query: string, status: string, lower: string -> string): seq<Row> {
    if table == [] then []
    else (if Matches(table[0], query, status,
                     lower) then [table[0]] else []) + Matching(table[1..], query, status, lower)
  }

  // Which rows these are.
  lemma {:induction false} MatchingExactly(table: seq<Row>, query: string, status: string, lower: string -> string)
    ensures forall row :: row in Matching(table, query, status, lower) <==>
      && row in table && (status == "" || row.status == status)
      && (query == "" || exists i :: 0 <= i <= |lower(row.text)| && lower(query) <= lower(row.text)[i..])
  {
    if table != [] {
      MatchingExactly(table[1..], query, status, lower);
      assert forall row :: row in table <==> row == table[0] || row in table[1..];
    }
  }

  // Where a row stands in its collection: by identifier, but invitations newest first.
  datatype Place = ByID(id: string) | ByAge(at: int, id: string)

  function PlaceOf(kind: Kind, row: Row): Place {
    if kind.Invitations? then ByAge(row.at, row.id) else ByID(row.id)
  }

  // ORDER BY id, or ORDER BY created_at DESC, id DESC. Places of the two forms never meet.
  predicate Earlier(a: Place, b: Place) {
    match (a, b)
    case (ByID(i), ByID(j)) => Ordering.StringLess(i, j)
    case (ByAge(s, i), ByAge(t, j)) => s > t || (s == t && Ordering.StringLess(j, i))
    case (ByID(_), ByAge(_, _)) => true
    case (ByAge(_, _), ByID(_)) => false
  }

  lemma EarlierOrders()
    ensures Ordering.StrictOrder(Earlier)
  {
    forall a, b, c: Place
      ensures !Earlier(a, a)
      ensures Earlier(a, b) && Earlier(b, c) ==> Earlier(a, c)
      ensures Earlier(a, b) || a == b || Earlier(b, a)
    {
      Ordering.StringOrder(a.id, b.id, c.id);
      Ordering.StringOrder(b.id, a.id, a.id);
      Ordering.StringOrder(c.id, b.id, a.id);
    }
  }

  // The rows of the collection as the database orders them.
  ghost predicate Collection(kind: Kind, table: seq<Row>) {
    && (forall i, j | 0 <= i < j < |table| :: Earlier(PlaceOf(kind, table[i]), PlaceOf(kind, table[j])))
    && (forall i | 0 <= i < |table| :: UsableID(table[i].id))
  }

  lemma {:induction false} MatchingRows(table: seq<Row>, query: string, status: string, lower: string -> string)
    ensures forall row | row in Matching(table, query, status, lower) :: row in table
  {
    if table != [] {
      MatchingRows(table[1..], query, status, lower);
    }
  }

  lemma {:induction false} MatchingCollection(kind: Kind, table: seq<Row>, query: string, status: string,
                                              lower: string -> string)
    requires Collection(kind, table)
    ensures Collection(kind, Matching(table, query, status, lower))
  {
    if table != [] {
      MatchingCollection(kind, table[1..], query, status, lower);
      MatchingRows(table[1..], query, status, lower);
      var rest := Matching(table[1..], query, status, lower);
      forall i | 0 <= i < |rest| ensures Earlier(PlaceOf(kind, table[0]), PlaceOf(kind, rest[i])) {
        assert rest[i] in table[1..];
        var j :| 0 <= j < |table[1..]| && table[1..][j] == rest[i];
        assert table[j + 1] == rest[i];
      }
    }
  }

  function StartOf(kind: Kind, after: AfterInput): Option<Place> {
    match after
    case Supplied(c) =>
      Some(if kind.Invitations? then ByAge(if c.at.Some? then c.at.value else 0, c.id) else ByID(c.id))
    case _ => None
  }

  function CursorAt(t: Target, query: string, status: string, row: Row): Cursor {
    Cursor(t.tenant, t.kind, query, status, row.id, if t.kind.Invitations? then Some(row.at) else None,
           if t.kind.RoleMembers? then t.role else "", if t.kind.RoleMembers? then t.assignment else "")
  }

  // What a request must answer: its page of the matching rows, their number, and a cursor if more follow.
  ghost predicate Answers(t: Target, f: Filter, table: seq<Row>, lower: string -> string, page: DirectoryPage)
    requires ValidFilter(t, f)
  {
    var query := Text.TrimSpace(f.query);
    var rows := Matching(table, query, f.status, lower);
    var expected := Paging.PageOf(rows, row => PlaceOf(t.kind, row), Earlier, StartOf(t.kind, f.after), LimitOf(f));
    && page.items == expected.items && page.total == |rows|
    && (page.next.Some? <==> expected.next.Some?)
    && (page.next.Some? ==>
          page.items != [] && page.next.value == CursorAt(t, query, f.status, page.items[|page.items| - 1]))
  }

  // The rows with the requested status whose text contains the search, in lower case.
  ghost function AskedFor(table: seq<Row>, f: Filter, lower: string -> string): set<Row> {
    var query := Text.TrimSpace(f.query);
    set row | row in table && (f.status == "" || row.status == f.status)
      && (query == "" || exists i :: 0 <= i <= |lower(row.text)| && lower(query) <= lower(row.text)[i..])
  }

  // A page shows some of these rows, and reports how many there are.
  lemma AnswerRows(t: Target, f: Filter, table: seq<Row>, lower: string -> string, page: DirectoryPage)
    requires ValidFilter(t, f) && Answers(t, f, table, lower, page)
    ensures forall row | row in page.items :: row in AskedFor(table, f, lower)
    ensures Collection(t.kind, table) ==> page.total == |AskedFor(table, f, lower)|
  {
    hide ValidFilter, Collection;
    var query := Text.TrimSpace(f.query);
    var rows := Matching(table, query, f.status, lower);
    MatchingExactly(table, query, f.status, lower);
    AfterRows(rows, row => PlaceOf(t.kind, row), Earlier, StartOf(t.kind, f.after));
    if Collection(t.kind, table) {
      MatchingCollection(t.kind, table, query, f.status, lower);
      CountDistinct(t.kind, rows, AskedFor(table, f, lower));
    }
  }

  // The four directories; roleExists says whether the role of a role member directory is stored and live.
  method Directory(target: Target, roleExists: bool, f: Filter, table: seq<Row>, lower: string -> string)
    returns (r: Result<DirectoryPage, DirectoryError>)
    ensures r == Err(InvalidInput) <==> !ValidTarget(target) || !ValidFilter(Scoped(target), f)
    ensures r == Err(RoleNotFound) <==>
      ValidTarget(target) && ValidFilter(Scoped(target), f) && target.kind.RoleMembers? && !roleExists
    ensures r.Ok? ==> (target.kind.RoleMembers? ==> roleExists) && Answers(Scoped(target), f, table, lower, r.value)
    ensures r.Ok? ==>
      && |r.value.items| <= (if f.limit == 0 then 30 else f.limit)
      && (r.value.next.Some? ==> |r.value.items| == if f.limit == 0 then 30 else f.limit)
      && (forall row | row in r.value.items :: row in AskedFor(table, f, lower))
      && (Collection(target.kind, table) ==> r.value.total == |AskedFor(table, f, lower)|)
  {
    hide AskedFor, Collection, Matching;
    if !ValidTarget(target) {
      return Err(InvalidInput);
    }
    var t := Scoped(target);
    var query := Text.TrimSpace(f.query);
    if |query| > MAX_QUERY || '\0' in query || f.limit < 0 || f.limit > MAX_LIMIT || !ValidStatus(t.kind, f.status) {
      return Err(InvalidInput);
    }
    var limit: nat := LimitOf(f);
    if !f.after.Start? {
      if f.after.Malformed? || !CursorFits(t, query, f.status, f.after.cursor) {
        return Err(InvalidInput);
      }
    }
    if t.kind.RoleMembers? && !roleExists {
      return Err(RoleNotFound);
    }
    var rows := Matching(table, query, f.status, lower);
    var page := Paging.FetchPage(rows, row => PlaceOf(t.kind, row), Earlier, StartOf(t.kind, f.after), limit);
    var next := None;
    if page.next.Some? {
      next := Some(CursorAt(t, query, f.status, page.items[limit - 1]));
    }
    r := Ok(DirectoryPage(page.items, |rows|, next));
    AnswerRows(t, f, table, lower, r.value);
  }

  // Rows of a collection are different, so their number is that of their set.
  lemma {:induction false} CountDistinct(kind: Kind, rows: seq<Row>, all: set<Row>)
    requires Collection(kind, rows) && forall row :: row in rows <==> row in all
    ensures |rows| == |all|
  {
    if rows == [] {
      assert all == {};
    } else {
      EarlierOrders();
      forall i | 0 < i < |rows| ensures rows[i] != rows[0] {
        assert Earlier(PlaceOf(kind, rows[0]), PlaceOf(kind, rows[i]));
      }
      CountDistinct(kind, rows[1..], all - {rows[0]});
    }
  }

  // ---------- Following the cursors ----------

  // A cursor from a page is accepted with the filter that produced it, and stands where the page ended.
  lemma CursorIsAccepted(t: Target, f: Filter, table: seq<Row>, lower: string -> string, page: DirectoryPage)
    requires ValidFilter(t, f) && Collection(t.kind, table) && Answers(t, f, table, lower, page) && page.next.Some?
    ensures ValidFilter(t, f.(after := Supplied(page.next.value)))
    ensures StartOf(t.kind, Supplied(page.next.value)) == Some(PlaceOf(t.kind, page.items[|page.items| - 1]))
  {
    var query := Text.TrimSpace(f.query);
    var rows := Matching(table, query, f.status, lower);
    MatchingCollection(t.kind, table, query, f.status, lower);
    var last := page.items[|page.items| - 1];
    AfterRows(rows, row => PlaceOf(t.kind, row), Earlier, StartOf(t.kind, f.after));
    assert last in page.items;
    assert last in rows;
  }

  lemma {:induction false} AfterRows<T, K>(list: seq<T>, key: T -> K, before: (K, K) -> bool, cursor: Option<K>)
    ensures forall x | x in Paging.After(list, key, before, cursor) :: x in list
  {
    if list != [] {
      AfterRows(list[1..], key, before, cursor);
    }
  }

  // It is refused for another tenant, collection, search or status.
  lemma CursorIsBound(t: Target, f: Filter, other: Target, g: Filter, c: Cursor)
    requires ValidFilter(t, f.(after := Supplied(c))) && ValidFilter(other, g.(after := Supplied(c)))
    ensures other.tenant == t.tenant && other.kind == t.kind && Text.TrimSpace(g.query) == Text.TrimSpace(f.query)
    ensures g.status == f.status
    ensures t.kind.RoleMembers? ==> other.role == t.role && other.assignment == t.assignment
  {
  }

  // One client session: pages answered one after the other, each request repeating the filter with the
  // cursor it was given, with any limit.
  ghost predicate Session(t: Target, f: Filter, table: seq<Row>, lower: string -> string, pages: seq<DirectoryPage>,
                          limits: seq<int>)
    decreases |pages|
  {
    && |limits| == |pages| && pages != []
    && var request := f.(limit := limits[0]);
       && ValidFilter(t, request) && Answers(t, request, table, lower, pages[0])
       && if pages[0].next.None? then |pages| == 1
          else Session(t, f.(after := Supplied(pages[0].next.value)), table, lower, pages[1..], limits[1..])
  }

  function Shown(pages: seq<DirectoryPage>): seq<Row> {
    if pages == [] then [] else pages[0].items + Shown(pages[1..])
  }

  // The rows that a request has still to show, and whether its cursor was handed out.
  ghost function Rest(t: Target, f: Filter, table: seq<Row>, lower: string -> string): seq<Row> {
    Paging.After(Matching(table, Text.TrimSpace(f.query), f.status, lower), row => PlaceOf(t.kind, row), Earlier,
                 StartOf(t.kind, f.after))
  }

  ghost predicate Started(t: Target, f: Filter, table: seq<Row>, lower: string -> string) {
    Paging.HandedOut(Matching(table, Text.TrimSpace(f.query), f.status, lower), row => PlaceOf(t.kind, row),
                     StartOf(t.kind, f.after))
  }

  // One page shows the beginning of these rows, and the next request the remainder.
  lemma PageStep(t: Target, f: Filter, limit: int, table: seq<Row>, lower: string -> string, page: DirectoryPage)
    requires Collection(t.kind, table) && Started(t, f, table, lower)
    requires ValidFilter(t, f.(limit := limit)) && Answers(t, f.(limit := limit), table, lower, page)
    ensures page.items <= Rest(t, f, table, lower)
    ensures page.next.None? ==> page.items == Rest(t, f, table, lower)
    ensures page.next.Some? ==>
      var g := f.(after := Supplied(page.next.value));
      && page.items != [] && Started(t, g, table, lower)
      && Rest(t, f, table, lower) == page.items + Rest(t, g, table, lower)
  {
    var request, key := f.(limit := limit), row => PlaceOf(t.kind, row);
    var rows := Matching(table, Text.TrimSpace(f.query), f.status, lower);
    MatchingCollection(t.kind, table, Text.TrimSpace(f.query), f.status, lower);
    EarlierOrders();
    Paging.NextContinues(rows, key, Earlier, StartOf(t.kind, f.after), LimitOf(request));
    if page.next.Some? {
      CursorIsAccepted(t, request, table, lower, page);
    }
  }

  lemma {:induction false} SessionShowsRest(t: Target, f: Filter, table: seq<Row>, lower: string -> string,
                                            pages: seq<DirectoryPage>, limits: seq<int>)
    requires Collection(t.kind, table) && Session(t, f, table, lower, pages, limits)
    requires Paging.HandedOut(Matching(table, Text.TrimSpace(f.query), f.status, lower), row => PlaceOf(t.kind, row),
                              StartOf(t.kind, f.after))
    ensures Shown(pages) == Paging.After(Matching(table, Text.TrimSpace(f.query), f.status, lower),
                                         row => PlaceOf(t.kind, row), Earlier, StartOf(t.kind, f.after))
    ensures |pages| <= 1 + |Shown(pages)|
    decreases |pages|
  {
    hide Collection, ValidFilter, Answers, Matching, StartOf, Paging.HandedOut, Paging.After;
    PageStep(t, f, limits[0], table, lower, pages[0]);
    if pages[0].next.None? {
      assert pages[1..] == [];
    } else {
      SessionShowsRest(t, f.(after := Supplied(pages[0].next.value)), table, lower, pages[1..], limits[1..]);
    }
  }

  // A session that need not be finished: every page but the last has a cursor, and the next request carries it.
  ghost predicate Following(t: Target, f: Filter, table: seq<Row>, lower: string -> string, pages: seq<DirectoryPage>,
                            limits: seq<int>)
    decreases |pages|
  {
    && |limits| == |pages| && pages != []
    && var request := f.(limit := limits[0]);
       && ValidFilter(t, request) && Answers(t, request, table, lower, pages[0])
       && (|pages| > 1 ==>
             pages[0].next.Some?
             && Following(t, f.(after := Supplied(pages[0].next.value)), table, lower, pages[1..], limits[1..]))
  }

  // Following the cursors cannot go on: there is at most one page more than rows that are left, whatever limits
  // are asked for, and what was shown so far is a beginning of those rows.
  lemma {:induction false} FollowingEnds(t: Target, f: Filter, table: seq<Row>, lower: string -> string,
                                         pages: seq<DirectoryPage>, limits: seq<int>)
    requires Collection(t.kind, table) && Following(t, f, table, lower, pages, limits)
    requires Paging.HandedOut(Matching(table, Text.TrimSpace(f.query), f.status, lower), row => PlaceOf(t.kind, row),
                              StartOf(t.kind, f.after))
    ensures var rest := Paging.After(Matching(table, Text.TrimSpace(f.query), f.status, lower),
                                     row => PlaceOf(t.kind, row), Earlier, StartOf(t.kind, f.after));
            |pages| <= 1 + |rest| && Shown(pages) <= rest
    decreases |pages|
  {
    hide Collection, ValidFilter, Answers, Matching, StartOf, Paging.HandedOut, Paging.After;
    PageStep(t, f, limits[0], table, lower, pages[0]);
    if |pages| == 1 {
      assert pages[1..] == [];
    } else {
      FollowingEnds(t, f.(after := Supplied(pages[0].next.value)), table, lower, pages[1..], limits[1..]);
    }
  }

  lemma {:induction false} SessionTotals(t: Target, f: Filter, table: seq<Row>, lower: string -> string,
                                         pages: seq<DirectoryPage>, limits: seq<int>)
    requires Session(t, f, table, lower, pages, limits)
    ensures forall i | 0 <= i < |pages| :: pages[i].total == |Matching(table, Text.TrimSpace(f.query), f.status, lower)|
    decreases |pages|
  {
    if pages[0].next.Some? {
      SessionTotals(t, f.(after := Supplied(pages[0].next.value)), table, lower, pages[1..], limits[1..]);
    }
  }

  // By identifier, but invitations from the newest on.
  ghost predicate Listed(kind: Kind, rows: seq<Row>) {
    forall i, j | 0 <= i < j < |rows| ::
      if kind.Invitations? then
        rows[i].at > rows[j].at || (rows[i].at == rows[j].at && Ordering.StringLess(rows[j].id, rows[i].id))
      else Ordering.StringLess(rows[i].id, rows[j].id)
  }

  lemma CollectionListed(kind: Kind, rows: seq<Row>)
    requires Collection(kind, rows)
    ensures Listed(kind, rows) && forall i, j | 0 <= i < j < |rows| :: rows[i] != rows[j]
  {
    EarlierOrders();
    forall i, j | 0 <= i < j < |rows|
      ensures Earlier(PlaceOf(kind, rows[i]), PlaceOf(kind, rows[j])) && rows[i] != rows[j]
    {
    }
  }

  // Every session that starts without a cursor shows exactly the rows that were asked for, in this order, each once,
  // and each page reports their number.
  lemma SessionShowsEverything(t: Target, f: Filter, table: seq<Row>, lower: string -> string,
                               pages: seq<DirectoryPage>, limits: seq<int>)
    requires Collection(t.kind, table) && Session(t, f, table, lower, pages, limits) && f.after.Start?
    ensures Shown(pages) == Matching(table, Text.TrimSpace(f.query), f.status, lower)
    ensures var query := Text.TrimSpace(f.query);
      forall row :: row in Shown(pages) <==>
        && row in table && (f.status == "" || row.status == f.status)
        && (query == "" || exists i :: 0 <= i <= |lower(row.text)| && lower(query) <= lower(row.text)[i..])
    ensures Listed(t.kind, Shown(pages))
    ensures forall i, j | 0 <= i < j < |Shown(pages)| :: Shown(pages)[i] != Shown(pages)[j]
    ensures |pages| <= 1 + |Shown(pages)|
    ensures forall i | 0 <= i < |pages| :: pages[i].total == |Shown(pages)|
  {
    hide Collection, Matching, Session, Listed, Shown;
    var query := Text.TrimSpace(f.query);
    var rows := Matching(table, query, f.status, lower);
    SessionShowsRest(t, f, table, lower, pages, limits);
    Paging.AfterAll(rows, row => PlaceOf(t.kind, row), Earlier, None);
    SessionTotals(t, f, table, lower, pages, limits);
    MatchingCollection(t.kind, table, query, f.status, lower);
    MatchingExactly(table, query, f.status, lower);
    CollectionListed(t.kind, rows);
  }
}
