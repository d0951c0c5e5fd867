/** Keyset paging: each page is read after the key of the last row shown, one row more than the limit is
    fetched, and the surplus row decides whether there is a next cursor. */
module Paging {
  import opened Wrappers
  import Ordering
  import Text

  // ---------- One page ----------

  ghost predicate Sorted<T(!new), K(!new)>(list: seq<T>, key: T -> K, before: (K, K) -> bool) {
    forall i, j | 0 <= i < j < |list| :: before(key(list[i]), key(list[j]))
  }

  // WHERE cursor is absent or key lies after it.
  function After<T, K>(list: seq<T>, key: T -> K, before: (K, K) -> bool, cursor: Option<K>): seq<T> {
    if list == [] then []
    else (if cursor.None? || before(cursor.value,
                                    key(list[0])) then [list[0]] else []) + After(list[1..], key, before, cursor)
  }

  datatype Page<T, K> = Page(items: seq<T>, next: Option<K>)

  // The rows of the snapshot in query order, filtered: what paging must show, each row once.
  method FetchPage<T(!new), K(!new)>(list: seq<T>, key: T -> K, before: (K, K) -> bool, cursor: Option<K>, limit: nat)
    returns (page: Page<T, K>)
    requires limit > 0
    ensures page == PageOf(list, key, before, cursor, limit)
  {
    var rows := Query(list, key, before, cursor, limit + 1);
    page := Page(rows, None);
    if |rows| > limit {
      page := Page(rows[..limit], Some(key(rows[limit - 1])));
    }
  }

  // SELECT ... WHERE ... ORDER BY ... LIMIT
  function Query<T, K>(list: seq<T>, key: T -> K, before: (K, K) -> bool, cursor: Option<K>, limit: nat): seq<T> {
    var rows := After(list, key, before, cursor);
    if |rows| <= limit then rows else rows[..limit]
  }

  // A page holds the first rows after the cursor, and points on exactly if it does not hold all of them.
  function PageOf<T, K>(list: seq<T>, key: T -> K, before: (K, K) -> bool, cursor: Option<K>,
                        limit: nat): (page: Page<T, K>)
    requires limit > 0
    ensures page.items <= After(list, key, before, cursor)
    ensures page.next.None? <==> page.items == After(list, key, before, cursor)
    ensures |page.items| <= limit
    ensures page.next.Some? ==> |page.items| == limit && page.next.value == key(page.items[limit - 1])
  {
    var rows := After(list, key, before, cursor);
    if |rows| <= limit then Page(rows, None) else Page(rows[..limit], Some(key(rows[limit - 1])))
  }

  // ---------- All pages ----------

  // In a sorted list the rows after the key of row i are the rows from i + 1 on.
  lemma {:induction false} AfterKey<T(!new), K(!new)>(list: seq<T>, key: T -> K, before: (K, K) -> bool, i: nat)
    requires Ordering.StrictOrder(before) && Sorted(list, key, before) && i < |list|
    ensures After(list, key, before, Some(key(list[i]))) == list[i + 1..]
  {
    if i == 0 {
      AfterAll(list[1..], key, before, Some(key(list[0])));
    } else {
      assert !before(key(list[i]), key(list[0]));
      AfterKey(list[1..], key, before, i - 1);
      assert list[1..][i - 1] == list[i];
    }
  }

  lemma {:induction false} AfterAll<T, K>(list: seq<T>, key: T -> K, before: (K, K) -> bool, cursor: Option<K>)
    requires cursor.None? || forall i | 0 <= i < |list| :: before(cursor.value, key(list[i]))
    ensures After(list, key, before, cursor) == list
  {
    if list != [] {
      AfterAll(list[1..], key, before, cursor);
      assert list == [list[0]] + list[1..];
    }
  }

  // The cursors that paging hands out: none, or the key of a row of the list.
  ghost predicate HandedOut<T(!new), K>(list: seq<T>, key: T -> K, cursor: Option<K>) {
    cursor.None? || exists i :: 0 <= i < |list| && key(list[i]) == cursor.value
  }

  lemma NextContinues<T(!new), K(!new)>(list: seq<T>, key: T -> K, before: (K, K) -> bool, cursor: Option<K>,
                                        limit: nat)
    requires Ordering.StrictOrder(before) && Sorted(list, key, before) && limit > 0 && HandedOut(list, key, cursor)
    ensures var page := PageOf(list, key, before, cursor, limit);
      page.next.Some? ==>
        && HandedOut(list, key, page.next)
        && After(list, key, before, cursor) == page.items + After(list, key, before, page.next)
  {
    hide After;
    var page := PageOf(list, key, before, cursor, limit);
    if page.next.Some? {
      var start := RowAfter(list, key, before, cursor);
      assert page.items == list[start..][..limit] == list[start..start + limit];
      AfterKey(list, key, before, start + limit - 1);
      assert list[start..] == list[start..start + limit] + list[start + limit..];
    }
  }

  lemma RowAfter<T(!new), K(!new)>(list: seq<T>, key: T -> K, before: (K, K) -> bool, cursor: Option<K>)
    returns (start: nat)
    requires Ordering.StrictOrder(before) && Sorted(list, key, before) && HandedOut(list, key, cursor)
    ensures start <= |list| && After(list, key, before, cursor) == list[start..]
  {
    if cursor.None? {
      AfterAll(list, key, before, cursor);
      start := 0;
    } else {
      var i :| 0 <= i < |list| && key(list[i]) == cursor.value;
      AfterKey(list, key, before, i);
      start := i + 1;
    }
  }

  // Every request may ask for a different number of rows.
  ghost predicate Positive(limits: nat -> nat) {
    forall n :: limits(n) > 0
  }

  // Following the cursors from here, whatever the limits, shows the rest of the list in order, each row
  // once, and stops.
  ghost function Follow<T(!new), K(!new)>(list: seq<T>, key: T -> K, before: (K, K) -> bool, cursor: Option<K>,
                                          limits: nat -> nat, n: nat): (shown: seq<seq<T>>)
    requires Ordering.StrictOrder(before) && Sorted(list, key, before) && Positive(limits)
    requires HandedOut(list, key, cursor)
    ensures Concat(shown) == After(list, key, before, cursor)
    ensures |shown| <= 1 + |After(list, key, before, cursor)|
    decreases |After(list, key, before, cursor)|
  {
    NextContinues(list, key, before, cursor, limits(n));
    var page := PageOf(list, key, before, cursor, limits(n));
    if page.next.None? then [page.items]
    else
      var rest := Follow(list, key, before, page.next, limits, n + 1);
      assert ([page.items] + rest)[1..] == rest;
      [page.items] + rest
  }

  function Concat<T>(pages: seq<seq<T>>): seq<T> {
    if pages == [] then [] else pages[0] + Concat(pages[1..])
  }

  lemma PagesShowEverything<T(!new), K(!new)>(list: seq<T>, key: T -> K, before: (K, K) -> bool, limits: nat -> nat)
    requires Ordering.StrictOrder(before) && Sorted(list, key, before) && Positive(limits)
    ensures Concat(Follow(list, key, before, None, limits, 0)) == list
    ensures forall i, j | 0 <= i < j < |list| :: list[i] != list[j]
  {
    AfterAll(list, key, before, None);
    forall i, j | 0 <= i < j < |list| ensures list[i] != list[j] {
      assert before(key(list[i]), key(list[j]));
    }
  }
}
