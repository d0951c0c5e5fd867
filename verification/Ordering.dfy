/** Ordered listings: the unique strictly increasing sequence of a set of keyed items, which is what the
    sorting calls of the Go code compute whenever the compared keys tell the items apart. */
module Ordering {
  // Lexicographic order by code point, which is the byte order of the UTF-8 encodings.
  predicate StringLess(a: string, b: string) {
    b != "" && (a == "" || a[0] < b[0] || (a[0] == b[0] && StringLess(a[1..], b[1..])))
  }

  // A composite sort key, compared component by component.
  type Key = seq<string>

  predicate KeyLess(a: Key, b: Key) {
    b != [] && (a == [] || StringLess(a[0], b[0]) || (a[0] == b[0] && KeyLess(a[1..], b[1..])))
  }

  lemma {:induction false} StringOrder(a: string, b: string, c: string)
    ensures !StringLess(a, a)
    ensures StringLess(a, b) && StringLess(b, c) ==> StringLess(a, c)
    ensures StringLess(a, b) || a == b || StringLess(b, a)
  {
    if a != "" && b != "" && c != "" {
      StringOrder(a[1..], b[1..], c[1..]);
      assert a == [a[0]] + a[1..] && b == [b[0]] + b[1..];
    } else if a != "" && b != "" {
      StringOrder(a[1..], b[1..], "");
      assert a == [a[0]] + a[1..] && b == [b[0]] + b[1..];
    } else if a != "" {
      StringOrder(a[1..], "", "");
    }
  }

  lemma {:induction false} KeyOrder(a: Key, b: Key, c: Key)
    ensures !KeyLess(a, a)
    ensures KeyLess(a, b) && KeyLess(b, c) ==> KeyLess(a, c)
    ensures KeyLess(a, b) || a == b || KeyLess(b, a)
  {
    if a != [] {
      StringOrder(a[0], a[0], a[0]);
      if b != [] {
        StringOrder(a[0], b[0], if c != [] then c[0] else "");
        assert a == [a[0]] + a[1..] && b == [b[0]] + b[1..];
      }
      KeyOrder(a[1..], if b != [] then b[1..] else [], if c != [] then c[1..] else []);
    }
  }

  lemma KeyOfOne(a: string, b: string)
    ensures KeyLess([a], [b]) <==> StringLess(a, b)
  {
    assert !KeyLess([a][1..], [b][1..]);
    StringOrder(a, a, a);
  }

  ghost predicate Increasing<T>(list: seq<T>, key: T -> Key) {
    forall i, j | 0 <= i < j < |list| :: KeyLess(key(list[i]), key(list[j]))
  }

  // list holds exactly the items, in increasing key order.
  ghost predicate IsListing<T(!new)>(list: seq<T>, items: set<T>, key: T -> Key) {
    Increasing(list, key) && forall x :: x in list <==> x in items
  }

  ghost function Listing<T(!new)>(items: set<T>, key: T -> Key): seq<T> {
    if exists list :: IsListing(list, items, key) then
      var list :| IsListing(list, items, key); list
    else []
  }

  // A set has at most one listing, so sorting is canonical.
  lemma {:induction false} ListingUnique<T(!new)>(a: seq<T>, b: seq<T>, items: set<T>, key: T -> Key)
    requires IsListing(a, items, key) && IsListing(b, items, key)
    ensures a == b
  {
    assert (a != [] ==> a[0] in items) && (b != [] ==> b[0] in items);
    if a != [] && b != [] {
      SameHead(a, b, items, key);
      TailListing(a, items, key);
      TailListing(b, items, key);
      ListingUnique(a[1..], b[1..], items - {a[0]}, key);
      assert a == [a[0]] + a[1..] && b == [b[0]] + b[1..];
    }
  }

  lemma SameHead<T(!new)>(a: seq<T>, b: seq<T>, items: set<T>, key: T -> Key)
    requires IsListing(a, items, key) && IsListing(b, items, key) && a != [] && b != []
    ensures a[0] == b[0]
  {
    assert a[0] in items && b[0] in items;
    var i :| 0 <= i < |b| && b[i] == a[0];
    var j :| 0 <= j < |a| && a[j] == b[0];
    KeyOrder(key(a[0]), key(b[0]), key(a[0]));
    assert forall k | 0 < k < |b| :: KeyLess(key(b[0]), key(b[k]));
    assert forall k | 0 < k < |a| :: KeyLess(key(a[0]), key(a[k]));
  }

  lemma TailListing<T(!new)>(list: seq<T>, items: set<T>, key: T -> Key)
    requires IsListing(list, items, key) && list != []
    ensures IsListing(list[1..], items - {list[0]}, key)
  {
    KeyOrder(key(list[0]), key(list[0]), key(list[0]));
    assert list == [list[0]] + list[1..];
    forall i | 0 <= i < |list[1..]| ensures list[1..][i] != list[0] {
      assert KeyLess(key(list[0]), key(list[i + 1]));
    }
  }

  lemma ListingIs<T(!new)>(list: seq<T>, items: set<T>, key: T -> Key)
    requires IsListing(list, items, key)
    ensures Listing(items, key) == list
  {
    ListingUnique(Listing(items, key), list, items, key);
  }

  predicate DistinctKeys<T(!new)>(items: set<T>, key: T -> Key) {
    forall x, y | x in items && y in items && key(x) == key(y) :: x == y
  }

  function Elements<T>(list: seq<T>): set<T> {
    set x: T | x in list
  }

  predicate NoDuplicates<T(==)>(list: seq<T>) {
    forall i, j | 0 <= i < j < |list| :: list[i] != list[j]
  }

  // Inserting one item into its place.
  method InsertSorted<T(==,!new)>(list: seq<T>, ghost items: set<T>, x: T, key: T -> Key) returns (next: seq<T>)
    requires IsListing(list, items, key) && DistinctKeys(items + {x}, key) && x !in items
    ensures IsListing(next, items + {x}, key)
  {
    var i := 0;
    while i < |list| && KeyLess(key(list[i]), key(x))
      invariant i <= |list|
      invariant forall k | 0 <= k < i :: KeyLess(key(list[k]), key(x))
    {
      i := i + 1;
    }
    next := list[..i] + [x] + list[i..];
    PlacedListing(list, items, x, i, key);
  }

  lemma PlacedListing<T(!new)>(list: seq<T>, items: set<T>, x: T, i: nat, key: T -> Key)
    requires IsListing(list, items, key) && DistinctKeys(items + {x}, key) && x !in items
    requires i <= |list|
    requires forall k | 0 <= k < i :: KeyLess(key(list[k]), key(x))
    requires i < |list| ==> !KeyLess(key(list[i]), key(x))
    ensures IsListing(list[..i] + [x] + list[i..], items + {x}, key)
  {
    forall k | i <= k < |list| ensures KeyLess(key(x), key(list[k])) {
      assert list[i] in list;
      KeyOrder(key(list[i]), key(x), key(x));
      if i < k {
        KeyOrder(key(x), key(list[i]), key(list[k]));
      }
    }
    assert list == list[..i] + list[i..];
  }

  // The sorting call on a list without duplicates, in any input order.
  method SortByKey<T(==,!new)>(input: seq<T>, key: T -> Key) returns (list: seq<T>)
    requires NoDuplicates(input) && DistinctKeys(Elements(input), key)
    ensures IsListing(list, Elements(input), key)
    ensures list == Listing(Elements(input), key)
  {
    list := [];
    for i := 0 to |input|
      invariant IsListing(list, Elements(input[..i]), key)
    {
      assert input[..i + 1] == input[..i] + [input[i]];
      assert Elements(input[..i + 1]) == Elements(input[..i]) + {input[i]};
      list := InsertSorted(list, Elements(input[..i]), input[i], key);
    }
    assert input[..|input|] == input;
    ListingIs(list, Elements(input), key);
  }

  // Every finite set of items with distinct keys has a listing.
  lemma {:induction false} ListingExists<T(!new)>(items: set<T>, key: T -> Key)
    requires DistinctKeys(items, key)
    ensures IsListing(Listing(items, key), items, key)
    decreases items
  {
    if items == {} {
      assert IsListing([], items, key);
    } else {
      var x :| x in items;
      ListingExists(items - {x}, key);
      ListingGrows(Listing(items - {x}, key), items, x, key);
    }
  }

  lemma ListingGrows<T(!new)>(list: seq<T>, items: set<T>, x: T, key: T -> Key)
    requires DistinctKeys(items, key) && x in items && IsListing(list, items - {x}, key)
    ensures exists longer :: IsListing(longer, items, key)
  {
    assert items - {x} + {x} == items;
    var i := Rank(list, key(x), key);
    hide IsListing, DistinctKeys;
    PlacedListing(list, items - {x}, x, i, key);
    assert IsListing(list[..i] + [x] + list[i..], items, key);
  }

  // The number of leading entries below a key.
  function Rank<T>(list: seq<T>, k: Key, key: T -> Key): (i: nat)
    ensures i <= |list|
    ensures forall j | 0 <= j < i :: KeyLess(key(list[j]), k)
    ensures i < |list| ==> !KeyLess(key(list[i]), k)
  {
    if list == [] || !KeyLess(key(list[0]), k) then 0 else 1 + Rank(list[1..], k, key)
  }

  // ---------- Comparators ----------

  ghost predicate StrictOrder<K(!new)>(before: (K, K) -> bool) {
    && (forall a :: !before(a, a))
    && (forall a, b, c :: before(a, b) && before(b, c) ==> before(a, c))
    && (forall a, b :: before(a, b) || a == b || before(b, a))
  }

  // No later element is to be placed before an earlier one.
  ghost predicate InOrder<T, K>(list: seq<T>, key: T -> K, before: (K, K) -> bool) {
    forall i, j | 0 <= i < j < |list| :: !before(key(list[j]), key(list[i]))
  }

  function Inserted<T, K>(list: seq<T>, x: T, key: T -> K, before: (K, K) -> bool): seq<T> {
    if list == [] || !before(key(list[0]), key(x)) then [x] + list else [list[0]] + Inserted(list[1..], x, key, before)
  }

  // One sorted permutation of a list, found by insertion.
  function SortedForm<T, K>(list: seq<T>, key: T -> K, before: (K, K) -> bool): seq<T> {
    if list == [] then [] else Inserted(SortedForm(list[1..], key, before), list[0], key, before)
  }

  lemma {:induction false} InsertedInOrder<T, K(!new)>(list: seq<T>, x: T, key: T -> K, before: (K, K) -> bool)
    requires StrictOrder(before) && InOrder(list, key, before)
    ensures InOrder(Inserted(list, x, key, before), key, before)
    ensures multiset(Inserted(list, x, key, before)) == multiset(list) + multiset{x}
  {
    var r := Inserted(list, x, key, before);
    if list == [] {
    } else if !before(key(list[0]), key(x)) {
      assert r == [x] + list;
      forall i | 0 <= i < |list| ensures !before(key(list[i]), key(x)) {
        assert i > 0 ==> !before(key(list[i]), key(list[0]));
      }
    } else {
      InsertedInOrder(list[1..], x, key, before);
      var rest := Inserted(list[1..], x, key, before);
      assert list == [list[0]] + list[1..];
      forall i | 0 <= i < |rest| ensures !before(key(rest[i]), key(list[0])) {
        assert rest[i] in multiset(rest);
        assert rest[i] == x || rest[i] in multiset(list[1..]);
        if rest[i] != x {
          assert rest[i] in list[1..];
          var j :| 0 <= j < |list[1..]| && list[1..][j] == rest[i];
          assert !before(key(list[j + 1]), key(list[0]));
        }
      }
    }
  }

  lemma {:induction false} SortedFormSorts<T, K(!new)>(list: seq<T>, key: T -> K, before: (K, K) -> bool)
    requires StrictOrder(before)
    ensures InOrder(SortedForm(list, key, before), key, before)
    ensures multiset(SortedForm(list, key, before)) == multiset(list)
  {
    if list != [] {
      SortedFormSorts(list[1..], key, before);
      InsertedInOrder(SortedForm(list[1..], key, before), list[0], key, before);
      assert list == [list[0]] + list[1..];
    }
  }

  lemma SameFirst<T(!new), K(!new)>(a: seq<T>, b: seq<T>, key: T -> K, before: (K, K) -> bool)
    requires StrictOrder(before) && InOrder(a, key, before) && InOrder(b, key, before) && a != [] && b != []
    requires a[0] in b && b[0] in a && (key(a[0]) == key(b[0]) ==> a[0] == b[0])
    ensures a[0] == b[0]
  {
    var j :| 0 <= j < |b| && b[j] == a[0];
    var i :| 0 <= i < |a| && a[i] == b[0];
    assert j > 0 ==> !before(key(b[j]), key(b[0]));
    assert i > 0 ==> !before(key(a[i]), key(a[0]));
  }

  lemma SameTail<T>(a: seq<T>, b: seq<T>)
    requires a != [] && b != [] && a[0] == b[0] && multiset(a) == multiset(b)
    ensures multiset(a[1..]) == multiset(b[1..])
  {
    assert a == [a[0]] + a[1..] && b == [b[0]] + b[1..];
    assert multiset(a[1..]) == multiset(a) - multiset{a[0]};
    assert multiset(b[1..]) == multiset(b) - multiset{b[0]};
  }

  // When keys tell the elements apart, sorting has only one result, whatever the algorithm and the input order.
  lemma {:induction false} OneSortedForm<T(!new), K(!new)>(a: seq<T>, b: seq<T>, key: T -> K, before: (K, K) -> bool)
    requires StrictOrder(before) && InOrder(a, key, before) && InOrder(b, key, before)
    requires multiset(a) == multiset(b) && forall x, y | x in a && y in a && key(x) == key(y) :: x == y
    ensures a == b
    decreases |a|
  {
    hide StrictOrder;
    assert |a| == |multiset(a)| && |b| == |multiset(b)|;
    if a != [] {
      assert a[0] in multiset(b) && b[0] in multiset(a);
      SameFirst(a, b, key, before);
      SameTail(a, b);
      OneSortedForm(a[1..], b[1..], key, before);
    }
  }

  // The values of a list of keys.
  function Image<T, U>(m: map<T, U>, list: seq<T>): (values: seq<U>)
    requires forall x | x in list :: x in m
    ensures |values| == |list| && forall i | 0 <= i < |list| :: values[i] == m[list[i]]
  {
    if list == [] then [] else [m[list[0]]] + Image(m, list[1..])
  }

  lemma {:induction false} ImageWithout<T, U>(m: map<T, U>, list: seq<T>, j: nat)
    requires j < |list| && forall x | x in list :: x in m
    ensures multiset(Image(m, list)) == multiset(Image(m, list[..j] + list[j + 1..])) + multiset{m[list[j]]}
  {
    var all, rest := Image(m, list), Image(m, list[..j] + list[j + 1..]);
    assert rest == all[..j] + all[j + 1..];
    assert all == all[..j] + [all[j]] + all[j + 1..];
  }

  // Taking the first element out of both leaves permutations.
  lemma TailPermutes<T>(a: seq<T>, b: seq<T>, j: nat)
    requires multiset(a) == multiset(b) && a != [] && j < |b| && b[j] == a[0]
    ensures multiset(a[1..]) == multiset(b[..j] + b[j + 1..])
  {
    assert a == [a[0]] + a[1..] && b == b[..j] + [b[j]] + b[j + 1..];
    assert multiset(a[1..]) == multiset(a) - multiset{a[0]};
    assert multiset(b[..j] + b[j + 1..]) == multiset(b) - multiset{b[j]};
  }

  // A permutation of keys is a permutation of their values.
  lemma {:induction false} ImagePermutes<T, U>(m: map<T, U>, a: seq<T>, b: seq<T>)
    requires multiset(a) == multiset(b) && (forall x | x in a :: x in m) && (forall x | x in b :: x in m)
    ensures multiset(Image(m, a)) == multiset(Image(m, b))
    decreases |a|
  {
    hide Image;
    assert |a| == |multiset(a)| && |b| == |multiset(b)|;
    if a != [] {
      assert a[0] in multiset(b);
      var j :| 0 <= j < |b| && b[j] == a[0];
      TailPermutes(a, b, j);
      ImageWithout(m, a, 0);
      ImageWithout(m, b, j);
      assert a[..0] + a[1..] == a[1..];
      assert forall x | x in b[..j] + b[j + 1..] :: x in b;
      ImagePermutes(m, a[1..], b[..j] + b[j + 1..]);
    }
  }

  method Fill<T>(a: array<T>, s: seq<T>)
    requires a.Length == |s|
    modifies a
    ensures a[..] == s
  {
    for i := 0 to a.Length
      invariant a[..i] == s[..i]
    {
      a[i] := s[i];
    }
  }

  // slices.SortFunc, in place.
  method SortSlice<T, K(!new)>(a: array<T>, key: T -> K, before: (K, K) -> bool)
    requires StrictOrder(before)
    modifies a
    ensures InOrder(a[..], key, before) && multiset(a[..]) == multiset(old(a[..]))
  {
    hide StrictOrder, InOrder, SortedForm;
    var sorted := SortedForm(a[..], key, before);
    SortedFormSorts(a[..], key, before);
    assert |sorted| == |multiset(sorted)| == |multiset(a[..])| == a.Length;
    Fill(a, sorted);
  }
}
