/** What the store does for `.sort(...)`, `.skip(...)`, `.limit(...)` and
    `Math.ceil(total / limit)`: order a set of records by an integer key and
    cut one page out of the ordered sequence. */
module Ordering {
  import opened Common

  /** `a` may come before `b` in the requested direction. */
  predicate Precedes(a: int, b: int, descending: bool)
  {
    if descending then a >= b else a <= b
  }

  predicate SortedBy<K>(s: seq<K>, key: K -> int, descending: bool)
  {
    forall i, j :: 0 <= i < j < |s| ==> Precedes(key(s[i]), key(s[j]), descending)
  }

  predicate Distinct<K(==)>(s: seq<K>)
  {
    forall i, j :: 0 <= i < j < |s| ==> s[i] != s[j]
  }

  /** `m` may be listed before every member of `s`. */
  predicate IsFirst<K>(m: K, s: set<K>, key: K -> int, descending: bool)
  {
    forall y :: y in s ==> Precedes(key(m), key(y), descending)
  }

  /** Every non-empty finite set has an element that may be listed first. */
  lemma {:induction false} FirstExists<K>(s: set<K>, key: K -> int, descending: bool)
    requires s != {}
    ensures exists m :: m in s && IsFirst(m, s, key, descending)
    decreases |s|
  {
    var x :| x in s;
    if s != {x} {
      var rest := s - {x};
      FirstExists(rest, key, descending);
      var m :| m in rest && IsFirst(m, rest, key, descending);
      if Precedes(key(m), key(x), descending) {
        assert IsFirst(m, s, key, descending);
      } else {
        assert IsFirst(x, s, key, descending);
      }
    } else {
      assert IsFirst(x, s, key, descending);
    }
  }

  /** Lists every member of `items` once, ordered by `key`. */
  method Sort<K(==)>(items: set<K>, key: K -> int, descending: bool) returns (s: seq<K>)
    ensures forall x :: x in s <==> x in items
    ensures Distinct(s) && |s| == |items|
    ensures SortedBy(s, key, descending)
  {
    s := [];
    var rest := items;
    while rest != {}
      invariant forall x :: x in items <==> x in s || x in rest
      invariant forall x :: x in s ==> x !in rest
      invariant rest <= items && |s| + |rest| == |items|
      invariant Distinct(s)
      invariant SortedBy(s, key, descending)
      invariant forall i, y :: 0 <= i < |s| && y in rest ==> Precedes(key(s[i]), key(y), descending)
      decreases rest
    {
      FirstExists(rest, key, descending);
      var m :| m in rest && IsFirst(m, rest, key, descending);
      s := s + [m];
      rest := rest - {m};
    }
  }

  /** With pairwise different keys there is only one way to order a set. */
  lemma {:induction false} SortedUnique<K>(s: seq<K>, t: seq<K>, key: K -> int, descending: bool)
    requires Distinct(s) && Distinct(t)
    requires forall x :: x in s <==> x in t
    requires SortedBy(s, key, descending) && SortedBy(t, key, descending)
    requires forall i, j :: 0 <= i < j < |s| ==> key(s[i]) != key(s[j])
    ensures s == t
    decreases |s|
  {
    assert s != [] ==> s[0] in s;
    assert t != [] ==> t[0] in t;
    if s != [] && t != [] {
      assert t[0] in s && s[0] in t;
      assert s[0] == t[0];
      forall x ensures x in s[1..] <==> x in t[1..] {
        if x in s[1..] {
          assert x != s[0];
          assert x in t;
        }
        if x in t[1..] {
          assert x != t[0];
          assert x in s;
        }
      }
      SortedUnique(s[1..], t[1..], key, descending);
    }
  }

  /** The number of records a page skips: `(page - 1) * limit`. */
  function Offset(page: Pos, limit: Pos): (n: nat)
    ensures n == (page - 1) * limit
  {
    (page - 1) * limit
  }

  /** `.skip((page - 1) * limit).limit(limit)`. */
  function Paginate<K>(s: seq<K>, page: Pos, limit: Pos): (r: seq<K>)
    ensures |r| == if Offset(page, limit) >= |s| then 0 else Min(limit, |s| - Offset(page, limit))
    ensures forall i :: 0 <= i < |r| ==> r[i] == s[Offset(page, limit) + i]
  {
    var skip := Offset(page, limit);
    if skip >= |s| then [] else s[skip..skip + Min(limit, |s| - skip)]
  }

  /** `Math.ceil(total / limit)`: the least number of pages that hold `total` records. */
  function PageCount(total: nat, limit: Pos): (n: nat)
    ensures n * limit >= total
    ensures n == 0 || (n - 1) * limit < total
  {
    (total + limit - 1) / limit
  }

  /** One page of a listing with its counters: the ids on the page, the
      number of pages, the requested page and the number of matches. */
  datatype Listing<K> = Listing(ids: seq<K>, totalPages: nat, currentPage: Pos, total: nat)

  /** The page `page` of size `limit` cut from the ordered matches. */
  function ListingOf<K>(ordered: seq<K>, page: Pos, limit: Pos): (l: Listing<K>)
    ensures |l.ids| <= limit && l.total == |ordered| && l.currentPage == page
    ensures l.totalPages * limit >= l.total
    ensures l.ids == Paginate(ordered, page, limit) && l.totalPages == PageCount(|ordered|, limit)
  {
    Listing(Paginate(ordered, page, limit), PageCount(|ordered|, limit), page, |ordered|)
  }

  /** Consecutive pages tile the ordered sequence: page `p + 1` starts where page `p` ends. */
  lemma PagesTile<K>(s: seq<K>, page: Pos, limit: Pos)
    requires Offset(page, limit) + limit <= |s|
    ensures Paginate(s, page, limit) + Paginate(s, page + 1, limit)
         == s[Offset(page, limit)..Min(|s|, Offset(page, limit) + 2 * limit)]
  {
    var start := Offset(page, limit);
    assert Offset(page + 1, limit) == start + limit;
    var a := Paginate(s, page, limit);
    var b := Paginate(s, page + 1, limit);
    assert a == s[start..start + limit];
    if start + limit < |s| {
      assert b == s[start + limit..Min(|s|, start + 2 * limit)];
    }
  }

  /** Every record is on exactly one page: record `i` is entry `i % limit`
      of page `i / limit + 1`. */
  lemma RecordOnPage<K>(s: seq<K>, i: nat, limit: Pos)
    requires i < |s|
    ensures var p := Paginate(s, i / limit + 1, limit);
      i % limit < |p| && p[i % limit] == s[i]
  {
    var q := i / limit;
    assert Offset(q + 1, limit) == q * limit;
    assert i == q * limit + i % limit;
  }
}
