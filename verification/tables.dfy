/**
  Tables of entities held as sequences in insertion order, each row identified
  by an integer primary key that a key function reads off the row. These are
  the operations the relational store provides to the services: lookup by id,
  update by id, deletion by id, filtering, ordering and paging, and the bound
  an identity column keeps on the keys it has handed out.
 */
module Tables {
  import opened Wrappers

  /** Lookup by primary key: the first row whose key is `id`. */
  function Find<T>(rows: seq<T>, key: T -> int, id: int): (r: Option<T>)
    ensures r.Some? ==> r.value in rows && key(r.value) == id
    ensures r.None? <==> (forall x | x in rows :: key(x) != id)
  {
    if |rows| == 0 then None
    else if key(rows[0]) == id then Some(rows[0])
    else Find(rows[1..], key, id)
  }

  /** A uniqueness constraint: no two rows share a key (the primary key, or any unique column). */
  ghost predicate UniqueKeys<T, K>(rows: seq<T>, key: T -> K) {
    forall i, j | 0 <= i < j < |rows| :: key(rows[i]) != key(rows[j])
  }

  /**
    Every key of the table lies below `next`, the value its identity column
    hands out next. The counter only grows, so a key freed by a deletion is
    never handed out again.
   */
  ghost predicate KeysBelow<T>(rows: seq<T>, key: T -> int, next: int) {
    forall x | x in rows :: key(x) < next
  }

  /** Update by primary key: every row with the key of `v` becomes `v`. */
  function Replace<T>(rows: seq<T>, key: T -> int, v: T): (r: seq<T>)
    ensures |r| == |rows|
    ensures forall i | 0 <= i < |rows| :: r[i] == (if key(rows[i]) == key(v) then v else rows[i])
  {
    if |rows| == 0 then []
    else [if key(rows[0]) == key(v) then v else rows[0]] + Replace(rows[1..], key, v)
  }

  /** The rows satisfying `p`, in their original order. */
  function Filter<T>(rows: seq<T>, p: T -> bool): (r: seq<T>)
    ensures |r| <= |rows|
    ensures forall x | x in r :: x in rows && p(x)
    ensures forall x | x in rows && p(x) :: x in r
  {
    if |rows| == 0 then []
    else
      if p(rows[0]) then [rows[0]] + Filter(rows[1..], p)
      else Filter(rows[1..], p)
  }

  /** Deletion by primary key. */
  function Remove<T>(rows: seq<T>, key: T -> int, id: int): (r: seq<T>)
    ensures forall x | x in r :: x in rows && key(x) != id
    ensures forall x | x in rows && key(x) != id :: x in r
  {
    Filter(rows, x => key(x) != id)
  }

  ghost predicate SortedBy<T>(s: seq<T>, key: T -> int) {
    forall i, j | 0 <= i < j < |s| :: key(s[i]) <= key(s[j])
  }

  /** Places `x` before the first row of the sorted `s` whose key is not smaller. */
  function Insert<T>(x: T, s: seq<T>, key: T -> int): (r: seq<T>)
    requires SortedBy(s, key)
    ensures SortedBy(r, key)
    ensures |r| == |s| + 1
    ensures forall i | 0 <= i < |r| :: r[i] == x || r[i] in s
    ensures multiset(r) == multiset(s) + multiset{x}
  {
    if |s| == 0 then [x]
    else if key(x) <= key(s[0]) then [x] + s
    else
      assert s == [s[0]] + s[1..];
      var tail := Insert(x, s[1..], key);
      assert forall i | 0 <= i < |tail| :: key(s[0]) <= key(tail[i]);
      [s[0]] + tail
  }

  /** A stable ascending sort by key (the ORDER BY of a query). */
  function SortBy<T>(s: seq<T>, key: T -> int): (r: seq<T>)
    ensures SortedBy(r, key)
    ensures multiset(r) == multiset(s)
  {
    if |s| == 0 then []
    else
      assert s == [s[0]] + s[1..];
      Insert(s[0], SortBy(s[1..], key), key)
  }

  function Min(a: int, b: int): int {
    if a <= b then a else b
  }

  /** One page of a result: skip `from` rows, then take at most `size`. */
  function Page<T>(s: seq<T>, from: nat, size: nat): (r: seq<T>)
    ensures |r| <= size
    ensures from + |r| <= |s| || |r| == 0
    ensures forall i | 0 <= i < |r| :: r[i] == s[from + i]
    ensures from + size <= |s| ==> |r| == size
    ensures from < |s| && |s| <= from + size ==> |r| == |s| - from
  {
    if from >= |s| then [] else s[from .. from + Min(size, |s| - from)]
  }

  /** A paged query: the rows satisfying `p`, ordered by `key`, one page of them. */
  function SelectPage<T>(rows: seq<T>, p: T -> bool, key: T -> int, from: nat, size: nat): (r: seq<T>)
    ensures |r| <= size
    ensures forall x | x in r :: x in rows && p(x)
    ensures from == 0 && |rows| <= size ==> forall x | x in rows && p(x) :: x in r
    ensures SortedBy(r, key)
    ensures |r| == (if from < |Filter(rows, p)| then Min(size, |Filter(rows, p)| - from) else 0)
  {
    var selected := Filter(rows, p);
    var sorted := SortBy(selected, key);
    PageOfSorted(sorted, selected, key, from, size);
    Page(sorted, from, size)
  }

  /** A page of a sorted permutation of `selected`: its size, its order and its rows. */
  lemma PageOfSorted<T>(sorted: seq<T>, selected: seq<T>, key: T -> int, from: nat, size: nat)
    requires SortedBy(sorted, key)
    requires multiset(sorted) == multiset(selected)
    ensures |Page(sorted, from, size)| == (if from < |selected| then Min(size, |selected| - from) else 0)
    ensures forall x | x in Page(sorted, from, size) :: x in selected
    ensures from == 0 && |selected| <= size ==> forall x | x in selected :: x in Page(sorted, from, size)
    ensures SortedBy(Page(sorted, from, size), key)
  {
    var r := Page(sorted, from, size);
    assert |sorted| == |selected| by {
      assert |multiset(sorted)| == |multiset(selected)|;
    }
    assert forall i | 0 <= i < |r| :: r[i] in multiset(selected);
    if from == 0 && |selected| <= size {
      assert r == sorted;
      assert forall x | x in selected :: x in multiset(sorted);
    }
    forall i, j | 0 <= i < j < |r|
      ensures key(r[i]) <= key(r[j])
    {
      assert r[i] == sorted[from + i] && r[j] == sorted[from + j];
    }
  }

  // Lemmas about lookups after the table has changed.

  /** A row inserted under a fresh key is found under that key, and every other lookup is unchanged. */
  lemma {:induction false} FindAppend<T>(rows: seq<T>, key: T -> int, v: T, id: int)
    requires Find(rows, key, key(v)).None?
    ensures Find(rows + [v], key, id) == if id == key(v) then Some(v) else Find(rows, key, id)
  {
    if |rows| == 0 {
    } else {
      assert (rows + [v])[1..] == rows[1..] + [v];
      if key(rows[0]) != id {
        FindAppend(rows[1..], key, v, id);
      }
    }
  }

  /** After an update by key, the key finds the new row, and every other lookup is unchanged. */
  lemma {:induction false} FindReplace<T>(rows: seq<T>, key: T -> int, v: T, id: int)
    ensures Find(Replace(rows, key, v), key, id) ==
      if id != key(v) then Find(rows, key, id)
      else if Find(rows, key, id).Some? then Some(v)
      else None
  {
    if |rows| == 0 {
    } else {
      var r := Replace(rows, key, v);
      assert r[1..] == Replace(rows[1..], key, v);
      if key(rows[0]) != id {
        FindReplace(rows[1..], key, v, id);
      }
    }
  }

  /** Deleting a key makes it unfindable and leaves every other lookup unchanged. */
  lemma {:induction false} FindRemove<T>(rows: seq<T>, key: T -> int, id: int, other: int)
    ensures Find(Remove(rows, key, id), key, other) == if other == id then None else Find(rows, key, other)
  {
    if |rows| == 0 {
    } else {
      var p := (x: T) => key(x) != id;
      assert Remove(rows, key, id) == Filter(rows, p);
      assert Remove(rows[1..], key, id) == Filter(rows[1..], p);
      if other != id {
        FindRemove(rows[1..], key, id, other);
      }
    }
  }

  // Lemmas showing that the store keeps its primary-key constraint.

  lemma UniqueAppend<T, K>(rows: seq<T>, key: T -> K, v: T)
    requires UniqueKeys(rows, key)
    requires forall x | x in rows :: key(x) != key(v)
    ensures UniqueKeys(rows + [v], key)
  {
    var r := rows + [v];
    forall i, j | 0 <= i < j < |r|
      ensures key(r[i]) != key(r[j])
    {
      if j == |rows| {
        assert r[i] in rows;
      }
    }
  }

  lemma UniqueReplace<T>(rows: seq<T>, key: T -> int, v: T)
    requires UniqueKeys(rows, key)
    ensures UniqueKeys(Replace(rows, key, v), key)
  {
  }

  /** Updating a row keeps its key, so the keys stay below the identity counter. */
  lemma BelowReplace<T>(rows: seq<T>, key: T -> int, v: T, next: int)
    requires KeysBelow(rows, key, next)
    ensures KeysBelow(Replace(rows, key, v), key, next)
  {
    var r := Replace(rows, key, v);
    forall x | x in r
      ensures key(x) < next
    {
      var i :| 0 <= i < |r| && r[i] == x;
      assert rows[i] in rows;
    }
  }

  lemma {:induction false} UniqueFilter<T, K>(rows: seq<T>, key: T -> K, p: T -> bool)
    requires UniqueKeys(rows, key)
    ensures UniqueKeys(Filter(rows, p), key)
  {
    if |rows| > 0 {
      UniqueFilter(rows[1..], key, p);
      var tail := Filter(rows[1..], p);
      assert forall y | y in tail :: y in rows[1..];
      assert forall y | y in rows[1..] :: key(y) != key(rows[0]);
    }
  }

  lemma UniqueRemove<T, K>(rows: seq<T>, key: T -> int, id: int, unique: T -> K)
    requires UniqueKeys(rows, unique)
    ensures UniqueKeys(Remove(rows, key, id), unique)
  {
    var p := (x: T) => key(x) != id;
    assert Remove(rows, key, id) == Filter(rows, p);
    UniqueFilter(rows, unique, p);
  }

  /** Filtering never duplicates a row: each row occurs in the result at most as often as in the table. */
  lemma {:induction false} FilterMultiset<T>(rows: seq<T>, p: T -> bool)
    ensures multiset(Filter(rows, p)) <= multiset(rows)
  {
    if |rows| > 0 {
      FilterMultiset(rows[1..], p);
      assert rows == [rows[0]] + rows[1..];
    }
  }

  // Lemmas pinning down a sorted result completely.

  /** Ascending by key with no key repeated. */
  ghost predicate StrictlySortedBy<T>(s: seq<T>, key: T -> int) {
    forall i, j | 0 <= i < j < |s| :: key(s[i]) < key(s[j])
  }

  /** Under a primary key a row occurs at most once. */
  lemma {:induction false} UniqueOnce<T>(rows: seq<T>, key: T -> int, x: T)
    requires UniqueKeys(rows, key)
    ensures multiset(rows)[x] <= 1
  {
    if |rows| > 0 {
      assert rows == [rows[0]] + rows[1..];
      UniqueOnce(rows[1..], key, x);
      if rows[0] == x {
        assert forall k | 0 <= k < |rows[1..]| :: rows[1..][k] != x by {
          forall k | 0 <= k < |rows[1..]|
            ensures rows[1..][k] != x
          {
            assert key(rows[0]) != key(rows[k + 1]);
          }
        }
        assert x !in rows[1..];
      }
    }
  }

  /** A row at two positions occurs at least twice. */
  lemma RepeatedTwice<T>(s: seq<T>, i: int, j: int)
    requires 0 <= i < j < |s| && s[i] == s[j]
    ensures multiset(s)[s[i]] >= 2
  {
    assert s == s[..j] + s[j..];
    assert s[i] in s[..j];
    assert s[j..][0] == s[j];
  }

  /** A selection from a table with a primary key holds no row twice. */
  lemma Distinct<T>(q: seq<T>, rows: seq<T>, key: T -> int)
    requires UniqueKeys(rows, key)
    requires multiset(q) <= multiset(rows)
    ensures forall i, j | 0 <= i < j < |q| :: q[i] != q[j]
  {
    forall i, j | 0 <= i < j < |q|
      ensures q[i] != q[j]
    {
      if q[i] == q[j] {
        RepeatedTwice(q, i, j);
        UniqueOnce(rows, key, q[i]);
      }
    }
  }

  /** Two strictly sorted sequences with the same rows are equal. */
  lemma {:induction false} StrictlySortedUnique<T>(a: seq<T>, b: seq<T>, key: T -> int)
    requires StrictlySortedBy(a, key) && StrictlySortedBy(b, key)
    requires forall x | x in a :: x in b
    requires forall x | x in b :: x in a
    ensures a == b
  {
    assert |a| > 0 ==> a[0] in b;
    assert |b| > 0 ==> b[0] in a;
    if |a| > 0 {
      var k :| 0 <= k < |b| && b[k] == a[0];
      var m :| 0 <= m < |a| && a[m] == b[0];
      assert key(b[0]) <= key(b[k]);
      assert key(a[0]) <= key(a[m]);
      assert k == 0;
      TailMembers(a, b, key);
      TailMembers(b, a, key);
      StrictlySortedUnique(a[1..], b[1..], key);
      assert a == [a[0]] + a[1..] && b == [b[0]] + b[1..];
    }
  }

  /** With equal heads, the rest of a strictly sorted `a` lies in the rest of `b`. */
  lemma TailMembers<T>(a: seq<T>, b: seq<T>, key: T -> int)
    requires StrictlySortedBy(a, key)
    requires |a| > 0 && |b| > 0 && a[0] == b[0]
    requires forall x | x in a :: x in b
    ensures forall x | x in a[1..] :: x in b[1..]
  {
    forall x | x in a[1..]
      ensures x in b[1..]
    {
      var i :| 0 <= i < |a[1..]| && a[1..][i] == x;
      assert key(a[0]) < key(a[i + 1]);
      assert x == a[i + 1];
      assert x in b;
      var l :| 0 <= l < |b| && b[l] == x;
      assert l != 0;
      assert b[1..][l - 1] == x;
    }
  }

  /**
    A sorted selection is determined by what it selects: from a table without
    repeated rows, the one strictly ordered listing of exactly the rows `p`
    accepts is the result of filtering and sorting.
   */
  lemma SortedSelection<T>(rows: seq<T>, p: T -> bool, ident: T -> int, key: T -> int, listing: seq<T>)
    requires UniqueKeys(rows, ident)
    requires StrictlySortedBy(listing, key)
    requires forall x | x in listing :: x in rows && p(x)
    requires forall x | x in rows && p(x) :: x in listing
    ensures SortBy(Filter(rows, p), key) == listing
  {
    var f := Filter(rows, p);
    FilterMultiset(rows, p);
    FilterExactly(rows, p, listing);
    SortedPermutation(SortBy(f, key), f, rows, ident, key, listing);
  }

  /**
    A sorted permutation of rows drawn without repeats from a keyed table is
    the strictly sorted listing with the same members.
   */
  lemma SortedPermutation<T>(q: seq<T>, f: seq<T>, rows: seq<T>, ident: T -> int, key: T -> int, listing: seq<T>)
    requires UniqueKeys(rows, ident)
    requires multiset(f) <= multiset(rows)
    requires multiset(q) == multiset(f)
    requires SortedBy(q, key)
    requires StrictlySortedBy(listing, key)
    requires forall x :: x in f <==> x in listing
    ensures q == listing
  {
    Distinct(q, rows, ident);
    SameMembers(q, f);
    StrictFromDistinct(q, listing, key);
    StrictlySortedUnique(q, listing, key);
  }

  /** A filter selects exactly the rows of any listing that has exactly the rows `p` accepts. */
  lemma FilterExactly<T>(rows: seq<T>, p: T -> bool, listing: seq<T>)
    requires forall x | x in listing :: x in rows && p(x)
    requires forall x | x in rows && p(x) :: x in listing
    ensures forall x :: x in Filter(rows, p) <==> x in listing
  {
  }

  /** Sequences that are permutations of each other have the same members. */
  lemma SameMembers<T>(a: seq<T>, b: seq<T>)
    requires multiset(a) == multiset(b)
    ensures forall x :: x in a <==> x in b
  {
    assert forall x :: x in a <==> x in multiset(a);
    assert forall x :: x in b <==> x in multiset(b);
  }

  /** A sorted sequence without repeats, drawn from a strictly sorted listing, is itself strictly sorted. */
  lemma StrictFromDistinct<T>(q: seq<T>, listing: seq<T>, key: T -> int)
    requires SortedBy(q, key)
    requires forall i, j | 0 <= i < j < |q| :: q[i] != q[j]
    requires forall x | x in q :: x in listing
    requires StrictlySortedBy(listing, key)
    ensures StrictlySortedBy(q, key)
  {
    forall i, j | 0 <= i < j < |q|
      ensures key(q[i]) < key(q[j])
    {
      assert q[i] in listing && q[j] in listing;
      var a :| 0 <= a < |listing| && listing[a] == q[i];
      var b :| 0 <= b < |listing| && listing[b] == q[j];
      assert a != b;
      assert a < b || b < a;
    }
  }

  /**
    Hence any page of a paged query is the same window of that listing:
    the rows at positions `from` to `from + size` of the key-ordered selection.
   */
  lemma SelectPageWindow<T>(rows: seq<T>, p: T -> bool, key: T -> int, from: nat, size: nat, listing: seq<T>)
    requires UniqueKeys(rows, key)
    requires StrictlySortedBy(listing, key)
    requires forall x | x in listing :: x in rows && p(x)
    requires forall x | x in rows && p(x) :: x in listing
    ensures SelectPage(rows, p, key, from, size) == Page(listing, from, size)
  {
    SortedSelection(rows, p, key, key, listing);
  }

  /** In particular a first page large enough for every selected row is that listing. */
  lemma SelectPageDetermined<T>(rows: seq<T>, p: T -> bool, key: T -> int, size: nat, listing: seq<T>)
    requires UniqueKeys(rows, key)
    requires StrictlySortedBy(listing, key)
    requires forall x | x in listing :: x in rows && p(x)
    requires forall x | x in rows && p(x) :: x in listing
    requires |listing| <= size
    ensures SelectPage(rows, p, key, 0, size) == listing
  {
    SelectPageWindow(rows, p, key, 0, size, listing);
    assert Page(listing, 0, size) == listing;
  }

  /** Two predicates that agree on every row select the same rows in the same order. */
  lemma {:induction false} FilterAgree<T>(rows: seq<T>, p: T -> bool, q: T -> bool)
    requires forall x | x in rows :: p(x) == q(x)
    ensures Filter(rows, p) == Filter(rows, q)
  {
    if |rows| > 0 {
      FilterAgree(rows[1..], p, q);
    }
  }
}
