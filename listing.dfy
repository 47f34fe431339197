/** GET /admin/users: `User.find().sort({ createdAt: -1 })`, every stored
    document, newest first. The store's scan is taken in `_id` order and then
    sorted by an insertion sort on `createdAt`, descending. */
module Listing {
  import opened UserModel

  /** Newest first: no account is listed before one created later. */
  ghost predicate NewestFirst(rows: seq<Account>)
  {
    forall i, j :: 0 <= i < j < |rows| ==> rows[i].createdAt >= rows[j].createdAt
  }

  /** No document is listed twice. */
  ghost predicate DistinctIds(rows: seq<Account>)
  {
    forall i, j :: 0 <= i < j < |rows| ==> rows[i].id != rows[j].id
  }

  /** The documents with `_id` below `n`, in `_id` order. */
  function ScanBelow(t: Table, n: nat): (rows: seq<Account>)
    requires KeyedById(t)
    ensures forall i :: 0 <= i < |rows| ==> rows[i].id < n && rows[i].id in t && t[rows[i].id] == rows[i]
    ensures forall k :: k in t && k < n ==> t[k] in rows
    ensures DistinctIds(rows)
  {
    if n == 0 then []
    else
      var before := ScanBelow(t, n - 1);
      if n - 1 in t then before + [t[n - 1]] else before
  }

  /** Places `a` before the first account that is not newer than it. */
  function Insert(a: Account, rows: seq<Account>): (r: seq<Account>)
    ensures multiset(r) == multiset(rows) + multiset{a}
  {
    if rows == [] then [a]
    else if a.createdAt >= rows[0].createdAt then [a] + rows
    else
      assert rows == [rows[0]] + rows[1..];
      [rows[0]] + Insert(a, rows[1..])
  }

  /** Two lists with the same multiset hold the same accounts. */
  lemma SameElements(r: seq<Account>, rows: seq<Account>, x: Account)
    requires multiset(r) == multiset(rows)
    ensures x in r <==> x in rows
  {
    assert x in rows <==> x in multiset(rows);
  }

  /** Every account of `Insert(a, rows)` is `a` or one of `rows`. */
  lemma InsertedFrom(a: Account, rows: seq<Account>, x: Account)
    requires x in Insert(a, rows)
    ensures x == a || x in rows
  {
  }

  /** Insertion keeps a newest-first list newest first. */
  lemma {:induction false} InsertKeepsOrder(a: Account, rows: seq<Account>)
    requires NewestFirst(rows)
    ensures NewestFirst(Insert(a, rows))
  {
    if rows != [] && a.createdAt < rows[0].createdAt {
      var rest := Insert(a, rows[1..]);
      InsertKeepsOrder(a, rows[1..]);
      var r := [rows[0]] + rest;
      forall j | 0 < j < |r| ensures r[0].createdAt >= r[j].createdAt {
        InsertedFrom(a, rows[1..], rest[j - 1]);
      }
    }
  }

  /** Insertion sort, newest first. */
  function SortNewestFirst(rows: seq<Account>): (r: seq<Account>)
    ensures multiset(r) == multiset(rows)
  {
    if rows == [] then []
    else
      assert rows == [rows[0]] + rows[1..];
      Insert(rows[0], SortNewestFirst(rows[1..]))
  }

  /** The sort's result is newest first. */
  lemma {:induction false} SortIsNewestFirst(rows: seq<Account>)
    ensures NewestFirst(SortNewestFirst(rows))
  {
    if rows != [] {
      SortIsNewestFirst(rows[1..]);
      InsertKeepsOrder(rows[0], SortNewestFirst(rows[1..]));
    }
  }

  /** Inserting an account whose id is not yet listed keeps ids distinct. */
  lemma {:induction false} InsertKeepsDistinct(a: Account, rows: seq<Account>)
    requires DistinctIds(rows)
    requires forall x :: x in rows ==> x.id != a.id
    ensures DistinctIds(Insert(a, rows))
  {
    if rows != [] && a.createdAt < rows[0].createdAt {
      var rest := Insert(a, rows[1..]);
      InsertKeepsDistinct(a, rows[1..]);
      forall x | x in rest ensures x.id != rows[0].id {
        InsertedFrom(a, rows[1..], x);
      }
    }
  }

  /** Sorting keeps ids distinct. */
  lemma {:induction false} SortKeepsDistinct(rows: seq<Account>)
    requires DistinctIds(rows)
    ensures DistinctIds(SortNewestFirst(rows))
  {
    if rows != [] {
      var tail := rows[1..];
      SortKeepsDistinct(tail);
      forall x | x in SortNewestFirst(tail) ensures x.id != rows[0].id {
        SameElements(SortNewestFirst(tail), tail, x);
      }
      InsertKeepsDistinct(rows[0], SortNewestFirst(tail));
    }
  }

  /** The admin list: every account exactly once, newest first. */
  function ListAll(t: Table, bound: nat): (rows: seq<Account>)
    requires KeyedById(t)
    requires forall k :: k in t ==> k < bound
    ensures NewestFirst(rows)
    ensures DistinctIds(rows)
    ensures forall i :: 0 <= i < |rows| ==> rows[i].id in t && t[rows[i].id] == rows[i]
    ensures forall k :: k in t ==> t[k] in rows
  {
    var scan := ScanBelow(t, bound);
    SortKeepsDistinct(scan);
    SortIsNewestFirst(scan);
    var rows := SortNewestFirst(scan);
    assert forall i :: 0 <= i < |rows| ==> rows[i].id in t && t[rows[i].id] == rows[i] by {
      forall i | 0 <= i < |rows| ensures rows[i] in scan {
        SameElements(rows, scan, rows[i]);
      }
    }
    assert forall k :: k in t ==> t[k] in rows by {
      forall k | k in t ensures t[k] in rows {
        SameElements(rows, scan, t[k]);
      }
    }
    rows
  }
}
