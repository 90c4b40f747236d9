/** Backend tables as maps from primary key to record, and the
    `.offset(skip).limit(limit)` paging of a query. */
module Tables {
  import opened Seqs

  lemma {:induction false} MinExists(s: set<int>)
    requires s != {}
    ensures exists m :: m in s && forall j :: j in s ==> m <= j
    decreases |s|
  {
    var x := Pick(s);
    var rest := s - {x};
    if rest == {} {
      assert s == {x};
    } else {
      MinExists(rest);
      var m :| m in rest && forall j :: j in rest ==> m <= j;
      var lo := if x < m then x else m;
      forall j | j in s
        ensures lo <= j
      {
        if j != x {
          assert j in rest;
        }
      }
      assert lo in s;
    }
  }

  lemma Pick<T>(s: set<T>) returns (x: T)
    requires s != {}
    ensures x in s
  {
    x :| x in s;
  }

  /** The smallest key of a non-empty table. */
  function Min(s: set<int>): (m: int)
    requires s != {}
    ensures m in s
    ensures forall j :: j in s ==> m <= j
  {
    MinExists(s);
    var m :| m in s && forall j :: j in s ==> m <= j;
    m
  }

  /** The keys of a table in ascending order: the row order of a query
      without `ORDER BY`, as this model fixes it. */
  function Ascending(s: set<int>): (r: seq<int>)
    ensures |r| == |s|
    ensures forall i :: 0 <= i < |r| ==> r[i] in s
    ensures forall k :: k in s ==> k in r
    ensures forall i, j :: 0 <= i < j < |r| ==> r[i] < r[j]
    decreases |s|
  {
    if s == {} then []
    else
      var m := Min(s);
      var rest := Ascending(s - {m});
      AscendingStep(s, m, rest);
      [m] + rest
  }

  lemma AscendingStep(s: set<int>, m: int, rest: seq<int>)
    requires m in s && forall j :: j in s ==> m <= j
    requires |rest| == |s - {m}|
    requires forall i :: 0 <= i < |rest| ==> rest[i] in s - {m}
    requires forall k :: k in s - {m} ==> k in rest
    requires forall i, j :: 0 <= i < j < |rest| ==> rest[i] < rest[j]
    ensures |[m] + rest| == |s|
    ensures forall i :: 0 <= i < |[m] + rest| ==> ([m] + rest)[i] in s
    ensures forall k :: k in s ==> k in [m] + rest
    ensures forall i, j :: 0 <= i < j < |[m] + rest| ==> ([m] + rest)[i] < ([m] + rest)[j]
  {
    assert s == (s - {m}) + {m};
    forall k | k in s
      ensures k in [m] + rest
    {
      if k != m {
        assert k in s - {m};
      }
    }
  }

  /** `.offset(skip).limit(limit)` */
  function Page<T>(s: seq<T>, skip: nat, limit: nat): (r: seq<T>)
    ensures |r| <= limit
    ensures skip >= |s| ==> r == []
    ensures skip < |s| ==> |r| == if |s| - skip < limit then |s| - skip else limit
    ensures forall i :: 0 <= i < |r| ==> r[i] == s[skip + i]
    ensures forall x :: x in r ==> x in s
  {
    if skip >= |s| then []
    else if |s| - skip < limit then s[skip..]
    else s[skip..skip + limit]
  }

  /** A record together with its primary key, as a query returns it. */
  datatype Row<T> = Row(id: int, value: T)

  /** All rows of a table in ascending key order. */
  function Rows<T>(m: map<int, T>): (r: seq<Row<T>>)
    ensures |r| == |m|
    ensures forall i :: 0 <= i < |r| ==> r[i].id in m && r[i].value == m[r[i].id]
    ensures forall x :: x in r ==> x.id in m && x.value == m[x.id]
    ensures forall k :: k in m ==> Row(k, m[k]) in r
    ensures forall i, j :: 0 <= i < j < |r| ==> r[i].id < r[j].id
  {
    var ids := Ascending(m.Keys);
    var r := RowsOf(m, ids);
    RowsCover(m, ids, r);
    RowsOrdered(m, ids, r);
    r
  }

  /** The rows for the given keys, in the keys' order. */
  function RowsOf<T>(m: map<int, T>, ids: seq<int>): (r: seq<Row<T>>)
    requires forall i :: 0 <= i < |ids| ==> ids[i] in m
    ensures |r| == |ids| && forall i :: 0 <= i < |ids| ==> r[i] == Row(ids[i], m[ids[i]])
  {
    if ids == [] then [] else [Row(ids[0], m[ids[0]])] + RowsOf(m, ids[1..])
  }

  lemma RowsCover<T>(m: map<int, T>, ids: seq<int>, r: seq<Row<T>>)
    requires forall k :: k in m.Keys ==> k in ids
    requires forall i :: 0 <= i < |ids| ==> ids[i] in m
    requires |ids| == |m.Keys|
    requires |r| == |ids| && forall i :: 0 <= i < |ids| ==> r[i] == Row(ids[i], m[ids[i]])
    ensures |r| == |m|
    ensures forall k :: k in m ==> Row(k, m[k]) in r
  {
    forall k | k in m
      ensures Row(k, m[k]) in r
    {
      assert k in m.Keys;
      var i :| 0 <= i < |ids| && ids[i] == k;
      assert r[i] == Row(k, m[k]);
    }
  }

  lemma RowsOrdered<T>(m: map<int, T>, ids: seq<int>, r: seq<Row<T>>)
    requires forall i, j :: 0 <= i < j < |ids| ==> ids[i] < ids[j]
    requires forall i :: 0 <= i < |ids| ==> ids[i] in m
    requires |r| == |ids| && forall i :: 0 <= i < |ids| ==> r[i] == Row(ids[i], m[ids[i]])
    ensures forall i :: 0 <= i < |r| ==> r[i].id in m && r[i].value == m[r[i].id]
    ensures forall x :: x in r ==> x.id in m && x.value == m[x.id]
    ensures forall i, j :: 0 <= i < j < |r| ==> r[i].id < r[j].id
  {
  }

  /** With no offset and a limit covering everything, a page is the whole
      sequence. */
  lemma PageAll<T>(s: seq<T>, limit: nat)
    requires limit >= |s|
    ensures Page(s, 0, limit) == s
  {
  }

  /** A page followed by the next one is the page covering both. */
  lemma PagesConcatenate<T>(s: seq<T>, skip: nat, a: nat, b: nat)
    ensures Page(s, skip, a) + Page(s, skip + a, b) == Page(s, skip, a + b)
  {
    var l := Page(s, skip, a) + Page(s, skip + a, b);
    var r := Page(s, skip, a + b);
    assert |l| == |r|;
    forall i | 0 <= i < |l|
      ensures l[i] == r[i]
    {
      if i >= |Page(s, skip, a)| {
        assert l[i] == Page(s, skip + a, b)[i - |Page(s, skip, a)|];
      }
    }
  }

  /** Ids strictly increase along the sequence. */
  predicate AscendingIds<T>(r: seq<Row<T>>) {
    forall i, j :: 0 <= i < j < |r| ==> r[i].id < r[j].id
  }

  lemma {:induction false} FilterKeepsAscending<T(!new)>(s: seq<Row<T>>, keep: Row<T> -> bool)
    requires AscendingIds(s)
    ensures AscendingIds(Filter(s, keep))
  {
    if |s| > 0 {
      FilterKeepsAscending(s[1..], keep);
      var rest := Filter(s[1..], keep);
      forall x | x in rest
        ensures s[0].id < x.id
      {
        var i :| 0 <= i < |s[1..]| && s[1..][i] == x;
      }
    }
  }

  /** `query.filter(...).offset(skip).limit(limit).all()` over a table, in
      ascending key order. */
  function Listing<T(!new)>(m: map<int, T>, keep: Row<T> -> bool, skip: nat, limit: nat): (r: seq<Row<T>>)
    ensures var n := Count(Rows(m), keep);
      |r| == if skip >= n then 0 else if n - skip < limit then n - skip else limit
    ensures forall x :: x in r ==> x.id in m && x.value == m[x.id] && keep(x)
    ensures AscendingIds(r)
  {
    var rows := Rows(m);
    CountIsFilterLength(rows, keep);
    FilterKeepsAscending(rows, keep);
    Page(Filter(rows, keep), skip, limit)
  }

  /** Reading a listing page by page yields the listing read at once: the
      page at `skip + a` continues the page at `skip` exactly where it
      stopped. */
  lemma ListingPagesConcatenate<T(!new)>(m: map<int, T>, keep: Row<T> -> bool, skip: nat, a: nat, b: nat)
    ensures Listing(m, keep, skip, a) + Listing(m, keep, skip + a, b) == Listing(m, keep, skip, a + b)
  {
    PagesConcatenate(Filter(Rows(m), keep), skip, a, b);
  }

  /** From offset 0 with a limit covering the table, the listing holds every
      row passing the filter. */
  lemma ListingComplete<T(!new)>(m: map<int, T>, keep: Row<T> -> bool, limit: nat)
    requires limit >= |m|
    ensures forall k :: k in m && keep(Row(k, m[k])) ==> Row(k, m[k]) in Listing(m, keep, 0, limit)
  {
    PageAll(Filter(Rows(m), keep), limit);
  }
}
