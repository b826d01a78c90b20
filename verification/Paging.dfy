/** Sorted identifiers and keyset pages: filter, order, limit. */
module Paging {
  import opened Common

  ghost predicate Ascending(ids: seq<UUID>) {
    forall i, j :: 0 <= i < j < |ids| ==> ids[i] < ids[j]
  }

  /** The sequence holds exactly the members of the set. */
  ghost predicate Lists(ids: seq<UUID>, s: set<UUID>) {
    forall x :: x in ids <==> x in s
  }

  lemma Least(s: set<UUID>) returns (least: UUID)
    requires s != {}
    ensures least in s && forall x <- s :: least <= x
    decreases |s|
  {
    var m :| m in s;
    var rest := s - {m};
    assert forall x <- s :: x == m || x in rest;
    least := m;
    if rest != {} {
      var l := Least(rest);
      if l < m {
        least := l;
      }
    }
  }

  lemma LeastExists(s: set<UUID>)
    requires s != {}
    ensures exists m :: m in s && forall x <- s :: m <= x
  {
    var m := Least(s);
  }

  lemma EmptyListing(ids: seq<UUID>, s: set<UUID>)
    requires Lists(ids, s)
    ensures ids == [] <==> s == {}
  {
    if s != {} {
      var x :| x in s;
      assert x in ids;
    }
    assert ids != [] ==> ids[0] in ids;
  }

  lemma LeastFirst(m: UUID, rest: seq<UUID>, s: set<UUID>)
    requires m in s && forall x <- s :: m <= x
    requires Lists(rest, s - {m}) && Ascending(rest)
    ensures Lists([m] + rest, s) && Ascending([m] + rest)
  {
    assert forall i :: 0 <= i < |rest| ==> rest[i] in s - {m};
  }

  /** The identifiers in ascending order. */
  function Sorted(s: set<UUID>): (ids: seq<UUID>)
    ensures Lists(ids, s) && Ascending(ids)
    decreases |s|
  {
    if s == {} then []
    else
      LeastExists(s);
      var m :| m in s && forall x <- s :: m <= x;
      var rest := Sorted(s - {m});
      LeastFirst(m, rest, s);
      [m] + rest
  }

  lemma TailLists(a: seq<UUID>, s: set<UUID>)
    requires Ascending(a) && Lists(a, s) && a != []
    ensures Lists(a[1..], s - {a[0]}) && Ascending(a[1..])
    ensures a[0] in s && forall x <- s :: a[0] <= x
  {
    assert a[0] in a;
    forall x ensures x in a[1..] <==> x in s - {a[0]} {
      assert x in a <==> x == a[0] || x in a[1..];
    }
    forall x | x in s ensures a[0] <= x {
      var i :| 0 <= i < |a| && a[i] == x;
    }
  }

  /** A set has one ascending listing. */
  lemma {:induction false} OneListing(a: seq<UUID>, b: seq<UUID>, s: set<UUID>)
    requires Ascending(a) && Ascending(b) && Lists(a, s) && Lists(b, s)
    ensures a == b
    decreases |a|
  {
    if a == [] {
      EmptyListing(a, s);
      EmptyListing(b, s);
    } else {
      EmptyListing(a, s);
      EmptyListing(b, s);
      TailLists(a, s);
      TailLists(b, s);
      assert a[0] == b[0];
      OneListing(a[1..], b[1..], s - {a[0]});
      assert a == [a[0]] + a[1..] && b == [b[0]] + b[1..];
    }
  }

  const DEFAULT_LIMIT := 20

  function Above(s: set<UUID>, cursor: UUID): set<UUID> {
    set x | x in s && cursor < x
  }

  function UpTo(s: set<UUID>, cursor: UUID): set<UUID> {
    set x | x in s && x <= cursor
  }

  function Limited(rows: seq<UUID>, limit: int): seq<UUID> {
    var n := if limit == 0 then DEFAULT_LIMIT else limit;
    if 0 <= n < |rows| then rows[..n] else rows
  }

  /** The first `limit` identifiers after the cursor; the nil cursor filters nothing, a zero
      limit means the default and a negative one no limit. */
  function Page(eligible: set<UUID>, limit: int, after: UUID): seq<UUID> {
    Limited(Sorted(if after == NIL then eligible else Above(eligible, after)), limit)
  }

  /** A prefix of a listing leaves nothing out up to its last identifier. */
  lemma PrefixLists(rows: seq<UUID>, s: set<UUID>, n: nat)
    requires Ascending(rows) && Lists(rows, s) && 0 < n <= |rows|
    ensures Ascending(rows[..n]) && Lists(rows[..n], UpTo(s, rows[n - 1]))
  {
    var page := rows[..n];
    forall x ensures x in page <==> x in UpTo(s, rows[n - 1]) {
      if x in UpTo(s, rows[n - 1]) {
        assert x in rows;
        var i :| 0 <= i < |rows| && rows[i] == x;
        assert page[i] == x;
      }
      if x in page {
        var i :| 0 <= i < n && page[i] == x;
        assert rows[i] in rows;
      }
    }
  }

  lemma LimitedIsInterval(s: set<UUID>, limit: int)
    ensures var page := Limited(Sorted(s), limit);
            && Ascending(page)
            && (page == [] <==> s == {})
            && (page != [] ==> Lists(page, UpTo(s, page[|page| - 1])))
  {
    var rows := Sorted(s);
    EmptyListing(rows, s);
    if s != {} {
      var n := |Limited(rows, limit)|;
      assert Limited(rows, limit) == rows[..n];
      PrefixLists(rows, s, n);
    }
  }

  /** The same of a page: it holds just the eligible identifiers after the cursor and up to
      its own last one, and is empty only when nothing is left. */
  lemma PageIsInterval(eligible: set<UUID>, limit: int, after: UUID)
    requires NIL !in eligible
    ensures var page := Page(eligible, limit, after);
            && Ascending(page)
            && (page == [] <==> Above(eligible, after) == {})
            && (page != [] ==>
                  && Lists(page, UpTo(Above(eligible, after), page[|page| - 1]))
                  && after < page[|page| - 1])
  {
    assert Above(eligible, NIL) == eligible;
    LimitedIsInterval(Above(eligible, after), limit);
    var page := Page(eligible, limit, after);
    if page != [] {
      assert page[|page| - 1] in page;
    }
  }

  /** Sorted lists of adjacent ranges can be glued together. */
  lemma Glue(low: seq<UUID>, s: set<UUID>, high: seq<UUID>, t: set<UUID>)
    requires Ascending(low) && Ascending(high) && Lists(low, s) && Lists(high, t)
    requires forall x <- s, y <- t :: x < y
    ensures Ascending(low + high) && Lists(low + high, s + t)
  {
    assert forall i :: 0 <= i < |low| ==> low[i] in s;
    assert forall i :: 0 <= i < |high| ==> high[i] in t;
  }

  // ---- Which identifiers a page shows ----

  function Below(s: set<UUID>, id: UUID): set<UUID> {
    set x | x in s && x < id
  }

  lemma AscendingIsDistinct(ids: seq<UUID>)
    requires Ascending(ids)
    ensures Distinct(ids)
  {
  }

  lemma PrefixIsBelow(ids: seq<UUID>, s: set<UUID>, i: nat)
    requires Ascending(ids) && Lists(ids, s) && i < |ids|
    ensures Elements(ids[..i]) == Below(s, ids[i])
  {
    forall x ensures x in ids[..i] <==> x in Below(s, ids[i]) {
      if x in ids[..i] {
        var j :| 0 <= j < i && ids[j] == x;
        assert ids[j] in ids;
      }
      if x in Below(s, ids[i]) {
        assert x in ids;
        var j :| 0 <= j < |ids| && ids[j] == x;
        assert j < i;
        assert ids[..i][j] == x;
      }
    }
  }

  /** In a listing an identifier stands behind as many others as are smaller. */
  lemma PlaceIsCount(ids: seq<UUID>, s: set<UUID>, i: nat)
    requires Ascending(ids) && Lists(ids, s) && i < |ids|
    ensures |Below(s, ids[i])| == i
  {
    PrefixIsBelow(ids, s, i);
    AscendingIsDistinct(ids[..i]);
    CountElements(ids[..i]);
  }

  /** A limit cuts off exactly the identifiers that as many others come before. */
  predicate CutOff(s: set<UUID>, limit: int, id: UUID) {
    var n := if limit == 0 then 20 else limit;
    0 <= n <= |Below(s, id)|
  }

  lemma LimitedShowsIff(s: set<UUID>, limit: int, id: UUID)
    requires id in s
    ensures id in Limited(Sorted(s), limit) <==> !CutOff(s, limit, id)
  {
    var rows, page := Sorted(s), Limited(Sorted(s), limit);
    assert id in rows;
    var i :| 0 <= i < |rows| && rows[i] == id;
    PlaceIsCount(rows, s, i);
    if i < |page| {
      assert page[i] == id;
    }
    if id in page {
      var j :| 0 <= j < |page| && page[j] == id;
      assert rows[j] == rows[i];
      assert i == j;
    }
  }

  /** A page shows an identifier if and only if it lies beyond the cursor and the limit does
      not cut it off. */
  lemma PageShowsIff(eligible: set<UUID>, limit: int, after: UUID, id: UUID)
    requires NIL !in eligible
    ensures id in Page(eligible, limit, after)
            <==> id in Above(eligible, after) && !CutOff(Above(eligible, after), limit, id)
  {
    var rest := Above(eligible, after);
    assert Above(eligible, NIL) == eligible;
    if id in rest {
      LimitedShowsIff(rest, limit, id);
    } else {
      assert id !in Sorted(rest);
    }
  }
}
