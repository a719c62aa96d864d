/**
 `ORDER BY stamp ASC, id ASC LIMIT n`, the query shape shared by the updates feed and the
 nightly export.
 */
module OrderedPage {
  datatype Row = Row(stamp: int, id: nat)

  predicate Before(a: Row, b: Row) {
    a.stamp < b.stamp || (a.stamp == b.stamp && a.id < b.id)
  }

  ghost predicate Ordered(page: seq<Row>) {
    forall i, j :: 0 <= i < j < |page| ==> Before(page[i], page[j])
  }

  /** `page` is the first `limit` rows of `rows` in order. */
  ghost predicate IsPage(page: seq<Row>, rows: set<Row>, limit: nat) {
    && |page| <= limit
    && Ordered(page)
    && (forall r :: r in page ==> r in rows)
    && (forall r :: r in rows && r !in page ==> |page| == limit && forall p :: p in page ==> Before(p, r))
  }

  /** Every non-empty set of rows has a first one. */
  lemma {:induction false} Least(rows: set<Row>) returns (first: Row)
    requires rows != {}
    ensures first in rows && forall r :: r in rows && r != first ==> Before(first, r)
    decreases rows
  {
    var one :| one in rows;
    if rows == {one} {
      first := one;
    } else {
      var other := Least(rows - {one});
      first := if Before(other, one) then other else one;
      forall r | r in rows && r != first ensures Before(first, r) {
        assert r == one || r == other || Before(other, r) by {
          if r != one { assert r in rows - {one}; }
        }
      }
    }
  }

  /** Every query has an answer ... */
  lemma {:induction false} PageExists(rows: set<Row>, limit: nat) returns (page: seq<Row>)
    ensures IsPage(page, rows, limit)
    decreases limit
  {
    if limit == 0 || rows == {} {
      page := [];
    } else {
      var first := Least(rows);
      var rest := PageExists(rows - {first}, limit - 1);
      page := [first] + rest;
      forall j | 0 <= j < |rest| ensures Before(first, rest[j]) {
        assert rest[j] in rest;
      }
      forall r | r in rows && r !in page ensures |page| == limit && forall p :: p in page ==> Before(p, r) {
        assert r in rows - {first} && r !in rest;
      }
    }
  }

  lemma PageHead(page: seq<Row>, rows: set<Row>, limit: nat, r: Row)
    requires IsPage(page, rows, limit) && r in rows && limit > 0
    ensures page != [] && page[0] in rows && (r == page[0] || Before(page[0], r))
  {
    if r in page {
      var i :| 0 <= i < |page| && page[i] == r;
      assert i == 0 || Before(page[0], page[i]);
    } else {
      assert page[0] in page;
    }
  }

  lemma PageTail(page: seq<Row>, rows: set<Row>, limit: nat)
    requires IsPage(page, rows, limit) && page != []
    ensures IsPage(page[1..], rows - {page[0]}, limit - 1)
  {
    var rest := page[1..];
    forall r | r in rest ensures r in rows - {page[0]} {
      var i :| 0 <= i < |rest| && rest[i] == r;
      assert Before(page[0], page[i + 1]);
    }
    forall r | r in rows - {page[0]} && r !in rest
      ensures |rest| == limit - 1 && forall x :: x in rest ==> Before(x, r)
    {
      assert r !in page;
    }
  }

  /** ... and only one. */
  lemma {:induction false} PageUnique(p: seq<Row>, q: seq<Row>, rows: set<Row>, limit: nat)
    requires IsPage(p, rows, limit) && IsPage(q, rows, limit)
    ensures p == q
    decreases limit
  {
    assert (p != [] ==> p[0] in p) && (q != [] ==> q[0] in q);
    if limit > 0 && rows != {} {
      var r :| r in rows;
      PageHead(p, rows, limit, r);
      PageHead(q, rows, limit, p[0]);
      PageHead(p, rows, limit, q[0]);
      PageTail(p, rows, limit);
      PageTail(q, rows, limit);
      PageUnique(p[1..], q[1..], rows - {p[0]}, limit - 1);
      assert p == [p[0]] + p[1..] && q == [q[0]] + q[1..];
    }
  }

  /** Rows beyond a full page are not older than its last row. */
  lemma BeyondPage(page: seq<Row>, rows: set<Row>, limit: nat, r: Row)
    requires IsPage(page, rows, limit) && page != [] && r in rows
    ensures r in page ==> r.stamp <= page[|page| - 1].stamp
    ensures r !in page ==> |page| == limit && page[|page| - 1].stamp <= r.stamp
  {
    assert page[|page| - 1] in page;
  }
}
