/** Keyset paging: `WHERE id > after ORDER BY id LIMIT limit`, the shape of every paged query here. */
module Keyset {

  ghost predicate Ascending(s: seq<nat>) {
    forall a, b :: 0 <= a < b < |s| ==> s[a] < s[b]
  }

  lemma MinExists(s: set<nat>)
    requires s != {}
    ensures exists x :: x in s && forall y :: y in s ==> x <= y
  {
    var m :| m in s;
    var rest := s - {m};
    while rest != {}
      invariant m in s && forall y :: y in s && y !in rest ==> m <= y
      decreases rest
    {
      var y :| y in rest;
      rest := rest - {y};
      if y < m { m := y; }
    }
  }

  function Min(s: set<nat>): (m: nat)
    requires s != {}
    ensures m in s && forall y :: y in s ==> m <= y
  {
    MinExists(s);
    var m :| m in s && forall y :: y in s ==> m <= y;
    m
  }

  /** The elements of a set of row ids in ascending order. */
  function Sorted(s: set<nat>): (r: seq<nat>)
    ensures Ascending(r) && |r| == |s|
    ensures forall x :: x in r <==> x in s
  {
    if s == {} then [] else
      var m := Min(s);
      [m] + Sorted(s - {m})
  }

  function Above(s: set<nat>, after: nat): set<nat> {
    set x | x in s && x > after
  }

  function Page(s: set<nat>, after: nat, limit: nat): (p: seq<nat>)
    ensures |p| == if |Above(s, after)| < limit then |Above(s, after)| else limit
    ensures Ascending(p)
    ensures forall x :: x in p ==> x in s && x > after
  {
    var all := Sorted(Above(s, after));
    if |all| < limit then all else
      assert forall x :: x in all[..limit] ==> x in all;
      all[..limit]
  }

  /** Whatever a page leaves out comes after it, and a short page leaves nothing out. */
  lemma PageIsFirst(s: set<nat>, after: nat, limit: nat, x: nat)
    requires x in s && x > after && x !in Page(s, after, limit)
    ensures |Page(s, after, limit)| == limit && forall k :: 0 <= k < limit ==> Page(s, after, limit)[k] < x
  {
    var all, p := Sorted(Above(s, after)), Page(s, after, limit);
    assert x in Above(s, after) && x in all;
    assert forall k :: 0 <= k < |p| ==> p[k] == all[k] && p[k] in p;
    var j :| 0 <= j < |all| && all[j] == x;
  }

  lemma {:induction false} AscendingUnique(a: seq<nat>, b: seq<nat>)
    requires Ascending(a) && Ascending(b)
    requires forall x :: x in a <==> x in b
    ensures a == b
  {
    assert b != [] ==> b[0] in a;
    if a != [] {
      assert a[0] in b;
      assert b[0] in a;
      assert a[0] == b[0];
      forall x ensures x in a[1..] <==> x in b[1..] {
        if x in a[1..] {
          var j :| 1 <= j < |a| && a[j] == x;
          assert x in b && x > a[0];
          var k :| 0 <= k < |b| && b[k] == x;
          assert b[1..][k - 1] == x;
        }
        if x in b[1..] {
          var j :| 1 <= j < |b| && b[j] == x;
          assert x in a && x > b[0];
          var k :| 0 <= k < |a| && a[k] == x;
          assert a[1..][k - 1] == x;
        }
      }
      AscendingUnique(a[1..], b[1..]);
    }
  }

  /** A full page followed by everything after its last id is the whole remainder: paging loses and repeats nothing. */
  lemma PageSplit(s: set<nat>, after: nat, limit: nat)
    requires limit > 0
    ensures var p := Page(s, after, limit);
      Sorted(Above(s, after)) == if |p| < limit then p else p + Sorted(Above(s, p[limit - 1]))
  {
    var all, p := Sorted(Above(s, after)), Page(s, after, limit);
    if |p| == limit {
      var rest := Sorted(Above(s, p[limit - 1]));
      assert p[limit - 1] in p;
      forall x ensures x in all <==> x in p + rest {
        if x in all && x !in p { PageIsFirst(s, after, limit, x); }
      }
      JoinAscends(p, rest);
      AscendingUnique(all, p + rest);
    }
  }

  lemma JoinAscends(a: seq<nat>, b: seq<nat>)
    requires Ascending(a) && Ascending(b) && a != [] && forall x :: x in b ==> x > a[|a| - 1]
    ensures Ascending(a + b)
  {
    forall i, j | 0 <= i < j < |a + b| ensures (a + b)[i] < (a + b)[j] {
      if j >= |a| { assert b[j - |a|] in b; }
    }
  }

  /** The ids already paged through are followed by exactly the ids above the cursor. */
  ghost predicate Reached(s: set<nat>, done: seq<nat>, after: nat) {
    Sorted(s) == done + Sorted(Above(s, after))
  }

  lemma ReachedStart(s: set<nat>)
    requires 0 !in s
    ensures Reached(s, [], 0)
  {
    assert Above(s, 0) == s;
    assert [] + Sorted(s) == Sorted(s);
  }

  lemma Regroup(all: seq<nat>, done: seq<nat>, p: seq<nat>, rest: seq<nat>)
    requires all == done + (p + rest)
    ensures all == (done + p) + rest && done + p <= all
  {
  }

  lemma PageAdvances(s: set<nat>, done: seq<nat>, after: nat, limit: nat)
    requires limit > 0 && Reached(s, done, after)
    ensures var p := Page(s, after, limit);
      && done + p <= Sorted(s)
      && if |p| < limit then Sorted(s) == done + p else Reached(s, done + p, p[limit - 1])
  {
    var p := Page(s, after, limit);
    PageSplit(s, after, limit);
    if |p| == limit {
      Regroup(Sorted(s), done, p, Sorted(Above(s, p[limit - 1])));
    }
  }
}
