/** Natural (insertion) order over a collection, and the two list-update
    operators the handlers use on arrays stored in documents. */
module Order {
  import opened Common

  predicate Increasing(r: seq<Id>) {
    forall i, j :: 0 <= i < j < |r| ==> r[i] < r[j]
  }

  /** The members of `s` in `[lo, hi)`, in increasing order: a collection
      scan in natural order when `s` is a set of document ids. */
  function Ascending(s: set<Id>, lo: nat, hi: nat): (r: seq<Id>)
    ensures forall x :: x in r <==> x in s && lo <= x < hi
    ensures Increasing(r)
    decreases hi - lo
  {
    if lo >= hi then []
    else
      var rest := Ascending(s, lo + 1, hi);
      var r := (if lo in s then [lo] else []) + rest;
      assert forall j :: 0 <= j < |rest| ==> lo < rest[j] by {
        forall j | 0 <= j < |rest| ensures lo < rest[j] { assert rest[j] in rest; }
      }
      r
  }

  /** The members of `s` below `hi`, newest (largest) first. */
  function Descending(s: set<Id>, hi: nat): (r: seq<Id>)
    ensures forall x :: x in r <==> x in s && x < hi
    ensures forall i, j :: 0 <= i < j < |r| ==> r[i] > r[j]
  {
    if hi == 0 then []
    else
      var rest := Descending(s, hi - 1);
      var r := (if hi - 1 in s then [hi - 1] else []) + rest;
      assert forall j :: 0 <= j < |rest| ==> rest[j] < hi - 1 by {
        forall j | 0 <= j < |rest| ensures rest[j] < hi - 1 { assert rest[j] in rest; }
      }
      r
  }

  /** The members of a list, as a set. */
  function Members(r: seq<Id>): set<Id> {
    set x | x in r
  }

  /** A strictly increasing list has as many entries as distinct members. */
  lemma {:induction false} IncreasingCount(r: seq<Id>)
    requires Increasing(r)
    ensures |Members(r)| == |r|
  {
    if r == [] {
      assert Members(r) == {};
    } else {
      var tail := r[1..];
      IncreasingCount(tail);
      assert Members(r) == Members(tail) + {r[0]};
      assert r[0] !in Members(tail) by {
        forall j | 0 <= j < |tail| ensures tail[j] != r[0] { assert r[0] < r[j + 1]; }
      }
    }
  }

  /** When every member of `s` lies below `n`, the natural-order listing
      has exactly `|s|` entries. */
  lemma AscendingAll(s: set<Id>, n: nat)
    requires forall x :: x in s ==> x < n
    ensures |Ascending(s, 0, n)| == |s|
  {
    var r := Ascending(s, 0, n);
    IncreasingCount(r);
    assert Members(r) == s;
  }

  /** `findOne`: the first member of `s` below `n` in natural order. */
  function First(s: set<Id>, n: nat): (r: Option<Id>)
    ensures r.Some? ==> r.value in s && r.value < n && forall x :: x in s && x < n ==> r.value <= x
    ensures r.None? ==> forall x :: x in s ==> x >= n
  {
    var a := Ascending(s, 0, n);
    if a == [] then None
    else
      assert forall x :: x in s && x < n ==> a[0] <= x by {
        forall x | x in s && x < n ensures a[0] <= x {
          var k :| 0 <= k < |a| && a[k] == x;
        }
      }
      Some(a[0])
  }

  /** `$last` of a natural-order lookup: the last member of `s` below `n`. */
  function Last(s: set<Id>, n: nat): (r: Option<Id>)
    ensures r.Some? ==> r.value in s && r.value < n && forall x :: x in s && x < n ==> x <= r.value
    ensures r.None? ==> forall x :: x in s ==> x >= n
  {
    var a := Ascending(s, 0, n);
    if a == [] then None
    else
      assert forall x :: x in s && x < n ==> x <= a[|a| - 1] by {
        forall x | x in s && x < n ensures x <= a[|a| - 1] {
          var k :| 0 <= k < |a| && a[k] == x;
        }
      }
      Some(a[|a| - 1])
  }

  /** When every member of `s` lies below `n`, `findOne` finds something
      exactly when `s` is not empty, and what it finds is the least member. */
  lemma FirstOfBounded(s: set<Id>, n: nat)
    requires forall x :: x in s ==> x < n
    ensures First(s, n).Some? <==> s != {}
    ensures First(s, n).Some? ==> forall x :: x in s ==> First(s, n).value <= x
  {
    if s != {} {
      var x :| x in s;
      assert x < n;
    }
  }

  /** When every member of `s` lies below `n`, `$last` finds something
      exactly when `s` is not empty, and what it finds is the greatest member. */
  lemma LastOfBounded(s: set<Id>, n: nat)
    requires forall x :: x in s ==> x < n
    ensures Last(s, n).Some? <==> s != {}
    ensures Last(s, n).Some? ==> forall x :: x in s ==> x <= Last(s, n).value
  {
    if s != {} {
      var x :| x in s;
      assert x < n;
    }
  }

  predicate NoDuplicates(s: seq<Id>) {
    forall i, j :: 0 <= i < j < |s| ==> s[i] != s[j]
  }

  /** MongoDB `$addToSet` on an array field: the element is appended unless
      it is already there; nothing already in the array moves. */
  function AddToSet(s: seq<Id>, x: Id): (r: seq<Id>)
    ensures x in r
    ensures forall y :: y in r <==> y in s || y == x
    ensures |s| <= |r| <= |s| + 1 && r[..|s|] == s
    ensures x in s <==> r == s
  {
    if x in s then s else s + [x]
  }

  /** MongoDB `$pull` of one value: every occurrence of it is removed. */
  function Pull(s: seq<Id>, x: Id): (r: seq<Id>)
    ensures x !in r
    ensures forall y :: y != x ==> (y in r <==> y in s)
    ensures |r| <= |s|
  {
    if s == [] then []
    else (if s[0] == x then [] else [s[0]]) + Pull(s[1..], x)
  }

  /** `r` is `s` with some entries dropped, the rest in their original order. */
  predicate IsSubsequence(r: seq<Id>, s: seq<Id>)
    decreases |s|
  {
    if r == [] then true
    else if s == [] then false
    else if r[0] == s[0] then IsSubsequence(r[1..], s[1..])
    else IsSubsequence(r, s[1..])
  }

  /** After a pull, the remaining entries keep their relative order and every
      other value keeps its multiplicity. */
  lemma {:induction false} PullKeepsOrder(s: seq<Id>, x: Id)
    ensures IsSubsequence(Pull(s, x), s)
    ensures forall y :: y != x ==> multiset(Pull(s, x))[y] == multiset(s)[y]
  {
    if s != [] {
      PullKeepsOrder(s[1..], x);
      assert s == [s[0]] + s[1..];
      var rest := Pull(s[1..], x);
      if s[0] == x {
        assert Pull(s, x) == rest;
      } else {
        assert Pull(s, x) == [s[0]] + rest;
        assert ([s[0]] + rest)[1..] == rest;
      }
    }
  }

  /** An array kept by `$addToSet` alone never holds a value twice. */
  lemma AddToSetKeepsDistinct(s: seq<Id>, x: Id)
    requires NoDuplicates(s)
    ensures NoDuplicates(AddToSet(s, x))
  {
    var r := AddToSet(s, x);
    if x !in s {
      forall i, j | 0 <= i < j < |r| ensures r[i] != r[j] {
        if j == |s| { assert r[i] == s[i]; }
      }
    }
  }

  /** Re-adding a present value changes nothing. */
  lemma AddToSetIdempotent(s: seq<Id>, x: Id)
    ensures AddToSet(AddToSet(s, x), x) == AddToSet(s, x)
  {
  }

  /** Pulling a value undoes adding it, whether or not it was there before. */
  lemma {:induction false} PullAfterAddToSet(s: seq<Id>, x: Id)
    ensures Pull(AddToSet(s, x), x) == Pull(s, x)
  {
    if x !in s {
      PullAppend(s, [x], x);
      assert Pull([x], x) == [] + Pull([], x);
      assert Pull(s, x) + [] == Pull(s, x);
    }
  }

  lemma {:induction false} PullAppend(a: seq<Id>, b: seq<Id>, x: Id)
    ensures Pull(a + b, x) == Pull(a, x) + Pull(b, x)
  {
    if a == [] {
      assert a + b == b;
    } else {
      assert (a + b)[1..] == a[1..] + b;
      PullAppend(a[1..], b, x);
    }
  }

  /** Pulling a value that is not there leaves the array as it was. */
  lemma {:induction false} PullOfAbsent(s: seq<Id>, x: Id)
    requires x !in s
    ensures Pull(s, x) == s
  {
    if s != [] {
      PullOfAbsent(s[1..], x);
      assert s == [s[0]] + s[1..];
    }
  }

  /** Adding an absent value and then pulling it restores the array. */
  lemma AddThenPullRestores(s: seq<Id>, x: Id)
    requires x !in s
    ensures Pull(AddToSet(s, x), x) == s
  {
    PullAfterAddToSet(s, x);
    PullOfAbsent(s, x);
  }
}
