/**
 * The stable sort behind LINQ's `OrderBy` and `OrderByDescending`: a `<=` relation between
 * elements (a total preorder, so distinct elements may compare equal) decides the order, and
 * elements that compare equal keep the order they had in the input.
 */
module StableSort {

  /** `le` is total and transitive: a comparer that may tie distinct elements. */
  ghost predicate TotalPreorder<T(!new)>(le: (T, T) -> bool)
  {
    && (forall x, y :: le(x, y) || le(y, x))
    && (forall x, y, z :: le(x, y) && le(y, z) ==> le(x, z))
  }

  /** Every element is `le` every later one. */
  ghost predicate Sorted<T>(s: seq<T>, le: (T, T) -> bool)
  {
    forall i, j | 0 <= i < j < |s| :: le(s[i], s[j])
  }

  /** `a` and `b` compare equal. */
  ghost predicate Ties<T>(le: (T, T) -> bool, a: T, b: T)
  {
    le(a, b) && le(b, a)
  }

  /** The elements of `s` that compare equal to `k`, in their order in `s`. */
  ghost function TiesOf<T>(s: seq<T>, k: T, le: (T, T) -> bool): seq<T>
  {
    if s == [] then [] else (if Ties(le, s[0], k) then [s[0]] else []) + TiesOf(s[1..], k, le)
  }

  /** Puts `x` in front of the first element it is `le`. */
  function Insert<T>(x: T, s: seq<T>, le: (T, T) -> bool): (r: seq<T>)
    ensures multiset(r) == multiset(s) + multiset{x}
  {
    if s == [] || le(x, s[0]) then [x] + s
    else
      assert s == [s[0]] + s[1..];
      [s[0]] + Insert(x, s[1..], le)
  }

  /** Insertion sort from the back: each element goes in front of the elements it ties with. */
  function Sort<T>(s: seq<T>, le: (T, T) -> bool): (r: seq<T>)
    ensures multiset(r) == multiset(s)
  {
    if s == [] then []
    else
      assert s == [s[0]] + s[1..];
      Insert(s[0], Sort(s[1..], le), le)
  }

  lemma {:induction false} InsertSorted<T(!new)>(x: T, s: seq<T>, le: (T, T) -> bool)
    requires TotalPreorder(le) && Sorted(s, le)
    ensures Sorted(Insert(x, s, le), le)
  {
    if s != [] && !le(x, s[0]) {
      InsertSorted(x, s[1..], le);
      var r := Insert(x, s[1..], le);
      forall e | e in r ensures le(s[0], e) {
        assert e in multiset(r);
        if e != x {
          var j :| 0 <= j < |s[1..]| && s[1..][j] == e;
          assert s[j + 1] == e;
        }
      }
    }
  }

  /** The result is ordered by `le`. */
  lemma {:induction false} SortSorted<T(!new)>(s: seq<T>, le: (T, T) -> bool)
    requires TotalPreorder(le)
    ensures Sorted(Sort(s, le), le)
  {
    if s != [] {
      SortSorted(s[1..], le);
      InsertSorted(s[0], Sort(s[1..], le), le);
    }
  }

  lemma TiesOfCons<T>(a: T, t: seq<T>, k: T, le: (T, T) -> bool)
    ensures TiesOf([a] + t, k, le) == (if Ties(le, a, k) then [a] else []) + TiesOf(t, k, le)
  {
    assert ([a] + t)[1..] == t;
  }

  lemma SwapHeads<T>(a: seq<T>, b: seq<T>, t: seq<T>)
    requires a == [] || b == []
    ensures a + (b + t) == b + (a + t)
  {
  }

  /** Inserting `x` puts it ahead of everything it ties with, as if it had been first; the comparer need only carry ties forward. */
  lemma {:induction false} TiesOfInsert<T(!new)>(x: T, s: seq<T>, k: T, le: (T, T) -> bool)
    requires forall a, b, c :: Ties(le, a, b) && le(b, c) ==> le(a, c)
    ensures TiesOf(Insert(x, s, le), k, le) == (if Ties(le, x, k) then [x] else []) + TiesOf(s, k, le)
  {
    if s == [] || le(x, s[0]) {
      TiesOfCons(x, s, k, le);
    } else {
      var r := Insert(x, s[1..], le);
      var hx := if Ties(le, x, k) then [x] else [];
      var h0 := if Ties(le, s[0], k) then [s[0]] else [];
      var rest := TiesOf(s[1..], k, le);
      assert Insert(x, s, le) == [s[0]] + r;
      TiesOfInsert(x, s[1..], k, le);
      TiesOfCons(s[0], r, k, le);
      assert TiesOf([s[0]] + r, k, le) == h0 + (hx + rest);
      TiesOfCons(s[0], s[1..], k, le);
      assert [s[0]] + s[1..] == s;
      assert TiesOf(s, k, le) == h0 + rest;
      assert hx == [] || h0 == [];
      SwapHeads(h0, hx, rest);
    }
  }

  /** Stability: for every element `k`, the elements tying with `k` come out in their input order. */
  lemma {:induction false} SortStable<T(!new)>(s: seq<T>, k: T, le: (T, T) -> bool)
    requires TotalPreorder(le)
    ensures TiesOf(Sort(s, le), k, le) == TiesOf(s, k, le)
  {
    if s != [] {
      SortStable(s[1..], k, le);
      assert forall a, b, c :: Ties(le, a, b) && le(b, c) ==> le(a, c);
      TiesOfInsert(s[0], Sort(s[1..], le), k, le);
    }
  }
}
