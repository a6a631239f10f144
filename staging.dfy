/**
 * The staging store: a Redis list, with the three commands the tasks use
 * (RPUSH, LRANGE 0 -1 and LREM with count 0).
 */
module Staging {

  /** What `LREM key 0 v` leaves: the list without any occurrence of `v`, in order. */
  function RemoveAll<T(==,!new)>(s: seq<T>, v: T): (r: seq<T>)
    ensures forall x :: x in r <==> x in s && x != v
    ensures |r| <= |s|
  {
    if s == [] then []
    else (if s[0] == v then [] else [s[0]]) + RemoveAll(s[1..], v)
  }

  /** Removing a value that is not (or no longer) in the list changes nothing. */
  lemma {:induction false} RemoveAbsentIsNoop<T(!new)>(s: seq<T>, v: T)
    requires v !in s
    ensures RemoveAll(s, v) == s
  {
    if s != [] {
      assert s[0] != v;
      RemoveAbsentIsNoop(s[1..], v);
      assert [s[0]] + s[1..] == s;
    }
  }

  /** Removal is idempotent: the second LREM of the same value is a no-op. */
  lemma RemoveAllIdempotent<T(!new)>(s: seq<T>, v: T)
    ensures RemoveAll(RemoveAll(s, v), v) == RemoveAll(s, v)
  {
    RemoveAbsentIsNoop(RemoveAll(s, v), v);
  }

  /** The list after one LREM per value of `vs`, in the order of `vs`. */
  function RemoveEach<T(==,!new)>(s: seq<T>, vs: seq<T>): (r: seq<T>)
    ensures forall x :: x in r <==> x in s && x !in vs
  {
    if vs == [] then s
    else
      assert forall x :: x in vs <==> x in vs[..|vs| - 1] || x == vs[|vs| - 1];
      RemoveAll(RemoveEach(s, vs[..|vs| - 1]), vs[|vs| - 1])
  }

  lemma RemoveEachSnoc<T(!new)>(s: seq<T>, vs: seq<T>, v: T)
    ensures RemoveEach(s, vs + [v]) == RemoveAll(RemoveEach(s, vs), v)
  {
    assert (vs + [v])[..|vs|] == vs;
  }

  lemma {:induction false} RemoveAllAppend<T(!new)>(a: seq<T>, b: seq<T>, v: T)
    ensures RemoveAll(a + b, v) == RemoveAll(a, v) + RemoveAll(b, v)
  {
    if a == [] {
      assert a + b == b;
    } else {
      var head := if a[0] == v then [] else [a[0]];
      assert (a + b)[0] == a[0] && (a + b)[1..] == a[1..] + b;
      calc {
        RemoveAll(a + b, v);
        head + RemoveAll(a[1..] + b, v);
        { RemoveAllAppend(a[1..], b, v); }
        head + (RemoveAll(a[1..], v) + RemoveAll(b, v));
        RemoveAll(a, v) + RemoveAll(b, v);
      }
    }
  }

  /** The LREMs act on each element of the list independently. */
  lemma {:induction false} RemoveEachCons<T(!new)>(x: T, s: seq<T>, vs: seq<T>)
    ensures RemoveEach([x] + s, vs) == (if x in vs then [] else [x]) + RemoveEach(s, vs)
  {
    if vs != [] {
      var init, v := vs[..|vs| - 1], vs[|vs| - 1];
      assert vs == init + [v];
      RemoveEachCons(x, s, init);
      var head := if x in init then [] else [x];
      RemoveAllAppend(head, RemoveEach(s, init), v);
    }
  }

  lemma {:induction false} RemoveEachFromEmpty<T(!new)>(vs: seq<T>)
    ensures RemoveEach([], vs) == []
  {
    if vs != [] {
      RemoveEachFromEmpty(vs[..|vs| - 1]);
    }
  }

  /** Removing every value of a snapshot from the list it was taken of empties it. */
  lemma {:induction false} DrainSnapshot<T(!new)>(s: seq<T>, vs: seq<T>)
    requires forall x :: x in s ==> x in vs
    ensures RemoveEach(s, vs) == []
  {
    if s == [] {
      RemoveEachFromEmpty(vs);
    } else {
      DrainSnapshot(s[1..], vs);
      RemoveEachCons(s[0], s[1..], vs);
      assert [s[0]] + s[1..] == s;
    }
  }

  /** One named Redis list. */
  class RedisList<T(==,!new)> {
    var items: seq<T>

    constructor (init: seq<T>)
      ensures items == init
    {
      items := init;
    }

    /** RPUSH: append at the tail. */
    method RPush(v: T)
      modifies this
      ensures items == old(items) + [v]
    {
      items := items + [v];
    }

    /** LRANGE 0 -1: a snapshot of the whole list; it does not drain it. */
    method LRange() returns (s: seq<T>)
      ensures s == items
    {
      s := items;
    }

    /** LREM with count 0: remove every occurrence of `v`; returns how many were removed. */
    method LRem(v: T) returns (removed: nat)
      modifies this
      ensures items == RemoveAll(old(items), v)
      ensures removed == |old(items)| - |items|
    {
      var before := |items|;
      items := RemoveAll(items, v);
      removed := before - |items|;
    }
  }
}
