/** Picking elements out of a sequence, and joining pages into one, by position. */
module Sequences {

  /** `at` are the positions of `s`, in order, whose elements are `wanted`. */
  ghost predicate Picks<T>(s: seq<T>, wanted: T -> bool, at: seq<nat>) {
    && (forall i, j :: 0 <= i < j < |at| ==> at[i] < at[j])
    && (forall k :: 0 <= k < |at| ==> at[k] < |s| && wanted(s[at[k]]))
    && (forall i :: 0 <= i < |s| && wanted(s[i]) ==> i in at)
  }

  /** The same once one more element is there. */
  function OneMore<T>(s: seq<T>, x: T, wanted: T -> bool, at: seq<nat>): seq<nat> {
    if wanted(x) then at + [|s|] else at
  }

  lemma PicksSnoc<T>(s: seq<T>, x: T, wanted: T -> bool, at: seq<nat>)
    requires Picks(s, wanted, at)
    ensures Picks(s + [x], wanted, OneMore(s, x, wanted, at))
    ensures forall k :: 0 <= k < |at| ==> at[k] < |s| && (s + [x])[at[k]] == s[at[k]]
  {
    var more := OneMore(s, x, wanted, at);
    forall i | 0 <= i < |s + [x]| && wanted((s + [x])[i]) ensures i in more {
      if i < |s| {
        assert i in at;
      } else {
        assert more[|at|] == i;
      }
    }
  }

  lemma PicksNothing<T>(wanted: T -> bool)
    ensures Picks([], wanted, [])
  {
  }

  /** How many there are. */
  function Count<T>(s: seq<T>, wanted: T -> bool): nat {
    |set i: nat | i < |s| && wanted(s[i])|
  }

  lemma CountSnoc<T>(s: seq<T>, x: T, wanted: T -> bool)
    ensures Count(s + [x], wanted) == Count(s, wanted) + if wanted(x) then 1 else 0
  {
    var before := set i: nat | i < |s| && wanted(s[i]);
    var after := set i: nat | i < |s + [x]| && wanted((s + [x])[i]);
    assert after == before + if wanted(x) then {|s|} else {};
  }

  lemma CountNothing<T>(wanted: T -> bool)
    ensures Count([], wanted) == 0
  {
    var none: seq<T> := [];
    assert (set i: nat | i < |none| && wanted(none[i])) == {};
  }

  /** All pages as one. */
  function Flatten<T>(pages: seq<seq<T>>): seq<T> {
    if pages == [] then [] else Flatten(pages[..|pages| - 1]) + pages[|pages| - 1]
  }

  /** Where page number `i` begins. */
  function Offset<T>(pages: seq<seq<T>>, i: nat): nat
    requires i <= |pages|
  {
    if i == 0 then 0 else Offset(pages, i - 1) + |pages[i - 1]|
  }

  /** Every page is there in full, each behind the one before it, and nothing else is. */
  lemma EveryPageIsThere<T>(pages: seq<seq<T>>)
    ensures |Flatten(pages)| == Offset(pages, |pages|)
    ensures forall i :: 0 <= i < |pages| ==>
              && Offset(pages, i) + |pages[i]| <= |Flatten(pages)|
              && Flatten(pages)[Offset(pages, i)..Offset(pages, i) + |pages[i]|] == pages[i]
  {
    hide Flatten, Offset;
    FlattenLength(pages);
    forall i | 0 <= i < |pages|
      ensures Offset(pages, i) + |pages[i]| <= |Flatten(pages)|
      ensures Flatten(pages)[Offset(pages, i)..Offset(pages, i) + |pages[i]|] == pages[i]
    {
      PageIsThere(pages, i);
    }
  }

  lemma {:induction false} FlattenLength<T>(pages: seq<seq<T>>)
    ensures |Flatten(pages)| == Offset(pages, |pages|)
    decreases |pages|
  {
    if pages != [] {
      FlattenLength(pages[..|pages| - 1]);
      OffsetBefore(pages, |pages| - 1, |pages| - 1);
    }
  }

  lemma {:induction false} PageIsThere<T>(pages: seq<seq<T>>, i: nat)
    requires i < |pages|
    ensures Offset(pages, i) + |pages[i]| <= |Flatten(pages)|
    ensures Flatten(pages)[Offset(pages, i)..Offset(pages, i) + |pages[i]|] == pages[i]
    decreases |pages|
  {
    var n := |pages| - 1;
    var before := Flatten(pages[..n]);
    assert Flatten(pages) == before + pages[n];
    OffsetBefore(pages, n, i);
    hide Flatten, Offset;
    if i < n {
      PageIsThere(pages[..n], i);
      var at := Offset(pages, i);
      assert (before + pages[n])[at..at + |pages[i]|] == before[at..at + |pages[i]|];
    } else {
      FlattenLength(pages[..n]);
      assert (before + pages[n])[|before|..|before| + |pages[n]|] == pages[n];
    }
  }

  lemma {:induction false} OffsetBefore<T>(pages: seq<seq<T>>, n: nat, i: nat)
    requires i <= n <= |pages|
    ensures Offset(pages[..n], i) == Offset(pages, i)
  {
    if i > 0 { OffsetBefore(pages, n, i - 1); }
  }

  lemma {:induction false} FlattenCons<T>(first: seq<T>, rest: seq<seq<T>>)
    ensures Flatten([first] + rest) == first + Flatten(rest)
    decreases |rest|
  {
    var pages := [first] + rest;
    if rest == [] {
      assert pages[..0] == [] && [] + first == first;
    } else {
      var n := |rest| - 1;
      FlattenCons(first, rest[..n]);
      assert pages[..|pages| - 1] == [first] + rest[..n];
    }
  }
}
