/** Filtering and removal on sequences, as Python's list operations perform them. */
module Sequences {

  ghost predicate NoDuplicates<T>(s: seq<T>) {
    forall i, j :: 0 <= i < j < |s| ==> s[i] != s[j]
  }

  /** `s` without the elements of `gone`, in the original order. */
  ghost function Without<T>(s: seq<T>, gone: set<T>): (r: seq<T>)
    ensures forall x | x in r :: x in s && x !in gone
    ensures forall x | x in s :: x in gone || x in r
  {
    if s == [] then []
    else Without(s[..|s| - 1], gone) + if s[|s| - 1] in gone then [] else [s[|s| - 1]]
  }

  /** Python's `list.remove`: drops the first occurrence, if there is one. */
  function RemoveFirst<T(==)>(s: seq<T>, x: T): (r: seq<T>)
    ensures x !in s ==> r == s
    ensures x in s ==> |r| == |s| - 1
  {
    if s == [] then [] else if s[0] == x then s[1..] else [s[0]] + RemoveFirst(s[1..], x)
  }

  lemma WithoutNoDuplicates<T>(s: seq<T>, gone: set<T>)
    requires NoDuplicates(s)
    ensures NoDuplicates(Without(s, gone))
  {
    if s != [] {
      WithoutNoDuplicates(s[..|s| - 1], gone);
    }
  }

  lemma WithoutNothing<T>(s: seq<T>, gone: set<T>)
    requires forall x :: x in s ==> x !in gone
    ensures Without(s, gone) == s
  {
    if s != [] {
      WithoutNothing(s[..|s| - 1], gone);
    }
  }

  lemma WithoutConcat<T>(s: seq<T>, t: seq<T>, gone: set<T>)
    ensures Without(s + t, gone) == Without(s, gone) + Without(t, gone)
  {
    if t == [] {
      assert s + t == s;
    } else {
      assert (s + t)[..|s + t| - 1] == s + t[..|t| - 1];
      WithoutConcat(s, t[..|t| - 1], gone);
    }
  }

  lemma WithoutTwice<T>(s: seq<T>, a: set<T>, b: set<T>)
    ensures Without(Without(s, a), b) == Without(s, a + b)
  {
    if s != [] {
      var init, last := s[..|s| - 1], s[|s| - 1];
      WithoutTwice(init, a, b);
      WithoutConcat(Without(init, a), if last in a then [] else [last], b);
      assert Without([last], b) == if last in b then [] else [last];
    }
  }

  /** Removing the whole tail of a list leaves the head. */
  lemma WithoutTail<T>(head: seq<T>, tail: seq<T>, gone: set<T>)
    requires forall x :: x in tail ==> x in gone
    requires forall x :: x in head ==> x !in gone
    ensures Without(head + tail, gone) == head
  {
    WithoutConcat(head, tail, gone);
    WithoutNothing(head, gone);
    WithoutEverything(tail, gone);
  }

  lemma WithoutEverything<T>(s: seq<T>, gone: set<T>)
    requires forall x :: x in s ==> x in gone
    ensures Without(s, gone) == []
  {
    if s != [] {
      WithoutEverything(s[..|s| - 1], gone);
    }
  }

  lemma {:induction false} RemoveFirstIsWithout<T>(s: seq<T>, x: T)
    requires NoDuplicates(s)
    ensures RemoveFirst(s, x) == Without(s, {x})
  {
    hide Without;
    if s == [] {
      WithoutNothing(s, {x});
    } else {
      WithoutCons(s[0], s[1..], {x});
      assert s == [s[0]] + s[1..];
      if s[0] == x {
        WithoutNothing(s[1..], {x});
      } else {
        RemoveFirstIsWithout(s[1..], x);
      }
    }
  }

  lemma {:induction false} WithoutCons<T>(x: T, s: seq<T>, gone: set<T>)
    ensures Without([x] + s, gone) == (if x in gone then [] else [x]) + Without(s, gone)
  {
    hide Without;
    WithoutConcat([x], s, gone);
    WithoutOne(x, gone);
  }

  lemma WithoutOne<T>(x: T, gone: set<T>)
    ensures Without([x], gone) == if x in gone then [] else [x]
  {
    assert [x][..0] == [];
  }

  lemma WithoutHead<T>(s: seq<T>)
    requires s != [] && NoDuplicates(s)
    ensures RemoveFirst(s, s[0]) == s[1..]
    ensures Without(s, {s[0]}) == s[1..]
  {
    RemoveFirstIsWithout(s, s[0]);
  }

  /** Python's `list.index` for an element known to be present. */
  function IndexOf<T(==)>(s: seq<T>, x: T): (i: nat)
    requires x in s
    ensures i < |s| && s[i] == x && x !in s[..i]
  {
    if s[0] == x then 0 else 1 + IndexOf(s[1..], x)
  }
}
