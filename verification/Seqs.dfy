/** Facts about finite sequences used by both halves of the project. */
module Seqs {

  ghost predicate NoDup<T>(s: seq<T>) {
    forall i, j :: 0 <= i < j < |s| ==> s[i] != s[j]
  }

  /** Both sequences have the same members. */
  ghost predicate SameMembers<T>(s: seq<T>, r: seq<T>) {
    (forall x :: x in s ==> x in r) && (forall x :: x in r ==> x in s)
  }

  function RemoveAt<T>(s: seq<T>, k: nat): (r: seq<T>)
    requires k < |s|
    ensures |r| == |s| - 1
  {
    s[..k] + s[k + 1..]
  }

  function InsertAt<T>(s: seq<T>, k: nat, x: T): (r: seq<T>)
    requires k <= |s|
    ensures |r| == |s| + 1
  {
    s[..k] + [x] + s[k..]
  }

  /** Position of the first occurrence. */
  function IndexOf<T(==)>(s: seq<T>, x: T): (k: nat)
    requires x in s
    ensures k < |s| && s[k] == x && x !in s[..k]
  {
    if s[0] == x then 0 else 1 + IndexOf(s[1..], x)
  }

  function Flatten<T>(ss: seq<seq<T>>): seq<T> {
    if ss == [] then [] else Flatten(ss[..|ss| - 1]) + ss[|ss| - 1]
  }

  function Sum(s: seq<nat>): nat {
    if s == [] then 0 else Sum(s[..|s| - 1]) + s[|s| - 1]
  }

  function Lengths<T>(ss: seq<seq<T>>): (r: seq<nat>)
    ensures |r| == |ss| && forall i :: 0 <= i < |r| ==> r[i] == |ss[i]|
  {
    seq(|ss|, i requires 0 <= i < |ss| => |ss[i]|)
  }

  lemma {:induction false} NoDupRemoveAt<T>(s: seq<T>, k: nat)
    requires NoDup(s) && k < |s|
    ensures NoDup(RemoveAt(s, k))
    ensures s[k] !in RemoveAt(s, k)
    ensures forall x :: x in s && x != s[k] ==> x in RemoveAt(s, k)
    ensures forall x :: x in RemoveAt(s, k) ==> x in s
  {
  }

  lemma NoDupInsertAt<T>(s: seq<T>, k: nat, x: T)
    requires NoDup(s) && k <= |s| && x !in s
    ensures NoDup(InsertAt(s, k, x))
    ensures x in InsertAt(s, k, x)
    ensures forall y :: y in s ==> y in InsertAt(s, k, x)
    ensures forall y :: y in InsertAt(s, k, x) ==> y in s || y == x
  {
  }

  lemma InsertAtIndex<T>(s: seq<T>, k: nat, x: T, i: nat)
    requires k <= |s| && i <= |s|
    ensures InsertAt(s, k, x)[i] == if i < k then s[i] else if i == k then x else s[i - 1]
  {}

  lemma RemoveAtIndex<T>(s: seq<T>, k: nat, i: nat)
    requires k < |s| && i < |s| - 1
    ensures RemoveAt(s, k)[i] == if i < k then s[i] else s[i + 1]
  {}

  lemma ConcatAssoc<T>(a: seq<T>, b: seq<T>, c: seq<T>)
    ensures a + b + c == a + (b + c)
  {}

  lemma SplitLast<T>(s: seq<T>)
    requires s != []
    ensures s == s[..|s| - 1] + [s[|s| - 1]]
  {}

  lemma {:induction false} NoDupCounts<T>(s: seq<T>, x: T)
    requires NoDup(s)
    ensures multiset(s)[x] <= 1
  {
    if s != [] {
      var init, e := s[..|s| - 1], s[|s| - 1];
      SplitLast(s);
      NoDupCounts(init, x);
      assert multiset(s) == multiset(init) + multiset{e};
      assert e !in multiset(init);
    }
  }

  lemma CountsNoDup<T>(s: seq<T>)
    requires forall x :: x in s ==> multiset(s)[x] <= 1
    ensures NoDup(s)
  {
    forall i, j | 0 <= i < j < |s|
      ensures s[i] != s[j]
    {
      assert s == s[..j] + s[j..];
      assert multiset(s)[s[j]] == multiset(s[..j])[s[j]] + multiset(s[j..])[s[j]];
      assert s[..j][i] in multiset(s[..j]) && s[j..][0] in multiset(s[j..]);
      assert multiset(s)[s[j]] <= 1;
    }
  }

  lemma NoDupPermuted<T>(s: seq<T>, r: seq<T>)
    requires NoDup(s) && multiset(r) == multiset(s)
    ensures NoDup(r)
    ensures forall x :: x in r <==> x in s
    ensures forall i :: 0 <= i < |r| ==> r[i] in s
  {
    forall x | x in r
      ensures multiset(r)[x] <= 1
    {
      NoDupCounts(s, x);
    }
    CountsNoDup(r);
    assert forall x :: x in r <==> x in multiset(r);
    assert forall x :: x in s <==> x in multiset(s);
  }

  lemma HeadIsMember<T>(s: seq<T>)
    ensures s == [] || s[0] in s
  {}

  lemma NoDupConcat<T>(s: seq<T>, r: seq<T>)
    requires NoDup(s) && NoDup(r) && forall x :: x in s ==> x !in r
    ensures NoDup(s + r)
  {
    forall i, j | 0 <= i < j < |s + r|
      ensures (s + r)[i] != (s + r)[j]
    {
      if i < |s| <= j { assert s[i] in s && r[j - |s|] in r; }
    }
  }

  lemma {:induction false} SameMembersSameLength<T>(s: seq<T>, r: seq<T>)
    requires NoDup(s) && NoDup(r) && SameMembers(s, r)
    ensures |s| == |r|
  {
    if s == [] {
      HeadIsMember(r);
    } else {
      var x := s[|s| - 1];
      assert x in s;
      var k := IndexOf(r, x);
      NoDupRemoveAt(r, k);
      var s', r' := s[..|s| - 1], RemoveAt(r, k);
      assert forall y :: y in s' ==> y in s && y != x;
      forall y | y in r'
        ensures y in s'
      {
        assert y in s && y != x;
        var i :| 0 <= i < |s| && s[i] == y;
        assert s'[i] == y;
      }
      SameMembersSameLength(s', r');
    }
  }

  lemma {:induction false} FlattenLength<T>(ss: seq<seq<T>>)
    ensures |Flatten(ss)| == Sum(Lengths(ss))
  {
    if ss != [] {
      FlattenLength(ss[..|ss| - 1]);
      assert Lengths(ss)[..|ss| - 1] == Lengths(ss[..|ss| - 1]);
    }
  }

  lemma {:induction false} InFlatten<T>(ss: seq<seq<T>>, x: T)
    ensures x in Flatten(ss) <==> exists b :: 0 <= b < |ss| && x in ss[b]
  {
    if ss != [] {
      var init := ss[..|ss| - 1];
      InFlatten(init, x);
      if x in Flatten(init) {
        var b :| 0 <= b < |init| && x in init[b];
        assert x in ss[b];
      }
      if exists b :: 0 <= b < |ss| && x in ss[b] {
        var b :| 0 <= b < |ss| && x in ss[b];
        if b < |init| { assert x in init[b]; }
      }
    }
  }
}
