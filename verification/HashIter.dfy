/** HASH_ITER with a body that may delete the element it is given. */
module HashIter {
  import opened Elems
  import opened Seqs
  import opened HashSpec
  import opened HashRuns
  import opened AppList
  import opened UtHash

  /** The members of `s` that the body does not delete. */
  function Kept(s: seq<Elem>, drop: Elem -> bool): seq<Elem> {
    if s == [] then []
    else Kept(s[..|s| - 1], drop) + if drop(s[|s| - 1]) then [] else [s[|s| - 1]]
  }

  lemma {:induction false} KeptMembers(s: seq<Elem>, drop: Elem -> bool)
    ensures forall i :: 0 <= i < |Kept(s, drop)| ==> Kept(s, drop)[i] in s && !drop(Kept(s, drop)[i])
    ensures forall i :: 0 <= i < |s| && !drop(s[i]) ==> s[i] in Kept(s, drop)
  {
    if s != [] {
      KeptMembers(s[..|s| - 1], drop);
      SplitLast(s);
    }
  }

  /** The list when the cursor stands at position `i` of the original list `s`. */
  function Remaining(s: seq<Elem>, i: nat, drop: Elem -> bool): seq<Elem>
    requires i <= |s|
  {
    Kept(s[..i], drop) + s[i..]
  }

  lemma RemainingEnds(s: seq<Elem>, drop: Elem -> bool)
    ensures Remaining(s, 0, drop) == s && Remaining(s, |s|, drop) == Kept(s, drop)
    ensures s[..0] == [] && s[..|s|] == s
  {
    assert Kept([], drop) == [];
    hide Kept;
    assert s[..0] == [] && s[..|s|] == s && s[|s|..] == [] && s[0..] == s;
    assert [] + s == s && Kept(s, drop) + [] == Kept(s, drop);
  }

  /** The element under the cursor sits right after what has been kept. */
  lemma CursorIndex(s: seq<Elem>, i: nat, drop: Elem -> bool)
    requires NoDup(s) && i < |s|
    ensures var list := Remaining(s, i, drop); s[i] in list && IndexOf(list, s[i]) == |Kept(s[..i], drop)|
  {
    hide Kept;
    var kept, list := Kept(s[..i], drop), Remaining(s, i, drop);
    KeptMembers(s[..i], drop);
    assert list[|kept|] == s[i] && s[i] in list;
    forall j | 0 <= j < |kept|
      ensures list[j] != s[i]
    {
      assert list[j] == kept[j];
      var l :| 0 <= l < i && s[l] == kept[j];
    }
    assert s[i] !in list[..|kept|];
  }

  lemma KeptStep(s: seq<Elem>, i: nat, drop: Elem -> bool)
    requires i < |s|
    ensures Kept(s[..i + 1], drop) == Kept(s[..i], drop) + if drop(s[i]) then [] else [s[i]]
    ensures s[..i + 1] == s[..i] + [s[i]]
  {
    assert s[..i + 1][..i] == s[..i];
  }

  lemma RemainingStep(s: seq<Elem>, i: nat, drop: Elem -> bool)
    requires NoDup(s) && i < |s|
    ensures var list := Remaining(s, i, drop);
            && s[i] in list
            && Remaining(s, i + 1, drop) == if drop(s[i]) then RemoveAt(list, IndexOf(list, s[i])) else list
    ensures s[..i + 1] == s[..i] + [s[i]]
  {
    hide Kept, NoDup, IndexOf;
    var kept, list := Kept(s[..i], drop), Remaining(s, i, drop);
    CursorIndex(s, i, drop);
    KeptStep(s, i, drop);
    assert kept + [] == kept;
    assert RemoveAt(list, |kept|) == kept + s[i + 1..];
    assert kept + [s[i]] + s[i + 1..] == list;
  }

  lemma CursorNext(h: HashTable, s: seq<Elem>, i: nat, drop: Elem -> bool)
    requires h.Valid() && i < |s| && ListOf(h.st) == Remaining(s, i, drop)
    ensures s[i].next == At(s, i + 1)
  {
    hide HashTable.Valid, Inv, Kept;
    ListIsLinked(h);
    var kept, list := Kept(s[..i], drop), Remaining(s, i, drop);
    assert list[|kept|] == s[i] && At(list, |kept| + 1) == At(s, i + 1);
  }

  lemma ListIsLinked(h: HashTable)
    requires h.Valid()
    ensures h.head == At(ListOf(h.st), 0)
    ensures Inv(h.st, h.hash) && NoDup(ListOf(h.st)) && AppLinked(ListOf(h.st))
    ensures forall e :: e in ListOf(h.st) ==> e in h.members
  {
  }

  /** The loop body. */
  method Visit(h: HashTable, el: Elem, drop: Elem -> bool, ghost s: seq<Elem>, ghost i: nat)
    requires h.Valid() && NoDup(s) && i < |s| && el == s[i] && ListOf(h.st) == Remaining(s, i, drop)
    modifies h.Footprint()
    ensures h.Valid() && fresh(h.Footprint() - old(h.Footprint()))
    ensures ListOf(h.st) == Remaining(s, i + 1, drop)
  {
    hide HashTable.Valid, Inv, Kept, NoDup, AppLinked, HashSpec.Delete, RemoveAt, IndexOf, Remaining;
    ListIsLinked(h);
    RemainingStep(s, i, drop);
    if drop(el) {
      DeleteInv(h.st, h.hash, el);
      h.Delete(el);
    }
  }

  /** `HASH_ITER(h.head, el, tmp) { if (drop(el)) HASH_DEL(h.head, el); }`: every element present at the
      start is visited once, in application order, and exactly the chosen ones are gone afterwards. */
  method DeleteWhere(h: HashTable, drop: Elem -> bool) returns (visited: seq<Elem>)
    requires h.Valid()
    modifies h.Footprint()
    ensures h.Valid() && fresh(h.Footprint() - old(h.Footprint()))
    ensures visited == old(ListOf(h.st))
    ensures ListOf(h.st) == Kept(old(ListOf(h.st)), drop)
  {
    hide HashTable.Valid, Kept, NoDup, AppLinked, Inv, ListOf, Remaining;
    ghost var s := ListOf(h.st);
    ghost var i := 0;
    ListIsLinked(h);
    RemainingEnds(s, drop);
    var el := h.head;
    visited := [];
    var tmp: Elem? := null;
    if h.head != null {
      CursorNext(h, s, 0, drop);
      tmp := h.head.next;
    }
    while el != null
      invariant h.Valid() && fresh(h.Footprint() - old(h.Footprint()))
      invariant i <= |s| && visited == s[..i] && el == At(s, i) && tmp == At(s, i + 1)
      invariant ListOf(h.st) == Remaining(s, i, drop)
      decreases |s| - i
    {
      visited := visited + [el];
      RemainingStep(s, i, drop);
      Visit(h, el, drop, s, i);
      i := i + 1;
      el := tmp;
      if tmp != null {
        CursorNext(h, s, i, drop);
        tmp := tmp.next;
      }
    }
  }
}
