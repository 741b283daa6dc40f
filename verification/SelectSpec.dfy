/** HASH_SELECT as a function on table values. The macro never moves `tail`: it stays on the first
    selected element, where HASH_MAKE_TABLE put it. It also counts an item only after adding it to its
    bucket, so a doubling in between works with a num_items that is one short. */
module SelectSpec {
  import opened Bits
  import opened Elems
  import opened Seqs
  import opened BucketSpec
  import opened SortSpec
  import opened HashSpec

  /** One selected element, already renamed to its handle in the destination table. */
  function SelectOne(st: State, hash: Hash, d: Elem): State
    requires st.Full? ==> Sized(st.t)
  {
    var t := if st.Full? then st.t.(app := InsertAt(st.t.app, |st.t.app|, d)) else MakeTable(d);
    assert Pow2(5) == 32;
    var t' := AddToBkt(t, hash, d);
    Full(t'.(numItems := t'.numItems + 1))
  }

  /** What holds of a destination that has received exactly the elements of `ds`, in that order. */
  ghost predicate Selected(st: State, hash: Hash, ds: seq<Elem>) {
    if ds == [] then st.Empty?
    else
      && WellFormed(st, hash) && st.Full?
      && st.t.app == ds && st.t.tail == ds[0]
      && SameElements(ds, st.t.chains)
      && st.t.numItems == |ds|
      && (st.t.noexpand <==> st.t.ineff > 1)
  }

  lemma SelectOneOk(st: State, hash: Hash, ds: seq<Elem>, d: Elem)
    requires Selected(st, hash, ds) && d !in ds
    ensures st.Full? ==> Sized(st.t)
    ensures Selected(SelectOne(st, hash, d), hash, ds + [d])
  {
    hide ChainsOk, InSomeChain, AddToBkt, SameElements;
    var t := if st.Full? then st.t.(app := InsertAt(st.t.app, |st.t.app|, d)) else MakeTable(d);
    assert ds + [d] == t.app;
    NewTableOk(hash, d);
    NoDupInsertAt(ds, |ds|, d);
    if st.Full? { ChainedIsListed(ds, t.chains, d); }
    AddToBktOk(t, hash, d);
    SameElementsGrow(ds, ds + [d], t.chains, AddToBkt(t, hash, d).chains, d);
  }

  ghost function Select(hash: Hash, ds: seq<Elem>): (st: State)
    requires NoDup(ds)
    ensures Selected(st, hash, ds)
  {
    if ds == [] then Empty
    else
      var init, d := ds[..|ds| - 1], ds[|ds| - 1];
      var st := Select(hash, init);
      SelectOneOk(st, hash, init, d);
      assert init + [d] == ds;
      SelectOne(st, hash, d)
  }

  // ----- doubling with an item too few

  /** The destination between the push and the doubling. */
  function Pushed(t: Tab, hash: Hash, d: Elem): Tab
    requires Sized(t)
  {
    t.(app := InsertAt(t.app, |t.app|, d), chains := Push(t.chains, Home(t, hash, d.key), d))
  }

  lemma PushedOk(st: State, hash: Hash, ds: seq<Elem>, d: Elem)
    requires Selected(st, hash, ds) && ds != [] && d !in ds
    ensures var t := Pushed(st.t, hash, d);
            WellFormed(Full(t), hash) && SameElements(t.app, t.chains) && |t.app| == |ds| + 1
  {
    hide ChainsOk, InSomeChain, SameElements;
    ChainedIsListed(ds, st.t.chains, d);
    assert Homes(hash, st.t.log2)(d) == Home(st.t, hash, d.key);
    PushOk(st.t.chains, Homes(hash, st.t.log2), d);
    NoDupInsertAt(ds, |ds|, d);
    SameElementsGrow(ds, InsertAt(ds, |ds|, d), st.t.chains, Pushed(st.t, hash, d).chains, d);
  }

  lemma SelectOneSplits(t: Tab, hash: Hash, d: Elem)
    requires Sized(t)
    ensures var t' := Pushed(t, hash, d);
            SelectOne(Full(t), hash, d).t ==
            (if Doubles(t, hash, d) then Expand(t', hash) else t').(numItems := t.numItems + 1)
  {
    hide Rechain, TotalExcess, Mults, CeilByShift;
  }

  /** A selection that doubles its destination stores an ideal chain length that is right for what the
      table then holds, and a nonideal_items that counts what it says, exactly when the number of elements
      selected before is no multiple of the new bucket count. */
  lemma SelectDoublingIff(st: State, hash: Hash, ds: seq<Elem>, d: Elem)
    requires Selected(st, hash, ds) && ds != [] && d !in ds && Doubles(st.t, hash, d)
    ensures var t, n := SelectOne(st, hash, d).t, 2 * |st.t.chains|;
            var exact := |ds| % n != 0;
            var ideal := if exact then t.ideal else t.ideal + 1;
            && |t.chains| == n && t.numItems == |ds| + 1
            && IsCeil(ideal, |ds| + 1, n) && (IsCeil(t.ideal, |ds| + 1, n) <==> exact)
            && (t.nonideal == TotalExcess(t.chains, ideal) <==> exact)
  {
    hide ChainsOk, InSomeChain, SameElements, Expand, IsCeil, TotalExcess, LongerThan, SelectOne, InsertAt, NoDup;
    PushedOk(st, hash, ds, d);
    SelectOneSplits(st.t, hash, d);
    DoublingMeaning(Pushed(st.t, hash, d), hash, 0);
    DoublingOneShort(Pushed(st.t, hash, d), hash);
  }

  // ----- consequences of the stale tail

  /** HASH_FSCK passes on every selection. */
  lemma SelectPassesFsck(hash: Hash, ds: seq<Elem>)
    requires NoDup(ds)
    ensures Fsck(Select(hash, ds))
  {
    var st := Select(hash, ds);
    if ds != [] { ChainTotal(st.t.app, st.t.chains, Homes(hash, st.t.log2)); }
  }

  lemma SelectedInvIff(st: State, hash: Hash, ds: seq<Elem>)
    requires Selected(st, hash, ds)
    ensures Inv(st, hash) <==> |ds| <= 1
  {
    hide ChainsOk, SameElements, Sized;
    if |ds| > 1 { assert ds[0] != ds[|ds| - 1]; }
  }

  /** The table invariant holds of the result exactly when at most one element was selected. */
  lemma SelectInvIff(hash: Hash, ds: seq<Elem>)
    requires NoDup(ds)
    ensures Inv(Select(hash, ds), hash) <==> |ds| <= 1
  {
    hide Selected, Inv;
    SelectedInvIff(Select(hash, ds), hash, ds);
  }

  lemma StaleTail(ds: seq<Elem>, e: Elem)
    requires ds != []
    ensures UpTo(ds, ds[0]) == [ds[0]] && InsertAt(UpTo(ds, ds[0]), 1, e) == [ds[0], e]
  {
  }

  lemma AddToSelection(st: State, hash: Hash, ds: seq<Elem>, e: Elem)
    requires Selected(st, hash, ds) && ds != [] && e !in ds
    ensures var st' := Add(st, hash, e);
            && st'.Full? && st'.t.app == [ds[0], e] && st'.t.numItems == |ds| + 1
            && (|ds| == 1 ==> Inv(st', hash))
  {
    hide ChainsOk, InSomeChain, AddToBkt, SameElements, UpTo, InsertAt, NoDup;
    StaleTail(ds, e);
    ChainedIsListed(ds, st.t.chains, e);
    AddToBktOk(st.t.(app := [ds[0], e], tail := e, numItems := |ds| + 1), hash, e);
    if |ds| == 1 { AddInv(st, hash, e); }
  }

  /** An append to a selection keeps everything selected reachable, and HASH_FSCK content, exactly when
      at most one element was selected; otherwise the list becomes [first selected, appended]. */
  lemma AddAfterSelect(hash: Hash, ds: seq<Elem>, e: Elem)
    requires NoDup(ds) && e !in ds
    ensures WellFormed(Select(hash, ds), hash)
    ensures var st := Add(Select(hash, ds), hash, e);
            && st.Full?
            && (Fsck(st) <==> |ds| <= 1)
            && st.t.app == (if ds == [] then [e] else [ds[0], e])
            && st.t.numItems == |ds| + 1
  {
    hide Add, Inv;
    var st := Select(hash, ds);
    if ds == [] {
      AddInv(st, hash, e);
      InvPassesFsck(Add(st, hash, e), hash);
      InvCounts(Add(st, hash, e), hash);
    } else {
      AddToSelection(st, hash, ds, e);
      if |ds| == 1 { InvPassesFsck(Add(st, hash, e), hash); }
    }
  }

  /** An ordered add to a selection keeps HASH_FSCK content exactly when it finds a greater element to go
      before, or only one element was selected; at the end it cuts the list as an append does. */
  lemma OrderedAddAfterSelect(st: State, hash: Hash, cmp: Cmp, ds: seq<Elem>, e: Elem)
    requires Selected(st, hash, ds) && ds != [] && e !in ds
    ensures var st', inside := AddInorder(st, hash, cmp, e), InsertPos(cmp, ds, e) < |ds|;
            && st'.Full? && st'.t.numItems == |ds| + 1
            && st'.t.app == (if inside then Insert(cmp, ds, e) else [ds[0], e])
            && st'.t.tail == (if inside then ds[0] else e)
            && (Fsck(st') <==> |ds| == 1 || inside)
  {
    hide Inv, ChainsOk, SameElements, AddToBkt, UpTo, NoDup, InsertAt, Add, InsertPos, OrderedList, Fsck;
    if InsertPos(cmp, ds, e) < |ds| {
      OrderedInside(st, hash, cmp, ds, e);
    } else {
      AddToSelection(st, hash, ds, e);
      AddTail(st, hash, e);
      AddCounts(st, hash, ds, e);
      OrderedAtEnd(st, hash, cmp, e);
    }
  }

  lemma OrderedInside(st: State, hash: Hash, cmp: Cmp, ds: seq<Elem>, e: Elem)
    requires Selected(st, hash, ds) && ds != [] && e !in ds && InsertPos(cmp, ds, e) < |ds|
    ensures var st' := AddInorder(st, hash, cmp, e);
            && st'.Full? && st'.t.app == Insert(cmp, ds, e) && st'.t.tail == ds[0]
            && st'.t.numItems == |ds| + 1 && Fsck(st')
  {
    hide ChainsOk, InSomeChain, AddToBkt, SameElements, UpTo, NoDup, InsertAt;
    var k := InsertPos(cmp, ds, e);
    var t := st.t.(app := Insert(cmp, ds, e), numItems := |ds| + 1);
    ChainedIsListed(ds, st.t.chains, e);
    AddToBktOk(t, hash, e);
    NoDupInsertAt(ds, k, e);
    SameElementsGrow(ds, t.app, st.t.chains, AddToBkt(t, hash, e).chains, e);
    var t' := AddToBkt(t, hash, e);
    ChainTotal(t'.app, t'.chains, Homes(hash, t'.log2));
  }

  lemma OrderedAtEnd(st: State, hash: Hash, cmp: Cmp, e: Elem)
    requires WellFormed(st, hash) && st.Full? && InsertPos(cmp, st.t.app, e) == |st.t.app|
    ensures AddInorder(st, hash, cmp, e) == Add(st, hash, e)
  {
  }

  /** A list cut to two elements passes HASH_FSCK only if there was one before. */
  lemma AddCounts(st: State, hash: Hash, ds: seq<Elem>, e: Elem)
    requires Selected(st, hash, ds) && ds != [] && e !in ds
    ensures Fsck(Add(st, hash, e)) <==> |ds| == 1
  {
    hide Inv, Add;
    AddToSelection(st, hash, ds, e);
    if |ds| == 1 { InvPassesFsck(Add(st, hash, e), hash); }
  }

  lemma AddTail(st: State, hash: Hash, e: Elem)
    requires WellFormed(st, hash) && st.Full?
    ensures Add(st, hash, e).t.tail == e
  {
    hide AddToBkt;
    var kept := UpTo(st.t.app, st.t.tail);
    AddToBktFrame(st.t.(app := InsertAt(kept, |kept|, e), tail := e, numItems := st.t.numItems + 1), hash, e);
  }

  /** Deleting the first of several selected elements moves `tail` to the predecessor it does not have;
      deleting any other leaves a selection of the rest. */
  lemma DeleteAfterSelect(st: State, hash: Hash, ds: seq<Elem>, e: Elem)
    requires Selected(st, hash, ds) && |ds| > 1 && e in ds
    ensures NewTail(ds, st.t.tail, e) == null <==> e == ds[0]
    ensures CanDelete(st, e) <==> e != ds[0]
    ensures e != ds[0] ==> Selected(Delete(st, hash, e), hash, RemoveAt(ds, IndexOf(ds, e)))
  {
    var k := IndexOf(ds, e);
    assert Holds(st, e);
    if e != ds[0] {
      hide ChainsOk, InSomeChain, SameElements;
      InHomeChain(st.t.chains, Homes(hash, st.t.log2), e);
      var b := Home(st.t, hash, e.key);
      var j := IndexOf(st.t.chains[b], e);
      NoDupRemoveAt(ds, k);
      DropOk(st.t.chains, Homes(hash, st.t.log2), b, j);
      SameElementsShrink(ds, RemoveAt(ds, k), st.t.chains, Drop(st.t.chains, b, j), e);
    }
  }

  lemma InvCounts(st: State, hash: Hash)
    requires Inv(st, hash) && st.Full?
    ensures st.t.numItems == |st.t.app|
  {
  }

  lemma SortIgnoresTail(t: Tab, tail: Elem, cmp: Cmp)
    requires t.app != []
    ensures SortState(Full(t), cmp) == SortState(Full(t.(tail := tail)), cmp)
  {
  }

  lemma TailMoved(st: State, hash: Hash, ds: seq<Elem>)
    requires Selected(st, hash, ds) && ds != []
    ensures Inv(Full(st.t.(tail := ds[|ds| - 1])), hash)
  {
  }

  /** Sorting a selection repairs it: HASH_SRT sets `tail`. */
  lemma SortAfterSelect(hash: Hash, ds: seq<Elem>, cmp: Cmp)
    requires NoDup(ds)
    ensures Inv(SortState(Select(hash, ds), cmp), hash)
  {
    hide SortState, Inv, WellFormed, NoDup;
    var st := Select(hash, ds);
    if ds == [] {
      EmptyInv(hash);
      SortInv(Empty, hash, cmp);
    } else {
      TailMoved(st, hash, ds);
      SortIgnoresTail(st.t, ds[|ds| - 1], cmp);
      SortInv(Full(st.t.(tail := ds[|ds| - 1])), hash, cmp);
    }
  }

  lemma EmptyInv(hash: Hash)
    ensures Inv(Empty, hash)
  {
  }
}
