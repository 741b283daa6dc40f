/** The promise behind constant-time lookup: as long as expansion has not been given up, no chain reaches
    its bucket's multiple of the capacity threshold, or of the ideal length plus one where that is larger.
    The plain threshold does as long as the ideal length stays below it, and no longer. */
module HashBounds {
  import opened Bits
  import opened Elems
  import opened Seqs
  import opened BucketSpec
  import opened SortSpec
  import opened HashSpec
  import opened HashRuns

  /** The length one multiple stands for: the capacity threshold, unless the last doubling left an ideal
      chain length above it. */
  function Cap(ideal: nat): nat {
    if ideal + 1 > BKT_CAPACITY_THRESH then ideal + 1 else BKT_CAPACITY_THRESH
  }

  ghost predicate ChainsBounded(t: Tab) {
    !t.noexpand ==>
      forall b :: 0 <= b < |t.chains| && b < |t.mult| ==> |t.chains[b]| < (t.mult[b] + 1) * Cap(t.ideal)
  }

  ghost predicate Bounded(st: State) {
    st.Full? ==> ChainsBounded(st.t)
  }

  lemma MultCovers(count: nat, ideal: nat)
    requires ideal >= 1
    ensures count < (Mult(count, ideal) + 1) * Cap(ideal)
  {
    MultBounds(count, ideal);
    hide Mult;
    if count > ideal { WithinMultiple(count, Mult(count, ideal), ideal, Cap(ideal)); }
  }

  lemma WithinMultiple(count: nat, m: nat, ideal: nat, cap: nat)
    requires count <= m * ideal + 1 && ideal < cap && 1 < cap
    ensures count < (m + 1) * cap
  {
  }

  /** The multiplier of a doubling keeps every chain length below the documented multiple of the threshold
      exactly when the ideal length is below the threshold. */
  lemma ThresholdIff(ideal: nat)
    requires ideal >= 1
    ensures (forall count: nat :: count < (Mult(count, ideal) + 1) * BKT_CAPACITY_THRESH)
            <==> ideal < BKT_CAPACITY_THRESH
  {
    if ideal < BKT_CAPACITY_THRESH {
      forall count: nat
        ensures count < (Mult(count, ideal) + 1) * BKT_CAPACITY_THRESH
      {
        MultCovers(count, ideal);
      }
    } else {
      MultBounds(ideal, ideal);
      assert !(ideal < (Mult(ideal, ideal) + 1) * BKT_CAPACITY_THRESH);
    }
  }

  /** A table that breaks it: any doubling that leaves a chain at the threshold or beyond, but not beyond an
      ideal length that large. */
  lemma ThresholdBroken(t: Tab, hash: Hash, b: nat)
    requires t.numItems > 0 && b < |Expand(t, hash).chains|
    requires BKT_CAPACITY_THRESH <= |Expand(t, hash).chains[b]| <= Expand(t, hash).ideal
    ensures Expand(t, hash).mult[b] == 0 && !BelowThreshold(Expand(t, hash))
  {
    hide Rechain, TotalExcess, Mult, CeilByShift;
    var t' := Expand(t, hash);
    MultBounds(|t'.chains[b]|, t'.ideal);
  }

  /** A doubling leaves every chain within the multiple it computes for it. */
  lemma ExpandBounded(t: Tab, hash: Hash)
    requires t.numItems > 0
    ensures ChainsBounded(Expand(t, hash))
  {
    hide Rechain, TotalExcess, Mult, Cap, CeilByShift;
    var t' := Expand(t, hash);
    CeilByShiftIsCeil(t.numItems, t.log2 + 1);
    CeilPositive(t'.ideal, t.numItems, Pow2(t.log2 + 1));
    forall b | 0 <= b < |t'.chains| && b < |t'.mult|
      ensures |t'.chains[b]| < (t'.mult[b] + 1) * Cap(t'.ideal)
    {
      MultCovers(|t'.chains[b]|, t'.ideal);
    }
  }

  /** Without a doubling the bucket added to is still below its threshold. */
  lemma AddToBktBounded(t: Tab, hash: Hash, e: Elem)
    requires Sized(t) && ChainsBounded(t) && t.numItems > 0
    ensures ChainsBounded(AddToBkt(t, hash, e))
  {
    hide Expand;
    var b := Home(t, hash, e.key);
    var t' := t.(chains := Push(t.chains, b, e));
    ExpandBounded(t', hash);
    MulMonotone(BKT_CAPACITY_THRESH, Cap(t.ideal), t.mult[b] + 1);
    assert (t.mult[b] + 1) * Cap(t.ideal) == Cap(t.ideal) * (t.mult[b] + 1);
  }

  lemma AddsBounded(st: State, hash: Hash, cmp: Cmp, e: Elem)
    requires Inv(st, hash) && Bounded(st)
    ensures Bounded(Add(st, hash, e)) && Bounded(AddInorder(st, hash, cmp, e))
  {
    hide AddToBkt, ChainsOk, SameElements, NoDup, UpTo, InsertAt, OrderedList, OrderedTail;
    match st
    case Empty =>
      assert Pow2(5) == 32;
      AddToBktBounded(MakeTable(e).(numItems := 1), hash, e);
    case Full(t) =>
      var kept, app := UpTo(t.app, t.tail), OrderedList(cmp, t.app, t.tail, e);
      AddToBktBounded(t.(app := InsertAt(kept, |kept|, e), tail := e, numItems := t.numItems + 1), hash, e);
      AddToBktBounded(t.(app := app, tail := OrderedTail(cmp, t.app, t.tail, e), numItems := t.numItems + 1), hash, e);
  }

  lemma DeleteBounded(st: State, hash: Hash, e: Elem)
    requires Inv(st, hash) && CanDelete(st, e) && Bounded(st)
    ensures Bounded(Delete(st, hash, e))
  {
    hide ChainsOk, SameElements, NoDup, RemoveAt, IndexOf, Cap;
    InHomeChain(st.t.chains, Homes(hash, st.t.log2), e);
  }

  lemma DropKeyBounded(st: State, hash: Hash, k: Key)
    requires Inv(st, hash) && Bounded(st)
    ensures Bounded(DropKey(st, hash, k))
  {
  }

  lemma ApplyBounded(st: State, hash: Hash, op: Op)
    requires Inv(st, hash) && Enabled(st, hash, op) && Bounded(st)
    ensures Bounded(Apply(st, hash, op))
  {
    hide Inv, Add, AddInorder, Delete, DropKey, ChainsBounded, Sort;
    match op
    case OpAdd(e) => AddsBounded(st, hash, (a, b) => 0, e);
    case OpAddInorder(e, cmp) => AddsBounded(st, hash, cmp, e);
    case OpReplace(e) =>
      DropKeyInv(st, hash, e.key);
      DropKeyBounded(st, hash, e.key);
      AddsBounded(DropKey(st, hash, e.key), hash, (a, b) => 0, e);
    case OpReplaceInorder(e, cmp) =>
      DropKeyInv(st, hash, e.key);
      DropKeyBounded(st, hash, e.key);
      AddsBounded(DropKey(st, hash, e.key), hash, cmp, e);
    case OpDelete(e) =>
      DeleteInv(st, hash, e);
      DeleteBounded(st, hash, e);
    case OpSort(cmp) => SortKeepsTable(st, cmp);
  }

  lemma SortKeepsTable(st: State, cmp: Cmp)
    requires Bounded(st)
    ensures Bounded(SortState(st, cmp))
  {
  }

  /** The documented bound: no chain has reached (expand_mult + 1) times the threshold. */
  ghost predicate BelowThreshold(t: Tab) {
    forall b :: 0 <= b < |t.chains| && b < |t.mult| ==> |t.chains[b]| < (t.mult[b] + 1) * BKT_CAPACITY_THRESH
  }

  lemma BoundedIsDocumented(st: State)
    requires Bounded(st) && st.Full? && !st.t.noexpand && st.t.ideal < BKT_CAPACITY_THRESH
    ensures BelowThreshold(st.t)
  {
  }

  /** In every table that any run builds with any hash function, unless expansion has been given up, each
      chain is shorter than (expand_mult + 1) times the cap, which is the threshold itself as long as the
      ideal length is below it. */
  lemma {:induction false} RunBounded(hash: Hash, st: State, ops: seq<Op>)
    requires Inv(st, hash) && Runnable(st, hash, ops) && Bounded(st)
    ensures Bounded(Run(st, hash, ops))
    ensures var st' := Run(st, hash, ops);
            st'.Full? && !st'.t.noexpand && st'.t.ideal < BKT_CAPACITY_THRESH ==> BelowThreshold(st'.t)
    decreases |ops|
  {
    hide Inv, Apply, Enabled, Bounded, BelowThreshold;
    if ops == [] {
      if st.Full? && !st.t.noexpand && st.t.ideal < BKT_CAPACITY_THRESH { BoundedIsDocumented(st); }
    } else {
      ApplyInv(st, hash, ops[0]);
      ApplyBounded(st, hash, ops[0]);
      RunBounded(hash, Apply(st, hash, ops[0]), ops[1..]);
    }
  }

  // ----- giving up

  /** Expansion is inhibited and the table has `n` buckets. */
  predicate GivenUp(st: State, n: nat) {
    st.Full? && st.t.noexpand && |st.t.chains| == n
  }

  lemma AddsNeverDouble(st: State, hash: Hash, cmp: Cmp, e: Elem, n: nat)
    requires Inv(st, hash) && GivenUp(st, n)
    ensures GivenUp(Add(st, hash, e), n) && GivenUp(AddInorder(st, hash, cmp, e), n)
  {
    hide ChainsOk, SameElements, NoDup, Expand, UpTo, InsertAt, OrderedList, OrderedTail;
  }

  lemma DeleteNeverDoubles(st: State, hash: Hash, e: Elem, n: nat)
    requires Inv(st, hash) && CanDelete(st, e) && GivenUp(st, n) && |st.t.app| > 1
    ensures GivenUp(Delete(st, hash, e), n)
  {
    hide ChainsOk, SameElements, NoDup, RemoveAt, IndexOf;
    InHomeChain(st.t.chains, Homes(hash, st.t.log2), e);
  }

  /** Once expansion is inhibited no operation doubles the table any more, as long as it is not emptied. */
  lemma StaysGivenUp(st: State, hash: Hash, op: Op, n: nat)
    requires Inv(st, hash) && Enabled(st, hash, op) && GivenUp(st, n) && |st.t.app| > 1
    ensures GivenUp(Apply(st, hash, op), n)
  {
    hide Inv, Add, AddInorder, Delete, GivenUp, Sort;
    match op
    case OpAdd(e) => AddsNeverDouble(st, hash, (a, b) => 0, e, n);
    case OpAddInorder(e, cmp) => AddsNeverDouble(st, hash, cmp, e, n);
    case OpReplace(e) =>
      DropKeyNeverDoubles(st, hash, e.key, n);
      AddsNeverDouble(DropKey(st, hash, e.key), hash, (a, b) => 0, e, n);
    case OpReplaceInorder(e, cmp) =>
      DropKeyNeverDoubles(st, hash, e.key, n);
      AddsNeverDouble(DropKey(st, hash, e.key), hash, cmp, e, n);
    case OpDelete(e) =>
      DeleteInv(st, hash, e);
      DeleteNeverDoubles(st, hash, e, n);
    case OpSort(cmp) => SortNeverDoubles(st, cmp, n);
  }

  lemma DropKeyNeverDoubles(st: State, hash: Hash, k: Key, n: nat)
    requires Inv(st, hash) && GivenUp(st, n) && |st.t.app| > 1
    ensures Inv(DropKey(st, hash, k), hash) && GivenUp(DropKey(st, hash, k), n)
  {
    hide Delete, GivenUp;
    DropKeyInv(st, hash, k);
    var prior := Find(st, hash, k);
    if prior != null {
      FindOk(st, hash, k);
      DeleteInv(st, hash, prior);
      DeleteNeverDoubles(st, hash, prior, n);
    }
  }

  lemma SortNeverDoubles(st: State, cmp: Cmp, n: nat)
    requires GivenUp(st, n)
    ensures GivenUp(SortState(st, cmp), n)
  {
    hide Sort;
  }
}
