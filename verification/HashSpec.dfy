/** The whole table as a value: what each uthash operation does to the application list, the bucket
    chains and the counters, and what every run of operations keeps. */
module HashSpec {
  import opened Bits
  import opened Elems
  import opened Seqs
  import opened BucketSpec
  import opened SortSpec

  datatype Tab = Tab(app: seq<Elem>, tail: Elem, chains: seq<seq<Elem>>, mult: seq<nat>, log2: nat,
                     numItems: nat, ideal: nat, nonideal: nat, ineff: nat, noexpand: bool)

  /** `Empty` is a NULL head: no table is allocated. */
  datatype State = Empty | Full(t: Tab)

  type Hash = Key -> nat

  // ----- operations

  function MakeTable(e: Elem): Tab {
    Tab([e], e, Empties(INITIAL_NUM_BUCKETS), seq(INITIAL_NUM_BUCKETS, _ => 0), INITIAL_NUM_BUCKETS_LOG2,
        0, 0, 0, 0, false)
  }

  /** HASH_EXPAND_BUCKETS. */
  function Expand(t: Tab, hash: Hash): Tab {
    var log2 := t.log2 + 1;
    var chains := Rechain(t.chains, Homes(hash, log2));
    var ideal := CeilByShift(t.numItems, log2);
    var nonideal := TotalExcess(chains, ideal);
    var ineff := if nonideal > Shr(t.numItems, 1) then t.ineff + 1 else 0;
    t.(chains := chains, mult := Mults(chains, ideal), log2 := log2, ideal := ideal,
       nonideal := nonideal, ineff := ineff, noexpand := t.noexpand || ineff > 1)
  }

  predicate Sized(t: Tab) {
    |t.chains| == |t.mult| == Pow2(t.log2)
  }

  function Home(t: Tab, hash: Hash, k: Key): (b: nat)
    requires Sized(t)
    ensures b < |t.chains|
  {
    MaskIsMod(hash(k), t.log2);
    BitAnd(hash(k), Pow2(t.log2) - 1)
  }

  /** Whether adding `e` to its bucket doubles the table. */
  predicate Doubles(t: Tab, hash: Hash, e: Elem)
    requires Sized(t)
  {
    var b := Home(t, hash, e.key);
    |t.chains[b]| + 1 >= (t.mult[b] + 1) * BKT_CAPACITY_THRESH && !t.noexpand
  }

  /** HASH_ADD_TO_BKT. */
  function AddToBkt(t: Tab, hash: Hash, e: Elem): Tab
    requires Sized(t)
  {
    var t' := t.(chains := Push(t.chains, Home(t, hash, e.key), e));
    if Doubles(t, hash, e) then Expand(t', hash) else t'
  }

  /** HASH_ADD_TO_TABLE. */
  function AddToTable(t: Tab, hash: Hash, e: Elem): Tab
    requires Sized(t)
  {
    AddToBkt(t.(numItems := t.numItems + 1), hash, e)
  }

  /** The part of the list that HASH_APPEND_LIST extends: up to the element `tail` points at. */
  function UpTo(s: seq<Elem>, tail: Elem): seq<Elem>
    requires tail in s
  {
    s[..IndexOf(s, tail) + 1]
  }

  /** HASH_ADD. */
  function Add(st: State, hash: Hash, e: Elem): State
    requires WellFormed(st, hash)
  {
    match st
    case Empty => Full(AddToTable(MakeTable(e), hash, e))
    case Full(t) =>
      var kept := UpTo(t.app, t.tail);
      Full(AddToTable(t.(app := InsertAt(kept, |kept|, e), tail := e), hash, e))
  }

  /** The list an ordered add leaves: before the first greater element, else behind `tail`. */
  function OrderedList(cmp: Cmp, app: seq<Elem>, tail: Elem, e: Elem): seq<Elem>
    requires tail in app
  {
    var k, kept := InsertPos(cmp, app, e), UpTo(app, tail);
    if k < |app| then InsertAt(app, k, e) else InsertAt(kept, |kept|, e)
  }

  function OrderedTail(cmp: Cmp, app: seq<Elem>, tail: Elem, e: Elem): Elem {
    if InsertPos(cmp, app, e) < |app| then tail else e
  }

  /** HASH_ADD_INORDER. */
  function AddInorder(st: State, hash: Hash, cmp: Cmp, e: Elem): State
    requires WellFormed(st, hash)
  {
    match st
    case Empty => Full(AddToTable(MakeTable(e), hash, e))
    case Full(t) =>
      var app, tail := OrderedList(cmp, t.app, t.tail, e), OrderedTail(cmp, t.app, t.tail, e);
      Full(AddToTable(t.(app := app, tail := tail), hash, e))
  }

  /** Where HASH_DELETE_HH leaves `tail`: only the element it points at takes it along, to its predecessor. */
  function NewTail(app: seq<Elem>, tail: Elem, e: Elem): Elem?
    requires e in app
  {
    if e == tail then At(app, IndexOf(app, e) - 1) else tail
  }

  /** HASH_DELETE: removing the only element frees the table. */
  function Delete(st: State, hash: Hash, e: Elem): State
    requires WellFormed(st, hash) && CanDelete(st, e)
  {
    var t := st.t;
    if |t.app| == 1 then Empty
    else
      var app := RemoveAt(t.app, IndexOf(t.app, e));
      var b := Home(t, hash, e.key);
      InHomeChain(t.chains, Homes(hash, t.log2), e);
      Full(t.(app := app, tail := NewTail(t.app, t.tail, e), chains := Drop(t.chains, b, IndexOf(t.chains[b], e)),
              numItems := t.numItems - 1))
  }

  /** HASH_FIND. */
  function Find(st: State, hash: Hash, k: Key): Elem?
    requires WellFormed(st, hash)
  {
    match st
    case Empty => null
    case Full(t) => FindKey(t.chains[Home(t, hash, k)], k)
  }

  /** HASH_SRT. */
  function SortState(st: State, cmp: Cmp): State {
    match st
    case Empty => Empty
    case Full(t) =>
      var app := Sort(cmp, t.app, 1);
      if app == [] then st else Full(t.(app := app, tail := app[|app| - 1]))
  }

  // ----- invariants

  /** Enough order for every operation to work on: both structures are duplicate-free, chains are
      bucketed right, `tail` is somewhere on the list. */
  ghost predicate WellFormed(st: State, hash: Hash) {
    st.Full? ==>
      var t := st.t;
      && t.app != [] && NoDup(t.app) && t.tail in t.app
      && Sized(t) && ChainsOk(t.chains, Homes(hash, t.log2))
      && t.numItems > 0
  }

  ghost predicate Holds(st: State, e: Elem) {
    st.Full? && e in st.t.app && InSomeChain(st.t.chains, e)
  }

  /** The table holds `e`, and deleting it leaves `tail` on an element, unless it frees the table. */
  ghost predicate CanDelete(st: State, e: Elem) {
    Holds(st, e) && (|st.t.app| > 1 ==> NewTail(st.t.app, st.t.tail, e) != null)
  }

  /** The two-list invariant of a table. */
  ghost predicate Inv(st: State, hash: Hash) {
    && WellFormed(st, hash)
    && (st.Full? ==>
          var t := st.t;
          && SameElements(t.app, t.chains)
          && t.tail == t.app[|t.app| - 1]
          && t.numItems == |t.app|
          && (t.noexpand <==> t.ineff > 1))
  }

  // ----- each operation keeps the invariant

  lemma ExpandOk(t: Tab, hash: Hash)
    requires Sized(t) && ChainsOk(t.chains, Homes(hash, t.log2))
    requires !t.noexpand
    ensures var t' := Expand(t, hash);
            && Sized(t') && ChainsOk(t'.chains, Homes(hash, t'.log2))
            && (forall x :: InSomeChain(t'.chains, x) <==> InSomeChain(t.chains, x))
            && (t'.noexpand <==> t'.ineff > 1)
  {
    forall e | InSomeChain(t.chains, e)
      ensures Homes(hash, t.log2 + 1)(e) < 2 * |t.chains|
    {
      HomesIsMod(hash, t.log2 + 1, e);
    }
    RechainOk(t.chains, Homes(hash, t.log2), Homes(hash, t.log2 + 1));
  }

  /** What a doubling means, also in the middle of an add or a selection, where num_items may be off.
      Nothing is lost or invented; an element of old bucket `i` is in `i` or `i + n`, taken in reverse; the
      ideal length is the ceiling of num_items over buckets; nonideal_items counts the chain positions
      beyond it; and expand_mult bounds each chain within one ideal length. */
  lemma DoublingMeaning(t: Tab, hash: Hash, b: nat)
    requires WellFormed(Full(t), hash) && SameElements(t.app, t.chains) && !t.noexpand && b < 2 * |t.chains|
    ensures var t', n := Expand(t, hash), |t.chains|;
            && |t'.chains| == |t'.mult| == 2 * n && t'.app == t.app
            && SameElements(t.app, t'.chains) && Sum(Lengths(t'.chains)) == |t.app|
            && t'.chains[b] == LatestFirst(t.chains[if b < n then b else b - n], Homes(hash, t.log2 + 1), b)
            && IsCeil(t'.ideal, t.numItems, 2 * n)
            && t'.nonideal == TotalExcess(t'.chains, t'.ideal)
            && (|t'.chains[b]| <= t'.ideal ==> t'.mult[b] == 0)
            && (|t'.chains[b]| > t'.ideal ==>
                  (t'.mult[b] - 1) * t'.ideal < |t'.chains[b]| <= t'.mult[b] * t'.ideal + 1)
  {
    hide ChainsOk, InSomeChain, SameElements, NoDup, CeilByShift, Rechain, TotalExcess, Mult, LatestFirst, IsCeil;
    ExpandOk(t, hash);
    var t' := Expand(t, hash);
    SameElementsKept(t.app, t.chains, t'.chains);
    ChainTotal(t.app, t'.chains, Homes(hash, t.log2 + 1));
    RechainSplits(t.chains, hash, t.log2, b);
    CeilByShiftIsCeil(t.numItems, t.log2 + 1);
    CeilPositive(t'.ideal, t.numItems, 2 * |t.chains|);
    MultBounds(|t'.chains[b]|, t'.ideal);
  }

  /** A doubling while num_items is one short of the elements, as HASH_SELECT makes it: ideal_chain_maxlen is
      the ceiling it stands for, and nonideal_items the number of elements beyond that ceiling, exactly when
      the short num_items is no multiple of the new bucket count. Otherwise the ideal length is one too
      small and nonideal_items too large by one for each chain that is longer than it. */
  lemma DoublingOneShort(t: Tab, hash: Hash)
    requires WellFormed(Full(t), hash) && SameElements(t.app, t.chains) && !t.noexpand && t.numItems + 1 == |t.app|
    ensures var t', n := Expand(t, hash), 2 * |t.chains|;
            var exact := t.numItems % n != 0;
            var ideal := if exact then t'.ideal else t'.ideal + 1;
            && IsCeil(ideal, |t.app|, n) && (IsCeil(t'.ideal, |t.app|, n) <==> exact)
            && t'.nonideal == TotalExcess(t'.chains, ideal) + (if exact then 0 else LongerThan(t'.chains, t'.ideal))
            && (t'.nonideal == TotalExcess(t'.chains, ideal) <==> exact)
  {
    hide ChainsOk, InSomeChain, SameElements, NoDup, CeilByShift, Rechain, TotalExcess, LongerThan, Mult, IsCeil;
    var t', n := Expand(t, hash), 2 * |t.chains|;
    DoublingMeaning(t, hash, 0);
    CeilOneShort(t.numItems, t.log2 + 1);
    if t.numItems % n == 0 {
      ExcessOneShort(t'.chains, t'.ideal);
      if LongerThan(t'.chains, t'.ideal) == 0 {
        SomeChainLonger(t'.chains, t'.ideal);
        CeilOfMultiple(t'.ideal, t.numItems, n);
      }
    }
  }

  lemma CeilOfMultiple(c: nat, m: nat, b: nat)
    requires IsCeil(c, m, b) && b > 0 && m % b == 0
    ensures c * b == m
  {
    DivModParts(m, b);
    assert m / b * b >= m;
  }

  lemma CeilPositive(c: nat, n: nat, b: nat)
    requires IsCeil(c, n, b) && n > 0
    ensures c > 0
  {
  }

  lemma SameElementsKept(s: seq<Elem>, c: seq<seq<Elem>>, c': seq<seq<Elem>>)
    requires SameElements(s, c)
    requires forall x :: InSomeChain(c', x) <==> InSomeChain(c, x)
    ensures SameElements(s, c')
  {
    forall b, i | 0 <= b < |c'| && 0 <= i < |c'[b]|
      ensures c'[b][i] in s
    {
      assert InSomeChain(c', c'[b][i]);
      ChainedIsListed(s, c, c'[b][i]);
    }
  }

  lemma ExpandFrame(t: Tab, hash: Hash)
    ensures var t' := Expand(t, hash); t'.app == t.app && t'.tail == t.tail && t'.numItems == t.numItems
  {
  }

  /** Adding to a bucket, with or without a doubling, adds exactly the one element. */
  lemma AddToBktOk(t: Tab, hash: Hash, e: Elem)
    requires Sized(t) && ChainsOk(t.chains, Homes(hash, t.log2)) && !InSomeChain(t.chains, e)
    ensures var t' := AddToBkt(t, hash, e);
            && Sized(t') && ChainsOk(t'.chains, Homes(hash, t'.log2))
            && (forall x :: InSomeChain(t'.chains, x) <==> x == e || InSomeChain(t.chains, x))
            && t'.app == t.app && t'.tail == t.tail && t'.numItems == t.numItems
            && ((t.noexpand <==> t.ineff > 1) ==> (t'.noexpand <==> t'.ineff > 1))
  {
    hide ChainsOk, InSomeChain, Expand;
    var b := Home(t, hash, e.key);
    PushOk(t.chains, Homes(hash, t.log2), e);
    var t' := t.(chains := Push(t.chains, b, e));
    if !t.noexpand {
      ExpandOk(t', hash);
      ExpandFrame(t', hash);
    }
  }

  lemma SameElementsGrow(s: seq<Elem>, s': seq<Elem>, c: seq<seq<Elem>>, c': seq<seq<Elem>>, e: Elem)
    requires SameElements(s, c)
    requires forall x :: x in s' <==> x == e || x in s
    requires forall x :: InSomeChain(c', x) <==> x == e || InSomeChain(c, x)
    ensures SameElements(s', c')
  {
    forall b, i | 0 <= b < |c'| && 0 <= i < |c'[b]|
      ensures c'[b][i] in s'
    {
      var x := c'[b][i];
      assert InSomeChain(c', x);
      if x != e {
        var d :| 0 <= d < |c| && x in c[d];
        var j :| 0 <= j < |c[d]| && c[d][j] == x;
      }
    }
  }

  lemma SameElementsShrink(s: seq<Elem>, s': seq<Elem>, c: seq<seq<Elem>>, c': seq<seq<Elem>>, e: Elem)
    requires SameElements(s, c)
    requires forall x :: x in s' <==> x != e && x in s
    requires forall x :: InSomeChain(c', x) <==> x != e && InSomeChain(c, x)
    ensures SameElements(s', c')
  {
    forall b, i | 0 <= b < |c'| && 0 <= i < |c'[b]|
      ensures c'[b][i] in s'
    {
      var x := c'[b][i];
      assert InSomeChain(c', x);
      var d :| 0 <= d < |c| && x in c[d];
      var j :| 0 <= j < |c[d]| && c[d][j] == x;
    }
  }

  lemma ChainedIsListed(s: seq<Elem>, c: seq<seq<Elem>>, e: Elem)
    requires SameElements(s, c)
    ensures InSomeChain(c, e) ==> e in s
  {
  }

  /** Both ways of adding insert one element at some position of the list and one into a chain. */
  lemma InsertedInv(t: Tab, hash: Hash, e: Elem, k: nat)
    requires Inv(Full(t), hash) && e !in t.app && k <= |t.app|
    ensures var app := InsertAt(t.app, k, e);
            Inv(Full(AddToTable(t.(app := app, tail := app[|t.app|]), hash, e)), hash)
  {
    hide ChainsOk, InSomeChain, AddToBkt, SameElements, InsertAt;
    var app := InsertAt(t.app, k, e);
    NoDupInsertAt(t.app, k, e);
    InsertAtIndex(t.app, k, e, |t.app|);
    ChainedIsListed(t.app, t.chains, e);
    var t1 := t.(app := app, tail := app[|t.app|], numItems := t.numItems + 1);
    AddToBktOk(t1, hash, e);
    SameElementsGrow(t.app, app, t.chains, AddToBkt(t1, hash, e).chains, e);
  }

  lemma NewTableOk(hash: Hash, e: Elem)
    ensures var t := MakeTable(e);
            && Sized(t) && ChainsOk(t.chains, Homes(hash, t.log2)) && !InSomeChain(t.chains, e)
            && SameElements([], t.chains)
  {
  }

  lemma MakeTableInv(hash: Hash, e: Elem)
    ensures Inv(Full(AddToTable(MakeTable(e), hash, e)), hash)
  {
    hide Expand;
    var t := MakeTable(e);
    NewTableOk(hash, e);
    AddToBktOk(t.(numItems := 1), hash, e);
    SameElementsGrow([], [e], t.chains, AddToBkt(t.(numItems := 1), hash, e).chains, e);
  }

  lemma UpToTail(s: seq<Elem>)
    requires s != [] && NoDup(s)
    ensures UpTo(s, s[|s| - 1]) == s
  {
  }

  lemma AddInv(st: State, hash: Hash, e: Elem)
    requires Inv(st, hash) && (st.Full? ==> e !in st.t.app)
    ensures Inv(Add(st, hash, e), hash)
    ensures Add(st, hash, e).Full? && Add(st, hash, e).t.app == (if st.Full? then st.t.app else []) + [e]
  {
    match st
    case Empty =>
      MakeTableInv(hash, e);
      AddToBktOk(MakeTable(e).(numItems := 1), hash, e);
    case Full(t) =>
      UpToTail(t.app);
      InsertedInv(t, hash, e, |t.app|);
  }

  /** While `tail` is last, an ordered add is the ordered insertion and leaves it last. */
  lemma OrderedIsInsert(cmp: Cmp, app: seq<Elem>, e: Elem)
    requires NoDup(app) && app != []
    ensures var tail, r := app[|app| - 1], Insert(cmp, app, e);
            OrderedList(cmp, app, tail, e) == r && OrderedTail(cmp, app, tail, e) == r[|app|]
  {
    UpToTail(app);
    InsertAtIndex(app, InsertPos(cmp, app, e), e, |app|);
  }

  lemma AddInorderInv(st: State, hash: Hash, cmp: Cmp, e: Elem)
    requires Inv(st, hash) && (st.Full? ==> e !in st.t.app)
    ensures Inv(AddInorder(st, hash, cmp, e), hash)
    ensures AddInorder(st, hash, cmp, e).Full?
    ensures AddInorder(st, hash, cmp, e).t.app == Insert(cmp, if st.Full? then st.t.app else [], e)
  {
    match st
    case Empty =>
      MakeTableInv(hash, e);
      AddToBktOk(MakeTable(e).(numItems := 1), hash, e);
    case Full(t) =>
      hide InsertAt, AddToBkt, ChainsOk, SameElements, NoDup, OrderedList, OrderedTail;
      var app := Insert(cmp, t.app, e);
      OrderedIsInsert(cmp, t.app, e);
      InsertedInv(t, hash, e, InsertPos(cmp, t.app, e));
      AddToBktFrame(t.(app := app, tail := app[|t.app|], numItems := t.numItems + 1), hash, e);
  }

  lemma AddToBktFrame(t: Tab, hash: Hash, e: Elem)
    requires Sized(t)
    ensures var t' := AddToBkt(t, hash, e); t'.app == t.app && t'.tail == t.tail && t'.numItems == t.numItems
  {
  }

  /** While `tail` is last, a delete leaves it last. */
  lemma NewTailIsLast(app: seq<Elem>, e: Elem)
    requires NoDup(app) && e in app && |app| > 1
    ensures NewTail(app, app[|app| - 1], e) == RemoveAt(app, IndexOf(app, e))[|app| - 2]
  {
  }

  lemma DeleteInv(st: State, hash: Hash, e: Elem)
    requires Inv(st, hash) && st.Full? && e in st.t.app
    ensures CanDelete(st, e)
    ensures Inv(Delete(st, hash, e), hash)
    ensures var app := RemoveAt(st.t.app, IndexOf(st.t.app, e));
            if app == [] then Delete(st, hash, e).Empty?
            else Delete(st, hash, e).Full? && Delete(st, hash, e).t.app == app
  {
    hide ChainsOk;
    InHomeChain(st.t.chains, Homes(hash, st.t.log2), e);
    if |st.t.app| > 1 {
      NewTailIsLast(st.t.app, e);
      LeftoversInv(st, hash, e);
    }
  }

  lemma LeftoversInv(st: State, hash: Hash, e: Elem)
    requires Inv(st, hash) && CanDelete(st, e) && |st.t.app| > 1
    ensures Inv(Delete(st, hash, e), hash)
  {
    hide ChainsOk, InSomeChain, SameElements, RemoveAt, NewTail;
    var t, home := st.t, Homes(hash, st.t.log2);
    InHomeChain(t.chains, home, e);
    var k, b := IndexOf(t.app, e), Home(t, hash, e.key);
    var j := IndexOf(t.chains[b], e);
    NewTailIsLast(t.app, e);
    NoDupRemoveAt(t.app, k);
    DropOk(t.chains, home, b, j);
    SameElementsShrink(t.app, RemoveAt(t.app, k), t.chains, Drop(t.chains, b, j), e);
  }

  lemma SortInv(st: State, hash: Hash, cmp: Cmp)
    requires Inv(st, hash)
    ensures Inv(SortState(st, cmp), hash)
    ensures SortState(st, cmp).Full? == st.Full?
    ensures st.Full? ==> SortState(st, cmp).t.app == Sort(cmp, st.t.app, 1)
  {
    if st.Full? {
      var t, app := st.t, Sort(cmp, st.t.app, 1);
      hide Sort, InSomeChain;
      SortPermutes(cmp, t.app, 1);
      NoDupPermuted(t.app, app);
      forall b, i | 0 <= b < |t.chains| && 0 <= i < |t.chains[b]|
        ensures t.chains[b][i] in app
      {
        assert t.chains[b][i] in t.app;
      }
      assert SameElements(app, t.chains);
    }
  }

  // ----- finding

  /** HASH_FIND misses nothing and invents nothing, for any hash function. */
  lemma FindOk(st: State, hash: Hash, k: Key)
    requires Inv(st, hash)
    ensures Find(st, hash, k) != null ==> st.Full? && Find(st, hash, k) in st.t.app && Find(st, hash, k).key == k
    ensures Find(st, hash, k) == null ==> st.Empty? || forall i :: 0 <= i < |st.t.app| ==> st.t.app[i].key != k
  {
    if st.Full? {
      var t := st.t;
      var b := Home(t, hash, k);
      var c := t.chains[b];
      FindKeyOk(c, k);
      var r := FindKey(c, k);
      if r != null {
        var j :| 0 <= j < |c| && c[j] == r;
        assert t.chains[b][j] in t.app;
      }
      forall i | 0 <= i < |t.app| && t.app[i].key == k
        ensures r != null
      {
        assert t.app[i] in t.app;
        InHomeChain(t.chains, Homes(hash, t.log2), t.app[i]);
        var j :| 0 <= j < |c| && c[j] == t.app[i];
      }
    }
  }

  // ----- HASH_FSCK

  /** What HASH_FSCK compares, once every link is in place: the chain lengths add up to num_items and so
      does the length of the list walked from the head. */
  predicate Fsck(st: State) {
    st.Full? ==> Sum(Lengths(st.t.chains)) == st.t.numItems && |st.t.app| == st.t.numItems
  }

  lemma InvPassesFsck(st: State, hash: Hash)
    requires Inv(st, hash)
    ensures Fsck(st)
  {
    if st.Full? {
      ChainTotal(st.t.app, st.t.chains, Homes(hash, st.t.log2));
    }
  }
}
