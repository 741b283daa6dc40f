/** The uthash macros as methods on the caller's head pointer. Every method is proved to do to the
    pointers exactly what HashSpec says it does to the table's value. */
module UtHash {
  import opened Bits
  import opened Elems
  import opened Seqs
  import opened BucketSpec
  import opened SortSpec
  import opened HashSpec
  import opened HashRuns
  import opened Chains
  import opened AppList
  import opened ListSort

  /** The table record and the bucket array hold what `t` says, chains included. The list half of `t`
      (`app` and `tail`) is left to ListHolds. */
  ghost predicate TableHolds(tbl: Table, t: Tab, hash: HashSpec.Hash, u: set<Elem>)
    reads tbl`buckets, tbl`numBuckets, tbl`log2NumBuckets, tbl`numItems, tbl`idealChainMaxlen, tbl`nonidealItems,
          tbl`ineffExpands, tbl`noexpand, tbl.buckets, u`hhPrev, u`hhNext, u`hashv
  {
    && tbl.numBuckets == tbl.buckets.Length && tbl.log2NumBuckets == t.log2
    && tbl.numItems == t.numItems
    && tbl.idealChainMaxlen == t.ideal && tbl.nonidealItems == t.nonideal
    && tbl.ineffExpands == t.ineff && tbl.noexpand == t.noexpand
    && HeadsMatch(tbl.buckets, t.chains) && CountsMatch(tbl.buckets, t.chains, t.mult)
    && AllLinked(t.chains, u) && HashesMatch(hash, u)
  }

  /** The application-order list starts at `head`, `tail` is where the value says, and every element's
      handle points at the table. */
  ghost predicate ListHolds(head: Elem?, tbl: Table, app: seq<Elem>, tail: Elem, u: set<Elem>)
    reads tbl`tail, u`tbl, app`prev, app`next
  {
    && app != [] && head == app[0] && tbl.tail == tail
    && AppLinked(app) && Within(app, u) && TblsMatch(u, tbl)
  }

  ghost predicate TblsMatch(u: set<Elem>, tbl: Table)
    reads u`tbl
  {
    forall e :: e in u ==> e.tbl == tbl
  }

  /** The whole structure reachable from a non-NULL head represents the table value `t`. */
  ghost predicate Represents(head: Elem?, tbl: Table, t: Tab, hash: HashSpec.Hash, u: set<Elem>)
    reads tbl, tbl.buckets, u, t.app
  {
    TableHolds(tbl, t, hash, u) && ListHolds(head, tbl, t.app, t.tail, u)
  }

  method PushInto(tbl: Table, b: nat, e: Elem, ghost t: Tab, ghost hash: HashSpec.Hash, ghost u: set<Elem>)
    returns (count: nat, mult: nat)
    requires TableHolds(tbl, t, hash, u) && ChainsOk(t.chains, Homes(hash, t.log2))
    requires e in u && !InSomeChain(t.chains, e) && b < |t.chains|
    modifies tbl.buckets, u`hhPrev, u`hhNext
    ensures TableHolds(tbl, t.(chains := Push(t.chains, b, e)), hash, u)
    ensures count == |t.chains[b]| + 1 && mult == t.mult[b]
  {
    hide AllLinked, HashesMatch, ChainsOk, InSomeChain;
    var buckets := tbl.buckets;
    buckets[b] := buckets[b].(count := buckets[b].count + 1);
    HeadsKept(buckets, t.chains, b);
    LinkAtFront(buckets, b, e, t.chains, Homes(hash, t.log2), u);
    count, mult := buckets[b].count, buckets[b].expandMult;
  }

  lemma HeadsKept(buckets: array<Bucket>, chains: seq<seq<Elem>>, b: nat)
    requires b < buckets.Length && |chains| == buckets.Length
    requires forall c :: 0 <= c < buckets.Length ==> buckets[c].hhHead == At(chains[c], 0)
    ensures HeadsMatch(buckets, chains)
  {
  }

  lemma HomesAfterDoubling(hash: HashSpec.Hash, log2: nat, u: set<Elem>)
    requires HashesMatch(hash, u)
    ensures Pow2(log2) * 2 == Pow2(log2 + 1)
    ensures HomesAre(u, Homes(hash, log2 + 1), Pow2(log2 + 1))
  {
    forall e | e in u
      ensures Homes(hash, log2 + 1)(e) == BitAnd(e.hashv, Pow2(log2 + 1) - 1) < Pow2(log2 + 1)
    {
      HomesIsMod(hash, log2 + 1, e);
    }
  }

  /** HASH_EXPAND_BUCKETS on the whole table. */
  method ExpandTable(tbl: Table, ghost t: Tab, ghost hash: HashSpec.Hash, ghost u: set<Elem>)
    requires TableHolds(tbl, t, hash, u) && Sized(t) && ChainsOk(t.chains, Homes(hash, t.log2))
    modifies tbl`buckets, tbl`numBuckets, tbl`log2NumBuckets, tbl`idealChainMaxlen, tbl`nonidealItems,
             tbl`ineffExpands, tbl`noexpand, u`hhPrev, u`hhNext
    ensures TableHolds(tbl, HashSpec.Expand(t, hash), hash, u)
    ensures fresh(tbl.buckets)
  {
    hide AllLinked, ChainsOk, HashesMatch, Rechain, Flatten, BitAnd, Shr, CeilByShift, TotalExcess, Mult;
    FlattenNoDup(t.chains, Homes(hash, t.log2));
    HomesAfterDoubling(hash, t.log2, u);
    ExpandBuckets(tbl, t.chains, Homes(hash, t.log2 + 1), u);
  }

  /** HASH_ADD_TO_BKT, expansion included. */
  method AddToBucket(tbl: Table, e: Elem, ghost t: Tab, ghost hash: HashSpec.Hash, ghost u: set<Elem>)
    requires TableHolds(tbl, t, hash, u) && Sized(t) && ChainsOk(t.chains, Homes(hash, t.log2))
    requires e in u && !InSomeChain(t.chains, e)
    modifies tbl`buckets, tbl`numBuckets, tbl`log2NumBuckets, tbl`idealChainMaxlen, tbl`nonidealItems,
             tbl`ineffExpands, tbl`noexpand, tbl.buckets, u`hhPrev, u`hhNext
    ensures TableHolds(tbl, AddToBkt(t, hash, e), hash, u)
    ensures tbl.buckets == old(tbl.buckets) || fresh(tbl.buckets)
  {
    var b := BitAnd(e.hashv, tbl.numBuckets - 1);
    BucketOf(tbl, t, hash, u, e);
    PushOk(t.chains, Homes(hash, t.log2), e);
    hide AllLinked, ChainsOk, HashesMatch, HeadsMatch, CountsMatch, InSomeChain, HashSpec.Expand, BitAnd;
    var count, mult := PushInto(tbl, b, e, t, hash, u);
    if count >= (mult + 1) * BKT_CAPACITY_THRESH && !tbl.noexpand {
      ExpandTable(tbl, t.(chains := Push(t.chains, b, e)), hash, u);
    }
  }

  lemma BucketOf(tbl: Table, t: Tab, hash: HashSpec.Hash, u: set<Elem>, e: Elem)
    requires TableHolds(tbl, t, hash, u) && Sized(t) && e in u
    ensures BitAnd(e.hashv, tbl.numBuckets - 1) == Home(t, hash, e.key) == Homes(hash, t.log2)(e)
  {
  }

  lemma AddToTableFrame(t: Tab, hash: HashSpec.Hash, e: Elem)
    requires Sized(t)
    ensures HashSpec.AddToTable(t, hash, e).app == t.app && HashSpec.AddToTable(t, hash, e).tail == t.tail
  {
  }

  lemma SizedStays(t: Tab, numItems: nat)
    requires Sized(t)
    ensures Sized(t.(numItems := numItems))
  {
  }

  /** HASH_ADD_TO_TABLE. */
  method AddToTable(tbl: Table, e: Elem, ghost t: Tab, ghost hash: HashSpec.Hash, ghost u: set<Elem>)
    requires TableHolds(tbl, t, hash, u) && Sized(t) && ChainsOk(t.chains, Homes(hash, t.log2))
    requires e in u && !InSomeChain(t.chains, e)
    modifies tbl`numItems, tbl`buckets, tbl`numBuckets, tbl`log2NumBuckets, tbl`idealChainMaxlen, tbl`nonidealItems,
             tbl`ineffExpands, tbl`noexpand, tbl.buckets, u`hhPrev, u`hhNext
    ensures TableHolds(tbl, HashSpec.AddToTable(t, hash, e), hash, u)
    ensures tbl.buckets == old(tbl.buckets) || fresh(tbl.buckets)
  {
    hide AllLinked, ChainsOk, HashesMatch, HeadsMatch, CountsMatch, InSomeChain, AddToBkt, Sized;
    tbl.numItems := tbl.numItems + 1;
    ghost var t1 := t.(numItems := t.numItems + 1);
    SizedStays(t, t.numItems + 1);
    assert TableHolds(tbl, t1, hash, u);
    hide TableHolds;
    AddToBucket(tbl, e, t1, hash, u);
  }

  /** An element that is about to join: its handle fields are set, everything else is as it was. */
  lemma Joined(tbl: Table, t: Tab, hash: HashSpec.Hash, u: set<Elem>, e: Elem)
    requires TableHolds(tbl, t, hash, u) && e.hashv == hash(e.key)
    ensures TableHolds(tbl, t, hash, u + {e})
  {
  }

  /** Once the list half of an add is done, HASH_ADD_TO_TABLE completes it. */
  method FinishAdd(head: Elem, tbl: Table, add: Elem, ghost t: Tab, ghost hash: HashSpec.Hash, ghost u: set<Elem>)
    requires TableHolds(tbl, t, hash, u) && ListHolds(head, tbl, t.app, t.tail, u)
    requires Sized(t) && ChainsOk(t.chains, Homes(hash, t.log2)) && add in u && !InSomeChain(t.chains, add)
    modifies tbl, tbl.buckets, u`hhPrev, u`hhNext
    ensures Represents(head, tbl, HashSpec.AddToTable(t, hash, add), hash, u)
    ensures tbl.buckets == old(tbl.buckets) || fresh(tbl.buckets)
  {
    AddToTableFrame(t, hash, add);
    hide TableHolds, ListHolds, ChainsOk, InSomeChain, HashSpec.AddToTable, Sized;
    AddToTable(tbl, add, t, hash, u);
  }

  /** The handle fields every add sets first. The table half does not depend on the list half, so it
      already holds what the value will say once the list is relinked. */
  method Join(tbl: Table, add: Elem, hashv: nat, ghost t: Tab, ghost hash: HashSpec.Hash, ghost u: set<Elem>,
              ghost app: seq<Elem>, ghost tail: Elem)
    requires TableHolds(tbl, t, hash, u) && TblsMatch(u, tbl) && add !in u && hashv == hash(add.key)
    modifies add`hashv, add`tbl
    ensures TableHolds(tbl, t.(app := app, tail := tail), hash, u + {add}) && TblsMatch(u + {add}, tbl)
  {
    hide AllLinked, HeadsMatch, CountsMatch;
    add.hashv := hashv;
    add.tbl := tbl;
    Joined(tbl, t, hash, u, add);
  }

  /** The list half of HASH_ADD_KEYPTR_BYHASHVALUE with a non-NULL head. */
  method JoinAtEnd(head: Elem, tbl: Table, add: Elem, hashv: nat,
                   ghost t: Tab, ghost hash: HashSpec.Hash, ghost u: set<Elem>)
    requires Represents(head, tbl, t, hash, u) && NoDup(t.app) && t.tail in t.app
    requires add !in u && hashv == hash(add.key)
    modifies tbl`tail, u`next, add`hashv, add`tbl, add`next, add`prev
    ensures var kept := UpTo(t.app, t.tail);
            var app := InsertAt(kept, |kept|, add);
            && TableHolds(tbl, t.(app := app, tail := add), hash, u + {add})
            && ListHolds(head, tbl, app, add, u + {add})
  {
    hide UpTo, Within, TblsMatch, TableHolds, InsertAt, NoDup, AppLinked, OpenLinked;
    ghost var kept := UpTo(t.app, t.tail);
    ghost var app: seq<Elem> := InsertAt(kept, |kept|, add);
    AppendReady(t.app, t.tail, u, add);
    Join(tbl, add, hashv, t, hash, u, app, add);
    AppendList(tbl, add, kept);
  }

  /** HASH_ADD_KEYPTR_BYHASHVALUE with a non-NULL head. */
  method AddToExisting(head: Elem, tbl: Table, add: Elem, hashv: nat,
                       ghost t: Tab, ghost hash: HashSpec.Hash, ghost u: set<Elem>)
    requires Represents(head, tbl, t, hash, u) && WellFormed(Full(t), hash)
    requires add !in u && !InSomeChain(t.chains, add) && hashv == hash(add.key)
    modifies tbl, tbl.buckets, u, add
    ensures Represents(head, tbl, HashSpec.Add(Full(t), hash, add).t, hash, u + {add})
    ensures tbl.buckets == old(tbl.buckets) || fresh(tbl.buckets)
  {
    hide Represents, TableHolds, ListHolds, ChainsOk, InSomeChain, HashSpec.AddToTable, InsertAt, UpTo;
    ghost var kept := UpTo(t.app, t.tail);
    JoinAtEnd(head, tbl, add, hashv, t, hash, u);
    FinishAdd(head, tbl, add, t.(app := InsertAt(kept, |kept|, add), tail := add), hash, u + {add});
  }

  lemma AppendReady(app: seq<Elem>, tail: Elem, u: set<Elem>, add: Elem)
    requires AppLinked(app) && NoDup(app) && tail in app && Within(app, u) && add !in u
    ensures var kept := UpTo(app, tail);
            && OpenLinked(kept) && NoDup(kept) && add !in kept && kept != []
            && kept[|kept| - 1] == tail && kept[0] == app[0] && Within(kept, u)
            && Within(InsertAt(kept, |kept|, add), u + {add}) && InsertAt(kept, |kept|, add)[0] == app[0]
  {
  }

  /** The list half of HASH_ADD_KEYPTR_BYHASHVALUE_INORDER with a non-NULL head. */
  method JoinInOrder(head: Elem, tbl: Table, add: Elem, hashv: nat, cmp: Cmp,
                     ghost t: Tab, ghost hash: HashSpec.Hash, ghost u: set<Elem>)
    returns (newHead: Elem)
    requires Represents(head, tbl, t, hash, u) && NoDup(t.app) && t.tail in t.app
    requires add !in u && hashv == hash(add.key)
    modifies tbl`tail, u`next, u`prev, add`hashv, add`tbl, add`next, add`prev
    ensures var app, tail := OrderedList(cmp, t.app, t.tail, add), OrderedTail(cmp, t.app, t.tail, add);
            && TableHolds(tbl, t.(app := app, tail := tail), hash, u + {add})
            && ListHolds(newHead, tbl, app, tail, u + {add})
  {
    hide OrderedList, OrderedTail, InsertAt, InsertPos, Within, TblsMatch, TableHolds, NoDup, AppLinked, IndexOf, UpTo;
    ghost var app, tail := OrderedList(cmp, t.app, t.tail, add), OrderedTail(cmp, t.app, t.tail, add);
    OrderedReady(cmp, t.app, t.tail, u, add);
    Join(tbl, add, hashv, t, hash, u, app, tail);
    newHead := InsertInOrder(tbl, head, add, cmp, t.app, IndexOf(t.app, t.tail));
  }

  lemma OrderedReady(cmp: Cmp, app: seq<Elem>, tail: Elem, u: set<Elem>, add: Elem)
    requires Within(app, u) && add !in u && tail in app
    ensures add !in app && forall e :: e in app ==> e in u
    ensures var k, j, r := InsertPos(cmp, app, add), IndexOf(app, tail), OrderedList(cmp, app, tail, add);
            && r == (if k < |app| then InsertAt(app, k, add) else InsertAt(app[..j + 1], j + 1, add))
            && OrderedTail(cmp, app, tail, add) == (if k < |app| then app[j] else add)
            && r != [] && Within(r, u + {add})
  {
  }

  /** HASH_ADD_KEYPTR_BYHASHVALUE_INORDER with a non-NULL head. */
  method AddInorderToExisting(head: Elem, tbl: Table, add: Elem, hashv: nat, cmp: Cmp,
                              ghost t: Tab, ghost hash: HashSpec.Hash, ghost u: set<Elem>)
    returns (newHead: Elem)
    requires Represents(head, tbl, t, hash, u) && WellFormed(Full(t), hash)
    requires add !in u && !InSomeChain(t.chains, add) && hashv == hash(add.key)
    modifies tbl, tbl.buckets, u, add
    ensures Represents(newHead, tbl, HashSpec.AddInorder(Full(t), hash, cmp, add).t, hash, u + {add})
    ensures tbl.buckets == old(tbl.buckets) || fresh(tbl.buckets)
  {
    hide Represents, TableHolds, ListHolds, ChainsOk, InSomeChain, HashSpec.AddToTable, OrderedList, OrderedTail;
    newHead := JoinInOrder(head, tbl, add, hashv, cmp, t, hash, u);
    ghost var app, tail := OrderedList(cmp, t.app, t.tail, add), OrderedTail(cmp, t.app, t.tail, add);
    FinishAdd(newHead, tbl, add, t.(app := app, tail := tail), hash, u + {add});
  }

  /** HASH_MAKE_TABLE and the first add. */
  method MakeAndAdd(add: Elem, hashv: nat, ghost hash: HashSpec.Hash) returns (tbl: Table)
    requires hashv == hash(add.key)
    modifies add
    ensures fresh(tbl) && fresh(tbl.buckets)
    ensures Represents(add, tbl, HashSpec.AddToTable(MakeTable(add), hash, add), hash, {add})
  {
    hide ChainsOk, HashSpec.AddToTable, Represents, AddToBkt;
    add.hashv := hashv;
    add.next := null;
    add.prev := null;
    tbl := new Table(add);
    add.tbl := tbl;
    NewTableHolds(tbl, add, hash);
    NewTableOk(hash, add);
    FinishAdd(add, tbl, add, MakeTable(add), hash, {add});
  }

  lemma NewTableHolds(tbl: Table, add: Elem, hash: HashSpec.Hash)
    requires tbl.tail == add && tbl.numBuckets == tbl.buckets.Length == INITIAL_NUM_BUCKETS
    requires tbl.log2NumBuckets == INITIAL_NUM_BUCKETS_LOG2
    requires tbl.numItems == tbl.idealChainMaxlen == tbl.nonidealItems == tbl.ineffExpands == 0 && !tbl.noexpand
    requires forall b :: 0 <= b < tbl.buckets.Length ==> tbl.buckets[b] == Bucket(null, 0, 0)
    requires add.hashv == hash(add.key) && add.prev == null && add.next == null && add.tbl == tbl
    ensures TableHolds(tbl, MakeTable(add), hash, {add}) && ListHolds(add, tbl, [add], add, {add})
  {
  }

  /** The table half of HASH_DELETE_HH. */
  method DropFromTable(tbl: Table, del: Elem, ghost t: Tab, ghost hash: HashSpec.Hash, ghost u: set<Elem>,
                       ghost app: seq<Elem>, ghost tail: Elem)
    requires TableHolds(tbl, t, hash, u) && Sized(t) && ChainsOk(t.chains, Homes(hash, t.log2)) && t.numItems > 0
    requires del in u && InSomeChain(t.chains, del)
    modifies tbl`numItems, tbl.buckets, u`hhPrev, u`hhNext
    ensures var b := Home(t, hash, del.key);
            && del in t.chains[b]
            && TableHolds(tbl, t.(app := app, tail := tail, chains := Drop(t.chains, b, IndexOf(t.chains[b], del)),
                                  numItems := t.numItems - 1), hash, u - {del})
  {
    hide AllLinked, ChainsOk, HashesMatch, CountsMatch, InSomeChain, BitAnd, RemoveAt, IndexOf;
    var bkt := BitAnd(del.hashv, tbl.numBuckets - 1);
    BucketOf(tbl, t, hash, u, del);
    InHomeChain(t.chains, Homes(hash, t.log2), del);
    FewerHashes(hash, u, del);
    DelInBkt(tbl.buckets, bkt, del, t.chains, t.mult, Homes(hash, t.log2), u, IndexOf(t.chains[bkt], del));
    tbl.numItems := tbl.numItems - 1;
  }

  lemma FewerHashes(hash: HashSpec.Hash, u: set<Elem>, e: Elem)
    requires HashesMatch(hash, u)
    ensures HashesMatch(hash, u - {e})
  {
  }

  /** The list half of HASH_DELETE_HH when the element is not alone. */
  method Leave(head: Elem, tbl: Table, del: Elem, ghost app: seq<Elem>, ghost tail: Elem, ghost u: set<Elem>)
    returns (newHead: Elem?)
    requires NoDup(app) && |app| > 1 && del in app && NewTail(app, tail, del) != null
    requires ListHolds(head, tbl, app, tail, u)
    modifies tbl`tail, app`next, app`prev
    ensures ListHolds(newHead, tbl, RemoveAt(app, IndexOf(app, del)), NewTail(app, tail, del), u - {del})
  {
    hide NoDup, AppLinked, Within, TblsMatch, RemoveAt, IndexOf;
    ghost var k := IndexOf(app, del);
    LeaveReady(app, tbl, u, k);
    newHead := Unlink(tbl, head, del, app, k);
  }

  lemma LeaveReady(app: seq<Elem>, tbl: Table, u: set<Elem>, k: nat)
    requires NoDup(app) && Within(app, u) && TblsMatch(u, tbl) && k < |app|
    ensures Within(RemoveAt(app, k), u - {app[k]}) && TblsMatch(u - {app[k]}, tbl)
  {
  }

  lemma AloneIff(app: seq<Elem>, e: Elem)
    requires AppLinked(app) && e in app
    ensures e.prev == null && e.next == null <==> |app| == 1
  {
  }

  /** HASH_DELETE_HH. */
  method DeleteElem(head: Elem, tbl: Table, del: Elem, ghost t: Tab, ghost hash: HashSpec.Hash, ghost u: set<Elem>)
    returns (newHead: Elem?)
    requires Represents(head, tbl, t, hash, u) && WellFormed(Full(t), hash) && CanDelete(Full(t), del)
    modifies tbl, tbl.buckets, u
    ensures tbl.buckets == old(tbl.buckets)
    ensures newHead == null <==> HashSpec.Delete(Full(t), hash, del).Empty?
    ensures newHead != null ==> Represents(newHead, tbl, HashSpec.Delete(Full(t), hash, del).t, hash, u - {del})
  {
    hide TableHolds, AppLinked, TblsMatch, ChainsOk, InSomeChain, SameElements, NoDup, RemoveAt, IndexOf, Sized;
    AloneIff(t.app, del);
    InUniverse(t.app, u, del);
    if del.prev == null && del.next == null {
      newHead := null;
    } else {
      ghost var r := RemoveAt(t.app, IndexOf(t.app, del));
      newHead := Leave(head, tbl, del, t.app, t.tail, u);
      DropFromTable(tbl, del, t, hash, u, r, NewTail(t.app, t.tail, del));
    }
  }

  lemma InUniverse(app: seq<Elem>, u: set<Elem>, e: Elem)
    requires Within(app, u) && e in app
    ensures e in u && forall x :: x in app ==> x in u
  {
  }

  /** HASH_FIND with a non-NULL head. */
  method FindElem(head: Elem, key: Key, hashv: nat,
                  ghost tbl: Table, ghost t: Tab, ghost hash: HashSpec.Hash, ghost u: set<Elem>)
    returns (out: Elem?)
    requires Represents(head, tbl, t, hash, u) && WellFormed(Full(t), hash) && hashv == hash(key)
    ensures out == HashSpec.Find(Full(t), hash, key)
  {
    hide AppLinked, ChainsOk, CountsMatch, NoDup, BitAnd, ChainLinked, HashesMatch, FindKey;
    HeadTable(head, tbl, t, hash, u);
    var bkt := BitAnd(hashv, head.tbl.numBuckets - 1);
    assert bkt == Home(t, hash, key);
    out := FindInBkt(head.tbl.buckets[bkt].hhHead, hashv, key, t.chains[bkt], hash, u);
  }

  lemma HeadTable(head: Elem?, tbl: Table, t: Tab, hash: HashSpec.Hash, u: set<Elem>)
    requires Represents(head, tbl, t, hash, u)
    ensures head != null && head.tbl == tbl
  {
  }

  /** HASH_SRT with a non-NULL head: only the list half changes. */
  method SortElems(head: Elem, tbl: Table, cmp: Cmp, ghost t: Tab, ghost hash: HashSpec.Hash, ghost u: set<Elem>)
    returns (newHead: Elem)
    requires Represents(head, tbl, t, hash, u) && NoDup(t.app) && u == (set e | e in t.app)
    modifies tbl`tail, u`prev, u`next
    ensures var app := SortSpec.Sort(cmp, t.app, 1);
            app != [] && Represents(newHead, tbl, t.(app := app, tail := app[|app| - 1]), hash, u)
  {
    hide SortSpec.Sort, NoDup, Within, AllLinked, HeadsMatch, CountsMatch, HashesMatch, TblsMatch, AppLinked;
    SortReady(cmp, t.app, u);
    newHead := SortList(tbl, head, cmp, u, t.app);
  }

  // ----- HASH_FSCK

  /** The inner walk of HASH_FSCK: counts one bucket's chain and checks every hh_prev. */
  method CountChain(first: Elem?, ghost c: seq<Elem>) returns (n: nat, ok: bool)
    requires ChainLinked(c) && first == At(c, 0)
    ensures ok && n == |c|
  {
    var thh, prev: Elem? := first, null;
    n, ok := 0, true;
    while thh != null
      invariant n <= |c| && thh == At(c, n) && prev == At(c, n - 1) && ok
      decreases |c| - n
    {
      if prev != thh.hhPrev {
        ok := false;
      }
      n := n + 1;
      prev := thh;
      thh := thh.hhNext;
    }
  }

  /** The walk over the application order in HASH_FSCK. */
  method CountList(head: Elem, ghost app: seq<Elem>) returns (n: nat, ok: bool)
    requires AppLinked(app) && app != [] && head == app[0]
    ensures ok && n == |app|
  {
    var thh: Elem?, prev: Elem? := head, null;
    n, ok := 0, true;
    while thh != null
      invariant n <= |app| && thh == At(app, n) && prev == At(app, n - 1) && ok
      decreases |app| - n
    {
      n := n + 1;
      if prev != thh.prev {
        ok := false;
      }
      prev := thh;
      thh := thh.next;
    }
  }

  /** HASH_FSCK: on a structure whose links represent `t` it passes exactly when Fsck does. */
  method FsckElems(head: Elem, tbl: Table, ghost t: Tab, ghost hash: HashSpec.Hash, ghost u: set<Elem>)
    returns (ok: bool)
    requires Represents(head, tbl, t, hash, u)
    ensures ok == Fsck(Full(t))
  {
    hide AppLinked, HashesMatch, ChainLinked, Within;
    ok := true;
    var count, i := 0, 0;
    while i < tbl.numBuckets
      invariant 0 <= i <= |t.chains| && ok
      invariant count == Sum(Lengths(t.chains)[..i])
    {
      var n, good := CountChain(tbl.buckets[i].hhHead, t.chains[i]);
      if !good || tbl.buckets[i].count != n {
        ok := false;
      }
      SumStep(Lengths(t.chains), i);
      count := count + n;
      i := i + 1;
    }
    assert Lengths(t.chains)[..i] == Lengths(t.chains);
    if count != tbl.numItems {
      ok := false;
    }
    var listed, linked := CountList(head, t.app);
    if !linked || listed != tbl.numItems {
      ok := false;
    }
  }

  lemma SumStep(s: seq<nat>, i: nat)
    requires i < |s|
    ensures Sum(s[..i + 1]) == Sum(s[..i]) + s[i]
  {
    assert s[..i + 1][..i] == s[..i];
  }

  // ----- the caller's head pointer

  class HashTable {
    const hash: HashSpec.Hash
    var head: Elem?
    /** The table's value, the elements it contains, and its record while one is allocated. */
    ghost var st: State
    ghost var members: set<Elem>
    ghost var tbl: Table?

    ghost predicate Valid()
      reads this, members, if tbl == null then {} else {tbl, tbl.buckets}
    {
      match st
      case Empty => head == null && tbl == null && members == {}
      case Full(t) =>
        && tbl != null && head != null && members == (set e | e in t.app)
        && Inv(st, hash)
        && Represents(head, tbl, t, hash, members)
    }

    /** What a caller owes beyond Valid(); of the two, Inv is already part of Valid(). */
    ghost predicate CanApply(op: Op)
      reads this
    {
      Inv(st, hash) && Enabled(st, hash, op)
    }

    ghost function Footprint(): set<object>
      reads this, tbl
    {
      {this} + members + if tbl == null then {} else {tbl, tbl.buckets}
    }

    constructor (hash: HashSpec.Hash)
      ensures Valid() && st == Empty && this.hash == hash && Footprint() == {this}
    {
      this.hash := hash;
      head, st, members, tbl := null, Empty, {}, null;
    }

    /** HASH_ADD. */
    method Add(add: Elem)
      requires Valid() && add !in members
      modifies Footprint(), add
      ensures Valid() && fresh(Footprint() - old(Footprint()) - {add})
      ensures st == HashSpec.Add(old(st), hash, add) && members == old(members) + {add}
    {
      hide Represents, HashSpec.Add, SameElements, InSomeChain, ChainsOk, NoDup, Sized;
      AddInv(st, hash, add);
      ghost var st' := HashSpec.Add(st, hash, add);
      MembersGrow(if st.Full? then st.t.app else [], st'.t.app, add);
      var hashv := hash(add.key);
      if head == null {
        AddEmpty(hash, add);
        var made := MakeAndAdd(add, hashv, hash);
        head, tbl := add, made;
        assert members + {add} == {add};
      } else {
        ChainedIsListed(st.t.app, st.t.chains, add);
        HeadTable(head, tbl, st.t, hash, members);
        AddToExisting(head, head.tbl, add, hashv, st.t, hash, members);
      }
      st := st';
      members := members + {add};
    }

    /** HASH_ADD_INORDER. */
    method AddInorder(add: Elem, cmp: Cmp)
      requires Valid() && add !in members
      modifies Footprint(), add
      ensures Valid() && fresh(Footprint() - old(Footprint()) - {add})
      ensures st == HashSpec.AddInorder(old(st), hash, cmp, add) && members == old(members) + {add}
    {
      hide Represents, HashSpec.AddInorder, SameElements, InSomeChain, ChainsOk, NoDup, Sized, Insert;
      AddInorderInv(st, hash, cmp, add);
      ghost var st' := HashSpec.AddInorder(st, hash, cmp, add);
      InsertMembers(cmp, if st.Full? then st.t.app else [], add);
      MembersGrow(if st.Full? then st.t.app else [], st'.t.app, add);
      var hashv := hash(add.key);
      if head == null {
        AddInorderEmpty(hash, cmp, add);
        var made := MakeAndAdd(add, hashv, hash);
        head, tbl := add, made;
        assert members + {add} == {add};
      } else {
        ChainedIsListed(st.t.app, st.t.chains, add);
        HeadTable(head, tbl, st.t, hash, members);
        var newHead := AddInorderToExisting(head, head.tbl, add, hashv, cmp, st.t, hash, members);
        head := newHead;
      }
      st := st';
      members := members + {add};
    }

    /** HASH_DELETE. */
    method Delete(del: Elem)
      requires Valid() && del in members
      modifies Footprint()
      ensures Valid() && fresh(Footprint() - old(Footprint()))
      ensures CanDelete(old(st), del)
      ensures st == HashSpec.Delete(old(st), hash, del) && members == old(members) - {del}
    {
      hide Represents, HashSpec.Delete, SameElements, InSomeChain, ChainsOk, NoDup, Sized, IndexOf, RemoveAt;
      DeleteInv(st, hash, del);
      ghost var st' := HashSpec.Delete(st, hash, del);
      MembersShrink(st.t.app, del, st', hash);
      HeadTable(head, tbl, st.t, hash, members);
      var newHead := DeleteElem(head, head.tbl, del, st.t, hash, members);
      head := newHead;
      st, members := st', members - {del};
      if st.Empty? { tbl := null; }
    }

    /** HASH_FIND. */
    method Find(key: Key) returns (out: Elem?)
      requires Valid()
      ensures out == HashSpec.Find(st, hash, key)
      ensures out != null ==> out in members
    {
      hide Represents, HashSpec.Find, SameElements, ChainsOk, NoDup, Sized;
      out := null;
      FindOk(st, hash, key);
      if head != null {
        var hashv := hash(key);
        out := FindElem(head, key, hashv, tbl, st.t, hash, members);
      } else {
        FindEmpty(hash, key);
      }
    }

    /** The half that HASH_REPLACE and HASH_REPLACE_INORDER share: find the key's element and delete it. */
    method RemovePrior(add: Elem) returns (replaced: Elem?)
      requires Valid() && CanApply(OpReplace(add))
      modifies Footprint()
      ensures Valid() && fresh(Footprint() - old(Footprint()))
      ensures replaced == HashSpec.Find(old(st), hash, add.key)
      ensures st == DropKey(old(st), hash, add.key) && add !in members
    {
      hide Represents, Inv, HashSpec.Find, HashSpec.Delete;
      ValidInv();
      ReplaceReady(st, hash, add);
      replaced := Find(add.key);
      if replaced != null {
        Delete(replaced);
      }
      ValidInv();
    }

    /** HASH_REPLACE: `replaced` is what was found under the key, no longer in the table. */
    method Replace(add: Elem) returns (replaced: Elem?)
      requires Valid() && CanApply(OpReplace(add))
      modifies Footprint(), add
      ensures Valid() && fresh(Footprint() - old(Footprint()) - {add})
      ensures replaced == HashSpec.Find(old(st), hash, add.key)
      ensures st == Apply(old(st), hash, OpReplace(add))
    {
      hide Represents, Valid, Inv, HashSpec.Find, DropKey, HashSpec.Add;
      replaced := RemovePrior(add);
      Add(add);
    }

    /** HASH_REPLACE_INORDER. */
    method ReplaceInorder(add: Elem, cmp: Cmp) returns (replaced: Elem?)
      requires Valid() && CanApply(OpReplaceInorder(add, cmp))
      modifies Footprint(), add
      ensures Valid() && fresh(Footprint() - old(Footprint()) - {add})
      ensures replaced == HashSpec.Find(old(st), hash, add.key)
      ensures st == Apply(old(st), hash, OpReplaceInorder(add, cmp))
    {
      hide Represents, Valid, Inv, HashSpec.Find, DropKey, HashSpec.AddInorder;
      replaced := RemovePrior(add);
      AddInorder(add, cmp);
    }

    /** HASH_SORT. */
    method Sort(cmp: Cmp)
      requires Valid()
      modifies Footprint()
      ensures Valid() && Footprint() == old(Footprint())
      ensures st == SortState(old(st), cmp) && members == old(members)
    {
      hide Represents, SameElements, ChainsOk, Sized, SortSpec.Sort, NoDup;
      SortInv(st, hash, cmp);
      if head != null {
        SortReady(cmp, st.t.app, members);
        HeadTable(head, tbl, st.t, hash, members);
        var newHead := SortElems(head, head.tbl, cmp, st.t, hash, members);
        head := newHead;
      }
      st := SortState(st, cmp);
    }

    /** HASH_FSCK never finds anything to report. */
    method Fsck() returns (ok: bool)
      requires Valid()
      ensures ok
    {
      hide Represents, Inv;
      ok := true;
      ValidInv();
      InvPassesFsck(st, hash);
      if head != null {
        HeadTable(head, tbl, st.t, hash, members);
        ok := FsckElems(head, head.tbl, st.t, hash, members);
      }
    }

    lemma ValidInv()
      requires Valid()
      ensures Inv(st, hash) && members == (set e | e in ListOf(st))
    {
    }
  }

  lemma AddEmpty(hash: HashSpec.Hash, add: Elem)
    ensures HashSpec.Add(Empty, hash, add) == Full(HashSpec.AddToTable(MakeTable(add), hash, add))
  {
  }

  lemma MembersGrow(app: seq<Elem>, app': seq<Elem>, e: Elem)
    requires forall x :: x in app' <==> x in app || x == e
    ensures (set x | x in app') == (set x | x in app) + {e}
  {
  }

  lemma AddInorderEmpty(hash: HashSpec.Hash, cmp: Cmp, add: Elem)
    ensures HashSpec.AddInorder(Empty, hash, cmp, add) == Full(HashSpec.AddToTable(MakeTable(add), hash, add))
  {
  }

  lemma FindEmpty(hash: HashSpec.Hash, key: Key)
    ensures HashSpec.Find(Empty, hash, key) == null
  {
  }

  lemma InsertMembers(cmp: Cmp, app: seq<Elem>, e: Elem)
    ensures forall x :: x in Insert(cmp, app, e) <==> x in app || x == e
  {
  }

  lemma MembersShrink(app: seq<Elem>, e: Elem, st': State, hash: HashSpec.Hash)
    requires NoDup(app) && e in app
    requires ListOf(st') == RemoveAt(app, IndexOf(app, e))
    ensures (set x | x in ListOf(st')) == (set x | x in app) - {e}
  {
  }

  lemma SortReady(cmp: Cmp, app: seq<Elem>, u: set<Elem>)
    requires NoDup(app) && app != [] && u == (set e | e in app)
    ensures var r := SortSpec.Sort(cmp, app, 1); r != [] && Within(r, u) && u == (set e | e in r)
  {
    SortPermutes(cmp, app, 1);
    NoDupPermuted(app, SortSpec.Sort(cmp, app, 1));
  }
}
