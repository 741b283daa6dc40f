/** HASH_SELECT on the heap. An element carries a second handle for the destination table; the pointer
    arithmetic from an element to that handle is the function `dual`. */
module HashSelect {
  import opened Elems
  import opened Seqs
  import opened BucketSpec
  import opened HashSpec
  import opened HashRuns
  import opened SelectSpec
  import opened Chains
  import opened AppList
  import opened UtHash

  /** The destination handles of `s`: other objects, one per element, with the element's key. */
  ghost predicate DualHandles(dual: Elem -> Elem, u: set<Elem>) {
    && (forall a :: a in u ==> dual(a) !in u && dual(a).key == a.key)
    && (forall a, b :: a in u && b in u && dual(a) == dual(b) ==> a == b)
  }

  /** The handles of the chosen elements, in the order they are met. */
  function Chosen(s: seq<Elem>, cond: Elem -> bool, dual: Elem -> Elem): seq<Elem> {
    if s == [] then []
    else Chosen(s[..|s| - 1], cond, dual) + if cond(s[|s| - 1]) then [dual(s[|s| - 1])] else []
  }

  ghost predicate IsChosen(s: seq<Elem>, cond: Elem -> bool, dual: Elem -> Elem, d: Elem) {
    exists j :: 0 <= j < |s| && cond(s[j]) && d == dual(s[j])
  }

  lemma {:induction false} ChosenOk(s: seq<Elem>, cond: Elem -> bool, dual: Elem -> Elem, u: set<Elem>)
    requires NoDup(s) && Within(s, u) && DualHandles(dual, u)
    ensures NoDup(Chosen(s, cond, dual))
    ensures forall i :: 0 <= i < |Chosen(s, cond, dual)| ==> IsChosen(s, cond, dual, Chosen(s, cond, dual)[i])
    ensures forall j :: 0 <= j < |s| && cond(s[j]) ==> dual(s[j]) in Chosen(s, cond, dual)
  {
    if s != [] {
      var init, e := s[..|s| - 1], s[|s| - 1];
      var c, c' := Chosen(init, cond, dual), Chosen(s, cond, dual);
      ChosenOk(init, cond, dual, u);
      forall i | 0 <= i < |c|
        ensures c[i] != dual(e) && IsChosen(s, cond, dual, c[i])
      {
        assert IsChosen(init, cond, dual, c[i]);
        var j :| 0 <= j < |init| && cond(init[j]) && c[i] == dual(init[j]);
        assert init[j] == s[j] && s[j] in u && e in u && s[j] != e;
      }
      assert cond(e) ==> IsChosen(s, cond, dual, dual(e)) by {
        assert s[|s| - 1] == e;
      }
      assert c' == c + if cond(e) then [dual(e)] else [];
    }
  }

  lemma ChosenStep(s: seq<Elem>, e: Elem, cond: Elem -> bool, dual: Elem -> Elem)
    ensures Chosen(s + [e], cond, dual) == Chosen(s, cond, dual) + if cond(e) then [dual(e)] else []
  {
  }

  /** What the destination pointers say: `st` is the table's value, `last` its last list element. */
  ghost predicate Destination(dst: Elem?, tbl: Table?, last: Elem?, st: State, hash: HashSpec.Hash, u: set<Elem>)
    reads u, if tbl == null then {} else {tbl, tbl.buckets}, ListOf(st)
  {
    match st
    case Empty => dst == null && tbl == null && last == null && u == {}
    case Full(t) =>
      && dst != null && tbl != null && t.app != [] && last == t.app[|t.app| - 1]
      && u == (set e | e in t.app)
      && Represents(dst, tbl, t, hash, u)
  }

  /** The list half of one selection: linked behind `last`, whatever `tail` says. */
  method LinkBehind(last: Elem, d: Elem, ghost app: seq<Elem>)
    requires AppLinked(app) && NoDup(app) && app != [] && last == app[|app| - 1] && d !in app
    modifies d`prev, d`next, last`next
    ensures AppLinked(InsertAt(app, |app|, d))
  {
    d.prev := last;
    d.next := null;
    last.next := d;
    assert Spliced(app, |app|, d);
    SplicedIsLinked(app, |app|, d);
  }

  /** The list half of one selection into a table that exists. */
  method JoinBehind(head: Elem, tbl: Table, last: Elem, d: Elem, hashv: nat,
                    ghost t: Tab, ghost hash: HashSpec.Hash, ghost u: set<Elem>)
    requires Represents(head, tbl, t, hash, u) && NoDup(t.app) && last == t.app[|t.app| - 1]
    requires d !in u && hashv == hash(d.key)
    modifies u`next, d`hashv, d`tbl, d`next, d`prev
    ensures var app := InsertAt(t.app, |t.app|, d);
            && TableHolds(tbl, t.(app := app, tail := t.tail), hash, u + {d})
            && ListHolds(head, tbl, app, t.tail, u + {d})
  {
    hide Within, TblsMatch, TableHolds, InsertAt, NoDup, AppLinked;
    ghost var app: seq<Elem> := InsertAt(t.app, |t.app|, d);
    BehindReady(t.app, u, d);
    Join(tbl, d, hashv, t, hash, u, app, t.tail);
    LinkBehind(last, d, t.app);
  }

  lemma BehindReady(app: seq<Elem>, u: set<Elem>, d: Elem)
    requires Within(app, u) && d !in u && app != []
    ensures d !in app && app[|app| - 1] in u
    ensures Within(InsertAt(app, |app|, d), u + {d}) && InsertAt(app, |app|, d)[0] == app[0]
  {
  }

  /** The bucket half: the item is counted after it has been added. */
  method FinishSelect(head: Elem, tbl: Table, d: Elem, ghost t: Tab, ghost hash: HashSpec.Hash, ghost u: set<Elem>)
    requires TableHolds(tbl, t, hash, u) && ListHolds(head, tbl, t.app, t.tail, u)
    requires Sized(t) && ChainsOk(t.chains, Homes(hash, t.log2)) && d in u && !InSomeChain(t.chains, d)
    modifies tbl, tbl.buckets, u`hhPrev, u`hhNext
    ensures var t' := AddToBkt(t, hash, d);
            Represents(head, tbl, t'.(numItems := t'.numItems + 1), hash, u)
    ensures tbl.buckets == old(tbl.buckets) || fresh(tbl.buckets)
  {
    hide ListHolds, ChainsOk, InSomeChain, AddToBkt, Sized, AllLinked, HashesMatch, HeadsMatch, CountsMatch;
    AddToBktFrame(t, hash, d);
    AddToBucket(tbl, d, t, hash, u);
    tbl.numItems := tbl.numItems + 1;
  }

  /** The first selection makes the table. */
  method SelectFirst(d: Elem, hashv: nat, ghost hash: HashSpec.Hash) returns (tbl: Table)
    requires hashv == hash(d.key)
    modifies d
    ensures fresh(tbl) && fresh(tbl.buckets)
    ensures Represents(d, tbl, SelectOne(Empty, hash, d).t, hash, {d})
  {
    hide ChainsOk, InSomeChain, Represents, AddToBkt, SameElements;
    d.hashv := hashv;
    d.prev := null;
    d.next := null;
    tbl := new Table(d);
    d.tbl := tbl;
    NewTableHolds(tbl, d, hash);
    NewTableOk(hash, d);
    FinishSelect(d, tbl, d, MakeTable(d), hash, {d});
  }

  method SelectMore(dst: Elem, tbl: Table, last: Elem, d: Elem, hashv: nat,
                    ghost t: Tab, ghost hash: HashSpec.Hash, ghost u: set<Elem>)
    requires Represents(dst, tbl, t, hash, u) && WellFormed(Full(t), hash)
    requires last == t.app[|t.app| - 1] && d !in u && !InSomeChain(t.chains, d) && hashv == hash(d.key)
    modifies tbl, tbl.buckets, u, d
    ensures Represents(dst, tbl, SelectOne(Full(t), hash, d).t, hash, u + {d})
    ensures tbl.buckets == old(tbl.buckets) || fresh(tbl.buckets)
  {
    hide Represents, TableHolds, ListHolds, ChainsOk, InSomeChain, AddToBkt, InsertAt;
    JoinBehind(dst, tbl, last, d, hashv, t, hash, u);
    FinishSelect(dst, tbl, d, t.(app := InsertAt(t.app, |t.app|, d), tail := t.tail), hash, u + {d});
  }

  /** One chosen element of HASH_SELECT. */
  method SelectElem(dst: Elem?, tbl: Table?, last: Elem?, d: Elem, hashv: nat,
                    ghost st: State, ghost hash: HashSpec.Hash, ghost u: set<Elem>, ghost ds: seq<Elem>)
    returns (dst': Elem, tbl': Table)
    requires Destination(dst, tbl, last, st, hash, u) && Selected(st, hash, ds)
    requires d !in u && hashv == hash(d.key)
    modifies u, d, if tbl == null then {} else {tbl, tbl.buckets}
    ensures st.Full? ==> Sized(st.t)
    ensures Destination(dst', tbl', d, SelectOne(st, hash, d), hash, u + {d})
    ensures Selected(SelectOne(st, hash, d), hash, ds + [d])
    ensures if tbl == null then fresh(tbl') else tbl' == tbl
    ensures fresh(tbl'.buckets) || (tbl != null && tbl'.buckets == old(tbl.buckets))
  {
    hide Represents, AddToBkt, ChainsOk, SameElements, InSomeChain;
    DestinationList(dst, tbl, last, st, hash, u, ds);
    SelectOneOk(st, hash, ds, d);
    MembersGrow(ds, ds + [d], d);
    if dst == null {
      assert u == {} && u + {d} == {d};
      tbl' := SelectFirst(d, hashv, hash);
      dst' := d;
    } else {
      dst', tbl' := dst, tbl;
      ChainedIsListed(ds, st.t.chains, d);
      SelectMore(dst, tbl, last, d, hashv, st.t, hash, u);
    }
  }

  lemma DestinationList(dst: Elem?, tbl: Table?, last: Elem?, st: State, hash: HashSpec.Hash,
                        u: set<Elem>, ds: seq<Elem>)
    requires Destination(dst, tbl, last, st, hash, u) && Selected(st, hash, ds)
    ensures u == (set e | e in ds)
  {
  }

  ghost function Duals(dual: Elem -> Elem, u: set<Elem>): set<Elem> {
    set a | a in u :: dual(a)
  }

  /** The destination after the source elements of `done` have been looked at. */
  ghost predicate Progress(dst: Elem?, tbl: Table?, last: Elem?, st: State, hash: HashSpec.Hash,
                           u: set<Elem>, ds: seq<Elem>)
    reads u, if tbl == null then {} else {tbl, tbl.buckets}, ListOf(st)
  {
    NoDup(ds) && st == Select(hash, ds) && Destination(dst, tbl, last, st, hash, u)
  }

  lemma SelectStep(hash: HashSpec.Hash, ds: seq<Elem>, d: Elem)
    requires NoDup(ds) && d !in ds
    ensures NoDup(ds + [d])
    ensures Select(hash, ds).Full? ==> Sized(Select(hash, ds).t)
    ensures Select(hash, ds + [d]) == SelectOne(Select(hash, ds), hash, d)
  {
    assert (ds + [d])[..|ds|] == ds;
    SelectOneOk(Select(hash, ds), hash, ds, d);
  }

  /** The body of the inner loop of HASH_SELECT. */
  method Visit(e: Elem, cond: Elem -> bool, dual: Elem -> Elem, dst: Elem?, tbl: Table?, last: Elem?,
               ghost st: State, ghost hash: HashSpec.Hash, ghost u: set<Elem>, ghost ds: seq<Elem>)
    returns (dst': Elem?, tbl': Table?, last': Elem?, ghost st': State, ghost u': set<Elem>)
    requires Progress(dst, tbl, last, st, hash, u, ds)
    requires e.hashv == hash(e.key) && dual(e).key == e.key && dual(e) !in ds && dual(e) !in u
    modifies u, dual(e), if tbl == null then {} else {tbl, tbl.buckets}
    ensures Progress(dst', tbl', last', st', hash, u', if cond(e) then ds + [dual(e)] else ds)
    ensures u' == if cond(e) then u + {dual(e)} else u
    ensures tbl' == tbl || (tbl' != null && fresh(tbl'))
    ensures tbl' != null ==> fresh(tbl'.buckets) || (tbl != null && tbl'.buckets == old(tbl.buckets))
  {
    hide Destination, Selected, SelectOne;
    dst', tbl', last', st', u' := dst, tbl, last, st, u;
    if cond(e) {
      var d := dual(e);
      SelectStep(hash, ds, d);
      dst', tbl' := SelectElem(dst, tbl, last, d, e.hashv, st, hash, u, ds);
      last' := d;
      st', u' := SelectOne(st, hash, d), u + {d};
    }
  }

  /** Everything HASH_SELECT reads of one source chain. */
  ghost predicate SourceChain(c: seq<Elem>, hash: HashSpec.Hash, u: set<Elem>)
    reads u`hashv, u`hhNext
  {
    forall i :: 0 <= i < |c| ==> c[i] in u && c[i].hashv == hash(c[i].key) && c[i].hhNext == At(c, i + 1)
  }

  lemma SourceChains(src: HashTable)
    requires src.Valid() && src.st.Full?
    ensures src.head != null && src.tbl != null && src.head.tbl == src.tbl
    ensures src.tbl.numBuckets == |src.st.t.chains| == src.tbl.buckets.Length
    ensures NoDup(Flatten(src.st.t.chains))
    ensures forall b :: 0 <= b < |src.st.t.chains| ==>
              && src.tbl.buckets[b].hhHead == At(src.st.t.chains[b], 0)
              && SourceChain(src.st.t.chains[b], src.hash, src.members)
              && Within(src.st.t.chains[b], src.members)
  {
    hide AppLinked, SameElements, CountsMatch, NoDup, ChainsOk, Flatten, Sized;
    FlattenNoDup(src.st.t.chains, Homes(src.hash, src.st.t.log2));
  }

  lemma SourceAt(c: seq<Elem>, hash: HashSpec.Hash, u: set<Elem>, i: nat)
    requires SourceChain(c, hash, u) && i < |c|
    ensures c[i] in u && c[i].hashv == hash(c[i].key) && c[i].hhNext == At(c, i + 1)
  {
  }

  lemma DualsOutside(dual: Elem -> Elem, u: set<Elem>)
    requires DualHandles(dual, u)
    ensures Duals(dual, u) !! u
  {
  }

  /** The source elements seen so far: whole chains, then a part of the current one. */
  ghost function Seen(chains: seq<seq<Elem>>, b: nat, j: nat): seq<Elem>
    requires b < |chains| && j <= |chains[b]|
  {
    Flatten(chains[..b]) + chains[b][..j]
  }

  lemma SeenStep(chains: seq<seq<Elem>>, b: nat, j: nat, cond: Elem -> bool, dual: Elem -> Elem, u: set<Elem>)
    requires b < |chains| && j < |chains[b]| && NoDup(Flatten(chains)) && DualHandles(dual, u)
    requires forall c :: 0 <= c < |chains| ==> Within(chains[c], u)
    ensures var e := chains[b][j];
            var ds := Chosen(Seen(chains, b, j), cond, dual);
            && Chosen(Seen(chains, b, j + 1), cond, dual) == (if cond(e) then ds + [dual(e)] else ds)
            && dual(e) !in ds
  {
    var seen, e := Seen(chains, b, j), chains[b][j];
    assert Seen(chains, b, j + 1) == seen + [e];
    ChosenStep(seen, e, cond, dual);
    assert [] + Chosen(seen, cond, dual) == Chosen(seen, cond, dual);
    FlattenStepNoDup(chains, b);
    FlattenWithin(chains, b, u);
    PrefixNoDup(Flatten(chains[..b]) + chains[b], |seen|);
    assert seen == (Flatten(chains[..b]) + chains[b])[..|seen|];
    assert Within(seen, u);
    ChosenOk(seen, cond, dual, u);
    forall i | 0 <= i < |Chosen(seen, cond, dual)|
      ensures Chosen(seen, cond, dual)[i] != dual(e)
    {
      assert IsChosen(seen, cond, dual, Chosen(seen, cond, dual)[i]);
      var k :| 0 <= k < |seen| && cond(seen[k]) && Chosen(seen, cond, dual)[i] == dual(seen[k]);
      assert seen[k] in u && e in u && seen[k] != e;
    }
  }

  lemma Fits(dst: Elem?, tbl: Table?, last: Elem?, st: State, hash: HashSpec.Hash, u: set<Elem>, ds: seq<Elem>, d: Elem)
    requires Progress(dst, tbl, last, st, hash, u, ds) && d !in ds
    ensures d !in u
  {
  }

  /** The inner loop of HASH_SELECT: one source bucket. */
  method SelectChain(first: Elem?, cond: Elem -> bool, dual: Elem -> Elem, dst: Elem?, tbl: Table?, last: Elem?,
                     ghost hash: HashSpec.Hash, ghost members: set<Elem>, ghost chains: seq<seq<Elem>>, ghost bkt: nat,
                     ghost st: State, ghost u: set<Elem>)
    returns (dst': Elem?, tbl': Table?, last': Elem?, ghost st': State, ghost u': set<Elem>)
    requires DualHandles(dual, members) && u <= Duals(dual, members)
    requires NoDup(Flatten(chains)) && forall b :: 0 <= b < |chains| ==> Within(chains[b], members)
    requires bkt < |chains| && first == At(chains[bkt], 0) && SourceChain(chains[bkt], hash, members)
    requires Progress(dst, tbl, last, st, hash, u, Chosen(Flatten(chains[..bkt]), cond, dual))
    modifies Duals(dual, members), if tbl == null then {} else {tbl, tbl.buckets}
    ensures u' <= Duals(dual, members)
    ensures Progress(dst', tbl', last', st', hash, u', Chosen(Flatten(chains[..bkt + 1]), cond, dual))
    ensures tbl' == tbl || (tbl' != null && fresh(tbl'))
    ensures tbl' != null ==> fresh(tbl'.buckets) || (tbl != null && tbl'.buckets == old(tbl.buckets))
  {
    hide Progress, Chosen, Seen, Flatten, NoDup, Within, SourceChain;
    ghost var c := chains[bkt];
    DualsOutside(dual, members);
    SeenEnds(chains, bkt);
    dst', tbl', last', st', u' := dst, tbl, last, st, u;
    var hh := first;
    ghost var j := 0;
    while hh != null
      invariant j <= |c| && hh == At(c, j)
      invariant u' <= Duals(dual, members) && SourceChain(c, hash, members)
      invariant Progress(dst', tbl', last', st', hash, u', Chosen(Seen(chains, bkt, j), cond, dual))
      invariant tbl' == tbl || (tbl' != null && fresh(tbl'))
      invariant tbl' != null ==> fresh(tbl'.buckets) || (tbl != null && tbl'.buckets == old(tbl.buckets))
      decreases |c| - j
    {
      ghost var ds := Chosen(Seen(chains, bkt, j), cond, dual);
      SourceAt(c, hash, members, j);
      SeenStep(chains, bkt, j, cond, dual, members);
      Fits(dst', tbl', last', st', hash, u', ds, dual(hh));
      assert dual(hh) in Duals(dual, members);
      dst', tbl', last', st', u' := Visit(hh, cond, dual, dst', tbl', last', st', hash, u', ds);
      SourceAt(c, hash, members, j);
      hh := hh.hhNext;
      j := j + 1;
    }
  }

  lemma SeenEnds(chains: seq<seq<Elem>>, b: nat)
    requires b < |chains|
    ensures Seen(chains, b, 0) == Flatten(chains[..b])
    ensures Seen(chains, b, |chains[b]|) == Flatten(chains[..b + 1])
  {
    FlattenStep(chains, b);
  }

  /** HASH_SELECT into an empty destination: the new table's value is Select of the chosen elements in
      source bucket order, and the source table is as it was. */
  method SelectInto(src: HashTable, cond: Elem -> bool, dual: Elem -> Elem)
    returns (dst: Elem?, tbl: Table?, last: Elem?, ghost st: State, ghost u: set<Elem>, ghost ds: seq<Elem>)
    requires src.Valid() && DualHandles(dual, src.members)
    modifies Duals(dual, src.members)
    ensures src.Valid() && u <= Duals(dual, src.members)
    ensures tbl != null ==> fresh(tbl) && fresh(tbl.buckets)
    ensures ds == if src.st.Full? then Chosen(Flatten(src.st.t.chains), cond, dual) else []
    ensures NoDup(ds) && st == Select(src.hash, ds) && Destination(dst, tbl, last, st, src.hash, u)
  {
    hide HashTable.Valid, Chosen, Flatten, Destination, Progress, SourceChain, Within, NoDup;
    DualsOutside(dual, src.members);
    dst, tbl, last, st, u, ds := null, null, null, Empty, {}, [];
    StartSelect(src, cond, dual);
    if src.head != null {
      SourceChains(src);
      ghost var chains := src.st.t.chains;
      var bkt := 0;
      while bkt < src.head.tbl.numBuckets
        invariant 0 <= bkt <= |chains| && src.head.tbl == src.tbl
        invariant src.Valid() && u <= Duals(dual, src.members)
        invariant Progress(dst, tbl, last, st, src.hash, u, Chosen(Flatten(chains[..bkt]), cond, dual))
        invariant tbl != null ==> fresh(tbl) && fresh(tbl.buckets)
        decreases |chains| - bkt
      {
        SourceChains(src);
        dst, tbl, last, st, u := SelectChain(src.head.tbl.buckets[bkt].hhHead, cond, dual, dst, tbl, last,
                                             src.hash, src.members, chains, bkt, st, u);
        SourceChains(src);
        bkt := bkt + 1;
      }
      SourceChains(src);
      assert chains[..bkt] == chains;
      ds := Chosen(Flatten(chains), cond, dual);
    }
    ProgressIs(dst, tbl, last, st, src.hash, u, ds);
  }

  lemma ProgressIs(dst: Elem?, tbl: Table?, last: Elem?, st: State, hash: HashSpec.Hash, u: set<Elem>, ds: seq<Elem>)
    requires Progress(dst, tbl, last, st, hash, u, ds)
    ensures NoDup(ds) && st == Select(hash, ds) && Destination(dst, tbl, last, st, hash, u)
  {
  }

  lemma StartSelect(src: HashTable, cond: Elem -> bool, dual: Elem -> Elem)
    requires src.Valid()
    ensures src.head == null <==> src.st.Empty?
    ensures src.st.Full? ==> |src.st.t.chains| > 0 && Chosen(Flatten(src.st.t.chains[..0]), cond, dual) == []
    ensures Progress(null, null, null, Empty, src.hash, {}, [])
  {
  }
}
