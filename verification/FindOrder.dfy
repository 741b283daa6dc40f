/** Which of several elements with the same key HASH_FIND returns, through adds, doublings and deletes, and
    which fields of the table each operation leaves alone. */
module FindOrder {
  import opened Bits
  import opened Elems
  import opened Seqs
  import opened BucketSpec
  import opened SortSpec
  import opened HashSpec

  // ----- what stays

  /** An add that does not double puts the element at the head of its chain and changes no other chain. */
  lemma PlainAdd(t: Tab, hash: Hash, e: Elem)
    requires Inv(Full(t), hash) && e !in t.app && !Doubles(t, hash, e)
    ensures var t', b := Add(Full(t), hash, e).t, Home(t, hash, e.key);
            && t' == t.(app := t.app + [e], tail := e, numItems := t.numItems + 1, chains := t'.chains)
            && |t'.chains| == |t.chains| && t'.chains[b] == [e] + t.chains[b]
            && forall c :: 0 <= c < |t.chains| && c != b ==> t'.chains[c] == t.chains[c]
  {
    hide ChainsOk, SameElements, Expand, Inv, NoDup;
    AddInv(Full(t), hash, e);
  }

  /** A delete takes one element out of its chain, keeping the order, and lowers the item count; all that
      decides about doubling stays as it was. */
  lemma DeleteFrame(st: State, hash: Hash, e: Elem)
    requires Inv(st, hash) && CanDelete(st, e) && |st.t.app| > 1
    ensures var t, t', b := st.t, Delete(st, hash, e).t, Home(st.t, hash, e.key);
            && Delete(st, hash, e).Full? && e in t.chains[b] && |t'.chains| == |t.chains|
            && t' == t.(app := t'.app, tail := t'.tail, chains := t'.chains, numItems := t.numItems - 1)
            && t'.chains[b] == RemoveAt(t.chains[b], IndexOf(t.chains[b], e))
            && forall c :: 0 <= c < |t.chains| && c != b ==> t'.chains[c] == t.chains[c]
  {
    hide ChainsOk, SameElements, NoDup, RemoveAt, IndexOf;
    InHomeChain(st.t.chains, Homes(hash, st.t.log2), e);
  }

  /** A sort changes the list and `tail`, nothing else. */
  lemma SortFrame(st: State, cmp: Cmp)
    requires st.Full?
    ensures var t' := SortState(st, cmp).t;
            SortState(st, cmp).Full? && t' == st.t.(app := t'.app, tail := t'.tail)
  {
    hide Sort;
  }

  // ----- which element is found

  /** Without a doubling the element just added is found, also when others have its key, and no other answer
      changes. */
  lemma FindAfterAdd(st: State, hash: Hash, e: Elem, k: Key)
    requires Inv(st, hash) && (st.Full? ==> e !in st.t.app && !Doubles(st.t, hash, e))
    ensures Inv(Add(st, hash, e), hash)
    ensures Find(Add(st, hash, e), hash, k) == if k == e.key then e else Find(st, hash, k)
  {
    if st.Full? { FindAfterPlainAdd(st.t, hash, e, k); } else { FindAfterFirst(hash, e, k); }
  }

  lemma FindAfterPlainAdd(t: Tab, hash: Hash, e: Elem, k: Key)
    requires Inv(Full(t), hash) && e !in t.app && !Doubles(t, hash, e)
    ensures Inv(Add(Full(t), hash, e), hash)
    ensures Find(Add(Full(t), hash, e), hash, k) == if k == e.key then e else Find(Full(t), hash, k)
  {
    hide ChainsOk, SameElements, NoDup, Doubles, AddToBkt, UpTo, FindKey;
    AddInv(Full(t), hash, e);
    PlainAdd(t, hash, e);
    FindInPushed(t.chains[Home(t, hash, k)], e, k);
  }

  lemma FindInPushed(c: seq<Elem>, e: Elem, k: Key)
    ensures FindKey([e] + c, k) == if k == e.key then e else FindKey(c, k)
  {
    assert ([e] + c)[1..] == c;
  }

  lemma FindAfterFirst(hash: Hash, e: Elem, k: Key)
    ensures Inv(Add(Empty, hash, e), hash)
    ensures Find(Add(Empty, hash, e), hash, k) == if k == e.key then e else null
  {
    hide Add, Find;
    AddInv(Empty, hash, e);
    FindOk(Add(Empty, hash, e), hash, k);
  }

  /** Position `i` is the last of `c` with the key. */
  ghost predicate LastWithKey(c: seq<Elem>, k: Key, i: nat) {
    i < |c| && c[i].key == k && forall j :: i < j < |c| ==> c[j].key != k
  }

  lemma {:induction false} FindReversed(c: seq<Elem>, home: Elem -> nat, b: nat, k: Key, i: nat)
    requires LastWithKey(c, k, i) && forall e :: e in c && e.key == k ==> home(e) == b
    ensures FindKey(LatestFirst(c, home, b), k) == c[i]
  {
    var init, last := c[..|c| - 1], c[|c| - 1];
    assert last in c;
    assert LatestFirst(c, home, b) == (if home(last) == b then [last] else []) + LatestFirst(init, home, b);
    if i < |c| - 1 {
      FindReversed(init, home, b, k, i);
      assert ([last] + LatestFirst(init, home, b))[1..] == LatestFirst(init, home, b);
      assert [] + LatestFirst(init, home, b) == LatestFirst(init, home, b);
    }
  }

  /** A doubling takes every chain in reverse, the new element included: afterwards the element found under
      a key is the one that was last in the chain, so of several the oldest where the latest was found before. */
  lemma FindAfterDoubling(t: Tab, hash: Hash, e: Elem, k: Key, i: nat)
    requires Inv(Full(t), hash) && e !in t.app && Doubles(t, hash, e)
    requires LastWithKey(PushedChain(t, hash, e, k), k, i)
    ensures Inv(Add(Full(t), hash, e), hash)
    ensures Find(Add(Full(t), hash, e), hash, k) == PushedChain(t, hash, e, k)[i]
  {
    hide SameElements, NoDup, Rechain, TotalExcess, Mults, CeilByShift, LatestFirst, FindKey;
    AddInv(Full(t), hash, e);
    AddDoubled(t, hash, e);
    var b, c := Home(t, hash, k), PushedChain(t, hash, e, k);
    var t' := Add(Full(t), hash, e).t;
    var b' := Home(t', hash, k);
    HomeSplits(t, t', hash, k);
    ChainedIsListed(t.app, t.chains, e);
    PushOk(t.chains, Homes(hash, t.log2), e);
    RechainSplits(Push(t.chains, Home(t, hash, e.key), e), hash, t.log2, b');
    FindReversed(c, Homes(hash, t'.log2), b', k, i);
  }

  /** The chain that holds key `k` once `e` has been pushed. */
  function PushedChain(t: Tab, hash: Hash, e: Elem, k: Key): seq<Elem>
    requires Sized(t)
  {
    var c := t.chains[Home(t, hash, k)];
    if Home(t, hash, k) == Home(t, hash, e.key) then [e] + c else c
  }

  lemma AddDoubled(t: Tab, hash: Hash, e: Elem)
    requires Inv(Full(t), hash) && e !in t.app && Doubles(t, hash, e)
    ensures var t' := Add(Full(t), hash, e).t;
            && t'.log2 == t.log2 + 1
            && t'.chains == Rechain(Push(t.chains, Home(t, hash, e.key), e), Homes(hash, t.log2 + 1))
  {
    hide ChainsOk, SameElements, NoDup, Rechain, TotalExcess, Mults, CeilByShift;
  }

  lemma HomeSplits(t: Tab, t': Tab, hash: Hash, k: Key)
    requires Sized(t) && Sized(t') && t'.log2 == t.log2 + 1
    ensures |t'.chains| == 2 * |t.chains|
    ensures var b, b' := Home(t, hash, k), Home(t', hash, k);
            b == if b' < |t.chains| then b' else b' - |t.chains|
  {
    MaskIsMod(hash(k), t.log2);
    MaskIsMod(hash(k), t'.log2);
    SplitBucket(hash(k), Pow2(t.log2));
  }

  /** Deleting an element that is not the one found changes no answer. */
  lemma FindAfterDelete(st: State, hash: Hash, e: Elem, k: Key)
    requires Inv(st, hash) && st.Full? && e in st.t.app && Find(st, hash, k) != e
    ensures CanDelete(st, e) && Inv(Delete(st, hash, e), hash)
    ensures Find(Delete(st, hash, e), hash, k) == Find(st, hash, k)
  {
    hide ChainsOk, SameElements, NoDup, Delete, RemoveAt;
    DeleteInv(st, hash, e);
    if |st.t.app| > 1 {
      DeleteFrame(st, hash, e);
      var c := st.t.chains[Home(st.t, hash, k)];
      if Home(st.t, hash, k) == Home(st.t, hash, e.key) { FindWithout(c, k, IndexOf(c, e)); }
    } else {
      assert st.t.app == [e];
      OnlyOne(st, hash, e, k);
    }
  }

  lemma OnlyOne(st: State, hash: Hash, e: Elem, k: Key)
    requires Inv(st, hash) && st.Full? && st.t.app == [e] && Find(st, hash, k) != e
    ensures Find(st, hash, k) == null
  {
    FindOk(st, hash, k);
  }

  lemma {:induction false} FindWithout(c: seq<Elem>, k: Key, j: nat)
    requires j < |c| && FindKey(c, k) != c[j]
    ensures FindKey(RemoveAt(c, j), k) == FindKey(c, k)
  {
    if j > 0 {
      assert RemoveAt(c, j)[1..] == RemoveAt(c[1..], j - 1);
      if c[0].key != k { FindWithout(c[1..], k, j - 1); }
    } else {
      assert RemoveAt(c, 0) == c[1..];
    }
  }

  /** Deleting the element found uncovers the next one of the chain with its key. */
  lemma FindUncovered(st: State, hash: Hash, e: Elem, i: nat)
    requires Inv(st, hash) && st.Full? && e in st.t.app && Find(st, hash, e.key) == e
    requires var c := st.t.chains[Home(st.t, hash, e.key)];
             && i < |c| && c[i].key == e.key && c[i] != e
             && forall j :: 0 <= j < i && c[j].key == e.key ==> c[j] == e
    ensures CanDelete(st, e) && Inv(Delete(st, hash, e), hash)
    ensures Find(Delete(st, hash, e), hash, e.key) == st.t.chains[Home(st.t, hash, e.key)][i]
  {
    DeleteInv(st, hash, e);
    var c := st.t.chains[Home(st.t, hash, e.key)];
    assert c[i] in st.t.app;
    DeleteFrame(st, hash, e);
    hide SameElements, Delete, FindKey;
    NextWithKey(c, e, i);
  }

  lemma NextWithKey(c: seq<Elem>, e: Elem, i: nat)
    requires NoDup(c) && e in c && i < |c| && c[i].key == e.key && c[i] != e && FindKey(c, e.key) == e
    requires forall j :: 0 <= j < i && c[j].key == e.key ==> c[j] == e
    ensures FindKey(RemoveAt(c, IndexOf(c, e)), e.key) == c[i]
  {
    var j := IndexOf(c, e);
    if i < j { FindKeyIsFirst(c, e.key, i); }
    FindKeyIsFirst(RemoveAt(c, j), e.key, i - 1);
  }
}
