/** The bucket chains on the heap: linking, unlinking, searching and doubling, each method tied to
    the chain sequences of BucketSpec. */
module Chains {
  import opened Bits
  import opened Elems
  import opened Seqs
  import opened BucketSpec

  /** The hh_prev/hh_next fields thread the chain, with NULL at both ends. */
  ghost predicate ChainLinked(c: seq<Elem>)
    reads c`hhPrev, c`hhNext
  {
    forall i :: 0 <= i < |c| ==> c[i].hhPrev == At(c, i - 1) && c[i].hhNext == At(c, i + 1)
  }

  ghost predicate AllLinked(chains: seq<seq<Elem>>, u: set<Elem>)
    reads u`hhPrev, u`hhNext
  {
    forall b :: 0 <= b < |chains| ==> Within(chains[b], u) && ChainLinked(chains[b])
  }

  ghost predicate HeadsMatch(buckets: array<Bucket>, chains: seq<seq<Elem>>)
    reads buckets
  {
    && |chains| == buckets.Length
    && forall b :: 0 <= b < buckets.Length ==> buckets[b].hhHead == At(chains[b], 0)
  }

  ghost predicate CountsMatch(buckets: array<Bucket>, chains: seq<seq<Elem>>, mult: seq<nat>)
    reads buckets
  {
    && |chains| == |mult| == buckets.Length
    && forall b :: 0 <= b < buckets.Length ==> buckets[b].count == |chains[b]| && buckets[b].expandMult == mult[b]
  }

  ghost predicate HashesMatch(hash: Key -> nat, u: set<Elem>)
    reads u`hashv
  {
    forall e :: e in u ==> e.hashv == hash(e.key)
  }

  /** The pointer part common to HASH_ADD_TO_BKT and the inner loop of HASH_EXPAND_BUCKETS. */
  method LinkAtFront(buckets: array<Bucket>, b: nat, e: Elem,
                     ghost chains: seq<seq<Elem>>, ghost home: Elem -> nat, ghost u: set<Elem>)
    requires HeadsMatch(buckets, chains) && AllLinked(chains, u) && ChainsOk(chains, home)
    requires b < |chains| && e in u && !InSomeChain(chains, e)
    modifies buckets, e`hhNext, u`hhPrev
    ensures HeadsMatch(buckets, Push(chains, b, e)) && AllLinked(Push(chains, b, e), u)
    ensures forall c :: 0 <= c < buckets.Length ==>
              buckets[c].count == old(buckets[c].count) && buckets[c].expandMult == old(buckets[c].expandMult)
  {
    LinkHandle(buckets[b].hhHead, e, chains[b]);
    forall c | 0 <= c < |chains| && c != b
      ensures ChainLinked(chains[c])
    {
      assert e !in chains[c];
      if chains[b] != [] { OtherChain(chains, home, b, c); }
    }
    buckets[b] := buckets[b].(hhHead := e);
  }

  lemma OtherChain(chains: seq<seq<Elem>>, home: Elem -> nat, b: nat, c: nat)
    requires ChainsOk(chains, home) && b < |chains| && c < |chains| && b != c
    ensures forall e :: e in chains[b] ==> e !in chains[c]
  {
  }

  method LinkHandle(head: Elem?, e: Elem, ghost c: seq<Elem>)
    requires ChainLinked(c) && NoDup(c) && e !in c && head == At(c, 0)
    modifies e`hhNext, e`hhPrev
    modifies (if c == [] then {} else {c[0]})`hhPrev
    ensures ChainLinked([e] + c)
  {
    e.hhNext := head;
    e.hhPrev := null;
    if head != null {
      head.hhPrev := e;
    }
  }

  /** The count, expand_mult and nonideal_items bookkeeping of a bucket array being filled by a doubling. */
  ghost predicate Counted(t: Table, buckets: array<Bucket>, chains: seq<seq<Elem>>)
    reads t`idealChainMaxlen, t`nonidealItems, buckets
  {
    && |chains| == buckets.Length
    && (forall b :: 0 <= b < buckets.Length ==>
          && buckets[b].count == |chains[b]|
          && buckets[b].expandMult == Mult(|chains[b]|, t.idealChainMaxlen))
    && t.nonidealItems == TotalExcess(chains, t.idealChainMaxlen)
  }

  method CountOne(t: Table, newBuckets: array<Bucket>, bkt: nat, ghost chains: seq<seq<Elem>>, ghost e: Elem)
    requires bkt < newBuckets.Length && Counted(t, newBuckets, chains)
    modifies t`nonidealItems, newBuckets
    ensures Counted(t, newBuckets, Push(chains, bkt, e))
    ensures forall c :: 0 <= c < newBuckets.Length ==> newBuckets[c].hhHead == old(newBuckets[c].hhHead)
  {
    var ideal := t.idealChainMaxlen;
    ExcessPush(chains, bkt, e, ideal);
    newBuckets[bkt] := newBuckets[bkt].(count := newBuckets[bkt].count + 1);
    if newBuckets[bkt].count > ideal {
      t.nonidealItems := t.nonidealItems + 1;
      if newBuckets[bkt].count > newBuckets[bkt].expandMult * ideal {
        newBuckets[bkt] := newBuckets[bkt].(expandMult := newBuckets[bkt].expandMult + 1);
      }
    }
  }

  /** One round of the inner loop of HASH_EXPAND_BUCKETS: `e` moves to its new bucket. */
  method MoveOne(t: Table, newBuckets: array<Bucket>, bkt: nat, e: Elem,
                 ghost chains: seq<seq<Elem>>, ghost home: Elem -> nat, ghost u: set<Elem>)
    requires e in u && !InSomeChain(chains, e) && ChainsOk(chains, home)
    requires bkt < newBuckets.Length
    requires Counted(t, newBuckets, chains) && HeadsMatch(newBuckets, chains) && AllLinked(chains, u)
    modifies t`nonidealItems, newBuckets, e`hhNext, u`hhPrev
    ensures Counted(t, newBuckets, Push(chains, bkt, e))
    ensures HeadsMatch(newBuckets, Push(chains, bkt, e)) && AllLinked(Push(chains, bkt, e), u)
  {
    CountOne(t, newBuckets, bkt, chains, e);
    LinkAtFront(newBuckets, bkt, e, chains, home, u);
  }

  /** The new bucket array once the elements of `done` have moved to it, in that order. */
  ghost predicate Filled(t: Table, buckets: array<Bucket>, done: seq<Elem>, home: Elem -> nat, u: set<Elem>)
    reads t`idealChainMaxlen, t`nonidealItems, buckets, u`hhPrev, u`hhNext
  {
    var chains := Spread(done, home, buckets.Length);
    Counted(t, buckets, chains) && HeadsMatch(buckets, chains) && AllLinked(chains, u)
  }

  lemma SpreadNext(done: seq<Elem>, e: Elem, home: Elem -> nat, n: nat)
    requires NoDup(done) && e !in done && home(e) < n && forall i :: 0 <= i < |done| ==> home(done[i]) < n
    ensures ChainsOk(Spread(done, home, n), home) && !InSomeChain(Spread(done, home, n), e)
    ensures Spread(done + [e], home, n) == Push(Spread(done, home, n), home(e), e)
  {
    SpreadOk(done, home, n);
    SpreadStep(done, home, n, e);
  }

  /** HASH_TO_BKT sends every stored hash value to its element's home bucket. */
  ghost predicate HomesAre(u: set<Elem>, home: Elem -> nat, n: nat)
    requires n > 0
    reads u`hashv
  {
    forall e :: e in u ==> home(e) == BitAnd(e.hashv, n - 1) && home(e) < n
  }

  method MoveNext(t: Table, newBuckets: array<Bucket>, thh: Elem,
                  ghost done: seq<Elem>, ghost home: Elem -> nat, ghost u: set<Elem>)
    requires 0 < t.numBuckets * 2 == newBuckets.Length
    requires thh in u && Within(done, u) && HomesAre(u, home, newBuckets.Length)
    requires NoDup(done) && thh !in done
    requires Filled(t, newBuckets, done, home, u)
    modifies t`nonidealItems, newBuckets, thh`hhNext, u`hhPrev
    ensures Filled(t, newBuckets, done + [thh], home, u)
  {
    var bkt := BitAnd(thh.hashv, t.numBuckets * 2 - 1);
    SpreadNext(done, thh, home, newBuckets.Length);
    MoveOne(t, newBuckets, bkt, thh, Spread(done, home, newBuckets.Length), home, u);
  }

  /** The inner loop of HASH_EXPAND_BUCKETS: every element of one old chain moves. */
  method DrainChain(t: Table, newBuckets: array<Bucket>, first: Elem?, ghost c: seq<Elem>, ghost done: seq<Elem>,
                    ghost home: Elem -> nat, ghost u: set<Elem>)
    requires 0 < t.numBuckets * 2 == newBuckets.Length
    requires Within(done + c, u) && HomesAre(u, home, newBuckets.Length)
    requires NoDup(done + c)
    requires first == At(c, 0) && forall i :: 0 <= i < |c| ==> c[i].hhNext == At(c, i + 1)
    requires Filled(t, newBuckets, done, home, u)
    modifies t`nonidealItems, newBuckets, u`hhNext, u`hhPrev
    ensures Filled(t, newBuckets, done + c, home, u)
    ensures forall x :: x in u && x !in c ==> x.hhNext == old(x.hhNext)
  {
    hide Filled, HomesAre, NoDup;
    var thh := first;
    ghost var j, moved := 0, done;
    while thh != null
      invariant 0 <= j <= |c| && thh == At(c, j)
      invariant moved == (done + c)[..|done| + j]
      invariant forall i :: j <= i < |c| ==> c[i].hhNext == At(c, i + 1)
      invariant forall x :: x in u && x !in c ==> x.hhNext == old(x.hhNext)
      invariant Filled(t, newBuckets, moved, home, u)
      decreases |c| - j
    {
      var nxt := thh.hhNext;
      DrainStep(done, c, j, u);
      MoveNext(t, newBuckets, thh, moved, home, u);
      j, moved := j + 1, moved + [thh];
      thh := nxt;
    }
    assert moved == done + c;
  }

  lemma DrainStep(done: seq<Elem>, c: seq<Elem>, j: nat, u: set<Elem>)
    requires NoDup(done + c) && j < |c| && Within(done + c, u)
    ensures var moved := (done + c)[..|done| + j];
            && NoDup(moved) && c[j] !in moved && Within(moved, u) && c[j] in u
            && moved + [c[j]] == (done + c)[..|done| + j + 1]
    ensures forall i :: j < i < |c| ==> c[i] != c[j]
  {
    PrefixNoDup(done + c, |done| + j);
    assert c[j] == (done + c)[|done| + j];
    NoDupSuffix(done, c);
  }

  lemma PrefixNoDup(s: seq<Elem>, j: nat)
    requires NoDup(s) && j < |s|
    ensures NoDup(s[..j]) && s[j] !in s[..j]
  {
  }

  lemma NoDupSuffix(s: seq<Elem>, c: seq<Elem>)
    requires NoDup(s + c)
    ensures NoDup(c)
  {
    assert forall i :: 0 <= i < |c| ==> c[i] == (s + c)[|s| + i];
  }

  lemma FlattenStep(chains: seq<seq<Elem>>, i: nat)
    requires i < |chains|
    ensures Flatten(chains[..i + 1]) == Flatten(chains[..i]) + chains[i]
  {
    assert chains[..i + 1][..i] == chains[..i];
  }

  lemma {:induction false} FlattenPrefix(chains: seq<seq<Elem>>, i: nat)
    requires i <= |chains|
    ensures Flatten(chains[..i]) <= Flatten(chains)
  {
    if i < |chains| {
      FlattenPrefix(chains[..|chains| - 1], i);
      assert chains[..|chains| - 1][..i] == chains[..i];
    } else {
      assert chains[..i] == chains;
    }
  }

  lemma FlattenStepNoDup(chains: seq<seq<Elem>>, i: nat)
    requires i < |chains| && NoDup(Flatten(chains))
    ensures NoDup(Flatten(chains[..i]) + chains[i])
  {
    FlattenPrefix(chains, i + 1);
    FlattenStep(chains, i);
  }

  ghost predicate NextLinked(c: seq<Elem>)
    reads c`hhNext
  {
    forall i :: 0 <= i < |c| ==> c[i].hhNext == At(c, i + 1)
  }

  /** The outer loop of HASH_EXPAND_BUCKETS. */
  method DrainAll(t: Table, newBuckets: array<Bucket>, ghost chains: seq<seq<Elem>>,
                  ghost home: Elem -> nat, ghost u: set<Elem>)
    requires 0 < t.numBuckets == t.buckets.Length && newBuckets.Length == t.numBuckets * 2
    requires t.buckets != newBuckets
    requires HeadsMatch(t.buckets, chains) && AllLinked(chains, u) && NoDup(Flatten(chains))
    requires HomesAre(u, home, newBuckets.Length)
    requires Filled(t, newBuckets, [], home, u)
    modifies t`nonidealItems, newBuckets, u`hhNext, u`hhPrev
    ensures Filled(t, newBuckets, Flatten(chains), home, u)
  {
    hide Filled;
    hide LatestFirst;
    var i := 0;
    while i < t.numBuckets
      invariant 0 <= i <= |chains|
      invariant forall c :: i <= c < |chains| ==> NextLinked(chains[c])
      invariant Filled(t, newBuckets, Flatten(chains[..i]), home, u)
    {
      FlattenStepNoDup(chains, i);
      FlattenStep(chains, i);
      FlattenWithin(chains, i + 1, u);
      label Before:
      DrainChain(t, newBuckets, t.buckets[i].hhHead, chains[i], Flatten(chains[..i]), home, u);
      forall c | i < c < |chains|
        ensures NextLinked(chains[c])
      {
        LaterDisjoint(chains, i, c);
        assert forall k :: 0 <= k < |chains[c]| ==> chains[c][k] in chains[c];
      }
      i := i + 1;
    }
    assert chains[..i] == chains;
  }

  lemma {:induction false} FlattenWithin(chains: seq<seq<Elem>>, i: nat, u: set<Elem>)
    requires i <= |chains| && forall b :: 0 <= b < |chains| ==> Within(chains[b], u)
    ensures Within(Flatten(chains[..i]), u)
  {
    if i > 0 {
      FlattenWithin(chains, i - 1, u);
      FlattenStep(chains, i - 1);
    }
  }

  lemma {:induction false} LaterDisjoint(chains: seq<seq<Elem>>, i: nat, c: nat)
    requires i < c < |chains| && NoDup(Flatten(chains))
    ensures forall k :: 0 <= k < |chains[c]| ==> chains[c][k] !in chains[i]
  {
    FlattenStepNoDup(chains, c);
    var s := Flatten(chains[..c]);
    NoDupDisjoint(s, chains[c]);
    forall k | 0 <= k < |chains[c]|
      ensures chains[c][k] !in chains[i]
    {
      InFlatten(chains[..c], chains[c][k]);
      assert chains[..c][i] == chains[i];
    }
  }

  lemma NoDupDisjoint(s: seq<Elem>, c: seq<Elem>)
    requires NoDup(s + c)
    ensures forall k :: 0 <= k < |c| ==> c[k] !in s
  {
    forall k, i | 0 <= k < |c| && 0 <= i < |s|
      ensures c[k] != s[i]
    {
      assert (s + c)[|s| + k] == c[k] && (s + c)[i] == s[i];
    }
  }

  lemma FilledEmpty(t: Table, buckets: array<Bucket>, home: Elem -> nat, u: set<Elem>)
    requires t.nonidealItems == 0
    requires forall b :: 0 <= b < buckets.Length ==> buckets[b] == Bucket(null, 0, 0)
    ensures Filled(t, buckets, [], home, u)
  {
    NoExcess(buckets.Length, t.idealChainMaxlen);
  }

  /** HASH_EXPAND_BUCKETS. `home` is HASH_TO_BKT for the doubled table. */
  method ExpandBuckets(t: Table, ghost chains: seq<seq<Elem>>, ghost home: Elem -> nat, ghost u: set<Elem>)
    requires |chains| == t.numBuckets == t.buckets.Length == Pow2(t.log2NumBuckets)
    requires HeadsMatch(t.buckets, chains) && AllLinked(chains, u) && NoDup(Flatten(chains))
    requires HomesAre(u, home, t.numBuckets * 2)
    modifies t`buckets, t`numBuckets, t`log2NumBuckets, t`idealChainMaxlen, t`nonidealItems, t`ineffExpands, t`noexpand
    modifies u`hhNext, u`hhPrev
    ensures fresh(t.buckets)
    ensures t.log2NumBuckets == old(t.log2NumBuckets) + 1
    ensures t.numBuckets == t.buckets.Length == Pow2(t.log2NumBuckets) == 2 * |chains|
    ensures t.idealChainMaxlen == CeilByShift(t.numItems, t.log2NumBuckets)
    ensures Counted(t, t.buckets, Rechain(chains, home))
    ensures HeadsMatch(t.buckets, Rechain(chains, home)) && AllLinked(Rechain(chains, home), u)
    ensures t.ineffExpands == if t.nonidealItems > Shr(t.numItems, 1) then old(t.ineffExpands) + 1 else 0
    ensures t.noexpand == (old(t.noexpand) || t.ineffExpands > 1)
  {
    hide Counted, HeadsMatch, AllLinked, BitAnd, Shr, Flatten, Spread;
    var newBuckets := new Bucket[t.numBuckets * 2](_ => Bucket(null, 0, 0));
    t.idealChainMaxlen := Shr(t.numItems, t.log2NumBuckets + 1)
      + if BitAnd(t.numItems, t.numBuckets * 2 - 1) != 0 then 1 else 0;
    t.nonidealItems := 0;
    FilledEmpty(t, newBuckets, home, u);
    DrainAll(t, newBuckets, chains, home, u);
    t.numBuckets := t.numBuckets * 2;
    t.log2NumBuckets := t.log2NumBuckets + 1;
    t.buckets := newBuckets;
    t.ineffExpands := if t.nonidealItems > Shr(t.numItems, 1) then t.ineffExpands + 1 else 0;
    if t.ineffExpands > 1 {
      t.noexpand := true;
    }
  }

  // ----- removing and finding

  /** The links of chain `c` after unlinking position `k`. */
  ghost predicate Bypassed(c: seq<Elem>, k: nat)
    reads c`hhPrev, c`hhNext
  {
    forall i :: 0 <= i < |c| && i != k ==>
      && c[i].hhPrev == (if i == k + 1 then At(c, k - 1) else At(c, i - 1))
      && c[i].hhNext == (if i == k - 1 then At(c, k + 1) else At(c, i + 1))
  }

  lemma BypassedIsLinked(c: seq<Elem>, k: nat)
    requires k < |c| && Bypassed(c, k)
    ensures ChainLinked(RemoveAt(c, k))
  {
  }

  lemma NeighboursDiffer(c: seq<Elem>, k: nat)
    requires NoDup(c) && k < |c|
    ensures forall i :: 0 <= i < |c| ==> (c[i] == At(c, k - 1) <==> i == k - 1)
    ensures forall i :: 0 <= i < |c| ==> (c[i] == At(c, k + 1) <==> i == k + 1)
  {
  }

  /** The pointer part of HASH_DEL_IN_BKT. */
  method UnlinkHandle(e: Elem, ghost c: seq<Elem>, ghost k: nat)
    requires ChainLinked(c) && NoDup(c) && k < |c| && c[k] == e
    modifies c`hhPrev, c`hhNext
    ensures ChainLinked(RemoveAt(c, k))
  {
    NeighboursDiffer(c, k);
    hide RemoveAt, NoDup;
    assert e.hhPrev == At(c, k - 1) && e.hhNext == At(c, k + 1)
      && forall i :: 0 <= i < |c| ==> c[i].hhPrev == At(c, i - 1) && c[i].hhNext == At(c, i + 1);
    if e.hhPrev != null {
      e.hhPrev.hhNext := e.hhNext;
    }
    if e.hhNext != null {
      e.hhNext.hhPrev := e.hhPrev;
    }
    BypassedIsLinked(c, k);
  }

  method UnlinkInChains(e: Elem, b: nat, ghost chains: seq<seq<Elem>>,
                        ghost home: Elem -> nat, ghost u: set<Elem>, ghost k: nat)
    requires AllLinked(chains, u) && ChainsOk(chains, home)
    requires b < |chains| && k < |chains[b]| && chains[b][k] == e
    modifies u`hhPrev, u`hhNext
    ensures AllLinked(Drop(chains, b, k), u - {e})
  {
    UnlinkHandle(e, chains[b], k);
    DropWithin(chains, home, b, k, u);
    hide Within, RemoveAt;
    forall c | 0 <= c < |chains| && c != b
      ensures ChainLinked(chains[c])
    {
      OtherChain(chains, home, b, c);
    }
  }

  /** HASH_DEL_IN_BKT. */
  method DelInBkt(buckets: array<Bucket>, b: nat, e: Elem, ghost chains: seq<seq<Elem>>, ghost mult: seq<nat>,
                  ghost home: Elem -> nat, ghost u: set<Elem>, ghost k: nat)
    requires HeadsMatch(buckets, chains) && CountsMatch(buckets, chains, mult) && AllLinked(chains, u)
    requires ChainsOk(chains, home)
    requires b < |chains| && k < |chains[b]| && chains[b][k] == e
    modifies buckets, u`hhPrev, u`hhNext
    ensures HeadsMatch(buckets, Drop(chains, b, k)) && CountsMatch(buckets, Drop(chains, b, k), mult)
    ensures AllLinked(Drop(chains, b, k), u - {e})
  {
    HeadOf(chains, home, u, b, k);
    DropFromBucket(buckets, b, e, chains, mult, k);
    hide RemoveAt, AllLinked, ChainsOk, HeadsMatch, CountsMatch;
    UnlinkInChains(e, b, chains, home, u, k);
  }

  method DropFromBucket(buckets: array<Bucket>, b: nat, e: Elem, ghost chains: seq<seq<Elem>>,
                        ghost mult: seq<nat>, ghost k: nat)
    requires HeadsMatch(buckets, chains) && CountsMatch(buckets, chains, mult)
    requires b < |chains| && k < |chains[b]| && (At(chains[b], 0) == e <==> k == 0) && e.hhNext == At(chains[b], k + 1)
    modifies buckets
    ensures HeadsMatch(buckets, Drop(chains, b, k)) && CountsMatch(buckets, Drop(chains, b, k), mult)
  {
    buckets[b] := buckets[b].(count := buckets[b].count - 1);
    if buckets[b].hhHead == e {
      buckets[b] := buckets[b].(hhHead := e.hhNext);
    }
    if |chains[b]| > 1 { RemoveAtIndex(chains[b], k, 0); }
  }

  lemma HeadOf(chains: seq<seq<Elem>>, home: Elem -> nat, u: set<Elem>, b: nat, k: nat)
    requires AllLinked(chains, u) && ChainsOk(chains, home) && b < |chains| && k < |chains[b]|
    ensures At(chains[b], 0) == chains[b][k] <==> k == 0
    ensures chains[b][k].hhNext == At(chains[b], k + 1)
  {
  }

  lemma DropWithin(chains: seq<seq<Elem>>, home: Elem -> nat, b: nat, k: nat, u: set<Elem>)
    requires ChainsOk(chains, home) && b < |chains| && k < |chains[b]|
    requires forall c :: 0 <= c < |chains| ==> Within(chains[c], u)
    ensures forall c :: 0 <= c < |chains| ==> Within(Drop(chains, b, k)[c], u - {chains[b][k]})
  {
  }

  /** HASH_FIND_IN_BKT: compares hash value, key length and key, in chain order. */
  method FindInBkt(first: Elem?, hashv: nat, key: Key, ghost c: seq<Elem>, ghost hash: Key -> nat, ghost u: set<Elem>)
    returns (out: Elem?)
    requires ChainLinked(c) && Within(c, u) && HashesMatch(hash, u) && first == At(c, 0) && hashv == hash(key)
    ensures out == FindKey(c, key)
  {
    out := first;
    ghost var i := 0;
    assert c[0..] == c;
    while out != null
      invariant i <= |c| && out == At(c, i)
      invariant FindKey(c, key) == FindKey(c[i..], key)
      decreases |c| - i
    {
      if out.hashv == hashv && |out.key| == |key| {
        if out.key == key {
          break;
        }
      }
      assert c[i..][1..] == c[i + 1..];
      out := out.hhNext;
      i := i + 1;
    }
  }
}
