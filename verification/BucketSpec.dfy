/** What the bucket array of a table means: one sequence of elements per bucket, and how adding,
    removing and doubling change those sequences. Nothing here reads the heap. */
module BucketSpec {
  import opened Bits
  import opened Elems
  import opened Seqs

  /** HASH_TO_BKT for every element of a table with 2^log2 buckets. */
  function Homes(hash: Key -> nat, log2: nat): Elem -> nat {
    (e: Elem) => BitAnd(hash(e.key), Pow2(log2) - 1)
  }

  lemma HomesIsMod(hash: Key -> nat, log2: nat, e: Elem)
    ensures Homes(hash, log2)(e) == hash(e.key) % Pow2(log2) < Pow2(log2)
  {
    MaskIsMod(hash(e.key), log2);
  }

  /** Every element sits in its own bucket, and no chain repeats one. */
  ghost predicate ChainsOk(chains: seq<seq<Elem>>, home: Elem -> nat) {
    && (forall b, i :: 0 <= b < |chains| && 0 <= i < |chains[b]| ==> home(chains[b][i]) == b)
    && (forall b :: 0 <= b < |chains| ==> NoDup(chains[b]))
  }

  ghost predicate InSomeChain(chains: seq<seq<Elem>>, e: Elem) {
    exists b :: 0 <= b < |chains| && e in chains[b]
  }

  /** The chains hold exactly the elements of the application list. */
  ghost predicate SameElements(app: seq<Elem>, chains: seq<seq<Elem>>) {
    && (forall e :: e in app ==> InSomeChain(chains, e))
    && (forall b, i :: 0 <= b < |chains| && 0 <= i < |chains[b]| ==> chains[b][i] in app)
  }

  lemma InHomeChain(chains: seq<seq<Elem>>, home: Elem -> nat, e: Elem)
    requires ChainsOk(chains, home)
    ensures InSomeChain(chains, e) <==> home(e) < |chains| && e in chains[home(e)]
  {
  }

  // ----- adding and removing one element

  function Push(chains: seq<seq<Elem>>, b: nat, e: Elem): (r: seq<seq<Elem>>)
    requires b < |chains|
    ensures |r| == |chains|
  {
    chains[b := [e] + chains[b]]
  }

  lemma PushOk(chains: seq<seq<Elem>>, home: Elem -> nat, e: Elem)
    requires ChainsOk(chains, home) && home(e) < |chains| && !InSomeChain(chains, e)
    ensures ChainsOk(Push(chains, home(e), e), home)
    ensures forall x :: InSomeChain(Push(chains, home(e), e), x) <==> x == e || InSomeChain(chains, x)
  {
    var h := home(e);
    var r := Push(chains, h, e);
    assert e !in chains[h];
    forall x
      ensures InSomeChain(r, x) <==> x == e || InSomeChain(chains, x)
    {
      if InSomeChain(r, x) {
        var b :| 0 <= b < |r| && x in r[b];
        if x != e { assert x in chains[b]; }
      }
      if InSomeChain(chains, x) {
        var b :| 0 <= b < |chains| && x in chains[b];
        assert x in r[b];
      }
      assert e in r[h];
    }
  }

  function Drop(chains: seq<seq<Elem>>, b: nat, k: nat): (r: seq<seq<Elem>>)
    requires b < |chains| && k < |chains[b]|
    ensures |r| == |chains|
  {
    chains[b := RemoveAt(chains[b], k)]
  }

  lemma DropOk(chains: seq<seq<Elem>>, home: Elem -> nat, b: nat, k: nat)
    requires ChainsOk(chains, home) && b < |chains| && k < |chains[b]|
    ensures ChainsOk(Drop(chains, b, k), home)
    ensures forall x :: InSomeChain(Drop(chains, b, k), x) <==> x != chains[b][k] && InSomeChain(chains, x)
  {
    var r, e := Drop(chains, b, k), chains[b][k];
    NoDupRemoveAt(chains[b], k);
    forall x
      ensures InSomeChain(r, x) <==> x != e && InSomeChain(chains, x)
    {
      InHomeChain(chains, home, x);
      if InSomeChain(r, x) {
        var c :| 0 <= c < |r| && x in r[c];
        assert x in chains[c];
      }
      if x != e && InSomeChain(chains, x) { assert x in r[home(x)]; }
    }
  }

  /** The number of linked chain members is the number of elements in the application list. */
  lemma ChainTotal(app: seq<Elem>, chains: seq<seq<Elem>>, home: Elem -> nat)
    requires NoDup(app) && ChainsOk(chains, home) && SameElements(app, chains)
    ensures Sum(Lengths(chains)) == |app|
  {
    FlattenLength(chains);
    FlattenNoDup(chains, home);
    forall x | x in app
      ensures x in Flatten(chains)
    {
      InFlatten(chains, x);
    }
    forall x | x in Flatten(chains)
      ensures x in app
    {
      InFlatten(chains, x);
      var b :| 0 <= b < |chains| && x in chains[b];
      var i :| 0 <= i < |chains[b]| && chains[b][i] == x;
    }
    SameMembersSameLength(app, Flatten(chains));
  }

  lemma {:induction false} FlattenNoDup(chains: seq<seq<Elem>>, home: Elem -> nat)
    requires ChainsOk(chains, home)
    ensures NoDup(Flatten(chains))
  {
    if chains != [] {
      var init, last := chains[..|chains| - 1], chains[|chains| - 1];
      FlattenNoDup(init, home);
      forall x | x in Flatten(init)
        ensures x !in last
      {
        InFlatten(init, x);
        InHomeChain(init, home, x);
        if x in last { InHomeChain(chains, home, x); }
      }
      NoDupConcat(Flatten(init), last);
    }
  }

  // ----- finding

  /** HASH_FIND_IN_BKT. */
  function FindKey(c: seq<Elem>, k: Key): Elem? {
    if c == [] then null else if c[0].key == k then c[0] else FindKey(c[1..], k)
  }

  /** Position `i` is the first of `c` with the key. */
  ghost predicate FirstWithKey(c: seq<Elem>, k: Key, i: nat) {
    i < |c| && c[i].key == k && forall j :: 0 <= j < i ==> c[j].key != k
  }

  lemma {:induction false} FindKeyIsFirst(c: seq<Elem>, k: Key, i: nat)
    requires FirstWithKey(c, k, i)
    ensures FindKey(c, k) == c[i]
  {
    if i > 0 { FindKeyIsFirst(c[1..], k, i - 1); }
  }

  lemma {:induction false} FindKeyOk(c: seq<Elem>, k: Key)
    ensures FindKey(c, k) == null ==> forall i :: 0 <= i < |c| ==> c[i].key != k
    ensures FindKey(c, k) != null ==> FindKey(c, k) in c && FindKey(c, k).key == k
  {
    if c != [] && c[0].key != k {
      FindKeyOk(c[1..], k);
    }
  }

  // ----- doubling

  /** The members of `xs` that live in bucket `b`, latest first: what pushing them one by one leaves. */
  function LatestFirst(xs: seq<Elem>, home: Elem -> nat, b: nat): seq<Elem> {
    if xs == [] then []
    else
      var e := xs[|xs| - 1];
      (if home(e) == b then [e] else []) + LatestFirst(xs[..|xs| - 1], home, b)
  }

  function Empties(n: nat): (r: seq<seq<Elem>>)
    ensures |r| == n && forall b :: 0 <= b < n ==> r[b] == []
  {
    seq(n, _ => [])
  }

  /** The chains of `n` buckets after pushing the members of `xs` one by one. */
  function Spread(xs: seq<Elem>, home: Elem -> nat, n: nat): (r: seq<seq<Elem>>)
    ensures |r| == n
  {
    if xs == [] then Empties(n)
    else
      var e, chains := xs[|xs| - 1], Spread(xs[..|xs| - 1], home, n);
      if home(e) < n then Push(chains, home(e), e) else chains
  }

  /** HASH_EXPAND_BUCKETS on the chains: walk all old chains in order, pushing onto twice as many. */
  function Rechain(chains: seq<seq<Elem>>, home: Elem -> nat): seq<seq<Elem>> {
    Spread(Flatten(chains), home, 2 * |chains|)
  }

  lemma SpreadStep(xs: seq<Elem>, home: Elem -> nat, n: nat, e: Elem)
    requires home(e) < n
    ensures Spread(xs + [e], home, n) == Push(Spread(xs, home, n), home(e), e)
  {
  }

  lemma {:induction false} SpreadAt(xs: seq<Elem>, home: Elem -> nat, n: nat, b: nat)
    requires b < n
    ensures Spread(xs, home, n)[b] == LatestFirst(xs, home, b)
  {
    if xs != [] {
      SpreadAt(xs[..|xs| - 1], home, n, b);
    }
  }

  lemma {:induction false} LatestFirstOk(xs: seq<Elem>, home: Elem -> nat, b: nat)
    ensures forall e :: e in LatestFirst(xs, home, b) <==> e in xs && home(e) == b
    ensures forall i :: 0 <= i < |LatestFirst(xs, home, b)| ==>
              home(LatestFirst(xs, home, b)[i]) == b && LatestFirst(xs, home, b)[i] in xs
    ensures NoDup(xs) ==> NoDup(LatestFirst(xs, home, b))
  {
    if xs != [] {
      LatestFirstOk(xs[..|xs| - 1], home, b);
      assert xs == xs[..|xs| - 1] + [xs[|xs| - 1]];
    }
  }

  lemma SpreadOk(xs: seq<Elem>, home: Elem -> nat, n: nat)
    requires NoDup(xs) && forall e :: e in xs ==> home(e) < n
    ensures ChainsOk(Spread(xs, home, n), home)
    ensures forall e :: InSomeChain(Spread(xs, home, n), e) <==> e in xs
  {
    var r := Spread(xs, home, n);
    forall b | 0 <= b < n
      ensures NoDup(r[b])
      ensures forall e :: e in r[b] <==> e in xs && home(e) == b
    {
      LatestFirstOk(xs, home, b);
      SpreadAt(xs, home, n, b);
    }
    forall b, i | 0 <= b < n && 0 <= i < |r[b]|
      ensures home(r[b][i]) == b
    {
      LatestFirstOk(xs, home, b);
      SpreadAt(xs, home, n, b);
    }
    forall e | e in xs
      ensures InSomeChain(r, e)
    {
      assert e in r[home(e)];
    }
  }

  /** Doubling loses nothing and invents nothing, and leaves every element in its own new bucket. */
  lemma RechainOk(chains: seq<seq<Elem>>, home: Elem -> nat, home': Elem -> nat)
    requires ChainsOk(chains, home) && forall e :: InSomeChain(chains, e) ==> home'(e) < 2 * |chains|
    ensures ChainsOk(Rechain(chains, home'), home')
    ensures forall e :: InSomeChain(Rechain(chains, home'), e) <==> InSomeChain(chains, e)
  {
    FlattenNoDup(chains, home);
    forall e
      ensures e in Flatten(chains) <==> InSomeChain(chains, e)
    {
      InFlatten(chains, e);
    }
    forall e | e in Flatten(chains)
      ensures home'(e) < 2 * |chains|
    {
      InFlatten(chains, e);
    }
    SpreadOk(Flatten(chains), home', 2 * |chains|);
  }

  lemma LatestFirstSnoc(xs: seq<Elem>, e: Elem, home: Elem -> nat, b: nat)
    ensures LatestFirst(xs + [e], home, b) == (if home(e) == b then [e] else []) + LatestFirst(xs, home, b)
  {
  }

  lemma {:induction false} LatestFirstConcat(xs: seq<Elem>, ys: seq<Elem>, home: Elem -> nat, b: nat)
    ensures LatestFirst(xs + ys, home, b) == LatestFirst(ys, home, b) + LatestFirst(xs, home, b)
  {
    if ys == [] {
      assert xs + ys == xs;
    } else {
      hide LatestFirst;
      var e, init := ys[|ys| - 1], ys[..|ys| - 1];
      var own := if home(e) == b then [e] else [];
      LatestFirstConcat(xs, init, home, b);
      LatestFirstSnoc(xs + init, e, home, b);
      LatestFirstSnoc(init, e, home, b);
      SplitLast(ys);
      ConcatAssoc(xs, init, [e]);
      ConcatAssoc(own, LatestFirst(init, home, b), LatestFirst(xs, home, b));
    }
  }

  lemma {:induction false} LatestFirstNone(xs: seq<Elem>, home: Elem -> nat, b: nat)
    requires forall i :: 0 <= i < |xs| ==> home(xs[i]) != b
    ensures LatestFirst(xs, home, b) == []
  {
    if xs != [] { LatestFirstNone(xs[..|xs| - 1], home, b); }
  }

  lemma {:induction false} LatestFirstFlattenNone(chains: seq<seq<Elem>>, home: Elem -> nat, b: nat)
    requires forall d, i :: 0 <= d < |chains| && 0 <= i < |chains[d]| ==> home(chains[d][i]) != b
    ensures LatestFirst(Flatten(chains), home, b) == []
  {
    if chains != [] {
      var init, last := chains[..|chains| - 1], chains[|chains| - 1];
      LatestFirstFlattenNone(init, home, b);
      LatestFirstNone(last, home, b);
      LatestFirstConcat(Flatten(init), last, home, b);
    }
  }

  lemma {:induction false} LatestFirstFlatten(chains: seq<seq<Elem>>, home: Elem -> nat, b: nat, c: nat)
    requires c < |chains|
    requires forall d, i :: 0 <= d < |chains| && d != c && 0 <= i < |chains[d]| ==> home(chains[d][i]) != b
    ensures LatestFirst(Flatten(chains), home, b) == LatestFirst(chains[c], home, b)
  {
    var init, last := chains[..|chains| - 1], chains[|chains| - 1];
    LatestFirstConcat(Flatten(init), last, home, b);
    if c == |init| {
      LatestFirstFlattenNone(init, home, b);
      assert LatestFirst(last, home, b) + [] == LatestFirst(last, home, b);
    } else {
      LatestFirstNone(last, home, b);
      LatestFirstFlatten(init, home, b, c);
      assert [] + LatestFirst(init[c], home, b) == LatestFirst(chains[c], home, b);
    }
  }

  /** Each new chain is made from one old chain only, in reverse: bucket `b` takes from old bucket
      `b` or `b - n`, so an element of old bucket `i` ends in `i` or in `i + n`. */
  lemma RechainSplits(chains: seq<seq<Elem>>, hash: Key -> nat, log2: nat, b: nat)
    requires |chains| == Pow2(log2) && ChainsOk(chains, Homes(hash, log2)) && b < 2 * |chains|
    ensures var old_b := if b < |chains| then b else b - |chains|;
            Rechain(chains, Homes(hash, log2 + 1))[b] == LatestFirst(chains[old_b], Homes(hash, log2 + 1), b)
  {
    var n := |chains|;
    var c := if b < n then b else b - n;
    forall d, i | 0 <= d < n && d != c && 0 <= i < |chains[d]|
      ensures Homes(hash, log2 + 1)(chains[d][i]) != b
    {
      var e := chains[d][i];
      HomesIsMod(hash, log2, e);
      HomesIsMod(hash, log2 + 1, e);
      SplitBucket(hash(e.key), n);
    }
    LatestFirstFlatten(chains, Homes(hash, log2 + 1), b, c);
    SpreadAt(Flatten(chains), Homes(hash, log2 + 1), 2 * n, b);
  }

  // ----- chain-length bookkeeping of the doubling

  function Excess(count: nat, ideal: nat): nat {
    if count > ideal then count - ideal else 0
  }

  /** The number of elements whose chain position exceeds the ideal length. */
  function TotalExcess(chains: seq<seq<Elem>>, ideal: nat): nat {
    if chains == [] then 0
    else TotalExcess(chains[..|chains| - 1], ideal) + Excess(|chains[|chains| - 1]|, ideal)
  }

  /** The expand_mult a bucket reaches when `count` elements are pushed onto it during a doubling. */
  function Mult(count: nat, ideal: nat): nat {
    if count == 0 then 0
    else
      var m := Mult(count - 1, ideal);
      if count > ideal && count > m * ideal then m + 1 else m
  }

  function Mults(chains: seq<seq<Elem>>, ideal: nat): (r: seq<nat>)
    ensures |r| == |chains| && forall b :: 0 <= b < |r| ==> r[b] == Mult(|chains[b]|, ideal)
  {
    seq(|chains|, b requires 0 <= b < |chains| => Mult(|chains[b]|, ideal))
  }

  lemma {:induction false} ExcessPush(chains: seq<seq<Elem>>, b: nat, e: Elem, ideal: nat)
    requires b < |chains|
    ensures TotalExcess(Push(chains, b, e), ideal) ==
            TotalExcess(chains, ideal) + if |chains[b]| + 1 > ideal then 1 else 0
  {
    var init := chains[..|chains| - 1];
    if b == |init| {
      assert Push(chains, b, e)[..|init|] == init;
    } else {
      assert Push(chains, b, e)[..|init|] == Push(init, b, e);
      ExcessPush(init, b, e, ideal);
    }
  }

  /** How many chains are longer than `ideal`. */
  function LongerThan(chains: seq<seq<Elem>>, ideal: nat): nat {
    if chains == [] then 0
    else LongerThan(chains[..|chains| - 1], ideal) + if |chains[|chains| - 1]| > ideal then 1 else 0
  }

  /** An ideal length one too small counts one element too many per chain that is longer. */
  lemma {:induction false} ExcessOneShort(chains: seq<seq<Elem>>, ideal: nat)
    ensures TotalExcess(chains, ideal) == TotalExcess(chains, ideal + 1) + LongerThan(chains, ideal)
  {
    if chains != [] { ExcessOneShort(chains[..|chains| - 1], ideal); }
  }

  lemma {:induction false} SomeChainLonger(chains: seq<seq<Elem>>, ideal: nat)
    requires LongerThan(chains, ideal) == 0
    ensures Sum(Lengths(chains)) <= |chains| * ideal
  {
    if chains != [] {
      var init := chains[..|chains| - 1];
      SomeChainLonger(init, ideal);
      assert Lengths(chains)[..|init|] == Lengths(init);
      assert |chains| * ideal == |init| * ideal + ideal;
    }
  }

  lemma {:induction false} NoExcess(n: nat, ideal: nat)
    ensures TotalExcess(Empties(n), ideal) == 0
  {
    if n > 0 {
      assert Empties(n)[..n - 1] == Empties(n - 1);
      NoExcess(n - 1, ideal);
    }
  }

  lemma CeilFromBounds(m: nat, count: nat, ideal: nat)
    requires (m - 1) * ideal < count <= m * ideal
    ensures IsCeil(m, count, ideal)
  {
  }

  ghost predicate MultInBounds(m: nat, count: nat, ideal: nat) {
    && (count <= ideal ==> m == 0)
    && (count > ideal ==> (m - 1) * ideal < count <= m * ideal + 1)
    && (count == ideal + 1 ==> m == 1)
    && (count > ideal + 1 && ideal > 1 ==> count <= m * ideal)
    && (count > ideal && ideal == 1 ==> m == count - 1)
  }

  lemma MultStep(m: nat, count: nat, ideal: nat)
    requires ideal >= 1 && count >= 1 && MultInBounds(m, count - 1, ideal)
    ensures MultInBounds(if count > ideal && count > m * ideal then m + 1 else m, count, ideal)
  {
  }

  lemma {:induction false} MultIsInBounds(count: nat, ideal: nat)
    requires ideal >= 1
    ensures MultInBounds(Mult(count, ideal), count, ideal)
  {
    if count > 0 {
      MultIsInBounds(count - 1, ideal);
      MultStep(Mult(count - 1, ideal), count, ideal);
    }
  }

  /** A chain above the ideal length has a multiplier within one ideal length of its count: the
      ceiling of count / ideal, except one less when ideal is 1 and just above the ideal length. */
  lemma {:induction false} MultBounds(count: nat, ideal: nat)
    requires ideal >= 1
    ensures count <= ideal ==> Mult(count, ideal) == 0
    ensures count > ideal ==> (Mult(count, ideal) - 1) * ideal < count <= Mult(count, ideal) * ideal + 1
    ensures count == ideal + 1 ==> Mult(count, ideal) == 1
    ensures count > ideal + 1 && ideal > 1 ==> IsCeil(Mult(count, ideal), count, ideal)
    ensures count > ideal && ideal == 1 ==> Mult(count, ideal) == count - 1
  {
    MultIsInBounds(count, ideal);
    if count > ideal + 1 && ideal > 1 {
      CeilFromBounds(Mult(count, ideal), count, ideal);
    }
  }
}
