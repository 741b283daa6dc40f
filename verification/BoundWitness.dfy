/** A run of adds after which a chain is longer than the documented bound allows, although expansion has not
    been given up. */
module BoundWitness {
  import opened Bits
  import opened Elems
  import opened Seqs
  import opened BucketSpec
  import opened HashSpec
  import opened HashRuns
  import opened HashBounds
  import opened AddRuns

  /** The hash values of the elements, in the order they are added. Nine for each of the first 32 buckets and
      a tenth for bucket 0, which doubles to 64 buckets; nine for each of the other 32; then twenty more for
      each of the first 32, which hash to buckets 64 to 95 of 128. The last one doubles again. */
  function BoundHash(i: nat): nat
    requires i < 1217
  {
    if i < 288 then i / 9
    else if i == 288 then 0
    else if i < 577 then 32 + (i - 289) / 9
    else 95 - (i - 577) / 20
  }

  /** The pattern, extended to all positions. */
  function Pattern(i: nat): nat {
    if i < 1217 then BoundHash(i) else 0
  }

  function Pattern64(i: nat): nat {
    Pattern(i) % 64
  }

  function Clamp(n: int, max: nat): nat {
    if n <= 0 then 0 else if n >= max then max else n
  }

  /** How many of the first `n` elements have hash value `v`. */
  function HashCount(n: nat, v: nat): nat {
    if v < 32 then Clamp(n - 9 * v, 9) + (if v == 0 && n > 288 then 1 else 0)
    else if v < 64 then Clamp(n - 289 - 9 * (v - 32), 9)
    else if v < 96 then Clamp(n - 577 - 20 * (95 - v), 20)
    else 0
  }

  lemma PatternStep(n: nat, v: nat)
    requires n < 1217 && v < 128
    ensures HashCount(n + 1, v) == HashCount(n, v) + if Pattern(n) == v then 1 else 0
  {
  }

  lemma {:induction false} PatternCount(n: nat, v: nat)
    requires n <= 1217 && v < 128
    ensures Count(Pattern, n, v) == HashCount(n, v)
  {
    hide HashCount, Pattern;
    if n == 0 {
      NoneYet(v);
    } else {
      PatternCount(n - 1, v);
      PatternStep(n - 1, v);
    }
  }

  lemma NoneYet(v: nat)
    requires v < 128
    ensures HashCount(0, v) == 0
  {
  }

  lemma {:induction false} Pattern64Count(n: nat, b: nat)
    requires n <= 1217 && b < 64
    ensures Count(Pattern64, n, b) == Count(Pattern, n, b) + Count(Pattern, n, b + 64)
  {
    hide Pattern, Pattern64;
    if n > 0 {
      Pattern64Count(n - 1, b);
      BothHalves(n - 1, b);
    }
  }

  lemma BothHalves(i: nat, b: nat)
    requires b < 64
    ensures Pattern64(i) == b <==> Pattern(i) == b || Pattern(i) == b + 64
  {
    hide Pattern;
    PatternBelow(i);
  }

  lemma PatternBelow(i: nat)
    ensures Pattern(i) < 96 && (i < 289 ==> Pattern(i) < 32)
  {
  }

  ghost predicate Adversary(hash: Hash, xs: seq<Elem>) {
    |xs| == 1217 && NoDup(xs) && forall i :: 0 <= i < 1217 ==> hash(xs[i].key) == BoundHash(i)
  }

  /** The table after `i` adds. */
  ghost predicate Stage(st: State, hash: Hash, xs: seq<Elem>, i: nat)
    requires i <= |xs|
  {
    && Inv(st, hash) && ListOf(st) == xs[..i]
    && (st.Full? ==>
          && !st.t.noexpand
          && if i <= 288 then st.t.log2 == 5 && st.t.ineff == 0 && MultsAre(st.t, 0)
             else if i <= 1216 then st.t.log2 == 6 && MultsAre(st.t, 2)
             else st.t.log2 == 7 && st.t.ideal == 10 && st.t.mult == Mults(st.t.chains, 10))
  }

  /** The first 32 buckets have this expand_mult. */
  predicate MultsAre(t: Tab, m: nat) {
    forall b :: 0 <= b < 32 && b < |t.mult| ==> t.mult[b] == m
  }

  lemma Length32(t: Tab, hash: Hash, xs: seq<Elem>, i: nat, b: nat)
    requires Adversary(hash, xs) && i <= 288 && Inv(Full(t), hash) && t.app == xs[..i] && t.log2 == 5 && b < 32
    ensures |t.chains| == 32 && |t.chains[b]| == HashCount(i, b)
  {
    hide ChainsOk, SameElements, NoDup, Pow2, Count, HashCount, BoundHash;
    SmallPowers();
    forall j | 0 <= j < i
      ensures hash(xs[j].key) % 32 == Pattern(j)
    {
      PatternBelow(j);
    }
    PatternLength(t, hash, xs, Pattern, i, b);
    PatternCount(i, b);
  }

  lemma Length64(t: Tab, hash: Hash, xs: seq<Elem>, i: nat, b: nat)
    requires Adversary(hash, xs) && i <= 1217 && Inv(Full(t), hash) && t.app == xs[..i] && t.log2 == 6 && b < 64
    ensures |t.chains| == 64 && |t.chains[b]| == HashCount(i, b) + HashCount(i, b + 64)
  {
    hide ChainsOk, SameElements, NoDup, Pow2, Count, HashCount, BoundHash;
    SmallPowers();
    PatternLength(t, hash, xs, Pattern64, i, b);
    Pattern64Count(i, b);
    PatternCount(i, b);
    PatternCount(i, b + 64);
  }

  lemma Length128(t: Tab, hash: Hash, xs: seq<Elem>, b: nat)
    requires Adversary(hash, xs) && Inv(Full(t), hash) && t.app == xs && t.log2 == 7 && b < 128
    ensures |t.chains| == 128 && |t.chains[b]| == HashCount(1217, b)
  {
    hide ChainsOk, SameElements, NoDup, Pow2, Count, HashCount, BoundHash;
    SmallPowers();
    assert xs[..1217] == xs;
    forall j | 0 <= j < 1217
      ensures hash(xs[j].key) % 128 == Pattern(j)
    {
      PatternBelow(j);
    }
    PatternLength(t, hash, xs, Pattern, 1217, b);
    PatternCount(1217, b);
  }

  // ----- which adds double

  lemma Room32(t: Tab, hash: Hash, xs: seq<Elem>, i: nat)
    requires Adversary(hash, xs) && i <= 288 && Inv(Full(t), hash) && t.app == xs[..i] && t.log2 == 5
    requires MultsAre(t, 0) && !t.noexpand
    ensures Doubles(t, hash, xs[i]) <==> i == 288
  {
    hide ChainsOk, SameElements, NoDup, Pow2, BitAnd;
    SmallPowers();
    PatternBelow(i);
    MaskIsMod(hash(xs[i].key), 5);
    Length32(t, hash, xs, i, BoundHash(i));
  }

  lemma Space64(i: nat)
    requires 289 <= i <= 1216
    ensures var b := Pattern64(i);
            var length := HashCount(i, b) + HashCount(i, b + 64);
            if b < 32 then length + 1 >= 30 <==> i == 1216 else length + 1 < 10 && i < 1216
  {
    PatternBelow(i);
    if i < 577 {
      assert Pattern64(i) == 32 + (i - 289) / 9;
    } else {
      assert Pattern64(i) == 31 - (i - 577) / 20;
    }
  }

  lemma Room64(t: Tab, hash: Hash, xs: seq<Elem>, i: nat)
    requires Adversary(hash, xs) && 289 <= i <= 1216 && Inv(Full(t), hash) && t.app == xs[..i] && t.log2 == 6
    requires MultsAre(t, 2) && !t.noexpand
    ensures Doubles(t, hash, xs[i]) <==> i == 1216
  {
    hide ChainsOk, SameElements, NoDup, Pow2, BitAnd, BoundHash, HashCount;
    SmallPowers();
    MaskIsMod(hash(xs[i].key), 6);
    Length64(t, hash, xs, i, Pattern64(i));
    Space64(i);
  }

  lemma CeilValues()
    ensures CeilByShift(289, 6) == 5 && CeilByShift(1217, 7) == 10 && Shr(1217, 1) == 608
  {
    hide Pow2, BitAnd, Shr;
    SmallPowers();
    ShrIsDiv(289, 6);
    ShrIsDiv(1217, 7);
    ShrIsDiv(1217, 1);
    MaskIsMod(289, 6);
    MaskIsMod(1217, 7);
    assert Pow2(1) == 2 by { PowerOne(); }
  }

  lemma PowerOne()
    ensures Pow2(1) == 2
  {
  }

  lemma MultOfNine(count: nat)
    requires 9 <= count <= 10
    ensures Mult(count, 5) == 2
  {
    MultBounds(count, 5);
    hide Mult;
    assert IsCeil(Mult(count, 5), count, 5);
  }

  lemma AfterFirst(t: Tab, hash: Hash, xs: seq<Elem>)
    requires Adversary(hash, xs) && Inv(Full(t), hash) && t.app == xs[..289]
    requires t.log2 == 6 && t.mult == Mults(t.chains, 5)
    ensures MultsAre(t, 2)
  {
    hide ChainsOk, SameElements, NoDup, Mult;
    forall b | 0 <= b < 32 && b < |t.mult|
      ensures t.mult[b] == 2
    {
      Length64(t, hash, xs, 289, b);
      MultOfNine(|t.chains[b]|);
    }
  }

  /** Only the chains of buckets 64 to 95 are longer than ten, by at most ten. */
  lemma {:induction false} FewExcess(chains: seq<seq<Elem>>)
    requires forall b :: 0 <= b < |chains| ==> |chains[b]| <= if 64 <= b < 96 then 20 else 10
    ensures TotalExcess(chains, 10) <= 10 * Clamp(|chains| - 64, 32)
  {
    if chains != [] { FewExcess(chains[..|chains| - 1]); }
  }

  lemma AfterLast(t: Tab, hash: Hash, xs: seq<Elem>)
    requires Adversary(hash, xs) && Inv(Full(t), hash) && t.app == xs && t.log2 == 7
    ensures TotalExcess(t.chains, 10) <= 320
  {
    hide ChainsOk, SameElements, NoDup, TotalExcess;
    forall b | 0 <= b < |t.chains|
      ensures |t.chains[b]| <= if 64 <= b < 96 then 20 else 10
    {
      SmallPowers();
      Length128(t, hash, xs, b);
    }
    FewExcess(t.chains);
  }

  lemma StageStep(st: State, hash: Hash, xs: seq<Elem>, i: nat)
    requires Adversary(hash, xs) && i < 1217 && Stage(st, hash, xs, i)
    ensures Enabled(st, hash, OpAdd(xs[i])) && Stage(Add(st, hash, xs[i]), hash, xs, i + 1)
  {
    hide ChainsOk, SameElements, NoDup, Pow2, Add, BoundHash, Shr, TotalExcess, CeilByShift, Mults, Doubles;
    NextAdd(st, hash, xs, i);
    var st' := Add(st, hash, xs[i]);
    if i == 0 {
      FirstAdd(hash, xs[0]);
    } else {
      AddShape(st.t, hash, xs[i]);
      CeilValues();
      if i <= 288 {
        Room32(st.t, hash, xs, i);
        if i == 288 { AfterFirst(st'.t, hash, xs); }
      } else {
        Room64(st.t, hash, xs, i);
        if i == 1216 {
          assert xs[..1217] == xs;
          AfterLast(st'.t, hash, xs);
        }
      }
    }
  }

  lemma {:induction false} StageRun(st: State, hash: Hash, xs: seq<Elem>, i: nat)
    requires Adversary(hash, xs) && i <= 1217 && Stage(st, hash, xs, i)
    ensures Runnable(st, hash, Adds(xs[i..])) && Stage(Run(st, hash, Adds(xs[i..])), hash, xs, 1217)
    decreases 1217 - i
  {
    hide ChainsOk, SameElements, NoDup, Add, Enabled, BoundHash;
    if i < 1217 {
      StageStep(st, hash, xs, i);
      NextAdd(st, hash, xs, i);
      StageRun(Add(st, hash, xs[i]), hash, xs, i + 1);
      RunNextAdd(st, hash, xs[i], Adds(xs[i + 1..]));
    }
  }

  /** Adding these elements to an empty table leaves bucket 0 with a chain of ten and an expand_mult of 0,
      with expansion not given up. */
  lemma BoundBroken(hash: Hash, xs: seq<Elem>)
    requires Adversary(hash, xs)
    ensures Runnable(Empty, hash, Adds(xs))
    ensures var st := Run(Empty, hash, Adds(xs));
            && st.Full? && !st.t.noexpand && |st.t.chains| == |st.t.mult| == 128
            && |st.t.chains[0]| == 10 && st.t.mult[0] == 0 && !BelowThreshold(st.t)
  {
    hide Run, Runnable, Adds, ChainsOk, SameElements, NoDup, BoundHash, Mult, Pow2;
    SmallPowers();
    assert xs[0..] == xs && xs[..1217] == xs;
    StageRun(Empty, hash, xs, 0);
    var t := Run(Empty, hash, Adds(xs)).t;
    Length128(t, hash, xs, 0);
    MultBounds(10, 10);
  }
}
