/** A run of adds after which HASH_SELECT stores a wrong ideal chain length. */
module SelectWitness {
  import opened Bits
  import opened Elems
  import opened Seqs
  import opened BucketSpec
  import opened HashSpec
  import opened HashRuns
  import opened AddRuns
  import opened SelectSpec
  import opened HashSelect

  // ----- the destination

  /** Nine elements to a bucket, buckets filled one after another. */
  ghost predicate NineEach(hash: Hash, ds: seq<Elem>) {
    |ds| <= 64 && NoDup(ds) && forall i :: 0 <= i < |ds| ==> hash(ds[i].key) == i / 9
  }

  /** `n` elements in the first buckets of a table that has never doubled. */
  ghost predicate Filling(t: Tab, n: nat) {
    && t.log2 == 5 && |t.chains| == |t.mult| == 32 && !t.noexpand && t.numItems == n
    && forall b :: 0 <= b < 32 ==> t.mult[b] == 0 && |t.chains[b]| == Share(n, b)
  }

  lemma FillingStep(t: Tab, hash: Hash, d: Elem)
    requires t.numItems < 64 && Filling(t, t.numItems) && hash(d.key) == t.numItems / 9
    ensures Sized(t) && Filling(SelectOne(Full(t), hash, d).t, t.numItems + 1)
  {
    hide Expand, BitAnd, SelectOne, Pow2;
    SmallPowers();
    MaskIsMod(hash(d.key), 5);
    SelectOneSplits(t, hash, d);
  }

  lemma {:induction false} NineEachSelected(hash: Hash, ds: seq<Elem>)
    requires NineEach(hash, ds) && ds != []
    ensures Filling(Select(hash, ds).t, |ds|)
  {
    hide Filling, SelectOne;
    var init, d := ds[..|ds| - 1], ds[|ds| - 1];
    if init == [] {
      FirstSelected(hash, d);
    } else {
      NineEachSelected(hash, init);
      FillingStep(Select(hash, init).t, hash, d);
    }
  }

  lemma FirstSelected(hash: Hash, d: Elem)
    requires hash(d.key) == 0
    ensures Filling(SelectOne(Empty, hash, d).t, 1)
  {
    hide Expand;
    SmallPowers();
    assert Filling(MakeTable(d), 0);
    MaskIsMod(0, 5);
  }

  /** With 64 elements selected, nine in the bucket of a 65th, selecting that one doubles to 64 buckets and
      an ideal length of 1, where 65 elements need 2. */
  lemma SixtyFifthSelected(hash: Hash, ds: seq<Elem>, d: Elem)
    requires NineEach(hash, ds) && |ds| == 64 && d !in ds && hash(d.key) == 32
    ensures var t := SelectOne(Select(hash, ds), hash, d).t;
            |t.chains| == 64 && t.numItems == 65 && t.ideal == 1 && IsCeil(2, 65, 64)
  {
    hide AddToBkt, Expand, BitAnd, Pow2;
    NineEachSelected(hash, ds);
    var t := Select(hash, ds).t;
    SmallPowers();
    MaskIsMod(32, 5);
    assert Doubles(t, hash, d);
    SelectDoublingIff(Select(hash, ds), hash, ds, d);
    CeilAt65();
    CeilUnique(2, SelectOne(Select(hash, ds), hash, d).t.ideal + 1, 65, 64);
  }

  lemma CeilAt65()
    ensures IsCeil(2, 65, 64)
  {
  }

  // ----- the source

  /** The hash values of the 65 elements, in the order they are added: the tenth doubles the source. */
  function SourceHash(i: nat): nat {
    if i < 9 then 0 else if i == 9 then 32 else (i - 1) / 9
  }

  ghost predicate Source(hash: Hash, xs: seq<Elem>) {
    |xs| == 65 && NoDup(xs) && forall i :: 0 <= i < 65 ==> hash(xs[i].key) == SourceHash(i)
  }

  /** The source after `i` adds. */
  ghost predicate SourceStage(st: State, hash: Hash, xs: seq<Elem>, i: nat)
    requires i <= |xs|
  {
    && Inv(st, hash) && ListOf(st) == xs[..i]
    && (st.Full? ==>
          && !st.t.noexpand
          && if i <= 9 then st.t.log2 == 5 && st.t.ineff == 0 && st.t.mult[0] == 0 else st.t.log2 == 6)
  }

  lemma {:induction false} EarlyCount(i: nat)
    requires i <= 9
    ensures Count(_ => 0, i, 0) == i
  {
    if i > 0 { EarlyCount(i - 1); }
  }

  lemma {:induction false} SourceCount(i: nat, b: nat)
    requires i <= 65 && b < 64
    ensures Count(SourceHash, i, b) == if i <= 9 then Share(i, b) else if b == 32 then 1 else Share(i - 1, b)
  {
    if i > 0 { SourceCount(i - 1, b); }
  }

  lemma EarlyLength(t: Tab, hash: Hash, xs: seq<Elem>, i: nat)
    requires Source(hash, xs) && i <= 9 && Inv(Full(t), hash) && t.app == xs[..i] && t.log2 == 5
    ensures |t.chains| == 32 && |t.chains[0]| == i
  {
    hide ChainsOk, SameElements, NoDup, Pow2, Count;
    SmallPowers();
    PatternLength(t, hash, xs, _ => 0, i, 0);
    EarlyCount(i);
  }

  lemma LateLength(t: Tab, hash: Hash, xs: seq<Elem>, i: nat, b: nat)
    requires Source(hash, xs) && 10 <= i <= 65 && Inv(Full(t), hash) && t.app == xs[..i] && t.log2 == 6 && b < 64
    ensures |t.chains| == 64 && |t.chains[b]| == if b == 32 then 1 else Share(i - 1, b)
  {
    hide ChainsOk, SameElements, NoDup, Pow2, Count;
    SmallPowers();
    PatternLength(t, hash, xs, SourceHash, i, b);
    SourceCount(i, b);
  }

  lemma SourceStep(st: State, hash: Hash, xs: seq<Elem>, i: nat)
    requires Source(hash, xs) && i < 65 && SourceStage(st, hash, xs, i)
    ensures Enabled(st, hash, OpAdd(xs[i])) && SourceStage(Add(st, hash, xs[i]), hash, xs, i + 1)
  {
    hide ChainsOk, SameElements, NoDup, Pow2, Add, Count, BitAnd, Share, Shr, TotalExcess, CeilByShift;
    SmallPowers();
    NextAdd(st, hash, xs, i);
    MaskIsMod(hash(xs[i].key), 5);
    MaskIsMod(hash(xs[i].key), 6);
    if i == 0 {
      FirstAdd(hash, xs[0]);
    } else {
      AddShape(st.t, hash, xs[i]);
      if i <= 9 { EarlyLength(st.t, hash, xs, i); } else { LateShort(st.t, hash, xs, i); }
    }
  }

  lemma LateShort(t: Tab, hash: Hash, xs: seq<Elem>, i: nat)
    requires Source(hash, xs) && 10 <= i < 65 && Inv(Full(t), hash) && t.app == xs[..i] && t.log2 == 6
    ensures Sized(t) && !Doubles(t, hash, xs[i])
  {
    hide ChainsOk, SameElements, NoDup, Pow2, BitAnd;
    SmallPowers();
    MaskIsMod(hash(xs[i].key), 6);
    LateLength(t, hash, xs, i, SourceHash(i));
  }

  lemma {:induction false} SourceRun(st: State, hash: Hash, xs: seq<Elem>, i: nat)
    requires Source(hash, xs) && i <= 65 && SourceStage(st, hash, xs, i)
    ensures Runnable(st, hash, Adds(xs[i..])) && SourceStage(Run(st, hash, Adds(xs[i..])), hash, xs, 65)
    decreases 65 - i
  {
    hide ChainsOk, SameElements, NoDup, Add, Enabled;
    if i < 65 {
      SourceStep(st, hash, xs, i);
      NextAdd(st, hash, xs, i);
      SourceRun(Add(st, hash, xs[i]), hash, xs, i + 1);
      RunNextAdd(st, hash, xs[i], Adds(xs[i + 1..]));
    }
  }

  // ----- the bucket order of the source

  /** Position `i` of the bucket order is in bucket i / 9, the last one in bucket 32. */
  lemma {:induction false} BucketOrder(chains: seq<seq<Elem>>, home: Elem -> nat, n: nat)
    requires |chains| == 64 && ChainsOk(chains, home) && n <= 64
    requires forall b :: 0 <= b < 64 ==> |chains[b]| == if b == 32 then 1 else Share(64, b)
    ensures var s := Flatten(chains[..n]);
            && |s| == (if n <= 7 then 9 * n else if n <= 32 then 64 else 65)
            && forall i :: 0 <= i < |s| ==> home(s[i]) == if i < 64 then i / 9 else 32
  {
    if n > 0 {
      BucketOrder(chains, home, n - 1);
      assert chains[..n][..n - 1] == chains[..n - 1];
      assert Flatten(chains[..n]) == Flatten(chains[..n - 1]) + chains[n - 1];
    }
  }

  lemma {:induction false} AllChosen(s: seq<Elem>, dual: Elem -> Elem)
    ensures |Chosen(s, _ => true, dual)| == |s|
    ensures forall i :: 0 <= i < |s| ==> Chosen(s, _ => true, dual)[i] == dual(s[i])
  {
    if s != [] { AllChosen(s[..|s| - 1], dual); }
  }

  lemma HashIsHome(hash: Hash, xs: seq<Elem>, e: Elem)
    requires Source(hash, xs) && e in xs
    ensures hash(e.key) == Homes(hash, 6)(e)
  {
    hide NoDup, Pow2, SourceHash, Homes;
    SmallPowers();
    HomesIsMod(hash, 6, e);
    var i :| 0 <= i < 65 && xs[i] == e;
    BelowSixtyFour(i);
  }

  lemma BelowSixtyFour(i: nat)
    requires i < 65
    ensures SourceHash(i) < 64 && SourceHash(i) % 64 == SourceHash(i)
  {
  }

  lemma FilledSource(t: Tab, hash: Hash, xs: seq<Elem>)
    requires Source(hash, xs) && SourceStage(Full(t), hash, xs, 65)
    ensures |t.chains| == 64 && ChainsOk(t.chains, Homes(hash, 6)) && t.app == xs
    ensures forall b :: 0 <= b < 64 ==> |t.chains[b]| == if b == 32 then 1 else Share(64, b)
  {
    hide SameElements, NoDup, Pow2, Share, ChainsOk;
    SmallPowers();
    assert xs[..65] == xs;
    forall b | 0 <= b < 64
      ensures |t.chains| == 64 && |t.chains[b]| == if b == 32 then 1 else Share(64, b)
    {
      LateLength(t, hash, xs, 65, b);
    }
  }

  /** The bucket order of the source: nine elements for each of the first buckets, then the one of bucket 32. */
  lemma SourceOrder(t: Tab, hash: Hash, xs: seq<Elem>)
    requires Source(hash, xs) && SourceStage(Full(t), hash, xs, 65)
    ensures var s := Flatten(t.chains);
            && NoDup(s) && |s| == 65
            && forall i :: 0 <= i < 65 ==> s[i] in xs && hash(s[i].key) == if i < 64 then i / 9 else 32
  {
    FilledSource(t, hash, xs);
    AllListed(t, hash);
    hide Inv, ChainsOk, NoDup, Share, Flatten, Homes, Source;
    var s := Flatten(t.chains);
    assert t.chains[..64] == t.chains;
    BucketOrder(t.chains, Homes(hash, 6), 64);
    forall i | 0 <= i < 65
      ensures s[i] in xs && hash(s[i].key) == if i < 64 then i / 9 else 32
    {
      HashIsHome(hash, xs, s[i]);
    }
  }

  /** What HASH_SELECT with an always true condition chooses from it. */
  lemma ChosenOfSource(t: Tab, hash: Hash, xs: seq<Elem>, dual: Elem -> Elem)
    requires Source(hash, xs) && SourceStage(Full(t), hash, xs, 65) && DualHandles(dual, set e | e in xs)
    ensures var chosen := Chosen(Flatten(t.chains), _ => true, dual);
            NoDup(chosen) && |chosen| == 65 && NineEach(hash, chosen[..64]) && hash(chosen[64].key) == 32
  {
    hide SourceStage, Source, NoDup, Flatten, Chosen;
    var s := Flatten(t.chains);
    SourceOrder(t, hash, xs);
    AllChosen(s, dual);
    ChosenOk(s, _ => true, dual, set e | e in xs);
    SplitOff(Chosen(s, _ => true, dual));
  }

  lemma AllListed(t: Tab, hash: Hash)
    requires Inv(Full(t), hash)
    ensures NoDup(Flatten(t.chains))
    ensures forall i :: 0 <= i < |Flatten(t.chains)| ==> Flatten(t.chains)[i] in t.app
  {
    hide ChainsOk, NoDup;
    var s := Flatten(t.chains);
    FlattenNoDup(t.chains, Homes(hash, t.log2));
    forall i | 0 <= i < |s|
      ensures s[i] in t.app
    {
      InFlatten(t.chains, s[i]);
      ChainedIsListed(t.app, t.chains, s[i]);
    }
  }

  /** Adding these 65 elements to an empty table and selecting all of them leaves a table of 64 buckets with
      an ideal chain length of 1, where 65 elements need 2. */
  lemma SelectionOneShort(hash: Hash, xs: seq<Elem>, dual: Elem -> Elem)
    requires Source(hash, xs) && DualHandles(dual, set e | e in xs)
    ensures Runnable(Empty, hash, Adds(xs)) && Run(Empty, hash, Adds(xs)).Full?
    ensures var chosen := Chosen(Flatten(Run(Empty, hash, Adds(xs)).t.chains), _ => true, dual);
            && NoDup(chosen) && |chosen| == 65
            && var t := Select(hash, chosen).t;
               |t.chains| == 64 && t.numItems == 65 && t.ideal == 1 && IsCeil(2, 65, 64)
  {
    hide Run, Runnable, Adds, NineEach, SelectOne, Chosen, NoDup, Source, DualHandles;
    assert xs[0..] == xs && |xs| == 65 by { SourceLength(hash, xs); }
    assert SourceStage(Empty, hash, xs, 0);
    SourceRun(Empty, hash, xs, 0);
    var src := Run(Empty, hash, Adds(xs));
    ChosenOfSource(src.t, hash, xs, dual);
    var chosen := Chosen(Flatten(src.t.chains), _ => true, dual);
    var ds, d := chosen[..64], chosen[64];
    SplitOff(chosen);
    SixtyFifthSelected(hash, ds, d);
    SelectStep(hash, ds, d);
  }

  lemma SourceLength(hash: Hash, xs: seq<Elem>)
    requires Source(hash, xs)
    ensures |xs| == 65 && xs[0..] == xs
  {
  }

  lemma SplitOff(s: seq<Elem>)
    requires NoDup(s) && |s| == 65
    ensures s == s[..64] + [s[64]] && NoDup(s[..64]) && s[64] !in s[..64]
  {
  }
}
