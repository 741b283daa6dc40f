/** Runs that only add, for tables whose shape has to be known: how long each chain is, and what one add
    does to the fields that decide about doubling. */
module AddRuns {
  import opened Bits
  import opened Elems
  import opened Seqs
  import opened BucketSpec
  import opened HashSpec
  import opened HashRuns

  function Adds(xs: seq<Elem>): seq<Op> {
    if xs == [] then [] else [OpAdd(xs[0])] + Adds(xs[1..])
  }

  /** The add of the next element, at the head of the remaining run. */
  lemma NextAdd(st: State, hash: Hash, xs: seq<Elem>, i: nat)
    requires Inv(st, hash) && NoDup(xs) && i < |xs| && ListOf(st) == xs[..i]
    ensures Enabled(st, hash, OpAdd(xs[i])) && Inv(Add(st, hash, xs[i]), hash)
    ensures ListOf(Add(st, hash, xs[i])) == xs[..i + 1]
    ensures Adds(xs[i..]) == [OpAdd(xs[i])] + Adds(xs[i + 1..])
  {
    hide Inv, Add;
    AddInv(st, hash, xs[i]);
  }

  lemma RunNextAdd(st: State, hash: Hash, e: Elem, ops: seq<Op>)
    requires Inv(st, hash) && Enabled(st, hash, OpAdd(e))
    requires Inv(Add(st, hash, e), hash) && Runnable(Add(st, hash, e), hash, ops)
    ensures Runnable(st, hash, [OpAdd(e)] + ops)
    ensures Run(st, hash, [OpAdd(e)] + ops) == Run(Add(st, hash, e), hash, ops)
  {
    hide Inv, Add, Enabled;
    assert ([OpAdd(e)] + ops)[1..] == ops;
  }

  /** Each chain is as long as the number of listed elements that live in its bucket. */
  lemma ChainLength(t: Tab, hash: Hash, b: nat)
    requires WellFormed(Full(t), hash) && SameElements(t.app, t.chains) && b < |t.chains|
    ensures |t.chains[b]| == |LatestFirst(t.app, Homes(hash, t.log2), b)|
  {
    var home := Homes(hash, t.log2);
    var c, r := t.chains[b], LatestFirst(t.app, home, b);
    LatestFirstOk(t.app, home, b);
    hide LatestFirst, WellFormed;
    forall e | e in c
      ensures e in r
    {
      var i :| 0 <= i < |c| && t.chains[b][i] == e;
    }
    forall e | e in r
      ensures e in c
    {
      InHomeChain(t.chains, home, e);
    }
    SameMembersSameLength(c, r);
  }

  /** What an add does to the fields that decide about doubling, and to those a doubling computes. */
  lemma AddShape(t: Tab, hash: Hash, e: Elem)
    requires Inv(Full(t), hash) && e !in t.app
    ensures var t' := Add(Full(t), hash, e).t;
            if Doubles(t, hash, e) then
              && t'.log2 == t.log2 + 1 && t'.ideal == CeilByShift(t.numItems + 1, t'.log2)
              && t'.mult == Mults(t'.chains, t'.ideal) && t'.nonideal == TotalExcess(t'.chains, t'.ideal)
              && t'.ineff == (if t'.nonideal > Shr(t.numItems + 1, 1) then t.ineff + 1 else 0)
              && t'.noexpand == (t'.ineff > 1)
            else t'.log2 == t.log2 && t'.mult == t.mult && t'.noexpand == t.noexpand && t'.ineff == t.ineff
  {
    hide ChainsOk, SameElements, NoDup, InsertAt, Rechain, TotalExcess, Mults, CeilByShift, UpTo;
  }

  lemma FirstAdd(hash: Hash, e: Elem)
    ensures var t := Add(Empty, hash, e).t;
            t.log2 == 5 && !t.noexpand && t.ineff == 0 && forall b :: 0 <= b < |t.mult| ==> t.mult[b] == 0
  {
    hide Expand;
  }

  /** The number of the first `n` positions that a pattern sends to bucket `b`. */
  function Count(home: nat -> nat, n: nat, b: nat): nat {
    if n == 0 then 0 else Count(home, n - 1, b) + if home(n - 1) == b then 1 else 0
  }

  /** How many of `n` elements that come nine to a bucket are in bucket `b`. */
  function Share(n: nat, b: nat): nat {
    if n <= 9 * b then 0 else if n >= 9 * b + 9 then 9 else n - 9 * b
  }

  lemma {:induction false} CountIsLength(xs: seq<Elem>, home: Elem -> nat, pattern: nat -> nat, n: nat, b: nat)
    requires n <= |xs| && forall i :: 0 <= i < n ==> home(xs[i]) == pattern(i)
    ensures |LatestFirst(xs[..n], home, b)| == Count(pattern, n, b)
  {
    if n > 0 {
      assert xs[..n][..n - 1] == xs[..n - 1];
      CountIsLength(xs, home, pattern, n - 1, b);
    }
  }

  /** The length of chain `b` when the elements added follow a pattern. */
  lemma PatternLength(t: Tab, hash: Hash, xs: seq<Elem>, pattern: nat -> nat, n: nat, b: nat)
    requires Inv(Full(t), hash) && n <= |xs| && t.app == xs[..n] && b < |t.chains|
    requires forall i :: 0 <= i < n ==> hash(xs[i].key) % Pow2(t.log2) == pattern(i)
    ensures |t.chains[b]| == Count(pattern, n, b)
  {
    hide Pow2, LatestFirst, Count, ChainsOk, SameElements, NoDup;
    ChainLength(t, hash, b);
    forall i | 0 <= i < n
      ensures Homes(hash, t.log2)(xs[i]) == pattern(i)
    {
      HomesIsMod(hash, t.log2, xs[i]);
    }
    CountIsLength(xs, Homes(hash, t.log2), pattern, n, b);
  }

  lemma SmallPowers()
    ensures Pow2(5) == 32 && Pow2(6) == 64 && Pow2(7) == 128
  {
    assert Pow2(4) == 16;
  }
}
