/** The Bloom filter a table carries when HASH_BLOOM is defined: one bit per hash value modulo 2^nbits. */
module HashBloom {
  import opened Bits
  import opened Elems
  import opened Seqs
  import opened SortSpec
  import opened HashSpec
  import opened HashRuns

  /** The bit of a hash value, as HASH_BLOOM_ADD and HASH_BLOOM_TEST compute it. */
  function BitOf(hashv: nat, nbits: nat): (i: nat)
    ensures i == hashv % Pow2(nbits) < Pow2(nbits)
  {
    MaskIsMod(hashv, nbits);
    BitAnd(hashv, Pow2(nbits) - 1)
  }

  /** Two hash values share a bit exactly when they agree in their lowest `nbits` bits. */
  lemma SharesBitIff(h: nat, h': nat, nbits: nat)
    ensures BitOf(h, nbits) == BitOf(h', nbits) <==> h % Pow2(nbits) == h' % Pow2(nbits)
  {
  }

  /** HASH_BLOOM_BYTELEN. */
  function ByteLen(nbits: nat): nat {
    Pow2(nbits) / 8 + if Pow2(nbits) % 8 != 0 then 1 else 0
  }

  lemma BitInBytes(i: nat, nbits: nat)
    requires i < Pow2(nbits)
    ensures i / 8 < ByteLen(nbits)
  {
  }

  function BitSet(b: bv8, i: nat): bool
    requires i < 8
  {
    b & (1 as bv8 << i) != 0
  }

  lemma OrSetsOneBit(b: bv8, i: nat, j: nat)
    requires i < 8 && j < 8
    ensures BitSet(b | (1 as bv8 << i), j) <==> BitSet(b, j) || i == j
  {
    if i == 0 {} else if i == 1 {} else if i == 2 {} else if i == 3 {}
    else if i == 4 {} else if i == 5 {} else if i == 6 {} else {}
  }

  class Bloom {
    const nbits: nat
    const bv: array<bv8>

    ghost predicate Valid()
      reads this
    {
      bv.Length == ByteLen(nbits)
    }

    /** HASH_BLOOM_MAKE: all bits clear. */
    constructor (nbits: nat)
      ensures Valid() && fresh(bv) && this.nbits == nbits && Bits() == {}
    {
      this.nbits := nbits;
      bv := new bv8[ByteLen(nbits)](_ => 0);
    }

    /** The set bits. */
    ghost function Bits(): set<nat>
      requires Valid()
      reads this, bv
    {
      set i | 0 <= i < bv.Length * 8 && BitSet(bv[i / 8], i % 8)
    }

    /** HASH_BLOOM_ADD stays inside the vector and sets the one bit. */
    method Add(hashv: nat)
      requires Valid()
      modifies bv
      ensures Bits() == old(Bits()) + {hashv % Pow2(nbits)}
    {
      var idx := BitOf(hashv, nbits);
      BitInBytes(idx, nbits);
      bv[idx / 8] := bv[idx / 8] | (1 as bv8 << idx % 8);
      forall i | 0 <= i < bv.Length * 8
        ensures BitSet(bv[i / 8], i % 8) <==> i in old(Bits()) || i == idx
      {
        if i / 8 == idx / 8 { OrSetsOneBit(old(bv[idx / 8]), idx % 8, i % 8); }
      }
    }

    /** HASH_BLOOM_TEST. */
    method Test(hashv: nat) returns (hit: bool)
      requires Valid()
      ensures hit <==> hashv % Pow2(nbits) in Bits()
    {
      var idx := BitOf(hashv, nbits);
      BitInBytes(idx, nbits);
      hit := BitSet(bv[idx / 8], idx % 8);
    }
  }

  /** A fresh filter after the adds of `hs`, as the methods above leave it. */
  function BitsOf(hs: seq<nat>, nbits: nat): set<nat> {
    if hs == [] then {} else BitsOf(hs[..|hs| - 1], nbits) + {hs[|hs| - 1] % Pow2(nbits)}
  }

  /** A test hits exactly when some added value agrees with it in the lowest `nbits` bits. */
  lemma {:induction false} HitIff(hs: seq<nat>, h: nat, nbits: nat)
    ensures h % Pow2(nbits) in BitsOf(hs, nbits) <==>
            exists i :: 0 <= i < |hs| && hs[i] % Pow2(nbits) == h % Pow2(nbits)
  {
    if hs != [] {
      var init := hs[..|hs| - 1];
      HitIff(init, h, nbits);
      if exists i :: 0 <= i < |init| && init[i] % Pow2(nbits) == h % Pow2(nbits) {
        var i :| 0 <= i < |init| && init[i] % Pow2(nbits) == h % Pow2(nbits);
        assert hs[i] % Pow2(nbits) == h % Pow2(nbits);
      }
    }
  }

  /** HASH_BLOOM_MAKE, HASH_BLOOM_ADD for each of `hs`, and one HASH_BLOOM_TEST. */
  method AddAndTest(hs: seq<nat>, h: nat, nbits: nat) returns (hit: bool)
    ensures hit <==> exists i :: 0 <= i < |hs| && hs[i] % Pow2(nbits) == h % Pow2(nbits)
  {
    var bloom := new Bloom(nbits);
    var i := 0;
    while i < |hs|
      invariant 0 <= i <= |hs| && bloom.Valid() && bloom.nbits == nbits && fresh(bloom.bv)
      invariant bloom.Bits() == BitsOf(hs[..i], nbits)
    {
      bloom.Add(hs[i]);
      assert hs[..i + 1][..i] == hs[..i];
      i := i + 1;
    }
    assert hs[..i] == hs;
    HitIff(hs, h, nbits);
    hit := bloom.Test(h);
  }

  // ----- the filter beside the table

  /** A table and its set of filter bits; no table, no filter. */
  datatype Filtered = Filtered(st: State, bits: set<nat>)

  function WithBit(f: set<nat>, e: Elem, hash: HashSpec.Hash, nbits: nat): set<nat> {
    f + {BitOf(hash(e.key), nbits)}
  }

  /** The bits after an operation: HASH_MAKE_TABLE clears them all, an add sets one, deleting the last
      element frees the filter, and nothing else touches it. */
  ghost function BitsAfter(f: Filtered, hash: HashSpec.Hash, op: Op, nbits: nat): set<nat>
    requires Inv(f.st, hash) && Enabled(f.st, hash, op)
  {
    match op
    case OpAdd(e) => WithBit(f.bits, e, hash, nbits)
    case OpAddInorder(e, _) => WithBit(f.bits, e, hash, nbits)
    case OpReplace(e) => WithBit(if DropKey(f.st, hash, e.key).Empty? then {} else f.bits, e, hash, nbits)
    case OpReplaceInorder(e, _) => WithBit(if DropKey(f.st, hash, e.key).Empty? then {} else f.bits, e, hash, nbits)
    case OpDelete(e) => if Apply(f.st, hash, op).Empty? then {} else f.bits
    case OpSort(_) => f.bits
  }

  /** Every element of the table has its bit set. */
  ghost predicate Covers(f: Filtered, hash: HashSpec.Hash, nbits: nat) {
    && (f.st.Empty? ==> f.bits == {})
    && forall i :: 0 <= i < |ListOf(f.st)| ==> BitOf(hash(ListOf(f.st)[i].key), nbits) in f.bits
  }

  ghost function RunFiltered(f: Filtered, hash: HashSpec.Hash, ops: seq<Op>, nbits: nat): Filtered
    requires Inv(f.st, hash) && Runnable(f.st, hash, ops)
    decreases |ops|
  {
    if ops == [] then f
    else
      ApplyInv(f.st, hash, ops[0]);
      RunFiltered(Filtered(Apply(f.st, hash, ops[0]), BitsAfter(f, hash, ops[0], nbits)), hash, ops[1..], nbits)
  }

  /** HASH_FIND with the filter in front of it. */
  ghost function FilteredFind(f: Filtered, hash: HashSpec.Hash, k: Key, nbits: nat): Elem?
    requires Inv(f.st, hash)
  {
    if f.st.Empty? || BitOf(hash(k), nbits) !in f.bits then null else Find(f.st, hash, k)
  }

  /** An operation only brings in the element it adds. */
  lemma ApplyMembers(st: State, hash: HashSpec.Hash, op: Op, i: nat)
    requires Inv(st, hash) && Enabled(st, hash, op) && i < |ListOf(Apply(st, hash, op))|
    ensures var x := ListOf(Apply(st, hash, op))[i];
            x in ListOf(st) || (!op.OpDelete? && !op.OpSort? && x == op.e)
    ensures op.OpReplace? || op.OpReplaceInorder? ==>
            var x := ListOf(Apply(st, hash, op))[i];
            x == op.e || (x in ListOf(DropKey(st, hash, op.e.key)) && DropKey(st, hash, op.e.key).Full?)
  {
    hide Inv, Add, AddInorder, Delete, SortState, DropKey, Insert, Sort;
    ListNoDup(st, hash);
    match op
    case OpAdd(e) => AddInv(st, hash, e);
    case OpAddInorder(e, cmp) =>
      AddInorderInv(st, hash, cmp, e);
      InsertMember(cmp, ListOf(st), e, i);
    case OpReplace(e) =>
      ReplaceReady(st, hash, e);
      DropKeyMembers(st, hash, e.key);
      AddInv(DropKey(st, hash, e.key), hash, e);
    case OpReplaceInorder(e, cmp) =>
      ReplaceReady(st, hash, e);
      DropKeyMembers(st, hash, e.key);
      AddInorderInv(DropKey(st, hash, e.key), hash, cmp, e);
      InsertMember(cmp, ListOf(DropKey(st, hash, e.key)), e, i);
    case OpDelete(e) =>
      DeleteInv(st, hash, e);
      NoDupRemoveAt(ListOf(st), IndexOf(ListOf(st), e));
    case OpSort(cmp) =>
      SortInv(st, hash, cmp);
      SortPermutes(cmp, ListOf(st), 1);
      NoDupPermuted(ListOf(st), Sort(cmp, ListOf(st), 1));
  }

  lemma InsertMember(cmp: Cmp, s: seq<Elem>, e: Elem, i: nat)
    requires i < |Insert(cmp, s, e)|
    ensures Insert(cmp, s, e)[i] in s || Insert(cmp, s, e)[i] == e
  {
  }

  lemma DropKeyMembers(st: State, hash: HashSpec.Hash, k: Key)
    requires Inv(st, hash)
    ensures forall i :: 0 <= i < |ListOf(DropKey(st, hash, k))| ==> ListOf(DropKey(st, hash, k))[i] in ListOf(st)
  {
  }

  lemma ApplyEmpty(st: State, hash: HashSpec.Hash, op: Op)
    requires Inv(st, hash) && Enabled(st, hash, op)
    ensures Apply(st, hash, op).Empty? ==> op.OpDelete? || (op.OpSort? && st.Empty?)
  {
  }

  /** Every operation leaves the bit of every stored element set. */
  lemma CoversKept(f: Filtered, hash: HashSpec.Hash, op: Op, nbits: nat)
    requires Inv(f.st, hash) && Enabled(f.st, hash, op) && Covers(f, hash, nbits)
    ensures Covers(Filtered(Apply(f.st, hash, op), BitsAfter(f, hash, op, nbits)), hash, nbits)
  {
    hide Inv, Enabled, Apply, DropKey;
    var st' := Apply(f.st, hash, op);
    ApplyEmpty(f.st, hash, op);
    if op.OpReplace? || op.OpReplaceInorder? { DropKeyMembers(f.st, hash, op.e.key); }
    forall i | 0 <= i < |ListOf(st')|
      ensures BitOf(hash(ListOf(st')[i].key), nbits) in BitsAfter(f, hash, op, nbits)
    {
      ApplyMembers(f.st, hash, op, i);
    }
  }

  /** A key whose bit is not set is not looked for. */
  lemma FilterSkips(f: Filtered, hash: HashSpec.Hash, k: Key, nbits: nat)
    requires Inv(f.st, hash) && hash(k) % Pow2(nbits) !in f.bits
    ensures FilteredFind(f, hash, k, nbits) == null
  {
    hide Inv, Find;
  }

  /** With the filter in front HASH_FIND answers as it does without it. */
  lemma FilterIsExact(f: Filtered, hash: HashSpec.Hash, k: Key, nbits: nat)
    requires Inv(f.st, hash) && Covers(f, hash, nbits)
    ensures FilteredFind(f, hash, k, nbits) == Find(f.st, hash, k)
  {
    FindOk(f.st, hash, k);
    var found := Find(f.st, hash, k);
    if found != null { var i :| 0 <= i < |ListOf(f.st)| && ListOf(f.st)[i] == found; }
  }

  /** After any run the filter has changed no answer, and the table is the one an unfiltered run builds. */
  lemma {:induction false} FilteredRunAgrees(f: Filtered, hash: HashSpec.Hash, ops: seq<Op>, nbits: nat)
    requires Inv(f.st, hash) && Runnable(f.st, hash, ops) && Covers(f, hash, nbits)
    ensures RunFiltered(f, hash, ops, nbits).st == Run(f.st, hash, ops)
    ensures Inv(Run(f.st, hash, ops), hash) && Covers(RunFiltered(f, hash, ops, nbits), hash, nbits)
    ensures var f' := RunFiltered(f, hash, ops, nbits);
            forall k :: FilteredFind(f', hash, k, nbits) == Find(Run(f.st, hash, ops), hash, k)
    decreases |ops|
  {
    hide Enabled, Apply, Covers, BitsAfter, Find, FilteredFind;
    if ops == [] {
      forall k ensures FilteredFind(f, hash, k, nbits) == Find(f.st, hash, k) { FilterIsExact(f, hash, k, nbits); }
    } else {
      ApplyInv(f.st, hash, ops[0]);
      CoversKept(f, hash, ops[0], nbits);
      FilteredRunAgrees(Filtered(Apply(f.st, hash, ops[0]), BitsAfter(f, hash, ops[0], nbits)), hash, ops[1..], nbits);
    }
  }

  /** Every set bit is that of an element the run brought in, or was set before it. */
  lemma {:induction false} NoStrayBit(f: Filtered, hash: HashSpec.Hash, ops: seq<Op>, nbits: nat, i: nat)
    requires Inv(f.st, hash) && Runnable(f.st, hash, ops)
    requires i in RunFiltered(f, hash, ops, nbits).bits
    ensures i in f.bits || exists j :: 0 <= j < |ops| && !ops[j].OpDelete? && !ops[j].OpSort?
                                       && hash(ops[j].e.key) % Pow2(nbits) == i
    decreases |ops|
  {
    hide Inv, Enabled, Apply, DropKey;
    if ops != [] {
      ApplyInv(f.st, hash, ops[0]);
      var bits := BitsAfter(f, hash, ops[0], nbits);
      NoStrayBit(Filtered(Apply(f.st, hash, ops[0]), bits), hash, ops[1..], nbits, i);
      if i in bits {
        assert i in f.bits || (!ops[0].OpDelete? && !ops[0].OpSort? && hash(ops[0].e.key) % Pow2(nbits) == i);
      } else {
        var j :| 0 <= j < |ops[1..]| && !ops[1..][j].OpDelete? && !ops[1..][j].OpSort?
                 && hash(ops[1..][j].e.key) % Pow2(nbits) == i;
        assert ops[j + 1] == ops[1..][j];
      }
    }
  }
}
