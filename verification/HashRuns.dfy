/** Runs of table operations: what holds after any number of them, for any hash function, and how the
    table agrees with a plain sequence that knows nothing of buckets. */
module HashRuns {
  import opened Elems
  import opened Seqs
  import opened BucketSpec
  import opened SortSpec
  import opened HashSpec

  datatype Op =
    | OpAdd(e: Elem)
    | OpAddInorder(e: Elem, cmp: Cmp)
    | OpReplace(e: Elem)
    | OpReplaceInorder(e: Elem, cmp: Cmp)
    | OpDelete(e: Elem)
    | OpSort(cmp: Cmp)

  function ListOf(st: State): seq<Elem> {
    if st.Full? then st.t.app else []
  }

  function Without(s: seq<Elem>, e: Elem): seq<Elem> {
    if e in s then RemoveAt(s, IndexOf(s, e)) else s
  }

  /** The delete half of HASH_REPLACE. */
  function DropKey(st: State, hash: Hash, k: Key): State
    requires Inv(st, hash)
  {
    var prior := Find(st, hash, k);
    if prior == null then st
    else
      FindOk(st, hash, k); DeleteInv(st, hash, prior);
      Delete(st, hash, prior)
  }

  /** What the caller owes: an element is added only while it is not in the table (replacing an element
      by itself is fine), and only elements of the table are deleted. Equal keys are allowed. */
  ghost predicate Enabled(st: State, hash: Hash, op: Op)
    requires Inv(st, hash)
  {
    match op
    case OpAdd(e) => e !in ListOf(st)
    case OpAddInorder(e, _) => e !in ListOf(st)
    case OpReplace(e) => e in ListOf(st) ==> Find(st, hash, e.key) == e
    case OpReplaceInorder(e, _) => e in ListOf(st) ==> Find(st, hash, e.key) == e
    case OpDelete(e) => e in ListOf(st)
    case OpSort(_) => true
  }

  ghost function Apply(st: State, hash: Hash, op: Op): State
    requires Inv(st, hash) && Enabled(st, hash, op)
  {
    match op
    case OpAdd(e) => Add(st, hash, e)
    case OpAddInorder(e, cmp) => AddInorder(st, hash, cmp, e)
    case OpReplace(e) => DropKeyInv(st, hash, e.key); Add(DropKey(st, hash, e.key), hash, e)
    case OpReplaceInorder(e, cmp) => DropKeyInv(st, hash, e.key); AddInorder(DropKey(st, hash, e.key), hash, cmp, e)
    case OpDelete(e) => DeleteInv(st, hash, e); Delete(st, hash, e)
    case OpSort(cmp) => SortState(st, cmp)
  }

  lemma DropKeyInv(st: State, hash: Hash, k: Key)
    requires Inv(st, hash)
    ensures Inv(DropKey(st, hash, k), hash)
    ensures var prior := Find(st, hash, k);
            if prior == null then ListOf(DropKey(st, hash, k)) == ListOf(st)
            else prior in ListOf(st) && ListOf(DropKey(st, hash, k)) == Without(ListOf(st), prior)
  {
    var prior := Find(st, hash, k);
    FindOk(st, hash, k);
    if prior != null { DeleteInv(st, hash, prior); }
  }

  lemma WithoutGone(s: seq<Elem>, e: Elem)
    requires NoDup(s)
    ensures e !in Without(s, e) && NoDup(Without(s, e))
    ensures forall x :: x in Without(s, e) ==> x in s
  {
  }

  lemma ListNoDup(st: State, hash: Hash)
    requires Inv(st, hash)
    ensures NoDup(ListOf(st))
  {
  }

  lemma ReplaceReady(st: State, hash: Hash, e: Elem)
    requires Inv(st, hash) && (e in ListOf(st) ==> Find(st, hash, e.key) == e)
    ensures Inv(DropKey(st, hash, e.key), hash) && e !in ListOf(DropKey(st, hash, e.key))
  {
    DropKeyInv(st, hash, e.key);
    ListNoDup(st, hash);
    WithoutGone(ListOf(st), e);
    var prior := Find(st, hash, e.key);
    if prior != null { WithoutGone(ListOf(st), prior); }
  }

  /** Every operation keeps the two-list invariant. */
  lemma ApplyInv(st: State, hash: Hash, op: Op)
    requires Inv(st, hash) && Enabled(st, hash, op)
    ensures Inv(Apply(st, hash, op), hash)
  {
    hide Inv, Add, AddInorder, Delete, SortState, DropKey;
    match op
    case OpAdd(e) => AddInv(st, hash, e);
    case OpAddInorder(e, cmp) => AddInorderInv(st, hash, cmp, e);
    case OpReplace(e) =>
      ReplaceReady(st, hash, e);
      AddInv(DropKey(st, hash, e.key), hash, e);
    case OpReplaceInorder(e, cmp) =>
      ReplaceReady(st, hash, e);
      AddInorderInv(DropKey(st, hash, e.key), hash, cmp, e);
    case OpDelete(e) => DeleteInv(st, hash, e);
    case OpSort(cmp) => SortInv(st, hash, cmp);
  }

  /** Each operation of the run is used as its caller must use it. */
  ghost predicate Runnable(st: State, hash: Hash, ops: seq<Op>)
    requires Inv(st, hash)
    decreases |ops|
  {
    ops == [] ||
    (Enabled(st, hash, ops[0]) && (ApplyInv(st, hash, ops[0]); Runnable(Apply(st, hash, ops[0]), hash, ops[1..])))
  }

  ghost function Run(st: State, hash: Hash, ops: seq<Op>): State
    requires Inv(st, hash) && Runnable(st, hash, ops)
    decreases |ops|
  {
    if ops == [] then st
    else
      ApplyInv(st, hash, ops[0]);
      Run(Apply(st, hash, ops[0]), hash, ops[1..])
  }

  /** After any run from the empty table both lists agree and HASH_FSCK finds nothing to report. */
  lemma {:induction false} RunInv(st: State, hash: Hash, ops: seq<Op>)
    requires Inv(st, hash) && Runnable(st, hash, ops)
    ensures Inv(Run(st, hash, ops), hash) && Fsck(Run(st, hash, ops))
    decreases |ops|
  {
    if ops == [] {
      InvPassesFsck(st, hash);
    } else {
      ApplyInv(st, hash, ops[0]);
      RunInv(Apply(st, hash, ops[0]), hash, ops[1..]);
    }
  }

  // ----- the plain sequence

  ghost predicate UniqueKeys(s: seq<Elem>) {
    forall i, j :: 0 <= i < j < |s| ==> s[i].key != s[j].key
  }

  /** The operation as its caller sees it: no hash, no buckets, no pointers. */
  function OnList(s: seq<Elem>, op: Op): seq<Elem> {
    match op
    case OpAdd(e) => s + [e]
    case OpAddInorder(e, cmp) => Insert(cmp, s, e)
    case OpReplace(e) => WithoutKey(s, e.key) + [e]
    case OpReplaceInorder(e, cmp) => Insert(cmp, WithoutKey(s, e.key), e)
    case OpDelete(e) => Without(s, e)
    case OpSort(cmp) => Sort(cmp, s, 1)
  }

  function WithoutKey(s: seq<Elem>, k: Key): seq<Elem> {
    var prior := FindKey(s, k);
    if prior == null then s else Without(s, prior)
  }

  /** Add only absent keys, delete only present elements; anything may be replaced or sorted. */
  predicate Allowed(s: seq<Elem>, op: Op) {
    match op
    case OpAdd(e) => FindKey(s, e.key) == null
    case OpAddInorder(e, _) => FindKey(s, e.key) == null
    case OpReplace(_) => true
    case OpReplaceInorder(_, _) => true
    case OpDelete(e) => e in s
    case OpSort(_) => true
  }

  lemma {:induction false} UniqueFind(s: seq<Elem>, e: Elem)
    requires UniqueKeys(s) && e in s
    ensures FindKey(s, e.key) == e
  {
    if s[0] != e {
      var i :| 0 < i < |s| && s[i] == e;
      assert s[1..][i - 1] == e;
      UniqueFind(s[1..], e);
    }
  }

  /** With unique keys HASH_FIND is lookup by key in the plain sequence. */
  lemma FindAgrees(st: State, hash: Hash, k: Key)
    requires Inv(st, hash) && UniqueKeys(ListOf(st))
    ensures Find(st, hash, k) == FindKey(ListOf(st), k)
  {
    FindOk(st, hash, k);
    FindKeyOk(ListOf(st), k);
    var r := Find(st, hash, k);
    if r != null { UniqueFind(ListOf(st), r); }
  }

  lemma {:induction false} UniquePermuted(s: seq<Elem>, r: seq<Elem>)
    requires UniqueKeys(s) && NoDup(r) && forall i :: 0 <= i < |r| ==> r[i] in s
    ensures UniqueKeys(r)
  {
  }

  lemma UniqueInsert(s: seq<Elem>, k: nat, e: Elem)
    requires UniqueKeys(s) && k <= |s| && forall i :: 0 <= i < |s| ==> s[i].key != e.key
    ensures UniqueKeys(InsertAt(s, k, e))
  {
  }

  lemma UniqueNoDup(s: seq<Elem>)
    requires UniqueKeys(s)
    ensures NoDup(s)
  {
  }

  lemma AppendIsInsert(s: seq<Elem>, e: Elem)
    ensures s + [e] == InsertAt(s, |s|, e)
  {
  }

  lemma WithoutKeyUnique(s: seq<Elem>, k: Key)
    requires UniqueKeys(s)
    ensures UniqueKeys(WithoutKey(s, k)) && forall i :: 0 <= i < |WithoutKey(s, k)| ==> WithoutKey(s, k)[i].key != k
  {
    var r := WithoutKey(s, k);
    FindKeyOk(s, k);
    UniqueNoDup(s);
    if FindKey(s, k) != null {
      WithoutGone(s, FindKey(s, k));
      UniquePermuted(s, r);
      forall i | 0 <= i < |r|
        ensures r[i].key != k
      {
        assert r[i] in s && r[i] in r;
        UniqueFind(s, r[i]);
      }
    }
  }

  lemma OnListUnique(s: seq<Elem>, op: Op)
    requires UniqueKeys(s) && Allowed(s, op)
    ensures UniqueKeys(OnList(s, op))
  {
    UniqueNoDup(s);
    match op
    case OpAdd(e) =>
      FindKeyOk(s, e.key);
      AppendIsInsert(s, e);
      UniqueInsert(s, |s|, e);
    case OpAddInorder(e, cmp) =>
      FindKeyOk(s, e.key);
      UniqueInsert(s, InsertPos(cmp, s, e), e);
    case OpReplace(e) =>
      WithoutKeyUnique(s, e.key);
      AppendIsInsert(WithoutKey(s, e.key), e);
      UniqueInsert(WithoutKey(s, e.key), |WithoutKey(s, e.key)|, e);
    case OpReplaceInorder(e, cmp) =>
      WithoutKeyUnique(s, e.key);
      UniqueInsert(WithoutKey(s, e.key), InsertPos(cmp, WithoutKey(s, e.key), e), e);
    case OpDelete(e) =>
      WithoutGone(s, e);
      UniquePermuted(s, Without(s, e));
    case OpSort(cmp) =>
      SortPermutes(cmp, s, 1);
      NoDupPermuted(s, Sort(cmp, s, 1));
      UniquePermuted(s, Sort(cmp, s, 1));
  }

  /** One operation of the table is the same operation of the sequence. */
  lemma ApplyAgrees(st: State, hash: Hash, op: Op)
    requires Inv(st, hash) && UniqueKeys(ListOf(st)) && Allowed(ListOf(st), op)
    ensures Enabled(st, hash, op)
    ensures ListOf(Apply(st, hash, op)) == OnList(ListOf(st), op)
  {
    hide Inv, Add, AddInorder, Delete, SortState;
    var s := ListOf(st);
    match op
    case OpAdd(e) =>
      FindKeyOk(s, e.key);
      AddInv(st, hash, e);
    case OpAddInorder(e, cmp) =>
      FindKeyOk(s, e.key);
      AddInorderInv(st, hash, cmp, e);
    case OpReplace(e) =>
      ReplaceAgrees(st, hash, e);
      AddInv(DropKey(st, hash, e.key), hash, e);
    case OpReplaceInorder(e, cmp) =>
      ReplaceAgrees(st, hash, e);
      AddInorderInv(DropKey(st, hash, e.key), hash, cmp, e);
    case OpDelete(e) => DeleteInv(st, hash, e);
    case OpSort(cmp) => SortInv(st, hash, cmp);
  }

  lemma ReplaceAgrees(st: State, hash: Hash, e: Elem)
    requires Inv(st, hash) && UniqueKeys(ListOf(st))
    ensures e in ListOf(st) ==> Find(st, hash, e.key) == e
    ensures Inv(DropKey(st, hash, e.key), hash) && e !in ListOf(DropKey(st, hash, e.key))
    ensures ListOf(DropKey(st, hash, e.key)) == WithoutKey(ListOf(st), e.key)
  {
    hide Inv, Delete;
    FindAgrees(st, hash, e.key);
    if e in ListOf(st) { UniqueFind(ListOf(st), e); }
    ReplaceReady(st, hash, e);
    DropKeyInv(st, hash, e.key);
  }

  // ----- runs against the plain sequence

  predicate AllAllowed(s: seq<Elem>, ops: seq<Op>)
    decreases |ops|
  {
    ops == [] || (Allowed(s, ops[0]) && AllAllowed(OnList(s, ops[0]), ops[1..]))
  }

  function RunOnList(s: seq<Elem>, ops: seq<Op>): seq<Elem>
    decreases |ops|
  {
    if ops == [] then s else RunOnList(OnList(s, ops[0]), ops[1..])
  }

  /** The table is a faithful map and sequence: after any allowed run, and whatever the hash function
      and the expansions it caused, the application order is the plain sequence's, and HASH_FIND returns
      for every key what lookup in the plain sequence returns. */
  lemma {:induction false} RunAgrees(st: State, hash: Hash, ops: seq<Op>)
    requires Inv(st, hash) && UniqueKeys(ListOf(st)) && AllAllowed(ListOf(st), ops)
    ensures Runnable(st, hash, ops)
    ensures ListOf(Run(st, hash, ops)) == RunOnList(ListOf(st), ops)
    ensures Inv(Run(st, hash, ops), hash)
    ensures forall k: Key :: Find(Run(st, hash, ops), hash, k) == FindKey(RunOnList(ListOf(st), ops), k)
    decreases |ops|
  {
    hide Apply, OnList, Allowed, Enabled, Find;
    if ops == [] {
      forall k: Key
        ensures Find(st, hash, k) == FindKey(ListOf(st), k)
      {
        FindAgrees(st, hash, k);
      }
    } else {
      ApplyAgrees(st, hash, ops[0]);
      ApplyInv(st, hash, ops[0]);
      OnListUnique(ListOf(st), ops[0]);
      RunAgrees(Apply(st, hash, ops[0]), hash, ops[1..]);
    }
  }

  /** The result of HASH_FIND does not depend on the hash function. */
  lemma FindIgnoresHash(hash: Hash, hash': Hash, ops: seq<Op>, k: Key)
    requires AllAllowed([], ops)
    ensures Runnable(Empty, hash, ops) && Runnable(Empty, hash', ops)
    ensures Inv(Run(Empty, hash, ops), hash) && Inv(Run(Empty, hash', ops), hash')
    ensures Find(Run(Empty, hash, ops), hash, k) == Find(Run(Empty, hash', ops), hash', k)
  {
    hide Run, Find, Runnable, AllAllowed, RunOnList;
    RunAgrees(Empty, hash, ops);
    RunAgrees(Empty, hash', ops);
  }
}
