/** Bottom-up merge sort and ordered insertion on the application order, as sequence functions, and the
    proof that both give the one stable sorted arrangement of their input. */
module SortSpec {
  import opened Elems
  import opened Seqs

  /** `cmpfcn`: negative, zero or positive. */
  type Cmp = (Elem, Elem) -> int

  /** The comparator is a total preorder on the members of `s`. */
  ghost predicate Preorder(cmp: Cmp, s: seq<Elem>) {
    && (forall a, b {:trigger cmp(a, b)} :: a in s && b in s ==> (cmp(a, b) > 0 <==> cmp(b, a) < 0))
    && (forall a, b, c {:trigger cmp(a, b), cmp(b, c)} ::
          a in s && b in s && c in s && cmp(a, b) <= 0 && cmp(b, c) <= 0 ==> cmp(a, c) <= 0)
  }

  // ----- HASH_SRT

  /** The innermost loop: `p` wins ties. */
  function Merge(cmp: Cmp, p: seq<Elem>, q: seq<Elem>): (r: seq<Elem>)
    ensures |r| == |p| + |q|
  {
    if p == [] then q
    else if q == [] then p
    else if cmp(p[0], q[0]) <= 0 then [p[0]] + Merge(cmp, p[1..], q)
    else [q[0]] + Merge(cmp, p, q[1..])
  }

  function Min(a: nat, b: nat): nat {
    if a <= b then a else b
  }

  /** One pass over the list: adjacent runs of `k` elements are merged pairwise. */
  function Pass(cmp: Cmp, s: seq<Elem>, k: nat): (r: seq<Elem>)
    requires k > 0
    ensures |r| == |s|
    decreases |s|
  {
    if s == [] then []
    else
      var i := Min(k, |s|);
      var j := Min(2 * k, |s|);
      Merge(cmp, s[..i], s[i..j]) + Pass(cmp, s[j..], k)
  }

  /** The outermost loop: passes with run length k, 2k, 4k, ... until a pass needs at most one merge. */
  function Sort(cmp: Cmp, s: seq<Elem>, k: nat): (r: seq<Elem>)
    requires k > 0
    ensures |r| == |s|
    decreases |s| - k
  {
    if |s| <= 2 * k then Pass(cmp, s, k) else Sort(cmp, Pass(cmp, s, k), 2 * k)
  }

  // ----- HASH_AKBI_INNER_LOOP

  /** The first position whose element compares greater than `e`, or the end. */
  function InsertPos(cmp: Cmp, s: seq<Elem>, e: Elem): (k: nat)
    ensures k <= |s|
    ensures k < |s| ==> cmp(s[k], e) > 0
    ensures forall i :: 0 <= i < k ==> cmp(s[i], e) <= 0
  {
    if s == [] || cmp(s[0], e) > 0 then 0 else 1 + InsertPos(cmp, s[1..], e)
  }

  function Insert(cmp: Cmp, s: seq<Elem>, e: Elem): seq<Elem> {
    InsertAt(s, InsertPos(cmp, s, e), e)
  }

  /** A list built only by ordered adds, in the order of `s`. */
  function InsertAll(cmp: Cmp, s: seq<Elem>): seq<Elem> {
    if s == [] then [] else Insert(cmp, InsertAll(cmp, s[..|s| - 1]), s[|s| - 1])
  }

  // ----- stable sorted order

  /** `a` must come before `b`: it is smaller, or equal and earlier in the original list `s`. */
  ghost predicate Before(cmp: Cmp, s: seq<Elem>, a: Elem, b: Elem) {
    && a in s && b in s
    && (cmp(a, b) < 0 || (cmp(a, b) == 0 && IndexOf(s, a) < IndexOf(s, b)))
  }

  ghost predicate Ordered(cmp: Cmp, s: seq<Elem>, r: seq<Elem>) {
    forall i, j :: 0 <= i < j < |r| ==> Before(cmp, s, r[i], r[j])
  }

  /** `r` has exactly the elements of `s`, sorted, with equal elements in their original order. */
  ghost predicate StableSorted(cmp: Cmp, s: seq<Elem>, r: seq<Elem>) {
    multiset(r) == multiset(s) && Ordered(cmp, s, r)
  }

  lemma OrderedCons(cmp: Cmp, s: seq<Elem>, a: Elem, r: seq<Elem>)
    requires Ordered(cmp, s, r) && forall i :: 0 <= i < |r| ==> Before(cmp, s, a, r[i])
    ensures Ordered(cmp, s, [a] + r)
  {
  }

  lemma {:induction false} MergeMultiset(cmp: Cmp, p: seq<Elem>, q: seq<Elem>)
    ensures multiset(Merge(cmp, p, q)) == multiset(p) + multiset(q)
  {
    if p != [] && q != [] {
      assert p == [p[0]] + p[1..] && q == [q[0]] + q[1..];
      if cmp(p[0], q[0]) <= 0 {
        MergeMultiset(cmp, p[1..], q);
      } else {
        MergeMultiset(cmp, p, q[1..]);
      }
    }
  }

  lemma MergeMember(cmp: Cmp, p: seq<Elem>, q: seq<Elem>, i: nat)
    requires i < |Merge(cmp, p, q)|
    ensures Merge(cmp, p, q)[i] in p || Merge(cmp, p, q)[i] in q
  {
    MergeMultiset(cmp, p, q);
    assert Merge(cmp, p, q)[i] in multiset(Merge(cmp, p, q));
  }

  /** Every member of `p` was originally ahead of every member of `q`. */
  ghost predicate Ahead(s: seq<Elem>, p: seq<Elem>, q: seq<Elem>) {
    forall a, b :: a in p && b in q ==> a in s && b in s && IndexOf(s, a) < IndexOf(s, b)
  }

  lemma {:induction false} MergeOrdered(cmp: Cmp, s: seq<Elem>, p: seq<Elem>, q: seq<Elem>)
    requires Preorder(cmp, s) && Ordered(cmp, s, p) && Ordered(cmp, s, q) && Ahead(s, p, q)
    ensures Ordered(cmp, s, Merge(cmp, p, q))
  {
    hide Ordered, Ahead, Preorder, Before;
    if p != [] && q != [] {
      TailsReady(cmp, s, p, q);
      var takeP := cmp(p[0], q[0]) <= 0;
      var a, h := if takeP then p[0] else q[0], if takeP then q[0] else p[0];
      var p', q' := if takeP then p[1..] else p, if takeP then q else q[1..];
      MergeOrdered(cmp, s, p', q');
      var rest := Merge(cmp, p', q');
      forall i | 0 <= i < |rest|
        ensures Before(cmp, s, a, rest[i])
      {
        MergeMember(cmp, p', q', i);
        HeadFirst(cmp, s, p, q, rest[i]);
      }
      OrderedCons(cmp, s, a, rest);
    }
  }

  lemma TailsReady(cmp: Cmp, s: seq<Elem>, p: seq<Elem>, q: seq<Elem>)
    requires Ordered(cmp, s, p) && Ordered(cmp, s, q) && Ahead(s, p, q) && p != [] && q != []
    ensures Ordered(cmp, s, p[1..]) && Ahead(s, p[1..], q)
    ensures Ordered(cmp, s, q[1..]) && Ahead(s, p, q[1..])
  {
  }

  lemma HeadFirst(cmp: Cmp, s: seq<Elem>, p: seq<Elem>, q: seq<Elem>, x: Elem)
    requires Preorder(cmp, s) && Ordered(cmp, s, p) && Ordered(cmp, s, q) && Ahead(s, p, q)
    requires p != [] && q != []
    ensures cmp(p[0], q[0]) <= 0 && (x in p[1..] || x in q) ==> Before(cmp, s, p[0], x)
    ensures cmp(p[0], q[0]) > 0 && (x in p || x in q[1..]) ==> Before(cmp, s, q[0], x)
  {
  }

  // ----- passes

  /** `r` is the stable sort of the slice s[lo..hi]. */
  ghost predicate SortedSlice(cmp: Cmp, s: seq<Elem>, lo: nat, hi: nat, r: seq<Elem>) {
    && lo <= hi <= |s|
    && multiset(r) == multiset(s[lo..hi]) && |r| == hi - lo
    && Ordered(cmp, s, r)
  }

  /** `r` is s[lo..] with each run of `k` elements (the last may be shorter) sorted in place. */
  ghost predicate RunsSorted(cmp: Cmp, s: seq<Elem>, lo: nat, r: seq<Elem>, k: nat)
    requires k > 0
    decreases |r|
  {
    if r == [] then lo == |s|
    else
      var i := Min(k, |r|);
      SortedSlice(cmp, s, lo, lo + i, r[..i]) && RunsSorted(cmp, s, lo + i, r[i..], k)
  }

  lemma SlicesAhead(s: seq<Elem>, lo: nat, mid: nat, hi: nat)
    requires NoDup(s) && lo <= mid <= hi <= |s|
    ensures Ahead(s, s[lo..mid], s[mid..hi])
  {
    forall a, b | a in s[lo..mid] && b in s[mid..hi]
      ensures a in s && b in s && IndexOf(s, a) < IndexOf(s, b)
    {
      var i :| lo <= i < mid && s[i] == a;
      var j :| mid <= j < hi && s[j] == b;
      assert IndexOf(s, a) == i && IndexOf(s, b) == j;
    }
  }

  lemma AheadPermuted(s: seq<Elem>, p: seq<Elem>, q: seq<Elem>, p': seq<Elem>, q': seq<Elem>)
    requires Ahead(s, p, q) && multiset(p') == multiset(p) && multiset(q') == multiset(q)
    ensures Ahead(s, p', q')
  {
    forall x
      ensures x in p' ==> x in p
      ensures x in q' ==> x in q
    {
      assert (x in p' <==> x in multiset(p')) && (x in p <==> x in multiset(p));
      assert (x in q' <==> x in multiset(q')) && (x in q <==> x in multiset(q));
    }
  }

  lemma MergeSlices(cmp: Cmp, s: seq<Elem>, lo: nat, mid: nat, hi: nat, p: seq<Elem>, q: seq<Elem>)
    requires NoDup(s) && Preorder(cmp, s)
    requires SortedSlice(cmp, s, lo, mid, p) && SortedSlice(cmp, s, mid, hi, q)
    ensures SortedSlice(cmp, s, lo, hi, Merge(cmp, p, q))
  {
    hide Ordered, Ahead, Preorder, Merge;
    SlicesAhead(s, lo, mid, hi);
    AheadPermuted(s, s[lo..mid], s[mid..hi], p, q);
    MergeOrdered(cmp, s, p, q);
    MergeMultiset(cmp, p, q);
    assert s[lo..hi] == s[lo..mid] + s[mid..hi];
  }

  lemma RunsCons(cmp: Cmp, s: seq<Elem>, lo: nat, m: seq<Elem>, rest: seq<Elem>, k: nat)
    requires 0 < |m| <= k && (|m| < k ==> rest == [])
    requires SortedSlice(cmp, s, lo, lo + |m|, m) && RunsSorted(cmp, s, lo + |m|, rest, k)
    ensures RunsSorted(cmp, s, lo, m + rest, k)
  {
  }

  lemma SlicesOf(r: seq<Elem>, i: nat, j: nat)
    requires i <= j <= |r|
    ensures r[i..][..j - i] == r[i..j] && r[i..][j - i..] == r[j..]
  {
  }

  lemma RunsUncons(cmp: Cmp, s: seq<Elem>, lo: nat, r: seq<Elem>, k: nat)
    requires k > 0 && r != [] && RunsSorted(cmp, s, lo, r, k)
    ensures var i := Min(k, |r|);
            SortedSlice(cmp, s, lo, lo + i, r[..i]) && RunsSorted(cmp, s, lo + i, r[i..], k)
  {
  }

  /** The first merge of a pass turns two sorted runs into one. */
  lemma PassBlock(cmp: Cmp, s: seq<Elem>, lo: nat, r: seq<Elem>, k: nat)
    requires NoDup(s) && Preorder(cmp, s) && k > 0 && r != []
    requires RunsSorted(cmp, s, lo, r, k)
    ensures var i, j := Min(k, |r|), Min(2 * k, |r|);
            SortedSlice(cmp, s, lo, lo + j, Merge(cmp, r[..i], r[i..j])) && RunsSorted(cmp, s, lo + j, r[j..], k)
  {
    hide Ordered, Preorder, NoDup, RunsSorted, SortedSlice;
    var i, j := Min(k, |r|), Min(2 * k, |r|);
    RunsUncons(cmp, s, lo, r, k);
    SlicesOf(r, i, j);
    if i < |r| {
      RunsUncons(cmp, s, lo + i, r[i..], k);
      MergeSlices(cmp, s, lo, lo + i, lo + j, r[..i], r[i..j]);
    } else {
      assert r[i..j] == [];
    }
  }

  lemma PassUnfold(cmp: Cmp, r: seq<Elem>, k: nat)
    requires k > 0 && r != []
    ensures var i, j := Min(k, |r|), Min(2 * k, |r|);
            && Pass(cmp, r, k) == Merge(cmp, r[..i], r[i..j]) + Pass(cmp, r[j..], k)
            && 0 < j <= 2 * k && |r[j..]| < |r| && (j < 2 * k ==> Pass(cmp, r[j..], k) == [])
  {
  }

  lemma PassRunsStep(cmp: Cmp, s: seq<Elem>, lo: nat, r: seq<Elem>, k: nat)
    requires NoDup(s) && Preorder(cmp, s) && k > 0 && r != []
    requires RunsSorted(cmp, s, lo, r, k)
    requires var j := Min(2 * k, |r|); RunsSorted(cmp, s, lo + j, Pass(cmp, r[j..], k), 2 * k)
    ensures RunsSorted(cmp, s, lo, Pass(cmp, r, k), 2 * k)
  {
    hide Ordered, Preorder, NoDup, RunsSorted, SortedSlice, Merge, Pass;
    PassUnfold(cmp, r, k);
    PassBlock(cmp, s, lo, r, k);
    var i, j := Min(k, |r|), Min(2 * k, |r|);
    RunsCons(cmp, s, lo, Merge(cmp, r[..i], r[i..j]), Pass(cmp, r[j..], k), 2 * k);
  }

  lemma {:induction false} PassRunsRest(cmp: Cmp, s: seq<Elem>, lo: nat, r: seq<Elem>, k: nat)
    requires NoDup(s) && Preorder(cmp, s) && k > 0 && r != []
    requires RunsSorted(cmp, s, lo, r, k)
    ensures var j := Min(2 * k, |r|); RunsSorted(cmp, s, lo + j, Pass(cmp, r[j..], k), 2 * k)
    decreases |r|, 0
  {
    hide Ordered, Preorder, NoDup, RunsSorted, SortedSlice, Merge, Pass;
    var j := Min(2 * k, |r|);
    PassBlock(cmp, s, lo, r, k);
    PassRuns(cmp, s, lo + j, r[j..], k);
  }

  lemma {:induction false} PassRuns(cmp: Cmp, s: seq<Elem>, lo: nat, r: seq<Elem>, k: nat)
    requires NoDup(s) && Preorder(cmp, s) && k > 0
    requires RunsSorted(cmp, s, lo, r, k)
    ensures RunsSorted(cmp, s, lo, Pass(cmp, r, k), 2 * k)
    decreases |r|, 1
  {
    if r == [] {
      assert Pass(cmp, r, k) == [];
    } else {
      PassRunsRest(cmp, s, lo, r, k);
      PassRunsStep(cmp, s, lo, r, k);
    }
  }

  lemma {:induction false} SortRuns(cmp: Cmp, s: seq<Elem>, r: seq<Elem>, k: nat)
    requires NoDup(s) && Preorder(cmp, s) && k > 0
    requires |r| == |s| && RunsSorted(cmp, s, 0, r, k)
    ensures StableSorted(cmp, s, Sort(cmp, r, k))
    decreases |s| - k
  {
    var w := Pass(cmp, r, k);
    PassRuns(cmp, s, 0, r, k);
    if |r| <= 2 * k {
      assert w[..|w|] == w && s[0..|s|] == s;
    } else {
      SortRuns(cmp, s, w, 2 * k);
    }
  }

  lemma {:induction false} SingletonRuns(cmp: Cmp, s: seq<Elem>, lo: nat)
    requires lo <= |s|
    ensures RunsSorted(cmp, s, lo, s[lo..], 1)
    decreases |s| - lo
  {
    if lo < |s| {
      assert s[lo..][..1] == s[lo..lo + 1] && s[lo..][1..] == s[lo + 1..];
      SingletonRuns(cmp, s, lo + 1);
    }
  }

  /** HASH_SRT sorts stably and keeps exactly the same elements. */
  lemma SortIsStable(cmp: Cmp, s: seq<Elem>)
    requires NoDup(s) && Preorder(cmp, s)
    ensures StableSorted(cmp, s, Sort(cmp, s, 1))
  {
    SingletonRuns(cmp, s, 0);
    assert s[0..] == s;
    SortRuns(cmp, s, s, 1);
  }

  lemma ThreeParts(s: seq<Elem>, i: nat, j: nat)
    requires i <= j <= |s|
    ensures multiset(s) == multiset(s[..i]) + multiset(s[i..j]) + multiset(s[j..])
  {
    assert s == s[..i] + s[i..j] + s[j..];
  }

  lemma {:induction false} PassPermutes(cmp: Cmp, s: seq<Elem>, k: nat)
    requires k > 0
    ensures multiset(Pass(cmp, s, k)) == multiset(s)
    decreases |s|
  {
    if s != [] {
      var i, j := Min(k, |s|), Min(2 * k, |s|);
      PassUnfold(cmp, s, k);
      hide Pass, Merge;
      MergeMultiset(cmp, s[..i], s[i..j]);
      PassPermutes(cmp, s[j..], k);
      ThreeParts(s, i, j);
    }
  }

  /** Whatever the comparator answers, sorting only rearranges. */
  lemma {:induction false} SortPermutes(cmp: Cmp, s: seq<Elem>, k: nat)
    requires k > 0
    ensures multiset(Sort(cmp, s, k)) == multiset(s)
    decreases |s| - k
  {
    PassPermutes(cmp, s, k);
    if |s| > 2 * k { SortPermutes(cmp, Pass(cmp, s, k), 2 * k); }
  }

  // ----- uniqueness

  lemma SameHead(cmp: Cmp, s: seq<Elem>, r: seq<Elem>, w: seq<Elem>)
    requires Preorder(cmp, s) && r != [] && w != []
    requires r[0] in w && w[0] in r && Ordered(cmp, s, r) && Ordered(cmp, s, w)
    ensures r[0] == w[0]
  {
  }

  lemma {:induction false} OrderedUnique(cmp: Cmp, s: seq<Elem>, r: seq<Elem>, w: seq<Elem>)
    requires Preorder(cmp, s)
    requires multiset(r) == multiset(w) && Ordered(cmp, s, r) && Ordered(cmp, s, w)
    ensures r == w
  {
    if r == [] || w == [] {
      assert |multiset(r)| == |r| && |multiset(w)| == |w|;
    } else {
      hide Preorder, Before;
      assert r == [r[0]] + r[1..] && w == [w[0]] + w[1..];
      assert r[0] in multiset(w) && w[0] in multiset(r);
      SameHead(cmp, s, r, w);
      assert multiset(r[1..]) == multiset(r) - multiset{r[0]};
      assert multiset(w[1..]) == multiset(w) - multiset{w[0]};
      OrderedUnique(cmp, s, r[1..], w[1..]);
    }
  }

  // ----- ordered adds

  ghost predicate Sorted(cmp: Cmp, r: seq<Elem>) {
    forall i, j :: 0 <= i < j < |r| ==> cmp(r[i], r[j]) <= 0
  }

  ghost predicate SubList(s: seq<Elem>, t: seq<Elem>) {
    forall i :: 0 <= i < |s| ==> s[i] in t
  }

  lemma InsertPosSplits(cmp: Cmp, t: seq<Elem>, s: seq<Elem>, e: Elem, i: nat)
    requires Preorder(cmp, t) && SubList(s, t) && e in t && Sorted(cmp, s) && i < |s|
    ensures if i < InsertPos(cmp, s, e) then cmp(s[i], e) <= 0 else cmp(e, s[i]) < 0
  {
  }

  /** An ordered add into a sorted list keeps it sorted: everything before the new element is not
      greater than it, everything after it is strictly greater, so it comes after all its equals. */
  lemma InsertKeepsSorted(cmp: Cmp, s: seq<Elem>, e: Elem)
    requires Preorder(cmp, s + [e]) && Sorted(cmp, s)
    ensures Sorted(cmp, Insert(cmp, s, e))
    ensures forall i :: 0 <= i < |s| ==>
              if i < InsertPos(cmp, s, e) then cmp(s[i], e) <= 0 else cmp(e, s[i]) < 0
  {
    hide Preorder;
    var k, r, t := InsertPos(cmp, s, e), Insert(cmp, s, e), s + [e];
    assert t[|s|] == e && forall i :: 0 <= i < |s| ==> t[i] == s[i];
    forall i | 0 <= i < |s|
      ensures if i < k then cmp(s[i], e) <= 0 else cmp(e, s[i]) < 0
    {
      InsertPosSplits(cmp, t, s, e, i);
    }
    forall i, j | 0 <= i < j < |r|
      ensures cmp(r[i], r[j]) <= 0
    {
      InsertAtIndex(s, k, e, i);
      InsertAtIndex(s, k, e, j);
    }
  }

  lemma BeforeExtends(cmp: Cmp, s: seq<Elem>, e: Elem, a: Elem, b: Elem)
    requires NoDup(s + [e]) && Before(cmp, s, a, b)
    ensures Before(cmp, s + [e], a, b)
  {
    assert (s + [e])[IndexOf(s, a)] == a && (s + [e])[IndexOf(s, b)] == b;
  }

  lemma OrderedInsert(cmp: Cmp, t: seq<Elem>, r: seq<Elem>, e: Elem, k: nat)
    requires k <= |r| && Ordered(cmp, t, r)
    requires forall i :: 0 <= i < k ==> Before(cmp, t, r[i], e)
    requires forall i :: k <= i < |r| ==> Before(cmp, t, e, r[i])
    ensures Ordered(cmp, t, InsertAt(r, k, e))
  {
  }

  lemma OrderedExtends(cmp: Cmp, s: seq<Elem>, e: Elem, r: seq<Elem>)
    requires NoDup(s + [e]) && Ordered(cmp, s, r)
    ensures Ordered(cmp, s + [e], r)
  {
    hide Before, NoDup;
    forall i, j | 0 <= i < j < |r|
      ensures Before(cmp, s + [e], r[i], r[j])
    {
      BeforeExtends(cmp, s, e, r[i], r[j]);
    }
  }

  lemma InsertAtMultiset(r: seq<Elem>, k: nat, e: Elem)
    requires k <= |r|
    ensures multiset(InsertAt(r, k, e)) == multiset(r) + multiset{e}
  {
    assert r == r[..k] + r[k..];
  }

  lemma InsertStable(cmp: Cmp, s: seq<Elem>, r: seq<Elem>, e: Elem)
    requires NoDup(s + [e]) && Preorder(cmp, s + [e]) && StableSorted(cmp, s, r)
    ensures StableSorted(cmp, s + [e], Insert(cmp, r, e))
  {
    hide Preorder, NoDup, Before, Ordered, InsertAt;
    var t, k := s + [e], InsertPos(cmp, r, e);
    InsertAtMultiset(r, k, e);
    OrderedExtends(cmp, s, e, r);
    forall i | 0 <= i < |r|
      ensures if i < k then Before(cmp, t, r[i], e) else Before(cmp, t, e, r[i])
    {
      assert r[i] in multiset(r);
      InsertBefore(cmp, s, r, e, i);
    }
    OrderedInsert(cmp, t, r, e, k);
  }

  lemma InsertBefore(cmp: Cmp, s: seq<Elem>, r: seq<Elem>, e: Elem, i: nat)
    requires NoDup(s + [e]) && Preorder(cmp, s + [e]) && StableSorted(cmp, s, r)
    requires i < |r| && r[i] in s
    ensures if i < InsertPos(cmp, r, e) then Before(cmp, s + [e], r[i], e) else Before(cmp, s + [e], e, r[i])
  {
    var t := s + [e];
    assert t[|s|] == e && t[IndexOf(s, r[i])] == r[i];
    forall j | 0 <= j < |r|
      ensures r[j] in t
    {
      assert r[j] in multiset(r);
    }
    forall j, l | 0 <= j < l < |r|
      ensures cmp(r[j], r[l]) <= 0
    {
      assert Before(cmp, s, r[j], r[l]);
    }
    InsertPosSplits(cmp, t, r, e, i);
  }

  lemma {:induction false} InsertAllStable(cmp: Cmp, s: seq<Elem>)
    requires NoDup(s) && Preorder(cmp, s)
    ensures StableSorted(cmp, s, InsertAll(cmp, s))
  {
    if s != [] {
      var init, e := s[..|s| - 1], s[|s| - 1];
      assert s == init + [e];
      InsertAllStable(cmp, init);
      InsertStable(cmp, init, InsertAll(cmp, init), e);
    }
  }

  /** Building a list by ordered adds gives the same order as appending everything and sorting once. */
  lemma SortEqualsOrderedAdds(cmp: Cmp, s: seq<Elem>)
    requires NoDup(s) && Preorder(cmp, s)
    ensures Sort(cmp, s, 1) == InsertAll(cmp, s)
  {
    SortIsStable(cmp, s);
    InsertAllStable(cmp, s);
    OrderedUnique(cmp, s, Sort(cmp, s, 1), InsertAll(cmp, s));
  }
}
