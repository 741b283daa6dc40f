/** HASH_SRT on the heap: the bottom-up merge sort that relinks the application-order list in place. */
module ListSort {
  import opened Elems
  import opened Seqs
  import opened SortSpec
  import opened AppList

  /** The next fields lead through `s` and then to NULL; prev fields are not looked at. */
  ghost predicate ListNext(s: seq<Elem>)
    reads s`next
  {
    forall i :: 0 <= i < |s| ==> s[i].next == At(s, i + 1)
  }

  /** The next fields lead through the run `p`; what follows its last element does not matter. */
  ghost predicate RunNext(p: seq<Elem>)
    reads p`next
  {
    forall i :: 0 <= i < |p| - 1 ==> p[i].next == p[i + 1]
  }

  /** The output list, the rest of the left run and the rest of the input share no element. */
  ghost predicate Apart(out: seq<Elem>, p: seq<Elem>, qr: seq<Elem>) {
    && NoDup(out) && NoDup(p) && NoDup(qr)
    && (forall i, j :: 0 <= i < |out| && 0 <= j < |p| ==> out[i] != p[j])
    && (forall i, j :: 0 <= i < |out| && 0 <= j < |qr| ==> out[i] != qr[j])
    && (forall i, j :: 0 <= i < |p| && 0 <= j < |qr| ==> p[i] != qr[j])
  }

  lemma ApartTakeP(out: seq<Elem>, p: seq<Elem>, qr: seq<Elem>)
    requires Apart(out, p, qr) && p != []
    ensures Apart(out + [p[0]], p[1..], qr) && p[0] !in out
  {
  }

  lemma ApartTakeQ(out: seq<Elem>, p: seq<Elem>, qr: seq<Elem>)
    requires Apart(out, p, qr) && qr != []
    ensures Apart(out + [qr[0]], p, qr[1..]) && qr[0] !in out
  {
  }

  /** Links `e` at the end of the output list. */
  method Emit(list: Elem?, tail: Elem?, e: Elem, ghost out: seq<Elem>, ghost p: seq<Elem>, ghost qr: seq<Elem>)
    returns (list': Elem?, tail': Elem?)
    requires OpenLinked(out) && RunNext(p) && ListNext(qr)
    requires Apart(out, p, qr) && e !in out
    requires list == At(out, 0) && tail == At(out, |out| - 1)
    modifies e`prev, out`next
    ensures OpenLinked(out + [e]) && RunNext(p) && ListNext(qr)
    ensures list' == At(out + [e], 0) && tail' == e
  {
    list' := list;
    if tail != null {
      tail.next := e;
    } else {
      list' := e;
    }
    e.prev := tail;
    tail' := e;
  }

  /** The state of the innermost loop: pointers and counters name what is left of both runs. */
  ghost predicate Merging(p: Elem?, psize: nat, q: Elem?, qsize: nat,
                          out: seq<Elem>, left: seq<Elem>, right: seq<Elem>, rest: seq<Elem>)
    reads out`prev, out`next, left`next, (right + rest)`next
  {
    && OpenLinked(out) && RunNext(left) && ListNext(right + rest)
    && Apart(out, left, right + rest)
    && psize == |left| && (left != [] ==> p == left[0])
    && q == At(right + rest, 0)
    && qsize >= |right| && (rest != [] ==> qsize == |right|)
  }

  /** Takes the head of the left run. */
  method TakeLeft(p: Elem?, psize: nat, q: Elem?, qsize: nat, list: Elem?, tail: Elem?,
                  ghost out: seq<Elem>, ghost left: seq<Elem>, ghost right: seq<Elem>, ghost rest: seq<Elem>)
    returns (p': Elem?, psize': nat, list': Elem?, tail': Elem?)
    requires Merging(p, psize, q, qsize, out, left, right, rest) && left != []
    requires list == At(out, 0) && tail == At(out, |out| - 1)
    modifies left`prev, out`next
    ensures Merging(p', psize', q, qsize, out + [left[0]], left[1..], right, rest)
    ensures list' == At(out + [left[0]], 0) && tail' == left[0]
  {
    var e := p;
    p' := p;
    if p != null {
      p' := p.next;
    }
    psize' := psize - 1;
    ApartTakeP(out, left, right + rest);
    hide Apart;
    assert Apart(out, left[1..], right + rest) by { ApartTail(out, left, right + rest); }
    list', tail' := Emit(list, tail, e, out, left[1..], right + rest);
  }

  lemma ApartTail(out: seq<Elem>, p: seq<Elem>, qr: seq<Elem>)
    requires Apart(out, p, qr)
    ensures p != [] ==> Apart(out, p[1..], qr)
    ensures qr != [] ==> Apart(out, p, qr[1..])
  {
  }

  /** Takes the head of the right run. */
  method TakeRight(p: Elem?, psize: nat, q: Elem, qsize: nat, list: Elem?, tail: Elem?,
                   ghost out: seq<Elem>, ghost left: seq<Elem>, ghost right: seq<Elem>, ghost rest: seq<Elem>)
    returns (q': Elem?, qsize': nat, list': Elem?, tail': Elem?)
    requires Merging(p, psize, q, qsize, out, left, right, rest) && right != []
    requires list == At(out, 0) && tail == At(out, |out| - 1)
    modifies right`prev, out`next
    ensures Merging(p, psize, q', qsize', out + [right[0]], left, right[1..], rest)
    ensures list' == At(out + [right[0]], 0) && tail' == right[0]
  {
    var e := q;
    q' := q.next;
    qsize' := qsize - 1;
    assert (right + rest)[1..] == right[1..] + rest;
    ApartTakeQ(out, left, right + rest);
    ApartTail(out, left, right + rest);
    hide Apart;
    list', tail' := Emit(list, tail, e, out, left, (right + rest)[1..]);
  }

  /** One round of the innermost loop of HASH_SRT. */
  method MergeStep(p: Elem?, psize: nat, q: Elem?, qsize: nat, list: Elem?, tail: Elem?, cmp: Cmp, ghost u: set<Elem>,
                   ghost out: seq<Elem>, ghost left: seq<Elem>, ghost right: seq<Elem>, ghost rest: seq<Elem>)
    returns (p': Elem?, psize': nat, q': Elem?, qsize': nat, list': Elem?, tail': Elem?, ghost took: bool)
    requires Merging(p, psize, q, qsize, out, left, right, rest)
    requires Within(out, u) && Within(left, u) && Within(right, u)
    requires list == At(out, 0) && tail == At(out, |out| - 1)
    requires psize != 0 || (qsize != 0 && q != null)
    modifies u`prev, u`next
    ensures if took then left != [] else right != []
    ensures took <==> right == [] || (left != [] && cmp(left[0], right[0]) <= 0)
    ensures var e := if took then left[0] else right[0];
            && Merging(p', psize', q', qsize', out + [e], if took then left[1..] else left,
                       if took then right else right[1..], rest)
            && list' == At(out + [e], 0) && tail' == e
  {
    RunsLeft(p, psize, q, qsize, out, left, right, rest);
    hide Merging;
    p', psize', q', qsize' := p, psize, q, qsize;
    if psize == 0 {
      took := false;
      q', qsize', list', tail' := TakeRight(p, psize, q, qsize, list, tail, out, left, right, rest);
    } else if qsize == 0 || q == null {
      took := true;
      p', psize', list', tail' := TakeLeft(p, psize, q, qsize, list, tail, out, left, right, rest);
    } else if cmp(p, q) <= 0 {
      took := true;
      p', psize', list', tail' := TakeLeft(p, psize, q, qsize, list, tail, out, left, right, rest);
    } else {
      took := false;
      q', qsize', list', tail' := TakeRight(p, psize, q, qsize, list, tail, out, left, right, rest);
    }
  }

  lemma MergeUnfold(cmp: Cmp, out: seq<Elem>, left: seq<Elem>, right: seq<Elem>, took: bool)
    requires if took then left != [] else right != []
    requires took <==> right == [] || (left != [] && cmp(left[0], right[0]) <= 0)
    ensures out + Merge(cmp, left, right) ==
            if took then out + [left[0]] + Merge(cmp, left[1..], right)
            else out + [right[0]] + Merge(cmp, left, right[1..])
  {
  }

  lemma MergeRightEmpty(cmp: Cmp, left: seq<Elem>)
    ensures Merge(cmp, left, []) == left
  {
  }

  /** The innermost loop of HASH_SRT: merges two adjacent runs onto the output list. */
  method MergeRuns(p0: Elem?, psize0: nat, q0: Elem?, qsize0: nat, list0: Elem?, tail0: Elem?, cmp: Cmp,
                   ghost u: set<Elem>, ghost out0: seq<Elem>,
                   ghost left0: seq<Elem>, ghost right0: seq<Elem>, ghost rest: seq<Elem>)
    returns (q: Elem?, list: Elem?, tail: Elem?)
    requires Merging(p0, psize0, q0, qsize0, out0, left0, right0, rest)
    requires Within(out0, u) && Within(left0, u) && Within(right0, u)
    requires list0 == At(out0, 0) && tail0 == At(out0, |out0| - 1)
    modifies u`prev, u`next
    ensures var out := out0 + Merge(cmp, left0, right0);
            && OpenLinked(out) && ListNext(rest) && Apart(out, [], rest) && Within(out, u)
            && q == At(rest, 0) && list == At(out, 0) && tail == At(out, |out| - 1)
  {
    hide Merging, Merge;
    q, list, tail := q0, list0, tail0;
    var p: Elem?, psize, qsize := p0, psize0, qsize0;
    ghost var out, left, right := out0, left0, right0;
    while psize != 0 || (qsize != 0 && q != null)
      invariant Merging(p, psize, q, qsize, out, left, right, rest)
      invariant Within(out, u) && Within(left, u) && Within(right, u)
      invariant list == At(out, 0) && tail == At(out, |out| - 1)
      invariant out + Merge(cmp, left, right) == out0 + Merge(cmp, left0, right0)
      decreases |left| + |right|
    {
      ghost var took;
      p, psize, q, qsize, list, tail, took :=
        MergeStep(p, psize, q, qsize, list, tail, cmp, u, out, left, right, rest);
      MergeUnfold(cmp, out, left, right, took);
      if took {
        out, left := out + [left[0]], left[1..];
      } else {
        out, right := out + [right[0]], right[1..];
      }
    }
    RunsDone(p, psize, q, qsize, out, left, right, rest);
    MergeRightEmpty(cmp, []);
    assert out + [] == out;
  }

  lemma RunsLeft(p: Elem?, psize: nat, q: Elem?, qsize: nat,
                 out: seq<Elem>, left: seq<Elem>, right: seq<Elem>, rest: seq<Elem>)
    requires Merging(p, psize, q, qsize, out, left, right, rest)
    ensures psize == |left| && (left != [] ==> p == left[0])
    ensures (qsize == 0 || q == null) <==> right == []
    ensures right != [] ==> q == right[0]
  {
  }

  lemma RunsDone(p: Elem?, psize: nat, q: Elem?, qsize: nat,
                 out: seq<Elem>, left: seq<Elem>, right: seq<Elem>, rest: seq<Elem>)
    requires Merging(p, psize, q, qsize, out, left, right, rest)
    requires psize == 0 && (qsize == 0 || q == null)
    ensures left == [] && right == []
    ensures OpenLinked(out) && ListNext(rest) && Apart(out, [], rest) && q == At(rest, 0)
  {
    RunsLeft(p, psize, q, qsize, out, left, right, rest);
    assert right + rest == rest;
  }

  /** The counting loop of HASH_SRT: steps over at most `insize` elements. */
  method SplitRun(p: Elem, insize: nat, ghost rest: seq<Elem>) returns (psize: nat, q: Elem?)
    requires insize > 0 && ListNext(rest) && rest != [] && p == rest[0]
    ensures psize == Min(insize, |rest|) && q == At(rest, psize)
  {
    q := p;
    psize := 0;
    var i := 0;
    while i < insize
      invariant 0 <= i <= insize && psize == i < |rest| && q == rest[psize]
    {
      psize := psize + 1;
      q := q.next;
      if q == null {
        break;
      }
      i := i + 1;
    }
  }

  /** Pass, one pair of runs at a time. */
  lemma PassHead(cmp: Cmp, out: seq<Elem>, rest: seq<Elem>, k: nat)
    requires k > 0 && rest != []
    ensures var i, j := Min(k, |rest|), Min(2 * k, |rest|);
            out + Pass(cmp, rest, k) == out + Merge(cmp, rest[..i], rest[i..j]) + Pass(cmp, rest[j..], k)
  {
  }

  lemma SplitApart(out: seq<Elem>, rest: seq<Elem>, i: nat, j: nat)
    requires Apart(out, [], rest) && i <= j <= |rest|
    ensures Apart(out, rest[..i], rest[i..j] + rest[j..])
    ensures rest[i..j] + rest[j..] == rest[i..]
  {
  }

  lemma StartMerging(p: Elem, psize: nat, q: Elem?, insize: nat, out: seq<Elem>, rest: seq<Elem>, i: nat, j: nat)
    requires OpenLinked(out) && ListNext(rest) && Apart(out, [], rest) && rest != []
    requires p == rest[0] && psize == i == Min(insize, |rest|) && j == Min(2 * insize, |rest|) && q == At(rest, i)
    ensures Merging(p, psize, q, insize, out, rest[..i], rest[i..j], rest[j..])
  {
    SplitApart(out, rest, i, j);
    hide Apart;
  }

  lemma PartsWithin(s: seq<Elem>, i: nat, j: nat, u: set<Elem>)
    requires Within(s, u) && i <= j <= |s|
    ensures Within(s[..i], u) && Within(s[i..j], u) && Within(s[j..], u)
  {
  }

  /** One pair of runs of a pass: split off the left run, then merge. */
  method MergePair(p: Elem, insize: nat, list: Elem?, tail: Elem?, cmp: Cmp, ghost u: set<Elem>,
                   ghost out: seq<Elem>, ghost rest: seq<Elem>)
    returns (q: Elem?, list': Elem?, tail': Elem?)
    requires insize > 0 && rest != [] && p == rest[0]
    requires OpenLinked(out) && ListNext(rest) && Apart(out, [], rest) && Within(out, u) && Within(rest, u)
    requires list == At(out, 0) && tail == At(out, |out| - 1)
    modifies u`prev, u`next
    ensures var i, j := Min(insize, |rest|), Min(2 * insize, |rest|);
            var out' := out + Merge(cmp, rest[..i], rest[i..j]);
            && OpenLinked(out') && ListNext(rest[j..]) && Apart(out', [], rest[j..]) && Within(out', u)
            && q == At(rest[j..], 0) && list' == At(out', 0) && tail' == At(out', |out'| - 1)
  {
    hide Merging, Merge, Apart, OpenLinked, ListNext, Within;
    var psize;
    psize, q := SplitRun(p, insize, rest);
    ghost var i, j := Min(insize, |rest|), Min(2 * insize, |rest|);
    StartMerging(p, psize, q, insize, out, rest, i, j);
    PartsWithin(rest, i, j, u);
    q, list', tail' := MergeRuns(p, psize, q, insize, list, tail, cmp, u, out, rest[..i], rest[i..j], rest[j..]);
  }

  /** The end of a pass: the last element of the output points nowhere. */
  method CloseList(tail: Elem?, ghost out: seq<Elem>)
    requires OpenLinked(out) && NoDup(out) && tail == At(out, |out| - 1)
    modifies out`next
    ensures AppLinked(out)
  {
    if tail != null {
      tail.next := null;
    }
  }

  /** The middle loop of HASH_SRT: one pass over the list with runs of `insize`. */
  method MergePairs(first: Elem, insize: nat, cmp: Cmp, ghost u: set<Elem>, ghost s: seq<Elem>)
    returns (l: Elem?, t: Elem?, nmerges: nat)
    requires insize > 0 && s != [] && first == s[0] && ListNext(s) && NoDup(s) && Within(s, u)
    modifies u`prev, u`next
    ensures var r := Pass(cmp, s, insize);
            OpenLinked(r) && NoDup(r) && Within(r, u) && l == At(r, 0) && t == At(r, |r| - 1)
    ensures nmerges <= 1 <==> |s| <= 2 * insize
  {
    hide Merge, Pass, Apart, OpenLinked, ListNext, Within, NoDup;
    var p: Elem? := first;
    l, t, nmerges := null, null, 0;
    ghost var out, rest := [], s;
    PassStart(s, u);
    while p != null
      invariant p == At(rest, 0) && l == At(out, 0) && t == At(out, |out| - 1)
      invariant OpenLinked(out) && ListNext(rest) && Apart(out, [], rest) && Within(out, u) && Within(rest, u)
      invariant out + Pass(cmp, rest, insize) == Pass(cmp, s, insize)
      invariant MergeCount(nmerges, |out|, |rest|, |s|, insize)
      decreases |rest|
    {
      nmerges := nmerges + 1;
      PassHead(cmp, out, rest, insize);
      ghost var i, j := Min(insize, |rest|), Min(2 * insize, |rest|);
      PartsWithin(rest, i, j, u);
      p, l, t := MergePair(p, insize, l, t, cmp, u, out, rest);
      out, rest := out + Merge(cmp, rest[..i], rest[i..j]), rest[j..];
    }
    PassNil(cmp, insize, out);
    PassEnd(out, u);
  }

  /** How many merges a pass has made when `done` elements of `total` are out. */
  ghost predicate MergeCount(nmerges: nat, done: nat, left: nat, total: nat, insize: nat) {
    && done + left == total
    && (nmerges == 0 ==> done == 0)
    && (nmerges == 1 ==> done == Min(2 * insize, total))
    && (nmerges >= 2 ==> total > 2 * insize)
  }

  /** A whole pass of HASH_SRT. */
  method MergePass(first: Elem, insize: nat, cmp: Cmp, ghost u: set<Elem>, ghost s: seq<Elem>)
    returns (list: Elem, tail: Elem, nmerges: nat)
    requires insize > 0 && s != [] && first == s[0] && ListNext(s) && NoDup(s) && Within(s, u)
    modifies u`prev, u`next
    ensures var r := Pass(cmp, s, insize);
            AppLinked(r) && list == r[0] && tail == r[|r| - 1]
    ensures nmerges <= 1 <==> |s| <= 2 * insize
  {
    hide Pass;
    var l, t;
    l, t, nmerges := MergePairs(first, insize, cmp, u, s);
    CloseList(t, Pass(cmp, s, insize));
    list, tail := l, t;
  }

  lemma PassStart(s: seq<Elem>, u: set<Elem>)
    requires NoDup(s)
    ensures Apart([], [], s) && OpenLinked([]) && Within([], u)
  {
  }

  lemma PassEnd(out: seq<Elem>, u: set<Elem>)
    requires Apart(out, [], []) && Within(out, u)
    ensures NoDup(out)
  {
  }

  lemma PassNil(cmp: Cmp, k: nat, out: seq<Elem>)
    requires k > 0
    ensures out + Pass(cmp, [], k) == out
  {
  }

  /** HASH_SRT: afterwards the list is Sort(cmp, app, 1), doubly linked from the returned head to `tail`. */
  method SortList(t: Table, head: Elem, cmp: Cmp, ghost u: set<Elem>, ghost app: seq<Elem>) returns (newHead: Elem)
    requires app != [] && head == app[0] && AppLinked(app) && NoDup(app) && Within(app, u)
    modifies t`tail, u`prev, u`next
    ensures var r := Sort(cmp, app, 1);
            AppLinked(r) && newHead == r[0] && t.tail == r[|r| - 1]
  {
    hide Pass, Within, NoDup, AppLinked, ListNext;
    newHead := head;
    var list, insize, looping := head, 1, true;
    ghost var s := app;
    while looping
      invariant s != [] && insize > 0 && AppLinked(s) && NoDup(s) && Within(s, u) && list == s[0]
      invariant looping ==> Sort(cmp, s, insize) == Sort(cmp, app, 1)
      invariant !looping ==> s == Sort(cmp, app, 1) && newHead == s[0] && t.tail == s[|s| - 1]
      decreases looping, |s| - insize
    {
      var tail, nmerges;
      ListNextOf(s);
      list, tail, nmerges := MergePass(list, insize, cmp, u, s);
      PassKeeps(cmp, s, insize, u);
      s := Pass(cmp, s, insize);
      if nmerges <= 1 {
        looping := false;
        t.tail := tail;
        newHead := list;
      }
      insize := insize * 2;
    }
  }

  lemma ListNextOf(s: seq<Elem>)
    requires AppLinked(s)
    ensures ListNext(s)
  {
  }

  lemma PassKeeps(cmp: Cmp, s: seq<Elem>, k: nat, u: set<Elem>)
    requires k > 0 && NoDup(s) && Within(s, u)
    ensures NoDup(Pass(cmp, s, k)) && Within(Pass(cmp, s, k), u)
  {
    PassPermutes(cmp, s, k);
    NoDupPermuted(s, Pass(cmp, s, k));
    forall i | 0 <= i < |Pass(cmp, s, k)|
      ensures Pass(cmp, s, k)[i] in u
    {
      assert Pass(cmp, s, k)[i] in multiset(s);
    }
  }
}
