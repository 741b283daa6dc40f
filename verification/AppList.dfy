/** The application-order list on the heap: append, ordered insert and unlink, each method tied to a
    sequence function. */
module AppList {
  import opened Elems
  import opened Seqs
  import opened SortSpec

  /** The prev/next fields thread the whole list, with NULL at both ends. */
  ghost predicate AppLinked(app: seq<Elem>)
    reads app`prev, app`next
  {
    forall i :: 0 <= i < |app| ==> app[i].prev == At(app, i - 1) && app[i].next == At(app, i + 1)
  }

  /** The links of `app` after splicing `add` in at position `k`. */
  ghost predicate Spliced(app: seq<Elem>, k: nat, add: Elem)
    reads app`prev, app`next, add`prev, add`next
  {
    && add.prev == At(app, k - 1) && add.next == At(app, k)
    && forall i :: 0 <= i < |app| ==>
         && app[i].prev == (if i == k then add else At(app, i - 1))
         && app[i].next == (if i == k - 1 then add else At(app, i + 1))
  }

  lemma SplicedIsLinked(app: seq<Elem>, k: nat, add: Elem)
    requires k <= |app| && Spliced(app, k, add)
    ensures AppLinked(InsertAt(app, k, add))
  {
  }

  /** Linked like a list, but for the next field of the last element. */
  ghost predicate OpenLinked(app: seq<Elem>)
    reads app`prev, app`next
  {
    forall i :: 0 <= i < |app| ==> app[i].prev == At(app, i - 1) && (i + 1 < |app| ==> app[i].next == app[i + 1])
  }

  /** HASH_APPEND_LIST, wherever `tail` points: the list then runs from its head to the old tail and
      ends with `add`. Whatever followed the old tail is no longer on it. */
  method AppendList(t: Table, add: Elem, ghost app: seq<Elem>)
    requires OpenLinked(app) && NoDup(app) && add !in app
    requires app != [] && t.tail == app[|app| - 1]
    modifies t`tail, add`next, add`prev, app`next
    ensures t.tail == add
    ensures AppLinked(InsertAt(app, |app|, add))
  {
    add.next := null;
    add.prev := t.tail;
    t.tail.next := add;
    t.tail := add;
    assert Spliced(app, |app|, add);
    SplicedIsLinked(app, |app|, add);
  }

  /** HASH_AKBI_INNER_LOOP: the first element greater than `add`, NULL when there is none. */
  method FindInsertPoint(head: Elem, add: Elem, cmp: Cmp, ghost app: seq<Elem>) returns (iter: Elem?)
    requires AppLinked(app) && app != [] && head == app[0]
    ensures iter == At(app, InsertPos(cmp, app, add))
  {
    var it: Elem? := head;
    ghost var i := 0;
    while true
      invariant i < |app| && it == app[i]
      invariant forall j :: 0 <= j < i ==> cmp(app[j], add) <= 0
      decreases |app| - i
    {
      if cmp(it, add) > 0 {
        break;
      }
      it := it.next;
      i := i + 1;
      if it == null {
        break;
      }
    }
    InsertPosUnique(cmp, app, add, i);
    iter := it;
  }

  lemma {:induction false} InsertPosUnique(cmp: Cmp, s: seq<Elem>, e: Elem, i: nat)
    requires i <= |s| && (i < |s| ==> cmp(s[i], e) > 0) && forall j :: 0 <= j < i ==> cmp(s[j], e) <= 0
    ensures InsertPos(cmp, s, e) == i
  {
  }

  method LinkBefore(head: Elem, iter: Elem, add: Elem, ghost app: seq<Elem>, ghost k: nat) returns (newHead: Elem)
    requires AppLinked(app) && NoDup(app) && add !in app
    requires k < |app| && iter == app[k] && head == app[0]
    modifies add`next, add`prev, app`next, app`prev
    ensures AppLinked(InsertAt(app, k, add))
    ensures newHead == InsertAt(app, k, add)[0]
  {
    newHead := head;
    add.next := iter;
    add.prev := iter.prev;
    if add.prev != null {
      add.prev.next := add;
    } else {
      newHead := add;
    }
    iter.prev := add;
    assert Spliced(app, k, add);
    SplicedIsLinked(app, k, add);
  }

  lemma PrefixReady(app: seq<Elem>, j: nat, add: Elem)
    requires AppLinked(app) && NoDup(app) && j < |app| && add !in app
    ensures OpenLinked(app[..j + 1]) && NoDup(app[..j + 1]) && add !in app[..j + 1]
  {
  }

  /** The list part of HASH_ADD_KEYPTR_BYHASHVALUE_INORDER on a non-empty table, wherever `tail` points:
      before a greater element, else behind the tail. */
  method InsertInOrder(t: Table, head: Elem, add: Elem, cmp: Cmp, ghost app: seq<Elem>, ghost j: nat)
    returns (newHead: Elem)
    requires AppLinked(app) && NoDup(app) && add !in app
    requires head == At(app, 0) && j < |app| && t.tail == app[j]
    modifies t`tail, add`next, add`prev, app`next, app`prev
    ensures var k := InsertPos(cmp, app, add);
            var r := if k < |app| then InsertAt(app, k, add) else InsertAt(app[..j + 1], j + 1, add);
            AppLinked(r) && newHead == r[0] && t.tail == if k < |app| then app[j] else add
  {
    hide NoDup, InsertAt, InsertPos, AppLinked, OpenLinked;
    ghost var k := InsertPos(cmp, app, add);
    PrefixReady(app, j, add);
    InsertAtIndex(app, k, add, 0);
    InsertAtIndex(app[..j + 1], j + 1, add, 0);
    var iter := FindInsertPoint(head, add, cmp, app);
    if iter != null {
      newHead := LinkBefore(head, iter, add, app, k);
    } else {
      newHead := head;
      AppendList(t, add, app[..j + 1]);
    }
  }

  /** The links of `app` after unlinking position `k`. */
  ghost predicate Bypassed(app: seq<Elem>, k: nat)
    reads app`prev, app`next
  {
    forall i :: 0 <= i < |app| && i != k ==>
      && app[i].prev == (if i == k + 1 then At(app, k - 1) else At(app, i - 1))
      && app[i].next == (if i == k - 1 then At(app, k + 1) else At(app, i + 1))
  }

  lemma BypassedIsLinked(app: seq<Elem>, k: nat)
    requires k < |app| && Bypassed(app, k)
    ensures AppLinked(RemoveAt(app, k))
  {
  }

  /** The list part of HASH_DELETE_HH when the element is not the only one, wherever `tail` points; only
      the element it points at takes it along, and must have a predecessor to take it to. */
  method Unlink(t: Table, head: Elem, del: Elem, ghost app: seq<Elem>, ghost k: nat) returns (newHead: Elem?)
    requires AppLinked(app) && NoDup(app) && k < |app| && del == app[k]
    requires |app| > 1 && head == app[0] && (del == t.tail ==> k > 0)
    modifies t`tail, app`next, app`prev
    ensures AppLinked(RemoveAt(app, k))
    ensures newHead == RemoveAt(app, k)[0]
    ensures t.tail == if del == old(t.tail) then app[k - 1] else old(t.tail)
  {
    newHead := head;
    if del == t.tail {
      t.tail := del.prev;
    }
    if del.prev != null {
      del.prev.next := del.next;
    } else {
      newHead := del.next;
    }
    if del.next != null {
      del.next.prev := del.prev;
    }
    assert Bypassed(app, k);
    BypassedIsLinked(app, k);
  }
}
