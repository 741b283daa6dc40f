/** One Couchbase collection: documents under string keys, each with a CAS value that every successful
    write replaces by a larger one. */
module Store {
  import opened Paths

  datatype Option<T> = None | Some(value: T)

  datatype Doc<T> = Doc(value: T, cas: nat)

  /** The collection as a value: its documents and the largest CAS handed out so far. */
  datatype Coll<T> = Coll(docs: map<Path, Doc<T>>, clock: nat)

  datatype Status = Success | DocumentExists | DocumentNotFound | CasMismatch

  ghost predicate CollOk<T>(c: Coll<T>) {
    forall k :: k in c.docs ==> 0 < c.docs[k].cas <= c.clock
  }

  function Values<T>(c: Coll<T>): map<Path, T> {
    map k | k in c.docs :: c.docs[k].value
  }

  function Put<T>(c: Coll<T>, k: Path, v: T): (r: Coll<T>)
    ensures Values(r) == Values(c)[k := v]
  {
    Coll(c.docs[k := Doc(v, c.clock + 1)], c.clock + 1)
  }

  function Drop<T>(c: Coll<T>, k: Path): (r: Coll<T>)
    ensures Values(r) == Values(c) - {k}
  {
    Coll(c.docs - {k}, c.clock)
  }

  /** LCB_STORE_INSERT: only when the key is free. */
  function InsertDoc<T>(c: Coll<T>, k: Path, v: T): (Status, Coll<T>) {
    if k in c.docs then (DocumentExists, c) else (Success, Put(c, k, v))
  }

  /** LCB_STORE_REPLACE: only when the key is present, and, for a CAS other than 0, only if the
      document still carries that CAS. */
  function ReplaceDoc<T>(c: Coll<T>, k: Path, v: T, cas: nat): (Status, Coll<T>) {
    if k !in c.docs then (DocumentNotFound, c)
    else if cas != 0 && c.docs[k].cas != cas then (CasMismatch, c)
    else (Success, Put(c, k, v))
  }

  /** LCB_STORE_UPSERT. */
  function UpsertDoc<T>(c: Coll<T>, k: Path, v: T): (Status, Coll<T>) {
    (Success, Put(c, k, v))
  }

  function RemoveDoc<T>(c: Coll<T>, k: Path): (Status, Coll<T>) {
    if k in c.docs then (Success, Drop(c, k)) else (DocumentNotFound, c)
  }

  /** The collection as the client reaches it through lcb_get, lcb_store and lcb_remove. */
  class Collection<T> {
    var docs: map<Path, Doc<T>>
    var clock: nat

    ghost function View(): Coll<T>
      reads this
    {
      Coll(docs, clock)
    }

    constructor ()
      ensures View() == Coll(map[], 0)
    {
      docs, clock := map[], 0;
    }

    method Get(k: Path) returns (status: Status, doc: Option<Doc<T>>)
      ensures status == if k in docs then Success else DocumentNotFound
      ensures doc == if k in docs then Some(docs[k]) else None
    {
      if k in docs {
        status, doc := Success, Some(docs[k]);
      } else {
        status, doc := DocumentNotFound, None;
      }
    }

    method Insert(k: Path, v: T) returns (status: Status)
      modifies this
      ensures (status, View()) == InsertDoc(old(View()), k, v)
    {
      if k in docs {
        return DocumentExists;
      }
      clock := clock + 1;
      docs := docs[k := Doc(v, clock)];
      status := Success;
    }

    method Replace(k: Path, v: T, cas: nat) returns (status: Status)
      modifies this
      ensures (status, View()) == ReplaceDoc(old(View()), k, v, cas)
    {
      if k !in docs {
        return DocumentNotFound;
      }
      if cas != 0 && docs[k].cas != cas {
        return CasMismatch;
      }
      clock := clock + 1;
      docs := docs[k := Doc(v, clock)];
      status := Success;
    }

    method Upsert(k: Path, v: T) returns (status: Status)
      modifies this
      ensures (status, View()) == UpsertDoc(old(View()), k, v)
    {
      clock := clock + 1;
      docs := docs[k := Doc(v, clock)];
      status := Success;
    }

    method Remove(k: Path) returns (status: Status)
      modifies this
      ensures (status, View()) == RemoveDoc(old(View()), k)
    {
      if k !in docs {
        return DocumentNotFound;
      }
      docs := docs - {k};
      status := Success;
    }
  }
}
