/** The storage of a uthash table: elements with their hash handle, buckets and the table record. */
module Elems {

  type Key = seq<bv8>

  /** An element together with the UT_hash_handle embedded in it. `prev`/`next` thread the
      application-order list, `hhPrev`/`hhNext` the chain of the element's bucket. */
  class Elem {
    const key: Key
    var hashv: nat
    var tbl: Table?
    var prev: Elem?
    var next: Elem?
    var hhPrev: Elem?
    var hhNext: Elem?

    constructor (key: Key)
      ensures this.key == key
    {
      this.key := key;
    }
  }

  /** The pointer found at position `i` of a list: NULL beyond either end. */
  function At(c: seq<Elem>, i: int): Elem? {
    if 0 <= i < |c| then c[i] else null
  }

  ghost predicate Within(c: seq<Elem>, u: set<Elem>) {
    forall i :: 0 <= i < |c| ==> c[i] in u
  }

  /** UT_hash_bucket, a struct held by value in the bucket array. */
  datatype Bucket = Bucket(hhHead: Elem?, count: nat, expandMult: nat)

  const INITIAL_NUM_BUCKETS: nat := 32
  const INITIAL_NUM_BUCKETS_LOG2: nat := 5
  const BKT_CAPACITY_THRESH: nat := 10

  /** UT_hash_table. */
  class Table {
    var buckets: array<Bucket>
    var numBuckets: nat
    var log2NumBuckets: nat
    var numItems: nat
    var tail: Elem
    var idealChainMaxlen: nat
    var nonidealItems: nat
    var ineffExpands: nat
    var noexpand: bool

    /** The record that HASH_MAKE_TABLE zeroes and fills in for the first element. */
    constructor (first: Elem)
      ensures tail == first
      ensures numBuckets == buckets.Length == INITIAL_NUM_BUCKETS
      ensures log2NumBuckets == INITIAL_NUM_BUCKETS_LOG2
      ensures numItems == idealChainMaxlen == nonidealItems == ineffExpands == 0 && !noexpand
      ensures fresh(buckets)
      ensures forall b :: 0 <= b < buckets.Length ==> buckets[b] == Bucket(null, 0, 0)
    {
      buckets := new Bucket[INITIAL_NUM_BUCKETS](_ => Bucket(null, 0, 0));
      numBuckets, log2NumBuckets := INITIAL_NUM_BUCKETS, INITIAL_NUM_BUCKETS_LOG2;
      numItems, idealChainMaxlen, nonidealItems, ineffExpands, noexpand := 0, 0, 0, 0, false;
      tail := first;
    }
  }
}
