/** What sequences of reads, writes and truncates mean: the block document against a plain byte string
    and against st_size, and exactly when the two part. */
module FileRuns {
  import opened Paths
  import opened Stats
  import opened FileData

  function SizeOf(f: Files, p: Path): nat {
    if p in f.stats.docs then f.stats.docs[p].value.size else 0
  }

  /** The file exists, st_size is the length of its block (0 when there is none), within the limit. */
  ghost predicate Consistent(f: Files, p: Path) {
    && p in f.stats.docs
    && SizeOf(f, p) == |BlockOf(f, p)| <= MAX_FILE_LEN
  }

  datatype Op =
    | Write(buf: Bytes, offset: nat, now: Timespec)
    | Truncate(size: nat, now: Timespec)
    | Read(n: nat, offset: nat, now: Timespec)

  function Apply(f: Files, p: Path, op: Op, junk: Junk): Files {
    match op
    case Write(buf, offset, now) => WriteSpec(f, p, buf, offset, now, junk).1
    case Truncate(size, now) => TruncateSpec(f, p, size, now, junk).1
    case Read(n, offset, now) => ReadSpec(f, p, n, offset, now).1
  }

  /** The operation on a plain byte string; a write that would pass the limit changes nothing. */
  function OnBytes(file: Bytes, op: Op): Bytes {
    match op
    case Write(buf, offset, _) =>
      if offset + |buf| > MAX_FILE_LEN || offset > |file| then file
      else file[..offset] + buf + if offset + |buf| < |file| then file[offset + |buf|..] else []
    case Truncate(size, _) => if size <= |file| then file[..size] else file
    case Read(_, _, _) => file
  }

  /** Writes carry data and start within the file; truncates do not grow it. */
  predicate Allowed(file: Bytes, op: Op) {
    match op
    case Write(buf, offset, _) => buf != [] && offset <= |file|
    case Truncate(size, _) => size <= |file|
    case Read(_, _, _) => true
  }

  lemma WrittenInside(file: Bytes, buf: Bytes, offset: nat, junk: Junk)
    requires offset <= |file|
    ensures Written(file, buf, offset, junk) ==
            file[..offset] + buf + if offset + |buf| < |file| then file[offset + |buf|..] else []
  {
  }

  lemma ApplyAgrees(f: Files, p: Path, op: Op, junk: Junk)
    requires Consistent(f, p) && Allowed(BlockOf(f, p), op)
    ensures Consistent(Apply(f, p, op, junk), p)
    ensures BlockOf(Apply(f, p, op, junk), p) == OnBytes(BlockOf(f, p), op)
  {
    if op.Write? { WrittenInside(BlockOf(f, p), op.buf, op.offset, junk); }
  }

  predicate AllAllowed(file: Bytes, ops: seq<Op>)
    decreases |ops|
  {
    ops == [] || (Allowed(file, ops[0]) && AllAllowed(OnBytes(file, ops[0]), ops[1..]))
  }

  function RunOnBytes(file: Bytes, ops: seq<Op>): Bytes
    decreases |ops|
  {
    if ops == [] then file else RunOnBytes(OnBytes(file, ops[0]), ops[1..])
  }

  /** Each operation meets memory contents of its own. */
  function Run(f: Files, p: Path, ops: seq<Op>, junk: nat -> Junk): Files
    decreases |ops|
  {
    if ops == [] then f else Run(Apply(f, p, ops[0], junk(|ops|)), p, ops[1..], junk)
  }

  /** Over every allowed run, whatever uninitialised memory holds, the block is the byte string the same
      operations give and st_size is its length. */
  lemma {:induction false} RunAgrees(f: Files, p: Path, ops: seq<Op>, junk: nat -> Junk)
    requires Consistent(f, p) && AllAllowed(BlockOf(f, p), ops)
    ensures Consistent(Run(f, p, ops, junk), p)
    ensures BlockOf(Run(f, p, ops, junk), p) == RunOnBytes(BlockOf(f, p), ops)
    decreases |ops|
  {
    if ops != [] {
      ApplyAgrees(f, p, ops[0], junk(|ops|));
      RunAgrees(Apply(f, p, ops[0], junk(|ops|)), p, ops[1..], junk);
    }
  }

  /** A read of a present block returns exactly the clipped slice, counts it, and changes no contents. */
  lemma ReadsTheFile(f: Files, p: Path, n: nat, offset: nat, now: Timespec)
    requires Consistent(f, p) && p in f.blocks.docs && n < 0x8000_0000
    ensures var (fresult, f', data) := ReadSpec(f, p, n, offset, now);
            && fresult == |data| <= n
            && f'.blocks == f.blocks && SizeOf(f', p) == SizeOf(f, p)
            && (forall i :: 0 <= i < |data| ==> offset + i < |BlockOf(f, p)| && data[i] == BlockOf(f, p)[offset + i])
            && (|data| < n ==> offset + |data| >= |BlockOf(f, p)|)
  {
  }

  /** Reading what a write has just written gives it back. */
  lemma {:induction false} WriteThenRead(f: Files, p: Path, buf: Bytes, offset: nat, now: Timespec, junk: Junk)
    requires Consistent(f, p) && buf != [] && offset + |buf| <= MAX_FILE_LEN && |buf| < 0x8000_0000
    ensures var (fresult, f') := WriteSpec(f, p, buf, offset, now, junk);
            && fresult == |buf|
            && ReadSpec(f', p, |buf|, offset, now).0 == |buf|
            && ReadSpec(f', p, |buf|, offset, now).2 == buf
  {
    var w := Written(BlockOf(f, p), buf, offset, junk);
    assert w[offset..][..|buf|] == buf;
    assert offset + |buf| == |w| ==> w[offset..] == buf;
    assert w[offset..offset + |buf|] == buf;
  }

  /** Operations on one file leave every other file's two documents as they are. */
  lemma OthersUntouched(f: Files, p: Path, q: Path, op: Op, junk: Junk)
    requires q != p
    ensures var f' := Apply(f, p, op, junk);
            && (q in f'.stats.docs <==> q in f.stats.docs)
            && (q in f.stats.docs ==> f'.stats.docs[q] == f.stats.docs[q])
            && (q in f'.blocks.docs <==> q in f.blocks.docs)
            && (q in f.blocks.docs ==> f'.blocks.docs[q] == f.blocks.docs[q])
  {
  }

  // ----- exactly when size and block agree

  /** A truncate keeps st_size right exactly when there is a block, the new size is 0, or it is refused:
      growing a file without a block changes st_size only. */
  lemma TruncateConsistentIff(f: Files, p: Path, size: nat, now: Timespec, junk: Junk)
    requires Consistent(f, p)
    ensures Consistent(TruncateSpec(f, p, size, now, junk).1, p) <==>
            p in f.blocks.docs || size == 0 || size > MAX_FILE_LEN
  {
  }

  /** A write keeps st_size right exactly when it carries data, is refused, finds no block, or is empty and
      exactly at the end: an empty write is taken for a truncate of the block alone. */
  lemma WriteConsistentIff(f: Files, p: Path, buf: Bytes, offset: nat, now: Timespec, junk: Junk)
    requires Consistent(f, p)
    ensures Consistent(WriteSpec(f, p, buf, offset, now, junk).1, p) <==>
            buf != [] || p !in f.blocks.docs || offset == |BlockOf(f, p)| || offset > MAX_FILE_LEN
  {
  }

  const ZEROS: Junk := _ => 0
  const ONES: Junk := _ => 1

  lemma FillerShows(b: Bytes, n: nat)
    requires n > |b|
    ensures Resized(b, n, ZEROS)[|b|] == 0 && Resized(b, n, ONES)[|b|] == 1
  {
  }

  /** The contents after a write are determined by the file and the data exactly when the write is refused,
      starts inside the file or at its end, or is empty and finds no block. Otherwise memory nobody wrote
      becomes part of the file: the gap before the data, or, for an empty write, what update_block reads
      behind the end of the fetched buffer. */
  lemma WriteDeterminedIff(f: Files, p: Path, buf: Bytes, offset: nat, now: Timespec)
    ensures (forall junk, junk' ::
               BlockOf(WriteSpec(f, p, buf, offset, now, junk).1, p) ==
               BlockOf(WriteSpec(f, p, buf, offset, now, junk').1, p))
            <==> offset + |buf| > MAX_FILE_LEN || offset <= |BlockOf(f, p)| || (buf == [] && p !in f.blocks.docs)
  {
    var b := BlockOf(f, p);
    if offset <= |b| && buf != [] {
      forall junk, junk'
        ensures Written(b, buf, offset, junk) == Written(b, buf, offset, junk')
      {
        WrittenInside(b, buf, offset, junk);
        WrittenInside(b, buf, offset, junk');
      }
    } else if offset > |b| && offset + |buf| <= MAX_FILE_LEN && (buf != [] || p in f.blocks.docs) {
      FillerShows(b, offset + |buf|);
      assert BlockOf(WriteSpec(f, p, buf, offset, now, ZEROS).1, p)[|b|] == 0;
      assert BlockOf(WriteSpec(f, p, buf, offset, now, ONES).1, p)[|b|] == 1;
    }
  }

  /** The same for truncates: growing a file that has a block stores bytes read behind the end of it. */
  lemma TruncateDeterminedIff(f: Files, p: Path, size: nat, now: Timespec)
    ensures (forall junk, junk' ::
               BlockOf(TruncateSpec(f, p, size, now, junk).1, p) ==
               BlockOf(TruncateSpec(f, p, size, now, junk').1, p))
            <==> p !in f.blocks.docs || size <= |BlockOf(f, p)| || size > MAX_FILE_LEN
  {
    var b := BlockOf(f, p);
    if p in f.blocks.docs && |b| < size <= MAX_FILE_LEN {
      FillerShows(b, size);
      assert BlockOf(TruncateSpec(f, p, size, now, ZEROS).1, p)[|b|] == 0;
      assert BlockOf(TruncateSpec(f, p, size, now, ONES).1, p)[|b|] == 1;
    }
  }

  /** A file grown by truncate before anything was written, then written at its start, ends up shorter
      than the truncate made it. */
  lemma GrowThenWriteShrinks(f: Files, p: Path, buf: Bytes, size: nat, now: Timespec, junk: Junk)
    requires Consistent(f, p) && p !in f.blocks.docs
    requires 0 < |buf| < size <= MAX_FILE_LEN
    ensures var f1 := TruncateSpec(f, p, size, now, junk);
            var f2 := WriteSpec(f1.1, p, buf, 0, now, junk);
            f1.0 == 0 && SizeOf(f1.1, p) == size && SizeOf(f2.1, p) == |buf|
  {
  }

  // ----- splitting a write

  function Concat(chunks: seq<Bytes>): Bytes {
    if chunks == [] then [] else chunks[0] + Concat(chunks[1..])
  }

  /** The chunks written one after another at consecutive offsets. */
  function WriteChunks(f: Files, p: Path, chunks: seq<Bytes>, offset: nat,
                       now: nat -> Timespec, junk: nat -> Junk): Files
    decreases |chunks|
  {
    if chunks == [] then f
    else WriteChunks(Apply(f, p, Write(chunks[0], offset, now(|chunks|)), junk(|chunks|)), p, chunks[1..],
                     offset + |chunks[0]|, now, junk)
  }

  lemma ConcatNotEmpty(chunks: seq<Bytes>)
    requires chunks != [] && chunks[0] != []
    ensures Concat(chunks) != []
  {
  }

  /** Two consecutive writes are one. */
  lemma OverlayTwice(file: Bytes, a: Bytes, b: Bytes, offset: nat, now: Timespec)
    requires offset <= |file| && offset + |a| + |b| <= MAX_FILE_LEN
    ensures OnBytes(OnBytes(file, Write(a, offset, now)), Write(b, offset + |a|, now)) ==
            OnBytes(file, Write(a + b, offset, now))
  {
    var f1 := OnBytes(file, Write(a, offset, now));
    assert f1[..offset + |a|] == file[..offset] + a;
    assert file[..offset] + a + b == file[..offset] + (a + b);
    if offset + |a| + |b| < |file| {
      assert f1[offset + |a| + |b|..] == file[offset + |a| + |b|..];
    }
  }

  lemma {:induction false} ChunksAgree(f: Files, p: Path, chunks: seq<Bytes>, offset: nat,
                                       now: nat -> Timespec, junk: nat -> Junk)
    requires Consistent(f, p) && offset <= |BlockOf(f, p)| && offset + |Concat(chunks)| <= MAX_FILE_LEN
    requires forall i :: 0 <= i < |chunks| ==> chunks[i] != []
    ensures Consistent(WriteChunks(f, p, chunks, offset, now, junk), p)
    ensures BlockOf(WriteChunks(f, p, chunks, offset, now, junk), p) ==
            OnBytes(BlockOf(f, p), Write(Concat(chunks), offset, now(0)))
    decreases |chunks|
  {
    hide Apply, OnBytes, Consistent, BlockOf;
    var file := BlockOf(f, p);
    if chunks == [] {
      EmptyOverlay(file, offset, now(0));
    } else {
      var op := Write(chunks[0], offset, now(|chunks|));
      var f1 := Apply(f, p, op, junk(|chunks|));
      ApplyAgrees(f, p, op, junk(|chunks|));
      OverlayEnd(file, chunks[0], offset, now(|chunks|));
      ChunksAgree(f1, p, chunks[1..], offset + |chunks[0]|, now, junk);
      SameOverlay(file, chunks[0], offset, now(|chunks|), now(0));
      OverlayTwice(file, chunks[0], Concat(chunks[1..]), offset, now(0));
    }
  }

  lemma EmptyOverlay(file: Bytes, offset: nat, now: Timespec)
    requires offset <= |file|
    ensures OnBytes(file, Write([], offset, now)) == file
  {
    assert file[..offset] + [] + file[offset..] == file;
  }

  lemma OverlayEnd(file: Bytes, buf: Bytes, offset: nat, now: Timespec)
    requires offset <= |file| && offset + |buf| <= MAX_FILE_LEN
    ensures offset + |buf| <= |OnBytes(file, Write(buf, offset, now))|
  {
  }

  lemma SameOverlay(file: Bytes, buf: Bytes, offset: nat, now: Timespec, when: Timespec)
    ensures OnBytes(file, Write(buf, offset, now)) == OnBytes(file, Write(buf, offset, when))
  {
  }

  /** Cutting a write into consecutive non-empty chunks gives the same block and the same st_size as the
      single call, even though the buffers grow in other steps. */
  lemma SplitWrite(f: Files, p: Path, chunks: seq<Bytes>, offset: nat,
                   now: nat -> Timespec, junk: nat -> Junk, when: Timespec, once: Junk)
    requires Consistent(f, p) && offset <= |BlockOf(f, p)| && offset + |Concat(chunks)| <= MAX_FILE_LEN
    requires chunks != [] && forall i :: 0 <= i < |chunks| ==> chunks[i] != []
    ensures var many, single := WriteChunks(f, p, chunks, offset, now, junk),
                                WriteSpec(f, p, Concat(chunks), offset, when, once).1;
            BlockOf(many, p) == BlockOf(single, p) && SizeOf(many, p) == SizeOf(single, p)
  {
    hide Concat, WriteChunks, OnBytes, Written, Resized;
    ConcatNotEmpty(chunks);
    ChunksAgree(f, p, chunks, offset, now, junk);
    SameOverlay(BlockOf(f, p), Concat(chunks), offset, now(0), when);
    ApplyAgrees(f, p, Write(Concat(chunks), offset, when), once);
  }
}
