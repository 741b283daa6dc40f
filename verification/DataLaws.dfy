/** What reads, writes and truncates do to every byte, to the stat document and to the result, with no word
    about how. */
module DataLaws {
  import opened Paths
  import opened Store
  import opened Stats
  import opened FileData

  /** The stat document of `p` is as it was in every field but the size and the modification time. */
  ghost predicate Resizes(c: Coll<Stat>, c': Coll<Stat>, p: Path, size: nat, now: Timespec) {
    && p in c.docs && c'.docs.Keys == c.docs.Keys
    && (var s, s' := c.docs[p].value, c'.docs[p].value;
        && s'.size == size && s'.mtime == now
        && s'.mode == s.mode && s'.atime == s.atime && s'.ctime == s.ctime)
    && forall q :: q in c.docs && q != p ==> c'.docs[q] == c.docs[q]
  }

  /** A byte count comes back as it is as long as it fits a C int, and as -1 when it turns negative there. */
  lemma CountReported(n: nat)
    ensures n < 0x8000_0000 ==> Reported(ToInt(n)) == n
    ensures 0x8000_0000 <= n < 0x1_0000_0000 ==> Reported(ToInt(n)) == -1
  {
  }

  lemma WrittenAt(b: Bytes, buf: Bytes, offset: nat, junk: Junk, i: nat)
    requires i < |Written(b, buf, offset, junk)|
    ensures Written(b, buf, offset, junk)[i] ==
            if offset <= i < offset + |buf| then buf[i - offset] else if i < |b| then b[i] else junk(i)
  {
  }

  /** The block after a write that carries data and is not refused, at any offset: the data in its place, the
      old bytes everywhere else where there were any, and, in the gap between the old end and a later
      offset, what memory held. */
  lemma WriteBytes(f: Files, p: Path, buf: Bytes, offset: nat, now: Timespec, junk: Junk)
    requires buf != [] && offset + |buf| <= MAX_FILE_LEN
    ensures var b, f' := BlockOf(f, p), WriteSpec(f, p, buf, offset, now, junk).1;
            var w := BlockOf(f', p);
            && p in f'.blocks.docs && |w| == (if |b| > offset + |buf| then |b| else offset + |buf|)
            && (forall i :: 0 <= i < |buf| ==> w[offset + i] == buf[i])
            && (forall i :: 0 <= i < |b| && (i < offset || i >= offset + |buf|) ==> w[i] == b[i])
            && (forall i :: |b| <= i < offset ==> w[i] == junk(i))
  {
    hide Written, UpdateDoc, Reported, ToInt;
    var b, w := BlockOf(f, p), Written(BlockOf(f, p), buf, offset, junk);
    forall i | 0 <= i < |w|
      ensures w[i] == if offset <= i < offset + |buf| then buf[i - offset] else if i < |b| then b[i] else junk(i)
    {
      WrittenAt(b, buf, offset, junk, i);
    }
  }

  /** Beside the block a write changes st_size and the modification time, and only when the block is new or
      longer. A growing write to a file without a stat document stores the block and still fails. */
  lemma WriteEffect(f: Files, p: Path, buf: Bytes, offset: nat, now: Timespec, junk: Junk)
    requires buf != [] && offset + |buf| <= MAX_FILE_LEN
    ensures var (fresult, f') := WriteSpec(f, p, buf, offset, now, junk);
            var grows := p !in f.blocks.docs || offset + |buf| > |BlockOf(f, p)|;
            && (if grows && p !in f.stats.docs then fresult == -1 else fresult == Reported(ToInt(|buf|)))
            && (if grows && p in f.stats.docs then Resizes(f.stats, f'.stats, p, |BlockOf(f', p)|, now)
                else f'.stats == f.stats)
  {
    hide Written, Reported, ToInt;
  }

  /** A write beyond the limit is refused; an empty one sets the length of a present block and no size. */
  lemma OtherWrites(f: Files, p: Path, buf: Bytes, offset: nat, now: Timespec, junk: Junk)
    ensures offset + |buf| > MAX_FILE_LEN ==> WriteSpec(f, p, buf, offset, now, junk) == (-1, f)
    ensures buf == [] && offset <= MAX_FILE_LEN ==>
              var (fresult, f') := WriteSpec(f, p, buf, offset, now, junk);
              && fresult == 0 && f'.stats == f.stats
              && if p in f.blocks.docs then Cuts(BlockOf(f, p), BlockOf(f', p), offset, junk) else f' == f
  {
  }

  /** The first `n` bytes of `b`, and what memory held beyond its end. */
  ghost predicate Cuts(b: Bytes, w: Bytes, n: nat, junk: Junk) {
    && |w| == n
    && forall i :: 0 <= i < n ==> w[i] == if i < |b| then b[i] else junk(i)
  }

  /** Truncate: what each size does to block, stat document and result. */
  lemma TruncateEffect(f: Files, p: Path, size: nat, now: Timespec, junk: Junk)
    ensures var (fresult, f') := TruncateSpec(f, p, size, now, junk);
            if size > MAX_FILE_LEN then fresult == -EFBIG && f' == f
            else if size == 0 && p !in f.blocks.docs then fresult == -ENOENT && f' == f
            else
              && (if size == 0 then p !in f'.blocks.docs
                  else if p in f.blocks.docs then p in f'.blocks.docs && Cuts(BlockOf(f, p), BlockOf(f', p), size, junk)
                  else f'.blocks == f.blocks)
              && (if p in f.stats.docs then fresult == 0 && Resizes(f.stats, f'.stats, p, size, now)
                  else fresult == -ENOENT && f'.stats == f.stats)
  {
  }

  /** Read: -1 without a block, 0 from the end on, else the bytes; only then the access time, and that alone,
      is set, and without a stat document the read fails although the bytes are copied. */
  lemma ReadEffect(f: Files, p: Path, n: nat, offset: nat, now: Timespec)
    ensures var (fresult, f', data) := ReadSpec(f, p, n, offset, now);
            && f'.blocks == f.blocks
            && (p !in f.blocks.docs ==> fresult == -1 && f' == f && data == [])
            && (p in f.blocks.docs && offset >= |BlockOf(f, p)| ==> fresult == 0 && f' == f && data == [])
            && (p in f.blocks.docs && offset < |BlockOf(f, p)| ==>
                  && |data| == (if offset + n > |BlockOf(f, p)| then |BlockOf(f, p)| - offset else n)
                  && (forall i :: 0 <= i < |data| ==> data[i] == BlockOf(f, p)[offset + i])
                  && (if p in f.stats.docs then fresult == Reported(ToInt(|data|)) && Touches(f.stats, f'.stats, p, now)
                      else fresult == -1 && f'.stats == f.stats))
  {
    hide Reported, ToInt;
  }

  /** The stat document of `p` is as it was in every field but the access time. */
  ghost predicate Touches(c: Coll<Stat>, c': Coll<Stat>, p: Path, now: Timespec) {
    && p in c.docs && c'.docs.Keys == c.docs.Keys
    && (var s, s' := c.docs[p].value, c'.docs[p].value;
        && s'.atime == now
        && s'.mode == s.mode && s'.mtime == s.mtime && s'.ctime == s.ctime && s'.size == s.size)
    && forall q :: q in c.docs && q != p ==> c'.docs[q] == c.docs[q]
  }
}
