/** File contents: one block document per file, read, changed and written back whole (data.c). */
module FileData {
  import opened Paths
  import opened Store
  import opened Stats

  type Byte = bv8
  type Bytes = seq<Byte>

  /** What memory that nobody wrote contains, by position. */
  type Junk = nat -> Byte

  const MAX_DOC_LEN: nat := 20 * 1024 * 1024
  const MAX_FILE_BLOCKS: nat := 256
  const MAX_FILE_LEN: nat := MAX_FILE_BLOCKS * MAX_DOC_LEN

  /** A size_t stored in a C int of 32 bits. */
  function ToInt(n: nat): int {
    (n + 0x8000_0000) % 0x1_0000_0000 - 0x8000_0000
  }

  /** read and write report every error, and any count that turns negative, as -1. */
  function Reported(fresult: int): int {
    if fresult < 0 then -1 else fresult
  }

  // ----- what the operations do

  function Filler(junk: Junk, lower: nat, upper: nat): (r: Bytes)
    requires lower <= upper
    ensures |r| == upper - lower && forall i :: 0 <= i < |r| ==> r[i] == junk(lower + i)
  {
    seq(upper - lower, i requires 0 <= i => junk(lower + i))
  }

  /** The first `n` bytes, read past the end of the buffer if need be. */
  function Resized(prior: Bytes, n: nat, junk: Junk): (r: Bytes)
    ensures |r| == n
  {
    if n <= |prior| then prior[..n] else prior + Filler(junk, |prior|, n)
  }

  function Max(a: nat, b: nat): nat {
    if a >= b then a else b
  }

  function Written(prior: Bytes, buf: Bytes, offset: nat, junk: Junk): (r: Bytes)
    ensures |r| == Max(|prior|, offset + |buf|)
  {
    var grown := Resized(prior, Max(|prior|, offset + |buf|), junk);
    grown[..offset] + buf + grown[offset + |buf|..]
  }

  /** The two documents of a file, under one key in two collections. */
  datatype Files = Files(stats: Coll<Stat>, blocks: Coll<Bytes>)

  function BlockOf(f: Files, p: Path): Bytes {
    if p in f.blocks.docs then f.blocks.docs[p].value else []
  }

  function PutBlock(f: Files, p: Path, block: Bytes): Files {
    f.(blocks := Put(f.blocks, p, block))
  }

  function PutSize(f: Files, p: Path, size: nat, now: Timespec): (int, Files) {
    var r := UpdateDoc(f.stats, p, Size(size, now));
    (r.0, f.(stats := r.1))
  }

  /** update_block: an empty buffer means truncate. The third result is *new_block_size, 0 when not set. */
  function UpdateBlockSpec(f: Files, p: Path, buf: Bytes, offset: nat, junk: Junk): (int, Files, nat) {
    if offset + |buf| > MAX_FILE_LEN then (-EFBIG, f, 0)
    else if buf == [] then
      (0, if p in f.blocks.docs then PutBlock(f, p, Resized(BlockOf(f, p), offset, junk)) else f, 0)
    else
      var block := Written(BlockOf(f, p), buf, offset, junk);
      (0, PutBlock(f, p, block), if p !in f.blocks.docs || |block| > |BlockOf(f, p)| then |block| else 0)
  }

  function WriteSpec(f: Files, p: Path, buf: Bytes, offset: nat, now: Timespec, junk: Junk): (int, Files) {
    var (fresult, f', size) := UpdateBlockSpec(f, p, buf, offset, junk);
    if fresult != 0 then (-1, f')
    else if size != 0 then
      var (fresult', f'') := PutSize(f', p, size, now);
      (if fresult' != 0 then -1 else Reported(ToInt(|buf|)), f'')
    else (Reported(ToInt(|buf|)), f')
  }

  /** The bytes a read of `n` bytes at `offset` can see. */
  function Slice(b: Bytes, offset: nat, n: nat): Bytes {
    if offset >= |b| then []
    else if offset + n > |b| then b[offset..]
    else b[offset..offset + n]
  }

  function ReadSpec(f: Files, p: Path, n: nat, offset: nat, now: Timespec): (int, Files, Bytes) {
    if p !in f.blocks.docs then (-1, f, [])
    else if offset >= |BlockOf(f, p)| then (0, f, [])
    else
      var data := Slice(BlockOf(f, p), offset, n);
      var r := UpdateDoc(f.stats, p, Atime(now));
      (if r.0 != 0 then -1 else Reported(ToInt(|data|)), f.(stats := r.1), data)
  }

  function TruncateSpec(f: Files, p: Path, size: nat, now: Timespec, junk: Junk): (int, Files) {
    if size == 0 then
      if p !in f.blocks.docs then (-ENOENT, f)
      else PutSize(f.(blocks := Drop(f.blocks, p)), p, 0, now)
    else
      var (fresult, f', _) := UpdateBlockSpec(f, p, [], size, junk);
      if fresult != 0 then (fresult, f') else PutSize(f', p, size, now)
  }

  // ----- the operations

  method Memcpy(dst: array<Byte>, at: nat, src: Bytes)
    requires at + |src| <= dst.Length
    modifies dst
    ensures dst[..] == old(dst[..at]) + src + old(dst[at + |src|..])
  {
    forall i | 0 <= i < |src| {
      dst[at + i] := src[i];
    }
  }

  method Malloc(n: nat, junk: Junk) returns (a: array<Byte>)
    ensures fresh(a) && a[..] == Filler(junk, 0, n)
  {
    a := new Byte[n](i requires i >= 0 => junk(i));
  }

  /** memdupm: a buffer of `m` bytes that starts with the first `n` bytes of `src`. */
  method Memdupm(src: array<Byte>, n: nat, m: nat, junk: Junk) returns (a: array<Byte>)
    requires n <= src.Length && n <= m
    ensures fresh(a) && a[..] == Resized(src[..n], m, junk)
  {
    a := Malloc(m, junk);
    Memcpy(a, 0, src[..n]);
    assert Filler(junk, 0, m)[n..] == Filler(junk, n, m);
    assert src[..n] + [] == src[..n];
  }

  /** get_block. */
  method GetBlock(blocks: Collection<Bytes>, p: Path) returns (fresult: int, value: array<Byte>)
    ensures fresult == if p in blocks.docs then 0 else -ENOENT
    ensures fresh(value) && value[..] == if p in blocks.docs then blocks.docs[p].value else []
  {
    var status, doc := blocks.Get(p);
    if status != Success {
      value := new Byte[0];
      fresult := -ENOENT;
    } else {
      var bytes := doc.value.value;
      value := new Byte[|bytes|](i requires 0 <= i < |bytes| => bytes[i]);
      fresult := 0;
    }
  }

  method UpdateBlock(stats: Collection<Stat>, blocks: Collection<Bytes>, p: Path, buf: Bytes, offset: nat, junk: Junk)
    returns (fresult: int, newBlockSize: nat)
    modifies blocks
    ensures (fresult, Files(stats.View(), blocks.View()), newBlockSize) ==
            UpdateBlockSpec(old(Files(stats.View(), blocks.View())), p, buf, offset, junk)
  {
    newBlockSize := 0;
    var isNotTruncate := |buf| > 0;
    var nupdate := offset + |buf|;
    if nupdate > MAX_FILE_LEN {
      return -EFBIG, 0;
    }
    var value;
    fresult, value := GetBlock(blocks, p);
    var nvalue := value.Length;
    if fresult == -ENOENT {
      fresult := 0;
      if isNotTruncate {
        value := Malloc(nupdate, junk);
        nvalue := nupdate;
        newBlockSize := nupdate;
      } else {
        return;
      }
    }
    var stored;
    ghost var prior := if p in blocks.docs then blocks.docs[p].value else [];
    if isNotTruncate {
      if nupdate > nvalue {
        value := Memdupm(value, nvalue, nupdate, junk);
        nvalue := nupdate;
        newBlockSize := nupdate;
      }
      assert value[..] == Resized(prior, Max(|prior|, nupdate), junk);
      Memcpy(value, offset, buf);
      stored := value[..];
    } else {
      nvalue := offset;
      stored := Resized(value[..], nvalue, junk);
    }
    var status := blocks.Upsert(p, stored);
  }

  /** read_data: copies into the caller's buffer and touches the access time. */
  method ReadData(stats: Collection<Stat>, blocks: Collection<Bytes>, p: Path, n: nat, offset: nat, now: Timespec,
                  buf: array<Byte>)
    returns (fresult: int, ghost data: Bytes)
    requires buf.Length >= n
    modifies stats, buf
    ensures (fresult, Files(stats.View(), blocks.View()), data) ==
            ReadSpec(old(Files(stats.View(), blocks.View())), p, n, offset, now)
    ensures |data| <= buf.Length && buf[..] == data + old(buf[|data|..])
  {
    data := [];
    var value;
    fresult, value := GetBlock(blocks, p);
    if fresult != 0 {
      return -1, [];
    }
    var maxSize := value.Length;
    if offset >= maxSize {
      return 0, [];
    }
    var nbuf := n;
    if offset + nbuf > maxSize {
      nbuf := maxSize - offset;
    }
    assert value[offset..offset + nbuf] == Slice(value[..], offset, n);
    data := value[offset..offset + nbuf];
    Memcpy(buf, 0, value[offset..offset + nbuf]);
    fresult := UpdateStatAtime(stats, p, now);
    if fresult == 0 {
      fresult := ToInt(nbuf);
    }
    if fresult < 0 {
      fresult := -1;
    }
  }

  /** write_data. */
  method WriteData(stats: Collection<Stat>, blocks: Collection<Bytes>, p: Path, buf: Bytes, offset: nat,
                   now: Timespec, junk: Junk) returns (fresult: int)
    requires stats as object != blocks
    modifies stats, blocks
    ensures (fresult, Files(stats.View(), blocks.View())) ==
            WriteSpec(old(Files(stats.View(), blocks.View())), p, buf, offset, now, junk)
  {
    if offset + |buf| > MAX_FILE_LEN {
      return -1;
    }
    var newBlockSize;
    fresult, newBlockSize := UpdateBlock(stats, blocks, p, buf, offset, junk);
    if fresult == 0 && newBlockSize != 0 {
      fresult := UpdateStatSize(stats, p, newBlockSize, now);
    }
    if fresult == 0 {
      fresult := ToInt(|buf|);
    }
    if fresult < 0 {
      fresult := -1;
    }
  }

  /** remove_data. */
  method RemoveData(blocks: Collection<Bytes>, p: Path) returns (fresult: int)
    modifies blocks
    ensures blocks.View() == RemoveDoc(old(blocks.View()), p).1
    ensures fresult == if p in old(blocks.docs) then 0 else -ENOENT
  {
    var status := blocks.Remove(p);
    fresult := if status != Success then -ENOENT else 0;
  }

  /** truncate_data. */
  method TruncateData(stats: Collection<Stat>, blocks: Collection<Bytes>, p: Path, size: nat, now: Timespec, junk: Junk)
    returns (fresult: int)
    requires stats as object != blocks
    modifies stats, blocks
    ensures (fresult, Files(stats.View(), blocks.View())) ==
            TruncateSpec(old(Files(stats.View(), blocks.View())), p, size, now, junk)
  {
    if size == 0 {
      fresult := RemoveData(blocks, p);
    } else {
      var unset;
      fresult, unset := UpdateBlock(stats, blocks, p, [], size, junk);
    }
    if fresult != 0 {
      return;
    }
    fresult := UpdateStatSize(stats, p, size, now);
  }
}
