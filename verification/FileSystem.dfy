/** The operations of cbfuse.c, dentries.c and the insert and remove half of stats.c as they run against
    the three collections. Each is proved to have the result and the final disk that running its steps to
    the end gives. */
module FileSystem {
  import opened Paths
  import opened Store
  import opened Stats
  import opened FileData
  import opened Namespace
  import opened Tree

  /** Copies every child but `name`. */
  method CopyChildrenExcept(children: seq<string>, name: string) returns (copy: seq<string>)
    ensures copy == RemoveName(children, name)
  {
    copy := [];
    var i := 0;
    while i < |children|
      invariant 0 <= i <= |children|
      invariant copy == RemoveName(children[..i], name)
    {
      if children[i] != name {
        copy := copy + [children[i]];
      }
      assert children[..i + 1][..i] == children[..i];
      i := i + 1;
    }
    assert children[..i] == children;
  }

  class Cbfuse {
    const stats: Collection<Stat>
    const dentries: Collection<Dentry>
    const blocks: Collection<Bytes>

    constructor (stats: Collection<Stat>, dentries: Collection<Dentry>, blocks: Collection<Bytes>)
      ensures this.stats == stats && this.dentries == dentries && this.blocks == blocks
    {
      this.stats, this.dentries, this.blocks := stats, dentries, blocks;
    }

    ghost function View(): Disk
      reads stats, dentries, blocks
    {
      Disk(Values(stats.View()), Values(dentries.View()), Values(blocks.View()))
    }

    method InsertStat(p: Path, mode: nat, now: Timespec) returns (fresult: int)
      modifies stats
      ensures var d := old(View());
              (fresult, View()) == if p in d.stats then (-ENOENT, d)
                                   else (0, d.(stats := d.stats[p := NewStat(mode, now)]))
    {
      var status := stats.Insert(p, NewStat(mode, now));
      fresult := if status != Success then -ENOENT else 0;
    }

    method RemoveStat(p: Path) returns (fresult: int)
      modifies stats
      ensures (fresult, View()) == WithoutStat(old(View()), p)
    {
      var status := stats.Remove(p);
      fresult := if status != Success then -ENOENT else 0;
    }

    method AddNewDentry(p: Path, parent: Option<Path>) returns (fresult: int)
      modifies dentries
      ensures var d := old(View());
              (fresult, View()) == if p in d.dentries then (-ENOENT, d)
                                   else (0, d.(dentries := d.dentries[p := Dentry(p, parent, [])]))
    {
      var status := dentries.Insert(p, Dentry(p, parent, []));
      fresult := if status != Success then -ENOENT else 0;
    }

    method AddChildToDentry(p: Path) returns (fresult: int)
      requires Normal(p)
      modifies dentries
      ensures (fresult, View()) == WithChild(old(View()), p)
    {
      var status, doc := dentries.Get(Dirname(p));
      if status != Success {
        return -ENOENT;
      }
      var dentry := doc.value.value;
      status := dentries.Replace(Dirname(p), dentry.(children := dentry.children + [Basename(p)]), 0);
      fresult := if status != Success then -ENOENT else 0;
    }

    method RemoveChildFromDentry(p: Path) returns (fresult: int)
      requires Normal(p)
      modifies dentries
      ensures View() == WithoutChild(old(View()), p)
      ensures fresult == if Dirname(p) in old(View()).dentries then 0 else -ENOENT
    {
      var status, doc := dentries.Get(Dirname(p));
      if status != Success {
        return -ENOENT;
      }
      var dentry := doc.value.value;
      var children := CopyChildrenExcept(dentry.children, Basename(p));
      status := dentries.Replace(Dirname(p), dentry.(children := children), 0);
      fresult := if status != Success then -ENOENT else 0;
    }

    method RemoveDentry(p: Path) returns (fresult: int)
      modifies dentries
      ensures var d := old(View());
              View() == d.(dentries := d.dentries - {p}) && fresult == if p in d.dentries then 0 else -ENOENT
    {
      var status := dentries.Remove(p);
      fresult := if status != Success then -ENOENT else 0;
    }

    method RemoveBlocks(p: Path) returns (fresult: int)
      modifies blocks
      ensures var d := old(View());
              View() == d.(blocks := d.blocks - {p}) && fresult == if p in d.blocks then 0 else -ENOENT
    {
      fresult := RemoveData(blocks, p);
    }

    /** cbfuse_create. */
    method Create(p: Path, mode: nat, now: Timespec) returns (fresult: int)
      requires OpOk(Namespace.Create(p, mode, now))
      modifies stats, dentries
      ensures (fresult, View()) == RunOp(old(View()), Namespace.Create(p, mode, now))
    {
      CreateRuns(View(), p, mode, now);
      if !IsRegular(mode) {
        return -EINVAL;
      }
      if |p| > MAX_PATH_LEN {
        return ENAMETOOLONG;
      }
      fresult := InsertStat(p, mode, now);
      if fresult != 0 {
        return;
      }
      fresult := AddChildToDentry(p);
    }

    /** cbfuse_unlink: only the last of the three results is reported. */
    method Unlink(p: Path) returns (fresult: int)
      requires OpOk(Namespace.Unlink(p))
      modifies stats, dentries, blocks
      ensures (fresult, View()) == RunOp(old(View()), Namespace.Unlink(p))
    {
      UnlinkRuns(View(), p);
      fresult := RemoveBlocks(p);
      fresult := RemoveChildFromDentry(p);
      fresult := RemoveStat(p);
    }

    /** cbfuse_mkdir. */
    method Mkdir(p: Path, mode: nat, now: Timespec) returns (fresult: int)
      requires OpOk(Namespace.Mkdir(p, mode, now))
      modifies stats, dentries
      ensures (fresult, View()) == RunOp(old(View()), Namespace.Mkdir(p, mode, now))
    {
      MkdirRuns(View(), p, mode, now);
      fresult := InsertStat(p, mode, now);
      if fresult != 0 {
        return;
      }
      fresult := AddNewDentry(p, Some(Dirname(p)));
      if fresult != 0 {
        return;
      }
      fresult := AddChildToDentry(p);
    }

    /** cbfuse_rmdir: the directory need not be empty. */
    method Rmdir(p: Path) returns (fresult: int)
      requires OpOk(Namespace.Rmdir(p))
      modifies stats, dentries
      ensures (fresult, View()) == RunOp(old(View()), Namespace.Rmdir(p))
    {
      RmdirRuns(View(), p);
      fresult := RemoveDentry(p);
      fresult := RemoveChildFromDentry(p);
      fresult := RemoveStat(p);
    }

    /** What main does before mounting: look for the root's stat entry, which must be a directory's, or
        else insert_root. */
    method MountRoot(now: Timespec) returns (fresult: int)
      modifies stats, dentries
      ensures (fresult, View()) == RunOp(old(View()), Mount(now))
    {
      MountRuns(View(), now);
      var stat, cas;
      fresult, stat, cas := GetStat(stats, ROOT_DIR);
      if fresult == 0 {
        return if IsDirectory(stat.mode) then 0 else EXIT_FAILURE;
      }
      fresult := InsertStat(ROOT_DIR, ROOT_MODE, now);
      if fresult != 0 {
        return EXIT_FAILURE;
      }
      fresult := AddNewDentry(ROOT_DIR, None);
      if fresult != 0 {
        return EXIT_FAILURE;
      }
    }

    /** cbfuse_readdir: `calls` are the filler's calls, each a name and the offset of the next entry. */
    method Readdir(p: Path, offset: nat, filler: (string, nat) -> int) returns (fresult: int, calls: seq<(string, nat)>)
      ensures p !in View().dentries ==> fresult == -ENOENT && calls == []
      ensures p in View().dentries ==> calls == FillerCalls(View().dentries[p].children, offset)
      ensures p in View().dentries ==>
                fresult == if calls == [] then 0 else filler(calls[|calls| - 1].0, calls[|calls| - 1].1)
    {
      calls := [];
      var status, doc := dentries.Get(p);
      if status != Success {
        return -ENOENT, [];
      }
      fresult := 0;
      var children := doc.value.value.children;
      var childOffset := 0;
      while childOffset < |children|
        invariant 0 <= childOffset <= |children|
        invariant calls == FillerCalls(children[..childOffset], offset)
        invariant fresult == if calls == [] then 0 else filler(calls[|calls| - 1].0, calls[|calls| - 1].1)
      {
        var child := children[childOffset];
        FillerCallsSnoc(children[..childOffset], child, offset);
        assert children[..childOffset] + [child] == children[..childOffset + 1];
        childOffset := childOffset + 1;
        if childOffset - 1 >= offset {
          fresult := filler(child, childOffset);
          calls := calls + [(child, childOffset)];
        }
      }
      assert children[..childOffset] == children;
    }
  }

  // ----- listing a directory page by page

  function FillerCalls(children: seq<string>, offset: nat): seq<(string, nat)>
    decreases if offset >= |children| then 0 else |children| - offset
  {
    if offset >= |children| then []
    else [(children[offset], offset + 1)] + FillerCalls(children, offset + 1)
  }

  lemma {:induction false} FillerCallsAt(children: seq<string>, offset: nat)
    ensures |FillerCalls(children, offset)| == if offset >= |children| then 0 else |children| - offset
    ensures forall i :: 0 <= i < |FillerCalls(children, offset)| ==>
              FillerCalls(children, offset)[i] == (children[offset + i], offset + i + 1)
    decreases if offset >= |children| then 0 else |children| - offset
  {
    if offset < |children| { FillerCallsAt(children, offset + 1); }
  }

  lemma FillerCallsSnoc(children: seq<string>, child: string, offset: nat)
    ensures FillerCalls(children + [child], offset) ==
            FillerCalls(children, offset) + if |children| >= offset then [(child, |children| + 1)] else []
  {
    FillerCallsAt(children, offset);
    FillerCallsAt(children + [child], offset);
  }

  function FirstNames(calls: seq<(string, nat)>, k: nat): seq<string>
    requires k <= |calls|
  {
    if k == 0 then [] else FirstNames(calls, k - 1) + [calls[k - 1].0]
  }

  lemma {:induction false} FirstNamesAre(children: seq<string>, offset: nat, k: nat)
    requires offset <= |children| && k <= |FillerCalls(children, offset)|
    ensures offset + k <= |children| && FirstNames(FillerCalls(children, offset), k) == children[offset..offset + k]
  {
    FillerCallsAt(children, offset);
    if k > 0 { FirstNamesAre(children, offset, k - 1); }
  }

  /** The names taken when the directory is read in pages: each page keeps the first `k` entries it is
      offered and the next page starts at the offset that came with the last entry kept. */
  function Paged(children: seq<string>, offset: nat, pages: seq<nat>): seq<string>
    decreases |pages|
  {
    if pages == [] then []
    else
      var calls := FillerCalls(children, offset);
      var k := if pages[0] <= |calls| then pages[0] else |calls|;
      FirstNames(calls, k) + Paged(children, if k == 0 then offset else calls[k - 1].1, pages[1..])
  }

  function SumPages(pages: seq<nat>): nat {
    if pages == [] then 0 else pages[0] + SumPages(pages[1..])
  }

  function PageEnd(children: seq<string>, offset: nat, page: nat): (e: nat)
    requires offset <= |children|
    ensures offset <= e <= |children|
  {
    if offset + page <= |children| then offset + page else |children|
  }

  lemma PagedStep(children: seq<string>, offset: nat, pages: seq<nat>)
    requires offset <= |children| && pages != []
    ensures var e := PageEnd(children, offset, pages[0]);
            Paged(children, offset, pages) == children[offset..e] + Paged(children, e, pages[1..])
  {
    hide FirstNames, FillerCalls;
    var e := PageEnd(children, offset, pages[0]);
    var calls, k := FillerCalls(children, offset), e - offset;
    FillerCallsAt(children, offset);
    FirstNamesAre(children, offset, k);
    assert k == if pages[0] <= |calls| then pages[0] else |calls|;
    assert k > 0 ==> calls[k - 1].1 == e;
  }

  /** However the pages are cut, the names come in order, none skipped and none repeated, up to the total
      number of entries the pages had room for. */
  lemma {:induction false} PagesCoverListing(children: seq<string>, offset: nat, pages: seq<nat>)
    requires offset <= |children|
    ensures Paged(children, offset, pages) == children[offset..PageEnd(children, offset, SumPages(pages))]
    decreases |pages|
  {
    if pages == [] {
      assert children[offset..offset] == [];
    } else {
      hide FillerCalls, FirstNames, Paged;
      var e, last := PageEnd(children, offset, pages[0]), PageEnd(children, offset, SumPages(pages));
      PagedStep(children, offset, pages);
      PagesCoverListing(children, e, pages[1..]);
      assert e <= last && PageEnd(children, e, SumPages(pages[1..])) == last;
      assert children[offset..e] + children[e..last] == children[offset..last];
    }
  }
}
