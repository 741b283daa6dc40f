/** What a new file, directory or root is and what is left of a removed one: attributes, documents, the place
    in the listing, and that nothing else changes. */
module EntryLaws {
  import opened Paths
  import opened Seqs
  import opened Store
  import opened Stats
  import opened Namespace
  import opened Tree
  import opened CutRuns

  /** A stat entry as it is made: the mode asked for, no size, all three times the time of making. */
  predicate IsNew(stat: Stat, mode: nat, now: Timespec) {
    stat.mode == mode && stat.size == 0 && stat.atime == now && stat.mtime == now && stat.ctime == now
  }

  /** `d'` is `d` with a new entry `p`, listed last in its directory, whose document is otherwise unchanged. */
  ghost predicate Entered(d: Disk, d': Disk, p: Path, mode: nat, now: Timespec)
    requires Normal(p)
  {
    var dir := Dirname(p);
    && p !in d.stats && d'.stats.Keys == d.stats.Keys + {p} && IsNew(d'.stats[p], mode, now)
    && (forall q :: q in d.stats ==> d'.stats[q] == d.stats[q])
    && d'.blocks == d.blocks
    && dir in d.dentries && dir in d'.dentries
    && d'.dentries[dir] == Dentry(d.dentries[dir].dir, d.dentries[dir].parent, d.dentries[dir].children + [Basename(p)])
    && (forall q :: q in d.dentries && q != dir ==> q in d'.dentries && d'.dentries[q] == d.dentries[q])
  }

  lemma ChildEntered(d: Disk, d1: Disk, p: Path, mode: nat, now: Timespec)
    requires Normal(p) && p != ROOT_DIR && p !in d.stats && Dirname(p) in d.dentries && Dirname(p) != p
    requires d1.stats == d.stats[p := NewStat(mode, now)] && d1.blocks == d.blocks
    requires forall q :: q in d.dentries ==> q in d1.dentries && d1.dentries[q] == d.dentries[q]
    ensures var d' := WithChild(d1, p).1;
            && WithChild(d1, p).0 == 0 && Entered(d, d', p, mode, now) && d'.dentries.Keys == d1.dentries.Keys
            && d'.stats == d1.stats && d'.blocks == d1.blocks
            && forall q :: q in d1.dentries && q != Dirname(p) ==> d'.dentries[q] == d1.dentries[q]
  {
    hide Normal, Dirname, Basename;
  }

  lemma Shorter(p: Path)
    requires Normal(p) && p != ROOT_DIR
    ensures Dirname(p) != p
  {
    SplitJoin(p);
  }

  /** create succeeds exactly for a regular file under a short, free path in an existing directory, and then
      makes the entry and no other document; its size is that of the data it does not have. */
  lemma Created(d: Disk, p: Path, mode: nat, now: Timespec)
    requires OpOk(Create(p, mode, now))
    ensures var (fresult, d') := RunOp(d, Create(p, mode, now));
            && (fresult == 0 <==> mode / 0x1000 % 0x10 == 8 && |p| <= 250 && p !in d.stats && Dirname(p) in d.dentries)
            && (fresult == 0 ==>
                  && Entered(d, d', p, mode, now) && d'.dentries.Keys == d.dentries.Keys
                  && (p !in d.blocks ==> SizeAgrees(d', p)))
  {
    hide RunOp, Dirname, Basename, Normal, IsRegular, WithChild, Entered;
    FileType(mode);
    Shorter(p);
    CreateRuns(d, p, mode, now);
    if p !in d.stats && Dirname(p) in d.dentries {
      ChildEntered(d, d.(stats := d.stats[p := NewStat(mode, now)]), p, mode, now);
    } else {
      NoDirectory(d.(stats := d.stats[p := NewStat(mode, now)]), p);
    }
  }

  /** mkdir succeeds exactly for a free path in an existing directory, and makes the entry and an empty
      directory document that names its parent. */
  lemma MadeDirectory(d: Disk, p: Path, mode: nat, now: Timespec)
    requires OpOk(Mkdir(p, mode, now))
    ensures var (fresult, d') := RunOp(d, Mkdir(p, mode, now));
            && (fresult == 0 <==> p !in d.stats && p !in d.dentries && Dirname(p) in d.dentries)
            && (fresult == 0 ==>
                  && Entered(d, d', p, mode, now) && d'.dentries.Keys == d.dentries.Keys + {p}
                  && d'.dentries[p] == Dentry(p, Some(Dirname(p)), []))
  {
    hide RunOp, Dirname, Basename, Normal, WithChild, Entered;
    Shorter(p);
    MkdirRuns(d, p, mode, now);
    var d1 := d.(stats := d.stats[p := NewStat(mode, now)]);
    var d2 := d1.(dentries := d.dentries[p := Dentry(p, Some(Dirname(p)), [])]);
    if p !in d.stats && p !in d.dentries && Dirname(p) in d.dentries {
      ChildEntered(d, d2, p, mode, now);
    } else {
      NoDirectory(d2, p);
    }
  }

  lemma NoDirectory(d: Disk, p: Path)
    requires Normal(p)
    ensures Dirname(p) !in d.dentries ==> WithChild(d, p) == (-ENOENT, d)
  {
  }

  /** The first mount makes a root that is a directory with permissions 0755, without parent or children. */
  lemma FirstMount(d: Disk, now: Timespec)
    requires ROOT_DIR !in d.stats && ROOT_DIR !in d.dentries
    ensures var (fresult, d') := RunOp(d, Mount(now));
            && fresult == 0 && d'.blocks == d.blocks
            && d'.stats.Keys == d.stats.Keys + {ROOT_DIR} && IsNew(d'.stats[ROOT_DIR], 0x41ED, now)
            && (forall q :: q in d.stats ==> d'.stats[q] == d.stats[q])
            && d'.dentries == d.dentries[ROOT_DIR := Dentry(ROOT_DIR, None, [])]
  {
    hide RunOp;
    MountRuns(d, now);
  }

  /** A later mount changes nothing, and succeeds exactly when the root it finds is a directory. */
  lemma LaterMount(d: Disk, now: Timespec)
    requires ROOT_DIR in d.stats
    ensures RunOp(d, Mount(now)).1 == d
    ensures RunOp(d, Mount(now)).0 == if d.stats[ROOT_DIR].mode / 0x1000 % 0x10 == 4 then 0 else 1
  {
    hide RunOp;
    FileType(d.stats[ROOT_DIR].mode);
    MountRuns(d, now);
  }

  /** What the first mount made, every later one accepts. */
  lemma MountTwice(d: Disk, now: Timespec, later: Timespec)
    requires ROOT_DIR !in d.stats && ROOT_DIR !in d.dentries
    ensures RunOp(RunOp(d, Mount(now)).1, Mount(later)) == (0, RunOp(d, Mount(now)).1)
  {
    hide RunOp;
    FirstMount(d, now);
    LaterMount(RunOp(d, Mount(now)).1, later);
  }

  // ----- and what is left of a removed one

  /** `d'` is `d` without the name `p` in its directory, whose document is otherwise unchanged. */
  ghost predicate Delisted(d: Disk, d': Disk, p: Path)
    requires Normal(p)
  {
    var dir := Dirname(p);
    dir in d.dentries ==>
      && dir in d'.dentries
      && d'.dentries[dir].dir == d.dentries[dir].dir && d'.dentries[dir].parent == d.dentries[dir].parent
      && var c, c' := d.dentries[dir].children, d'.dentries[dir].children;
         && (Basename(p) !in c ==> c' == c)
         && forall k :: 0 <= k < |c| && NoDup(c) && c[k] == Basename(p) ==> c' == c[..k] + c[k + 1..]
  }

  lemma ChildDelisted(d: Disk, p: Path)
    requires Normal(p)
    ensures var d' := WithoutChild(d, p);
            && Delisted(d, d', p) && d'.dentries.Keys == d.dentries.Keys
            && d'.stats == d.stats && d'.blocks == d.blocks
            && forall q :: q in d.dentries && q != Dirname(p) ==> d'.dentries[q] == d.dentries[q]
  {
    hide Normal, Dirname, Basename, RemoveName, NoDup;
    if Dirname(p) in d.dentries {
      var c := d.dentries[Dirname(p)].children;
      if Basename(p) !in c { NameAbsent(c, Basename(p)); }
      forall k | 0 <= k < |c| && NoDup(c) && c[k] == Basename(p)
        ensures RemoveName(c, Basename(p)) == c[..k] + c[k + 1..]
      {
        RemoveNameOrder(c, k);
      }
    }
  }

  /** unlink removes entry, data and name, and nothing else, and fails exactly when there is no entry. */
  lemma Unlinked(d: Disk, p: Path)
    requires OpOk(Unlink(p))
    ensures var (fresult, d') := RunOp(d, Unlink(p));
            && fresult == (if p in d.stats then 0 else -2)
            && d'.stats == d.stats - {p} && d'.blocks == d.blocks - {p}
            && Delisted(d, d', p) && d'.dentries.Keys == d.dentries.Keys
            && forall q :: q in d.dentries && q != Dirname(p) ==> d'.dentries[q] == d.dentries[q]
  {
    hide RunOp, Normal, Dirname, Basename, WithoutChild, Delisted;
    UnlinkRuns(d, p);
    var d1 := d.(blocks := d.blocks - {p});
    ChildDelisted(d1, p);
    assert p !in d.stats ==> d.stats - {p} == d.stats;
    DelistedOf(d, d1, WithoutChild(d1, p), RunOp(d, Unlink(p)).1, p);
  }

  /** rmdir removes entry, directory document and name, and nothing else. */
  lemma RemovedDirectory(d: Disk, p: Path)
    requires OpOk(Rmdir(p))
    ensures var (fresult, d') := RunOp(d, Rmdir(p));
            && fresult == (if p in d.stats then 0 else -2)
            && d'.stats == d.stats - {p} && d'.blocks == d.blocks
            && Delisted(d, d', p) && d'.dentries.Keys == d.dentries.Keys - {p}
            && forall q :: q in d'.dentries && q != Dirname(p) ==> d'.dentries[q] == d.dentries[q]
  {
    Shorter(p);
    hide RunOp, Normal, Dirname, Basename, WithoutChild, Delisted;
    RmdirRuns(d, p);
    var d1 := d.(dentries := d.dentries - {p});
    ChildDelisted(d1, p);
    assert p !in d.stats ==> d.stats - {p} == d.stats;
    DelistedOf(d, d1, WithoutChild(d1, p), RunOp(d, Rmdir(p)).1, p);
  }

  lemma DelistedOf(d: Disk, d1: Disk, d1': Disk, d': Disk, p: Path)
    requires Normal(p) && Delisted(d1, d1', p) && d1'.dentries == d'.dentries
    requires Dirname(p) in d.dentries ==> Dirname(p) in d1.dentries && d1.dentries[Dirname(p)] == d.dentries[Dirname(p)]
    ensures Delisted(d, d', p)
  {
  }
}
