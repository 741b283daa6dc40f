/** What an operation leaves behind when its client dies after `n` of its store steps: for every operation
    exactly when the collections are still a tree, and for writes and truncates exactly when st_size is
    still the length of the block. */
module CutRuns {
  import opened Paths
  import opened Seqs
  import opened Store
  import opened Stats
  import opened FileData
  import opened FileRuns
  import opened Namespace
  import opened CrashRuns
  import opened Tree

  function CutDisk(d: Disk, next: Next, n: nat): Disk
    requires next.More? ==> OpOk(next.task.op)
    decreases n
  {
    if n == 0 || next.Done? then d
    else
      var (d', next') := Exec(d, next.task);
      CutDisk(d', next', n - 1)
  }

  /** The disk after at most `n` store steps of `op`. */
  function Cut(d: Disk, op: Namespace.Op, n: nat): Disk
    requires OpOk(op)
  {
    CutDisk(d, Begin(op), n)
  }

  /** The crash machine with `op` started on `d`. */
  function Started(d: Disk, op: Namespace.Op): (s: Sys)
    requires OpOk(op)
    ensures s.running != None ==> OpOk(s.running.value.op)
  {
    Handle(Sys(d, None), Start(op))
  }

  lemma {:induction false} CutIs(s: Sys, next: Next, n: nat)
    requires next.More? ==> OpOk(next.task.op)
    requires s.running == if next.More? then Some(next.task) else None
    ensures CutAfter(s, n) == Sys(CutDisk(s.disk, next, n), None)
    decreases n
  {
    hide Exec;
    if n > 0 {
      if next.Done? {
        CutIdle(s, n);
      } else {
        CutIs(Handle(s, Continue), Exec(s.disk, next.task).1, n - 1);
      }
    }
  }

  /** It is the disk that the crash machine reaches. */
  lemma CutIsCrash(d: Disk, op: Namespace.Op, n: nat)
    requires OpOk(op)
    ensures CutAfter(Started(d, op), n) == Sys(Cut(d, op, n), None)
  {
    CutIs(Started(d, op), Begin(op), n);
  }

  lemma {:induction false} CutLate(d: Disk, next: Next, n: nat)
    requires next.More? ==> OpOk(next.task.op) && next.task.pc <= 3 && n >= 4 - next.task.pc
    ensures CutDisk(d, next, n) == Complete(d, next).1
    decreases n
  {
    hide Exec;
    if next.More? && n > 0 {
      var (d', next') := Exec(d, next.task);
      CutLate(d', next', n - 1);
    }
  }

  /** No operation has more than four steps: a later cut finds it complete. */
  lemma LateCutIsRun(d: Disk, op: Namespace.Op, n: nat)
    requires OpOk(op) && n >= 4
    ensures Cut(d, op, n) == RunOp(d, op).1
  {
    hide CutDisk, Complete;
    CutLate(d, Begin(op), n);
  }

  lemma CutStep(d: Disk, t: Task, n: nat, d': Disk, next: Next)
    requires OpOk(t.op) && n > 0 && Exec(d, t) == (d', next)
    ensures CutDisk(d, More(t), n) == CutDisk(d', next, n - 1)
  {
    hide Exec;
  }

  // ----- names

  /** Which cuts of which operations leave a tree a tree. */
  predicate CutFits(d: Disk, op: Namespace.Op, n: nat)
    requires OpOk(op)
  {
    n == 0 ||
    match op
    case Create(p, _, _) => Begin(op).Done? || p in d.stats || (n >= 3 && Dirname(p) in d.dentries)
    case Mkdir(p, _, _) => p in d.stats || (n >= 4 && Dirname(p) in d.dentries)
    case Unlink(p) => p !in d.stats || n <= 2 || (n >= 4 && p !in d.dentries)
    case Rmdir(p) =>
      p !in d.stats ||
      ((p in d.dentries ==> d.dentries[p].children == []) && (n <= 2 || (n >= 4 && p !in d.blocks)))
    case PutData(p, _, _, _) => p in d.stats
    case _ => true
  }

  /** An entry whose directory does not list it. */
  lemma UnlistedIsNoTree(d: Disk, p: Path)
    requires Normal(p) && p != ROOT_DIR && p in d.stats && !Listed(d, p)
    ensures !IsTree(d)
  {
    assert !StatOk(d, p);
  }

  lemma AddCuts(d: Disk, t: Task, p: Path, n: nat)
    requires OpOk(t.op) && Normal(p)
    requires (t.op.Create? && t.pc == 1) || (t.op.Mkdir? && t.pc == 2)
    requires p == t.op.path
    ensures CutDisk(d, More(t), n) == if n >= 2 then WithChild(d, p).1 else d
  {
    if n > 0 {
      var dir := Dirname(p);
      if dir in d.dentries {
        var t2 := t.(pc := t.pc + 1, fetched := Some(d.dentries[dir]));
        CutStep(d, t, n, d, More(t2));
        if n > 1 { CutStep(d, t2, n - 1, WithChild(d, p).1, Done(0)); }
      } else {
        CutStep(d, t, n, d, Done(-ENOENT));
      }
    }
  }

  lemma CreateCutDisk(d: Disk, p: Path, mode: nat, now: Timespec, n: nat)
    requires OpOk(Create(p, mode, now)) && Begin(Create(p, mode, now)).More? && n > 0
    ensures Cut(d, Create(p, mode, now), n) ==
            if p in d.stats then d
            else
              var d1 := d.(stats := d.stats[p := NewStat(mode, now)]);
              if n >= 3 then WithChild(d1, p).1 else d1
  {
    var t := Task(Create(p, mode, now), 0, None);
    var (d1, next) := Exec(d, t);
    CutStep(d, t, n, d1, next);
    if next.More? { AddCuts(d1, next.task, p, n - 1); }
  }

  lemma MkdirCutDisk(d: Disk, p: Path, mode: nat, now: Timespec, n: nat)
    requires OpOk(Mkdir(p, mode, now)) && n > 0 && p !in d.dentries
    ensures Cut(d, Mkdir(p, mode, now), n) ==
            if p in d.stats then d
            else
              var d1 := d.(stats := d.stats[p := NewStat(mode, now)]);
              var d2 := d1.(dentries := d.dentries[p := Dentry(p, Some(Dirname(p)), [])]);
              if n == 1 then d1 else if n >= 4 then WithChild(d2, p).1 else d2
  {
    var t := Task(Mkdir(p, mode, now), 0, None);
    var (d1, next) := Exec(d, t);
    CutStep(d, t, n, d1, next);
    if next.More? && n > 1 {
      var (d2, next2) := Exec(d1, next.task);
      CutStep(d1, next.task, n - 1, d2, next2);
      AddCuts(d2, next2.task, p, n - 2);
    }
  }

  lemma RemoveCuts(d: Disk, t: Task, p: Path, n: nat)
    requires OpOk(t.op) && (t.op.Unlink? || t.op.Rmdir?) && p == t.op.path && t.pc == 1 && Dirname(p) in d.dentries
    ensures CutDisk(d, More(t), n) ==
            if n < 2 then d else if n == 2 then WithoutChild(d, p) else WithoutStat(WithoutChild(d, p), p).1
  {
    var d1 := WithoutChild(d, p);
    if n > 0 {
      var t2 := t.(pc := 2, fetched := Some(d.dentries[Dirname(p)]));
      CutStep(d, t, n, d, More(t2));
      if n > 1 {
        CutStep(d, t2, n - 1, d1, More(t2.(pc := 3)));
        if n > 2 {
          var r := Exec(d1, t2.(pc := 3));
          CutStep(d1, t2.(pc := 3), n - 2, r.0, r.1);
        }
      }
    }
  }

  lemma AbsentEverywhere(d: Disk, p: Path)
    requires IsTree(d) && Normal(p) && p != ROOT_DIR && p !in d.stats
    ensures d.blocks - {p} == d.blocks && d.dentries - {p} == d.dentries && !Listed(d, p)
  {
    hide NamesOk, StatOk, Listed, Dirname, Basename;
    TreeListed(d, p);
    assert p !in d.blocks && p !in d.dentries;
  }

  /** Unlinking or removing what is not there changes nothing, wherever it is cut. */
  lemma NothingToRemove(d: Disk, op: Namespace.Op, n: nat)
    requires IsTree(d) && OpOk(op) && (op.Unlink? || op.Rmdir?) && op.path !in d.stats
    ensures Cut(d, op, n) == d
  {
    hide IsTree, Normal, Dirname, Basename, RemoveName, CutDisk;
    var p, t := op.path, Task(op, 0, None);
    AbsentEverywhere(d, p);
    if n == 0 {
      NoCut(d, op);
    } else {
      CutStep(d, t, n, d, More(t.(pc := 1)));
      NothingListed(d, t.(pc := 1), p, n - 1);
    }
  }

  lemma NothingListed(d: Disk, t: Task, p: Path, n: nat)
    requires OpOk(t.op) && (t.op.Unlink? || t.op.Rmdir?) && p == t.op.path && t.pc == 1
    requires p !in d.stats && !Listed(d, p)
    ensures CutDisk(d, More(t), n) == d
  {
    if Dirname(p) in d.dentries {
      NameAbsent(d.dentries[Dirname(p)].children, Basename(p));
      assert WithoutChild(d, p) == d;
      RemoveCuts(d, t, p, n);
    } else if n > 0 {
      CutStep(d, t, n, d, More(t.(pc := 3)));
      if n > 1 { CutStep(d, t.(pc := 3), n - 1, d, Done(-ENOENT)); }
    }
  }

  lemma CreateCutTree(d: Disk, p: Path, mode: nat, now: Timespec, n: nat)
    requires IsTree(d) && OpOk(Create(p, mode, now)) && n > 0
    ensures IsTree(Cut(d, Create(p, mode, now), n)) <==> CutFits(d, Create(p, mode, now), n)
  {
    hide IsTree, WithChild, Listed, Dirname, Basename;
    if Begin(Create(p, mode, now)).More? {
      CreateCutDisk(d, p, mode, now, n);
      CreateTreeIff(d, p, mode, now);
      CreateRuns(d, p, mode, now);
      TreeListed(d, p);
      var d1 := d.(stats := d.stats[p := NewStat(mode, now)]);
      if p !in d.stats && n < 3 {
        ListedByDentries(d, d1, p);
        UnlistedIsNoTree(d1, p);
      }
    }
  }

  lemma MkdirCutTree(d: Disk, p: Path, mode: nat, now: Timespec, n: nat)
    requires IsTree(d) && OpOk(Mkdir(p, mode, now)) && n > 0
    ensures IsTree(Cut(d, Mkdir(p, mode, now), n)) <==> CutFits(d, Mkdir(p, mode, now), n)
  {
    var op := Mkdir(p, mode, now);
    if p in d.stats {
      CutStep(d, Task(op, 0, None), n, d, Done(-ENOENT));
    } else {
      MkdirCutDisk(d, p, mode, now, n);
      MkdirTreeIff(d, p, mode, now);
      MkdirRuns(d, p, mode, now);
      TreeListed(d, p);
      hide IsTree, WithChild;
      if n < 4 {
        var d' := Cut(d, op, n);
        SplitJoin(p);
        assert !Listed(d', p);
        UnlistedIsNoTree(d', p);
      }
    }
  }

  lemma UnlinkCutTree(d: Disk, p: Path, n: nat)
    requires IsTree(d) && OpOk(Unlink(p)) && n > 0
    ensures IsTree(Cut(d, Unlink(p), n)) <==> CutFits(d, Unlink(p), n)
  {
    var op := Unlink(p);
    if p !in d.stats {
      NothingToRemove(d, op, n);
    } else {
      var t, d1 := Task(op, 0, None), d.(blocks := d.blocks - {p});
      TreeListed(d, p);
      CutStep(d, t, n, d1, More(t.(pc := 1)));
      RemoveCuts(d1, t.(pc := 1), p, n - 1);
      SameNamesTree(d, d1);
      hide IsTree, WithoutChild, Listed;
      if n == 3 {
        ListedAfterRemove(d1, p, p);
        UnlistedIsNoTree(WithoutChild(d1, p), p);
      } else if n >= 4 {
        UnlinkTreeIff(d, p);
        UnlinkRuns(d, p);
      }
    }
  }

  lemma DentryGone(d: Disk, p: Path)
    requires IsTree(d) && Normal(p) && p != ROOT_DIR && (p in d.dentries ==> d.dentries[p].children == [])
    ensures IsTree(d.(dentries := d.dentries - {p}))
  {
    var d1 := d.(dentries := d.dentries - {p});
    StatsGrow(d, d1.stats, d1.dentries, d1.blocks);
    forall q | q in d1.stats
      ensures StatOk(d1, q)
    {
      assert StatOk(d, q);
      if q != ROOT_DIR { ListedNarrower(d, d1, p, q); }
    }
  }

  lemma RmdirCutDisk(d: Disk, p: Path, n: nat)
    requires OpOk(Rmdir(p)) && n > 0 && Dirname(p) in d.dentries
    ensures var d1 := d.(dentries := d.dentries - {p});
            && Dirname(p) in d1.dentries
            && Cut(d, Rmdir(p), n) ==
               if n <= 2 then d1 else if n == 3 then WithoutChild(d1, p) else WithoutStat(WithoutChild(d1, p), p).1
  {
    hide Normal, WithoutChild, WithoutStat;
    var t, d1 := Task(Rmdir(p), 0, None), d.(dentries := d.dentries - {p});
    SplitJoin(p);
    CutStep(d, t, n, d1, More(t.(pc := 1)));
    RemoveCuts(d1, t.(pc := 1), p, n - 1);
  }

  /** A directory that is not empty loses its children with the first step. */
  lemma FullCutTree(d: Disk, p: Path, n: nat)
    requires IsTree(d) && OpOk(Rmdir(p)) && n > 0 && Dirname(p) in d.dentries
    requires p in d.dentries && d.dentries[p].children != []
    ensures !IsTree(Cut(d, Rmdir(p), n))
  {
    hide IsTree, Cut;
    RmdirCutDisk(d, p, n);
    OrphanedChild(d, p, Cut(d, Rmdir(p), n));
  }

  lemma EmptyCutTree(d: Disk, p: Path, n: nat)
    requires IsTree(d) && OpOk(Rmdir(p)) && n > 0 && p in d.stats && Dirname(p) in d.dentries
    requires p in d.dentries ==> d.dentries[p].children == []
    ensures IsTree(Cut(d, Rmdir(p), n)) <==> n <= 2 || (n >= 4 && p !in d.blocks)
  {
    hide IsTree, Cut, WithoutChild, Listed, RunOp, Normal, Dirname, Basename;
    RmdirCutDisk(d, p, n);
    var d1 := d.(dentries := d.dentries - {p});
    if n <= 2 {
      DentryGone(d, p);
    } else if n == 3 {
      ListedAfterRemove(d1, p, p);
      WithoutChildStats(d1, p);
      UnlistedIsNoTree(WithoutChild(d1, p), p);
    } else {
      RmdirTreeIff(d, p);
      RmdirRuns(d, p);
    }
  }

  lemma WithoutChildStats(d: Disk, p: Path)
    requires Normal(p)
    ensures WithoutChild(d, p).stats == d.stats
  {
  }

  lemma RmdirCutTree(d: Disk, p: Path, n: nat)
    requires IsTree(d) && OpOk(Rmdir(p)) && n > 0
    ensures IsTree(Cut(d, Rmdir(p), n)) <==> CutFits(d, Rmdir(p), n)
  {
    hide IsTree, Cut, Normal, Dirname, Basename;
    if p !in d.stats {
      NothingToRemove(d, Rmdir(p), n);
    } else {
      TreeListed(d, p);
      if p in d.dentries && d.dentries[p].children != [] {
        FullCutTree(d, p, n);
      } else {
        EmptyCutTree(d, p, n);
      }
    }
  }

  lemma DataCutTree(d: Disk, op: Namespace.Op, n: nat)
    requires IsTree(d) && OpOk(op) && n > 0 && !op.Create? && !op.Mkdir? && !op.Unlink? && !op.Rmdir?
    ensures IsTree(Cut(d, op, n)) <==> CutFits(d, op, n)
  {
    var t := Task(op, 0, None);
    var (d1, n1) := Exec(d, t);
    CutStep(d, t, n, d1, n1);
    var d' := Cut(d, op, n);
    if n1.More? && n > 1 {
      var (d2, n2) := Exec(d1, n1.task);
      CutStep(d1, n1.task, n - 1, d2, n2);
    }
    if op.PutData? && op.path !in d.stats {
      assert op.path in d'.blocks && op.path !in d'.stats;
    } else {
      SameNamesTree(d, d');
    }
  }

  /** Whatever operation runs on a tree and after however many of its steps it dies, the collections are
      still a tree if and only if CutFits says so. */
  lemma CutTreeIff(d: Disk, op: Namespace.Op, n: nat)
    requires IsTree(d) && OpOk(op)
    ensures IsTree(CutAfter(Started(d, op), n).disk) <==> CutFits(d, op, n)
  {
    hide IsTree, CutFits, Cut, CutAfter, Started;
    CutIsCrash(d, op, n);
    if n == 0 {
      NoCut(d, op);
    } else {
      match op
      case Create(p, mode, now) => CreateCutTree(d, p, mode, now, n);
      case Mkdir(p, mode, now) => MkdirCutTree(d, p, mode, now, n);
      case Unlink(p) => UnlinkCutTree(d, p, n);
      case Rmdir(p) => RmdirCutTree(d, p, n);
      case _ => DataCutTree(d, op, n);
    }
  }

  lemma NoCut(d: Disk, op: Namespace.Op)
    requires OpOk(op)
    ensures Cut(d, op, 0) == d && CutFits(d, op, 0)
  {
  }

  // ----- data

  function DiskOf(f: Files, dentries: map<Path, Dentry>): Disk {
    Disk(Values(f.stats), dentries, Values(f.blocks))
  }

  lemma PutSizeIsUpdate(f: Files, dentries: map<Path, Dentry>, p: Path, size: nat, now: Timespec)
    ensures DiskOf(PutSize(f, p, size, now).1, dentries) == UpdateStat(DiskOf(f, dentries), p, Size(size, now)).0
  {
  }

  lemma PutDataCuts(d: Disk, p: Path, block: Bytes, size: Option<nat>, now: Timespec, n: nat)
    requires Normal(p)
    ensures var d1 := d.(blocks := d.blocks[p := block]);
            Cut(d, PutData(p, block, size, now), n) ==
            if n == 0 then d else if n == 1 || size == None then d1 else UpdateStat(d1, p, Size(size.value, now)).0
  {
    var t := Task(PutData(p, block, size, now), 0, None);
    var d1 := d.(blocks := d.blocks[p := block]);
    if n > 0 {
      CutStep(d, t, n, d1, if size == None then Done(0) else More(t.(pc := 1)));
      if size != None && n > 1 {
        var r := UpdateStat(d1, p, Size(size.value, now));
        CutStep(d1, t.(pc := 1), n - 1, r.0, r.1);
      }
    }
  }

  lemma DropDataCuts(d: Disk, p: Path, now: Timespec, n: nat)
    requires Normal(p)
    ensures var d1 := d.(blocks := d.blocks - {p});
            Cut(d, DropData(p, now), n) ==
            if n == 0 || p !in d.blocks then d else if n == 1 then d1 else UpdateStat(d1, p, Size(0, now)).0
  {
    var t := Task(DropData(p, now), 0, None);
    var d1 := d.(blocks := d.blocks - {p});
    if n > 0 {
      if p in d.blocks {
        CutStep(d, t, n, d1, More(t.(pc := 1)));
        if n > 1 {
          var r := UpdateStat(d1, p, Size(0, now));
          CutStep(d1, t.(pc := 1), n - 1, r.0, r.1);
        }
      } else {
        CutStep(d, t, n, d, Done(-ENOENT));
      }
    }
  }

  /** The machine operation that write_data is, unless it is refused or an empty write without a block. */
  function WriteOp(f: Files, p: Path, buf: Bytes, offset: nat, now: Timespec, junk: Junk): Namespace.Op {
    var (_, f1, size) := UpdateBlockSpec(f, p, buf, offset, junk);
    PutData(p, BlockOf(f1, p), if size == 0 then None else Some(size), now)
  }

  /** A write is this operation also when it is cut: the old disk, the new block, and the result, one after
      another. So everything proved about crashes and trees covers it. */
  lemma WriteIsPutData(f: Files, dentries: map<Path, Dentry>, p: Path,
                       buf: Bytes, offset: nat, now: Timespec, junk: Junk, n: nat)
    requires Normal(p) && offset + |buf| <= MAX_FILE_LEN && (buf != [] || p in f.blocks.docs)
    ensures Cut(DiskOf(f, dentries), WriteOp(f, p, buf, offset, now, junk), n) ==
            DiskOf(if n == 0 then f
                   else if n == 1 then UpdateBlockSpec(f, p, buf, offset, junk).1
                   else WriteSpec(f, p, buf, offset, now, junk).1, dentries)
  {
    hide Written, Resized, Cut;
    var (_, f1, size) := UpdateBlockSpec(f, p, buf, offset, junk);
    PutDataCuts(DiskOf(f, dentries), p, BlockOf(f1, p), if size == 0 then None else Some(size), now, n);
    PutSizeIsUpdate(f1, dentries, p, size, now);
  }

  /** The machine operation that truncate_data is, unless it is refused. */
  function TruncateOp(f: Files, p: Path, size: nat, now: Timespec, junk: Junk): Namespace.Op {
    if size == 0 then DropData(p, now)
    else if p in f.blocks.docs then PutData(p, Resized(BlockOf(f, p), size, junk), Some(size), now)
    else Touch(p, Size(size, now))
  }

  /** So is every truncate that is not refused; without a block it has at most one step. */
  lemma TruncateIsMachine(f: Files, dentries: map<Path, Dentry>, p: Path, size: nat, now: Timespec, junk: Junk, n: nat)
    requires Normal(p) && size <= MAX_FILE_LEN
    ensures Cut(DiskOf(f, dentries), TruncateOp(f, p, size, now, junk), n) ==
            DiskOf(if n == 0 then f
                   else if n == 1 && p in f.blocks.docs then
                     (if size == 0 then f.(blocks := Drop(f.blocks, p)) else UpdateBlockSpec(f, p, [], size, junk).1)
                   else TruncateSpec(f, p, size, now, junk).1, dentries)
  {
    hide Resized, Cut;
    var d := DiskOf(f, dentries);
    if size == 0 {
      DropDataCuts(d, p, now, n);
      PutSizeIsUpdate(f.(blocks := Drop(f.blocks, p)), dentries, p, 0, now);
    } else if p in f.blocks.docs {
      PutDataCuts(d, p, Resized(BlockOf(f, p), size, junk), Some(size), now, n);
      PutSizeIsUpdate(UpdateBlockSpec(f, p, [], size, junk).1, dentries, p, size, now);
    } else {
      TouchCuts(d, p, Size(size, now), n);
      PutSizeIsUpdate(f, dentries, p, size, now);
    }
  }

  lemma TouchCuts(d: Disk, p: Path, u: Update, n: nat)
    requires Normal(p)
    ensures Cut(d, Touch(p, u), n) == if n == 0 then d else UpdateStat(d, p, u).0
  {
    if n > 0 {
      var r := UpdateStat(d, p, u);
      CutStep(d, Task(Touch(p, u), 0, None), n, r.0, r.1);
    }
  }

  /** The file exists and its st_size is the length of its block. */
  predicate SizeAgrees(d: Disk, p: Path) {
    p in d.stats && d.stats[p].size == if p in d.blocks then |d.blocks[p]| else 0
  }

  lemma AgreesIsConsistent(f: Files, dentries: map<Path, Dentry>, p: Path)
    ensures SizeAgrees(DiskOf(f, dentries), p) <==> p in f.stats.docs && SizeOf(f, p) == |BlockOf(f, p)|
  {
  }

  /** A write that takes no store step: too long, or empty without a block. */
  lemma IdleWrite(f: Files, p: Path, buf: Bytes, offset: nat, now: Timespec, junk: Junk)
    ensures offset + |buf| > MAX_FILE_LEN || (buf == [] && p !in f.blocks.docs) ==>
            WriteSpec(f, p, buf, offset, now, junk).1 == f
  {
  }

  /** Any other write that dies leaves st_size and block in step if and only if it dies before its first
      store step, or after its last, or does not make the file longer; an empty one, which has one step,
      if and only if it dies before it or is exactly at the end. */
  lemma WriteCutAgreesIff(f: Files, dentries: map<Path, Dentry>, p: Path,
                          buf: Bytes, offset: nat, now: Timespec, junk: Junk, n: nat)
    requires Normal(p) && Consistent(f, p)
    requires offset + |buf| <= MAX_FILE_LEN && (buf != [] || p in f.blocks.docs)
    ensures var s := Started(DiskOf(f, dentries), WriteOp(f, p, buf, offset, now, junk));
            SizeAgrees(CutAfter(s, n).disk, p) <==>
            n == 0 ||
            if buf == [] then offset == |BlockOf(f, p)| else n >= 2 || offset + |buf| <= |BlockOf(f, p)|
  {
    hide CutAfter, Started, Cut, Written, SizeAgrees, DiskOf;
    CutIsCrash(DiskOf(f, dentries), WriteOp(f, p, buf, offset, now, junk), n);
    WriteIsPutData(f, dentries, p, buf, offset, now, junk, n);
    AgreesIsConsistent(f, dentries, p);
    AgreesIsConsistent(UpdateBlockSpec(f, p, buf, offset, junk).1, dentries, p);
    AgreesIsConsistent(WriteSpec(f, p, buf, offset, now, junk).1, dentries, p);
  }

  /** A truncate that dies does if and only if it had not begun, changes no length, or has a block and runs
      to its end. */
  lemma TruncateCutAgreesIff(f: Files, dentries: map<Path, Dentry>, p: Path,
                             size: nat, now: Timespec, junk: Junk, n: nat)
    requires Normal(p) && Consistent(f, p) && size <= MAX_FILE_LEN
    ensures var s := Started(DiskOf(f, dentries), TruncateOp(f, p, size, now, junk));
            SizeAgrees(CutAfter(s, n).disk, p) <==> n == 0 || size == |BlockOf(f, p)| || (n >= 2 && p in f.blocks.docs)
  {
    hide CutAfter, Started, Cut, SizeAgrees, DiskOf;
    CutIsCrash(DiskOf(f, dentries), TruncateOp(f, p, size, now, junk), n);
    TruncateIsMachine(f, dentries, p, size, now, junk, n);
    AgreesIsConsistent(f, dentries, p);
    AgreesIsConsistent(f.(blocks := Drop(f.blocks, p)), dentries, p);
    AgreesIsConsistent(UpdateBlockSpec(f, p, [], size, junk).1, dentries, p);
    AgreesIsConsistent(TruncateSpec(f, p, size, now, junk).1, dentries, p);
  }
}
