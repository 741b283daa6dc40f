/** Operations that run to their end. The three collections form a tree, and for each operation the exact
    condition under which they still do afterwards. */
module Tree {
  import opened Paths
  import opened Seqs
  import opened Store
  import opened Stats
  import opened FileData
  import opened Namespace

  // ----- whole operations

  function Complete(d: Disk, next: Next): (int, Disk)
    requires next.More? ==> OpOk(next.task.op)
    decreases if next.Done? then 0 else if next.task.pc > 3 then 1 else 5 - next.task.pc
  {
    match next
    case Done(fresult) => (fresult, d)
    case More(t) => var (d', next') := Exec(d, t); Complete(d', next')
  }

  /** The result code and the disk after an operation that nothing interrupts. */
  function RunOp(d: Disk, op: Op): (int, Disk)
    requires OpOk(op)
  {
    Complete(d, Begin(op))
  }

  function WithChild(d: Disk, p: Path): (int, Disk)
    requires Normal(p)
  {
    var dir := Dirname(p);
    if dir !in d.dentries then (-ENOENT, d)
    else
      var c := d.dentries[dir];
      (0, d.(dentries := d.dentries[dir := c.(children := c.children + [Basename(p)])]))
  }

  function WithoutChild(d: Disk, p: Path): Disk
    requires Normal(p)
  {
    var dir := Dirname(p);
    if dir !in d.dentries then d
    else
      var c := d.dentries[dir];
      d.(dentries := d.dentries[dir := c.(children := RemoveName(c.children, Basename(p)))])
  }

  function WithoutStat(d: Disk, p: Path): (int, Disk) {
    if p in d.stats then (0, d.(stats := d.stats - {p})) else (-ENOENT, d)
  }

  lemma Steps(d: Disk, t: Task, d': Disk, next: Next)
    requires OpOk(t.op) && Exec(d, t) == (d', next)
    ensures Complete(d, More(t)) == Complete(d', next)
    ensures next.Done? ==> Complete(d, More(t)) == (next.fresult, d')
  {
  }

  lemma AddChildRuns(d: Disk, t: Task, p: Path)
    requires OpOk(t.op) && Normal(p)
    requires (t.op.Create? && t.pc == 1) || (t.op.Mkdir? && t.pc == 2)
    requires p == t.op.path
    ensures Complete(d, More(t)) == WithChild(d, p)
  {
    var dir := Dirname(p);
    if dir in d.dentries {
      var t2 := t.(pc := t.pc + 1, fetched := Some(d.dentries[dir]));
      Steps(d, t, d, More(t2));
      Steps(d, t2, WithChild(d, p).1, Done(0));
    } else {
      Steps(d, t, d, Done(-ENOENT));
    }
  }

  lemma RemoveRuns(d: Disk, t: Task, p: Path)
    requires OpOk(t.op) && (t.op.Unlink? || t.op.Rmdir?) && p == t.op.path && t.pc == 1
    ensures Complete(d, More(t)) == WithoutStat(WithoutChild(d, p), p)
  {
    var dir, d' := Dirname(p), WithoutChild(d, p);
    var t3 := t.(pc := 3);
    if dir in d.dentries {
      var t2 := t.(pc := 2, fetched := Some(d.dentries[dir]));
      t3 := t2.(pc := 3);
      Steps(d, t, d, More(t2));
      Steps(d, t2, d', More(t3));
    } else {
      Steps(d, t, d, More(t3));
    }
    Steps(d', t3, WithoutStat(d', p).1, Done(WithoutStat(d', p).0));
  }

  /** create(2), run to its end. */
  lemma CreateRuns(d: Disk, p: Path, mode: nat, now: Timespec)
    requires OpOk(Create(p, mode, now))
    ensures RunOp(d, Create(p, mode, now)) ==
            if !IsRegular(mode) then (-EINVAL, d)
            else if |p| > MAX_PATH_LEN then (ENAMETOOLONG, d)
            else if p in d.stats then (-ENOENT, d)
            else WithChild(d.(stats := d.stats[p := NewStat(mode, now)]), p)
  {
    var t := Task(Create(p, mode, now), 0, None);
    if IsRegular(mode) && |p| <= MAX_PATH_LEN {
      if p in d.stats {
        Steps(d, t, d, Done(-ENOENT));
      } else {
        var d' := d.(stats := d.stats[p := NewStat(mode, now)]);
        Steps(d, t, d', More(t.(pc := 1)));
        AddChildRuns(d', t.(pc := 1), p);
      }
    }
  }

  /** mkdir(2), run to its end. */
  lemma MkdirRuns(d: Disk, p: Path, mode: nat, now: Timespec)
    requires OpOk(Mkdir(p, mode, now))
    ensures RunOp(d, Mkdir(p, mode, now)) ==
            if p in d.stats then (-ENOENT, d)
            else
              var d' := d.(stats := d.stats[p := NewStat(mode, now)]);
              if p in d.dentries then (-ENOENT, d')
              else WithChild(d'.(dentries := d.dentries[p := Dentry(p, Some(Dirname(p)), [])]), p)
  {
    var t := Task(Mkdir(p, mode, now), 0, None);
    if p in d.stats {
      Steps(d, t, d, Done(-ENOENT));
    } else {
      var d' := d.(stats := d.stats[p := NewStat(mode, now)]);
      Steps(d, t, d', More(t.(pc := 1)));
      if p in d.dentries {
        Steps(d', t.(pc := 1), d', Done(-ENOENT));
      } else {
        var d'' := d'.(dentries := d.dentries[p := Dentry(p, Some(Dirname(p)), [])]);
        Steps(d', t.(pc := 1), d'', More(t.(pc := 2)));
        AddChildRuns(d'', t.(pc := 2), p);
      }
    }
  }

  /** unlink(2), run to its end. */
  lemma UnlinkRuns(d: Disk, p: Path)
    requires OpOk(Unlink(p))
    ensures RunOp(d, Unlink(p)) == WithoutStat(WithoutChild(d.(blocks := d.blocks - {p}), p), p)
  {
    var t := Task(Unlink(p), 0, None);
    Steps(d, t, d.(blocks := d.blocks - {p}), More(t.(pc := 1)));
    RemoveRuns(d.(blocks := d.blocks - {p}), t.(pc := 1), p);
  }

  /** rmdir(2), run to its end. */
  lemma RmdirRuns(d: Disk, p: Path)
    requires OpOk(Rmdir(p))
    ensures RunOp(d, Rmdir(p)) == WithoutStat(WithoutChild(d.(dentries := d.dentries - {p}), p), p)
  {
    var t := Task(Rmdir(p), 0, None);
    Steps(d, t, d.(dentries := d.dentries - {p}), More(t.(pc := 1)));
    RemoveRuns(d.(dentries := d.dentries - {p}), t.(pc := 1), p);
  }

  /** What main does before it mounts, run to its end. */
  lemma MountRuns(d: Disk, now: Timespec)
    ensures RunOp(d, Mount(now)) ==
            if ROOT_DIR in d.stats then (if IsDirectory(d.stats[ROOT_DIR].mode) then 0 else EXIT_FAILURE, d)
            else
              var d1 := d.(stats := d.stats[ROOT_DIR := NewStat(ROOT_MODE, now)]);
              if ROOT_DIR in d.dentries then (EXIT_FAILURE, d1)
              else (0, d1.(dentries := d.dentries[ROOT_DIR := Dentry(ROOT_DIR, None, [])]))
  {
    var t := Task(Mount(now), 0, None);
    if ROOT_DIR in d.stats {
      Steps(d, t, d, Done(if IsDirectory(d.stats[ROOT_DIR].mode) then 0 else EXIT_FAILURE));
    } else {
      var d1 := d.(stats := d.stats[ROOT_DIR := NewStat(ROOT_MODE, now)]);
      Steps(d, t, d, More(t.(pc := 1)));
      Steps(d, t.(pc := 1), d1, More(t.(pc := 2)));
      var r := Fatal(InsertDentry(d1, ROOT_DIR, None, Done(0)));
      Steps(d1, t.(pc := 2), r.0, r.1);
    }
  }

  // ----- the tree

  /** `p` is listed in its directory's document. */
  predicate Listed(d: Disk, p: Path)
    requires Normal(p)
  {
    Dirname(p) in d.dentries && Basename(p) in d.dentries[Dirname(p)].children
  }

  ghost predicate StatOk(d: Disk, p: Path) {
    Normal(p) && (p != ROOT_DIR ==> Listed(d, p))
  }

  /** Directory documents and blocks belong to stat entries; listings are duplicate-free and backed; and
      every entry but the root is listed by its directory, whose document is there. */
  ghost predicate IsTree(d: Disk) {
    && ROOT_DIR in d.stats && ROOT_DIR in d.dentries
    && d.dentries.Keys <= d.stats.Keys && d.blocks.Keys <= d.stats.Keys
    && NamesOk(d)
    && forall p :: p in d.stats ==> StatOk(d, p)
  }

  /** There is a chain of directory documents from the root down to `p`, each listing the next. */
  ghost predicate Reachable(d: Disk, p: Path)
    decreases |p|
  {
    p == ROOT_DIR ||
    (Normal(p) && (SplitJoin(p); Listed(d, p) && Reachable(d, Dirname(p))))
  }

  lemma {:induction false} TreeReachable(d: Disk, p: Path)
    requires IsTree(d) && p in d.stats
    ensures Reachable(d, p)
    decreases |p|
  {
    assert StatOk(d, p);
    if p != ROOT_DIR {
      SplitJoin(p);
      TreeReachable(d, Dirname(p));
    }
  }

  lemma TreeListed(d: Disk, p: Path)
    requires IsTree(d) && Normal(p) && p != ROOT_DIR
    ensures p in d.stats <==> Listed(d, p)
  {
    SplitJoin(p);
    if p in d.stats { assert StatOk(d, p); }
    if Listed(d, p) { assert DirOk(d, Dirname(p)); }
  }

  lemma ListedAfterAdd(d: Disk, p: Path, q: Path)
    requires Normal(p) && p != ROOT_DIR && Normal(q) && q != ROOT_DIR && Dirname(p) in d.dentries
    ensures Listed(WithChild(d, p).1, q) <==> q == p || Listed(d, q)
  {
  }

  lemma ListedAfterRemove(d: Disk, p: Path, q: Path)
    requires Normal(p) && p != ROOT_DIR && Normal(q) && q != ROOT_DIR
    ensures Listed(WithoutChild(d, p), q) <==> q != p && Listed(d, q)
  {
    hide Normal, Dirname, Basename, Join, RemoveName;
    SplitJoin(p);
    SplitJoin(q);
    if Dirname(p) in d.dentries {
      var c := d.dentries[Dirname(p)].children;
      RemoveNameMembers(c, Basename(p));
      assert forall m :: m in RemoveName(c, Basename(p)) <==> m in c && m != Basename(p);
    }
  }

  /** A file or directory entry added under an existing directory. */
  lemma AddedIsTree(d: Disk, p: Path, stat: Stat, dentries: map<Path, Dentry>)
    requires IsTree(d) && Normal(p) && p != ROOT_DIR && p !in d.stats && Dirname(p) in d.dentries
    requires dentries == d.dentries || (exists parent :: dentries == d.dentries[p := Dentry(p, parent, [])])
    ensures IsTree(WithChild(Disk(d.stats[p := stat], dentries, d.blocks), p).1)
  {
    hide NamesOk, Listed, WithChild;
    var d1 := Disk(d.stats[p := stat], dentries, d.blocks);
    AddedNamesOk(d, p, stat, dentries);
    var d2 := WithChild(d1, p).1;
    forall q | q in d2.stats
      ensures StatOk(d2, q)
    {
      if q != p { assert StatOk(d, q); }
      if q != ROOT_DIR {
        ListedAfterAdd(d1, p, q);
        ListedWider(d, d1, p, q);
      }
    }
  }

  lemma ListedWider(d: Disk, d1: Disk, p: Path, q: Path)
    requires Normal(q) && p !in d.dentries
    requires d1.dentries == d.dentries || (exists parent :: d1.dentries == d.dentries[p := Dentry(p, parent, [])])
    ensures Listed(d1, q) <==> Listed(d, q)
  {
  }

  lemma AddedNamesOk(d: Disk, p: Path, stat: Stat, dentries: map<Path, Dentry>)
    requires IsTree(d) && Normal(p) && p != ROOT_DIR && p !in d.stats && Dirname(p) in d.dentries
    requires dentries == d.dentries || (exists parent :: dentries == d.dentries[p := Dentry(p, parent, [])])
    ensures var d1 := Disk(d.stats[p := stat], dentries, d.blocks);
            var d2 := WithChild(d1, p).1;
            && NamesOk(d2) && d2.stats == d1.stats && d2.blocks == d1.blocks && d2.dentries.Keys == d1.dentries.Keys
            && Dirname(p) in d1.dentries && p !in d.dentries
  {
    var d1 := Disk(d.stats[p := stat], dentries, d.blocks);
    SplitJoin(p);
    NoStatUnlisted(d, p);
    StatsGrow(d, d1.stats, dentries, d.blocks);
    ChildAdded(d1, Dirname(p), d1.dentries[Dirname(p)], Basename(p));
  }

  /** An entry taken away together with its data and its directory document, when nothing is in it. */
  lemma RemovedIsTree(d: Disk, p: Path)
    requires IsTree(d) && Normal(p) && p != ROOT_DIR
    requires p in d.dentries ==> d.dentries[p].children == []
    ensures var d1 := Disk(d.stats, d.dentries - {p}, d.blocks - {p});
            IsTree(WithoutStat(WithoutChild(d1, p), p).1)
  {
    hide NamesOk, Listed, WithoutChild;
    var d1 := Disk(d.stats, d.dentries - {p}, d.blocks - {p});
    var d2 := WithoutChild(d1, p);
    var d3 := Disk(d2.stats - {p}, d2.dentries, d2.blocks);
    SplitJoin(p);
    RemovedNamesOk(d, d1, p);
    forall q | q in d3.stats
      ensures StatOk(d3, q)
    {
      assert StatOk(d, q);
      if q != ROOT_DIR {
        ListedAfterRemove(d1, p, q);
        ListedNarrower(d, d1, p, q);
      }
      ListedByDentries(d2, d3, q);
    }
  }

  lemma ListedByDentries(d: Disk, d': Disk, q: Path)
    requires Normal(q) && d.dentries == d'.dentries
    ensures Listed(d, q) == Listed(d', q)
  {
  }

  lemma ListedNarrower(d: Disk, d1: Disk, p: Path, q: Path)
    requires Normal(q) && Listed(d, q) && d1.dentries == d.dentries - {p}
    requires p in d.dentries ==> d.dentries[p].children == []
    ensures Listed(d1, q)
  {
  }

  lemma RemovedNamesOk(d: Disk, d1: Disk, p: Path)
    requires NamesOk(d) && Normal(p) && p != ROOT_DIR
    requires d1 == Disk(d.stats, d.dentries - {p}, d.blocks - {p})
    ensures var d2 := WithoutChild(d1, p);
            && d2.stats == d.stats && d2.blocks == d1.blocks && d2.dentries.Keys == d1.dentries.Keys
            && NamesOk(Disk(d2.stats - {p}, d2.dentries, d2.blocks))
            && WithoutStat(d2, p).1 == Disk(d2.stats - {p}, d2.dentries, d2.blocks)
  {
    var d2 := WithoutChild(d1, p);
    StatsGrow(d, d1.stats, d1.dentries, d1.blocks);
    SplitJoin(p);
    if Dirname(p) in d1.dentries {
      ChildRemoved(d1, Dirname(p), d1.dentries[Dirname(p)], Basename(p));
      RemoveNameMembers(d1.dentries[Dirname(p)].children, Basename(p));
    }
    StatRemoved(d2, p);
    assert p !in d.stats ==> d.stats - {p} == d.stats;
  }

  // ----- for each operation, exactly when a tree stays a tree

  lemma CreateTreeIff(d: Disk, p: Path, mode: nat, now: Timespec)
    requires IsTree(d) && OpOk(Create(p, mode, now))
    ensures IsTree(RunOp(d, Create(p, mode, now)).1) <==>
            Begin(Create(p, mode, now)).Done? || p in d.stats || Dirname(p) in d.dentries
  {
    CreateRuns(d, p, mode, now);
    if Begin(Create(p, mode, now)).More? && p !in d.stats {
      var stat := NewStat(mode, now);
      var d1 := d.(stats := d.stats[p := stat]);
      if Dirname(p) in d.dentries {
        AddedIsTree(d, p, stat, d.dentries);
      } else {
        assert p in d1.stats && !StatOk(d1, p);
      }
    }
  }

  lemma MkdirTreeIff(d: Disk, p: Path, mode: nat, now: Timespec)
    requires IsTree(d) && OpOk(Mkdir(p, mode, now))
    ensures IsTree(RunOp(d, Mkdir(p, mode, now)).1) <==> p in d.stats || Dirname(p) in d.dentries
  {
    MkdirRuns(d, p, mode, now);
    if p !in d.stats {
      SplitJoin(p);
      var stat := NewStat(mode, now);
      var d1 := Disk(d.stats[p := stat], d.dentries[p := Dentry(p, Some(Dirname(p)), [])], d.blocks);
      if Dirname(p) in d.dentries {
        AddedIsTree(d, p, stat, d1.dentries);
      } else {
        assert p in d1.stats && !StatOk(d1, p);
      }
    }
  }

  lemma UnlinkTreeIff(d: Disk, p: Path)
    requires IsTree(d) && OpOk(Unlink(p))
    ensures IsTree(RunOp(d, Unlink(p)).1) <==> p !in d.dentries
  {
    UnlinkRuns(d, p);
    var d1 := d.(blocks := d.blocks - {p});
    if p !in d.dentries {
      RemovedIsTree(d, p);
      assert d.dentries - {p} == d.dentries;
    } else {
      var d' := RunOp(d, Unlink(p)).1;
      assert p in d'.dentries && p !in d'.stats;
    }
  }

  lemma RmdirShape(d: Disk, p: Path)
    requires OpOk(Rmdir(p))
    ensures var d' := RunOp(d, Rmdir(p)).1;
            d'.stats == d.stats - {p} && p !in d'.dentries && d'.blocks == d.blocks
  {
    RmdirRuns(d, p);
    assert p !in d.stats ==> d.stats - {p} == d.stats;
  }

  lemma RmdirTreeIff(d: Disk, p: Path)
    requires IsTree(d) && OpOk(Rmdir(p))
    ensures IsTree(RunOp(d, Rmdir(p)).1) <==>
            p !in d.blocks && (p in d.dentries ==> d.dentries[p].children == [])
  {
    hide NamesOk, RunOp, WithoutChild, StatOk;
    RmdirShape(d, p);
    if p !in d.blocks {
      if p in d.dentries && d.dentries[p].children != [] {
        OrphanedChild(d, p, RunOp(d, Rmdir(p)).1);
      } else {
        RmdirRuns(d, p);
        RemovedIsTree(d, p);
        assert d.blocks - {p} == d.blocks;
      }
    }
  }

  /** The first child of a removed directory keeps its stat entry and loses its directory document. */
  lemma OrphanedChild(d: Disk, p: Path, d': Disk)
    requires IsTree(d) && Normal(p) && p in d.dentries && d.dentries[p].children != []
    requires d.stats.Keys - {p} <= d'.stats.Keys && p !in d'.dentries
    ensures !IsTree(d')
  {
    assert DirOk(d, p);
    var n := d.dentries[p].children[0];
    JoinSplit(p, n);
    var c := Join(p, n);
    assert c != p by { if c == p { SplitJoin(c); } }
    assert c in d.stats.Keys - {p} && !StatOk(d', c);
  }

  lemma PutDataTreeIff(d: Disk, p: Path, block: Bytes, size: Option<nat>, now: Timespec)
    requires IsTree(d) && OpOk(PutData(p, block, size, now))
    ensures IsTree(RunOp(d, PutData(p, block, size, now)).1) <==> p in d.stats
  {
    var op := PutData(p, block, size, now);
    var t := Task(op, 0, None);
    var d1 := d.(blocks := d.blocks[p := block]);
    var r := RunOp(d, op).1;
    Steps(d, t, d1, if size == None then Done(0) else More(t.(pc := 1)));
    if size != None {
      Steps(d1, t.(pc := 1), UpdateStat(d1, p, Size(size.value, now)).0, UpdateStat(d1, p, Size(size.value, now)).1);
    }
    if p in d.stats {
      SameNamesTree(d, r);
    } else {
      assert p in r.blocks && p !in r.stats;
    }
  }

  /** A tree is decided by the keys and the directory documents. */
  lemma SameNamesTree(d: Disk, d': Disk)
    requires IsTree(d) && d'.stats.Keys == d.stats.Keys && d'.dentries == d.dentries && d'.blocks.Keys <= d.stats.Keys
    ensures IsTree(d')
  {
  }

  lemma OtherOpsTree(d: Disk, op: Op)
    requires IsTree(d) && OpOk(op) && (op.DropData? || op.Touch? || op.Mount?)
    ensures IsTree(RunOp(d, op).1)
  {
    var t := Task(op, 0, None);
    var (d1, n1) := Exec(d, t);
    Steps(d, t, d1, n1);
    if n1.More? {
      var (d2, n2) := Exec(d1, n1.task);
      Steps(d1, n1.task, d2, n2);
      SameNamesTree(d, d2);
    } else {
      SameNamesTree(d, d1);
    }
  }

  /** What a caller must know before the call for the tree to survive it. */
  predicate Fits(d: Disk, op: Op)
    requires OpOk(op)
  {
    match op
    case Create(p, mode, now) => Begin(op).Done? || p in d.stats || Dirname(p) in d.dentries
    case Mkdir(p, _, _) => p in d.stats || Dirname(p) in d.dentries
    case Unlink(p) => p !in d.dentries
    case Rmdir(p) => p !in d.blocks && (p in d.dentries ==> d.dentries[p].children == [])
    case PutData(p, _, _, _) => p in d.stats
    case _ => true
  }

  /** Each operation leaves a tree a tree if and only if its caller met that condition. */
  lemma TreeStepIff(d: Disk, op: Op)
    requires IsTree(d) && OpOk(op)
    ensures IsTree(RunOp(d, op).1) <==> Fits(d, op)
  {
    hide IsTree, RunOp;
    match op
    case Create(p, mode, now) => CreateTreeIff(d, p, mode, now);
    case Mkdir(p, mode, now) => MkdirTreeIff(d, p, mode, now);
    case Unlink(p) => UnlinkTreeIff(d, p);
    case Rmdir(p) => RmdirTreeIff(d, p);
    case PutData(p, block, size, now) => PutDataTreeIff(d, p, block, size, now);
    case _ => OtherOpsTree(d, op);
  }

  // ----- crash-free runs

  ghost predicate AllFit(d: Disk, ops: seq<Op>)
    decreases |ops|
  {
    ops == [] || (OpOk(ops[0]) && Fits(d, ops[0]) && AllFit(RunOp(d, ops[0]).1, ops[1..]))
  }

  ghost function RunOps(d: Disk, ops: seq<Op>): Disk
    requires AllFit(d, ops)
    decreases |ops|
  {
    if ops == [] then d else RunOps(RunOp(d, ops[0]).1, ops[1..])
  }

  lemma FirstMountIsTree(now: Timespec)
    ensures IsTree(RunOp(EMPTY, Mount(now)).1)
  {
    var t := Task(Mount(now), 0, None);
    var d1 := EMPTY.(stats := map[ROOT_DIR := NewStat(ROOT_MODE, now)]);
    var d2 := d1.(dentries := map[ROOT_DIR := Dentry(ROOT_DIR, None, [])]);
    Steps(EMPTY, t, EMPTY, More(t.(pc := 1)));
    Steps(EMPTY, t.(pc := 1), d1, More(t.(pc := 2)));
    Steps(d1, t.(pc := 2), d2, Done(0));
    assert DirOk(d2, ROOT_DIR);
  }

  /** After any crash-free run of fitting operations the collections form a tree: every entry is reachable
      from the root, and there is one stat entry for the root and one for each listed child. */
  lemma {:induction false} RunsKeepTree(d: Disk, ops: seq<Op>)
    requires IsTree(d) && AllFit(d, ops)
    ensures IsTree(RunOps(d, ops))
    ensures forall p :: p in RunOps(d, ops).stats ==> Reachable(RunOps(d, ops), p)
    ensures |RunOps(d, ops).stats| == 1 + TotalChildren(RunOps(d, ops).dentries)
    decreases |ops|
  {
    if ops == [] {
      forall p | p in d.stats
        ensures Reachable(d, p)
      {
        TreeReachable(d, p);
      }
      TreeCount(d);
    } else {
      hide IsTree, RunOp, Fits, Reachable;
      TreeStepIff(d, ops[0]);
      RunsKeepTree(RunOp(d, ops[0]).1, ops[1..]);
    }
  }

  // ----- counting

  ghost function PickKey(m: map<Path, Dentry>): Path
    requires m != map[]
    ensures PickKey(m) in m
  {
    var k :| k in m; k
  }

  /** The total length of all child lists. */
  ghost function TotalChildren(m: map<Path, Dentry>): nat
    decreases |m|
  {
    if m == map[] then 0
    else
      var k := PickKey(m);
      assert |m - {k}| < |m| by { assert (m - {k}).Keys == m.Keys - {k}; }
      |m[k].children| + TotalChildren(m - {k})
  }

  ghost function EntriesOf(dir: Path, c: seq<string>): set<Path> {
    set i | 0 <= i < |c| :: Join(dir, c[i])
  }

  ghost function Entries(m: map<Path, Dentry>): set<Path> {
    set dir, i | dir in m && 0 <= i < |m[dir].children| :: Join(dir, m[dir].children[i])
  }

  ghost predicate ListingOk(dir: Path, c: seq<string>) {
    Normal(dir) && NoDup(c) && forall i :: 0 <= i < |c| ==> ValidName(c[i])
  }

  lemma {:induction false} EntriesOfCount(dir: Path, c: seq<string>)
    requires ListingOk(dir, c)
    ensures |EntriesOf(dir, c)| == |c|
  {
    if c != [] {
      var init, n := c[..|c| - 1], c[|c| - 1];
      EntriesOfCount(dir, init);
      EntriesOfSnoc(dir, init, n);
      SplitLast(c);
    }
  }

  lemma EntriesOfSnoc(dir: Path, c: seq<string>, n: string)
    requires ListingOk(dir, c + [n])
    ensures EntriesOf(dir, c + [n]) == EntriesOf(dir, c) + {Join(dir, n)}
    ensures Join(dir, n) !in EntriesOf(dir, c)
  {
    hide Normal, Dirname, Basename, Join;
    var s := c + [n];
    assert s[|c|] == n && forall i :: 0 <= i < |c| ==> s[i] == c[i];
    JoinSplit(dir, n);
    forall i | 0 <= i < |c|
      ensures Join(dir, c[i]) != Join(dir, n)
    {
      assert ValidName(s[i]);
      JoinSplit(dir, c[i]);
    }
    forall x | x in EntriesOf(dir, s)
      ensures x in EntriesOf(dir, c) || x == Join(dir, n)
    {
      var i :| 0 <= i < |s| && x == Join(dir, s[i]);
      if i < |c| { assert x == Join(dir, c[i]); }
    }
    forall x | x in EntriesOf(dir, c)
      ensures x in EntriesOf(dir, s)
    {
      var i :| 0 <= i < |c| && x == Join(dir, c[i]);
      assert x == Join(dir, s[i]);
    }
    assert Join(dir, s[|c|]) in EntriesOf(dir, s);
  }

  lemma EntriesSplit(m: map<Path, Dentry>, k: Path)
    requires k in m
    ensures Entries(m) == EntriesOf(k, m[k].children) + Entries(m - {k})
  {
    var rest := m - {k};
    forall x | x in Entries(m)
      ensures x in EntriesOf(k, m[k].children) || x in Entries(rest)
    {
      var dir, i :| dir in m && 0 <= i < |m[dir].children| && x == Join(dir, m[dir].children[i]);
      if dir != k { assert dir in rest && rest[dir] == m[dir]; }
    }
    forall x | x in Entries(rest)
      ensures x in Entries(m)
    {
      var dir, i :| dir in rest && 0 <= i < |rest[dir].children| && x == Join(dir, rest[dir].children[i]);
      assert dir in m && rest[dir] == m[dir];
    }
  }

  lemma EntriesApart(m: map<Path, Dentry>, k: Path, x: Path)
    requires k in m && forall dir :: dir in m ==> ListingOk(dir, m[dir].children)
    ensures x in EntriesOf(k, m[k].children) ==> x !in Entries(m - {k})
  {
    if x in EntriesOf(k, m[k].children) {
      var i :| 0 <= i < |m[k].children| && x == Join(k, m[k].children[i]);
      assert ListingOk(k, m[k].children);
      JoinSplit(k, m[k].children[i]);
      var rest := m - {k};
      forall dir, j | dir in rest && 0 <= j < |rest[dir].children|
        ensures Join(dir, rest[dir].children[j]) != x
      {
        assert ListingOk(dir, m[dir].children);
        JoinSplit(dir, m[dir].children[j]);
      }
    }
  }

  lemma {:induction false} EntriesCount(m: map<Path, Dentry>)
    requires forall dir :: dir in m ==> ListingOk(dir, m[dir].children)
    ensures |Entries(m)| == TotalChildren(m)
    decreases |m|
  {
    if m == map[] {
      assert Entries(m) == {};
    } else {
      hide EntriesOf, Entries, ListingOk;
      var k := PickKey(m);
      var rest := m - {k};
      assert rest.Keys == m.Keys - {k};
      EntriesCount(rest);
      EntriesOfCount(k, m[k].children);
      EntriesSplit(m, k);
      forall x | x in EntriesOf(k, m[k].children)
        ensures x !in Entries(rest)
      {
        EntriesApart(m, k, x);
      }
    }
  }

  lemma TreeCount(d: Disk)
    requires IsTree(d)
    ensures |d.stats| == 1 + TotalChildren(d.dentries)
  {
    forall dir | dir in d.dentries
      ensures ListingOk(dir, d.dentries[dir].children)
    {
      assert DirOk(d, dir);
    }
    EntriesCount(d.dentries);
    var e := Entries(d.dentries);
    forall p | p in d.stats && p != ROOT_DIR
      ensures p in e
    {
      assert StatOk(d, p);
      SplitJoin(p);
    }
    forall p | p in e
      ensures p in d.stats && p != ROOT_DIR
    {
      var dir, i :|
        dir in d.dentries && 0 <= i < |d.dentries[dir].children| && p == Join(dir, d.dentries[dir].children[i]);
      assert DirOk(d, dir);
      JoinSplit(dir, d.dentries[dir].children[i]);
    }
    assert d.stats.Keys == e + {ROOT_DIR};
    assert |d.stats| == |d.stats.Keys|;
  }
}
