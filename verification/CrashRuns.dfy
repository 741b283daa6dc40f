/** More that holds at every crash point: whose documents may exist, and what a half-finished first mount
    or a half-finished create means for good. */
module CrashRuns {
  import opened Paths
  import opened Store
  import opened Stats
  import opened Namespace
  import opened Tree

  // ----- every directory and data document belongs to a stat entry

  ghost predicate OwnersOk(d: Disk) {
    d.dentries.Keys <= d.stats.Keys && d.blocks.Keys <= d.stats.Keys
  }

  /** What the kernel checks before it calls: data goes to existing files, unlink gets no directory and
      rmdir nothing with data. */
  predicate StartOk(d: Disk, op: Op) {
    match op
    case PutData(p, _, _, _) => p in d.stats
    case Unlink(p) => p !in d.dentries
    case Rmdir(p) => p !in d.blocks
    case _ => true
  }

  ghost predicate OwnTask(d: Disk, t: Task) {
    && OpOk(t.op)
    && match t.op
       case Mkdir(p, _, _) => t.pc > 0 ==> p in d.stats
       case Mount(_) => t.pc > 1 ==> ROOT_DIR in d.stats
       case PutData(p, _, _, _) => p in d.stats
       case Unlink(p) => p !in d.dentries && (t.pc > 0 ==> p !in d.blocks)
       case Rmdir(p) => p !in d.blocks && (t.pc > 0 ==> p !in d.dentries)
       case _ => true
  }

  ghost predicate SysOwns(s: Sys) {
    OwnersOk(s.disk) && (s.running != None ==> OwnTask(s.disk, s.running.value))
  }

  lemma ExecOwns(d: Disk, t: Task)
    requires OwnersOk(d) && OwnTask(d, t)
    ensures var (d', next) := Exec(d, t);
            OwnersOk(d') && (next.More? ==> OwnTask(d', next.task))
  {
  }

  lemma HandleOwns(s: Sys, ev: Event)
    requires SysOwns(s) && (ev.Start? ==> OpOk(ev.op) && (s.running == None ==> StartOk(s.disk, ev.op)))
    ensures SysOwns(Handle(s, ev))
  {
    if ev.Continue? && s.running != None {
      hide Exec;
      ExecOwns(s.disk, s.running.value);
    }
  }

  /** Every operation of the history was started on a disk where its caller may ask for it. */
  ghost predicate Guarded(s: Sys, evs: seq<Event>)
    requires SysOk(s) && EventsOk(evs)
  {
    forall k :: 0 <= k < |evs| ==>
      evs[k].Start? && Reach(s, evs[..k]).running == None ==> StartOk(Reach(s, evs[..k]).disk, evs[k].op)
  }

  lemma {:induction false} ReachOwns(s: Sys, evs: seq<Event>)
    requires SysOk(s) && SysOwns(s) && EventsOk(evs) && Guarded(s, evs)
    ensures SysOwns(Reach(s, evs))
  {
    if evs != [] {
      var n := |evs| - 1;
      assert forall k :: 0 <= k < n ==> evs[..n][..k] == evs[..k];
      ReachOwns(s, evs[..n]);
      HandleOwns(Reach(s, evs[..n]), evs[n]);
    }
  }

  /** At every crash point of such a history each block and each directory document has a stat entry. */
  lemma OwnersSurviveCrashes(evs: seq<Event>, p: Path)
    requires EventsOk(evs) && SysOk(Sys(EMPTY, None)) && Guarded(Sys(EMPTY, None), evs)
    ensures var d := Reach(Sys(EMPTY, None), evs).disk;
            p in d.blocks || p in d.dentries ==> p in d.stats
  {
    ReachOwns(Sys(EMPTY, None), evs);
  }

  // ----- a first mount that dies halfway

  /** The root has its stat entry but not its directory document, and no mount is about to add it. */
  ghost predicate RootLost(s: Sys) {
    && ROOT_DIR in s.disk.stats && ROOT_DIR !in s.disk.dentries
    && (s.running != None && s.running.value.op.Mount? ==> s.running.value.pc == 0)
  }

  lemma ExecKeepsRootLost(d: Disk, t: Task)
    requires OpOk(t.op) && ROOT_DIR in d.stats && ROOT_DIR !in d.dentries && (t.op.Mount? ==> t.pc == 0)
    ensures var (d', next) := Exec(d, t);
            && ROOT_DIR in d'.stats && ROOT_DIR !in d'.dentries
            && (next.More? ==> !t.op.Mount?)
  {
  }

  lemma HandleKeepsRootLost(s: Sys, ev: Event)
    requires SysOk(s) && RootLost(s) && (ev.Start? ==> OpOk(ev.op))
    ensures RootLost(Handle(s, ev))
  {
    if ev.Continue? && s.running != None {
      hide Exec, NamesOk;
      ExecKeepsRootLost(s.disk, s.running.value);
    }
  }

  /** Nothing ever repairs it: later mounts see the stat entry and stop there. */
  lemma {:induction false} RootStaysLost(s: Sys, evs: seq<Event>)
    requires SysOk(s) && RootLost(s) && EventsOk(evs)
    ensures RootLost(Reach(s, evs))
  {
    if evs != [] {
      RootStaysLost(s, evs[..|evs| - 1]);
      HandleKeepsRootLost(Reach(s, evs[..|evs| - 1]), evs[|evs| - 1]);
    }
  }

  /** `n` further steps and then the crash. */
  function CutAfter(s: Sys, n: nat): Sys
    requires s.running != None ==> OpOk(s.running.value.op)
    decreases n
  {
    if n == 0 then Handle(s, Crash) else CutAfter(Handle(s, Continue), n - 1)
  }

  /** A first mount that dies leaves the root lost exactly when it dies between its two inserts. */
  lemma FirstMountCut(d: Disk, now: Timespec, n: nat)
    requires NamesOk(d) && ROOT_DIR !in d.stats && ROOT_DIR !in d.dentries
    ensures var s := CutAfter(Handle(Sys(d, None), Start(Mount(now))), n);
            && (RootLost(s) <==> n == 2)
            && (ROOT_DIR in s.disk.stats <==> n >= 2) && (ROOT_DIR in s.disk.dentries <==> n >= 3)
  {
    var s0 := Handle(Sys(d, None), Start(Mount(now)));
    var s1 := Handle(s0, Continue);
    var s2 := Handle(s1, Continue);
    var s3 := Handle(s2, Continue);
    assert s0 == Sys(d, Some(Task(Mount(now), 0, None)));
    assert s1 == Sys(d, Some(Task(Mount(now), 1, None)));
    assert s2 == Sys(d.(stats := d.stats[ROOT_DIR := NewStat(ROOT_MODE, now)]), Some(Task(Mount(now), 2, None)));
    if n > 3 {
      CutIdle(s3, n - 3);
    }
    assert n >= 1 ==> CutAfter(s0, n) == CutAfter(s1, n - 1);
    assert n >= 2 ==> CutAfter(s1, n - 1) == CutAfter(s2, n - 2);
    assert n >= 3 ==> CutAfter(s2, n - 2) == CutAfter(s3, n - 3);
  }

  lemma {:induction false} CutIdle(s: Sys, n: nat)
    requires s.running == None
    ensures CutAfter(s, n) == s
    decreases n
  {
    if n > 0 { CutIdle(s, n - 1); }
  }

  // ----- a create that dies halfway

  /** `p` has a stat entry that no directory lists, and nothing under way will list or remove it. */
  ghost predicate Orphaned(s: Sys, p: Path) {
    && Normal(p) && p != ROOT_DIR && p in s.disk.stats && Unlisted(s.disk, p)
    && (s.running != None ==> Spares(s.running.value, p))
  }

  predicate Spares(t: Task, p: Path) {
    match t.op
    case Create(q, _, _) => q == p ==> t.pc == 0
    case Mkdir(q, _, _) => q == p ==> t.pc == 0
    case Unlink(q) => q != p
    case Rmdir(q) => q != p
    case _ => true
  }

  lemma AddChildSpares(d: Disk, t: Task, first: nat, p: Path, q: Path)
    requires Normal(p) && p != ROOT_DIR && Normal(q) && q != ROOT_DIR && p != q && Unlisted(d, p)
    requires t.pc == first + 1 ==> Current(d, t, q)
    requires first <= t.pc <= first + 1
    ensures var (d', next) := AddChild(d, t, first, q);
            Unlisted(d', p) && d'.stats == d.stats && (next.More? ==> next.task.op == t.op)
  {
  }

  lemma RemoveChildSpares(d: Disk, t: Task, p: Path, q: Path)
    requires Normal(p) && p != ROOT_DIR && Normal(q) && q != ROOT_DIR && p != q && Unlisted(d, p)
    requires t.pc == 2 ==> Current(d, t, q)
    ensures var (d', next) := RemoveChildAndStat(d, t, q);
            Unlisted(d', p) && (p in d.stats ==> p in d'.stats) && (next.More? ==> next.task.op == t.op)
  {
    RemoveNameMembers(Fetched(t), Basename(q));
  }

  lemma ExecKeepsOrphan(d: Disk, t: Task, p: Path)
    requires TaskOk(d, t) && Spares(t, p)
    requires Normal(p) && p != ROOT_DIR && p in d.stats && Unlisted(d, p)
    ensures var (d', next) := Exec(d, t);
            p in d'.stats && Unlisted(d', p) && (next.More? ==> Spares(next.task, p))
  {
    hide AddChild, RemoveChildAndStat, Dirname, Basename, Normal;
    if t.pc <= 3 {
      match t.op
      case Create(q, _, _) => if 0 < t.pc < 3 { AddChildSpares(d, t, 1, p, q); }
      case Mkdir(q, _, _) => if t.pc > 1 { AddChildSpares(d, t, 2, p, q); }
      case Unlink(q) => if t.pc > 0 { RemoveChildSpares(d, t, p, q); }
      case Rmdir(q) => if t.pc > 0 { RemoveChildSpares(d, t, p, q); }
      case _ =>
    }
  }

  predicate NeverRemoves(evs: seq<Event>, p: Path) {
    forall k :: 0 <= k < |evs| && evs[k].Start? ==> evs[k].op != Unlink(p) && evs[k].op != Rmdir(p)
  }

  lemma HandleKeepsOrphan(s: Sys, ev: Event, p: Path)
    requires SysOk(s) && Orphaned(s, p) && (ev.Start? ==> OpOk(ev.op))
    requires ev.Start? ==> ev.op != Unlink(p) && ev.op != Rmdir(p)
    ensures Orphaned(Handle(s, ev), p)
  {
    if ev.Continue? && s.running != None {
      hide Exec, NamesOk, Unlisted, Normal;
      ExecKeepsOrphan(s.disk, s.running.value, p);
    }
  }

  /** Such a name stays invisible and taken through every further history, crashes included, in which
      nobody unlinks that very path: each later create or mkdir of it is refused. */
  lemma {:induction false} OrphanStays(s: Sys, evs: seq<Event>, p: Path, mode: nat, now: Timespec)
    requires SysOk(s) && Orphaned(s, p) && EventsOk(evs) && NeverRemoves(evs, p)
    ensures Orphaned(Reach(s, evs), p)
    ensures RunOp(Reach(s, evs).disk, Mkdir(p, mode, now)) == (-ENOENT, Reach(s, evs).disk)
    ensures RunOp(Reach(s, evs).disk, Create(p, mode, now)).1 == Reach(s, evs).disk
    ensures RunOp(Reach(s, evs).disk, Create(p, mode, now)).0 != 0
    decreases |evs|
  {
    hide RunOp, Unlisted, Handle, NamesOk;
    if evs != [] {
      OrphanStays(s, evs[..|evs| - 1], p, mode, now);
      HandleKeepsOrphan(Reach(s, evs[..|evs| - 1]), evs[|evs| - 1], p);
    }
    CreateRuns(Reach(s, evs).disk, p, mode, now);
    MkdirRuns(Reach(s, evs).disk, p, mode, now);
  }

  /** A create that dies leaves such a name exactly when it dies after its stat entry is in and before the
      directory is written back; without a directory to write it never gets further. */
  lemma CreateCut(d: Disk, p: Path, mode: nat, now: Timespec, n: nat)
    requires NamesOk(d) && OpOk(Create(p, mode, now)) && IsRegular(mode) && |p| <= MAX_PATH_LEN && p !in d.stats
    ensures var s := CutAfter(Handle(Sys(d, None), Start(Create(p, mode, now))), n);
            && (Orphaned(s, p) <==> n >= 1 && (Dirname(p) in d.dentries ==> n <= 2))
            && (p in s.disk.stats <==> n >= 1)
            && (Listed(s.disk, p) <==> n >= 3 && Dirname(p) in d.dentries)
  {
    NoStatUnlisted(d, p);
    var op := Create(p, mode, now);
    var d1 := d.(stats := d.stats[p := NewStat(mode, now)]);
    var s0 := Handle(Sys(d, None), Start(op));
    var s1 := Handle(s0, Continue);
    var s2 := Handle(s1, Continue);
    var s3 := Handle(s2, Continue);
    assert s1 == Sys(d1, Some(Task(op, 1, None)));
    if n >= 1 { assert CutAfter(s0, n) == CutAfter(s1, n - 1); }
    if n >= 2 { assert CutAfter(s1, n - 1) == CutAfter(s2, n - 2); }
    if n >= 3 { assert CutAfter(s2, n - 2) == CutAfter(s3, n - 3); CutIdle(s3, n - 3); }
  }
}
