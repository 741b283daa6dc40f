/** Asking again after a crash. The operations report no error but that of their last step so that a repeated
    call can finish what a dead one began: for unlink and rmdir it always does, for create and mkdir only
    when there is nothing left to finish. */
module RetryRuns {
  import opened Paths
  import opened Store
  import opened Stats
  import opened Namespace
  import opened Tree
  import opened CutRuns

  // ----- unlink and rmdir

  /** What the last three steps of both operations come to. */
  function Removed(d: Disk, p: Path): Disk
    requires Normal(p)
  {
    WithoutStat(WithoutChild(d, p), p).1
  }

  lemma {:induction false} RemoveTwice(s: seq<string>, n: string)
    ensures RemoveName(RemoveName(s, n), n) == RemoveName(s, n)
  {
    RemoveNameMembers(s, n);
    NameAbsent(RemoveName(s, n), n);
  }

  lemma RemovedAgain(d: Disk, p: Path)
    requires Normal(p)
    ensures Removed(WithoutChild(d, p), p) == Removed(d, p) && Removed(Removed(d, p), p) == Removed(d, p)
  {
    hide Normal, Dirname, Basename, RemoveName;
    var c := WithoutChild(d, p);
    if Dirname(p) in d.dentries { RemoveTwice(d.dentries[Dirname(p)].children, Basename(p)); }
    assert WithoutChild(c, p) == c;
    assert WithoutChild(Removed(d, p), p) == Removed(d, p);
  }

  /** A cut of these steps leaves the disk untouched, or the name gone, or all done. */
  lemma RemoveCutShapes(d: Disk, t: Task, p: Path, n: nat)
    requires OpOk(t.op) && (t.op.Unlink? || t.op.Rmdir?) && p == t.op.path && t.pc == 1
    ensures var c := CutDisk(d, More(t), n); c == d || c == WithoutChild(d, p) || c == Removed(d, p)
  {
    if Dirname(p) in d.dentries {
      RemoveCuts(d, t, p, n);
    } else if n > 0 {
      CutStep(d, t, n, d, More(t.(pc := 3)));
      if n > 1 {
        var r := Exec(d, t.(pc := 3));
        CutStep(d, t.(pc := 3), n - 1, r.0, r.1);
      }
    }
  }

  /** However far an unlink got before it died, repeating it gives the disk an uninterrupted one gives. */
  lemma UnlinkRetried(d: Disk, p: Path, n: nat)
    requires OpOk(Unlink(p))
    ensures RunOp(Cut(d, Unlink(p), n), Unlink(p)).1 == RunOp(d, Unlink(p)).1
  {
    hide RunOp, Removed, WithoutChild, WithoutStat, Normal;
    var t, c := Task(Unlink(p), 0, None), d.(blocks := d.blocks - {p});
    if n == 0 {
      NoCut(d, Unlink(p));
    } else {
      var cut := Cut(d, Unlink(p), n);
      CutStep(d, t, n, c, More(t.(pc := 1)));
      RemoveCutShapes(c, t.(pc := 1), p, n - 1);
      UnlinkIsRemoved(d, p);
      UnlinkIsRemoved(cut, p);
      RemovedAgain(c, p);
      RemovedKeeps(c, p);
      assert cut.(blocks := cut.blocks - {p}) == cut;
    }
  }

  lemma UnlinkIsRemoved(d: Disk, p: Path)
    requires OpOk(Unlink(p))
    ensures RunOp(d, Unlink(p)).1 == Removed(d.(blocks := d.blocks - {p}), p)
  {
    hide RunOp;
    UnlinkRuns(d, p);
  }

  lemma RmdirIsRemoved(d: Disk, p: Path)
    requires OpOk(Rmdir(p))
    ensures RunOp(d, Rmdir(p)).1 == Removed(d.(dentries := d.dentries - {p}), p)
  {
    hide RunOp;
    RmdirRuns(d, p);
  }

  lemma RemovedKeeps(d: Disk, p: Path)
    requires Normal(p)
    ensures WithoutChild(d, p).blocks == d.blocks && Removed(d, p).blocks == d.blocks
    ensures Removed(d, p).dentries == WithoutChild(d, p).dentries
    ensures WithoutChild(d, p).dentries.Keys == d.dentries.Keys
  {
  }

  /** And the same for rmdir. */
  lemma RmdirRetried(d: Disk, p: Path, n: nat)
    requires OpOk(Rmdir(p))
    ensures RunOp(Cut(d, Rmdir(p), n), Rmdir(p)).1 == RunOp(d, Rmdir(p)).1
  {
    hide RunOp, Removed, WithoutChild, WithoutStat, Normal;
    var t, c := Task(Rmdir(p), 0, None), d.(dentries := d.dentries - {p});
    if n == 0 {
      NoCut(d, Rmdir(p));
    } else {
      var cut := Cut(d, Rmdir(p), n);
      CutStep(d, t, n, c, More(t.(pc := 1)));
      RemoveCutShapes(c, t.(pc := 1), p, n - 1);
      RmdirIsRemoved(d, p);
      RmdirIsRemoved(cut, p);
      RemovedAgain(c, p);
      RemovedKeeps(c, p);
      assert p !in cut.dentries.Keys;
      assert cut.(dentries := cut.dentries - {p}) == cut;
    }
  }

  // ----- create and mkdir

  /** Adding a child to a directory that is there changes it. */
  lemma ChildShows(d: Disk, p: Path)
    requires Normal(p)
    ensures WithChild(d, p).1 == d <==> Dirname(p) !in d.dentries
  {
    if Dirname(p) in d.dentries {
      assert |WithChild(d, p).1.dentries[Dirname(p)].children| == |d.dentries[Dirname(p)].children| + 1;
    }
  }

  lemma TakenStays(d: Disk, p: Path, mode: nat, now: Timespec)
    requires OpOk(Create(p, mode, now)) && p in d.stats
    ensures RunOp(d, Create(p, mode, now)).1 == d && RunOp(d, Mkdir(p, mode, now)).1 == d
  {
    hide RunOp;
    CreateRuns(d, p, mode, now);
    MkdirRuns(d, p, mode, now);
  }

  /** A create that is repeated reaches the disk of an uninterrupted one exactly when the dead one had not
      begun, or had nothing left to do: it was refused, complete, or without a directory to write. */
  lemma CreateRetriedIff(d: Disk, p: Path, mode: nat, now: Timespec, n: nat)
    requires OpOk(Create(p, mode, now))
    ensures RunOp(Cut(d, Create(p, mode, now), n), Create(p, mode, now)).1 == RunOp(d, Create(p, mode, now)).1
            <==> n == 0 || n >= 3 || Begin(Create(p, mode, now)).Done? || p in d.stats || Dirname(p) !in d.dentries
  {
    hide RunOp, WithChild, Normal, Dirname;
    var op := Create(p, mode, now);
    if n == 0 {
      NoCut(d, op);
    } else if Begin(op).More? {
      var d1 := d.(stats := d.stats[p := NewStat(mode, now)]);
      CreateCutDisk(d, p, mode, now, n);
      CreateRuns(d, p, mode, now);
      ChildShows(d1, p);
      WithChildStats(d1, p);
      TakenStays(Cut(d, op, n), p, mode, now);
    }
  }

  lemma WithChildStats(d: Disk, p: Path)
    requires Normal(p)
    ensures WithChild(d, p).1.stats == d.stats && WithChild(d, p).1.dentries.Keys == d.dentries.Keys
  {
  }

  lemma MkdirOverDentry(d: Disk, p: Path, mode: nat, now: Timespec, n: nat)
    requires OpOk(Mkdir(p, mode, now)) && n > 0 && p !in d.stats && p in d.dentries
    ensures Cut(d, Mkdir(p, mode, now), n) == d.(stats := d.stats[p := NewStat(mode, now)])
  {
    var t := Task(Mkdir(p, mode, now), 0, None);
    var d1 := d.(stats := d.stats[p := NewStat(mode, now)]);
    CutStep(d, t, n, d1, More(t.(pc := 1)));
    if n > 1 { CutStep(d1, t.(pc := 1), n - 1, d1, Done(-ENOENT)); }
  }

  /** The same for mkdir; without a directory to write it has nothing left to do after two steps. */
  lemma MkdirRetriedIff(d: Disk, p: Path, mode: nat, now: Timespec, n: nat)
    requires OpOk(Mkdir(p, mode, now))
    ensures RunOp(Cut(d, Mkdir(p, mode, now), n), Mkdir(p, mode, now)).1 == RunOp(d, Mkdir(p, mode, now)).1
            <==> n == 0 || n >= 4 || p in d.stats || p in d.dentries || (n >= 2 && Dirname(p) !in d.dentries)
  {
    hide RunOp, WithChild, Normal, Dirname, Join, Basename;
    var op := Mkdir(p, mode, now);
    if n == 0 {
      NoCut(d, op);
    } else if p in d.stats {
      CutStep(d, Task(op, 0, None), n, d, Done(-ENOENT));
    } else {
      var cut := Cut(d, op, n);
      var d1 := d.(stats := d.stats[p := NewStat(mode, now)]);
      var d2 := d1.(dentries := d.dentries[p := Dentry(p, Some(Dirname(p)), [])]);
      MkdirRuns(d, p, mode, now);
      SplitJoin(p);
      if p in d.dentries {
        MkdirOverDentry(d, p, mode, now, n);
      } else {
        MkdirCutDisk(d, p, mode, now, n);
        ChildShows(d2, p);
        WithChildStats(d2, p);
        assert p in WithChild(d2, p).1.dentries.Keys && p !in d1.dentries.Keys;
      }
      TakenStays(cut, p, mode, now);
    }
  }
}
