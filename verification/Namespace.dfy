/** The multi-step operations on names as sequences of atomic store steps, of which any prefix may be all
    that happens before the client dies. One client runs at a time, as the file system is mounted. */
module Namespace {
  import opened Bits
  import opened Paths
  import opened Seqs
  import opened Store
  import opened Stats
  import opened FileData

  /** A directory's document. */
  datatype Dentry = Dentry(dir: Path, parent: Option<Path>, children: seq<string>)

  /** The three collections, CAS values left out. */
  datatype Disk = Disk(stats: map<Path, Stat>, dentries: map<Path, Dentry>, blocks: map<Path, Bytes>)

  const MAX_PATH_LEN: nat := 250
  const S_IFMT: nat := 0xF000
  const S_IFREG: nat := 0x8000
  const S_IFDIR: nat := 0x4000
  /** S_IFDIR | 0755 */
  const ROOT_MODE: nat := 0x41ED

  /** S_ISREG */
  predicate IsRegular(mode: nat) {
    BitAnd(mode, S_IFMT) == S_IFREG
  }

  /** S_ISDIR */
  predicate IsDirectory(mode: nat) {
    BitAnd(mode, S_IFMT) == S_IFDIR
  }

  /** The file type is the fourth hexadecimal digit: 8 for a regular file, 4 for a directory. */
  lemma FileType(mode: nat)
    ensures IsRegular(mode) <==> mode / 0x1000 % 0x10 == 8
    ensures IsDirectory(mode) <==> mode / 0x1000 % 0x10 == 4
    ensures IsDirectory(ROOT_MODE) && ROOT_MODE % 0x1000 == 7 * 64 + 5 * 8 + 5
  {
    hide BitAnd, Pow2, Shr, Doubled;
    DigitMask(mode);
    DigitMask(ROOT_MODE);
  }

  const EXIT_FAILURE: int := 1

  datatype Op =
    | Create(path: Path, mode: nat, now: Timespec)
    | Mkdir(path: Path, mode: nat, now: Timespec)
    | Unlink(path: Path)
    | Rmdir(path: Path)
    | Mount(now: Timespec)
    | PutData(path: Path, block: Bytes, size: Option<nat>, now: Timespec)
    | DropData(path: Path, now: Timespec)
    | Touch(path: Path, update: Update)

  /** An operation about to take its step number `pc`, with the directory document it has fetched. */
  datatype Task = Task(op: Op, pc: nat, fetched: Option<Dentry>)

  datatype Next = Done(fresult: int) | More(task: Task)

  function RemoveName(s: seq<string>, n: string): seq<string> {
    if s == [] then []
    else RemoveName(s[..|s| - 1], n) + if s[|s| - 1] == n then [] else [s[|s| - 1]]
  }

  /** The checks that come before any store access. */
  function Begin(op: Op): Next {
    match op
    case Create(p, mode, _) =>
      if !IsRegular(mode) then Done(-EINVAL)
      else if |p| > MAX_PATH_LEN then Done(ENAMETOOLONG)
      else More(Task(op, 0, None))
    case _ => More(Task(op, 0, None))
  }

  // ----- single store steps

  function InsertStat(d: Disk, t: Task, p: Path, mode: nat, now: Timespec): (Disk, Next) {
    if p in d.stats then (d, Done(-ENOENT))
    else (d.(stats := d.stats[p := NewStat(mode, now)]), More(t.(pc := t.pc + 1)))
  }

  function InsertDentry(d: Disk, p: Path, parent: Option<Path>, next: Next): (Disk, Next) {
    if p in d.dentries then (d, Done(-ENOENT))
    else (d.(dentries := d.dentries[p := Dentry(p, parent, [])]), next)
  }

  /** get_dentry_json, with what happens when there is none. */
  function GetDentry(d: Disk, t: Task, dir: Path, missing: Next): (Disk, Next) {
    if dir in d.dentries then (d, More(t.(pc := t.pc + 1, fetched := Some(d.dentries[dir])))) else (d, missing)
  }

  /** LCB_STORE_REPLACE of a directory document without a CAS. */
  function ReplaceDentry(d: Disk, dir: Path, children: seq<string>, t: Task, missing: Next, next: Next): (Disk, Next) {
    if dir in d.dentries && t.fetched != None
    then (d.(dentries := d.dentries[dir := t.fetched.value.(children := children)]), next)
    else (d, missing)
  }

  function Fetched(t: Task): seq<string> {
    if t.fetched != None then t.fetched.value.children else []
  }

  /** add_child_to_dentry, from step `first`. */
  function AddChild(d: Disk, t: Task, first: nat, p: Path): (Disk, Next)
    requires Normal(p)
  {
    if t.pc == first then GetDentry(d, t, Dirname(p), Done(-ENOENT))
    else ReplaceDentry(d, Dirname(p), Fetched(t) + [Basename(p)], t, Done(-ENOENT), Done(0))
  }

  /** remove_child_from_dentry and remove_stat, steps 1 to 3 of unlink and rmdir; errors of the first
      are not looked at. */
  function RemoveChildAndStat(d: Disk, t: Task, p: Path): (Disk, Next)
    requires Normal(p)
  {
    var last := More(t.(pc := 3));
    if t.pc == 1 then GetDentry(d, t, Dirname(p), last)
    else if t.pc == 2 then ReplaceDentry(d, Dirname(p), RemoveName(Fetched(t), Basename(p)), t, last, last)
    else if p in d.stats then (d.(stats := d.stats - {p}), Done(0))
    else (d, Done(-ENOENT))
  }

  function UpdateStat(d: Disk, p: Path, u: Update): (Disk, Next) {
    if p in d.stats then (d.(stats := d.stats[p := ApplyUpdate(u, d.stats[p])]), Done(0)) else (d, Done(-ENOENT))
  }

  /** main turns every error of insert_root into EXIT_FAILURE. */
  function Fatal(r: (Disk, Next)): (Disk, Next) {
    if r.1.Done? && r.1.fresult != 0 then (r.0, Done(EXIT_FAILURE)) else r
  }

  predicate OpOk(op: Op) {
    match op
    case Create(p, _, _) => Normal(p) && p != ROOT_DIR
    case Mkdir(p, _, _) => Normal(p) && p != ROOT_DIR
    case Unlink(p) => Normal(p) && p != ROOT_DIR
    case Rmdir(p) => Normal(p) && p != ROOT_DIR
    case Mount(_) => true
    case PutData(p, _, _, _) => Normal(p)
    case DropData(p, _) => Normal(p)
    case Touch(p, _) => Normal(p)
  }

  /** One atomic store step of a running operation. */
  function Exec(d: Disk, t: Task): (r: (Disk, Next))
    requires OpOk(t.op)
    ensures r.1.More? ==> r.1.task.op == t.op && t.pc < r.1.task.pc <= 3
  {
    if t.pc > 3 then (d, Done(0))
    else
      match t.op
      case Create(p, mode, now) =>
        if t.pc == 0 then InsertStat(d, t, p, mode, now)
        else if t.pc == 3 then (d, Done(0))
        else AddChild(d, t, 1, p)
      case Mkdir(p, mode, now) =>
        if t.pc == 0 then InsertStat(d, t, p, mode, now)
        else if t.pc == 1 then InsertDentry(d, p, Some(Dirname(p)), More(t.(pc := 2)))
        else AddChild(d, t, 2, p)
      case Unlink(p) =>
        if t.pc == 0 then (d.(blocks := d.blocks - {p}), More(t.(pc := 1))) else RemoveChildAndStat(d, t, p)
      case Rmdir(p) =>
        if t.pc == 0 then (d.(dentries := d.dentries - {p}), More(t.(pc := 1))) else RemoveChildAndStat(d, t, p)
      case Mount(now) =>
        if t.pc == 0 then
          (d, if ROOT_DIR !in d.stats then More(t.(pc := 1))
              else Done(if IsDirectory(d.stats[ROOT_DIR].mode) then 0 else EXIT_FAILURE))
        else if t.pc == 1 then Fatal(InsertStat(d, t, ROOT_DIR, ROOT_MODE, now))
        else Fatal(InsertDentry(d, ROOT_DIR, None, Done(0)))
      case PutData(p, block, size, now) =>
        if t.pc == 0 then
          (d.(blocks := d.blocks[p := block]), if size == None then Done(0) else More(t.(pc := 1)))
        else if size == None then (d, Done(0))
        else UpdateStat(d, p, Size(size.value, now))
      case DropData(p, now) =>
        if t.pc == 0 then
          if p in d.blocks then (d.(blocks := d.blocks - {p}), More(t.(pc := 1))) else (d, Done(-ENOENT))
        else UpdateStat(d, p, Size(0, now))
      case Touch(p, update) => UpdateStat(d, p, update)
  }

  // ----- runs with crashes

  datatype Sys = Sys(disk: Disk, running: Option<Task>)

  datatype Event = Start(op: Op) | Continue | Crash

  function Handle(s: Sys, ev: Event): Sys
    requires ev.Start? ==> OpOk(ev.op)
    requires s.running != None ==> OpOk(s.running.value.op)
  {
    match ev
    case Start(op) =>
      if s.running != None then s
      else
        var next := Begin(op);
        if next.More? then s.(running := Some(next.task)) else s
    case Continue =>
      if s.running == None then s
      else
        var (d, next) := Exec(s.disk, s.running.value);
        Sys(d, if next.More? then Some(next.task) else None)
    case Crash => s.(running := None)
  }

  // ----- no dangling and no double names

  /** `p` is not listed in its directory. */
  predicate Unlisted(d: Disk, p: Path)
    requires Normal(p)
  {
    Dirname(p) in d.dentries ==> Basename(p) !in d.dentries[Dirname(p)].children
  }

  ghost predicate DirOk(d: Disk, dir: Path)
    requires dir in d.dentries
  {
    var c := d.dentries[dir].children;
    && Normal(dir) && NoDup(c)
    && forall i :: 0 <= i < |c| ==> ValidName(c[i]) && Join(dir, c[i]) in d.stats
  }

  /** Every listed name has a stat entry, and no directory lists a name twice. */
  ghost predicate NamesOk(d: Disk) {
    forall dir :: dir in d.dentries ==> DirOk(d, dir)
  }

  /** The step that will write the directory back still holds its current contents. */
  predicate Current(d: Disk, t: Task, p: Path)
    requires Normal(p)
  {
    Dirname(p) in d.dentries && t.fetched == Some(d.dentries[Dirname(p)])
  }

  ghost predicate TaskOk(d: Disk, t: Task) {
    && OpOk(t.op)
    && match t.op
       case Create(p, _, _) => (t.pc > 0 ==> p in d.stats && Unlisted(d, p)) && (t.pc == 2 ==> Current(d, t, p))
       case Mkdir(p, _, _) => (t.pc > 0 ==> p in d.stats && Unlisted(d, p)) && (t.pc == 3 ==> Current(d, t, p))
       case Unlink(p) => (t.pc == 2 ==> Current(d, t, p)) && (t.pc == 3 ==> Unlisted(d, p))
       case Rmdir(p) => (t.pc == 2 ==> Current(d, t, p)) && (t.pc == 3 ==> Unlisted(d, p))
       case _ => true
  }

  ghost predicate SysOk(s: Sys) {
    NamesOk(s.disk) && (s.running != None ==> TaskOk(s.disk, s.running.value))
  }

  /** A path without a stat entry is not listed anywhere. */
  lemma NoStatUnlisted(d: Disk, p: Path)
    requires NamesOk(d) && Normal(p) && p != ROOT_DIR && p !in d.stats
    ensures Unlisted(d, p)
  {
    SplitJoin(p);
    var dir := Dirname(p);
    if dir in d.dentries {
      assert DirOk(d, dir);
    }
  }

  lemma {:induction false} RemoveNameMembers(s: seq<string>, n: string)
    ensures forall i :: 0 <= i < |RemoveName(s, n)| ==> RemoveName(s, n)[i] in s && RemoveName(s, n)[i] != n
    ensures forall i :: 0 <= i < |s| && s[i] != n ==> s[i] in RemoveName(s, n)
  {
    if s != [] {
      RemoveNameMembers(s[..|s| - 1], n);
      SplitLast(s);
    }
  }

  lemma {:induction false} RemoveNameOk(s: seq<string>, n: string)
    requires NoDup(s)
    ensures NoDup(RemoveName(s, n)) && n !in RemoveName(s, n)
    ensures |RemoveName(s, n)| == if n in s then |s| - 1 else |s|
  {
    RemoveNameMembers(s, n);
    if s != [] {
      var init, m := s[..|s| - 1], s[|s| - 1];
      SplitLast(s);
      RemoveNameOk(init, n);
      RemoveNameMembers(init, n);
      assert m !in init;
    }
  }

  /** The other names keep their order. */
  lemma {:induction false} RemoveNameOrder(s: seq<string>, k: nat)
    requires NoDup(s) && k < |s|
    ensures RemoveName(s, s[k]) == s[..k] + s[k + 1..]
  {
    var init, m := s[..|s| - 1], s[|s| - 1];
    if k < |init| {
      RemoveNameOrder(init, k);
      assert init[..k] == s[..k] && init[k + 1..] + [m] == s[k + 1..];
    } else {
      RemoveNameMembers(init, m);
      NameAbsent(init, m);
    }
  }

  lemma {:induction false} NameAbsent(s: seq<string>, n: string)
    requires n !in s
    ensures RemoveName(s, n) == s
  {
    if s != [] {
      SplitLast(s);
      NameAbsent(s[..|s| - 1], n);
    }
  }

  lemma ChildAdded(d: Disk, dir: Path, c: Dentry, n: string)
    requires NamesOk(d) && dir in d.dentries && c == d.dentries[dir]
    requires ValidName(n) && n !in c.children && Join(dir, n) in d.stats
    ensures NamesOk(d.(dentries := d.dentries[dir := c.(children := c.children + [n])]))
  {
  }

  lemma ChildRemoved(d: Disk, dir: Path, c: Dentry, n: string)
    requires NamesOk(d) && dir in d.dentries && c == d.dentries[dir]
    ensures NamesOk(d.(dentries := d.dentries[dir := c.(children := RemoveName(c.children, n))]))
  {
    var d' := d.(dentries := d.dentries[dir := c.(children := RemoveName(c.children, n))]);
    assert DirOk(d, dir);
    RemoveNameOk(c.children, n);
    RemoveNameMembers(c.children, n);
    forall x | x in d'.dentries
      ensures DirOk(d', x)
    {
      assert x in d.dentries && DirOk(d, x);
      if x == dir {
        var r := d'.dentries[x].children;
        forall i | 0 <= i < |r|
          ensures ValidName(r[i]) && Join(dir, r[i]) in d'.stats
        {
          var j :| 0 <= j < |c.children| && c.children[j] == r[i];
        }
      }
    }
  }

  /** Removing a stat entry that nothing lists keeps every listed name backed. */
  lemma StatRemoved(d: Disk, p: Path)
    requires NamesOk(d) && Normal(p) && p != ROOT_DIR && Unlisted(d, p)
    ensures NamesOk(d.(stats := d.stats - {p}))
  {
    var d' := d.(stats := d.stats - {p});
    forall dir | dir in d'.dentries
      ensures DirOk(d', dir)
    {
      assert DirOk(d, dir);
      var c := d.dentries[dir].children;
      forall i | 0 <= i < |c|
        ensures Join(dir, c[i]) in d'.stats
      {
        JoinSplit(dir, c[i]);
      }
    }
  }

  lemma StatsGrow(d: Disk, stats: map<Path, Stat>, dentries: map<Path, Dentry>, blocks: map<Path, Bytes>)
    requires NamesOk(d) && d.stats.Keys <= stats.Keys
    requires forall dir :: dir in dentries ==>
               (dir in d.dentries && dentries[dir] == d.dentries[dir]) || (Normal(dir) && dentries[dir].children == [])
    ensures NamesOk(Disk(stats, dentries, blocks))
  {
  }

  lemma AddChildOk(d: Disk, t: Task, first: nat, p: Path)
    requires NamesOk(d) && TaskOk(d, t) && Normal(p) && p != ROOT_DIR
    requires p in d.stats && Unlisted(d, p) && first <= t.pc <= first + 1 && (t.pc == first + 1 ==> Current(d, t, p))
    ensures var (d', next) := AddChild(d, t, first, p);
            && NamesOk(d') && d'.stats == d.stats
            && (next.More? ==> d' == d && next.task.pc == first + 1 && Current(d, next.task, p))
  {
    SplitJoin(p);
    if t.pc == first + 1 {
      ChildAdded(d, Dirname(p), d.dentries[Dirname(p)], Basename(p));
    }
  }

  lemma RemoveChildOk(d: Disk, t: Task, p: Path)
    requires NamesOk(d) && Normal(p) && p != ROOT_DIR && 1 <= t.pc <= 3
    requires (t.pc == 2 ==> Current(d, t, p)) && (t.pc == 3 ==> Unlisted(d, p))
    ensures var (d', next) := RemoveChildAndStat(d, t, p);
            && NamesOk(d')
            && (next.More? ==>
                  (next.task.pc == 2 && Current(d', next.task, p)) || (next.task.pc == 3 && Unlisted(d', p)))
  {
    SplitJoin(p);
    if t.pc == 2 {
      var c := d.dentries[Dirname(p)];
      ChildRemoved(d, Dirname(p), c, Basename(p));
      RemoveNameMembers(c.children, Basename(p));
    } else if t.pc == 3 {
      StatRemoved(d, p);
    }
  }

  lemma ExecOk(d: Disk, t: Task)
    requires NamesOk(d) && TaskOk(d, t)
    ensures var (d', next) := Exec(d, t);
            NamesOk(d') && (next.More? ==> TaskOk(d', next.task))
  {
    hide NamesOk, RemoveChildAndStat, AddChild, Dirname, Basename, ApplyUpdate, NewStat;
    var (d', next) := Exec(d, t);
    if t.pc <= 3 {
      match t.op
      case Create(p, _, _) =>
        if t.pc == 0 {
          if p !in d.stats { NoStatUnlisted(d, p); }
          StatsGrow(d, d'.stats, d'.dentries, d'.blocks);
        } else if t.pc < 3 {
          AddChildOk(d, t, 1, p);
        }
      case Mkdir(p, _, _) =>
        if t.pc == 0 {
          if p !in d.stats { NoStatUnlisted(d, p); }
          StatsGrow(d, d'.stats, d'.dentries, d'.blocks);
        } else if t.pc == 1 {
          SplitJoin(p);
          StatsGrow(d, d'.stats, d'.dentries, d'.blocks);
        } else {
          AddChildOk(d, t, 2, p);
        }
      case Unlink(p) =>
        if t.pc == 0 { StatsGrow(d, d'.stats, d'.dentries, d'.blocks); } else { RemoveChildOk(d, t, p); }
      case Rmdir(p) =>
        if t.pc == 0 { StatsGrow(d, d'.stats, d'.dentries, d'.blocks); } else { RemoveChildOk(d, t, p); }
      case _ => StatsGrow(d, d'.stats, d'.dentries, d'.blocks);
    }
  }

  lemma HandleOk(s: Sys, ev: Event)
    requires SysOk(s) && (ev.Start? ==> OpOk(ev.op))
    ensures SysOk(Handle(s, ev))
  {
    if ev.Continue? && s.running != None {
      hide Exec, NamesOk;
      ExecOk(s.disk, s.running.value);
    }
  }

  predicate EventsOk(evs: seq<Event>) {
    forall i :: 0 <= i < |evs| && evs[i].Start? ==> OpOk(evs[i].op)
  }

  /** The system after a history of operations started, continued step by step, and cut off anywhere. */
  ghost function Reach(s: Sys, evs: seq<Event>): (r: Sys)
    requires SysOk(s) && EventsOk(evs)
    ensures SysOk(r)
  {
    if evs == [] then s
    else
      var before := Reach(s, evs[..|evs| - 1]);
      HandleOk(before, evs[|evs| - 1]);
      Handle(before, evs[|evs| - 1])
  }

  const EMPTY: Disk := Disk(map[], map[], map[])

  /** Whatever is run and wherever it dies, a name in a directory listing always has a stat entry and is
      listed there once - also after rmdir of a directory that was not empty. */
  lemma {:induction false} NamesSurviveCrashes(evs: seq<Event>, dir: Path, i: nat, j: nat)
    requires EventsOk(evs)
    ensures SysOk(Sys(EMPTY, None))
    ensures var d := Reach(Sys(EMPTY, None), evs).disk;
            dir in d.dentries && i < |d.dentries[dir].children| && j < |d.dentries[dir].children| ==>
              && Join(dir, d.dentries[dir].children[i]) in d.stats
              && (d.dentries[dir].children[i] == d.dentries[dir].children[j] ==> i == j)
  {
    var d := Reach(Sys(EMPTY, None), evs).disk;
    if dir in d.dentries { assert DirOk(d, dir); }
  }
}
