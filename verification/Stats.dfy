/** File attributes and the four read-modify-write updates of stats.c. */
module Stats {
  import opened Paths
  import opened Store

  // errno values; the functions return their negation
  const ENOENT: int := 2
  const EINVAL: int := 22
  const EFBIG: int := 27
  const ENAMETOOLONG: int := 63

  const UTIME_NOW: int := -1
  const UTIME_OMIT: int := -2

  datatype Timespec = Timespec(sec: int, nsec: int)

  /** cbfuse_stat. */
  datatype Stat = Stat(mode: nat, atime: Timespec, mtime: Timespec, ctime: Timespec, size: nat)

  /** The file attributes a client asks to change, with the clock reading the update uses. */
  datatype Update =
    | Atime(now: Timespec)
    | Utimens(tv: Option<(Timespec, Timespec)>, now: Timespec)
    | Size(size: nat, now: Timespec)
    | Mode(mode: nat)

  /** One utimensat(2) argument: the time it denotes for a field that holds `current`. */
  function Resolve(ts: Timespec, current: Timespec, now: Timespec): Timespec {
    if ts.nsec == UTIME_NOW then now else if ts.nsec == UTIME_OMIT then current else ts
  }

  function ApplyUpdate(u: Update, s: Stat): Stat {
    match u
    case Atime(now) => s.(atime := now)
    case Utimens(None, now) => s.(atime := now, mtime := now)
    case Utimens(Some(tv), now) => s.(atime := Resolve(tv.0, s.atime, now), mtime := Resolve(tv.1, s.mtime, now))
    case Size(size, now) => s.(mtime := now, size := size)
    case Mode(mode) => s.(mode := mode)
  }

  function NewStat(mode: nat, now: Timespec): Stat {
    Stat(mode, now, now, now, 0)
  }

  /** An update by a client that nobody interferes with. */
  function UpdateDoc(c: Coll<Stat>, p: Path, u: Update): (int, Coll<Stat>) {
    if p in c.docs then (0, Put(c, p, ApplyUpdate(u, c.docs[p].value))) else (-ENOENT, c)
  }

  /** It fails for a missing document and changes nothing; otherwise it stores under a larger CAS, leaves all
      other documents alone, and never sets the change time. */
  lemma UpdateDocFrame(c: Coll<Stat>, p: Path, u: Update)
    ensures var (fresult, c') := UpdateDoc(c, p, u);
            if p !in c.docs then fresult == -2 && c' == c
            else
              && fresult == 0 && c'.docs.Keys == c.docs.Keys
              && c'.docs[p].cas > c.clock && c'.docs[p].value.ctime == c.docs[p].value.ctime
              && forall q :: q in c.docs && q != p ==> c'.docs[q] == c.docs[q]
  {
  }

  method GetStat(stats: Collection<Stat>, p: Path) returns (fresult: int, stat: Stat, cas: nat)
    ensures fresult == if p in stats.docs then 0 else -ENOENT
    ensures fresult == 0 ==> stat == stats.docs[p].value && cas == stats.docs[p].cas
  {
    stat, cas := NewStat(0, Timespec(0, 0)), 0;
    var status, doc := stats.Get(p);
    if status != Success {
      fresult := -ENOENT;
      return;
    }
    fresult, stat, cas := 0, doc.value.value, doc.value.cas;
  }

  /** The store step every update ends with. */
  method PutBack(stats: Collection<Stat>, p: Path, stat: Stat, cas: nat) returns (fresult: int)
    modifies stats
    ensures stats.View() == ReplaceDoc(old(stats.View()), p, stat, cas).1
    ensures fresult == if ReplaceDoc(old(stats.View()), p, stat, cas).0 == Success then 0 else -ENOENT
  {
    var status := stats.Replace(p, stat, cas);
    fresult := if status != Success then -ENOENT else 0;
  }

  method UpdateStatAtime(stats: Collection<Stat>, p: Path, now: Timespec) returns (fresult: int)
    modifies stats
    ensures (fresult, stats.View()) == UpdateDoc(old(stats.View()), p, Atime(now))
  {
    var stat, cas;
    fresult, stat, cas := GetStat(stats, p);
    if fresult != 0 {
      return;
    }
    stat := stat.(atime := now);
    fresult := PutBack(stats, p, stat, cas);
  }

  method UpdateStatUtimens(stats: Collection<Stat>, p: Path, tv: Option<(Timespec, Timespec)>, now: Timespec)
    returns (fresult: int)
    modifies stats
    ensures (fresult, stats.View()) == UpdateDoc(old(stats.View()), p, Utimens(tv, now))
  {
    var stat, cas;
    fresult, stat, cas := GetStat(stats, p);
    if fresult != 0 {
      return;
    }
    if tv == None {
      stat := stat.(atime := now);
      stat := stat.(mtime := now);
    } else {
      if tv.value.0.nsec == UTIME_NOW {
        stat := stat.(atime := now);
      } else if tv.value.0.nsec != UTIME_OMIT {
        stat := stat.(atime := tv.value.0);
      }
      if tv.value.1.nsec == UTIME_NOW {
        stat := stat.(mtime := now);
      } else if tv.value.1.nsec != UTIME_OMIT {
        stat := stat.(mtime := tv.value.1);
      }
    }
    fresult := PutBack(stats, p, stat, cas);
  }

  method UpdateStatSize(stats: Collection<Stat>, p: Path, size: nat, now: Timespec) returns (fresult: int)
    modifies stats
    ensures (fresult, stats.View()) == UpdateDoc(old(stats.View()), p, Size(size, now))
  {
    var stat, cas;
    fresult, stat, cas := GetStat(stats, p);
    if fresult != 0 {
      return;
    }
    stat := stat.(mtime := now);
    stat := stat.(size := size);
    fresult := PutBack(stats, p, stat, cas);
  }

  method UpdateStatMode(stats: Collection<Stat>, p: Path, mode: nat) returns (fresult: int)
    modifies stats
    ensures (fresult, stats.View()) == UpdateDoc(old(stats.View()), p, Mode(mode))
  {
    var stat, cas;
    fresult, stat, cas := GetStat(stats, p);
    if fresult != 0 {
      return;
    }
    stat := stat.(mode := mode);
    fresult := PutBack(stats, p, stat, cas);
  }
}
