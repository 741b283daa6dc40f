/** Any number of clients updating file attributes at once. Each update is two store steps, a get and a
    replace under the CAS that the get returned, and the steps of different clients interleave freely,
    with files created and removed in between. */
module CasRuns {
  import opened Paths
  import opened Store
  import opened Stats

  type ClientId = nat

  /** An update between its two steps: the local copy and the CAS it was read under. `since` only records
      how much had been acknowledged when the copy was read. */
  datatype Pending = Pending(path: Path, copy: Stat, cas: nat, update: Update, since: nat)

  /** What the collection acknowledged, in the order it did. */
  datatype Event = Inserted(path: Path, stat: Stat) | Updated(path: Path, update: Update) | Removed(path: Path)

  datatype World = World(stats: Coll<Stat>, pending: map<ClientId, Pending>, log: seq<Event>)

  datatype Step =
    | Fetch(client: ClientId, path: Path, update: Update)
    | Commit(client: ClientId)
    | GiveUp(client: ClientId)
    | Create(path: Path, stat: Stat)
    | Remove(path: Path)

  const INITIAL: World := World(Coll(map[], 0), map[], [])

  /** get_stat: a missing document ends the update at once. */
  function FetchStep(w: World, client: ClientId, path: Path, update: Update): World {
    if path in w.stats.docs then
      var doc := w.stats.docs[path];
      w.(pending := w.pending[client := Pending(path, doc.value, doc.cas, update, |w.log|)])
    else w
  }

  /** The local copy is changed and stored with LCB_STORE_REPLACE and the CAS; success is logged. */
  function CommitStep(w: World, client: ClientId): World {
    if client !in w.pending then w
    else
      var p := w.pending[client];
      var r := ReplaceDoc(w.stats, p.path, ApplyUpdate(p.update, p.copy), p.cas);
      World(r.1, w.pending - {client}, if r.0 == Success then w.log + [Updated(p.path, p.update)] else w.log)
  }

  function CreateStep(w: World, path: Path, stat: Stat): World {
    var r := InsertDoc(w.stats, path, stat);
    w.(stats := r.1, log := if r.0 == Success then w.log + [Inserted(path, stat)] else w.log)
  }

  function RemoveStep(w: World, path: Path): World {
    var r := RemoveDoc(w.stats, path);
    w.(stats := r.1, log := if r.0 == Success then w.log + [Removed(path)] else w.log)
  }

  function Take(w: World, step: Step): World {
    match step
    case Fetch(client, path, update) => if client in w.pending then w else FetchStep(w, client, path, update)
    case Commit(client) => CommitStep(w, client)
    case GiveUp(client) => w.(pending := w.pending - {client})
    case Create(path, stat) => CreateStep(w, path, stat)
    case Remove(path) => RemoveStep(w, path)
  }

  function TakeAll(w: World, steps: seq<Step>): World {
    if steps == [] then w else Take(TakeAll(w, steps[..|steps| - 1]), steps[|steps| - 1])
  }

  /** The acknowledged events applied one after another, each to the result of the one before. */
  function Replay(log: seq<Event>): map<Path, Stat> {
    if log == [] then map[]
    else
      var m := Replay(log[..|log| - 1]);
      match log[|log| - 1]
      case Inserted(path, stat) => m[path := stat]
      case Updated(path, update) => if path in m then m[path := ApplyUpdate(update, m[path])] else m
      case Removed(path) => m - {path}
  }

  /** Something happened to `path` after the first `since` events. */
  predicate Touched(log: seq<Event>, since: nat, path: Path) {
    exists i :: since <= i < |log| && log[i].path == path
  }

  /** An untouched path still has the document the copy was read from; a touched one has lost it for good,
      because every CAS is larger than all before it. No CAS is 0, which would switch the check off. */
  ghost predicate PendingOk(w: World, p: Pending) {
    && 0 < p.cas <= w.stats.clock && p.since <= |w.log|
    && if Touched(w.log, p.since, p.path)
       then p.path in w.stats.docs ==> w.stats.docs[p.path].cas > p.cas
       else p.path in w.stats.docs && w.stats.docs[p.path] == Doc(p.copy, p.cas)
  }

  ghost predicate WorldOk(w: World) {
    && CollOk(w.stats)
    && Values(w.stats) == Replay(w.log)
    && forall c :: c in w.pending ==> PendingOk(w, w.pending[c])
  }

  lemma TouchedSnoc(log: seq<Event>, e: Event, since: nat, path: Path)
    requires since <= |log|
    ensures Touched(log + [e], since, path) <==> e.path == path || Touched(log, since, path)
  {
    if Touched(log, since, path) {
      var i :| since <= i < |log| && log[i].path == path;
      assert (log + [e])[i].path == path;
    }
    if e.path == path { assert (log + [e])[|log|].path == path; }
  }

  /** Acknowledging `e` keeps the invariant when it writes a fresh CAS or removes the document. */
  lemma LoggedOk(w: World, w': World, e: Event)
    requires WorldOk(w)
    requires w'.log == w.log + [e] && w.stats.clock <= w'.stats.clock && CollOk(w'.stats)
    requires w'.pending.Keys <= w.pending.Keys && forall c :: c in w'.pending ==> w'.pending[c] == w.pending[c]
    requires e.path in w'.stats.docs ==> w'.stats.docs[e.path].cas > w.stats.clock
    requires w'.stats.docs - {e.path} == w.stats.docs - {e.path}
    requires Values(w'.stats) == Replay(w'.log)
    ensures WorldOk(w')
  {
    forall c | c in w'.pending
      ensures PendingOk(w', w'.pending[c])
    {
      var p := w.pending[c];
      assert PendingOk(w, p);
      TouchedSnoc(w.log, e, p.since, p.path);
      assert p.path != e.path && p.path in w'.stats.docs ==>
          p.path in w'.stats.docs - {e.path} && w'.stats.docs[p.path] == (w'.stats.docs - {e.path})[p.path];
      assert p.path != e.path && p.path in w.stats.docs ==>
          p.path in w.stats.docs - {e.path} && w.stats.docs[p.path] == (w.stats.docs - {e.path})[p.path];
    }
  }

  lemma ReplaySnoc(log: seq<Event>, e: Event)
    ensures (log + [e])[..|log|] == log
  {
  }

  lemma PutOk(c: Coll<Stat>, path: Path, stat: Stat)
    requires CollOk(c)
    ensures CollOk(Put(c, path, stat))
    ensures Values(Put(c, path, stat)) == Values(c)[path := stat]
    ensures Put(c, path, stat).docs - {path} == c.docs - {path}
  {
  }

  lemma CommitOk(w: World, client: ClientId)
    requires WorldOk(w)
    ensures WorldOk(CommitStep(w, client))
  {
    var w' := CommitStep(w, client);
    if client in w.pending {
      var p := w.pending[client];
      assert PendingOk(w, p);
      var v := ApplyUpdate(p.update, p.copy);
      if ReplaceDoc(w.stats, p.path, v, p.cas).0 == Success {
        PutOk(w.stats, p.path, v);
        ReplaySnoc(w.log, Updated(p.path, p.update));
        assert w.stats.docs[p.path].value == Values(w.stats)[p.path];
        LoggedOk(w, w', Updated(p.path, p.update));
      } else {
        FewerPending(w, w');
      }
    }
  }

  lemma FewerPending(w: World, w': World)
    requires WorldOk(w) && w'.stats == w.stats && w'.log == w.log
    requires w'.pending.Keys <= w.pending.Keys && forall c :: c in w'.pending ==> w'.pending[c] == w.pending[c]
    ensures WorldOk(w')
  {
  }

  lemma CreateOk(w: World, path: Path, stat: Stat)
    requires WorldOk(w)
    ensures WorldOk(CreateStep(w, path, stat))
  {
    if path in w.stats.docs {
      FewerPending(w, CreateStep(w, path, stat));
    } else {
      PutOk(w.stats, path, stat);
      ReplaySnoc(w.log, Inserted(path, stat));
      LoggedOk(w, CreateStep(w, path, stat), Inserted(path, stat));
    }
  }

  lemma RemoveOk(w: World, path: Path)
    requires WorldOk(w)
    ensures WorldOk(RemoveStep(w, path))
  {
  }

  lemma FetchOk(w: World, client: ClientId, path: Path, update: Update)
    requires WorldOk(w) && client !in w.pending
    ensures WorldOk(FetchStep(w, client, path, update))
  {
  }

  lemma TakeOk(w: World, step: Step)
    requires WorldOk(w)
    ensures WorldOk(Take(w, step))
  {
    match step
    case Fetch(client, path, update) => if client !in w.pending { FetchOk(w, client, path, update); }
    case Commit(client) => CommitOk(w, client);
    case GiveUp(client) => FewerPending(w, Take(w, step));
    case Create(path, stat) => CreateOk(w, path, stat);
    case Remove(path) => RemoveOk(w, path);
  }

  /** No lost update: after every interleaving, each stored stat is what the acknowledged updates give
      when they are applied one after another in commit order. */
  lemma {:induction false} NoLostUpdate(steps: seq<Step>)
    ensures WorldOk(TakeAll(INITIAL, steps))
    ensures Values(TakeAll(INITIAL, steps).stats) == Replay(TakeAll(INITIAL, steps).log)
  {
    if steps == [] {
    } else {
      NoLostUpdate(steps[..|steps| - 1]);
      TakeOk(TakeAll(INITIAL, steps[..|steps| - 1]), steps[|steps| - 1]);
    }
  }

  /** In every reachable world an update is acknowledged exactly when nothing was acknowledged for its
      path since it read its copy. */
  lemma CommitSucceedsIff(steps: seq<Step>, client: ClientId)
    requires client in TakeAll(INITIAL, steps).pending
    ensures var w := TakeAll(INITIAL, steps);
            var p := w.pending[client];
            |CommitStep(w, client).log| == |w.log| + 1 <==> !Touched(w.log, p.since, p.path)
  {
    NoLostUpdate(steps);
    var w := TakeAll(INITIAL, steps);
    assert PendingOk(w, w.pending[client]);
  }

  /** A client that nobody interrupts does in its two steps what the update functions of stats.c do. */
  lemma {:induction false} AloneIsUpdateDoc(steps: seq<Step>, client: ClientId, path: Path, update: Update)
    requires client !in TakeAll(INITIAL, steps).pending
    ensures var w := TakeAll(INITIAL, steps);
            var w' := Take(Take(w, Fetch(client, path, update)), Commit(client));
            var (fresult, stats) := UpdateDoc(w.stats, path, update);
            && w'.stats == stats && w'.pending == w.pending
            && w'.log == if fresult == 0 then w.log + [Updated(path, update)] else w.log
  {
    var w := TakeAll(INITIAL, steps);
    assert WorldOk(w) by { NoLostUpdate(steps); }
    var w' := Take(Take(w, Fetch(client, path, update)), Commit(client));
    assert w'.pending == w.pending;
  }

  // ----- field by field

  /** The mode set by the latest acknowledged chmod of the current file, or the one it was created with. */
  function LastMode(log: seq<Event>, p: Path): Option<nat> {
    if log == [] then None
    else
      var before := LastMode(log[..|log| - 1], p);
      match log[|log| - 1]
      case Inserted(q, stat) => if q == p then Some(stat.mode) else before
      case Removed(q) => if q == p then None else before
      case Updated(q, Mode(m)) => if q == p && before != None then Some(m) else before
      case Updated(_, _) => before
  }

  /** The size set by the latest acknowledged size change, or the one the file was created with. */
  function LastSize(log: seq<Event>, p: Path): Option<nat> {
    if log == [] then None
    else
      var before := LastSize(log[..|log| - 1], p);
      match log[|log| - 1]
      case Inserted(q, stat) => if q == p then Some(stat.size) else before
      case Removed(q) => if q == p then None else before
      case Updated(q, Size(n, _)) => if q == p && before != None then Some(n) else before
      case Updated(_, _) => before
  }

  /** A timestamp given to utimensat(2): the clock, the value as it was, or itself. */
  function Given(ts: Timespec, before: Timespec, now: Timespec): Timespec {
    if ts.nsec == -1 then now else if ts.nsec == -2 then before else ts
  }

  /** The access time: that of the latest acknowledged read or utimensat, or of the creation. */
  function LastAtime(log: seq<Event>, p: Path): Option<Timespec> {
    if log == [] then None
    else
      var before := LastAtime(log[..|log| - 1], p);
      match log[|log| - 1]
      case Inserted(q, stat) => if q == p then Some(stat.atime) else before
      case Removed(q) => if q == p then None else before
      case Updated(q, update) =>
        if q != p || before == None then before
        else
          match update
          case Atime(now) => Some(now)
          case Utimens(None, now) => Some(now)
          case Utimens(Some(tv), now) => Some(Given(tv.0, before.value, now))
          case _ => before
  }

  /** The modification time: that of the latest acknowledged size change or utimensat, or of the creation. */
  function LastMtime(log: seq<Event>, p: Path): Option<Timespec> {
    if log == [] then None
    else
      var before := LastMtime(log[..|log| - 1], p);
      match log[|log| - 1]
      case Inserted(q, stat) => if q == p then Some(stat.mtime) else before
      case Removed(q) => if q == p then None else before
      case Updated(q, update) =>
        if q != p || before == None then before
        else
          match update
          case Size(_, now) => Some(now)
          case Utimens(None, now) => Some(now)
          case Utimens(Some(tv), now) => Some(Given(tv.1, before.value, now))
          case _ => before
  }

  /** The change time is that of the creation: no update sets it. */
  function FirstCtime(log: seq<Event>, p: Path): Option<Timespec> {
    if log == [] then None
    else
      match log[|log| - 1]
      case Inserted(q, stat) => if q == p then Some(stat.ctime) else FirstCtime(log[..|log| - 1], p)
      case Removed(q) => if q == p then None else FirstCtime(log[..|log| - 1], p)
      case Updated(_, _) => FirstCtime(log[..|log| - 1], p)
  }

  lemma {:induction false} ReplayTimes(log: seq<Event>, p: Path)
    ensures p in Replay(log) <==> LastAtime(log, p) != None
    ensures p in Replay(log) <==> LastMtime(log, p) != None
    ensures p in Replay(log) <==> FirstCtime(log, p) != None
    ensures p in Replay(log) ==> Replay(log)[p].atime == LastAtime(log, p).value
    ensures p in Replay(log) ==> Replay(log)[p].mtime == LastMtime(log, p).value
    ensures p in Replay(log) ==> Replay(log)[p].ctime == FirstCtime(log, p).value
  {
    if log != [] {
      ReplayTimes(log[..|log| - 1], p);
    }
  }

  /** The same for the three times. */
  lemma TimesSurvive(steps: seq<Step>, p: Path)
    ensures var w := TakeAll(INITIAL, steps);
            && (p in w.stats.docs <==> LastAtime(w.log, p) != None)
            && (p in w.stats.docs <==> LastMtime(w.log, p) != None)
            && (p in w.stats.docs <==> FirstCtime(w.log, p) != None)
            && (p in w.stats.docs ==>
                  var stat := w.stats.docs[p].value;
                  && stat.atime == LastAtime(w.log, p).value && stat.mtime == LastMtime(w.log, p).value
                  && stat.ctime == FirstCtime(w.log, p).value)
  {
    var w := TakeAll(INITIAL, steps);
    NoLostUpdate(steps);
    ReplayTimes(w.log, p);
    assert p in w.stats.docs ==> Values(w.stats)[p] == w.stats.docs[p].value;
  }

  /** What is acknowledged when a file is created or removed: creating an absent path stores what was asked
      under a CAS never used before, removing a present one leaves none; otherwise nothing happens. */
  lemma CreateAndRemove(w: World, path: Path, stat: Stat)
    ensures var w' := Take(w, Create(path, stat));
            if path in w.stats.docs then w' == w
            else
              && w'.stats.docs.Keys == w.stats.docs.Keys + {path} && w'.stats.docs[path].value == stat
              && w'.stats.docs[path].cas > w.stats.clock
              && (forall q :: q in w.stats.docs ==> w'.stats.docs[q] == w.stats.docs[q])
              && w'.log == w.log + [Inserted(path, stat)] && w'.pending == w.pending
    ensures var w' := Take(w, Remove(path));
            if path !in w.stats.docs then w' == w
            else
              && w'.stats.docs.Keys == w.stats.docs.Keys - {path}
              && (forall q :: q in w'.stats.docs ==> w'.stats.docs[q] == w.stats.docs[q])
              && w'.log == w.log + [Removed(path)] && w'.pending == w.pending
  {
  }

  lemma {:induction false} ReplayFields(log: seq<Event>, p: Path)
    ensures p in Replay(log) <==> LastMode(log, p) != None
    ensures p in Replay(log) <==> LastSize(log, p) != None
    ensures p in Replay(log) ==> Replay(log)[p].mode == LastMode(log, p).value
    ensures p in Replay(log) ==> Replay(log)[p].size == LastSize(log, p).value
  {
    if log != [] {
      ReplayFields(log[..|log| - 1], p);
    }
  }

  /** A chmod or size change that was acknowledged is never undone by another client's stale write: the
      stored mode and size are those of the latest acknowledged change. */
  lemma FieldsSurvive(steps: seq<Step>, p: Path)
    ensures var w := TakeAll(INITIAL, steps);
            && (p in w.stats.docs <==> LastMode(w.log, p) != None)
            && (p in w.stats.docs <==> LastSize(w.log, p) != None)
            && (p in w.stats.docs ==> w.stats.docs[p].value.mode == LastMode(w.log, p).value)
            && (p in w.stats.docs ==> w.stats.docs[p].value.size == LastSize(w.log, p).value)
  {
    var w := TakeAll(INITIAL, steps);
    NoLostUpdate(steps);
    ReplayFields(w.log, p);
    assert p in w.stats.docs ==> Values(w.stats)[p] == w.stats.docs[p].value;
  }
}
