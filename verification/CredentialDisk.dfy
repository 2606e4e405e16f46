/** The credential directory on a disk that can crash.

    A directory is what has reached the disk plus the operations made since its last sync.
    A crash keeps any subset of those operations, and tears every file not yet synced.
    Each operation may also fail and raise. */
module CredentialDisk {
  import opened Options

  type Content = string
  type Ino = nat

  datatype File = File(content: Content, synced: bool)

  /** The directories of one transaction; `Recovery` and `Stage` carry its token. */
  datatype DirId = Owner | RecoveryRoot | Recovery | Stage

  datatype Name = Auth | Temporary | RollbackCopy | Pending | Complete | Marker | Used | RecoveryEntry | TokenEntry

  /** One atomic directory operation. */
  datatype Op = Op(add: map<Name, Ino>, del: set<Name>) {
    predicate Touches(n: Name) { n in add || n in del }
  }

  function Apply(m: map<Name, Ino>, op: Op): map<Name, Ino> { (m - op.del) + op.add }

  function Look(m: map<Name, Ino>, n: Name): Option<Ino> {
    if n in m then Some(m[n]) else None
  }

  /** What the directory shows now, what has reached the disk, and the operations since. */
  datatype Dir = Dir(now: map<Name, Ino>, durable: map<Name, Ino>, log: seq<Op>) {
    /** No operation since the last sync concerns `n`. */
    predicate Settled(n: Name) { forall op | op in log :: !op.Touches(n) }

    /** `v` is what `n` can be after a crash. */
    ghost predicate MayShow(n: Name, v: Option<Ino>) {
      v == Look(durable, n) || exists op | op in log :: op.Touches(n) && v == Look(op.add, n)
    }

    /** The directory shows nothing now that no crash could leave. */
    ghost predicate Honest() { forall n: Name :: MayShow(n, Look(now, n)) }
  }

  datatype Disk = Disk(files: map<Ino, File>, dirs: map<DirId, Dir>) {
    ghost predicate Wf() { forall id: DirId :: id in dirs && dirs[id].Honest() }

    predicate Mounted() { forall id: DirId :: id in dirs }

    function At(id: DirId, n: Name): Option<Ino>
      requires id in dirs
    {
      Look(dirs[id].now, n)
    }

    /** `n` is safe from a crash: nothing since the last sync concerns it. */
    predicate Fixed(id: DirId, n: Name)
      requires id in dirs
    {
      dirs[id].Settled(n)
    }

    ghost predicate MayShow(id: DirId, n: Name, v: Option<Ino>)
      requires id in dirs
    {
      dirs[id].MayShow(n, v)
    }

    /** `v` is a file whose bytes are safely on disk and equal `content`. */
    predicate Holds(v: Option<Ino>, content: Content) {
      v.Some? && v.value in files && files[v.value] == File(content, true)
    }
  }

  // ---------------------------------------------------------------- crashes

  ghost predicate Survives(m: map<Name, Ino>, log: seq<Op>, m': map<Name, Ino>)
    decreases |log|
  {
    if log == [] then m' == m
    else Survives(m, log[1..], m') || Survives(Apply(m, log[0]), log[1..], m')
  }

  ghost predicate CrashOf(d: Disk, c: Disk) {
    && d.Wf() && c.Wf()
    && (forall id: DirId :: c.dirs[id].log == [] && c.dirs[id].now == c.dirs[id].durable
          && Survives(d.dirs[id].durable, d.dirs[id].log, c.dirs[id].durable))
    && (forall i | i in d.files && d.files[i].synced :: i in c.files && c.files[i] == d.files[i])
  }

  lemma {:induction false} SurvivorMayShow(dir: Dir, m': map<Name, Ino>, n: Name)
    requires Survives(dir.durable, dir.log, m')
    ensures dir.MayShow(n, Look(m', n))
    decreases |dir.log|
  {
    if dir.log != [] {
      var first, rest := dir.log[0], dir.log[1..];
      assert forall op | op in rest :: op in dir.log;
      if Survives(dir.durable, rest, m') {
        SurvivorMayShow(dir.(log := rest), m', n);
      } else {
        SurvivorMayShow(Dir(dir.now, Apply(dir.durable, first), rest), m', n);
      }
    }
  }

  lemma {:induction false} NoneSurvives(m: map<Name, Ino>, log: seq<Op>)
    ensures Survives(m, log, m)
  {
    if log != [] { NoneSurvives(m, log[1..]); }
  }

  lemma {:induction false} OnlyOneSurvives(m: map<Name, Ino>, log: seq<Op>, op: Op)
    requires op in log
    ensures Survives(m, log, Apply(m, op))
  {
    if log[0] == op {
      NoneSurvives(Apply(m, op), log[1..]);
    } else {
      OnlyOneSurvives(m, log[1..], op);
    }
  }

  lemma SomeSurvivorShows(dir: Dir, n: Name, v: Option<Ino>) returns (kept: map<Name, Ino>)
    requires dir.MayShow(n, v)
    ensures Survives(dir.durable, dir.log, kept) && Look(kept, n) == v
  {
    kept := dir.durable;
    NoneSurvives(kept, dir.log);
    if v != Look(kept, n) {
      var op :| op in dir.log && op.Touches(n) && v == Look(op.add, n);
      kept := Apply(kept, op);
      OnlyOneSurvives(dir.durable, dir.log, op);
    }
  }

  /** What a crash leaves when it keeps all that `kept` says and nothing else. */
  function Left(d: Disk, kept: map<DirId, map<Name, Ino>>): Disk
    requires forall id: DirId :: id in kept
  {
    Disk(d.files, map[Owner := Calm(kept[Owner]), RecoveryRoot := Calm(kept[RecoveryRoot]),
                      Recovery := Calm(kept[Recovery]), Stage := Calm(kept[Stage])])
  }

  function Bare(d: Disk): map<DirId, map<Name, Ino>>
    requires d.Mounted()
  {
    map[Owner := d.dirs[Owner].durable, RecoveryRoot := d.dirs[RecoveryRoot].durable,
        Recovery := d.dirs[Recovery].durable, Stage := d.dirs[Stage].durable]
  }

  lemma BareIsDurable(d: Disk)
    requires d.Mounted()
    ensures forall id: DirId :: id in Bare(d) && Bare(d)[id] == d.dirs[id].durable
  {
    forall id: DirId
      ensures id in Bare(d) && Bare(d)[id] == d.dirs[id].durable
    {
      match id case Owner => case RecoveryRoot => case Recovery => case Stage =>
    }
  }

  lemma LeftIsCrash(d: Disk, kept: map<DirId, map<Name, Ino>>)
    requires d.Wf() && forall id: DirId :: id in kept && Survives(d.dirs[id].durable, d.dirs[id].log, kept[id])
    ensures CrashOf(d, Left(d, kept)) && forall id: DirId :: Left(d, kept).dirs[id] == Calm(kept[id])
  {
    var c := Left(d, kept);
    forall id: DirId
      ensures id in c.dirs && c.dirs[id] == Calm(kept[id]) && c.dirs[id].Honest()
    {
      match id case Owner => case RecoveryRoot => case Recovery => case Stage =>
    }
  }

  /** Whatever a name may show after a crash, some crash does leave. */
  lemma ShownIsPossible(d: Disk, id: DirId, n: Name, v: Option<Ino>) returns (c: Disk)
    requires d.Wf() && d.MayShow(id, n, v)
    ensures CrashOf(d, c) && c.files == d.files && c.At(id, n) == v
  {
    var shown := SomeSurvivorShows(d.dirs[id], n, v);
    BareIsDurable(d);
    var kept := Bare(d)[id := shown];
    forall other: DirId
      ensures other in kept && Survives(d.dirs[other].durable, d.dirs[other].log, kept[other])
    {
      NoneSurvives(d.dirs[other].durable, d.dirs[other].log);
    }
    LeftIsCrash(d, kept);
    c := Left(d, kept);
  }

  /** A directory with nothing under way. */
  function Calm(names: map<Name, Ino>): Dir { Dir(names, names, []) }

  /** A settled name is after any crash what it is now. */
  lemma SettledSurvives(d: Disk, c: Disk, id: DirId, n: Name)
    requires CrashOf(d, c) && d.Fixed(id, n)
    ensures c.At(id, n) == d.At(id, n)
  {
    SurvivorMayShow(d.dirs[id], c.dirs[id].durable, n);
  }

  /** A rename that nothing follows is kept whole or lost whole. */
  lemma RenameSurvives(d: Disk, c: Disk, id: DirId, from: Name, to: Name, ino: Ino)
    requires CrashOf(d, c) && from != to
    requires d.dirs[id].log == [Op(map[to := ino], {from})] && from in d.dirs[id].durable
    ensures c.At(id, from).Some? || c.At(id, to).Some?
  {
    SurvivesOne(d.dirs[id].durable, d.dirs[id].log, c.dirs[id].durable);
  }

  lemma SurvivesOne(m: map<Name, Ino>, log: seq<Op>, m': map<Name, Ino>)
    requires |log| == 1 && Survives(m, log, m')
    ensures m' == m || m' == Apply(m, log[0])
  {
    assert log[1..] == [];
    assert Survives(m, [], m') || Survives(Apply(m, log[0]), [], m');
  }

  // ---------------------------------------------------------------- operations

  /** `d'` is `d` with the bytes of one file rewritten. */
  ghost predicate Refilled(d: Disk, d': Disk, ino: Ino) {
    && d.Wf() && d'.Wf() && ino in d.files && ino in d'.files && d'.files == d.files[ino := d'.files[ino]]
    && (forall other, m {:trigger d'.At(other, m)} :: d'.At(other, m) == d.At(other, m))
    && (forall other, m {:trigger d'.Fixed(other, m)} :: d'.Fixed(other, m) == d.Fixed(other, m))
    && (forall other, m, v {:trigger d'.MayShow(other, m, v)} :: d'.MayShow(other, m, v) == d.MayShow(other, m, v))
  }

  function Appended(dir: Dir, op: Op): Dir {
    Dir(Apply(dir.now, op), dir.durable, dir.log + [op])
  }

  function Logged(d: Disk, id: DirId, op: Op): Disk
    requires id in d.dirs
  {
    d.(dirs := d.dirs[id := Appended(d.dirs[id], op)])
  }

  function Synced(d: Disk, id: DirId): Disk
    requires id in d.dirs
  {
    d.(dirs := d.dirs[id := Dir(d.dirs[id].now, d.dirs[id].now, [])])
  }

  /** `d'` is `d` after one more directory operation. */
  ghost predicate Wrote(d: Disk, d': Disk, id: DirId, op: Op) {
    && d.Wf() && d'.Wf()
    && (forall other, m {:trigger d'.At(other, m)} ::
          d'.At(other, m) == if other == id && op.Touches(m) then Look(op.add, m) else d.At(other, m))
    && (forall other, m {:trigger d'.Fixed(other, m)} ::
          d'.Fixed(other, m) == (d.Fixed(other, m) && !(other == id && op.Touches(m))))
    && (forall other, m, v {:trigger d'.MayShow(other, m, v)} ::
          d'.MayShow(other, m, v)
          == (d.MayShow(other, m, v) || (other == id && op.Touches(m) && v == Look(op.add, m))))
  }

  /** `d'` is `d` after a successful sync of one directory. */
  ghost predicate Flushed(d: Disk, d': Disk, id: DirId) {
    && d.Wf() && d'.Wf() && d'.files == d.files
    && (forall other, m {:trigger d'.At(other, m)} :: d'.At(other, m) == d.At(other, m))
    && (forall other, m {:trigger d'.Fixed(other, m)} :: d'.Fixed(other, m) == (other == id || d.Fixed(other, m)))
    && (forall other, m, v {:trigger d'.MayShow(other, m, v)} ::
          d'.MayShow(other, m, v) == if other == id then v == d.At(id, m) else d.MayShow(other, m, v))
  }

  lemma AppendedSettles(dir: Dir, op: Op, n: Name)
    ensures Appended(dir, op).Settled(n) == (dir.Settled(n) && !op.Touches(n))
  {
  }

  lemma AppendedShows(dir: Dir, op: Op, n: Name, v: Option<Ino>)
    ensures Appended(dir, op).MayShow(n, v) == (dir.MayShow(n, v) || (op.Touches(n) && v == Look(op.add, n)))
  {
  }

  lemma LoggedWrote(d: Disk, files: map<Ino, File>, id: DirId, op: Op)
    requires d.Wf()
    ensures Wrote(d, Logged(d.(files := files), id, op), id, op)
  {
    var d' := Logged(d.(files := files), id, op);
    forall other, m
      ensures d'.Fixed(other, m) == (d.Fixed(other, m) && !(other == id && op.Touches(m)))
      ensures d'.At(other, m) == if other == id && op.Touches(m) then Look(op.add, m) else d.At(other, m)
    {
      AppendedSettles(d.dirs[id], op, m);
    }
    forall other, m, v
      ensures d'.MayShow(other, m, v)
              == (d.MayShow(other, m, v) || (other == id && op.Touches(m) && v == Look(op.add, m)))
    {
      AppendedShows(d.dirs[id], op, m, v);
    }
    assert d'.Wf() by {
      forall n: Name
        ensures d'.dirs[id].MayShow(n, Look(d'.dirs[id].now, n))
      {
        assert d.dirs[id].Honest() && d.dirs[id].MayShow(n, Look(d.dirs[id].now, n));
        AppendedShows(d.dirs[id], op, n, Look(d'.dirs[id].now, n));
      }
    }
  }

  lemma SyncedFlushed(d: Disk, id: DirId)
    requires d.Wf()
    ensures Flushed(d, Synced(d, id), id)
  {
  }

  class CredentialDir {
    var disk: Disk
    /** Every state the disk has been in. */
    ghost var visited: set<Disk>
    /** How many operations have failed that need not have. */
    ghost var faults: nat

    constructor (disk: Disk)
      requires disk.Wf()
      ensures this.disk == disk && visited == {} && faults == 0
    {
      this.disk, visited, faults := disk, {}, 0;
    }

    /** Create exclusively; the new file is empty and not yet synced. */
    method Create(id: DirId, n: Name) returns (ok: bool, ino: Ino)
      requires disk.Wf()
      modifies this
      ensures disk.Wf() && visited == old(visited) + {disk}
      ensures !ok ==> disk == old(disk)
      ensures ok ==> old(disk.At(id, n)) == None && ino !in old(disk.files)
      ensures ok ==> disk.files == old(disk.files)[ino := File("", false)]
      ensures ok ==> Wrote(old(disk), disk, id, Op(map[n := ino], {}))
      ensures faults == old(faults) + if !ok && old(disk.At(id, n)) == None then 1 else 0
    {
      var fails: bool := *;
      ok := !fails && disk.At(id, n) == None;
      ino := Unused(disk.files.Keys);
      if ok {
        LoggedWrote(disk, disk.files[ino := File("", false)], id, Op(map[n := ino], {}));
        disk := Logged(disk.(files := disk.files[ino := File("", false)]), id, Op(map[n := ino], {}));
      }
      if fails && old(disk.At(id, n)) == None { faults := faults + 1; }
      visited := visited + {disk};
    }

    /** Write all bytes and sync the file.  A failure may leave any prefix behind. */
    method Fill(ino: Ino, content: Content) returns (ok: bool)
      requires disk.Wf() && ino in disk.files
      modifies this
      ensures disk.Wf() && visited == old(visited) + {disk}
      ensures Refilled(old(disk), disk, ino)
      ensures if ok then disk.files[ino] == File(content, true) else !disk.files[ino].synced
      ensures faults == old(faults) + if ok then 0 else 1
    {
      var fails: bool := *;
      var written: nat :| written <= |content|;
      ok := !fails;
      disk := disk.(files := disk.files[ino := if ok then File(content, true) else File(content[..written], false)]);
      if fails { faults := faults + 1; }
      visited := visited + {disk};
    }

    method Sync(id: DirId) returns (ok: bool)
      requires disk.Wf()
      modifies this
      ensures disk.Wf() && visited == old(visited) + {disk}
      ensures !ok ==> disk == old(disk)
      ensures ok ==> Flushed(old(disk), disk, id) && disk.dirs[id].log == []
      ensures faults == old(faults) + if ok then 0 else 1
    {
      var fails: bool := *;
      ok := !fails;
      SyncedFlushed(disk, id);
      if ok { disk := Synced(disk, id); }
      if fails { faults := faults + 1; }
      visited := visited + {disk};
    }

    /** Atomic replacement within one directory. */
    method Replace(id: DirId, from: Name, to: Name) returns (ok: bool)
      requires disk.Wf() && from != to
      modifies this
      ensures disk.Wf() && visited == old(visited) + {disk}
      ensures !ok ==> disk == old(disk)
      ensures ok ==> old(disk.At(id, from)).Some?
      ensures ok ==> disk.files == old(disk.files)
      ensures ok ==> Wrote(old(disk), disk, id, Op(map[to := old(disk.At(id, from)).value], {from}))
      ensures ok ==> disk == Logged(old(disk), id, Op(map[to := old(disk.At(id, from)).value], {from}))
      ensures faults == old(faults) + if !ok && old(disk.At(id, from)).Some? then 1 else 0
    {
      var fails: bool := *;
      ok := !fails && disk.At(id, from).Some?;
      if ok {
        LoggedWrote(disk, disk.files, id, Op(map[to := disk.At(id, from).value], {from}));
        disk := Logged(disk, id, Op(map[to := disk.At(id, from).value], {from}));
      }
      if fails && old(disk.At(id, from)).Some? { faults := faults + 1; }
      visited := visited + {disk};
    }

    /** A second name for the same file; never replaces. */
    method Link(id: DirId, from: Name, to: Name) returns (ok: bool)
      requires disk.Wf()
      modifies this
      ensures disk.Wf() && visited == old(visited) + {disk}
      ensures !ok ==> disk == old(disk)
      ensures ok ==> old(disk.At(id, from)).Some? && old(disk.At(id, to)) == None
      ensures ok ==> disk.files == old(disk.files)
      ensures ok ==> Wrote(old(disk), disk, id, Op(map[to := old(disk.At(id, from)).value], {}))
      ensures faults == old(faults)
                        + if !ok && old(disk.At(id, from)).Some? && old(disk.At(id, to)) == None then 1 else 0
    {
      var fails: bool := *;
      ok := !fails && disk.At(id, from).Some? && disk.At(id, to) == None;
      if ok {
        LoggedWrote(disk, disk.files, id, Op(map[to := disk.At(id, from).value], {}));
        disk := Logged(disk, id, Op(map[to := disk.At(id, from).value], {}));
      }
      if fails && old(disk.At(id, from)).Some? && old(disk.At(id, to)) == None { faults := faults + 1; }
      visited := visited + {disk};
    }

    method Unlink(id: DirId, n: Name) returns (ok: bool)
      requires disk.Wf()
      modifies this
      ensures disk.Wf() && visited == old(visited) + {disk}
      ensures !ok ==> disk == old(disk)
      ensures ok ==> disk.files == old(disk.files)
      ensures ok ==> Wrote(old(disk), disk, id, Op(map[], {n}))
      ensures faults == old(faults) + if !ok && old(disk.At(id, n)).Some? then 1 else 0
    {
      var fails: bool := *;
      ok := !fails && disk.At(id, n).Some?;
      if ok {
        LoggedWrote(disk, disk.files, id, Op(map[], {n}));
        disk := Logged(disk, id, Op(map[], {n}));
      }
      if fails && old(disk.At(id, n)).Some? { faults := faults + 1; }
      visited := visited + {disk};
    }
  }

  /** An inode number not in use. */
  function Unused(used: set<Ino>): (i: Ino)
    ensures i !in used
  {
    UnusedFrom(used, 0, used)
  }

  function UnusedFrom(used: set<Ino>, i: Ino, above: set<Ino>): (r: Ino)
    requires above <= used && forall k | k in used && k >= i :: k in above
    ensures r !in used
    decreases |above|
  {
    if i in used then UnusedFrom(used, i + 1, above - {i}) else i
  }
}
