/** Moving a vendor's persistent state out of an old runtime home into canonical state:
    copy, exchange two directories, move the originals to recovery, link, commit.
    Every operation may fail, those of the rollback included. */
module Migration {
  import opened Options
  import opened Paths
  import opened StagedTree
  import opened TreeDiff

  datatype Entry = Entry(path: Path, directory: bool)

  /** Where the recovery directory keeps the old canonical tree. */
  const BEFORE: Path := ".canonical-before"

  /** `stage` is the vendor tree inside the staging directory. */
  datatype Disk = Disk(runtime: Tree, canonical: Tree, stage: Option<Tree>, recovery: Option<Tree>)

  datatype Outcome =
    | NothingToDo
    | Raised      // rolled back completely
    | Incomplete  // the rollback failed too
    | Migrated

  // ---------------------------------------------------------------- what is materialized

  /** Only plain files and directories. */
  predicate Plain(t: Tree) { forall p | p in t :: !t[p].LinkNode? }

  predicate ValidAt(t: Tree, e: Entry)
    requires e.path in t
  {
    if e.directory then t[e.path] == DirNode && Plain(Sub(t, e.path)) else t[e.path].FileNode?
  }

  predicate Acceptable(t: Tree, e: Entry) {
    && !ParentsBlocked(t, e.path)
    && (e.path in t ==> if t[e.path].LinkNode? then t[e.path] == LinkNode(e.path) else ValidAt(t, e))
  }

  /** The entries that are there and are not yet links. */
  function Owned(t: Tree, manifest: seq<Entry>): seq<Path> {
    if manifest == [] then []
    else
      var e := manifest[|manifest| - 1];
      Owned(t, manifest[..|manifest| - 1]) + if e.path in t && !t[e.path].LinkNode? then [e.path] else []
  }

  method Materialized(t: Tree, manifest: seq<Entry>) returns (r: Option<seq<Path>>)
    ensures r.Some? <==> forall e | e in manifest :: Acceptable(t, e)
    ensures r.Some? ==> r.value == Owned(t, manifest)
    ensures r.Some? <==> forall e | e in manifest :: Fits(t, e)
    ensures r.Some? ==> forall p :: p in r.value <==> exists e :: e in manifest && e.path == p && Present(t, e)
  {
    AllFitIff(t, manifest);
    if forall e | e in manifest :: Fits(t, e) { OwnedIsPresent(t, manifest); }
    var entries := [];
    for i := 0 to |manifest|
      invariant entries == Owned(t, manifest[..i])
      invariant forall k | 0 <= k < i :: Acceptable(t, manifest[k])
    {
      var e := manifest[i];
      assert manifest[..i + 1][..i] == manifest[..i];
      if ParentsBlocked(t, e.path) {
        assert !Acceptable(t, e);
        return None;
      }
      if e.path in t {
        if t[e.path].LinkNode? {
          if t[e.path].target != e.path {
            assert !Acceptable(t, e);
            return None;
          }
        } else {
          if !ValidAt(t, e) {
            assert !Acceptable(t, e);
            return None;
          }
          entries := entries + [e.path];
        }
      }
    }
    assert manifest[..|manifest|] == manifest;
    return Some(entries);
  }

  function PathsOf(manifest: seq<Entry>): seq<Path> {
    seq(|manifest|, i requires 0 <= i < |manifest| => manifest[i].path)
  }

  lemma {:induction false} OwnedHolds(t: Tree, manifest: seq<Entry>, p: Path)
    ensures p in Owned(t, manifest) <==> p in PathsOf(manifest) && p in t && !t[p].LinkNode?
  {
    if manifest != [] {
      var n := |manifest| - 1;
      OwnedHolds(t, manifest[..n], p);
      assert PathsOf(manifest) == PathsOf(manifest[..n]) + [manifest[n].path];
    }
  }

  predicate Apart(s: set<Path>) { forall a, b | a in s && b in s && a != b :: !Under(a, b) }

  lemma {:induction false} OwnedApart(t: Tree, manifest: seq<Entry>)
    requires PrefixFree(PathsOf(manifest))
    ensures PrefixFree(Owned(t, manifest))
  {
    if manifest != [] {
      var n := |manifest| - 1;
      var e, rest := manifest[n].path, PathsOf(manifest[..n]);
      assert PathsOf(manifest) == rest + [e];
      forall i, j | 0 <= i < n && 0 <= j < n && i != j
        ensures !Under(rest[i], rest[j])
      {
        assert PathsOf(manifest)[i] == rest[i] && PathsOf(manifest)[j] == rest[j];
      }
      OwnedApart(t, manifest[..n]);
      forall p | p in Owned(t, manifest[..n])
        ensures !Under(p, e) && !Under(e, p)
      {
        OwnedHolds(t, manifest[..n], p);
        var i :| 0 <= i < n && rest[i] == p;
        assert PathsOf(manifest)[i] == p && PathsOf(manifest)[n] == e;
      }
    }
  }

  // ---------------------------------------------------------------- what is conserved

  /** Nothing in canonical state may be in the way of an entry. */
  predicate Conflicts(canonical: Tree, e: Path) { e in canonical || ParentsBlocked(canonical, e) }

  /** What one upgrade starts from, and what its copy of the canonical tree brings into the
      stage: nothing compares that copy with the tree it was made from. */
  datatype Job = Job(runtime: Tree, canonical: Tree, entries: seq<Path>, copied: Tree) {
    function All(): set<Path> { set e | e in entries }

    ghost predicate Good() {
      && Rooted(runtime) && Rooted(canonical) && Apart(All())
      && (forall e | e in entries :: e in runtime && !runtime[e].LinkNode? && !Conflicts(canonical, e))
      && Sparing(copied, entries)
    }
  }

  /** A tree with nothing in the way of the entries. */
  predicate Sparing(t: Tree, entries: seq<Path>) { Rooted(t) && forall e | e in entries :: !Conflicts(t, e) }

  /** A tree taken whole to below `e`. */
  function Planted(t: Tree, e: Path): Tree {
    map q | q in {e} + (set p | p in t :: e + "/" + p) :: if q == e then DirNode else t[Tail(e, q)]
  }

  function Tail(e: Path, q: Path): Path { if Extends(e, q) then q[|e| + 1..] else "" }

  /** `c` is found whole below `e`. */
  ghost predicate PlantedAt(t: Tree, e: Path, c: Tree) {
    && e in t && t[e] == DirNode
    && forall p {:trigger p in c} :: (p in c <==> e + "/" + p in t) && (p in c ==> t[e + "/" + p] == c[p])
  }

  ghost predicate EntryKept(d: Disk, j: Job, e: Path) {
    || Sub(d.runtime, e) == Sub(j.runtime, e)
    || (d.recovery.Some? && Sub(d.recovery.value, e) == Sub(j.runtime, e))
  }

  ghost predicate SetAside(d: Disk, j: Job) {
    d.recovery.Some? && PlantedAt(d.recovery.value, BEFORE, j.canonical)
  }

  ghost predicate CanonicalKept(d: Disk, j: Job) {
    d.canonical == j.canonical || d.stage == Some(j.canonical) || SetAside(d, j)
  }

  /** The one entry the commit itself overwrites: an empty directory of the reserved name,
      when there is an old canonical tree to set aside. */
  predicate Overwritten(j: Job, e: Path) {
    e == BEFORE && Sub(j.runtime, e) == map[e := DirNode] && j.canonical != map[]
  }

  /** Nothing of the old state is lost. */
  ghost predicate Conserves(d: Disk, j: Job) {
    && CanonicalKept(d, j)
    && (forall e | e in j.entries :: EntryKept(d, j, e) || (SetAside(d, j) && Overwritten(j, e)))
  }

  ghost predicate ConservingVisits(before: set<Disk>, after: set<Disk>, j: Job) {
    forall d | d in after && d !in before :: Conserves(d, j)
  }

  // ---------------------------------------------------------------- entries out of the runtime

  /** `e` is safe in recovery, and at its runtime path is nothing or the link. */
  ghost predicate Held(d: Disk, j: Job, e: Path)
    requires d.recovery.Some?
  {
    && Sub(d.recovery.value, e) == Sub(j.runtime, e)
    && (Sub(d.runtime, e) == map[] || Sub(d.runtime, e) == map[e := LinkNode(e)])
  }

  predicate LeadsToEntry(j: Job, p: Path) { exists e | e in j.entries :: p in Ancestors(e) }

  /** Recovery holds what the entries `out` hold, and directories that lead to entries. */
  ghost predicate OnlySaved(t: Tree, j: Job, out: set<Path>) {
    forall p | p in t && !UnderAny(out, p) :: t[p] == DirNode && LeadsToEntry(j, p)
  }

  /** Exactly the entries `out` have left the runtime. */
  ghost predicate Out(d: Disk, j: Job, out: set<Path>) {
    && d.recovery.Some? && out <= j.All()
    && AlikeOff(d.runtime, j.runtime, out) && OnlySaved(d.recovery.value, j, out)
    && (forall e | e in out :: Held(d, j, e))
    && (forall e | e in j.entries && e !in out :: Sub(d.recovery.value, e) == map[])
  }

  lemma NoneOut(d: Disk, j: Job)
    requires d.recovery == Some(map[]) && d.runtime == j.runtime
    ensures Out(d, j, {})
  {
  }

  lemma StaysInRuntime(d: Disk, j: Job, out: set<Path>, e: Path)
    requires j.Good() && Out(d, j, out) && e in j.entries && e !in out
    ensures Sub(d.runtime, e) == Sub(j.runtime, e)
  {
    AlikeKeepsOthers(d.runtime, j.runtime, out, e);
  }

  lemma OutConserves(d: Disk, j: Job, out: set<Path>)
    requires j.Good() && Out(d, j, out) && CanonicalKept(d, j)
    ensures Conserves(d, j)
  {
    forall e | e in j.entries
      ensures EntryKept(d, j, e)
    {
      if e !in out { StaysInRuntime(d, j, out, e); }
    }
  }

  lemma NothingOutIsWhole(d: Disk, j: Job)
    requires Out(d, j, {})
    ensures d.runtime == j.runtime
  {
    SamePiecewise(d.runtime, j.runtime, {});
  }

  predicate ParentsReady(t: Tree, e: Path) { forall a | a in Ancestors(e) :: a in t && t[a] == DirNode }

  lemma ParentsKeepOut(d: Disk, j: Job, out: set<Path>, e: Path, made: set<Path>, d': Disk)
    requires j.Good() && Out(d, j, out) && e in j.entries
    requires d' == d.(recovery := Some(WithSome(d.recovery.value, e, made)))
    ensures Out(d', j, out)
  {
    ExtendsAt(e, e);
    forall x | x in j.entries
      ensures Sub(d'.recovery.value, x) == Sub(d.recovery.value, x)
    {
      assert x != e ==> !Under(x, e);
      ParentsMiss(d.recovery.value, e, made, x);
    }
    forall x | x in out
      ensures Held(d', j, x)
    {
      assert Held(d, j, x);
    }
  }

  /** No entry that has left lies above a parent of an entry. */
  lemma ParentsStayOut(j: Job, out: set<Path>, e: Path, a: Path)
    requires j.Good() && out <= j.All() && e in j.entries && a in Ancestors(e)
    ensures !UnderAny(out, a)
  {
    AncestorsAbove(e, a);
    if x :| x in out && Under(x, a) {
      UnderTransitive(x, a, e);
      ExtendsAt(a, e);
      ExtendsAt(e, a);
    }
  }

  /** In the runtime every parent of an entry is there all along. */
  lemma RuntimeParentsThere(runtime: Tree, j: Job, out: set<Path>, e: Path)
    requires j.Good() && AlikeOff(runtime, j.runtime, out) && out <= j.All() && e in j.entries
    ensures ParentsReady(runtime, e)
  {
    forall a | a in Ancestors(e)
      ensures a in runtime && runtime[a] == DirNode
    {
      assert a in j.runtime && j.runtime[a] == DirNode;
      ParentsStayOut(j, out, e, a);
      assert AlikeAt(runtime, j.runtime, a);
    }
  }

  /** Nothing in recovery is in the way of an entry that is still to come. */
  lemma RecoveryIsClear(d: Disk, j: Job, out: set<Path>, e: Path)
    requires j.Good() && Out(d, j, out) && e in j.entries
    ensures !ParentsBlocked(d.recovery.value, e)
  {
    forall a | a in Ancestors(e) && a in d.recovery.value
      ensures d.recovery.value[a] == DirNode
    {
      ParentsStayOut(j, out, e, a);
    }
  }

  /** A subtree put at `e` in place of what was there. */
  function Placed(t: Tree, sub: Tree, e: Path): Tree { Without(t, e) + sub }

  /** A rename takes the place only of nothing, of a file by a file, of an empty directory
      by a directory. */
  predicate Replaceable(t: Tree, e: Path, node: Node) {
    if node == DirNode then Sub(t, e) == map[] || Sub(t, e) == map[e := DirNode]
    else e in t ==> t[e] != DirNode
  }

  /** A rename of `e` from one tree to the other can succeed. */
  predicate MayMove(from: Tree, to: Tree, e: Path) {
    e in from && ParentsReady(to, e) && Replaceable(to, e, from[e])
  }

  lemma PlacedSubs(t: Tree, sub: Tree, e: Path, other: Path)
    requires forall p | p in sub :: Under(e, p)
    ensures Sub(Placed(t, sub, e), e) == sub && Without(Placed(t, sub, e), e) == Without(t, e)
    ensures !Under(e, other) && !Under(other, e) ==> Sub(Placed(t, sub, e), other) == Sub(t, other)
  {
    if !Under(e, other) && !Under(other, e) {
      forall p | Under(other, p)
        ensures !Under(e, p)
      {
        if Under(e, p) { AboveComparable(e, other, p); }
      }
    }
  }

  lemma MovedOut(d: Disk, j: Job, out: set<Path>, e: Path, d': Disk)
    requires j.Good() && Out(d, j, out) && e in j.entries && e !in out
    requires d'.runtime == Placed(d.runtime, map[], e)
    requires d'.recovery == Some(Placed(d.recovery.value, Sub(d.runtime, e), e))
    ensures Out(d', j, out + {e})
  {
    StaysInRuntime(d, j, out, e);
    PlacedSubs(d.runtime, map[], e, e);
    AlikeAdds(d.runtime, j.runtime, d'.runtime, out, e);
    forall x | x in j.entries
      ensures Sub(d'.recovery.value, x) == if x == e then Sub(j.runtime, e) else Sub(d.recovery.value, x)
      ensures x != e ==> Sub(d'.runtime, x) == Sub(d.runtime, x)
    {
      PlacedSubs(d.recovery.value, Sub(d.runtime, e), e, x);
      PlacedSubs(d.runtime, map[], e, x);
    }
    forall x | x in out
      ensures Held(d', j, x)
    {
      assert Held(d, j, x);
    }
  }

  /** Nothing and the link may take each other's place at an entry that is out. */
  lemma Relinked(d: Disk, j: Job, out: set<Path>, e: Path, sub: Tree, d': Disk)
    requires j.Good() && Out(d, j, out) && e in out && (sub == map[] || sub == map[e := LinkNode(e)])
    requires d' == d.(runtime := Placed(d.runtime, sub, e))
    ensures Out(d', j, out)
    ensures Sub(d'.runtime, e) == sub && forall x | x in out && x != e :: Sub(d'.runtime, x) == Sub(d.runtime, x)
  {
    PlacedSubs(d.runtime, sub, e, e);
    AlikeAdds(d.runtime, j.runtime, d'.runtime, out, e);
    assert out + {e} == out;
    forall x | x in out
      ensures Held(d', j, x)
      ensures x != e ==> Sub(d'.runtime, x) == Sub(d.runtime, x)
    {
      assert Held(d, j, x);
      PlacedSubs(d.runtime, sub, e, x);
    }
  }

  lemma MovedBack(d: Disk, j: Job, out: set<Path>, e: Path, d': Disk)
    requires j.Good() && Out(d, j, out) && e in out
    requires d'.runtime == Placed(d.runtime, Sub(d.recovery.value, e), e)
    requires d'.recovery == Some(Placed(d.recovery.value, map[], e))
    ensures Out(d', j, out - {e})
  {
    assert Held(d, j, e);
    PlacedSubs(d.runtime, Sub(d.recovery.value, e), e, e);
    AlikeShrinks(d.runtime, j.runtime, d'.runtime, out, e);
    forall x | x in j.entries
      ensures Sub(d'.recovery.value, x) == if x == e then map[] else Sub(d.recovery.value, x)
      ensures x != e ==> Sub(d'.runtime, x) == Sub(d.runtime, x)
    {
      PlacedSubs(d.runtime, Sub(d.recovery.value, e), e, x);
      PlacedSubs(d.recovery.value, map[], e, x);
    }
    forall x | x in out - {e}
      ensures Held(d', j, x)
    {
      assert Held(d, j, x);
    }
  }

  // ---------------------------------------------------------------- fingerprints

  /** What the checks before publication compare: the entries, each with all it holds. */
  function Fingerprint(t: Tree, entries: seq<Path>): seq<Tree> {
    seq(|entries|, i requires 0 <= i < |entries| => Sub(t, entries[i]))
  }

  lemma SamePrintSameEntries(t: Tree, u: Tree, entries: seq<Path>, e: Path)
    requires Fingerprint(t, entries) == Fingerprint(u, entries) && e in entries
    ensures Sub(t, e) == Sub(u, e)
  {
    var i :| 0 <= i < |entries| && entries[i] == e;
    assert Fingerprint(t, entries)[i] == Fingerprint(u, entries)[i];
  }

  // ---------------------------------------------------------------- operations that may fail

  class Machine {
    var disk: Disk
    /** Every state the disk has been in. */
    ghost var visited: set<Disk>
    /** How many operations have failed, or gone wrong, that need not have. */
    ghost var faults: nat

    constructor (disk: Disk)
      ensures this.disk == disk && visited == {} && faults == 0
    {
      this.disk, visited, faults := disk, {}, 0;
    }

    /** An operation that could have succeeded did not. */
    ghost method Fault(happened: bool)
      modifies this`faults
      ensures faults == old(faults) + if happened then 1 else 0
    {
      if happened { faults := faults + 1; }
    }

    /** Copy the canonical tree into a new stage.  It may change under the copy, so `landed` is
        what arrives there; a failure leaves anything. */
    method CopyCanonical(landed: Tree) returns (ok: bool)
      modifies this
      ensures visited == old(visited) + {disk} && disk.stage.Some?
      ensures disk == old(disk).(stage := disk.stage)
      ensures ok ==> disk.stage.value == landed
      ensures faults == old(faults) + if !ok || landed != disk.canonical then 1 else 0
    {
      var part: Tree := *;
      ok := *;
      disk := disk.(stage := Some(if ok then landed else part));
      Fault(!ok || landed != disk.canonical);
      visited := visited + {disk};
    }

    /** Copy one entry into the stage.  The source may change under the copy, so what lands
        there is anything. */
    method CopyEntry(e: Path) returns (ok: bool, ghost landed: Tree)
      requires disk.stage.Some?
      modifies this
      ensures visited == old(visited) + {disk} && disk.stage.Some?
      ensures disk == old(disk).(stage := disk.stage)
      ensures forall p | p in landed :: Under(e, p)
      ensures ok ==> disk.stage.value == WithParents(old(disk.stage.value), e) + landed
      ensures faults >= old(faults)
      ensures (!ok && !Conflicts(old(disk.stage.value), e)) || (ok && landed != Sub(disk.runtime, e)) ==>
                faults > old(faults)
    {
      var torn: Tree := *;
      ok := *;
      var stage := disk.stage.value;
      ok := ok && !Conflicts(stage, e);
      landed := Sub(torn, e);
      Fault((!ok && !Conflicts(stage, e)) || (ok && landed != Sub(disk.runtime, e)));
      disk := disk.(stage := Some(if ok then WithParents(stage, e) + Sub(torn, e) else torn));
      visited := visited + {disk};
    }

    /** Swap the stage and the canonical tree atomically. */
    method Exchange() returns (ok: bool)
      requires disk.stage.Some?
      modifies this
      ensures visited == old(visited) + {disk}
      ensures disk == if ok then old(disk).(stage := Some(old(disk.canonical)), canonical := old(disk.stage.value))
              else old(disk)
      ensures faults == old(faults) + if !ok then 1 else 0
    {
      ok := *;
      if ok { disk := disk.(stage := Some(disk.canonical), canonical := disk.stage.value); }
      Fault(!ok);
      visited := visited + {disk};
    }

    method MakeRecovery() returns (ok: bool)
      modifies this
      ensures visited == old(visited) + {disk}
      ensures disk == if ok then old(disk).(recovery := Some(map[])) else old(disk)
      ensures faults == old(faults) + if !ok then 1 else 0
    {
      ok := *;
      if ok { disk := disk.(recovery := Some(map[])); }
      Fault(!ok);
      visited := visited + {disk};
    }

    /** Make the missing parents of `e` in recovery; a failure may leave some of them. */
    method RecoveryParents(e: Path) returns (ok: bool, ghost made: set<Path>)
      requires disk.recovery.Some?
      modifies this
      ensures visited == old(visited) + {disk}
      ensures disk == old(disk).(recovery := Some(WithSome(old(disk.recovery.value), e, made)))
      ensures ok ==> ParentsReady(disk.recovery.value, e)
      ensures faults == old(faults) + if !ok && !ParentsBlocked(old(disk.recovery.value), e) then 1 else 0
    {
      ok := *;
      var some: set<Path> := *;
      ok := ok && !ParentsBlocked(disk.recovery.value, e);
      made := if ok then Ancestors(e) else some;
      disk := disk.(recovery := Some(WithSome(disk.recovery.value, e, if ok then Ancestors(e) else some)));
      Fault(!ok && !ParentsBlocked(old(disk.recovery.value), e));
      visited := visited + {disk};
    }

    /** Open the parents of `e` in the runtime, making those that are missing. */
    method RuntimeParents(e: Path) returns (ok: bool, ghost made: set<Path>)
      modifies this
      ensures visited == old(visited) + {disk}
      ensures disk == old(disk).(runtime := WithSome(old(disk.runtime), e, made))
      ensures faults == old(faults) + if !ok && !ParentsBlocked(old(disk.runtime), e) then 1 else 0
    {
      ok := *;
      var some: set<Path> := *;
      ok := ok && !ParentsBlocked(disk.runtime, e);
      made := if ok then Ancestors(e) else some;
      disk := disk.(runtime := WithSome(disk.runtime, e, if ok then Ancestors(e) else some));
      Fault(!ok && !ParentsBlocked(old(disk.runtime), e));
      visited := visited + {disk};
    }

    /** Rename an entry from the runtime into recovery. */
    method MoveOut(e: Path) returns (ok: bool)
      requires disk.recovery.Some?
      modifies this
      ensures visited == old(visited) + {disk}
      ensures !ok ==> disk == old(disk)
      ensures ok ==> disk.runtime == Placed(old(disk.runtime), map[], e)
      ensures ok ==> disk.recovery == Some(Placed(old(disk.recovery.value), Sub(old(disk.runtime), e), e))
      ensures disk == old(disk).(runtime := disk.runtime, recovery := disk.recovery)
      ensures faults == old(faults) + if !ok && MayMove(old(disk.runtime), old(disk.recovery.value), e) then 1 else 0
    {
      ok := *;
      var from, to := disk.runtime, disk.recovery.value;
      ok := ok && MayMove(from, to, e);
      if ok { disk := disk.(runtime := Placed(from, map[], e), recovery := Some(Placed(to, Sub(from, e), e))); }
      Fault(!ok && MayMove(old(disk.runtime), old(disk.recovery.value), e));
      visited := visited + {disk};
    }

    /** Rename an entry from recovery back into the runtime. */
    method MoveBack(e: Path) returns (ok: bool)
      requires disk.recovery.Some?
      modifies this
      ensures visited == old(visited) + {disk}
      ensures !ok ==> disk == old(disk)
      ensures ok ==> disk.runtime == Placed(old(disk.runtime), Sub(old(disk.recovery.value), e), e)
      ensures ok ==> disk.recovery == Some(Placed(old(disk.recovery.value), map[], e))
      ensures disk == old(disk).(runtime := disk.runtime, recovery := disk.recovery)
      ensures faults == old(faults) + if !ok && MayMove(old(disk.recovery.value), old(disk.runtime), e) then 1 else 0
    {
      ok := *;
      var from, to := disk.recovery.value, disk.runtime;
      ok := ok && MayMove(from, to, e);
      if ok { disk := disk.(runtime := Placed(to, Sub(from, e), e), recovery := Some(Placed(from, map[], e))); }
      Fault(!ok && MayMove(old(disk.recovery.value), old(disk.runtime), e));
      visited := visited + {disk};
    }

    method Link(e: Path) returns (ok: bool)
      modifies this
      ensures visited == old(visited) + {disk}
      ensures ok ==> e !in old(disk.runtime)
      ensures disk == if ok then old(disk).(runtime := old(disk.runtime)[e := LinkNode(e)]) else old(disk)
      ensures faults == old(faults) + if !ok && e !in old(disk.runtime) then 1 else 0
    {
      ok := *;
      ok := ok && e !in disk.runtime;
      if ok { disk := disk.(runtime := disk.runtime[e := LinkNode(e)]); }
      Fault(!ok && e !in old(disk.runtime));
      visited := visited + {disk};
    }

    /** Remove a link. */
    method Unlink(e: Path) returns (ok: bool)
      modifies this
      ensures visited == old(visited) + {disk}
      ensures disk == if ok then old(disk).(runtime := old(disk.runtime) - {e}) else old(disk)
      ensures faults == old(faults) + if !ok && e in old(disk.runtime) && old(disk.runtime)[e].LinkNode? then 1 else 0
    {
      ok := *;
      ok := ok && e in disk.runtime && disk.runtime[e].LinkNode?;
      if ok { disk := disk.(runtime := disk.runtime - {e}); }
      Fault(!ok && e in old(disk.runtime) && old(disk.runtime)[e].LinkNode?);
      visited := visited + {disk};
    }

    /** Rename the old canonical tree out of the stage into recovery. */
    method SetOldAside() returns (ok: bool)
      requires disk.stage.Some? && disk.recovery.Some?
      modifies this
      ensures visited == old(visited) + {disk}
      ensures !ok ==> disk == old(disk)
      ensures ok ==> Commits(old(disk), disk)
      ensures faults == old(faults) + if !ok && Replaceable(old(disk.recovery.value), BEFORE, DirNode) then 1 else 0
    {
      ok := *;
      var old_, to := disk.stage.value, disk.recovery.value;
      ok := ok && Replaceable(to, BEFORE, DirNode);
      if ok { disk := disk.(stage := None, recovery := Some(Placed(to, Planted(old_, BEFORE), BEFORE))); }
      Fault(!ok && Replaceable(old(disk.recovery.value), BEFORE, DirNode));
      visited := visited + {disk};
    }

    /** Remove the stage; a failure leaves any part of it. */
    method RemoveStage()
      modifies this
      ensures visited == old(visited) + {disk} && disk == old(disk).(stage := disk.stage) && faults == old(faults)
    {
      var part: Option<Tree> := *;
      disk := disk.(stage := part);
      visited := visited + {disk};
    }

    /** Remove recovery; a failure leaves any part of it. */
    method RemoveRecovery()
      modifies this
      ensures visited == old(visited) + {disk} && disk == old(disk).(recovery := disk.recovery) && faults == old(faults)
    {
      var part: Option<Tree> := *;
      disk := disk.(recovery := part);
      visited := visited + {disk};
    }
  }

  /** The rename that sets the old canonical tree aside. */
  predicate Commits(d: Disk, d': Disk) {
    && d.stage.Some? && d.recovery.Some?
    && Replaceable(d.recovery.value, BEFORE, DirNode)
    && d' == d.(stage := None, recovery := Some(Placed(d.recovery.value, Planted(d.stage.value, BEFORE), BEFORE)))
  }

  lemma PlantedUnder(t: Tree, e: Path)
    ensures forall p | p in Planted(t, e) :: Under(e, p)
  {
  }

  lemma CommitSetsAside(d: Disk, j: Job, d': Disk)
    requires d.stage == Some(j.canonical) && Commits(d, d')
    ensures SetAside(d', j)
  {
  }

  /** Nothing lies above the reserved name. */
  lemma ReservedIsTop(e: Path)
    requires Under(e, BEFORE)
    ensures e == BEFORE
  {
    ExtendsAt(e, BEFORE);
    assert forall i | 0 <= i < |BEFORE| :: BEFORE[i] != '/';
  }

  /** The commit loses an entry exactly when it is an empty directory of the reserved name
      and there is an old canonical tree to put in its place. */
  lemma CommitLosesIff(d: Disk, j: Job, e: Path, d': Disk)
    requires j.Good() && Out(d, j, j.All()) && e in j.entries
    requires Sub(d.runtime, e) == map[e := LinkNode(e)]
    requires d.stage == Some(j.canonical) && Commits(d, d')
    ensures EntryKept(d', j, e) <==> !Overwritten(j, e)
    ensures e != BEFORE ==> Sub(d'.recovery.value, e) == Sub(j.runtime, e)
  {
    assert Held(d, j, e) && e in Sub(j.runtime, e);
    assert Sub(d'.runtime, e)[e] == LinkNode(e) != j.runtime[e] == Sub(j.runtime, e)[e];
    PlantedUnder(j.canonical, BEFORE);
    PlacedSubs(d.recovery.value, Planted(j.canonical, BEFORE), BEFORE, e);
    if e == BEFORE {
      PlantedIsEmptyIff(j.canonical, BEFORE);
    } else {
      assert Elements(j.entries) == j.All();
      if Under(BEFORE, e) { ReservedIsFull(d, j, e); }
      if Under(e, BEFORE) { ReservedIsTop(e); }
    }
  }

  /** Such an entry exists: the manifest may name the reserved path as a directory. */
  lemma ReservedNameIsLost() returns (d: Disk, j: Job, d': Disk)
    ensures j.Good() && Out(d, j, j.All()) && BEFORE in j.entries && Commits(d, d')
    ensures IsPublished(d, j) && Sub(d.runtime, BEFORE) == map[BEFORE := LinkNode(BEFORE)] && !EntryKept(d', j, BEFORE)
  {
    assert forall i | 0 <= i < |BEFORE| :: BEFORE[i] != '/';
    d, j := LoneEntry(BEFORE, DirNode);
    assert BEFORE + "-" in j.canonical;
    d' := d.(stage := None, recovery := Some(Placed(d.recovery.value, Planted(j.canonical, BEFORE), BEFORE)));
    CommitLosesIff(d, j, BEFORE, d');
  }

  /** One entry, moved out and linked, beside a canonical tree that has another. */
  lemma LoneEntry(e: Path, node: Node) returns (d: Disk, j: Job)
    requires !node.LinkNode? && forall i | 0 <= i < |e| :: e[i] != '/'
    ensures j == Job(map[e := node], map[e + "-" := DirNode], [e], map[e + "-" := DirNode])
    ensures j.Good() && Out(d, j, j.All()) && Sub(d.runtime, e) == map[e := LinkNode(e)]
    ensures IsPublished(d, j) && Sub(j.runtime, e) == map[e := node] && Ancestors(e) == {}
    ensures d.recovery.Some? && Sub(d.recovery.value, e) == map[e := node]
  {
    j := Job(map[e := node], map[e + "-" := DirNode], [e], map[e + "-" := DirNode]);
    d := Disk(map[e := LinkNode(e)], Staged(j.copied, j.runtime, j.entries), Some(j.canonical), Some(map[e := node]));
    assert Ancestors(e) == {} && Ancestors(e + "-") == {};
    assert |e + "-"| > |e| && j.All() == {e};
    assert e + "-" in j.canonical;
    assert UnderAny({e}, e);
    assert Held(d, j, e);
  }

  lemma PlantedIsEmptyIff(c: Tree, e: Path)
    ensures Planted(c, e) == map[e := DirNode] <==> c == map[]
  {
    if p :| p in c {
      assert |e + "/" + p| == |e| + 1 + |p|;
      assert e + "/" + p in Planted(c, e);
    }
  }

  lemma ReservedIsFull(d: Disk, j: Job, e: Path)
    requires Out(d, j, Elements(j.entries)) && e in j.entries && e in j.runtime && Extends(BEFORE, e)
    ensures !Replaceable(d.recovery.value, BEFORE, DirNode)
  {
    assert Held(d, j, e);
    assert e in Sub(d.recovery.value, e);
    assert e in Sub(d.recovery.value, BEFORE) && e != BEFORE by { ExtendsAt(BEFORE, e); }
  }

  // ---------------------------------------------------------------- the transaction

  /** The old canonical tree is still whole, in place or in the stage. */
  predicate CanonicalAtHand(d: Disk, j: Job) { d.canonical == j.canonical || d.stage == Some(j.canonical) }

  predicate SameElsewhere(d: Disk, d': Disk) { d'.canonical == d.canonical && d'.stage == d.stage }

  /** Move each entry to recovery and link it; stop at the first failure. */
  method MoveAndLink(m: Machine, entries: seq<Path>, ghost j: Job) returns (ok: bool, moved: seq<Path>)
    requires j.Good() && entries == j.entries && PrefixFree(entries)
    requires Out(m.disk, j, {}) && CanonicalAtHand(m.disk, j)
    modifies m
    ensures SameElsewhere(old(m.disk), m.disk)
    ensures Out(m.disk, j, Elements(moved)) && Distinct(moved)
    ensures ok ==> moved == entries && AllLinked(m.disk, moved)
    ensures ConservingVisits(old(m.visited), m.visited, j)
    ensures m.faults >= old(m.faults) && (!ok ==> m.faults > old(m.faults))
  {
    moved := [];
    for i := 0 to |entries|
      invariant moved == entries[..i]
      invariant SameElsewhere(old(m.disk), m.disk)
      invariant Out(m.disk, j, Elements(moved)) && AllLinked(m.disk, moved)
      invariant m.faults >= old(m.faults)
      invariant ConservingVisits(old(m.visited), m.visited, j)
    {
      NotEarlier(entries, i);
      var renamed;
      renamed, ok := MoveAndLinkOne(m, entries[i], moved, j);
      TakesAreDistinct(entries, i);
      TakesAreDistinct(entries, i + 1);
      if renamed { moved := entries[..i + 1]; }
      if !ok { return; }
    }
    TakesAreDistinct(entries, |entries|);
    ok := true;
  }

  ghost predicate AllLinked(d: Disk, moved: seq<Path>) {
    forall e | e in moved :: Sub(d.runtime, e) == map[e := LinkNode(e)]
  }

  lemma TakesAreDistinct(entries: seq<Path>, i: nat)
    requires PrefixFree(entries) && i <= |entries|
    ensures Distinct(entries[..i]) && (i < |entries| ==> entries[..i + 1] == entries[..i] + [entries[i]])
    ensures i == |entries| ==> entries[..i] == entries
  {
  }

  method MoveAndLinkOne(m: Machine, e: Path, ghost moved: seq<Path>, ghost j: Job) returns (renamed: bool, ok: bool)
    requires j.Good() && e in j.entries && e !in moved
    requires Out(m.disk, j, Elements(moved)) && AllLinked(m.disk, moved) && CanonicalAtHand(m.disk, j)
    modifies m
    ensures SameElsewhere(old(m.disk), m.disk) && (ok ==> renamed)
    ensures Out(m.disk, j, Elements(if renamed then moved + [e] else moved))
    ensures ok ==> AllLinked(m.disk, moved + [e])
    ensures m.faults >= old(m.faults) && (!ok ==> m.faults > old(m.faults))
    ensures ConservingVisits(old(m.visited), m.visited, j)
  {
    ok := false;
    renamed := MoveOne(m, e, Elements(moved), j);
    if !renamed { return; }
    assert Elements(moved + [e]) == Elements(moved) + {e};
    ok := LinkOne(m, e, Elements(moved + [e]), j);
  }

  predicate Distinct(s: seq<Path>) { forall i, k | 0 <= i < k < |s| :: s[i] != s[k] }

  lemma NotEarlier(entries: seq<Path>, i: nat)
    requires PrefixFree(entries) && i < |entries|
    ensures entries[i] !in entries[..i]
  {
  }

  method MoveOne(m: Machine, e: Path, ghost out: set<Path>, ghost j: Job) returns (ok: bool)
    requires j.Good() && e in j.entries && e !in out
    requires Out(m.disk, j, out) && CanonicalAtHand(m.disk, j)
    modifies m
    ensures SameElsewhere(old(m.disk), m.disk)
    ensures Out(m.disk, j, if ok then out + {e} else out)
    ensures ok ==> Sub(m.disk.runtime, e) == map[]
    ensures forall x | x in out :: Sub(m.disk.runtime, x) == Sub(old(m.disk.runtime), x)
    ensures ConservingVisits(old(m.visited), m.visited, j)
    ensures m.faults >= old(m.faults) && (!ok ==> m.faults > old(m.faults))
  {
    ghost var d0 := m.disk;
    ghost var made;
    RecoveryIsClear(d0, j, out, e);
    ok, made := m.RecoveryParents(e);
    ghost var d1 := m.disk;
    ParentsKeepOut(d0, j, out, e, made, d1);
    OutConserves(d1, j, out);
    if !ok { return; }
    MovesOut(d1, j, out, e);
    ok := m.MoveOut(e);
    if ok {
      MovedOut(d1, j, out, e, m.disk);
      OutConserves(m.disk, j, out + {e});
      PlacedSubs(d1.runtime, map[], e, e);
      forall x | x in out
        ensures Sub(m.disk.runtime, x) == Sub(d1.runtime, x)
      {
        PlacedSubs(d1.runtime, map[], e, x);
      }
    }
  }

  lemma MovesOut(d: Disk, j: Job, out: set<Path>, e: Path)
    requires j.Good() && Out(d, j, out) && e in j.entries && e !in out && ParentsReady(d.recovery.value, e)
    ensures MayMove(d.runtime, d.recovery.value, e)
  {
    StaysInRuntime(d, j, out, e);
    SubAlike(d.runtime, j.runtime, e, e);
    assert e !in Sub(d.recovery.value, e);
  }

  lemma MovesBack(d: Disk, j: Job, out: set<Path>, e: Path)
    requires j.Good() && Out(d, j, out) && e in out && Sub(d.runtime, e) == map[]
    ensures MayMove(d.recovery.value, d.runtime, e)
  {
    assert Held(d, j, e);
    SubAlike(d.recovery.value, j.runtime, e, e);
    RuntimeParentsThere(d.runtime, j, out, e);
    assert e !in Sub(d.runtime, e);
  }

  method LinkOne(m: Machine, e: Path, ghost out: set<Path>, ghost j: Job) returns (ok: bool)
    requires j.Good() && e in out && Sub(m.disk.runtime, e) == map[]
    requires Out(m.disk, j, out) && CanonicalAtHand(m.disk, j)
    modifies m
    ensures SameElsewhere(old(m.disk), m.disk)
    ensures Out(m.disk, j, out)
    ensures ok ==> Sub(m.disk.runtime, e) == map[e := LinkNode(e)]
    ensures forall x | x in out && x != e :: Sub(m.disk.runtime, x) == Sub(old(m.disk.runtime), x)
    ensures ConservingVisits(old(m.visited), m.visited, j)
    ensures m.faults >= old(m.faults) && (!ok ==> m.faults > old(m.faults))
  {
    ghost var d0 := m.disk;
    assert e !in Sub(d0.runtime, e);
    ok := m.Link(e);
    if ok {
      AddedIsPlaced(d0.runtime, e, LinkNode(e));
      Relinked(d0, j, out, e, map[e := LinkNode(e)], m.disk);
    }
    OutConserves(m.disk, j, out);
  }

  lemma AddedIsPlaced(t: Tree, e: Path, node: Node)
    requires Sub(t, e) == map[]
    ensures t[e := node] == Placed(t, map[e := node], e)
  {
  }

  lemma RemovedIsPlaced(t: Tree, e: Path, node: Node)
    requires Sub(t, e) == map[e := node]
    ensures t - {e} == Placed(t, map[], e)
  {
    forall p | p in t && Under(e, p)
      ensures p == e
    {
      assert p in Sub(t, e);
    }
  }

  /** Put the entries back, last one first, and go on past each failure. */
  method Restore(m: Machine, moved: seq<Path>, ghost j: Job) returns (failures: seq<Path>)
    requires j.Good() && Out(m.disk, j, Elements(moved)) && CanonicalAtHand(m.disk, j)
    requires Distinct(moved)
    modifies m
    ensures SameElsewhere(old(m.disk), m.disk)
    ensures Out(m.disk, j, Elements(failures))
    ensures ConservingVisits(old(m.visited), m.visited, j)
    ensures m.faults >= old(m.faults) && (failures != [] ==> m.faults > old(m.faults))
  {
    failures := [];
    for i := |moved| downto 0
      invariant SameElsewhere(old(m.disk), m.disk)
      invariant Out(m.disk, j, Elements(moved[..i]) + Elements(failures))
      invariant forall e | e in failures :: e !in moved[..i]
      invariant m.faults >= old(m.faults) && (failures != [] ==> m.faults > old(m.faults))
      invariant ConservingVisits(old(m.visited), m.visited, j)
    {
      LastOfRest(moved, i, failures);
      var ok := RestoreOne(m, moved[i], Elements(moved[..i + 1]) + Elements(failures), j);
      if !ok { failures := failures + [moved[i]]; }
    }
    assert Elements(moved[..0]) + Elements(failures) == Elements(failures);
  }

  lemma LastOfRest(moved: seq<Path>, i: nat, failures: seq<Path>)
    requires Distinct(moved) && i < |moved| && forall e | e in failures :: e !in moved[..i + 1]
    ensures var e, out := moved[i], Elements(moved[..i + 1]) + Elements(failures);
            && e in out && e !in moved[..i] && e !in failures
            && out - {e} == Elements(moved[..i]) + Elements(failures)
            && out == Elements(moved[..i]) + Elements(failures + [e])
  {
  }

  method RestoreOne(m: Machine, e: Path, ghost out: set<Path>, ghost j: Job) returns (ok: bool)
    requires j.Good() && e in out && Out(m.disk, j, out) && CanonicalAtHand(m.disk, j)
    modifies m
    ensures SameElsewhere(old(m.disk), m.disk)
    ensures Out(m.disk, j, if ok then out - {e} else out)
    ensures ConservingVisits(old(m.visited), m.visited, j)
    ensures m.faults >= old(m.faults) && (!ok ==> m.faults > old(m.faults))
  {
    ok := OpenPlace(m, e, out, j);
    if !ok { return; }
    ok := UnlinkOne(m, e, out, j);
    if !ok { return; }
    ghost var d := m.disk;
    OutConserves(d, j, out);
    MovesBack(d, j, out, e);
    ok := m.MoveBack(e);
    if ok {
      MovedBack(d, j, out, e, m.disk);
      OutConserves(m.disk, j, out - {e});
    }
  }

  /** Open the parents of an entry in the runtime; they are there, so nothing changes. */
  method OpenPlace(m: Machine, e: Path, ghost out: set<Path>, ghost j: Job) returns (ok: bool)
    requires j.Good() && e in out && Out(m.disk, j, out) && CanonicalAtHand(m.disk, j)
    modifies m
    ensures m.disk == old(m.disk)
    ensures ConservingVisits(old(m.visited), m.visited, j)
    ensures m.faults >= old(m.faults) && (!ok ==> m.faults > old(m.faults))
  {
    ghost var made;
    OutConserves(m.disk, j, out);
    RuntimeParentsThere(m.disk.runtime, j, out, e);
    ghost var runtime := m.disk.runtime;
    ok, made := m.RuntimeParents(e);
    ParentsThere(runtime, e, made);
  }

  /** Remove the link of an entry that is out, if it is there. */
  method UnlinkOne(m: Machine, e: Path, ghost out: set<Path>, ghost j: Job) returns (ok: bool)
    requires j.Good() && e in out && Out(m.disk, j, out) && CanonicalAtHand(m.disk, j)
    modifies m
    ensures SameElsewhere(old(m.disk), m.disk)
    ensures Out(m.disk, j, out) && (ok ==> Sub(m.disk.runtime, e) == map[])
    ensures ConservingVisits(old(m.visited), m.visited, j)
    ensures m.faults >= old(m.faults) && (!ok ==> m.faults > old(m.faults))
  {
    ghost var d := m.disk;
    assert Held(d, j, e);
    assert e in d.runtime <==> e in Sub(d.runtime, e);
    if e !in m.disk.runtime { return true; }
    ok := m.Unlink(e);
    if ok {
      RemovedIsPlaced(d.runtime, e, LinkNode(e));
      Relinked(d, j, out, e, map[], m.disk);
    }
    OutConserves(m.disk, j, out);
  }

  lemma UntouchedConserves(d: Disk, j: Job)
    requires d.runtime == j.runtime && d.canonical == j.canonical
    ensures Conserves(d, j)
  {
  }

  predicate OnlyStageDiffers(d: Disk, d': Disk) { d' == d.(stage := d'.stage) }

  /** The stage agrees with what it should be, off the entries copied into it. */
  ghost predicate StagedSoFar(d: Disk, j: Job, i: nat)
    requires i <= |j.entries|
  {
    d.stage.Some? && AlikeOff(d.stage.value, Staged(j.copied, j.runtime, j.entries[..i]), Elements(j.entries[..i]))
  }

  method CopyEntries(m: Machine, entries: seq<Path>, ghost j: Job) returns (ok: bool)
    requires j.Good() && entries == j.entries && PrefixFree(entries)
    requires m.disk.runtime == j.runtime && m.disk.canonical == j.canonical && m.disk.stage == Some(j.copied)
    modifies m
    ensures OnlyStageDiffers(old(m.disk), m.disk) && m.disk.stage.Some?
    ensures ok ==> StagedSoFar(m.disk, j, |entries|)
    ensures ConservingVisits(old(m.visited), m.visited, j)
    ensures m.faults >= old(m.faults)
    ensures m.faults == old(m.faults) ==> ok && m.disk.stage.value == Staged(j.copied, j.runtime, entries)
  {
    for i := 0 to |entries|
      invariant OnlyStageDiffers(old(m.disk), m.disk)
      invariant StagedSoFar(m.disk, j, i)
      invariant m.faults >= old(m.faults)
      invariant m.faults == old(m.faults) ==> m.disk.stage.value == Staged(j.copied, j.runtime, entries[..i])
      invariant ConservingVisits(old(m.visited), m.visited, j)
    {
      ghost var before := m.disk.stage.value;
      ghost var landed;
      StagedAdmits(j, i);
      ok, landed := m.CopyEntry(entries[i]);
      UntouchedConserves(m.disk, j);
      if !ok { return; }
      CopiesOneMore(before, landed, j, i);
    }
    assert entries[..|entries|] == entries;
    ok := true;
  }

  /** Copy into a stage, and accept it only if the copies of the entries match the source. */
  method StageCopies(m: Machine, entries: seq<Path>, landed: Tree, ghost j: Job) returns (ok: bool)
    requires j.Good() && entries == j.entries && PrefixFree(entries)
    requires m.disk.runtime == j.runtime && m.disk.canonical == j.canonical && landed == j.copied
    modifies m
    ensures OnlyStageDiffers(old(m.disk), m.disk) && m.disk.stage.Some?
    ensures m.faults == old(m.faults) ==> j.copied == j.canonical
    ensures ok ==> m.disk.stage.value == Staged(j.copied, j.runtime, entries)
    ensures ConservingVisits(old(m.visited), m.visited, j)
    ensures m.faults >= old(m.faults) && (!ok ==> m.faults > old(m.faults))
  {
    var source := Fingerprint(m.disk.runtime, entries);
    ok := m.CopyCanonical(landed);
    UntouchedConserves(m.disk, j);
    if !ok { return; }
    ok := CopyEntries(m, entries, j);
    if !ok { return; }
    assert entries[..|entries|] == entries;
    ok := Check(m, Fingerprint(m.disk.stage.value, entries), source);
    StagedPrints(j);
    if ok { PrintedIsStaged(m.disk.stage.value, j); }
  }

  /** Reading the two again for a comparison may fail as well. */
  method Check(m: Machine, found: seq<Tree>, expected: seq<Tree>) returns (ok: bool)
    modifies m`faults
    ensures ok ==> found == expected
    ensures m.faults == old(m.faults) + if !ok && found == expected then 1 else 0
  {
    ok := *;
    ok := ok && found == expected;
    m.Fault(!ok && found == expected);
  }

  lemma StagedPrints(j: Job)
    requires j.Good() && PrefixFree(j.entries)
    ensures Fingerprint(Staged(j.copied, j.runtime, j.entries), j.entries) == Fingerprint(j.runtime, j.entries)
  {
    forall i | 0 <= i < |j.entries|
      ensures Sub(Staged(j.copied, j.runtime, j.entries), j.entries[i]) == Sub(j.runtime, j.entries[i])
    {
      StagedHolds(j.copied, j.runtime, j.entries, j.entries[i]);
    }
  }

  /** What has been copied so far is not in the way of the next entry, and copying it exactly
      takes the stage one entry on. */
  lemma StagedAdmits(j: Job, i: nat)
    requires j.Good() && PrefixFree(j.entries) && i < |j.entries|
    ensures var stage, e := Staged(j.copied, j.runtime, j.entries[..i]), j.entries[i];
            && !Conflicts(stage, e)
            && WithParents(stage, e) + Sub(j.runtime, e) == Staged(j.copied, j.runtime, j.entries[..i + 1])
  {
    var e, taken := j.entries[i], j.entries[..i];
    assert j.entries[..i + 1][..i] == taken;
    forall x | x in taken
      ensures !Under(x, e) && !Under(e, x)
    {
      var k :| 0 <= k < i && j.entries[k] == x;
    }
    StagedMisses(j.copied, j.runtime, taken, e);
    assert e in j.entries;
    NothingBelowAbsent(j.copied, e);
    var stage := Staged(j.copied, j.runtime, taken);
    assert e !in Sub(stage, e);
    forall a | a in Ancestors(e) && a in stage
      ensures stage[a] == DirNode
    {
      assert j.entries[i] == e && e in j.All();
      ParentsStayOut(j, Elements(taken), e, a);
      assert forall x | x in taken :: x in Elements(taken);
      StagedIs(j.copied, j.runtime, taken, a);
    }
  }

  lemma CopiesOneMore(stage: Tree, landed: Tree, j: Job, i: nat)
    requires j.Good() && PrefixFree(j.entries) && i < |j.entries|
    requires AlikeOff(stage, Staged(j.copied, j.runtime, j.entries[..i]), Elements(j.entries[..i]))
    requires forall p | p in landed :: Under(j.entries[i], p)
    ensures AlikeOff(WithParents(stage, j.entries[i]) + landed, Staged(j.copied, j.runtime, j.entries[..i + 1]),
                     Elements(j.entries[..i + 1]))
  {
    var e := j.entries[i];
    assert j.entries[..i + 1] == j.entries[..i] + [e] && j.entries[..i + 1][..i] == j.entries[..i];
    assert Elements(j.entries[..i + 1]) == Elements(j.entries[..i]) + {e};
    NotEarlier(j.entries, i);
    CopiesAlike(stage, Staged(j.copied, j.runtime, j.entries[..i]), Elements(j.entries[..i]), e, landed,
        Sub(j.runtime, e));
  }

  /** The fingerprints leave no room for a torn copy. */
  lemma PrintedIsStaged(stage: Tree, j: Job)
    requires j.Good() && PrefixFree(j.entries)
    requires AlikeOff(stage, Staged(j.copied, j.runtime, j.entries), Elements(j.entries))
    requires Fingerprint(stage, j.entries) == Fingerprint(j.runtime, j.entries)
    ensures stage == Staged(j.copied, j.runtime, j.entries)
  {
    var whole := Staged(j.copied, j.runtime, j.entries);
    forall e | e in j.entries
      ensures Sub(stage, e) == Sub(whole, e)
    {
      SamePrintSameEntries(stage, j.runtime, j.entries, e);
      StagedHolds(j.copied, j.runtime, j.entries, e);
    }
    SamePiecewise(stage, whole, Elements(j.entries));
  }

  /** The new canonical tree is in place and the old one is in the stage. */
  ghost predicate IsPublished(d: Disk, j: Job) {
    d.canonical == Staged(j.copied, j.runtime, j.entries) && d.stage == Some(j.canonical)
  }

  ghost predicate MovedSoFar(d: Disk, j: Job, moved: seq<Path>) {
    if d.recovery.Some? then Out(d, j, Elements(moved)) else moved == [] && d.runtime == j.runtime
  }

  lemma MovedConserves(d: Disk, j: Job, moved: seq<Path>)
    requires j.Good() && MovedSoFar(d, j, moved) && CanonicalAtHand(d, j)
    ensures Conserves(d, j)
    ensures moved == [] ==> d.runtime == j.runtime
  {
    if d.recovery.Some? {
      OutConserves(d, j, Elements(moved));
      if moved == [] {
        assert Elements(moved) == {};
        NothingOutIsWhole(d, j);
      }
    }
  }

  /** Swap the directories back, then put the entries back.  If the first fails do not try
      the second: the links still lead into the published tree. */
  method Rollback(m: Machine, moved: seq<Path>, ghost j: Job) returns (published: bool, failures: seq<Path>)
    requires j.Good() && IsPublished(m.disk, j) && MovedSoFar(m.disk, j, moved) && Distinct(moved)
    modifies m
    ensures published ==> m.disk == old(m.disk)
    ensures !published ==> m.disk.canonical == j.canonical && MovedSoFar(m.disk, j, failures)
    ensures ConservingVisits(old(m.visited), m.visited, j)
    ensures m.faults >= old(m.faults) && (published || failures != [] ==> m.faults > old(m.faults))
  {
    var ok := m.Exchange();
    published, failures := !ok, [];
    MovedConserves(m.disk, j, moved);
    if ok && moved != [] { failures := Restore(m, moved, j); }
  }

  /** What is left behind is removed only where nothing of the old state can be in it. */
  method CleanUp(m: Machine, published: bool, failures: seq<Path>, ghost j: Job)
    requires j.Good() && MovedSoFar(m.disk, j, failures)
    requires if published then m.disk.stage == Some(j.canonical) else m.disk.canonical == j.canonical
    modifies m
    ensures m.disk.runtime == old(m.disk.runtime) && m.disk.canonical == old(m.disk.canonical)
    ensures published ==> m.disk == old(m.disk)
    ensures failures != [] ==> m.disk.recovery == old(m.disk.recovery)
    ensures failures == [] ==> m.disk.runtime == j.runtime
    ensures Conserves(m.disk, j) && ConservingVisits(old(m.visited), m.visited, j)
    ensures m.faults == old(m.faults)
  {
    MovedConserves(m.disk, j, failures);
    if published { return; }
    m.RemoveStage();
    MovedConserves(m.disk, j, failures);
    if failures == [] && m.disk.recovery.Some? {
      m.RemoveRecovery();
      UntouchedConserves(m.disk, j);
    }
  }

  /** The published copies are compared with the source once more, and recovery is made. */
  method PrepareRecovery(m: Machine, entries: seq<Path>, source: seq<Tree>, ghost j: Job) returns (ok: bool)
    requires j.Good() && entries == j.entries && PrefixFree(entries) && source == Fingerprint(j.runtime, entries)
    requires IsPublished(m.disk, j) && m.disk.runtime == j.runtime && m.disk.recovery == None
    modifies m
    ensures IsPublished(m.disk, j) && MovedSoFar(m.disk, j, [])
    ensures ok ==> Out(m.disk, j, {}) && m.disk.recovery == Some(map[])
    ensures ConservingVisits(old(m.visited), m.visited, j)
    ensures m.faults >= old(m.faults) && (!ok ==> m.faults > old(m.faults))
  {
    StagedPrints(j);
    ok := Check(m, Fingerprint(m.disk.canonical, entries), source);
    if !ok { return; }
    ok := m.MakeRecovery();
    MovedConserves(m.disk, j, []);
    if ok { NoneOut(m.disk, j); }
  }

  /** From publication to commit. */
  method Relink(m: Machine, entries: seq<Path>, ghost j: Job) returns (ok: bool, moved: seq<Path>)
    requires j.Good() && entries == j.entries && PrefixFree(entries)
    requires IsPublished(m.disk, j) && m.disk.runtime == j.runtime && m.disk.recovery == None
    modifies m
    ensures !ok ==> IsPublished(m.disk, j) && MovedSoFar(m.disk, j, moved) && Distinct(moved)
    ensures ok ==> Done(m.disk, j) && !Occupied(j)
    ensures ConservingVisits(old(m.visited), m.visited, j)
    ensures m.faults >= old(m.faults) && (!ok && !Occupied(j) ==> m.faults > old(m.faults))
  {
    var source := Fingerprint(m.disk.runtime, entries);
    moved := [];
    ok := PrepareRecovery(m, entries, source, j);
    if !ok { return; }
    ok, moved := MoveAndLink(m, entries, j);
    if !ok { return; }
    ok := SetAsideChecked(m, entries, source, j);
  }

  /** The last step: the originals are compared once more, then the old tree is set aside. */
  method SetAsideChecked(m: Machine, entries: seq<Path>, source: seq<Tree>, ghost j: Job) returns (ok: bool)
    requires j.Good() && entries == j.entries && source == Fingerprint(j.runtime, entries)
    requires IsPublished(m.disk, j) && Out(m.disk, j, Elements(entries)) && AllLinked(m.disk, entries)
    modifies m
    ensures !ok ==> m.disk == old(m.disk)
    ensures ok ==> Done(m.disk, j) && !Occupied(j)
    ensures ConservingVisits(old(m.visited), m.visited, j)
    ensures m.faults >= old(m.faults) && (!ok && !Occupied(j) ==> m.faults > old(m.faults))
  {
    ghost var d := m.disk;
    SavedPrints(d, j);
    MovedConserves(d, j, entries);
    ok := Check(m, Fingerprint(m.disk.recovery.value, entries), source);
    if !ok { return; }
    ReserveIsFreeIff(d, j);
    ok := m.SetOldAside();
    if ok { CommitIsDone(d, j, m.disk); }
  }

  lemma SavedPrints(d: Disk, j: Job)
    requires Out(d, j, Elements(j.entries))
    ensures Fingerprint(d.recovery.value, j.entries) == Fingerprint(j.runtime, j.entries)
  {
    forall i | 0 <= i < |j.entries|
      ensures Sub(d.recovery.value, j.entries[i]) == Sub(j.runtime, j.entries[i])
    {
      assert j.entries[i] in Elements(j.entries);
      assert Held(d, j, j.entries[i]);
    }
  }

  /** An entry keeps the reserved place in recovery from being taken. */
  predicate Occupied(j: Job) {
    exists e | e in j.entries :: Extends(BEFORE, e) || (e == BEFORE && Sub(j.runtime, e) != map[e := DirNode])
  }

  /** The reserved place can be taken exactly when no entry occupies it. */
  lemma ReserveIsFreeIff(d: Disk, j: Job)
    requires j.Good() && Out(d, j, Elements(j.entries))
    ensures Replaceable(d.recovery.value, BEFORE, DirNode) <==> !Occupied(j)
  {
    if e :| e in j.entries && (Extends(BEFORE, e) || (e == BEFORE && Sub(j.runtime, e) != map[e := DirNode])) {
      assert Held(d, j, e) && e in Sub(j.runtime, e);
      if Extends(BEFORE, e) { ReservedIsFull(d, j, e); }
    } else {
      ReserveIsFree(d, j);
    }
  }

  lemma ReserveIsFree(d: Disk, j: Job)
    requires j.Good() && Out(d, j, Elements(j.entries)) && !Occupied(j)
    ensures Replaceable(d.recovery.value, BEFORE, DirNode)
  {
    var t := d.recovery.value;
    forall p | p in t && Under(BEFORE, p)
      ensures p == BEFORE && t[p] == DirNode
    {
      if e :| e in j.entries && Under(e, p) {
        AboveComparable(e, BEFORE, p);
        if Under(e, BEFORE) { ReservedIsTop(e); }
        assert e == BEFORE && Held(d, j, e);
        assert p in Sub(t, e) && Sub(t, e)[p] == t[p];
      } else {
        assert !UnderAny(Elements(j.entries), p);
        var e :| e in j.entries && p in Ancestors(e);
        AncestorsAbove(e, p);
        UnderTransitive(BEFORE, p, e);
        ExtendsAt(p, e);
        ExtendsAt(BEFORE, p);
      }
    }
    assert BEFORE in Sub(t, BEFORE) <==> BEFORE in t;
    assert Sub(t, BEFORE) == map[] || Sub(t, BEFORE) == map[BEFORE := DirNode];
  }

  /** The end of a successful upgrade. */
  ghost predicate Done(d: Disk, j: Job) {
    && d.canonical == Staged(j.copied, j.runtime, j.entries)
    && AlikeOff(d.runtime, j.runtime, j.All())
    && (forall e | e in j.entries :: Sub(d.runtime, e) == map[e := LinkNode(e)])
    && SetAside(d, j) && Conserves(d, j)
    && (forall e | e in j.entries && e != BEFORE :: Sub(d.recovery.value, e) == Sub(j.runtime, e))
  }

  lemma CommitIsDone(d: Disk, j: Job, d': Disk)
    requires j.Good() && IsPublished(d, j) && Out(d, j, Elements(j.entries)) && Commits(d, d')
    requires forall e | e in j.entries :: Sub(d.runtime, e) == map[e := LinkNode(e)]
    ensures Done(d', j)
  {
    assert Elements(j.entries) == j.All();
    CommitSetsAside(d, j, d');
    forall e | e in j.entries
      ensures EntryKept(d', j, e) || Overwritten(j, e)
      ensures e != BEFORE ==> Sub(d'.recovery.value, e) == Sub(j.runtime, e)
    {
      CommitLosesIff(d, j, e, d');
    }
  }

  /** What an upgrade comes to when nothing fails. */
  function Expected(j: Job, manifest: seq<Entry>): Outcome {
    if exists e | e in manifest :: !Acceptable(j.runtime, e) then Raised
    else if j.entries == [] then NothingToDo
    else if (exists e | e in j.entries :: Conflicts(j.canonical, e)) || Occupied(j) then Raised
    else Migrated
  }

  /** The transaction, once an unambiguous set of entries is known and nothing is in their way. */
  method Transact(m: Machine, entries: seq<Path>, landed: Tree, ghost j: Job) returns (out: Outcome)
    requires j.Good() && PrefixFree(entries) && entries == j.entries
    requires m.disk == Disk(j.runtime, j.canonical, None, None) && landed == j.copied
    modifies m
    ensures out in {Raised, Incomplete, Migrated}
    ensures Conserves(m.disk, j) && ConservingVisits(old(m.visited), m.visited, j)
    ensures out == Raised ==> m.disk.runtime == j.runtime && m.disk.canonical == j.canonical
    ensures out == Incomplete ==> m.disk.canonical == j.canonical || IsPublished(m.disk, j)
    ensures out == Migrated ==> Done(m.disk, j) && !Occupied(j)
    ensures m.faults == old(m.faults) ==> j.copied == j.canonical && out == if Occupied(j) then Raised else Migrated
    ensures out == Incomplete ==> m.faults > old(m.faults) + if Occupied(j) then 0 else 1
  {
    var ok := StageAndPublish(m, entries, landed, j);
    if !ok { return Raised; }
    var moved;
    ok, moved := Relink(m, entries, j);
    if ok { return Migrated; }
    ok := Undo(m, moved, j);
    out := if ok then Raised else Incomplete;
  }

  method StageAndPublish(m: Machine, entries: seq<Path>, landed: Tree, ghost j: Job) returns (ok: bool)
    requires j.Good() && PrefixFree(entries) && entries == j.entries
    requires m.disk == Disk(j.runtime, j.canonical, None, None) && landed == j.copied
    modifies m
    ensures ok ==> IsPublished(m.disk, j) && m.disk.runtime == j.runtime && m.disk.recovery == None
    ensures m.faults == old(m.faults) ==> j.copied == j.canonical
    ensures !ok ==> m.disk.runtime == j.runtime && m.disk.canonical == j.canonical
    ensures Conserves(m.disk, j) && ConservingVisits(old(m.visited), m.visited, j)
    ensures m.faults >= old(m.faults) && (!ok ==> m.faults > old(m.faults))
  {
    ok := StageCopies(m, entries, landed, j);
    if ok { ok := m.Exchange(); }
    MovedConserves(m.disk, j, []);
    if !ok { CleanUp(m, false, [], j); }
  }

  /** Roll back and clean up. */
  method Undo(m: Machine, moved: seq<Path>, ghost j: Job) returns (complete: bool)
    requires j.Good() && IsPublished(m.disk, j) && MovedSoFar(m.disk, j, moved) && Distinct(moved)
    modifies m
    ensures complete ==> m.disk.runtime == j.runtime && m.disk.canonical == j.canonical
    ensures m.disk.canonical == j.canonical || IsPublished(m.disk, j)
    ensures Conserves(m.disk, j) && ConservingVisits(old(m.visited), m.visited, j)
    ensures m.faults >= old(m.faults) && (!complete ==> m.faults > old(m.faults))
  {
    var published, failures := Rollback(m, moved, j);
    if published { failures := moved; }
    CleanUp(m, published, failures, j);
    complete := !published && failures == [];
  }

  // ---------------------------------------------------------------- what an upgrade is to do

  function Look(t: Tree, p: Path): Option<Node> { if p in t then Some(t[p]) else None }

  /** The entry is absent, its own link, or what the manifest says it is: a directory without a
      link anywhere below, or a file.  Only directories lead to it. */
  ghost predicate Fits(t: Tree, e: Entry) {
    && (forall a | a in t && Extends(a, e.path) :: t[a] == DirNode)
    && (|| e.path !in t || t[e.path] == LinkNode(e.path)
        || (e.directory && t[e.path] == DirNode && forall p | p in t && Extends(e.path, p) :: !t[p].LinkNode?)
        || (!e.directory && exists content :: t[e.path] == FileNode(content)))
  }

  lemma FitsIff(t: Tree, e: Entry)
    ensures Acceptable(t, e) <==> Fits(t, e)
  {
    forall a
      ensures a in Ancestors(e.path) <==> Extends(a, e.path)
    {
      AncestorsAbove(e.path, a);
    }
    if e.path in t && t[e.path] == DirNode {
      var sub := Sub(t, e.path);
      assert forall p :: p in sub <==> p in t && Under(e.path, p);
    }
    if e.path in t && t[e.path].FileNode? { assert t[e.path] == FileNode(t[e.path].content); }
  }

  /** It is there, and not yet a link. */
  predicate Present(t: Tree, e: Entry) { e.path in t && t[e.path] != LinkNode(e.path) }

  /** Canonical state has nothing at `p`, and only directories where it has what leads there. */
  ghost predicate Vacant(canonical: Tree, p: Path) {
    p !in canonical && forall a | a in canonical && Extends(a, p) :: canonical[a] == DirNode
  }

  /** `p` keeps clear of the name under which the old canonical tree is set aside; it may be
      that name itself only as an empty directory. */
  ghost predicate OffReserve(t: Tree, p: Path) {
    && !Extends(".canonical-before", p)
    && (p == ".canonical-before" ==> Look(t, p) == Some(DirNode) && forall q | q in t :: !Extends(p, q))
  }

  lemma OffReserveIff(t: Tree, p: Path)
    requires p in t
    ensures OffReserve(t, p) <==> !(Extends(BEFORE, p) || (p == BEFORE && Sub(t, p) != map[p := DirNode]))
  {
    var sub := Sub(t, p);
    assert forall q :: q in sub <==> q in t && Under(p, q);
    if t[p] == DirNode && forall q | q in t :: !Extends(p, q) { assert sub == map[p := DirNode]; }
  }

  lemma VacantIff(canonical: Tree, p: Path)
    ensures Conflicts(canonical, p) <==> !Vacant(canonical, p)
  {
    forall a
      ensures a in Ancestors(p) <==> Extends(a, p)
    {
      AncestorsAbove(p, a);
    }
  }

  /** Something is there that the manifest does not allow, or that could not be moved. */
  ghost predicate Hindered(runtime: Tree, canonical: Tree, manifest: seq<Entry>) {
    || (exists e | e in manifest :: !Fits(runtime, e))
    || (exists e | e in manifest && Present(runtime, e) :: !Vacant(canonical, e.path) || !OffReserve(runtime, e.path))
  }

  lemma OwnedIsPresent(t: Tree, manifest: seq<Entry>)
    requires forall e | e in manifest :: Fits(t, e)
    ensures forall p :: p in Owned(t, manifest) <==> exists e :: e in manifest && e.path == p && Present(t, e)
  {
    forall p
      ensures p in Owned(t, manifest) <==> exists e :: e in manifest && e.path == p && Present(t, e)
    {
      OwnedHolds(t, manifest, p);
      if p in PathsOf(manifest) {
        var i :| 0 <= i < |manifest| && PathsOf(manifest)[i] == p;
        assert manifest[i] in manifest && Fits(t, manifest[i]);
      }
      if e :| e in manifest && e.path == p && Present(t, e) { PathHeld(manifest, e); }
    }
  }

  /** What is expected, in terms of the trees. */
  lemma ExpectedMeans(j: Job, manifest: seq<Entry>)
    requires j.entries == Owned(j.runtime, manifest)
    ensures Expected(j, manifest) == Raised <==> Hindered(j.runtime, j.canonical, manifest)
    ensures Expected(j, manifest) == NothingToDo <==>
              (forall e | e in manifest :: Fits(j.runtime, e)) && forall e | e in manifest :: !Present(j.runtime, e)
  {
    forall e | e in manifest
      ensures Acceptable(j.runtime, e) <==> Fits(j.runtime, e)
    {
      FitsIff(j.runtime, e);
    }
    if forall e | e in manifest :: Fits(j.runtime, e) {
      OwnedIsPresent(j.runtime, manifest);
      assert j.entries == [] || j.entries[0] in j.entries;
      forall p | p in j.entries
        ensures Conflicts(j.canonical, p) <==> !Vacant(j.canonical, p)
        ensures p in j.runtime
        ensures (Extends(BEFORE, p) || (p == BEFORE && Sub(j.runtime, p) != map[p := DirNode]))
                <==> !OffReserve(j.runtime, p)
      {
        OwnedHolds(j.runtime, manifest, p);
        VacantIff(j.canonical, p);
        OffReserveIff(j.runtime, p);
      }
    }
  }

  /** `t` shows below `p`, and at it, what `u` shows. */
  ghost predicate SameBelow(t: Tree, u: Tree, p: Path) {
    forall q {:trigger Look(t, q)} {:trigger Look(u, q)} | Under(p, q) :: Look(t, q) == Look(u, q)
  }

  lemma SameBelowIff(t: Tree, u: Tree, p: Path)
    ensures Sub(t, p) == Sub(u, p) <==> SameBelow(t, u, p)
  {
    if SameBelow(t, u, p) {
      forall q {:trigger AlikeAt(t, u, q)} | Under(p, q)
        ensures AlikeAt(t, u, q)
      {
        assert Look(t, q) == Look(u, q);
      }
      AlikeSubs(t, u, p);
    }
    if Sub(t, p) == Sub(u, p) {
      forall q | Under(p, q)
        ensures Look(t, q) == Look(u, q)
      {
        SubAlike(t, u, p, q);
      }
    }
  }

  /** A copy of `canonical` is in `t` below the name for it. */
  ghost predicate AsideIn(t: Option<Tree>, canonical: Tree) {
    t.Some? && forall p | p in canonical :: Look(t.value, ".canonical-before" + "/" + p) == Some(canonical[p])
  }

  /** Each entry that was there is at its place or in recovery, but for an empty directory under
      the reserved name, and the old canonical tree is at its place, in the stage or set aside. */
  ghost predicate NothingLost(d: Disk, runtime: Tree, canonical: Tree, manifest: seq<Entry>) {
    && (d.canonical == canonical || d.stage == Some(canonical) || AsideIn(d.recovery, canonical))
    && (forall e | e in manifest && Present(runtime, e) ::
          || SameBelow(d.runtime, runtime, e.path)
          || (d.recovery.Some? && SameBelow(d.recovery.value, runtime, e.path))
          || (e.path == ".canonical-before" && canonical != map[] && OffReserve(runtime, e.path)))
  }

  lemma ConservesMeans(d: Disk, j: Job, manifest: seq<Entry>)
    requires Conserves(d, j) && j.entries == Owned(j.runtime, manifest) && forall e | e in manifest ::
             Fits(j.runtime, e)
    ensures NothingLost(d, j.runtime, j.canonical, manifest)
  {
    OwnedIsPresent(j.runtime, manifest);
    forall e | e in manifest && Present(j.runtime, e)
      ensures || SameBelow(d.runtime, j.runtime, e.path)
              || (d.recovery.Some? && SameBelow(d.recovery.value, j.runtime, e.path))
              || (e.path == ".canonical-before" && j.canonical != map[] && OffReserve(j.runtime, e.path))
    {
      assert e.path in j.entries;
      ExtendsAt(BEFORE, e.path);
      SameBelowIff(d.runtime, j.runtime, e.path);
      if d.recovery.Some? { SameBelowIff(d.recovery.value, j.runtime, e.path); }
      OffReserveIff(j.runtime, e.path);
    }
  }

  /** What an upgrade leaves: each entry that was there is a link, is whole in canonical state
      and, but for the reserved name, in recovery; nothing else of the runtime has changed; the
      old canonical tree is set aside, and the new one is the copy of it with the entries. */
  ghost predicate Moved(d: Disk, runtime: Tree, canonical: Tree, copied: Tree, manifest: seq<Entry>) {
    && d.recovery.Some? && AsideIn(d.recovery, canonical)
    && (forall e | e in manifest && Present(runtime, e) ::
          && Look(d.runtime, e.path) == Some(LinkNode(e.path)) && (forall p | p in d.runtime :: !Extends(e.path, p))
          && SameBelow(d.canonical, runtime, e.path)
          && (e.path != ".canonical-before" ==> SameBelow(d.recovery.value, runtime, e.path)))
    && (forall p | !Inside(runtime, manifest, p) :: Look(d.runtime, p) == Look(runtime, p))
    && (forall p | !Inside(runtime, manifest, p) ::
          Look(d.canonical, p) == if p in copied then Look(copied, p)
                                  else if Above(runtime, manifest, p) then Some(DirNode) else None)
  }

  /** Some entry that is there holds `p`, or `p` leads to it. */
  ghost predicate Inside(runtime: Tree, manifest: seq<Entry>, p: Path) {
    exists e | e in manifest && Present(runtime, e) :: Under(e.path, p)
  }

  ghost predicate Above(runtime: Tree, manifest: seq<Entry>, p: Path) {
    exists e | e in manifest && Present(runtime, e) :: Extends(p, e.path)
  }

  lemma DoneMeans(d: Disk, j: Job, manifest: seq<Entry>)
    requires j.Good() && PrefixFree(j.entries) && Succeeded(d, j, manifest)
    ensures Moved(d, j.runtime, j.canonical, j.copied, manifest)
  {
    forall e | e in manifest
      ensures Fits(j.runtime, e)
    {
      FitsIff(j.runtime, e);
    }
    OwnedIsPresent(j.runtime, manifest);
    forall e | e in manifest && Present(j.runtime, e)
      ensures Look(d.runtime, e.path) == Some(LinkNode(e.path)) && (forall p | p in d.runtime :: !Extends(e.path, p))
      ensures SameBelow(d.canonical, j.runtime, e.path)
      ensures e.path != ".canonical-before" ==> SameBelow(d.recovery.value, j.runtime, e.path)
    {
      assert e.path in j.entries;
      EntryMoved(d, j, e.path);
    }
    forall p | !Inside(j.runtime, manifest, p)
      ensures Look(d.runtime, p) == Look(j.runtime, p)
      ensures Look(d.canonical, p) == if p in j.copied then Look(j.copied, p)
                                      else if Above(j.runtime, manifest, p) then Some(DirNode) else None
    {
      OthersMoved(d, j, manifest, p);
    }
  }

  lemma EntryMoved(d: Disk, j: Job, e: Path)
    requires j.Good() && PrefixFree(j.entries) && Done(d, j) && e in j.entries
    ensures Look(d.runtime, e) == Some(LinkNode(e)) && (forall p | p in d.runtime :: !Extends(e, p))
    ensures SameBelow(d.canonical, j.runtime, e) && (e != BEFORE ==> SameBelow(d.recovery.value, j.runtime, e))
  {
    var sub := Sub(d.runtime, e);
    assert e in sub && sub[e] == LinkNode(e) && forall p :: p in sub <==> p in d.runtime && Under(e, p);
    ExtendsAt(e, e);
    StagedHolds(j.copied, j.runtime, j.entries, e);
    SameBelowIff(d.canonical, j.runtime, e);
    SameBelowIff(d.recovery.value, j.runtime, e);
  }

  lemma OthersMoved(d: Disk, j: Job, manifest: seq<Entry>, p: Path)
    requires j.Good() && PrefixFree(j.entries) && Done(d, j) && !Inside(j.runtime, manifest, p)
    requires forall x :: x in j.entries <==> exists e :: e in manifest && e.path == x && Present(j.runtime, e)
    ensures Look(d.runtime, p) == Look(j.runtime, p)
    ensures Look(d.canonical, p) == if p in j.copied then Look(j.copied, p)
                                    else if Above(j.runtime, manifest, p) then Some(DirNode) else None
  {
    assert !UnderAny(j.All(), p);
    assert AlikeAt(d.runtime, j.runtime, p);
    StagedIs(j.copied, j.runtime, j.entries, p);
    forall x | x in j.entries
      ensures p in Ancestors(x) <==> Extends(p, x)
    {
      AncestorsAbove(x, p);
    }
  }

  /** What is known when an upgrade has migrated. */
  ghost predicate Succeeded(d: Disk, j: Job, manifest: seq<Entry>) {
    && Done(d, j) && j.entries == Owned(j.runtime, manifest)
    && (forall e | e in manifest :: Acceptable(j.runtime, e))
    && Sparing(j.canonical, j.entries) && Sparing(j.copied, j.entries)
  }

  /** The upgrade itself, against what is expected of it. */
  method RunUpgrade(m: Machine, manifest: seq<Entry>) returns (out: Outcome, ghost j: Job)
    requires PrefixFree(PathsOf(manifest)) && Rooted(m.disk.runtime) && Rooted(m.disk.canonical)
    requires m.disk.stage == None && m.disk.recovery == None
    modifies m
    ensures j == Job(old(m.disk.runtime), old(m.disk.canonical), Owned(old(m.disk.runtime), manifest), j.copied)
    ensures Conserves(m.disk, j) && ConservingVisits(old(m.visited), m.visited, j)
    ensures out == NothingToDo ==> m.disk == old(m.disk) && Expected(j, manifest) == NothingToDo
    ensures Expected(j, manifest) == NothingToDo ==> out == NothingToDo
    ensures out == Raised ==> m.disk.runtime == j.runtime && m.disk.canonical == j.canonical
    ensures out == Incomplete ==> m.disk.canonical == j.canonical || IsPublished(m.disk, j)
    ensures out == Migrated ==> Succeeded(m.disk, j, manifest)
    ensures m.faults == old(m.faults) ==> out == Expected(j, manifest) && j.copied == j.canonical
    ensures out == Incomplete ==> m.faults > old(m.faults) + if Occupied(j) then 0 else 1
    ensures m.visited == old(m.visited) || forall e | e in manifest :: Acceptable(j.runtime, e)
  {
    j := Job(m.disk.runtime, m.disk.canonical, Owned(m.disk.runtime, manifest), m.disk.canonical);
    UntouchedConserves(m.disk, j);
    var found := Materialized(m.disk.runtime, manifest);
    if found.None? { return Raised, j; }
    var entries := found.value;
    if entries == [] { return NothingToDo, j; }
    if exists e | e in entries :: Conflicts(m.disk.canonical, e) { return Raised, j; }
    // a copy with something in the way of an entry fails when that entry is copied
    var landed: Tree := *;
    if !Sparing(landed, entries) { landed := m.disk.canonical; }
    j := j.(copied := landed);
    OwnedIsGood(j, manifest);
    out := Transact(m, entries, landed, j);
  }

  /** Move the state materialized in one runtime into canonical state. */
  method Upgrade(m: Machine, manifest: seq<Entry>) returns (out: Outcome, ghost j: Job)
    requires PrefixFree(PathsOf(manifest)) && Rooted(m.disk.runtime) && Rooted(m.disk.canonical)
    requires m.disk.stage == None && m.disk.recovery == None
    modifies m
    ensures j == Job(old(m.disk.runtime), old(m.disk.canonical), Owned(old(m.disk.runtime), manifest), j.copied)
    ensures Conserves(m.disk, j) && ConservingVisits(old(m.visited), m.visited, j)
    ensures out == NothingToDo ==> m.disk == old(m.disk) && Expected(j, manifest) == NothingToDo
    ensures Expected(j, manifest) == NothingToDo ==> out == NothingToDo
    ensures out == Raised ==> m.disk.runtime == j.runtime && m.disk.canonical == j.canonical
    ensures out == Incomplete ==> m.disk.canonical == j.canonical || IsPublished(m.disk, j)
    ensures out == Migrated ==> Succeeded(m.disk, j, manifest)
    ensures m.faults == old(m.faults) ==> out == Expected(j, manifest) && j.copied == j.canonical
    ensures out == Incomplete ==> m.faults > old(m.faults) + if Occupied(j) then 0 else 1
    // the same in terms of the trees alone
    ensures m.faults == old(m.faults) ==>
              out == if Hindered(old(m.disk.runtime), old(m.disk.canonical), manifest) then Raised
                     else if forall e | e in manifest :: !Present(old(m.disk.runtime), e) then NothingToDo
                     else Migrated
    ensures out in {NothingToDo, Migrated} ==> forall e | e in manifest :: Fits(old(m.disk.runtime), e)
    ensures out == Migrated ==> Moved(m.disk, old(m.disk.runtime), old(m.disk.canonical), j.copied, manifest)
    ensures forall d | d in m.visited && d !in old(m.visited) ::
              NothingLost(d, old(m.disk.runtime), old(m.disk.canonical), manifest)
  {
    out, j := RunUpgrade(m, manifest);
    ExpectedMeans(j, manifest);
    AllFitIff(j.runtime, manifest);
    if out == Migrated {
      OwnedIsGood(j, manifest);
      DoneMeans(m.disk, j, manifest);
    }
    forall d | d in m.visited && d !in old(m.visited)
      ensures NothingLost(d, j.runtime, j.canonical, manifest)
    {
      ConservesMeans(d, j, manifest);
    }
  }

  lemma AllFitIff(t: Tree, manifest: seq<Entry>)
    ensures (forall e | e in manifest :: Acceptable(t, e)) <==> forall e | e in manifest :: Fits(t, e)
  {
    forall e | e in manifest
      ensures Acceptable(t, e) <==> Fits(t, e)
    {
      FitsIff(t, e);
    }
  }

  lemma OwnedIsGood(j: Job, manifest: seq<Entry>)
    requires Rooted(j.runtime) && Rooted(j.canonical) && PrefixFree(PathsOf(manifest))
    requires j.entries == Owned(j.runtime, manifest) && Sparing(j.canonical, j.entries) && Sparing(j.copied, j.entries)
    ensures j.Good() && PrefixFree(j.entries)
  {
    OwnedApart(j.runtime, manifest);
    forall a, b | a in j.All() && b in j.All() && a != b
      ensures !Under(a, b)
    {
      var i, k :| 0 <= i < |j.entries| && 0 <= k < |j.entries| && j.entries[i] == a && j.entries[k] == b;
    }
    forall e | e in j.entries
      ensures e in j.runtime && !j.runtime[e].LinkNode?
    {
      OwnedHolds(j.runtime, manifest, e);
    }
  }

  // ---------------------------------------------------------------- what users see

  /** What a read of `p`, at or under the manifest entry `e`, shows in the runtime. */
  function Read(runtime: Tree, canonical: Tree, e: Path, p: Path): Option<Node>
    requires Under(e, p)
  {
    if e in runtime && runtime[e].LinkNode? then Look(canonical, runtime[e].target + p[|e|..]) else Look(runtime, p)
  }

  /** Each manifest entry is one of the owner's or lies apart from all of those. */
  lemma OwnedOrApart(t: Tree, manifest: seq<Entry>, e: Path, x: Path)
    requires PrefixFree(PathsOf(manifest)) && e in PathsOf(manifest) && x in Owned(t, manifest) && x != e
    ensures !Under(x, e) && !Under(e, x)
  {
    OwnedHolds(t, manifest, x);
    var paths := PathsOf(manifest);
    var i, k :| 0 <= i < |paths| && 0 <= k < |paths| && paths[i] == e && paths[k] == x;
  }

  /** The entry is a link in `t`. */
  predicate Links(t: Tree, e: Path) { e in t && t[e].LinkNode? }

  /** A view the upgrade leaves alone: whether a read of manifest state through it changes.  It
      does exactly where it goes through a link, either to what the owner had and is canonical
      now, or to what the copy of the canonical tree got wrong. */
  lemma ViewReadsIff(v: Tree, d: Disk, j: Job, manifest: seq<Entry>, e: Entry, p: Path)
    requires Rooted(j.runtime) && PrefixFree(PathsOf(manifest)) && Succeeded(d, j, manifest)
    requires e in manifest && Acceptable(v, e) && Under(e.path, p)
    ensures Read(v, d.canonical, e.path, p) == Read(v, j.canonical, e.path, p)
            <==> !Links(v, e.path) || if e.path in j.entries then p !in j.runtime else AlikeAt(j.copied, j.canonical, p)
    ensures Links(v, e.path) && e.path in j.entries ==>
              Read(v, j.canonical, e.path, p) == None && Read(v, d.canonical, e.path, p) == Look(j.runtime, p)
  {
    assert e.path + p[|e.path|..] == p by { ExtendsAt(e.path, p); }
    if e.path in j.entries {
      MovedIsCanonical(d, j, manifest, e.path, p);
    } else {
      PathHeld(manifest, e);
      OthersAreCopied(d, j, manifest, e.path, p);
    }
  }

  lemma MovedIsCanonical(d: Disk, j: Job, manifest: seq<Entry>, e: Path, p: Path)
    requires Rooted(j.runtime) && PrefixFree(PathsOf(manifest)) && Succeeded(d, j, manifest)
    requires e in j.entries && Under(e, p)
    ensures AlikeAt(d.canonical, j.runtime, p) && p !in j.canonical
  {
    OwnedIsGood(j, manifest);
    StagedHolds(j.copied, j.runtime, j.entries, e);
    SubAlike(d.canonical, j.runtime, e, p);
    NothingBelowAbsent(j.canonical, e);
    assert p in j.canonical ==> p in Sub(j.canonical, e);
  }

  lemma OthersAreCopied(d: Disk, j: Job, manifest: seq<Entry>, e: Path, p: Path)
    requires Rooted(j.runtime) && PrefixFree(PathsOf(manifest)) && Succeeded(d, j, manifest)
    requires e in PathsOf(manifest) && e !in j.entries && Under(e, p)
    ensures AlikeAt(d.canonical, j.copied, p)
  {
    forall x | x in j.entries
      ensures !Under(x, e) && !Under(e, x)
    {
      OwnedOrApart(j.runtime, manifest, e, x);
    }
    StagedMisses(j.copied, j.runtime, j.entries, e);
    SubAlike(d.canonical, j.copied, e, p);
  }

  /** Through the owner's own runtime every read of manifest state shows what it showed before,
      unless it went through a link already and the copy got that part wrong. */
  lemma OwnerReadsIff(d: Disk, j: Job, manifest: seq<Entry>, e: Entry, p: Path)
    requires Rooted(j.runtime) && PrefixFree(PathsOf(manifest)) && Succeeded(d, j, manifest)
    requires e in manifest && Under(e.path, p)
    ensures Read(d.runtime, d.canonical, e.path, p) == Read(j.runtime, j.canonical, e.path, p)
            <==> Links(j.runtime, e.path) ==> AlikeAt(j.copied, j.canonical, p)
  {
    OwnedIsGood(j, manifest);
    PathHeld(manifest, e);
    OwnedHolds(j.runtime, manifest, e.path);
    if e.path in j.entries {
      assert e.path + p[|e.path|..] == p by { ExtendsAt(e.path, p); }
      assert e.path in Sub(d.runtime, e.path);
      assert Sub(d.runtime, e.path)[e.path] == d.runtime[e.path] == LinkNode(e.path);
      MovedIsCanonical(d, j, manifest, e.path, p);
    } else {
      forall x | x in j.entries
        ensures !Under(x, e.path) && !Under(e.path, x)
      {
        OwnedOrApart(j.runtime, manifest, e.path, x);
      }
      AlikeKeepsOthers(d.runtime, j.runtime, j.All(), e.path);
      SubAlike(d.runtime, j.runtime, e.path, p);
      SubAlike(d.runtime, j.runtime, e.path, e.path);
      ViewReadsIff(j.runtime, d, j, manifest, e, p);
    }
  }

  /** So after an upgrade in which nothing went wrong every read of manifest state through the
      owner's runtime is unchanged. */
  lemma ReadsUnchanged(d: Disk, j: Job, manifest: seq<Entry>, e: Entry, p: Path)
    requires Rooted(j.runtime) && PrefixFree(PathsOf(manifest)) && Succeeded(d, j, manifest)
    requires e in manifest && Under(e.path, p) && j.copied == j.canonical
    ensures Read(d.runtime, d.canonical, e.path, p) == Read(j.runtime, j.canonical, e.path, p)
  {
    OwnerReadsIff(d, j, manifest, e, p);
  }

  /** The new canonical tree is the old one with the entries, off the entries and the directories
      that lead to them, exactly if the copy was whole there. */
  lemma PublishedWholeIff(j: Job)
    requires j.Good() && PrefixFree(j.entries)
    ensures (forall p | !UnderAny(j.All(), p) && !Leads(j.entries, p) ::
            AlikeAt(Staged(j.copied, j.runtime, j.entries), j.canonical, p))
            <==> forall p | !UnderAny(j.All(), p) && !Leads(j.entries, p) :: AlikeAt(j.copied, j.canonical, p)
  {
    forall p | !UnderAny(j.All(), p) && !Leads(j.entries, p)
      ensures AlikeAt(Staged(j.copied, j.runtime, j.entries), j.canonical, p) <==> AlikeAt(j.copied, j.canonical, p)
    {
      StagedIs(j.copied, j.runtime, j.entries, p);
    }
  }

  predicate Leads(entries: seq<Path>, p: Path) { exists e | e in entries :: p in Ancestors(e) }

  lemma PathHeld(manifest: seq<Entry>, e: Entry)
    requires e in manifest
    ensures e.path in PathsOf(manifest)
  {
    var i :| 0 <= i < |manifest| && manifest[i] == e;
    assert PathsOf(manifest)[i] == e.path;
  }

  // ---------------------------------------------------------------- a second upgrade

  /** Afterwards every manifest entry is acceptable and none is materialized. */
  lemma NothingLeftToDo(d: Disk, j: Job, manifest: seq<Entry>)
    requires Rooted(j.runtime) && PrefixFree(PathsOf(manifest)) && Succeeded(d, j, manifest)
    ensures Owned(d.runtime, manifest) == [] && forall e | e in manifest :: Acceptable(d.runtime, e)
  {
    OwnedIsGood(j, manifest);
    var owned := Owned(d.runtime, manifest);
    assert owned == [] || owned[0] in owned;
    forall e | e in manifest
      ensures Acceptable(d.runtime, e) && e.path !in owned
    {
      StaysAcceptable(d, j, manifest, e);
    }
    forall p
      ensures p !in owned
    {
      OwnedHolds(d.runtime, manifest, p);
      if i :| 0 <= i < |manifest| && PathsOf(manifest)[i] == p {
        assert manifest[i] in manifest;
      }
    }
  }

  /** Both trees are trees again. */
  lemma StaysRooted(d: Disk, j: Job)
    requires j.Good() && PrefixFree(j.entries) && Done(d, j)
    ensures Rooted(d.runtime) && Rooted(d.canonical)
  {
    forall p, a | p in d.runtime && a in Ancestors(p)
      ensures a in d.runtime && d.runtime[a] == DirNode
    {
      RuntimeStaysRooted(d, j, p, a);
    }
    CanonicalStaysRooted(j);
  }

  lemma CanonicalStaysRooted(j: Job)
    requires j.Good() && PrefixFree(j.entries)
    ensures Rooted(Staged(j.copied, j.runtime, j.entries))
  {
    var t := Staged(j.copied, j.runtime, j.entries);
    forall p, a | p in t && a in Ancestors(p)
      ensures a in t && t[a] == DirNode
    {
      StagedStaysRooted(j, p, a);
    }
  }

  lemma RuntimeStaysRooted(d: Disk, j: Job, p: Path, a: Path)
    requires j.Good() && Done(d, j) && p in d.runtime && a in Ancestors(p)
    ensures IsDirectory(d.runtime, a)
  {
    if e :| e in j.All() && Under(e, p) {
      assert p in Sub(d.runtime, e);
      RuntimeParentsThere(d.runtime, j, j.All(), e);
    } else {
      assert AlikeAt(d.runtime, j.runtime, p);
      AncestorsAbove(p, a);
      if x :| x in j.All() && Under(x, a) { UnderTransitive(x, a, p); }
      assert AlikeAt(d.runtime, j.runtime, a);
    }
  }

  lemma StagedStaysRooted(j: Job, p: Path, a: Path)
    requires j.Good() && PrefixFree(j.entries) && p in Staged(j.copied, j.runtime, j.entries) && a in Ancestors(p)
    ensures IsDirectory(Staged(j.copied, j.runtime, j.entries), a)
  {
    AncestorsAbove(p, a);
    StagedIs(j.copied, j.runtime, j.entries, p);
    if e :| e in j.All() && Under(e, p) {
      CopiedStaysRooted(j, e, p, a);
    } else if p in j.copied {
      if x :| x in j.All() && Under(x, a) { UnderTransitive(x, a, p); }
      StagedIs(j.copied, j.runtime, j.entries, a);
    } else {
      var e :| e in j.entries && p in Ancestors(e);
      AncestorsAbove(e, p);
      AboveEntryIsDirectory(j, e, p, a);
    }
  }

  predicate IsDirectory(t: Tree, a: Path) { a in t && t[a] == DirNode }

  lemma CopiedStaysRooted(j: Job, e: Path, p: Path, a: Path)
    requires j.Good() && PrefixFree(j.entries) && e in j.entries && Under(e, p) && a in Ancestors(p)
    requires p in Staged(j.copied, j.runtime, j.entries)
    ensures IsDirectory(Staged(j.copied, j.runtime, j.entries), a)
  {
    AncestorsAbove(p, a);
    AboveComparable(e, a, p);
    if Under(e, a) {
      StagedHolds(j.copied, j.runtime, j.entries, e);
      SubAlike(Staged(j.copied, j.runtime, j.entries), j.runtime, e, p);
      SubAlike(Staged(j.copied, j.runtime, j.entries), j.runtime, e, a);
    } else {
      AboveEntryIsDirectory(j, e, e, a);
    }
  }

  lemma AboveEntryIsDirectory(j: Job, e: Path, p: Path, a: Path)
    requires j.Good() && PrefixFree(j.entries) && e in j.entries && Extends(a, p) && Under(p, e)
    ensures IsDirectory(Staged(j.copied, j.runtime, j.entries), a)
  {
    UnderTransitive(a, p, e);
    ExtendsAt(a, p);
    ExtendsAt(p, e);
    AncestorsAbove(e, a);
    ParentsStayOut(j, j.All(), e, a);
    StagedIs(j.copied, j.runtime, j.entries, a);
  }

  /** A second upgrade, with a stage and a recovery directory of its own, finds nothing to do
      after a successful first, and leaves both trees alone. */
  method UpgradeTwice(m: Machine, manifest: seq<Entry>)
    returns (first: Outcome, second: Outcome, ghost j: Job, ghost between: Disk)
    requires PrefixFree(PathsOf(manifest)) && Rooted(m.disk.runtime) && Rooted(m.disk.canonical)
    requires m.disk.stage == None && m.disk.recovery == None
    modifies m
    ensures j == Job(old(m.disk.runtime), old(m.disk.canonical), Owned(old(m.disk.runtime), manifest), j.copied)
    ensures first == Migrated ==> Succeeded(between, j, manifest)
    ensures first == Migrated ==>
              second == NothingToDo && m.disk.runtime == between.runtime && m.disk.canonical == between.canonical
  {
    first, j := RunUpgrade(m, manifest);
    second, between := first, m.disk;
    if first == Migrated {
      OwnedIsGood(j, manifest);
      StaysRooted(m.disk, j);
      NothingLeftToDo(m.disk, j, manifest);
      m.disk := m.disk.(stage := None, recovery := None);
      ghost var again;
      second, again := RunUpgrade(m, manifest);
    }
  }

  lemma StaysAcceptable(d: Disk, j: Job, manifest: seq<Entry>, e: Entry)
    requires j.Good() && PrefixFree(PathsOf(manifest)) && j.entries == Owned(j.runtime, manifest)
    requires Done(d, j) && e in manifest && Acceptable(j.runtime, e)
    ensures Acceptable(d.runtime, e) && e.path !in Owned(d.runtime, manifest)
  {
    var p := e.path;
    PathHeld(manifest, e);
    OwnedHolds(j.runtime, manifest, p);
    OwnedHolds(d.runtime, manifest, p);
    forall x | x in j.entries && x != p
      ensures !Under(x, p) && !Under(p, x)
    {
      OwnedOrApart(j.runtime, manifest, p, x);
    }
    forall a | a in Ancestors(p)
      ensures AlikeAt(d.runtime, j.runtime, a)
    {
      AncestorsAbove(p, a);
      if x :| x in j.All() && Under(x, a) {
        UnderTransitive(x, a, p);
        ExtendsAt(a, p);
        ExtendsAt(p, a);
      }
    }
    if p in j.entries {
      assert p in Sub(d.runtime, p);
      assert Sub(d.runtime, p)[p] == d.runtime[p];
    } else {
      AlikeKeepsOthers(d.runtime, j.runtime, j.All(), p);
      SubAlike(d.runtime, j.runtime, p, p);
    }
  }
}
