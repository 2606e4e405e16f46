/** Processes as the guardian sees them, and the operating system they live in.

    `Table` is what one snapshot of the process table shows.  `World` adds what no
    snapshot shows: which processes transitively spawned each process, and which
    processes are subreapers.  Start times are fresh, strictly increasing tokens. */
module Processes {

  type Pid = nat

  /** A process instance: a pid alone may be reused, a (pid, start) pair is not. */
  datatype Key = Key(pid: Pid, start: nat)

  /** What the guardian remembers of a process. */
  datatype Identity = Identity(pid: Pid, start: nat, binary: string, pgrp: nat) {
    function Instance(): Key { Key(pid, start) }
  }

  datatype Proc = Proc(start: nat, ppid: Pid, pgrp: nat, exe: string, argv: seq<string>, zombie: bool)

  type Table = map<Pid, Proc>

  predicate Live(t: Table, k: Key) {
    k.pid in t && t[k.pid].start == k.start && !t[k.pid].zombie
  }

  predicate BinaryShows(p: Proc, binary: string) {
    p.exe == binary || binary in p.argv
  }

  /** A remembered identity matches when its instance is live and still shows its binary. */
  predicate IdentityMatches(id: Identity, t: Table) {
    Live(t, id.Instance()) && BinaryShows(t[id.pid], id.binary)
  }

  /** A process of the instance remembered is there, not dead, and runs the binary remembered: as
      its executable or as one of its arguments. */
  predicate Shows(t: Table, id: Identity) {
    exists pid | pid in t ::
      && pid == id.pid && t[pid].start == id.start && !t[pid].zombie
      && (t[pid].exe == id.binary || exists k | 0 <= k < |t[pid].argv| :: t[pid].argv[k] == id.binary)
  }

  lemma MatchingIsShowing(id: Identity, t: Table)
    ensures IdentityMatches(id, t) <==> Shows(t, id)
  {
    if IdentityMatches(id, t) { assert id.pid in t; }
  }

  predicate GroupActive(t: Table, pgrp: nat) {
    exists pid | pid in t :: t[pid].pgrp == pgrp && !t[pid].zombie
  }

  // ---------------------------------------------------------------- ancestry

  /** `pid` is exactly `n` parent steps below `g`, every step inside the table. */
  ghost predicate ReachesIn(t: Table, pid: Pid, g: Pid, n: nat)
    decreases n
  {
    if n == 0 then pid == g
    else pid != g && pid in t && ReachesIn(t, t[pid].ppid, g, n - 1)
  }

  /** The parent chain of `pid` leads to `g`. */
  ghost predicate Reaches(t: Table, pid: Pid, g: Pid) {
    exists n: nat :: ReachesIn(t, pid, g, n)
  }

  /** Parent by parent: each process of `chain` is the child of the next, and only the last is `g`. */
  predicate Climbs(t: Table, chain: seq<Pid>, g: Pid) {
    && chain != [] && chain[|chain| - 1] == g
    && forall i | 0 <= i < |chain| - 1 :: chain[i] != g && chain[i] in t && t[chain[i]].ppid == chain[i + 1]
  }

  /** Descent is a chain of parents. */
  lemma ReachesIsClimb(t: Table, pid: Pid, g: Pid)
    ensures Reaches(t, pid, g) <==> exists chain :: Climbs(t, chain, g) && chain[0] == pid
  {
    if n: nat :| ReachesIn(t, pid, g, n) {
      var chain := ClimbOf(t, pid, g, n);
    }
    if chain :| Climbs(t, chain, g) && chain[0] == pid {
      ClimbReaches(t, chain, g);
    }
  }

  lemma {:induction false} ClimbOf(t: Table, pid: Pid, g: Pid, n: nat) returns (chain: seq<Pid>)
    requires ReachesIn(t, pid, g, n)
    ensures Climbs(t, chain, g) && chain[0] == pid
    decreases n
  {
    if n == 0 {
      chain := [pid];
    } else {
      var rest := ClimbOf(t, t[pid].ppid, g, n - 1);
      chain := [pid] + rest;
    }
  }

  lemma {:induction false} ClimbReaches(t: Table, chain: seq<Pid>, g: Pid)
    requires Climbs(t, chain, g)
    ensures ReachesIn(t, chain[0], g, |chain| - 1)
    decreases |chain|
  {
    if |chain| > 1 {
      assert Climbs(t, chain[1..], g);
      ClimbReaches(t, chain[1..], g);
    }
  }

  /** Whatever reaches `g` from `low` passes `high`, `d` steps up. */
  ghost predicate Passes(t: Table, low: Pid, high: Pid, g: Pid, d: nat) {
    forall m: nat :: ReachesIn(t, low, g, m) ==> m >= d && ReachesIn(t, high, g, m - d)
  }

  lemma {:induction false} DistanceUnique(t: Table, pid: Pid, g: Pid, m: nat, n: nat)
    requires ReachesIn(t, pid, g, m) && ReachesIn(t, pid, g, n)
    ensures m == n
    decreases m
  {
    if m > 0 && n > 0 {
      DistanceUnique(t, t[pid].ppid, g, m - 1, n - 1);
    }
  }

  /** A chain that returns to `pid` after d > 0 steps short of `g` can never arrive. */
  lemma {:induction false} CycleNeverArrives(t: Table, pid: Pid, g: Pid, d: nat)
    requires d > 0
    requires Passes(t, pid, pid, g, d)
    ensures !Reaches(t, pid, g)
  {
    if n: nat :| ReachesIn(t, pid, g, n) {
      DistanceUnique(t, pid, g, n, n - d);
    }
  }

  /** The walk with a visited set decides ancestry on every table, cyclic ones included. */
  method Descendant(start: Pid, g: Pid, t: Table) returns (found: bool)
    ensures found <==> Reaches(t, start, g)
    ensures found <==> exists chain :: Climbs(t, chain, g) && chain[0] == start
  {
    ReachesIsClimb(t, start, g);
    var pid := start;
    var seen: set<Pid> := {};
    ghost var steps: nat := 0;
    ghost var back: map<Pid, nat> := map[];
    while pid != g
      invariant seen <= t.Keys && back.Keys == seen
      invariant Passes(t, start, pid, g, steps)
      invariant forall n: nat :: ReachesIn(t, pid, g, n) ==> ReachesIn(t, start, g, n + steps)
      invariant forall s | s in seen :: 0 < back[s] && Passes(t, s, pid, g, back[s])
      decreases t.Keys - seen
    {
      if pid in seen {
        CycleNeverArrives(t, pid, g, back[pid]);
        return false;
      }
      if pid !in t {
        return false;
      }
      var next := t[pid].ppid;
      assert forall n: nat :: ReachesIn(t, next, g, n) ==> ReachesIn(t, pid, g, n + 1);
      assert Passes(t, pid, next, g, 1);
      ghost var before := back;
      back := (map s | s in seen :: before[s] + 1)[pid := 1];
      seen := seen + {pid};
      steps := steps + 1;
      pid := next;
    }
    assert ReachesIn(t, pid, g, 0);
    return true;
  }

  /** Some non-zombie process outside the ignored groups, other than `g`, descends from `g`. */
  ghost predicate ActiveDescendant(t: Table, g: Pid, ignored: set<nat>) {
    exists pid | pid in t :: pid != g && !t[pid].zombie && t[pid].pgrp !in ignored && Reaches(t, pid, g)
  }

  lemma ActiveIsClimb(t: Table, g: Pid, ignored: set<nat>)
    ensures ActiveDescendant(t, g, ignored) <==> exists chain | Climbs(t, chain, g) && |chain| > 1 ::
              !t[chain[0]].zombie && t[chain[0]].pgrp !in ignored
  {
    if pid :| pid in t && pid != g && !t[pid].zombie && t[pid].pgrp !in ignored && Reaches(t, pid, g) {
      ReachesIsClimb(t, pid, g);
      var chain :| Climbs(t, chain, g) && chain[0] == pid;
      assert |chain| > 1;
    }
    if chain :| Climbs(t, chain, g) && |chain| > 1 && !t[chain[0]].zombie && t[chain[0]].pgrp !in ignored {
      ReachesIsClimb(t, chain[0], g);
      assert chain[0] != g && chain[0] in t;
    }
  }

  method UnexpectedDescendant(g: Pid, t: Table, ignored: set<nat>) returns (found: bool)
    ensures found <==> ActiveDescendant(t, g, ignored)
    ensures found <==> exists chain | Climbs(t, chain, g) && |chain| > 1 ::
              !t[chain[0]].zombie && t[chain[0]].pgrp !in ignored
  {
    ActiveIsClimb(t, g, ignored);
    var rest := t.Keys;
    while rest != {}
      invariant rest <= t.Keys
      invariant forall pid | pid in t && pid !in rest ::
        !(pid != g && !t[pid].zombie && t[pid].pgrp !in ignored && Reaches(t, pid, g))
    {
      var pid :| pid in rest;
      if pid != g && !t[pid].zombie && t[pid].pgrp !in ignored {
        var below := Descendant(pid, g, t);
        if below { return true; }
      }
      rest := rest - {pid};
    }
    return false;
  }

  ghost predicate ParentClosed(t: Table, known: set<Pid>) {
    forall pid | pid in t :: t[pid].ppid in known ==> pid in known
  }

  lemma {:induction false} ClosedHoldsDescendants(t: Table, known: set<Pid>, pid: Pid, g: Pid, n: nat)
    requires ParentClosed(t, known) && g in known && ReachesIn(t, pid, g, n)
    ensures pid in known
    decreases n
  {
    if n > 0 {
      ClosedHoldsDescendants(t, known, t[pid].ppid, g, n - 1);
    }
  }

  /** The multi-pass fixpoint finds exactly what the per-process parent walk finds. */
  method DescendantsActive(g: Pid, t: Table) returns (found: bool)
    ensures found <==> ActiveDescendant(t, g, {})
    ensures found <==> exists chain | Climbs(t, chain, g) && |chain| > 1 :: !t[chain[0]].zombie
  {
    ActiveIsClimb(t, g, {});
    var known := {g};
    found := false;
    var changed := true;
    assert ReachesIn(t, g, g, 0);
    while changed
      invariant g in known && known <= t.Keys + {g}
      invariant forall pid | pid in known :: Reaches(t, pid, g)
      invariant found <==> exists pid | pid in known && pid in t :: pid != g && !t[pid].zombie
      invariant !changed ==> ParentClosed(t, known)
      decreases t.Keys + {g} - known, changed
    {
      changed := false;
      ghost var before := known;
      var rest := t.Keys;
      while rest != {}
        invariant rest <= t.Keys && before <= known && g in known && known <= t.Keys + {g}
        invariant !changed ==> known == before
        invariant changed ==> exists pid :: pid in known && pid !in before
        invariant forall pid | pid in known :: Reaches(t, pid, g)
        invariant found <==> exists pid | pid in known && pid in t :: pid != g && !t[pid].zombie
        invariant !changed ==> forall pid | pid in t && pid !in rest :: t[pid].ppid in known ==> pid in known
      {
        var pid :| pid in rest;
        if t[pid].ppid in known && pid !in known {
          ghost var n: nat :| ReachesIn(t, t[pid].ppid, g, n);
          assert ReachesIn(t, pid, g, n + 1);
          known := known + {pid};
          found := found || !t[pid].zombie;
          changed := true;
        }
        rest := rest - {pid};
      }
    }
    forall pid | pid in t && Reaches(t, pid, g)
      ensures pid in known
    {
      var n: nat :| ReachesIn(t, pid, g, n);
      ClosedHoldsDescendants(t, known, pid, g, n);
    }
  }

  // ---------------------------------------------------------------- the world

  const INIT_PID: Pid := 1

  datatype World = World(table: Table, origin: map<Pid, set<Key>>, subreapers: set<Pid>, clock: nat) {
    function KeyOf(pid: Pid): Key
      requires pid in table
    {
      Key(pid, table[pid].start)
    }

    /** The parent is present, live and older. */
    ghost predicate Parented(pid: Pid)
      requires pid in table
    {
      var up := table[pid].ppid;
      up in table && !table[up].zombie && table[up].start < table[pid].start
    }

    ghost predicate Dated(pid: Pid)
      requires pid in table && pid in origin
    {
      table[pid].start < clock && forall k | k in origin[pid] :: k.start < table[pid].start
    }

    ghost predicate Wf() {
      && INIT_PID in table && INIT_PID in subreapers
      && origin.Keys == table.Keys && subreapers <= table.Keys
      && (forall pid {:trigger Parented(pid)} | pid in table && pid != INIT_PID :: Parented(pid))
      && (forall pid {:trigger Dated(pid)} | pid in table :: Dated(pid))
      && (forall pid | pid in subreapers :: !table[pid].zombie)
    }
  }

  datatype Action =
    | Fork(parent: Pid, child: Pid)
    | Alter(pid: Pid, exe: string, argv: seq<string>, pgrp: nat)  // exec, setsid, setpgid
    | Exit(pid: Pid)
    | Reap(pid: Pid)
    | Subreap(pid: Pid)

  predicate Enabled(w: World, a: Action) {
    match a
    case Fork(parent, child) => parent in w.table && !w.table[parent].zombie && child !in w.table
    case Alter(pid, _, _, _) => pid in w.table && !w.table[pid].zombie
    case Exit(pid) => pid in w.table && !w.table[pid].zombie && pid != INIT_PID
    case Reap(pid) => pid in w.table && w.table[pid].zombie
    case Subreap(pid) => pid in w.table && !w.table[pid].zombie
  }

  /** The nearest subreaper above `pid`, where its orphans go. */
  ghost function Reaper(w: World, pid: Pid): (r: Pid)
    requires w.Wf() && pid in w.table && pid != INIT_PID
    ensures r in w.subreapers && w.table[r].start < w.table[pid].start
    decreases w.table[pid].start
  {
    assert w.Parented(pid);
    var up := w.table[pid].ppid;
    if up in w.subreapers then up else Reaper(w, up)
  }

  function AfterFork(w: World, parent: Pid, child: Pid): World
    requires parent in w.table && w.origin.Keys == w.table.Keys
  {
    World(w.table[child := w.table[parent].(start := w.clock, ppid := parent)],
          w.origin[child := w.origin[parent] + {w.KeyOf(parent)}],
          w.subreapers, w.clock + 1)
  }

  /** What becomes of `p` when `dead` exits and `up` takes its children. */
  function Outliving(p: Pid, proc: Proc, dead: Pid, up: Pid): Proc {
    if p == dead then proc.(zombie := true)
    else if proc.ppid == dead && p != INIT_PID then proc.(ppid := up)
    else proc
  }

  function AfterExit(w: World, pid: Pid, up: Pid): World {
    w.(table := map p | p in w.table :: Outliving(p, w.table[p], pid, up), subreapers := w.subreapers - {pid})
  }

  ghost function Step(w: World, a: Action): (w': World)
    requires w.Wf() && Enabled(w, a)
  {
    match a
    case Fork(parent, child) => AfterFork(w, parent, child)
    case Alter(pid, exe, argv, pgrp) =>
      w.(table := w.table[pid := w.table[pid].(exe := exe, argv := argv, pgrp := pgrp)])
    case Exit(pid) => AfterExit(w, pid, Reaper(w, pid))
    case Reap(pid) => w.(table := w.table - {pid}, origin := w.origin - {pid})
    case Subreap(pid) => w.(subreapers := w.subreapers + {pid})
  }

  lemma ForkKeepsWf(w: World, parent: Pid, child: Pid)
    requires w.Wf() && Enabled(w, Fork(parent, child))
    ensures AfterFork(w, parent, child).Wf()
  {
    var w' := AfterFork(w, parent, child);
    forall p | p in w'.table && p != INIT_PID
      ensures w'.Parented(p)
    {
      assert p != child ==> w.Parented(p);
      assert w.Dated(parent);
    }
    forall p | p in w'.table
      ensures w'.Dated(p)
    {
      assert w.Dated(if p == child then parent else p);
    }
  }

  lemma ExitKeepsParent(w: World, pid: Pid, up: Pid, p: Pid)
    requires w.Wf() && Enabled(w, Exit(pid))
    requires up in w.subreapers && w.table[up].start < w.table[pid].start
    requires p in w.table && p != INIT_PID
    ensures AfterExit(w, pid, up).Parented(p)
  {
    assert w.Parented(p) && w.Parented(pid);
  }

  lemma ExitKeepsWf(w: World, pid: Pid, up: Pid)
    requires w.Wf() && Enabled(w, Exit(pid))
    requires up in w.subreapers && w.table[up].start < w.table[pid].start
    ensures AfterExit(w, pid, up).Wf()
  {
    var w' := AfterExit(w, pid, up);
    assert forall p | p in w'.table :: w'.table[p].start == w.table[p].start;
    forall p | p in w'.table && p != INIT_PID
      ensures w'.Parented(p)
    {
      ExitKeepsParent(w, pid, up, p);
    }
    forall p | p in w'.table
      ensures w'.Dated(p)
    {
      assert w.Dated(p);
    }
  }

  lemma ReapKeepsWf(w: World, pid: Pid)
    requires w.Wf() && Enabled(w, Reap(pid))
    ensures Step(w, Reap(pid)).Wf()
  {
    var w' := Step(w, Reap(pid));
    forall p | p in w'.table && p != INIT_PID
      ensures w'.Parented(p)
    {
      assert w.Parented(p);
    }
    forall p | p in w'.table
      ensures w'.Dated(p)
    {
      assert w.Dated(p);
    }
  }

  /** Neither an exec nor a new subreaper changes who descends from whom. */
  lemma SameFamilyKeepsWf(w: World, w': World)
    requires w.Wf() && w'.table.Keys == w.table.Keys && w'.origin == w.origin && w'.clock == w.clock
    requires forall p | p in w.table ::
      var a, b := w.table[p], w'.table[p]; a.start == b.start && a.ppid == b.ppid && a.zombie == b.zombie
    requires w.subreapers <= w'.subreapers <= w.table.Keys
    requires forall p | p in w'.subreapers :: !w'.table[p].zombie
    ensures w'.Wf()
  {
    forall p | p in w'.table && p != INIT_PID
      ensures w'.Parented(p)
    {
      assert w.Parented(p);
    }
    forall p | p in w'.table
      ensures w'.Dated(p)
    {
      assert w.Dated(p);
    }
  }

  lemma StepKeepsWf(w: World, a: Action)
    requires w.Wf() && Enabled(w, a)
    ensures Step(w, a).Wf()
  {
    match a
    case Fork(parent, child) => ForkKeepsWf(w, parent, child);
    case Exit(pid) => ExitKeepsWf(w, pid, Reaper(w, pid));
    case Reap(pid) => ReapKeepsWf(w, pid);
    case _ => SameFamilyKeepsWf(w, Step(w, a));
  }

  // ---------------------------------------------------------------- process trees

  ghost predicate Spawned(w: World, r: Key, pid: Pid) {
    pid in w.table && pid in w.origin && (w.KeyOf(pid) == r || r in w.origin[pid])
  }

  /** No live process is `r` or was transitively spawned by it. */
  ghost predicate Extinct(w: World, r: Key) {
    forall pid | pid in w.table :: Spawned(w, r, pid) ==> w.table[pid].zombie
  }

  lemma ExtinctForever(w: World, a: Action, r: Key)
    requires w.Wf() && Enabled(w, a) && Extinct(w, r) && r.start < w.clock
    ensures Extinct(Step(w, a), r)
  {
  }

  /** Everything `g` spawned hangs below `g`: its parent is `g` or spawned by `g` too. */
  ghost predicate Anchored(w: World, g: Key) {
    && Live(w.table, g) && g.pid in w.subreapers && g.pid != INIT_PID
    && (forall pid | pid in w.table && pid in w.origin && g in w.origin[pid] ::
          && pid != INIT_PID
          && (w.table[pid].ppid == g.pid
              || (w.table[pid].ppid in w.origin && g in w.origin[w.table[pid].ppid])))
  }

  lemma {:induction false} ReaperStaysBelow(w: World, g: Key, pid: Pid)
    requires w.Wf() && Anchored(w, g) && pid in w.table && g in w.origin[pid]
    ensures Reaper(w, pid) == g.pid || g in w.origin[Reaper(w, pid)]
    decreases w.table[pid].start
  {
    assert w.Parented(pid);
    var up := w.table[pid].ppid;
    if up !in w.subreapers {
      ReaperStaysBelow(w, g, up);
    }
  }

  lemma ExitKeepsAnchor(w: World, g: Key, pid: Pid, up: Pid)
    requires w.Wf() && Anchored(w, g) && Enabled(w, Exit(pid)) && pid != g.pid && up in w.table
    requires g in w.origin[pid] ==> up == g.pid || g in w.origin[up]
    ensures Anchored(AfterExit(w, pid, up), g)
  {
  }

  /** Subreaping keeps the whole tree below `g`, however its members fork and die. */
  lemma AnchorKept(w: World, g: Key, a: Action)
    requires w.Wf() && Anchored(w, g) && Enabled(w, a) && a != Exit(g.pid)
    ensures Anchored(Step(w, a), g)
  {
    match a
    case Exit(pid) =>
      if g in w.origin[pid] {
        ReaperStaysBelow(w, g, pid);
      }
      ExitKeepsAnchor(w, g, pid, Reaper(w, pid));
    case Fork(parent, child) => assert w.Dated(parent);
    case Reap(pid) => assert forall p | p in w.table && p != INIT_PID :: w.Parented(p);
    case _ =>
  }

  /** A live process that `g` spawned is found by the parent walk. */
  lemma {:induction false} TreeReaches(w: World, g: Key, pid: Pid)
    requires w.Wf() && Anchored(w, g) && pid in w.table && g in w.origin[pid]
    ensures Reaches(w.table, pid, g.pid)
    decreases w.table[pid].start
  {
    assert w.Parented(pid) && w.Dated(pid);
    var up := w.table[pid].ppid;
    if up == g.pid {
      assert ReachesIn(w.table, up, g.pid, 0);
      assert ReachesIn(w.table, pid, g.pid, 1);
    } else {
      TreeReaches(w, g, up);
      var n: nat :| ReachesIn(w.table, up, g.pid, n);
      assert ReachesIn(w.table, pid, g.pid, n + 1);
    }
  }

  /** So a negative fixpoint is a proof that nothing the guardian spawned is alive. */
  lemma QuietMeansExtinct(w: World, g: Key)
    requires w.Wf() && Anchored(w, g)
    ensures !ActiveDescendant(w.table, g.pid, {}) ==>
              forall pid | pid in w.table && g in w.origin[pid] :: w.table[pid].zombie
  {
    forall pid | pid in w.table && g in w.origin[pid]
      ensures Reaches(w.table, pid, g.pid) && pid != g.pid
    {
      assert w.Dated(pid);
      TreeReaches(w, g, pid);
    }
  }

  /** Parents are ancestors: `p`'s parent, and whoever spawned that, transitively spawned `p`. */
  ghost predicate Kindred(w: World, p: Pid)
    requires p in w.table && p in w.origin
  {
    var up := w.table[p].ppid;
    up in w.table && up in w.origin && w.KeyOf(up) in w.origin[p] && w.origin[up] <= w.origin[p]
  }

  /** No process has pid 0, which is init's parent. */
  ghost predicate Kin(w: World)
    requires w.Wf()
  {
    && 0 !in w.table && w.table[INIT_PID].ppid == 0
    && forall p {:trigger Kindred(w, p)} | p in w.table && p != INIT_PID :: Kindred(w, p)
  }

  lemma {:induction false} ReaperIsKin(w: World, pid: Pid)
    requires w.Wf() && Kin(w) && pid in w.table && pid != INIT_PID
    ensures var up := Reaper(w, pid); w.KeyOf(up) in w.origin[pid] && w.origin[up] <= w.origin[pid]
    decreases w.table[pid].start
  {
    assert Kindred(w, pid) && w.Parented(pid);
    var up := w.table[pid].ppid;
    if up !in w.subreapers { ReaperIsKin(w, up); }
  }

  lemma StepKeepsKin(w: World, a: Action)
    requires w.Wf() && Enabled(w, a) && Kin(w) && (a.Fork? ==> a.child != 0)
    ensures Step(w, a).Wf() && Kin(Step(w, a))
  {
    StepKeepsWf(w, a);
    var w' := Step(w, a);
    if a.Exit? { ReaperIsKin(w, a.pid); }
    forall p | p in w'.table && p != INIT_PID
      ensures Kindred(w', p)
    {
      assert w'.Parented(p) && (p in w.table ==> Kindred(w, p) && w.Parented(p));
      if a.Fork? { assert w.Parented(a.parent) || a.parent == INIT_PID; }
    }
  }

  /** The parent walk finds nobody else. */
  lemma {:induction false} ReachedIsSpawner(w: World, g: Pid, pid: Pid, n: nat)
    requires w.Wf() && Kin(w) && g in w.table && pid in w.table && n > 0 && ReachesIn(w.table, pid, g, n)
    ensures w.KeyOf(g) in w.origin[pid]
    decreases n
  {
    var up := w.table[pid].ppid;
    assert ReachesIn(w.table, up, g, n - 1);
    if pid != INIT_PID {
      assert Kindred(w, pid);
      if n > 1 { ReachedIsSpawner(w, g, up, n - 1); }
    }
  }

  /** A subreaper's tree is extinct exactly when the walk finds no active descendant. */
  lemma QuietIffExtinct(w: World, g: Key)
    requires w.Wf() && Kin(w) && Anchored(w, g)
    ensures !ActiveDescendant(w.table, g.pid, {}) <==>
              forall pid | pid in w.table && g in w.origin[pid] :: w.table[pid].zombie
  {
    QuietMeansExtinct(w, g);
    if pid :| pid in w.table && pid != g.pid && !w.table[pid].zombie && Reaches(w.table, pid, g.pid) {
      var n: nat :| ReachesIn(w.table, pid, g.pid, n);
      ReachedIsSpawner(w, g.pid, pid, n);
    }
  }
}
