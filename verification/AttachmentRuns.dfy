/** Whole runs of one attachment: processes fork, exec, die and are reparented between the
    guardian's snapshots, and the guardian may crash.  An entry is `done` only when nothing
    its root spawned is alive, unless a tracked process changed its binary after it was
    recorded, and then the entry is wrong. */
module AttachmentRuns {
  import opened Options
  import opened Processes
  import opened Supervision

  /** Everything the root spawned hangs below the guardian or below itself. */
  ghost predicate Hung(w: World, e: Entry) {
    var r := e.root.Instance();
    && w.Wf() && e.guardian in w.subreapers && e.guardian != INIT_PID
    && r.start < w.clock && (forall k | k in e.baseline :: k.start < w.clock)
    && !Spawned(w, r, e.guardian) && !Spawned(w, r, INIT_PID)
    && (forall pid | Spawned(w, r, pid) ::
          && (w.table[pid].ppid == e.guardian || (w.KeyOf(pid) != r && Spawned(w, r, w.table[pid].ppid)))
          && (w.KeyOf(pid) == r || w.KeyOf(pid) !in e.baseline))
  }

  lemma {:induction false} OrphansStayBelow(w: World, e: Entry, pid: Pid)
    requires Hung(w, e) && Spawned(w, e.root.Instance(), pid)
    ensures pid != INIT_PID
    ensures Reaper(w, pid) == e.guardian
            || (w.KeyOf(pid) != e.root.Instance() && Spawned(w, e.root.Instance(), Reaper(w, pid)))
    decreases w.table[pid].start
  {
    assert w.Parented(pid);
    var up := w.table[pid].ppid;
    if up !in w.subreapers {
      OrphansStayBelow(w, e, up);
    }
  }

  lemma ForkKeepsHung(w: World, e: Entry, parent: Pid, child: Pid)
    requires Hung(w, e) && Enabled(w, Fork(parent, child))
    ensures Hung(AfterFork(w, parent, child), e)
  {
    var w', r := AfterFork(w, parent, child), e.root.Instance();
    ForkKeepsWf(w, parent, child);
    assert w.Dated(e.guardian) && w.Dated(parent);
    forall pid | Spawned(w', r, pid)
      ensures w'.table[pid].ppid == e.guardian || (w'.KeyOf(pid) != r && Spawned(w', r, w'.table[pid].ppid))
      ensures w'.KeyOf(pid) == r || w'.KeyOf(pid) !in e.baseline
    {
      assert pid != child ==> Spawned(w, r, pid);
      assert pid == child ==> Spawned(w, r, parent);
    }
  }

  lemma ExitKeepsHung(w: World, e: Entry, dead: Pid)
    requires Hung(w, e) && Enabled(w, Exit(dead)) && dead != e.guardian
    ensures Hung(AfterExit(w, dead, Reaper(w, dead)), e)
  {
    var up, r := Reaper(w, dead), e.root.Instance();
    var w' := AfterExit(w, dead, up);
    ExitKeepsWf(w, dead, up);
    if Spawned(w, r, dead) {
      OrphansStayBelow(w, e, dead);
    }
    forall pid | Spawned(w', r, pid)
      ensures w'.table[pid].ppid == e.guardian || (w'.KeyOf(pid) != r && Spawned(w', r, w'.table[pid].ppid))
      ensures w'.KeyOf(pid) == r || w'.KeyOf(pid) !in e.baseline
    {
      assert Spawned(w, r, pid);
    }
  }

  lemma OtherStepsKeepHung(w: World, e: Entry, a: Action)
    requires Hung(w, e) && Enabled(w, a) && !a.Fork? && !a.Exit?
    ensures Hung(Step(w, a), e)
  {
    var w', r := Step(w, a), e.root.Instance();
    StepKeepsWf(w, a);
    forall pid | Spawned(w', r, pid)
      ensures w'.table[pid].ppid == e.guardian || (w'.KeyOf(pid) != r && Spawned(w', r, w'.table[pid].ppid))
      ensures w'.KeyOf(pid) == r || w'.KeyOf(pid) !in e.baseline
    {
      assert Spawned(w, r, pid) && w.Parented(pid);
    }
  }

  lemma StepKeepsHung(w: World, e: Entry, a: Action)
    requires Hung(w, e) && Enabled(w, a) && a != Exit(e.guardian)
    ensures Hung(Step(w, a), e)
  {
    match a
    case Fork(parent, child) => ForkKeepsHung(w, e, parent, child);
    case Exit(dead) => ExitKeepsHung(w, e, dead);
    case _ => OtherStepsKeepHung(w, e, a);
  }

  // ---------------------------------------------------------------- one verdict

  /** Every live spawned process that hangs directly below the guardian is tracked. */
  ghost predicate Covered(w: World, e: Entry) {
    forall pid | Spawned(w, e.root.Instance(), pid) && !w.table[pid].zombie && w.table[pid].ppid == e.guardian ::
      w.KeyOf(pid) in e.TrackedKeys()
  }

  lemma {:induction false} TopOfChain(w: World, e: Entry, pid: Pid) returns (top: Pid)
    requires Hung(w, e) && Spawned(w, e.root.Instance(), pid) && !w.table[pid].zombie
    ensures Spawned(w, e.root.Instance(), top) && !w.table[top].zombie && w.table[top].ppid == e.guardian
    decreases w.table[pid].start
  {
    assert w.Parented(pid);
    if w.table[pid].ppid == e.guardian {
      top := pid;
    } else {
      top := TopOfChain(w, e, w.table[pid].ppid);
    }
  }

  /** The owner record names no process of this attachment but its root. */
  ghost predicate KnownElsewhere(w: World, e: Entry, known: set<Key>) {
    forall pid | Spawned(w, e.root.Instance(), pid) && w.KeyOf(pid) in known :: w.KeyOf(pid) == e.root.Instance()
  }

  lemma RefreshCovers(w: World, e: Entry, known: set<Key>, e': Entry)
    requires Hung(w, e) && KnownElsewhere(w, e, known) && Refreshed(w.table, known, e, e')
    ensures Hung(w, e') && Covered(w, e')
  {
    forall pid | Spawned(w, e.root.Instance(), pid) && !w.table[pid].zombie && w.table[pid].ppid == e.guardian
      ensures w.KeyOf(pid) in e'.TrackedKeys()
    {
      if w.KeyOf(pid) != e.root.Instance() {
        assert Adoptable(w.table, e, known, pid);
      }
      AdoptableIsTracked(w.table, e, known, e', pid);
    }
  }

  lemma AdoptableIsTracked(t: Table, e: Entry, known: set<Key>, e': Entry, pid: Pid)
    requires Refreshed(t, known, e, e') && pid in t
    requires Key(pid, t[pid].start) == e.root.Instance() || Adoptable(t, e, known, pid)
    ensures Key(pid, t[pid].start) in e'.TrackedKeys()
  {
    var key, added := Key(pid, t[pid].start), e'.descendants[|e.descendants|..];
    assert e'.Tracked() == e.Tracked() + added && e.root == e.Tracked()[0];
    if key in e.TrackedKeys() {
      var id :| id in e.Tracked() && id.Instance() == key;
      assert id in e'.Tracked();
    } else {
      assert key != e.root.Instance() by {
        assert e.root in e.Tracked();
      }
      assert Fresh(t, e, known, pid);
      assert Observed(pid, t[pid]) in e'.Tracked() && Observed(pid, t[pid]).Instance() == key;
    }
  }

  /** A tracked process of this attachment that lives on under another binary. */
  ghost predicate Drifted(w: World, e: Entry) {
    exists id | id in e.Tracked() ::
      Live(w.table, id.Instance()) && Spawned(w, e.root.Instance(), id.pid) && !BinaryShows(w.table[id.pid], id.binary)
  }

  /** `Gone` is right exactly when no tracked process of the client changed its binary. */
  lemma GoneIsRightIffNothingDrifted(w: World, e: Entry)
    requires Hung(w, e) && Covered(w, e) && Judge(w.table, e) == Gone
    ensures Extinct(w, e.root.Instance()) <==> !Drifted(w, e)
  {
    if pid :| pid in w.table && Spawned(w, e.root.Instance(), pid) && !w.table[pid].zombie {
      var top := TopOfChain(w, e, pid);
      var id :| id in e.Tracked() && id.Instance() == w.KeyOf(top);
      assert !IdentityMatches(id, w.table);
    }
  }

  // ---------------------------------------------------------------- runs

  /** Where the guardian is: between polls, holding its last snapshot, or gone. */
  datatype Phase = Idle | Holding(seen: World) | Stopped

  datatype System = System(world: World, entry: Entry, phase: Phase)

  ghost predicate Begins(s: System) {
    && Hung(s.world, s.entry) && s.phase == Idle
    && s.entry.descendants == [] && s.entry.status == None && !s.entry.done
  }

  ghost predicate OsStep(s: System, s': System) {
    s.world.Wf() && exists a | Enabled(s.world, a) ::
      s' == s.(world := Step(s.world, a), phase := if a == Exit(s.entry.guardian) then Stopped else s.phase)
  }

  ghost predicate SnapshotTaken(s: System, e: Entry, s': System) {
    && s' == s.(entry := s'.entry, phase := Holding(s.world))
    && exists known :: KnownElsewhere(s.world, e, known) && Refreshed(s.world.table, known, e, s'.entry)
  }

  ghost predicate PollStarts(s: System, s': System) {
    s.phase == Idle && !s.entry.done && SnapshotTaken(s, s.entry, s')
  }

  /** Waiting for the root returned its status, so it is no longer live: snapshot again. */
  ghost predicate RootReaped(s: System, s': System) {
    && s.phase.Holding? && s.entry.status == None && !Live(s.world.table, s.entry.root.Instance())
    && exists code :: SnapshotTaken(s, s.entry.(status := Some(code)), s')
  }

  ghost predicate RootStillRuns(s: System, s': System) {
    s.phase.Holding? && s.entry.status == None && s' == s.(phase := Idle)
  }

  /** A forwarded signal is recorded as the status while the root may still be running. */
  ghost predicate Signalled(s: System, s': System) {
    s.phase == Idle && !s.entry.done && exists code :: s' == s.(entry := s.entry.(status := Some(code)))
  }

  ghost predicate PollEnds(s: System, s': System) {
    && s.phase.Holding? && s.entry.status.Some?
    && exists ok, e', out :: Decided(s.phase.seen.table, ok, s.entry, e', out) &&
         s' == s.(entry := e', phase := if out == Kept then Idle else Stopped)
  }

  ghost predicate Next(s: System, s': System) {
    || OsStep(s, s')
    || PollStarts(s, s')
    || RootReaped(s, s')
    || RootStillRuns(s, s')
    || Signalled(s, s')
    || PollEnds(s, s')
    || s' == s.(phase := Stopped)  // any raise ends the guardian
  }

  /** The step did not close the entry over a drifted process. */
  ghost predicate ClosesCleanly(s: System, s': System) {
    s'.entry.done && !s.entry.done && s.phase.Holding? ==> !Drifted(s.phase.seen, s.entry)
  }

  ghost predicate IsRun(run: seq<System>) {
    && |run| > 0 && Begins(run[0])
    && forall i | 0 <= i < |run| - 1 :: Next(run[i], run[i + 1])
  }

  ghost predicate Inv(s: System) {
    var r := s.entry.root.Instance();
    && s.world.Wf() && r.start < s.world.clock
    && (s.phase != Stopped ==> Hung(s.world, s.entry))
    && (s.phase.Holding? ==>
          && Hung(s.phase.seen, s.entry) && Covered(s.phase.seen, s.entry)
          && (Extinct(s.phase.seen, r) ==> Extinct(s.world, r)))
    && (s.entry.done ==> Extinct(s.world, r))
  }

  lemma OsStepKeepsInv(s: System, s': System)
    requires Inv(s) && OsStep(s, s')
    ensures Inv(s')
  {
    var w, r := s.world, s.entry.root.Instance();
    var a :| Enabled(w, a) &&
      s' == s.(world := Step(w, a), phase := if a == Exit(s.entry.guardian) then Stopped else s.phase);
    StepKeepsWf(w, a);
    if Extinct(w, r) {
      ExtinctForever(w, a, r);
    }
    if s'.phase != Stopped {
      StepKeepsHung(w, s.entry, a);
    }
  }

  lemma SnapshotKeepsInv(s: System, e: Entry, s': System)
    requires Inv(s) && s.phase != Stopped && e == s.entry.(status := e.status) && SnapshotTaken(s, e, s')
    ensures Inv(s')
  {
    var known :| KnownElsewhere(s.world, e, known) && Refreshed(s.world.table, known, e, s'.entry);
    assert Hung(s.world, e);
    RefreshCovers(s.world, e, known, s'.entry);
  }

  lemma NextKeepsInv(s: System, s': System)
    requires Inv(s) && Next(s, s') && ClosesCleanly(s, s')
    ensures Inv(s')
  {
    if OsStep(s, s') {
      OsStepKeepsInv(s, s');
    } else if PollStarts(s, s') {
      SnapshotKeepsInv(s, s.entry, s');
    } else if RootReaped(s, s') {
      var code :| SnapshotTaken(s, s.entry.(status := Some(code)), s');
      SnapshotKeepsInv(s, s.entry.(status := Some(code)), s');
    } else if PollEnds(s, s') {
      assert Hung(s.world, s'.entry);
      if s'.entry.done && !s.entry.done {
        GoneIsRightIffNothingDrifted(s.phase.seen, s.entry);
      }
    }
  }

  /** In every run that closes no entry over a drifted process, `done` means extinct. */
  lemma {:induction false} DoneMeansExtinct(run: seq<System>, n: nat)
    requires IsRun(run) && n < |run|
    requires forall i | 0 <= i < n :: ClosesCleanly(run[i], run[i + 1])
    ensures Inv(run[n])
    ensures run[n].entry.done ==> Extinct(run[n].world, run[n].entry.root.Instance())
  {
    if n > 0 {
      DoneMeansExtinct(run, n - 1);
      assert Next(run[n - 1], run[n]);
      NextKeepsInv(run[n - 1], run[n]);
    }
  }

  // ---------------------------------------------------------------- the failing run

  /** Init, the guardian (2), the client's root (3) and a child (4) the root has forked. */
  function Scene(exe: string, rootDead: bool): World {
    World(map[1 := Proc(0, 0, 1, "init", [], false),
              2 := Proc(1, 1, 2, "guardian", [], false),
              3 := Proc(2, 2, 3, "client", [], rootDead),
              4 := Proc(3, if rootDead then 2 else 3, 3, exe, [], false)],
          map[1 := {}, 2 := {Key(1, 0)}, 3 := {Key(1, 0), Key(2, 1)}, 4 := {Key(1, 0), Key(2, 1), Key(3, 2)}],
          {1, 2}, 4)
  }

  function Boot(): World {
    World(Scene("", false).table - {4}, Scene("", false).origin - {4}, {1, 2}, 3)
  }

  lemma BootHangs(e: Entry)
    requires e.root == Identity(3, 2, "client", 3) && e.guardian == 2 && e.baseline == {}
    ensures Hung(Boot(), e)
  {
    var w := Boot();
    assert w.Parented(2) && w.Parented(3) && w.Dated(1) && w.Dated(2) && w.Dated(3);
  }

  lemma SceneForks()
    ensures Boot().Wf() && Enabled(Boot(), Fork(3, 4)) && Step(Boot(), Fork(3, 4)) == Scene("client", false)
    ensures Scene("client", false).Wf()
  {
    BootHangs(Entry(Identity(3, 2, "client", 3), 2, {}, [], None, false));
    StepKeepsWf(Boot(), Fork(3, 4));
    var born := AfterFork(Boot(), 3, 4);
    assert born.table == Scene("client", false).table;
    assert born.origin[4] == Scene("client", false).origin[4];
    assert born.origin == Scene("client", false).origin;
  }

  lemma SceneExecs()
    ensures Enabled(Scene("client", false), Alter(4, "tool", [], 3))
    ensures Scene("client", false).Wf() && Scene("tool", false).Wf()
    ensures Step(Scene("client", false), Alter(4, "tool", [], 3)) == Scene("tool", false)
  {
    SceneForks();
    StepKeepsWf(Scene("client", false), Alter(4, "tool", [], 3));
    assert Step(Scene("client", false), Alter(4, "tool", [], 3)).table == Scene("tool", false).table;
  }

  lemma SceneExits()
    ensures Scene("tool", false).Wf() && Enabled(Scene("tool", false), Exit(3))
    ensures Step(Scene("tool", false), Exit(3)) == Scene("tool", true)
  {
    SceneExecs();
    RootExits();
  }

  lemma RootExits()
    ensures AfterExit(Scene("tool", false), 3, 2) == Scene("tool", true)
  {
  }

  function Last(run: seq<System>): System
    requires |run| > 0
  {
    run[|run| - 1]
  }

  /** The root forks 4, a snapshot records 4 under the root's own binary, 4 execs, the root
      exits: the next poll closes the entry while 4 is alive. */
  lemma ExecEscapesSupervision() returns (run: seq<System>)
    ensures IsRun(run)
    ensures Last(run).entry.done && !Extinct(Last(run).world, Last(run).entry.root.Instance())
  {
    run := OpeningPart();
    run := MiddlePart(run);
    run := ClosingPart(run);
  }

  lemma Extended(run: seq<System>, s: System) returns (run': seq<System>)
    requires IsRun(run) && Next(Last(run), s)
    ensures IsRun(run') && Last(run') == s
  {
    run' := run + [s];
    forall i | 0 <= i < |run'| - 1
      ensures Next(run'[i], run'[i + 1])
    {
      if i < |run| - 1 {
        assert Next(run[i], run[i + 1]);
      }
    }
  }

  /** The last poll: two snapshots without news, then the wrong verdict. */
  lemma ClosingPart(run: seq<System>) returns (run': seq<System>)
    requires IsRun(run)
    requires Last(run) == System(Scene("tool", true), Client(), Idle)
    ensures IsRun(run')
    ensures Last(run').entry.done && !Extinct(Last(run').world, Last(run').entry.root.Instance())
  {
    var s := Last(run);
    var s6 := s.(phase := Holding(s.world));
    var s7 := s6.(entry := s.entry.(status := Some(0)));
    LastSnapshots(s, s6, s7);
    var s8 := s7.(entry := s7.entry.(done := true), phase := Idle);
    ClosesOverTool(s7, s8);
    run' := Extended(run, s6);
    run' := Extended(run', s7);
    run' := Extended(run', s8);
    assert Spawned(s8.world, s8.entry.root.Instance(), 4);
  }

  lemma ClosesOverTool(s: System, s': System)
    requires s.phase.Holding? && s.entry.status.Some?
    requires s.entry.Tracked() == [Identity(3, 2, "client", 3), Identity(4, 3, "client", 3)]
    requires 3 in s.phase.seen.table && s.phase.seen.table[3].zombie && s.phase.seen.table[3].start == 2
    requires 4 in s.phase.seen.table && s.phase.seen.table[4].start == 3
    requires !BinaryShows(s.phase.seen.table[4], "client")
    requires s' == s.(entry := s.entry.(done := true), phase := Idle)
    ensures Next(s, s')
  {
    assert Decided(s.phase.seen.table, true, s.entry, s'.entry, Kept);
    assert PollEnds(s, s');
  }

  lemma TakesOsStep(s: System, a: Action, s': System)
    requires s.world.Wf() && Enabled(s.world, a) && a != Exit(s.entry.guardian)
    requires s' == s.(world := Step(s.world, a))
    ensures Next(s, s')
  {
  }

  /** The entry once 4 has been recorded. */
  function Client(): Entry {
    Entry(Identity(3, 2, "client", 3), 2, {}, [Identity(4, 3, "client", 3)], None, false)
  }

  lemma OpeningPart() returns (run: seq<System>)
    ensures IsRun(run) && Last(run) == System(Scene("client", false), Client(), Holding(Scene("client", false)))
  {
    var e := Client().(descendants := []);
    BootHangs(e);
    SceneForks();
    var s0, s1 := System(Boot(), e, Idle), System(Scene("client", false), e, Idle);
    TakesOsStep(s0, Fork(3, 4), s1);
    var s2 := System(s1.world, Client(), Holding(s1.world));
    FirstSnapshot(s1, s2);
    run := Extended([s0], s1);
    run := Extended(run, s2);
  }

  lemma MiddlePart(run: seq<System>) returns (run': seq<System>)
    requires IsRun(run) && Last(run) == System(Scene("client", false), Client(), Holding(Scene("client", false)))
    ensures IsRun(run') && Last(run') == System(Scene("tool", true), Client(), Idle)
  {
    SceneExecs();
    SceneExits();
    var s3 := Last(run).(phase := Idle);
    var s4 := s3.(world := Scene("tool", false));
    var s5 := s3.(world := Scene("tool", true));
    assert RootStillRuns(Last(run), s3);
    TakesOsStep(s3, Alter(4, "tool", [], 3), s4);
    TakesOsStep(s4, Exit(3), s5);
    run' := Extended(run, s3);
    run' := Extended(run', s4);
    run' := Extended(run', s5);
  }

  lemma FirstSnapshot(s: System, s': System)
    requires s.entry == Entry(Identity(3, 2, "client", 3), 2, {}, [], None, false)
    requires s.world == Scene("client", false) && s.phase == Idle
    requires s' == System(s.world, s.entry.(descendants := [Identity(4, 3, "client", 3)]), Holding(s.world))
    ensures Next(s, s')
  {
    BootRefresh(s.world, s.entry, s'.entry);
    assert KnownElsewhere(s.world, s.entry, {});
    assert PollStarts(s, s');
  }

  lemma LastSnapshots(s: System, s': System, s'': System)
    requires s.entry == Entry(Identity(3, 2, "client", 3), 2, {}, [Identity(4, 3, "client", 3)], None, false)
    requires s.world == Scene("tool", true) && s.phase == Idle
    requires s' == s.(phase := Holding(s.world)) && s'' == s'.(entry := s.entry.(status := Some(0)))
    ensures Next(s, s') && Next(s', s'')
  {
    var e, e' := s.entry, s''.entry;
    assert e.Tracked() == [e.root, Identity(4, 3, "client", 3)] == e'.Tracked();
    assert e.root in e.Tracked() && Identity(4, 3, "client", 3) in e.Tracked();
    assert e.TrackedPids() == {3, 4} && e.TrackedKeys() == {Key(3, 2), Key(4, 3)};
    QuietRefresh(s.world, e, {});
    QuietRefresh(s.world, e', {});
    assert KnownElsewhere(s.world, e, {}) && KnownElsewhere(s.world, e', {});
    assert SnapshotTaken(s', s'.entry.(status := Some(0)), s'');
    assert PollStarts(s, s') && RootReaped(s', s'');
  }

  lemma BootRefresh(w: World, e: Entry, e': Entry)
    requires w == Scene("client", false)
    requires e == Entry(Identity(3, 2, "client", 3), 2, {}, [], None, false)
    requires e' == e.(descendants := [Identity(4, 3, "client", 3)])
    ensures Refreshed(w.table, {}, e, e')
  {
    assert e.Tracked() == [e.root];
    assert e.TrackedPids() == {3} && e.TrackedKeys() == {Key(3, 2)};
    assert LeadsIn(w.table, 4, {3}, 0);
    forall p, n: nat | LeadsIn(w.table, p, {3}, n)
      ensures p == 4
    {
      OnlyFour(w.table, p, n);
    }
  }

  lemma {:induction false} OnlyFour(t: Table, p: Pid, n: nat)
    requires t == Scene("client", false).table && LeadsIn(t, p, {3}, n)
    ensures p == 4
    decreases n
  {
    if t[p].ppid != 3 {
      OnlyFour(t, t[p].ppid, n - 1);
    }
  }

  lemma QuietRefresh(w: World, e: Entry, known: set<Key>)
    requires w.table.Keys == {1, 2, 3, 4} && e.TrackedKeys() >= {Key(3, 2), Key(4, 3)}
    requires w.table[3].zombie && w.table[4].start == 3 && w.table[1].ppid == 0 && w.table[2].ppid == 1
    requires e.TrackedPids() == {3, 4} && e.guardian == 2
    ensures Refreshed(w.table, known, e, e)
  {
    forall p, n: nat | LeadsIn(w.table, p, {3, 4}, n)
      ensures p == 4
    {
      NoNewChains(w.table, p, n);
    }
  }

  lemma {:induction false} NoNewChains(t: Table, p: Pid, n: nat)
    requires t.Keys == {1, 2, 3, 4} && t[3].zombie && t[1].ppid == 0 && t[2].ppid == 1
    requires LeadsIn(t, p, {3, 4}, n)
    ensures p == 4
    decreases n
  {
    if t[p].ppid !in {3, 4} {
      NoNewChains(t, t[p].ppid, n - 1);
    }
  }
}
