/** What the holder of a lease of the older schema may leave behind when the lease is given back. */
module LeaseRuns {
  import opened Options
  import opened Processes
  import opened Admission

  /** `k` holds lease `id`, as a subreaper with all it has spawned below itself. */
  ghost predicate HeldBy(s: System, id: nat, k: Key) {
    && s.world.Wf() && Kin(s.world) && Anchored(s.world, k)
    && s.holder.Some? && s.holder.value.Leased? && s.holder.value.lease.id == id
    && s.holder.value.lease.guardian.Some? && s.holder.value.lease.guardian.value.Instance() == k
  }

  /** The lease can be given back so that a process of its holder lives on. */
  ghost predicate CanLeaveBehind(s: System, id: nat, k: Key) {
    exists s', w, released ::
      && GivesLeaseBack(s, s') && ReturningLease(s.holder, id, s.world.table, w, released, s'.holder)
      && s'.holder.None? && !NoneLeft(s'.world, k)
  }

  /** It can if and only if giving it back is allowed and the holder has an active descendant:
      what is checked is the recorded child and daemon, and nothing else. */
  lemma CanLeaveBehindIff(s: System, id: nat, k: Key)
    requires HeldBy(s, id, k)
    ensures CanLeaveBehind(s, id, k)
            <==> Returnable(s.holder.value.lease, s.world.table) && ActiveDescendant(s.world.table, k.pid, {})
  {
    QuietIffExtinct(s.world, k);
    if Returnable(s.holder.value.lease, s.world.table) && ActiveDescendant(s.world.table, k.pid, {}) {
      var s' := s.(holder := None);
      assert ReturningLease(s.holder, id, s.world.table, InFull, true, s'.holder);
      assert GivesLeaseBack(s, s');
    }
  }

  // ---------------------------------------------------------------- after the wait

  /** One step in which `k` starts nothing. */
  ghost predicate StartsNothing(s: System, s': System, k: Key) {
    s.world.Wf() && (s'.world == s.world
      || exists a | Enabled(s.world, a) :: (a.Fork? ==> s.world.KeyOf(a.parent) != k) && s'.world == Step(s.world, a))
  }

  /** Once the holder has waited until it has no active descendant, and starts nothing any more,
      nothing it ever spawned is alive, when the lease is given back and after. */
  lemma {:induction false} WaitedLeavesNothing(run: seq<System>, m: nat, n: nat, k: Key)
    requires IsRun(run) && m <= n < |run|
    requires run[m].world.Wf() && Anchored(run[m].world, k) && !ActiveDescendant(run[m].world.table, k.pid, {})
    requires forall i: nat | m <= i < n :: StartsNothing(run[i], run[i + 1], k)
    ensures NoneLeft(run[n].world, k)
    decreases n - m
  {
    if m == n {
      QuietMeansExtinct(run[m].world, k);
    } else {
      WaitedLeavesNothing(run, m, n - 1, k);
      assert StartsNothing(run[n - 1], run[n - 1 + 1], k);
      NothingComesBack(run[n - 1], run[n], k);
    }
  }

  lemma NothingComesBack(s: System, s': System, k: Key)
    requires StartsNothing(s, s', k) && NoneLeft(s.world, k)
    ensures NoneLeft(s'.world, k)
  {
    if s'.world != s.world {
      var a :| Enabled(s.world, a) && (a.Fork? ==> s.world.KeyOf(a.parent) != k) && s'.world == Step(s.world, a);
      StepKeepsNoneLeft(s.world, a, k);
    }
  }

  // ---------------------------------------------------------------- a run that leaves one

  /** Process 2, a subreaper, starts 3 in a session of its own, which starts 4, which takes
      another; 3 ends and is reaped. */
  function Events(): seq<Action> {
    [Fork(2, 3), Alter(3, "codex", [], 3), Fork(3, 4), Alter(4, "tool", [], 4), Exit(3), Reap(3)]
  }

  function Scene(n: nat): World
    requires n <= 4
  {
    var up, two := {Key(1, 0)}, map[1 := Proc(0, 0, 1, "init", [], false), 2 := Proc(1, 1, 2, "ihar", [], false)];
    if n == 0 then World(two, map[1 := {}, 2 := up], {1, 2}, 2)
    else if n <= 2 then
      World(two[3 := if n == 1 then Proc(2, 2, 2, "ihar", [], false) else Proc(2, 2, 3, "codex", [], false)],
            map[1 := {}, 2 := up, 3 := up + {Key(2, 1)}], {1, 2}, 3)
    else
      World(two[3 := Proc(2, 2, 3, "codex", [], false)]
               [4 := if n == 3 then Proc(3, 3, 3, "codex", [], false) else Proc(3, 3, 4, "tool", [], false)],
            map[1 := {}, 2 := up, 3 := up + {Key(2, 1)}, 4 := up + {Key(2, 1)} + {Key(3, 2)}], {1, 2}, 4)
  }

  lemma SceneStarts()
    ensures Scene(0).Wf()
  {
    var w := Scene(0);
    assert w.Parented(2) && w.Dated(1) && w.Dated(2);
  }

  lemma {:induction false} SceneSteps(n: nat)
    requires n < 4
    ensures Scene(n).Wf() && Enabled(Scene(n), Events()[n]) && Step(Scene(n), Events()[n]) == Scene(n + 1)
  {
    if n == 0 {
      SceneStarts();
      assert AfterFork(Scene(0), 2, 3).table == Scene(1).table;
      assert AfterFork(Scene(0), 2, 3).origin == Scene(1).origin;
    } else {
      SceneSteps(n - 1);
      StepKeepsWf(Scene(n - 1), Events()[n - 1]);
      var w := Step(Scene(n), Events()[n]);
      assert w.table == Scene(n + 1).table;
      assert w.origin == Scene(n + 1).origin;
    }
  }

  /** The child is gone, and what it started hangs below process 2. */
  lemma SceneEnds() returns (ended: World, reaped: World)
    ensures Scene(4).Wf() && Enabled(Scene(4), Exit(3)) && Step(Scene(4), Exit(3)) == ended
    ensures ended.Wf() && Enabled(ended, Reap(3)) && Step(ended, Reap(3)) == reaped
    ensures 3 !in reaped.table && !GroupActive(reaped.table, 3)
    ensures 4 in reaped.table && !reaped.table[4].zombie && 4 in reaped.origin && Key(2, 1) in reaped.origin[4]
  {
    SceneSteps(3);
    StepKeepsWf(Scene(3), Events()[3]);
    ended := Step(Scene(4), Exit(3));
    StepKeepsWf(Scene(4), Exit(3));
    reaped := Step(ended, Reap(3));
    assert ended == AfterExit(Scene(4), 3, Reaper(Scene(4), 3));
    assert ended.table[3].zombie && ended.table[4].pgrp == 4 && ended.table[1].pgrp == 1 && ended.table[2].pgrp == 2;
  }

  function LeaseOf(child: Option<Identity>): Option<Holder> {
    Some(Leased(Lease(1, "/runtime", "", Some(Identity(2, 1, "ihar", 2)), None, child, None, false)))
  }

  lemma Extends(run: seq<System>, s: System)
    requires IsRun(run) && Next(run[|run| - 1], s)
    ensures IsRun(run + [s])
  {
    forall i: nat | 0 < i < |run + [s]|
      ensures StepAt(run + [s], i)
    {
      if i < |run| { assert StepAt(run, i); }
    }
  }

  lemma Acts(run: seq<System>, a: Action, w: World)
    requires IsRun(run) && run[|run| - 1].phases == map[]
    requires run[|run| - 1].world.Wf() && Enabled(run[|run| - 1].world, a) && w == Step(run[|run| - 1].world, a)
    ensures IsRun(run + [run[|run| - 1].(world := w)])
  {
    assert OsStep(run[|run| - 1], run[|run| - 1].(world := w));
    Extends(run, run[|run| - 1].(world := w));
  }

  /** It takes the lease and starts its child. */
  lemma LeaseBegins() returns (run: seq<System>)
    ensures IsRun(run) && |run| == 4 && run[3] == System(Scene(2), LeaseOf(None), map[])
  {
    SceneStarts();
    SceneSteps(0);
    SceneSteps(1);
    var s0, s1 := System(Scene(0), None, map[]), System(Scene(0), LeaseOf(None), map[]);
    assert Acquiring(None, LeaseOf(None).value.lease, None, false, false, s0.world.table, true, false,
                     InFull, Granted, s1.holder);
    assert AsksForLease(s0, s1);
    run := [s0];
    Extends(run, s1);
    run := run + [s1];
    Acts(run, Events()[0], Scene(1));
    run := run + [s1.(world := Scene(1))];
    Acts(run, Events()[1], Scene(2));
    run := run + [s1.(world := Scene(2))];
  }

  /** The child is recorded and starts a process of its own. */
  lemma LeaseGoesOn() returns (run: seq<System>)
    ensures IsRun(run) && |run| == 7 && run[6] == System(Scene(4), LeaseOf(Some(Identity(3, 2, "codex", 3))), map[])
  {
    run := LeaseBegins();
    SceneSteps(2);
    SceneSteps(3);
    var s := run[3].(holder := LeaseOf(Some(Identity(3, 2, "codex", 3))));
    assert Rewrites(run[3], s);
    Extends(run, s);
    run := run + [s];
    Acts(run, Events()[2], Scene(3));
    run := run + [s.(world := Scene(3))];
    Acts(run, Events()[3], Scene(4));
    run := run + [s.(world := Scene(4))];
  }

  lemma LeaseOutlived() returns (run: seq<System>)
    ensures IsRun(run) && |run| == 9 && run[8].phases == map[]
            && run[8].holder == LeaseOf(Some(Identity(3, 2, "codex", 3)))
    ensures var w := run[8].world;
            && 3 !in w.table && !GroupActive(w.table, 3)
            && 4 in w.table && !w.table[4].zombie && 4 in w.origin && Key(2, 1) in w.origin[4]
  {
    run := LeaseGoesOn();
    var s := run[6];
    var ended, reaped := SceneEnds();
    Acts(run, Exit(3), ended);
    run := run + [s.(world := ended)];
    Acts(run, Reap(3), reaped);
    run := run + [s.(world := reaped)];
  }

  /** A run in which a lease with a child bound and gone is given back, and a process the child
      had started, in a session of its own, lives on. */
  lemma DetachedOutlivesLease() returns (run: seq<System>)
    ensures IsRun(run) && |run| == 10 && run[8].holder == LeaseOf(Some(Identity(3, 2, "codex", 3)))
    ensures GivesLeaseBack(run[8], run[9]) && run[9].holder == None && !NoneLeft(run[9].world, Key(2, 1))
  {
    run := LeaseOutlived();
    var s' := run[8].(holder := None);
    assert ReturningLease(run[8].holder, 1, run[8].world.table, InFull, true, None);
    assert GivesLeaseBack(run[8], s');
    Extends(run, s');
    run := run + [s'];
  }
}
