/** How a guest's bundle comes to each of its states, over whole runs. */
module BundleRuns {
  import opened Options
  import opened Processes
  import opened OwnerRecord
  import opened RequestGrounds
  import opened GuestHandoff

  /** The recorded bundle comes to be in `g`. */
  predicate Enters(s: State, s': State, g: GuestState) {
    && BundleOf(s'.record).Some? && BundleOf(s'.record).value.state == g
    && (BundleOf(s.record).None? || BundleOf(s.record).value.state != g)
  }

  /** The one request for each state. */
  predicate LeadsTo(op: Request, g: GuestState) {
    match g
    case Registered => op.RegisterBundle?
    case Starting => op.MarkStarting?
    case Running => op.BindVm?
    case Quiescent => op.MarkQuiescent?
    case PublishedPending => op.PublishGuest?
    case Returned => op.Acknowledge?
  }

  /** No process in the table that lives has the VM's pid, or is in its group. */
  predicate SeenStopped(vm: Identity, t: Table) {
    && vm.pid !in (set pid | pid in t && !t[pid].zombie)
    && (vm.pgrp == vm.pid ==> vm.pgrp !in (set pid | pid in t && !t[pid].zombie :: t[pid].pgrp))
  }

  /** How one step changed the bundle: it is new, or the same in the same state or the next. */
  predicate Advances(before: Option<Bundle>, after: Option<Bundle>) {
    after.Some? ==>
      if before.None? then after.value.state == Registered
      else
        && (after.value.state == before.value.state
           || PathTo(after.value.state) == PathTo(before.value.state) + [after.value.state])
        && (before.value.state !in {Registered, Starting} ==> after.value.vm == before.value.vm)
  }

  lemma WrittenFollows(s: State, op: Request, t: Table, committed: FileId, ack: string, r: Record)
    requires GoesThrough(s, op, t, committed, ack, r)
    ensures Advances(BundleOf(s.record), r.bundle)
    ensures r.bundle.Some? && (s.record.value.bundle.None? || r.bundle.value.state != s.record.value.bundle.value.state)
            ==> LeadsTo(op, r.bundle.value.state)
  {
    AfterMeans(s.record.value, op, t, s.canonical, s.open, committed, ack);
    AllowedMeans(s.record.value, op, t, s.canonical, s.open);
  }

  lemma RecordedBundle(s: State, r: Option<Record>, op: Request, s': State)
    requires Recorded(s, r, op, s')
    ensures BundleOf(s'.record) == BundleOf(s.record) || (r.Some? && BundleOf(s'.record) == r.value.bundle)
  {
  }

  /** A request that changes the bundle's state is the one for the new state, and permitted. */
  lemma HandledBundle(s: State, op: Request, t: Table, s': State)
    requires Handles(s, op, t, s')
    ensures Advances(BundleOf(s.record), BundleOf(s'.record))
    ensures forall g | Enters(s, s', g) ::
              s.record.Some? && LeadsTo(op, g) && Allowed(s.record.value, op, t, s.canonical, s.open)
  {
    if Recorded(s, None, op, s') {
      RecordedBundle(s, None, op, s');
    } else if ChangesRecord(s, op, t, s') {
      var r, committed, ack :| GoesThrough(s, op, t, committed, ack, r) && Recorded(s, Some(r), op, s');
      WrittenFollows(s, op, t, committed, ack, r);
      RecordedBundle(s, Some(r), op, s');
    } else {
      var a :| RefreshesBy(s, op, t, a, s');
      RefreshedBundle(s, op, t, a, s');
    }
  }

  lemma RefreshedBundle(s: State, op: Request, t: Table, a: Attempt, s': State)
    requires RefreshesBy(s, op, t, a, s')
    ensures Advances(BundleOf(s.record), BundleOf(s'.record))
    ensures forall g | Enters(s, s', g) ::
              s.record.Some? && LeadsTo(op, g) && Allowed(s.record.value, op, t, s.canonical, s.open)
  {
    if Recorded(Tried(s, a, t), None, op, s') {
      RecordedBundle(Tried(s, a, t), None, op, s');
    } else {
      var r, ack :| GoesThrough(s, op, t, FileId(a.p, op.candidate.sha), ack, r)
                    && Recorded(Tried(s, a, t), Some(r), op, s');
      WrittenFollows(s, op, t, FileId(a.p, op.candidate.sha), ack, r);
      RecordedBundle(Tried(s, a, t), Some(r), op, s');
    }
  }

  /** Nothing but a request changes the bundle, other than by forgetting it. */
  lemma OnlyRequestsChange(s: State, s': State)
    requires Next(s, s') && !(exists op, t :: Handles(s, op, t, s'))
    ensures BundleOf(s'.record) in {None, BundleOf(s.record)}
  {
  }

  lemma NextFollows(s: State, s': State)
    requires Next(s, s')
    ensures Advances(BundleOf(s.record), BundleOf(s'.record))
  {
    if op, t :| Handles(s, op, t, s') { HandledBundle(s, op, t, s'); } else { OnlyRequestsChange(s, s'); }
  }

  ghost predicate HandledAt(run: seq<State>, i: nat, op: Request, t: Table)
    requires i + 1 < |run|
  {
    Handles(run[i], op, t, run[i + 1])
  }

  /** The grounds on which `op` can take the bundle to `g`. */
  predicate Grounds(s: State, op: Request, t: Table, g: GuestState) {
    && s.record.Some? && LeadsTo(op, g)
    && GuestGrounds(s.record.value, op, t, s.canonical, s.open) && OtherGrounds(s.record.value, op, t)
    && (g in {Quiescent, PublishedPending, Returned} ==>
          && BundleOf(s.record).Some? && BundleOf(s.record).value.vm.Some?
          && SeenStopped(BundleOf(s.record).value.vm.value, t))
  }

  lemma EntryIsGrounded(s: State, op: Request, t: Table, s': State, g: GuestState)
    requires Handles(s, op, t, s') && Enters(s, s', g)
    ensures Grounds(s, op, t, g)
  {
    HandledBundle(s, op, t, s');
    AllowedMeans(s.record.value, op, t, s.canonical, s.open);
    if g in {Quiescent, PublishedPending, Returned} { GroundsShowStopped(s.record.value, op, t, s.canonical, s.open); }
  }

  lemma GroundsShowStopped(r: Record, op: Request, t: Table, canonical: Option<FileId>, open: bool)
    requires GuestGrounds(r, op, t, canonical, open) && (op.MarkQuiescent? || op.PublishGuest? || op.Acknowledge?)
    ensures r.bundle.Some? && r.bundle.value.vm.Some? && SeenStopped(r.bundle.value.vm.value, t)
  {
  }

  /** Whichever request with whichever process table explains a step of a run in which the
      bundle comes to a new state, and there is one: it is the request for that state, on grounds
      that the record before the step, the table and the credential gave.  To become quiescent,
      published or returned the recorded VM was seen stopped in that table. */
  lemma EveryStateIsGrounded(run: seq<State>, i: nat, g: GuestState)
    requires IsRun(run) && i + 1 < |run| && Enters(run[i], run[i + 1], g)
    ensures exists op, t :: HandledAt(run, i, op, t)
    ensures forall op, t | HandledAt(run, i, op, t) :: Grounds(run[i], op, t, g)
  {
    assert StepAt(run, i);
    SomeRequest(run[i], run[i + 1], g);
    var op, t :| Handles(run[i], op, t, run[i + 1]);
    assert HandledAt(run, i, op, t);
    forall op, t | HandledAt(run, i, op, t)
      ensures Grounds(run[i], op, t, g)
    {
      EntryIsGrounded(run[i], op, t, run[i + 1], g);
    }
  }

  lemma SomeRequest(s: State, s': State, g: GuestState)
    requires Next(s, s') && Enters(s, s', g)
    ensures exists op, t :: Handles(s, op, t, s')
  {
    if !exists op, t :: Handles(s, op, t, s') { OnlyRequestsChange(s, s'); }
  }

  // ---------------------------------------------------------------- the bundles of a run

  function BundleAt(run: seq<State>, i: nat): Option<Bundle>
    requires i < |run|
  {
    BundleOf(run[i].record)
  }

  lemma StepAdvances(run: seq<State>, i: nat)
    requires IsRun(run) && i + 1 < |run|
    ensures Advances(BundleAt(run, i), BundleAt(run, i + 1))
  {
    assert StepAt(run, i);
    NextFollows(run[i], run[i + 1]);
  }

  /** At step `i` the bundle came to be in `g`, and its VM, once bound, is that of `b`. */
  predicate EnteredAt(run: seq<State>, i: nat, g: GuestState, b: Bundle) {
    && i + 1 < |run| && Enters(run[i], run[i + 1], g)
    && (g in {Registered, Starting} || BundleAt(run, i + 1).value.vm == b.vm)
  }

  lemma OneBefore(before: Option<Bundle>, after: Option<Bundle>, g: GuestState)
    requires Advances(before, after) && after.Some? && g in PathTo(after.value.state)
    ensures (after.value.state == g && (before.None? || before.value.state != g))
            || (before.Some? && g in PathTo(before.value.state)
                && (g in {Registered, Starting} || before.value.vm == after.value.vm))
  {
  }

  /** A bundle has come to every state on the way to its present one, in a step of the run. */
  lemma {:induction false} EveryStateWasEntered(run: seq<State>, n: nat, g: GuestState) returns (i: nat)
    requires IsRun(run) && n < |run| && BundleAt(run, n).Some? && g in PathTo(BundleAt(run, n).value.state)
    ensures i < n && EnteredAt(run, i, g, BundleAt(run, n).value)
    decreases n
  {
    assert n > 0;
    StepAdvances(run, n - 1);
    OneBefore(BundleAt(run, n - 1), BundleAt(run, n), g);
    if Enters(run[n - 1], run[n], g) {
      i := n - 1;
    } else {
      i := EveryStateWasEntered(run, n - 1, g);
    }
  }

  /** The state before was entered before. */
  lemma WasBefore(run: seq<State>, m: nat, g: GuestState, before: GuestState, b: Bundle) returns (k: nat)
    requires IsRun(run) && EnteredAt(run, m, g, b) && g in {PublishedPending, Returned}
             && PathTo(g) == PathTo(before) + [g]
    ensures k < m && EnteredAt(run, k, before, b) && BundleAt(run, m).Some? && BundleAt(run, m).value.vm == b.vm
  {
    StepAdvances(run, m);
    k := EveryStateWasEntered(run, m, before);
  }

  lemma EntrySawStopped(run: seq<State>, i: nat, g: GuestState, b: Bundle)
    requires IsRun(run) && EnteredAt(run, i, g, b) && g in {Quiescent, PublishedPending, Returned}
    ensures b.vm.Some? && forall op, t | HandledAt(run, i, op, t) :: SeenStopped(b.vm.value, t)
  {
    EveryStateIsGrounded(run, i, g);
    StepAdvances(run, i);
    assert BundleAt(run, i).value.vm == b.vm;
  }

  /** In every run a bundle recorded as returned has had its VM seen stopped when it became
      quiescent, when it was published and when it was returned, in that order. */
  lemma ReturnedWasStopped(run: seq<State>, n: nat) returns (i: nat, k: nat, m: nat)
    requires IsRun(run) && n < |run| && BundleAt(run, n).Some? && BundleAt(run, n).value.state == Returned
    ensures i < k < m < n && Enters(run[i], run[i + 1], Quiescent)
            && Enters(run[k], run[k + 1], PublishedPending) && Enters(run[m], run[m + 1], Returned)
    ensures BundleAt(run, n).value.vm.Some?
    ensures forall op, t | HandledAt(run, i, op, t) || HandledAt(run, k, op, t) || HandledAt(run, m, op, t) ::
              SeenStopped(BundleAt(run, n).value.vm.value, t)
  {
    var b := BundleAt(run, n).value;
    m := EveryStateWasEntered(run, n, Returned);
    k := WasBefore(run, m, Returned, PublishedPending, b);
    i := WasBefore(run, k, PublishedPending, Quiescent, b);
    EntrySawStopped(run, m, Returned, b);
    EntrySawStopped(run, k, PublishedPending, b);
    EntrySawStopped(run, i, Quiescent, b);
  }
}
