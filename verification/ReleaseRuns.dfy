/** What a blocked mark is worth over runs, and which records can ever be released. */
module ReleaseRuns {
  import opened Options
  import opened Processes
  import opened OwnerRecord
  import opened GuestHandoff

  predicate IsBlocked(s: State) { s.record.Some? && s.record.value.state == Blocked }

  // ---------------------------------------------------------------- the mark

  /** Of the requests permitted on a blocked record, exactly those that set its state anew lose
      the mark, and the record they leave is one to be released exactly if they bring in no
      guest and the mark was all that stood against it. */
  lemma MarkLostIff(r: Record, op: Request, t: Table, canonical: Option<FileId>, open: bool, published: FileId,
                    ack: string)
    requires Valid(r) && r.state == Blocked && Allowed(r, op, t, canonical, open)
    ensures var r' := After(r, op, t, canonical, open, published, ack);
            && (r'.state != Blocked <==> op.SetsState())
            && (Releasable(r', open)
                <==> op.SetsState() && !op.RegisterGuest? && !op.RegisterBundle?
                     && Releasable(r.(state := Active), open))
  {
  }

  /** A permitted request that sets the state anew went through on a blocked record. */
  ghost predicate Overwrites(s: State, s': State) {
    IsBlocked(s) && exists op, t, committed, ack, r ::
                      GoesThrough(s, op, t, committed, ack, r) && op.SetsState() && s' == WithRecord(s, Some(r))
  }

  lemma RecordedStaysBlocked(s: State, r: Option<Record>, op: Request, s': State)
    requires IsBlocked(s) && Recorded(s, r, op, s')
    ensures IsBlocked(s') || (r.Some? && r.value.state != Blocked && s' == WithRecord(s, r))
  {
  }

  lemma RequestLeavesMark(s: State, op: Request, t: Table, s': State)
    requires IsBlocked(s) && ChangesRecord(s, op, t, s')
    ensures IsBlocked(s') || Overwrites(s, s')
  {
    var r, committed, ack :| GoesThrough(s, op, t, committed, ack, r) && Recorded(s, Some(r), op, s');
    RecordedStaysBlocked(s, Some(r), op, s');
    if !IsBlocked(s') { assert op.SetsState(); }
  }

  lemma RefreshLeavesMark(s: State, op: Request, t: Table, a: Attempt, s': State)
    requires IsBlocked(s) && RefreshesBy(s, op, t, a, s')
    ensures IsBlocked(s')
  {
  }

  lemma BlockedStep(s: State, s': State)
    requires IsBlocked(s) && Next(s, s')
    ensures IsBlocked(s') || Overwrites(s, s')
  {
    if op, t :| Handles(s, op, t, s') {
      if Recorded(s, None, op, s') {
        RecordedStaysBlocked(s, None, op, s');
      } else if ChangesRecord(s, op, t, s') {
        RequestLeavesMark(s, op, t, s');
      } else {
        var a :| RefreshesBy(s, op, t, a, s');
        RefreshLeavesMark(s, op, t, a, s');
      }
    }
  }

  /** In every run a record once blocked stays so, and there, until such a request goes through. */
  lemma {:induction false} BlockEndsOnlyByOverwriting(run: seq<State>, m: nat, n: nat)
    requires IsRun(run) && m <= n < |run| && IsBlocked(run[m]) && !IsBlocked(run[n])
    ensures exists i | m <= i < n :: Overwrites(run[i], run[i + 1])
    decreases n - m
  {
    assert StepAt(run, m);
    BlockedStep(run[m], run[m + 1]);
    if !Overwrites(run[m], run[m + 1]) { BlockEndsOnlyByOverwriting(run, m + 1, n); }
  }

  // ---------------------------------------------------------------- what can never be released

  /** The bundle's way to a returned one is cut off: its baseline, or what it published, is not
      the canonical credential, and what has been superseded does not come back. */
  predicate CutOff(b: Bundle, canonical: Option<FileId>) {
    match b.state
    case PublishedPending => canonical != b.published
    case Returned => false
    case _ => canonical != Some(b.baseline)
  }

  predicate Stranded(s: State) {
    && s.record.Some?
    && (|| !s.open
        || (s.record.value.guest.Some? && s.record.value.bundle.None?)
        || (s.record.value.bundle.Some? && CutOff(s.record.value.bundle.value, s.canonical)))
  }

  lemma StrandedIsNotReleasable(s: State)
    requires Inv(s) && Stranded(s)
    ensures !Releasable(s.record.value, s.open)
  {
    ReconciledMeansReturned(s.record.value);
  }

  lemma RequestLeavesStranded(s: State, op: Request, t: Table, committed: FileId, ack: string, r: Record)
    requires Inv(s) && Stranded(s) && GoesThrough(s, op, t, committed, ack, r)
    ensures Stranded(s.(record := Some(r)))
  {
  }

  lemma RefreshLeavesStranded(s: State, op: Request, t: Table, a: Attempt, s': State)
    requires Inv(s) && Stranded(s) && RefreshesBy(s, op, t, a, s')
    ensures Stranded(s')
  {
    assert !s.open;
    assert !Tried(s, a, t).open;
  }

  lemma RecordedLeavesStranded(s: State, r: Option<Record>, op: Request, s': State)
    requires Stranded(s) && Recorded(s, r, op, s') && (r.Some? ==> Stranded(s.(record := r)))
    ensures Stranded(s')
  {
  }

  lemma HandlesLeavesStranded(s: State, op: Request, t: Table, s': State)
    requires Inv(s) && Stranded(s) && Handles(s, op, t, s')
    ensures Stranded(s')
  {
    if Recorded(s, None, op, s') {
      RecordedLeavesStranded(s, None, op, s');
    } else if ChangesRecord(s, op, t, s') {
      var r, committed, ack :| GoesThrough(s, op, t, committed, ack, r) && Recorded(s, Some(r), op, s');
      RequestLeavesStranded(s, op, t, committed, ack, r);
      RecordedLeavesStranded(s, Some(r), op, s');
    } else {
      var a :| RefreshesBy(s, op, t, a, s');
      RefreshLeavesStranded(s, op, t, a, s');
    }
  }

  /** No step of the system helps a stranded record. */
  lemma StrandedStays(s: State, s': State)
    requires Inv(s) && Stranded(s) && Next(s, s')
    ensures Stranded(s')
  {
    if op, t :| Handles(s, op, t, s') {
      HandlesLeavesStranded(s, op, t, s');
    } else if t :| Releases(s, t, s') {
      StrandedIsNotReleasable(s);
    } else {
      OthersLeaveStranded(s, s');
    }
  }

  lemma OthersLeaveStranded(s: State, s': State)
    requires Inv(s) && Stranded(s) && (CanonicalMoves(s, s') || BindsFirstChild(s, s') || Blocks(s, s'))
    ensures Stranded(s')
  {
  }

  // ---------------------------------------------------------------- what can be

  /** Steps from `s` to a state without a record. */
  ghost predicate LeadsOut(run: seq<State>, s: State) {
    && |run| > 0 && run[0] == s && run[|run| - 1].record.None?
    && forall i: nat {:trigger StepAt(run, i)} | i + 1 < |run| :: StepAt(run, i)
  }

  ghost predicate CanBeReleased(s: State) { exists run :: LeadsOut(run, s) }

  lemma {:induction false} StrandedLeadsNowhere(run: seq<State>, s: State)
    requires Inv(s) && Stranded(s)
    ensures !LeadsOut(run, s)
    decreases |run|
  {
    if LeadsOut(run, s) {
      assert StepAt(run, 0);
      StrandedStays(s, run[1]);
      NextKeepsInv(s, run[1]);
      forall i: nat | i + 1 < |run[1..]|
        ensures StepAt(run[1..], i)
      {
        assert StepAt(run, i + 1);
      }
      assert LeadsOut(run[1..], run[1]);
      StrandedLeadsNowhere(run[1..], run[1]);
    }
  }

  lemma StepThenReleased(s: State, s': State)
    requires Next(s, s') && CanBeReleased(s')
    ensures CanBeReleased(s)
  {
    var run :| LeadsOut(run, s');
    var longer := [s] + run;
    forall i: nat | i + 1 < |longer|
      ensures StepAt(longer, i)
    {
      if i > 0 { assert StepAt(run, i - 1); }
    }
    assert LeadsOut(longer, s);
  }

  predicate Other(a: Identity, b: Identity) { a.pid != b.pid && a.pgrp != b.pgrp }

  /** The recorded processes are in groups of their own, as they are started. */
  predicate Apart(r: Record) {
    && (forall id | id in Members(r) :: Other(id, r.guardian))
    && (r.guest.Some? && r.child.Some? ==> Other(r.guest.value, r.child.value))
  }

  function Shown(id: Identity, parent: Pid): Proc { Proc(id.start, parent, id.pgrp, id.binary, [], false) }

  /** The guardian alone is left. */
  function Alone(g: Identity): Table { map[g.pid := Shown(g, g.pid)] }

  /** The guardian and its child are alive. */
  function Served(g: Identity, child: Identity): Table { Alone(g)[child.pid := Shown(child, g.pid)] }

  function Beyond(ids: seq<Identity>): (n: nat)
    ensures n > 0 && forall id | id in ids :: id.pid < n && id.pgrp < n
  {
    if ids == [] then 1
    else
      var n := Beyond(ids[1..]);
      if ids[0].pid + ids[0].pgrp < n then n else ids[0].pid + ids[0].pgrp + 1
  }

  /** A process that is nobody's yet. */
  function Stranger(r: Record): (id: Identity)
    ensures IdentityValid(id) && id.pgrp == id.pid && Other(id, r.guardian)
    ensures forall x | x in Members(r) :: Other(id, x)
  {
    var n := Beyond([r.guardian] + Members(r));
    assert r.guardian == ([r.guardian] + Members(r))[0];
    Identity(n, 0, "new", n)
  }

  /** A permitted request of the guardian's child that can be stored leads on. */
  lemma RequestLeadsOn(s: State, op: Request, ack: string)
    requires Inv(s) && s.record.Some? && s.record.value.child.Some?
    requires var r, t := s.record.value, Served(s.record.value.guardian, s.record.value.child.value);
             && Allowed(r, op, t, s.canonical, s.open) && OptionalValid(Brings(op)) && !op.RegisterGuest?
             && (op.PublishGuest? ==> s.canonical.Some?)
    requires var r, t := s.record.value, Served(s.record.value.guardian, s.record.value.child.value);
             var committed := if op.PublishGuest? then s.canonical.value else FileId(0, "");
             var s' := WithRecord(s, Some(After(r, op, t, s.canonical, s.open, committed, ack)));
             Inv(s') ==> CanBeReleased(s')
    ensures CanBeReleased(s)
  {
    var r, t := s.record.value, Served(s.record.value.guardian, s.record.value.child.value);
    var committed := if op.PublishGuest? then s.canonical.value else FileId(0, "");
    var r' := After(r, op, t, s.canonical, s.open, committed, ack);
    var s' := WithRecord(s, Some(r'));
    RefusedByValidator(r, op, t, s.canonical, s.open, committed, ack);
    assert GoesThrough(s, op, t, committed, ack, r');
    assert ChangesRecord(s, op, t, s');
    assert Handles(s, op, t, s');
    assert Next(s, s');
    NextKeepsInv(s, s');
    StepThenReleased(s, s');
  }

  lemma AloneIsQuiet(r: Record)
    requires IdentityValid(r.guardian) && Apart(r) && r.child.Some?
    ensures var t := Alone(r.guardian);
            IdentityMatches(r.guardian, t) && PidsKept(r, t) && Quiet(r, r.guardian.pid, t)
  {
    assert r.child.value in Members(r);
  }

  lemma ServedShowsBoth(r: Record)
    requires IdentityValid(r.guardian) && Apart(r) && r.child.Some?
    ensures var t := Served(r.guardian, r.child.value);
            IdentityMatches(r.guardian, t) && IdentityMatches(r.child.value, t)
  {
    assert r.child.value in Members(r);
  }

  lemma LeavesNow(s: State)
    requires Inv(s) && s.record.Some? && Apart(s.record.value) && s.record.value.child.Some?
             && Releasable(s.record.value, s.open)
    ensures CanBeReleased(s)
  {
    var r := s.record.value;
    AloneIsQuiet(r);
    var s' := Deleted(s, Alone(r.guardian));
    assert Releases(s, Alone(r.guardian), s');
    assert Next(s, s');
    assert StepAt([s, s'], 0);
    assert LeadsOut([s, s'], s);
  }

  /** No guest is recorded, and no bundle but a returned one. */
  predicate Settled(s: State) {
    && s.record.Some? && s.open && Apart(s.record.value) && s.record.value.child.Some? && s.record.value.guest.None?
    && (s.record.value.bundle.Some? ==> s.record.value.bundle.value.state == Returned)
  }

  lemma UnblockedLeaves(s: State)
    requires Inv(s) && Settled(s) && s.record.value.authStage.None?
    ensures CanBeReleased(s)
  {
    if IsBlocked(s) {
      var s' := WithRecord(s, Some(s.record.value.(state := Quiescing)));
      if Inv(s') { LeavesNow(s'); }
      ServedShowsBoth(s.record.value);
      RequestLeadsOn(s, Release, "");
    } else {
      LeavesNow(s);
    }
  }

  lemma SettledLeaves(s: State)
    requires Inv(s) && Settled(s)
    ensures CanBeReleased(s)
  {
    var r := s.record.value;
    if r.authStage.Some? {
      var s' := WithRecord(s, Some(r.(authStage := None, authVerb := None, authCaller := None)));
      assert Members(s'.record.value) == Members(r);
      if Inv(s') { UnblockedLeaves(s'); }
      RequestLeadsOn(s, ClearAuth(r.authStage.value), "");
    } else {
      UnblockedLeaves(s);
    }
  }

  /** The bundle's way to a returned one is open. */
  predicate Bundled(s: State, state: GuestState) {
    && s.record.Some? && s.open && Apart(s.record.value) && s.record.value.child.Some?
    && s.record.value.bundle.Some? && s.record.value.bundle.value.state == state
    && !CutOff(s.record.value.bundle.value, s.canonical)
  }

  lemma ServedMeansStopped(s: State, state: GuestState)
    requires Inv(s) && Bundled(s, state) && state in {Running, Quiescent, PublishedPending}
    ensures var r := s.record.value; StoppedIn(r, state, r.bundle.value.image, Served(r.guardian, r.child.value))
  {
    var r := s.record.value;
    assert r.guest == r.bundle.value.vm && r.guest.value in Members(r);
  }

  lemma PublishedLeaves(s: State)
    requires Inv(s) && Bundled(s, PublishedPending)
    ensures CanBeReleased(s)
  {
    var r, b := s.record.value, s.record.value.bundle.value;
    ServedMeansStopped(s, PublishedPending);
    var r' := WithBundle(r, b.(state := Returned)).(guest := None, reconciled := true);
    var s' := WithRecord(s, Some(r'));
    assert forall x | x in Members(r') :: x in Members(r);
    if Inv(s') { SettledLeaves(s'); }
    ServedShowsBoth(r);
    RequestLeadsOn(s, Acknowledge(b.place, b.image, b.ack.value, b.candidate.value), "");
  }

  lemma QuiescentLeaves(s: State)
    requires Inv(s) && Bundled(s, Quiescent)
    ensures CanBeReleased(s)
  {
    var r, b := s.record.value, s.record.value.bundle.value;
    ServedMeansStopped(s, Quiescent);
    var r' := WithBundle(r,
        b.(candidate := Some(b.baseline), published := s.canonical, ack := Some(""), state := PublishedPending));
    var s' := WithRecord(s, Some(r'));
    assert Members(r') == Members(r);
    if Inv(s') { PublishedLeaves(s'); }
    ServedShowsBoth(r);
    RequestLeadsOn(s, PublishGuest(b.place, b.image, b.baseline), "");
  }

  lemma RunningLeaves(s: State)
    requires Inv(s) && Bundled(s, Running)
    ensures CanBeReleased(s)
  {
    var r, b := s.record.value, s.record.value.bundle.value;
    ServedMeansStopped(s, Running);
    var r' := WithBundle(r, b.(state := Quiescent));
    var s' := WithRecord(s, Some(r'));
    assert Members(r') == Members(r);
    if Inv(s') { QuiescentLeaves(s'); }
    ServedShowsBoth(r);
    RequestLeadsOn(s, MarkQuiescent(b.image), "");
  }

  lemma StartingLeaves(s: State)
    requires Inv(s) && Bundled(s, Starting)
    ensures CanBeReleased(s)
  {
    var r, b, id := s.record.value, s.record.value.bundle.value, Stranger(s.record.value);
    var r' := WithBundle(r, b.(vm := Some(id), state := Running)).(guest := Some(id));
    var s' := WithRecord(s, Some(r'));
    assert forall x | x in Members(r') :: x in Members(r) || x == id;
    if Inv(s') { RunningLeaves(s'); }
    ServedShowsBoth(r);
    RequestLeadsOn(s, BindVm(b.image, id), "");
  }

  lemma RegisteredLeaves(s: State)
    requires Inv(s) && Bundled(s, Registered)
    ensures CanBeReleased(s)
  {
    var r, b := s.record.value, s.record.value.bundle.value;
    var r' := r.(bundle := None, reconciled := true);
    var s' := WithRecord(s, Some(r'));
    assert Members(r') == Members(r);
    if Inv(s') { SettledLeaves(s'); }
    ServedShowsBoth(r);
    RequestLeadsOn(s, Abort(b.image), "");
  }

  lemma ChildLeaves(s: State)
    requires Inv(s) && s.record.Some? && Apart(s.record.value) && s.record.value.child.Some? && !Stranded(s)
    ensures CanBeReleased(s)
  {
    if s.record.value.bundle.None? {
      SettledLeaves(s);
    } else {
      match s.record.value.bundle.value.state
      case Registered => RegisteredLeaves(s);
      case Starting => StartingLeaves(s);
      case Running => RunningLeaves(s);
      case Quiescent => QuiescentLeaves(s);
      case PublishedPending => PublishedLeaves(s);
      case Returned => SettledLeaves(s);
    }
  }

  lemma ChildlessLeaves(s: State)
    requires Inv(s) && s.record.Some? && Apart(s.record.value) && s.record.value.child.None? && !Stranded(s)
    ensures CanBeReleased(s)
  {
    var r := s.record.value;
    var id := Stranger(r);
    var r' := r.(child := Some(id));
    var s' := WithRecord(s, Some(r'));
    assert BindsFirstChild(s, s');
    assert Next(s, s');
    NextKeepsInv(s, s');
    assert forall x | x in Members(r') :: x in Members(r) || x == id;
    assert r.guest.Some? ==> r.guest.value in Members(r);
    ChildLeaves(s');
    StepThenReleased(s, s');
  }

  /** A record, blocked or not, can still come to be deleted by some continuation of the run if
      and only if the guard is open, its guest has a bundle, and that bundle's baseline, or what
      it published, is the canonical credential or it has been returned. */
  lemma CanBeReleasedIff(s: State)
    requires Inv(s) && s.record.Some? && Apart(s.record.value)
    ensures CanBeReleased(s) <==> !Stranded(s)
  {
    if Stranded(s) {
      forall run ensures !LeadsOut(run, s) { StrandedLeadsNowhere(run, s); }
    } else if s.record.value.child.Some? {
      ChildLeaves(s);
    } else {
      ChildlessLeaves(s);
    }
  }
}
