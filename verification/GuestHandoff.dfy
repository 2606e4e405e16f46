/** The guest handoff over whole runs: every operation may fail before or after its record is
    written, and a publication may land without being recorded. */
module GuestHandoff {
  import opened Options
  import opened Processes
  import CredentialDisk
  import opened Publication
  import opened OwnerRecord
  import opened RequestGrounds

  /** One attempt to replace the canonical credential by a guest's: which registration it was
      for, the states that bundle had been through, its VM and the processes seen. */
  datatype Replacement = Replacement(serial: nat, trail: seq<GuestState>, vm: Identity, seen: Table)

  /** One deletion of the owner record: what it said, and the processes seen. */
  datatype Ending = Ending(record: Record, seen: Table)

  /** How many bundles have been registered, the states of the present one so far, and what has
      been tried on the canonical credential and deleted. */
  datatype History = History(serial: nat, trail: seq<GuestState>, log: seq<Replacement>, ends: seq<Ending>)

  datatype State = State(record: Option<Record>, canonical: Option<FileId>, open: bool, used: set<Token>,
                         history: History)

  function BundleOf(r: Option<Record>): Option<Bundle> { if r.Some? then r.value.bundle else None }

  function Follow(h: History, before: Option<Bundle>, after: Option<Bundle>): History {
    if after.None? then h.(trail := [])
    else if before.None? then h.(serial := h.serial + 1, trail := [after.value.state])
    else if before.value.state == after.value.state then h
    else h.(trail := h.trail + [after.value.state])
  }

  function WithRecord(s: State, r: Option<Record>): State {
    s.(record := r, history := Follow(s.history, BundleOf(s.record), BundleOf(r)))
  }

  function Deleted(s: State, t: Table): State
    requires s.record.Some?
  {
    var s' := WithRecord(s, None);
    s'.(history := s'.history.(ends := s.history.ends + [Ending(s.record.value, t)]))
  }

  function BlockedRecord(r: Record): Record { r.(state := Blocked) }

  // ---------------------------------------------------------------- one operation

  /** What a guest publication did to the canonical credential. */
  datatype Attempt = Attempt(out: Outcome, p: Token, after: Option<FileId>, open: bool, live: bool)

  function InoOf(v: Option<FileId>): Option<Token> { if v.Some? then Some(v.value.ino) else None }

  /** The stage was made just now against the baseline, so `a` follows the publication rules. */
  predicate Follows(baseline: FileId, candidate: FileId, canonical: Option<FileId>, open: bool, used: set<Token>,
                    a: Attempt)
  {
    && Publishes(a.out, Some(baseline.ino), Face(InoOf(canonical), open, true),
                 Face(InoOf(a.after), a.open, a.live), a.p, used)
    && (a.out == Refused ==> a.after == canonical)
    && (a.out in {Uncleaned, Unconfirmed, Published} ==> a.after == Some(FileId(a.p, candidate.sha)))
  }

  function Tried(s: State, a: Attempt, t: Table): State
    requires s.record.Some? && s.record.value.bundle.Some? && s.record.value.bundle.value.vm.Some?
  {
    var h := s.history;
    s.(canonical := a.after, open := a.open, used := s.used + if a.after.Some? then {a.after.value.ino} else {},
       history := if a.out == Refused then h
                  else h.(log := h.log + [Replacement(h.serial, h.trail, s.record.value.bundle.value.vm.value, t)]))
  }

  /** The record changed to `r`, or not, and if a guest operation failed may be blocked. */
  predicate Recorded(s: State, r: Option<Record>, op: Request, s': State) {
    || s' == s
    || (r.Some? && Valid(r.value) && s' == WithRecord(s, r))
    || (op.IsGuest() && s.record.Some? && s' == WithRecord(s, Some(BlockedRecord(s.record.value))))
    || (op.IsGuest() && r.Some? && Valid(r.value) && s' == WithRecord(s, Some(BlockedRecord(r.value))))
  }

  /** The operation went through as far as the record: `r` is what it writes. */
  predicate GoesThrough(s: State, op: Request, t: Table, committed: FileId, ack: string, r: Record) {
    && s.record.Some? && Allowed(s.record.value, op, t, s.canonical, s.open)
    && r == After(s.record.value, op, t, s.canonical, s.open, committed, ack)
  }

  /** A publication of changed bytes: first the credential, then, if that succeeded, the record. */
  ghost predicate RefreshesBy(s: State, op: Request, t: Table, a: Attempt, s': State) {
    && s.record.Some? && op.PublishGuest? && Allowed(s.record.value, op, t, s.canonical, s.open)
    && Follows(s.record.value.bundle.value.baseline, op.candidate, s.canonical, s.open, s.used, a)
    && (|| Recorded(Tried(s, a, t), None, op, s')
        || (a.out == Published && exists r, ack ::
              GoesThrough(s, op, t, FileId(a.p, op.candidate.sha), ack, r)
                  && Recorded(Tried(s, a, t), Some(r), op, s')))
  }

  /** An operation that leaves the credential alone; a publication does if the bytes are the same. */
  ghost predicate ChangesRecord(s: State, op: Request, t: Table, s': State) {
    exists r, committed, ack ::
      && GoesThrough(s, op, t, committed, ack, r) && Recorded(s, Some(r), op, s')
      && (op.PublishGuest? ==> s.canonical == Some(committed))
  }

  ghost predicate Handles(s: State, op: Request, t: Table, s': State) {
    Recorded(s, None, op, s') || ChangesRecord(s, op, t, s') || exists a :: RefreshesBy(s, op, t, a, s')
  }

  /** A permitted request whose record the validator accepts; changed bytes need an open guard. */
  predicate Performs(r: Record, op: Request, t: Table, canonical: Option<FileId>, open: bool) {
    && Allowed(r, op, t, canonical, open)
    && OptionalValid(Brings(op)) && !(op.RegisterGuest? && r.bundle.Some?)
    && (op.PublishGuest? ==> op.candidate.sha == r.bundle.value.baseline.sha || open)
  }

  /** It left `r`; a publication left what it recorded, with the guest's bytes, in place. */
  ghost predicate WentThrough(s: State, op: Request, t: Table, r: Record, canonical: Option<FileId>) {
    exists committed, ack ::
      && GoesThrough(s, op, t, committed, ack, r)
      && (op.PublishGuest? ==> canonical == Some(committed) && committed.sha == op.candidate.sha)
  }

  lemma RecordedHandles(s: State, op: Request, t: Table, r: Record, s': State)
    requires s.record.Some? && Allowed(s.record.value, op, t, s.canonical, s.open) && !op.PublishGuest?
    requires r == After(s.record.value, op, t, s.canonical, s.open, FileId(0, ""), "")
    requires Recorded(s, Some(r), op, s')
    ensures Handles(s, op, t, s')
  {
    assert GoesThrough(s, op, t, FileId(0, ""), "", r);
    assert ChangesRecord(s, op, t, s');
  }

  /** Who sends a request: the process, and whether it belongs to a client that has joined. */
  datatype Asker = Asker(pid: Pid, joined: bool)

  /** A request comes from below the guardian `g`, while its child is who it was or from a client
      that has joined; and a process to be recorded is below it too. */
  ghost predicate Asked(r: Record, op: Request, asker: Asker, g: Pid, t: Table) {
    op.IsOwn() || (
      && Reaches(t, asker.pid, g) && r.child.Some? && (asker.joined || IdentityMatches(r.child.value, t))
      && (op.Release? ==> asker.pid == r.child.value.pid) && (op.StageAuth? ==> op.caller.pid == asker.pid)
      && (op.Records() ==> Reaches(t, op.id.pid, g) && IdentityMatches(op.id, t)))
  }

  lemma StorableMeans(s: State, op: Request, t: Table, changed: Record)
    requires s.record.Some? && !op.PublishGuest? && GoesThrough(s, op, t, FileId(0, ""), "", changed)
    ensures Valid(s.record.value) ==>
              (Valid(changed) <==> Performs(s.record.value, op, t, s.canonical, s.open))
  {
    if Valid(s.record.value) {
      RefusedByValidator(s.record.value, op, t, s.canonical, s.open, FileId(0, ""), "");
    }
  }

  lemma AskedMeans(r: Record, op: Request, asker: Asker, g: Pid, t: Table)
    ensures Asked(r, op, asker, g, t) <==> Rightful(r, op, asker.pid, asker.joined, g, t)
  {
    ReachesIsClimb(t, asker.pid, g);
    if r.child.Some? { MatchingIsShowing(r.child.value, t); }
    if op.Records() {
      ReachesIsClimb(t, op.id.pid, g);
      MatchingIsShowing(op.id, t);
    }
  }

  lemma RequestMeans(r: Record, op: Request, asker: Asker, g: Pid, t: Table, canonical: Option<FileId>, open: bool)
    ensures Allowed(r, op, t, canonical, open) && Asked(r, op, asker, g, t)
            <==> Grounded(r, op, asker.pid, asker.joined, g, t, canonical, open)
    ensures Performs(r, op, t, canonical, open) <==> Allowed(r, op, t, canonical, open) && Storable(r, op, open)
  {
    AskedMeans(r, op, asker, g, t);
    AllowedMeans(r, op, t, canonical, open);
  }

  lemma WentThroughMeans(s: State, op: Request, t: Table, r: Record, canonical: Option<FileId>)
    requires WentThrough(s, op, t, r, canonical)
    ensures s.record.Some? && Allowed(s.record.value, op, t, s.canonical, s.open)
    ensures Leaves(s.record.value, op, s.canonical, r)
    ensures op.PublishGuest? ==>
              && r.bundle.Some? && r.bundle.value.published == canonical && canonical.Some?
              && canonical.value.sha == op.candidate.sha
    ensures op.MarkQuiescent? || op.PublishGuest? || op.Acknowledge? ==>
              && s.record.value.bundle.Some? && s.record.value.bundle.value.vm.Some?
              && NothingOf(t, s.record.value.bundle.value.vm.value)
  {
    var committed, ack :|
      && GoesThrough(s, op, t, committed, ack, r)
      && (op.PublishGuest? ==> canonical == Some(committed) && committed.sha == op.candidate.sha);
    AfterMeans(s.record.value, op, t, s.canonical, s.open, committed, ack);
    if op.MarkQuiescent? || op.PublishGuest? || op.Acknowledge? {
      StoppedIsNothing(t, s.record.value.bundle.value.vm.value);
    }
  }

  // ---------------------------------------------------------------- release

  /** What the guardian checks before it gives the owner record up, once all is quiet. */
  predicate Releasable(r: Record, open: bool) {
    r.state != Blocked && r.authStage.None? && ((r.guest.Some? || r.bundle.Some?) ==> r.reconciled) && open
  }

  /** Every recorded process still owns its pid, or the pid is gone. */
  predicate PidsKept(r: Record, t: Table) {
    forall id | id in Members(r) :: id.pid in t ==> t[id.pid].start == id.start
  }

  function Members(r: Record): seq<Identity> {
    (if r.child.Some? then [r.child.value] else []) + r.children
    + (if r.daemon.Some? then [r.daemon.value.identity] else []) + (if r.guest.Some? then [r.guest.value] else [])
  }

  ghost predicate Quiet(r: Record, g: Pid, t: Table) {
    r.child.Some? && !GroupActive(t, r.child.value.pgrp) && !ActiveDescendant(t, g, {})
  }

  /** The guardian is who the record says, and nothing it started is left. */
  ghost predicate Finished(r: Record, g: Pid, child: Pid, t: Table) {
    IdentityMatches(r.guardian, t) && r.child.Some? && r.child.value.pid == child && PidsKept(r, t) && Quiet(r, g, t)
  }

  /** What is seen outside the processes: the runtime's credential link is in place, somebody
      else uses the credential, the control socket is the guardian's own. */
  datatype Outside = Outside(linked: bool, consumer: bool, controlKept: bool)

  /** Nothing stands against giving the record up. */
  ghost predicate Leavable(r: Record, g: Pid, child: Pid, socketRemains: bool, outside: Outside, t: Table, open: bool) {
    && Finished(r, g, child, t) && Releasable(r, open) && !(r.daemon.Some? && socketRemains)
    && (r.runtime.Some? ==> outside.linked) && !outside.consumer && outside.controlKept
  }

  /** The record names the process. */
  predicate Named(r: Record, id: Identity) {
    r.child == Some(id) || id in r.children || r.guest == Some(id) || (r.daemon.Some? && r.daemon.value.identity == id)
  }

  /** Nothing lives in the group of the guardian's child, or below the guardian, and no pid of a
      process that the record names has passed to another. */
  ghost predicate Deserted(r: Record, g: Pid, t: Table) {
    && r.child.Some?
    && (forall pid | pid in t && !t[pid].zombie :: t[pid].pgrp != r.child.value.pgrp && (pid == g || !Below(t, pid, g)))
    && (forall pid, id | pid in t && Named(r, id) && id.pid == pid :: id.start == t[pid].start)
  }

  lemma LeavableMeans(r: Record, g: Pid, child: Pid, socketRemains: bool, outside: Outside, t: Table, open: bool)
    ensures Leavable(r, g, child, socketRemains, outside, t, open) <==>
              && r.state in {OwnerState.Pending, Active, Quiescing} && r.authStage == None && open
              && ((r.guest == None && r.bundle == None) || r.reconciled)
              && (r.daemon == None || !socketRemains) && (r.runtime == None || outside.linked)
              && !outside.consumer && outside.controlKept
              && r.child.Some? && r.child.value.pid == child && Shows(t, r.guardian) && Deserted(r, g, t)
    ensures Finished(r, g, child, t)
            <==> r.child.Some? && r.child.value.pid == child && Shows(t, r.guardian) && Deserted(r, g, t)
  {
    MatchingIsShowing(r.guardian, t);
    MembersAreNamed(r);
    forall pid | pid in t
      ensures Reaches(t, pid, g) <==> Below(t, pid, g)
    {
      ReachesIsClimb(t, pid, g);
    }
    assert PidsKept(r, t) <==> forall pid, id | pid in t && Named(r, id) && id.pid == pid :: id.start == t[pid].start;
  }

  lemma MembersAreNamed(r: Record)
    ensures forall id :: id in Members(r) <==> Named(r, id)
  {
  }

  /** All is quiet, but there is something that the guardian cannot settle. */
  predicate Unsettled(r: Record, socketRemains: bool) {
    && r.state != Blocked
    && (r.authStage != None || ((r.guest != None || r.bundle != None) && !r.reconciled)
        || (r.daemon != None && socketRemains))
  }

  /** Whatever else fails in the guardian leaves the record as it was but for the mark. */
  predicate Blocks(s: State, s': State) {
    s.record.Some? && s' == WithRecord(s, Some(BlockedRecord(s.record.value)))
  }

  /** The recorded guardian's own release. */
  ghost predicate Releases(s: State, t: Table, s': State) {
    && s.record.Some?
    && var r := s.record.value;
       || s' == s
       || (s' == Deleted(s, t) && Releasable(r, s.open) && PidsKept(r, t) && Quiet(r, r.guardian.pid, t)
          && IdentityMatches(r.guardian, t))
       || (s' == WithRecord(s, Some(BlockedRecord(r))) && Quiet(r, r.guardian.pid, t))
  }

  // ---------------------------------------------------------------- the guardian

  class Guardian {
    var record: Option<Record>
    var canonical: Option<FileId>
    /** No marker of an unfinished publication. */
    var open: bool
    /** Every write that has been seen. */
    var used: set<Token>
    ghost var history: History
    /** How many steps have failed that need not have. */
    ghost var faults: nat

    constructor (record: Option<Record>, canonical: Option<FileId>, open: bool)
      ensures View() == State(record, canonical, open, if canonical.Some? then {canonical.value.ino} else {},
                              Follow(History(0, [], [], []), None, BundleOf(record)))
    {
      this.record, this.canonical, this.open := record, canonical, open;
      used := if canonical.Some? then {canonical.value.ino} else {};
      history := Follow(History(0, [], [], []), None, BundleOf(record));
      faults := 0;
    }

    /** A step may fail where it need not. */
    method Fails() returns (fails: bool)
      modifies this`faults
      ensures faults == old(faults) + if fails then 1 else 0
    {
      fails := *;
      if fails { faults := faults + 1; }
    }

    ghost function View(): State
      reads this
    {
      State(record, canonical, open, used, history)
    }

    /** Validate, then replace the record durably; a failure may come before or after. */
    method Write(r: Record) returns (ok: bool)
      modifies this`record, this`history, this`faults
      ensures View() == old(View()) || (Valid(r) && View() == WithRecord(old(View()), Some(r)))
      ensures ok ==> Valid(r) && View() == WithRecord(old(View()), Some(r))
      ensures faults == old(faults) + if !ok && Valid(r) then 1 else 0
      ensures View() != old(View()) || ok ==> Coherent(r) && record == Some(r)
      ensures Coherent(r) && faults == old(faults) ==> ok
    {
      ValidMeans(r);
      if !Valid(r) { return false; }
      var fails := Fails();
      var already: bool := *;
      if !fails || already {
        history := Follow(history, BundleOf(record), r.bundle);
        record := Some(r);
      }
      ok := !fails;
    }

    /** A failed daemon request or teardown marks the record blocked, if that can be written. */
    method Block()
      requires record.Some?
      modifies this`record, this`history, this`faults
      ensures View() == old(View()) || Blocks(old(View()), View())
      ensures faults >= old(faults)
      ensures Valid(old(record).value) && faults == old(faults) ==> record == Some(BlockedRecord(old(record).value))
    {
      var ok := Write(record.value.(state := Blocked));
    }

    /** So does a failed guest operation. */
    method Fail(op: Request)
      requires record.Some?
      modifies this`record, this`history, this`faults
      ensures View() == old(View())
              || (op.IsGuest() && View() == WithRecord(old(View()), Some(BlockedRecord(old(record).value))))
      ensures faults >= old(faults)
      ensures op.IsGuest() && Valid(old(record).value) && faults == old(faults) ==>
                record == Some(BlockedRecord(old(record).value))
    {
      if op.IsGuest() { Block(); }
    }

    method WriteOrFail(op: Request, r: Record) returns (ok: bool)
      requires record.Some?
      modifies this`record, this`history, this`faults
      ensures Recorded(old(View()), Some(r), op, View())
      ensures faults >= old(faults)
      ensures ok ==> record == Some(r)
      ensures !ok && Valid(r) ==> faults > old(faults)
      ensures !ok && !Valid(r) && Valid(old(record).value) && op.IsGuest() && faults == old(faults) ==>
                record == Some(BlockedRecord(old(record).value))
      ensures !Valid(r) ==> !ok
    {
      ok := Write(r);
      if !ok { Fail(op); }
    }

    /** The stopped VM of a bundle in the given state, or none. */
    method StoppedVm(r: Record, state: GuestState, image: nat, t: Table) returns (vm: Option<Identity>)
      ensures vm.Some? <==> StoppedIn(r, state, image, t)
      ensures vm.Some? ==> vm == r.bundle.value.vm
    {
      if r.bundle.None? { return None; }
      var guest := r.bundle.value;
      if guest.image != image || guest.state != state { return None; }
      if guest.vm.None? || r.guest != guest.vm { return None; }
      if Ambiguous(t, guest.vm.value) || VmActive(t, guest.vm.value) { return None; }
      return guest.vm;
    }

    /** Publish a fresh stage; every outcome a publication can have is possible. */
    method Refresh(candidate: FileId, t: Table) returns (a: Attempt)
      requires record.Some? && record.value.bundle.Some? && record.value.bundle.value.vm.Some?
      requires canonical == Some(record.value.bundle.value.baseline)
      modifies this`canonical, this`open, this`used, this`history, this`faults
      ensures Follows(record.value.bundle.value.baseline, candidate, old(canonical), old(open), old(used), a)
      ensures View() == Tried(old(View()), a, t)
      ensures faults == old(faults) + if old(open) && a.out != Published then 1 else 0
    {
      var baseline, fails := record.value.bundle.value.baseline, false;
      if open { fails := Fails(); }
      a := Attempt(Refused, 0, canonical, open, true);
      if open && !fails {
        var p := CredentialDisk.Unused(used);
        a := Attempt(Published, p, Some(FileId(p, candidate.sha)), true, false);
      } else if open {
        var other: Attempt := *;
        if other.out != Published && Follows(baseline, candidate, canonical, open, used, other) { a := other; }
      }
      canonical, open := a.after, a.open;
      used := used + if a.after.Some? then {a.after.value.ino} else {};
      if a.out != Refused {
        history := history.(log := history.log + [Replacement(history.serial, history.trail,
                                                              record.value.bundle.value.vm.value, t)]);
      }
    }

    /** Publish the guest's credential, if it changed, and record what was published. */
    method PublishGuestCredential(op: Request, t: Table) returns (ok: bool)
      requires record.Some? && op.PublishGuest?
      modifies this
      ensures Handles(old(View()), op, t, View())
      ensures faults >= old(faults)
      ensures faults == old(faults) && Valid(old(record).value) ==>
                (ok <==> old(Performs(record.value, op, t, canonical, open)))
      ensures faults == old(faults) && Valid(old(record).value) && !ok ==>
                record == Some(BlockedRecord(old(record).value))
      ensures ok ==> record.Some? && WentThrough(old(View()), op, t, record.value, canonical)
    {
      ghost var s := View();
      var r := record.value;
      var vm := StoppedVm(r, Quiescent, op.image, t);
      var raises := Fails();
      if raises || vm.None? || !IdentityMatches(r.guardian, t) || r.bundle.value.place != op.place
         || canonical != Some(r.bundle.value.baseline) {
        Fail(op);
        return false;
      }
      if op.candidate.sha == r.bundle.value.baseline.sha {
        ok := RecordPublished(op, r, r.bundle.value.baseline, s, t);
        return;
      }
      var a := Refresh(op.candidate, t);
      if a.out != Published {
        Fail(op);
        assert RefreshesBy(s, op, t, a, View());
        return false;
      }
      ok := RecordPublished(op, r, FileId(a.p, op.candidate.sha), s, t);
      assert RefreshesBy(s, op, t, a, View());
    }

    method RecordPublished(op: Request, r: Record, committed: FileId, ghost s: State, t: Table) returns (ok: bool)
      requires s.record == record == Some(r) && op.PublishGuest? && Allowed(r, op, t, s.canonical, s.open)
      modifies this`record, this`history, this`faults
      ensures exists changed, ack ::
              GoesThrough(s, op, t, committed, ack, changed) && Recorded(old(View()), Some(changed), op, View())
      ensures faults >= old(faults)
      ensures Valid(r) && !ok ==> faults > old(faults)
      ensures ok ==> record.Some? && exists ack :: GoesThrough(s, op, t, committed, ack, record.value)
    {
      var ack: string := *;
      var changed := WithBundle(r, r.bundle.value.(candidate := Some(op.candidate), published := Some(committed),
                                                    ack := Some(ack), state := PublishedPending));
      assert GoesThrough(s, op, t, committed, ack, changed);
      ok := WriteOrFail(op, changed);
    }

    /** The other operations: what the request changes in the record, or none if refused. */
    method Change(r: Record, op: Request, t: Table) returns (changed: Option<Record>)
      requires !op.PublishGuest?
      ensures changed.Some? <==> Allowed(r, op, t, canonical, open)
      ensures changed.Some? ==> forall f, ack :: changed.value == After(r, op, t, canonical, open, f, ack)
    {
      if !IdentityMatches(r.guardian, t) && !op.DropChild? && !op.ClearAuth? { return None; }
      match op {
        case BindRuntime(runtime, config) =>
          if !Absolute(runtime) || |config| > MAX_CONFIG { return None; }
          if (r.runtime.Some? && r.runtime.value != runtime) || (r.config.Some? && r.config.value != config) {
            return None;
          }
          return Some(r.(runtime := Some(runtime), config := Some(config), state := Active));
        case BindChild(id) =>
          if |r.children| >= MAX_CHILDREN { return None; }
          return Some(r.(children := r.children + [id], state := Active));
        case DropChild(id) =>
          if id !in r.children { return None; }
          return Some(r.(children := Removed(r.children, id)));
        case BindDaemon(id, socket) =>
          if r.runtime.None? || !Absolute(socket) || id.pgrp != id.pid || r.daemon.Some? { return None; }
          return Some(r.(daemon := Some(Daemon(id, socket)), state := Active));
        case DropDaemon(next) =>
          if r.daemon.None? || (next.Some? && |next.value| > MAX_CONFIG) { return None; }
          changed := Some(r.(daemon := None));
          if next.Some? { changed := Some(changed.value.(config := next, state := OwnerState.Pending)); }
          return;
        case RegisterGuest(id) =>
          if r.guest.Some? { return None; }
          return Some(r.(guest := Some(id), reconciled := false, state := Active));
        case RegisterBundle(place, image, seed) =>
          if r.bundle.Some? || r.guest.Some? || canonical.None? || canonical.value.sha != seed { return None; }
          return Some(r.(bundle := Some(Bundle(place, image, canonical.value, None, Registered, None, None, None)),
                         reconciled := false, state := Active));
        case Release =>
          if r.guest.Some? { return None; }
          return Some(r.(state := Quiescing));
        case StageAuth(stage, verb, caller) =>
          if r.authStage.Some? || !Absolute(stage) || verb !in {"login", "status", "logout"} { return None; }
          return Some(r.(authStage := Some(stage), authVerb := Some(verb), authCaller := Some(caller)));
        case ClearAuth(stage) =>
          if r.authStage != Some(stage) { return None; }
          return Some(r.(authStage := None, authVerb := None, authCaller := None));
        case _ =>
          changed := ChangeGuest(r, op, t);
      }
    }

    method ChangeGuest(r: Record, op: Request, t: Table) returns (changed: Option<Record>)
      requires op.MarkStarting? || op.BindVm? || op.MarkQuiescent? || op.Acknowledge? || op.Abort?
      requires IdentityMatches(r.guardian, t)
      ensures changed.Some? <==> Allowed(r, op, t, canonical, open)
      ensures changed.Some? ==> forall f, ack :: changed.value == After(r, op, t, canonical, open, f, ack)
    {
      if r.bundle.None? || r.bundle.value.image != op.image { return None; }
      var guest := r.bundle.value;
      match op {
        case MarkStarting(_) =>
          if guest.state != Registered || r.guest.Some? { return None; }
          return Some(WithBundle(r, guest.(state := Starting)));
        case BindVm(_, id) =>
          if guest.state != Starting || guest.vm.Some? || r.guest.Some? || id.pgrp != id.pid { return None; }
          return Some(WithBundle(r, guest.(vm := Some(id), state := Running)).(guest := Some(id)));
        case MarkQuiescent(image) =>
          var vm := StoppedVm(r, Running, image, t);
          if vm.None? { return None; }
          return Some(WithBundle(r, guest.(state := Quiescent)));
        case Acknowledge(place, image, ack, candidate) =>
          var vm := StoppedVm(r, PublishedPending, image, t);
          if vm.None? || guest.place != place || guest.ack != Some(ack) { return None; }
          if guest.candidate != Some(candidate) || canonical != guest.published || !open { return None; }
          return Some(WithBundle(r, guest.(state := Returned)).(guest := None, reconciled := true));
        case Abort(_) =>
          if guest.state != Registered || guest.vm.Some? || r.guest.Some? { return None; }
          if canonical != Some(guest.baseline) || !open { return None; }
          return Some(r.(bundle := None, reconciled := true));
      }
    }

    /** The checks of who asks, and of the process a request wants recorded. */
    method MayAsk(r: Record, op: Request, asker: Asker, g: Pid, t: Table) returns (ok: bool)
      ensures ok <==> Asked(r, op, asker, g, t)
    {
      if op.IsOwn() { return true; }
      var below := Descendant(asker.pid, g, t);
      if !below || r.child.None? || !(asker.joined || IdentityMatches(r.child.value, t)) { return false; }
      if op.Release? && asker.pid != r.child.value.pid { return false; }
      if op.StageAuth? && op.caller.pid != asker.pid { return false; }
      if !op.Records() { return true; }
      below := Descendant(op.id.pid, g, t);
      ok := below && IdentityMatches(op.id, t);
    }

    /** One request, from the checks of who asks to the write of the record.  Without a failure it
        succeeds exactly when it is rightly asked and permitted and its record can be stored;
        refused, a guest operation leaves the record blocked. */
    method Handle(op: Request, asker: Asker, g: Pid, t: Table) returns (ok: bool)
      modifies this
      ensures Handles(old(View()), op, t, View())
      ensures faults >= old(faults)
      ensures faults == old(faults) && old(record).Some? && Valid(old(record).value) ==>
                (ok <==> old(Performs(record.value, op, t, canonical, open))
                         && old(Asked(record.value, op, asker, g, t)))
      ensures faults == old(faults) && old(record).Some? && Valid(old(record).value) && !ok && op.IsGuest() ==>
                record == Some(BlockedRecord(old(record).value))
      // the same condition by condition and field by field
      ensures ok && (op.MarkQuiescent? || op.PublishGuest? || op.Acknowledge?) ==>
                && old(record).Some? && old(record).value.bundle.Some? && old(record).value.bundle.value.vm.Some?
                && var vm := old(record).value.bundle.value.vm.value;
                   && vm.pid !in (set pid | pid in t && !t[pid].zombie)
                   && (vm.pgrp == vm.pid ==> vm.pgrp !in (set pid | pid in t && !t[pid].zombie :: t[pid].pgrp))
      ensures ok ==>
                && old(record).Some? && record.Some?
                && Grounded(old(record).value, op, asker.pid, asker.joined, g, t, old(canonical), old(open))
                && Leaves(old(record).value, op, old(canonical), record.value)
      ensures ok && op.PublishGuest? ==>
                && record.value.bundle.Some? && record.value.bundle.value.published == canonical
                && canonical.Some? && canonical.value.sha == op.candidate.sha
      ensures !op.PublishGuest? ==> canonical == old(canonical) && open == old(open)
      ensures faults == old(faults) && old(record).Some? && Valid(old(record).value) ==>
                (ok <==>
                  && Grounded(old(record).value, op, asker.pid, asker.joined, g, t, old(canonical), old(open))
                  && Storable(old(record).value, op, old(open)))
    {
      ghost var s := View();
      ok := RunRequest(op, asker, g, t);
      if s.record.Some? { RequestMeans(s.record.value, op, asker, g, t, s.canonical, s.open); }
      if ok { WentThroughMeans(s, op, t, record.value, canonical); }
    }

    /** The request itself, against the relation the runs are made of. */
    method RunRequest(op: Request, asker: Asker, g: Pid, t: Table) returns (ok: bool)
      modifies this
      ensures Handles(old(View()), op, t, View())
      ensures faults >= old(faults)
      ensures faults == old(faults) && old(record).Some? && Valid(old(record).value) ==>
                (ok <==> old(Performs(record.value, op, t, canonical, open))
                         && old(Asked(record.value, op, asker, g, t)))
      ensures faults == old(faults) && old(record).Some? && Valid(old(record).value) && !ok && op.IsGuest() ==>
                record == Some(BlockedRecord(old(record).value))
      ensures ok ==> old(record).Some? && old(Asked(record.value, op, asker, g, t))
      ensures ok ==> record.Some? && WentThrough(old(View()), op, t, record.value, canonical)
      ensures !op.PublishGuest? ==> canonical == old(canonical) && open == old(open)
    {
      if record.None? { return false; }
      var may := MayAsk(record.value, op, asker, g, t);
      if !may {
        Fail(op);
        return false;
      }
      if op.PublishGuest? {
        ok := PublishGuestCredential(op, t);
      } else {
        ok := ChangeRecord(op, t);
      }
    }

    method ChangeRecord(op: Request, t: Table) returns (ok: bool)
      requires record.Some? && !op.PublishGuest?
      modifies this`record, this`history, this`faults
      ensures Handles(old(View()), op, t, View())
      ensures faults >= old(faults)
      ensures faults == old(faults) && Valid(old(record).value) ==>
                (ok <==> Performs(old(record).value, op, t, canonical, open))
      ensures faults == old(faults) && Valid(old(record).value) && !ok && op.IsGuest() ==>
                record == Some(BlockedRecord(old(record).value))
      ensures ok ==> record.Some? && WentThrough(old(View()), op, t, record.value, canonical)
    {
      var changed := Change(record.value, op, t);
      var raises := Fails();
      if changed.None? || raises {
        Fail(op);
        return false;
      }
      assert GoesThrough(View(), op, t, FileId(0, ""), "", changed.value);
      ok := Store(op, t, changed.value);
    }

    method Store(op: Request, t: Table, changed: Record) returns (ok: bool)
      requires record.Some? && !op.PublishGuest? && GoesThrough(View(), op, t, FileId(0, ""), "", changed)
      modifies this`record, this`history, this`faults
      ensures Handles(old(View()), op, t, View())
      ensures faults >= old(faults)
      ensures faults == old(faults) && Valid(old(record).value) ==>
                (ok <==> Performs(old(record).value, op, t, canonical, open))
      ensures faults == old(faults) && Valid(old(record).value) && !ok && op.IsGuest() ==>
                record == Some(BlockedRecord(old(record).value))
      ensures ok ==> record == Some(changed)
    {
      ghost var s := View();
      StorableMeans(s, op, t, changed);
      ok := WriteOrFail(op, changed);
      RecordedHandles(s, op, t, changed, View());
    }

    /** Delete the record only when nothing of the guardian is left; a doubt blocks it.  A failure
        may come before the record is deleted or after. */
    method ReleaseWhenQuiescent(g: Pid, child: Pid, socketRemains: bool, outside: Outside, t: Table)
      returns (released: bool)
      modifies this
      ensures old(record).Some? && g == old(record).value.guardian.pid ==> Releases(old(View()), t, View())
      ensures View() == old(View())
              || (old(record).Some? && View() == WithRecord(old(View()), Some(BlockedRecord(old(record).value))))
              || (old(record).Some? && View() == Deleted(old(View()), t))
      ensures released ==> record == None
      ensures old(record).Some? && record.None? ==>
                old(Leavable(record.value, g, child, socketRemains, outside, t, open))
      ensures faults >= old(faults)
      ensures faults == old(faults) ==>
                (released <==> old(record).Some?
                               && old(Leavable(record.value, g, child, socketRemains, outside, t, open)))
      // condition by condition
      ensures old(record).Some? && (record.None? || faults == old(faults)) ==>
                (record.None? <==>
                  && old(record).value.state in {OwnerState.Pending, Active, Quiescing}
                  && old(record).value.authStage == None && old(open)
                  && ((old(record).value.guest == None && old(record).value.bundle == None)
                      || old(record).value.reconciled)
                  && (old(record).value.daemon == None || !socketRemains)
                  && (old(record).value.runtime == None || outside.linked)
                  && !outside.consumer && outside.controlKept
                  && old(record).value.child.Some? && old(record).value.child.value.pid == child
                  && Shows(t, old(record).value.guardian) && Deserted(old(record).value, g, t))
      // a doubt, and nothing else, leaves the mark
      ensures old(record).Some? && record.Some? && record != old(record) ==>
                && Unsettled(old(record).value, socketRemains) && record == Some(old(record).value.(state := Blocked))
                && old(record).value.child.Some? && old(record).value.child.value.pid == child
                && Shows(t, old(record).value.guardian) && Deserted(old(record).value, g, t)
      ensures faults == old(faults) && old(record).Some? && Valid(old(record).value)
              && old(record).value.child.Some? && old(record).value.child.value.pid == child
              && Shows(t, old(record).value.guardian) && Deserted(old(record).value, g, t)
              && Unsettled(old(record).value, socketRemains) ==>
                record == Some(old(record).value.(state := Blocked))
    {
      if record.Some? { LeavableMeans(record.value, g, child, socketRemains, outside, t, open); }
      released := GiveUp(g, child, socketRemains, outside, t);
    }

    method IsFinished(r: Record, g: Pid, child: Pid, t: Table) returns (finished: bool)
      ensures finished <==> Finished(r, g, child, t)
    {
      if !IdentityMatches(r.guardian, t) || r.child.None? || r.child.value.pid != child || !PidsKept(r, t) {
        return false;
      }
      var descendants := DescendantsActive(g, t);
      return !GroupActive(t, r.child.value.pgrp) && !descendants;
    }

    /** The release itself, against the guard the runs are made of. */
    method GiveUp(g: Pid, child: Pid, socketRemains: bool, outside: Outside, t: Table)
      returns (released: bool)
      modifies this
      ensures old(record).Some? && g == old(record).value.guardian.pid ==> Releases(old(View()), t, View())
      ensures View() == old(View())
              || (old(record).Some? && View() == WithRecord(old(View()), Some(BlockedRecord(old(record).value))))
              || (old(record).Some? && View() == Deleted(old(View()), t))
      ensures released ==> record == None
      ensures old(record).Some? && record.None? ==>
                old(Leavable(record.value, g, child, socketRemains, outside, t, open))
      ensures faults >= old(faults)
      ensures faults == old(faults) ==>
                (released <==> old(record).Some?
                               && old(Leavable(record.value, g, child, socketRemains, outside, t, open)))
      ensures old(record).Some? && record.Some? && record != old(record) ==>
                old(Finished(record.value, g, child, t)) && Unsettled(old(record).value, socketRemains)
      ensures faults == old(faults) && old(record).Some? && Valid(old(record).value)
              && old(Finished(record.value, g, child, t)) && Unsettled(old(record).value, socketRemains) ==>
                record == Some(BlockedRecord(old(record).value))
    {
      released := false;
      if record.None? { return; }
      var r := record.value;
      var finished := IsFinished(r, g, child, t);
      if !finished || r.state == Blocked { return; }
      if r.authStage.Some? || ((r.guest.Some? || r.bundle.Some?) && !r.reconciled)
          || (r.daemon.Some? && socketRemains) {
        var blocked := Write(r.(state := Blocked));
        return;
      }
      if !open || (r.runtime.Some? && !outside.linked) || outside.consumer || !outside.controlKept { return; }
      var raises := Fails();
      var already: bool := *;
      if raises && !already { return; }
      history := Follow(history, r.bundle, None).(ends := history.ends + [Ending(r, t)]);
      record := None;
      released := !raises;
    }
  }

  // ---------------------------------------------------------------- runs

  function Fresh(guardian: Identity): Record {
    Record(OwnerState.Pending, guardian, None, [], None, None, None, false, None, None, None, None, None)
  }

  ghost predicate Starts(s: State, s': State) {
    && s.record.None? && s.open
    && exists g :: IdentityValid(g) && s' == WithRecord(s, Some(Fresh(g)))
  }

  ghost predicate BindsFirstChild(s: State, s': State) {
    && s.record.Some? && s.record.value.child.None?
    && exists id :: IdentityValid(id) && s' == WithRecord(s, Some(s.record.value.(child := Some(id))))
  }

  /** A login, a logout or a foreign write: a version never seen before, or none. */
  predicate CanonicalMoves(s: State, s': State) {
    && s' == s.(canonical := s'.canonical, open := s'.open, used := s'.used) && (s'.open ==> s.open)
    && (s'.canonical.Some? ==> s'.canonical == s.canonical || s'.canonical.value.ino !in s.used)
    && s'.used == s.used + if s'.canonical.Some? then {s'.canonical.value.ino} else {}
  }

  ghost predicate Next(s: State, s': State) {
    || (exists op, t :: Handles(s, op, t, s'))
    || (exists t :: Releases(s, t, s'))
    || CanonicalMoves(s, s') || Starts(s, s') || BindsFirstChild(s, s') || Blocks(s, s')
  }

  ghost predicate Begins(s: State) {
    && s.record == None && s.history == History(0, [], [], [])
    && (s.canonical.Some? ==> s.canonical.value.ino in s.used)
  }

  ghost predicate StepAt(run: seq<State>, i: nat)
    requires i + 1 < |run|
  {
    Next(run[i], run[i + 1])
  }

  ghost predicate IsRun(run: seq<State>) {
    |run| > 0 && Begins(run[0]) && forall i: nat {:trigger StepAt(run, i)} | i + 1 < |run| :: StepAt(run, i)
  }

  // ---------------------------------------------------------------- what every run keeps

  /** The states a bundle has been in when it is in `g`. */
  function PathTo(g: GuestState): seq<GuestState> {
    match g
    case Registered => [Registered]
    case Starting => [Registered, Starting]
    case Running => [Registered, Starting, Running]
    case Quiescent => [Registered, Starting, Running, Quiescent]
    case PublishedPending => [Registered, Starting, Running, Quiescent, PublishedPending]
    case Returned => [Registered, Starting, Running, Quiescent, PublishedPending, Returned]
  }

  predicate TrailFits(h: History, b: Option<Bundle>) {
    h.trail == if b.Some? then PathTo(b.value.state) else []
  }

  predicate Justified(x: Replacement) {
    x.trail == PathTo(Quiescent) && VmStopped(x.seen, x.vm) && x.vm.pgrp == x.vm.pid
  }

  /** The record named no guest, no open stage and no bundle but a returned one, and nothing its
      guardian had started was left. */
  ghost predicate EndedRightly(x: Ending) {
    && x.record.guest.None? && x.record.authStage.None?
    && (x.record.bundle.Some? ==> x.record.bundle.value.state == Returned)
    && Quiet(x.record, x.record.guardian.pid, x.seen) && IdentityMatches(x.record.guardian, x.seen)
    && PidsKept(x.record, x.seen)
  }

  ghost predicate LogFits(h: History) {
    && (forall i | 0 <= i < |h.log| :: Justified(h.log[i]) && h.log[i].serial <= h.serial)
    && (forall i, j | 0 <= i < j < |h.log| :: h.log[i].serial < h.log[j].serial)
    && (forall x | x in h.ends :: EndedRightly(x))
  }

  /** The VM is the leader of a group of its own, so the group can be looked for. */
  predicate Isolated(b: Option<Bundle>) {
    b.Some? && b.value.vm.Some? ==> b.value.vm.value.pgrp == b.value.vm.value.pid
  }

  /** The present bundle has had its one attempt. */
  predicate Attempted(h: History) { h.log != [] && h.log[|h.log| - 1].serial == h.serial }

  /** Once it has, its baseline is not the open canonical credential any more. */
  predicate SpentFits(s: State, b: Option<Bundle>) {
    b.Some? && Attempted(s.history) && s.open && s.canonical.Some? ==> s.canonical.value.ino != b.value.baseline.ino
  }

  predicate TokensFit(s: State, b: Option<Bundle>) {
    && (s.canonical.Some? ==> s.canonical.value.ino in s.used)
    && (b.Some? ==> b.value.baseline.ino in s.used)
    && (b.Some? && b.value.published.Some? ==> b.value.published.value.ino in s.used)
  }

  ghost predicate Inv(s: State) {
    var b := BundleOf(s.record);
    && (s.record.Some? ==> Valid(s.record.value))
    && TrailFits(s.history, b) && LogFits(s.history) && SpentFits(s, b) && TokensFit(s, b) && Isolated(b)
  }

  function Successor(g: GuestState): GuestState {
    match g
    case Registered => Starting
    case Starting => Running
    case Running => Quiescent
    case Quiescent => PublishedPending
    case _ => Returned
  }

  /** What one write may do to the bundle: register it, forget it, or take it one state on. */
  predicate BundleStep(before: Option<Bundle>, after: Option<Bundle>, canonical: Option<FileId>) {
    after.Some? ==>
      if before.None? then
        && after.value.state == Registered && after.value.published.None? && after.value.vm.None?
        && canonical == Some(after.value.baseline)
      else
        && after.value.baseline == before.value.baseline
        && (after.value.published == before.value.published || after.value.published == canonical)
        && (after.value.vm == before.value.vm || Isolated(after))
        && (|| after.value.state == before.value.state
            || (before.value.state != Returned && after.value.state == Successor(before.value.state)))
  }

  lemma WriteKeepsInv(s: State, r: Option<Record>)
    requires Inv(s) && (r.Some? ==> Valid(r.value)) && BundleStep(BundleOf(s.record), BundleOf(r), s.canonical)
    ensures Inv(WithRecord(s, r))
  {
  }

  lemma ReleasesKeepsInv(s: State, t: Table, s': State)
    requires Inv(s) && Releases(s, t, s')
    ensures Inv(s')
  {
    WriteKeepsInv(s, None);
    WriteKeepsInv(s, Some(BlockedRecord(s.record.value)));
    ReconciledMeansReturned(s.record.value);
  }

  lemma AfterStepsBundle(s: State, op: Request, t: Table, committed: FileId, ack: string, r: Record)
    requires GoesThrough(s, op, t, committed, ack, r)
    ensures BundleStep(BundleOf(s.record), r.bundle, if op.PublishGuest? then Some(committed) else s.canonical)
  {
  }

  /** A publication that was tried, whatever came of it, is the bundle's first and last. */
  lemma TriedKeepsInv(s: State, op: Request, t: Table, a: Attempt)
    requires Inv(s) && s.record.Some? && op.PublishGuest? && Allowed(s.record.value, op, t, s.canonical, s.open)
    requires Follows(s.record.value.bundle.value.baseline, op.candidate, s.canonical, s.open, s.used, a)
    ensures Inv(Tried(s, a, t))
  {
  }

  lemma RecordedKeepsInv(s: State, r: Option<Record>, op: Request, s': State)
    requires Inv(s) && Recorded(s, r, op, s')
    requires r.Some? ==> BundleStep(BundleOf(s.record), r.value.bundle, s.canonical)
    ensures Inv(s')
  {
    if s.record.Some? { WriteKeepsInv(s, Some(BlockedRecord(s.record.value))); }
    if r.Some? && Valid(r.value) {
      WriteKeepsInv(s, r);
      WriteKeepsInv(s, Some(BlockedRecord(r.value)));
    }
  }

  lemma HandlesKeepsInv(s: State, op: Request, t: Table, s': State)
    requires Inv(s) && Handles(s, op, t, s')
    ensures Inv(s')
  {
    if Recorded(s, None, op, s') {
      RecordedKeepsInv(s, None, op, s');
    } else if ChangesRecord(s, op, t, s') {
      var r, committed, ack :| GoesThrough(s, op, t, committed, ack, r) && Recorded(s, Some(r), op, s')
                               && (op.PublishGuest? ==> s.canonical == Some(committed));
      AfterStepsBundle(s, op, t, committed, ack, r);
      RecordedKeepsInv(s, Some(r), op, s');
    } else {
      var a :| RefreshesBy(s, op, t, a, s');
      RefreshKeepsInv(s, op, t, a, s');
    }
  }

  lemma RefreshKeepsInv(s: State, op: Request, t: Table, a: Attempt, s': State)
    requires Inv(s) && RefreshesBy(s, op, t, a, s')
    ensures Inv(s')
  {
    var middle := Tried(s, a, t);
    TriedKeepsInv(s, op, t, a);
    if Recorded(middle, None, op, s') {
      RecordedKeepsInv(middle, None, op, s');
    } else {
      var r, ack :| GoesThrough(s, op, t, FileId(a.p, op.candidate.sha), ack, r) && Recorded(middle, Some(r), op, s');
      RecordedKeepsInv(middle, Some(r), op, s');
    }
  }

  lemma NextKeepsInv(s: State, s': State)
    requires Inv(s) && Next(s, s')
    ensures Inv(s')
  {
    if op, t :| Handles(s, op, t, s') {
      HandlesKeepsInv(s, op, t, s');
    } else if t :| Releases(s, t, s') {
      ReleasesKeepsInv(s, t, s');
    } else if Starts(s, s') {
      var g :| IdentityValid(g) && s' == WithRecord(s, Some(Fresh(g)));
      WriteKeepsInv(s, Some(Fresh(g)));
    } else if BindsFirstChild(s, s') {
      var id :| IdentityValid(id) && s' == WithRecord(s, Some(s.record.value.(child := Some(id))));
      WriteKeepsInv(s, Some(s.record.value.(child := Some(id))));
    } else if Blocks(s, s') {
      WriteKeepsInv(s, Some(BlockedRecord(s.record.value)));
    }
  }

  lemma {:induction false} RunKeepsInv(run: seq<State>, n: nat)
    requires IsRun(run) && n < |run|
    ensures Inv(run[n])
  {
    if n > 0 {
      RunKeepsInv(run, n - 1);
      assert StepAt(run, n - 1);
      NextKeepsInv(run[n - 1], run[n]);
    }
  }

  /** In every run the stored record is valid, and each registered bundle makes at most one
      attempt on the canonical credential: after starting, running and quiescent, and with its
      VM seen stopped and its VM's group without a live process. */
  lemma OneJustifiedAttemptPerBundle(run: seq<State>, n: nat)
    requires IsRun(run) && n < |run|
    ensures run[n].record.Some? ==> Valid(run[n].record.value)
    ensures forall i | 0 <= i < |run[n].history.log| ::
              var x := run[n].history.log[i];
              && x.trail == [Registered, Starting, Running, Quiescent]
              && VmStopped(x.seen, x.vm) && !GroupActive(x.seen, x.vm.pgrp)
    ensures forall i, j | 0 <= i < j < |run[n].history.log| ::
            run[n].history.log[i].serial != run[n].history.log[j].serial
  {
    RunKeepsInv(run, n);
    forall i | 0 <= i < |run[n].history.log|
      ensures Justified(run[n].history.log[i])
    {
    }
  }

  /** In every run each deletion of the owner record found no guest, no open stage and no bundle
      but a returned one, the recorded guardian alive and nothing active below it. */
  lemma DeletedOnlyWithoutGuest(run: seq<State>, n: nat, x: Ending)
    requires IsRun(run) && n < |run| && x in run[n].history.ends
    ensures x.record.guest.None? && x.record.authStage.None?
            && (x.record.bundle.Some? ==> x.record.bundle.value.state == Returned)
    ensures IdentityMatches(x.record.guardian, x.seen) && !ActiveDescendant(x.seen, x.record.guardian.pid, {})
    ensures x.record.child.Some? && !GroupActive(x.seen, x.record.child.value.pgrp) && PidsKept(x.record, x.seen)
  {
    RunKeepsInv(run, n);
    assert EndedRightly(x);
  }

  /** And the record does not disappear otherwise. */
  lemma DisappearingIsDeletion(s: State, s': State)
    requires Next(s, s') && s.record.Some? && s'.record.None?
    ensures s.open && exists t :: s'.history.ends == s.history.ends + [Ending(s.record.value, t)]
  {
    if op, t :| Handles(s, op, t, s') {
      NoRequestDeletes(s, op, t, s');
    } else {
      var t :| Releases(s, t, s');
      assert s'.history.ends == s.history.ends + [Ending(s.record.value, t)];
    }
  }

  lemma NoRequestDeletes(s: State, op: Request, t: Table, s': State)
    requires s.record.Some? && Handles(s, op, t, s')
    ensures s'.record.Some?
  {
    if ChangesRecord(s, op, t, s') {
      var r, committed, ack :| GoesThrough(s, op, t, committed, ack, r) && Recorded(s, Some(r), op, s');
      RecordedStays(s, Some(r), op, s');
    } else if a :| RefreshesBy(s, op, t, a, s') {
      NoRefreshDeletes(s, op, t, a, s');
    }
  }

  lemma NoRefreshDeletes(s: State, op: Request, t: Table, a: Attempt, s': State)
    requires RefreshesBy(s, op, t, a, s')
    ensures s'.record.Some?
  {
  }

  lemma RecordedStays(s: State, r: Option<Record>, op: Request, s': State)
    requires s.record.Some? && Recorded(s, r, op, s')
    ensures s'.record.Some?
  {
  }

  /** No step hands a record that stays to another guardian. */
  lemma NextKeepsGuardian(s: State, s': State)
    requires Next(s, s') && s.record.Some? && s'.record.Some?
    ensures s'.record.value.guardian == s.record.value.guardian
  {
    if op, t :| Handles(s, op, t, s') {
      HandlesKeepsGuardian(s, op, t, s');
    }
  }

  lemma HandlesKeepsGuardian(s: State, op: Request, t: Table, s': State)
    requires s.record.Some? && s'.record.Some? && Handles(s, op, t, s')
    ensures s'.record.value.guardian == s.record.value.guardian
  {
    if Recorded(s, None, op, s') {
      RecordedKeepsGuardian(s, None, op, s');
    } else if ChangesRecord(s, op, t, s') {
      var r, committed, ack :| GoesThrough(s, op, t, committed, ack, r) && Recorded(s, Some(r), op, s');
      GoesThroughKeepsGuardian(s, op, t, committed, ack, r);
      RecordedKeepsGuardian(s, Some(r), op, s');
    } else {
      var a :| RefreshesBy(s, op, t, a, s');
      RefreshKeepsGuardian(s, op, t, a, s');
    }
  }

  lemma RecordedKeepsGuardian(s: State, r: Option<Record>, op: Request, s': State)
    requires s.record.Some? && s'.record.Some? && Recorded(s, r, op, s')
    requires r.Some? ==> r.value.guardian == s.record.value.guardian
    ensures s'.record.value.guardian == s.record.value.guardian
  {
  }

  lemma RefreshKeepsGuardian(s: State, op: Request, t: Table, a: Attempt, s': State)
    requires RefreshesBy(s, op, t, a, s') && s'.record.Some?
    ensures s'.record.value.guardian == s.record.value.guardian
  {
  }

  lemma GoesThroughKeepsGuardian(s: State, op: Request, t: Table, committed: FileId, ack: string, r: Record)
    requires GoesThrough(s, op, t, committed, ack, r)
    ensures r.guardian == s.record.value.guardian
  {
  }

  /** A blocked record is not the end: any child the guardian binds next overwrites the mark,
      and the record can then be deleted, so what protects it is the release check alone. */
  lemma BlockedIsNotFinal(s: State, id: Identity, t: Table, later: Table) returns (s1: State, s2: State)
    requires s.record.Some? && s.open && s.record.value.state == Blocked && Valid(s.record.value)
    requires s.record.value.bundle.None? && s.record.value.guest.None? && s.record.value.authStage.None?
    requires |s.record.value.children| < MAX_CHILDREN && IdentityValid(id)
    requires IdentityMatches(s.record.value.guardian, t) && IdentityMatches(s.record.value.guardian, later)
    requires Quiet(s.record.value, s.record.value.guardian.pid, later) && PidsKept(s.record.value, later)
             && id.pid !in later
    ensures Handles(s, BindChild(id), t, s1) && Releases(s1, later, s2) && s2.record.None?
  {
    var r := s.record.value.(children := s.record.value.children + [id], state := Active);
    s1, s2 := WithRecord(s, Some(r)), Deleted(WithRecord(s, Some(r)), later);
    RefusedByValidator(s.record.value, BindChild(id), t, s.canonical, s.open, FileId(0, ""), "");
    assert GoesThrough(s, BindChild(id), t, FileId(0, ""), "", r);
    assert ChangesRecord(s, BindChild(id), t, s1);
    assert forall x | x in Members(r) :: x in Members(s.record.value) || x == id;
  }
}
