/** One owner at a time: admission, release, crashes and pid reuse, over every run. */
module Admission {
  import opened Options
  import opened Processes
  import OwnerRecord
  import GuestHandoff

  /** An owner record of the older schema. */
  datatype Lease = Lease(
    id: nat, runtime: string, config: string, guardian: Option<Identity>,
    attached: Option<Identity>, child: Option<Identity>, daemon: Option<Identity>, quiescent: bool)

  datatype Holder = Guarded(record: OwnerRecord.Record) | Leased(lease: Lease)

  predicate Matches(id: Option<Identity>, t: Table) { id.Some? && IdentityMatches(id.value, t) }

  function DaemonOf(r: OwnerRecord.Record): Option<Identity> {
    if r.daemon.Some? then Some(r.daemon.value.identity) else None
  }

  /** Some process the record names is alive and is the one named. */
  predicate Proven(h: Holder, t: Table) {
    match h
    case Guarded(r) => IdentityMatches(r.guardian, t) || Matches(r.child, t) || Matches(DaemonOf(r), t)
    case Leased(l) =>
      Matches(l.guardian, t) || Matches(l.attached, t) || Matches(l.daemon, t) || Matches(l.child, t)
  }

  predicate GroupOf(id: Option<Identity>, t: Table) { id.Some? && GroupActive(t, id.value.pgrp) }

  predicate LeaseActive(l: Lease, t: Table) {
    Proven(Leased(l), t) || GroupOf(l.child, t) || GroupOf(l.daemon, t)
  }

  datatype Answer = Granted | Attached | Busy | Unverified

  /** What comes of replacing or deleting the record: it may fail before it shows or after. */
  datatype Written = InFull | Unsynced | NotAtAll

  /** The exact daemon lease asked for, alive, with nobody attached yet. */
  predicate Joins(l: Lease, mine: Lease, attach: Option<nat>, socketProven: bool, t: Table) {
    && Proven(Leased(l), t) && attach == Some(l.id) && mine.runtime == l.runtime && socketProven
    && (mine.config != "" ==> mine.config == l.config) && l.attached.None? && l.child.None?
  }

  predicate Gone(id: Option<Identity>, t: Table) {
    id.Some? ==> !IdentityMatches(id.value, t) && !GroupActive(t, id.value.pgrp)
  }

  /** Nobody attached, no child left, and a daemon certified quiescent and gone. */
  predicate Returnable(l: Lease, t: Table) {
    l.attached.None? && (l.daemon.Some? ==> l.quiescent) && Gone(l.child, t) && Gone(l.daemon, t)
  }

  // ---------------------------------------------------------------- what each operation needs

  /** The record names the process as one that proves its owner. */
  predicate Vouches(h: Holder, id: Identity) {
    match h
    case Guarded(r) => id == r.guardian || r.child == Some(id) || (r.daemon.Some? && id == r.daemon.value.identity)
    case Leased(l) => Some(id) in {l.guardian, l.attached, l.child, l.daemon}
  }

  ghost predicate Vouched(h: Holder, t: Table) { exists id :: Vouches(h, id) && Shows(t, id) }

  /** A lease to attach to: its own id is given, its runtime, and its configuration or none, its
      daemon's socket is proven, and it has neither a second guardian nor a child. */
  ghost predicate Open(h: Option<Holder>, mine: Lease, attach: Option<nat>, socketProven: bool, t: Table) {
    exists l: Lease | h == Some(Leased(l)) ::
      && attach == Some(l.id) && l.runtime == mine.runtime && mine.config in {"", l.config} && socketProven
      && None == l.attached && None == l.child && Vouched(Leased(l), t)
  }

  /** Nothing lives that is the process remembered, or in its group. */
  predicate Absent(id: Identity, t: Table) {
    !Shows(t, id) && forall pid | pid in t && t[pid].pgrp == id.pgrp :: t[pid].zombie
  }

  lemma ProvenIsVouched(h: Holder, t: Table)
    ensures Proven(h, t) <==> Vouched(h, t)
  {
    forall id
      ensures IdentityMatches(id, t) <==> Shows(t, id)
    {
      MatchingIsShowing(id, t);
    }
    if Proven(h, t) {
      match h
      case Guarded(r) =>
        assert Vouches(h, r.guardian);
        if r.child.Some? { assert Vouches(h, r.child.value); }
        if r.daemon.Some? { assert Vouches(h, r.daemon.value.identity); }
      case Leased(l) =>
        if Matches(l.guardian, t) { assert Vouches(h, l.guardian.value); }
        if Matches(l.attached, t) { assert Vouches(h, l.attached.value); }
        if Matches(l.daemon, t) { assert Vouches(h, l.daemon.value); }
        if Matches(l.child, t) { assert Vouches(h, l.child.value); }
    }
  }

  lemma JoinsMeans(h: Option<Holder>, mine: Lease, attach: Option<nat>, socketProven: bool, t: Table)
    ensures h.Some? && h.value.Leased? && Joins(h.value.lease, mine, attach, socketProven, t)
            <==> Open(h, mine, attach, socketProven, t)
  {
    if h.Some? { ProvenIsVouched(h.value, t); }
  }

  lemma GoneMeans(id: Option<Identity>, t: Table)
    ensures Gone(id, t) <==> id.None? || Absent(id.value, t)
  {
    if id.Some? { MatchingIsShowing(id.value, t); }
  }

  // ---------------------------------------------------------------- what each operation does

  /** The admission part of starting a guardian. */
  predicate Admitting(h: Option<Holder>, record: OwnerRecord.Record, t: Table, open: bool, external: bool, w: Written,
                      a: Answer, h': Option<Holder>) {
    && (a == Granted <==> h == None && open && !external && w == InFull)
    && h' == (if h == None && open && !external && w != NotAtAll then Some(Guarded(record)) else h)
    && a != Attached && (h.Some? && open ==> a == if Proven(h.value, t) then Busy else Unverified)
  }

  /** Taking a lease of the older schema, or attaching to the daemon that holds one. */
  predicate Acquiring(h: Option<Holder>, mine: Lease, attach: Option<nat>, socketProven: bool, attachedOnly: bool,
                      t: Table,
                      open: bool, external: bool, w: Written, a: Answer, h': Option<Holder>) {
    var free := h == None && open && !attachedOnly && !external;
    var joins := open && h.Some? && h.value.Leased? && Joins(h.value.lease, mine, attach, socketProven, t);
    && (a == Granted <==> free && w == InFull) && (a == Attached <==> joins && w == InFull)
    && h' == (if w == NotAtAll then h
              else if free then Some(Leased(mine))
              else if joins then Some(Leased(h.value.lease.(attached := mine.guardian)))
              else h)
  }

  predicate ReturningLease(h: Option<Holder>, id: nat, t: Table, w: Written, released: bool, h': Option<Holder>) {
    var goes := h.Some? && h.value.Leased? && h.value.lease.id == id && Returnable(h.value.lease, t);
    (released <==> goes && w == InFull) && h' == (if goes && w != NotAtAll then None else h)
  }

  /** The guardian `g` gives its record up, or marks it blocked, or leaves it. */
  ghost predicate Returning(h: Option<Holder>, g: Pid, child: Pid, open: bool, socketRemains: bool,
                            outside: GuestHandoff.Outside, t: Table,
                            released: bool, h': Option<Holder>) {
    && (released ==> h.Some? && h'.None?)
    && (h' == h
        || (h.Some? && h.value.Guarded?
            && (h' == Some(Guarded(GuestHandoff.BlockedRecord(h.value.record)))
                || (h' == None && GuestHandoff.Leavable(h.value.record, g, child, socketRemains, outside, t, open)))))
  }

  // ---------------------------------------------------------------- the owner file

  class OwnerFile {
    var holder: Option<Holder>

    constructor ()
      ensures holder == None
    {
      holder := None;
    }

    /** Start a guardian, under the owner lock. */
    method Admit(record: OwnerRecord.Record, t: Table, open: bool, external: bool, w: Written) returns (a: Answer)
      modifies this
      ensures Admitting(old(holder), record, t, open, external, w, a, holder)
      // condition by condition
      ensures a == Granted <==> old(holder) == None && open && !external && w == InFull
      ensures a == Granted ==> holder == Some(Guarded(record))
      ensures a != Granted && w != Unsynced ==> holder == old(holder)
      ensures holder == old(holder) || (old(holder) == None && open && !external && holder == Some(Guarded(record)))
      ensures open && old(holder).Some? ==> a == if Vouched(old(holder).value, t) then Busy else Unverified
    {
      if holder.Some? { ProvenIsVouched(holder.value, t); }
      if !open { return Unverified; }
      if holder.Some? { return if Proven(holder.value, t) then Busy else Unverified; }
      if external { return Busy; }
      if w != NotAtAll { holder := Some(Guarded(record)); }
      return if w == InFull then Granted else Unverified;
    }

    /** Take a lease, or attach to one.  A lease that is proven is active, so the two refusals
        after the attach branch are never reached. */
    method Acquire(mine: Lease, attach: Option<nat>, socketProven: bool, attachedOnly: bool, t: Table, open: bool,
                   external: bool, w: Written)
      returns (a: Answer)
      modifies this
      ensures Acquiring(old(holder), mine, attach, socketProven, attachedOnly, t, open, external, w, a, holder)
      // condition by condition
      ensures a == Granted <==> old(holder) == None && open && !attachedOnly && !external && w == InFull
      ensures a == Granted ==> holder == Some(Leased(mine))
      ensures a == Attached <==> open && Open(old(holder), mine, attach, socketProven, t) && w == InFull
      ensures a == Attached ==> holder == Some(Leased(old(holder).value.lease.(attached := mine.guardian)))
      ensures a in {Busy, Unverified} && w != Unsynced ==> holder == old(holder)
      ensures holder == old(holder)
              || (old(holder) == None && open && !attachedOnly && !external && holder == Some(Leased(mine)))
              || (open && Open(old(holder), mine, attach, socketProven, t)
                  && holder == Some(Leased(old(holder).value.lease.(attached := mine.guardian))))
    {
      JoinsMeans(holder, mine, attach, socketProven, t);
      if !open { return Unverified; }
      if holder.Some? {
        if holder.value.Guarded? { return if Proven(holder.value, t) then Busy else Unverified; }
        if !Proven(holder.value, t) { return Unverified; }
        var l := holder.value.lease;
        assert LeaseActive(l, t);
        if attach != Some(l.id) || mine.runtime != l.runtime || !socketProven
           || (mine.config != "" && mine.config != l.config) {
          return Busy;
        }
        if l.attached.Some? || l.child.Some? { return Busy; }
        if w != NotAtAll { holder := Some(Leased(l.(attached := mine.guardian))); }
        return if w == InFull then Attached else Unverified;
      }
      if attachedOnly { return Unverified; }
      if external { return Busy; }
      if w != NotAtAll { holder := Some(Leased(mine)); }
      return if w == InFull then Granted else Unverified;
    }

    /** Give a lease back, by its id. */
    method ReleaseLease(id: nat, t: Table, w: Written) returns (released: bool)
      modifies this
      ensures ReturningLease(old(holder), id, t, w, released, holder)
      // condition by condition
      ensures released || (holder.None? && old(holder).Some?) ==>
                && old(holder).Some? && old(holder).value.Leased? && holder == None && w != NotAtAll
                && var l := old(holder).value.lease;
                   && l.id == id && l.attached == None && (l.daemon.Some? ==> l.quiescent && Absent(l.daemon.value, t))
                   && (l.child.Some? ==> Absent(l.child.value, t))
      ensures w == InFull && old(holder).Some? && old(holder).value.Leased? && old(holder).value.lease.id == id
              && old(holder).value.lease.attached == None
              && (old(holder).value.lease.daemon.Some? ==>
                    old(holder).value.lease.quiescent && Absent(old(holder).value.lease.daemon.value, t))
              && (old(holder).value.lease.child.Some? ==> Absent(old(holder).value.lease.child.value, t)) ==>
                released
      ensures released ==> w == InFull
      ensures holder == None || holder == old(holder)
    {
      if holder.Some? && holder.value.Leased? {
        GoneMeans(holder.value.lease.child, t);
        GoneMeans(holder.value.lease.daemon, t);
      }
      if holder.None? || holder.value.Guarded? || holder.value.lease.id != id { return false; }
      var l := holder.value.lease;
      if (l.daemon.Some? && !l.quiescent) || l.attached.Some? { return false; }
      if l.child.Some? && LeaseActive(l.(guardian := None, daemon := None), t) { return false; }
      if l.daemon.Some? && LeaseActive(l.(guardian := None, child := None), t) { return false; }
      if w != NotAtAll { holder := None; }
      return w == InFull;
    }

    /** Give the record up when nothing the guardian started is left; without a failure exactly
        then. */
    method ReleaseGuarded(g: Pid, child: Pid, open: bool, socketRemains: bool, outside: GuestHandoff.Outside, t: Table)
      returns (released: bool, ghost failed: bool)
      modifies this
      ensures Returning(old(holder), g, child, open, socketRemains, outside, t, released, holder)
      ensures !failed ==>
                (released <==> old(holder).Some? && old(holder).value.Guarded?
                               && GuestHandoff.Leavable(old(holder).value.record, g, child, socketRemains, outside,
                                                        t, open))
      ensures old(holder).Some? && holder.None? ==>
                && old(holder).value.Guarded? && var r := old(holder).value.record;
                && r.state != OwnerRecord.Blocked && r.authStage == None && open
                && ((r.guest == None && r.bundle == None) || r.reconciled) && (r.daemon == None || !socketRemains)
                && (r.runtime == None || outside.linked) && !outside.consumer && outside.controlKept
                && r.child.Some? && r.child.value.pid == child
                && Shows(t, r.guardian) && GuestHandoff.Deserted(r, g, t)
    {
      if holder.None? || holder.value.Leased? { return false, false; }
      var guardian := new GuestHandoff.Guardian(Some(holder.value.record), None, open);
      ghost var before := guardian.faults;
      released := guardian.ReleaseWhenQuiescent(g, child, socketRemains, outside, t);
      failed := guardian.faults != before;
      holder := if guardian.record.Some? then Some(Guarded(guardian.record.value)) else None;
    }
  }

  // ---------------------------------------------------------------- runs

  /** A guardian has started but not asked; owns the login; has given it back. */
  datatype Phase = Starting | Admitted | Released

  datatype System = System(world: World, holder: Option<Holder>, phases: map<Key, Phase>)

  ghost predicate Holds(s: System, k: Key) {
    s.holder.Some? && s.holder.value.Guarded? && s.holder.value.record.guardian.Instance() == k
  }

  /** A process may fork unless it is a guardian that is not admitted. */
  predicate MayFork(s: System, parent: Pid)
    requires parent in s.world.table
  {
    s.world.KeyOf(parent) in s.phases ==> s.phases[s.world.KeyOf(parent)] == Admitted
  }

  ghost predicate OsStep(s: System, s': System) {
    s.world.Wf() && exists a | Enabled(s.world, a) ::
      (a.Fork? ==> MayFork(s, a.parent)) && s' == s.(world := Step(s.world, a))
  }

  /** A fresh process makes itself a subreaper and will ask for admission. */
  ghost predicate Enters(s: System, k: Key, s': System) {
    && s.world.Wf() && Live(s.world.table, k) && k.pid != INIT_PID && k !in s.phases
    && (forall p | p in s.world.table :: k !in s.world.origin[p])
    && s' == s.(world := Step(s.world, Subreap(k.pid)), phases := s.phases[k := Starting])
  }

  /** A guardian that has entered asks for admission, under the owner lock. */
  ghost predicate Asks(s: System, k: Key, s': System) {
    && k in s.phases && s.phases[k] == Starting && Live(s.world.table, k)
    && exists record, open, external, w, a ::
         && Admitting(s.holder, record, s.world.table, open, external, w, a, s'.holder)
         && record.guardian.Instance() == k
         && s' == s.(holder := s'.holder, phases := if a == Granted then s.phases[k := Admitted] else s.phases)
  }

  /** An admitted guardian tries to give its record up. */
  ghost predicate GivesBack(s: System, k: Key, s': System) {
    && k in s.phases && s.phases[k] == Admitted
    && exists child, open, socketRemains, outside, released ::
         && Returning(s.holder, k.pid, child, open, socketRemains, outside, s.world.table, released, s'.holder)
         && s' == s.(holder := s'.holder,
                     phases := if s.holder.Some? && s'.holder.None? then s.phases[k := Released] else s.phases)
  }

  ghost predicate AsksForLease(s: System, s': System) {
    && s' == s.(holder := s'.holder)
    && exists mine, attach, socketProven, attachedOnly, open, external, w, a ::
         Acquiring(s.holder, mine, attach, socketProven, attachedOnly, s.world.table, open, external, w, a, s'.holder)
  }

  ghost predicate GivesLeaseBack(s: System, s': System) {
    && s' == s.(holder := s'.holder)
    && exists id, w, released :: ReturningLease(s.holder, id, s.world.table, w, released, s'.holder)
  }

  /** The record is rewritten in place: by its guardian, or what a lease says of its client,
      child and daemon changes. */
  predicate Rewritten(h: Holder, h': Holder) {
    match h
    case Guarded(r) => h'.Guarded? && h'.record.guardian == r.guardian
    case Leased(l) =>
      h'.Leased? && h'.lease == l.(attached := h'.lease.attached, child := h'.lease.child,
                                   daemon := h'.lease.daemon, quiescent := h'.lease.quiescent)
  }

  predicate Rewrites(s: System, s': System) {
    s.holder.Some? && s'.holder.Some? && Rewritten(s.holder.value, s'.holder.value) && s' == s.(holder := s'.holder)
  }

  ghost predicate Next(s: System, s': System) {
    || OsStep(s, s') || Rewrites(s, s') || AsksForLease(s, s') || GivesLeaseBack(s, s')
    || exists k :: Enters(s, k, s') || Asks(s, k, s') || GivesBack(s, k, s')
  }

  ghost predicate StepAt(run: seq<System>, i: nat)
    requires 0 < i < |run|
  {
    Next(run[i - 1], run[i])
  }

  ghost predicate IsRun(run: seq<System>) {
    && |run| > 0 && run[0].world.Wf() && run[0].phases == map[]
    && forall i: nat {:trigger StepAt(run, i)} | 0 < i < |run| :: StepAt(run, i)
  }

  // ---------------------------------------------------------------- what every run keeps

  /** The same guardian, or the same lease. */
  predicate SameHolder(h: Holder, h': Holder) {
    match h
    case Guarded(r) => h'.Guarded? && h'.record.guardian == r.guardian
    case Leased(l) => h'.Leased? && h'.lease.id == l.id && h'.lease.guardian == l.guardian
  }

  /** Every step of the guest handoff that leaves a record rewrites it in place. */
  lemma HandoffRewrites(s: System, g: GuestHandoff.State, g': GuestHandoff.State)
    requires GuestHandoff.Next(g, g') && g.record.Some? && g'.record.Some?
    requires s.holder == Some(Guarded(g.record.value))
    ensures Rewrites(s, s.(holder := Some(Guarded(g'.record.value))))
  {
    GuestHandoff.NextKeepsGuardian(g, g');
  }

  /** Whatever the operations on the owner record do, they leave a record that stays to its
      owner: it disappears before another comes. */
  lemma RecordNeverReplaced(s: System, s': System)
    requires Next(s, s') && s.holder.Some? && s'.holder.Some?
    ensures SameHolder(s.holder.value, s'.holder.value)
  {
  }

  ghost predicate Childless(w: World, k: Key) { forall p | p in w.table && p in w.origin :: k !in w.origin[p] }

  ghost predicate NoneLeft(w: World, k: Key) {
    forall p | p in w.table && p in w.origin && k in w.origin[p] :: w.table[p].zombie
  }

  ghost predicate InPlace(w: World, k: Key) { Live(w.table, k) ==> k.pid in w.subreapers && k.pid != INIT_PID }

  ghost predicate PhaseFits(s: System, k: Key)
    requires k in s.phases
  {
    && k.start < s.world.clock && InPlace(s.world, k)
    && match s.phases[k]
       case Starting => Childless(s.world, k)
       case Admitted => Holds(s, k) && (Live(s.world.table, k) ==> Anchored(s.world, k))
       case Released => NoneLeft(s.world, k)
  }

  ghost predicate Inv(s: System) {
    s.world.Wf() && forall k {:trigger PhaseFits(s, k)} | k in s.phases :: PhaseFits(s, k)
  }

  /** No step brings a dead instance back, whatever becomes of its pid. */
  lemma DeadStaysDead(w: World, a: Action, k: Key)
    requires w.Wf() && Enabled(w, a) && k.start < w.clock && Live(Step(w, a).table, k)
    ensures Live(w.table, k) && a != Exit(k.pid)
  {
  }

  lemma StepKeepsPlace(w: World, a: Action, k: Key)
    requires w.Wf() && Enabled(w, a) && k.start < w.clock && InPlace(w, k)
    ensures InPlace(Step(w, a), k)
  {
  }

  lemma StepKeepsChildless(w: World, a: Action, k: Key)
    requires w.Wf() && Enabled(w, a) && Childless(w, k) && (a.Fork? ==> w.KeyOf(a.parent) != k)
    ensures Childless(Step(w, a), k)
  {
  }

  lemma StepKeepsNoneLeft(w: World, a: Action, k: Key)
    requires w.Wf() && Enabled(w, a) && NoneLeft(w, k) && (a.Fork? ==> w.KeyOf(a.parent) != k)
    ensures NoneLeft(Step(w, a), k)
  {
  }

  lemma OsStepKeeps(s: System, a: Action, s': System, k: Key)
    requires s.world.Wf() && Enabled(s.world, a) && (a.Fork? ==> MayFork(s, a.parent))
    requires s' == s.(world := Step(s.world, a)) && k in s.phases && PhaseFits(s, k)
    ensures PhaseFits(s', k)
  {
    StepKeepsPlace(s.world, a, k);
    match s.phases[k]
    case Starting => StepKeepsChildless(s.world, a, k);
    case Released => StepKeepsNoneLeft(s.world, a, k);
    case Admitted =>
      if Live(s'.world.table, k) {
        DeadStaysDead(s.world, a, k);
        AnchorKept(s.world, k, a);
      }
  }

  lemma EntersKeepsInv(s: System, k: Key, s': System)
    requires Inv(s) && Enters(s, k, s')
    ensures Inv(s')
  {
    var a := Subreap(k.pid);
    StepKeepsWf(s.world, a);
    assert s.world.Dated(k.pid);
    forall x | x in s'.phases
      ensures PhaseFits(s', x)
    {
      if x != k {
        assert PhaseFits(s, x);
        OsStepKeeps(s, a, s.(world := Step(s.world, a)), x);
        assert PhaseFits(s.(world := Step(s.world, a)), x);
      }
    }
  }

  lemma AsksKeepsInv(s: System, k: Key, s': System)
    requires Inv(s) && Asks(s, k, s')
    ensures Inv(s')
  {
    assert PhaseFits(s, k);
    forall x | x in s'.phases
      ensures PhaseFits(s', x)
    {
      if x != k { assert PhaseFits(s, x); }
    }
  }

  /** Only the recorded guardian can have been the one to give the record back. */
  lemma GivesBackKeepsInv(s: System, k: Key, s': System)
    requires Inv(s) && GivesBack(s, k, s')
    ensures Inv(s')
  {
    assert PhaseFits(s, k);
    if s'.holder.None? { QuietMeansExtinct(s.world, k); }
    forall x | x in s'.phases
      ensures PhaseFits(s', x)
    {
      if x != k { assert PhaseFits(s, x); }
    }
  }

  /** Changes of the record alone that leave a guarded one to its guardian. */
  lemma SameHolderKeepsInv(s: System, s': System)
    requires Inv(s) && s' == s.(holder := s'.holder)
    requires s.holder.Some? && s.holder.value.Guarded? ==>
              s'.holder.Some? && SameHolder(s.holder.value, s'.holder.value)
    ensures Inv(s')
  {
    forall k | k in s'.phases
      ensures PhaseFits(s', k)
    {
      assert PhaseFits(s, k);
    }
  }

  lemma NextKeepsInv(s: System, s': System)
    requires Inv(s) && Next(s, s')
    ensures Inv(s')
  {
    if OsStep(s, s') {
      var a :| Enabled(s.world, a) && (a.Fork? ==> MayFork(s, a.parent)) && s' == s.(world := Step(s.world, a));
      StepKeepsWf(s.world, a);
      forall k | k in s'.phases
        ensures PhaseFits(s', k)
      {
        assert PhaseFits(s, k);
        OsStepKeeps(s, a, s', k);
      }
    } else if k :| Enters(s, k, s') {
      EntersKeepsInv(s, k, s');
    } else if k :| Asks(s, k, s') {
      AsksKeepsInv(s, k, s');
    } else if k :| GivesBack(s, k, s') {
      GivesBackKeepsInv(s, k, s');
    } else {
      if s.holder.Some? && s'.holder.Some? { RecordNeverReplaced(s, s'); }
      SameHolderKeepsInv(s, s');
    }
  }

  lemma {:induction false} RunKeepsInv(run: seq<System>, n: nat)
    requires IsRun(run) && n < |run|
    ensures Inv(run[n])
  {
    if n > 0 {
      RunKeepsInv(run, n - 1);
      assert StepAt(run, n);
      NextKeepsInv(run[n - 1], run[n]);
    }
  }

  /** In every run the live processes that guardians have spawned all belong to one guardian,
      the one the owner record names. */
  lemma OneTreeAtATime(run: seq<System>, n: nat, k: Key, p: Pid)
    requires IsRun(run) && n < |run|
    requires k in run[n].phases && p in run[n].world.table && !run[n].world.table[p].zombie
    requires p in run[n].world.origin && k in run[n].world.origin[p]
    ensures Holds(run[n], k)
  {
    RunKeepsInv(run, n);
    assert PhaseFits(run[n], k);
  }

  /** So in every run, between two owners there is a state without a record. */
  lemma {:induction false} OwnersAreSeparated(run: seq<System>, m: nat, n: nat)
    requires IsRun(run) && m <= n < |run| && run[m].holder.Some? && run[n].holder.Some?
    requires !SameHolder(run[m].holder.value, run[n].holder.value)
    ensures exists i | m < i < n :: run[i].holder.None?
    decreases n - m
  {
    assert StepAt(run, m + 1);
    if run[m + 1].holder.Some? {
      RecordNeverReplaced(run[m], run[m + 1]);
      OwnersAreSeparated(run, m + 1, n);
    }
  }

  /** The record names the dead guardian `k`. */
  ghost predicate Orphaned(s: System, k: Key) {
    Holds(s, k) && !Live(s.world.table, k) && k.start < s.world.clock
  }

  ghost predicate NobodyNew(s: System, s': System) {
    forall x | x in s'.phases && s'.phases[x] == Admitted :: x in s.phases && s.phases[x] == Admitted
  }

  /** Once its guardian is dead the record stays, whoever reuses the pid, and nobody is
      admitted any more. */
  lemma {:induction false} CrashBlocksForEver(run: seq<System>, n: nat, m: nat, k: Key)
    requires IsRun(run) && n <= m < |run| && Orphaned(run[n], k)
    ensures Orphaned(run[m], k) && NobodyNew(run[n], run[m])
  {
    if n < m {
      CrashBlocksForEver(run, n, m - 1, k);
      OrphanStaysAt(run, m, run[n], k);
    }
  }

  lemma OrphanStaysAt(run: seq<System>, m: nat, first: System, k: Key)
    requires IsRun(run) && 0 < m < |run| && Orphaned(run[m - 1], k) && NobodyNew(first, run[m - 1])
    ensures Orphaned(run[m], k) && NobodyNew(first, run[m])
  {
    RunKeepsInv(run, m - 1);
    assert StepAt(run, m);
    OrphanStays(first, run[m - 1], run[m], k);
  }

  lemma OrphanStays(first: System, s: System, s': System, k: Key)
    requires s.world.Wf() && Next(s, s') && Orphaned(s, k) && NobodyNew(first, s)
    ensures Orphaned(s', k) && NobodyNew(first, s')
  {
  }
}
