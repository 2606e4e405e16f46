/** The guardian's requests condition by condition and field by field: what each needs of the
    record, the processes and the credential, and what each leaves of the record. */
module RequestGrounds {
  import opened Options
  import opened Processes
  import opened OwnerRecord

  /** No process that lives is the VM, or in its group if it has one of its own. */
  predicate NothingOf(t: Table, vm: Identity) {
    forall pid | pid in t && !t[pid].zombie :: pid != vm.pid && (vm.pgrp == vm.pid ==> t[pid].pgrp != vm.pid)
  }

  lemma StoppedIsNothing(t: Table, vm: Identity)
    ensures VmStopped(t, vm) <==> NothingOf(t, vm)
  {
    if vm.pid in t && !t[vm.pid].zombie { assert Ambiguous(t, vm) || IdentityMatches(vm, t); }
  }

  predicate NamesImage(op: Request) {
    op.MarkStarting? || op.BindVm? || op.MarkQuiescent? || op.PublishGuest? || op.Acknowledge? || op.Abort?
  }

  predicate NeedsStopped(op: Request) { op.MarkQuiescent? || op.PublishGuest? || op.Acknowledge? }

  /** What is needed of the guest. */
  predicate GuestGrounds(r: Record, op: Request, t: Table, canonical: Option<FileId>, open: bool) {
    && (NamesImage(op) ==> r.bundle.Some? && r.bundle.value.image == op.image)
    && (op.MarkStarting? || op.Abort? ==> r.bundle.value.state == Registered)
    && (op.BindVm? ==> r.bundle.value.state == Starting)
    && (op.MarkQuiescent? ==> r.bundle.value.state == Running)
    && (op.PublishGuest? ==> r.bundle.value.state == Quiescent)
    && (op.Acknowledge? ==> r.bundle.value.state == PublishedPending)
    && (NeedsStopped(op) ==> r.bundle.value.vm.Some? && r.guest == r.bundle.value.vm && NothingOf(t, r.guest.value))
    && (op.BindVm? || op.Abort? ==> r.bundle.value.vm.None?)
    && (NamesImage(op) && !NeedsStopped(op) ==> r.guest.None?)
    && (op.RegisterGuest? || op.RegisterBundle? || op.Release? ==> r.guest.None?)
    && (op.RegisterBundle? ==> r.bundle.None? && canonical.Some? && canonical.value.sha == op.seed)
    && (op.PublishGuest? || op.Acknowledge? ==> r.bundle.value.place == op.place)
    && (op.PublishGuest? || op.Abort? ==> canonical == Some(r.bundle.value.baseline))
    && (op.Acknowledge? ==>
          && r.bundle.value.ack == Some(op.ack) && r.bundle.value.candidate == Some(op.candidate)
          && r.bundle.value.published == canonical)
    && (op.Acknowledge? || op.Abort? ==> open)
  }

  /** What is needed of everything else. */
  predicate OtherGrounds(r: Record, op: Request, t: Table) {
    && (op.DropChild? || op.ClearAuth? || Shows(t, r.guardian))
    && (op.BindDaemon? || op.BindVm? ==> op.id.pgrp == op.id.pid)
    && (op.BindChild? ==> |r.children| <= 31)
    && (op.DropChild? ==> exists i | 0 <= i < |r.children| :: r.children[i] == op.id)
    && (op.BindRuntime? ==>
          && "/" <= op.runtime && |op.config| <= 256 && (r.runtime != None ==> r.runtime == Some(op.runtime))
          && (r.config != None ==> r.config == Some(op.config)))
    && (op.BindDaemon? ==> r.runtime != None && r.daemon == None && "/" <= op.socket)
    && (op.DropDaemon? ==> r.daemon != None && (op.next == None || |op.next.value| <= 256))
    && (op.StageAuth? ==>
          r.authStage == None && "/" <= op.stage && (op.verb == "login" || op.verb == "status" || op.verb == "logout"))
    && (op.ClearAuth? ==> r.authStage == Some(op.stage))
  }

  lemma AllowedMeans(r: Record, op: Request, t: Table, canonical: Option<FileId>, open: bool)
    ensures Allowed(r, op, t, canonical, open)
            <==> GuestGrounds(r, op, t, canonical, open) && OtherGrounds(r, op, t)
  {
    MatchingIsShowing(r.guardian, t);
    if NamesImage(op) {
      NamedMeans(r, op, t, canonical, open);
    } else {
      OthersMean(r, op, t, canonical, open);
    }
  }

  lemma OthersMean(r: Record, op: Request, t: Table, canonical: Option<FileId>, open: bool)
    requires !NamesImage(op) && IdentityMatches(r.guardian, t) == Shows(t, r.guardian)
    ensures Allowed(r, op, t, canonical, open)
            <==> GuestGrounds(r, op, t, canonical, open) && OtherGrounds(r, op, t)
  {
    match op
    case BindRuntime(runtime, _) =>
      AbsoluteMeans(runtime);
    case BindDaemon(_, socket) =>
      AbsoluteMeans(socket);
    case StageAuth(stage, _, _) =>
      AbsoluteMeans(stage);
    case _ =>
  }

  lemma NamedMeans(r: Record, op: Request, t: Table, canonical: Option<FileId>, open: bool)
    requires NamesImage(op) && IdentityMatches(r.guardian, t) == Shows(t, r.guardian)
    ensures Allowed(r, op, t, canonical, open)
            <==> GuestGrounds(r, op, t, canonical, open) && OtherGrounds(r, op, t)
  {
    if r.guest.Some? { StoppedIsNothing(t, r.guest.value); }
  }

  predicate Sound(id: Identity) { id.pid != 0 && id.pgrp != 0 && |id.binary| > 0 }

  /** The record mentions the process. */
  predicate Mentions(r: Record, id: Identity) {
    || id in r.children || Some(id) in {Some(r.guardian), r.child, r.guest, r.authCaller}
    || (r.daemon.Some? && r.daemon.value.identity == id) || (r.bundle.Some? && r.bundle.value.vm == Some(id))
  }

  /** What a bundle's state says of everything else. */
  predicate InStep(r: Record, b: Bundle) {
    && (b.vm == None <==> b.state in {Registered, Starting})
    && (r.guest == None <==> b.state in {Registered, Starting, Returned}) && (r.guest != None ==> r.guest == b.vm)
    && (r.reconciled <==> b.state == Returned)
    && (b.candidate != None <==> b.state in {PublishedPending, Returned})
    && (b.published != None <==> b.state in {PublishedPending, Returned})
    && (b.ack != None <==> b.state in {PublishedPending, Returned})
  }

  /** A record that may be stored: sound identities and absolute paths; things that belong
      together all there or none; no more than 32 children and a configuration of 256. */
  ghost predicate Coherent(r: Record) {
    && (forall id | Mentions(r, id) :: Sound(id)) && |r.children| <= 32
    && (r.runtime != None ==> "/" <= r.runtime.value) && (r.authStage != None ==> "/" <= r.authStage.value)
    && (r.daemon != None ==> "/" <= r.daemon.value.socket)
    && (r.runtime != None <==> r.config != None) && (r.config != None ==> |r.config.value| <= 256)
    && (r.runtime == None ==> r.daemon == None)
    && (|| (r.authStage == None && r.authVerb == None && r.authCaller == None)
        || (r.authStage != None && r.authCaller != None
           && r.authVerb in {Some("login"), Some("status"), Some("logout")}))
    && (if r.bundle == None then r.guest == None || !r.reconciled else InStep(r, r.bundle.value))
  }

  lemma ValidMeans(r: Record)
    ensures Valid(r) <==> Coherent(r)
  {
    if Valid(r) { ValidIsCoherent(r); }
    if Coherent(r) { CoherentIsValid(r); }
  }

  lemma ValidIsCoherent(r: Record)
    requires Valid(r)
    ensures Coherent(r)
  {
    if r.runtime.Some? { AbsoluteMeans(r.runtime.value); }
    if r.authStage.Some? { AbsoluteMeans(r.authStage.value); }
    if r.daemon.Some? { AbsoluteMeans(r.daemon.value.socket); }
  }

  lemma CoherentIsValid(r: Record)
    requires Coherent(r)
    ensures Valid(r)
  {
    assert Mentions(r, r.guardian) && forall id | id in r.children :: Mentions(r, id);
    if r.child.Some? { assert Mentions(r, r.child.value); }
    if r.guest.Some? { assert Mentions(r, r.guest.value); }
    if r.authCaller.Some? { assert Mentions(r, r.authCaller.value); }
    if r.daemon.Some? { assert Mentions(r, r.daemon.value.identity); }
    if r.bundle.Some? && r.bundle.value.vm.Some? { assert Mentions(r, r.bundle.value.vm.value); }
  }

  lemma AbsoluteMeans(p: string)
    ensures Absolute(p) <==> "/" <= p
  {
  }

  /** What is needed besides: of the process to be recorded, and of the guard where the guest's
      bytes differ from those it was given. */
  predicate Storable(r: Record, op: Request, open: bool) {
    && (op.BindChild? || op.BindDaemon? || op.RegisterGuest? || op.BindVm? ==> Sound(op.id))
    && (op.StageAuth? ==> Sound(op.caller))
    && (op.RegisterGuest? ==> r.bundle == None)
    && (op.PublishGuest? && !open ==> r.bundle.Some? && r.bundle.value.baseline.sha == op.candidate.sha)
  }

  /** A request that the guardian does not make itself comes from below it, while its child is
      who it was or from a client that has joined, and what it would have recorded is below too. */
  ghost predicate Rightful(r: Record, op: Request, pid: Pid, joined: bool, g: Pid, t: Table) {
    op.DropChild? || op.DropDaemon? || op.ClearAuth? || (
      && Below(t, pid, g) && r.child.Some? && (joined || Shows(t, r.child.value))
      && (op.Release? ==> pid == r.child.value.pid) && (op.StageAuth? ==> op.caller.pid == pid)
      && (op.BindChild? || op.BindDaemon? || op.RegisterGuest? || op.BindVm? ==>
            Below(t, op.id.pid, g) && Shows(t, op.id)))
  }

  ghost predicate Below(t: Table, pid: Pid, g: Pid) { exists chain :: Climbs(t, chain, g) && chain[0] == pid }

  /** Every ground of a request, of whoever makes it. */
  ghost predicate Grounded(r: Record, op: Request, pid: Pid, joined: bool, g: Pid, t: Table,
                            canonical: Option<FileId>, open: bool)
  {
    GuestGrounds(r, op, t, canonical, open) && OtherGrounds(r, op, t) && Rightful(r, op, pid, joined, g, t)
  }

  // ---------------------------------------------------------------- what is left

  /** The bundle's fields, one by one. */
  predicate BundleLeft(b: Bundle, op: Request, b': Bundle) {
    && b'.place == b.place && b'.image == b.image && b'.baseline == b.baseline
    && b'.vm == (if op.BindVm? then Some(op.id) else b.vm)
    && (b'.state, b.state) in (match op
                               case MarkStarting(_) => {(Starting, Registered)}
                               case BindVm(_, _) => {(Running, Starting)}
                               case MarkQuiescent(_) => {(Quiescent, Running)}
                               case PublishGuest(_, _, _) => {(PublishedPending, Quiescent)}
                               case Acknowledge(_, _, _, _) => {(Returned, PublishedPending)}
                               case _ => {(b.state, b.state)})
    && (if op.PublishGuest? then b'.candidate == Some(op.candidate) && b'.published.Some? && b'.ack.Some?
        else (b'.candidate, b'.published, b'.ack) == (b.candidate, b.published, b.ack))
  }

  predicate GuestLeft(r: Record, op: Request, canonical: Option<FileId>, r': Record) {
    && r'.guest == (if op.RegisterGuest? || op.BindVm? then Some(op.id)
                    else if op.Acknowledge? then None else r.guest)
    && r'.reconciled == (op.Acknowledge? || op.Abort?
                         || (r.reconciled && !op.RegisterGuest? && !op.RegisterBundle?))
    && (r'.bundle.None? <==> op.Abort? || (r.bundle.None? && !op.RegisterBundle?))
    && (r'.bundle.Some? && r.bundle.Some? ==> BundleLeft(r.bundle.value, op, r'.bundle.value))
    && (op.RegisterBundle? ==>
          && r'.bundle.value.place == op.place && r'.bundle.value.image == op.image
          && Some(r'.bundle.value.baseline) == canonical && r'.bundle.value.state == Registered
          && None == r'.bundle.value.vm
          && None == r'.bundle.value.candidate && None == r'.bundle.value.published && None == r'.bundle.value.ack)
  }

  /** One identity went from between two parts of the list. */
  predicate Dropped(s: seq<Identity>, id: Identity, s': seq<Identity>) {
    exists i | 0 <= i < |s| :: s[i] == id && id !in s[..i] && s' == s[..i] + s[i + 1..]
  }

  predicate OthersLeft(r: Record, op: Request, r': Record) {
    && r'.guardian == r.guardian && r'.child == r.child
    && (if op.DropChild? then Dropped(r.children, op.id, r'.children)
        else r'.children == r.children + if op.BindChild? then [op.id] else [])
    && r'.daemon == (if op.BindDaemon? then Some(Daemon(op.id, op.socket))
                     else if op.DropDaemon? then None else r.daemon)
    && r'.runtime == (if op.BindRuntime? then Some(op.runtime) else r.runtime)
    && r'.config == (if op.BindRuntime? then Some(op.config)
                     else if op.DropDaemon? && op.next.Some? then op.next else r.config)
    && r'.state == (if op.Release? then Quiescing
                    else if op.DropDaemon? && op.next.Some? then OwnerState.Pending
                    else if op.BindRuntime? || op.BindChild? || op.BindDaemon? || op.RegisterGuest?
                        || op.RegisterBundle?
                    then Active
                    else r.state)
    && (r'.authStage, r'.authVerb, r'.authCaller) ==
       (if op.StageAuth? then (Some(op.stage), Some(op.verb), Some(op.caller))
        else if op.ClearAuth? then (None, None, None)
        else (r.authStage, r.authVerb, r.authCaller))
  }

  lemma {:induction false} RemovedIsDropped(s: seq<Identity>, id: Identity) returns (i: nat)
    requires id in s
    ensures i < |s| && s[i] == id && id !in s[..i] && Removed(s, id) == s[..i] + s[i + 1..]
  {
    if s[0] == id {
      i := 0;
    } else {
      var k := RemovedIsDropped(s[1..], id);
      i := k + 1;
      CutLater(s, k);
      InFront(s[0], s[1..][..k], s[1..][k + 1..]);
    }
  }

  lemma InFront(x: Identity, a: seq<Identity>, b: seq<Identity>)
    ensures [x] + (a + b) == ([x] + a) + b && forall y :: y in [x] + a <==> y == x || y in a
  {
  }

  lemma CutLater(s: seq<Identity>, k: nat)
    requires k + 1 < |s|
    ensures s[..k + 1] == [s[0]] + s[1..][..k] && s[k + 2..] == s[1..][k + 1..]
  {
  }

  predicate Leaves(r: Record, op: Request, canonical: Option<FileId>, r': Record) {
    GuestLeft(r, op, canonical, r') && OthersLeft(r, op, r')
  }

  lemma AfterMeans(r: Record, op: Request, t: Table, canonical: Option<FileId>, open: bool, published: FileId,
                   ack: string)
    requires Allowed(r, op, t, canonical, open)
    ensures var r' := After(r, op, t, canonical, open, published, ack);
            Leaves(r, op, canonical, r')
  {
    if op.DropChild? { var i := RemovedIsDropped(r.children, op.id); }
  }
}
