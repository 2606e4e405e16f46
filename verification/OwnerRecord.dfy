/** The guardian's owner record: its validator, and the transitions the guardian performs on it. */
module OwnerRecord {
  import opened Options
  import opened Processes
  import CredentialDisk

  /** One number per write of a file. */
  type Token = CredentialDisk.Ino

  /** A credential file: one token per write, and the digest of its bytes. */
  datatype FileId = FileId(ino: Token, sha: string)

  datatype GuestState = Registered | Starting | Running | Quiescent | PublishedPending | Returned

  /** A guest's recovery inputs.  `place` and `image` stand for the identities of its
      directory and its disk image. */
  datatype Bundle = Bundle(
    place: nat, image: nat, baseline: FileId, vm: Option<Identity>, state: GuestState,
    candidate: Option<FileId>, published: Option<FileId>, ack: Option<string>)

  datatype Daemon = Daemon(identity: Identity, socket: string)

  datatype OwnerState = Pending | Active | Quiescing | Blocked

  datatype Record = Record(
    state: OwnerState, guardian: Identity, child: Option<Identity>, children: seq<Identity>,
    daemon: Option<Daemon>, guest: Option<Identity>, bundle: Option<Bundle>, reconciled: bool,
    runtime: Option<string>, config: Option<string>,
    authStage: Option<string>, authVerb: Option<string>, authCaller: Option<Identity>)

  const MAX_CHILDREN := 32
  const MAX_CONFIG := 256

  // ---------------------------------------------------------------- the validator

  predicate IdentityValid(id: Identity) { id.pid > 0 && id.pgrp > 0 && id.binary != "" }

  predicate OptionalValid(id: Option<Identity>) { id.Some? ==> IdentityValid(id.value) }

  predicate Absolute(path: string) { path != "" && path[0] == '/' }

  predicate BundleValid(b: Bundle, guest: Option<Identity>, reconciled: bool) {
    && OptionalValid(b.vm)
    && (match b.state
        case Registered | Starting => b.vm.None? && guest.None? && !reconciled
        case Running | Quiescent | PublishedPending => b.vm.Some? && guest == b.vm && !reconciled
        case Returned => b.vm.Some? && guest.None? && reconciled)
    && (if b.state in {PublishedPending, Returned} then b.candidate.Some? && b.published.Some? && b.ack.Some?
        else b.candidate.None? && b.published.None? && b.ack.None?)
  }

  predicate Valid(r: Record) {
    && IdentityValid(r.guardian) && OptionalValid(r.child) && OptionalValid(r.guest)
    && |r.children| <= MAX_CHILDREN && (forall id | id in r.children :: IdentityValid(id))
    && (r.daemon.Some? ==> IdentityValid(r.daemon.value.identity) && Absolute(r.daemon.value.socket))
    && (r.bundle.Some? ==> BundleValid(r.bundle.value, r.guest, r.reconciled))
    && (r.runtime.Some? ==> Absolute(r.runtime.value))
    && (r.config.Some? ==> |r.config.value| <= MAX_CONFIG)
    && (r.runtime.None? <==> r.config.None?)
    && (r.daemon.Some? ==> r.runtime.Some?)
    && !(r.bundle.None? && r.guest.Some? && r.reconciled)
    && (r.authStage.Some? <==> r.authVerb.Some?) && (r.authStage.Some? <==> r.authCaller.Some?)
    && (r.authStage.Some? ==> Absolute(r.authStage.value))
    && (r.authVerb.Some? ==> r.authVerb.value in {"login", "status", "logout"})
    && OptionalValid(r.authCaller)
  }

  // ---------------------------------------------------------------- the transitions

  datatype Request =
    | BindRuntime(runtime: string, config: string)
    | BindChild(id: Identity)
    | DropChild(id: Identity)
    | BindDaemon(id: Identity, socket: string)
    | DropDaemon(next: Option<string>)
    | RegisterGuest(id: Identity)
    | RegisterBundle(place: nat, image: nat, seed: string)
    | MarkStarting(image: nat)
    | BindVm(image: nat, id: Identity)
    | MarkQuiescent(image: nat)
    | PublishGuest(place: nat, image: nat, candidate: FileId)
    | Acknowledge(place: nat, image: nat, ack: string, candidate: FileId)
    | Abort(image: nat)
    | Release
    | StageAuth(stage: string, verb: string, caller: Identity)
    | ClearAuth(stage: string)
  {
    /** Operations whose failure marks the record blocked. */
    predicate IsGuest() {
      RegisterBundle? || MarkStarting? || BindVm? || MarkQuiescent? || PublishGuest? || Acknowledge? || Abort?
    }

    /** What the guardian does to the record by itself. */
    predicate IsOwn() { DropChild? || DropDaemon? || ClearAuth? }

    /** Operations that record a process. */
    predicate Records() { BindChild? || BindDaemon? || RegisterGuest? || BindVm? }

    /** Operations that set the record's state anew, a blocked one's too. */
    predicate SetsState() {
      BindRuntime? || BindChild? || BindDaemon? || (DropDaemon? && next.Some?) || RegisterGuest? || RegisterBundle?
          || Release?
    }
  }

  /** What is seen of a recorded VM: its pid is a different live process. */
  predicate Ambiguous(t: Table, vm: Identity) {
    vm.pid in t && !t[vm.pid].zombie && !IdentityMatches(vm, t)
  }

  predicate VmActive(t: Table, vm: Identity) {
    IdentityMatches(vm, t) || (vm.pgrp == vm.pid && GroupActive(t, vm.pgrp))
  }

  predicate VmStopped(t: Table, vm: Identity) { !Ambiguous(t, vm) && !VmActive(t, vm) }

  /** The recorded bundle is in the given state and its image is the one seen. */
  predicate BundleIn(r: Record, state: GuestState, image: nat) {
    r.bundle.Some? && r.bundle.value.state == state && r.bundle.value.image == image
  }

  /** ...and its VM is the recorded guest and has stopped. */
  predicate StoppedIn(r: Record, state: GuestState, image: nat, t: Table) {
    && BundleIn(r, state, image)
    && r.bundle.value.vm.Some? && r.guest == r.bundle.value.vm && VmStopped(t, r.bundle.value.vm.value)
  }

  /** What the guardian checks before it performs `op`. */
  predicate Allowed(r: Record, op: Request, t: Table, canonical: Option<FileId>, open: bool) {
    && (!op.DropChild? && !op.ClearAuth? ==> IdentityMatches(r.guardian, t))
    && match op
       case BindRuntime(runtime, config) =>
         && Absolute(runtime) && |config| <= MAX_CONFIG
         && (r.runtime.Some? ==> r.runtime.value == runtime) && (r.config.Some? ==> r.config.value == config)
       case BindChild(_) => |r.children| < MAX_CHILDREN
       case DropChild(id) => id in r.children
       case BindDaemon(id, socket) => r.runtime.Some? && Absolute(socket) && id.pgrp == id.pid && r.daemon.None?
       case DropDaemon(next) => r.daemon.Some? && (next.Some? ==> |next.value| <= MAX_CONFIG)
       case RegisterGuest(_) => r.guest.None?
       case RegisterBundle(_, _, seed) =>
         r.bundle.None? && r.guest.None? && canonical.Some? && canonical.value.sha == seed
       case MarkStarting(image) => BundleIn(r, Registered, image) && r.guest.None?
       case BindVm(image, id) =>
         BundleIn(r, Starting, image) && r.bundle.value.vm.None? && r.guest.None? && id.pgrp == id.pid
       case MarkQuiescent(image) => StoppedIn(r, Running, image, t)
       case PublishGuest(place, image, _) =>
         StoppedIn(r, Quiescent, image, t) && r.bundle.value.place == place
             && canonical == Some(r.bundle.value.baseline)
       case Acknowledge(place, image, ack, candidate) =>
         && StoppedIn(r, PublishedPending, image, t) && r.bundle.value.place == place
         && r.bundle.value.ack == Some(ack) && r.bundle.value.candidate == Some(candidate)
         && canonical == r.bundle.value.published && open
       case Abort(image) =>
         && BundleIn(r, Registered, image) && r.bundle.value.vm.None? && r.guest.None?
         && canonical == Some(r.bundle.value.baseline) && open
       case Release => r.guest.None?
       case StageAuth(stage, verb, _) => r.authStage.None? && Absolute(stage) && verb in {"login", "status", "logout"}
       case ClearAuth(stage) => r.authStage == Some(stage)
  }

  function WithBundle(r: Record, b: Bundle): Record { r.(bundle := Some(b)) }

  /** The record `op` leaves.  `published` is what a publication committed, `ack` its token. */
  function After(r: Record, op: Request, t: Table, canonical: Option<FileId>, open: bool, published: FileId,
                 ack: string): Record
    requires Allowed(r, op, t, canonical, open)
  {
    match op
    case BindRuntime(runtime, config) => r.(runtime := Some(runtime), config := Some(config), state := Active)
    case BindChild(id) => r.(children := r.children + [id], state := Active)
    case DropChild(id) => r.(children := Removed(r.children, id))
    case BindDaemon(id, socket) => r.(daemon := Some(Daemon(id, socket)), state := Active)
    case DropDaemon(next) =>
      if next.Some? then r.(daemon := None, config := next, state := OwnerState.Pending)
      else r.(daemon := None)
    case RegisterGuest(id) => r.(guest := Some(id), reconciled := false, state := Active)
    case RegisterBundle(place, image, _) =>
      r.(bundle := Some(Bundle(place, image, canonical.value, None, Registered, None, None, None)),
         reconciled := false, state := Active)
    case MarkStarting(_) => WithBundle(r, r.bundle.value.(state := Starting))
    case BindVm(_, id) => WithBundle(r, r.bundle.value.(vm := Some(id), state := Running)).(guest := Some(id))
    case MarkQuiescent(_) => WithBundle(r, r.bundle.value.(state := Quiescent))
    case PublishGuest(_, _, candidate) =>
      WithBundle(r, r.bundle.value.(candidate := Some(candidate), published := Some(published), ack := Some(ack),
                                    state := PublishedPending))
    case Acknowledge(_, _, _, _) =>
      WithBundle(r, r.bundle.value.(state := Returned)).(guest := None, reconciled := true)
    case Abort(_) => r.(bundle := None, reconciled := true)
    case Release => r.(state := Quiescing)
    case StageAuth(stage, verb, caller) => r.(authStage := Some(stage), authVerb := Some(verb),
        authCaller := Some(caller))
    case ClearAuth(_) => r.(authStage := None, authVerb := None, authCaller := None)
  }

  /** The first occurrence removed. */
  function Removed(s: seq<Identity>, id: Identity): (r: seq<Identity>)
    requires id in s
    ensures |r| == |s| - 1 && forall x | x in r :: x in s
  {
    if s[0] == id then s[1..] else [s[0]] + Removed(s[1..], id)
  }

  /** The process an operation brings into the record, if any. */
  function Brings(op: Request): Option<Identity> {
    match op
    case BindChild(id) => Some(id)
    case BindDaemon(id, _) => Some(id)
    case RegisterGuest(id) => Some(id)
    case BindVm(_, id) => Some(id)
    case StageAuth(_, _, caller) => Some(caller)
    case _ => None
  }

  /** Exactly which permitted operations the validator then refuses to store: those that bring
      in a malformed identity, and the older guest registration beside a registered bundle. */
  lemma RefusedByValidator(r: Record, op: Request, t: Table, canonical: Option<FileId>, open: bool, published: FileId,
                           ack: string)
    requires Valid(r) && Allowed(r, op, t, canonical, open)
    ensures Valid(After(r, op, t, canonical, open, published, ack))
            <==> OptionalValid(Brings(op)) && !(op.RegisterGuest? && r.bundle.Some?)
  {
    if op.IsGuest() {
      GuestRefusedByValidator(r, op, t, canonical, open, published, ack);
    } else if op.BindChild? {
      assert op.id in r.children + [op.id];
    }
  }

  lemma GuestRefusedByValidator(r: Record, op: Request, t: Table, canonical: Option<FileId>, open: bool,
                                published: FileId, ack: string)
    requires Valid(r) && Allowed(r, op, t, canonical, open) && op.IsGuest()
    ensures Valid(After(r, op, t, canonical, open, published, ack)) <==> OptionalValid(Brings(op))
  {
  }

  /** In a valid record a reconciled bundle has been returned, and a guest is recorded
      exactly while a bundle's VM is bound and not returned. */
  lemma ReconciledMeansReturned(r: Record)
    requires Valid(r)
    ensures r.bundle.Some? && r.reconciled ==> r.bundle.value.state == Returned
    ensures r.reconciled ==> r.guest.None?
    ensures r.bundle.Some? ==> (r.guest.Some? <==> r.bundle.value.state in {Running, Quiescent, PublishedPending})
  {
  }
}
