/** Attachment supervision: how the guardian tracks the processes of one attached client
    and decides that the client is gone. */
module Supervision {
  import opened Options
  import opened Processes

  const MAX_DESCENDANTS := 128

  /** One entry of the guardian's attachment table. */
  datatype Entry = Entry(root: Identity, guardian: Pid, baseline: set<Key>,
                         descendants: seq<Identity>, status: Option<int>, done: bool)
  {
    function Tracked(): seq<Identity> { [root] + descendants }
    function TrackedKeys(): set<Key> { set id | id in Tracked() :: id.Instance() }
    function TrackedPids(): set<Pid> { set id | id in Tracked() :: id.pid }
  }

  /** The executable, or the first argument when the executable is unreadable. */
  function ObservedBinary(p: Proc): string {
    if p.exe != "" then p.exe else if |p.argv| > 0 then p.argv[0] else ""
  }

  function Observed(pid: Pid, p: Proc): Identity {
    Identity(pid, p.start, ObservedBinary(p), p.pgrp)
  }

  // ---------------------------------------------------------------- discovery

  /** A chain of live processes leads from `pid` up into `seeds`. */
  ghost predicate LeadsIn(t: Table, pid: Pid, seeds: set<Pid>, n: nat)
    decreases n
  {
    pid in t && !t[pid].zombie && (t[pid].ppid in seeds || (n > 0 && LeadsIn(t, t[pid].ppid, seeds, n - 1)))
  }

  ghost predicate Leads(t: Table, pid: Pid, seeds: set<Pid>) {
    exists n: nat :: LeadsIn(t, pid, seeds, n)
  }

  /** Live processes, each the child of the next, up to a child of one of `seeds`. */
  predicate ChainInto(t: Table, chain: seq<Pid>, seeds: set<Pid>) {
    && chain != [] && (forall i | 0 <= i < |chain| :: chain[i] in t && !t[chain[i]].zombie)
    && (forall i | 0 <= i < |chain| - 1 :: t[chain[i]].ppid == chain[i + 1])
    && t[chain[|chain| - 1]].ppid in seeds
  }

  lemma LeadsIsChain(t: Table, pid: Pid, seeds: set<Pid>)
    ensures Leads(t, pid, seeds) <==> exists chain :: ChainInto(t, chain, seeds) && chain[0] == pid
  {
    if n: nat :| LeadsIn(t, pid, seeds, n) {
      var chain := ChainOf(t, pid, seeds, n);
    }
    if chain :| ChainInto(t, chain, seeds) && chain[0] == pid {
      ChainLeads(t, chain, seeds);
    }
  }

  lemma {:induction false} ChainOf(t: Table, pid: Pid, seeds: set<Pid>, n: nat) returns (chain: seq<Pid>)
    requires LeadsIn(t, pid, seeds, n)
    ensures ChainInto(t, chain, seeds) && chain[0] == pid
    decreases n
  {
    chain := [pid];
    if t[pid].ppid !in seeds {
      var rest := ChainOf(t, t[pid].ppid, seeds, n - 1);
      chain := [pid] + rest;
    }
  }

  lemma {:induction false} ChainLeads(t: Table, chain: seq<Pid>, seeds: set<Pid>)
    requires ChainInto(t, chain, seeds)
    ensures LeadsIn(t, chain[0], seeds, |chain| - 1)
    decreases |chain|
  {
    if |chain| > 1 {
      assert ChainInto(t, chain[1..], seeds);
      ChainLeads(t, chain[1..], seeds);
    }
  }

  /** `pid` is a live child of the guardian that nobody else accounts for. */
  predicate Adoptable(t: Table, e: Entry, known: set<Key>, pid: Pid) {
    && pid in t && !t[pid].zombie && t[pid].ppid == e.guardian
    && Key(pid, t[pid].start) !in known && Key(pid, t[pid].start) !in e.baseline
  }

  /** What one refresh has to add to the tracked identities. */
  ghost predicate Fresh(t: Table, e: Entry, known: set<Key>, pid: Pid) {
    && pid in t && !t[pid].zombie && Key(pid, t[pid].start) !in e.TrackedKeys()
    && (Leads(t, pid, e.TrackedPids()) || Adoptable(t, e, known, pid))
  }

  /** Something has to be added whose binary cannot be told. */
  ghost predicate Opaque(t: Table, e: Entry, known: set<Key>) {
    exists pid :: Fresh(t, e, known, pid) && ObservedBinary(t[pid]) == ""
  }

  ghost predicate Refreshed(t: Table, known: set<Key>, e: Entry, e': Entry) {
    && e' == e.(descendants := e'.descendants)
    && e.descendants <= e'.descendants
    && var added := e'.descendants[|e.descendants|..];
       && (forall i, j | 0 <= i < j < |added| :: added[i].pid != added[j].pid)
       && (forall id | id in added :: Fresh(t, e, known, id.pid) && id == Observed(id.pid, t[id.pid]))
       && (forall pid | Fresh(t, e, known, pid) :: Observed(pid, t[pid]) in added)
  }

  /** `tracked` misses no live process below its own pids: every chain into them is inside. */
  lemma {:induction false} ClosedTracksChains(t: Table, seeds: set<Pid>, tracked: set<Key>, pids: set<Pid>,
                                              pid: Pid, n: nat)
    requires seeds <= pids && forall k | k in tracked :: k.pid in pids
    requires forall p | p in t && !t[p].zombie && t[p].ppid in pids :: Key(p, t[p].start) in tracked
    requires LeadsIn(t, pid, seeds, n)
    ensures Key(pid, t[pid].start) in tracked
    decreases n
  {
    if t[pid].ppid !in seeds {
      ClosedTracksChains(t, seeds, tracked, pids, t[pid].ppid, n - 1);
      assert Key(t[pid].ppid, t[t[pid].ppid].start).pid in pids;
    }
  }

  // ---------------------------------------------------------------- verdict

  datatype Verdict = Reused | Matching | Gone

  function Judge(t: Table, e: Entry): Verdict {
    if exists id | id in e.Tracked() :: id.pid in t && t[id.pid].start != id.start then Reused
    else if exists id | id in e.Tracked() :: IdentityMatches(id, t) then Matching
    else Gone
  }

  datatype Outcome = Kept | OpaqueIdentity | TooManyDescendants | PidReused | CleanupFailed

  function ExitStatus(raw: int): int { if raw < 0 then 128 - raw else raw }

  /** The end of a poll on the last table it took. */
  ghost predicate Decided(t: Table, cleanupOk: bool, e: Entry, e': Entry, out: Outcome) {
    match Judge(t, e)
    case Reused => e' == e && out == PidReused
    case Matching => e' == e && out == Kept
    case Gone => if cleanupOk then e' == e.(done := true) && out == Kept else e' == e && out == CleanupFailed
  }

  /** A poll that raised nothing while refreshing: first snapshot, perhaps the root's exit
      and a second snapshot, then the verdict on the latest one. */
  ghost predicate Polled(t1: Table, known1: set<Key>, exited: Option<int>, t2: Table, known2: set<Key>,
                         cleanupOk: bool, e: Entry, e': Entry, out: Outcome)
  {
    exists e1 :: Refreshed(t1, known1, e, e1) &&
      if e1.status.Some? then Decided(t1, cleanupOk, e1, e', out)
      else if exited.None? then e' == e1 && out == Kept
      else exists e2 :: Refreshed(t2, known2, e1.(status := Some(ExitStatus(exited.value))), e2) &&
             Decided(t2, cleanupOk, e2, e', out)
  }

  /** A refresh that raised: over a process it cannot identify, or past the limit. */
  ghost predicate Overrun(t: Table, known: set<Key>, e: Entry, e': Entry, out: Outcome) {
    if Opaque(t, e, known) then e' == e && out == OpaqueIdentity
    else Refreshed(t, known, e, e') && |e'.descendants| > MAX_DESCENDANTS && out == TooManyDescendants
  }

  /** A poll that raised while refreshing: in the first snapshot, or in the second with the
      root's exit already noted. */
  ghost predicate PollRaised(t1: Table, known1: set<Key>, exited: Option<int>, t2: Table, known2: set<Key>,
                             e: Entry, e': Entry, out: Outcome)
  {
    || Overrun(t1, known1, e, e', out)
    || (e.status.None? && exited.Some? && exists e1 ::
          Refreshed(t1, known1, e, e1) && Overrun(t2, known2, e1.(status := Some(ExitStatus(exited.value))), e', out))
  }

  // ------------------------------------------------------- loop invariants of Refresh

  /** Everything tracked so far, in the shapes the loops keep it in. */
  ghost predicate Discovery(t: Table, e: Entry, tracked: set<Key>, discovered: seq<Identity>) {
    && tracked == e.TrackedKeys() + (set id | id in discovered :: id.Instance())
    && (forall id | id in discovered ::
          && id.pid in t && !t[id.pid].zombie && id == Observed(id.pid, t[id.pid]) && id.binary != ""
          && Key(id.pid, t[id.pid].start) !in e.TrackedKeys())
    && (forall i, j | 0 <= i < j < |discovered| :: discovered[i].pid != discovered[j].pid)
  }

  lemma DiscoveryGrows(t: Table, e: Entry, tracked: set<Key>, discovered: seq<Identity>, p: Pid)
    requires Discovery(t, e, tracked, discovered)
    requires p in t && !t[p].zombie && Key(p, t[p].start) !in tracked && ObservedBinary(t[p]) != ""
    ensures Discovery(t, e, tracked + {Key(p, t[p].start)}, discovered + [Observed(p, t[p])])
  {
    var more := discovered + [Observed(p, t[p])];
    var one := Observed(p, t[p]);
    assert one in more && one.Instance() == Key(p, t[p].start);
    assert forall id :: id in more <==> id in discovered || id == one;
    assert (set id | id in more :: id.Instance()) == (set id | id in discovered :: id.Instance()) + {one.Instance()};
    forall i | 0 <= i < |discovered|
      ensures discovered[i].pid != p
    {
      assert discovered[i] in discovered && discovered[i].Instance() in tracked;
    }
  }

  lemma LeadsThrough(t: Table, p: Pid, seeds: set<Pid>, discovered: seq<Identity>)
    requires p in t && !t[p].zombie
    requires t[p].ppid in seeds + set id | id in discovered :: id.pid
    requires forall id | id in discovered :: Leads(t, id.pid, seeds)
    ensures Leads(t, p, seeds)
  {
    if t[p].ppid in seeds {
      assert LeadsIn(t, p, seeds, 0);
    } else {
      var n: nat :| LeadsIn(t, t[p].ppid, seeds, n);
      assert LeadsIn(t, p, seeds, n + 1);
    }
  }

  lemma Grew(t: Table, e: Entry, tracked: set<Key>, before: seq<Identity>, after: seq<Identity>)
    requires Discovery(t, e, tracked, after) && before < after
    ensures t.Keys - (set id | id in after :: id.pid) < t.Keys - set id | id in before :: id.pid
  {
    var small, large := set id | id in before :: id.pid, set id | id in after :: id.pid;
    var extra := after[|before|];
    assert extra in after;
    assert small <= large by {
      assert forall id | id in before :: id in after;
    }
    forall id | id in before
      ensures id.pid != extra.pid
    {
      var i :| 0 <= i < |before| && before[i] == id;
      assert after[i] == id;
    }
    assert extra.pid in large && extra.pid !in small && extra.pid in t.Keys;
  }

  /** The first loop of a refresh: passes over the table until one discovers nothing. */
  method CloseBelow(t: Table, e: Entry) returns (ok: bool, tracked: set<Key>, discovered: seq<Identity>)
    ensures ok ==> Discovery(t, e, tracked, discovered)
    ensures ok ==> forall id | id in discovered :: Leads(t, id.pid, e.TrackedPids())
    ensures ok ==> forall p | Leads(t, p, e.TrackedPids()) :: Key(p, t[p].start) in tracked
    ensures !ok ==> forall known :: Opaque(t, e, known)
  {
    tracked := e.TrackedKeys();
    var pids := e.TrackedPids();
    ghost var seeds := pids;
    discovered := [];
    var progress := true;
    while progress
      invariant Discovery(t, e, tracked, discovered)
      invariant forall id | id in discovered :: Leads(t, id.pid, seeds)
      invariant pids == seeds + (set id | id in discovered :: id.pid)
      invariant !progress ==>
        forall p | p in t && !t[p].zombie && t[p].ppid in pids :: Key(p, t[p].start) in tracked
      decreases t.Keys - (set id | id in discovered :: id.pid), progress
    {
      progress := false;
      ghost var before := discovered;
      var rest := t.Keys;
      while rest != {}
        invariant rest <= t.Keys && before <= discovered
        invariant Discovery(t, e, tracked, discovered)
        invariant forall id | id in discovered :: Leads(t, id.pid, seeds)
        invariant pids == seeds + (set id | id in discovered :: id.pid)
        invariant progress <==> |before| < |discovered|
        invariant !progress ==>
          forall p | p in t && p !in rest && !t[p].zombie && t[p].ppid in pids :: Key(p, t[p].start) in tracked
      {
        var p :| p in rest;
        var key := Key(p, t[p].start);
        if !t[p].zombie && key !in tracked && t[p].ppid in pids {
          LeadsThrough(t, p, seeds, discovered);
          if ObservedBinary(t[p]) == "" {
            assert forall known :: Fresh(t, e, known, p);
            return false, tracked, discovered;
          }
          DiscoveryGrows(t, e, tracked, discovered, p);
          discovered := discovered + [Observed(p, t[p])];
          tracked := tracked + {key};
          pids := pids + {p};
          progress := true;
        }
        rest := rest - {p};
      }
      if progress {
        Grew(t, e, tracked, before, discovered);
      }
    }
    forall p | Leads(t, p, seeds)
      ensures Key(p, t[p].start) in tracked
    {
      var n: nat :| LeadsIn(t, p, seeds, n);
      ClosedTracksChains(t, seeds, tracked, pids, p, n);
    }
    ok := true;
  }

  /** The second loop: one pass that adopts unexplained live children of the guardian. */
  method AdoptOrphans(t: Table, e: Entry, known: set<Key>, below: set<Key>, found: seq<Identity>)
    returns (ok: bool, discovered: seq<Identity>)
    requires Discovery(t, e, below, found)
    requires forall id | id in found :: Leads(t, id.pid, e.TrackedPids())
    requires forall p | Leads(t, p, e.TrackedPids()) :: Key(p, t[p].start) in below
    ensures ok ==> (forall i, j | 0 <= i < j < |discovered| :: discovered[i].pid != discovered[j].pid)
    ensures ok ==> forall id | id in discovered :: Fresh(t, e, known, id.pid) && id == Observed(id.pid, t[id.pid])
    ensures ok ==> forall pid | Fresh(t, e, known, pid) :: Observed(pid, t[pid]) in discovered
    ensures !ok <==> Opaque(t, e, known)
  {
    var tracked := below;
    discovered := found;
    var rest := t.Keys;
    while rest != {}
      invariant rest <= t.Keys && below <= tracked
      invariant Discovery(t, e, tracked, discovered)
      invariant forall id | id in discovered :: Leads(t, id.pid, e.TrackedPids()) || Adoptable(t, e, known, id.pid)
      invariant forall p | p !in rest && Adoptable(t, e, known, p) :: Key(p, t[p].start) in tracked
    {
      var p :| p in rest;
      var key := Key(p, t[p].start);
      if !t[p].zombie && t[p].ppid == e.guardian && key !in tracked && key !in known && key !in e.baseline {
        if ObservedBinary(t[p]) == "" {
          assert Fresh(t, e, known, p);
          return false, discovered;
        }
        DiscoveryGrows(t, e, tracked, discovered, p);
        discovered := discovered + [Observed(p, t[p])];
        tracked := tracked + {key};
      }
      rest := rest - {p};
    }
    forall pid | Fresh(t, e, known, pid)
      ensures Observed(pid, t[pid]) in discovered
    {
      assert Key(pid, t[pid].start) in tracked;
    }
    ok := true;
  }

  // ---------------------------------------------------------------- what a refresh and a poll do

  /** What one refresh may add, in terms of the table alone: a live process not tracked yet, as it
      shows itself, below the tracked ones or left to the guardian by nobody known. */
  ghost predicate Belongs(id: Identity, t: Table, e: Entry, known: set<Key>) {
    && id.pid in t && !t[id.pid].zombie && id.start == t[id.pid].start && id.pgrp == t[id.pid].pgrp
    && id.binary != ""
       && (id.binary == t[id.pid].exe
          || (t[id.pid].exe == "" && t[id.pid].argv != [] && id.binary == t[id.pid].argv[0]))
    && (forall x | x in [e.root] + e.descendants :: x.pid != id.pid || x.start != id.start)
    && (|| (exists chain :: ChainInto(t, chain, set x | x in [e.root] + e.descendants :: x.pid) && chain[0] == id.pid)
        || (t[id.pid].ppid == e.guardian && Key(id.pid, id.start) !in known && Key(id.pid, id.start) !in e.baseline))
  }

  lemma FreshBelongs(t: Table, e: Entry, known: set<Key>, pid: Pid)
    requires pid in t && ObservedBinary(t[pid]) != ""
    ensures Fresh(t, e, known, pid) <==> Belongs(Observed(pid, t[pid]), t, e, known)
  {
    LeadsIsChain(t, pid, e.TrackedPids());
    assert e.TrackedPids() == set x | x in [e.root] + e.descendants :: x.pid;
    if Key(pid, t[pid].start) in e.TrackedKeys() {
      var x :| x in e.Tracked() && x.Instance() == Key(pid, t[pid].start);
    }
  }

  lemma AddsWhatBelongs(t: Table, e: Entry, known: set<Key>, added: seq<Identity>)
    requires !Opaque(t, e, known)
    requires forall id | id in added :: Fresh(t, e, known, id.pid) && id == Observed(id.pid, t[id.pid])
    requires forall pid | Fresh(t, e, known, pid) :: Observed(pid, t[pid]) in added
    ensures forall id :: id in added <==> Belongs(id, t, e, known)
  {
    forall id
      ensures id in added <==> Belongs(id, t, e, known)
    {
      if id in added {
        FreshBelongs(t, e, known, id.pid);
      }
      if Belongs(id, t, e, known) {
        assert id == Observed(id.pid, t[id.pid]);
        FreshBelongs(t, e, known, id.pid);
      }
    }
  }

  /** The table shows another process under the pid. */
  predicate TakenOver(t: Table, id: Identity) { exists pid | pid in t :: pid == id.pid && t[pid].start != id.start }

  /** A pid in other hands raises; a process that still shows keeps the entry open; else it is
      closed, once cleaned up. */
  ghost predicate Concluded(t: Table, tracked: seq<Identity>, cleanupOk: bool, done: bool, out: Outcome) {
    if exists id | id in tracked :: TakenOver(t, id) then out == PidReused && !done
    else if exists id | id in tracked :: Shows(t, id) then out == Kept && !done
    else if cleanupOk then out == Kept && done
    else out == CleanupFailed && !done
  }

  lemma JudgedByWhatShows(t: Table, e: Entry)
    ensures Judge(t, e) == Reused <==> exists id | id in [e.root] + e.descendants :: TakenOver(t, id)
    ensures Judge(t, e) == Gone <==> forall id | id in [e.root] + e.descendants :: !TakenOver(t, id) && !Shows(t, id)
  {
    forall id
      ensures IdentityMatches(id, t) <==> Shows(t, id)
      ensures TakenOver(t, id) <==> id.pid in t && t[id.pid].start != id.start
    {
      MatchingIsShowing(id, t);
    }
  }

  class Attachment {
    const root: Identity
    const guardian: Pid
    const baseline: set<Key>
    var descendants: seq<Identity>
    var status: Option<int>
    var done: bool

    constructor (root: Identity, guardian: Pid, baseline: set<Key>)
      ensures View() == Entry(root, guardian, baseline, [], None, false)
    {
      this.root, this.guardian, this.baseline := root, guardian, baseline;
      descendants, status, done := [], None, false;
    }

    function View(): Entry
      reads this
    {
      Entry(root, guardian, baseline, descendants, status, done)
    }

    /** Grow the tracked set to a fixpoint below itself, then adopt unexplained children
        of the guardian.  The children of a freshly adopted orphan wait for the next pass. */
    method Refresh(t: Table, known: set<Key>) returns (out: Outcome)
      modifies this`descendants
      ensures out in {Kept, OpaqueIdentity, TooManyDescendants}
      ensures out != OpaqueIdentity ==> Refreshed(t, known, old(View()), View())
      ensures out == OpaqueIdentity ==> View() == old(View())
      ensures out == OpaqueIdentity <==> Opaque(t, old(View()), known)
      ensures out != OpaqueIdentity ==> (out == TooManyDescendants <==> |descendants| > 128)
      ensures out != OpaqueIdentity ==> old(descendants) <= descendants
      ensures out != OpaqueIdentity ==>
                forall id :: id in descendants[|old(descendants)|..] <==> Belongs(id, t, old(View()), known)
      ensures out == OpaqueIdentity ==>
                exists pid | pid in t ::
                    !t[pid].zombie && t[pid].exe == "" && (t[pid].argv == [] || t[pid].argv[0] == "")
    {
      ghost var e := View();
      var ok, tracked, discovered := CloseBelow(t, View());
      if !ok { return OpaqueIdentity; }
      ok, discovered := AdoptOrphans(t, View(), known, tracked, discovered);
      if !ok { return OpaqueIdentity; }
      descendants := descendants + discovered;
      assert View().descendants[|e.descendants|..] == discovered;
      AddsWhatBelongs(t, e, known, discovered);
      return if |descendants| > MAX_DESCENDANTS then TooManyDescendants else Kept;
    }

    /** One pass of the guardian over this entry.  `exited` is what waiting for the root
        returned; the second snapshot is taken only when the root has just been reaped. */
    method Poll(t1: Table, known1: set<Key>, exited: Option<int>, t2: Table, known2: set<Key>, cleanupOk: bool)
      returns (out: Outcome)
      modifies this
      ensures old(done) ==> out == Kept && View() == old(View())
      ensures !old(done) && out !in {OpaqueIdentity, TooManyDescendants} ==>
                Polled(t1, known1, exited, t2, known2, cleanupOk, old(View()), View(), out)
      ensures out != Kept ==> done == old(done)
      ensures !old(done) && out in {OpaqueIdentity, TooManyDescendants} ==>
                PollRaised(t1, known1, exited, t2, known2, old(View()), View(), out)
      ensures !old(done) && Opaque(t1, old(View()), known1) ==> out == OpaqueIdentity
      // the client's exit status is recorded once: its code, or 128 and the signal that killed it
      ensures old(status).Some? || exited.None? ==> status == old(status)
      ensures !old(done) && old(status).None? && exited.Some? && out in {Kept, PidReused, CleanupFailed} ==>
                status.Some?
      ensures status != old(status) ==> exited.Some? && status.Some?
      ensures status != old(status) && exited.value >= 0 ==> status.value == exited.value
      ensures status != old(status) && exited.value < 0 ==> status.value - 128 == -exited.value
      // what is tracked is judged on the latest table, if the root has exited
      ensures status.None? && out in {Kept, PidReused, CleanupFailed} ==> out == Kept && done == old(done)
      ensures !old(done) && status.Some? && out in {Kept, PidReused, CleanupFailed} ==>
                Concluded(if old(status).Some? then t1 else t2, [root] + descendants, cleanupOk, done, out)
      ensures !old(done) && out !in {OpaqueIdentity, TooManyDescendants} ==> |descendants| <= 128
    {
      if done { return Kept; }
      out := Refresh(t1, known1);
      if out != Kept {
        assert Overrun(t1, known1, old(View()), View(), out);
        return;
      }
      ghost var e1 := View();
      var table := t1;
      if status.None? {
        if exited.None? { return Kept; }
        status := Some(ExitStatus(exited.value));
        ghost var e := View();
        out := Refresh(t2, known2);
        if out != Kept {
          assert Overrun(t2, known2, e, View(), out);
          return;
        }
        table := t2;
      }
      out := Conclude(table, cleanupOk);
    }

    /** The verdict on the latest table, and what follows from it. */
    method Conclude(table: Table, cleanupOk: bool) returns (out: Outcome)
      requires !done
      modifies this`done
      ensures Decided(table, cleanupOk, old(View()), View(), out)
      ensures out in {Kept, PidReused, CleanupFailed} && (out != Kept ==> !done)
      ensures Concluded(table, [root] + descendants, cleanupOk, done, out)
    {
      JudgedByWhatShows(table, View());
      match Judge(table, View()) {
        case Reused => out := PidReused;
        case Matching => out := Kept;
        case Gone =>
          if cleanupOk { done := true; out := Kept; } else { out := CleanupFailed; }
      }
    }
  }
}
