/** Publishing a staged credential: recovery copy, pending marker, commit, complete marker,
    rollback.  Whatever step fails, and wherever the machine crashes, the canonical
    credential is the whole old one or the whole new one. */
module Publication {
  import opened Options
  import opened CredentialDisk

  /** The canonical file found, its bytes, and what is to replace it: staged bytes, or nothing
      at all for a logout.  `shown` are the files a crash at the start could have left under the
      canonical name, and `durable` says that it was that file with those bytes and no other. */
  datatype Txn = Txn(baseline: Option<Ino>, before: Content, candidate: Option<Content>, shown: set<Option<Ino>>,
                     durable: bool)

  datatype Outcome =
    | Refused          // raised before the commit: the canonical credential is untouched
    | RolledBack       // the commit failed and was undone
    | RollbackFailed   // the commit failed and was not undone
    | Uncleaned        // committed, but a marker could not be cleared
    | Unconfirmed      // committed and cleared, but the last check or sync raised
    | Published        // committed and cleared

  predicate GuardOpen(d: Disk)
    requires Owner in d.dirs
  {
    d.At(Owner, Pending) == None && d.At(Owner, Complete) == None
  }

  ghost predicate IsCandidate(d: Disk, t: Txn, v: Option<Ino>) {
    if t.candidate.Some? then d.Holds(v, t.candidate.value) else v == None
  }

  /** A file, safely on disk, with the bytes found at the start. */
  ghost predicate OldBytes(d: Disk, t: Txn, v: Option<Ino>) {
    if t.baseline.Some? then d.Holds(v, t.before) else v == None
  }

  ghost predicate Whole(d: Disk, t: Txn, v: Option<Ino>) {
    v in t.shown || OldBytes(d, t, v) || IsCandidate(d, t, v)
  }

  /** The file found at the start is still what it was. */
  predicate Original(d: Disk, t: Txn) {
    && (t.durable ==> t.shown == {t.baseline})
    && (t.baseline.Some? ==>
          && t.baseline.value in d.files && d.files[t.baseline.value].content == t.before
          && (t.durable ==> d.files[t.baseline.value].synced))
  }

  /** What a crash in state `d` may leave behind. */
  ghost predicate SafeAfter(d: Disk, t: Txn, c: Disk)
    requires d.Wf() && c.Wf()
  {
    var canonical := c.At(Owner, Auth);
    // the canonical credential is what a crash at the start could have left, or the complete
    // old or new bytes; and these alone if the old ones were on the disk at the start
    && Whole(c, t, canonical)
    && (t.durable ==> OldBytes(c, t, canonical) || IsCandidate(c, t, canonical))
    // a replaced credential has a recovery copy
    && (t.baseline.Some? && canonical !in t.shown && !OldBytes(c, t, canonical) ==>
          && c.At(Owner, RecoveryEntry).Some? && c.At(RecoveryRoot, TokenEntry).Some?
          && c.Holds(c.At(Recovery, Auth), t.before))
    // when no marker survives, the canonical credential is the one in place before the crash,
    // or what a crash could have left all along if nothing was committed
    && (GuardOpen(c) ==> canonical == d.At(Owner, Auth) || (d.At(Owner, Auth) == t.baseline && canonical in t.shown))
  }

  ghost predicate CrashSafe(d: Disk, t: Txn) {
    d.Wf() && forall c | CrashOf(d, c) :: SafeAfter(d, t, c)
  }

  // ---------------------------------------------------------------- what every step keeps

  ghost predicate RecoveryDurable(d: Disk, t: Txn)
    requires d.Wf()
  {
    && d.Fixed(Owner, RecoveryEntry) && d.At(Owner, RecoveryEntry).Some?
    && d.Fixed(RecoveryRoot, TokenEntry) && d.At(RecoveryRoot, TokenEntry).Some?
    && d.Fixed(Recovery, Auth) && d.Holds(d.At(Recovery, Auth), t.before)
  }

  ghost predicate CanonicalIs(d: Disk, v: Option<Ino>)
    requires d.Wf()
  {
    d.Fixed(Owner, Auth) && d.At(Owner, Auth) == v
  }

  ghost predicate PendingDurable(d: Disk)
    requires d.Wf()
  {
    d.Fixed(Owner, Pending) && d.At(Owner, Pending).Some?
  }

  ghost predicate AlwaysWhole(d: Disk, t: Txn)
    requires d.Wf()
  {
    forall v | d.MayShow(Owner, Auth, v) :: Whole(d, t, v)
  }

  /** A crash can leave nothing under the canonical name that it could not at the start. */
  ghost predicate Untouched(d: Disk, t: Txn)
    requires d.Wf()
  {
    d.At(Owner, Auth) == t.baseline && forall v | d.MayShow(Owner, Auth, v) :: v in t.shown
  }

  ghost predicate Sound(d: Disk, t: Txn) {
    && d.Wf() && Original(d, t) && AlwaysWhole(d, t)
    && (d.Fixed(Owner, Auth) || PendingDurable(d) || Untouched(d, t))
    && (t.baseline.Some? ==> RecoveryDurable(d, t) || Untouched(d, t))
  }

  lemma SoundIsCrashSafe(d: Disk, t: Txn)
    requires Sound(d, t)
    ensures CrashSafe(d, t)
  {
    forall c | CrashOf(d, c)
      ensures SafeAfter(d, t, c)
    {
      SurvivorMayShow(d.dirs[Owner], c.dirs[Owner].durable, Auth);
      assert d.MayShow(Owner, Auth, c.At(Owner, Auth));
      if d.Fixed(Owner, Auth) {
        SettledSurvives(d, c, Owner, Auth);
      } else if PendingDurable(d) {
        SettledSurvives(d, c, Owner, Pending);
      }
      if t.baseline.Some? && RecoveryDurable(d, t) {
        SettledSurvives(d, c, Owner, RecoveryEntry);
        SettledSurvives(d, c, RecoveryRoot, TokenEntry);
        SettledSurvives(d, c, Recovery, Auth);
      }
    }
  }

  /** Every state visited since `before` is sound. */
  ghost predicate SoundVisits(before: set<Disk>, after: set<Disk>, t: Txn) {
    before <= after && forall d | d in after && d !in before :: Sound(d, t)
  }

  /** Before the commit: the canonical credential is the file found at the start. */
  ghost predicate Ready(d: Disk, t: Txn) { d.Wf() && Original(d, t) && Untouched(d, t) }

  /** Before anything is done, every crash leaves the complete old bytes if and only if those are
      on the disk already under every name a crash could leave. */
  lemma StartIsWholeIff(d: Disk, t: Txn)
    requires d.Wf()
    ensures (forall c | CrashOf(d, c) :: OldBytes(c, t, c.At(Owner, Auth)))
            <==> forall v | d.MayShow(Owner, Auth, v) :: OldBytes(d, t, v)
  {
    forall v | d.MayShow(Owner, Auth, v) && !OldBytes(d, t, v)
      ensures exists c :: CrashOf(d, c) && !OldBytes(c, t, c.At(Owner, Auth))
    {
      var c := ShownIsPossible(d, Owner, Auth, v);
      assert !OldBytes(c, t, c.At(Owner, Auth));
    }
    if forall v | d.MayShow(Owner, Auth, v) :: OldBytes(d, t, v) {
      forall c | CrashOf(d, c)
        ensures OldBytes(c, t, c.At(Owner, Auth))
      {
        SurvivorMayShow(d.dirs[Owner], c.dirs[Owner].durable, Auth);
        assert d.MayShow(Owner, Auth, c.At(Owner, Auth));
      }
    }
  }

  lemma ReadyIsSound(d: Disk, t: Txn)
    requires Ready(d, t)
    ensures Sound(d, t)
  {
  }

  lemma FlushKeepsReady(d: Disk, d': Disk, t: Txn, id: DirId)
    requires Ready(d, t) && Flushed(d, d', id)
    ensures Ready(d', t) && Sound(d', t)
  {
  }

  lemma FillKeepsReady(d: Disk, d': Disk, t: Txn, ino: Ino)
    requires Ready(d, t) && t.baseline != Some(ino) && Refilled(d, d', ino)
    ensures Ready(d', t) && Sound(d', t)
  {
  }

  // ---------------------------------------------------------------- the steps

  /** A preparing step changed one name only, and lost nothing it had made durable. */
  ghost predicate OnlyChanged(d: Disk, d': Disk, id: DirId, n: Name) {
    && d.Wf() && d'.Wf()
    && (forall i | i in d.files :: i in d'.files && d'.files[i] == d.files[i])
    && (forall other, m {:trigger d'.At(other, m)} :: other != id || m != n ==> d'.At(other, m) == d.At(other, m))
    && (forall other, m {:trigger d'.Fixed(other, m)} ::
          other != id || m != n ==> d.Fixed(other, m) ==> d'.Fixed(other, m))
  }

  /** Creating a file under any name but the canonical one. */
  lemma CreateKeepsReady(d: Disk, d': Disk, t: Txn, id: DirId, n: Name, ino: Ino)
    requires Ready(d, t) && Wrote(d, d', id, Op(map[n := ino], {})) && (id != Owner || n != Auth)
    requires ino !in d.files && d'.files == d.files[ino := File("", false)]
    ensures Ready(d', t) && Sound(d', t) && OnlyChanged(d, d', id, n) && d'.At(id, n) == Some(ino)
  {
    assert Ready(d', t);
    ReadyIsSound(d', t);
  }

  lemma OnlyChangedThenFilled(d: Disk, d1: Disk, d2: Disk, id: DirId, n: Name, ino: Ino)
    requires OnlyChanged(d, d1, id, n) && ino !in d.files && Refilled(d1, d2, ino)
    ensures OnlyChanged(d, d2, id, n)
  {
  }

  lemma OnlyChangedThenFlushed(d: Disk, d1: Disk, d2: Disk, id: DirId, n: Name)
    requires OnlyChanged(d, d1, id, n) && Flushed(d1, d2, id)
    ensures OnlyChanged(d, d2, id, n)
  {
  }

  /** `_private_directory(create=True)`: make it unless it exists, and sync a new entry. */
  method PrivateDirectory(dir: CredentialDir, parent: DirId, entry: Name, ghost t: Txn) returns (ok: bool)
    requires Ready(dir.disk, t) && entry in {RecoveryEntry, TokenEntry}
    modifies dir
    ensures Ready(dir.disk, t) && SoundVisits(old(dir.visited), dir.visited, t)
    ensures OnlyChanged(old(dir.disk), dir.disk, parent, entry)
    ensures ok ==> dir.disk.At(parent, entry).Some?
    ensures dir.faults == old(dir.faults) + if ok then 0 else 1
  {
    if dir.disk.At(parent, entry).Some? { return true; }
    ghost var d0 := dir.disk;
    ReadyIsSound(d0, t);
    var ino;
    ok, ino := dir.Create(parent, entry);
    if !ok { return; }
    ghost var d1 := dir.disk;
    CreateKeepsReady(d0, d1, t, parent, entry, ino);
    ok := dir.Sync(parent);
    if ok {
      OnlyChangedThenFlushed(d0, d1, dir.disk, parent, entry);
      FlushKeepsReady(d1, dir.disk, t, parent);
    }
  }

  method CreateReady(dir: CredentialDir, id: DirId, n: Name, ghost t: Txn) returns (ok: bool, ino: Ino)
    requires Ready(dir.disk, t) && (id != Owner || n != Auth)
    modifies dir
    ensures Ready(dir.disk, t) && SoundVisits(old(dir.visited), dir.visited, t)
    ensures OnlyChanged(old(dir.disk), dir.disk, id, n)
    ensures ok ==> ino !in old(dir.disk.files) && ino in dir.disk.files && dir.disk.At(id, n) == Some(ino)
    ensures dir.faults == old(dir.faults) + if !ok && old(dir.disk.At(id, n)) == None then 1 else 0
  {
    ghost var d0 := dir.disk;
    ReadyIsSound(d0, t);
    ok, ino := dir.Create(id, n);
    if !ok { return; }
    CreateKeepsReady(d0, dir.disk, t, id, n, ino);
  }

  /** Create a file exclusively and fill it, as `_copy_file` into a new descriptor does. */
  method WriteNew(dir: CredentialDir, id: DirId, n: Name, content: Content, ghost t: Txn)
    returns (ok: bool, ino: Ino)
    requires Ready(dir.disk, t) && (id != Owner || n != Auth)
    modifies dir
    ensures Ready(dir.disk, t) && SoundVisits(old(dir.visited), dir.visited, t)
    ensures OnlyChanged(old(dir.disk), dir.disk, id, n)
    ensures ok ==> ino !in old(dir.disk.files) && dir.disk.At(id, n) == Some(ino) && dir.disk.Holds(Some(ino), content)
    ensures dir.faults >= old(dir.faults)
    ensures !ok && old(dir.disk.At(id, n)) == None ==> dir.faults > old(dir.faults)
  {
    ghost var d0 := dir.disk;
    ok, ino := CreateReady(dir, id, n, t);
    if !ok { return; }
    ghost var d1 := dir.disk;
    ok := dir.Fill(ino, content);
    OnlyChangedThenFilled(d0, d1, dir.disk, id, n, ino);
    FillKeepsReady(d1, dir.disk, t, ino);
  }

  // ---------------------------------------------------------------- recovery and draft

  /** The recovery copy, durable but for its directory's entry in the owner directory. */
  ghost predicate Copied(d: Disk, t: Txn)
    requires d.Wf()
  {
    && d.At(Owner, RecoveryEntry).Some?
    && d.Fixed(RecoveryRoot, TokenEntry) && d.At(RecoveryRoot, TokenEntry).Some?
    && d.Fixed(Recovery, Auth) && d.Holds(d.At(Recovery, Auth), t.before)
  }

  /** Nothing but the names given changed in these two directories. */
  ghost predicate KeepsNames(d: Disk, d': Disk, changed: set<Name>) {
    && d.Wf() && d'.Wf()
    && (forall n {:trigger d'.At(Owner, n)} | n !in changed :: d'.At(Owner, n) == d.At(Owner, n))
    && (forall n {:trigger d'.At(Stage, n)} | n !in changed :: d'.At(Stage, n) == d.At(Stage, n))
  }

  method WriteRecovery(dir: CredentialDir, canonical: Ino, ghost t: Txn) returns (ok: bool)
    requires Ready(dir.disk, t) && t.baseline == Some(canonical)
    modifies dir
    ensures Ready(dir.disk, t) && SoundVisits(old(dir.visited), dir.visited, t)
    ensures forall i | i in old(dir.disk.files) :: i in dir.disk.files && dir.disk.files[i] == old(dir.disk.files[i])
    ensures ok ==> Copied(dir.disk, t)
    ensures KeepsNames(old(dir.disk), dir.disk, {RecoveryEntry})
    ensures dir.faults >= old(dir.faults)
    ensures !ok && old(dir.disk.At(Recovery, Auth)) == None ==> dir.faults > old(dir.faults)
  {
    ok := PrivateDirectory(dir, Owner, RecoveryEntry, t);
    if !ok { return; }
    ok := PrivateDirectory(dir, RecoveryRoot, TokenEntry, t);
    if !ok { return; }
    ok := CopyToRecovery(dir, dir.disk.files[canonical].content, t);
  }

  method CopyToRecovery(dir: CredentialDir, content: Content, ghost t: Txn) returns (ok: bool)
    requires Ready(dir.disk, t) && t.baseline.Some? && content == t.before
    requires dir.disk.At(Owner, RecoveryEntry).Some? && dir.disk.At(RecoveryRoot, TokenEntry).Some?
    modifies dir
    ensures Ready(dir.disk, t) && SoundVisits(old(dir.visited), dir.visited, t)
    ensures forall i | i in old(dir.disk.files) :: i in dir.disk.files && dir.disk.files[i] == old(dir.disk.files[i])
    ensures ok ==> Copied(dir.disk, t)
    ensures KeepsNames(old(dir.disk), dir.disk, {})
    ensures dir.faults >= old(dir.faults)
    ensures !ok && old(dir.disk.At(Recovery, Auth)) == None ==> dir.faults > old(dir.faults)
  {
    ghost var d0 := dir.disk;
    var copy;
    ok, copy := WriteNew(dir, Recovery, Auth, content, t);
    if !ok { return; }
    ghost var d1 := dir.disk;
    assert d1.At(Owner, RecoveryEntry) == d0.At(Owner, RecoveryEntry);
    assert d1.At(RecoveryRoot, TokenEntry) == d0.At(RecoveryRoot, TokenEntry);
    ok := SyncReady(dir, Recovery, t);
    if !ok { return; }
    ok := SyncReady(dir, RecoveryRoot, t);
  }

  method SyncReady(dir: CredentialDir, id: DirId, ghost t: Txn) returns (ok: bool)
    requires Ready(dir.disk, t)
    modifies dir
    ensures Ready(dir.disk, t) && SoundVisits(old(dir.visited), dir.visited, t)
    ensures if ok then Flushed(old(dir.disk), dir.disk, id) else dir.disk == old(dir.disk)
    ensures dir.faults == old(dir.faults) + if ok then 0 else 1
  {
    ghost var d := dir.disk;
    ReadyIsSound(d, t);
    ok := dir.Sync(id);
    if ok { FlushKeepsReady(d, dir.disk, t, id); }
  }

  /** Recovery copy and pending marker are durable; the canonical credential is untouched. */
  ghost predicate Guarded(d: Disk, t: Txn) {
    Ready(d, t) && PendingDurable(d) && (t.baseline.Some? ==> RecoveryDurable(d, t))
  }

  /** Ready to commit: the file to publish is there too. */
  ghost predicate Armed(d: Disk, t: Txn, p: Ino) {
    Guarded(d, t) && d.At(Owner, Temporary) == Some(p) && IsCandidate(d, t, Some(p))
  }

  /** The pending marker is filled and the owner directory synced. */
  method WritePending(dir: CredentialDir, ghost t: Txn) returns (ok: bool)
    requires Ready(dir.disk, t) && (t.baseline.Some? ==> Copied(dir.disk, t))
    modifies dir
    ensures Ready(dir.disk, t) && SoundVisits(old(dir.visited), dir.visited, t)
    ensures forall i | i in old(dir.disk.files) :: i in dir.disk.files && dir.disk.files[i] == old(dir.disk.files[i])
    ensures ok ==> Guarded(dir.disk, t)
    ensures KeepsNames(old(dir.disk), dir.disk, {Pending})
    ensures dir.faults >= old(dir.faults)
    ensures !ok && old(dir.disk.At(Owner, Pending)) == None ==> dir.faults > old(dir.faults)
  {
    ghost var d1 := dir.disk;
    var marker;
    ok, marker := WriteNew(dir, Owner, Pending, "token", t);
    if !ok { return; }
    ghost var d2 := dir.disk;
    KeepsCopied(d1, d2, t, Pending);
    assert d2.At(Owner, Temporary) == d1.At(Owner, Temporary);
    ok := SyncReady(dir, Owner, t);
    if ok { GuardedAfterSync(d2, dir.disk, t); }
  }

  /** The file to publish, then the pending marker. */
  method Arm(dir: CredentialDir, candidate: Content, ghost t: Txn) returns (ok: bool, p: Ino)
    requires Ready(dir.disk, t) && (t.baseline.Some? ==> Copied(dir.disk, t)) && t.candidate == Some(candidate)
    modifies dir
    ensures Ready(dir.disk, t) && SoundVisits(old(dir.visited), dir.visited, t)
    ensures ok ==> Armed(dir.disk, t, p) && p !in old(dir.disk.files)
    ensures KeepsNames(old(dir.disk), dir.disk, {Temporary, Pending})
    ensures dir.faults >= old(dir.faults)
    ensures !ok && old(dir.disk.At(Owner, Temporary)) == None && old(dir.disk.At(Owner, Pending)) == None ==>
              dir.faults > old(dir.faults)
  {
    ghost var d0 := dir.disk;
    ok, p := WriteNew(dir, Owner, Temporary, candidate, t);
    if !ok { return; }
    KeepsCopied(d0, dir.disk, t, Temporary);
    ok := WritePending(dir, t);
  }

  lemma KeepsCopied(d: Disk, d': Disk, t: Txn, n: Name)
    requires OnlyChanged(d, d', Owner, n) && n != RecoveryEntry
    ensures t.baseline.Some? && Copied(d, t) ==> Copied(d', t)
  {
  }

  lemma GuardedAfterSync(d: Disk, d': Disk, t: Txn)
    requires Flushed(d, d', Owner) && Ready(d', t) && (t.baseline.Some? ==> Copied(d, t))
    requires d.At(Owner, Pending).Some?
    ensures Guarded(d', t)
  {
  }

  // ---------------------------------------------------------------- commit and rollback

  /** The stage can never be published again. */
  ghost predicate Spent(d: Disk)
    requires d.Wf()
  {
    d.Fixed(Stage, Marker) && d.At(Stage, Marker) == None
  }

  /** From the commit to its sync: whatever the canonical name may show is whole. */
  ghost predicate Committing(d: Disk, t: Txn) {
    && d.Wf() && Original(d, t) && AlwaysWhole(d, t) && PendingDurable(d) && (t.candidate.Some? ==> Spent(d))
    && (t.baseline.Some? ==> RecoveryDurable(d, t))
  }

  /** The new credential is durably in place. */
  ghost predicate Landed(d: Disk, t: Txn, v: Option<Ino>) {
    && d.Wf() && Original(d, t) && CanonicalIs(d, v) && IsCandidate(d, t, v) && (t.candidate.Some? ==> Spent(d))
    && (t.baseline.Some? ==> RecoveryDurable(d, t))
  }

  lemma CommittingWrite(d: Disk, d': Disk, t: Txn, op: Op)
    requires Committing(d, t) && Wrote(d, d', Owner, op)
    requires forall i | i in d.files :: i in d'.files && d'.files[i] == d.files[i]
    requires !op.Touches(Pending) && !op.Touches(RecoveryEntry)
    requires op.Touches(Auth) ==> Whole(d, t, Look(op.add, Auth))
    ensures Committing(d', t) && Sound(d', t)
  {
  }

  lemma CommittingFill(d: Disk, d': Disk, t: Txn, ino: Ino)
    requires Committing(d, t) && Refilled(d, d', ino) && !d.files[ino].synced && t.baseline != Some(ino)
    ensures Committing(d', t) && Sound(d', t)
  {
  }

  lemma CommittingFlush(d: Disk, d': Disk, t: Txn)
    requires Committing(d, t) && Flushed(d, d', Owner)
    ensures Committing(d', t) && Sound(d', t) && d'.Fixed(Owner, Auth)
    ensures Whole(d, t, d.At(Owner, Auth))
  {
    assert d.MayShow(Owner, Auth, d.At(Owner, Auth));
  }

  lemma GuardedIsCommitting(d: Disk, t: Txn)
    requires Guarded(d, t) && (t.candidate.Some? ==> Spent(d))
    ensures Committing(d, t) && Sound(d, t)
  {
  }

  /** The guard is closed now and after any crash. */
  ghost predicate StaysClosed(d: Disk) {
    d.Wf() && !GuardOpen(d) && forall c | CrashOf(d, c) :: !GuardOpen(c)
  }

  lemma PendingKeepsClosed(d: Disk, t: Txn)
    requires Committing(d, t)
    ensures StaysClosed(d)
  {
    forall c | CrashOf(d, c)
      ensures !GuardOpen(c)
    {
      SettledSurvives(d, c, Owner, Pending);
    }
  }

  /** Undo a commit whose sync failed.  `recovery` says whether there was an old credential. */
  method Rollback(dir: CredentialDir, recovery: bool, p: Ino, ghost t: Txn) returns (ok: bool)
    requires Committing(dir.disk, t) && recovery == t.baseline.Some? && p in dir.disk.files
    modifies dir
    ensures Committing(dir.disk, t) && SoundVisits(old(dir.visited), dir.visited, t)
    ensures ok ==> dir.disk.Fixed(Owner, Auth)
    ensures ok ==> OldBytes(dir.disk, t, dir.disk.At(Owner, Auth))
    ensures dir.faults >= old(dir.faults)
    ensures !ok && old(dir.disk.At(Owner, Auth)) == Some(p) && old(dir.disk.At(Owner, RollbackCopy)) == None ==>
              dir.faults > old(dir.faults)
  {
    ghost var d0 := dir.disk;
    if dir.disk.At(Owner, Auth) != Some(p) { return false; }
    if !recovery {
      ok := dir.Unlink(Owner, Auth);
      if !ok { return; }
      CommittingWrite(d0, dir.disk, t, Op(map[], {Auth}));
    } else {
      ok := Restore(dir, t);
      if !ok { return; }
    }
    ghost var d1 := dir.disk;
    ok := dir.Sync(Owner);
    if ok { CommittingFlush(d1, dir.disk, t); }
  }

  /** Copy the recovery bytes to a new file. */
  method CopyBack(dir: CredentialDir, ghost t: Txn) returns (ok: bool, r: Ino)
    requires Committing(dir.disk, t) && t.baseline.Some?
    modifies dir
    ensures Committing(dir.disk, t) && SoundVisits(old(dir.visited), dir.visited, t)
    ensures ok ==> dir.disk.At(Owner, RollbackCopy) == Some(r) && dir.disk.Holds(Some(r), t.before)
    ensures dir.faults >= old(dir.faults)
    ensures !ok && old(dir.disk.At(Owner, RollbackCopy)) == None ==> dir.faults > old(dir.faults)
  {
    ghost var d0 := dir.disk;
    var source := dir.disk.At(Recovery, Auth);
    ok, r := dir.Create(Owner, RollbackCopy);
    if !ok { return; }
    ghost var d1 := dir.disk;
    CommittingWrite(d0, d1, t, Op(map[RollbackCopy := r], {}));
    assert d1.At(Owner, RollbackCopy) == Some(r);
    ok := dir.Fill(r, dir.disk.files[source.value].content);
    CommittingFill(d1, dir.disk, t, r);
    assert dir.disk.At(Owner, RollbackCopy) == Some(r);
  }

  /** Put the recovery bytes back in place. */
  method Restore(dir: CredentialDir, ghost t: Txn) returns (ok: bool)
    requires Committing(dir.disk, t) && t.baseline.Some?
    modifies dir
    ensures Committing(dir.disk, t) && SoundVisits(old(dir.visited), dir.visited, t)
    ensures ok ==> dir.disk.Holds(dir.disk.At(Owner, Auth), t.before)
    ensures dir.faults >= old(dir.faults)
    ensures !ok && old(dir.disk.At(Owner, RollbackCopy)) == None ==> dir.faults > old(dir.faults)
  {
    var unreadable: bool := *;
    if unreadable {
      dir.faults := dir.faults + 1;
      return false;
    }
    var r;
    ok, r := CopyBack(dir, t);
    if !ok { return; }
    ghost var d := dir.disk;
    ok := dir.Replace(Owner, RollbackCopy, Auth);
    if ok { CommittingWrite(d, dir.disk, t, Op(map[Auth := r], {RollbackCopy})); }
  }

  /** Put the new file in place: `linked` once the canonical name has changed, `done` when
      nothing is left to do but the sync. */
  method Install(dir: CredentialDir, replacing: bool, p: Ino, ghost t: Txn) returns (linked: bool, done: bool)
    requires Armed(dir.disk, t, p) && t.candidate.Some? && Spent(dir.disk) && replacing == t.baseline.Some?
    modifies dir
    ensures Committing(dir.disk, t) && SoundVisits(old(dir.visited), dir.visited, t)
    ensures !linked ==> Ready(dir.disk, t) && !done
    ensures linked ==> dir.disk.At(Owner, Auth) == Some(p) && IsCandidate(dir.disk, t, Some(p))
    ensures dir.faults == old(dir.faults) + if done then 0 else 1
    ensures dir.disk.At(Owner, RollbackCopy) == old(dir.disk.At(Owner, RollbackCopy))
  {
    ghost var d0 := dir.disk;
    GuardedIsCommitting(d0, t);
    if replacing {
      linked := dir.Replace(Owner, Temporary, Auth);
      done := linked;
      if linked { CommittingWrite(d0, dir.disk, t, Op(map[Auth := p], {Temporary})); }
    } else {
      linked := dir.Link(Owner, Temporary, Auth);
      done := false;
      if linked {
        ghost var d1 := dir.disk;
        CommittingWrite(d0, d1, t, Op(map[Auth := p], {}));
        done := dir.Unlink(Owner, Temporary);
        if done { CommittingWrite(d1, dir.disk, t, Op(map[], {Temporary})); }
      }
    }
  }

  /** The commit proper: link or replace, then sync; a failure after the rename rolls back. */
  method Commit(dir: CredentialDir, replacing: bool, p: Ino, ghost t: Txn) returns (out: Outcome)
    requires Armed(dir.disk, t, p) && t.candidate.Some? && Spent(dir.disk) && replacing == t.baseline.Some?
    modifies dir
    ensures SoundVisits(old(dir.visited), dir.visited, t)
    ensures match out
            case Published =>
              Landed(dir.disk, t, Some(p)) && dir.disk.dirs[Owner].log == [] && dir.disk.At(Owner, Pending).Some?
            case Refused => Committing(dir.disk, t) && Ready(dir.disk, t)
            case RolledBack =>
              && Committing(dir.disk, t) && dir.disk.Fixed(Owner, Auth)
              && OldBytes(dir.disk, t, dir.disk.At(Owner, Auth))
            case RollbackFailed => Committing(dir.disk, t)
            case _ => false
    ensures dir.faults >= old(dir.faults) && (out != Published ==> dir.faults > old(dir.faults))
    ensures out == RollbackFailed && old(dir.disk.At(Owner, RollbackCopy)) == None ==> dir.faults > old(dir.faults) + 1
  {
    var linked, done := Install(dir, replacing, p, t);
    if !linked { return Refused; }
    if done {
      ghost var d := dir.disk;
      done := dir.Sync(Owner);
      if done {
        CommittingFlush(d, dir.disk, t);
        return Published;
      }
    }
    done := Rollback(dir, replacing, p, t);
    return if done then RolledBack else RollbackFailed;
  }

  // ---------------------------------------------------------------- clearing the markers

  lemma LandedIsSound(d: Disk, t: Txn, v: Option<Ino>)
    requires Landed(d, t, v)
    ensures Sound(d, t)
  {
  }

  lemma LandedWrite(d: Disk, d': Disk, t: Txn, v: Option<Ino>, op: Op)
    requires Landed(d, t, v) && Wrote(d, d', Owner, op) && d'.files == d.files
    requires !op.Touches(Auth) && !op.Touches(RecoveryEntry)
    ensures Landed(d', t, v) && Sound(d', t)
  {
  }

  lemma LandedFlush(d: Disk, d': Disk, t: Txn, v: Option<Ino>)
    requires Landed(d, t, v) && Flushed(d, d', Owner)
    ensures Landed(d', t, v) && Sound(d', t)
  {
  }

  lemma MarkerKeepsClosed(d: Disk, n: Name)
    requires d.Wf() && n in {Pending, Complete} && d.Fixed(Owner, n) && d.At(Owner, n).Some?
    ensures StaysClosed(d)
  {
    forall c | CrashOf(d, c)
      ensures !GuardOpen(c)
    {
      SettledSurvives(d, c, Owner, n);
    }
  }

  /** Pending becomes complete, durably. */
  method MarkComplete(dir: CredentialDir, ghost v: Option<Ino>, ghost t: Txn) returns (ok: bool)
    requires Landed(dir.disk, t, v) && dir.disk.dirs[Owner].log == [] && dir.disk.At(Owner, Pending).Some?
    modifies dir
    ensures Landed(dir.disk, t, v) && SoundVisits(old(dir.visited), dir.visited, t)
    ensures ok ==> dir.disk.Fixed(Owner, Complete) && dir.disk.At(Owner, Complete).Some?
    ensures ok ==> dir.disk.At(Owner, Pending).None?
    ensures !ok ==> StaysClosed(dir.disk)
    ensures dir.faults == old(dir.faults) + if ok then 0 else 1
  {
    ghost var d0 := dir.disk;
    LandedIsSound(d0, t, v);
    ok := dir.Replace(Owner, Pending, Complete);
    if !ok { MarkerKeepsClosed(d0, Pending); return; }
    ghost var d1 := dir.disk;
    ghost var marker := d0.At(Owner, Pending).value;
    LandedWrite(d0, d1, t, v, Op(map[Complete := marker], {Pending}));
    ok := dir.Sync(Owner);
    if !ok { SwapKeepsClosed(d0, d1, marker); return; }
    LandedFlush(d1, dir.disk, t, v);
    assert dir.disk.At(Owner, Complete) == d1.At(Owner, Complete) == Some(marker);
    assert dir.disk.At(Owner, Pending) == d1.At(Owner, Pending) == None;
  }

  /** Pending becomes complete, durably, and only then disappears. */
  method Clear(dir: CredentialDir, ghost v: Option<Ino>, ghost t: Txn) returns (ok: bool)
    requires Landed(dir.disk, t, v) && dir.disk.dirs[Owner].log == [] && dir.disk.At(Owner, Pending).Some?
    modifies dir
    ensures Landed(dir.disk, t, v) && SoundVisits(old(dir.visited), dir.visited, t)
    ensures if ok then GuardOpen(dir.disk) else StaysClosed(dir.disk)
    ensures dir.faults == old(dir.faults) + if ok then 0 else 1
  {
    ok := MarkComplete(dir, v, t);
    if !ok { return; }
    ghost var d := dir.disk;
    LandedIsSound(d, t, v);
    ok := dir.Unlink(Owner, Complete);
    if !ok { MarkerKeepsClosed(d, Complete); return; }
    LandedWrite(d, dir.disk, t, v, Op(map[], {Complete}));
  }

  lemma SwapKeepsClosed(d: Disk, d': Disk, marker: Ino)
    requires d.Wf() && d'.Wf() && d.dirs[Owner].log == [] && d.At(Owner, Pending) == Some(marker)
    requires d' == Logged(d, Owner, Op(map[Complete := marker], {Pending}))
    ensures StaysClosed(d')
  {
    assert d.dirs[Owner].MayShow(Pending, d.At(Owner, Pending));
    forall c | CrashOf(d', c)
      ensures !GuardOpen(c)
    {
      RenameSurvives(d', c, Owner, Pending, Complete, marker);
    }
  }

  // ---------------------------------------------------------------- publish

  /** The stage: its marker records `recorded` as the canonical identity it started from. */
  ghost predicate StageOf(d: Disk, t: Txn)
    requires d.Wf()
  {
    d.At(Stage, Auth).Some? ==>
      && d.At(Stage, Auth).value in d.files && t.candidate == Some(d.files[d.At(Stage, Auth).value].content)
      && d.At(Stage, Auth) != t.baseline
  }

  /** The stage may be published: nothing unfinished, its marker live and up to date, a
      credential in it, and the user's approval if it replaces one. */
  predicate Eligible(d: Disk, recorded: Option<Ino>, approved: bool)
    requires d.Mounted()
  {
    && GuardOpen(d) && d.At(Stage, Marker).Some? && d.At(Stage, Auth).Some?
    && recorded == d.At(Owner, Auth) && (recorded.Some? ==> approved)
  }

  /** The names made from the transaction's fresh token are not taken. */
  predicate TokenIsFresh(d: Disk)
    requires d.Mounted()
  {
    d.At(Recovery, Auth) == None && d.At(Owner, Temporary) == None && d.At(Owner, RollbackCopy) == None
  }

  /** Up to the commit: everything that can refuse without touching the canonical name. */
  method Prepare(dir: CredentialDir, recorded: Option<Ino>, approved: bool, ghost t: Txn)
    returns (ok: bool, p: Ino)
    requires Ready(dir.disk, t) && StageOf(dir.disk, t)
    modifies dir
    ensures Ready(dir.disk, t) && SoundVisits(old(dir.visited), dir.visited, t)
    ensures ok ==> Armed(dir.disk, t, p) && Spent(dir.disk) && p !in old(dir.disk.files)
    ensures ok ==> old(Eligible(dir.disk, recorded, approved)) && recorded == t.baseline
    ensures ok ==> dir.disk.At(Owner, RollbackCopy) == old(dir.disk.At(Owner, RollbackCopy))
    ensures !old(Eligible(dir.disk, recorded, approved)) ==> dir.disk == old(dir.disk)
    ensures dir.faults >= old(dir.faults)
    ensures !ok && old(Eligible(dir.disk, recorded, approved) && TokenIsFresh(dir.disk)) ==>
              dir.faults > old(dir.faults)
  {
    ok, p := false, 0;
    if dir.disk.At(Owner, Pending).Some? || dir.disk.At(Owner, Complete).Some? { return; }
    if dir.disk.At(Stage, Marker).None? || recorded != dir.disk.At(Owner, Auth) { return; }
    if recorded.Some? && !approved { return; }
    if dir.disk.At(Stage, Auth).None? { return; }
    var candidate := dir.disk.files[dir.disk.At(Stage, Auth).value].content;
    ok, p := PrepareFiles(dir, recorded, candidate, t);
  }

  /** The recovery copy, the file to publish and the pending marker; then the stage is spent. */
  method PrepareFiles(dir: CredentialDir, recorded: Option<Ino>, candidate: Content, ghost t: Txn)
    returns (ok: bool, p: Ino)
    requires Ready(dir.disk, t) && t.candidate == Some(candidate) && recorded == t.baseline
    requires dir.disk.At(Owner, Pending) == None && dir.disk.At(Stage, Marker).Some?
    modifies dir
    ensures Ready(dir.disk, t) && SoundVisits(old(dir.visited), dir.visited, t)
    ensures ok ==> Armed(dir.disk, t, p) && Spent(dir.disk) && p !in old(dir.disk.files)
    ensures ok ==> dir.disk.At(Owner, RollbackCopy) == old(dir.disk.At(Owner, RollbackCopy))
    ensures dir.faults >= old(dir.faults)
    ensures !ok && old(TokenIsFresh(dir.disk)) ==> dir.faults > old(dir.faults)
  {
    p := 0;
    ok := SyncStage(dir, t);
    if !ok { return; }
    ok, p := CopyAndArm(dir, recorded, candidate, t);
    if !ok { return; }
    ok := SpendStage(dir, p, t);
  }

  method SyncStage(dir: CredentialDir, ghost t: Txn) returns (ok: bool)
    requires Ready(dir.disk, t)
    modifies dir
    ensures Ready(dir.disk, t) && SoundVisits(old(dir.visited), dir.visited, t)
    ensures dir.faults == old(dir.faults) + if ok then 0 else 1
    ensures TokenIsFresh(dir.disk) == old(TokenIsFresh(dir.disk)) && dir.disk.files == old(dir.disk.files)
    ensures dir.disk.At(Owner, Pending) == old(dir.disk.At(Owner, Pending))
    ensures dir.disk.At(Stage, Marker) == old(dir.disk.At(Stage, Marker))
    ensures dir.disk.At(Owner, RollbackCopy) == old(dir.disk.At(Owner, RollbackCopy))
  {
    ghost var d := dir.disk;
    ok := SyncReady(dir, Stage, t);
    assert dir.disk.At(Recovery, Auth) == d.At(Recovery, Auth)
           && dir.disk.At(Owner, Temporary) == d.At(Owner, Temporary);
  }

  method CopyAndArm(dir: CredentialDir, recorded: Option<Ino>, candidate: Content, ghost t: Txn)
    returns (ok: bool, p: Ino)
    requires Ready(dir.disk, t) && t.candidate == Some(candidate) && recorded == t.baseline
    requires dir.disk.At(Owner, Pending) == None
    modifies dir
    ensures Ready(dir.disk, t) && SoundVisits(old(dir.visited), dir.visited, t)
    ensures dir.disk.At(Stage, Marker) == old(dir.disk.At(Stage, Marker))
    ensures dir.disk.At(Owner, RollbackCopy) == old(dir.disk.At(Owner, RollbackCopy))
    ensures ok ==> Armed(dir.disk, t, p) && p !in old(dir.disk.files)
    ensures dir.faults >= old(dir.faults)
    ensures !ok && old(TokenIsFresh(dir.disk)) ==> dir.faults > old(dir.faults)
  {
    ghost var d0 := dir.disk;
    if recorded.Some? {
      ok := WriteRecovery(dir, recorded.value, t);
      p := 0;
      if !ok { return; }
    }
    assert dir.disk.At(Owner, Temporary) == d0.At(Owner, Temporary) && dir.disk.At(Owner, Pending) == None;
    ok, p := Arm(dir, candidate, t);
  }

  /** The stage's marker is renamed, durably, before anything is committed. */
  method SpendStage(dir: CredentialDir, p: Ino, ghost t: Txn) returns (ok: bool)
    requires Armed(dir.disk, t, p)
    modifies dir
    ensures Ready(dir.disk, t) && SoundVisits(old(dir.visited), dir.visited, t)
    ensures ok ==> Armed(dir.disk, t, p) && Spent(dir.disk)
    ensures dir.disk.At(Owner, RollbackCopy) == old(dir.disk.At(Owner, RollbackCopy))
    ensures dir.faults >= old(dir.faults)
    ensures !ok && old(dir.disk.At(Stage, Marker)).Some? ==> dir.faults > old(dir.faults)
  {
    ghost var d1 := dir.disk;
    ReadyIsSound(d1, t);
    ok := dir.Replace(Stage, Marker, Used);
    if !ok { return; }
    ghost var d2 := dir.disk;
    StageWriteKeepsArmed(d1, d2, t, p, Op(map[Used := d1.At(Stage, Marker).value], {Marker}));
    ok := SyncReady(dir, Stage, t);
    if ok { StageFlushKeepsArmed(d2, dir.disk, t, p); }
  }

  lemma StageWriteKeepsArmed(d: Disk, d': Disk, t: Txn, p: Ino, op: Op)
    requires Armed(d, t, p) && Wrote(d, d', Stage, op) && d'.files == d.files
    ensures Armed(d', t, p) && Sound(d', t)
  {
  }

  lemma StageFlushKeepsArmed(d: Disk, d': Disk, t: Txn, p: Ino)
    requires Armed(d, t, p) && Flushed(d, d', Stage) && d.At(Stage, Marker) == None
    ensures Armed(d', t, p) && Spent(d')
  {
  }

  /** What the next caller sees: the canonical file, the guard, and whether a stage is live. */
  datatype Face = Face(canonical: Option<Ino>, open: bool, live: bool)

  function FaceOf(d: Disk): Face
    requires d.Mounted()
  {
    Face(d.At(Owner, Auth), GuardOpen(d), d.At(Stage, Marker).Some?)
  }

  /** What a publication of the stage that recorded `recorded` does to the face. */
  predicate Publishes(out: Outcome, recorded: Option<Ino>, f: Face, f': Face, p: Ino, used: set<Ino>) {
    match out
    case Refused => f'.canonical == f.canonical && (f'.open ==> f.open) && (f'.live ==> f.live)
    case _ =>
      && recorded == f.canonical && f.open && f.live && !f'.live
      && (f'.open <==> out in {Unconfirmed, Published})
      && (out in {Uncleaned, Unconfirmed, Published} ==> f'.canonical == Some(p) && p !in used)
  }

  /** What a logout does; it needs the stage but does not spend it. */
  predicate LogsOut(out: Outcome, recorded: Option<Ino>, f: Face, f': Face) {
    match out
    case Refused => f'.canonical == f.canonical && (f'.open ==> f.open)
    case _ =>
      && recorded == f.canonical && recorded.Some? && f.open && out != RolledBack
      && (f'.open <==> out in {Unconfirmed, Published})
      && (out in {Uncleaned, Unconfirmed, Published} ==> f'.canonical == None)
  }

  ghost predicate SafeVisits(before: set<Disk>, after: set<Disk>, t: Txn) {
    forall d | d in after && d !in before :: CrashSafe(d, t)
  }

  lemma SoundVisitsAreSafe(before: set<Disk>, after: set<Disk>, t: Txn)
    requires SoundVisits(before, after, t)
    ensures SafeVisits(before, after, t)
  {
    forall d | d in after && d !in before
      ensures CrashSafe(d, t)
    {
      SoundIsCrashSafe(d, t);
    }
  }

  /** A new file `p` with the staged bytes is the canonical credential, on the disk; the stage and
      the markers are gone; what was there before is in recovery. */
  predicate Replaced(d: Disk, d': Disk, p: Ino)
    requires d.Mounted() && d'.Mounted()
  {
    && p !in d.files && d'.At(Owner, Auth) == Some(p)
    && d.At(Stage, Auth).Some? && d.At(Stage, Auth).value in d.files
    && p in d'.files && d'.files[p] == File(d.files[d.At(Stage, Auth).value].content, true)
    && d'.At(Owner, Pending).None? && d'.At(Owner, Complete).None? && d'.At(Stage, Marker).None?
    && Recovered(d, d')
  }

  /** What the canonical name held is in recovery, on the disk. */
  predicate Recovered(d: Disk, d': Disk)
    requires d.Mounted() && d'.Mounted()
  {
    d.At(Owner, Auth).Some? && d.At(Owner, Auth).value in d.files ==>
      && d'.At(Owner, RecoveryEntry).Some? && d'.At(RecoveryRoot, TokenEntry).Some? && d'.At(Recovery, Auth).Some?
      && d'.At(Recovery, Auth).value in d'.files
      && d'.files[d'.At(Recovery, Auth).value] == File(d.files[d.At(Owner, Auth).value].content, true)
  }

  /** Commit, and clear the markers of a commit that went through. */
  method CommitAndClear(dir: CredentialDir, replacing: bool, p: Ino, ghost t: Txn) returns (out: Outcome)
    requires Armed(dir.disk, t, p) && t.candidate.Some? && Spent(dir.disk) && replacing == t.baseline.Some?
    modifies dir
    ensures SoundVisits(old(dir.visited), dir.visited, t)
    ensures dir.disk.Wf() && Spent(dir.disk)
    ensures out == Refused ==> Ready(dir.disk, t) && StaysClosed(dir.disk)
    ensures out == RolledBack ==> dir.disk.Fixed(Owner, Auth) && OldBytes(dir.disk, t, dir.disk.At(Owner, Auth))
    ensures out in {RolledBack, RollbackFailed, Uncleaned} ==> StaysClosed(dir.disk)
    ensures out in {Uncleaned, Unconfirmed, Published} ==> Landed(dir.disk, t, Some(p))
    ensures out in {Unconfirmed, Published} ==> GuardOpen(dir.disk)
    ensures dir.faults >= old(dir.faults) && (out != Published ==> dir.faults > old(dir.faults))
    ensures out == RollbackFailed && old(dir.disk.At(Owner, RollbackCopy)) == None ==> dir.faults > old(dir.faults) + 1
  {
    out := Commit(dir, replacing, p, t);
    if out == Published {
      var ok := Clear(dir, Some(p), t);
      var unreadable: bool := *;
      if ok && unreadable { dir.faults := dir.faults + 1; }
      out := if !ok then Uncleaned else if unreadable then Unconfirmed else Published;
    } else {
      PendingKeepsClosed(dir.disk, t);
    }
  }

  /** Every state passed through survives a crash, and every way out is accounted for.  An
      eligible stage is published unless something fails, and one failure never leaves a
      commit standing that was meant to be undone. */
  method Publish(dir: CredentialDir, recorded: Option<Ino>, approved: bool, ghost t: Txn)
    returns (out: Outcome, p: Ino)
    requires Ready(dir.disk, t) && StageOf(dir.disk, t)
    modifies dir
    ensures SafeVisits(old(dir.visited), dir.visited, t) && dir.disk.Wf()
    ensures out == Refused ==> Ready(dir.disk, t)
    ensures out != Refused ==> old(Eligible(dir.disk, recorded, approved)) && Spent(dir.disk)
    ensures out == RolledBack ==> dir.disk.Fixed(Owner, Auth) && OldBytes(dir.disk, t, dir.disk.At(Owner, Auth))
    ensures out in {RolledBack, RollbackFailed, Uncleaned} ==> StaysClosed(dir.disk)
    ensures out in {Uncleaned, Unconfirmed, Published} ==> Landed(dir.disk, t, Some(p))
    ensures Publishes(out, recorded, old(FaceOf(dir.disk)), FaceOf(dir.disk), p, old(dir.disk.files.Keys))
    ensures old(Eligible(dir.disk, recorded, approved) && TokenIsFresh(dir.disk)) && out != Published ==>
              dir.faults > old(dir.faults) + if out == RollbackFailed then 1 else 0
    // the same in terms of the names and files alone: every ground for a refusal,
    ensures var d := old(dir.disk);
            (|| d.At(Owner, Pending).Some? || d.At(Owner, Complete).Some? || d.At(Stage, Marker).None?
             || d.At(Stage, Auth).None? || recorded != d.At(Owner, Auth) || (recorded.Some? && !approved)) ==>
              out == Refused && dir.disk == d
    // that there is no other,
    ensures var d := old(dir.disk);
            && d.At(Owner, Pending).None? && d.At(Owner, Complete).None? && d.At(Stage, Marker).Some?
            && d.At(Stage, Auth).Some? && recorded == d.At(Owner, Auth) && (recorded.Some? ==> approved)
            && d.At(Recovery, Auth).None? && d.At(Owner, Temporary).None? && d.At(Owner, RollbackCopy).None?
            && dir.faults == old(dir.faults) ==>
              out == Published
    // and what is published
    ensures out == Published ==> Replaced(old(dir.disk), dir.disk, p)
    ensures out == Refused ==>
              && dir.disk.At(Owner, Auth) == old(dir.disk.At(Owner, Auth))
              && (recorded.Some? && recorded == dir.disk.At(Owner, Auth) && recorded.value in old(dir.disk.files) ==>
                    recorded.value in dir.disk.files
                    && dir.disk.files[recorded.value].content == old(dir.disk.files)[recorded.value].content)
  {
    var ok;
    ok, p := Prepare(dir, recorded, approved, t);
    out := Refused;
    if ok { out := CommitAndClear(dir, recorded.Some?, p, t); }
    SoundVisitsAreSafe(old(dir.visited), dir.visited, t);
  }

  // ---------------------------------------------------------------- logout

  /** A logout may proceed: nothing unfinished, its stage up to date and without a credential,
      and somebody logged in. */
  predicate MayLogOut(d: Disk, recorded: Option<Ino>)
    requires d.Mounted()
  {
    && GuardOpen(d) && d.At(Stage, Marker).Some? && d.At(Stage, Auth).None?
    && recorded == d.At(Owner, Auth) && recorded.Some?
  }

  /** Removing the canonical credential follows the same protocol, without a rollback. */
  method Logout(dir: CredentialDir, recorded: Option<Ino>, ghost t: Txn) returns (out: Outcome)
    requires Ready(dir.disk, t) && t.candidate == None
    modifies dir
    ensures SafeVisits(old(dir.visited), dir.visited, t)
    ensures out in {Refused, RollbackFailed, Uncleaned, Unconfirmed, Published}
    ensures out == Refused ==> Ready(dir.disk, t)
    ensures out in {RollbackFailed, Uncleaned} ==> StaysClosed(dir.disk)
    ensures out in {Uncleaned, Unconfirmed, Published} ==> Landed(dir.disk, t, None)
    ensures dir.disk.Wf() && LogsOut(out, recorded, old(FaceOf(dir.disk)), FaceOf(dir.disk))
    ensures out != Refused ==> old(MayLogOut(dir.disk, recorded))
    ensures old(MayLogOut(dir.disk, recorded) && dir.disk.At(Recovery, Auth) == None) && out != Published ==>
              dir.faults > old(dir.faults)
    // the same in terms of the names and files alone
    ensures var d := old(dir.disk);
            (|| d.At(Owner, Pending).Some? || d.At(Owner, Complete).Some? || d.At(Stage, Marker).None?
             || d.At(Stage, Auth).Some? || recorded.None? || recorded != d.At(Owner, Auth)) ==>
              out == Refused && dir.disk == d
    ensures var d := old(dir.disk);
            && d.At(Owner, Pending).None? && d.At(Owner, Complete).None? && d.At(Stage, Marker).Some?
            && d.At(Stage, Auth).None? && recorded.Some? && recorded == d.At(Owner, Auth)
            && d.At(Recovery, Auth).None? && dir.faults == old(dir.faults) ==>
              out == Published
    ensures out == Published ==>
              && dir.disk.At(Owner, Auth).None? && dir.disk.At(Owner, Pending).None?
                 && dir.disk.At(Owner, Complete).None?
              && Recovered(old(dir.disk), dir.disk)
    ensures out == Refused ==> dir.disk.At(Owner, Auth) == old(dir.disk.At(Owner, Auth))
  {
    out := RemoveCanonical(dir, recorded, t);
    if out == Published {
      var ok := Clear(dir, None, t);
      if !ok {
        out := Uncleaned;
      } else {
        ghost var d := dir.disk;
        LandedIsSound(d, t, None);
        ok := dir.Sync(Owner);
        if ok {
          LandedFlush(d, dir.disk, t, None);
          assert dir.disk.At(Owner, Pending) == d.At(Owner, Pending);
          assert dir.disk.At(Owner, Complete) == d.At(Owner, Complete);
        } else {
          out := Unconfirmed;
        }
      }
    }
    SoundVisitsAreSafe(old(dir.visited), dir.visited, t);
  }

  method RemoveCanonical(dir: CredentialDir, recorded: Option<Ino>, ghost t: Txn) returns (out: Outcome)
    requires Ready(dir.disk, t) && t.candidate == None
    modifies dir
    ensures SoundVisits(old(dir.visited), dir.visited, t)
    ensures out in {Refused, RollbackFailed, Published}
    ensures out == Refused ==> Ready(dir.disk, t)
    ensures !old(MayLogOut(dir.disk, recorded)) ==> dir.disk == old(dir.disk)
    ensures out != Refused ==> old(MayLogOut(dir.disk, recorded))
    ensures out == RollbackFailed ==> StaysClosed(dir.disk)
    ensures out == Published ==>
              Landed(dir.disk, t, None) && dir.disk.dirs[Owner].log == [] && dir.disk.At(Owner, Pending).Some?
    ensures dir.faults >= old(dir.faults)
    ensures old(MayLogOut(dir.disk, recorded) && dir.disk.At(Recovery, Auth) == None) && out != Published ==>
              dir.faults > old(dir.faults)
  {
    if dir.disk.At(Owner, Pending).Some? || dir.disk.At(Owner, Complete).Some? { return Refused; }
    if dir.disk.At(Stage, Marker).None? || recorded != dir.disk.At(Owner, Auth) { return Refused; }
    if dir.disk.At(Stage, Auth).Some? || recorded.None? { return Refused; }
    var ok := WriteRecovery(dir, recorded.value, t);
    if !ok { return Refused; }
    ok := WritePending(dir, t);
    if !ok { return Refused; }
    out := UnlinkCanonical(dir, t);
  }

  method UnlinkCanonical(dir: CredentialDir, ghost t: Txn) returns (out: Outcome)
    requires Guarded(dir.disk, t) && t.candidate == None && t.baseline.Some?
    modifies dir
    ensures SoundVisits(old(dir.visited), dir.visited, t)
    ensures out in {Refused, RollbackFailed, Published}
    ensures out == Refused ==> Ready(dir.disk, t)
    ensures out == RollbackFailed ==> StaysClosed(dir.disk)
    ensures out == Published ==>
              Landed(dir.disk, t, None) && dir.disk.dirs[Owner].log == [] && dir.disk.At(Owner, Pending).Some?
    ensures dir.faults >= old(dir.faults) && (out != Published ==> dir.faults > old(dir.faults))
  {
    var ok;
    ghost var d0 := dir.disk;
    GuardedIsCommitting(d0, t);
    ok := dir.Unlink(Owner, Auth);
    if !ok { return Refused; }
    ghost var d1 := dir.disk;
    CommittingWrite(d0, d1, t, Op(map[], {Auth}));
    assert d1.At(Owner, Auth) == None;
    ok := dir.Sync(Owner);
    if !ok {
      PendingKeepsClosed(d1, t);
      return RollbackFailed;
    }
    CommittingFlush(d1, dir.disk, t);
    return Published;
  }
}
