/** An upgrade among all the runtimes of a vendor in one project: which of them may be the owner,
    and what the others see of it. */
module RuntimeViews {
  import opened Options
  import opened Paths
  import opened Migration

  /** The runtimes with materialized state. */
  function Owners(views: seq<Tree>, manifest: seq<Entry>): set<nat> {
    set i: nat | i < |views| && Owned(views[i], manifest) != []
  }

  predicate AllAcceptable(views: seq<Tree>, manifest: seq<Entry>) {
    forall v, e | v in views && e in manifest :: Acceptable(v, e)
  }

  /** What is asked for: which runtime has to be the owner, if one is named, and whether nobody
      is using that one, or any. */
  datatype Wish = Wish(candidate: Option<nat>, candidateQuiet: bool, allQuiet: bool)

  /** What upgrading a project comes to when nothing fails. */
  function ExpectedOf(views: seq<Tree>, canonical: Tree, manifest: seq<Entry>, wish: Wish): Outcome {
    var owners := Owners(views, manifest);
    if !AllAcceptable(views, manifest) then Raised
    else if wish.candidate.Some? && wish.candidate.value >= |views| then NothingToDo
    else if wish.candidate.Some? && !wish.candidateQuiet then Raised
    else if wish.candidate.Some? && wish.candidate.value !in owners then NothingToDo
    else if owners == {} then NothingToDo
    else if !wish.allQuiet || exists i, k | i in owners && k in owners :: i != k then Raised
    else
      var owner :| owner in owners;
      Expected(Job(views[owner], canonical, Owned(views[owner], manifest), canonical), manifest)
  }

  // ---------------------------------------------------------------- the same in terms of the trees

  predicate HasState(t: Tree, manifest: seq<Entry>) { exists e | e in manifest :: Present(t, e) }

  ghost predicate AllFit(views: seq<Tree>, manifest: seq<Entry>) {
    forall v, e | v in views && e in manifest :: Fits(v, e)
  }

  lemma StateIsOwned(t: Tree, manifest: seq<Entry>)
    requires forall e | e in manifest :: Fits(t, e)
    ensures Owned(t, manifest) != [] <==> HasState(t, manifest)
  {
    OwnedIsPresent(t, manifest);
    assert Owned(t, manifest) == [] || Owned(t, manifest)[0] in Owned(t, manifest);
  }

  lemma OwnersHaveState(views: seq<Tree>, manifest: seq<Entry>)
    ensures AllAcceptable(views, manifest) <==> AllFit(views, manifest)
    ensures AllFit(views, manifest) ==>
              forall i: nat | i < |views| :: i in Owners(views, manifest) <==> HasState(views[i], manifest)
  {
    forall v, e | v in views && e in manifest
      ensures Acceptable(v, e) <==> Fits(v, e)
    {
      FitsIff(v, e);
    }
    if AllFit(views, manifest) {
      forall i: nat | i < |views|
        ensures i in Owners(views, manifest) <==> HasState(views[i], manifest)
      {
        assert views[i] in views;
        StateIsOwned(views[i], manifest);
      }
    }
  }

  /** No other runtime has state of its own. */
  predicate Sole(views: seq<Tree>, manifest: seq<Entry>, owner: nat) {
    owner < |views| && forall i: nat | i < |views| :: HasState(views[i], manifest) <==> i == owner
  }

  /** The call is about nothing: the runtime named is not there or has no state, or none has. */
  predicate Idle(views: seq<Tree>, manifest: seq<Entry>, wish: Wish) {
    if wish.candidate.Some?
    then wish.candidate.value >= |views| || (wish.candidateQuiet && !HasState(views[wish.candidate.value], manifest))
    else forall v | v in views :: !HasState(v, manifest)
  }

  /** One runtime alone has state, nobody uses any, and nothing is in the way. */
  ghost predicate Ready(views: seq<Tree>, canonical: Tree, manifest: seq<Entry>, wish: Wish, owner: nat) {
    && Sole(views, manifest, owner) && wish.allQuiet && wish.candidate in {None, Some(owner)}
    && (wish.candidate.Some? ==> wish.candidateQuiet) && !Hindered(views[owner], canonical, manifest)
  }

  lemma SoleIsOwner(views: seq<Tree>, manifest: seq<Entry>, i: nat)
    requires forall k: nat | k < |views| :: k in Owners(views, manifest) <==> HasState(views[k], manifest)
    ensures Sole(views, manifest, i) <==> Owners(views, manifest) == {i}
  {
    if Sole(views, manifest, i) {
      forall k
        ensures k in Owners(views, manifest) <==> k == i
      {
      }
    }
  }

  lemma WholeJobMeans(views: seq<Tree>, canonical: Tree, manifest: seq<Entry>, i: nat)
    requires AllFit(views, manifest) && i < |views|
    ensures var j := Job(views[i], canonical, Owned(views[i], manifest), canonical);
            && (Expected(j, manifest) == Raised <==> Hindered(views[i], canonical, manifest))
            && (Expected(j, manifest) == NothingToDo <==> i !in Owners(views, manifest))
  {
    assert views[i] in views;
    StateIsOwned(views[i], manifest);
    ExpectedMeans(Job(views[i], canonical, Owned(views[i], manifest), canonical), manifest);
  }

  lemma NoneHasState(views: seq<Tree>, manifest: seq<Entry>)
    requires AllFit(views, manifest)
    ensures Owners(views, manifest) == {} <==> forall v | v in views :: !HasState(v, manifest)
  {
    OwnersHaveState(views, manifest);
    if v :| v in views && HasState(v, manifest) {
      var i: nat :| i < |views| && views[i] == v;
      assert i in Owners(views, manifest);
    }
  }

  /** Exactly when the outcome is which, if nothing fails. */
  lemma ExpectedOfMeans(views: seq<Tree>, canonical: Tree, manifest: seq<Entry>, wish: Wish)
    ensures ExpectedOf(views, canonical, manifest, wish) == NothingToDo <==>
              AllFit(views, manifest) && Idle(views, manifest, wish)
    ensures ExpectedOf(views, canonical, manifest, wish) == Migrated <==>
              AllFit(views, manifest) && exists i :: Ready(views, canonical, manifest, wish, i)
  {
    OwnersHaveState(views, manifest);
    if AllFit(views, manifest) {
      NoneHasState(views, manifest);
      if i: nat :| Sole(views, manifest, i) {
        SoleIsOwner(views, manifest, i);
        WholeJobMeans(views, canonical, manifest, i);
        SoleDecides(views, canonical, manifest, wish, i);
      } else {
        NoSoleNoUpgrade(views, canonical, manifest, wish);
      }
    }
  }

  lemma SoleDecides(views: seq<Tree>, canonical: Tree, manifest: seq<Entry>, wish: Wish, owner: nat)
    requires AllAcceptable(views, manifest) && Sole(views, manifest, owner) && Owners(views, manifest) == {owner}
    requires Owned(views[owner], manifest) != []
    requires Expected(Job(views[owner], canonical, Owned(views[owner], manifest), canonical), manifest) == Raised
             <==> Hindered(views[owner], canonical, manifest)
    ensures ExpectedOf(views, canonical, manifest, wish) == NothingToDo <==> Idle(views, manifest, wish)
    ensures ExpectedOf(views, canonical, manifest, wish) == Migrated <==>
              Ready(views, canonical, manifest, wish, owner)
    ensures ExpectedOf(views, canonical, manifest, wish) == Migrated <==>
              exists i :: Ready(views, canonical, manifest, wish, i)
  {
    assert HasState(views[owner], manifest);
    assert forall i | i in Owners(views, manifest) :: i == owner;
    assert forall i :: Ready(views, canonical, manifest, wish, i) ==> i == owner;
    if wish.candidate.Some? && wish.candidate.value < |views| {
      assert HasState(views[wish.candidate.value], manifest) <==> wish.candidate.value == owner;
    }
  }

  lemma NoSoleNoUpgrade(views: seq<Tree>, canonical: Tree, manifest: seq<Entry>, wish: Wish)
    requires AllFit(views, manifest) && forall i: nat :: !Sole(views, manifest, i)
    ensures ExpectedOf(views, canonical, manifest, wish) == NothingToDo <==> Idle(views, manifest, wish)
    ensures ExpectedOf(views, canonical, manifest, wish) != Migrated
  {
    OwnersHaveState(views, manifest);
    NoneHasState(views, manifest);
    var owners := Owners(views, manifest);
    if i: nat :| i in owners {
      SoleIsOwner(views, manifest, i);
      assert exists k :: k in owners && k != i;
      var k :| k in owners && k != i;
    }
  }

  /** Every runtime is looked through before anything is decided. */
  method FindOwners(views: seq<Tree>, manifest: seq<Entry>) returns (owners: Option<seq<nat>>)
    ensures owners.Some? <==> AllAcceptable(views, manifest)
    ensures owners.Some? ==> Owners(views, manifest) == set i | i in owners.value
    ensures owners.Some? ==> forall a, b | 0 <= a < b < |owners.value| :: owners.value[a] != owners.value[b]
    ensures owners.Some? <==> AllFit(views, manifest)
    ensures owners.Some? ==> forall i | 0 <= i < |views| :: i in owners.value <==> HasState(views[i], manifest)
  {
    OwnersHaveState(views, manifest);
    var found: seq<nat> := [];
    for i := 0 to |views|
      invariant AllAcceptable(views[..i], manifest)
      invariant forall k: nat :: k in found <==> k < i && Owned(views[k], manifest) != []
      invariant forall a, b | 0 <= a < b < |found| :: found[a] != found[b]
    {
      var entries := Materialized(views[i], manifest);
      if entries.None? {
        assert views[i] in views;
        return None;
      }
      assert views[..i + 1] == views[..i] + [views[i]];
      if entries.value != [] { found := found + [i]; }
    }
    assert views[..|views|] == views;
    return Some(found);
  }

  /** The same against what is expected of it. */
  method RunProject(views: seq<Tree>, canonical: Tree, manifest: seq<Entry>, wish: Wish)
    returns (out: Outcome, views': seq<Tree>, canonical': Tree,
             ghost owner: nat, ghost d: Disk, ghost j: Job, ghost faults: nat)
    requires PrefixFree(PathsOf(manifest)) && Rooted(canonical) && forall v | v in views :: Rooted(v)
    ensures out in {NothingToDo, Raised} ==> views' == views && canonical' == canonical
    ensures out == NothingToDo ==> AllAcceptable(views, manifest)
    ensures out == Migrated ==>
              && owner < |views| && Owners(views, manifest) == {owner} && AllAcceptable(views, manifest)
              && j.runtime == views[owner] && j.canonical == canonical && Succeeded(d, j, manifest)
              && views' == views[owner := d.runtime] && canonical' == d.canonical
    ensures out == Migrated ==>
              wish.allQuiet && (wish.candidate.Some? ==> wish.candidateQuiet && wish.candidate.value == owner)
    ensures faults == 0 ==> out == ExpectedOf(views, canonical, manifest, wish)
    ensures faults == 0 && out == Migrated ==> j.copied == canonical
  {
    views', canonical', owner, faults := views, canonical, 0, 0;
    d, j := Disk(map[], map[], None, None), Job(map[], map[], [], map[]);
    var found := FindOwners(views, manifest);
    if found.None? { return Raised, views', canonical', owner, d, j, faults; }
    var owners := found.value;
    if wish.candidate.Some? {
      if wish.candidate.value >= |views| { return NothingToDo, views', canonical', owner, d, j, faults; }
      if !wish.candidateQuiet { return Raised, views', canonical', owner, d, j, faults; }
      if wish.candidate.value !in owners { return NothingToDo, views', canonical', owner, d, j, faults; }
    }
    if owners == [] { return NothingToDo, views', canonical', owner, d, j, faults; }
    if |owners| > 1 {
      assert owners[0] in Owners(views, manifest) && owners[1] in Owners(views, manifest) && owners[0] != owners[1];
      return Raised, views', canonical', owner, d, j, faults;
    }
    assert owners[0] in owners && Owners(views, manifest) == {owners[0]};
    if !wish.allQuiet { return Raised, views', canonical', owner, d, j, faults; }
    owner := owners[0];
    var m := new Machine(Disk(views[owners[0]], canonical, None, None));
    out, j := RunUpgrade(m, manifest);
    views', canonical', d, faults := views[owners[0] := m.disk.runtime], m.disk.canonical, m.disk, m.faults;
    assert views[owners[0] := views[owners[0]]] == views;
  }

  /** All runtimes of a vendor in one project.  Only one with state of its own can be upgraded,
      and no other is written to. */
  method UpgradeProject(views: seq<Tree>, canonical: Tree, manifest: seq<Entry>, wish: Wish)
    returns (out: Outcome, views': seq<Tree>, canonical': Tree,
             ghost owner: nat, ghost d: Disk, ghost j: Job, ghost faults: nat)
    requires PrefixFree(PathsOf(manifest)) && Rooted(canonical) && forall v | v in views :: Rooted(v)
    ensures out in {NothingToDo, Raised} ==> views' == views && canonical' == canonical
    ensures out == NothingToDo ==> AllAcceptable(views, manifest)
    ensures out == Migrated ==>
              && owner < |views| && Owners(views, manifest) == {owner} && AllAcceptable(views, manifest)
              && j.runtime == views[owner] && j.canonical == canonical && Succeeded(d, j, manifest)
              && views' == views[owner := d.runtime] && canonical' == d.canonical
    ensures out == Migrated ==>
              wish.allQuiet && (wish.candidate.Some? ==> wish.candidateQuiet && wish.candidate.value == owner)
    ensures faults == 0 ==> out == ExpectedOf(views, canonical, manifest, wish)
    ensures faults == 0 && out == Migrated ==> j.copied == canonical
    // the same in terms of the trees alone
    ensures out in {NothingToDo, Migrated} ==> AllFit(views, manifest)
    ensures out == Migrated ==> Sole(views, manifest, owner)
    ensures out == Migrated ==> Moved(d, views[owner], canonical, j.copied, manifest)
    ensures faults == 0 ==>
              && (out == NothingToDo <==> AllFit(views, manifest) && Idle(views, manifest, wish))
              && (out == Migrated <==> AllFit(views, manifest)
                                       && exists i :: Ready(views, canonical, manifest, wish, i))
  {
    out, views', canonical', owner, d, j, faults := RunProject(views, canonical, manifest, wish);
    ExpectedOfMeans(views, canonical, manifest, wish);
    OwnersHaveState(views, manifest);
    if out == Migrated {
      SoleIsOwner(views, manifest, owner);
      OwnedIsGood(j, manifest);
      DoneMeans(d, j, manifest);
    }
  }

  // ---------------------------------------------------------------- what users see

  /** Through one runtime every read of manifest state shows what it showed before. */
  ghost predicate SameReads(v: Tree, v': Tree, canonical: Tree, canonical': Tree, manifest: seq<Entry>) {
    forall e, p {:trigger Read(v', canonical', e.path, p)} | e in manifest && Under(e.path, p) ::
      Read(v', canonical', e.path, p) == Read(v, canonical, e.path, p)
  }

  /** The runtime links none of the entries that were moved. */
  predicate LinksNone(v: Tree, manifest: seq<Entry>, moved: seq<Path>) {
    forall e | e in manifest && Links(v, e.path) :: e.path !in moved
  }

  /** A whole upgrade of the owner's runtime. */
  ghost predicate Whole(d: Disk, j: Job, manifest: seq<Entry>) {
    Rooted(j.runtime) && PrefixFree(PathsOf(manifest)) && Succeeded(d, j, manifest) && j.copied == j.canonical
  }

  lemma OwnerSameReads(d: Disk, j: Job, manifest: seq<Entry>)
    requires Whole(d, j, manifest)
    ensures SameReads(j.runtime, d.runtime, j.canonical, d.canonical, manifest)
  {
    forall e, p {:trigger Read(d.runtime, d.canonical, e.path, p)} | e in manifest && Under(e.path, p)
      ensures Read(d.runtime, d.canonical, e.path, p) == Read(j.runtime, j.canonical, e.path, p)
    {
      ReadsUnchanged(d, j, manifest, e, p);
    }
  }

  /** The other runtimes keep theirs exactly if they link none of the owner's entries: a link
      to where canonical state had nothing shows the owner's from now on. */
  lemma OtherSameReadsIff(v: Tree, d: Disk, j: Job, manifest: seq<Entry>)
    requires Whole(d, j, manifest) && forall e | e in manifest :: Acceptable(v, e)
    ensures SameReads(v, v, j.canonical, d.canonical, manifest) <==> LinksNone(v, manifest, j.entries)
  {
    if LinksNone(v, manifest, j.entries) {
      forall e, p {:trigger Read(v, d.canonical, e.path, p)} | e in manifest && Under(e.path, p)
        ensures Read(v, d.canonical, e.path, p) == Read(v, j.canonical, e.path, p)
      {
        ViewReadsIff(v, d, j, manifest, e, p);
      }
    } else {
      var e :| e in manifest && Links(v, e.path) && e.path in j.entries;
      ViewReadsIff(v, d, j, manifest, e, e.path);
      OwnedHolds(j.runtime, manifest, e.path);
      assert Read(v, d.canonical, e.path, e.path) != Read(v, j.canonical, e.path, e.path);
    }
  }

  /** After a whole upgrade no read of manifest state has changed, through any runtime, if and
      only if no other runtime links an entry that the owner had. */
  lemma NoReadChangesIff(views: seq<Tree>, owner: nat, d: Disk, j: Job, manifest: seq<Entry>)
    requires owner < |views| && j.runtime == views[owner] && Whole(d, j, manifest) && AllAcceptable(views, manifest)
    ensures var views' := views[owner := d.runtime];
            (forall i | 0 <= i < |views| :: SameReads(views[i], views'[i], j.canonical, d.canonical, manifest))
            <==> forall i | 0 <= i < |views| && i != owner :: LinksNone(views[i], manifest, j.entries)
  {
    var views' := views[owner := d.runtime];
    OwnerSameReads(d, j, manifest);
    forall i | 0 <= i < |views| && i != owner
      ensures SameReads(views[i], views'[i], j.canonical, d.canonical, manifest)
              <==> LinksNone(views[i], manifest, j.entries)
    {
      OtherSameReadsIff(views[i], d, j, manifest);
    }
  }

  lemma LoneUpgrade(e: Path, content: string) returns (d: Disk, j: Job)
    requires e != BEFORE && !Extends(BEFORE, e) && forall i | 0 <= i < |e| :: e[i] != '/'
    ensures Whole(d, j, [Entry(e, false)]) && j.entries == [e] && j.runtime == map[e := FileNode(content)]
  {
    var before;
    before, j := LoneEntry(e, FileNode(content));
    ReserveIsFreeIff(before, j);
    d := before.(stage := None, recovery := Some(Placed(before.recovery.value, Planted(j.canonical, BEFORE), BEFORE)));
    CommitIsDone(before, j, d);
    LoneOwner(j.runtime, Entry(e, false));
  }

  lemma LoneOwner(t: Tree, e: Entry)
    requires !e.directory && Ancestors(e.path) == {} && e.path in t
             && (t[e.path].FileNode? || t[e.path] == LinkNode(e.path))
    ensures Owned(t, [e]) == if Links(t, e.path) then [] else [e.path]
    ensures Acceptable(t, e) && PathsOf([e]) == [e.path]
  {
    assert [e][..0] == [];
  }

  /** Which happens: one runtime has a file, another a link to where canonical state has none.
      Before, a read through the second shows nothing; afterwards it shows the first one's. */
  lemma LinkedRuntimeGains() returns (views: seq<Tree>, d: Disk, j: Job, manifest: seq<Entry>)
    ensures |views| == 2 && manifest == [Entry("history.jsonl", false)] && AllAcceptable(views, manifest)
    ensures j.runtime == views[0] && Owned(views[1], manifest) == [] && Whole(d, j, manifest)
    ensures Read(views[1], j.canonical, "history.jsonl", "history.jsonl") == None
    ensures Read(views[1], d.canonical, "history.jsonl", "history.jsonl") == Some(FileNode("typed"))
  {
    var e := "history.jsonl";
    manifest := [Entry(e, false)];
    ExtendsAt(BEFORE, e);
    d, j := LoneUpgrade(e, "typed");
    views := [j.runtime, map[e := LinkNode(e)]];
    assert Ancestors(e) == {};
    LoneOwner(views[0], manifest[0]);
    LoneOwner(views[1], manifest[0]);
    ViewReadsIff(views[1], d, j, manifest, manifest[0], e);
  }
}
