/** Any sequence of stage, publish, logout and foreign writes: every publication is a
    compare-and-swap on the canonical version its stage was made against. */
module CredentialChain {
  import opened Options
  import opened CredentialDisk
  import opened Publication

  type Token = nat
  type Version = Option<Ino>

  /** A stage: the version it recorded, whether its marker is still live, and how many
      changes the canonical credential had seen when it was made. */
  datatype Staged = Staged(recorded: Version, live: bool, since: nat)

  /** One change of the canonical credential; `stage` is the publishing stage, if any. */
  datatype Change = Change(stage: Option<Token>, from: Version, to: Version)

  datatype Store = Store(canonical: Version, open: bool, stages: map<Token, Staged>, used: set<Ino>, log: seq<Change>)

  datatype Event =
    | MakeStage(token: Token)
    | PublishStage(token: Token, out: Outcome, p: Ino)
    | LogoutStage(token: Token, out: Outcome)
    | ForeignWrite(v: Ino)

  function Used(used: set<Ino>, v: Version): set<Ino> { if v.Some? then used + {v.value} else used }

  /** The canonical version moved from `s` to `v`; an unchanged version is no change. */
  predicate Moves(s: Store, s': Store, publisher: Option<Token>) {
    && s'.log == (if s'.canonical == s.canonical && publisher == None then s.log
                  else s.log + [Change(publisher, s.canonical, s'.canonical)])
    && s'.used == Used(s.used, s'.canonical)
  }

  ghost predicate Next(s: Store, e: Event, s': Store) {
    match e
    case MakeStage(k) =>
      && k !in s.stages && s.open
      && s' == s.(stages := s.stages[k := Staged(s.canonical, true, |s.log|)])
    case PublishStage(k, out, p) =>
      && k in s.stages && k in s'.stages
      && s'.stages == s.stages[k := s.stages[k].(live := s'.stages[k].live)]
      && Publishes(out, s.stages[k].recorded, Face(s.canonical, s.open, s.stages[k].live),
                   Face(s'.canonical, s'.open, s'.stages[k].live), p, s.used)
      && Moves(s, s', if out in {Uncleaned, Unconfirmed, Published} then Some(k) else None)
    case LogoutStage(k, out) =>
      && k in s.stages && s'.stages == s.stages
      && LogsOut(out, s.stages[k].recorded, Face(s.canonical, s.open, s.stages[k].live),
                 Face(s'.canonical, s'.open, s.stages[k].live))
      && Moves(s, s', None)
    case ForeignWrite(v) =>
      && v !in s.used && s'.canonical == Some(v) && s'.open == s.open && s'.stages == s.stages
      && Moves(s, s', None)
  }

  ghost predicate IsRun(run: seq<Store>, events: seq<Event>) {
    && |run| == |events| + 1
    && run[0].log == [] && run[0].stages == map[] && run[0].used == Used({}, run[0].canonical)
    && forall i | 0 <= i < |events| :: Next(run[i], events[i], run[i + 1])
  }

  // ---------------------------------------------------------------- what every run keeps

  /** The version in force after the first `i` changes. */
  function VersionAt(s: Store, i: nat): Version
    requires i <= |s.log|
  {
    if i == |s.log| then s.canonical else s.log[i].from
  }

  /** Every change starts from what the one before it left. */
  ghost predicate Chained(s: Store) {
    forall i | 0 <= i < |s.log| :: s.log[i].to == VersionAt(s, i + 1)
  }

  ghost predicate AllUsed(s: Store) {
    forall i | 0 <= i <= |s.log| :: VersionAt(s, i).Some? ==> VersionAt(s, i).value in s.used
  }

  ghost predicate StagesRecord(s: Store) {
    forall k | k in s.stages ::
      s.stages[k].since <= |s.log| && s.stages[k].recorded == VersionAt(s, s.stages[k].since)
  }

  /** While the guard is open no version has come back. */
  ghost predicate NeverBack(s: Store) {
    s.open ==> forall i, j | 0 <= i < j <= |s.log| :: VersionAt(s, i).Some? ==> VersionAt(s, i) != VersionAt(s, j)
  }

  /** The `i`-th change, if a stage made it: the stage is spent, and replaced the version it
      was made against. */
  ghost predicate Swapped(s: Store, i: nat)
    requires i < |s.log|
  {
    var c := s.log[i];
    c.stage.Some? ==>
      && c.stage.value in s.stages && !s.stages[c.stage.value].live
      && c.from == s.stages[c.stage.value].recorded
      && (c.from.Some? ==> s.stages[c.stage.value].since == i)
  }

  ghost predicate EachOnce(s: Store) {
    forall i, j | 0 <= i < j < |s.log| :: s.log[i].stage.Some? ==> s.log[i].stage != s.log[j].stage
  }

  ghost predicate Inv(s: Store) {
    && Chained(s) && AllUsed(s) && StagesRecord(s) && NeverBack(s) && EachOnce(s)
    && (forall i | 0 <= i < |s.log| :: Swapped(s, i))
  }

  /** What every event has in common: the past is kept, at most one change is added, and a
      change made by a stage needed that stage live and current. */
  ghost predicate Extends(s: Store, s': Store) {
    && |s.log| <= |s'.log| <= |s.log| + 1
    && (forall i | 0 <= i < |s.log| :: s'.log[i] == s.log[i])
    && (|s'.log| > |s.log| ==> s'.log[|s.log|].to == s'.canonical && s'.log[|s.log|].from == s.canonical)
    && (|s'.log| == |s.log| ==> s'.canonical == s.canonical)
    && s'.used == Used(s.used, s'.canonical)
    && (s'.open ==> s.open)
  }

  ghost predicate KeepsStages(s: Store, s': Store) {
    && (forall k | k in s.stages ::
          && k in s'.stages && s'.stages[k].since == s.stages[k].since
          && s'.stages[k].recorded == s.stages[k].recorded && (s'.stages[k].live ==> s.stages[k].live))
    && (forall k | k in s'.stages && k !in s.stages ::
          s'.stages[k].since == |s.log| == |s'.log| && s'.stages[k].recorded == s.canonical)
  }

  ghost predicate SwapsCurrent(s: Store, s': Store)
    requires Extends(s, s')
  {
    |s'.log| > |s.log| && s'.log[|s.log|].stage.Some? ==>
      var k := s'.log[|s.log|].stage.value;
      && k in s.stages && s.stages[k].live && s.stages[k].recorded == s.canonical && s.open
      && k in s'.stages && !s'.stages[k].live
  }

  /** A change that lets the guard stay open brings in a new version, or none. */
  ghost predicate BringsNew(s: Store, s': Store) {
    s'.open && |s'.log| > |s.log| ==> s'.canonical == None || s'.canonical.value !in s.used
  }

  ghost predicate Evolves(s: Store, s': Store) {
    Extends(s, s') && KeepsStages(s, s') && SwapsCurrent(s, s') && BringsNew(s, s')
  }

  lemma NextEvolves(s: Store, e: Event, s': Store)
    requires AllUsed(s) && Next(s, e, s')
    ensures Evolves(s, s')
  {
    assert VersionAt(s, |s.log|) == s.canonical;
  }

  lemma SameVersions(s: Store, s': Store, i: nat)
    requires Extends(s, s') && i <= |s.log|
    ensures VersionAt(s', i) == VersionAt(s, i)
  {
  }

  lemma EvolvesKeepsPast(s: Store, s': Store)
    requires Inv(s) && Evolves(s, s')
    ensures Chained(s') && AllUsed(s')
  {
    forall i | 0 <= i <= |s'.log|
      ensures VersionAt(s', i).Some? ==> VersionAt(s', i).value in s'.used
    {
      if i <= |s.log| { SameVersions(s, s', i); }
    }
    forall i | 0 <= i < |s'.log|
      ensures s'.log[i].to == VersionAt(s', i + 1)
    {
      if i < |s.log| { SameVersions(s, s', i + 1); }
    }
  }

  lemma EvolvesKeepsStages(s: Store, s': Store)
    requires Inv(s) && Evolves(s, s')
    ensures StagesRecord(s')
  {
  }

  lemma EvolvesNeverBack(s: Store, s': Store)
    requires Inv(s) && Evolves(s, s') && s'.open
    ensures NeverBack(s')
  {
    forall i, j | 0 <= i < j <= |s'.log| && VersionAt(s', i).Some?
      ensures VersionAt(s', i) != VersionAt(s', j)
    {
      SameVersions(s, s', i);
      if j <= |s.log| { SameVersions(s, s', j); }
    }
  }

  lemma EvolvesSwaps(s: Store, s': Store, i: nat)
    requires Inv(s) && Evolves(s, s') && i < |s'.log|
    ensures Swapped(s', i)
  {
    if i < |s.log| {
      assert Swapped(s, i);
    } else if s'.log[i].stage.Some? && s'.log[i].from.Some? {
      var since := s.stages[s'.log[i].stage.value].since;
      assert VersionAt(s, since) == s.canonical == VersionAt(s, |s.log|);
    }
  }

  lemma EvolvesOnce(s: Store, s': Store, i: nat)
    requires Extends(s, s') && SwapsCurrent(s, s') && i < |s.log| < |s'.log| && Swapped(s, i) && s.log[i].stage.Some?
    ensures s.log[i].stage != s'.log[|s.log|].stage
  {
  }

  lemma NextKeepsInv(s: Store, e: Event, s': Store)
    requires Inv(s) && Next(s, e, s')
    ensures Inv(s')
  {
    NextEvolves(s, e, s');
    EvolvesKeepsPast(s, s');
    EvolvesKeepsStages(s, s');
    if s'.open {
      EvolvesNeverBack(s, s');
    }
    forall i, j | 0 <= i < j < |s'.log| && s'.log[i].stage.Some?
      ensures s'.log[i].stage != s'.log[j].stage
    {
      if j == |s.log| { EvolvesOnce(s, s', i); }
    }
    forall i | 0 <= i < |s'.log|
      ensures Swapped(s', i)
    {
      EvolvesSwaps(s, s', i);
    }
  }

  lemma {:induction false} RunKeepsInv(run: seq<Store>, events: seq<Event>, n: nat)
    requires IsRun(run, events) && n < |run|
    ensures Inv(run[n])
  {
    if n > 0 {
      RunKeepsInv(run, events, n - 1);
      NextKeepsInv(run[n - 1], events[n - 1], run[n]);
    }
  }

  /** In every run: no change is skipped, each stage publishes at most once, and a stage made
      against an existing credential replaces exactly the version it recorded, with no change
      in between. */
  lemma PublicationsCompareAndSwap(run: seq<Store>, events: seq<Event>, n: nat)
    requires IsRun(run, events) && n < |run|
    ensures Chained(run[n])
    ensures forall i, j | 0 <= i < j < |run[n].log| :: run[n].log[i].stage.Some? ==>
              run[n].log[i].stage != run[n].log[j].stage
    ensures forall i | 0 <= i < |run[n].log| && run[n].log[i].stage.Some? ::
              var k := run[n].log[i].stage.value;
              && k in run[n].stages && run[n].log[i].from == run[n].stages[k].recorded
              && (run[n].log[i].from.Some? ==> run[n].stages[k].since == i)
  {
    RunKeepsInv(run, events, n);
    forall i | 0 <= i < |run[n].log| && run[n].log[i].stage.Some?
      ensures var k := run[n].log[i].stage.value;
              && k in run[n].stages && run[n].log[i].from == run[n].stages[k].recorded
              && (run[n].log[i].from.Some? ==> run[n].stages[k].since == i)
    {
      assert Swapped(run[n], i);
    }
  }

  /** A publication of stage `k` could do something to the credential. */
  ghost predicate CanPublish(s: Store, k: Token) {
    exists out, p, s' :: Next(s, PublishStage(k, out, p), s') && out != Refused
  }

  /** In every run a stage that changes have passed by can still publish exactly when it recorded
      absence, absence is back, the guard is open and the stage is not spent. */
  lemma StaleStagePublishesIff(run: seq<Store>, events: seq<Event>, n: nat, k: Token)
    requires IsRun(run, events) && n < |run| && k in run[n].stages
    requires run[n].stages[k].since < |run[n].log|
    ensures var s := run[n];
            CanPublish(s, k) <==> s.stages[k].recorded.None? && s.canonical.None? && s.open && s.stages[k].live
  {
    RunKeepsInv(run, events, n);
    var s := run[n];
    var stage := s.stages[k];
    assert VersionAt(s, |s.log|) == s.canonical;
    assert s.open ==> stage.recorded.Some? ==> stage.recorded != s.canonical by {
      assert s.open ==> stage.recorded.Some? ==> VersionAt(s, stage.since) != VersionAt(s, |s.log|);
    }
    if stage.recorded.None? && s.canonical.None? && s.open && stage.live {
      var p := Unused(s.used);
      var s' := Store(Some(p), true, s.stages[k := stage.(live := false)], Used(s.used, Some(p)),
                      s.log + [Change(Some(k), None, Some(p))]);
      assert Next(s, PublishStage(k, Published, p), s');
    }
  }

  /** So a stage whose version has been superseded is refused for ever. */
  lemma StaleStageIsRefused(run: seq<Store>, events: seq<Event>, n: nat, k: Token)
    requires IsRun(run, events) && n < |events|
    requires events[n].PublishStage? && events[n].token == k && k in run[n].stages
    requires run[n].stages[k].recorded.Some? && run[n].stages[k].since < |run[n].log|
    ensures events[n].out == Refused
  {
    StaleStagePublishesIff(run, events, n, k);
    assert Next(run[n], events[n], run[n + 1]);
  }

  /** That happens: a stage made when nobody was logged in can still publish after a login and
      a logout. */
  lemma AbsenceComesBack() returns (run: seq<Store>, events: seq<Event>)
    ensures IsRun(run, events) && |events| == 5
    ensures 0 in run[5].stages && run[5].stages[0].since < |run[5].log| && CanPublish(run[5], 0)
  {
    var early, spent := Staged(None, true, 0), Staged(None, false, 0);
    var late := Staged(Some(1), true, 1);
    var login, logout := Change(Some(1), None, Some(1)), Change(None, Some(1), None);
    var s0 := Store(None, true, map[], {}, []);
    var s1 := s0.(stages := map[0 := early]);
    var s2 := s1.(stages := map[0 := early, 1 := early]);
    var s3 := Store(Some(1), true, map[0 := early, 1 := spent], {1}, [login]);
    var s4 := s3.(stages := map[0 := early, 1 := spent, 2 := late]);
    var s5 := s4.(canonical := None, log := [login, logout]);
    assert Next(s0, MakeStage(0), s1) && Next(s1, MakeStage(1), s2) && Next(s2, PublishStage(1, Published, 1), s3);
    assert Next(s3, MakeStage(2), s4) && Next(s4, LogoutStage(2, Published), s5);
    run := [s0, s1, s2, s3, s4, s5];
    events := [MakeStage(0), MakeStage(1), PublishStage(1, Published, 1), MakeStage(2), LogoutStage(2, Published)];
    StaleStagePublishesIff(run, events, 5, 0);
  }
}
