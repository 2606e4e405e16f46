/** The append-only session index: folding the log into sessions, and merging what the vendors
    know into it. */
module SessionIndex {
  import opened Options
  import opened SessionContract
  import opened Sorting

  /** What a session is found by: its vendor and the vendor's own id. */
  type Key = (Value, Value)

  function KeyOf(row: Row): Key { (Get(row, VENDOR), Get(row, VENDOR_ID)) }

  /** A line of the log: a row, or something that is no row at all. */
  type Line = Option<Row>

  predicate Counts(line: Line) { line.Some? && Meets(line.value) }

  // ---------------------------------------------------------------- fold

  function Known(row: Row): Row { row - set f | f in row && row[f] == Null }

  /** One more row: its values supersede, its nulls only fill gaps. */
  function Superseded(current: Row, row: Row): Row {
    var updated := current + Known(row);
    updated + (row - updated.Keys)
  }

  function Of(sessions: map<Value, Row>, id: Value): Row { if id in sessions then sessions[id] else map[] }

  function Folded(log: seq<Line>): map<Value, Row> {
    if log == [] then map[]
    else
      var line, before := log[|log| - 1], Folded(log[..|log| - 1]);
      if Counts(line) then before[line.value[ID] := Superseded(Of(before, line.value[ID]), line.value)] else before
  }

  /** The last value other than null that the log gives `field` of session `id`; null if it
      only ever gives null; nothing if it never mentions the field. */
  function LastValue(log: seq<Line>, id: Value, field: string): Option<Value> {
    if log == [] then None
    else
      var line, before := log[|log| - 1], LastValue(log[..|log| - 1], id, field);
      if !Counts(line) || line.value[ID] != id || field !in line.value then before
      else if line.value[field] != Null || before.None? then Some(line.value[field])
      else before
  }

  function Lookup(row: Row, field: string): Option<Value> { if field in row then Some(row[field]) else None }

  /** Folding gives each field of each session its last value other than null. */
  lemma {:induction false} FoldGivesLastValues(log: seq<Line>, id: Value, field: string)
    ensures Lookup(Of(Folded(log), id), field) == LastValue(log, id, field)
    ensures id in Folded(log) <==> exists line | line in log :: Counts(line) && line.value[ID] == id
  {
    if log != [] {
      var n := |log| - 1;
      FoldGivesLastValues(log[..n], id, field);
      assert log == log[..n] + [log[n]];
    }
  }

  /** A session shows what the last line that meets the contract and has a value says. */
  lemma {:induction false} FoldShowsLast(log: seq<Line>, i: nat, field: string)
    requires i < |log| && log[i].Some? && Meets(log[i].value)
    requires field in log[i].value && log[i].value[field] != Null
    requires forall k | i < k < |log| && log[k].Some? && Meets(log[k].value) && "ihar_id" in log[k].value
                        && log[k].value["ihar_id"] == log[i].value["ihar_id"] ::
               field in log[k].value ==> log[k].value[field] == Null
    ensures log[i].value["ihar_id"] in Folded(log)
            && Lookup(Folded(log)[log[i].value["ihar_id"]], field) == Some(log[i].value[field])
    decreases |log|
  {
    var n := |log| - 1;
    if i < n {
      FoldShowsLast(log[..n], i, field);
    }
  }

  method Fold(log: seq<Line>) returns (sessions: map<Value, Row>)
    ensures sessions == Folded(log)
  {
    sessions := map[];
    for i := 0 to |log|
      invariant sessions == Folded(log[..i])
    {
      var line := log[i];
      assert log[..i + 1][..i] == log[..i];
      if line.None? || !Meets(line.value) { continue; }
      var id := line.value[ID];
      sessions := sessions[id := Superseded(Of(sessions, id), line.value)];
    }
    assert log[..|log|] == log;
  }

  // ---------------------------------------------------------------- merge

  function KeysOf(sessions: map<Value, Row>): set<Key> { set id | id in sessions :: KeyOf(sessions[id]) }

  /** A vendor's row under the id its key is given. */
  function Discovered(row: Row, naming: Key -> Value): Row { row[ID := naming(KeyOf(row))] }

  /** A vendor's row that names its session and will meet the contract. */
  predicate Usable(row: Row, naming: Key -> Value) {
    Get(row, VENDOR) != Null && Get(row, VENDOR_ID) != Null && Meets(Discovered(row, naming))
  }

  /** The rows that have to be appended, `known` keys being there already. */
  function Missing(known: set<Key>, rows: seq<Row>, naming: Key -> Value): seq<Line>
    decreases |rows|
  {
    if rows == [] then []
    else if KeyOf(rows[0]) in known then Missing(known, rows[1..], naming)
    else [Some(Discovered(rows[0], naming))] + Missing(known + {KeyOf(rows[0])}, rows[1..], naming)
  }

  /** The fields a vendor's newer row refreshes in memory. */
  const REFRESHED := ["title", "updated_at", "model", "git_branch", "cwd", "project"]

  lemma RefreshedNames(f: string)
    ensures f in REFRESHED <==> f in {"title", "updated_at", "model", "git_branch", "cwd", "project"}
  {
  }

  method Refresh(current: Row, row: Row) returns (updated: Row)
    ensures KeyOf(updated) == KeyOf(current)
    ensures forall f :: Get(updated, f) ==
              if f in REFRESHED && Get(row, f) != Null then Get(row, f) else Get(current, f)
    ensures forall f | f in updated ::
              if f in {"title", "updated_at", "model", "git_branch", "cwd", "project"} && f in row && row[f] != Null
              then updated[f] == row[f] else f in current && updated[f] == current[f]
    ensures current.Keys <= updated.Keys
  {
    updated := current;
    for i := 0 to |REFRESHED|
      invariant KeyOf(updated) == KeyOf(current)
      invariant current.Keys <= updated.Keys <= current.Keys + row.Keys
      invariant forall f | f in updated && f !in current :: f in REFRESHED[..i] && Get(row, f) != Null
      invariant forall f :: Get(updated, f) ==
                  if f in REFRESHED[..i] && Get(row, f) != Null then Get(row, f) else Get(current, f)
    {
      var field := REFRESHED[i];
      if Get(row, field) != Null { updated := updated[field := Get(row, field)]; }
      assert REFRESHED[..i + 1] == REFRESHED[..i] + [field];
    }
    assert REFRESHED[..|REFRESHED|] == REFRESHED;
    forall f | f in updated
      ensures f in REFRESHED <==> f in {"title", "updated_at", "model", "git_branch", "cwd", "project"}
    {
      RefreshedNames(f);
    }
  }

  /** Row `a` is the last of the first `n` that gives `field` a value for its key. */
  predicate Latest(rows: seq<Row>, n: nat, a: nat, field: string)
    requires n <= |rows|
  {
    && a < n && field in REFRESHED && Get(rows[a], field) != Null
    && forall b | a < b < n && KeyOf(rows[b]) == KeyOf(rows[a]) :: Get(rows[b], field) == Null
  }

  /** Sessions in memory and the way to them: every session's key leads to a session of that
      key, and an id given to a key belongs to it. */
  ghost predicate Filed(indexed: map<Value, Row>, byVendor: map<Key, Value>, naming: Key -> Value) {
    && (forall k | k in byVendor :: byVendor[k] in indexed && KeyOf(indexed[byVendor[k]]) == k)
    && (forall id | id in indexed :: KeyOf(indexed[id]) in byVendor)
    && (forall k {:trigger naming(k)} :: naming(k) in indexed ==> KeyOf(indexed[naming(k)]) == k)
  }

  predicate Unmentioned(rows: seq<Row>, n: nat, key: Key)
    requires n <= |rows|
  {
    forall a | 0 <= a < n :: KeyOf(rows[a]) != key
  }

  /** The session a vendor row leads to shows `field` as the row has it. */
  ghost predicate ShowsField(row: Row, field: string, indexed: map<Value, Row>, byVendor: map<Key, Value>) {
    && KeyOf(row) in byVendor && byVendor[KeyOf(row)] in indexed
    && Get(indexed[byVendor[KeyOf(row)]], field) == Get(row, field)
  }

  ghost predicate ShowsLatest(rows: seq<Row>, n: nat, indexed: map<Value, Row>, byVendor: map<Key, Value>)
    requires n <= |rows|
  {
    forall a: nat, f {:trigger Latest(rows, n, a, f)} :: Latest(rows, n, a, f) ==>
        ShowsField(rows[a], f, indexed, byVendor)
  }

  ghost predicate KeepsOthers(rows: seq<Row>, n: nat, folded: map<Value, Row>, indexed: map<Value, Row>)
    requires n <= |rows|
  {
    && (forall id | id in folded :: id in indexed && KeyOf(indexed[id]) == KeyOf(folded[id]))
    && (forall id | id in folded && Unmentioned(rows, n, KeyOf(folded[id])) :: indexed[id] == folded[id])
  }

  /** After the first `n` vendor rows: their latest values show, other sessions are as folded. */
  ghost predicate Shows(rows: seq<Row>, n: nat, folded: map<Value, Row>, indexed: map<Value, Row>,
                        byVendor: map<Key, Value>)
    requires n <= |rows|
  {
    ShowsLatest(rows, n, indexed, byVendor) && KeepsOthers(rows, n, folded, indexed)
  }

  lemma OneRowOn(rows: seq<Row>, n: nat)
    requires n < |rows|
    ensures forall a: nat, f {:trigger Latest(rows, n + 1, a, f)} :: Latest(rows, n + 1, a, f) ==>
              a == n || Latest(rows, n, a, f)
    ensures forall k {:trigger Unmentioned(rows, n + 1, k)} :: Unmentioned(rows, n + 1, k) ==>
              Unmentioned(rows, n, k) && k != KeyOf(rows[n])
  {
  }

  lemma DiscoveryFiles(row: Row, indexed: map<Value, Row>, byVendor: map<Key, Value>, naming: Key -> Value)
    requires Injective(naming) && Filed(indexed, byVendor, naming) && KeyOf(row) !in byVendor
    ensures var d, key := Discovered(row, naming), KeyOf(row);
            && d[ID] == naming(key) && naming(key) !in indexed && KeyOf(d) == key
            && Filed(indexed[d[ID] := d], byVendor[key := d[ID]], naming)
  {
  }

  lemma DiscoveryShows(rows: seq<Row>, n: nat, folded: map<Value, Row>, indexed: map<Value, Row>,
                       byVendor: map<Key, Value>,
                       naming: Key -> Value)
    requires n < |rows| && Injective(naming) && Filed(indexed, byVendor, naming)
             && Shows(rows, n, folded, indexed, byVendor)
    requires KeyOf(rows[n]) !in byVendor
    ensures var d := Discovered(rows[n], naming);
            && Filed(indexed[d[ID] := d], byVendor[KeyOf(rows[n]) := d[ID]], naming)
            && Shows(rows, n + 1, folded, indexed[d[ID] := d], byVendor[KeyOf(rows[n]) := d[ID]])
  {
    var d, key := Discovered(rows[n], naming), KeyOf(rows[n]);
    DiscoveryFiles(rows[n], indexed, byVendor, naming);
    assert forall f | f in REFRESHED :: Get(d, f) == Get(rows[n], f);
    OneRowOn(rows, n);
    forall a: nat, f {:trigger Latest(rows, n + 1, a, f)} | Latest(rows, n + 1, a, f)
      ensures ShowsField(rows[a], f, indexed[d[ID] := d], byVendor[key := d[ID]])
    {
      if a != n { assert ShowsField(rows[a], f, indexed, byVendor); }
    }
  }

  lemma RefreshShows(rows: seq<Row>, n: nat, folded: map<Value, Row>, indexed: map<Value, Row>,
                     byVendor: map<Key, Value>,
                     naming: Key -> Value, updated: Row)
    requires n < |rows| && Filed(indexed, byVendor, naming) && Shows(rows, n, folded, indexed, byVendor)
    requires KeyOf(rows[n]) in byVendor && KeyOf(updated) == KeyOf(rows[n])
    requires var current := indexed[byVendor[KeyOf(rows[n])]];
             forall f :: Get(updated, f) ==
               if f in REFRESHED && Get(rows[n], f) != Null then Get(rows[n], f) else Get(current, f)
    ensures var indexed' := indexed[byVendor[KeyOf(rows[n])] := updated];
            Filed(indexed', byVendor, naming) && Shows(rows, n + 1, folded, indexed', byVendor)
  {
    var indexed' := indexed[byVendor[KeyOf(rows[n])] := updated];
    OneRowOn(rows, n);
    forall a: nat, f {:trigger Latest(rows, n + 1, a, f)} | Latest(rows, n + 1, a, f)
      ensures ShowsField(rows[a], f, indexed', byVendor)
    {
      if a != n { assert ShowsField(rows[a], f, indexed, byVendor); }
    }
  }

  class Index {
    var log: seq<Line>

    constructor (log: seq<Line>)
      ensures this.log == log
    {
      this.log := log;
    }

    method Append(row: Row) returns (ok: bool)
      modifies this
      ensures ok <==> Meets(row)
      ensures log == if ok then old(log) + [Some(row)] else old(log)
    {
      if !Meets(row) { return false; }
      log := log + [Some(row)];
      ok := true;
    }

    /** One row: append it if its key is not known, else refresh in memory. */
    method TakeRow(rows: seq<Row>, i: nat, naming: Key -> Value, all: map<Value, Row>, leads: map<Key, Value>,
                   ghost folded: map<Value, Row>, ghost sound: bool)
      returns (ok: bool, all': map<Value, Row>, leads': map<Key, Value>)
      requires i < |rows| && LeadsInto(leads, all)
      requires sound ==> Injective(naming) && Filed(all, leads, naming) && Shows(rows, i, folded, all, leads)
      modifies this
      ensures ok <==> Takable(leads.Keys, rows[i], naming)
      ensures log == if ok then old(log) + Added(leads.Keys, rows[i], naming) else old(log)
      ensures ok ==> leads'.Keys == leads.Keys + {KeyOf(rows[i])} && LeadsInto(leads', all')
      ensures ok && sound ==> Filed(all', leads', naming) && Shows(rows, i + 1, folded, all', leads')
      ensures !ok ==> all' == all && leads' == leads
    {
      var row, key := rows[i], KeyOf(rows[i]);
      ok, all', leads' := false, all, leads;
      if VENDOR !in row || VENDOR_ID !in row { return; }
      if key !in leads {
        var current := Discovered(row, naming);
        if sound { DiscoveryShows(rows, i, folded, all, leads, naming); }
        ok := Append(current);
        if ok { all', leads' := all[current[ID] := current], leads[key := current[ID]]; }
      } else {
        var updated := Refresh(all[leads[key]], row);
        if sound { RefreshShows(rows, i, folded, all, leads, naming, updated); }
        assert log + [] == log;
        ok, all' := true, all[leads[key] := updated];
      }
    }

    /** The rows one after the other, until one cannot be taken. */
    method TakeRows(rows: seq<Row>, naming: Key -> Value, folded: map<Value, Row>, leads: map<Key, Value>)
      returns (n: nat, all: map<Value, Row>, leads': map<Key, Value>)
      requires leads.Keys == KeysOf(folded) && forall k | k in leads ::
               leads[k] in folded && KeyOf(folded[leads[k]]) == k
      modifies this
      ensures n <= |rows| && (forall i | 0 <= i < n :: Taken(KeysOf(folded), rows, i, naming))
      ensures n < |rows| ==> !Taken(KeysOf(folded), rows, n, naming)
      ensures log == old(log) + Missing(KeysOf(folded), rows[..n], naming)
      ensures Injective(naming) && Carries(folded, naming) ==>
                Filed(all, leads', naming) && Shows(rows, n, folded, all, leads')
    {
      ghost var known, sound := leads.Keys, Injective(naming) && Carries(folded, naming);
      n, all, leads' := 0, folded, leads;
      if sound { StartsFiled(rows, folded, leads, naming); }
      NoneTaken(log, known, rows, naming);
      while n < |rows|
        invariant n <= |rows| && SoFar(old(log), log, known, leads'.Keys, rows, n, naming)
        invariant LeadsInto(leads', all)
        invariant sound ==> Filed(all, leads', naming) && Shows(rows, n, folded, all, leads')
      {
        var taken;
        ghost var before, keys := log, leads'.Keys;
        taken, all, leads' := TakeRow(rows, n, naming, all, leads', folded, sound);
        if !taken { return; }
        n := n + 1;
        OneTaken(old(log), before, log, known, keys, leads'.Keys, rows, n, naming);
      }
    }

    /** Append what is missing; refresh the rest in memory only; list what is there, newest
        first.  A row that cannot be taken ends it, with the rows before it appended: `n` rows
        have been taken.  `byVendor` leads from a key to the session, so refreshing through it
        is seen in the result. */
    method Merge(rows: seq<Row>, ephemeral: set<Value>, naming: Key -> Value)
      returns (ok: bool, listed: seq<Row>, ghost n: nat, ghost indexed: map<Value, Row>,
               ghost byVendor: map<Key, Value>)
      modifies this
      ensures n <= |rows| && (ok <==> n == |rows|)
      ensures forall i | 0 <= i < n :: Taken(KeysOf(Folded(old(log))), rows, i, naming)
      ensures !ok ==> !Taken(KeysOf(Folded(old(log))), rows, n, naming)
      ensures log == old(log) + Missing(KeysOf(Folded(old(log))), rows[..n], naming)
      ensures ok ==> Lists(listed, indexed, ephemeral)
      ensures ok && Injective(naming) && CarriesKeys(old(log), naming) ==>
                Filed(indexed, byVendor, naming) && Shows(rows, |rows|, Folded(old(log)), indexed, byVendor)
      // row by row
      ensures old(log) <= log && AddsNew(Folded(old(log)), rows, n, naming, log[|old(log)|..])
      ensures (forall i: nat | i < n :: CanTake(Folded(old(log)), rows, i, naming))
              && (n < |rows| ==> !CanTake(Folded(old(log)), rows, n, naming))
      ensures ok && Injective(naming) && CarriesKeys(old(log), naming) ==>
                forall a: nat, f | a < |rows| && SaysLast(rows, a, f)
                                   && f in {"title", "updated_at", "model", "git_branch", "cwd", "project"} ::
                  ShownSomewhere(rows[a], f, indexed)
      ensures ok ==> forall i, j | 0 <= i < j < |listed| :: NoOlder(listed[i], listed[j])
      ensures ok ==>
                forall row :: row in listed <==> exists id | id in indexed :: id !in ephemeral && row == indexed[id]
    {
      ok, listed, n, indexed, byVendor := RunMerge(rows, ephemeral, naming);
      ghost var at := MissingIsNew(Folded(old(log)), rows, n, naming);
      assert log[|old(log)|..] == Missing(KeysOf(Folded(old(log))), rows[..n], naming);
      forall i: nat | i < |rows|
        ensures Taken(KeysOf(Folded(old(log))), rows, i, naming) <==> CanTake(Folded(old(log)), rows, i, naming)
      {
        TakenMeans(Folded(old(log)), rows, i, naming);
      }
      if ok {
        ListedMeans(listed, indexed, ephemeral);
        if Injective(naming) && CarriesKeys(old(log), naming) {
          forall a: nat, f | a < |rows| && SaysLast(rows, a, f)
                             && f in {"title", "updated_at", "model", "git_branch", "cwd", "project"}
            ensures ShownSomewhere(rows[a], f, indexed)
          {
            LatestShows(rows, Folded(old(log)), indexed, byVendor, a, f);
          }
        }
      }
    }

    /** The merge itself, against the function of the log and the rows. */
    method RunMerge(rows: seq<Row>, ephemeral: set<Value>, naming: Key -> Value)
      returns (ok: bool, listed: seq<Row>, ghost n: nat, ghost indexed: map<Value, Row>,
               ghost byVendor: map<Key, Value>)
      modifies this
      ensures n <= |rows| && (ok <==> n == |rows|)
      ensures forall i | 0 <= i < n :: Taken(KeysOf(Folded(old(log))), rows, i, naming)
      ensures !ok ==> !Taken(KeysOf(Folded(old(log))), rows, n, naming)
      ensures log == old(log) + Missing(KeysOf(Folded(old(log))), rows[..n], naming)
      ensures ok ==> Lists(listed, indexed, ephemeral)
      ensures ok && Injective(naming) && CarriesKeys(old(log), naming) ==>
                Filed(indexed, byVendor, naming) && Shows(rows, |rows|, Folded(old(log)), indexed, byVendor)
    {
      var folded := Fold(log);
      var leads := SessionsByKey(folded);
      var taken, all;
      taken, all, leads := TakeRows(rows, naming, folded, leads);
      ok, listed, n, indexed, byVendor := taken == |rows|, [], taken, all, leads;
      if ok {
        ghost var ids;
        listed, ids := List(all, ephemeral);
      }
    }
  }

  // ---------------------------------------------------------------- what merging comes to, row by row

  /** The two fields a session is found by; what is missing counts as null. */
  function Pair(row: Row): Key {
    (if "vendor" in row then row["vendor"] else Null,
     if "vendor_session_id" in row then row["vendor_session_id"] else Null)
  }


  /** Neither a session nor an earlier row has what row `i` is found by. */
  ghost predicate IsNew(sessions: map<Value, Row>, rows: seq<Row>, i: nat)
    requires i < |rows|
  {
    && (forall id | id in sessions :: Pair(sessions[id]) != Pair(rows[i]))
    && (forall k | 0 <= k < i :: Pair(rows[k]) != Pair(rows[i]))
  }

  /** `at` are the places of the new rows among the first `n`, in order. */
  ghost predicate Picks(at: seq<nat>, sessions: map<Value, Row>, rows: seq<Row>, n: nat)
    requires n <= |rows|
  {
    && (forall j | 0 <= j < |at| :: at[j] < n && IsNew(sessions, rows, at[j]))
    && (forall j, k | 0 <= j < k < |at| :: at[j] < at[k])
    && (forall i: nat | i < n && IsNew(sessions, rows, i) :: i in at)
  }

  /** A vendor's row as it is appended. */
  function Named(row: Row, naming: Key -> Value): Row { row["ihar_id" := naming(Pair(row))] }

  /** The lines are those of the new rows, in order. */
  ghost predicate AddsNew(sessions: map<Value, Row>, rows: seq<Row>, n: nat, naming: Key -> Value, lines: seq<Line>)
    requires n <= |rows|
  {
    exists at: seq<nat> | Picks(at, sessions, rows, n) ::
      AreNamed(lines, rows, at, naming)
  }

  lemma {:induction false} RowKeysHold(rows: seq<Row>, key: Key)
    ensures key in RowKeys(rows) <==> exists k | 0 <= k < |rows| :: Pair(rows[k]) == key
  {
    if rows != [] {
      RowKeysHold(rows[1..], key);
      if k :| 0 <= k < |rows[1..]| && Pair(rows[1..][k]) == key { assert Pair(rows[k + 1]) == key; }
      if k :| 0 <= k < |rows| && Pair(rows[k]) == key { assert k == 0 || Pair(rows[1..][k - 1]) == key; }
    }
  }

  lemma NewMeans(sessions: map<Value, Row>, rows: seq<Row>, i: nat)
    requires i < |rows|
    ensures IsNew(sessions, rows, i) <==> KeyOf(rows[i]) !in KeysOf(sessions) + RowKeys(rows[..i])
  {
    RowKeysHold(rows[..i], KeyOf(rows[i]));
    assert KeyOf(rows[i]) in KeysOf(sessions) <==> exists id | id in sessions :: KeyOf(sessions[id]) == KeyOf(rows[i]);
  }

  /** The lines are those of the rows at these places. */
  predicate AreNamed(lines: seq<Line>, rows: seq<Row>, at: seq<nat>, naming: Key -> Value) {
    |lines| == |at| && forall j | 0 <= j < |at| :: at[j] < |rows| && lines[j] == Some(Named(rows[at[j]], naming))
  }

  lemma {:induction false} MissingIsNew(sessions: map<Value, Row>, rows: seq<Row>, n: nat, naming: Key -> Value)
    returns (at: seq<nat>)
    requires n <= |rows|
    ensures Picks(at, sessions, rows, n) && AreNamed(Missing(KeysOf(sessions), rows[..n], naming), rows, at, naming)
  {
    if n == 0 {
      at := [];
    } else {
      at := MissingIsNew(sessions, rows, n - 1, naming);
      MissingMore(KeysOf(sessions), rows, n - 1, naming);
      NewMeans(sessions, rows, n - 1);
      var before := Missing(KeysOf(sessions), rows[..n - 1], naming);
      if IsNew(sessions, rows, n - 1) {
        PicksOneMore(at, sessions, rows, n - 1);
        OneMoreNamed(before, rows, at, n - 1, naming);
        at := at + [n - 1];
      } else {
        assert before + [] == before;
      }
    }
  }

  lemma PicksOneMore(at: seq<nat>, sessions: map<Value, Row>, rows: seq<Row>, i: nat)
    requires i < |rows| && Picks(at, sessions, rows, i) && IsNew(sessions, rows, i)
    ensures Picks(at + [i], sessions, rows, i + 1)
  {
    assert (at + [i])[|at|] == i;
  }

  lemma OneMoreNamed(lines: seq<Line>, rows: seq<Row>, at: seq<nat>, i: nat, naming: Key -> Value)
    requires i < |rows| && AreNamed(lines, rows, at, naming)
    ensures AreNamed(lines + [Some(Discovered(rows[i], naming))], rows, at + [i], naming)
  {
  }

  /** Row `i` can be taken: it names its session, and if that is new it meets the contract. */
  ghost predicate CanTake(sessions: map<Value, Row>, rows: seq<Row>, i: nat, naming: Key -> Value)
    requires i < |rows|
  {
    && "vendor" in rows[i] && "vendor_session_id" in rows[i]
    && (IsNew(sessions, rows, i) ==> Meets(Named(rows[i], naming)))
  }

  lemma TakenMeans(sessions: map<Value, Row>, rows: seq<Row>, i: nat, naming: Key -> Value)
    requires i < |rows|
    ensures Taken(KeysOf(sessions), rows, i, naming) <==> CanTake(sessions, rows, i, naming)
  {
    NewMeans(sessions, rows, i);
  }

  /** No later row of the same session has a value for the field. */
  ghost predicate SaysLast(rows: seq<Row>, a: nat, f: string)
    requires a < |rows|
  {
    && f in rows[a] && rows[a][f] != Null
    && forall b | a < b < |rows| && Pair(rows[b]) == Pair(rows[a]) :: f in rows[b] ==> rows[b][f] == Null
  }

  /** Some session of the row's shows the field as the row has it. */
  ghost predicate ShownSomewhere(row: Row, f: string, indexed: map<Value, Row>) {
    exists id | id in indexed ::
        Pair(indexed[id]) == Pair(row) && f in indexed[id] && f in row && indexed[id][f] == row[f]
  }

  lemma LatestShows(rows: seq<Row>, folded: map<Value, Row>, indexed: map<Value, Row>, byVendor: map<Key, Value>,
                    a: nat, f: string)
    requires Shows(rows, |rows|, folded, indexed, byVendor) && a < |rows| && SaysLast(rows, a, f)
    requires f in {"title", "updated_at", "model", "git_branch", "cwd", "project"}
    requires forall k | k in byVendor :: byVendor[k] in indexed && KeyOf(indexed[byVendor[k]]) == k
    ensures ShownSomewhere(rows[a], f, indexed)
  {
    RefreshedNames(f);
    assert Latest(rows, |rows|, a, f);
    assert ShowsField(rows[a], f, indexed, byVendor);
  }

  predicate LeadsInto(leads: map<Key, Value>, all: map<Value, Row>) { forall k | k in leads :: leads[k] in all }

  /** The first `n` rows have been taken since the log was `start`. */
  predicate SoFar(start: seq<Line>, now: seq<Line>, known: set<Key>, keys: set<Key>, rows: seq<Row>, n: nat,
                  naming: Key -> Value)
    requires n <= |rows|
  {
    && keys == known + RowKeys(rows[..n]) && now == start + Missing(known, rows[..n], naming)
    && forall i | 0 <= i < n :: Taken(known, rows, i, naming)
  }

  lemma NoneTaken(log: seq<Line>, known: set<Key>, rows: seq<Row>, naming: Key -> Value)
    ensures SoFar(log, log, known, known, rows, 0, naming)
  {
    assert log + [] == log;
  }

  lemma OneTaken(start: seq<Line>, before: seq<Line>, now: seq<Line>, known: set<Key>, keys: set<Key>, keys': set<Key>,
                 rows: seq<Row>, n: nat, naming: Key -> Value)
    requires 0 < n <= |rows| && SoFar(start, before, known, keys, rows, n - 1, naming)
    requires Takable(keys, rows[n - 1], naming) && keys' == keys + {KeyOf(rows[n - 1])}
    requires now == before + Added(keys, rows[n - 1], naming)
    ensures SoFar(start, now, known, keys', rows, n, naming)
  {
    MissingMore(known, rows, n - 1, naming);
    Regroup(start, Missing(known, rows[..n - 1], naming), Added(keys, rows[n - 1], naming));
  }

  lemma StartsFiled(rows: seq<Row>, folded: map<Value, Row>, leads: map<Key, Value>, naming: Key -> Value)
    requires leads.Keys == KeysOf(folded) && forall k | k in leads :: leads[k] in folded && KeyOf(folded[leads[k]]) == k
    requires Injective(naming) && Carries(folded, naming)
    ensures Filed(folded, leads, naming) && Shows(rows, 0, folded, folded, leads)
  {
    assert forall id | id in folded :: KeyOf(folded[id]) in leads;
  }

  lemma Regroup(a: seq<Line>, b: seq<Line>, c: seq<Line>)
    ensures (a + b) + c == a + (b + c)
  {
  }

  /** The `i`-th row names its session, and if that is new it meets the contract. */
  predicate Taken(known: set<Key>, rows: seq<Row>, i: nat, naming: Key -> Value)
    requires i < |rows|
  {
    Takable(known + RowKeys(rows[..i]), rows[i], naming)
  }

  predicate Takable(known: set<Key>, row: Row, naming: Key -> Value) {
    VENDOR in row && VENDOR_ID in row && (KeyOf(row) in known || Meets(Discovered(row, naming)))
  }

  /** What a row adds to the log. */
  function Added(known: set<Key>, row: Row, naming: Key -> Value): seq<Line> {
    if KeyOf(row) in known then [] else [Some(Discovered(row, naming))]
  }

  /** What one more row adds. */
  lemma {:induction false} MissingMore(known: set<Key>, rows: seq<Row>, i: nat, naming: Key -> Value)
    requires i < |rows|
    ensures RowKeys(rows[..i + 1]) == RowKeys(rows[..i]) + {KeyOf(rows[i])}
    ensures Missing(known, rows[..i + 1], naming)
            == Missing(known, rows[..i], naming) + Added(known + RowKeys(rows[..i]), rows[i], naming)
    decreases i
  {
    var k := KeyOf(rows[0]);
    assert rows[..i + 1][1..] == rows[1..][..i];
    if i > 0 {
      assert rows[..i][1..] == rows[1..][..i - 1];
      MissingMore(if k in known then known else known + {k}, rows[1..], i - 1, naming);
      assert (known + {k}) + RowKeys(rows[1..][..i - 1]) == known + RowKeys(rows[..i]);
    }
  }

  // ---------------------------------------------------------------- the listing

  function StampOf(row: Row): string { if Get(row, UPDATED).Text? then row[UPDATED].text else "" }

  /** `listed` are the sessions `ids`, newest first. */
  predicate ListsAs(listed: seq<Row>, ids: seq<Value>, indexed: map<Value, Row>) {
    && |listed| == |ids| && (forall i | 0 <= i < |ids| :: ids[i] in indexed && listed[i] == indexed[ids[i]])
    && (forall i, j | 0 <= i < j < |ids| :: ids[i] != ids[j] && Le(StampOf(listed[j]), StampOf(listed[i])))
  }

  /** All sessions but the ephemeral ones, each once, newest first. */
  ghost predicate Lists(listed: seq<Row>, indexed: map<Value, Row>, ephemeral: set<Value>) {
    exists ids :: ListsAs(listed, ids, indexed) && (set id | id in ids) == indexed.Keys - ephemeral
  }

  /** When a session was last updated; the empty text if that is no text. */
  function Updated(row: Row): string {
    if "updated_at" in row && row["updated_at"].Text? then row["updated_at"].text else ""
  }

  /** The second was not updated after the first. */
  predicate NoOlder(first: Row, second: Row) { Before(Updated(second), Updated(first)) }

  lemma ListedMeans(listed: seq<Row>, indexed: map<Value, Row>, ephemeral: set<Value>)
    requires Lists(listed, indexed, ephemeral)
    ensures forall i, j | 0 <= i < j < |listed| :: NoOlder(listed[i], listed[j])
    ensures forall row :: row in listed <==> exists id | id in indexed :: id !in ephemeral && row == indexed[id]
  {
    var ids :| ListsAs(listed, ids, indexed) && (set id | id in ids) == indexed.Keys - ephemeral;
    forall i, j | 0 <= i < j < |listed|
      ensures NoOlder(listed[i], listed[j])
    {
      assert ids[i] != ids[j];
      LeMeans(StampOf(listed[j]), StampOf(listed[i]));
    }
    ListedRows(listed, ids, indexed, ephemeral);
  }

  lemma ListedRows(listed: seq<Row>, ids: seq<Value>, indexed: map<Value, Row>, ephemeral: set<Value>)
    requires ListsAs(listed, ids, indexed) && (set id | id in ids) == indexed.Keys - ephemeral
    ensures forall row :: row in listed <==> exists id | id in indexed :: id !in ephemeral && row == indexed[id]
  {
    forall row | row in listed
      ensures exists id | id in indexed :: id !in ephemeral && row == indexed[id]
    {
      var i :| 0 <= i < |listed| && listed[i] == row;
      assert ids[i] in set id | id in ids;
    }
    forall id | id in indexed && id !in ephemeral
      ensures indexed[id] in listed
    {
      assert id in indexed.Keys - ephemeral;
      assert id in set x | x in ids;
      var i :| 0 <= i < |ids| && ids[i] == id;
      assert listed[i] == indexed[id];
    }
  }

  /** Where a session goes: before the first that is not newer. */
  method Place(indexed: map<Value, Row>, ids: seq<Value>, listed: seq<Row>, id: Value) returns (at: nat)
    requires id in indexed && ListsAs(listed, ids, indexed)
    ensures at <= |ids|
    ensures forall i | 0 <= i < at :: Le(StampOf(indexed[id]), StampOf(listed[i]))
    ensures forall i | at <= i < |ids| :: Le(StampOf(listed[i]), StampOf(indexed[id]))
  {
    at := 0;
    while at < |ids| && Le(StampOf(indexed[id]), StampOf(listed[at]))
      invariant at <= |ids| && forall i | 0 <= i < at :: Le(StampOf(indexed[id]), StampOf(listed[i]))
    {
      at := at + 1;
    }
    if at < |ids| { LeTotal(StampOf(indexed[id]), StampOf(listed[at])); }
    forall i | at <= i < |ids|
      ensures Le(StampOf(listed[i]), StampOf(indexed[id]))
    {
      if i > at { LeTransitive(StampOf(listed[i]), StampOf(listed[at]), StampOf(indexed[id])); }
    }
  }

  method List(indexed: map<Value, Row>, ephemeral: set<Value>) returns (listed: seq<Row>, ghost ids: seq<Value>)
    ensures ListsAs(listed, ids, indexed) && (set id | id in ids) == indexed.Keys - ephemeral
  {
    var order: seq<Value> := [];
    listed := [];
    var rest := indexed.Keys - ephemeral;
    while rest != {}
      invariant rest <= indexed.Keys - ephemeral
      invariant ListsAs(listed, order, indexed)
      invariant forall id :: id in order <==> id in indexed.Keys - ephemeral && id !in rest
    {
      var id :| id in rest;
      var at := Place(indexed, order, listed, id);
      InsertionLists(indexed, order, listed, id, at);
      order, listed := order[..at] + [id] + order[at..], listed[..at] + [indexed[id]] + listed[at..];
      rest := rest - {id};
    }
    ids := order;
  }

  lemma InsertionLists(indexed: map<Value, Row>, ids: seq<Value>, listed: seq<Row>, id: Value, at: nat)
    requires id in indexed && id !in ids && at <= |ids| && ListsAs(listed, ids, indexed)
    requires forall i | 0 <= i < at :: Le(StampOf(indexed[id]), StampOf(listed[i]))
    requires forall i | at <= i < |ids| :: Le(StampOf(listed[i]), StampOf(indexed[id]))
    ensures ListsAs(listed[..at] + [indexed[id]] + listed[at..], ids[..at] + [id] + ids[at..], indexed)
    ensures forall x :: x in ids[..at] + [id] + ids[at..] <==> x in ids || x == id
  {
    var ids', listed' := ids[..at] + [id] + ids[at..], listed[..at] + [indexed[id]] + listed[at..];
    assert ids == ids[..at] + ids[at..];
    forall i | 0 <= i < |ids'|
      ensures ids'[i] in indexed && listed'[i] == indexed[ids'[i]]
    {
      if i < at { assert ids'[i] == ids[i]; } else if i > at { assert ids'[i] == ids[i - 1]; }
    }
    forall i, j | 0 <= i < j < |ids'|
      ensures ids'[i] != ids'[j] && Le(StampOf(listed'[j]), StampOf(listed'[i]))
    {
      InsertedApart(ids, listed, id, indexed[id], at, i, j);
    }
  }

  lemma InsertedApart(ids: seq<Value>, listed: seq<Row>, id: Value, row: Row, at: nat, i: nat, j: nat)
    requires |listed| == |ids| && at <= |ids| && id !in ids && i < j <= |ids|
    requires forall a, b | 0 <= a < b < |ids| :: ids[a] != ids[b] && Le(StampOf(listed[b]), StampOf(listed[a]))
    requires forall a | 0 <= a < at :: Le(StampOf(row), StampOf(listed[a]))
    requires forall a | at <= a < |ids| :: Le(StampOf(listed[a]), StampOf(row))
    ensures var ids', listed' := ids[..at] + [id] + ids[at..], listed[..at] + [row] + listed[at..];
            ids'[i] != ids'[j] && Le(StampOf(listed'[j]), StampOf(listed'[i]))
  {
    var a, b := if i < at then i else i - 1, if j < at then j else j - 1;
    if i != at && j != at { assert ids[a] != ids[b]; }
    if i == at { assert ids[b] in ids; }
    if j == at { assert ids[a] in ids; }
  }

  lemma MissingOne(log: seq<Line>, known: set<Key>, rows: seq<Row>, naming: Key -> Value)
    requires rows != [] && KeyOf(rows[0]) !in known
    ensures log + Missing(known, rows, naming)
            == (log + [Some(Discovered(rows[0], naming))]) + Missing(known + {KeyOf(rows[0])}, rows[1..], naming)
  {
  }

  method SessionsByKey(sessions: map<Value, Row>) returns (byKey: map<Key, Value>)
    ensures byKey.Keys == KeysOf(sessions)
    ensures forall k | k in byKey :: byKey[k] in sessions && KeyOf(sessions[byKey[k]]) == k
  {
    byKey := map[];
    var rest := sessions.Keys;
    while rest != {}
      invariant rest <= sessions.Keys
      invariant byKey.Keys == set id | id in sessions && id !in rest :: KeyOf(sessions[id])
      invariant forall k | k in byKey :: byKey[k] in sessions && KeyOf(sessions[byKey[k]]) == k
    {
      var id :| id in rest;
      byKey := byKey[KeyOf(sessions[id]) := id];
      rest := rest - {id};
    }
  }

  // ---------------------------------------------------------------- what merging keeps

  ghost predicate Injective(naming: Key -> Value) { forall a, b :: naming(a) == naming(b) ==> a == b }

  /** A session filed under the id of some key has that key. */
  ghost predicate CarriesKeys(log: seq<Line>, naming: Key -> Value) { Carries(Folded(log), naming) }

  ghost predicate Carries(s: map<Value, Row>, naming: Key -> Value) {
    forall k {:trigger naming(k)} :: naming(k) in s ==> KeyOf(s[naming(k)]) == k
  }

  lemma AppendingFolds(log: seq<Line>, row: Row)
    requires Meets(row)
    ensures Folded(log + [Some(row)]) == Folded(log)[row[ID] := Superseded(Of(Folded(log), row[ID]), row)]
  {
  }

  /** A discovered row takes the place of whatever is filed under its id. */
  lemma DiscoveryFolds(log: seq<Line>, row: Row, naming: Key -> Value)
    requires Usable(row, naming)
    ensures var before, after := Folded(log), Folded(log + [Some(Discovered(row, naming))]);
            && after.Keys == before.Keys + {naming(KeyOf(row))} && KeyOf(after[naming(KeyOf(row))]) == KeyOf(row)
            && forall id | id in before && id != naming(KeyOf(row)) :: after[id] == before[id]
  {
    AppendingFolds(log, Discovered(row, naming));
  }

  /** Appending a discovered row adds its key and keeps the others. */
  lemma DiscoveryAddsKey(log: seq<Line>, row: Row, naming: Key -> Value)
    requires Injective(naming) && CarriesKeys(log, naming) && Usable(row, naming)
    requires KeyOf(row) !in KeysOf(Folded(log))
    ensures var log' := log + [Some(Discovered(row, naming))];
            CarriesKeys(log', naming) && KeysOf(Folded(log')) == KeysOf(Folded(log)) + {KeyOf(row)}
  {
    var d, k := Discovered(row, naming), KeyOf(row);
    var before, after := Folded(log), Folded(log + [Some(d)]);
    DiscoveryFolds(log, row, naming);
    assert naming(k) !in before && naming(k) in after;
  }

  function RowKeys(rows: seq<Row>): set<Key> {
    if rows == [] then {} else {KeyOf(rows[0])} + RowKeys(rows[1..])
  }

  /** Merging keeps the log's invariant, and afterwards every vendor row's key is there. */
  lemma {:induction false} MergeAddsKeys(log: seq<Line>, rows: seq<Row>, naming: Key -> Value)
    requires Injective(naming) && CarriesKeys(log, naming) && forall row | row in rows :: Usable(row, naming)
    ensures var log' := log + Missing(KeysOf(Folded(log)), rows, naming);
            CarriesKeys(log', naming) && KeysOf(Folded(log')) == KeysOf(Folded(log)) + RowKeys(rows)
    decreases |rows|
  {
    var known := KeysOf(Folded(log));
    if rows == [] {
      assert log + [] == log;
    } else if KeyOf(rows[0]) in known {
      MergeAddsKeys(log, rows[1..], naming);
    } else {
      DiscoveryAddsKey(log, rows[0], naming);
      MissingOne(log, known, rows, naming);
      MergeAddsKeys(log + [Some(Discovered(rows[0], naming))], rows[1..], naming);
    }
  }

  lemma {:induction false} NothingMissingIff(known: set<Key>, rows: seq<Row>, naming: Key -> Value)
    ensures Missing(known, rows, naming) == [] <==> RowKeys(rows) <= known
  {
    if rows != [] { NothingMissingIff(known, rows[1..], naming); }
  }

  // ---------------------------------------------------------------- merging twice

  /** `id` is what none of the keys `added` is filed under. */
  ghost predicate Spared(id: Value, added: set<Key>, naming: Key -> Value) { forall m | m in added :: naming(m) != id }

  /** `after` has the sessions of `before`, and one for each key of `added` in place of whatever
      was filed under its id. */
  ghost predicate Overlaid(before: map<Value, Row>, after: map<Value, Row>, added: set<Key>, naming: Key -> Value) {
    && (forall m | m in added :: naming(m) in after && KeyOf(after[naming(m)]) == m)
    && (forall id | id in before && Spared(id, added, naming) :: id in after && after[id] == before[id])
    && (forall id | id in after && Spared(id, added, naming) :: id in before)
  }

  lemma {:induction false} MergeOverlays(log: seq<Line>, known: set<Key>, rows: seq<Row>, naming: Key -> Value)
    requires Injective(naming) && forall row | row in rows :: Usable(row, naming)
    ensures Overlaid(Folded(log), Folded(log + Missing(known, rows, naming)), RowKeys(rows) - known, naming)
    decreases |rows|
  {
    if rows == [] {
      assert log + [] == log;
    } else if KeyOf(rows[0]) in known {
      MergeOverlays(log, known, rows[1..], naming);
      assert RowKeys(rows) - known == RowKeys(rows[1..]) - known;
    } else {
      var d, k := Discovered(rows[0], naming), KeyOf(rows[0]);
      MissingOne(log, known, rows, naming);
      DiscoveryFolds(log, rows[0], naming);
      MergeOverlays(log + [Some(d)], known + {k}, rows[1..], naming);
      assert RowKeys(rows) - known == (RowKeys(rows[1..]) - (known + {k})) + {k};
      OverlaidOnce(Folded(log), Folded(log + [Some(d)]), Folded(log + Missing(known, rows, naming)),
                   k, RowKeys(rows[1..]) - (known + {k}), naming);
    }
  }

  lemma OverlaidOnce(before: map<Value, Row>, between: map<Value, Row>, after: map<Value, Row>,
                     k: Key, added: set<Key>, naming: Key -> Value)
    requires Injective(naming) && k !in added && Overlaid(between, after, added, naming)
    requires between.Keys == before.Keys + {naming(k)} && KeyOf(between[naming(k)]) == k
    requires forall id | id in before && id != naming(k) :: between[id] == before[id]
    ensures Overlaid(before, after, added + {k}, naming)
  {
    assert Spared(naming(k), added, naming);
    assert forall id :: Spared(id, added + {k}, naming) <==> Spared(id, added, naming) && id != naming(k);
  }

  /** Some session of key `k` is filed under an id that no row still to be appended is given. */
  ghost predicate Stays(s: map<Value, Row>, k: Key, added: set<Key>, naming: Key -> Value) {
    exists id | id in s :: KeyOf(s[id]) == k && Spared(id, added, naming)
  }

  /** Merging the same rows again appends nothing if and only if each of their keys that was
      there already is also held where the first merge does not write. */
  lemma SecondMergeAppendsNothingIff(log: seq<Line>, rows: seq<Row>, naming: Key -> Value)
    requires Injective(naming) && forall row | row in rows :: Usable(row, naming)
    ensures var s := Folded(log);
            var log', added := log + Missing(KeysOf(s), rows, naming), RowKeys(rows) - KeysOf(s);
            Missing(KeysOf(Folded(log')), rows, naming) == []
            <==> forall k | k in RowKeys(rows) && k in KeysOf(s) :: Stays(s, k, added, naming)
  {
    var s := Folded(log);
    var s', added := Folded(log + Missing(KeysOf(s), rows, naming)), RowKeys(rows) - KeysOf(s);
    MergeOverlays(log, KeysOf(s), rows, naming);
    NothingMissingIff(KeysOf(s'), rows, naming);
    forall k | k in RowKeys(rows)
      ensures k in KeysOf(s') <==> k in added || Stays(s, k, added, naming)
    {
      if k in added {
        assert naming(k) in s';
      } else if k in KeysOf(s') {
        var id :| id in s' && KeyOf(s'[id]) == k;
        assert Spared(id, added, naming);
      }
    }
  }

  /** It does when every session filed under the id of some key has that key. */
  lemma SecondMergeAppendsNothing(log: seq<Line>, rows: seq<Row>, naming: Key -> Value)
    requires Injective(naming) && CarriesKeys(log, naming) && forall row | row in rows :: Usable(row, naming)
    ensures var log' := log + Missing(KeysOf(Folded(log)), rows, naming);
            Missing(KeysOf(Folded(log')), rows, naming) == []
  {
    var s := Folded(log);
    SecondMergeAppendsNothingIff(log, rows, naming);
    forall k | k in RowKeys(rows) && k in KeysOf(s)
      ensures Stays(s, k, RowKeys(rows) - KeysOf(s), naming)
    {
      var id :| id in s && KeyOf(s[id]) == k;
      assert Spared(id, RowKeys(rows) - KeysOf(s), naming);
    }
  }

  /** And it does not where the only session with one vendor row's key is filed under the id
      given to another's: appending the second takes the key away. */
  lemma WithoutTheRuleMergingRepeats(log: seq<Line>, rows: seq<Row>, first: Key, second: Key, naming: Key -> Value)
    requires Injective(naming) && forall row | row in rows :: Usable(row, naming)
    requires first in RowKeys(rows) && second in RowKeys(rows) && second !in KeysOf(Folded(log))
    requires naming(second) in Folded(log) && KeyOf(Folded(log)[naming(second)]) == first
    requires forall id | id in Folded(log) && KeyOf(Folded(log)[id]) == first :: id == naming(second)
    ensures var log' := log + Missing(KeysOf(Folded(log)), rows, naming);
            Missing(KeysOf(Folded(log')), rows, naming) != []
  {
    var s := Folded(log);
    SecondMergeAppendsNothingIff(log, rows, naming);
    assert first in KeysOf(s);
    assert second in RowKeys(rows) - KeysOf(s);
    assert !Stays(s, first, RowKeys(rows) - KeysOf(s), naming);
  }
}
