/** The rule a state manifest must meet: no expanded path occurs twice for one vendor, and
    none lies below another.  The migration's move and restore loops rely on it. */
module Manifest {
  import opened Paths
  import opened Sorting
  import Migration

  datatype Kind = Directory | File | SqliteFamily

  datatype Item = Item(vendor: string, path: Path, kind: Kind)

  function Family(path: Path, kind: Kind): seq<Path> {
    if kind == SqliteFamily then [path, path + "-wal", path + "-shm"] else [path]
  }

  /** All expanded paths of one vendor, in manifest order. */
  function Expanded(items: seq<Item>, vendor: string): seq<Path> {
    if items == [] then []
    else
      var last := items[|items| - 1];
      Expanded(items[..|items| - 1], vendor) + if last.vendor == vendor then Family(last.path, last.kind) else []
  }

  // ---------------------------------------------------------------- looking forward

  /** In sorted order an extension never comes first, so looking forward is enough. */
  lemma ExtensionsComeLater(s: seq<Path>, i: nat, j: nat)
    requires Ordered(s) && i < |s| && j < |s| && Extends(s[i], s[j])
    ensures i < j
  {
    assert |s[i] + "/"| == |s[i]| + 1;
    assert s[i] <= s[i] + "/" <= s[j];
    PrefixSortsFirst(s[i], s[j]);
    if j < i { LeAntisymmetric(s[i], s[j]); }
  }

  // ---------------------------------------------------------------- the rule

  predicate NoRepeats(s: seq<Path>) { forall i, j | 0 <= i < j < |s| :: s[i] != s[j] }

  predicate NoOverlap(s: seq<Path>) { forall p, q | p in s && q in s :: !Extends(p, q) }

  lemma PrefixFreeParts(s: seq<Path>)
    ensures PrefixFree(s) <==> NoRepeats(s) && NoOverlap(s)
  {
  }

  /** The scan of one vendor's sorted paths. */
  method Overlapping(paths: seq<Path>) returns (found: bool)
    ensures found <==> !NoOverlap(paths)
  {
    var ordered := Sorted(paths);
    SortedIsSorted(paths);
    SameElements(ordered, paths);
    for i := 0 to |ordered|
      invariant forall a, b | 0 <= a < i && a < b < |ordered| :: !Extends(ordered[a], ordered[b])
    {
      for j := i + 1 to |ordered|
        invariant forall b | i < b < j :: !Extends(ordered[i], ordered[b])
      {
        if Extends(ordered[i], ordered[j]) {
          assert ordered[i] in paths && ordered[j] in paths;
          return true;
        }
      }
    }
    forall p, q | p in paths && q in paths
      ensures !Extends(p, q)
    {
      var a :| 0 <= a < |ordered| && ordered[a] == p;
      var b :| 0 <= b < |ordered| && ordered[b] == q;
      if Extends(p, q) { ExtensionsComeLater(ordered, a, b); }
    }
    return false;
  }

  lemma SameElements(s: seq<Path>, t: seq<Path>)
    requires multiset(s) == multiset(t)
    ensures forall p :: p in s <==> p in t
  {
    forall p
      ensures p in s <==> p in t
    {
      assert p in s <==> p in multiset(s);
      assert p in t <==> p in multiset(t);
    }
  }

  function PathsOf(paths: map<string, seq<Path>>, v: string): seq<Path> { if v in paths then paths[v] else [] }

  /** What the first loop has gathered of one vendor from the items read so far. */
  ghost predicate Gathered(items: seq<Item>, expanded: set<(string, Path)>, paths: map<string, seq<Path>>, v: string) {
    && PathsOf(paths, v) == Expanded(items, v) && NoRepeats(PathsOf(paths, v))
    && (forall p :: (v, p) in expanded <==> p in PathsOf(paths, v))
  }

  function Tagged(v: string, family: seq<Path>): set<(string, Path)> { set p | p in family :: (v, p) }

  lemma GatheredOne(items: seq<Item>, item: Item, expanded: set<(string, Path)>, paths: map<string, seq<Path>>,
                    v: string)
    requires Gathered(items, expanded, paths, v)
    requires v == item.vendor ==> forall p | p in Family(item.path, item.kind) :: p !in PathsOf(paths, v)
    ensures var family := Family(item.path, item.kind);
            Gathered(items + [item], expanded + Tagged(item.vendor, family),
                     paths[item.vendor := PathsOf(paths, item.vendor) + family], v)
  {
    assert (items + [item])[..|items|] == items;
    if v == item.vendor { FamilyFresh(PathsOf(paths, v), item.path, item.kind); }
  }

  /** The first loop: refuse a path seen before. */
  method Gather(items: seq<Item>) returns (ok: bool, paths: map<string, seq<Path>>)
    ensures ok ==> forall v {:trigger PathsOf(paths, v)} ::
            PathsOf(paths, v) == Expanded(items, v) && NoRepeats(PathsOf(paths, v))
    ensures !ok ==> exists v {:trigger Expanded(items, v)} :: !NoRepeats(Expanded(items, v))
  {
    var keys: set<(string, Path)>, expanded: set<(string, Path)> := {}, {};
    paths := map[];
    assert items[..0] == [];
    for i := 0 to |items|
      invariant forall v {:trigger Gathered(items[..i], expanded, paths, v)} :: Gathered(items[..i], expanded, paths, v)
      invariant keys <= expanded
    {
      var v, family := items[i].vendor, Family(items[i].path, items[i].kind);
      assert items[..i + 1] == items[..i] + [items[i]];
      assert Gathered(items[..i], expanded, paths, v);
      if (v, items[i].path) in keys {
        RepeatRefuses(items, i, family[0]);
        return false, paths;
      }
      for k := 0 to |family|
        invariant forall a | 0 <= a < k :: family[a] !in PathsOf(paths, v)
      {
        if (v, family[k]) in expanded {
          RepeatRefuses(items, i, family[k]);
          return false, paths;
        }
      }
      ghost var before, seen := paths, expanded;
      keys, expanded := keys + {(v, items[i].path)}, expanded + Tagged(v, family);
      paths := paths[v := PathsOf(paths, v) + family];
      assert (v, family[0]) in Tagged(v, family);
      forall u {:trigger Gathered(items[..i + 1], expanded, paths, u)}
        ensures Gathered(items[..i + 1], expanded, paths, u)
      {
        assert Gathered(items[..i], seen, before, u);
        GatheredOne(items[..i], items[i], seen, before, u);
      }
    }
    assert items[..|items|] == items;
    forall v {:trigger PathsOf(paths, v)}
      ensures PathsOf(paths, v) == Expanded(items, v) && NoRepeats(PathsOf(paths, v))
    {
      assert Gathered(items, expanded, paths, v);
    }
    ok := true;
  }

  /** Acceptance is exactly prefix-freeness of every vendor's expanded paths. */
  method Accepts(items: seq<Item>) returns (ok: bool)
    ensures ok <==> forall v {:trigger Expanded(items, v)} :: PrefixFree(Expanded(items, v))
    // item by item
    ensures ok <==> forall i, k | 0 <= i < |items| && 0 <= k < |items| && i != k
            && items[i].vendor == items[k].vendor ::
              StayApart(items[i], items[k])
  {
    ok := CheckAll(items);
    forall v
      ensures PrefixFree(Expanded(items, v)) <==> ApartFor(items, v)
    {
      ExpandedApartIff(items, v);
    }
    if ok {
      forall i, k | 0 <= i < |items| && 0 <= k < |items| && i != k && items[i].vendor == items[k].vendor
        ensures StayApart(items[i], items[k])
      {
        assert PrefixFree(Expanded(items, items[i].vendor));
        assert ApartFor(items, items[i].vendor);
      }
    } else {
      var v :| !PrefixFree(Expanded(items, v));
      assert !ApartFor(items, v);
    }
  }

  /** The two loops themselves. */
  method CheckAll(items: seq<Item>) returns (ok: bool)
    ensures ok <==> forall v {:trigger Expanded(items, v)} :: PrefixFree(Expanded(items, v))
  {
    var paths;
    ok, paths := Gather(items);
    if !ok {
      forall v
        ensures PrefixFree(Expanded(items, v)) ==> NoRepeats(Expanded(items, v))
      {
        PrefixFreeParts(Expanded(items, v));
      }
      return;
    }
    var rest := paths.Keys;
    while rest != {}
      invariant rest <= paths.Keys
      invariant forall v | v in paths && v !in rest :: NoOverlap(PathsOf(paths, v))
    {
      var v :| v in rest;
      var found := Overlapping(PathsOf(paths, v));
      if found {
        assert PathsOf(paths, v) == Expanded(items, v);
        PrefixFreeParts(Expanded(items, v));
        assert !PrefixFree(Expanded(items, v));
        return false;
      }
      rest := rest - {v};
    }
    forall v
      ensures PrefixFree(Expanded(items, v))
    {
      assert PathsOf(paths, v) == Expanded(items, v);
      PrefixFreeParts(Expanded(items, v));
    }
  }

  /** A file an item stands for: its path, and of a database the write-ahead log and the index
      beside it too. */
  predicate StandsFor(item: Item, p: Path) {
    p == item.path || (item.kind == SqliteFamily && (p == item.path + "-wal" || p == item.path + "-shm"))
  }

  /** None of the one's is one of the other's, or has one of the other's below it. */
  ghost predicate StayApart(a: Item, b: Item) {
    forall p, q | StandsFor(a, p) && StandsFor(b, q) :: p != q && !(p + "/" <= q)
  }

  ghost predicate ApartFor(items: seq<Item>, v: string) {
    forall i, k | 0 <= i < |items| && 0 <= k < |items| && i != k && items[i].vendor == v && items[k].vendor == v ::
      StayApart(items[i], items[k])
  }

  lemma FamilyStands(item: Item, p: Path)
    ensures p in Family(item.path, item.kind) <==> StandsFor(item, p)
  {
  }

  lemma {:induction false} ExpandedStands(items: seq<Item>, v: string, p: Path)
    ensures p in Expanded(items, v) <==> exists i | 0 <= i < |items| :: items[i].vendor == v && StandsFor(items[i], p)
  {
    if items != [] {
      var n := |items| - 1;
      ExpandedStands(items[..n], v, p);
      FamilyStands(items[n], p);
      if i :| 0 <= i < |items[..n]| && items[..n][i].vendor == v && StandsFor(items[..n][i], p) {
        assert items[i].vendor == v && StandsFor(items[i], p);
      }
      if i :| 0 <= i < |items| && items[i].vendor == v && StandsFor(items[i], p) {
        assert i == n || items[..n][i].vendor == v;
      }
    }
  }

  ghost predicate Asunder(s: seq<Path>, t: seq<Path>) { forall p, q | p in s && q in t :: !Under(p, q) && !Under(q, p) }

  /** Apart in themselves and from each other. */
  lemma JoinedPrefixFree(s: seq<Path>, t: seq<Path>)
    ensures PrefixFree(s + t) <==> PrefixFree(s) && PrefixFree(t) && Asunder(s, t)
  {
    if PrefixFree(s + t) { PartsPrefixFree(s, t); }
    if PrefixFree(s) && PrefixFree(t) && Asunder(s, t) {
      var all := s + t;
      forall i, j | 0 <= i < |all| && 0 <= j < |all| && i != j
        ensures !Under(all[i], all[j])
      {
        if i < |s| && j < |s| {
          assert !Under(s[i], s[j]);
        } else if i >= |s| && j >= |s| {
          assert !Under(t[i - |s|], t[j - |s|]);
        }
      }
    }
  }

  lemma PartsPrefixFree(s: seq<Path>, t: seq<Path>)
    requires PrefixFree(s + t)
    ensures PrefixFree(s) && PrefixFree(t) && Asunder(s, t)
  {
    var all := s + t;
    forall i, j | 0 <= i < |s| && 0 <= j < |s| && i != j
      ensures !Under(s[i], s[j])
    {
      assert !Under(all[i], all[j]);
    }
    forall i, j | 0 <= i < |t| && 0 <= j < |t| && i != j
      ensures !Under(t[i], t[j])
    {
      assert !Under(all[|s| + i], all[|s| + j]);
    }
    forall p, q | p in s && q in t
      ensures !Under(p, q) && !Under(q, p)
    {
      var i :| 0 <= i < |s| && s[i] == p;
      var j :| 0 <= j < |t| && t[j] == q;
      assert !Under(all[i], all[|s| + j]) && !Under(all[|s| + j], all[i]);
    }
  }

  lemma FamilyPrefixFree(path: Path, kind: Kind)
    ensures PrefixFree(Family(path, kind))
  {
    if kind == SqliteFamily {
      var family := Family(path, kind);
      assert family[1][|path| + 1] == 'w' && family[2][|path| + 1] == 's';
      assert family[1][|path|] == '-' && family[2][|path|] == '-';
      forall i, j | 0 <= i < 3 && 0 <= j < 3 && i != j
        ensures !Under(family[i], family[j])
      {
        ExtendsAt(family[i], family[j]);
      }
    }
  }

  lemma {:induction false} ExpandedApartIff(items: seq<Item>, v: string)
    ensures PrefixFree(Expanded(items, v)) <==> ApartFor(items, v)
  {
    if items != [] {
      var n := |items| - 1;
      ExpandedApartIff(items[..n], v);
      if items[n].vendor == v {
        JoinedPrefixFree(Expanded(items[..n], v), Family(items[n].path, items[n].kind));
        FamilyPrefixFree(items[n].path, items[n].kind);
      } else {
        assert Expanded(items[..n], v) + [] == Expanded(items[..n], v);
      }
      LastApartIff(items, v);
    }
  }

  ghost predicate LastApart(items: seq<Item>, v: string)
    requires items != []
  {
    var n := |items| - 1;
    items[n].vendor == v ==> Asunder(Expanded(items[..n], v), Family(items[n].path, items[n].kind))
  }

  lemma LastApartIff(items: seq<Item>, v: string)
    requires items != []
    ensures ApartFor(items, v) <==> ApartFor(items[..|items| - 1], v) && LastApart(items, v)
  {
    if ApartFor(items, v) { ApartParts(items, v); }
    if ApartFor(items[..|items| - 1], v) && LastApart(items, v) {
      var n := |items| - 1;
      forall i, k | 0 <= i < |items| && 0 <= k < |items| && i != k && items[i].vendor == v && items[k].vendor == v
        ensures StayApart(items[i], items[k])
      {
        if i < n && k < n {
          assert StayApart(items[..n][i], items[..n][k]);
        } else {
          ApartFromLast(items, v, if i < n then i else k);
        }
      }
    }
  }

  lemma ApartFromLast(items: seq<Item>, v: string, i: nat)
    requires i < |items| - 1 && items[i].vendor == v && items[|items| - 1].vendor == v && LastApart(items, v)
    ensures StayApart(items[i], items[|items| - 1]) && StayApart(items[|items| - 1], items[i])
  {
    var n := |items| - 1;
    forall p, q | StandsFor(items[i], p) && StandsFor(items[n], q)
      ensures p != q && !(p + "/" <= q) && !(q + "/" <= p)
    {
      assert items[..n][i].vendor == v && StandsFor(items[..n][i], p);
      ExpandedStands(items[..n], v, p);
      FamilyStands(items[n], q);
      assert !Under(p, q) && !Under(q, p);
    }
  }

  lemma ApartParts(items: seq<Item>, v: string)
    requires items != [] && ApartFor(items, v)
    ensures ApartFor(items[..|items| - 1], v) && LastApart(items, v)
  {
    var n := |items| - 1;
    forall i, k | 0 <= i < n && 0 <= k < n && i != k && items[..n][i].vendor == v && items[..n][k].vendor == v
      ensures StayApart(items[..n][i], items[..n][k])
    {
      assert StayApart(items[i], items[k]);
    }
    if items[n].vendor == v {
      forall p, q | p in Expanded(items[..n], v) && q in Family(items[n].path, items[n].kind)
        ensures !Under(p, q) && !Under(q, p)
      {
        ExpandedStands(items[..n], v, p);
        FamilyStands(items[n], q);
        var i :| 0 <= i < n && items[..n][i].vendor == v && StandsFor(items[..n][i], p);
        assert StayApart(items[i], items[n]) && StayApart(items[n], items[i]);
      }
    }
  }

  lemma FamilyFresh(before: seq<Path>, path: Path, kind: Kind)
    requires NoRepeats(before) && forall p | p in Family(path, kind) :: p !in before
    ensures NoRepeats(before + Family(path, kind))
  {
    var family := Family(path, kind);
    assert kind == SqliteFamily ==> family[1][|path| + 1] == 'w' && family[2][|path| + 1] == 's';
    assert forall a | 0 <= a < |family| :: family[a] in family;
  }

  /** A path seen before makes some vendor's list repeat itself. */
  lemma RepeatRefuses(items: seq<Item>, i: nat, p: Path)
    requires i < |items| && p in Family(items[i].path, items[i].kind) && p in Expanded(items[..i], items[i].vendor)
    ensures !NoRepeats(Expanded(items, items[i].vendor))
  {
    var v := items[i].vendor;
    ExpandedOne(items, i);
    ExpandedGrows(items, i + 1, v);
    RepeatedStays(Expanded(items[..i], v), Family(items[i].path, items[i].kind), Expanded(items, v), p);
  }

  lemma ExpandedOne(items: seq<Item>, i: nat)
    requires i < |items|
    ensures Expanded(items[..i + 1], items[i].vendor)
            == Expanded(items[..i], items[i].vendor) + Family(items[i].path, items[i].kind)
  {
    assert items[..i + 1][..i] == items[..i];
  }

  lemma RepeatedStays(before: seq<Path>, family: seq<Path>, all: seq<Path>, p: Path)
    requires p in before && p in family && before + family <= all
    ensures !NoRepeats(all)
  {
    var a :| 0 <= a < |before| && before[a] == p;
    var b :| 0 <= b < |family| && family[b] == p;
    assert all[a] == (before + family)[a] && all[|before| + b] == (before + family)[|before| + b];
  }

  lemma {:induction false} ExpandedGrows(items: seq<Item>, i: nat, vendor: string)
    requires i <= |items|
    ensures Expanded(items[..i], vendor) <= Expanded(items, vendor)
  {
    if i == |items| {
      assert items[..i] == items;
    } else {
      ExpandedGrows(items[..|items| - 1], i, vendor);
      assert items[..|items| - 1][..i] == items[..i];
    }
  }

  // ---------------------------------------------------------------- what the migration gets

  /** The entries the migration works on. */
  function EntriesFor(items: seq<Item>, vendor: string): seq<Migration.Entry> {
    if items == [] then []
    else
      var last := items[|items| - 1];
      EntriesFor(items[..|items| - 1], vendor)
      + if last.vendor != vendor then []
        else if last.kind == SqliteFamily then
          [Migration.Entry(last.path, false), Migration.Entry(last.path + "-wal", false),
              Migration.Entry(last.path + "-shm", false)]
        else [Migration.Entry(last.path, last.kind == Directory)]
  }

  lemma {:induction false} EntriesAreExpanded(items: seq<Item>, vendor: string)
    ensures Migration.PathsOf(EntriesFor(items, vendor)) == Expanded(items, vendor)
  {
    if items != [] { EntriesAreExpanded(items[..|items| - 1], vendor); }
  }

  /** A manifest the rule accepts meets what the migration requires, for every vendor. */
  lemma AcceptedSuitsMigration(items: seq<Item>, vendor: string)
    requires forall v {:trigger Expanded(items, v)} :: PrefixFree(Expanded(items, v))
    ensures PrefixFree(Migration.PathsOf(EntriesFor(items, vendor)))
  {
    EntriesAreExpanded(items, vendor);
  }
}
