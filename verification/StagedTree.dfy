/** The tree an upgrade stages: the old canonical tree with the owner's entries copied in. */
module StagedTree {
  import opened Paths
  import opened TreeDiff

  function Elements(s: seq<Path>): set<Path> { set e | e in s }

  /** The old canonical tree with the entries copied in, one after the other. */
  function Staged(canonical: Tree, runtime: Tree, entries: seq<Path>): Tree {
    if entries == [] then canonical
    else
      var n := |entries| - 1;
      Merge(Staged(canonical, runtime, entries[..n]), runtime, entries[n])
  }

  lemma NothingBelowAbsent(t: Tree, e: Path)
    requires Rooted(t) && e !in t
    ensures Sub(t, e) == map[]
  {
    forall p | p in t
      ensures !Under(e, p)
    {
      AncestorsAbove(p, e);
    }
  }

  lemma {:induction false} StagedMisses(c: Tree, r: Tree, entries: seq<Path>, x: Path)
    requires forall e | e in entries :: !Under(x, e) && !Under(e, x)
    ensures Sub(Staged(c, r, entries), x) == Sub(c, x)
  {
    if entries != [] {
      var n := |entries| - 1;
      StagedMisses(c, r, entries[..n], x);
      MergeMissesOthers(Staged(c, r, entries[..n]), r, entries[n], x);
    }
  }

  lemma PrefixFreeLast(entries: seq<Path>, x: Path)
    requires PrefixFree(entries) && entries != [] && x in entries[..|entries| - 1]
    ensures !Under(x, entries[|entries| - 1]) && !Under(entries[|entries| - 1], x)
  {
  }

  lemma {:induction false} StagedHolds(c: Tree, r: Tree, entries: seq<Path>, e: Path)
    requires Rooted(c) && PrefixFree(entries) && e in entries && e !in c
    ensures Sub(Staged(c, r, entries), e) == Sub(r, e)
  {
    var n := |entries| - 1;
    forall x | x in entries[..n]
      ensures !Under(x, entries[n]) && !Under(entries[n], x)
    {
      PrefixFreeLast(entries, x);
    }
    if entries[n] == e {
      StagedMisses(c, r, entries[..n], e);
      NothingBelowAbsent(c, e);
      MergeHoldsEntry(Staged(c, r, entries[..n]), r, e);
    } else {
      StagedHolds(c, r, entries[..n], e);
      MergeMissesOthers(Staged(c, r, entries[..n]), r, entries[n], e);
    }
  }

  /** The staged tree path by path: the owner's entries, else what was there, else the
      directories that lead to an entry. */
  lemma StagedIs(c: Tree, r: Tree, entries: seq<Path>, p: Path)
    requires Rooted(c) && PrefixFree(entries) && forall e | e in entries :: e !in c
    ensures var t := Staged(c, r, entries);
            if UnderAny(Elements(entries), p) then AlikeAt(t, r, p)
            else if p in c then AlikeAt(t, c, p)
            else if exists e | e in entries :: p in Ancestors(e) then p in t && t[p] == DirNode
            else p !in t
  {
    if e :| e in Elements(entries) && Under(e, p) {
      StagedHolds(c, r, entries, e);
      SubAlike(Staged(c, r, entries), r, e, p);
    } else {
      StagedElsewhere(c, r, entries, p);
    }
  }

  lemma {:induction false} StagedElsewhere(c: Tree, r: Tree, entries: seq<Path>, p: Path)
    requires forall e | e in entries :: !Under(e, p)
    ensures var t := Staged(c, r, entries);
            if p in c then AlikeAt(t, c, p)
            else if exists e | e in entries :: p in Ancestors(e) then p in t && t[p] == DirNode
            else p !in t
  {
    if entries != [] {
      var n := |entries| - 1;
      StagedElsewhere(c, r, entries[..n], p);
      assert p !in Sub(r, entries[n]);
      assert forall e | e in entries :: e in entries[..n] || e == entries[n];
    }
  }

  /** Copying one more entry keeps two trees alike off the entries copied. */
  lemma CopiesAlike(t: Tree, u: Tree, s: set<Path>, e: Path, sub: Tree, sub': Tree)
    requires AlikeOff(t, u, s) && forall x | x in s :: !Under(x, e)
    requires forall p | p in sub || p in sub' :: Under(e, p)
    ensures AlikeOff(WithParents(t, e) + sub, WithParents(u, e) + sub', s + {e})
  {
    var t', u' := WithParents(t, e) + sub, WithParents(u, e) + sub';
    forall p | !UnderAny(s + {e}, p)
      ensures AlikeAt(t', u', p)
    {
      assert UnderAny(s, p) ==> UnderAny(s + {e}, p);
      assert e in s + {e};
      assert AlikeAt(t, u, p);
    }
  }
}
