/** Directory trees that differ only under some entries. */
module TreeDiff {
  import opened Paths

  predicate UnderAny(s: set<Path>, p: Path) { exists e | e in s :: Under(e, p) }

  /** The two trees show the same at `p`. */
  predicate AlikeAt(t: Tree, u: Tree, p: Path) { if p in t then p in u && t[p] == u[p] else p !in u }

  /** The two trees differ only under `s`. */
  ghost predicate AlikeOff(t: Tree, u: Tree, s: set<Path>) {
    forall p {:trigger AlikeAt(t, u, p)} | !UnderAny(s, p) :: AlikeAt(t, u, p)
  }

  lemma SubAlike(t: Tree, u: Tree, e: Path, p: Path)
    requires Sub(t, e) == Sub(u, e) && Under(e, p)
    ensures AlikeAt(t, u, p)
  {
    assert p in t <==> p in Sub(t, e);
    assert p in u <==> p in Sub(u, e);
  }

  lemma WithoutAlike(t: Tree, u: Tree, e: Path, p: Path)
    requires Without(t, e) == Without(u, e) && !Under(e, p)
    ensures AlikeAt(t, u, p)
  {
    assert p in t <==> p in Without(t, e);
    assert p in u <==> p in Without(u, e);
  }

  lemma AlikeSubs(t: Tree, u: Tree, e: Path)
    requires forall p {:trigger AlikeAt(t, u, p)} | Under(e, p) :: AlikeAt(t, u, p)
    ensures Sub(t, e) == Sub(u, e)
  {
    forall p
      ensures AlikeAt(Sub(t, e), Sub(u, e), p)
    {
      assert Under(e, p) ==> AlikeAt(t, u, p);
    }
    AlikeIsSame(Sub(t, e), Sub(u, e));
  }

  lemma AlikeIsSame(t: Tree, u: Tree)
    requires forall p {:trigger AlikeAt(t, u, p)} :: AlikeAt(t, u, p)
    ensures t == u
  {
    forall p
      ensures p in t <==> p in u
      ensures p in t ==> t[p] == u[p]
    {
      assert AlikeAt(t, u, p);
    }
  }

  lemma AlikeKeepsOthers(t: Tree, u: Tree, s: set<Path>, e: Path)
    requires AlikeOff(t, u, s) && forall x | x in s :: !Under(x, e) && !Under(e, x)
    ensures Sub(t, e) == Sub(u, e)
  {
    forall p | Under(e, p)
      ensures AlikeAt(t, u, p)
    {
      if x :| x in s && Under(x, p) { AboveComparable(x, e, p); }
    }
    AlikeSubs(t, u, e);
  }

  /** Two trees that agree off some entries and on each of them are the same tree. */
  lemma SamePiecewise(t: Tree, u: Tree, s: set<Path>)
    requires AlikeOff(t, u, s) && forall e | e in s :: Sub(t, e) == Sub(u, e)
    ensures t == u
  {
    forall p
      ensures AlikeAt(t, u, p)
    {
      if e :| e in s && Under(e, p) { SubAlike(t, u, e, p); }
    }
    AlikeIsSame(t, u);
  }

  /** A change under `e` alone does not show once `e` is left out. */
  lemma AlikeAdds(t: Tree, u: Tree, t': Tree, s: set<Path>, e: Path)
    requires AlikeOff(t, u, s) && Without(t', e) == Without(t, e)
    ensures AlikeOff(t', u, s + {e})
  {
    forall p | !UnderAny(s + {e}, p)
      ensures AlikeAt(t', u, p)
    {
      assert UnderAny(s, p) ==> UnderAny(s + {e}, p);
      assert e in s + {e};
      WithoutAlike(t', t, e, p);
      assert AlikeAt(t, u, p);
    }
  }

  /** Put back what was there, and `e` need not be left out any more. */
  lemma AlikeShrinks(t: Tree, u: Tree, t': Tree, s: set<Path>, e: Path)
    requires AlikeOff(t, u, s) && Without(t', e) == Without(t, e) && Sub(t', e) == Sub(u, e)
    ensures AlikeOff(t', u, s - {e})
  {
    forall p | !UnderAny(s - {e}, p)
      ensures AlikeAt(t', u, p)
    {
      if Under(e, p) {
        SubAlike(t', u, e, p);
      } else {
        assert forall x | x in s && Under(x, p) :: x in s - {e};
        WithoutAlike(t', t, e, p);
        assert AlikeAt(t, u, p);
      }
    }
  }
}
