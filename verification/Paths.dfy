/** Slash-separated relative paths and directory trees as path maps. */
module Paths {

  type Path = string

  /** `q` lies strictly below `p`. */
  predicate Extends(p: Path, q: Path) { p + "/" <= q }

  /** `q` is `p` or lies below it. */
  predicate Under(p: Path, q: Path) { p == q || Extends(p, q) }

  predicate PrefixFree(paths: seq<Path>) {
    forall i, j | 0 <= i < |paths| && 0 <= j < |paths| && i != j :: !Under(paths[i], paths[j])
  }

  lemma ExtendsAt(p: Path, q: Path)
    ensures Extends(p, q) <==> |p| < |q| && q[..|p|] == p && q[|p|] == '/'
  {
  }

  lemma UnderTransitive(p: Path, q: Path, r: Path)
    requires Under(p, q) && Under(q, r)
    ensures Under(p, r)
  {
  }

  /** Two paths above a third are comparable. */
  lemma AboveComparable(p: Path, q: Path, r: Path)
    requires Under(p, r) && Under(q, r)
    ensures Under(p, q) || Under(q, p)
  {
    ExtendsAt(p, r);
    ExtendsAt(q, r);
    ExtendsAt(p, q);
    ExtendsAt(q, p);
    if |p| < |q| {
      assert q[..|p|] == r[..|q|][..|p|] == r[..|p|];
      assert q[|p|] == r[..|q|][|p|];
    } else if |q| < |p| {
      assert p[..|q|] == r[..|p|][..|q|] == r[..|q|];
      assert p[|q|] == r[..|p|][|q|];
    }
  }

  // ---------------------------------------------------------------- trees

  datatype Node = DirNode | FileNode(content: string) | LinkNode(target: Path)

  type Tree = map<Path, Node>

  /** What lies at `e` and below. */
  function Sub(t: Tree, e: Path): Tree { t - (set p | p in t && !Under(e, p)) }

  function Without(t: Tree, e: Path): Tree { t - (set p | p in t && Under(e, p)) }

  /** Every ancestor of an entry is a directory of the tree. */
  predicate Rooted(t: Tree) {
    forall p, a | p in t && a in Ancestors(p) :: a in t && t[a] == DirNode
  }

  function Ancestors(p: Path): set<Path> { set i | 0 <= i < |p| && p[i] == '/' :: p[..i] }

  lemma AncestorsAbove(p: Path, a: Path)
    ensures a in Ancestors(p) <==> Extends(a, p)
  {
    ExtendsAt(a, p);
    if Extends(a, p) {
      assert a == p[..|a|];
    }
  }

  /** Parents that cannot be made because something else is in the way. */
  predicate ParentsBlocked(t: Tree, e: Path) { exists a | a in Ancestors(e) :: a in t && t[a] != DirNode }

  /** Those missing parents of `e` that `made` names, made. */
  function WithSome(t: Tree, e: Path, made: set<Path>): Tree {
    t + map a | a in Ancestors(e) && a in made && a !in t :: DirNode
  }

  function WithParents(t: Tree, e: Path): Tree { WithSome(t, e, Ancestors(e)) }

  /** `e` and everything below it taken from `source` into `t`, at the same place. */
  function Merge(t: Tree, source: Tree, e: Path): Tree { WithParents(t, e) + Sub(source, e) }

  lemma ParentsMiss(t: Tree, e: Path, made: set<Path>, other: Path)
    requires !Extends(other, e)
    ensures Sub(WithSome(t, e, made), other) == Sub(t, other)
  {
  }

  lemma MergeMissesOthers(t: Tree, source: Tree, e: Path, other: Path)
    requires !Under(other, e) && !Under(e, other)
    ensures Sub(Merge(t, source, e), other) == Sub(t, other)
  {
    ParentsMiss(t, e, Ancestors(e), other);
    forall p | Under(e, p)
      ensures !Under(other, p)
    {
      if Under(other, p) { AboveComparable(e, other, p); }
    }
    assert Sub(Merge(t, source, e), other) == Sub(WithParents(t, e), other);
  }

  lemma MergeHoldsEntry(t: Tree, source: Tree, e: Path)
    requires Sub(t, e) == map[]
    ensures Sub(Merge(t, source, e), e) == Sub(source, e)
  {
    var m := Merge(t, source, e);
    forall p | p in m && Under(e, p)
      ensures p in source && m[p] == source[p]
    {
      if p !in source {
        assert p !in Sub(t, e);
        AncestorsAbove(e, p);
        ExtendsAt(p, e);
        ExtendsAt(e, p);
      }
    }
  }

  /** Where the parents of an entry are there already, making them changes nothing. */
  lemma ParentsThere(t: Tree, e: Path, made: set<Path>)
    requires forall a | a in Ancestors(e) :: a in t
    ensures WithSome(t, e, made) == t
  {
  }
}
