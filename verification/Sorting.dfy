/** The order of strings, and sorting by it. */
module Sorting {

  /** The order strings are sorted by. */
  predicate Le(a: string, b: string) {
    if a == "" then true
    else if b == "" then false
    else a[0] < b[0] || (a[0] == b[0] && Le(a[1..], b[1..]))
  }

  /** One string starts the other, or where they first differ it has the smaller character. */
  predicate Before(a: string, b: string) {
    a <= b || exists k | 0 <= k < |a| && k < |b| :: a[..k] == b[..k] && a[k] < b[k]
  }

  lemma {:induction false} LeMeans(a: string, b: string)
    ensures Le(a, b) <==> Before(a, b)
  {
    if a != "" && b != "" {
      if a[0] == b[0] {
        LeMeans(a[1..], b[1..]);
        assert a == [a[0]] + a[1..] && b == [b[0]] + b[1..];
        if Le(a, b) && !(a <= b) {
          var k :| 0 <= k < |a[1..]| && k < |b[1..]| && a[1..][..k] == b[1..][..k] && a[1..][k] < b[1..][k];
          assert a[..k + 1] == [a[0]] + a[1..][..k] && b[..k + 1] == [b[0]] + b[1..][..k];
        }
        if k :| 0 <= k < |a| && k < |b| && a[..k] == b[..k] && a[k] < b[k] {
          assert k > 0;
          assert a[1..][..k - 1] == a[..k][1..] && b[1..][..k - 1] == b[..k][1..];
        }
      } else {
        assert a[..0] == b[..0];
        forall k | 0 < k < |a| && k < |b|
          ensures a[..k] != b[..k]
        {
          assert a[..k][0] != b[..k][0];
        }
      }
    }
  }

  lemma {:induction false} LeAntisymmetric(a: string, b: string)
    requires Le(a, b) && Le(b, a)
    ensures a == b
  {
    if a != "" && b != "" {
      LeAntisymmetric(a[1..], b[1..]);
      assert a == [a[0]] + a[1..] && b == [b[0]] + b[1..];
    }
  }

  lemma {:induction false} LeTransitive(a: string, b: string, c: string)
    requires Le(a, b) && Le(b, c)
    ensures Le(a, c)
  {
    if a != "" && a[0] == b[0] == c[0] { LeTransitive(a[1..], b[1..], c[1..]); }
  }

  lemma {:induction false} LeTotal(a: string, b: string)
    ensures Le(a, b) || Le(b, a)
  {
    if a != "" && b != "" { LeTotal(a[1..], b[1..]); }
  }

  /** A string sorts before whatever starts with it. */
  lemma {:induction false} PrefixSortsFirst(a: string, b: string)
    requires a <= b
    ensures Le(a, b)
  {
    if a != "" { PrefixSortsFirst(a[1..], b[1..]); }
  }

  predicate Ordered(s: seq<string>) { forall i, j | 0 <= i < j < |s| :: Le(s[i], s[j]) }

  function Inserted(s: seq<string>, x: string): seq<string> {
    if s == [] || Le(x, s[0]) then [x] + s else [s[0]] + Inserted(s[1..], x)
  }

  function Sorted(s: seq<string>): seq<string> {
    if s == [] then [] else Inserted(Sorted(s[1..]), s[0])
  }

  lemma {:induction false} InsertedHolds(s: seq<string>, x: string)
    ensures multiset(Inserted(s, x)) == multiset(s) + multiset{x}
  {
    if s != [] && !Le(x, s[0]) {
      InsertedHolds(s[1..], x);
      assert s == [s[0]] + s[1..];
    }
  }

  lemma {:induction false} InsertedOrdered(s: seq<string>, x: string)
    requires Ordered(s)
    ensures Ordered(Inserted(s, x))
  {
    if s == [] {
    } else if Le(x, s[0]) {
      forall k | 0 <= k < |s|
        ensures Le(x, s[k])
      {
        if k > 0 { LeTransitive(x, s[0], s[k]); }
      }
    } else {
      LeTotal(x, s[0]);
      InsertedOrdered(s[1..], x);
      InsertedHolds(s[1..], x);
      var rest := Inserted(s[1..], x);
      forall k | 0 <= k < |rest|
        ensures Le(s[0], rest[k])
      {
        assert rest[k] in multiset(rest);
        if rest[k] != x { assert rest[k] in s[1..]; }
      }
    }
  }

  lemma {:induction false} SortedIsSorted(s: seq<string>)
    ensures Ordered(Sorted(s)) && multiset(Sorted(s)) == multiset(s)
  {
    if s != [] {
      SortedIsSorted(s[1..]);
      InsertedOrdered(Sorted(s[1..]), s[0]);
      InsertedHolds(Sorted(s[1..]), s[0]);
      assert s == [s[0]] + s[1..];
    }
  }
}
