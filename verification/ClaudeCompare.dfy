/** Comparing desired settings with active ones, apart from the strings the vendor owns. */
module ClaudeCompare {
  import opened Options
  import opened Sorting

  /** JSON as it is read: numbers of different types are different values, and a float is the
      number its digits were read as, or one of the three that are none. */
  datatype Json =
    | Null | Boolean(b: bool) | Integer(n: int) | Float(value: real) | Infinity(negative: bool) | NotANumber
    | Text(s: string) | List(items: seq<Json>) | Object(fields: map<string, Json>)

  const VENDOR_OWNED := ["theme", "tui"]

  // ---------------------------------------------------------------- strict equality

  predicate SameValue(expected: Json, actual: Json) {
    match expected
    case Object(fields) =>
      && actual.Object? && fields.Keys == actual.fields.Keys
      && forall key | key in fields :: SameValue(fields[key], actual.fields[key])
    case List(items) =>
      && actual.List? && |items| == |actual.items|
      && forall i | 0 <= i < |items| :: SameValue(items[i], actual.items[i])
    case NotANumber => false
    case _ => expected == actual
  }

  /** No value that differs from itself occurs in it. */
  predicate Numeric(j: Json) {
    match j
    case Object(fields) => forall key | key in fields :: Numeric(fields[key])
    case List(items) => forall i | 0 <= i < |items| :: Numeric(items[i])
    case _ => j != NotANumber
  }

  predicate Equal(expected: Json, actual: Json) { expected == actual && Numeric(expected) }

  /** The recursive comparison is equality, at every depth and with every type, exactly where
      no NaN occurs; where one does, nothing is the same as it. */
  lemma {:induction false} SameValueIff(expected: Json, actual: Json)
    ensures SameValue(expected, actual) <==> Equal(expected, actual)
    decreases expected
  {
    match expected
    case Object(fields) =>
      if actual.Object? && fields.Keys == actual.fields.Keys {
        forall key | key in fields
          ensures SameValue(fields[key], actual.fields[key]) <==> Equal(fields[key], actual.fields[key])
        {
          SameValueIff(fields[key], actual.fields[key]);
        }
        if SameValue(expected, actual) { assert fields == actual.fields; }
      }
    case List(items) =>
      if actual.List? && |items| == |actual.items| {
        forall i | 0 <= i < |items|
          ensures SameValue(items[i], actual.items[i]) <==> Equal(items[i], actual.items[i])
        {
          SameValueIff(items[i], actual.items[i]);
        }
        if SameValue(expected, actual) { assert items == actual.items; }
      }
    case _ =>
  }

  // ---------------------------------------------------------------- where two objects differ

  /** Following `path` through objects on both sides ends at a field that one side lacks, or
      whose values differ and are not both objects. */
  ghost predicate DifferAt(desired: Json, active: Json, path: seq<string>)
    requires desired.Object? && active.Object?
    decreases |path|
  {
    && path != []
    && var key := path[0];
       if key !in desired.fields || key !in active.fields then
         |path| == 1 && (key in desired.fields || key in active.fields)
       else
         var expected, actual := desired.fields[key], active.fields[key];
         if expected.Object? && actual.Object? then DifferAt(expected, actual, path[1..])
         else |path| == 1 && !Equal(expected, actual)
  }

  lemma {:induction false} DifferAtMeansUnequal(desired: Json, active: Json, path: seq<string>)
    requires desired.Object? && active.Object? && DifferAt(desired, active, path)
    ensures !Equal(desired, active)
    decreases |path|
  {
    var key := path[0];
    if key in desired.fields && key in active.fields {
      if desired.fields[key].Object? && active.fields[key].Object? {
        DifferAtMeansUnequal(desired.fields[key], active.fields[key], path[1..]);
      }
    }
  }

  /** Paths in sorted-key order. */
  predicate NotAfter(p: seq<string>, q: seq<string>) {
    p == [] || (q != [] && if p[0] == q[0] then NotAfter(p[1..], q[1..]) else Le(p[0], q[0]))
  }

  ghost predicate FirstAt(desired: Json, active: Json, path: seq<string>)
    requires desired.Object? && active.Object?
  {
    && DifferAt(desired, active, path)
    && forall q | DifferAt(desired, active, q) :: NotAfter(path, q)
  }

  /** A path as it is printed: joined by dots, except that nothing precedes an empty prefix. */
  function Printed(prefix: string, path: seq<string>): string
    decreases |path|
  {
    if path == [] then prefix
    else Printed(if prefix == "" then path[0] else prefix + "." + path[0], path[1..])
  }

  /** The keys with dots between them; an empty key in front leaves nothing, not even its dot. */
  function Dotted(path: seq<string>): string {
    if path == [] then ""
    else
      var before := Dotted(path[..|path| - 1]);
      if before == "" then path[|path| - 1] else before + "." + path[|path| - 1]
  }

  lemma {:induction false} PrintedOneMore(prefix: string, path: seq<string>, key: string)
    ensures var before := Printed(prefix, path);
            Printed(prefix, path + [key]) == if before == "" then key else before + "." + key
    decreases |path|
  {
    if path == [] {
      assert (path + [key])[1..] == [];
    } else {
      var next := if prefix == "" then path[0] else prefix + "." + path[0];
      PrintedOneMore(next, path[1..], key);
      assert (path + [key])[1..] == path[1..] + [key];
    }
  }

  lemma {:induction false} PrintedIsDotted(path: seq<string>)
    ensures Printed("", path) == Dotted(path)
  {
    if path != [] {
      var n := |path| - 1;
      PrintedIsDotted(path[..n]);
      PrintedOneMore("", path[..n], path[n]);
      assert path == path[..n] + [path[n]];
    }
  }

  method SortedKeys(keys: set<string>) returns (sorted: seq<string>)
    ensures Ordered(sorted) && (forall i, j | 0 <= i < j < |sorted| :: sorted[i] != sorted[j])
    ensures forall key :: key in sorted <==> key in keys
  {
    sorted := [];
    var rest := keys;
    while rest != {}
      invariant rest <= keys && Ordered(sorted)
      invariant forall i, j | 0 <= i < j < |sorted| :: sorted[i] != sorted[j]
      invariant forall key :: key in sorted <==> key in keys && key !in rest
    {
      var key :| key in rest;
      InsertedKey(sorted, key);
      sorted, rest := Inserted(sorted, key), rest - {key};
    }
  }

  lemma {:induction false} InsertedKey(s: seq<string>, x: string)
    requires Ordered(s) && (forall i, j | 0 <= i < j < |s| :: s[i] != s[j]) && x !in s
    ensures Ordered(Inserted(s, x))
            && (forall i, j | 0 <= i < j < |Inserted(s, x)| :: Inserted(s, x)[i] != Inserted(s, x)[j])
    ensures forall key :: key in Inserted(s, x) <==> key == x || key in s
  {
    InsertedOrdered(s, x);
    if s != [] && !Le(x, s[0]) {
      assert forall key :: key in s <==> key == s[0] || key in s[1..];
      InsertedKey(s[1..], x);
      assert s[0] !in s[1..];
    }
  }

  /** No key before the `i`-th leads to a difference. */
  ghost predicate AlikeBefore(desired: Json, active: Json, keys: seq<string>, i: nat)
    requires desired.Object? && active.Object? && i <= |keys|
  {
    forall k | 0 <= k < i ::
      keys[k] in desired.fields && keys[k] in active.fields && Equal(desired.fields[keys[k]], active.fields[keys[k]])
  }

  /** So the first difference is at the `i`-th key or after. */
  lemma NoneBefore(desired: Json, active: Json, keys: seq<string>, i: nat, q: seq<string>)
    requires desired.Object? && active.Object? && i < |keys| && AlikeBefore(desired, active, keys, i) && Ordered(keys)
    requires forall key :: key in keys <==> key in desired.fields || key in active.fields
    requires DifferAt(desired, active, q)
    ensures q[0] == keys[i] || Le(keys[i], q[0])
  {
    assert q[0] in keys;
    var k :| 0 <= k < |keys| && keys[k] == q[0];
    if k < i { EqualFieldsDoNotDiffer(desired, active, q); }
  }

  lemma EqualFieldsDoNotDiffer(desired: Json, active: Json, q: seq<string>)
    requires desired.Object? && active.Object? && q != [] && q[0] in desired.fields && q[0] in active.fields
    requires Equal(desired.fields[q[0]], active.fields[q[0]])
    ensures !DifferAt(desired, active, q)
  {
    if desired.fields[q[0]].Object? && DifferAt(desired, active, q) {
      DifferAtMeansUnequal(desired.fields[q[0]], active.fields[q[0]], q[1..]);
    }
  }

  lemma FirstHere(desired: Json, active: Json, keys: seq<string>, i: nat)
    requires desired.Object? && active.Object? && i < |keys| && AlikeBefore(desired, active, keys, i) && Ordered(keys)
    requires forall key :: key in keys <==> key in desired.fields || key in active.fields
    requires DifferAt(desired, active, [keys[i]])
    ensures FirstAt(desired, active, [keys[i]])
  {
    forall q | DifferAt(desired, active, q)
      ensures NotAfter([keys[i]], q)
    {
      NoneBefore(desired, active, keys, i, q);
    }
  }

  lemma FirstBelow(desired: Json, active: Json, keys: seq<string>, i: nat, path: seq<string>)
    requires desired.Object? && active.Object? && i < |keys| && AlikeBefore(desired, active, keys, i) && Ordered(keys)
    requires forall key :: key in keys <==> key in desired.fields || key in active.fields
    requires keys[i] in desired.fields && keys[i] in active.fields
    requires desired.fields[keys[i]].Object? && active.fields[keys[i]].Object?
    requires FirstAt(desired.fields[keys[i]], active.fields[keys[i]], path)
    ensures FirstAt(desired, active, [keys[i]] + path)
  {
    var whole := [keys[i]] + path;
    assert whole[1..] == path;
    forall q | DifferAt(desired, active, q)
      ensures NotAfter(whole, q)
    {
      NoneBefore(desired, active, keys, i, q);
      if q[0] == keys[i] { assert DifferAt(desired.fields[keys[i]], active.fields[keys[i]], q[1..]); }
    }
  }

  method FirstDifference(desired: Json, active: Json, prefix: string)
    returns (r: Option<string>, ghost path: seq<string>)
    requires desired.Object? && active.Object?
    ensures r.None? <==> Equal(desired, active)
    ensures r.Some? ==> FirstAt(desired, active, path) && r.value == Printed(prefix, path)
    decreases desired
  {
    path := [];
    var keys := SortedKeys(desired.fields.Keys + active.fields.Keys);
    for i := 0 to |keys|
      invariant AlikeBefore(desired, active, keys, i)
    {
      var key := keys[i];
      assert key in keys;
      var here := if prefix == "" then key else prefix + "." + key;
      if key !in desired.fields || key !in active.fields {
        FirstHere(desired, active, keys, i);
        return Some(here), [key];
      }
      var expected, actual := desired.fields[key], active.fields[key];
      if expected.Object? && actual.Object? {
        var below;
        below, path := FirstDifference(expected, actual, here);
        if below.Some? {
          FirstBelow(desired, active, keys, i, path);
          assert ([key] + path)[1..] == path;
          return below, [key] + path;
        }
      } else {
        SameValueIff(expected, actual);
        if !SameValue(expected, actual) {
          FirstHere(desired, active, keys, i);
          return Some(here), [key];
        }
      }
    }
    assert desired.fields == active.fields by {
      forall key | key in desired.fields || key in active.fields
        ensures key in desired.fields && key in active.fields && Equal(desired.fields[key], active.fields[key])
      {
        var k :| 0 <= k < |keys| && keys[k] == key;
      }
    }
    r := None;
  }

  // ---------------------------------------------------------------- the comparison

  /** Active settings without the strings the vendor writes itself. */
  function Stripped(fields: map<string, Json>): map<string, Json> {
    fields - set key | key in fields && key in VENDOR_OWNED && fields[key].Text?
  }

  /** The active settings, but for a theme and a user interface given as texts, are those desired,
      with nothing among them that is no number. */
  predicate Agrees(desired: map<string, Json>, active: map<string, Json>) {
    && (forall key | key in desired :: Numeric(desired[key]))
    && (forall key | key in desired ::
          key in active && active[key] == desired[key] && !(active[key].Text? && (key == "theme" || key == "tui")))
    && (forall key | key in active :: key in desired || (active[key].Text? && (key == "theme" || key == "tui")))
  }

  lemma StrippedAgrees(desired: map<string, Json>, active: map<string, Json>)
    ensures desired == Stripped(active) && Numeric(Object(desired)) <==> Agrees(desired, active)
  {
    var rest := Stripped(active);
    assert forall key :: key in rest <==> key in active && !(active[key].Text? && (key == "theme" || key == "tui"));
    if Agrees(desired, active) { assert desired == rest; }
  }

  method CompareObjects(desired: Json, active: Json) returns (r: Option<string>, ghost path: seq<string>)
    ensures r.None? <==>
              desired.Object? && active.Object? && desired.fields == Stripped(active.fields) && Numeric(desired)
    ensures !(desired.Object? && active.Object?) ==> r == Some("$")
    ensures r.Some? && desired.Object? && active.Object? ==>
              FirstAt(desired, Object(Stripped(active.fields)), path) && r.value == Printed("", path)
    // key by key
    ensures r.None? <==> desired.Object? && active.Object? && Agrees(desired.fields, active.fields)
    ensures r.Some? && desired.Object? && active.Object? ==> path != [] && r.value == Dotted(path)
  {
    r, path := Compare(desired, active);
    if desired.Object? && active.Object? { StrippedAgrees(desired.fields, active.fields); }
    PrintedIsDotted(path);
  }

  /** The comparison itself. */
  method Compare(desired: Json, active: Json) returns (r: Option<string>, ghost path: seq<string>)
    ensures r.None? <==>
              desired.Object? && active.Object? && desired.fields == Stripped(active.fields) && Numeric(desired)
    ensures !(desired.Object? && active.Object?) ==> r == Some("$")
    ensures r.Some? && desired.Object? && active.Object? ==>
              FirstAt(desired, Object(Stripped(active.fields)), path) && r.value == Printed("", path)
  {
    if !desired.Object? || !active.Object? { return Some("$"), []; }
    var rest := active.fields;
    for i := 0 to |VENDOR_OWNED|
      invariant rest == active.fields - set key | key in active.fields && key in VENDOR_OWNED[..i]
                && active.fields[key].Text?
    {
      var key := VENDOR_OWNED[i];
      if key in rest && rest[key].Text? { rest := rest - {key}; }
      assert VENDOR_OWNED[..i + 1] == VENDOR_OWNED[..i] + [key];
    }
    assert VENDOR_OWNED[..|VENDOR_OWNED|] == VENDOR_OWNED;
    r, path := FirstDifference(desired, Object(rest), "");
  }
}
