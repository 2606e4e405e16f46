/** A handoff package that records its own encoded size, cut down until it fits.
    `content` and `markdown` give the two encoded lengths of a package; nothing is asked of
    them except that the first does not count the size field. */
module HandoffBound {
  import opened Options

  const MAX_BYTES := 8192

  /** Length of the separator and key of the size field. */
  const SIZE_KEY := 9

  datatype Contents = Contents(
    messages: seq<string>, summary: Option<string>, heuristics: seq<string>,
    decisions: seq<string>, openItems: seq<string>, files: seq<string>, truncated: bool)

  type Measure = Contents -> nat

  // ---------------------------------------------------------------- the size field

  function Digits(n: nat): (d: nat)
    ensures 1 <= d <= n / 2 + 1
  {
    if n < 10 then 1 else 1 + Digits(n / 10)
  }

  /** Characters of a size field holding `v`. */
  function SizeChars(v: Option<int>): nat {
    if v.None? then 0
    else SIZE_KEY + if v.value < 0 then 1 + Digits(-v.value) else Digits(v.value)
  }

  /** Bytes encoded when the size field holds `v` and the rest takes `rest`. */
  function Size(rest: nat, v: Option<int>): nat { rest + SizeChars(v) }

  lemma {:induction false} DigitsMonotone(m: nat, n: nat)
    requires m <= n
    ensures Digits(m) <= Digits(n)
  {
    if m >= 10 { DigitsMonotone(m / 10, n / 10); }
  }

  /** A size field that changed once from `before` to `now` moves the same way ever after. */
  lemma MovesOn(rest: nat, before: nat, now: nat)
    requires now == Size(rest, Some(before))
    ensures before <= now ==> now <= Size(rest, Some(now))
    ensures before >= now ==> now >= Size(rest, Some(now))
    ensures before <= now ==> Size(rest, Some(now)) <= 2 * (rest + SIZE_KEY) + 2
  {
    if before <= now { DigitsMonotone(before, now); } else { DigitsMonotone(now, before); }
    if before <= now { DigitsMonotone(now, 2 * (rest + SIZE_KEY) + 2); }
  }

  /** A size that describes itself. */
  predicate Fixed(rest: nat, size: nat) { Size(rest, Some(size)) == size }

  function Pow10(k: nat): (p: nat)
    ensures p >= 1
  {
    if k == 0 then 1 else 10 * Pow10(k - 1)
  }

  lemma {:induction false} DigitsPassPower(n: nat, k: nat)
    requires k >= 1
    ensures Digits(n) > k <==> n >= Pow10(k)
  {
    if k == 1 {
      assert Pow10(1) == 10 * Pow10(0);
    } else if n >= 10 {
      DigitsPassPower(n / 10, k - 1);
    }
  }

  lemma {:induction false} PowersSpread(k: nat, j: nat)
    requires k >= 1 && j >= 2
    ensures Pow10(k + j - 1) >= Pow10(k) + j
  {
    if j == 2 {
      assert Pow10(k + 1) == 10 * Pow10(k) && Pow10(k) == 10 * Pow10(k - 1);
    } else {
      PowersSpread(k, j - 1);
      assert Pow10(k + j - 1) == 10 * Pow10(k + j - 2);
    }
  }

  /** With a `k`-digit record the package ends one byte short of needing one digit more. */
  predicate AtPower(rest: nat, k: nat) { k >= 1 && rest + SIZE_KEY + k + 1 == Pow10(k) }

  lemma FixedSizesAreClose(rest: nat, a: nat, b: nat)
    requires Fixed(rest, a) && Fixed(rest, b) && a < b
    ensures AtPower(rest, Digits(a)) && a + 1 == b == Pow10(Digits(a))
  {
    var k, j := Digits(a), b - a;
    assert Digits(b) == k + j;
    DigitsPassPower(a, k);
    DigitsPassPower(b, k + j - 1);
    if j >= 2 { PowersSpread(k, j); }
  }

  lemma AtPowerTwoSizesFit(rest: nat, k: nat)
    requires AtPower(rest, k)
    ensures Fixed(rest, Pow10(k) - 1) && Fixed(rest, Pow10(k))
  {
    DigitsPassPower(Pow10(k), k);
    DigitsPassPower(Pow10(k) - 1, k);
    assert Pow10(k) == 10 * Pow10(k - 1) && Pow10(k + 1) == 10 * Pow10(k);
    DigitsPassPower(Pow10(k), k + 1);
    if k > 1 {
      DigitsPassPower(Pow10(k) - 1, k - 1);
    }
  }

  ghost predicate TwoSizesFit(rest: nat) { exists a: nat, b: nat :: a != b && Fixed(rest, a) && Fixed(rest, b) }

  /** The number a package records is not the only one that would do if and only if one digit
      more would just carry the size over a power of ten. */
  lemma TwoSizesFitIff(rest: nat)
    ensures TwoSizesFit(rest) <==> exists k: nat :: AtPower(rest, k)
  {
    if TwoSizesFit(rest) {
      var a: nat, b: nat :| a != b && Fixed(rest, a) && Fixed(rest, b);
      FixedSizesAreClose(rest, if a < b then a else b, if a < b then b else a);
    }
    if k: nat :| AtPower(rest, k) {
      AtPowerTwoSizesFit(rest, k);
    }
  }

  /** As with 88 bytes besides the field. */
  lemma TwoSizesFit88()
    ensures Fixed(88, 99) && Fixed(88, 100)
  {
    assert Pow10(2) == 10 * Pow10(1) && Pow10(1) == 10 * Pow10(0);
    AtPowerTwoSizesFit(88, 2);
  }

  /** Then a record of more than `k` characters stays one, and a shorter one stays shorter. */
  lemma SideIsKept(rest: nat, k: nat, v: Option<int>)
    requires AtPower(rest, k)
    ensures SizeChars(Some(Size(rest, v))) > SIZE_KEY + k <==> SizeChars(v) > SIZE_KEY + k
  {
    DigitsPassPower(Size(rest, v), k);
  }

  lemma FixedBySide(rest: nat, k: nat, size: nat)
    requires AtPower(rest, k) && Fixed(rest, size)
    ensures size == if SizeChars(Some(size)) > SIZE_KEY + k then Pow10(k) else Pow10(k) - 1
  {
    AtPowerTwoSizesFit(rest, k);
    DigitsPassPower(size, k);
    if size < Pow10(k) - 1 { FixedSizesAreClose(rest, size, Pow10(k)); }
    if size > Pow10(k) { FixedSizesAreClose(rest, Pow10(k) - 1, size); }
  }

  /** But whether the size is within the limit does not depend on that. */
  lemma FixpointFits(rest: nat, size: nat)
    requires size == Size(rest, Some(size))
    ensures size <= MAX_BYTES <==> rest + SIZE_KEY + 4 <= MAX_BYTES
  {
    if size >= 10000 {
      assert Digits(size) == 4 + Digits(size / 10000) by {
        assert size / 10 / 10 / 10 / 10 == size / 10000;
        assert Digits(size) == 1 + Digits(size / 10);
        assert Digits(size / 10) == 1 + Digits(size / 10 / 10);
      }
    } else if size >= 1000 {
      assert Digits(size) == 3 + Digits(size / 10 / 10 / 10);
    } else {
      DigitsMonotone(size, 999);
      assert Digits(999) == 3;
    }
  }

  /** A number as the package spells it. */
  function Decimal(n: nat): string {
    var last := ['0' + (n % 10) as char];
    if n < 10 then last else Decimal(n / 10) + last
  }

  /** `size` is what a package takes that records it, when the rest takes `rest`. */
  predicate Describes(size: nat, rest: nat) { size == rest + |",\"bytes\":" + Decimal(size)| }

  lemma {:induction false} DecimalDigits(n: nat)
    ensures |Decimal(n)| == Digits(n)
  {
    if n >= 10 { DecimalDigits(n / 10); }
  }

  lemma DescribesIsFixed(size: nat, rest: nat)
    ensures Describes(size, rest) <==> Fixed(rest, size)
  {
    DecimalDigits(size);
  }

  // ---------------------------------------------------------------- cutting down

  /** What is given up next, if anything is left to give up. */
  function Drop(c: Contents): Option<Contents> {
    if c.messages != [] then Some(c.(messages := c.messages[1..]))
    else if c.summary.Some? && c.summary.value != "" then Some(c.(summary := None))
    else if c.heuristics != [] then Some(c.(heuristics := c.heuristics[..|c.heuristics| - 1]))
    else if |c.decisions| > 20 then Some(c.(decisions := c.decisions[..20]))
    else if |c.openItems| > 30 then Some(c.(openItems := c.openItems[..30]))
    else if c.files != [] then Some(c.(files := c.files[..|c.files| - 1], truncated := true))
    else None
  }

  function Weight(c: Contents): nat {
    |c.messages| + (if c.summary.Some? then 1 else 0) + |c.heuristics| + |c.decisions| + |c.openItems| + |c.files|
  }

  predicate Fits(c: Contents, content: Measure, markdown: Measure) {
    content(c) + SIZE_KEY + 4 <= MAX_BYTES && markdown(c) <= MAX_BYTES
  }

  /** The first that fits of the package and what is left of it drop by drop. */
  function Shrunk(c: Contents, content: Measure, markdown: Measure): Option<Contents>
    decreases Weight(c)
  {
    if Fits(c, content, markdown) then Some(c)
    else if Drop(c).None? then None
    else Shrunk(Drop(c).value, content, markdown)
  }

  function Capped(c: Contents): Contents {
    if |c.files| > 50 then c.(files := c.files[..50], truncated := true) else c.(truncated := false)
  }

  class Package {
    var contents: Contents
    var bytes: Option<int>

    constructor (contents: Contents, bytes: Option<int>)
      ensures this.contents == contents && this.bytes == bytes
    {
      this.contents, this.bytes := contents, bytes;
    }

    /** Record the encoded size, which includes the digits of the record itself. */
    method SetSize(content: Measure) returns (size: nat)
      modifies this`bytes
      ensures bytes == Some(size) && size == Size(content(contents), bytes)
      ensures !TwoSizesFit(content(contents)) ==> forall other: nat :: Fixed(content(contents), other) ==> other == size
      ensures forall k: nat :: AtPower(content(contents), k) ==>
                size == if SizeChars(old(bytes)) > SIZE_KEY + k then Pow10(k) else Pow10(k) - 1
      ensures Describes(size, content(contents))
    {
      var rest := content(contents);
      forall n: nat ensures Describes(n, rest) <==> Fixed(rest, n) { DescribesIsFixed(n, rest); }
      ghost var phase: nat, before: nat, rising := 0, 0, false;
      while true
        invariant 0 <= phase <= 2
        invariant phase > 0 ==> bytes.Some? && bytes.value >= 0
        invariant phase == 2 ==> bytes.value == Size(rest, Some(before))
        invariant phase == 2 ==> if rising then before <= bytes.value else before >= bytes.value
        invariant phase == 2 && rising ==> bytes.value <= 2 * (rest + SIZE_KEY) + 2
        invariant forall k: nat :: AtPower(rest, k) ==>
                  (SizeChars(bytes) > SIZE_KEY + k <==> SizeChars(old(bytes)) > SIZE_KEY + k)
        decreases 2 - phase,
                  if phase < 2 then 0 else if rising then 2 * (rest + SIZE_KEY) + 2 - bytes.value else bytes.value
      {
        size := Size(rest, bytes);
        if bytes == Some(size) {
          assert Fixed(rest, size);
          forall k: nat | AtPower(rest, k) { FixedBySide(rest, k, size); }
          return;
        }
        forall k: nat | AtPower(rest, k) { SideIsKept(rest, k, bytes); }
        if phase == 2 {
          MovesOn(rest, before, bytes.value);
          before := bytes.value;
        } else if phase == 1 {
          phase, before, rising := 2, bytes.value, bytes.value <= size;
          MovesOn(rest, before, size);
        } else {
          phase := 1;
        }
        bytes := Some(size);
      }
    }

    /** Cut the package down until both encodings fit, or give up. */
    method Bound(content: Measure, markdown: Measure) returns (ok: bool)
      modifies this
      ensures ok <==> Shrunk(old(Capped(contents)), content, markdown).Some?
      ensures ok ==> Some(contents) == Shrunk(old(Capped(contents)), content, markdown)
      ensures bytes.Some? && bytes.value == Size(content(contents), bytes)
      ensures ok ==> bytes.value <= MAX_BYTES && markdown(contents) <= MAX_BYTES
      // the first of all cuts that fits, or none does
      ensures bytes.Some? && bytes.value >= 0 && Describes(bytes.value, content(contents))
      ensures ok ==> bytes.value <= 8192 && markdown(contents) <= 8192
      ensures ok ==> Cut(old(contents), contents)
      ensures ok ==> forall d | Cut(old(contents), d) && Weight(d) > Weight(contents) :: TooLong(d, content, markdown)
      ensures !ok ==> forall d | Cut(old(contents), d) :: TooLong(d, content, markdown)
    {
      ghost var c := contents;
      ok := CutDown(content, markdown);
      FirstThatFits(c, content, markdown);
    }

    /** The loop itself, against the drops one after the other. */
    method CutDown(content: Measure, markdown: Measure) returns (ok: bool)
      modifies this
      ensures ok <==> Shrunk(old(Capped(contents)), content, markdown).Some?
      ensures ok ==> Some(contents) == Shrunk(old(Capped(contents)), content, markdown)
      ensures bytes.Some? && bytes.value == Size(content(contents), bytes)
      ensures ok ==> bytes.value <= MAX_BYTES && markdown(contents) <= MAX_BYTES
      ensures bytes.value >= 0 && Describes(bytes.value, content(contents))
    {
      contents := contents.(truncated := |contents.files| > 50);
      if |contents.files| > 50 { contents := contents.(files := contents.files[..50]); }
      while true
        invariant Shrunk(contents, content, markdown) == Shrunk(old(Capped(contents)), content, markdown)
        decreases Weight(contents)
      {
        var size := SetSize(content);
        FixpointFits(content(contents), size);
        if size <= MAX_BYTES && markdown(contents) <= MAX_BYTES { return true; }
        if contents.messages != [] {
          contents := contents.(messages := contents.messages[1..]);
        } else if contents.summary.Some? && contents.summary.value != "" {
          contents := contents.(summary := None);
        } else if contents.heuristics != [] {
          contents := contents.(heuristics := contents.heuristics[..|contents.heuristics| - 1]);
        } else if |contents.decisions| > 20 {
          contents := contents.(decisions := contents.decisions[..20]);
        } else if |contents.openItems| > 30 {
          contents := contents.(openItems := contents.openItems[..30]);
        } else if contents.files != [] {
          contents := contents.(files := contents.files[..|contents.files| - 1], truncated := true);
        } else {
          return false;
        }
      }
    }
  }

  // ---------------------------------------------------------------- all cuts there are

  /** One encoding or the other is over the limit, whichever size the package records. */
  ghost predicate TooLong(c: Contents, content: Measure, markdown: Measure) {
    markdown(c) > 8192 || forall n: nat | Describes(n, content(c)) :: n > 8192
  }

  /** How much has been given up entirely: of the messages, the summary, the advisory decisions,
      the decisions past 20 and the open items past 30, the first `rank`. */
  predicate Without(d: Contents, rank: nat) {
    && (rank >= 1 ==> d.messages == [])
    && (rank >= 2 ==> d.summary in {None, Some("")})
    && (rank >= 3 ==> d.heuristics == [])
    && (rank >= 4 ==> |d.decisions| <= 20)
    && (rank >= 5 ==> |d.openItems| <= 30)
  }

  /** A package cut down to `d`: of the messages the last are kept, of the advisory decisions and
      of at most 50 files the first; each kind is cut only when those before it are given up. */
  predicate Cut(c: Contents, d: Contents) {
    && IsSuffix(d.messages, c.messages)
    && (d.summary == c.summary || (d.summary == None && c.summary != Some("") && Without(d, 1)))
    && d.heuristics <= c.heuristics && (d.heuristics == c.heuristics || Without(d, 2))
    && (d.decisions == c.decisions || (|c.decisions| > 20 && d.decisions == c.decisions[..20] && Without(d, 3)))
    && (d.openItems == c.openItems || (|c.openItems| > 30 && d.openItems == c.openItems[..30] && Without(d, 4)))
    && d.files <= c.files && |d.files| <= 50 && (|d.files| == |c.files| || |d.files| == 50 || Without(d, 5))
    && (d.truncated <==> |d.files| < |c.files|)
  }

  lemma CappedIsCut(c: Contents)
    ensures Cut(c, Capped(c))
  {
  }

  lemma DropFirst(s: seq<string>, t: seq<string>)
    requires s != [] && IsSuffix(s, t)
    ensures IsSuffix(s[1..], t)
  {
  }

  lemma DropLast(s: seq<string>, t: seq<string>)
    requires s != [] && s <= t
    ensures s[..|s| - 1] <= t
  {
  }

  lemma DroppedIsCut(c: Contents, d: Contents)
    requires Cut(c, d) && Drop(d).Some?
    ensures Cut(c, Drop(d).value) && Weight(Drop(d).value) < Weight(d)
  {
    if d.messages != [] { DropFirst(d.messages, c.messages); }
    if d.heuristics != [] { DropLast(d.heuristics, c.heuristics); }
    if d.files != [] { DropLast(d.files, c.files); }
  }

  /** Which of its parts a cut has left whole, in numbers. */
  predicate Sized(c: Contents, d: Contents) {
    && |d.messages| <= |c.messages| && |d.heuristics| <= |c.heuristics| && |d.files| <= |c.files| && |d.files| <= 50
    && (d.summary == c.summary || (d.summary == None && c.summary != Some("") && Without(d, 1)))
    && (|d.heuristics| == |c.heuristics| || Without(d, 2))
    && (|d.decisions| == |c.decisions| || (|c.decisions| > 20 && |d.decisions| == 20 && Without(d, 3)))
    && (|d.openItems| == |c.openItems| || (|c.openItems| > 30 && |d.openItems| == 30 && Without(d, 4)))
    && (|d.files| == |c.files| || |d.files| == 50 || Without(d, 5))
  }

  lemma CutIsSized(c: Contents, d: Contents)
    requires Cut(c, d)
    ensures Sized(c, d)
  {
  }

  lemma SizedBelow(c: Contents, d: Contents)
    requires Sized(c, d)
    ensures Weight(d) <= Weight(Capped(c))
  {
  }

  lemma CutsAreLighter(c: Contents)
    ensures forall d | Cut(c, d) :: Weight(d) <= Weight(Capped(c))
  {
    forall d | Cut(c, d)
      ensures Weight(d) <= Weight(Capped(c))
    {
      CutIsSized(c, d);
      SizedBelow(c, d);
    }
  }

  lemma NoneSizedBetween(c: Contents, d: Contents, e: Contents)
    requires Sized(c, d) && Sized(c, e) && Weight(e) < Weight(d)
    ensures Drop(d).Some? && Weight(e) <= Weight(Drop(d).value)
  {
  }

  /** There is no cut between one and what is left of it by a drop. */
  lemma NoCutBetween(c: Contents, d: Contents, e: Contents)
    requires Cut(c, d) && Cut(c, e) && Weight(e) < Weight(d)
    ensures Drop(d).Some? && Weight(e) <= Weight(Drop(d).value)
  {
    CutIsSized(c, d);
    CutIsSized(c, e);
    NoneSizedBetween(c, d, e);
  }

  lemma WeightDecides(c: Contents, d: Contents, e: Contents)
    requires Cut(c, d) && Cut(c, e) && Weight(d) == Weight(e)
    ensures d == e
  {
  }

  lemma TooLongIff(c: Contents, content: Measure, markdown: Measure)
    ensures !Fits(c, content, markdown) ==> TooLong(c, content, markdown)
  {
    forall n: nat | Describes(n, content(c))
      ensures n <= MAX_BYTES <==> content(c) + SIZE_KEY + 4 <= MAX_BYTES
    {
      DescribesIsFixed(n, content(c));
      FixpointFits(content(c), n);
    }
  }

  lemma {:induction false} FirstBelow(c: Contents, d: Contents, content: Measure, markdown: Measure)
    requires Cut(c, d)
    ensures var r := Shrunk(d, content, markdown);
            if r.Some? then
              && Cut(c, r.value)
              && forall e | Cut(c, e) && Weight(r.value) < Weight(e) <= Weight(d) :: TooLong(e, content, markdown)
            else forall e | Cut(c, e) && Weight(e) <= Weight(d) :: TooLong(e, content, markdown)
    decreases Weight(d)
  {
    if !Fits(d, content, markdown) {
      TooLongIff(d, content, markdown);
      forall e | Cut(c, e) && Weight(e) == Weight(d) ensures e == d { WeightDecides(c, d, e); }
      forall e | Cut(c, e) && Weight(e) < Weight(d)
        ensures Drop(d).Some? && Weight(e) <= Weight(Drop(d).value)
      {
        NoCutBetween(c, d, e);
      }
      if Drop(d).Some? {
        DroppedIsCut(c, d);
        FirstBelow(c, Drop(d).value, content, markdown);
      }
    }
  }

  lemma FirstThatFits(c: Contents, content: Measure, markdown: Measure)
    ensures var r := Shrunk(Capped(c), content, markdown);
            if r.Some? then
              && Cut(c, r.value)
              && forall e | Cut(c, e) && Weight(r.value) < Weight(e) :: TooLong(e, content, markdown)
            else forall e | Cut(c, e) :: TooLong(e, content, markdown)
  {
    CappedIsCut(c);
    CutsAreLighter(c);
    FirstBelow(c, Capped(c), content, markdown);
  }

  // ---------------------------------------------------------------- what is kept

  predicate IsSuffix(s: seq<string>, t: seq<string>) { |s| <= |t| && s == t[|t| - |s|..] }

  /** `d` is `c` with things dropped from the right ends, in the right order. */
  predicate Kept(c: Contents, d: Contents) {
    && IsSuffix(d.messages, c.messages) && d.heuristics <= c.heuristics && d.files <= c.files
    && (d.decisions == c.decisions || (|c.decisions| > 20 && d.decisions == c.decisions[..20]))
    && (d.openItems == c.openItems || (|c.openItems| > 30 && d.openItems == c.openItems[..30]))
    && (d.summary == c.summary || d.summary.None?)
    && (d.truncated <==> c.truncated || |d.files| < |c.files|)
    && (d.summary != c.summary ==> d.messages == [])
    && (d.heuristics != c.heuristics ==> d.messages == [] && (d.summary.None? || d.summary.value == ""))
    && (d.decisions != c.decisions ==> d.messages == [] && d.heuristics == [])
    && (d.openItems != c.openItems ==> d.messages == [] && d.heuristics == [] && |d.decisions| <= 20)
    && (d.files != c.files ==> d.messages == [] && d.heuristics == [] && |d.decisions| <= 20 && |d.openItems| <= 30)
  }

  lemma KeptThenDropped(c: Contents, d: Contents)
    requires Kept(c, d) && Drop(d).Some?
    ensures Kept(c, Drop(d).value)
  {
  }

  /** The package that comes out fits, and differs from the one that went in only by what was
      dropped: oldest messages first, then the summary, the advisory decisions, decisions past
      20, open items past 30, and last the files, which alone mark it truncated. */
  lemma {:induction false} ShrunkKeeps(c: Contents, d: Contents, content: Measure, markdown: Measure)
    requires Kept(c, d) && Shrunk(d, content, markdown).Some?
    ensures Kept(c, Shrunk(d, content, markdown).value) && Fits(Shrunk(d, content, markdown).value, content, markdown)
    decreases Weight(d)
  {
    if !Fits(d, content, markdown) {
      KeptThenDropped(c, d);
      ShrunkKeeps(c, Drop(d).value, content, markdown);
    }
  }

  /** So the flag is set exactly when files were dropped, the first cut to 50 included. */
  lemma TruncatedMeansFilesDropped(c: Contents, content: Measure, markdown: Measure)
    requires Shrunk(Capped(c), content, markdown).Some?
    ensures var r := Shrunk(Capped(c), content, markdown).value;
            && IsSuffix(r.messages, c.messages) && r.files <= c.files
            && (r.truncated <==> |r.files| < |c.files|)
  {
    ShrunkKeeps(Capped(c), Capped(c), content, markdown);
  }

  /** It gives up only when nothing droppable is left and even that does not fit. */
  lemma {:induction false} GivesUpOnlyAtTheEnd(c: Contents, content: Measure, markdown: Measure)
    returns (last: Contents)
    requires Shrunk(c, content, markdown).None?
    ensures Drop(last).None? && !Fits(last, content, markdown)
    ensures last.messages == [] && last.heuristics == [] && last.files == [] && |last.decisions| <= 20
            && |last.openItems| <= 30
    decreases Weight(c)
  {
    if Drop(c).None? { last := c; } else { last := GivesUpOnlyAtTheEnd(Drop(c).value, content, markdown); }
  }
}
