/** Cutting a handoff carrier in two on a character boundary: the first half is injected at
    once, the second by a hook that makes the same cut. */
module Utf8Split {
  import opened WebSocket

  // ---------------------------------------------------------------- UTF-8 (section 4 of RFC 3629)

  predicate Continues(b: Byte) { 0x80 <= b < 0xC0 }

  /** How long the character at the front of `s` is; 0 if there is none. */
  function CharLength(s: Bytes): (n: nat)
    ensures n <= 4 && n <= |s|
    ensures forall i | 1 <= i < n :: Continues(s[i])
    ensures n > 0 ==> !Continues(s[0])
  {
    if |s| >= 1 && s[0] < 0x80 then 1
    else if |s| >= 2 && 0xC2 <= s[0] < 0xE0 && Continues(s[1]) then 2
    else if |s| >= 3 && 0xE0 <= s[0] < 0xF0 && Second(s[0], s[1]) && Continues(s[2]) then 3
    else if |s| >= 4 && 0xF0 <= s[0] < 0xF5 && Second(s[0], s[1]) && Continues(s[2]) && Continues(s[3]) then 4
    else 0
  }

  /** The second byte of a long character: no overlong form, no surrogate, nothing past U+10FFFF. */
  predicate Second(first: Byte, b: Byte) {
    && Continues(b)
    && (first == 0xE0 ==> b >= 0xA0) && (first == 0xED ==> b < 0xA0)
    && (first == 0xF0 ==> b >= 0x90) && (first == 0xF4 ==> b < 0x90)
  }

  predicate Valid(s: Bytes)
    decreases |s|
  {
    s == [] || (CharLength(s) > 0 && Valid(s[CharLength(s)..]))
  }

  // ---------------------------------------------------------------- characters

  /** What a character can be: any number up to U+10FFFF but the surrogates. */
  predicate Scalar(c: nat) { c < 0xD800 || 0xE000 <= c < 0x11_0000 }

  predicate AllScalar(cs: seq<nat>) { forall c | c in cs :: Scalar(c) }

  /** A character's bytes: the first says how many there are, the others carry six bits each. */
  function Utf8(c: nat): (s: Bytes)
    requires Scalar(c)
    ensures 1 <= |s| <= 4
  {
    if c < 0x80 then [c]
    else if c < 0x800 then [0xC0 + c / 0x40, 0x80 + c % 0x40]
    else if c < 0x1_0000 then [0xE0 + c / 0x1000, 0x80 + c / 0x40 % 0x40, 0x80 + c % 0x40]
    else [0xF0 + c / 0x4_0000, 0x80 + c / 0x1000 % 0x40, 0x80 + c / 0x40 % 0x40, 0x80 + c % 0x40]
  }

  function Encoded(cs: seq<nat>): Bytes
    requires AllScalar(cs)
  {
    if cs == [] then [] else Utf8(cs[0]) + Encoded(cs[1..])
  }

  lemma CharInFront(c: nat, rest: Bytes)
    requires Scalar(c)
    ensures CharLength(Utf8(c) + rest) == |Utf8(c)|
  {
  }

  lemma ThreeParts(x: nat, y: nat, z: nat)
    requires y < 0x40 && z < 0x40
    ensures var c := x * 0x1000 + y * 0x40 + z; c / 0x1000 == x && c / 0x40 % 0x40 == y && c % 0x40 == z
  {
    var c := x * 0x1000 + y * 0x40 + z;
    assert c == 0x40 * (x * 0x40 + y) + z;
    assert c / 0x40 == x * 0x40 + y;
  }

  lemma FourParts(x: nat, y: nat, z: nat, w: nat)
    requires y < 0x40 && z < 0x40 && w < 0x40
    ensures var c := x * 0x4_0000 + y * 0x1000 + z * 0x40 + w;
            c / 0x4_0000 == x && c / 0x1000 % 0x40 == y && c / 0x40 % 0x40 == z && c % 0x40 == w
  {
    var c := x * 0x4_0000 + y * 0x1000 + z * 0x40 + w;
    ThreeParts(x * 0x40 + y, z, w);
    assert c / 0x1000 == x * 0x40 + y;
  }

  lemma CharOf(s: Bytes) returns (c: nat)
    requires CharLength(s) > 0
    ensures Scalar(c) && Utf8(c) == s[..CharLength(s)]
  {
    match CharLength(s)
    case 1 =>
      c := s[0];
    case 2 =>
      var x: int, y: int := s[0], s[1];
      c := (x - 0xC0) * 0x40 + (y - 0x80);
    case 3 =>
      c := CharOfThree(s);
    case 4 =>
      c := CharOfFour(s);
  }

  lemma CharOfThree(s: Bytes) returns (c: nat)
    requires CharLength(s) == 3
    ensures Scalar(c) && Utf8(c) == s[..3]
  {
    var x: int, y: int, z: int := s[0] as int - 0xE0, s[1] as int - 0x80, s[2] as int - 0x80;
    c := x * 0x1000 + y * 0x40 + z;
    ThreeParts(x, y, z);
  }

  lemma CharOfFour(s: Bytes) returns (c: nat)
    requires CharLength(s) == 4
    ensures Scalar(c) && Utf8(c) == s[..4]
  {
    var x: int, y: int, z: int, w: int := s[0] as int - 0xF0, s[1] as int - 0x80, s[2] as int - 0x80,
        s[3] as int - 0x80;
    c := x * 0x4_0000 + y * 0x1000 + z * 0x40 + w;
    FourParts(x, y, z, w);
  }

  lemma {:induction false} TextIsValid(cs: seq<nat>)
    requires AllScalar(cs)
    ensures Valid(Encoded(cs))
  {
    if cs != [] {
      CharInFront(cs[0], Encoded(cs[1..]));
      assert Encoded(cs)[|Utf8(cs[0])|..] == Encoded(cs[1..]);
      TextIsValid(cs[1..]);
    }
  }

  /** Valid bytes are those of some characters. */
  lemma {:induction false} ValidIsText(s: Bytes) returns (cs: seq<nat>)
    requires Valid(s)
    ensures AllScalar(cs) && Encoded(cs) == s
    decreases |s|
  {
    if s == [] {
      cs := [];
    } else {
      var n := CharLength(s);
      var c := CharOf(s);
      var rest := ValidIsText(s[n..]);
      cs := [c] + rest;
      assert cs[1..] == rest && s[..n] + s[n..] == s;
    }
  }

  lemma {:induction false} EncodedJoins(cs: seq<nat>, k: nat)
    requires AllScalar(cs) && k <= |cs|
    ensures Encoded(cs) == Encoded(cs[..k]) + Encoded(cs[k..])
  {
    if k == 0 {
      assert cs[0..] == cs;
    } else {
      EncodedJoins(cs[1..], k - 1);
      assert cs[..k][1..] == cs[1..][..k - 1] && cs[1..][k - 1..] == cs[k..];
    }
  }

  lemma OneEncoded(c: nat)
    requires Scalar(c)
    ensures Encoded([c]) == Utf8(c)
  {
    assert Utf8(c) + [] == Utf8(c);
  }

  /** After any of its characters a text is valid bytes. */
  lemma CharacterEnds(cs: seq<nat>, k: nat)
    requires AllScalar(cs) && k < |cs|
    ensures var s, end := Encoded(cs), |Encoded(cs[..k])| + |Utf8(cs[k])|;
            end <= |s| && Valid(s[..end])
  {
    var front := cs[..k + 1];
    EncodedJoins(cs, k + 1);
    EncodedJoins(front, k);
    assert front[..k] == cs[..k] && front[k..] == [cs[k]];
    OneEncoded(cs[k]);
    TextIsValid(front);
    assert Encoded(cs)[..|Encoded(front)|] == Encoded(front);
  }

  /** Where valid bytes end within a text, characters end. */
  lemma {:induction false} BoundaryOf(cs: seq<nat>, i: nat) returns (k: nat)
    requires AllScalar(cs) && i <= |Encoded(cs)| && Valid(Encoded(cs)[..i])
    ensures k <= |cs| && i == |Encoded(cs[..k])|
    decreases |cs|
  {
    var s := Encoded(cs);
    if i == 0 {
      k := 0;
    } else {
      var n := |Utf8(cs[0])|;
      CharInFront(cs[0], Encoded(cs[1..]));
      LengthByFront(s[..i], s);
      assert s[..i][n..] == Encoded(cs[1..])[..i - n];
      var m := BoundaryOf(cs[1..], i - n);
      k := m + 1;
      assert cs[..k][1..] == cs[1..][..m];
    }
  }

  lemma LengthByFront(s: Bytes, t: Bytes)
    requires s <= t && CharLength(s) > 0
    ensures CharLength(t) == CharLength(s)
  {
  }

  lemma LengthInFront(s: Bytes, n: nat)
    requires CharLength(s) <= n <= |s|
    ensures CharLength(s[..n]) == CharLength(s)
  {
  }

  /** Every byte that does not continue a character starts one. */
  lemma {:induction false} StartsAreBoundaries(s: Bytes, i: nat)
    requires Valid(s) && i <= |s| && (i < |s| ==> !Continues(s[i]))
    ensures Valid(s[..i]) && Valid(s[i..])
    decreases |s|
  {
    if i > 0 {
      var n := CharLength(s);
      assert i >= n;
      StartsAreBoundaries(s[n..], i - n);
      LengthInFront(s, i);
      assert s[..i][n..] == s[n..][..i - n] && s[n..][i - n..] == s[i..];
    }
  }

  /** And whatever is cut after whole characters is cut before a whole one. */
  lemma {:induction false} WholeFrontLeavesWhole(s: Bytes, i: nat)
    requires Valid(s) && i <= |s| && Valid(s[..i])
    ensures Valid(s[i..])
    decreases |s|
  {
    if i > 0 {
      var n := CharLength(s[..i]);
      LengthByFront(s[..i], s);
      assert s[..i][n..] == s[n..][..i - n] && s[n..][i - n..] == s[i..];
      WholeFrontLeavesWhole(s[n..], i - n);
    }
  }

  lemma BoundaryStarts(s: Bytes, i: nat)
    requires Valid(s) && i < |s| && Valid(s[..i])
    ensures !Continues(s[i])
  {
    WholeFrontLeavesWhole(s, i);
    assert s[i..][0] == s[i];
  }

  /** No character is longer than four bytes. */
  lemma {:induction false} StartIsNear(s: Bytes, i: nat)
    requires Valid(s) && i < |s|
    ensures exists j | i - 3 <= j <= i :: j >= 0 && !Continues(s[j])
    decreases |s|
  {
    var n := CharLength(s);
    if i < n {
      assert !Continues(s[0]);
    } else {
      StartIsNear(s[n..], i - n);
      var j :| i - n - 3 <= j <= i - n && j >= 0 && !Continues(s[n..][j]);
      assert s[n..][j] == s[j + n];
    }
  }

  // ---------------------------------------------------------------- the cut

  /** Back from `from` to the nearest byte that does not continue a character. */
  function CutFrom(s: Bytes, from: nat): (b: nat)
    requires from <= |s|
    ensures b <= from
    ensures forall k | b < k <= from && k < |s| :: Continues(s[k])
    ensures 0 < b < |s| ==> !Continues(s[b])
  {
    if from > 0 && from < |s| && Continues(s[from]) then CutFrom(s, from - 1) else from
  }

  function Cut(s: Bytes, limit: nat): (b: nat)
    ensures b <= |s| && b <= limit
  {
    CutFrom(s, if limit < |s| then limit else |s|)
  }

  /** The text `cs` cut: as many characters in front as `limit` has room for. */
  predicate CutsText(cs: seq<nat>, limit: nat, first: Bytes, second: Bytes)
    requires AllScalar(cs)
  {
    exists k: nat | k <= |cs| ::
      && first == Encoded(cs[..k]) && second == Encoded(cs[k..]) && |first| <= limit
      && (k < |cs| ==> |first| + |Utf8(cs[k])| > limit)
  }

  method Split(data: Bytes, limit: nat) returns (first: Bytes, second: Bytes)
    ensures first == data[..Cut(data, limit)] && second == data[Cut(data, limit)..]
    ensures forall cs | AllScalar(cs) && data == Encoded(cs) :: CutsText(cs, limit, first, second)
  {
    first, second := CutInTwo(data, limit);
    forall cs | AllScalar(cs) && data == Encoded(cs)
      ensures CutsText(cs, limit, first, second)
    {
      CutIsOfText(cs, limit);
    }
  }

  /** The loop itself. */
  method CutInTwo(data: Bytes, limit: nat) returns (first: Bytes, second: Bytes)
    ensures first == data[..Cut(data, limit)] && second == data[Cut(data, limit)..]
  {
    var boundary: nat := if limit < |data| then limit else |data|;
    while boundary != 0 && boundary < |data| && data[boundary] / 64 == 2
      invariant boundary <= |data| && CutFrom(data, boundary) == Cut(data, limit)
    {
      boundary := boundary - 1;
    }
    return data[..boundary], data[boundary..];
  }

  /** The hook's own copy of the loop. */
  method Remainder(data: Bytes, limit: nat) returns (rest: Bytes)
    ensures rest == data[Cut(data, limit)..]
    ensures forall cs | AllScalar(cs) && data == Encoded(cs) :: exists first :: CutsText(cs, limit, first, rest)
  {
    rest := SkipFirst(data, limit);
    forall cs | AllScalar(cs) && data == Encoded(cs)
      ensures CutsText(cs, limit, data[..Cut(data, limit)], rest)
    {
      CutIsOfText(cs, limit);
    }
  }

  /** Its copy. */
  method SkipFirst(data: Bytes, limit: nat) returns (rest: Bytes)
    ensures rest == data[Cut(data, limit)..]
  {
    var boundary: nat := if limit < |data| then limit else |data|;
    while boundary != 0 && boundary < |data| && data[boundary] / 64 == 2
      invariant boundary <= |data| && CutFrom(data, boundary) == Cut(data, limit)
    {
      boundary := boundary - 1;
    }
    return data[boundary..];
  }

  /** Of a valid text both halves are valid, and the cut is the last possible one within the
      limit. */
  lemma CutIsGreatestBoundary(s: Bytes, limit: nat)
    requires Valid(s)
    ensures Valid(s[..Cut(s, limit)]) && Valid(s[Cut(s, limit)..])
    ensures forall b | 0 <= b <= |s| && b <= limit && Valid(s[..b]) :: b <= Cut(s, limit)
  {
    var cut := Cut(s, limit);
    if cut > 0 { StartsAreBoundaries(s, cut); }
    forall b | cut < b <= |s| && b <= limit
      ensures !Valid(s[..b])
    {
      if Valid(s[..b]) && b < |s| { BoundaryStarts(s, b); }
    }
  }

  /** It falls at most three bytes short. */
  lemma CutIsNear(s: Bytes, limit: nat)
    requires Valid(s)
    ensures (if limit < |s| then limit else |s|) - Cut(s, limit) <= 3
  {
    if limit < |s| {
      StartIsNear(s, limit);
    }
  }

  /** So of a text the characters that fit are in the first half and the others in the second. */
  lemma CutIsOfText(cs: seq<nat>, limit: nat)
    requires AllScalar(cs)
    ensures var s := Encoded(cs); CutsText(cs, limit, s[..Cut(s, limit)], s[Cut(s, limit)..])
  {
    var s := Encoded(cs);
    TextIsValid(cs);
    CutIsGreatestBoundary(s, limit);
    var k := BoundaryOf(cs, Cut(s, limit));
    EncodedJoins(cs, k);
    if k < |cs| { CharacterEnds(cs, k); }
  }
}
