/** Frames byte by byte, as section 5 of RFC 6455 lays them out: what any reader has to find in
    the bytes, and what any writer has to put there. */
module WireFormat {
  import opened Options
  import opened WebSocket

  // ---------------------------------------------------------------- bits

  function Bit(n: nat, i: nat): nat { if i == 0 then n % 2 else Bit(n / 2, i - 1) }

  /** A bit of `x` is set where exactly one of `a` and `b` has it set. */
  predicate ExclusiveOr(a: Byte, b: Byte, x: Byte) {
    forall i | 0 <= i < 8 :: Bit(x, i) == if Bit(a, i) == Bit(b, i) then 0 else 1
  }

  lemma {:induction false} XorBitAt(a: nat, b: nat, n: nat, i: nat)
    requires i < n
    ensures Bit(XorBits(a, b, n), i) == if Bit(a, i) == Bit(b, i) then 0 else 1
  {
    var high := XorBits(a / 2, b / 2, n - 1);
    LowBitTwice(a, b, (a + b) % 2, high);
    if i > 0 { XorBitAt(a / 2, b / 2, n - 1, i - 1); }
  }

  lemma {:induction false} SameBits(x: nat, y: nat, n: nat)
    requires x < Pow2(n) && y < Pow2(n) && forall i | 0 <= i < n :: Bit(x, i) == Bit(y, i)
    ensures x == y
  {
    if n > 0 {
      assert Bit(x, 0) == Bit(y, 0);
      forall i | 0 <= i < n - 1
        ensures Bit(x / 2, i) == Bit(y / 2, i)
      {
        assert Bit(x, i + 1) == Bit(y, i + 1);
      }
      SameBits(x / 2, y / 2, n - 1);
    }
  }

  /** The codecs' operation on bytes is exclusive or and nothing else. */
  lemma XorIsExclusiveOr(a: Byte, b: Byte, x: Byte)
    ensures x == Xor(a, b) <==> ExclusiveOr(a, b, x)
  {
    assert Pow2(8) == 256;
    forall i | 0 <= i < 8
      ensures Bit(Xor(a, b), i) == if Bit(a, i) == Bit(b, i) then 0 else 1
    {
      XorBitAt(a, b, 8, i);
    }
    if ExclusiveOr(a, b, x) { SameBits(x, Xor(a, b), 8); }
  }

  lemma {:induction false} NoBits(n: nat, i: nat)
    requires n == 0
    ensures Bit(n, i) == 0
  {
    if i > 0 { NoBits(n / 2, i - 1); }
  }

  lemma {:induction false} BitIsBit(n: nat, i: nat)
    ensures Bit(n, i) in {0, 1}
  {
    if i > 0 { BitIsBit(n / 2, i - 1); }
  }

  lemma XorWithZero(b: Byte)
    ensures Xor(0, b) == b && Xor(b, 0) == b
  {
    forall i | 0 <= i < 8
      ensures Bit(0, i) == 0 && Bit(b, i) in {0, 1}
    {
      NoBits(0, i);
      BitIsBit(b, i);
    }
    XorIsExclusiveOr(0, b, b);
    XorIsExclusiveOr(b, 0, b);
  }

  // ---------------------------------------------------------------- masks

  /** Each byte with the key's byte for its place: the first with the first, the fifth with the
      first again. */
  predicate MaskedBy(payload: Bytes, key: Bytes, raw: Bytes)
    requires |key| == 4
  {
    |raw| == |payload| && forall i | 0 <= i < |payload| :: ExclusiveOr(payload[i], key[i % 4], raw[i])
  }

  lemma MaskIs(payload: Bytes, key: Bytes, raw: Bytes)
    requires |key| == 4
    ensures raw == Masked(payload, key) <==> MaskedBy(payload, key, raw)
  {
    if |raw| == |payload| {
      forall i | 0 <= i < |payload|
        ensures raw[i] == Masked(payload, key)[i] <==> ExclusiveOr(payload[i], key[i % 4], raw[i])
      {
        XorIsExclusiveOr(payload[i], key[i % 4], raw[i]);
      }
    }
  }

  lemma MaskedAt(payload: Bytes, key: Bytes, i: nat)
    requires |key| == 4 && i < |payload|
    ensures Masked(payload, key)[i] == Xor(payload[i], key[i % 4])
  {
  }

  lemma MaskedLater(key: Bytes, p: Bytes, q: Bytes, i: nat)
    requires |key| == 4 && |p| % 4 == 0 && |p| <= i < |p| + |q|
    ensures Xor((p + q)[i], key[i % 4]) == Xor(q[i - |p|], key[(i - |p|) % 4])
  {
    assert i % 4 == (i - |p|) % 4;
  }

  /** A mask starts anew every four bytes. */
  lemma MaskStartsAnew(key: Bytes, p: Bytes, q: Bytes)
    requires |key| == 4 && |p| % 4 == 0
    ensures Masked(p + q, key) == Masked(p, key) + Masked(q, key)
  {
    forall i: nat | i < |p + q|
      ensures Masked(p + q, key)[i] == (Masked(p, key) + Masked(q, key))[i]
    {
      if i >= |p| { MaskedLater(key, p, q, i); }
    }
  }

  /** Zeros under a mask show the mask. */
  lemma ZerosShowMask(key: Bytes)
    requires |key| == 4
    ensures Masked([0, 0, 0, 0], key) == key
  {
    var zeros: Bytes := [0, 0, 0, 0];
    forall i: nat | i < 4
      ensures Masked(zeros, key)[i] == key[i]
    {
      MaskedAt(zeros, key, i);
      XorWithZero(key[i]);
    }
  }

  // ---------------------------------------------------------------- numbers

  /** What two bytes weigh, four and eight. */
  function Two(s: Bytes): nat
    requires |s| == 2
  {
    0x100 * (s[0] as nat) + s[1] as nat
  }

  function Four(s: Bytes): nat
    requires |s| == 4
  {
    0x100_0000 * (s[0] as nat) + 0x1_0000 * (s[1] as nat) + 0x100 * (s[2] as nat) + s[3] as nat
  }

  function Eight(s: Bytes): nat
    requires |s| == 8
  {
    0x100_0000_0000_0000 * (s[0] as nat) + 0x1_0000_0000_0000 * (s[1] as nat) + 0x100_0000_0000 * (s[2] as nat)
    + 0x1_0000_0000 * (s[3] as nat) + 0x100_0000 * (s[4] as nat) + 0x1_0000 * (s[5] as nat)
    + 0x100 * (s[6] as nat) + s[7] as nat
  }

  /** The first byte of a field weighs most: 256 to the number of those behind it. */
  lemma {:induction false} FirstWeighsMost(b: Byte, s: Bytes)
    ensures Number([b] + s) == b * Pow256(|s|) + Number(s)
  {
    if s != [] {
      var n := |s| - 1;
      FirstWeighsMost(b, s[..n]);
      assert ([b] + s)[..|s|] == [b] + s[..n];
      assert 256 * (b * Pow256(n)) == b * Pow256(|s|);
    }
  }

  lemma LastWeighsOne(s: Bytes, b: Byte)
    ensures Number(s + [b]) == 256 * Number(s) + b as nat
  {
    assert (s + [b])[..|s|] == s;
  }

  lemma NumberOfTwo(s: Bytes)
    requires |s| == 2
    ensures Number(s) == Two(s)
  {
    LastWeighsOne([], s[0]);
    LastWeighsOne([s[0]], s[1]);
    assert [] + [s[0]] == [s[0]] && [s[0]] + [s[1]] == s;
  }

  lemma NumberOfFour(s: Bytes)
    requires |s| == 4
    ensures Number(s) == Four(s)
  {
    NumberOfTwo(s[..2]);
    LastWeighsOne(s[..2], s[2]);
    LastWeighsOne(s[..3], s[3]);
    assert s[..2] + [s[2]] == s[..3] && s[..3] + [s[3]] == s;
  }

  lemma NumberOfEight(s: Bytes)
    requires |s| == 8
    ensures Number(s) == Eight(s)
  {
    NumberOfFour(s[..4]);
    LastWeighsOne(s[..4], s[4]);
    LastWeighsOne(s[..5], s[5]);
    LastWeighsOne(s[..6], s[6]);
    LastWeighsOne(s[..7], s[7]);
    assert s[..4] + [s[4]] == s[..5] && s[..5] + [s[5]] == s[..6] && s[..6] + [s[6]] == s[..7] && s[..7] + [s[7]] == s;
  }

  // ---------------------------------------------------------------- frames

  /** The length that the header at the front of `s` announces, and where it ends. */
  predicate Announces(s: Bytes, length: nat, end: nat) {
    && |s| >= 2
    && (|| (end == 2 && s[1] % 128 == length < 126)
        || (end == 4 && s[1] % 128 == 126 && |s| >= 4 && length == Two(s[2..4]))
        || (end == 10 && s[1] % 128 == 127 && |s| >= 10 && length == Eight(s[2..10])))
  }

  /** The first `n` bytes of `s` are the frame: the highest bit of the first byte says whether it
      is the last of its message and the lower four what it is; the highest bit of the second
      says whether a key of four bytes comes before the payload, which is then under it. */
  ghost predicate Shows(s: Bytes, f: Frame, n: nat) {
    && n <= |s|
    && exists end: nat | Announces(s, |f.payload|, end) ::
         && (f.final <==> s[0] >= 0x80) && (f.opcode == s[0] - 0x10 * (s[0] / 0x10))
         && end <= n && PayloadShown(s, end, f.payload, n)
  }

  lemma HeaderMeans(s: Bytes, length: nat, end: nat)
    ensures HeaderOf(s) == Some(Header(length, end, |s| >= 2 && s[1] >= 0x80)) <==> Announces(s, length, end)
  {
    if |s| >= 4 { NumberOfTwo(s[2..4]); }
    if |s| >= 10 { NumberOfEight(s[2..10]); }
  }

  lemma HeaderHasEnd(s: Bytes)
    requires HeaderOf(s).Some?
    ensures var h := HeaderOf(s).value; Announces(s, h.length, h.offset) && h.masked == (s[1] >= 0x80) && h.offset >= 2
  {
    HeaderMeans(s, HeaderOf(s).value.length, HeaderOf(s).value.offset);
  }

  lemma MaskedBack(payload: Bytes, key: Bytes, raw: Bytes)
    requires |key| == 4
    ensures payload == Masked(raw, key) <==> MaskedBy(payload, key, raw)
  {
    MaskIs(payload, key, raw);
    MaskedTwice(payload, key);
    MaskedTwice(raw, key);
  }

  predicate PayloadShown(s: Bytes, end: nat, payload: Bytes, n: nat)
    requires |s| >= 2 && end <= n <= |s|
  {
    if s[1] >= 0x80 then n == end + 4 + |payload| && MaskedBy(payload, s[end..end + 4], s[end + 4..n])
    else n == end + |payload| && s[end..n] == payload
  }

  lemma PayloadMeans(s: Bytes, h: Header, payload: Bytes, n: nat)
    requires 2 <= h.offset && n == PayloadAt(h) + h.length <= |s| && h.masked == (s[1] >= 0x80)
    ensures FrameIn(s, h).payload == payload <==> PayloadShown(s, h.offset, payload, n)
  {
    var at := PayloadAt(h);
    if h.masked { KeyedPayload(s[h.offset..at], s[at..n], payload); }
  }

  lemma KeyedPayload(key: Bytes, raw: Bytes, payload: Bytes)
    requires |key| == 4
    ensures Masked(raw, key) == payload <==> |raw| == |payload| && MaskedBy(payload, key, raw)
  {
    MaskedBack(payload, key, raw);
  }

  lemma FrameShows(s: Bytes, f: Frame, n: nat)
    requires FrameOf(s) == Some((f, n))
    ensures Shows(s, f, n)
  {
    HeaderHasEnd(s);
    var h := HeaderOf(s).value;
    PayloadMeans(s, h, f.payload, n);
    assert |f.payload| == h.length;
  }

  lemma ShownIsFrame(s: Bytes, f: Frame, n: nat)
    requires Shows(s, f, n)
    ensures FrameOf(s) == Some((f, n))
  {
    var end: nat :| Announces(s, |f.payload|, end) && end <= n && PayloadShown(s, end, f.payload, n);
    HeaderMeans(s, |f.payload|, end);
    PayloadMeans(s, HeaderOf(s).value, f.payload, n);
  }

  /** The reader both codecs share finds a frame exactly where the bytes show it. */
  lemma FrameMeans(s: Bytes, f: Frame, n: nat)
    ensures FrameOf(s) == Some((f, n)) <==> Shows(s, f, n)
  {
    if FrameOf(s) == Some((f, n)) { FrameShows(s, f, n); }
    if Shows(s, f, n) { ShownIsFrame(s, f, n); }
  }

  // ---------------------------------------------------------------- what is written

  /** A final frame that carries `payload`, as a writer lays it out with or without a key: in
      the shortest form that can announce its length. */
  predicate LaidOut(s: Bytes, f: Frame, key: Option<Bytes>)
    requires key.Some? ==> |key.value| == 4
  {
    && |s| >= 2 && s[0] == (if f.final then 0x80 else 0) + f.opcode
    && (s[1] >= 0x80 <==> key.Some?)
    && var end := if |f.payload| <= 125 then 2 else if |f.payload| <= 0xFFFF then 4 else 10;
       var at := if key.Some? then end + 4 else end;
       && |s| == at + |f.payload| && Announces(s, |f.payload|, end)
       && (if key.Some? then s[end..at] == key.value && MaskedBy(f.payload, key.value, s[at..])
          else s[at..] == f.payload)
  }

  lemma PlainIsLaidOut(f: Frame)
    requires Sendable(f)
    ensures LaidOut(Plain(f), f, None)
  {
    var field := LengthField(|f.payload|, 0);
    assert Plain(f) == [FirstByte(f)] + field + f.payload;
    HeaderOfField(FirstByte(f), |f.payload|, 0, f.payload);
    FieldLength(|f.payload|, 0);
    HeaderHasEnd(Plain(f));
    assert Plain(f)[1 + |field|..] == f.payload;
  }

  lemma KeyedIsLaidOut(f: Frame, key: Bytes)
    requires Sendable(f) && |key| == 4
    ensures LaidOut(Keyed(f, key), f, Some(key))
  {
    var s := Keyed(f, key);
    assert s + [] == s;
    KeyedParts(f, key, []);
    FieldLength(|f.payload|, 128);
    HeaderHasEnd(s);
    var at := 5 + |LengthField(|f.payload|, 128)|;
    assert s[at..] == s[at..at + |f.payload|];
    MaskIs(f.payload, key, s[at..]);
  }

  lemma FieldLength(length: nat, flag: Byte)
    requires length < 0x1_0000_0000_0000_0000 && (flag == 0 || flag == 128)
    ensures 1 + |LengthField(length, flag)| == if length <= 125 then 2 else if length <= 0xFFFF then 4 else 10
  {
  }

  // ---------------------------------------------------------------- an example

  /** The two keystrokes "ls" under the key 1, 2, 3, 4, as a browser sends them. */
  lemma Keystrokes(rest: Bytes)
    ensures FrameOf([0x82, 0x82, 1, 2, 3, 4, 0x6d, 0x71] + rest) == Some((Frame(true, 2, [0x6c, 0x73]), 8))
  {
    var s: Bytes := [0x82, 0x82, 1, 2, 3, 4, 0x6d, 0x71] + rest;
    KeysXor();
    assert s[2..6] == [1, 2, 3, 4] && s[6..8] == [0x6d, 0x71];
    TwoMasked([0x6d, 0x71], [1, 2, 3, 4]);
    TwoUnderKey(s);
  }

  lemma {:induction false} XorNothing(a: nat, n: nat)
    requires a < Pow2(n)
    ensures XorBits(a, 0, n) == a
  {
    if n > 0 { XorNothing(a / 2, n - 1); }
  }

  lemma LowestBitOff(h: nat, n: nat)
    requires h < Pow2(n)
    ensures XorBits(2 * h + 1, 1, n + 1) == 2 * h
  {
    assert (2 * h + 1) / 2 == h && (2 * h + 2) % 2 == 0;
    XorNothing(h, n);
  }

  lemma LowestBitOn(k: nat, n: nat)
    requires k < Pow2(n)
    ensures XorBits(2 * k, 1, n + 1) == 2 * k + 1
  {
    assert 2 * k / 2 == k && (2 * k + 1) % 2 == 1;
    XorNothing(k, n);
  }

  lemma SecondBitOn(k: nat, n: nat)
    requires k < Pow2(n)
    ensures XorBits(2 * (2 * k) + 1, 2, n + 2) == 2 * (2 * k + 1) + 1
  {
    LowestBitOn(k, n);
    OneAbove(2 * k, 1, n + 1);
  }

  lemma OneAbove(a: nat, b: nat, n: nat)
    ensures XorBits(2 * a + 1, 2 * b, n + 1) == 2 * XorBits(a, b, n) + 1
  {
    assert (2 * a + 1) / 2 == a && 2 * b / 2 == b && (2 * a + 1 + 2 * b) % 2 == 1;
  }

  lemma KeysXor()
    ensures Xor(0x6d, 1) == 0x6c && Xor(0x71, 2) == 0x73
  {
    RoomInBits();
    LowestBitOff(54, 7);
    SecondBitOn(28, 6);
  }

  lemma RoomInBits()
    ensures 54 < Pow2(7) && 28 < Pow2(6)
  {
  }

  lemma TwoMasked(raw: Bytes, key: Bytes)
    requires |raw| == 2 && |key| == 4
    ensures Masked(raw, key) == [Xor(raw[0], key[0]), Xor(raw[1], key[1])]
  {
  }

  lemma TwoUnderKey(s: Bytes)
    requires |s| >= 8 && s[1] == 0x82
    ensures FrameOf(s) == Some((Frame(s[0] >= 128, s[0] % 16, Masked(s[6..8], s[2..6])), 8))
  {
    assert HeaderOf(s) == Some(Header(2, 2, true));
    assert FrameIn(s, Header(2, 2, true)).payload == Masked(s[6..8], s[2..6]);
  }
}
