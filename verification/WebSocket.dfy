/** WebSocket frames as both codecs write and read them, and streams cut at any point. */
module WebSocket {
  import opened Options

  type Byte = b: int | 0 <= b < 256

  type Bytes = seq<Byte>

  const CONTINUATION: Byte := 0
  const TEXT: Byte := 1
  const CLOSE: Byte := 8
  const PING: Byte := 9
  const PONG: Byte := 10

  // ---------------------------------------------------------------- masking

  function Pow2(n: nat): (p: int)
    ensures p >= 1
  {
    if n == 0 then 1 else 2 * Pow2(n - 1)
  }

  /** Exclusive or of the low `n` bits. */
  function XorBits(a: nat, b: nat, n: nat): (x: nat)
    ensures x < Pow2(n)
  {
    if n == 0 then 0 else 2 * XorBits(a / 2, b / 2, n - 1) + (a + b) % 2
  }

  lemma LowBitTwice(a: nat, b: nat, low: nat, high: nat)
    requires low == (a + b) % 2
    ensures (2 * high + low) / 2 == high && (2 * high + low + b) % 2 == a % 2
  {
  }

  lemma {:induction false} XorTwice(a: nat, b: nat, n: nat)
    requires a < Pow2(n)
    ensures XorBits(XorBits(a, b, n), b, n) == a
  {
    if n > 0 {
      var high := XorBits(a / 2, b / 2, n - 1);
      LowBitTwice(a, b, (a + b) % 2, high);
      XorTwice(a / 2, b / 2, n - 1);
    }
  }

  function Xor(a: Byte, b: Byte): Byte {
    assert Pow2(8) == 256;
    XorBits(a, b, 8)
  }

  function Masked(payload: Bytes, key: Bytes): Bytes
    requires |key| == 4
  {
    seq(|payload|, i requires 0 <= i < |payload| => Xor(payload[i], key[i % 4]))
  }

  lemma MaskedTwice(payload: Bytes, key: Bytes)
    requires |key| == 4
    ensures Masked(Masked(payload, key), key) == payload
  {
    forall i | 0 <= i < |payload|
      ensures Masked(Masked(payload, key), key)[i] == payload[i]
    {
      assert Pow2(8) == 256;
      XorTwice(payload[i], key[i % 4], 8);
    }
  }

  // ---------------------------------------------------------------- lengths

  function Pow256(n: nat): (p: int)
    ensures p >= 1
  {
    if n == 0 then 1 else 256 * Pow256(n - 1)
  }

  /** `n` in `k` bytes, most significant first. */
  function BigEndian(n: nat, k: nat): (s: Bytes)
    requires n < Pow256(k)
    ensures |s| == k
  {
    if k == 0 then [] else BigEndian(n / 256, k - 1) + [n % 256]
  }

  function Number(s: Bytes): nat {
    if s == [] then 0 else 256 * Number(s[..|s| - 1]) + s[|s| - 1]
  }

  lemma {:induction false} NumberOfBigEndian(n: nat, k: nat)
    requires n < Pow256(k)
    ensures Number(BigEndian(n, k)) == n
  {
    if k > 0 {
      var s := BigEndian(n, k);
      assert s[..|s| - 1] == BigEndian(n / 256, k - 1);
      NumberOfBigEndian(n / 256, k - 1);
    }
  }

  lemma Pow256Values()
    ensures Pow256(2) == 0x1_0000 && Pow256(8) == 0x1_0000_0000_0000_0000
  {
  }

  /** The length part of a header; `flag` is the mask bit. */
  function LengthField(length: nat, flag: Byte): (s: Bytes)
    requires length < 0x1_0000_0000_0000_0000 && (flag == 0 || flag == 128)
    ensures |s| > 0
  {
    Pow256Values();
    if length < 126 then [flag + length]
    else if length < 0x1_0000 then [flag + 126] + BigEndian(length, 2)
    else [flag + 127] + BigEndian(length, 8)
  }

  // ---------------------------------------------------------------- frames

  datatype Frame = Frame(final: bool, opcode: Byte, payload: Bytes)

  predicate Sendable(f: Frame) { f.opcode < 16 && |f.payload| < 0x1_0000_0000_0000_0000 }

  function FirstByte(f: Frame): Byte
    requires f.opcode < 16
  {
    (if f.final then 128 else 0) + f.opcode
  }

  /** A frame as a server writes it. */
  function Plain(f: Frame): Bytes
    requires Sendable(f)
  {
    [FirstByte(f)] + LengthField(|f.payload|, 0) + f.payload
  }

  /** A frame as a client writes it, under a mask key. */
  function Keyed(f: Frame, key: Bytes): Bytes
    requires Sendable(f) && |key| == 4
  {
    [FirstByte(f)] + LengthField(|f.payload|, 128) + key + Masked(f.payload, key)
  }

  /** Where the payload length is, and what it is, once the header is there. */
  datatype Header = Header(length: nat, offset: nat, masked: bool)

  function HeaderOf(s: Bytes): Option<Header> {
    if |s| < 2 then None
    else
      var masked, short := s[1] >= 128, s[1] % 128;
      if short == 126 then if |s| < 4 then None else Some(Header(Number(s[2..4]), 4, masked))
      else if short == 127 then if |s| < 10 then None else Some(Header(Number(s[2..10]), 10, masked))
      else Some(Header(short, 2, masked))
  }

  lemma {:induction false} NumberBound(s: Bytes)
    ensures Number(s) < Pow256(|s|)
  {
    if s != [] { NumberBound(s[..|s| - 1]); }
  }

  /** No header can announce more than a frame can carry. */
  lemma ReadFramesAreSendable(s: Bytes)
    ensures FrameOf(s).Some? ==> Sendable(FrameOf(s).value.0)
  {
    Pow256Values();
    if |s| >= 4 { NumberBound(s[2..4]); }
    if |s| >= 10 { NumberBound(s[2..10]); }
  }

  function PayloadAt(h: Header): nat { h.offset + if h.masked then 4 else 0 }

  function FrameIn(s: Bytes, h: Header): Frame
    requires 2 <= h.offset && PayloadAt(h) + h.length <= |s|
  {
    var raw := s[PayloadAt(h)..PayloadAt(h) + h.length];
    Frame(s[0] >= 128, s[0] % 16, if h.masked then Masked(raw, s[h.offset..PayloadAt(h)]) else raw)
  }

  /** The whole frame at the front of `s`, and how many bytes it takes. */
  function FrameOf(s: Bytes): Option<(Frame, nat)> {
    var h := HeaderOf(s);
    if h.None? || |s| < PayloadAt(h.value) + h.value.length then None
    else Some((FrameIn(s, h.value), PayloadAt(h.value) + h.value.length))
  }

  lemma WideHeader(first: Byte, second: Byte, length: nat, k: nat, rest: Bytes)
    requires (k == 2 && second % 128 == 126) || (k == 8 && second % 128 == 127)
    requires length < Pow256(k)
    ensures HeaderOf([first, second] + BigEndian(length, k) + rest) == Some(Header(length, 2 + k, second >= 128))
  {
    var s := [first, second] + BigEndian(length, k) + rest;
    NumberOfBigEndian(length, k);
    assert s[2..2 + k] == BigEndian(length, k);
  }

  lemma HeaderOfField(first: Byte, length: nat, flag: Byte, rest: Bytes)
    requires length < 0x1_0000_0000_0000_0000 && (flag == 0 || flag == 128)
    ensures HeaderOf([first] + LengthField(length, flag) + rest)
            == Some(Header(length, 1 + |LengthField(length, flag)|, flag == 128))
  {
    Pow256Values();
    if 126 <= length {
      var k, second: Byte := if length < 0x1_0000 then 2 else 8, flag + if length < 0x1_0000 then 126 else 127;
      WideHeader(first, second, length, k, rest);
      assert [first] + ([second] + BigEndian(length, k)) == [first, second] + BigEndian(length, k);
    }
  }

  /** A server's frame is read back as it was, for every opcode and length form, and exactly
      its bytes are consumed. */
  lemma PlainRoundTrip(f: Frame, rest: Bytes)
    requires Sendable(f)
    ensures FrameOf(Plain(f) + rest) == Some((f, |Plain(f)|))
  {
    var field := LengthField(|f.payload|, 0);
    assert Plain(f) + rest == [FirstByte(f)] + field + (f.payload + rest);
    HeaderOfField(FirstByte(f), |f.payload|, 0, f.payload + rest);
    assert (Plain(f) + rest)[1 + |field|..1 + |field| + |f.payload|] == f.payload;
  }

  lemma KeyedParts(f: Frame, key: Bytes, rest: Bytes)
    requires Sendable(f) && |key| == 4
    ensures var s, h := Keyed(f, key) + rest, Header(|f.payload|, 1 + |LengthField(|f.payload|, 128)|, true);
            && HeaderOf(s) == Some(h) && |Keyed(f, key)| == PayloadAt(h) + |f.payload| && s[0] == FirstByte(f)
            && s[h.offset..PayloadAt(h)] == key
            && s[PayloadAt(h)..PayloadAt(h) + |f.payload|] == Masked(f.payload, key)
  {
    var field := LengthField(|f.payload|, 128);
    assert Keyed(f, key) + rest == [FirstByte(f)] + field + (key + Masked(f.payload, key) + rest);
    HeaderOfField(FirstByte(f), |f.payload|, 128, key + Masked(f.payload, key) + rest);
  }

  /** So is a client's frame, whatever the mask key. */
  lemma KeyedRoundTrip(f: Frame, key: Bytes, rest: Bytes)
    requires Sendable(f) && |key| == 4
    ensures FrameOf(Keyed(f, key) + rest) == Some((f, |Keyed(f, key)|))
  {
    KeyedParts(f, key, rest);
    var s, h := Keyed(f, key) + rest, Header(|f.payload|, 1 + |LengthField(|f.payload|, 128)|, true);
    UnmasksTo(s, h, f, key);
  }

  lemma UnmasksTo(s: Bytes, h: Header, f: Frame, key: Bytes)
    requires h.masked && h.offset >= 2 && h.length == |f.payload| && |s| >= PayloadAt(h) + h.length && |key| == 4
    requires f.opcode < 16 && s[0] == FirstByte(f)
    requires s[h.offset..PayloadAt(h)] == key && s[PayloadAt(h)..PayloadAt(h) + h.length] == Masked(f.payload, key)
    ensures FrameIn(s, h) == f
  {
    FirstByteReads(f);
    UnmasksPayload(s[PayloadAt(h)..PayloadAt(h) + h.length], s[h.offset..PayloadAt(h)], f.payload, key);
  }

  lemma FirstByteReads(f: Frame)
    requires f.opcode < 16
    ensures (FirstByte(f) >= 128 <==> f.final) && FirstByte(f) % 16 == f.opcode
  {
  }

  lemma UnmasksPayload(raw: Bytes, seen: Bytes, payload: Bytes, key: Bytes)
    requires |key| == 4 && seen == key && raw == Masked(payload, key)
    ensures Masked(raw, seen) == payload
  {
    MaskedTwice(payload, key);
  }

  // ---------------------------------------------------------------- streams

  lemma Regroup(a: Bytes, b: Bytes, c: Bytes)
    ensures (a + b) + c == a + (b + c)
  {
  }

  lemma DropThenAppend(s: Bytes, rest: Bytes, n: nat)
    requires n <= |s|
    ensures (s + rest)[n..] == s[n..] + rest
  {
  }

  /** `incoming` is all that is still to arrive; after it the peer has closed. */
  class Socket {
    var incoming: Bytes
    var sent: Bytes
    /** How many sends have failed. */
    ghost var faults: nat

    constructor (incoming: Bytes)
      ensures this.incoming == incoming && sent == [] && faults == 0
    {
      this.incoming, sent, faults := incoming, [], 0;
    }

    /** At least one byte and at most `limit`, as the network cuts it; nothing at the end. */
    method Recv(limit: nat) returns (chunk: Bytes)
      requires limit > 0
      modifies this`incoming
      ensures old(incoming) == chunk + incoming && |chunk| <= limit
      ensures chunk == [] <==> old(incoming) == []
    {
      var most := if limit < |incoming| then limit else |incoming|;
      var cut :| 0 <= cut <= most && (cut == 0 ==> most == 0);
      chunk, incoming := incoming[..cut], incoming[cut..];
    }

    method Send(data: Bytes) returns (ok: bool)
      modifies this`sent, this`faults
      ensures sent == if ok then old(sent) + data else old(sent)
      ensures faults == old(faults) + if ok then 0 else 1
    {
      ok := *;
      if ok { sent := sent + data; } else { faults := faults + 1; }
    }
  }
}
