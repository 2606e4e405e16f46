/** The broker's end of a terminal's WebSocket: an exact reader with a size limit. */
module BrokerSocket {
  import opened Options
  import opened WebSocket
  import opened WireFormat

  const MAX_BODY := 65536

  /** What asking for exactly `n` bytes gives; a stream that ends first is used up. */
  function Front(s: Bytes, n: nat): Option<Bytes> { if |s| >= n then Some(s[..n]) else None }

  function Behind(s: Bytes, n: nat): Bytes { if |s| >= n then s[n..] else [] }

  method NeedExactly(stream: Socket, count: nat) returns (data: Option<Bytes>)
    modifies stream`incoming
    ensures data == Front(old(stream.incoming), count) && stream.incoming == Behind(old(stream.incoming), count)
  {
    var got: Bytes := [];
    while |got| < count
      invariant old(stream.incoming) == got + stream.incoming && |got| <= count
    {
      var chunk := stream.Recv(count - |got|);
      if chunk == [] { return None; }
      got := got + chunk;
    }
    return Some(got);
  }

  function OrElse(b: Option<Bytes>, d: Bytes): Bytes { if b.Some? then b.value else d }

  /** The announced length, and the stream behind the header. */
  function BrokerLength(second: Byte, s: Bytes): (nat, Bytes) {
    if second % 128 == 126 then (Number(OrElse(Front(s, 2), [0, 0])), Behind(s, 2))
    else if second % 128 == 127 then (Number(OrElse(Front(s, 8), [0, 0, 0, 0, 0, 0, 0, 0])), Behind(s, 8))
    else (second % 128, s)
  }

  /** The opcode and payload the broker reads off `s`, and what it leaves. */
  function BrokerReads(s: Bytes): (Option<(Byte, Bytes)>, Bytes) {
    if |s| < 2 then (None, [])
    else
      var (length, body) := BrokerLength(s[1], s[2..]);
      if length > MAX_BODY then (None, body)
      else
        var masked := s[1] >= 128;
        var key, behind := Front(body, 4), if masked then Behind(body, 4) else body;
        var raw := OrElse(Front(behind, length), []);
        (Some((s[0] % 16, if masked && key.Some? then Masked(raw, key.value) else raw)), Behind(behind, length))
  }

  /** One frame off the stream: what the bytes show, if they show a whole one within the limit.
      It is none if not even two bytes are there or the length announced is over the limit; a
      frame cut short counts as an empty one. */
  method BrokerRead(stream: Socket) returns (frame: Option<(Byte, Bytes)>)
    modifies stream`incoming
    ensures (frame, stream.incoming) == BrokerReads(old(stream.incoming))
    // in terms of the bytes
    ensures forall f, n: nat | Shows(old(stream.incoming), f, n) && |f.payload| <= 65536 ::
              frame == Some((f.opcode, f.payload)) && stream.incoming == old(stream.incoming)[n..]
    ensures frame == None <==>
              || |old(stream.incoming)| < 2
              || exists length: nat, end: nat | Announces(old(stream.incoming), length, end) :: length > 65536
    ensures frame != None && (forall f, n: nat :: !Shows(old(stream.incoming), f, n)) ==>
              frame == Some((old(stream.incoming)[0] % 16, [])) && stream.incoming == []
  {
    ghost var s := stream.incoming;
    frame := ReadOnce(stream);
    forall f, n: nat | Shows(s, f, n) && |f.payload| <= 65536
      ensures frame == Some((f.opcode, f.payload)) && stream.incoming == s[n..]
    {
      ShownIsFrame(s, f, n);
      ReadsFrame(s, f, n);
    }
    EndsWhere(s);
    if frame != None && (forall f, n: nat :: !Shows(s, f, n)) {
      if FrameOf(s).Some? { FrameShows(s, FrameOf(s).value.0, FrameOf(s).value.1); }
      ReadsCut(s);
    }
  }

  /** The reader itself, against a function of the stream. */
  method ReadOnce(stream: Socket) returns (frame: Option<(Byte, Bytes)>)
    modifies stream`incoming
    ensures (frame, stream.incoming) == BrokerReads(old(stream.incoming))
  {
    var head := NeedExactly(stream, 2);
    if head.None? { return None; }
    var opcode, masked, length: nat := head.value[0] % 16, head.value[1] >= 128, head.value[1] % 128;
    if length == 126 {
      var extended := NeedExactly(stream, 2);
      length := Number(OrElse(extended, [0, 0]));
    } else if length == 127 {
      var extended := NeedExactly(stream, 8);
      length := Number(OrElse(extended, [0, 0, 0, 0, 0, 0, 0, 0]));
    }
    if length > MAX_BODY { return None; }
    var key := Some([]);
    if masked { key := NeedExactly(stream, 4); }
    var payload := Some([]);
    if length > 0 { payload := NeedExactly(stream, length); }
    var raw := OrElse(payload, []);
    if masked && key.Some? { raw := Masked(raw, key.value); }
    return Some((opcode, raw));
  }

  lemma LengthMeans(s: Bytes)
    requires |s| >= 2 && HeaderOf(s).Some?
    ensures BrokerLength(s[1], s[2..]) == (HeaderOf(s).value.length, s[HeaderOf(s).value.offset..])
  {
    var short := s[1] % 128;
    if short == 126 {
      assert s[2..][..2] == s[2..4] && s[2..][2..] == s[4..];
    } else if short == 127 {
      assert s[2..][..8] == s[2..10] && s[2..][8..] == s[10..];
    }
  }

  lemma CutLength(s: Bytes)
    requires |s| >= 2 && HeaderOf(s).None?
    ensures BrokerLength(s[1], s[2..]) == (0, [])
  {
    NumberOfZeros([0, 0]);
    NumberOfZeros([0, 0, 0, 0, 0, 0, 0, 0]);
  }

  lemma ReadsFrame(s: Bytes, f: Frame, n: nat)
    requires FrameOf(s) == Some((f, n)) && |f.payload| <= MAX_BODY
    ensures BrokerReads(s) == (Some((f.opcode, f.payload)), s[n..])
  {
    LengthMeans(s);
    var h := HeaderOf(s).value;
    var at, body := PayloadAt(h), s[h.offset..];
    if h.masked {
      assert body[..4] == s[h.offset..at] && body[4..] == s[at..];
    }
    assert s[at..][..h.length] == s[at..n] && s[at..][h.length..] == s[n..];
  }

  lemma EndsWhere(s: Bytes)
    ensures BrokerReads(s).0 == None
            <==> |s| < 2 || exists length: nat, end: nat | Announces(s, length, end) :: length > 65536
  {
    if |s| >= 2 {
      if HeaderOf(s).Some? {
        LengthMeans(s);
        HeaderHasEnd(s);
      } else {
        CutLength(s);
        forall length: nat, end: nat ensures !Announces(s, length, end) { HeaderMeans(s, length, end); }
      }
    }
  }

  lemma ReadsCut(s: Bytes)
    requires FrameOf(s) == None && BrokerReads(s).0 != None
    ensures BrokerReads(s) == (Some((s[0] % 16, [])), [])
  {
    if HeaderOf(s).Some? {
      LengthMeans(s);
    } else {
      CutLength(s);
      assert Masked([], [0, 0, 0, 0]) == [];
    }
  }

  /** A client's frame reads back as it was, and exactly its bytes are consumed, if and only
      if its payload is within the limit; a longer one ends the reading. */
  lemma BrokerRoundTrip(f: Frame, key: Bytes, rest: Bytes)
    requires Sendable(f) && |key| == 4
    ensures |f.payload| <= MAX_BODY ==> BrokerReads(Keyed(f, key) + rest) == (Some((f.opcode, f.payload)), rest)
    ensures |f.payload| > MAX_BODY ==> BrokerReads(Keyed(f, key) + rest).0 == None
  {
    var field, raw := LengthField(|f.payload|, 128), Masked(f.payload, key);
    assert Keyed(f, key) + rest == [FirstByte(f)] + field + (key + (raw + rest));
    BrokerReadsRaw(f, key, raw, rest);
    MaskedTwice(f.payload, key);
  }

  lemma BrokerReadsRaw(f: Frame, key: Bytes, raw: Bytes, rest: Bytes)
    requires Sendable(f) && |key| == 4 && |raw| == |f.payload|
    ensures var s := [FirstByte(f)] + LengthField(|f.payload|, 128) + (key + (raw + rest));
            if |raw| <= MAX_BODY then BrokerReads(s) == (Some((f.opcode, Masked(raw, key))), rest)
            else BrokerReads(s).0 == None
  {
    BrokerSees(f, key + (raw + rest));
    var body := key + (raw + rest);
    assert Front(body, 4) == Some(key) && Behind(body, 4) == raw + rest;
    assert Front(raw + rest, |raw|) == Some(raw) && Behind(raw + rest, |raw|) == rest;
  }

  /** The header of a client's frame as the broker takes it apart. */
  lemma BrokerSees(f: Frame, behind: Bytes)
    requires Sendable(f)
    ensures var s := [FirstByte(f)] + LengthField(|f.payload|, 128) + behind;
            && |s| >= 2 && s[1] >= 128 && s[0] % 16 == f.opcode
            && BrokerLength(s[1], s[2..]) == (|f.payload|, behind)
  {
    var length := |f.payload|;
    var field := LengthField(length, 128);
    var s := [FirstByte(f)] + field + behind;
    Pow256Values();
    assert s[2..] == field[1..] + behind;
    if 126 <= length < 0x1_0000 {
      NumberOfBigEndian(length, 2);
      assert Front(s[2..], 2) == Some(BigEndian(length, 2));
    } else if length >= 0x1_0000 {
      NumberOfBigEndian(length, 8);
      assert Front(s[2..], 8) == Some(BigEndian(length, 8));
    }
  }

  /** A client's frame cut anywhere reads as the same frame with nothing in it, so a cut frame
      and an empty one look alike to the broker, unless not even two bytes are there or the
      length is there and over the limit: then, and only then, the reading ends. */
  lemma CutReadsEmptyIff(f: Frame, key: Bytes, n: nat)
    requires Sendable(f) && |key| == 4 && n < |Keyed(f, key)|
    ensures var field, read := LengthField(|f.payload|, 128), BrokerReads(Keyed(f, key)[..n]);
            && (read.0 == None <==> n < 2 || (n >= 1 + |field| && |f.payload| > MAX_BODY))
            && (read.0 != None ==> read == (Some((f.opcode, [])), []))
  {
    var field, raw := LengthField(|f.payload|, 128), Masked(f.payload, key);
    var part, whole := Keyed(f, key)[..n], [FirstByte(f)] + field + (key + raw);
    assert Keyed(f, key) == whole;
    if n >= 1 + |field| {
      var behind := (key + raw)[..n - 1 - |field|];
      assert part == [FirstByte(f)] + field + behind;
      BrokerSees(f, behind);
      if n < 5 + |field| {
        assert Front(behind, 4) == None;
      } else {
        assert behind == key + raw[..n - 5 - |field|];
        assert Front(behind, 4) == Some(key) && Behind(behind, 4) == raw[..n - 5 - |field|];
      }
      assert Masked([], key) == [];
    } else if n >= 2 {
      CutLengthIsNothing(f, n);
      assert part == ([FirstByte(f)] + field)[..n];
    }
  }

  /** A length cut short counts as none, and nothing is left to read. */
  lemma CutLengthIsNothing(f: Frame, n: nat)
    requires Sendable(f) && 2 <= n < 1 + |LengthField(|f.payload|, 128)|
    ensures var part := ([FirstByte(f)] + LengthField(|f.payload|, 128))[..n];
            && part[0] % 16 == f.opcode && part[1] >= 128
            && BrokerLength(part[1], part[2..]) == (0, [])
  {
    NumberOfZeros([0, 0]);
    NumberOfZeros([0, 0, 0, 0, 0, 0, 0, 0]);
  }

  lemma {:induction false} NumberOfZeros(s: Bytes)
    requires forall i | 0 <= i < |s| :: s[i] == 0
    ensures Number(s) == 0
  {
    if s != [] { NumberOfZeros(s[..|s| - 1]); }
  }
}
