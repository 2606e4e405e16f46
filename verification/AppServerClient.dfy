/** The client of the app server's daemon: a buffered frame reader, fragments gathered into
    messages, pings answered. */
module AppServerClient {
  import opened Options
  import opened WebSocket
  import opened WireFormat

  /** What one receive call gives: the connection failed, nothing to hand on, or one message
      for the JSON decoder. */
  datatype Received = Failed | Nothing | Message(bytes: Bytes)

  /** What a message is to the request under way: its answer, a request of the server's own,
      which is declined with the text given, anything else, or no message at all. */
  datatype Kind = TheAnswer | Request(decline: Bytes) | Other | Unreadable

  /** No decline is longer than a frame can carry. */
  ghost predicate Sensible(kind: Bytes -> Kind) {
    forall m :: kind(m).Request? ==> |kind(m).decline| < 0x1_0000_0000_0000_0000
  }

  class DaemonClient {
    var conn: Socket
    var buffer: Bytes
    var partial: Bytes

    constructor (conn: Socket)
      ensures this.conn == conn && buffer == [] && partial == []
    {
      this.conn, buffer, partial := conn, [], [];
    }

    /** All bytes not yet consumed, read or still to come. */
    ghost function Unread(): Bytes
      reads this, conn
    {
      buffer + conn.incoming
    }

    method Fill() returns (ok: bool)
      modifies this`buffer, conn`incoming
      ensures Unread() == old(Unread()) && conn == old(conn)
      ensures ok ==> |conn.incoming| < |old(conn.incoming)| && old(buffer) <= buffer
      ensures !ok ==> conn.incoming == [] && buffer == old(buffer)
    {
      var chunk := conn.Recv(65536);
      if chunk == [] { return false; }
      buffer := buffer + chunk;
      ok := true;
    }

    method Need(count: nat) returns (ok: bool)
      modifies this`buffer, conn`incoming
      ensures Unread() == old(Unread()) && conn == old(conn)
      ensures ok ==> |buffer| >= count && old(buffer) <= buffer
      ensures !ok ==> |Unread()| < count
    {
      ok := true;
      while |buffer| < count
        invariant Unread() == old(Unread()) && conn == old(conn) && old(buffer) <= buffer
        decreases |conn.incoming|
      {
        ok := Fill();
        if !ok { return; }
      }
    }

    /** Send one masked frame under a fresh key. */
    method Send(f: Frame) returns (ok: bool, key: Bytes)
      requires Sendable(f) && f.final
      modifies conn`sent, conn`faults
      ensures |key| == 4 && conn.sent == if ok then old(conn.sent) + Keyed(f, key) else old(conn.sent)
      ensures conn.faults == old(conn.faults) + if ok then 0 else 1
      ensures ok ==> old(conn.sent) <= conn.sent && LaidOut(conn.sent[|old(conn.sent)|..], f, Some(key))
    {
      var k: Bytes := *;
      key := if |k| == 4 then k else [0, 0, 0, 0];
      KeyedIsLaidOut(f, key);
      ok := conn.Send(Keyed(f, key));
      assert ok ==> conn.sent[|old(conn.sent)|..] == Keyed(f, key);
    }

    /** Have the whole header in the buffer, and read it. */
    method NeedHeader() returns (h: Option<Header>)
      modifies this`buffer, conn`incoming
      ensures Unread() == old(Unread()) && conn == old(conn)
      ensures h == HeaderOf(Unread())
      ensures h.Some? ==> 2 <= h.value.offset <= |buffer|
    {
      var ok := Need(2);
      if !ok { return None; }
      var length, offset := buffer[1] % 128, 2;
      if length == 126 {
        ok := Need(4);
        if !ok { return None; }
        length, offset := Number(buffer[2..4]), 4;
      } else if length == 127 {
        ok := Need(10);
        if !ok { return None; }
        length, offset := Number(buffer[2..10]), 10;
      }
      SameHeader(buffer, conn.incoming);
      return Some(Header(length, offset, buffer[1] >= 128));
    }

    method NeedKey(h: Header) returns (key: Option<Bytes>)
      requires h.offset <= |buffer|
      modifies this`buffer, conn`incoming
      ensures Unread() == old(Unread()) && conn == old(conn)
      ensures key.Some? <==> |Unread()| >= PayloadAt(h)
      ensures key.Some? ==> key.value == Unread()[h.offset..PayloadAt(h)]
    {
      if !h.masked { return Some([]); }
      var ok := Need(h.offset + 4);
      if !ok { return None; }
      return Some(buffer[h.offset..h.offset + 4]);
    }

    /** Take the next `length` bytes behind the first `at`, and drop all of them. */
    method TakePayload(at: nat, length: nat) returns (payload: Option<Bytes>)
      modifies this`buffer, conn`incoming
      ensures conn == old(conn)
      ensures payload.Some? <==> |old(Unread())| >= at + length
      ensures payload.Some? ==>
                payload.value == old(Unread())[at..at + length] && Unread() == old(Unread())[at + length..]
    {
      var ok := Need(at + length);
      if !ok { return None; }
      DropThenAppend(buffer, conn.incoming, at + length);
      payload := Some(buffer[at..at + length]);
      buffer := buffer[at + length..];
    }

    /** Take one whole frame off the stream. */
    method Take() returns (frame: Option<Frame>)
      modifies this`buffer, conn`incoming
      ensures conn == old(conn)
      ensures frame.None? <==> FrameOf(old(Unread())).None?
      ensures frame.Some? ==>
                var (f, n) := FrameOf(old(Unread())).value; frame.value == f && Unread() == old(Unread())[n..]
      ensures frame.Some? ==>
                exists n: nat | Shows(old(Unread()), frame.value, n) :: Unread() == old(Unread())[n..]
      ensures frame.None? ==> forall f, n: nat :: !Shows(old(Unread()), f, n)
    {
      ghost var s := Unread();
      FrameShownIff(s);
      var h := NeedHeader();
      if h.None? { return None; }
      var first := buffer[0];
      var key := NeedKey(h.value);
      if key.None? { return None; }
      var raw := TakePayload(h.value.offset + if h.value.masked then 4 else 0, h.value.length);
      if raw.None? { return None; }
      TakenIsFrame(s, h.value, key.value, raw.value);
      return Some(Frame(first >= 128, first % 16, if h.value.masked then Masked(raw.value, key.value) else raw.value));
    }

    /** Take one frame and deal with it: answer a ping, gather text, hand on a whole message. */
    method Recv() returns (r: Received, ghost key: Bytes)
      modifies this`buffer, this`partial, conn
      ensures conn == old(conn) && |key| == 4
      ensures r != Failed ==> FrameOf(old(Unread())).Some?
      ensures r != Failed ==> var (f, n) := FrameOf(old(Unread())).value;
                Unread() == old(Unread())[n..] && Handled(f, old(partial), partial, old(conn.sent), conn.sent, key, r)
      ensures r == Failed ==> || FrameOf(old(Unread())).None? || FrameOf(old(Unread())).value.0.opcode == CLOSE
                              || conn.faults > old(conn.faults)
      ensures conn.faults >= old(conn.faults)
      // in terms of the bytes
      ensures r != Failed ==>
                exists f, n: nat | Shows(old(Unread()), f, n) ::
                  && Unread() == old(Unread())[n..] && old(conn.sent) <= conn.sent
                  && DealtWith(f, old(partial), partial, conn.sent[|old(conn.sent)|..], key, r)
      ensures r == Failed && conn.faults == old(conn.faults) ==>
                forall f, n: nat | Shows(old(Unread()), f, n) :: f.opcode == 8
    {
      ghost var s, sent, gathered := Unread(), conn.sent, partial;
      FrameShownIff(s);
      r, key := TakeAndHandle();
      if r != Failed {
        ghost var f := FrameOf(s).value.0;
        assert conn.sent[|sent|..] == Answer(f, key);
        HandledIsDealtWith(f, gathered, partial, sent, conn.sent, key, r);
        assert Shows(s, f, FrameOf(s).value.1);
      }
    }

    /** The receive call itself, against the relation the loop is proved with. */
    method TakeAndHandle() returns (r: Received, ghost key: Bytes)
      modifies this`buffer, this`partial, conn
      ensures conn == old(conn) && |key| == 4
      ensures r != Failed ==> FrameOf(old(Unread())).Some?
      ensures r != Failed ==> var (f, n) := FrameOf(old(Unread())).value;
                Unread() == old(Unread())[n..] && Handled(f, old(partial), partial, old(conn.sent), conn.sent, key, r)
      ensures r == Failed ==> || FrameOf(old(Unread())).None? || FrameOf(old(Unread())).value.0.opcode == CLOSE
                              || conn.faults > old(conn.faults)
      ensures conn.faults >= old(conn.faults)
    {
      key := [0, 0, 0, 0];
      assert conn.sent + [] == conn.sent;
      ReadFramesAreSendable(Unread());
      var taken := Take();
      if taken.None? { return Failed, key; }
      var f := taken.value;
      if f.opcode == CLOSE { return Failed, key; }
      if f.opcode == PING {
        var ok;
        ok, key := Send(Frame(true, PONG, f.payload));
        return if ok then Nothing else Failed, key;
      }
      if f.opcode == PONG { return Nothing, key; }
      if f.opcode != TEXT && f.opcode != CONTINUATION { return Nothing, key; }
      partial := partial + f.payload;
      if !f.final { return Nothing, key; }
      var message := partial;
      partial := [];
      return Message(message), key;
    }

    ghost function View(): ClientView
      reads this, conn
    {
      ClientView(Unread(), partial, conn.sent)
    }

    /** Receive once, and decline a request of the server's. */
    method RecvAndDecline(kind: Bytes -> Kind) returns (r: Received, ghost key: Bytes)
      requires Sensible(kind)
      modifies this`buffer, this`partial, conn
      ensures conn == old(conn) && |key| == 4 && conn.faults >= old(conn.faults)
      ensures r != Failed ==> FrameOf(old(Unread())).Some?
      ensures r != Failed ==> var (f, n) := FrameOf(old(Unread())).value;
                && Unread() == old(Unread())[n..] && Sendable(f) && Taken(f, old(partial), partial, r)
                && conn.sent == old(conn.sent) + Reply(old(partial), f, key, kind)
      ensures r == Failed ==> || FrameOf(old(Unread())).None? || FrameOf(old(Unread())).value.0.opcode == CLOSE
                              || conn.faults > old(conn.faults)
      ensures r.Message? && kind(r.bytes).Request? ==>
                && old(conn.sent) <= conn.sent
                && LaidOut(conn.sent[|old(conn.sent)|..], Frame(true, 1, kind(r.bytes).decline), Some(key))
    {
      ghost var unread, gathered, sent := Unread(), partial, conn.sent;
      r, key := Recv();
      if r == Failed { return; }
      ghost var f := FrameOf(unread).value.0;
      ReplyIs(gathered, f, partial, r, key, kind);
      if r.Message? && kind(r.bytes).Request? {
        var ok;
        assert sent + [] == sent;
        ok, key := Send(Frame(true, TEXT, kind(r.bytes).decline));
        ReplyIs(gathered, f, partial, r, key, kind);
        KeyedIsLaidOut(Frame(true, TEXT, kind(r.bytes).decline), key);
        assert ok ==> conn.sent[|sent|..] == Keyed(Frame(true, TEXT, kind(r.bytes).decline), key);
        if !ok { return Failed, key; }
      }
    }

    /** One more of the frames the server sends. */
    method ReceiveNext(ghost start: ClientView, ghost frames: seq<Frame>, ghost rest: Bytes, ghost keys: seq<Bytes>,
                       messages: seq<Bytes>, kind: Bytes -> Kind)
      returns (ok: bool, messages': seq<Bytes>, ghost keys': seq<Bytes>)
      requires ServerFrames(frames) && Sensible(kind) && SoFar(start, frames, rest, keys, messages, kind, View())
      requires |keys| == |frames| ==> FrameOf(rest).None?
      modifies this`buffer, this`partial, conn
      ensures conn == old(conn)
      ensures ok ==> |keys'| == |keys| + 1 && SoFar(start, frames, rest, keys', messages', kind, View())
      ensures ok ==> messages' == messages || (|messages'| == |messages| + 1 && messages < messages')
      ensures !ok ==> keys' == keys && messages' == messages
      ensures !ok && |keys| < |frames| ==> conn.faults > old(conn.faults)
      ensures conn.faults >= old(conn.faults)
    {
      ok, messages', keys' := false, messages, keys;
      NextFrame(start, frames, rest, keys, messages, kind, View());
      ghost var before := View();
      var r;
      ghost var key;
      r, key := RecvAndDecline(kind);
      if r == Failed { return; }
      OneMore(start, frames, rest, keys, messages, kind, before, key, r, View());
      ok, messages', keys' := true, messages + if r.Message? then [r.bytes] else [], keys + [key];
    }

    /** The loop of a request: receive, at most `budget` times, until the answer is there or
        something that is no message. */
    method ReceiveUpTo(budget: nat, kind: Bytes -> Kind, ghost frames: seq<Frame>, ghost rest: Bytes)
      returns (ok: bool, messages: seq<Bytes>, ghost keys: seq<Bytes>)
      requires ServerFrames(frames) && Sensible(kind) && Unread() == Wire(frames) + rest
      requires budget <= |frames| || FrameOf(rest).None?
      modifies this`buffer, this`partial, conn
      ensures conn == old(conn) && |keys| <= |frames|
      ensures messages == Assembled(old(partial), frames[..|keys|]).messages
      ensures EndsLast(kind, messages)
      ensures ok ==> SoFar(old(View()), frames, rest, keys, messages, kind, View())
      ensures ok ==> |keys| == budget || Over(kind, messages)
      ensures !ok ==> |keys| == |frames| || conn.faults > old(conn.faults)
    {
      ok, messages, keys := true, [], [];
      ghost var start := View();
      var i, over := 0, false;
      NothingYet(start, frames, rest, kind);
      while i < budget && !over
        invariant conn == old(conn) && |keys| == i <= budget && conn.faults >= old(conn.faults)
        invariant SoFar(start, frames, rest, keys, messages, kind, View())
        invariant EndsLast(kind, messages) && (over <==> Over(kind, messages))
      {
        var count := |messages|;
        ok, messages, keys := ReceiveNext(start, frames, rest, keys, messages, kind);
        if !ok { return; }
        i := i + 1;
        over := |messages| > count && Ends(kind(messages[count]));
      }
    }

    /** From one end to the other: the server's messages, cut into fragments anyhow and with
        control frames between them, are received as they were sent, up to the answer. */
    method Await(budget: nat, kind: Bytes -> Kind, ghost pieces: seq<seq<Frame>>, ghost texts: seq<Bytes>,
                 ghost rest: Bytes)
      returns (ok: bool, messages: seq<Bytes>, ghost keys: seq<Bytes>)
      requires |pieces| == |texts| && forall i | 0 <= i < |pieces| :: Carries(pieces[i], texts[i])
      requires partial == [] && ServerFrames(Joined(pieces)) && Sensible(kind)
               && Unread() == Wire(Joined(pieces)) + rest
      requires budget <= |Joined(pieces)| || FrameOf(rest).None?
      modifies this`buffer, this`partial, conn
      ensures messages <= texts
      ensures EndsLast(kind, messages)
      ensures ok ==> Answered([], Joined(pieces), keys, kind, old(conn.sent), conn.sent)
      ensures conn.faults == old(conn.faults) && budget >= |Joined(pieces)| && HasAnswer(kind, texts) ==>
                Over(kind, messages)
      // the answer, or something that is no message, ends the wait, and nothing else does
      ensures forall i | 0 <= i < |messages| - 1 :: kind(messages[i]) !in {TheAnswer, Unreadable}
      ensures ok ==>
                |keys| == budget || (messages != [] && kind(messages[|messages| - 1]) in {TheAnswer, Unreadable})
      ensures conn.faults == old(conn.faults) && budget >= |Joined(pieces)|
              && (exists i | 0 <= i < |texts| :: kind(texts[i]) == TheAnswer) ==>
                messages != [] && kind(messages[|messages| - 1]) in {TheAnswer, Unreadable}
    {
      ghost var frames := Joined(pieces);
      ok, messages, keys := ReceiveUpTo(budget, kind, frames, rest);
      FragmentsAssemble(pieces, texts);
      MessagesGrow([], frames, |keys|);
      if |keys| == |frames| {
        assert frames[..|keys|] == frames;
        AnswerIsLast(kind, messages);
      }
    }
  }

  /** The wait ends with such a message: with its answer, or because it is none. */
  predicate Ends(k: Kind) { k == TheAnswer || k == Unreadable }

  predicate Over(kind: Bytes -> Kind, messages: seq<Bytes>) { messages != [] && Ends(kind(messages[|messages| - 1])) }

  /** No message but the last can have ended the wait. */
  predicate EndsLast(kind: Bytes -> Kind, messages: seq<Bytes>) {
    forall i | 0 <= i < |messages| - 1 :: !Ends(kind(messages[i]))
  }

  predicate HasAnswer(kind: Bytes -> Kind, texts: seq<Bytes>) { exists m | m in texts :: kind(m) == TheAnswer }

  lemma AnswerIsLast(kind: Bytes -> Kind, messages: seq<Bytes>)
    requires EndsLast(kind, messages)
    ensures HasAnswer(kind, messages) ==> Over(kind, messages)
  {
    if HasAnswer(kind, messages) {
      var m :| m in messages && kind(m) == TheAnswer;
      var i :| 0 <= i < |messages| && messages[i] == m;
      assert !(i < |messages| - 1);
    }
  }

  predicate ServerFrames(frames: seq<Frame>) { forall f | f in frames :: Sendable(f) && f.opcode != CLOSE }

  datatype ClientView = ClientView(unread: Bytes, partial: Bytes, sent: Bytes)

  /** Of `frames`, sent by a server, the first `|keys|` have been dealt with since `start`:
      these are the messages handed on, the text gathered, the bytes left, the answers sent. */
  ghost predicate SoFar(start: ClientView, frames: seq<Frame>, rest: Bytes, keys: seq<Bytes>, messages: seq<Bytes>,
                        kind: Bytes -> Kind, now: ClientView)
    requires ServerFrames(frames) && Sensible(kind)
  {
    && |keys| <= |frames|
    && Assembled(start.partial, frames[..|keys|]) == Gathered(messages, now.partial)
    && now.unread == Wire(frames[|keys|..]) + rest
    && Answered(start.partial, frames, keys, kind, start.sent, now.sent)
  }

  /** `sent` grew by one answer to each ping and one decline of each request of the server's
      among the first `|keys|` frames, in order, and by nothing else. */
  ghost predicate Answered(partial: Bytes, frames: seq<Frame>, keys: seq<Bytes>, kind: Bytes -> Kind, sent: Bytes,
                           sent': Bytes)
    requires ServerFrames(frames) && Sensible(kind)
  {
    && |keys| <= |frames| && (forall k | k in keys :: |k| == 4)
    && sent' == sent + Answers(partial, frames[..|keys|], keys, kind)
  }

  lemma NothingYet(start: ClientView, frames: seq<Frame>, rest: Bytes, kind: Bytes -> Kind)
    requires ServerFrames(frames) && Sensible(kind) && start.unread == Wire(frames) + rest
    ensures SoFar(start, frames, rest, [], [], kind, start)
  {
    assert frames[..0] == [] && frames[0..] == frames && start.sent + [] == start.sent;
  }

  lemma NextFrame(start: ClientView, frames: seq<Frame>, rest: Bytes, keys: seq<Bytes>, messages: seq<Bytes>,
                  kind: Bytes -> Kind, now: ClientView)
    requires ServerFrames(frames) && Sensible(kind) && SoFar(start, frames, rest, keys, messages, kind, now)
    requires |keys| == |frames| ==> FrameOf(rest).None?
    ensures |keys| < |frames| <==> FrameOf(now.unread).Some?
    ensures FrameOf(now.unread).Some? ==>
              && FrameOf(now.unread).value.0 == frames[|keys|]
              && now.unread[FrameOf(now.unread).value.1..] == Wire(frames[|keys| + 1..]) + rest
  {
    if |keys| < |frames| { WireFront(frames, |keys|, rest); } else { assert now.unread == rest; }
  }

  lemma OneMore(start: ClientView, frames: seq<Frame>, rest: Bytes, keys: seq<Bytes>, messages: seq<Bytes>,
                kind: Bytes -> Kind, before: ClientView, key: Bytes, r: Received, now: ClientView)
    requires ServerFrames(frames) && Sensible(kind) && SoFar(start, frames, rest, keys, messages, kind, before)
    requires |keys| < |frames| && |key| == 4 && Taken(frames[|keys|], before.partial, now.partial, r)
    requires now.sent == before.sent + Reply(before.partial, frames[|keys|], key, kind)
    requires now.unread == Wire(frames[|keys| + 1..]) + rest
    ensures SoFar(start, frames, rest, keys + [key], messages + if r.Message? then [r.bytes] else [], kind, now)
  {
    AnswersOneMore(start.partial, frames, keys, kind, start.sent, before.sent, key, now.sent);
    AssembledOneMore(start.partial, frames, |keys|, now.partial, r);
  }

  /** What a frame gives, and what it does to the unfinished message. */
  predicate Taken(f: Frame, partial: Bytes, partial': Bytes, r: Received) {
    if IsData(f) then
      if f.final then r == Message(partial + f.payload) && partial' == []
      else r == Nothing && partial' == partial + f.payload
    else r == Nothing && partial' == partial
  }

  /** What one frame does: only text builds up a message, only a ping is answered, and its
      answer carries its own payload. */
  predicate Handled(f: Frame, partial: Bytes, partial': Bytes, sent: Bytes, sent': Bytes, key: Bytes, r: Received)
    requires |key| == 4
  {
    Sendable(f) && Taken(f, partial, partial', r) && f.opcode != CLOSE && sent' == sent + Answer(f, key)
  }

  /** What comes of a frame and what is sent for it: text, or more of it (1, 0), is gathered and
      handed on when it is final; a ping (9) is answered with a pong (10) of its own payload,
      laid out under the key; a close (8) is not dealt with; anything else is passed over. */
  predicate DealtWith(f: Frame, partial: Bytes, partial': Bytes, out: Bytes, key: Bytes, r: Received)
    requires |key| == 4
  {
    && f.opcode != 8
    && (f.opcode in {0, 1} && f.final ==> r == Message(partial + f.payload) && partial' == [])
    && (f.opcode in {0, 1} && !f.final ==> r == Nothing && partial' == partial + f.payload)
    && (f.opcode !in {0, 1} ==> r == Nothing && partial' == partial)
    && (if f.opcode == 9 then LaidOut(out, Frame(true, 10, f.payload), Some(key)) else out == [])
  }

  lemma HandledIsDealtWith(f: Frame, partial: Bytes, partial': Bytes, sent: Bytes, sent': Bytes, key: Bytes,
                           r: Received)
    requires |key| == 4 && Handled(f, partial, partial', sent, sent', key, r)
    ensures DealtWith(f, partial, partial', Answer(f, key), key, r)
  {
    if f.opcode == PING { KeyedIsLaidOut(Frame(true, PONG, f.payload), key); }
  }

  lemma FrameShownIff(s: Bytes)
    ensures FrameOf(s).Some? ==> Shows(s, FrameOf(s).value.0, FrameOf(s).value.1)
    ensures forall f, n: nat | Shows(s, f, n) :: FrameOf(s) == Some((f, n))
  {
    if FrameOf(s).Some? { FrameShows(s, FrameOf(s).value.0, FrameOf(s).value.1); }
    forall f, n: nat | Shows(s, f, n)
      ensures FrameOf(s) == Some((f, n))
    {
      ShownIsFrame(s, f, n);
    }
  }

  // ---------------------------------------------------------------- fragmentation

  predicate IsData(f: Frame) { f.opcode == TEXT || f.opcode == CONTINUATION }

  function Wire(frames: seq<Frame>): Bytes
    requires forall f | f in frames :: Sendable(f)
  {
    if frames == [] then [] else Plain(frames[0]) + Wire(frames[1..])
  }

  lemma WireFront(frames: seq<Frame>, i: nat, rest: Bytes)
    requires i < |frames| && forall f | f in frames :: Sendable(f)
    ensures var s := Wire(frames[i..]) + rest;
            && FrameOf(s) == Some((frames[i], |Plain(frames[i])|))
            && s[|Plain(frames[i])|..] == Wire(frames[i + 1..]) + rest
  {
    assert frames[i..][1..] == frames[i + 1..];
    assert Wire(frames[i..]) + rest == Plain(frames[i]) + (Wire(frames[i + 1..]) + rest);
    PlainRoundTrip(frames[i], Wire(frames[i + 1..]) + rest);
  }

  /** The messages complete so far, and the text of the one that is not. */
  datatype Gathering = Gathered(messages: seq<Bytes>, partial: Bytes)

  function Assembled(start: Bytes, frames: seq<Frame>): Gathering {
    if frames == [] then Gathered([], start)
    else
      var f, so := frames[|frames| - 1], Assembled(start, frames[..|frames| - 1]);
      if !IsData(f) then so
      else if f.final then Gathered(so.messages + [so.partial + f.payload], [])
      else so.(partial := so.partial + f.payload)
  }

  /** One pong for each ping, with its payload, and one decline for each request of the
      server's; `keys` has a key for every frame. */
  ghost function Answers(partial: Bytes, frames: seq<Frame>, keys: seq<Bytes>, kind: Bytes -> Kind): Bytes
    requires |keys| == |frames| && (forall k | k in keys :: |k| == 4) && Sensible(kind)
    requires forall f | f in frames :: Sendable(f)
  {
    if frames == [] then []
    else
      var n := |frames| - 1;
      Answers(partial, frames[..n], keys[..n], kind)
      + Reply(Assembled(partial, frames[..n]).partial, frames[n], keys[n], kind)
  }

  function Answer(f: Frame, key: Bytes): Bytes
    requires |key| == 4 && Sendable(f)
  {
    if f.opcode == PING then Keyed(Frame(true, PONG, f.payload), key) else []
  }

  /** What frame `f` is answered with when `partial` has been gathered. */
  ghost function Reply(partial: Bytes, f: Frame, key: Bytes, kind: Bytes -> Kind): Bytes
    requires |key| == 4 && Sendable(f) && Sensible(kind)
  {
    if IsData(f) && f.final && kind(partial + f.payload).Request?
    then Keyed(Frame(true, TEXT, kind(partial + f.payload).decline), key)
    else Answer(f, key)
  }

  /** A frame that hands on a request of the server's is answered with the decline, any other as
      if no request was under way. */
  lemma ReplyIs(partial: Bytes, f: Frame, partial': Bytes, r: Received, key: Bytes, kind: Bytes -> Kind)
    requires Sendable(f) && Sensible(kind) && Taken(f, partial, partial', r) && |key| == 4
    ensures if r.Message? && kind(r.bytes).Request?
            then Answer(f, key) == []
                && Reply(partial, f, key, kind) == Keyed(Frame(true, TEXT, kind(r.bytes).decline), key)
            else Reply(partial, f, key, kind) == Answer(f, key)
  {
  }

  lemma AnswersOneMore(partial: Bytes, frames: seq<Frame>, keys: seq<Bytes>, kind: Bytes -> Kind,
                       sent: Bytes, before: Bytes, key: Bytes, now: Bytes)
    requires ServerFrames(frames) && Sensible(kind) && Answered(partial, frames, keys, kind, sent, before)
    requires |keys| < |frames| && |key| == 4
    requires now == before + Reply(Assembled(partial, frames[..|keys|]).partial, frames[|keys|], key, kind)
    ensures Answered(partial, frames, keys + [key], kind, sent, now)
  {
    var i := |keys|;
    assert frames[..i + 1][..i] == frames[..i] && (keys + [key])[..i] == keys;
    Regroup(sent, Answers(partial, frames[..i], keys, kind),
        Reply(Assembled(partial, frames[..i]).partial, frames[i], key, kind));
  }

  /** Messages once complete stay. */
  lemma {:induction false} MessagesGrow(start: Bytes, frames: seq<Frame>, i: nat)
    requires i <= |frames|
    ensures Assembled(start, frames[..i]).messages <= Assembled(start, frames).messages
    decreases |frames|
  {
    if i == |frames| {
      assert frames[..i] == frames;
    } else {
      var n := |frames| - 1;
      MessagesGrow(start, frames[..n], i);
      assert frames[..n][..i] == frames[..i];
    }
  }

  lemma AssembledOneMore(start: Bytes, frames: seq<Frame>, i: nat, partial': Bytes, r: Received)
    requires i < |frames| && Taken(frames[i], Assembled(start, frames[..i]).partial, partial', r)
    ensures Assembled(start, frames[..i + 1])
            == Gathered(Assembled(start, frames[..i]).messages + if r.Message? then [r.bytes] else [], partial')
  {
    assert frames[..i + 1][..i] == frames[..i];
    var so := Assembled(start, frames[..i]);
    assert so.messages + [] == so.messages;
  }

  /** The text of a run of frames. */
  function Text(frames: seq<Frame>): Bytes {
    if frames == [] then []
    else
      var f := frames[|frames| - 1];
      Text(frames[..|frames| - 1]) + if IsData(f) then f.payload else []
  }

  /** `frames` is the message `m` cut into fragments, with other frames between them; only
      the last is final. */
  predicate Carries(frames: seq<Frame>, m: Bytes) {
    && frames != [] && Text(frames) == m
    && (forall i | 0 <= i < |frames| && IsData(frames[i]) :: frames[i].final <==> i == |frames| - 1)
    && IsData(frames[|frames| - 1])
  }

  function Joined(pieces: seq<seq<Frame>>): seq<Frame> {
    if pieces == [] then [] else Joined(pieces[..|pieces| - 1]) + pieces[|pieces| - 1]
  }

  lemma {:induction false} UnfinishedGathers(before: seq<Frame>, frames: seq<Frame>)
    requires forall i | 0 <= i < |frames| && IsData(frames[i]) :: !frames[i].final
    ensures var so := Assembled([], before);
            Assembled([], before + frames) == so.(partial := so.partial + Text(frames))
  {
    var so := Assembled([], before);
    if frames == [] {
      assert before + frames == before && so.partial + [] == so.partial;
    } else {
      var n := |frames| - 1;
      assert (before + frames)[..|before + frames| - 1] == before + frames[..n];
      UnfinishedGathers(before, frames[..n]);
      if IsData(frames[n]) {
        assert (so.partial + Text(frames[..n])) + frames[n].payload
               == so.partial + (Text(frames[..n]) + frames[n].payload);
      } else {
        assert Text(frames[..n]) + [] == Text(frames[..n]);
      }
    }
  }

  lemma MessageGathers(before: seq<Frame>, frames: seq<Frame>, m: Bytes)
    requires Carries(frames, m) && Assembled([], before).partial == []
    ensures Assembled([], before + frames) == Gathered(Assembled([], before).messages + [m], [])
  {
    var cut := |frames| - 1;
    UnfinishedGathers(before, frames[..cut]);
    assert (before + frames)[..|before + frames| - 1] == before + frames[..cut];
    assert [] + Text(frames[..cut]) + frames[cut].payload == Text(frames);
  }

  /** However messages are fragmented and whatever control frames lie between the fragments,
      the messages that come out are those that went in, in order. */
  lemma {:induction false} FragmentsAssemble(pieces: seq<seq<Frame>>, messages: seq<Bytes>)
    requires |pieces| == |messages| && forall i | 0 <= i < |pieces| :: Carries(pieces[i], messages[i])
    ensures Assembled([], Joined(pieces)) == Gathered(messages, [])
  {
    if pieces != [] {
      var n := |pieces| - 1;
      FragmentsAssemble(pieces[..n], messages[..n]);
      MessageGathers(Joined(pieces[..n]), pieces[n], messages[n]);
      assert messages == messages[..n] + [messages[n]];
    }
  }

  /** A header, a key and a payload found one behind the other make the frame. */
  lemma TakenIsFrame(s: Bytes, h: Header, key: Bytes, raw: Bytes)
    requires HeaderOf(s) == Some(h) && h.offset >= 2 && |s| >= PayloadAt(h) + h.length
    requires key == s[h.offset..PayloadAt(h)] && raw == s[PayloadAt(h)..PayloadAt(h) + h.length]
    ensures FrameOf(s)
            == Some((Frame(s[0] >= 128, s[0] % 16, if h.masked then Masked(raw, key) else raw),
                PayloadAt(h) + h.length))
  {
    assert FrameIn(s, h) == Frame(s[0] >= 128, s[0] % 16, if h.masked then Masked(raw, key) else raw);
  }

  /** A header once complete does not depend on what follows. */
  lemma SameHeader(s: Bytes, rest: Bytes)
    requires HeaderOf(s).Some?
    ensures HeaderOf(s + rest) == HeaderOf(s)
  {
    if |s| >= 4 { assert (s + rest)[2..4] == s[2..4]; }
    if |s| >= 10 { assert (s + rest)[2..10] == s[2..10]; }
  }
}
