/** Length-prefixed frames between a tab's supervisor and the broker, and their two decoders:
    one works on whatever chunk has arrived, the other asks for exact counts. */
module TabProtocol {
  import opened Options
  import opened WebSocket
  import opened WireFormat
  import BrokerSocket

  const OUTPUT: Byte := 1
  const INPUT: Byte := 2
  const RESIZE: Byte := 3
  const EXIT: Byte := 5

  const HEAD := 5

  datatype TabFrame = TabFrame(kind: Byte, payload: Bytes) {
    /** The length prefix has four bytes. */
    predicate Fits() { |payload| < 0x1_0000_0000 }

    function Encoded(): Bytes
      requires Fits()
    {
      Prefix(|payload|);
      [kind] + BigEndian(|payload|, 4) + payload
    }
  }

  lemma Prefix(n: nat)
    requires n < 0x1_0000_0000
    ensures n < Pow256(4) && Number(BigEndian(n, 4)) == n
  {
    assert Pow256(2) == 0x1_0000;
    assert Pow256(4) == 0x1_0000_0000;
    NumberOfBigEndian(n, 4);
  }

  function LengthIn(s: Bytes): nat
    requires |s| >= HEAD
  {
    Number(s[1..5])
  }

  /** A whole frame is at the front. */
  predicate Whole(s: Bytes) { |s| >= HEAD && |s| >= HEAD + LengthIn(s) }

  function FirstIn(s: Bytes): TabFrame
    requires Whole(s)
  {
    TabFrame(s[0], s[HEAD..HEAD + LengthIn(s)])
  }

  function AfterFirst(s: Bytes): Bytes
    requires Whole(s)
  {
    s[HEAD + LengthIn(s)..]
  }

  /** A frame as it goes over the wire: a byte for its kind, four for its length, its payload. */
  lemma EncodedMeans(f: TabFrame)
    requires f.Fits()
    ensures var s := f.Encoded();
            |s| == 5 + |f.payload| && s[0] == f.kind && Four(s[1..5]) == |f.payload| && s[5..] == f.payload
  {
    Prefix(|f.payload|);
    NumberOfFour(BigEndian(|f.payload|, 4));
    assert f.Encoded()[1..5] == BigEndian(|f.payload|, 4);
  }

  /** And as it is found there. */
  lemma FirstMeans(s: Bytes)
    ensures Whole(s) <==> |s| >= 5 && |s| >= 5 + Four(s[1..5])
    ensures Whole(s) ==> FirstIn(s) == TabFrame(s[0], s[5..5 + Four(s[1..5])])
                         && AfterFirst(s) == s[5 + Four(s[1..5])..]
  {
    if |s| >= 5 { NumberOfFour(s[1..5]); }
  }

  /** All whole frames at the front of `s`, and what is left. */
  datatype Parse = Parse(frames: seq<TabFrame>, pending: Bytes)

  function Parsed(s: Bytes): Parse
    decreases |s|
  {
    if Whole(s) then var p := Parsed(AfterFirst(s)); p.(frames := [FirstIn(s)] + p.frames) else Parse([], s)
  }

  lemma EncodedInFront(f: TabFrame, rest: Bytes)
    requires f.Fits()
    ensures var s := f.Encoded() + rest; Whole(s) && FirstIn(s) == f && AfterFirst(s) == rest
  {
    Prefix(|f.payload|);
    var s := f.Encoded() + rest;
    assert s[1..5] == BigEndian(|f.payload|, 4);
  }

  lemma {:induction false} NeverWholeAfter(s: Bytes)
    ensures !Whole(Parsed(s).pending)
    decreases |s|
  {
    if Whole(s) { NeverWholeAfter(AfterFirst(s)); }
  }

  lemma WholeExtends(s: Bytes, t: Bytes)
    requires Whole(s)
    ensures Whole(s + t) && FirstIn(s + t) == FirstIn(s) && AfterFirst(s + t) == AfterFirst(s) + t
  {
    assert (s + t)[1..5] == s[1..5];
  }

  /** Parsing what has arrived and going on from the rest is parsing it all. */
  lemma {:induction false} ParsesOn(s: Bytes, t: Bytes)
    ensures Parsed(s + t) == Parse(Parsed(s).frames + Parsed(Parsed(s).pending + t).frames,
                                   Parsed(Parsed(s).pending + t).pending)
    decreases |s|
  {
    if Whole(s) {
      WholeExtends(s, t);
      ParsesOn(AfterFirst(s), t);
    }
  }

  function Stream(frames: seq<TabFrame>): Bytes
    requires forall f | f in frames :: f.Fits()
  {
    if frames == [] then [] else frames[0].Encoded() + Stream(frames[1..])
  }

  /** A proper prefix of one frame's encoding. */
  predicate Begun(f: TabFrame, part: Bytes)
    requires f.Fits()
  {
    part < f.Encoded()
  }

  lemma BegunIsNotWhole(f: TabFrame, part: Bytes)
    requires f.Fits() && Begun(f, part)
    ensures !Whole(part)
  {
    Prefix(|f.payload|);
    if |part| >= HEAD {
      assert part[1..5] == f.Encoded()[1..5] == BigEndian(|f.payload|, 4);
    }
  }

  /** A stream of frames followed by the beginning of another parses into exactly those
      frames, with that beginning pending. */
  lemma {:induction false} ParsesStream(frames: seq<TabFrame>, next: TabFrame, part: Bytes)
    requires (forall f | f in frames :: f.Fits()) && next.Fits() && Begun(next, part)
    ensures Parsed(Stream(frames) + part) == Parse(frames, part)
  {
    if frames == [] {
      BegunIsNotWhole(next, part);
      assert Stream(frames) + part == part;
    } else {
      var rest := Stream(frames[1..]) + part;
      assert Stream(frames) + part == frames[0].Encoded() + rest;
      EncodedInFront(frames[0], rest);
      ParsesStream(frames[1..], next, part);
    }
  }

  // ---------------------------------------------------------------- the incremental decoder

  /** The message made of an exit code, unless that is no text. */
  type ExitText = Bytes -> Option<Bytes>

  /** An exit frame whose code is no UTF-8 ends the thread that reads the tab. */
  predicate Breaks(f: TabFrame, exitText: ExitText) { f.kind == EXIT && exitText(f.payload).None? }

  /** What the broker passes on to the browser: terminal output, and the exit of the tab. */
  function Passed(f: TabFrame, exitText: ExitText): Bytes {
    if f.kind == OUTPUT && |f.payload| < 0x1_0000_0000_0000_0000 then Plain(Frame(true, 2, f.payload))
    else if f.kind == EXIT && exitText(f.payload).Some? && |exitText(f.payload).value| < 0x1_0000_0000_0000_0000
    then Plain(Frame(true, 1, exitText(f.payload).value))
    else []
  }

  function Passing(exitText: ExitText): TabFrame -> Bytes { (f: TabFrame) => Passed(f, exitText) }

  function AllPassed(frames: seq<TabFrame>, exitText: ExitText): Bytes { InOrder(frames, Passing(exitText)) }

  /** What `piece` makes of each frame, one behind the other. */
  function InOrder(frames: seq<TabFrame>, piece: TabFrame -> Bytes): Bytes {
    if frames == [] then [] else InOrder(frames[..|frames| - 1], piece) + piece(frames[|frames| - 1])
  }

  /** What each frame is passed on as: output (1) as a binary frame (2), the exit of the tab (5)
      as a text frame (1) that tells its code, anything else not at all. */
  predicate PassedAs(frames: seq<TabFrame>, exitText: ExitText, pieces: seq<Bytes>) {
    |pieces| == |frames| && forall i | 0 <= i < |frames| :: PassedOn(frames[i], exitText(frames[i].payload), pieces[i])
  }

  predicate PassedOn(f: TabFrame, text: Option<Bytes>, piece: Bytes) {
    if f.kind == 1 && |f.payload| < 0x1_0000_0000_0000_0000 then LaidOut(piece, Frame(true, 2, f.payload), None)
    else if f.kind == 5 && text.Some? && |text.value| < 0x1_0000_0000_0000_0000
    then LaidOut(piece, Frame(true, 1, text.value), None)
    else piece == []
  }

  function Together(pieces: seq<Bytes>): Bytes {
    if pieces == [] then [] else Together(pieces[..|pieces| - 1]) + pieces[|pieces| - 1]
  }

  lemma AllPassedMeans(frames: seq<TabFrame>, exitText: ExitText) returns (pieces: seq<Bytes>)
    ensures PassedAs(frames, exitText, pieces) && Together(pieces) == AllPassed(frames, exitText)
  {
    pieces := PiecesInOrder(frames, Passing(exitText));
    forall i | 0 <= i < |frames|
      ensures PassedOn(frames[i], exitText(frames[i].payload), pieces[i])
    {
      PassedMeans(frames[i], exitText);
    }
  }

  lemma {:induction false} PiecesInOrder(frames: seq<TabFrame>, piece: TabFrame -> Bytes) returns (pieces: seq<Bytes>)
    ensures |pieces| == |frames| && Together(pieces) == InOrder(frames, piece)
    ensures forall i | 0 <= i < |frames| :: pieces[i] == piece(frames[i])
  {
    if frames == [] {
      pieces := [];
    } else {
      var n := |frames| - 1;
      var before := PiecesInOrder(frames[..n], piece);
      pieces := before + [piece(frames[n])];
      assert pieces[..n] == before;
    }
  }

  lemma PassedMeans(f: TabFrame, exitText: ExitText)
    ensures PassedOn(f, exitText(f.payload), Passed(f, exitText))
  {
    if f.kind == OUTPUT && |f.payload| < 0x1_0000_0000_0000_0000 {
      PlainIsLaidOut(Frame(true, 2, f.payload));
    } else if f.kind == EXIT && exitText(f.payload).Some? && |exitText(f.payload).value| < 0x1_0000_0000_0000_0000 {
      PlainIsLaidOut(Frame(true, 1, exitText(f.payload).value));
    }
  }

  /** Of `whole`, `frames` have been taken and `left` is what remains. */
  ghost predicate TakenFrom(whole: Bytes, frames: seq<TabFrame>, left: Bytes) {
    Parsed(whole) == Parse(frames + Parsed(left).frames, Parsed(left).pending)
  }

  lemma TakesOne(whole: Bytes, frames: seq<TabFrame>, left: Bytes)
    requires TakenFrom(whole, frames, left) && Whole(left)
    ensures TakenFrom(whole, frames + [FirstIn(left)], AfterFirst(left))
  {
  }

  /** Take whole frames off `pending` and pass them on, until none is left or sending fails. */
  method PassWhole(pending: Bytes, browser: Socket, exitText: ExitText)
    returns (ok: bool, frames: seq<TabFrame>, left: Bytes)
    modifies browser`sent, browser`faults
    ensures ok ==> Parse(frames, left) == Parsed(pending)
    ensures frames <= Parsed(pending).frames && forall f | f in frames :: !Breaks(f, exitText)
    ensures browser.faults >= old(browser.faults) && (ok ==> browser.faults == old(browser.faults))
    ensures !ok && browser.faults == old(browser.faults) ==>
              |frames| < |Parsed(pending).frames| && Breaks(Parsed(pending).frames[|frames|], exitText)
    ensures browser.sent == old(browser.sent) + AllPassed(frames, exitText)
    // in terms of the bytes
    ensures exists pieces :: PassedAs(frames, exitText, pieces) && browser.sent == old(browser.sent) + Together(pieces)
    ensures forall f | f in frames && f.kind == 5 :: exitText(f.payload).Some?
    ensures !ok && browser.faults == old(browser.faults) ==>
              |frames| < |Parsed(pending).frames| && Parsed(pending).frames[|frames|].kind == 5
              && exitText(Parsed(pending).frames[|frames|].payload) == None
  {
    ok, frames, left := TakeWhole(pending, browser, exitText);
    ghost var pieces := AllPassedMeans(frames, exitText);
  }

  /** The inner loop itself. */
  method TakeWhole(pending: Bytes, browser: Socket, exitText: ExitText)
    returns (ok: bool, frames: seq<TabFrame>, left: Bytes)
    modifies browser`sent, browser`faults
    ensures ok ==> Parse(frames, left) == Parsed(pending)
    ensures frames <= Parsed(pending).frames && forall f | f in frames :: !Breaks(f, exitText)
    ensures browser.faults >= old(browser.faults) && (ok ==> browser.faults == old(browser.faults))
    ensures !ok && browser.faults == old(browser.faults) ==>
              |frames| < |Parsed(pending).frames| && Breaks(Parsed(pending).frames[|frames|], exitText)
    ensures browser.sent == old(browser.sent) + AllPassed(frames, exitText)
  {
    ok, frames, left := true, [], pending;
    while |left| >= HEAD
      invariant TakenFrom(pending, frames, left)
      invariant browser.sent == old(browser.sent) + AllPassed(frames, exitText)
      invariant ok && browser.faults == old(browser.faults) && forall f | f in frames :: !Breaks(f, exitText)
      decreases |left|
    {
      var length := LengthIn(left);
      if |left| < HEAD + length { break; }
      TakesOne(pending, frames, left);
      var f := TabFrame(left[0], left[HEAD..HEAD + length]);
      left := left[HEAD + length..];
      if Breaks(f, exitText) { return false, frames, left; }
      if f.kind == OUTPUT || f.kind == EXIT {
        ok := browser.Send(Passed(f, exitText));
        if !ok { return; }
      }
      PassedMore(old(browser.sent), frames, f, exitText);
      frames := frames + [f];
    }
    assert frames + [] == frames;
  }

  lemma PassedMore(sent: Bytes, frames: seq<TabFrame>, f: TabFrame, exitText: ExitText)
    ensures sent + AllPassed(frames, exitText) + Passed(f, exitText) == sent + AllPassed(frames + [f], exitText)
  {
    OneMoreInOrder(frames, f, Passing(exitText));
    Regroup(sent, AllPassed(frames, exitText), Passed(f, exitText));
  }

  lemma OneMoreInOrder(frames: seq<TabFrame>, f: TabFrame, piece: TabFrame -> Bytes)
    ensures InOrder(frames + [f], piece) == InOrder(frames, piece) + piece(f)
  {
  }

  lemma AllPassedJoins(frames: seq<TabFrame>, more: seq<TabFrame>, exitText: ExitText)
    ensures AllPassed(frames + more, exitText) == AllPassed(frames, exitText) + AllPassed(more, exitText)
  {
    JoinsInOrder(frames, more, Passing(exitText));
  }

  lemma {:induction false} JoinsInOrder(frames: seq<TabFrame>, more: seq<TabFrame>, piece: TabFrame -> Bytes)
    ensures InOrder(frames + more, piece) == InOrder(frames, piece) + InOrder(more, piece)
  {
    if more == [] {
      assert frames + more == frames;
    } else {
      var n := |more| - 1;
      JoinsInOrder(frames, more[..n], piece);
      assert (frames + more)[..|frames + more| - 1] == frames + more[..n];
      Regroup(InOrder(frames, piece), InOrder(more[..n], piece), piece(more[n]));
    }
  }

  /** One more chunk: what was pending is gone on from. */
  lemma ChunkParses(seen: Bytes, chunk: Bytes, p: Parse, q: Parse)
    requires p == Parsed(seen) && q == Parsed(p.pending + chunk)
    ensures Parsed(seen + chunk) == Parse(p.frames + q.frames, q.pending)
  {
    ParsesOn(seen, chunk);
  }

  lemma FramesOnlyGrow(s: Bytes, t: Bytes)
    ensures Parsed(s).frames <= Parsed(s + t).frames
  {
    ParsesOn(s, t);
  }

  /** Frames passed on before a failure are a prefix of all there are. */
  lemma StopsWithin(seen: Bytes, chunk: Bytes, rest: Bytes, p: Parse, more: seq<TabFrame>)
    requires p == Parsed(seen) && more <= Parsed(p.pending + chunk).frames
    ensures p.frames + more <= Parsed(seen + (chunk + rest)).frames
  {
    ChunkParses(seen, chunk, p, Parsed(p.pending + chunk));
    FramesOnlyGrow(seen + chunk, rest);
    Regroup(seen, chunk, rest);
  }

  lemma BreaksWithin(seen: Bytes, chunk: Bytes, rest: Bytes, p: Parse, more: seq<TabFrame>, exitText: ExitText)
    requires p == Parsed(seen) && |more| < |Parsed(p.pending + chunk).frames|
    requires more <= Parsed(p.pending + chunk).frames && Breaks(Parsed(p.pending + chunk).frames[|more|], exitText)
    ensures BreaksAfter(seen + (chunk + rest), p.frames + more, exitText)
  {
    ChunkParses(seen, chunk, p, Parsed(p.pending + chunk));
    FramesOnlyGrow(seen + chunk, rest);
    Regroup(seen, chunk, rest);
  }

  /** The frame behind `frames` in the stream is one that ends the thread. */
  ghost predicate BreaksAfter(stream: Bytes, frames: seq<TabFrame>, exitText: ExitText) {
    |frames| < |Parsed(stream).frames| && Breaks(Parsed(stream).frames[|frames|], exitText)
  }

  /** The thread that reads the tab: however the stream is cut, all whole frames are passed on
      in order and the rest is kept.  `stopped` is being told to stop or a failing read. */
  method FromTab(tab: Socket, browser: Socket, exitText: ExitText)
    returns (ended: bool, stopped: bool, frames: seq<TabFrame>, pending: Bytes)
    requires tab != browser
    modifies tab`incoming, browser`sent, browser`faults
    ensures ended ==> Parse(frames, pending) == Parsed(old(tab.incoming))
    ensures frames <= Parsed(old(tab.incoming)).frames
    ensures browser.sent == old(browser.sent) + AllPassed(frames, exitText)
    ensures forall f | f in frames :: !Breaks(f, exitText)
    ensures !ended ==>
              stopped || browser.faults > old(browser.faults) || BreaksAfter(old(tab.incoming), frames, exitText)
    // in terms of the bytes
    ensures exists pieces :: PassedAs(frames, exitText, pieces) && browser.sent == old(browser.sent) + Together(pieces)
    ensures forall f | f in frames && f.kind == 5 :: exitText(f.payload).Some?
    ensures !ended && !stopped && browser.faults == old(browser.faults) ==>
              var all := Parsed(old(tab.incoming)).frames;
              |frames| < |all| && all[|frames|].kind == 5 && exitText(all[|frames|].payload) == None
  {
    ended, stopped, frames, pending := ReadTab(tab, browser, exitText);
    ghost var pieces := AllPassedMeans(frames, exitText);
  }

  /** The outer loop itself. */
  method ReadTab(tab: Socket, browser: Socket, exitText: ExitText)
    returns (ended: bool, stopped: bool, frames: seq<TabFrame>, pending: Bytes)
    requires tab != browser
    modifies tab`incoming, browser`sent, browser`faults
    ensures ended ==> Parse(frames, pending) == Parsed(old(tab.incoming))
    ensures frames <= Parsed(old(tab.incoming)).frames
    ensures browser.sent == old(browser.sent) + AllPassed(frames, exitText)
    ensures forall f | f in frames :: !Breaks(f, exitText)
    ensures !ended ==>
              stopped || browser.faults > old(browser.faults) || BreaksAfter(old(tab.incoming), frames, exitText)
  {
    frames, pending, ended, stopped := [], [], false, false;
    ghost var all, seen, sent := tab.incoming, [], browser.sent;
    while true
      invariant all == seen + tab.incoming && Parse(frames, pending) == Parsed(seen)
      invariant browser.sent == sent + AllPassed(frames, exitText) && browser.faults == old(browser.faults)
      invariant forall f | f in frames :: !Breaks(f, exitText)
      decreases |tab.incoming|
    {
      FramesOnlyGrow(seen, tab.incoming);
      stopped := *;
      if stopped { return; }
      var chunk := tab.Recv(65536);
      if chunk == [] {
        assert all == seen;
        return true, false, frames, pending;
      }
      var ok, more, left := PassWhole(pending + chunk, browser, exitText);
      StopsWithin(seen, chunk, tab.incoming, Parse(frames, pending), more);
      AllPassedJoins(frames, more, exitText);
      Regroup(sent, AllPassed(frames, exitText), AllPassed(more, exitText));
      if !ok {
        if browser.faults == old(browser.faults) {
          BreaksWithin(seen, chunk, tab.incoming, Parse(frames, pending), more, exitText);
        }
        return false, false, frames + more, left;
      }
      ChunkParses(seen, chunk, Parse(frames, pending), Parse(more, left));
      Regroup(seen, chunk, tab.incoming);
      frames, pending, seen := frames + more, left, seen + chunk;
    }
  }

  // ---------------------------------------------------------------- the blocking decoder

  /** What the supervisor's decoder makes of a stream that ends. */
  function Blocking(s: Bytes): seq<TabFrame>
    decreases |s|
  {
    if |s| < HEAD then []
    else if Whole(s) then [FirstIn(s)] + Blocking(AfterFirst(s))
    else [TabFrame(s[0], [])]
  }

  lemma BlockingTakes(s: Bytes)
    requires |s| >= HEAD
    ensures var payload := BrokerSocket.Front(s[HEAD..], LengthIn(s));
            Blocking(s) == [TabFrame(s[0], BrokerSocket.OrElse(payload, []))]
                           + Blocking(BrokerSocket.Behind(s[HEAD..], LengthIn(s)))
  {
    var length := LengthIn(s);
    if Whole(s) {
      assert s[HEAD..][..length] == s[HEAD..HEAD + length] && s[HEAD..][length..] == s[HEAD + length..];
    }
  }

  method ServeClient(client: Socket) returns (frames: seq<TabFrame>)
    modifies client`incoming
    ensures frames == Blocking(old(client.incoming))
  {
    frames := [];
    while true
      invariant Blocking(old(client.incoming)) == frames + Blocking(client.incoming)
      decreases |client.incoming|
    {
      ghost var s := client.incoming;
      var head := BrokerSocket.NeedExactly(client, HEAD);
      if head.None? {
        assert frames + [] == frames;
        return;
      }
      BlockingTakes(s);
      assert head.value[1..] == s[1..5];
      var payload := BrokerSocket.NeedExactly(client, Number(head.value[1..]));
      var f := TabFrame(head.value[0], BrokerSocket.OrElse(payload, []));
      TakenFirst(frames, f, Blocking(client.incoming));
      frames := frames + [f];
    }
  }

  lemma TakenFirst(frames: seq<TabFrame>, f: TabFrame, rest: seq<TabFrame>)
    ensures frames + ([f] + rest) == (frames + [f]) + rest
  {
  }

  /** The two decoders agree exactly on streams that end in less than a whole header; after a
      whole header the blocking one reports one more frame, of that kind and empty. */
  lemma {:induction false} DecodersAgree(s: Bytes)
    ensures |Parsed(s).pending| < HEAD <==> Blocking(s) == Parsed(s).frames
    ensures |Parsed(s).pending| >= HEAD ==> Blocking(s) == Parsed(s).frames + [TabFrame(Parsed(s).pending[0], [])]
    decreases |s|
  {
    if Whole(s) {
      DecodersAgree(AfterFirst(s));
      assert Parsed(s).frames[1..] == Parsed(AfterFirst(s)).frames;
      assert Blocking(s)[1..] == Blocking(AfterFirst(s));
    }
  }
}
