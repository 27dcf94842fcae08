/**
  The receive thread of the Python client: it accumulates, parses, delivers and drops what it processed. On
  a well-formed stream its outcome is fixed by where the receives cut the stream and by the enum values
  they show.
 */
module PythonClient {
  import opened Wire
  import opened Framing
  import opened Receiver
  import opened PythonParser

  // ---- The receive loop ----

  datatype State = Running | Ended | Crashed

  datatype Client = Client(data: seq<byte>, delivered: seq<Message>, state: State)

  /** Total size, header and payload, of the messages yielded before the first incomplete one. */
  function Processed(yielded: seq<Parsed>): nat {
    if yielded == [] || yielded[0].Partial? then 0 else HEADER + |yielded[0].m.payload| + Processed(yielded[1..])
  }

  function Delivered(yielded: seq<Parsed>, registered: set<nat>): seq<Message> {
    if yielded == [] || yielded[0].Partial? then []
    else (if yielded[0].m.packageType in registered then [yielded[0].m] else []) + Delivered(yielded[1..], registered)
  }

  /** One turn of the loop: accumulate, parse, deliver, drop; an exception ends the thread. */
  function Turn(c: Client, chunk: seq<byte>, registered: set<nat>): Client {
    var data := c.data + chunk;
    if data == [] then c.(state := Ended)
    else
      var r := Parse(data);
      var delivered := c.delivered + Delivered(r.yielded, registered);
      if r.raised then Client(data, delivered, Crashed)
      else Client(data[Min(Processed(r.yielded), |data|)..], delivered, Running)
  }

  function RunClient(chunks: seq<seq<byte>>, registered: set<nat>): Client {
    if chunks == [] then Client([], [], Running)
    else
      var c := RunClient(chunks[..|chunks| - 1], registered);
      if c.state.Running? then Turn(c, chunks[|chunks| - 1], registered) else c
  }

  /** The `size` property: the length of the message encoded again. */
  method SizeOf(m: Message) returns (size: nat)
    ensures size == HEADER + |m.payload|
  {
    size := |Encode(m)|;
  }

  /** The loop over the yielded objects, up to the first incomplete one. */
  method HandleMessages(yielded: seq<Parsed>, registered: set<nat>) returns (processed: nat, calls: seq<Message>)
    ensures processed == Processed(yielded) && calls == Delivered(yielded, registered)
  {
    processed, calls := 0, [];
    var i := 0;
    while i < |yielded| && yielded[i].Whole?
      invariant i <= |yielded|
      invariant Processed(yielded) == processed + Processed(yielded[i..])
      invariant Delivered(yielded, registered) == calls + Delivered(yielded[i..], registered)
    {
      var m := yielded[i].m;
      assert yielded[i..][1..] == yielded[i + 1..];
      var size := SizeOf(m);
      processed := processed + size;
      if m.packageType in registered {
        ghost var later := Delivered(yielded[i + 1..], registered);
        assert calls + ([m] + later) == calls + [m] + later;
        calls := calls + [m];
      }
      i := i + 1;
    }
  }

  /** The receive thread over what a run of recv calls brings; an empty chunk is the end of the stream. */
  method ReceiveMessages(chunks: seq<seq<byte>>, registered: set<nat>) returns (c: Client)
    ensures c == RunClient(chunks, registered)
  {
    var data: seq<byte>, delivered: seq<Message> := [], [];
    for i := 0 to |chunks|
      invariant RunClient(chunks[..i], registered) == Client(data, delivered, Running)
    {
      assert chunks[..i + 1][..i] == chunks[..i];
      ghost var before := Client(data, delivered, Running);
      RunStops(chunks, i + 1, registered);
      data := data + chunks[i];
      if data == [] {
        return Client(data, delivered, Ended);
      }
      var r := ParseFromBytes(data);
      var processed, calls := HandleMessages(r.yielded, registered);
      delivered := delivered + calls;
      if r.raised {
        return Client(data, delivered, Crashed);
      }
      data := data[Min(processed, |data|)..];
    }
    assert chunks[..|chunks|] == chunks;
    c := Client(data, delivered, Running);
  }

  /** Once the thread has ended, later chunks change nothing. */
  lemma {:induction false} RunStops(chunks: seq<seq<byte>>, i: nat, registered: set<nat>)
    requires i <= |chunks|
    ensures !RunClient(chunks[..i], registered).state.Running? ==>
      RunClient(chunks, registered) == RunClient(chunks[..i], registered)
    decreases |chunks|
  {
    if i < |chunks| {
      var before := chunks[..|chunks| - 1];
      RunStops(before, i, registered);
      assert before[..i] == chunks[..i];
    } else {
      assert chunks[..i] == chunks;
    }
  }

  // ---- What the loop does on a well-formed stream ----

  lemma CallsOfFirst(f: seq<byte>, fs: seq<seq<byte>>, registered: set<nat>)
    requires |f| >= HEADER
    ensures Calls([f] + fs, registered) == Call(f, registered) + Calls(fs, registered)
  {
    CallsConcat([f], fs, registered);
    CallsOfLast([], f, registered);
    assert [] + [f] == [f];
  }

  lemma {:induction false} WholesProcessed(fs: seq<seq<byte>>, tail: seq<Parsed>)
    requires AllFrames(fs) && (tail == [] || tail == [Partial])
    ensures Processed(Wholes(fs) + tail) == |Concat(fs)|
  {
    if fs == [] {
      assert Wholes(fs) + tail == tail;
    } else {
      assert IsFrame(fs[0]);
      WholesProcessed(fs[1..], tail);
      assert (Wholes(fs) + tail)[1..] == Wholes(fs[1..]) + tail;
    }
  }

  lemma DeliveredFirst(m: Message, later: seq<Parsed>, registered: set<nat>)
    ensures Delivered([Whole(m)] + later, registered)
      == (if m.packageType in registered then [m] else []) + Delivered(later, registered)
  {
    assert ([Whole(m)] + later)[1..] == later;
  }

  lemma {:induction false} WholesDelivered(fs: seq<seq<byte>>, tail: seq<Parsed>, registered: set<nat>)
    requires AllFrames(fs) && (tail == [] || tail == [Partial])
    ensures Delivered(Wholes(fs) + tail, registered) == Calls(fs, registered)
  {
    if fs == [] {
      assert Wholes(fs) + tail == tail;
    } else {
      assert IsFrame(fs[0]);
      WholesDelivered(fs[1..], tail, registered);
      DeliveredFirst(Decode(fs[0]), Wholes(fs[1..]) + tail, registered);
      assert Wholes(fs) + tail == [Whole(Decode(fs[0]))] + (Wholes(fs[1..]) + tail);
      assert fs == [fs[0]] + fs[1..];
      CallsOfFirst(fs[0], fs[1..], registered);
    }
  }

  /** Bytes that are whole frames and a proper prefix of another. */
  ghost predicate FrameStream(s: seq<byte>) {
    AllFrames(Frames(s)) && exists f :: IsFrame(f) && |Rest(s)| < |f| && Rest(s) == f[..|Rest(s)|]
  }

  /** The last message, as far as it is there, makes the parser raise. */
  predicate BadRest(rest: seq<byte>) {
    rest != [] && (|rest| < 4 || ShowsUnknown(rest))
  }

  /** Parsing the bytes raises: a frame has an unknown enum value, or the bytes after the frames raise. */
  predicate Raises(s: seq<byte>) {
    KnownCount(Frames(s)) < |Frames(s)| || BadRest(Rest(s))
  }

  /** The callbacks that happen for a stream: none from the first frame with an unknown enum value on. */
  function KnownCalls(s: seq<byte>, registered: set<nat>): seq<Message> {
    Calls(Frames(s)[..KnownCount(Frames(s))], registered)
  }

  lemma RestParses(s: seq<byte>)
    requires FrameStream(s)
    ensures Parse(Rest(s)) == if BadRest(Rest(s)) then ParseResult([], true)
      else ParseResult(if Rest(s) == [] then [] else [Partial], false)
  {
    var rest := Rest(s);
    var f :| IsFrame(f) && |rest| < |f| && rest == f[..|rest|];
    ParsePartial(f, |rest|);
  }

  lemma ParseStream(s: seq<byte>)
    requires FrameStream(s)
    ensures var fs, k := Frames(s), KnownCount(Frames(s));
      && AllFrames(fs[..k]) && Parse(s).raised == Raises(s)
      && Parse(s).yielded == Wholes(fs[..k]) + if Raises(s) || Rest(s) == [] then [] else [Partial]
  {
    var fs, rest := Frames(s), Rest(s);
    BytesAreConserved(s);
    ParseFramesThen(fs, rest);
    if KnownCount(fs) == |fs| {
      assert fs[..|fs|] == fs;
      RestParses(s);
    } else {
      assert Wholes(fs[..KnownCount(fs)]) + [] == Wholes(fs[..KnownCount(fs)]);
    }
  }

  /** One turn on held-over plus new bytes: frames delivered and rest kept, or a crash where parsing raises. */
  lemma TurnOnStream(c: Client, chunk: seq<byte>, registered: set<nat>)
    requires c.data + chunk != [] && FrameStream(c.data + chunk)
    ensures var pending, c' := c.data + chunk, Turn(c, chunk, registered);
      && c'.delivered == c.delivered + KnownCalls(pending, registered)
      && if Raises(pending) then c'.state.Crashed? else c'.state.Running? && c'.data == Rest(pending)
  {
    var pending := c.data + chunk;
    var fs, k := Frames(pending), KnownCount(Frames(pending));
    var tail := if Raises(pending) || Rest(pending) == [] then [] else [Partial];
    ParseStream(pending);
    WholesProcessed(fs[..k], tail);
    WholesDelivered(fs[..k], tail, registered);
    if !Raises(pending) {
      BytesAreConserved(pending);
      assert fs[..k] == fs && pending[|Concat(fs)|..] == Rest(pending);
    }
  }

  lemma PrefixIsFrameStream(fs: seq<seq<byte>>, n: nat)
    requires AllFrames(fs) && n <= |Concat(fs)|
    ensures FrameStream(Concat(fs)[..n])
  {
    FramesOfStream(fs, n);
    if Arrived(fs, n) < |fs| {
      assert IsFrame(fs[Arrived(fs, n)]);
    } else {
      var m := Message(0, 0, 0, 0, []);
      KnownMessageShowsNothing(m);
      assert Rest(Concat(fs)[..n]) == Encode(m)[..0];
    }
  }

  lemma {:induction false} KnownCountOfBoth(a: seq<seq<byte>>, b: seq<seq<byte>>)
    requires KnownCount(a) == |a|
    ensures KnownCount(a + b) == |a| + KnownCount(b)
  {
    if a == [] {
      assert a + b == b;
    } else {
      KnownCountOfBoth(a[1..], b);
      assert (a + b)[1..] == a[1..] + b;
    }
  }

  lemma TakeOfBoth<T>(a: seq<T>, b: seq<T>, k: nat)
    requires k <= |b|
    ensures (a + b)[..|a| + k] == a + b[..k]
  {
  }

  lemma FramesOfTail(a: seq<seq<byte>>, b: seq<seq<byte>>)
    requires AllFrames(a + b)
    ensures AllFrames(b)
  {
    assert forall i :: 0 <= i < |b| ==> b[i] == (a + b)[|a| + i];
  }

  lemma CallsOfBoth(a: seq<seq<byte>>, b: seq<seq<byte>>, registered: set<nat>)
    requires KnownCount(a) == |a|
    ensures KnownCount(a + b) == |a| + KnownCount(b)
    ensures Calls((a + b)[..KnownCount(a + b)], registered)
      == Calls(a, registered) + Calls(b[..KnownCount(b)], registered)
  {
    var k := KnownCount(b);
    KnownCountOfBoth(a, b);
    TakeOfBoth(a, b, k);
    CallsConcat(a, b[..k], registered);
  }

  /** What is pending raises exactly when the whole stream does, if the stream did not raise before. */
  lemma PendingRaises(stream: seq<byte>, chunk: seq<byte>, registered: set<nat>)
    requires FrameStream(stream + chunk) && !Raises(stream)
    ensures var pending := Rest(stream) + chunk;
      && FrameStream(pending) && Rest(pending) == Rest(stream + chunk)
      && (Raises(pending) <==> Raises(stream + chunk))
      && KnownCalls(stream + chunk, registered) == Calls(Frames(stream), registered) + KnownCalls(pending, registered)
  {
    FramesIncremental(stream, chunk);
    FramesOfTail(Frames(stream), Frames(Rest(stream) + chunk));
    CallsOfBoth(Frames(stream), Frames(Rest(stream) + chunk), registered);
  }

  lemma ConcatLast(chunks: seq<seq<byte>>)
    requires chunks != []
    ensures Concat(chunks) == Concat(chunks[..|chunks| - 1]) + chunks[|chunks| - 1]
  {
    var n := |chunks| - 1;
    ConcatSplit(chunks, n);
    assert chunks[n..] == [chunks[n]];
    assert Concat([chunks[n]]) == chunks[n] + Concat([]);
  }

  // ---- Whole sessions ----

  /** The client after receives that form `stream`. */
  ghost predicate Follows(c: Client, stream: seq<byte>, registered: set<nat>) {
    c.state.Running? && c.data == Rest(stream) && c.delivered == Calls(Frames(stream), registered)
  }

  /** What a turn makes of a stream that did not raise before. */
  ghost predicate Continues(c: Client, stream: seq<byte>, registered: set<nat>) {
    if Raises(stream) then c.state.Crashed? && c.delivered == KnownCalls(stream, registered)
    else Follows(c, stream, registered)
  }

  lemma TurnFollows(c: Client, stream: seq<byte>, chunk: seq<byte>, registered: set<nat>)
    requires Follows(c, stream, registered) && !Raises(stream) && FrameStream(stream + chunk) && c.data + chunk != []
    ensures Continues(Turn(c, chunk, registered), stream + chunk, registered)
  {
    PendingRaises(stream, chunk, registered);
    TurnOnStream(c, chunk, registered);
    if !Raises(stream + chunk) {
      KnownCallsAreAll(stream + chunk, registered);
    }
  }

  lemma KnownCallsAreAll(stream: seq<byte>, registered: set<nat>)
    requires !Raises(stream)
    ensures KnownCalls(stream, registered) == Calls(Frames(stream), registered)
  {
    assert Frames(stream)[..|Frames(stream)|] == Frames(stream);
  }

  /** The bytes do not make the parser raise after any of the receives. */
  ghost predicate NeverRaises(chunks: seq<seq<byte>>) {
    !Raises(Concat(chunks)) && (chunks == [] || NeverRaises(chunks[..|chunks| - 1]))
  }

  /** The receives up to the first after which the bytes make the parser raise. */
  ghost function UntilRaise(chunks: seq<seq<byte>>): seq<seq<byte>>
    requires !NeverRaises(chunks)
  {
    if chunks == [] || NeverRaises(chunks[..|chunks| - 1]) then chunks else UntilRaise(chunks[..|chunks| - 1])
  }

  /**
    The thread follows the stream as long as nothing raises; otherwise it died at the first receive after which
    the parser raises, and had delivered what came before the offending frame.
   */
  ghost predicate Outcome(c: Client, chunks: seq<seq<byte>>, registered: set<nat>) {
    if NeverRaises(chunks) then Follows(c, Concat(chunks), registered)
    else c.state.Crashed? && c.delivered == KnownCalls(Concat(UntilRaise(chunks)), registered)
  }

  lemma {:induction false} RunOnStream(fs: seq<seq<byte>>, chunks: seq<seq<byte>>, registered: set<nat>)
    requires AllFrames(fs) && Received(fs, chunks) && forall i :: 0 <= i < |chunks| ==> chunks[i] != []
    ensures FrameStream(Concat(chunks)) && Outcome(RunClient(chunks, registered), chunks, registered)
  {
    PrefixIsFrameStream(fs, |Concat(chunks)|);
    if chunks != [] {
      var before := chunks[..|chunks| - 1];
      ConcatLast(chunks);
      PrefixOfBoth(Concat(before), chunks[|chunks| - 1], Concat(fs));
      RunOnStream(fs, before, registered);
      if NeverRaises(before) {
        TurnFollows(RunClient(before, registered), Concat(before), chunks[|chunks| - 1], registered);
      }
    }
  }

  /** The receives bring the stream of the frames from its beginning. */
  ghost predicate Received(fs: seq<seq<byte>>, chunks: seq<seq<byte>>) {
    |Concat(chunks)| <= |Concat(fs)| && Concat(chunks) == Concat(fs)[..|Concat(chunks)|]
  }

  lemma PrefixOfBoth(a: seq<byte>, b: seq<byte>, s: seq<byte>)
    requires |a + b| <= |s| && a + b == s[..|a + b|]
    ensures a == s[..|a|]
  {
    assert (a + b)[..|a|] == a;
  }

  /** What recv brings from the end of the stream on. */
  function Ends(k: nat): seq<seq<byte>> {
    seq(k, _ => [])
  }

  /** An empty receive ends the thread exactly when nothing is held over; otherwise it changes nothing. */
  lemma TurnAtEnd(c: Client, stream: seq<byte>, registered: set<nat>)
    requires Follows(c, stream, registered) && !Raises(stream) && FrameStream(stream)
    ensures Turn(c, [], registered) == if Rest(stream) == [] then c.(state := Ended) else c
  {
    assert stream + [] == stream && c.data + [] == c.data;
    if Rest(stream) != [] {
      TurnFollows(c, stream, [], registered);
    }
  }

  lemma OneMoreEnd(chunks: seq<seq<byte>>, k: nat, registered: set<nat>)
    requires k > 0
    ensures var c := RunClient(chunks + Ends(k - 1), registered);
      RunClient(chunks + Ends(k), registered) == if c.state.Running? then Turn(c, [], registered) else c
  {
    var all := chunks + Ends(k);
    assert all[|all| - 1] == [];
    assert all[..|all| - 1] == chunks + Ends(k - 1);
  }

  lemma {:induction false} RunAtEnd(chunks: seq<seq<byte>>, k: nat, registered: set<nat>)
    requires FrameStream(Concat(chunks)) && Outcome(RunClient(chunks, registered), chunks, registered)
    ensures var c, c' := RunClient(chunks, registered), RunClient(chunks + Ends(k), registered);
      c' == if k > 0 && NeverRaises(chunks) && Rest(Concat(chunks)) == [] then c.(state := Ended) else c
  {
    if k == 0 {
      assert chunks + Ends(0) == chunks;
    } else {
      RunAtEnd(chunks, k - 1, registered);
      OneMoreEnd(chunks, k, registered);
      if NeverRaises(chunks) {
        TurnAtEnd(RunClient(chunks, registered), Concat(chunks), registered);
      }
    }
  }

  /**
    For every cutting of a well-formed stream into non-empty receives, followed by any number of empty ones: the
    thread dies exactly if some receive leaves 1 to 3 bytes of a message or shows an unknown enum value. If
    not, it has delivered every message that arrived, once and in order, keeps exactly the bytes of the
    next one, and notices the end of the stream exactly when it keeps none.
   */
  lemma SessionOutcome(fs: seq<seq<byte>>, chunks: seq<seq<byte>>, k: nat, registered: set<nat>)
    requires AllFrames(fs) && Received(fs, chunks) && forall i :: 0 <= i < |chunks| ==> chunks[i] != []
    ensures var c, rest := RunClient(chunks + Ends(k), registered), Rest(Concat(chunks));
      if NeverRaises(chunks) then
        && c.data == rest && c.delivered == Calls(fs[..Arrived(fs, |Concat(chunks)|)], registered)
        && c.state == if k > 0 && rest == [] then Ended else Running
      else c.state.Crashed? && c.delivered == KnownCalls(Concat(UntilRaise(chunks)), registered)
  {
    FramesOfStream(fs, |Concat(chunks)|);
    RunOnStream(fs, chunks, registered);
    RunAtEnd(chunks, k, registered);
  }

  // ---- When all enum values are known ----

  /** After some receive the bytes left at the end of the data are 1 to 3 bytes of a message. */
  ghost predicate LeavesStub(chunks: seq<seq<byte>>) {
    0 < |Rest(Concat(chunks))| < 4 || (chunks != [] && LeavesStub(chunks[..|chunks| - 1]))
  }

  predicate AllKnown(fs: seq<seq<byte>>) {
    AllFrames(fs) && forall i :: 0 <= i < |fs| ==> !ShowsUnknown(fs[i])
  }

  lemma KnownRaisesIffStub(fs: seq<seq<byte>>, n: nat)
    requires AllKnown(fs) && n <= |Concat(fs)|
    ensures Raises(Concat(fs)[..n]) <==> 0 < |Rest(Concat(fs)[..n])| < 4
  {
    FramesOfStream(fs, n);
    var k := Arrived(fs, n);
    KnownCountOfKnown(fs[..k]);
    if k < |fs| {
      KnownShowsNothing(fs[k], |Rest(Concat(fs)[..n])|);
    }
  }

  /** So with known enum values the thread survives exactly when no receive leaves a stub. */
  lemma {:induction false} SurvivesIffNoStub(fs: seq<seq<byte>>, chunks: seq<seq<byte>>)
    requires AllKnown(fs) && Received(fs, chunks)
    ensures NeverRaises(chunks) <==> !LeavesStub(chunks)
  {
    KnownRaisesIffStub(fs, |Concat(chunks)|);
    if chunks != [] {
      ConcatLast(chunks);
      PrefixOfBoth(Concat(chunks[..|chunks| - 1]), chunks[|chunks| - 1], Concat(fs));
      SurvivesIffNoStub(fs, chunks[..|chunks| - 1]);
    }
  }

  lemma OneFrame(f: seq<byte>)
    ensures Concat([f]) == f
  {
    assert [f][1..] == [];
    assert f + [] == f;
  }

  lemma StubOfOne(s: seq<byte>)
    requires 4 <= |s| < HEADER
    ensures !LeavesStub([s])
  {
    OneFrame(s);
    assert [s][..0] == [] && !HasFrame(s) && !HasFrame([]);
  }

  /** The end of the stream within the header of a first message is never noticed. */
  lemma TruncatedFrame(f: seq<byte>, n: nat, k: nat, registered: set<nat>)
    requires IsFrame(f) && !ShowsUnknown(f) && 4 <= n < HEADER
    ensures RunClient([f[..n]] + Ends(k), registered) == Client(f[..n], [], Running)
  {
    OneFrame(f);
    OneFrame(f[..n]);
    StubOfOne(f[..n]);
    SurvivesIffNoStub([f], [f[..n]]);
    SessionOutcome([f], [f[..n]], k, registered);
    assert !HasFrame(f[..n]) && Arrived([f], n) == 0;
  }

  const EMPTY_MESSAGE := Message(0, 0, 0, 0, [])

  /** A peer that closes after 8 bytes of a header: the thread spins for good, with the 8 bytes in its data. */
  lemma SpinsOnTruncatedStream(k: nat, registered: set<nat>)
    ensures RunClient([Encode(EMPTY_MESSAGE)[..8]] + Ends(k), registered)
      == Client(Encode(EMPTY_MESSAGE)[..8], [], Running)
  {
    KnownMessageShowsNothing(EMPTY_MESSAGE);
    TruncatedFrame(Encode(EMPTY_MESSAGE), 8, k, registered);
  }
}
