/**
  Message extraction in place, in a receive buffer that keeps stale bytes of earlier receives: the scan
  for a delimiter, the loop over whole frames with its callbacks, and the move of the rest to the front.
 */
module Receiver {
  import opened Wire
  import opened Framing
  import opened Sequences

  /** The callback invocation for a frame: header and payload if its type is registered. */
  function Call(f: seq<byte>, registered: set<nat>): seq<Message>
    requires |f| >= HEADER
  {
    if Decode(f).packageType in registered then [Decode(f)] else []
  }

  /** The callback invocations for a list of frames, in order. */
  function Calls(frames: seq<seq<byte>>, registered: set<nat>): seq<Message> {
    if frames == [] then []
    else
      var f := frames[|frames| - 1];
      Calls(frames[..|frames| - 1], registered) + if |f| >= HEADER then Call(f, registered) else []
  }

  lemma {:induction false} CallsConcat(a: seq<seq<byte>>, b: seq<seq<byte>>, registered: set<nat>)
    ensures Calls(a + b, registered) == Calls(a, registered) + Calls(b, registered)
  {
    if b == [] {
      assert a + b == a;
    } else {
      CallsConcat(a, b[..|b| - 1], registered);
      LastOfBoth(a, b);
    }
  }

  lemma LastOfBoth<T>(a: seq<T>, b: seq<T>)
    requires b != []
    ensures (a + b)[..|a + b| - 1] == a + b[..|b| - 1] && (a + b)[|a + b| - 1] == b[|b| - 1]
  {
  }

  lemma CallsOfLast(frames: seq<seq<byte>>, f: seq<byte>, registered: set<nat>)
    requires |f| >= HEADER
    ensures Calls(frames + [f], registered) == Calls(frames, registered) + Call(f, registered)
  {
    assert (frames + [f])[..|frames|] == frames;
  }

  function EncodeEach(ms: seq<Message>): seq<seq<byte>> {
    if ms == [] then [] else EncodeEach(ms[..|ms| - 1]) + [Encode(ms[|ms| - 1])]
  }

  function WithType(ms: seq<Message>, registered: set<nat>): seq<Message> {
    if ms == [] then []
    else
      var m := ms[|ms| - 1];
      WithType(ms[..|ms| - 1], registered) + if m.packageType in registered then [m] else []
  }

  ghost function PositionsOfTypes(ms: seq<Message>, registered: set<nat>): set<nat> {
    set k: nat | k < |ms| && ms[k].packageType in registered
  }

  /** Exactly the messages of registered types, each once and in order. */
  lemma {:induction false} WithTypeSelects(ms: seq<Message>, registered: set<nat>)
    ensures Selected(WithType(ms, registered), ms, PositionsOfTypes(ms, registered))
  {
    if ms == [] {
      NoneSelected<Message>();
      assert PositionsOfTypes(ms, registered) == {};
    } else {
      var before, m := ms[..|ms| - 1], ms[|ms| - 1];
      var part, chosen := WithType(before, registered), PositionsOfTypes(before, registered);
      WithTypeSelects(before, registered);
      assert ms == before + [m];
      PositionsOfLast(before, registered, m);
      if m.packageType in registered {
        SelectedKeep(part, before, chosen, m);
        assert WithType(ms, registered) == part + [m];
      } else {
        SelectedSkip(part, before, chosen, m);
        assert WithType(ms, registered) == part;
      }
    }
  }

  lemma PositionsOfLast(ms: seq<Message>, registered: set<nat>, m: Message)
    ensures var chosen := PositionsOfTypes(ms, registered);
      PositionsOfTypes(ms + [m], registered) == if m.packageType in registered then chosen + {|ms|} else chosen
  {
  }

  /** The callbacks see the messages that were sent: exact header, exact payload, in order. */
  lemma {:induction false} CallsAreMessages(ms: seq<Message>, registered: set<nat>)
    requires forall i :: 0 <= i < |ms| ==> InRange(ms[i])
    ensures AllFrames(EncodeEach(ms)) && |EncodeEach(ms)| == |ms|
    ensures Calls(EncodeEach(ms), registered) == WithType(ms, registered)
  {
    if ms != [] {
      var before, m := ms[..|ms| - 1], ms[|ms| - 1];
      CallsAreMessages(before, registered);
      EncodedMessage(m);
      var f := Encode(m);
      CallsOfLast(EncodeEach(before), f, registered);
      FramesOfLast(EncodeEach(before), f);
    }
  }

  lemma {:induction false} EncodeEachTake(ms: seq<Message>, k: nat)
    requires k <= |ms|
    ensures |EncodeEach(ms)| == |ms| && EncodeEach(ms)[..k] == EncodeEach(ms[..k])
    decreases |ms|
  {
    if k < |ms| {
      var before := ms[..|ms| - 1];
      EncodeEachTake(before, k);
      assert before[..k] == ms[..k];
    } else {
      assert ms[..k] == ms;
      EncodeEachSize(ms);
    }
  }

  lemma EncodeEachAt(ms: seq<Message>, i: nat)
    requires i < |ms|
    ensures |EncodeEach(ms)| == |ms| && EncodeEach(ms)[i] == Encode(ms[i])
  {
    EncodeEachTake(ms, i + 1);
    EncodeEachSize(ms[..i]);
    assert ms[..i + 1][..i] == ms[..i];
    assert EncodeEach(ms)[i] == EncodeEach(ms)[..i + 1][i];
  }

  lemma {:induction false} EncodeEachSize(ms: seq<Message>)
    ensures |EncodeEach(ms)| == |ms|
  {
    if ms != [] {
      EncodeEachSize(ms[..|ms| - 1]);
    }
  }

  lemma EncodedMessage(m: Message)
    requires InRange(m)
    ensures IsFrame(Encode(m)) && Decode(Encode(m)) == m
  {
    DecodeEncode(m);
    FramesAreEncodings(Encode(m));
  }

  lemma FramesOfLast(fs: seq<seq<byte>>, f: seq<byte>)
    requires AllFrames(fs) && IsFrame(f)
    ensures AllFrames(fs + [f])
  {
  }

  // ---- Extraction ----

  ghost predicate DelimAt(s: seq<byte>, k: int) {
    0 <= k && k + 4 <= |s| && s[k..k + 4] == DelimBytes()
  }

  lemma DelimValue(s: seq<byte>)
    requires |s| == 4
    ensures Value(s) == START_DELIM <==> s == DelimBytes()
  {
    PowersOf256();
    ValueOfLittleEndian(START_DELIM, 4);
    LittleEndianOfValue(s);
  }

  /** Where the scan stops; `Overrun` means that it leaves the buffer, where the source reads foreign memory. */
  datatype Scan = Found(pos: nat) | Overrun

  ghost predicate ScanResult(s: seq<byte>, scan: Scan) {
    match scan
    case Found(pos) => DelimAt(s, pos) && forall k :: 0 <= k < pos ==> !DelimAt(s, k)
    case Overrun => forall k :: !DelimAt(s, k)
  }

  /** Advances to the first delimiter; the caller resets the position afterwards. */
  method ScanForDelimiter(buf: array<byte>) returns (scan: Scan)
    ensures ScanResult(buf[..], scan)
  {
    var pos := 0;
    while pos + 4 <= buf.Length
      invariant forall j :: 0 <= j < pos ==> !DelimAt(buf[..], j)
    {
      DelimValue(buf[pos..pos + 4]);
      assert buf[..][pos..pos + 4] == buf[pos..pos + 4];
      if Value(buf[pos..pos + 4]) == START_DELIM {
        return Found(pos);
      }
      pos := pos + 1;
    }
    return Overrun;
  }

  /** The bytes from `from` on move to the front, lowest first; nothing behind them changes. */
  method MoveToFront(buf: array<byte>, from: nat, count: nat)
    requires from + count <= buf.Length
    modifies buf
    ensures buf[..] == Overwrite(old(buf[..]), 0, old(buf[from..from + count]))
  {
    ghost var s := buf[..];
    for i := 0 to count
      invariant forall j :: 0 <= j < i ==> buf[j] == s[from + j]
      invariant forall j :: i <= j < buf.Length ==> buf[j] == s[j]
    {
      buf[i] := buf[from + i];
    }
    MovedToFront(s, from, count, buf[..]);
  }

  lemma MovedToFront(s: seq<byte>, from: nat, count: nat, r: seq<byte>)
    requires from + count <= |s| == |r|
    requires forall j :: 0 <= j < count ==> r[j] == s[from + j]
    requires forall j :: count <= j < |s| ==> r[j] == s[j]
    ensures r == Overwrite(s, 0, s[from..from + count])
  {
  }

  lemma SliceOfSlice<T>(s: seq<T>, a: nat, b: nat, c: nat, d: nat)
    requires a <= b <= |s| && c <= d <= b - a
    ensures s[a..b][c..d] == s[a + c..a + d]
  {
    assert forall i :: 0 <= i < d - c ==> s[a..b][c..d][i] == s[a..b][c + i] == s[a + c..a + d][i];
  }

  /** The frames found so far and those still ahead are the frames of the whole. */
  ghost predicate Consumed(data: seq<byte>, done: seq<seq<byte>>, pos: nat) {
    pos <= |data| && Frames(data) == done + Frames(data[pos..]) && Rest(data) == Rest(data[pos..])
  }

  lemma ConsumeOne(data: seq<byte>, done: seq<seq<byte>>, pos: nat)
    requires Consumed(data, done, pos) && HasFrame(data[pos..])
    ensures var next := pos + FrameSize(data[pos..]);
      next <= |data| && Consumed(data, done + [data[pos..next]], next)
  {
    var size := FrameSize(data[pos..]);
    assert data[pos..][..size] == data[pos..pos + size];
    assert data[pos..][size..] == data[pos + size..];
  }

  /** The frame at `pos`, whose size is read from memory `s` of which `received` bytes are filled. */
  lemma ConsumeNext(s: seq<byte>, received: nat, done: seq<seq<byte>>, pos: nat, registered: set<nat>)
    requires received + HEADER <= |s| && Consumed(s[..received], done, pos)
    requires Value(s[pos + 8..pos + 12]) + HEADER <= received - pos
    ensures var next := pos + HEADER + Value(s[pos + 8..pos + 12]);
      var frame := s[pos..next];
      && Consumed(s[..received], done + [frame], next)
      && Calls(done + [frame], registered) == Calls(done, registered) + Call(frame, registered)
  {
    SizeField(s, received, pos);
    ConsumeOne(s[..received], done, pos);
    var next := pos + HEADER + Value(s[pos + 8..pos + 12]);
    SliceOfSlice(s, 0, received, pos, next);
    CallsOfLast(done, s[pos..next], registered);
  }

  /** The extraction loop: a callback for every whole frame, up to the position of the incomplete rest. */
  method ConsumeFrames(buf: array<byte>, received: nat, registered: set<nat>) returns (pos: nat, calls: seq<Message>)
    requires received + HEADER <= buf.Length
    ensures var data := buf[..][..received];
      && pos <= received && data[pos..] == Rest(data) && calls == Calls(Frames(data), registered)
  {
    ghost var s := buf[..];
    ghost var data := s[..received];
    ghost var done: seq<seq<byte>> := [];
    var remaining: nat := received;
    pos, calls := 0, [];
    assert data[0..] == data;
    var payloadSize := Value(buf[pos + 8..pos + 12]);
    assert buf[pos + 8..pos + 12] == s[pos + 8..pos + 12];
    while payloadSize + HEADER <= remaining && remaining > 0
      invariant pos + remaining == received
      invariant payloadSize == Value(s[pos + 8..pos + 12])
      invariant Consumed(data, done, pos)
      invariant calls == Calls(done, registered)
      decreases remaining
    {
      ConsumeNext(s, received, done, pos, registered);
      var frame := buf[pos..pos + HEADER + payloadSize];
      assert frame == s[pos..pos + HEADER + payloadSize];
      done := done + [frame];
      calls := calls + Call(frame, registered);
      pos := pos + HEADER;
      pos := pos + payloadSize;
      remaining := remaining - (payloadSize + HEADER);
      payloadSize := Value(buf[pos + 8..pos + 12]);
      assert buf[pos + 8..pos + 12] == s[pos + 8..pos + 12];
    }
    ConsumeEnds(s, received, done, pos);
  }

  lemma ConsumeEnds(s: seq<byte>, received: nat, done: seq<seq<byte>>, pos: nat)
    requires received + HEADER <= |s| && Consumed(s[..received], done, pos)
    requires Value(s[pos + 8..pos + 12]) + HEADER > received - pos
    ensures s[..received][pos..] == Rest(s[..received]) && Frames(s[..received]) == done
  {
    SizeField(s, received, pos);
    assert done + [] == done;
  }

  /** A whole header lies in the received part or the frame is incomplete whatever the stale bytes say. */
  lemma SizeField(s: seq<byte>, received: nat, pos: nat)
    requires pos <= received && received + HEADER <= |s|
    ensures HasFrame(s[..received][pos..]) <==> Value(s[pos + 8..pos + 12]) + HEADER <= received - pos
    ensures HasFrame(s[..received][pos..]) ==> FrameSize(s[..received][pos..]) == HEADER + Value(s[pos + 8..pos + 12])
  {
    if received - pos >= HEADER {
      SliceOfSlice(s, 0, received, pos, received);
      SliceOfSlice(s, pos, received, 8, 12);
    }
  }

  /**
    One pass over the first `received` bytes: a callback for every whole frame, the incomplete rest moved
    to the front. Bytes at or behind `received` may be read as part of a header but decide nothing.
   */
  method ExtractItems(buf: array<byte>, received: nat, registered: set<nat>)
    returns (scan: Scan, unprocessed: nat, calls: seq<Message>)
    requires received + HEADER <= buf.Length
    modifies buf
    ensures ScanResult(old(buf[..]), scan)
    ensures scan.Overrun? ==> buf[..] == old(buf[..]) && calls == []
    ensures var data := old(buf[..])[..received];
      scan.Found? ==>
        && unprocessed == |Rest(data)| && unprocessed <= received
        && calls == Calls(Frames(data), registered)
        && buf[..] == Overwrite(old(buf[..]), 0, Rest(data))
  {
    scan := ScanForDelimiter(buf);
    if scan.Overrun? {
      return scan, 0, [];
    }
    var pos;
    pos, calls := ConsumeFrames(buf, received, registered);
    var remaining := received - pos;
    assert buf[pos..pos + remaining] == buf[..][..received][pos..];
    if remaining > 0 {
      MoveToFront(buf, pos, remaining);
    }
    unprocessed := remaining;
  }
}
