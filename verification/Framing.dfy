/**
  Cutting a byte stream into frames. `Frames` and `Rest` say what one extraction over a whole buffer
  finds and leaves; the incremental law makes the result of a session independent of how the stream was
  cut into receives.
 */
module Framing {
  import opened Wire

  /** A whole frame is at the front; only the size field is looked at. */
  predicate HasFrame(s: seq<byte>) {
    |s| >= HEADER && HEADER + Value(s[8..12]) <= |s|
  }

  function FrameSize(s: seq<byte>): nat
    requires |s| >= HEADER
  {
    HEADER + Value(s[8..12])
  }

  function Frames(s: seq<byte>): seq<seq<byte>>
    decreases |s|
  {
    if HasFrame(s) then [s[..FrameSize(s)]] + Frames(s[FrameSize(s)..]) else []
  }

  function Rest(s: seq<byte>): seq<byte>
    decreases |s|
  {
    if HasFrame(s) then Rest(s[FrameSize(s)..]) else s
  }

  function Concat(frames: seq<seq<byte>>): seq<byte> {
    if frames == [] then [] else frames[0] + Concat(frames[1..])
  }

  /** A frame as a peer sends it: delimiter first, and as long as its size field says. */
  predicate IsFrame(f: seq<byte>) {
    |f| >= HEADER && |f| == FrameSize(f) && f[..4] == DelimBytes()
  }

  predicate AllFrames(fs: seq<seq<byte>>) {
    forall i :: 0 <= i < |fs| ==> IsFrame(fs[i])
  }

  // ---- Laws for arbitrary bytes ----

  /** Every byte is delivered in a frame or held over, in order. */
  lemma {:induction false} BytesAreConserved(s: seq<byte>)
    ensures Concat(Frames(s)) + Rest(s) == s && !HasFrame(Rest(s))
    decreases |s|
  {
    if HasFrame(s) {
      var n := FrameSize(s);
      BytesAreConserved(s[n..]);
      ConcatFirst(s[..n], Frames(s[n..]), Rest(s[n..]));
      Rejoin(s, n);
    }
  }

  lemma Rejoin(s: seq<byte>, n: nat)
    requires n <= |s|
    ensures s[..n] + s[n..] == s
  {
  }

  lemma ConcatFirst(f: seq<byte>, fs: seq<seq<byte>>, rest: seq<byte>)
    ensures Concat([f] + fs) + rest == f + (Concat(fs) + rest)
  {
    assert ([f] + fs)[1..] == fs;
  }

  /** Extracting what was held over plus new bytes continues exactly where the last extraction stopped. */
  lemma {:induction false} FramesIncremental(a: seq<byte>, b: seq<byte>)
    ensures Frames(a + b) == Frames(a) + Frames(Rest(a) + b)
    ensures Rest(a + b) == Rest(Rest(a) + b)
    decreases |a|
  {
    if HasFrame(a) {
      var n := FrameSize(a);
      FrameOfBoth(a, b);
      FramesIncremental(a[n..], b);
    }
  }

  lemma FrameOfBoth(a: seq<byte>, b: seq<byte>)
    requires HasFrame(a)
    ensures HasFrame(a + b) && FrameSize(a + b) == FrameSize(a)
    ensures var n := FrameSize(a);
      (a + b)[..n] == a[..n] && (a + b)[n..] == a[n..] + b
  {
    assert (a + b)[8..12] == a[8..12];
  }

  // ---- Well-formed streams ----

  /** The frames are exactly the encodings of messages. */
  lemma FramesAreEncodings(f: seq<byte>)
    ensures IsFrame(f) <==> exists m :: InRange(m) && f == Encode(m)
  {
    if IsFrame(f) {
      EncodeDecode(f);
    }
    forall m | InRange(m) && f == Encode(m) ensures IsFrame(f) {
      DecodeEncode(m);
      FieldsOfEncoding(m);
    }
  }

  /** How many frames have their last byte among the first `n` bytes of the stream. */
  function Arrived(fs: seq<seq<byte>>, n: nat): (k: nat)
    ensures k <= |fs|
  {
    if fs == [] || n < |fs[0]| then 0 else 1 + Arrived(fs[1..], n - |fs[0]|)
  }

  lemma {:induction false} ConcatSplit(fs: seq<seq<byte>>, k: nat)
    requires k <= |fs|
    ensures Concat(fs) == Concat(fs[..k]) + Concat(fs[k..])
  {
    if k > 0 {
      ConcatSplit(fs[1..], k - 1);
      assert fs[1..][..k - 1] == fs[..k][1..] && fs[1..][k - 1..] == fs[k..];
    }
  }

  lemma {:induction false} ArrivedBytes(fs: seq<seq<byte>>, n: nat)
    requires n <= |Concat(fs)|
    ensures var k := Arrived(fs, n);
      && |Concat(fs[..k])| <= n
      && (k < |fs| ==> n < |Concat(fs[..k])| + |fs[k]|)
      && (k == |fs| ==> n == |Concat(fs)|)
  {
    var k := Arrived(fs, n);
    if k > 0 {
      ArrivedBytes(fs[1..], n - |fs[0]|);
      assert fs[..k][1..] == fs[1..][..k - 1];
    }
  }

  lemma WholeFrameFirst(f: seq<byte>, tail: seq<byte>)
    requires IsFrame(f)
    ensures Frames(f + tail) == [f] + Frames(tail) && Rest(f + tail) == Rest(tail)
  {
    FrameOfBoth(f, tail);
    assert f[..|f|] == f && f[|f|..] == [];
    assert [] + tail == tail;
  }

  lemma PartialHasNoFrame(f: seq<byte>, n: nat)
    requires IsFrame(f) && n < |f|
    ensures !HasFrame(f[..n])
  {
    if n >= HEADER {
      assert f[..n][8..12] == f[8..12];
    }
  }

  lemma {:induction false} FramesOfConcat(fs: seq<seq<byte>>, rest: seq<byte>)
    requires AllFrames(fs) && !HasFrame(rest)
    ensures Frames(Concat(fs) + rest) == fs && Rest(Concat(fs) + rest) == rest
  {
    if fs == [] {
      assert Concat(fs) + rest == rest;
    } else {
      FramesOfConcat(fs[1..], rest);
      WholeFrameFirst(fs[0], Concat(fs[1..]) + rest);
      assert fs == [fs[0]] + fs[1..];
      ConcatFirst(fs[0], fs[1..], rest);
    }
  }

  /** A received prefix of the stream is whole frames and a proper prefix of the next one. */
  lemma StreamPrefix(fs: seq<seq<byte>>, n: nat) returns (part: seq<byte>)
    requires n <= |Concat(fs)|
    ensures var k := Arrived(fs, n);
      && Concat(fs)[..n] == Concat(fs[..k]) + part
      && (k == |fs| ==> part == [])
      && (k < |fs| ==> |part| < |fs[k]| && part == fs[k][..|part|])
  {
    var k := Arrived(fs, n);
    var done := |Concat(fs[..k])|;
    ArrivedBytes(fs, n);
    ConcatSplit(fs, k);
    part := Concat(fs[k..])[..n - done];
    if k == |fs| {
      assert fs[..k] == fs;
    }
  }

  /**
    Of the first `n` bytes of a well-formed stream, extraction finds exactly the frames whose last
    byte has arrived and holds over exactly the received part of the next one.
   */
  lemma FramesOfStream(fs: seq<seq<byte>>, n: nat)
    requires AllFrames(fs) && n <= |Concat(fs)|
    ensures var k, rest := Arrived(fs, n), Rest(Concat(fs)[..n]);
      && Frames(Concat(fs)[..n]) == fs[..k]
      && Concat(fs)[..n] == Concat(fs[..k]) + rest
      && (k == |fs| ==> rest == [])
      && (k < |fs| ==> |rest| < |fs[k]| && rest == fs[k][..|rest|])
  {
    var k := Arrived(fs, n);
    var part := StreamPrefix(fs, n);
    if k < |fs| {
      PartialHasNoFrame(fs[k], |part|);
    }
    FramesOfConcat(fs[..k], part);
  }

  lemma {:induction false} ArrivedAt(fs: seq<seq<byte>>, i: nat, part: nat)
    requires i < |fs| && part < |fs[i]|
    ensures |Concat(fs[..i])| + part <= |Concat(fs)| && Arrived(fs, |Concat(fs[..i])| + part) == i
  {
    if i > 0 {
      ArrivedAt(fs[1..], i - 1, part);
      assert fs[..i][1..] == fs[1..][..i - 1];
    }
  }

  /**
    Fewer than `cap` bytes are held over at every point of the stream exactly when every frame fits
    into `cap` bytes; otherwise some cutting of the stream leaves no space for the next receive.
   */
  lemma SpaceIffFramesFit(fs: seq<seq<byte>>, cap: nat)
    requires AllFrames(fs) && cap > 0
    ensures (forall n :: 0 <= n <= |Concat(fs)| ==> |Rest(Concat(fs)[..n])| < cap)
      <==> (forall i :: 0 <= i < |fs| ==> |fs[i]| <= cap)
  {
    if forall i :: 0 <= i < |fs| ==> |fs[i]| <= cap {
      forall n | 0 <= n <= |Concat(fs)| ensures |Rest(Concat(fs)[..n])| < cap {
        FramesOfStream(fs, n);
      }
    } else {
      var i :| 0 <= i < |fs| && |fs[i]| > cap;
      HeldAt(fs, i, cap);
    }
  }

  /** Every proper part of every frame is held over at some point of the stream. */
  lemma HeldAt(fs: seq<seq<byte>>, i: nat, part: nat)
    requires AllFrames(fs) && i < |fs| && part < |fs[i]|
    ensures |Concat(fs[..i])| + part <= |Concat(fs)|
    ensures |Rest(Concat(fs)[..|Concat(fs[..i])| + part])| == part
  {
    ArrivedAt(fs, i, part);
    FramesOfStream(fs, |Concat(fs[..i])| + part);
  }
}
