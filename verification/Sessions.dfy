/**
  Whole receive sessions. The bytes of a stream arrive cut into receives in any way that fits the space
  offered; the loops are proved to deliver exactly the frames of the stream, whatever the cutting.
 */
module Sessions {
  import opened Wire
  import opened Framing
  import opened Receiver

  const CLIENT_CAPACITY: nat := 1024 * 1024 * 2 - 1
  const SERVER_CAPACITY: nat := 1024 * 1024 * 64

  // ---- Streams of a well-behaved peer ----

  ghost predicate StartsLikeDelim(s: seq<byte>) {
    forall j :: 0 <= j < 4 && j < |s| ==> s[j] == DelimBytes()[j]
  }

  /** Every frame, and the unfinished one as far as it goes, starts with the delimiter. */
  ghost predicate Clean(stream: seq<byte>) {
    && (forall i :: 0 <= i < |Frames(stream)| ==> StartsLikeDelim(Frames(stream)[i]))
    && StartsLikeDelim(Rest(stream))
  }

  /** Every prefix of a well-formed stream is clean. */
  lemma PrefixIsClean(fs: seq<seq<byte>>, n: nat)
    requires AllFrames(fs) && n <= |Concat(fs)|
    ensures Clean(Concat(fs)[..n])
  {
    var k := Arrived(fs, n);
    FramesOfStream(fs, n);
    forall i | 0 <= i < |fs| ensures StartsLikeDelim(fs[i]) {
      assert IsFrame(fs[i]);
      assert forall j :: 0 <= j < 4 ==> fs[i][j] == fs[i][..4][j];
    }
    if k < |fs| {
      assert StartsLikeDelim(fs[k]);
    }
  }

  /** So what is held over plus new bytes always starts like the delimiter. */
  lemma PendingStartsLikeDelim(stream: seq<byte>, chunk: seq<byte>)
    requires Clean(stream + chunk)
    ensures StartsLikeDelim(Rest(stream) + chunk)
  {
    var pending := Rest(stream) + chunk;
    FramesIncremental(stream, chunk);
    if HasFrame(pending) {
      var first := pending[..FrameSize(pending)];
      assert Frames(pending)[0] == first;
      assert Frames(stream + chunk)[|Frames(stream)|] == first;
    }
  }

  /** Overwriting with bytes that agree with the delimiter keeps it in place, stale bytes completing it. */
  lemma OverwriteKeepsDelim(s: seq<byte>, offset: nat, bytes: seq<byte>)
    requires offset + |bytes| <= |s| && |s| >= 4
    requires forall j :: 0 <= j < 4 && !(offset <= j < offset + |bytes|) ==> s[j] == DelimBytes()[j]
    requires forall j :: offset <= j < 4 && j < offset + |bytes| ==> bytes[j - offset] == DelimBytes()[j]
    ensures Overwrite(s, offset, bytes)[..4] == DelimBytes()
  {
    var r := Overwrite(s, offset, bytes);
    forall j | 0 <= j < 4 ensures r[j] == DelimBytes()[j] {
      if offset <= j < offset + |bytes| {
        assert r[j] == bytes[j - offset];
      } else {
        assert r[j] == s[j];
      }
    }
  }

  /** The delimiter at the front after a chunk landed behind the held-over bytes. */
  lemma ChunkKeepsDelim(s: seq<byte>, held: seq<byte>, chunk: seq<byte>)
    requires |held| + |chunk| <= |s| && |s| >= 4 && s[..|held|] == held && StartsLikeDelim(held + chunk)
    requires s[..4] == DelimBytes() || |held| + |chunk| >= 4
    ensures Overwrite(s, |held|, chunk)[..4] == DelimBytes()
    ensures Overwrite(s, |held|, chunk)[..|held| + |chunk|] == held + chunk
  {
    var pending := held + chunk;
    forall j | |held| <= j < 4 && j < |pending| ensures chunk[j - |held|] == DelimBytes()[j] {
      assert pending[j] == chunk[j - |held|];
    }
    forall j | 0 <= j < 4 && !(|held| <= j < |pending|) ensures s[j] == DelimBytes()[j] {
      if j < |held| {
        assert s[j] == held[j] == pending[j];
      } else {
        assert s[j] == s[..4][j];
      }
    }
    OverwriteKeepsDelim(s, |held|, chunk);
  }

  lemma RestKeepsDelim(s: seq<byte>, rest: seq<byte>)
    requires |rest| <= |s| && |s| >= 4 && s[..4] == DelimBytes() && StartsLikeDelim(rest)
    ensures Overwrite(s, 0, rest)[..4] == DelimBytes() && Overwrite(s, 0, rest)[..|rest|] == rest
  {
    forall j | 0 <= j < 4 ensures s[j] == DelimBytes()[j] {
      assert s[j] == s[..4][j];
    }
    OverwriteKeepsDelim(s, 0, rest);
  }

  // ---- Where the delimiter scan stops ----

  /** After `stream` came to the front of memory `initial`, there is a delimiter to stop at. */
  ghost predicate ScanStops(initial: seq<byte>, stream: seq<byte>)
    requires |stream| <= |initial|
  {
    exists k :: DelimAt(Overwrite(initial, 0, stream), k)
  }

  lemma DelimIsNonZero()
    ensures forall j :: 0 <= j < 4 ==> DelimBytes()[j] != 0
  {
    DelimiterBytes();
  }

  /** In zeroed memory the scan stops exactly when at least four bytes have come. */
  lemma ZeroedScanStopsIff(initial: seq<byte>, stream: seq<byte>)
    requires |stream| <= |initial| && |initial| >= 4 && StartsLikeDelim(stream)
    requires forall i :: 0 <= i < |initial| ==> initial[i] == 0
    ensures ScanStops(initial, stream) <==> |stream| >= 4
  {
    var s := Overwrite(initial, 0, stream);
    DelimIsNonZero();
    if |stream| >= 4 {
      assert s[0..4] == DelimBytes();
      assert DelimAt(s, 0);
    } else {
      forall k | 0 <= k && k + 4 <= |s| ensures !DelimAt(s, k) {
        assert s[k..k + 4][3] == s[k + 3] == 0;
      }
    }
  }

  lemma ShortStream(stream: seq<byte>)
    requires |stream| < HEADER
    ensures Frames(stream) == [] && Rest(stream) == stream
  {
  }

  // ---- The receiving end ----

  class Session {
    const cap: nat
    const buf: array<byte>
    const registered: set<nat>
    var unprocessed: nat
    var abort: bool
    var delivered: seq<Message>
    /** The delimiter scan has left the buffer. */
    var overrun: bool
    ghost const initial: seq<byte>
    ghost var stream: seq<byte>

    /** The callbacks have seen the frames of `stream`, and its rest is held over at the front. */
    ghost predicate Following()
      reads this, buf
    {
      && unprocessed == |Rest(stream)| <= cap <= buf.Length
      && buf[..][..unprocessed] == Rest(stream)
      && delivered == Calls(Frames(stream), registered)
    }

    /** `stream` is what has arrived so far; four bytes of it are enough to keep the delimiter in front. */
    ghost predicate Valid()
      reads this, buf
    {
      && buf.Length == |initial| == cap + HEADER
      && (overrun ==> |stream| < 4 && delivered == [])
      && (!overrun ==> Following())
      && (!overrun && |stream| < 4 ==> buf[..] == Overwrite(initial, 0, stream))
      && (|stream| >= 4 ==> buf[..][..4] == DelimBytes())
    }

    /** `memory` is what the receive buffer holds at first. */
    constructor (cap: nat, registered: set<nat>, memory: seq<byte>)
      requires |memory| == cap + HEADER
      ensures Valid() && stream == [] && !abort && !overrun
      ensures this.cap == cap && this.registered == registered && initial == memory && fresh(buf)
    {
      this.cap, this.registered, initial := cap, registered, memory;
      buf := new byte[cap + HEADER](i requires 0 <= i < |memory| => memory[i]);
      unprocessed, abort, delivered, overrun, stream := 0, false, [], false, [];
      new;
      assert buf[..] == memory == Overwrite(memory, 0, []);
    }

    ghost predicate CanReceive(chunk: seq<byte>)
      reads this
    {
      !overrun && chunk != [] && |chunk| <= cap - unprocessed && Clean(stream + chunk)
    }

    /** The buffer once a chunk landed behind what is held over. */
    lemma Arrival(chunk: seq<byte>)
      requires Valid() && CanReceive(chunk)
      ensures var pending, arrived := Rest(stream) + chunk, Overwrite(buf[..], unprocessed, chunk);
        && arrived[..|pending|] == pending
        && (|stream + chunk| >= 4 ==> DelimAt(arrived, 0))
        && (|stream + chunk| < 4 ==> pending == stream + chunk && arrived == Overwrite(initial, 0, stream + chunk))
    {
      PendingStartsLikeDelim(stream, chunk);
      if |stream| < 4 {
        ShortStream(stream);
      }
      if |stream + chunk| >= 4 {
        ChunkKeepsDelim(buf[..], Rest(stream), chunk);
        assert Overwrite(buf[..], unprocessed, chunk)[0..4] == DelimBytes();
      } else {
        OverwriteTwice(initial, stream, chunk);
      }
    }

    /** The buffer once the rest of the pending bytes was moved to the front. */
    lemma Departure(arrived: seq<byte>, pending: seq<byte>)
      requires |pending| + HEADER <= |arrived| && arrived[..|pending|] == pending && StartsLikeDelim(Rest(pending))
      requires |Rest(pending)| <= |pending|
      ensures Overwrite(arrived, 0, Rest(pending))[..|Rest(pending)|] == Rest(pending)
      ensures DelimAt(arrived, 0) ==> Overwrite(arrived, 0, Rest(pending))[..4] == DelimBytes()
      ensures |pending| < 4 ==> Overwrite(arrived, 0, Rest(pending)) == arrived
    {
      if DelimAt(arrived, 0) {
        assert arrived[..4] == arrived[0..4];
        RestKeepsDelim(arrived, Rest(pending));
      }
      if |pending| < 4 {
        ShortStream(pending);
      }
    }

    /**
      The bytes land behind what is held over, and extraction runs over both. Once four bytes of the stream
      have come, the delimiter scan always stops at offset 0.
     */
    method Receive(chunk: seq<byte>) returns (scan: Scan)
      requires Valid() && CanReceive(chunk)
      modifies this`unprocessed, this`delivered, this`overrun, this`stream, buf
      ensures Valid() && stream == old(stream) + chunk && overrun == scan.Overrun?
      ensures |stream| >= 4 ==> scan == Found(0)
      ensures |stream| < 4 ==> (scan.Found? <==> ScanStops(initial, stream))
    {
      ghost var pending := Rest(stream) + chunk;
      FramesIncremental(stream, chunk);
      BytesAreConserved(pending);
      CallsConcat(Frames(stream), Frames(pending), registered);
      Arrival(chunk);
      WriteBytes(buf, unprocessed, chunk);
      ghost var arrived := buf[..];
      var calls, rest;
      scan, rest, calls := ExtractItems(buf, unprocessed + |chunk|, registered);
      stream := stream + chunk;
      if scan.Overrun? {
        ShortStream(old(stream));
        overrun := true;
      } else {
        Departure(arrived, pending);
        unprocessed := rest;
        delivered := delivered + calls;
      }
    }
  }

  // ---- Receive loops ----

  ghost predicate FramesFit(fs: seq<seq<byte>>, cap: nat) {
    AllFrames(fs) && forall i :: 0 <= i < |fs| ==> |fs[i]| <= cap
  }

  /** What recv can bring: bytes, an orderly end, a temporary failure or another error. */
  datatype Recv = Data(bytes: seq<byte>) | Closed | Again | Failed

  function Bytes(recvs: seq<Recv>): nat {
    if recvs == [] then 0
    else
      var last := recvs[|recvs| - 1];
      Bytes(recvs[..|recvs| - 1]) + if last.Data? then |last.bytes| else 0
  }

  /** The next bytes of the stream after the first `n`: at least one, and at most the space offered. */
  ghost predicate GoodChunk(fs: seq<seq<byte>>, cap: nat, n: nat, chunk: seq<byte>) {
    && n + |chunk| <= |Concat(fs)| && chunk != [] && chunk == Concat(fs)[n..n + |chunk|]
    && |chunk| <= cap - |Rest(Concat(fs)[..n])|
  }

  ghost predicate GoodScript(fs: seq<seq<byte>>, cap: nat, recvs: seq<Recv>) {
    forall i :: 0 <= i < |recvs| && recvs[i].Data? ==> GoodChunk(fs, cap, Bytes(recvs[..i]), recvs[i].bytes)
  }

  /** The client gives up on anything that is not data; the server tries again after a temporary failure. */
  predicate Stops(r: Recv, tolerant: bool) {
    r.Closed? || r.Failed? || (r.Again? && !tolerant)
  }

  function StopsAt(recvs: seq<Recv>, tolerant: bool): (k: nat)
    ensures k <= |recvs|
    ensures forall i :: 0 <= i < k ==> recvs[i].Data? || (tolerant && recvs[i].Again?)
    ensures k < |recvs| ==> recvs[k].Closed? || recvs[k].Failed? || (!tolerant && recvs[k].Again?)
  {
    if recvs == [] || Stops(recvs[0], tolerant) then 0 else 1 + StopsAt(recvs[1..], tolerant)
  }

  /** The session has received `n` bytes of the stream: whole frames delivered, part of the next one held. */
  ghost predicate HasReceived(s: Session, fs: seq<seq<byte>>, n: nat)
    reads s, s.buf
  {
    var k := Arrived(fs, n);
    && n <= |Concat(fs)| && s.stream == Concat(fs)[..n]
    && s.delivered == Calls(fs[..k], s.registered)
    && s.unprocessed <= s.buf.Length && s.stream == Concat(fs[..k]) + s.buf[..][..s.unprocessed]
    && (k < |fs| ==> s.unprocessed < |fs[k]|)
    && (k == |fs| ==> s.unprocessed == 0)
  }

  lemma SessionHasReceived(s: Session, fs: seq<seq<byte>>, n: nat)
    requires s.Valid() && !s.overrun && AllFrames(fs) && n <= |Concat(fs)| && s.stream == Concat(fs)[..n]
    ensures HasReceived(s, fs, n)
  {
    FramesOfStream(fs, n);
  }

  /** In terms of messages: the callbacks saw exactly those of registered types that have arrived. */
  lemma MessagesDelivered(s: Session, ms: seq<Message>, n: nat)
    requires HasReceived(s, EncodeEach(ms), n) && forall i :: 0 <= i < |ms| ==> InRange(ms[i])
    ensures Arrived(EncodeEach(ms), n) <= |ms|
    ensures s.delivered == WithType(ms[..Arrived(EncodeEach(ms), n)], s.registered)
  {
    var k := Arrived(EncodeEach(ms), n);
    CallsAreMessages(ms, s.registered);
    EncodeEachTake(ms, k);
    CallsAreMessages(ms[..k], s.registered);
  }

  /** The receive area is full of one frame that does not fit. */
  ghost predicate NoSpace(fs: seq<seq<byte>>, cap: nat, n: nat)
    requires n <= |Concat(fs)|
  {
    |Rest(Concat(fs)[..n])| >= cap
  }

  /** If every frame fits, the space offered never runs out. */
  lemma SpaceIsOffered(fs: seq<seq<byte>>, cap: nat, n: nat)
    requires cap > 0 && FramesFit(fs, cap) && n <= |Concat(fs)|
    ensures !NoSpace(fs, cap, n)
  {
    FramesOfStream(fs, n);
  }

  lemma SplitAt<T>(s: seq<T>, n: nat, m: nat)
    requires n <= m <= |s|
    ensures s[..n] + s[n..m] == s[..m]
  {
  }

  lemma ChunkIsReceivable(s: Session, fs: seq<seq<byte>>, n: nat, chunk: seq<byte>)
    requires s.Valid() && !s.overrun && AllFrames(fs) && GoodChunk(fs, s.cap, n, chunk) && s.stream == Concat(fs)[..n]
    ensures s.CanReceive(chunk) && s.stream + chunk == Concat(fs)[..n + |chunk|]
  {
    NextIsClean(fs, n, chunk);
  }

  lemma NextIsClean(fs: seq<seq<byte>>, n: nat, chunk: seq<byte>)
    requires AllFrames(fs) && n + |chunk| <= |Concat(fs)| && chunk == Concat(fs)[n..n + |chunk|]
    ensures Concat(fs)[..n] + chunk == Concat(fs)[..n + |chunk|] && Clean(Concat(fs)[..n] + chunk)
  {
    SplitAt(Concat(fs), n, n + |chunk|);
    PrefixIsClean(fs, n + |chunk|);
  }

  /** Where the session stands before the `i`-th receive. */
  ghost predicate Before(s: Session, fs: seq<seq<byte>>, recvs: seq<Recv>, i: nat)
    reads s
    requires i <= |recvs|
  {
    Bytes(recvs[..i]) <= |Concat(fs)| && s.stream == Concat(fs)[..Bytes(recvs[..i])]
  }

  lemma BytesOfNext(recvs: seq<Recv>, i: nat)
    requires i < |recvs|
    ensures Bytes(recvs[..i + 1]) == Bytes(recvs[..i]) + if recvs[i].Data? then |recvs[i].bytes| else 0
  {
    assert recvs[..i + 1][..i] == recvs[..i];
  }

  /** The delimiter scan of the first `n` bytes of a stream, which started in memory `initial`, stops. */
  ghost predicate ScansAt(initial: seq<byte>, fs: seq<seq<byte>>, n: nat) {
    n >= 4 || (n <= |Concat(fs)| && n <= |initial| && ScanStops(initial, Concat(fs)[..n]))
  }

  /** All scans of the first `k` receives stopped, except that the last one left the buffer if `overrun`. */
  ghost predicate Scanned(initial: seq<byte>, fs: seq<seq<byte>>, recvs: seq<Recv>, k: nat, overrun: bool)
    requires k <= |recvs|
  {
    && (forall i :: 0 <= i < k && recvs[i].Data? && !(overrun && i == k - 1) ==>
         ScansAt(initial, fs, Bytes(recvs[..i + 1])))
    && (overrun ==> k > 0 && recvs[k - 1].Data? && !ScansAt(initial, fs, Bytes(recvs[..k])))
  }

  /** One data receive of a script. */
  method TakeChunk(s: Session, recvs: seq<Recv>, i: nat, ghost fs: seq<seq<byte>>)
    requires s.Valid() && !s.overrun && AllFrames(fs) && GoodScript(fs, s.cap, recvs)
    requires i < |recvs| && recvs[i].Data? && Before(s, fs, recvs, i) && Scanned(s.initial, fs, recvs, i, false)
    modifies s, s.buf
    ensures s.Valid() && s.abort == old(s.abort) && Before(s, fs, recvs, i + 1)
    ensures Scanned(s.initial, fs, recvs, i + 1, s.overrun)
  {
    ghost var n := Bytes(recvs[..i + 1]);
    NextIsReceivable(s, recvs, i, fs);
    var scan := s.Receive(recvs[i].bytes);
    ScansIff(s.initial, fs, n, scan);
    ScannedNext(s.initial, fs, recvs, i, s.overrun);
  }

  lemma NextIsReceivable(s: Session, recvs: seq<Recv>, i: nat, fs: seq<seq<byte>>)
    requires s.Valid() && !s.overrun && AllFrames(fs) && GoodScript(fs, s.cap, recvs)
    requires i < |recvs| && recvs[i].Data? && Before(s, fs, recvs, i)
    ensures var n := Bytes(recvs[..i + 1]);
      s.CanReceive(recvs[i].bytes) && n <= |Concat(fs)| && s.stream + recvs[i].bytes == Concat(fs)[..n]
  {
    BytesOfNext(recvs, i);
    ChunkIsReceivable(s, fs, Bytes(recvs[..i]), recvs[i].bytes);
  }

  lemma ScansIff(initial: seq<byte>, fs: seq<seq<byte>>, n: nat, scan: Scan)
    requires n <= |Concat(fs)| && |initial| >= 4 && (n >= 4 ==> scan == Found(0))
    requires n < 4 ==> (scan.Found? <==> ScanStops(initial, Concat(fs)[..n]))
    ensures scan.Found? <==> ScansAt(initial, fs, n)
  {
  }

  lemma ScannedNext(initial: seq<byte>, fs: seq<seq<byte>>, recvs: seq<Recv>, i: nat, overrun: bool)
    requires i < |recvs| && Scanned(initial, fs, recvs, i, false)
    requires if recvs[i].Data? then overrun <==> !ScansAt(initial, fs, Bytes(recvs[..i + 1])) else !overrun
    ensures Scanned(initial, fs, recvs, i + 1, overrun)
  {
  }

  lemma SpaceLeft(s: Session, fs: seq<seq<byte>>, recvs: seq<Recv>, i: nat)
    requires s.Valid() && !s.overrun && i <= |recvs| && Before(s, fs, recvs, i)
    ensures s.cap - s.unprocessed <= 0 <==> NoSpace(fs, s.cap, Bytes(recvs[..i]))
  {
  }

  /** A loop that has not stopped stops at anything but data. */
  lemma StopsHere(recvs: seq<Recv>, k: nat)
    requires k < |recvs| && k <= StopsAt(recvs, false)
    ensures if recvs[k].Data? then k < StopsAt(recvs, false) else k == StopsAt(recvs, false)
  {
  }

  /** The client's listen loop over what a run of recv calls brings; it takes `k` of them. */
  method ListenLoop(s: Session, recvs: seq<Recv>, ghost fs: seq<seq<byte>>) returns (k: nat)
    requires s.Valid() && s.stream == [] && !s.abort && !s.overrun && s.cap == CLIENT_CAPACITY
    requires AllFrames(fs) && GoodScript(fs, s.cap, recvs)
    modifies s, s.buf
    ensures s.Valid() && k <= StopsAt(recvs, false) && Before(s, fs, recvs, k)
    ensures Scanned(s.initial, fs, recvs, k, s.overrun)
    ensures !s.overrun ==> k == StopsAt(recvs, false)
    ensures (forall i :: 0 <= i < k ==> recvs[i].Data?) && (!s.overrun && k < |recvs| ==> !recvs[k].Data?)
    ensures s.abort == (!s.overrun && k < |recvs|)
  {
    k := 0;
    while !s.abort && !s.overrun && k < |recvs|
      invariant s.Valid() && k <= StopsAt(recvs, false) && Before(s, fs, recvs, k)
      invariant Scanned(s.initial, fs, recvs, k, s.overrun)
      invariant s.abort ==> !s.overrun && k < |recvs| && k == StopsAt(recvs, false)
      decreases |recvs| - k, !s.abort
    {
      StopsHere(recvs, k);
      if recvs[k].Data? {
        TakeChunk(s, recvs, k, fs);
        k := k + 1;
      } else {
        s.abort := true;
      }
    }
  }

  /** What the server's receiver makes of one result of recv; `goesOn` says whether its loop does. */
  method HandleRecv(s: Session, recvs: seq<Recv>, k: nat, ghost fs: seq<seq<byte>>) returns (goesOn: bool)
    requires s.Valid() && !s.overrun && !s.abort && AllFrames(fs) && GoodScript(fs, s.cap, recvs)
    requires k < |recvs| && k <= StopsAt(recvs, true)
    requires Before(s, fs, recvs, k) && Scanned(s.initial, fs, recvs, k, false)
    modifies s, s.buf
    ensures s.Valid() && goesOn == !Stops(recvs[k], true) && s.abort == recvs[k].Closed?
    ensures if goesOn then
        k < StopsAt(recvs, true) && Before(s, fs, recvs, k + 1) && Scanned(s.initial, fs, recvs, k + 1, s.overrun)
      else k == StopsAt(recvs, true) && s.stream == old(s.stream) && !s.overrun
  {
    BytesOfNext(recvs, k);
    goesOn := true;
    match recvs[k] {
      case Closed =>
        s.abort, goesOn := true, false;
      case Failed =>
        goesOn := false;
      case Again =>
        ScannedNext(s.initial, fs, recvs, k, false);
      case Data(_) =>
        TakeChunk(s, recvs, k, fs);
    }
  }

  /** The server's receiver for one client, with its overflow guard. */
  method ReceiverLoop(s: Session, recvs: seq<Recv>, ghost fs: seq<seq<byte>>) returns (k: nat)
    requires s.Valid() && s.stream == [] && !s.abort && !s.overrun && s.cap == SERVER_CAPACITY
    requires AllFrames(fs) && GoodScript(fs, s.cap, recvs)
    modifies s, s.buf
    ensures s.Valid() && k <= StopsAt(recvs, true) && Before(s, fs, recvs, k)
    ensures Scanned(s.initial, fs, recvs, k, s.overrun)
    ensures !s.overrun && k < StopsAt(recvs, true) ==> NoSpace(fs, s.cap, Bytes(recvs[..k]))
    ensures forall i :: 0 <= i < k ==> recvs[i].Data? || recvs[i].Again?
    ensures !s.overrun && !NoSpace(fs, s.cap, Bytes(recvs[..k])) && k < |recvs| ==> recvs[k].Closed? || recvs[k].Failed?
    ensures s.abort == (!s.overrun && (NoSpace(fs, s.cap, Bytes(recvs[..k])) || (k < |recvs| && recvs[k].Closed?)))
  {
    k := 0;
    while !s.abort && !s.overrun
      invariant s.Valid() && !s.abort && k <= StopsAt(recvs, true) && Before(s, fs, recvs, k)
      invariant Scanned(s.initial, fs, recvs, k, s.overrun)
      decreases |recvs| - k
    {
      SpaceLeft(s, fs, recvs, k);
      var available := s.cap - s.unprocessed;
      if available <= 0 {
        s.abort := true;
        break;
      }
      if k == |recvs| {
        break;
      }
      var goesOn := HandleRecv(s, recvs, k, fs);
      if !goesOn {
        break;
      }
      k := k + 1;
    }
  }

  /**
    A whole client session, in a zeroed buffer. If the first receive brings only 1 to 3 bytes, the scan leaves
    the buffer. Otherwise, for every cutting of the stream into receives, the callbacks have seen exactly
    the frames whose last byte arrived, once each and in order, and the received part of the next frame is
    what the buffer holds.
   */
  method ClientSession(recvs: seq<Recv>, registered: set<nat>, ghost fs: seq<seq<byte>>) returns (s: Session)
    requires AllFrames(fs) && GoodScript(fs, CLIENT_CAPACITY, recvs)
    ensures fresh(s) && s.Valid() && s.registered == registered
    ensures s.overrun <==> StopsAt(recvs, false) > 0 && |recvs[0].bytes| < 4
    ensures s.overrun ==> s.delivered == []
    ensures !s.overrun ==> HasReceived(s, fs, Bytes(recvs[..StopsAt(recvs, false)]))
  {
    s := new Session(CLIENT_CAPACITY, registered, seq(CLIENT_CAPACITY + HEADER, _ => 0));
    var k := ListenLoop(s, recvs, fs);
    ZeroedSession(s.initial, fs, recvs, k, s.overrun);
    if !s.overrun {
      SessionHasReceived(s, fs, Bytes(recvs[..k]));
    }
  }

  /** In zeroed memory only the first receive can make the scan leave the buffer. */
  lemma ZeroedSession(initial: seq<byte>, fs: seq<seq<byte>>, recvs: seq<Recv>, k: nat, overrun: bool)
    requires AllFrames(fs) && GoodScript(fs, CLIENT_CAPACITY, recvs) && k <= StopsAt(recvs, false)
    requires |initial| >= 4 && forall i :: 0 <= i < |initial| ==> initial[i] == 0
    requires Scanned(initial, fs, recvs, k, overrun) && (!overrun ==> k == StopsAt(recvs, false))
    ensures overrun <==> StopsAt(recvs, false) > 0 && |recvs[0].bytes| < 4
  {
    if k > 0 {
      FirstReceive(fs, recvs);
      ZeroedScan(initial, fs, |recvs[0].bytes|);
      if overrun && k > 1 {
        assert ScansAt(initial, fs, Bytes(recvs[..0 + 1]));
        BytesGrow(recvs, 1, k);
      }
    }
  }

  lemma FirstReceive(fs: seq<seq<byte>>, recvs: seq<Recv>)
    requires GoodScript(fs, CLIENT_CAPACITY, recvs) && StopsAt(recvs, false) > 0
    ensures recvs[0].Data? && 0 < |recvs[0].bytes| <= |Concat(fs)| && Bytes(recvs[..1]) == |recvs[0].bytes|
  {
    assert !Stops(recvs[0], false);
    BytesOfNext(recvs, 0);
    assert GoodChunk(fs, CLIENT_CAPACITY, Bytes(recvs[..0]), recvs[0].bytes);
  }

  lemma ZeroedScan(initial: seq<byte>, fs: seq<seq<byte>>, n: nat)
    requires AllFrames(fs) && 0 < n <= |Concat(fs)| && |initial| >= 4
    requires forall i :: 0 <= i < |initial| ==> initial[i] == 0
    ensures ScansAt(initial, fs, n) <==> n >= 4
  {
    if n < 4 {
      PrefixIsClean(fs, n);
      ShortStream(Concat(fs)[..n]);
      ZeroedScanStopsIff(initial, Concat(fs)[..n]);
    }
  }

  lemma {:induction false} BytesGrow(recvs: seq<Recv>, i: nat, j: nat)
    requires i <= j <= |recvs|
    ensures Bytes(recvs[..i]) <= Bytes(recvs[..j])
  {
    if i < j {
      BytesGrow(recvs, i, j - 1);
      BytesOfNext(recvs, j - 1);
    }
  }

  /**
    A whole server session, in memory that holds anything at first. The receiver takes `k` receives. It
    stops early only if the scan leaves the buffer, within the first 3 bytes, or if a frame does not fit.
   */
  method ServerSession(recvs: seq<Recv>, registered: set<nat>, memory: seq<byte>, ghost fs: seq<seq<byte>>)
    returns (s: Session, k: nat)
    requires AllFrames(fs) && GoodScript(fs, SERVER_CAPACITY, recvs) && |memory| == SERVER_CAPACITY + HEADER
    ensures fresh(s) && s.Valid() && s.registered == registered && k <= StopsAt(recvs, true)
    ensures s.overrun ==> k > 0 && Bytes(recvs[..k]) < 4 && !ScansAt(memory, fs, Bytes(recvs[..k])) && s.delivered == []
    ensures !s.overrun ==> HasReceived(s, fs, Bytes(recvs[..k]))
    ensures !s.overrun && FramesFit(fs, SERVER_CAPACITY) ==> k == StopsAt(recvs, true)
    ensures !s.overrun && k < StopsAt(recvs, true) ==> s.unprocessed == SERVER_CAPACITY
    ensures forall i :: 0 <= i < k ==> recvs[i].Data? || recvs[i].Again?
    ensures !s.overrun && s.unprocessed < SERVER_CAPACITY && k < |recvs| ==> recvs[k].Closed? || recvs[k].Failed?
    ensures s.abort == (!s.overrun && (s.unprocessed == SERVER_CAPACITY || (k < |recvs| && recvs[k].Closed?)))
  {
    s := new Session(SERVER_CAPACITY, registered, memory);
    k := ReceiverLoop(s, recvs, fs);
    if !s.overrun {
      SessionHasReceived(s, fs, Bytes(recvs[..k]));
      SpaceLeft(s, fs, recvs, k);
      if FramesFit(fs, SERVER_CAPACITY) {
        SpaceIsOffered(fs, SERVER_CAPACITY, Bytes(recvs[..k]));
      }
    }
  }
}
