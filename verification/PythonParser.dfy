/**
  The message parser of the Python side, which slices past the end of its data and checks enum values,
  and what it makes of a well-formed stream that may end inside a message.
 */
module PythonParser {
  import opened Wire
  import opened Framing
  import opened Receiver

  const LAST_UNIT_TYPE: nat := 6
  const LAST_PACKAGE_TYPE: nat := 13

  datatype Parsed = Whole(m: Message) | Partial

  /** `raised` says that the generator ended with a ValueError after the objects it yielded. */
  datatype ParseResult = ParseResult(yielded: seq<Parsed>, raised: bool)

  function Min(a: nat, b: nat): nat {
    if a < b then a else b
  }

  /** Python slicing: bounds past the end are cut down to it. */
  function Slice(s: seq<byte>, a: nat, b: nat): seq<byte>
    requires a <= b
  {
    s[Min(a, |s|)..Min(b, |s|)]
  }

  /** An enum field of the header at the front of `s`, as far as it is there, has a value Python does not know. */
  predicate ShowsUnknown(s: seq<byte>) {
    Value(Slice(s, 4, 8)) > LAST_UNIT_TYPE || Value(Slice(s, 12, 16)) > LAST_PACKAGE_TYPE
  }

  /** The delimiter is wrong, or an enum constructor raises. */
  predicate BadHeader(s: seq<byte>) {
    Value(Slice(s, 0, 4)) != START_DELIM || ShowsUnknown(s)
  }

  function EndOfPayload(s: seq<byte>): nat {
    HEADER + Value(Slice(s, 8, 12))
  }

  function Parse(s: seq<byte>): ParseResult
    decreases |s|
  {
    if s == [] then ParseResult([], false)
    else if BadHeader(s) then ParseResult([], true)
    else if EndOfPayload(s) <= |s| then
      var later := Parse(s[EndOfPayload(s)..]);
      ParseResult([Whole(Decode(s[..EndOfPayload(s)]))] + later.yielded, later.raised)
    else ParseResult([Partial], false)
  }

  lemma SliceOfSuffix(data: seq<byte>, pos: nat, a: nat, b: nat)
    requires pos <= |data| && a <= b
    ensures Slice(data, pos + a, pos + b) == Slice(data[pos..], a, b)
  {
  }

  /** Reads the header at `pos`; `ok` is false where the source raises. */
  method ReadHeader(data: seq<byte>, pos: nat) returns (ok: bool, payloadSize: nat)
    requires pos <= |data|
    ensures ok == !BadHeader(data[pos..])
    ensures ok ==> HEADER + payloadSize == EndOfPayload(data[pos..])
  {
    SliceOfSuffix(data, pos, 0, 4);
    SliceOfSuffix(data, pos, 4, 8);
    SliceOfSuffix(data, pos, 8, 12);
    SliceOfSuffix(data, pos, 12, 16);
    payloadSize := 0;
    var delim := Value(Slice(data, pos, pos + 4));
    if delim != START_DELIM {
      return false, payloadSize;
    }
    var unitType := Value(Slice(data, pos + 4, pos + 8));
    if unitType > LAST_UNIT_TYPE {
      return false, payloadSize;
    }
    payloadSize := Value(Slice(data, pos + 8, pos + 12));
    var packageType := Value(Slice(data, pos + 12, pos + 16));
    ok := packageType <= LAST_PACKAGE_TYPE;
  }

  /** The result of parsing `first` and then whatever gave `later`. */
  function After(first: seq<Parsed>, later: ParseResult): ParseResult {
    ParseResult(first + later.yielded, later.raised)
  }

  lemma AfterTwice(a: seq<Parsed>, b: seq<Parsed>, r: ParseResult)
    ensures After(a, After(b, r)) == After(a + b, r)
  {
    assert a + (b + r.yielded) == a + b + r.yielded;
  }

  lemma ParseBad(s: seq<byte>)
    requires s != [] && BadHeader(s)
    ensures Parse(s) == ParseResult([], true)
  {
  }

  lemma ParseEnds(data: seq<byte>, pos: nat)
    ensures pos == |data| ==> Parse(data[pos..]) == ParseResult([], false)
  {
  }

  lemma ParseUnfolds(s: seq<byte>)
    requires s != [] && !BadHeader(s)
    ensures var end := EndOfPayload(s);
      if end <= |s| then Parse(s) == After([Whole(Decode(s[..end]))], Parse(s[end..]))
      else Parse(s) == ParseResult([Partial], false)
  {
  }

  /** What was yielded before position `pos` and what is still to come make up the whole parse. */
  ghost predicate ParsedTo(whole: ParseResult, data: seq<byte>, yielded: seq<Parsed>, pos: nat) {
    whole == if pos <= |data| then After(yielded, Parse(data[pos..])) else ParseResult(yielded, false)
  }

  /** The object for the message between `pos` and `end`. */
  function ObjectAt(data: seq<byte>, pos: nat, end: nat): Parsed
    requires pos + HEADER <= end
  {
    if end <= |data| then Whole(Decode(data[pos..end])) else Partial
  }

  lemma ParseOne(whole: ParseResult, data: seq<byte>, yielded: seq<Parsed>, pos: nat, end: nat)
    requires pos < |data| && ParsedTo(whole, data, yielded, pos) && !BadHeader(data[pos..])
    requires end == pos + EndOfPayload(data[pos..])
    ensures ParsedTo(whole, data, yielded + [ObjectAt(data, pos, end)], end)
  {
    var rest, size := data[pos..], EndOfPayload(data[pos..]);
    ParseUnfolds(rest);
    if size <= |rest| {
      SuffixOfSuffix(data, pos, size);
      AfterTwice(yielded, [Whole(Decode(rest[..size]))], Parse(rest[size..]));
    }
  }

  lemma SuffixOfSuffix(data: seq<byte>, pos: nat, end: nat)
    requires pos + end <= |data|
    ensures data[pos..][end..] == data[pos + end..] && data[pos..][..end] == data[pos..pos + end]
  {
  }

  method ParseFromBytes(data: seq<byte>) returns (r: ParseResult)
    ensures r == Parse(data)
  {
    ghost var whole := Parse(data);
    var yielded: seq<Parsed> := [];
    var pos: nat := 0;
    assert ParsedTo(whole, data, [], 0) by {
      assert data[0..] == data;
    }
    while pos < |data|
      invariant ParsedTo(whole, data, yielded, pos)
      decreases |data| - pos
    {
      var ok, payloadSize := ReadHeader(data, pos);
      if !ok {
        ParseBad(data[pos..]);
        return ParseResult(yielded, true);
      }
      var endPayload := pos + HEADER + payloadSize;
      ParseOne(whole, data, yielded, pos, endPayload);
      yielded := yielded + [ObjectAt(data, pos, endPayload)];
      pos := endPayload;
    }
    ParseEnds(data, pos);
    r := ParseResult(yielded, false);
  }

  // ---- Parsing a well-formed stream ----

  lemma DelimField(f: seq<byte>, n: nat)
    requires IsFrame(f) && n <= |f|
    ensures Value(Slice(f[..n], 0, 4)) == START_DELIM <==> n >= 4
  {
    var s := f[..n];
    if n < 4 {
      assert Slice(s, 0, 4) == s;
      SmallValue(s);
    } else {
      assert Slice(s, 0, 4) == f[..4];
      DelimValue(f[..4]);
    }
  }

  lemma SizeOfPrefix(f: seq<byte>, n: nat)
    requires IsFrame(f) && n <= |f|
    ensures n < |f| ==> EndOfPayload(f[..n]) > n
    ensures n == |f| ==> EndOfPayload(f[..n]) == n
  {
    if n >= HEADER {
      assert Slice(f[..n], 8, 12) == f[8..12];
    }
  }

  /** The header of a partly arrived frame raises if its delimiter is incomplete or an enum value unknown. */
  lemma PartialHeader(f: seq<byte>, n: nat)
    requires IsFrame(f) && n <= |f|
    ensures BadHeader(f[..n]) <==> n < 4 || ShowsUnknown(f[..n])
    ensures n < |f| ==> EndOfPayload(f[..n]) > n
    ensures n == |f| ==> EndOfPayload(f[..n]) == n
  {
    DelimField(f, n);
    SizeOfPrefix(f, n);
  }

  lemma SmallValue(s: seq<byte>)
    requires |s| <= 3
    ensures Value(s) < START_DELIM
  {
    LittleEndianOfValue(s);
    assert Pow256(1) == 256 && Pow256(2) == 0x1_0000 && Pow256(3) == 0x100_0000;
  }

  lemma TruncatedField(f: seq<byte>, a: nat, n: nat)
    requires a + 4 <= |f| && n <= |f|
    ensures Value(Slice(f[..n], a, a + 4)) <= Value(f[a..a + 4])
  {
    var field := f[a..a + 4];
    LittleEndianOfValue(field);
    FieldOfPrefix(f, a, n);
    TruncatedValue(Value(field), 4, Shown(n, a));
  }

  /** How many of the four bytes of the field at `a` are there when `n` bytes are. */
  function Shown(n: nat, a: nat): nat {
    if n <= a then 0 else Min(4, n - a)
  }

  lemma FieldOfPrefix(f: seq<byte>, a: nat, n: nat)
    requires a + 4 <= |f| && n <= |f|
    ensures Slice(f[..n], a, a + 4) == f[a..a + 4][..Shown(n, a)]
  {
    if n > a {
      SliceOfSlice(f, 0, n, a, Min(a + 4, n));
      SliceOfSlice(f, a, a + 4, 0, Shown(n, a));
    }
  }

  lemma FieldValue(m: Message, a: nat, n: nat, value: nat)
    requires n <= |Encode(m)| && a + 4 <= HEADER && Encode(m)[a..a + 4] == LittleEndian(value, 4)
    ensures Pow256(Shown(n, a)) > 0 && Value(Slice(Encode(m)[..n], a, a + 4)) == value % Pow256(Shown(n, a))
  {
    FieldOfPrefix(Encode(m), a, n);
    TruncatedIsModulo(value, 4, Shown(n, a));
  }

  /**
    Of the first `n` bytes of a message the parser sees an unknown enum value exactly if the bytes of a field that
    are there, read as a number, exceed the last known value; a field that is there in full counts as it is.
   */
  lemma ShowsUnknownIff(m: Message, n: nat)
    requires InRange(m) && n <= |Encode(m)|
    ensures Pow256(Shown(n, 4)) > 0 && Pow256(Shown(n, 12)) > 0
    ensures ShowsUnknown(Encode(m)[..n]) <==>
      m.unitType % Pow256(Shown(n, 4)) > LAST_UNIT_TYPE || m.packageType % Pow256(Shown(n, 12)) > LAST_PACKAGE_TYPE
  {
    FieldsOfEncoding(m);
    FieldValue(m, 4, n, m.unitType);
    FieldValue(m, 12, n, m.packageType);
  }

  /** An unknown enum value is seen as soon as its field is there. */
  lemma UnknownIsShown(m: Message, n: nat)
    requires InRange(m) && n <= |Encode(m)|
    ensures n >= 8 && m.unitType > LAST_UNIT_TYPE ==> ShowsUnknown(Encode(m)[..n])
    ensures n >= 16 && m.packageType > LAST_PACKAGE_TYPE ==> ShowsUnknown(Encode(m)[..n])
  {
    PowersOf256();
    ShowsUnknownIff(m, n);
    WholeField(m.unitType);
    WholeField(m.packageType);
  }

  lemma WholeField(value: nat)
    requires value < 0x1_0000_0000
    ensures Pow256(4) > 0 && value % Pow256(4) == value
  {
    PowersOf256();
  }

  /** A frame whose enum values are known never shows an unknown one, however much of it is there. */
  lemma KnownShowsNothing(f: seq<byte>, n: nat)
    requires IsFrame(f) && !ShowsUnknown(f) && n <= |f|
    ensures !ShowsUnknown(f[..n])
  {
    TruncatedField(f, 4, n);
    TruncatedField(f, 12, n);
  }

  function Wholes(fs: seq<seq<byte>>): seq<Parsed>
    requires AllFrames(fs)
  {
    if fs == [] then [] else [Whole(Decode(fs[0]))] + Wholes(fs[1..])
  }

  /** How many frames come before the first one with an unknown enum value. */
  function KnownCount(fs: seq<seq<byte>>): (k: nat)
    ensures k <= |fs|
  {
    if fs == [] || ShowsUnknown(fs[0]) then 0 else 1 + KnownCount(fs[1..])
  }

  lemma SliceOfFront(f: seq<byte>, tail: seq<byte>, a: nat, b: nat)
    requires a <= b <= |f|
    ensures Slice(f + tail, a, b) == Slice(f, a, b) == f[a..b]
  {
  }

  /** A header depends on the first bytes only. */
  lemma HeaderOfFront(f: seq<byte>, tail: seq<byte>)
    requires |f| >= HEADER
    ensures BadHeader(f + tail) <==> BadHeader(f)
    ensures EndOfPayload(f + tail) == EndOfPayload(f)
  {
    SliceOfFront(f, tail, 0, 4);
    SliceOfFront(f, tail, 4, 8);
    SliceOfFront(f, tail, 8, 12);
    SliceOfFront(f, tail, 12, 16);
  }

  lemma WholeHeader(f: seq<byte>)
    requires IsFrame(f)
    ensures BadHeader(f) <==> ShowsUnknown(f)
    ensures EndOfPayload(f) == |f|
  {
    assert f[..|f|] == f;
    PartialHeader(f, |f|);
  }

  lemma ParseWholeFirst(f: seq<byte>, tail: seq<byte>)
    requires IsFrame(f)
    ensures Parse(f + tail) == if ShowsUnknown(f) then ParseResult([], true) else After([Whole(Decode(f))], Parse(tail))
  {
    WholeHeader(f);
    HeaderOfFront(f, tail);
    assert (f + tail)[..|f|] == f && (f + tail)[|f|..] == tail;
    if !ShowsUnknown(f) {
      ParseUnfolds(f + tail);
    }
  }

  lemma {:induction false} ParseFramesThen(fs: seq<seq<byte>>, rest: seq<byte>)
    requires AllFrames(fs)
    ensures var k := KnownCount(fs);
      && AllFrames(fs[..k])
      && Parse(Concat(fs) + rest)
         == if k < |fs| then ParseResult(Wholes(fs[..k]), true) else After(Wholes(fs), Parse(rest))
  {
    if fs == [] {
      assert Concat(fs) + rest == rest;
    } else {
      assert IsFrame(fs[0]);
      ConcatThen(fs, rest);
      ParseWholeFirst(fs[0], Concat(fs[1..]) + rest);
      if !ShowsUnknown(fs[0]) {
        ParseFramesThen(fs[1..], rest);
        ParseStep(fs, rest);
      }
    }
  }

  lemma ConcatThen(fs: seq<seq<byte>>, rest: seq<byte>)
    requires fs != []
    ensures Concat(fs) + rest == fs[0] + (Concat(fs[1..]) + rest)
  {
  }

  lemma ParseStep(fs: seq<seq<byte>>, rest: seq<byte>)
    requires AllFrames(fs) && fs != [] && !ShowsUnknown(fs[0]) && AllFrames(fs[1..][..KnownCount(fs[1..])])
    requires var k := KnownCount(fs[1..]);
      Parse(Concat(fs[1..]) + rest)
      == if k < |fs| - 1 then ParseResult(Wholes(fs[1..][..k]), true) else After(Wholes(fs[1..]), Parse(rest))
    ensures var k := KnownCount(fs);
      && AllFrames(fs[..k])
      && After([Whole(Decode(fs[0]))], Parse(Concat(fs[1..]) + rest))
         == if k < |fs| then ParseResult(Wholes(fs[..k]), true) else After(Wholes(fs), Parse(rest))
  {
    var k := KnownCount(fs);
    TailOfTake(fs, k);
    if k == |fs| {
      AfterTwice([Whole(Decode(fs[0]))], Wholes(fs[1..]), Parse(rest));
    } else {
      assert Wholes(fs[..k]) == [Whole(Decode(fs[0]))] + Wholes(fs[1..][..k - 1]);
    }
  }

  lemma TailOfTake<T>(s: seq<T>, k: nat)
    requires 0 < k <= |s|
    ensures s[..k][1..] == s[1..][..k - 1] && s[..k][0] == s[0]
  {
  }

  lemma ParsePartial(f: seq<byte>, n: nat)
    requires IsFrame(f) && n < |f|
    ensures Parse(f[..n]) == if n == 0 then ParseResult([], false)
      else if n < 4 || ShowsUnknown(f[..n]) then ParseResult([], true) else ParseResult([Partial], false)
  {
    PartialHeader(f, n);
  }

  function AllWhole(ms: seq<Message>): seq<Parsed> {
    if ms == [] then [] else [Whole(ms[0])] + AllWhole(ms[1..])
  }

  predicate KnownMessage(m: Message) {
    InRange(m) && m.unitType <= LAST_UNIT_TYPE && m.packageType <= LAST_PACKAGE_TYPE
  }

  lemma {:induction false} KnownCountOfKnown(fs: seq<seq<byte>>)
    requires forall i :: 0 <= i < |fs| ==> !ShowsUnknown(fs[i])
    ensures KnownCount(fs) == |fs|
  {
    if fs != [] {
      KnownCountOfKnown(fs[1..]);
    }
  }

  /** Parsing undoes encoding on any concatenation of messages with known enum values. */
  lemma ParseUndoesEncode(ms: seq<Message>)
    requires forall i :: 0 <= i < |ms| ==> KnownMessage(ms[i])
    ensures Parse(Concat(EncodeEach(ms))) == ParseResult(AllWhole(ms), false)
  {
    var fs := EncodeEach(ms);
    CallsAreMessages(ms, {});
    forall i | 0 <= i < |ms| ensures fs[i] == Encode(ms[i]) && !ShowsUnknown(fs[i]) && Decode(fs[i]) == ms[i] {
      EncodeEachAt(ms, i);
      KnownMessageShowsNothing(ms[i]);
    }
    KnownCountOfKnown(fs);
    ParseFramesThen(fs, []);
    WholesOfEncodings(fs, ms);
    assert Concat(fs) + [] == Concat(fs);
  }

  lemma {:induction false} WholesOfEncodings(fs: seq<seq<byte>>, ms: seq<Message>)
    requires AllFrames(fs) && |fs| == |ms| && forall i :: 0 <= i < |ms| ==> |fs[i]| >= HEADER && Decode(fs[i]) == ms[i]
    ensures Wholes(fs) == AllWhole(ms)
  {
    if fs != [] {
      WholesOfEncodings(fs[1..], ms[1..]);
    }
  }

  /** A package type that only C++ peers know raises as soon as its field is there. */
  lemma RaisesOnUnknownType()
    ensures Parse(Encode(Message(0, 14, 0, 0, []))[..16]) == ParseResult([], true)
  {
    var m := Message(0, 14, 0, 0, []);
    EncodedMessage(m);
    UnknownIsShown(m, 16);
    ParsePartial(Encode(m), 16);
  }

  lemma KnownMessageShowsNothing(m: Message)
    requires InRange(m)
    ensures IsFrame(Encode(m)) && Decode(Encode(m)) == m && (ShowsUnknown(Encode(m)) <==> !KnownMessage(m))
  {
    EncodedMessage(m);
    SliceOfFront(Encode(m), [], 4, 8);
    SliceOfFront(Encode(m), [], 12, 16);
  }
}
