/**
  The wire format shared by the C++ and the Python side: a 32-byte little-endian header
  (delimiter, unit type, payload size, package type, source and target uuid) and the payload.
 */
module Wire {

  type byte = b: int | 0 <= b < 256

  const HEADER: nat := 32
  const START_DELIM: nat := 0x5ADB0BB1

  // ---- Little-endian integers ----

  function Pow256(w: nat): nat {
    if w == 0 then 1 else 256 * Pow256(w - 1)
  }

  function LittleEndian(n: nat, width: nat): (s: seq<byte>)
    ensures |s| == width
  {
    if width == 0 then [] else [n % 256] + LittleEndian(n / 256, width - 1)
  }

  function Value(s: seq<byte>): nat {
    if s == [] then 0 else s[0] + 256 * Value(s[1..])
  }

  lemma {:induction false} ValueOfLittleEndian(n: nat, width: nat)
    requires n < Pow256(width)
    ensures Value(LittleEndian(n, width)) == n
  {
    if width > 0 {
      ValueOfLittleEndian(n / 256, width - 1);
      assert LittleEndian(n, width)[1..] == LittleEndian(n / 256, width - 1);
    }
  }

  lemma {:induction false} LittleEndianOfValue(s: seq<byte>)
    ensures LittleEndian(Value(s), |s|) == s && Value(s) < Pow256(|s|)
  {
    if s != [] {
      LittleEndianOfValue(s[1..]);
      assert Value(s) % 256 == s[0] && Value(s) / 256 == Value(s[1..]);
    }
  }

  lemma PowIsPositive(w: nat)
    ensures Pow256(w) > 0
  {
  }

  lemma MultipleIsLarge(d: int, k: int)
    requires d > 0 && k >= 1
    ensures d * k >= d
  {
  }

  lemma SmallMultiple(d: int, k: int)
    requires d > 0 && 0 - d < d * k < d
    ensures k == 0
  {
    if k >= 1 {
      MultipleIsLarge(d, k);
    } else if k <= -1 {
      MultipleIsLarge(d, -k);
    }
  }

  lemma SameQuotient(d: nat, k: int, q: int, r: nat, rem: nat)
    requires r < d && rem < d && d * k + r == d * q + rem
    ensures k == q && r == rem
  {
    assert d * (k - q) == d * k - d * q;
    SmallMultiple(d, k - q);
  }

  lemma DivideAndMultiply(n: nat, d: nat)
    requires d > 0
    ensures n == d * (n / d) + n % d && n % d < d
  {
  }

  lemma DivisionIsUnique(n: nat, d: nat, q: nat, rem: nat)
    requires d > 0 && n == d * q + rem && rem < d
    ensures n / d == q && n % d == rem
  {
    DivideAndMultiply(n, d);
    SameQuotient(d, n / d, q, n % d, rem);
  }

  /** Dividing by 256 first and then by the rest. */
  lemma DivideTwice(n: nat, b: nat)
    requires b > 0
    ensures n / (256 * b) == n / 256 / b && n % (256 * b) == n % 256 + 256 * (n / 256 % b)
  {
    var q, r := n / 256 / b, n / 256 % b;
    assert n / 256 == b * q + r;
    assert n == 256 * (b * q) + (256 * r + n % 256);
    assert 256 * (b * q) == (256 * b) * q;
    DivisionIsUnique(n, 256 * b, q, 256 * r + n % 256);
  }

  /** The lowest digit comes first. */
  lemma {:induction false} DigitOfLittleEndian(n: nat, width: nat, i: nat)
    requires i < width
    ensures Pow256(i) > 0 && LittleEndian(n, width)[i] == n / Pow256(i) % 256
  {
    PowIsPositive(i);
    if i > 0 {
      DigitOfLittleEndian(n / 256, width - 1, i - 1);
      DivideTwice(n, Pow256(i - 1));
    }
  }

  /** The first `k` bytes of an integer are the integer modulo what they can hold. */
  lemma {:induction false} TruncatedIsModulo(n: nat, width: nat, k: nat)
    requires k <= width
    ensures Pow256(k) > 0 && Value(LittleEndian(n, width)[..k]) == n % Pow256(k)
  {
    PowIsPositive(k);
    if k > 0 {
      var s := LittleEndian(n, width);
      TruncatedIsModulo(n / 256, width - 1, k - 1);
      assert s[..k][1..] == LittleEndian(n / 256, width - 1)[..k - 1];
      DivideTwice(n, Pow256(k - 1));
    }
  }

  /** Reading only the first bytes of an integer never gives more than the integer. */
  lemma {:induction false} TruncatedValue(n: nat, width: nat, k: nat)
    requires k <= width
    ensures Value(LittleEndian(n, width)[..k]) <= n
  {
    if k > 0 {
      var s := LittleEndian(n, width);
      TruncatedValue(n / 256, width - 1, k - 1);
      assert s[..k][1..] == LittleEndian(n / 256, width - 1)[..k - 1];
    }
  }

  // ---- Messages ----

  datatype Message = Message(unitType: nat, packageType: nat, src: nat, tgt: nat, payload: seq<byte>)

  /** All fields fit their width on the wire. */
  predicate InRange(m: Message) {
    && m.unitType < 0x1_0000_0000 && m.packageType < 0x1_0000_0000 && |m.payload| < 0x1_0000_0000
    && m.src < 0x1_0000_0000_0000_0000 && m.tgt < 0x1_0000_0000_0000_0000
  }

  function DelimBytes(): (s: seq<byte>)
    ensures |s| == 4
  {
    LittleEndian(START_DELIM, 4)
  }

  lemma DelimiterBytes()
    ensures DelimBytes() == [0xB1, 0x0B, 0xDB, 0x5A]
  {
    assert LittleEndian(START_DELIM, 4) == [0xB1] + LittleEndian(0x5ADB0B, 3);
    assert LittleEndian(0x5ADB0B, 3) == [0x0B] + LittleEndian(0x5ADB, 2);
    assert LittleEndian(0x5ADB, 2) == [0xDB] + LittleEndian(0x5A, 1);
    assert LittleEndian(0x5A, 1) == [0x5A] + LittleEndian(0, 0);
  }

  /** Six fields of 4, 4, 4, 4, 8 and 8 bytes. */
  function Layout(a: seq<byte>, b: seq<byte>, c: seq<byte>, d: seq<byte>, e: seq<byte>, f: seq<byte>): seq<byte> {
    a + b + c + d + e + f
  }

  function EncodeHeader(m: Message, payloadSize: nat): (s: seq<byte>)
    ensures |s| == HEADER
  {
    Layout(DelimBytes(), LittleEndian(m.unitType, 4), LittleEndian(payloadSize, 4),
           LittleEndian(m.packageType, 4), LittleEndian(m.src, 8), LittleEndian(m.tgt, 8))
  }

  function Encode(m: Message): (s: seq<byte>)
    ensures |s| == HEADER + |m.payload|
  {
    EncodeHeader(m, |m.payload|) + m.payload
  }

  /** The message in a whole frame; no check of the delimiter. */
  function Decode(s: seq<byte>): Message
    requires |s| >= HEADER
  {
    Message(Value(s[4..8]), Value(s[12..16]), Value(s[16..24]), Value(s[24..32]), s[HEADER..])
  }

  lemma LayoutFields(a: seq<byte>, b: seq<byte>, c: seq<byte>, d: seq<byte>, e: seq<byte>, f: seq<byte>,
                     tail: seq<byte>)
    requires |a| == 4 && |b| == 4 && |c| == 4 && |d| == 4 && |e| == 8 && |f| == 8
    ensures var s := Layout(a, b, c, d, e, f) + tail;
      && s[0..4] == a && s[4..8] == b && s[8..12] == c && s[12..16] == d && s[16..24] == e && s[24..32] == f
      && s[HEADER..] == tail
  {
    var s := Layout(a, b, c, d, e, f) + tail;
    assert s == a + (b + (c + (d + (e + (f + tail)))));
  }

  lemma LayoutOfFields(s: seq<byte>)
    requires |s| >= HEADER
    ensures Layout(s[..4], s[4..8], s[8..12], s[12..16], s[16..24], s[24..32]) + s[HEADER..] == s
  {
  }

  lemma PowersOf256()
    ensures Pow256(4) == 0x1_0000_0000 && Pow256(8) == 0x1_0000_0000_0000_0000
  {
    assert Pow256(1) == 256 && Pow256(2) == 0x1_0000 && Pow256(3) == 0x100_0000;
    assert Pow256(5) == 0x100_0000_0000 && Pow256(6) == 0x1_0000_0000_0000;
  }

  lemma FieldsOfEncoding(m: Message)
    ensures var s := Encode(m);
      && s[0..4] == DelimBytes() && s[4..8] == LittleEndian(m.unitType, 4)
      && s[8..12] == LittleEndian(|m.payload|, 4) && s[12..16] == LittleEndian(m.packageType, 4)
      && s[16..24] == LittleEndian(m.src, 8) && s[24..32] == LittleEndian(m.tgt, 8)
      && s[HEADER..] == m.payload
  {
    LayoutFields(DelimBytes(), LittleEndian(m.unitType, 4), LittleEndian(|m.payload|, 4),
                 LittleEndian(m.packageType, 4), LittleEndian(m.src, 8), LittleEndian(m.tgt, 8), m.payload);
  }

  /** Decoding undoes encoding. */
  lemma DecodeEncode(m: Message)
    requires InRange(m)
    ensures Decode(Encode(m)) == m && Value(Encode(m)[8..12]) == |m.payload|
  {
    FieldsOfEncoding(m);
    PowersOf256();
    ValueOfLittleEndian(m.unitType, 4);
    ValueOfLittleEndian(|m.payload|, 4);
    ValueOfLittleEndian(m.packageType, 4);
    ValueOfLittleEndian(m.src, 8);
    ValueOfLittleEndian(m.tgt, 8);
  }

  /** Encoding undoes decoding, on frames that start with the delimiter and have the size they name. */
  lemma EncodeDecode(s: seq<byte>)
    requires |s| >= HEADER && |s| == HEADER + Value(s[8..12]) && s[..4] == DelimBytes()
    ensures Encode(Decode(s)) == s && InRange(Decode(s))
  {
    var m := Decode(s);
    PowersOf256();
    LittleEndianOfValue(s[4..8]);
    LittleEndianOfValue(s[8..12]);
    LittleEndianOfValue(s[12..16]);
    LittleEndianOfValue(s[16..24]);
    LittleEndianOfValue(s[24..32]);
    LayoutOfFields(s);
  }

  // ---- The C++ writer ----

  function Overwrite(s: seq<byte>, offset: nat, bytes: seq<byte>): (r: seq<byte>)
    requires offset + |bytes| <= |s|
    ensures |r| == |s|
  {
    s[..offset] + bytes + s[offset + |bytes|..]
  }

  lemma OverwriteTwice(s: seq<byte>, a: seq<byte>, b: seq<byte>)
    requires |a| + |b| <= |s|
    ensures Overwrite(Overwrite(s, 0, a), |a|, b) == a + b + s[|a| + |b|..]
  {
  }

  lemma SizeFieldFits(info: Message, item: seq<byte>)
    ensures |item| < 0x1_0000_0000 ==>
      EncodeHeader(info, |item| % 0x1_0000_0000) + item == Encode(info.(payload := item))
  {
  }

  method WriteBytes(mem: array<byte>, offset: nat, bytes: seq<byte>)
    requires offset + |bytes| <= mem.Length
    modifies mem
    ensures mem[..] == Overwrite(old(mem[..]), offset, bytes)
  {
    ghost var s := mem[..];
    for i := 0 to |bytes|
      invariant forall j :: 0 <= j < mem.Length ==>
        mem[j] == if offset <= j < offset + i then bytes[j - offset] else s[j]
    {
      mem[offset + i] := bytes[i];
    }
    Overwritten(s, offset, bytes, mem[..]);
  }

  lemma Overwritten(s: seq<byte>, offset: nat, bytes: seq<byte>, r: seq<byte>)
    requires offset + |bytes| <= |s| == |r|
    requires forall j :: 0 <= j < |s| ==> r[j] == if offset <= j < offset + |bytes| then bytes[j - offset] else s[j]
    ensures r == Overwrite(s, offset, bytes)
  {
  }

  /**
    Writes header and payload; the payload's byte count is stored in the 32-bit size field. The memory
    behind the message is left alone.
   */
  method SerializeItemToMemory(mem: array<byte>, item: seq<byte>, info: Message) returns (size: nat)
    requires HEADER + |item| <= mem.Length
    modifies mem
    ensures size == HEADER + |item|
    ensures mem[..] == EncodeHeader(info, |item| % 0x1_0000_0000) + item + old(mem[..])[size..]
    ensures |item| < 0x1_0000_0000 ==> mem[..] == Encode(info.(payload := item)) + old(mem[..])[size..]
  {
    var header := EncodeHeader(info, |item| % 0x1_0000_0000);
    WriteBytes(mem, 0, header);
    WriteBytes(mem, HEADER, item);
    OverwriteTwice(old(mem[..]), header, item);
    SizeFieldFits(info, item);
    size := |item| + HEADER;
  }
}
