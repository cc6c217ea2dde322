/** The STUN attribute walk (native_client/internal/sentinel/networking.go),
    against the attribute format of sections 15, 15.1 and 15.2 of RFC 5389. */
module Stun {

  import opened Prelude

  type Word16 = x: int | 0 <= x < 0x10000
  type Word32 = x: int | 0 <= x < 0x1_0000_0000

  /** An IPv4 address and port; the source renders it as "a.b.c.d:port". */
  datatype Endpoint = Endpoint(a: Byte, b: Byte, c: Byte, d: Byte, port: Word16)

  const MAGIC: Word32 := 0x2112A442
  const XOR_MAPPED_ADDRESS: Word16 := 0x0020
  const MAPPED_ADDRESS: Word16 := 0x0001
  const HEADER := 20

  // binary.BigEndian

  function Uint16(b0: Byte, b1: Byte): Word16 {
    b0 * 256 + b1
  }

  function Uint32(b0: Byte, b1: Byte, b2: Byte, b3: Byte): Word32 {
    ((b0 * 256 + b1) * 256 + b2) * 256 + b3
  }

  /** byte(x >> 24), byte(x >> 16), byte(x >> 8) and byte(x). */
  function Octets(x: Word32): (Byte, Byte, Byte, Byte) {
    (x / 0x1000000, x / 0x10000 % 256, x / 0x100 % 256, x % 256)
  }

  /** Exclusive or of two words of n bits. */
  function Xor(x: nat, y: nat, n: nat): (r: nat)
    ensures r < Pow2(n)
  {
    if n == 0 then 0 else 2 * Xor(x / 2, y / 2, n - 1) + (x + y) % 2
  }

  function Xor16(x: Word16, y: Word16): Word16 {
    assert Pow2(16) == 0x10000 by { Pow2Values(); }
    Xor(x, y, 16)
  }

  function Xor32(x: Word32, y: Word32): Word32 {
    assert Pow2(32) == 0x1_0000_0000 by { Pow2Values(); }
    Xor(x, y, 32)
  }

  lemma Pow2Values()
    ensures Pow2(16) == 0x10000 && Pow2(32) == 0x1_0000_0000
  {
    assert Pow2(8) == 256;
    assert Pow2(16) == 0x10000;
    assert Pow2(24) == 0x1000000;
  }

  lemma LowBit(x: nat, y: nat, rest: nat)
    ensures var z := 2 * rest + (x + y) % 2;
            z / 2 == rest && 2 * (x / 2) + (z + y) % 2 == x
  {
    var z := 2 * rest + (x + y) % 2;
    assert x == 2 * (x / 2) + x % 2 && y == 2 * (y / 2) + y % 2;
    ParitySum(x, y);
    ParitySum(z, y);
    ParitySum(2 * rest, (x + y) % 2);
  }

  lemma ParitySum(x: nat, y: nat)
    ensures (x + y) % 2 == (if x % 2 == y % 2 then 0 else 1)
  {
    assert x + y == 2 * (x / 2 + y / 2) + (x % 2 + y % 2);
  }

  /** Padding after a value: attributes are aligned to 32 bits. */
  function Pad(length: nat): (p: nat)
    ensures p < 4 && (length + p) % 4 == 0
  {
    (4 - length % 4) % 4
  }

  /** The switch on the attribute type: the endpoint in an attribute, if it is a
      usable IPv4 one. */
  function Decode(kind: Word16, v: Bytes): Option<Endpoint> {
    DecodeWith(kind, v, Xor16, Xor32)
  }

  function DecodeWith(kind: Word16, v: Bytes, xor16: (Word16, Word16) -> Word16,
                      xor32: (Word32, Word32) -> Word32): Option<Endpoint>
  {
    if |v| < 8 || v[1] != 1 then None
    else if kind == XOR_MAPPED_ADDRESS then
      var ip := Octets(xor32(Uint32(v[4], v[5], v[6], v[7]), MAGIC));
      Some(Endpoint(ip.0, ip.1, ip.2, ip.3, xor16(Uint16(v[2], v[3]), MAGIC / 0x10000)))
    else if kind == MAPPED_ADDRESS then
      Some(Endpoint(v[4], v[5], v[6], v[7], Uint16(v[2], v[3])))
    else None
  }

  /** An attribute with its whole value is at the front of s. */
  predicate HasAttr(s: Bytes) {
    |s| >= 4 && 4 + Uint16(s[2], s[3]) <= |s|
  }

  function Kind(s: Bytes): Word16
    requires HasAttr(s)
  {
    Uint16(s[0], s[1])
  }

  function Value(s: Bytes): (v: Bytes)
    requires HasAttr(s)
    ensures |v| == Uint16(s[2], s[3])
  {
    s[4..4 + Uint16(s[2], s[3])]
  }

  /** What follows an attribute with a value of this length and its padding. */
  function Next(s: Bytes, length: nat): Bytes {
    if 4 + length + Pad(length) <= |s| then s[4 + length + Pad(length)..] else []
  }

  /** Bit i of x, counted from the lowest. */
  function Bit(x: nat, i: nat): nat {
    if i == 0 then x % 2 else Bit(x / 2, i - 1)
  }

  type Xoring = (nat, nat, nat) -> nat

  /** The lowest bit, and the rest. Words are taken apart below by any operation
      that works in this way. */
  predicate BitFirst(xor: Xoring, x: nat, y: nat, n: nat) {
    n > 0 ==> xor(x, y, n) == 2 * xor(x / 2, y / 2, n - 1) + (x + y) % 2
  }

  ghost predicate BitByBit(xor: Xoring) {
    && (forall x, y :: xor(x, y, 0) == 0)
    && (forall x, y, n: nat :: BitFirst(xor, x, y, n))
  }

  lemma XorBitByBit()
    ensures BitByBit(Xor)
  {}

  lemma LowBits(u: nat, v: nat, b: nat, d: nat)
    ensures (2 * u + b % 2) / 2 == u && (2 * v + d % 2) / 2 == v
    ensures (2 * u + b % 2 + (2 * v + d % 2)) % 2 == (b + d) % 2
  {
    ParitySum(b, d);
    ParitySum(2 * u + b % 2, 2 * v + d % 2);
  }

  /** Xor with the same word twice gives the first one back. */
  lemma {:induction false} XorTwice(xor: Xoring, x: nat, y: nat, n: nat)
    requires BitByBit(xor) && x < Pow2(n)
    ensures xor(xor(x, y, n), y, n) == x
  {
    if n > 0 {
      var rest, z := xor(x / 2, y / 2, n - 1), xor(x, y, n);
      XorTwice(xor, x / 2, y / 2, n - 1);
      assert BitFirst(xor, x, y, n) && BitFirst(xor, z, y, n);
      LowBit(x, y, rest);
    }
  }

  lemma {:induction false} BitsOf(xor: Xoring, x: nat, y: nat, n: nat, i: nat)
    requires BitByBit(xor) && i < n
    ensures Bit(xor(x, y, n), i) == if Bit(x, i) == Bit(y, i) then 0 else 1
  {
    assert BitFirst(xor, x, y, n);
    var rest := xor(x / 2, y / 2, n - 1);
    LowBit(x, y, rest);
    ParitySum(x, y);
    ParitySum(2 * rest, (x + y) % 2);
    if i > 0 {
      BitsOf(xor, x / 2, y / 2, n - 1, i - 1);
    }
  }

  /** A bit of the exclusive or is set exactly where the words' bits differ. */
  lemma XorBits(x: nat, y: nat, n: nat, i: nat)
    requires i < n
    ensures Bit(Xor(x, y, n), i) == if Bit(x, i) == Bit(y, i) then 0 else 1
  {
    XorBitByBit();
    BitsOf(Xor, x, y, n, i);
  }

  lemma Doubled(a: nat, p: nat, b: nat)
    ensures a * (2 * p) + b == 2 * (a * p + b / 2) + b % 2
  {}

  lemma DoubledSum(whole: nat, high: nat, p: nat, low: nat, bit: nat)
    requires whole == high * p + low
    ensures 2 * whole + bit == high * (2 * p) + (2 * low + bit)
  {}

  /** The exclusive or of two words is that of their parts. */
  lemma {:induction false} XorSplit(xor: Xoring, a: nat, b: nat, c: nat, d: nat, n: nat, k: nat)
    requires BitByBit(xor) && b < Pow2(k) && d < Pow2(k)
    ensures xor(a * Pow2(k) + b, c * Pow2(k) + d, n + k) == xor(a, c, n) * Pow2(k) + xor(b, d, k)
  {
    if k > 0 {
      var p := Pow2(k - 1);
      var u, v := a * p + b / 2, c * p + d / 2;
      XorSplit(xor, a, b / 2, c, d / 2, n, k - 1);
      Doubled(a, p, b);
      Doubled(c, p, d);
      LowBits(u, v, b, d);
      assert BitFirst(xor, 2 * u + b % 2, 2 * v + d % 2, n + k) && BitFirst(xor, b, d, k);
      DoubledSum(xor(u, v, n + k - 1), xor(a, c, n), p, xor(b / 2, d / 2, k - 1), (b + d) % 2);
    }
  }

  lemma XorSplit8(xor: Xoring, x: nat, y: nat, a: nat, b: Byte, c: nat, d: Byte, n: nat, m: nat)
    requires BitByBit(xor) && x == a * 256 + b && y == c * 256 + d && m == n + 8
    ensures xor(x, y, m) == xor(a, c, n) * 256 + xor(b, d, 8)
  {
    assert Pow2(8) == 256;
    XorSplit(xor, a, b, c, d, n, 8);
  }

  lemma XorTwoBytes(xor: Xoring, b0: Byte, b1: Byte, d0: Byte, d1: Byte)
    requires BitByBit(xor)
    ensures xor(Uint16(b0, b1), Uint16(d0, d1), 16) == xor(b0, d0, 8) * 256 + xor(b1, d1, 8)
  {
    XorSplit8(xor, Uint16(b0, b1), Uint16(d0, d1), b0, b1, d0, d1, 8, 16);
  }

  lemma XorFourBytes(xor: Xoring, b0: Byte, b1: Byte, b2: Byte, b3: Byte, d0: Byte, d1: Byte, d2: Byte, d3: Byte)
    requires BitByBit(xor)
    ensures xor(Uint32(b0, b1, b2, b3), Uint32(d0, d1, d2, d3), 32)
            == ((xor(b0, d0, 8) * 256 + xor(b1, d1, 8)) * 256 + xor(b2, d2, 8)) * 256 + xor(b3, d3, 8)
  {
    var x2, y2 := b0 * 256 + b1, d0 * 256 + d1;
    var x3, y3 := x2 * 256 + b2, y2 * 256 + d2;
    XorSplit8(xor, Uint32(b0, b1, b2, b3), Uint32(d0, d1, d2, d3), x3, b3, y3, d3, 24, 32);
    XorSplit8(xor, x3, y3, x2, b2, y2, d2, 16, 24);
    XorSplit8(xor, x2, y2, b0, b1, d0, d1, 8, 16);
  }

  function Xor8(x: Byte, y: Byte): Byte {
    assert Pow2(8) == 256;
    Xor(x, y, 8)
  }

  lemma XorPort(b0: Byte, b1: Byte)
    ensures Xor16(Uint16(b0, b1), 0x2112) == Uint16(Xor8(b0, 0x21), Xor8(b1, 0x12))
  {
    XorBitByBit();
    XorTwoBytes(Xor, b0, b1, 0x21, 0x12);
    assert Uint16(0x21, 0x12) == 0x2112;
  }

  lemma XorAddress(b0: Byte, b1: Byte, b2: Byte, b3: Byte)
    ensures Xor32(Uint32(b0, b1, b2, b3), MAGIC)
            == Uint32(Xor8(b0, 0x21), Xor8(b1, 0x12), Xor8(b2, 0xA4), Xor8(b3, 0x42))
  {
    XorBitByBit();
    XorFourBytes(Xor, b0, b1, b2, b3, 0x21, 0x12, 0xA4, 0x42);
    assert Uint32(0x21, 0x12, 0xA4, 0x42) == MAGIC;
  }

  /** Exactly which attributes give which endpoint: XOR-MAPPED-ADDRESS, its bytes
      xored with those of the magic cookie 21 12 A4 42, and MAPPED-ADDRESS; both
      of family IPv4. */
  lemma DecodesIff(kind: Word16, v: Bytes, e: Endpoint)
    ensures Decode(kind, v) == Some(e) <==>
              && |v| >= 8 && v[1] == 1
              && (|| (kind == 0x0020
                      && e.port / 256 == Xor8(v[2], 0x21) && e.port % 256 == Xor8(v[3], 0x12)
                      && e.a == Xor8(v[4], 0x21) && e.b == Xor8(v[5], 0x12)
                      && e.c == Xor8(v[6], 0xA4) && e.d == Xor8(v[7], 0x42))
                  || (kind == 0x0001
                      && e.port / 256 == v[2] && e.port % 256 == v[3]
                      && e.a == v[4] && e.b == v[5] && e.c == v[6] && e.d == v[7]))
  {
    if |v| >= 8 {
      XorPort(v[2], v[3]);
      XorAddress(v[4], v[5], v[6], v[7]);
      DecodesGiven(kind, v, e, Xor16, Xor32, [Xor8(v[2], 0x21), Xor8(v[3], 0x12), Xor8(v[4], 0x21),
                                              Xor8(v[5], 0x12), Xor8(v[6], 0xA4), Xor8(v[7], 0x42)]);
    }
  }

  lemma DecodesGiven(kind: Word16, v: Bytes, e: Endpoint, xor16: (Word16, Word16) -> Word16,
                     xor32: (Word32, Word32) -> Word32, x: Bytes)
    requires |v| >= 8 && |x| == 6
    requires xor16(Uint16(v[2], v[3]), 0x2112) == Uint16(x[0], x[1])
    requires xor32(Uint32(v[4], v[5], v[6], v[7]), 0x2112A442) == Uint32(x[2], x[3], x[4], x[5])
    ensures DecodeWith(kind, v, xor16, xor32) == Some(e) <==>
              && v[1] == 1
              && (|| (kind == 0x0020 && e.port / 256 == x[0] && e.port % 256 == x[1]
                      && e.a == x[2] && e.b == x[3] && e.c == x[4] && e.d == x[5])
                  || (kind == 0x0001 && e.port / 256 == v[2] && e.port % 256 == v[3]
                      && e.a == v[4] && e.b == v[5] && e.c == v[6] && e.d == v[7]))
  {
    Uint32Inverse(x[2], x[3], x[4], x[5]);
  }

  /** How an attribute's type and value yield an endpoint: Decode, except that
      the walk is proved for any such function. */
  type Decoder = (Word16, Bytes) -> Option<Endpoint>

  /** The walk over the attributes in s. */
  function Walk(s: Bytes, decode: Decoder): Option<Endpoint>
    decreases |s|
  {
    if !HasAttr(s) then None
    else
      var found := decode(Kind(s), Value(s));
      if found.Some? then found else Walk(Next(s, |Value(s)|), decode)
  }

  /** parseSTUNMappedAddress; total on every buffer. */
  function Parse(buf: Bytes): Option<Endpoint> {
    if |buf| < HEADER then None else Walk(buf[HEADER..], Decode)
  }

  function From(buf: Bytes, pos: nat): Bytes {
    if pos <= |buf| then buf[pos..] else []
  }

  method ParseSTUNMappedAddress(buf: Bytes) returns (r: Option<Endpoint>)
    ensures r == Parse(buf)
  {
    if |buf| < 20 {
      return None;
    }
    r := WalkBuffer(buf, Decode);
    WalkAtIsWalk(buf, 20, Decode);
  }

  /** The walk from a byte position of the whole buffer. */
  function WalkAt(buf: Bytes, pos: nat, decode: Decoder): Option<Endpoint>
    decreases |buf| - pos
  {
    if pos + 4 > |buf| then None
    else
      var length := Uint16(buf[pos + 2], buf[pos + 3]);
      var end := pos + 4 + length;
      if end > |buf| then None
      else
        var found := decode(Uint16(buf[pos], buf[pos + 1]), buf[pos + 4..end]);
        if found.Some? then found else WalkAt(buf, end + Pad(length), decode)
  }

  /** The loop over the attributes; `decode` is the switch on their type. */
  method WalkBuffer(buf: Bytes, decode: Decoder) returns (r: Option<Endpoint>)
    ensures r == WalkAt(buf, 20, decode)
  {
    var pos := 20;
    while pos + 4 <= |buf|
      invariant 0 <= pos && WalkAt(buf, pos, decode) == WalkAt(buf, 20, decode)
      decreases |buf| - pos
    {
      var attr := Uint16(buf[pos], buf[pos + 1]);
      var length := Uint16(buf[pos + 2], buf[pos + 3]);
      var valStart := pos + 4;
      var valEnd := valStart + length;
      if valEnd > |buf| {
        return None;
      }
      var found := decode(attr, buf[valStart..valEnd]);
      if found.Some? {
        return found;
      }
      var pad := (4 - length % 4) % 4;
      pos := valEnd + pad;
    }
    return None;
  }

  lemma FrontFrom(buf: Bytes, pos: nat)
    requires pos + 4 <= |buf|
    ensures var s, end := From(buf, pos), pos + 4 + Uint16(buf[pos + 2], buf[pos + 3]);
            && (HasAttr(s) <==> end <= |buf|)
            && (HasAttr(s) ==> Kind(s) == Uint16(buf[pos], buf[pos + 1]) && Value(s) == buf[pos + 4..end])
  {
    var s := From(buf, pos);
    assert s[0] == buf[pos] && s[1] == buf[pos + 1] && s[2] == buf[pos + 2] && s[3] == buf[pos + 3];
  }

  /** Walking by position is walking the rest of the buffer. */
  lemma {:induction false} WalkAtIsWalk(buf: Bytes, pos: nat, decode: Decoder)
    ensures WalkAt(buf, pos, decode) == Walk(From(buf, pos), decode)
    decreases |buf| - pos
  {
    if pos + 4 > |buf| {
      assert !HasAttr(From(buf, pos));
    } else {
      FrontFrom(buf, pos);
      if HasAttr(From(buf, pos)) {
        var length := Uint16(buf[pos + 2], buf[pos + 3]);
        NextFrom(buf, pos, length);
        WalkAtIsWalk(buf, pos + 4 + length + Pad(length), decode);
      }
    }
  }

  lemma NextFrom(buf: Bytes, pos: nat, length: nat)
    requires pos <= |buf|
    ensures Next(From(buf, pos), length) == From(buf, pos + 4 + length + Pad(length))
  {}

  // ---------- the wire format ----------

  datatype Attr = Attr(kind: Word16, value: Bytes, padding: Bytes) {
    ghost predicate Valid() {
      |value| < 0x10000 && |padding| == Pad(|value|)
    }
  }

  function PutUint16(x: Word16): Bytes {
    [x / 256, x % 256]
  }

  /** Type, length and value, without the padding. */
  function Unpadded(a: Attr): Bytes
    requires |a.value| < 0x10000
  {
    PutUint16(a.kind) + PutUint16(|a.value|) + a.value
  }

  ghost predicate AllValid(attrs: seq<Attr>) {
    forall i :: 0 <= i < |attrs| ==> attrs[i].Valid()
  }

  function Serialize(attrs: seq<Attr>): Bytes
    requires AllValid(attrs)
  {
    if attrs == [] then [] else Unpadded(attrs[0]) + attrs[0].padding + Serialize(attrs[1..])
  }

  /** The first attribute that holds a usable address, decoded. */
  function FirstMapped(attrs: seq<Attr>, decode: Decoder): Option<Endpoint> {
    if attrs == [] then None
    else if decode(attrs[0].kind, attrs[0].value).Some? then decode(attrs[0].kind, attrs[0].value)
    else FirstMapped(attrs[1..], decode)
  }

  lemma FrontOfSerialized(a: Attr, rest: Bytes)
    requires |a.value| < 0x10000
    ensures var s := Unpadded(a) + rest; HasAttr(s) && Kind(s) == a.kind && Value(s) == a.value
  {
    var s := Unpadded(a) + rest;
    assert s[0] == a.kind / 256 && s[1] == a.kind % 256;
    assert s[2] == |a.value| / 256 && s[3] == |a.value| % 256;
    assert s[4..4 + |a.value|] == a.value;
  }

  lemma NextOfSerialized(a: Attr, rest: Bytes)
    requires a.Valid()
    ensures Next(Unpadded(a) + (a.padding + rest), |a.value|) == rest
  {
    var s := Unpadded(a) + a.padding;
    assert Unpadded(a) + (a.padding + rest) == s + rest && |s| == 4 + |a.value| + Pad(|a.value|);
  }

  /** The walk passes over attributes without a usable address. */
  lemma {:induction false} WalkSkips(attrs: seq<Attr>, rest: Bytes, decode: Decoder)
    requires AllValid(attrs) && FirstMapped(attrs, decode) == None
    ensures Walk(Serialize(attrs) + rest, decode) == Walk(rest, decode)
    decreases |attrs|
  {
    if attrs == [] {
      assert Serialize(attrs) + rest == rest;
    } else {
      var a, more := attrs[0], Serialize(attrs[1..]);
      assert Serialize(attrs) + rest == Unpadded(a) + (a.padding + (more + rest));
      FrontOfSerialized(a, a.padding + (more + rest));
      NextOfSerialized(a, more + rest);
      WalkSkips(attrs[1..], rest, decode);
    }
  }

  /** A usable address is found behind any attributes without one, whatever
      follows it. */
  lemma FoundAfter(before: seq<Attr>, a: Attr, rest: Bytes, decode: Decoder)
    requires AllValid(before) && FirstMapped(before, decode) == None
    requires |a.value| < 0x10000 && decode(a.kind, a.value).Some?
    ensures Walk(Serialize(before) + (Unpadded(a) + rest), decode) == decode(a.kind, a.value)
  {
    WalkSkips(before, Unpadded(a) + rest, decode);
    FrontOfSerialized(a, rest);
  }

  lemma {:induction false} WalksSerialized(attrs: seq<Attr>, tail: Bytes, decode: Decoder)
    requires AllValid(attrs) && |tail| < 4
    ensures Walk(Serialize(attrs) + tail, decode) == FirstMapped(attrs, decode)
    decreases |attrs|
  {
    if attrs == [] {
      assert Serialize(attrs) + tail == tail;
    } else {
      var a, more := attrs[0], Serialize(attrs[1..]);
      assert Serialize(attrs) + tail == Unpadded(a) + (a.padding + (more + tail));
      FrontOfSerialized(a, a.padding + (more + tail));
      NextOfSerialized(a, more + tail);
      WalksSerialized(attrs[1..], tail, decode);
    }
  }

  /** On a well-formed message the result is the first usable address, and none
      if there is none; a tail too short for another attribute is ignored. */
  lemma ParsesSerialized(header: Bytes, attrs: seq<Attr>, tail: Bytes)
    requires |header| == HEADER && AllValid(attrs) && |tail| < 4
    ensures Parse(header + (Serialize(attrs) + tail)) == FirstMapped(attrs, Decode)
  {
    assert (header + (Serialize(attrs) + tail))[HEADER..] == Serialize(attrs) + tail;
    WalksSerialized(attrs, tail, Decode);
  }

  /** s starts with the attributes `before` and then `a` up to its value; none of
      `before` is usable and `a` decodes to e. */
  ghost predicate Announces(s: Bytes, before: seq<Attr>, a: Attr, e: Endpoint, decode: Decoder) {
    && AllValid(before) && |a.value| < 0x10000
    && Serialize(before) + Unpadded(a) <= s
    && FirstMapped(before, decode) == None && decode(a.kind, a.value) == Some(e)
  }

  /** The bytes of the attribute at the front of s. */
  lemma FrontIsUnpadded(s: Bytes)
    requires HasAttr(s)
    ensures |Value(s)| < 0x10000 && Unpadded(Attr(Kind(s), Value(s), [])) == s[..4 + |Value(s)|]
  {
    PutUint16Inverse(s[0], s[1]);
    PutUint16Inverse(s[2], s[3]);
    assert s[..4 + |Value(s)|] == [s[0], s[1]] + [s[2], s[3]] + Value(s);
  }

  lemma PutUint16Inverse(b0: Byte, b1: Byte)
    ensures PutUint16(Uint16(b0, b1)) == [b0, b1]
  {}

  /** An address is only reported if the buffer announces it. */
  lemma {:induction false} OnlyAnnounced(s: Bytes, decode: Decoder) returns (before: seq<Attr>, a: Attr)
    requires Walk(s, decode).Some?
    ensures Announces(s, before, a, Walk(s, decode).value, decode)
    decreases |s|
  {
    FrontIsUnpadded(s);
    var kind, v := Kind(s), Value(s);
    if decode(kind, v).Some? {
      before, a := [], Attr(kind, v, []);
      assert Serialize(before) + Unpadded(a) == Unpadded(a);
    } else {
      var end := 4 + |v| + Pad(|v|);
      var more, last := OnlyAnnounced(Next(s, |v|), decode);
      NotAtEnd(s, |v|, decode);
      var here := Attr(kind, v, s[4 + |v|..end]);
      before, a := [here] + more, last;
      AnnouncesLater(s, here, more, last, Walk(s, decode).value, decode);
    }
  }

  lemma NotAtEnd(s: Bytes, length: nat, decode: Decoder)
    requires Walk(Next(s, length), decode).Some?
    ensures 4 + length + Pad(length) <= |s|
  {}

  lemma AnnouncesLater(s: Bytes, here: Attr, more: seq<Attr>, last: Attr, e: Endpoint, decode: Decoder)
    requires here.Valid() && decode(here.kind, here.value).None?
    requires 4 + |here.value| + |here.padding| <= |s|
    requires Unpadded(here) + here.padding == s[..4 + |here.value| + |here.padding|]
    requires Announces(s[4 + |here.value| + |here.padding|..], more, last, e, decode)
    ensures Announces(s, [here] + more, last, e, decode)
  {
    var before := [here] + more;
    assert before[0] == here && before[1..] == more;
    var n := 4 + |here.value| + |here.padding|;
    assert Serialize(before) + Unpadded(last) == s[..n] + (Serialize(more) + Unpadded(last));
    assert s == s[..n] + s[n..];
  }

  /** Exactly when an endpoint is returned. */
  lemma ParsesIff(buf: Bytes, e: Endpoint)
    ensures Parse(buf) == Some(e) <==>
            |buf| >= 20 && exists before, a :: Announces(buf[20..], before, a, e, Decode)
  {
    if |buf| < 20 {
      return;
    }
    var s := buf[20..];
    if Parse(buf) == Some(e) {
      var before, a := OnlyAnnounced(s, Decode);
    }
    if exists before, a :: Announces(s, before, a, e, Decode) {
      var before, a :| Announces(s, before, a, e, Decode);
      AnnouncedFound(s, before, a, e, Decode);
    }
  }

  lemma AnnouncedFound(s: Bytes, before: seq<Attr>, a: Attr, e: Endpoint, decode: Decoder)
    requires Announces(s, before, a, e, decode)
    ensures Walk(s, decode) == Some(e)
  {
    var used := Serialize(before) + Unpadded(a);
    assert s == Serialize(before) + (Unpadded(a) + s[|used|..]);
    FoundAfter(before, a, s[|used|..], decode);
  }

  // ---------- a server's encoding of its client's address ----------

  function MappedValue(e: Endpoint): Bytes {
    [0, 1] + PutUint16(e.port) + [e.a, e.b, e.c, e.d]
  }

  /** Port and address xored with the bytes of the magic cookie. */
  function XorMappedValue(e: Endpoint): Bytes {
    [0, 1, Xor8(e.port / 256, 0x21), Xor8(e.port % 256, 0x12),
     Xor8(e.a, 0x21), Xor8(e.b, 0x12), Xor8(e.c, 0xA4), Xor8(e.d, 0x42)]
  }

  lemma Horner(h: nat, d: Byte)
    ensures (h * 256 + d) / 256 == h && (h * 256 + d) % 256 == d
  {}

  lemma ShiftTwice(x: nat)
    ensures x / 0x10000 == x / 256 / 256 && x / 0x1000000 == x / 256 / 256 / 256
  {}

  lemma Uint32Inverse(a: Byte, b: Byte, c: Byte, d: Byte)
    ensures Octets(Uint32(a, b, c, d)) == (a, b, c, d)
  {
    Horner((a * 256 + b) * 256 + c, d);
    Horner(a * 256 + b, c);
    Horner(a, b);
    ShiftTwice(Uint32(a, b, c, d));
  }

  lemma DecodesMapped(e: Endpoint)
    ensures Decode(MAPPED_ADDRESS, MappedValue(e)) == Some(e)
  {}

  lemma Xor8Twice(x: Byte, y: Byte)
    ensures Xor8(Xor8(x, y), y) == x
  {
    assert Pow2(8) == 256;
    XorBitByBit();
    XorTwice(Xor, x, y, 8);
  }

  lemma DecodesXorMapped(e: Endpoint)
    ensures Decode(XOR_MAPPED_ADDRESS, XorMappedValue(e)) == Some(e)
  {
    DecodesIff(XOR_MAPPED_ADDRESS, XorMappedValue(e), e);
    Xor8Twice(e.port / 256, 0x21);
    Xor8Twice(e.port % 256, 0x12);
    Xor8Twice(e.a, 0x21);
    Xor8Twice(e.b, 0x12);
    Xor8Twice(e.c, 0xA4);
    Xor8Twice(e.d, 0x42);
  }

  /** End to end: from a well-formed message whose first usable attribute is the
      server's XOR-MAPPED-ADDRESS or MAPPED-ADDRESS of e, e is recovered. */
  lemma RecoversEndpoint(header: Bytes, before: seq<Attr>, e: Endpoint, xored: bool, after: seq<Attr>)
    requires |header| == HEADER && AllValid(before) && AllValid(after) && FirstMapped(before, Decode) == None
    ensures var a := if xored then Attr(XOR_MAPPED_ADDRESS, XorMappedValue(e), [])
                     else Attr(MAPPED_ADDRESS, MappedValue(e), []);
            Parse(header + (Serialize(before) + (Unpadded(a) + Serialize(after)))) == Some(e)
  {
    var a := if xored then Attr(XOR_MAPPED_ADDRESS, XorMappedValue(e), [])
             else Attr(MAPPED_ADDRESS, MappedValue(e), []);
    DecodesMapped(e);
    DecodesXorMapped(e);
    FoundAfter(before, a, Serialize(after), Decode);
    var s := Serialize(before) + (Unpadded(a) + Serialize(after));
    assert (header + s)[HEADER..] == s;
  }
}
