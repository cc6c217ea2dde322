/** End-to-end encryption envelopes as the Go client
    (native_client/internal/crypto/e2ee.go, native_client/main.go) and the web
    client (web/src/e2ee.ts) write and read them.

    A sealed field is "E2EE:" followed by the hex digits of nonce and box. The
    box itself is abstract. A text of Unicode scalar values is UTF-8 bytes to the
    Go client and UTF-16 code units to the web client; what the web client opens
    is given before text decoding. */
module Envelopes {

  import opened Prelude

  type Text = seq<nat>

  const NONCE_SIZE := 24

  const PREFIX: Bytes := [69, 50, 69, 69, 58]

  /** NaCl box: seal(message, nonce, theirPublic, mySecret) and
      open(box, nonce, theirPublic, mySecret). */
  datatype Box = Box(
    seal: (Bytes, Bytes, Key, Key) -> Bytes,
    open: (Bytes, Bytes, Key, Key) -> Option<Bytes>,
    publicOf: Key -> Key)
  {
    ghost predicate Correct() {
      forall m, n, a, b :: open(seal(m, n, publicOf(b), a), n, publicOf(a), b) == Some(m)
    }

    ghost predicate NeverGrows() {
      forall c, n, pub, priv :: open(c, n, pub, priv).Some? ==> |open(c, n, pub, priv).value| <= |c|
    }
  }

  // ---------- hex ----------

  function HexDigit(d: nat): Byte
    requires d < 16
  {
    if d < 10 then 48 + d else 87 + d
  }

  /** The value of a hex digit of either case, -1 for anything else. */
  function HexValue(c: nat): (v: int)
    ensures -1 <= v < 16
  {
    if 48 <= c <= 57 then c - 48
    else if 97 <= c <= 102 then c - 87
    else if 65 <= c <= 70 then c - 55
    else -1
  }

  function LowerCase(c: Byte): Byte {
    if 65 <= c <= 90 then c + 32 else c
  }

  /** hex.EncodeToString, and toHex. */
  function EncodeHex(b: Bytes): Bytes {
    seq(2 * |b|, i requires 0 <= i < 2 * |b| =>
      if i % 2 == 0 then HexDigit(b[i / 2] / 16) else HexDigit(b[i / 2] % 16))
  }

  predicate IsHex(h: Text) {
    |h| % 2 == 0 && forall i :: 0 <= i < |h| ==> HexValue(h[i]) >= 0
  }

  /** hex.DecodeString, which accepts both cases and nothing else. */
  function DecodeHex(h: Text): Option<Bytes> {
    if IsHex(h) then
      Some(seq(|h| / 2, i requires 0 <= i < |h| / 2 => 16 * HexValue(h[2 * i]) + HexValue(h[2 * i + 1])))
    else None
  }

  /** White space at the front of a number in JavaScript. */
  predicate IsJsSpace(c: nat) {
    || 9 <= c <= 13 || c == 32 || c == 160 || c == 0x1680 || 0x2000 <= c <= 0x200A
    || c == 0x2028 || c == 0x2029 || c == 0x202F || c == 0x205F || c == 0x3000 || c == 0xFEFF
  }

  /** parseInt(two characters, 16) stored in a Uint8Array: parseInt skips white
      space, takes a sign and reads the digits it finds; NaN is stored as 0. */
  function ParsePair(a: nat, b: nat): Byte {
    var x, y := HexValue(a), HexValue(b);
    if x >= 0 then (if y >= 0 then 16 * x + y else x)
    else if y < 0 then 0
    else if IsJsSpace(a) || a == 43 then y
    else if a == 45 then (256 - y) % 256
    else 0
  }

  function ParsePairs(h: Text): Bytes {
    seq(|h| / 2, i requires 0 <= i < |h| / 2 => ParsePair(h[2 * i], h[2 * i + 1]))
  }

  /** fromHex: total, and an odd last character is dropped. */
  method FromHex(h: Text) returns (r: Bytes)
    ensures r == ParsePairs(h)
    ensures IsHex(h) ==> DecodeHex(h) == Some(r)
  {
    var n := |h| / 2;
    var bytes := new Byte[n];
    for i := 0 to n
      invariant forall k :: 0 <= k < i ==> bytes[k] == ParsePair(h[2 * k], h[2 * k + 1])
    {
      bytes[i] := ParsePair(h[2 * i], h[2 * i + 1]);
    }
    r := bytes[..];
    if IsHex(h) {
      WebReadsGoHex(h);
    }
  }

  lemma EncodedDigits(b: Bytes, i: nat)
    requires i < |b|
    ensures HexValue(EncodeHex(b)[2 * i]) == b[i] / 16 && HexValue(EncodeHex(b)[2 * i + 1]) == b[i] % 16
  {
    assert (2 * i) / 2 == i && (2 * i + 1) / 2 == i;
  }

  /** Both decoders undo the encoder. */
  lemma HexRoundTrip(b: Bytes)
    ensures DecodeHex(EncodeHex(b)) == Some(b)
    ensures ParsePairs(EncodeHex(b)) == b
  {
    var h := EncodeHex(b);
    forall i | 0 <= i < |h|
      ensures HexValue(h[i]) >= 0
    {
      EncodedDigits(b, i / 2);
      assert i == 2 * (i / 2) || i == 2 * (i / 2) + 1;
    }
    assert IsHex(h);
    forall i | 0 <= i < |b|
      ensures DecodeHex(h).value[i] == b[i]
    {
      EncodedDigits(b, i);
    }
    assert DecodeHex(h).value == b;
    WebReadsGoHex(h);
  }

  /** The web decoder agrees with Go's wherever Go's accepts. */
  lemma WebReadsGoHex(h: Text)
    requires IsHex(h)
    ensures DecodeHex(h) == Some(ParsePairs(h))
  {
    forall i | 0 <= i < |h| / 2
      ensures ParsePair(h[2 * i], h[2 * i + 1]) == DecodeHex(h).value[i]
    {
      assert HexValue(h[2 * i]) >= 0 && HexValue(h[2 * i + 1]) >= 0;
    }
    assert DecodeHex(h).value == ParsePairs(h);
  }

  /** The encoder undoes the decoder, up to the case of the digits. */
  lemma EncodeUndoesDecode(h: Bytes)
    requires IsHex(h)
    ensures EncodeHex(DecodeHex(h).value) == seq(|h|, i requires 0 <= i < |h| => LowerCase(h[i]))
  {
    var b := DecodeHex(h).value;
    forall i | 0 <= i < |h|
      ensures EncodeHex(b)[i] == LowerCase(h[i])
    {
      PairUndone(h, i / 2);
      assert i == 2 * (i / 2) || i == 2 * (i / 2) + 1;
    }
  }

  lemma PairUndone(h: Bytes, k: nat)
    requires IsHex(h) && k < |h| / 2
    ensures var e := EncodeHex(DecodeHex(h).value);
            e[2 * k] == LowerCase(h[2 * k]) && e[2 * k + 1] == LowerCase(h[2 * k + 1])
  {
    var x, y := HexValue(h[2 * k]), HexValue(h[2 * k + 1]);
    assert x >= 0 && y >= 0 && DecodeHex(h).value[k] == 16 * x + y;
    DigitsOfPair(x, y);
    DigitOfValue(h[2 * k]);
    DigitOfValue(h[2 * k + 1]);
    assert (2 * k) / 2 == k && (2 * k + 1) / 2 == k;
  }

  lemma DigitsOfPair(x: int, y: int)
    requires 0 <= y < 16
    ensures (16 * x + y) / 16 == x && (16 * x + y) % 16 == y
  {}

  lemma DigitOfValue(c: Byte)
    requires HexValue(c) >= 0
    ensures HexDigit(HexValue(c)) == LowerCase(c)
  {}

  /** The digits: lower case when written, either case when read. */
  lemma HexDigitsOfBothCases(c: nat, v: nat)
    ensures v < 16 ==> HexDigit(v) == "0123456789abcdef"[v] as int
    ensures HexValue(c) == v <==>
              v < 16 && (c == "0123456789abcdef"[v] as int || c == "0123456789ABCDEF"[v] as int)
  {}

  // ---------- parseInt ----------

  /** parseInt(s, 16) in JavaScript (ECMA-262, section 19.2.5): white space, a
      sign, "0x", then as many hex digits as follow; None is NaN. */
  function ParseInt16(s: Text): Option<int> {
    if s == [] then None
    else if IsJsSpace(s[0]) then ParseInt16(s[1..])
    else if s[0] == 45 then Negated(ParseUnsigned(s[1..]))
    else if s[0] == 43 then ParseUnsigned(s[1..])
    else ParseUnsigned(s)
  }

  function Negated(n: Option<int>): Option<int> {
    if n.None? then None else Some(-n.value)
  }

  function ParseUnsigned(s: Text): Option<int> {
    var digits := if |s| >= 2 && s[0] == 48 && s[1] in {88, 120} then s[2..] else s;
    var n := DigitRun(digits);
    if n == 0 then None else Some(HexNumber(digits[..n]))
  }

  /** How many hex digits the text starts with. */
  function DigitRun(s: Text): (n: nat)
    ensures n <= |s|
    ensures forall i :: 0 <= i < n ==> HexValue(s[i]) >= 0
  {
    if s == [] || HexValue(s[0]) < 0 then 0 else 1 + DigitRun(s[1..])
  }

  function HexNumber(s: Text): nat
    requires forall i :: 0 <= i < |s| ==> HexValue(s[i]) >= 0
  {
    if s == [] then 0 else 16 * HexNumber(s[..|s| - 1]) + HexValue(s[|s| - 1])
  }

  /** A number stored into a Uint8Array: NaN as 0, others modulo 256. */
  function ToUint8(n: Option<int>): Byte {
    if n.None? then 0 else n.value % 256
  }

  lemma RunOfOne(c: nat)
    ensures DigitRun([]) == 0
    ensures DigitRun([c]) == if HexValue(c) >= 0 then 1 else 0
    ensures HexValue(c) >= 0 ==> HexNumber([c]) == HexValue(c)
  {
    assert [c][1..] == [] && [c][..0] == [];
  }

  lemma RunOfTwo(a: nat, b: nat)
    ensures DigitRun([a, b]) == if HexValue(a) < 0 then 0 else if HexValue(b) < 0 then 1 else 2
    ensures HexValue(a) >= 0 && HexValue(b) >= 0 ==> HexNumber([a, b]) == 16 * HexValue(a) + HexValue(b)
  {
    assert [a, b][1..] == [b] && [a, b][..1] == [a];
    RunOfOne(a);
    RunOfOne(b);
  }

  lemma UnsignedOfOne(c: nat)
    ensures ParseUnsigned([c]) == if HexValue(c) >= 0 then Some(HexValue(c)) else None
  {
    RunOfOne(c);
    assert [c][..1] == [c];
  }

  lemma UnsignedOfTwo(a: nat, b: nat)
    ensures ToUint8(ParseUnsigned([a, b])) ==
              if HexValue(a) < 0 then 0 else if HexValue(b) < 0 then HexValue(a) else 16 * HexValue(a) + HexValue(b)
  {
    RunOfTwo(a, b);
    RunOfOne(a);
    assert [a, b][2..] == [] && [a, b][..1] == [a] && [a, b][..2] == [a, b];
  }

  lemma ParseOne(c: nat)
    ensures ToUint8(ParseInt16([c])) == if HexValue(c) >= 0 then HexValue(c) else 0
  {
    UnsignedOfOne(c);
    assert [c][1..] == [];
  }

  /** What fromHex stores for a pair is what parseInt makes of it. */
  lemma PairIsParsed(a: nat, b: nat)
    ensures ParsePair(a, b) == ToUint8(ParseInt16([a, b]))
  {
    assert [a, b][1..] == [b];
    ParseOne(b);
    UnsignedOfOne(b);
    UnsignedOfTwo(a, b);
  }

  // ---------- nonce framing (crypto.Encrypt, crypto.Decrypt) ----------

  function Encrypt(box: Box, msg: Bytes, nonce: Bytes, recipientPub: Key, senderPriv: Key): Bytes {
    nonce + box.seal(msg, nonce, recipientPub, senderPriv)
  }

  function Decrypt(box: Box, encrypted: Bytes, senderPub: Key, recipientPriv: Key): Option<Bytes> {
    if |encrypted| < NONCE_SIZE then None
    else box.open(encrypted[NONCE_SIZE..], encrypted[..NONCE_SIZE], senderPub, recipientPriv)
  }

  lemma DecryptUndoesEncrypt(box: Box, msg: Bytes, nonce: Bytes, mine: Key, theirs: Key)
    requires box.Correct() && |nonce| == 24
    ensures Decrypt(box, Encrypt(box, msg, nonce, box.publicOf(theirs), mine), box.publicOf(mine), theirs) == Some(msg)
  {
    var sealed := box.seal(msg, nonce, box.publicOf(theirs), mine);
    assert (nonce + sealed)[..NONCE_SIZE] == nonce && (nonce + sealed)[NONCE_SIZE..] == sealed;
  }

  function Envelope(encrypted: Bytes): Bytes {
    PREFIX + EncodeHex(encrypted)
  }

  // ---------- the Go client ----------

  datatype Client = Client(privKey: Option<Key>, peerKeys: map<User, Key>) {

    predicate CanSeal(recipient: User) {
      privKey.Some? && recipient != "" && recipient in peerKeys
    }

    /** Without a nonce, that is, when reading random bytes fails, the field goes
        out unsealed, as it does without keys. */
    function EncryptForPeer(box: Box, plain: Bytes, recipient: User, nonce: Option<Bytes>): Bytes {
      if plain == [] || !CanSeal(recipient) || nonce.None? then plain
      else Envelope(Encrypt(box, plain, nonce.value, peerKeys[recipient], privKey.value))
    }

    function DecryptFromPeer(box: Box, field: Bytes, sender: User): Bytes {
      if !(PREFIX <= field) then field
      else if privKey.None? || sender !in peerKeys then []
      else
        match DecodeHex(field[|PREFIX|..])
        case None => []
        case Some(encrypted) =>
          var plain := Decrypt(box, encrypted, peerKeys[sender], privKey.value);
          if plain.None? then [] else plain.value
    }
  }

  /** The field is "E2EE:" and the hex digits of these bytes. */
  ghost predicate Carries(field: Bytes, encrypted: Bytes) {
    |field| >= 5 && field[..5] == [69, 50, 69, 69, 58] && DecodeHex(field[5..]) == Some(encrypted)
  }

  /** Exactly when a field is sealed: with a private key, the recipient's cached
      key, a text and a nonce it carries the nonce and the box of the text under
      those keys; otherwise it is the text itself. */
  lemma SealedExactly(box: Box, client: Client, plain: Bytes, recipient: User, nonce: Option<Bytes>)
    ensures var field := client.EncryptForPeer(box, plain, recipient, nonce);
            if client.privKey.Some? && recipient != "" && recipient in client.peerKeys && plain != [] && nonce.Some?
            then Carries(field, nonce.value + box.seal(plain, nonce.value, client.peerKeys[recipient],
                                                       client.privKey.value))
            else field == plain
  {
    if client.CanSeal(recipient) && nonce.Some? {
      var e := nonce.value + box.seal(plain, nonce.value, client.peerKeys[recipient], client.privKey.value);
      HexRoundTrip(e);
      assert Envelope(e)[5..] == EncodeHex(e);
    }
  }

  /** Each side has a key pair and holds the other's current public key. */
  predicate Paired(box: Box, a: Client, aName: User, b: Client, bName: User) {
    && a.CanSeal(bName) && b.CanSeal(aName)
    && a.peerKeys[bName] == box.publicOf(b.privKey.value)
    && b.peerKeys[aName] == box.publicOf(a.privKey.value)
  }

  // ---------- the web client ----------

  /** encryptForPeer: seals whatever it is given, the empty text too. */
  method EncryptForPeer(box: Box, plain: Bytes, nonce: Bytes, peerPub: Key, mySecret: Key) returns (field: Bytes)
    requires |nonce| == 24
    ensures field == Envelope(Encrypt(box, plain, nonce, peerPub, mySecret))
    ensures Carries(field, nonce + box.seal(plain, nonce, peerPub, mySecret))
  {
    var boxed := box.seal(plain, nonce, peerPub, mySecret);
    var combined := new Byte[NONCE_SIZE + |boxed|];
    for i := 0 to NONCE_SIZE
      invariant combined[..i] == nonce[..i]
    {
      combined[i] := nonce[i];
    }
    for i := 0 to |boxed|
      invariant combined[..NONCE_SIZE] == nonce
      invariant combined[NONCE_SIZE..NONCE_SIZE + i] == boxed[..i]
    {
      combined[NONCE_SIZE + i] := boxed[i];
    }
    assert boxed[..|boxed|] == boxed;
    assert combined[..] == combined[..NONCE_SIZE] + combined[NONCE_SIZE..] == nonce + boxed;
    field := PREFIX + EncodeHex(combined[..]);
    HexRoundTrip(combined[..]);
    assert field[5..] == EncodeHex(combined[..]);
  }

  function WebDecryptFromPeer(box: Box, field: Text, senderPub: Key, mySecret: Key): Text {
    if !(PREFIX <= field) then field
    else
      var plain := Decrypt(box, ParsePairs(field[|PREFIX|..]), senderPub, mySecret);
      if plain.None? then [] else plain.value
  }

  // ---------- the two clients together ----------

  /** Whoever sealed it, both clients open an envelope to the original bytes,
      also when those start with the prefix themselves. */
  lemma OpensEverywhere(box: Box, plain: Bytes, nonce: Bytes, sender: Client, sName: User,
                        receiver: Client, rName: User)
    requires box.Correct() && |nonce| == 24 && Paired(box, sender, sName, receiver, rName)
    ensures var field := Envelope(Encrypt(box, plain, nonce, sender.peerKeys[rName], sender.privKey.value));
            && receiver.DecryptFromPeer(box, field, sName) == plain
            && WebDecryptFromPeer(box, field, receiver.peerKeys[sName], receiver.privKey.value) == plain
  {
    var e := Encrypt(box, plain, nonce, sender.peerKeys[rName], sender.privKey.value);
    DecryptUndoesEncrypt(box, plain, nonce, sender.privKey.value, receiver.privKey.value);
    HexRoundTrip(e);
    assert Envelope(e)[|PREFIX|..] == EncodeHex(e);
  }

  /** A 24-byte nonce, or none because the random source failed. */
  predicate IsNonce(nonce: Option<Bytes>) {
    nonce.Some? ==> |nonce.value| == 24
  }

  /** What one Go client encrypts for another comes back unchanged exactly when
      it was sealed or does not look like an envelope. */
  lemma ReadsBackIff(box: Box, plain: Bytes, nonce: Option<Bytes>, sender: Client, sName: User,
                     receiver: Client, rName: User)
    requires box.Correct() && box.NeverGrows() && IsNonce(nonce)
    requires sender.CanSeal(rName) ==> Paired(box, sender, sName, receiver, rName)
    ensures receiver.DecryptFromPeer(box, sender.EncryptForPeer(box, plain, rName, nonce), sName) == plain
            <==> (sender.CanSeal(rName) && nonce.Some?) || !(PREFIX <= plain)
  {
    if sender.CanSeal(rName) && nonce.Some? {
      OpensEverywhere(box, plain, nonce.value, sender, sName, receiver, rName);
    } else if PREFIX <= plain {
      OpenedIsShorter(box, receiver, plain, sName);
    }
  }

  lemma OpenedIsShorter(box: Box, receiver: Client, field: Bytes, sName: User)
    requires box.NeverGrows() && PREFIX <= field
    ensures |receiver.DecryptFromPeer(box, field, sName)| < |field|
  {}

  // ---------- one text on both sides ----------

  /** A Unicode scalar value. */
  type Scalar = x: int | 0 <= x <= 0x10FFFF && !(0xD800 <= x <= 0xDFFF)

  /** The lowest six bits of x as a continuation byte. */
  function Continuation(x: nat): (b: Byte)
    ensures b >= 0x80
  {
    0x80 + x % 0x40
  }

  function Utf8Of(c: Scalar): Bytes {
    if c < 0x80 then [c]
    else if c < 0x800 then [0xC0 + c / 0x40, Continuation(c)]
    else if c < 0x10000 then [0xE0 + c / 0x1000, Continuation(c / 0x40), Continuation(c)]
    else [0xF0 + c / 0x40000, Continuation(c / 0x1000), Continuation(c / 0x40), Continuation(c)]
  }

  function Utf16Of(c: Scalar): Text {
    if c < 0x10000 then [c]
    else [0xD800 + (c - 0x10000) / 0x400, 0xDC00 + (c - 0x10000) % 0x400]
  }

  function Bits(b: Byte, tag: int): int {
    b - tag
  }

  predicate IsContinuation(b: Byte) {
    0x80 <= b <= 0xBF
  }

  /** Utf8Of writes a character as RFC 3629 has it: the bytes carry its bits, and
      the first tells their number. */
  lemma Utf8Carries(c: Scalar)
    ensures var b := Utf8Of(c);
            match |b|
            case 1 => b[0] == c < 0x80
            case 2 => && 0xC2 <= b[0] <= 0xDF && IsContinuation(b[1])
                      && c == Bits(b[0], 0xC0) * 0x40 + Bits(b[1], 0x80)
            case 3 => && 0xE0 <= b[0] <= 0xEF && IsContinuation(b[1]) && IsContinuation(b[2]) && c >= 0x800
                      && c == (Bits(b[0], 0xE0) * 0x40 + Bits(b[1], 0x80)) * 0x40 + Bits(b[2], 0x80)
            case 4 => && 0xF0 <= b[0] <= 0xF4 && IsContinuation(b[1]) && IsContinuation(b[2]) && IsContinuation(b[3])
                      && c >= 0x10000
                      && c == ((Bits(b[0], 0xF0) * 0x40 + Bits(b[1], 0x80)) * 0x40 + Bits(b[2], 0x80)) * 0x40
                              + Bits(b[3], 0x80)
            case _ => false
  {
    SixBits(c);
    SixBits(c / 0x40);
    SixBits(c / 0x1000);
    assert c / 0x40 / 0x40 == c / 0x1000 && c / 0x1000 / 0x40 == c / 0x40000;
  }

  lemma SixBits(x: nat)
    ensures x == x / 0x40 * 0x40 + Bits(Continuation(x), 0x80) && IsContinuation(Continuation(x))
  {}

  /** And Utf16Of as RFC 2781 does: itself, or a surrogate pair. */
  lemma Utf16Carries(c: Scalar)
    ensures var u := Utf16Of(c);
            match |u|
            case 1 => u[0] == c < 0x10000
            case 2 => && 0xD800 <= u[0] <= 0xDBFF && 0xDC00 <= u[1] <= 0xDFFF
                      && c == 0x10000 + (u[0] - 0xD800) * 0x400 + (u[1] - 0xDC00)
            case _ => false
  {}

  /** The string as the Go client has it. */
  function Utf8(text: seq<Scalar>): Bytes {
    if text == [] then [] else Utf8Of(text[0]) + Utf8(text[1..])
  }

  /** The string as the web client has it. */
  function Utf16(text: seq<Scalar>): Text {
    if text == [] then [] else Utf16Of(text[0]) + Utf16(text[1..])
  }

  function Encoded(text: seq<Scalar>, enc: Scalar -> Text): Text {
    if text == [] then [] else enc(text[0]) + Encoded(text[1..], enc)
  }

  function Utf8Units(c: Scalar): Text {
    Utf8Of(c)
  }

  lemma {:induction false} BothEncoded(text: seq<Scalar>)
    ensures Utf8(text) == Encoded(text, Utf8Units) && Utf16(text) == Encoded(text, Utf16Of)
  {
    if text != [] {
      BothEncoded(text[1..]);
    }
  }

  /** ASCII stands for itself, and nothing else contains it. */
  ghost predicate KeepsAscii(enc: Scalar -> Text) {
    forall c: Scalar :: if c < 128 then enc(c) == [c]
                        else enc(c) != [] && forall i :: 0 <= i < |enc(c)| ==> enc(c)[i] >= 128
  }

  lemma HighBytes(c: Scalar)
    requires c >= 128
    ensures Utf8Of(c) != [] && forall i :: 0 <= i < |Utf8Of(c)| ==> Utf8Of(c)[i] >= 128
  {}

  lemma Utf8KeepsAscii()
    ensures KeepsAscii(Utf8Units)
  {
    forall c: Scalar | c >= 128
      ensures Utf8Units(c) != [] && forall i :: 0 <= i < |Utf8Units(c)| ==> Utf8Units(c)[i] >= 128
    {
      HighBytes(c);
    }
  }

  lemma Utf16KeepsAscii()
    ensures KeepsAscii(Utf16Of)
  {}

  lemma {:induction false} PrefixKept(p: Bytes, text: seq<Scalar>, enc: Scalar -> Text)
    requires KeepsAscii(enc) && forall i :: 0 <= i < |p| ==> p[i] < 128
    ensures p <= Encoded(text, enc) <==> p <= text
    ensures p <= text ==> Encoded(text, enc)[|p|..] == Encoded(text[|p|..], enc)
  {
    if p == [] {
      assert text[0..] == text;
    } else if text != [] {
      var rest := Encoded(text[1..], enc);
      var whole := enc(text[0]) + rest;
      assert whole[0] == enc(text[0])[0];
      if text[0] < 128 {
        PrefixKept(p[1..], text[1..], enc);
        assert whole[1..] == rest;
        assert p <= whole <==> p[0] == whole[0] && p[1..] <= whole[1..];
        assert p <= text <==> p[0] == text[0] && p[1..] <= text[1..];
        if p <= text {
          assert text[1..][|p| - 1..] == text[|p|..];
          assert whole[|p|..] == rest[|p| - 1..];
        }
      }
    }
  }

  predicate AllHex(text: Text) {
    forall i :: 0 <= i < |text| ==> HexValue(text[i]) >= 0
  }

  lemma {:induction false} HexKept(text: seq<Scalar>, enc: Scalar -> Text)
    requires KeepsAscii(enc)
    ensures AllHex(Encoded(text, enc)) <==> AllHex(text)
    ensures AllHex(text) ==> Encoded(text, enc) == text
  {
    if text != [] {
      var rest := Encoded(text[1..], enc);
      var whole := enc(text[0]) + rest;
      HexKept(text[1..], enc);
      assert text == [text[0]] + text[1..];
      if AllHex(whole) {
        assert HexValue(whole[0]) >= 0;
        assert forall i :: 0 <= i < |rest| ==> rest[i] == whole[|enc(text[0])| + i];
      }
    }
  }

  /** The prefix test, the digits and their being well formed come out the same
      on both sides. */
  lemma SidesAlike(text: seq<Scalar>)
    ensures PREFIX <= Utf8(text) <==> PREFIX <= text
    ensures PREFIX <= Utf16(text) <==> PREFIX <= text
    ensures PREFIX <= text ==>
              var rest := text[|PREFIX|..];
              && Utf8(text)[|PREFIX|..] == Utf8(rest) && Utf16(text)[|PREFIX|..] == Utf16(rest)
              && (IsHex(Utf8(rest)) <==> IsHex(rest)) && (IsHex(Utf16(rest)) <==> IsHex(rest))
              && (IsHex(rest) ==> Utf8(rest) == rest && Utf16(rest) == rest)
  {
    Utf8KeepsAscii();
    Utf16KeepsAscii();
    BothEncoded(text);
    PrefixKept(PREFIX, text, Utf8Units);
    PrefixKept(PREFIX, text, Utf16Of);
    if PREFIX <= text {
      var rest := text[|PREFIX|..];
      BothEncoded(rest);
      HexKept(rest, Utf8Units);
      HexKept(rest, Utf16Of);
    }
  }

  /** The two clients read a text alike: the same bytes out of an envelope, and
      any other text unchanged. */
  predicate ReadAlike(box: Box, text: seq<Scalar>, receiver: Client, sName: User)
    requires receiver.privKey.Some? && sName in receiver.peerKeys
  {
    var go := receiver.DecryptFromPeer(box, Utf8(text), sName);
    var web := WebDecryptFromPeer(box, Utf16(text), receiver.peerKeys[sName], receiver.privKey.value);
    if PREFIX <= text then go == web else go == Utf8(text) && web == Utf16(text)
  }

  /** On a text that is no envelope or has well-formed digits they do. */
  lemma ClientsAgreeOnHex(box: Box, text: seq<Scalar>, receiver: Client, sName: User)
    requires receiver.privKey.Some? && sName in receiver.peerKeys
    requires PREFIX <= text ==> IsHex(text[|PREFIX|..])
    ensures ReadAlike(box, text, receiver, sName)
  {
    SidesAlike(text);
    if PREFIX <= text {
      WebReadsGoHex(text[|PREFIX|..]);
    }
  }

  /** Every plaintext is exactly k bytes shorter than its box. */
  ghost predicate HasOverhead(box: Box, k: nat) {
    forall c, n, pub, priv :: box.open(c, n, pub, priv).Some? ==> |box.open(c, n, pub, priv).value| + k == |c|
  }

  /** A correct box that puts `pad` before the message; opened without that, it
      gives `instead`. */
  function PadBox(pad: Bytes, instead: Option<Bytes>): Box {
    Box((m: Bytes, n: Bytes, pub: Key, priv: Key) => pad + m,
        (c: Bytes, n: Bytes, pub: Key, priv: Key) => if |c| < |pad| then instead else Some(c[|pad|..]),
        (priv: Key) => priv)
  }

  lemma PadBoxCorrect(pad: Bytes, instead: Option<Bytes>)
    ensures PadBox(pad, instead).Correct()
    ensures instead.None? ==> HasOverhead(PadBox(pad, instead), |pad|)
  {
    var box := PadBox(pad, instead);
    forall m, n, a, b
      ensures box.open(box.seal(m, n, box.publicOf(b), a), n, box.publicOf(a), b) == Some(m)
    {
      assert (pad + m)[|pad|..] == m;
    }
  }

  /** What the web client makes of an envelope that Go rejects. */
  lemma WebReadsBadHex(box: Box, text: seq<Scalar>, receiver: Client, sName: User)
    requires receiver.privKey.Some? && sName in receiver.peerKeys
    requires PREFIX <= text && !IsHex(text[|PREFIX|..])
    ensures receiver.DecryptFromPeer(box, Utf8(text), sName) == []
    ensures var raw := ParsePairs(Utf16(text[|PREFIX|..]));
            var web := Decrypt(box, raw, receiver.peerKeys[sName], receiver.privKey.value);
            && WebDecryptFromPeer(box, Utf16(text), receiver.peerKeys[sName], receiver.privKey.value)
               == (if web.None? then [] else web.value)
            && (ReadAlike(box, text, receiver, sName) <==> web.None? || web.value == [])
  {
    SidesAlike(text);
  }

  /** How many bytes the web client finds in an envelope. */
  function WebSize(text: seq<Scalar>): nat
    requires PREFIX <= text
  {
    |Utf16(text[|PREFIX|..])| / 2
  }

  /** The two clients read a text alike whatever the box does, if and only if it
      is no envelope, or its digits are well formed, or the web client finds too
      few bytes for a nonce. */
  lemma ClientsAgreeIff(text: seq<Scalar>, receiver: Client, sName: User)
    requires receiver.privKey.Some? && sName in receiver.peerKeys
    ensures (forall box: Box :: box.Correct() ==> ReadAlike(box, text, receiver, sName)) <==>
            (PREFIX <= text ==> IsHex(text[|PREFIX|..]) || WebSize(text) < 24)
  {
    if PREFIX <= text && !IsHex(text[|PREFIX|..]) {
      forall box: Box | WebSize(text) < NONCE_SIZE
        ensures ReadAlike(box, text, receiver, sName)
      {
        WebReadsBadHex(box, text, receiver, sName);
      }
      if WebSize(text) >= NONCE_SIZE {
        var box := if WebSize(text) == NONCE_SIZE then PadBox([0], Some([7])) else PadBox([], None);
        PadBoxCorrect([0], Some([7]));
        PadBoxCorrect([], None);
        WebReadsBadHex(box, text, receiver, sName);
        assert !ReadAlike(box, text, receiver, sName);
      }
    } else {
      forall box: Box
        ensures ReadAlike(box, text, receiver, sName)
      {
        ClientsAgreeOnHex(box, text, receiver, sName);
      }
    }
  }

  /** The same for boxes with a fixed overhead, as NaCl's of 16 bytes: then the
      bytes may also be too few for a nonce and a box with any plaintext. */
  lemma ClientsAgreeWithOverheadIff(k: nat, text: seq<Scalar>, receiver: Client, sName: User)
    requires receiver.privKey.Some? && sName in receiver.peerKeys
    ensures (forall box: Box :: box.Correct() && HasOverhead(box, k) ==> ReadAlike(box, text, receiver, sName)) <==>
            (PREFIX <= text ==> IsHex(text[|PREFIX|..]) || WebSize(text) <= 24 + k)
  {
    if PREFIX <= text && !IsHex(text[|PREFIX|..]) {
      forall box: Box | HasOverhead(box, k) && WebSize(text) <= NONCE_SIZE + k
        ensures ReadAlike(box, text, receiver, sName)
      {
        WebReadsBadHex(box, text, receiver, sName);
      }
      if WebSize(text) > NONCE_SIZE + k {
        var pad: Bytes := seq(k, _ => 0);
        PadBoxCorrect(pad, None);
        WebReadsBadHex(PadBox(pad, None), text, receiver, sName);
        assert !ReadAlike(PadBox(pad, None), text, receiver, sName);
      }
    } else {
      forall box: Box
        ensures ReadAlike(box, text, receiver, sName)
      {
        ClientsAgreeOnHex(box, text, receiver, sName);
      }
    }
  }

  lemma {:induction false} Utf16Append(a: seq<Scalar>, b: seq<Scalar>)
    ensures Utf16(a + b) == Utf16(a) + Utf16(b)
  {
    if a == [] {
      assert a + b == b;
    } else {
      assert (a + b)[1..] == a[1..] + b;
      Utf16Append(a[1..], b);
    }
  }

  /** Digits with one unit behind them: an odd number, whose last the web client
      drops. */
  lemma OddDigits(digits: seq<Scalar>, extra: Scalar)
    requires IsHex(digits) && |Utf16Of(extra)| == 1
    ensures !IsHex(digits + [extra])
    ensures ParsePairs(Utf16(digits + [extra])) == ParsePairs(digits)
  {
    Utf16KeepsAscii();
    BothEncoded(digits);
    HexKept(digits, Utf16Of);
    Utf16Append(digits, [extra]);
    OddUnits(digits, Utf16(digits + [extra]));
  }

  lemma OddUnits(digits: Text, longer: Text)
    requires |digits| % 2 == 0 && |longer| == |digits| + 1 && digits <= longer
    ensures ParsePairs(longer) == ParsePairs(digits)
  {}

  /** In particular, with any one UTF-16 unit appended, every envelope is rejected
      by the Go client and still opened by the web client. */
  lemma WebOpensWhatGoRejects(box: Box, plain: Bytes, nonce: Bytes, extra: Scalar,
                              sender: Client, sName: User, receiver: Client, rName: User)
    requires box.Correct() && |nonce| == 24 && Paired(box, sender, sName, receiver, rName)
    requires |Utf16Of(extra)| == 1
    ensures var envelope := Envelope(Encrypt(box, plain, nonce, sender.peerKeys[rName], sender.privKey.value));
            && receiver.DecryptFromPeer(box, Utf8(envelope + [extra]), sName) == []
            && WebDecryptFromPeer(box, Utf16(envelope + [extra]), receiver.peerKeys[sName],
                                  receiver.privKey.value) == plain
  {
    var e := Encrypt(box, plain, nonce, sender.peerKeys[rName], sender.privKey.value);
    var text: seq<Scalar> := Envelope(e) + [extra];
    assert text[|PREFIX|..] == EncodeHex(e) + [extra] && PREFIX <= text;
    DecryptUndoesEncrypt(box, plain, nonce, sender.privKey.value, receiver.privKey.value);
    HexRoundTrip(e);
    OddDigits(EncodeHex(e), extra);
    WebReadsBadHex(box, text, receiver, sName);
  }
}
