/**
 The inner message wire format: a printer, a parser that never passes the end of
 its input, and the bijection between them.
 */
module Envelope {
  import opened Wrappers
  import opened Base64
  import opened Serialize

  const ENVELOPE_VERSION: Byte := 1
  const INITIAL: Byte := 1
  const NORMAL: Byte := 2
  const KEY_LENGTH: nat := 32
  const TWO_TO_32: nat := 0x1_0000_0000

  datatype RatchetHeader = RatchetHeader(dhPublicKey: Bytes, previousChainLength: nat, messageNumber: nat)

  /** An initial message carries the handshake header; a normal one does not. */
  datatype InnerMessage = InnerMessage(x3dh: Option<PendingHeader>, header: RatchetHeader, ciphertext: Bytes)

  datatype EnvelopeError =
    | Truncated | WrongVersion(version: Byte) | UnknownType(kind: Byte)
    | MalformedFlag | MissingCiphertext | WrongKeyLength

  datatype Outcome<+T> = Ok(value: T) | Fail(error: EnvelopeError)
  {
    predicate IsFailure() { Fail? }
    function PropagateFailure<U>(): Outcome<U>
      requires Fail?
    {
      Fail(error)
    }
    function Extract(): T
      requires Ok?
    {
      value
    }
  }

  // ----- printing

  /** `setUint32`: big-endian, the value taken modulo 2^32. */
  function U32Bytes(v: nat): Bytes {
    [v / 0x100_0000 % 256, v / 0x1_0000 % 256, v / 256 % 256, v % 256]
  }

  function HeaderBytes(h: RatchetHeader): Bytes {
    h.dhPublicKey + (U32Bytes(h.previousChainLength) + U32Bytes(h.messageNumber))
  }

  function OneTimeBytes(id: Option<nat>): Bytes {
    if id.None? then [0] else [1] + U32Bytes(id.value)
  }

  function HandshakeBytes(h: PendingHeader): Bytes {
    h.identityKey + (h.identityDhKey
        + (h.ephemeralKey + (U32Bytes(h.signedPrekeyId) + OneTimeBytes(h.oneTimePrekeyId))))
  }

  predicate GoodKeys(m: InnerMessage) {
    && |m.header.dhPublicKey| == KEY_LENGTH
    && (m.x3dh.Some? ==>
      && |m.x3dh.value.identityKey| == KEY_LENGTH
      && |m.x3dh.value.identityDhKey| == KEY_LENGTH
      && |m.x3dh.value.ephemeralKey| == KEY_LENGTH)
  }

  function PreambleBytes(x3dh: Option<PendingHeader>): Bytes {
    if x3dh.Some? then [ENVELOPE_VERSION, INITIAL] + HandshakeBytes(x3dh.value) else [ENVELOPE_VERSION, NORMAL]
  }

  /** The bytes of a message. */
  function Print(m: InnerMessage): Bytes {
    PreambleBytes(m.x3dh) + (HeaderBytes(m.header) + m.ciphertext)
  }

  // ----- parsing

  function U8(b: Bytes): Outcome<(Byte, Bytes)> {
    if b == [] then Fail(Truncated) else Ok((b[0], b[1..]))
  }

  function U32Value(b: Bytes): nat
    requires |b| == 4
  {
    b[0] as nat * 0x100_0000 + b[1] as nat * 0x1_0000 + b[2] as nat * 256 + b[3]
  }

  function Chunk(b: Bytes, n: nat): Outcome<(Bytes, Bytes)> {
    if |b| < n then Fail(Truncated) else Ok((b[..n], b[n..]))
  }

  function U32(b: Bytes): Outcome<(nat, Bytes)> {
    if |b| < 4 then Fail(Truncated) else Ok((U32Value(b[..4]), b[4..]))
  }

  function ParseOneTime(b: Bytes): Outcome<(Option<nat>, Bytes)> {
    var flag :- U8(b);
    if flag.0 > 1 then Fail(MalformedFlag)
    else if flag.0 == 0 then Ok((None, flag.1))
    else
      var id :- U32(flag.1);
      Ok((Some(id.0), id.1))
  }

  function ParseHandshake(b: Bytes): Outcome<(PendingHeader, Bytes)> {
    var identity :- Chunk(b, KEY_LENGTH);
    var dh :- Chunk(identity.1, KEY_LENGTH);
    var ephemeral :- Chunk(dh.1, KEY_LENGTH);
    var signed :- U32(ephemeral.1);
    var oneTime :- ParseOneTime(signed.1);
    Ok((PendingHeader(identity.0, dh.0, ephemeral.0, signed.0, oneTime.0), oneTime.1))
  }

  function ParsePreamble(b: Bytes): Outcome<(Option<PendingHeader>, Bytes)> {
    var version :- U8(b);
    if version.0 != ENVELOPE_VERSION then Fail(WrongVersion(version.0))
    else
      var kind :- U8(version.1);
      if kind.0 != INITIAL && kind.0 != NORMAL then Fail(UnknownType(kind.0))
      else if kind.0 == NORMAL then Ok((None, kind.1))
      else
        var handshake :- ParseHandshake(kind.1);
        Ok((Some(handshake.0), handshake.1))
  }

  function ParseHeader(b: Bytes): Outcome<(RatchetHeader, Bytes)> {
    var dh :- Chunk(b, KEY_LENGTH);
    var previous :- U32(dh.1);
    var number :- U32(previous.1);
    Ok((RatchetHeader(dh.0, previous.0, number.0), number.1))
  }

  function Parse(b: Bytes): Outcome<InnerMessage> {
    var preamble :- ParsePreamble(b);
    var header :- ParseHeader(preamble.1);
    if header.1 == [] then Fail(MissingCiphertext)
    else Ok(InnerMessage(preamble.0, header.0, header.1))
  }

  // ----- parsing what was printed

  function Wrap(v: nat): nat {
    v % TWO_TO_32
  }

  lemma DivideTwice(v: nat)
    ensures v / 0x1_0000 == v / 256 / 256 && v / 0x100_0000 == v / 256 / 256 / 256
  {
  }

  lemma WrapIsRemainder(v: nat, high: nat, low: nat)
    requires v == TWO_TO_32 * high + low && low < TWO_TO_32
    ensures Wrap(v) == low
  {
  }

  lemma U32RoundTrip(v: nat)
    ensures U32Value(U32Bytes(v)) == Wrap(v)
  {
    hide Wrap;
    DivideTwice(v);
    var a := v / 256;
    var b := a / 256;
    var c := b / 256;
    var low := c % 256 * 0x100_0000 + b % 256 * 0x1_0000 + a % 256 * 256 + v % 256;
    assert U32Bytes(v) == [c % 256, b % 256, a % 256, v % 256];
    assert U32Value(U32Bytes(v)) == low;
    WrapIsRemainder(v, c / 256, low);
  }

  lemma U32Printed(b: Bytes)
    requires |b| == 4
    ensures U32Value(b) < TWO_TO_32 && U32Bytes(U32Value(b)) == b
  {
    var v := U32Value(b);
    assert v / 256 == b[0] as nat * 0x1_0000 + b[1] as nat * 256 + b[2];
    assert v / 0x1_0000 == b[0] as nat * 256 + b[1];
    assert v / 0x100_0000 == b[0];
  }

  lemma U32After(v: nat, rest: Bytes)
    ensures U32(U32Bytes(v) + rest) == Ok((Wrap(v), rest))
  {
    U32RoundTrip(v);
    hide U32Value, Wrap;
    var b := U32Bytes(v) + rest;
    assert b[..4] == U32Bytes(v) && b[4..] == rest;
  }

  lemma ChunkAfter(k: Bytes, rest: Bytes)
    ensures Chunk(k + rest, |k|) == Ok((k, rest))
  {
    assert (k + rest)[..|k|] == k && (k + rest)[|k|..] == rest;
  }

  lemma OneTimeAfter(id: Option<nat>, rest: Bytes)
    ensures ParseOneTime(OneTimeBytes(id) + rest) == Ok((if id.Some? then Some(Wrap(id.value)) else None, rest))
  {
    hide U32Bytes, U32, Wrap;
    var b := OneTimeBytes(id) + rest;
    if id.Some? {
      U32After(id.value, rest);
      assert b[1..] == U32Bytes(id.value) + rest;
    } else {
      assert b[1..] == rest;
    }
  }

  function WrapHandshake(h: PendingHeader): PendingHeader {
    h.(signedPrekeyId := Wrap(h.signedPrekeyId),
       oneTimePrekeyId := if h.oneTimePrekeyId.Some? then Some(Wrap(h.oneTimePrekeyId.value)) else None)
  }

  lemma HandshakeAfter(h: PendingHeader, rest: Bytes)
    requires |h.identityKey| == |h.identityDhKey| == |h.ephemeralKey| == KEY_LENGTH
    ensures ParseHandshake(HandshakeBytes(h) + rest) == Ok((WrapHandshake(h), rest))
  {
    hide U32Bytes, U32, Wrap, Chunk, OneTimeBytes, ParseOneTime;
    var b5 := OneTimeBytes(h.oneTimePrekeyId) + rest;
    var b4 := U32Bytes(h.signedPrekeyId) + b5;
    var b3 := h.ephemeralKey + b4;
    var b2 := h.identityDhKey + b3;
    assert HandshakeBytes(h) + rest == h.identityKey + b2;
    ChunkAfter(h.identityKey, b2);
    ChunkAfter(h.identityDhKey, b3);
    ChunkAfter(h.ephemeralKey, b4);
    U32After(h.signedPrekeyId, b5);
    OneTimeAfter(h.oneTimePrekeyId, rest);
  }

  lemma PreambleAfter(x3dh: Option<PendingHeader>, rest: Bytes)
    requires x3dh.Some? ==>
      |x3dh.value.identityKey| == |x3dh.value.identityDhKey| == |x3dh.value.ephemeralKey| == KEY_LENGTH
    ensures ParsePreamble(PreambleBytes(x3dh) + rest)
        == Ok((if x3dh.Some? then Some(WrapHandshake(x3dh.value)) else None, rest))
  {
    hide HandshakeBytes, ParseHandshake, WrapHandshake;
    var b := PreambleBytes(x3dh) + rest;
    if x3dh.Some? {
      HandshakeAfter(x3dh.value, rest);
      assert b[1..][1..] == HandshakeBytes(x3dh.value) + rest;
    } else {
      assert b[1..][1..] == rest;
    }
  }

  lemma HeaderAfter(h: RatchetHeader, rest: Bytes)
    requires |h.dhPublicKey| == KEY_LENGTH
    ensures ParseHeader(HeaderBytes(h) + rest) ==
      Ok((RatchetHeader(h.dhPublicKey, Wrap(h.previousChainLength), Wrap(h.messageNumber)), rest))
  {
    hide U32Bytes, U32, Wrap, Chunk;
    var b3 := U32Bytes(h.messageNumber) + rest;
    var b2 := U32Bytes(h.previousChainLength) + b3;
    assert HeaderBytes(h) + rest == h.dhPublicKey + b2;
    ChunkAfter(h.dhPublicKey, b2);
    U32After(h.previousChainLength, b3);
    U32After(h.messageNumber, rest);
  }

  /** The message a printed one reads back as: counters and ids modulo 2^32. */
  function WrapMessage(m: InnerMessage): InnerMessage {
    InnerMessage(
      if m.x3dh.Some? then Some(WrapHandshake(m.x3dh.value)) else None,
      RatchetHeader(m.header.dhPublicKey, Wrap(m.header.previousChainLength), Wrap(m.header.messageNumber)),
      m.ciphertext)
  }

  lemma ParseOfPrint(m: InnerMessage)
    requires GoodKeys(m)
    ensures Parse(Print(m)) == if m.ciphertext == [] then Fail(MissingCiphertext) else Ok(WrapMessage(m))
  {
    hide ParsePreamble, PreambleBytes, ParseHeader, HeaderBytes, WrapHandshake, Wrap;
    PreambleAfter(m.x3dh, HeaderBytes(m.header) + m.ciphertext);
    HeaderAfter(m.header, m.ciphertext);
  }

  predicate IsU32(v: nat) {
    v < TWO_TO_32
  }

  /** What the format can carry. */
  predicate Fits(m: InnerMessage) {
    && GoodKeys(m) && m.ciphertext != []
    && IsU32(m.header.previousChainLength) && IsU32(m.header.messageNumber)
    && (m.x3dh.Some? ==> IsU32(m.x3dh.value.signedPrekeyId)
                         && (m.x3dh.value.oneTimePrekeyId.Some? ==> IsU32(m.x3dh.value.oneTimePrekeyId.value)))
  }

  lemma U32IsNotWrapped(v: nat)
    ensures Wrap(v) == v <==> IsU32(v)
  {
  }

  /** A message survives the wire exactly when it fits. */
  lemma SurvivesExactlyWhenFits(m: InnerMessage)
    requires GoodKeys(m)
    ensures Parse(Print(m)) == Ok(m) <==> Fits(m)
  {
    ParseOfPrint(m);
    hide Parse, Print;
    forall v: nat ensures Wrap(v) == v <==> IsU32(v) {
      U32IsNotWrapped(v);
    }
    hide Wrap, IsU32;
  }

  /** Message number 2^32 arrives as number 0. */
  lemma CounterWraps(dh: Bytes)
    requires |dh| == KEY_LENGTH
    ensures var m := InnerMessage(None, RatchetHeader(dh, 0, TWO_TO_32), [1]);
      Parse(Print(m)) == Ok(m.(header := RatchetHeader(dh, 0, 0)))
  {
    ParseOfPrint(InnerMessage(None, RatchetHeader(dh, 0, TWO_TO_32), [1]));
    hide Parse, Print;
  }

  // ----- printing what was parsed

  lemma OneTimePrinted(b: Bytes)
    ensures var r := ParseOneTime(b);
      r.Ok? ==> b == OneTimeBytes(r.value.0) + r.value.1 && (r.value.0.Some? ==> IsU32(r.value.0.value))
  {
    hide U32Bytes;
    if |b| >= 5 {
      U32Printed(b[1..][..4]);
      hide U32Value;
      assert b[1..] == b[1..][..4] + b[1..][4..];
    }
  }

  lemma U32Undone(b: Bytes)
    ensures U32(b).Ok? ==> b == U32Bytes(U32(b).value.0) + U32(b).value.1 && IsU32(U32(b).value.0)
  {
    if |b| >= 4 {
      U32Printed(b[..4]);
    }
  }

  lemma ChunkUndone(b: Bytes, n: nat)
    ensures Chunk(b, n).Ok? ==> b == Chunk(b, n).value.0 + Chunk(b, n).value.1 && |Chunk(b, n).value.0| == n
  {
  }

  ghost predicate HandshakeFits(h: PendingHeader) {
    && |h.identityKey| == |h.identityDhKey| == |h.ephemeralKey| == KEY_LENGTH
    && IsU32(h.signedPrekeyId) && (h.oneTimePrekeyId.Some? ==> IsU32(h.oneTimePrekeyId.value))
  }

  lemma HandshakePrinted(b: Bytes)
    ensures var r := ParseHandshake(b);
      r.Ok? ==> b == HandshakeBytes(r.value.0) + r.value.1 && HandshakeFits(r.value.0)
  {
    var r := ParseHandshake(b);
    if r.Ok? {
      hide U32Bytes, U32, Chunk, OneTimeBytes, ParseOneTime, IsU32;
      ChunkUndone(b, KEY_LENGTH);
      var b1 := Chunk(b, KEY_LENGTH).value.1;
      ChunkUndone(b1, KEY_LENGTH);
      var b2 := Chunk(b1, KEY_LENGTH).value.1;
      ChunkUndone(b2, KEY_LENGTH);
      var b3 := Chunk(b2, KEY_LENGTH).value.1;
      U32Undone(b3);
      OneTimePrinted(U32(b3).value.1);
    }
  }

  lemma PreamblePrinted(b: Bytes)
    ensures var r := ParsePreamble(b);
      r.Ok? ==> b == PreambleBytes(r.value.0) + r.value.1 && (r.value.0.Some? ==> HandshakeFits(r.value.0.value))
  {
    hide HandshakeBytes, ParseHandshake, HandshakeFits;
    if |b| >= 2 {
      HandshakePrinted(b[1..][1..]);
      assert b == [b[0], b[1]] + b[1..][1..];
    }
  }

  lemma HeaderPrinted(b: Bytes)
    ensures var r := ParseHeader(b);
      r.Ok? ==> b == HeaderBytes(r.value.0) + r.value.1 && |r.value.0.dhPublicKey| == KEY_LENGTH
                && IsU32(r.value.0.previousChainLength) && IsU32(r.value.0.messageNumber)
  {
    var r := ParseHeader(b);
    if r.Ok? {
      hide U32Bytes, U32, Chunk, IsU32;
      ChunkUndone(b, KEY_LENGTH);
      var b1 := Chunk(b, KEY_LENGTH).value.1;
      U32Undone(b1);
      U32Undone(U32(b1).value.1);
    }
  }

  /** Whatever is accepted fits the format and prints back to the same bytes. */
  lemma PrintOfParse(b: Bytes)
    ensures Parse(b).Ok? ==> Fits(Parse(b).value) && Print(Parse(b).value) == b
  {
    if Parse(b).Ok? {
      PreamblePrinted(b);
      HeaderPrinted(ParsePreamble(b).value.1);
      hide ParsePreamble, PreambleBytes, ParseHeader, HeaderBytes, IsU32;
    }
  }

  /** Parsing accepts exactly the printed forms of fitting messages, one each. */
  lemma AcceptsExactlyThePrinted(b: Bytes, m: InnerMessage)
    ensures Parse(b) == Ok(m) <==> Fits(m) && Print(m) == b
  {
    PrintOfParse(b);
    if Fits(m) {
      SurvivesExactlyWhenFits(m);
    }
    hide Parse, Print, Fits;
  }

  /** The header bytes bound into the AEAD determine the header. */
  lemma HeaderBytesAreInjective(g: RatchetHeader, h: RatchetHeader)
    requires |g.dhPublicKey| == |h.dhPublicKey| == KEY_LENGTH && HeaderBytes(g) == HeaderBytes(h)
    requires IsU32(g.previousChainLength) && IsU32(g.messageNumber) && IsU32(h.previousChainLength)
        && IsU32(h.messageNumber)
    ensures g == h
  {
    hide HeaderBytes, ParseHeader, Wrap, IsU32;
    HeaderAfter(g, []);
    HeaderAfter(h, []);
    assert HeaderBytes(g) + [] == HeaderBytes(h) + [];
    U32IsNotWrapped(g.previousChainLength);
    U32IsNotWrapped(g.messageNumber);
    U32IsNotWrapped(h.previousChainLength);
    U32IsNotWrapped(h.messageNumber);
  }

  // ----- the layout

  /** The number some bytes stand for, most significant first. */
  ghost function BigEndian(b: Bytes): nat {
    if b == [] then 0 else 256 * BigEndian(b[..|b| - 1]) + b[|b| - 1]
  }

  lemma BigEndianOfFour(b: Bytes)
    requires |b| == 4
    ensures BigEndian(b) == b[0] as nat * 0x100_0000 + b[1] as nat * 0x1_0000 + b[2] as nat * 256 + b[3] as nat
  {
    assert b[..3][..2] == b[..2] && b[..2][..1] == b[..1] && b[..1][..0] == [];
    assert BigEndian(b[..1]) == b[0] as nat;
    assert BigEndian(b[..2]) == 256 * b[0] as nat + b[1] as nat;
    assert BigEndian(b[..3]) == 256 * BigEndian(b[..2]) + b[2] as nat;
  }

  lemma U32IsBigEndian(v: nat)
    ensures BigEndian(U32Bytes(v)) == v % TWO_TO_32
  {
    BigEndianOfFour(U32Bytes(v));
    U32RoundTrip(v);
  }

  /** `b` holds `part` from a position on. */
  predicate At(b: Bytes, offset: nat, part: Bytes) {
    offset + |part| <= |b| && b[offset..offset + |part|] == part
  }

  lemma PartAt(before: Bytes, part: Bytes, after: Bytes)
    ensures At(before + (part + after), |before|, part)
  {
  }

  /** `b` holds a number, taken modulo 2^32, in the four bytes from a position on. */
  ghost predicate NumberAt(b: Bytes, offset: nat, v: nat) {
    offset + 4 <= |b| && BigEndian(b[offset..offset + 4]) == v % 0x1_0000_0000
  }

  lemma NumberIsAt(before: Bytes, v: nat, after: Bytes)
    ensures NumberAt(before + (U32Bytes(v) + after), |before|, v)
  {
    U32IsBigEndian(v);
    U32Length(v);
    PartAt(before, U32Bytes(v), after);
    hide BigEndian, U32Bytes;
  }

  /** Ratchet key, length of the previous chain, message number, ciphertext. */
  ghost predicate BodyAt(b: Bytes, offset: nat, m: InnerMessage) {
    && At(b, offset, m.header.dhPublicKey)
    && NumberAt(b, offset + 32, m.header.previousChainLength)
    && NumberAt(b, offset + 36, m.header.messageNumber)
    && At(b, offset + 40, m.ciphertext) && |b| == offset + 40 + |m.ciphertext|
  }

  lemma BodyIsAt(before: Bytes, m: InnerMessage)
    requires |m.header.dhPublicKey| == KEY_LENGTH
    ensures BodyAt(before + (HeaderBytes(m.header) + m.ciphertext), |before|, m)
  {
    hide U32Bytes, BigEndian, NumberAt, At;
    var k, c := m.header.dhPublicKey, m.ciphertext;
    var p, n := U32Bytes(m.header.previousChainLength), U32Bytes(m.header.messageNumber);
    var b := before + (HeaderBytes(m.header) + c);
    U32Length(m.header.previousChainLength);
    U32Length(m.header.messageNumber);
    assert b == before + (k + (p + (n + c)));
    PartAt(before, k, p + (n + c));
    assert b == (before + k) + (p + (n + c));
    NumberIsAt(before + k, m.header.previousChainLength, n + c);
    assert b == (before + k + p) + (n + c);
    NumberIsAt(before + k + p, m.header.messageNumber, c);
    assert b == (before + k + p + n) + (c + []);
    PartAt(before + k + p + n, c, []);
  }

  lemma U32Length(v: nat)
    ensures |U32Bytes(v)| == 4
  {
  }

  /** A normal message: version 1, type 2, and the body from byte 2. */
  lemma NormalLayout(m: InnerMessage)
    requires GoodKeys(m) && m.x3dh.None?
    ensures var b := Print(m); |b| >= 2 && b[0] == 1 && b[1] == 2 && BodyAt(b, 2, m)
  {
    BodyIsAt([ENVELOPE_VERSION, NORMAL], m);
    hide HeaderBytes, BodyAt;
  }

  /** An initial message: version 1, type 1, three keys, the signed prekey's number,
      a flag, the one-time prekey's number if there is one, and the body. */
  lemma InitialLayout(m: InnerMessage)
    requires GoodKeys(m) && m.x3dh.Some?
    ensures var b, h := Print(m), m.x3dh.value;
      && |b| >= 103 && b[0] == 1 && b[1] == 1
      && At(b, 2, h.identityKey) && At(b, 34, h.identityDhKey) && At(b, 66, h.ephemeralKey)
      && NumberAt(b, 98, h.signedPrekeyId)
      && (if h.oneTimePrekeyId.None? then b[102] == 0 && BodyAt(b, 103, m)
          else b[102] == 1 && NumberAt(b, 103, h.oneTimePrekeyId.value) && BodyAt(b, 107, m))
  {
    var h := m.x3dh.value;
    var start := PreambleBytes(m.x3dh);
    var rest := HeaderBytes(m.header) + m.ciphertext;
    BodyIsAt(start, m);
    HandshakeIsAt(h, rest);
    hide HeaderBytes, BodyAt, HandshakeBytes, NumberAt, At;
  }

  lemma HandshakeIsAt(h: PendingHeader, rest: Bytes)
    requires |h.identityKey| == |h.identityDhKey| == |h.ephemeralKey| == KEY_LENGTH
    ensures var start := [ENVELOPE_VERSION, INITIAL] + HandshakeBytes(h);
      var b := start + rest;
      && |b| >= 103 && b[0] == 1 && b[1] == 1
      && At(b, 2, h.identityKey) && At(b, 34, h.identityDhKey) && At(b, 66, h.ephemeralKey)
      && NumberAt(b, 98, h.signedPrekeyId)
      && (if h.oneTimePrekeyId.None? then |start| == 103 && b[102] == 0
          else |start| == 107 && b[102] == 1 && NumberAt(b, 103, h.oneTimePrekeyId.value))
  {
    hide U32Bytes, BigEndian, NumberAt, At, OneTimeBytes;
    var v := [ENVELOPE_VERSION, INITIAL];
    var s, o := U32Bytes(h.signedPrekeyId), OneTimeBytes(h.oneTimePrekeyId);
    var keys := v + h.identityKey + h.identityDhKey + h.ephemeralKey;
    var b := v + HandshakeBytes(h) + rest;
    assert b == v + (h.identityKey + (h.identityDhKey + (h.ephemeralKey + (s + (o + rest)))));
    KeysAreAt(v, h.identityKey, h.identityDhKey, h.ephemeralKey, s + (o + rest));
    NumbersAreAt(keys, h, rest);
    assert b == keys + (s + (o + rest)) && v + HandshakeBytes(h) == keys + (s + o);
    assert b[0] == v[0] && b[1] == v[1];
  }

  lemma KeysAreAt(v: Bytes, k1: Bytes, k2: Bytes, k3: Bytes, rest: Bytes)
    requires |v| == 2 && |k1| == |k2| == |k3| == 32
    ensures var b := v + (k1 + (k2 + (k3 + rest))); At(b, 2, k1) && At(b, 34, k2) && At(b, 66, k3)
  {
    hide At;
    PartAt(v, k1, k2 + (k3 + rest));
    assert v + (k1 + (k2 + (k3 + rest))) == (v + k1) + (k2 + (k3 + rest));
    PartAt(v + k1, k2, k3 + rest);
    assert v + (k1 + (k2 + (k3 + rest))) == (v + k1 + k2) + (k3 + rest);
    PartAt(v + k1 + k2, k3, rest);
  }

  lemma NumbersAreAt(keys: Bytes, h: PendingHeader, rest: Bytes)
    requires |keys| == 98
    ensures var start := keys + (U32Bytes(h.signedPrekeyId) + OneTimeBytes(h.oneTimePrekeyId));
      var b := keys + (U32Bytes(h.signedPrekeyId) + (OneTimeBytes(h.oneTimePrekeyId) + rest));
      && |b| >= 103 && NumberAt(b, 98, h.signedPrekeyId)
      && (if h.oneTimePrekeyId.None? then |start| == 103 && b[102] == 0
          else |start| == 107 && b[102] == 1 && NumberAt(b, 103, h.oneTimePrekeyId.value))
  {
    hide U32Bytes, BigEndian, NumberAt;
    var s := U32Bytes(h.signedPrekeyId);
    U32Length(h.signedPrekeyId);
    NumberIsAt(keys, h.signedPrekeyId, OneTimeBytes(h.oneTimePrekeyId) + rest);
    if h.oneTimePrekeyId.Some? {
      var o := U32Bytes(h.oneTimePrekeyId.value);
      U32Length(h.oneTimePrekeyId.value);
      assert keys + (s + (([1] + o) + rest)) == (keys + s + [1]) + (o + rest);
      NumberIsAt(keys + s + [1], h.oneTimePrekeyId.value, rest);
    }
  }

  // ----- what is refused, and why

  /** The first `n` bytes of a body of any kind are there, and something follows. */
  function BodyOutcome(length: int, start: int): Outcome<()> {
    if length < start + 40 then Fail(Truncated) else if length == start + 40 then Fail(MissingCiphertext) else Ok(())
  }

  function Verdict(b: Bytes): Outcome<()> {
    if |b| < 1 then Fail(Truncated)
    else if b[0] != 1 then Fail(WrongVersion(b[0]))
    else if |b| < 2 then Fail(Truncated)
    else if b[1] != 1 && b[1] != 2 then Fail(UnknownType(b[1]))
    else if b[1] == 2 then BodyOutcome(|b|, 2)
    else if |b| < 103 then Fail(Truncated)
    else if b[102] > 1 then Fail(MalformedFlag)
    else BodyOutcome(|b|, if b[102] == 0 then 103 else 107)
  }

  /** Acceptance and the reason of a refusal, from the length and four bytes alone. */
  lemma ParseOutcome(b: Bytes)
    ensures (Parse(b).Ok? <==> Verdict(b).Ok?) && (Parse(b).Fail? ==> Verdict(b) == Fail(Parse(b).error))
  {
    hide U32Value;
    if |b| >= 103 {
      assert b[1..][1..][32..][32..][32..][4..] == b[102..];
      assert b[102..][0] == b[102];
    }
  }
}
