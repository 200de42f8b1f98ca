/**
 The wire format as the code performs it: a writer that collects parts and copies
 them with a running offset, and a reader that advances through a buffer.
 */
module EnvelopeBuffers {
  import opened Wrappers
  import opened Base64
  import opened Serialize
  import opened Envelope

  function Joined(parts: seq<Bytes>): Bytes {
    if parts == [] then [] else Joined(parts[..|parts| - 1]) + parts[|parts| - 1]
  }

  lemma JoinedNone()
    ensures Joined([]) == []
  {
  }

  lemma JoinedSnoc(parts: seq<Bytes>, part: Bytes)
    ensures Joined(parts + [part]) == Joined(parts) + part
  {
    assert (parts + [part])[..|parts|] == parts;
  }

  lemma {:induction false} JoinedPrefix(parts: seq<Bytes>, i: nat)
    requires i <= |parts|
    ensures |Joined(parts[..i])| <= |Joined(parts)|
    decreases |parts| - i
  {
    if i == |parts| {
      assert parts[..i] == parts;
    } else {
      JoinedSnoc(parts[..i], parts[i]);
      assert parts[..i + 1] == parts[..i] + [parts[i]];
      JoinedPrefix(parts, i + 1);
    }
  }

  class Writer {
    var parts: seq<Bytes>

    ghost function Contents(): Bytes
      reads this
    {
      Joined(parts)
    }

    constructor ()
      ensures Contents() == []
    {
      parts := [];
    }

    method PutU8(value: Byte)
      modifies this
      ensures Contents() == old(Contents()) + [value]
    {
      JoinedSnoc(parts, [value]);
      parts := parts + [[value]];
    }

    method PutU32(value: nat)
      modifies this
      ensures Contents() == old(Contents()) + U32Bytes(value)
    {
      JoinedSnoc(parts, U32Bytes(value));
      parts := parts + [U32Bytes(value)];
    }

    method PutBytes(value: Bytes)
      modifies this
      ensures Contents() == old(Contents()) + value
    {
      JoinedSnoc(parts, value);
      parts := parts + [value];
    }

    method Finish() returns (out: array<Byte>)
      ensures fresh(out) && out[..] == Contents()
    {
      out := Concatenate(parts);
    }
  }

  /** Sums the lengths, then copies part after part with a running offset. */
  method Concatenate(parts: seq<Bytes>) returns (out: array<Byte>)
    ensures fresh(out) && out[..] == Joined(parts)
  {
    var total := 0;
    for i := 0 to |parts|
      invariant total == |Joined(parts[..i])|
    {
      JoinedSnoc(parts[..i], parts[i]);
      assert parts[..i + 1] == parts[..i] + [parts[i]];
      total := total + |parts[i]|;
    }
    assert parts[..|parts|] == parts;
    out := new Byte[total];
    var offset := 0;
    for i := 0 to |parts|
      invariant offset == |Joined(parts[..i])| <= total == out.Length == |Joined(parts)|
      invariant out[..offset] == Joined(parts[..i])
    {
      JoinedSnoc(parts[..i], parts[i]);
      assert parts[..i + 1] == parts[..i] + [parts[i]];
      JoinedPrefix(parts, i + 1);
      CopyAt(out, offset, parts[i]);
      offset := offset + |parts[i]|;
    }
    assert out[..offset] == out[..];
  }

  /** `Uint8Array.set`: writes one part and leaves what precedes it. */
  method CopyAt(out: array<Byte>, offset: nat, part: Bytes)
    requires offset + |part| <= out.Length
    modifies out
    ensures out[..offset + |part|] == old(out[..offset]) + part
  {
    for i := 0 to |part|
      invariant out[..offset + i] == old(out[..offset]) + part[..i]
    {
      out[offset + i] := part[i];
      assert out[..offset + i + 1] == out[..offset + i] + [part[i]];
    }
  }

  method WriteRatchetHeader(w: Writer, header: RatchetHeader) returns (r: Outcome<()>)
    modifies w
    ensures r == if |header.dhPublicKey| == KEY_LENGTH then Ok(()) else Fail(WrongKeyLength)
    ensures w.Contents() == old(w.Contents()) + if r.Ok? then HeaderBytes(header) else []
  {
    if |header.dhPublicKey| != KEY_LENGTH {
      return Fail(WrongKeyLength);
    }
    hide U32Bytes, Joined;
    w.PutBytes(header.dhPublicKey);
    w.PutU32(header.previousChainLength);
    w.PutU32(header.messageNumber);
    r := Ok(());
  }

  method WriteOneTime(w: Writer, id: Option<nat>)
    modifies w
    ensures w.Contents() == old(w.Contents()) + OneTimeBytes(id)
  {
    hide U32Bytes, Joined;
    w.PutU8(if id.None? then 0 else 1);
    if id.Some? {
      w.PutU32(id.value);
    }
  }

  method WriteKeys(w: Writer, h: PendingHeader)
    modifies w
    ensures w.Contents() == old(w.Contents()) + (h.identityKey + (h.identityDhKey + h.ephemeralKey))
  {
    hide Joined;
    w.PutBytes(h.identityKey);
    w.PutBytes(h.identityDhKey);
    w.PutBytes(h.ephemeralKey);
  }

  lemma Regroup(a: Bytes, h: PendingHeader, u: Bytes, o: Bytes)
    ensures a + (h.identityKey + (h.identityDhKey + h.ephemeralKey)) + u + o ==
      a + (h.identityKey + (h.identityDhKey + (h.ephemeralKey + (u + o))))
  {
  }

  method WriteHandshake(w: Writer, h: PendingHeader)
    modifies w
    ensures w.Contents() == old(w.Contents()) + HandshakeBytes(h)
  {
    hide U32Bytes, Joined, OneTimeBytes;
    ghost var before := w.Contents();
    WriteKeys(w, h);
    w.PutU32(h.signedPrekeyId);
    WriteOneTime(w, h.oneTimePrekeyId);
    Regroup(before, h, U32Bytes(h.signedPrekeyId), OneTimeBytes(h.oneTimePrekeyId));
  }

  method WritePreamble(w: Writer, x3dh: Option<PendingHeader>)
    requires w.Contents() == []
    modifies w
    ensures w.Contents() == PreambleBytes(x3dh)
  {
    hide HandshakeBytes, Joined;
    w.PutU8(ENVELOPE_VERSION);
    if x3dh.Some? {
      w.PutU8(INITIAL);
      WriteHandshake(w, x3dh.value);
    } else {
      w.PutU8(NORMAL);
    }
  }

  /** Printing refuses keys of the wrong length and nothing else. */
  method EncodeMessage(m: InnerMessage) returns (r: Outcome<array<Byte>>)
    ensures r.Ok? <==> GoodKeys(m)
    ensures r.Ok? ==> r.value[..] == Print(m)
    ensures r.Fail? ==> r.error == WrongKeyLength
  {
    hide HeaderBytes, PreambleBytes, Joined;
    if m.x3dh.Some? {
      var h := m.x3dh.value;
      if |h.identityKey| != KEY_LENGTH || |h.identityDhKey| != KEY_LENGTH || |h.ephemeralKey| != KEY_LENGTH {
        return Fail(WrongKeyLength);
      }
    }
    var w := new Writer();
    WritePreamble(w, m.x3dh);
    var header := WriteRatchetHeader(w, m.header);
    if header.Fail? {
      return Fail(header.error);
    }
    w.PutBytes(m.ciphertext);
    var out := w.Finish();
    r := Ok(out);
  }

  /** What a read returns, and where it leaves the reader. */
  ghost predicate Reads<T(!new)>(before: Bytes, expected: Outcome<(T, Bytes)>, r: Outcome<T>, after: Bytes) {
    match expected
    case Ok(v) => r == Ok(v.0) && after == v.1
    case Fail(e) => r == Fail(e) && after == before
  }

  class Reader {
    const buf: array<Byte>
    var offset: nat

    /** Never past the end. */
    ghost predicate Valid()
      reads this
    {
      offset <= buf.Length
    }

    ghost function Rest(): Bytes
      reads this, buf
      requires Valid()
    {
      buf[offset..]
    }

    constructor (buf: array<Byte>)
      ensures Valid() && this.buf == buf && Rest() == buf[..]
    {
      this.buf, offset := buf, 0;
    }

    method GetU8() returns (r: Outcome<Byte>)
      requires Valid()
      modifies this
      ensures Valid() && Reads(old(Rest()), U8(old(Rest())), r, Rest())
    {
      if offset + 1 > buf.Length {
        return Fail(Truncated);
      }
      r := Ok(buf[offset]);
      offset := offset + 1;
    }

    method GetU32() returns (r: Outcome<nat>)
      requires Valid()
      modifies this
      ensures Valid() && Reads(old(Rest()), U32(old(Rest())), r, Rest())
    {
      if offset + 4 > buf.Length {
        return Fail(Truncated);
      }
      assert Rest()[..4] == buf[offset..offset + 4];
      r := Ok(U32Value(buf[offset..offset + 4]));
      offset := offset + 4;
      assert old(Rest())[4..] == Rest();
    }

    method GetBytes(n: nat) returns (r: Outcome<Bytes>)
      requires Valid()
      modifies this
      ensures Valid() && Reads(old(Rest()), Chunk(old(Rest()), n), r, Rest())
    {
      if offset + n > buf.Length {
        return Fail(Truncated);
      }
      r := Ok(buf[offset..offset + n]);
      assert Rest()[..n] == buf[offset..offset + n];
      offset := offset + n;
      assert old(Rest())[n..] == Rest();
    }

    method GetRest() returns (value: Bytes)
      requires Valid()
      modifies this
      ensures Valid() && value == old(Rest()) && Rest() == []
    {
      value := buf[offset..];
      offset := buf.Length;
    }

    method ReadOneTime() returns (r: Outcome<Option<nat>>)
      requires Valid()
      modifies this
      ensures Valid()
      ensures var p := ParseOneTime(old(Rest()));
        if p.Ok? then r == Ok(p.value.0) && Rest() == p.value.1 else r == Fail(p.error)
    {
      hide U32;
      var flag :- GetU8();
      if flag > 1 {
        return Fail(MalformedFlag);
      }
      if flag == 0 {
        return Ok(None);
      }
      var id :- GetU32();
      r := Ok(Some(id));
    }

    method ReadHandshake() returns (r: Outcome<PendingHeader>)
      requires Valid()
      modifies this
      ensures Valid()
      ensures var p := ParseHandshake(old(Rest()));
        if p.Ok? then r == Ok(p.value.0) && Rest() == p.value.1 else r == Fail(p.error)
    {
      hide U32, Chunk, ParseOneTime;
      var identity :- GetBytes(KEY_LENGTH);
      var dh :- GetBytes(KEY_LENGTH);
      var ephemeral :- GetBytes(KEY_LENGTH);
      var signed :- GetU32();
      var oneTime :- ReadOneTime();
      r := Ok(PendingHeader(identity, dh, ephemeral, signed, oneTime));
    }

    method ReadPreamble() returns (r: Outcome<Option<PendingHeader>>)
      requires Valid()
      modifies this
      ensures Valid()
      ensures var p := ParsePreamble(old(Rest()));
        if p.Ok? then r == Ok(p.value.0) && Rest() == p.value.1 else r == Fail(p.error)
    {
      hide ParseHandshake;
      var version :- GetU8();
      if version != ENVELOPE_VERSION {
        return Fail(WrongVersion(version));
      }
      var kind :- GetU8();
      if kind != INITIAL && kind != NORMAL {
        return Fail(UnknownType(kind));
      }
      if kind == NORMAL {
        return Ok(None);
      }
      var x3dh :- ReadHandshake();
      r := Ok(Some(x3dh));
    }

    method ReadHeader() returns (r: Outcome<RatchetHeader>)
      requires Valid()
      modifies this
      ensures Valid()
      ensures var p := ParseHeader(old(Rest()));
        if p.Ok? then r == Ok(p.value.0) && Rest() == p.value.1 else r == Fail(p.error)
    {
      hide U32, Chunk;
      var dh :- GetBytes(KEY_LENGTH);
      var previous :- GetU32();
      var number :- GetU32();
      r := Ok(RatchetHeader(dh, previous, number));
    }
  }

  /** Accepts exactly the bytes some fitting message prints to, and returns it. */
  method DecodeMessage(raw: array<Byte>) returns (r: Outcome<InnerMessage>)
    ensures r == Parse(raw[..])
    ensures r.Ok? ==> Fits(r.value) && Print(r.value) == raw[..]
    ensures r.Fail? ==> forall m | Fits(m) :: Print(m) != raw[..]
  {
    ghost var b := raw[..];
    forall m ensures Parse(b) == Ok(m) <==> Fits(m) && Print(m) == b {
      AcceptsExactlyThePrinted(b, m);
    }
    hide ParsePreamble, ParseHeader, Print, Fits;
    var reader := new Reader(raw);
    var preamble := reader.ReadPreamble();
    if preamble.Fail? {
      return Fail(preamble.error);
    }
    var header := reader.ReadHeader();
    if header.Fail? {
      return Fail(header.error);
    }
    var ciphertext := reader.GetRest();
    if |ciphertext| == 0 {
      return Fail(MissingCiphertext);
    }
    r := Ok(InnerMessage(preamble.value, header.value, ciphertext));
  }
}
