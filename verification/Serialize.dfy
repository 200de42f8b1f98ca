/**
 Suspending a session to a JSON-safe record and reviving it.
 */
module Serialize {
  import opened Wrappers
  import opened Base64

  const SESSION_FORMAT_VERSION: nat := 1

  datatype KeyPair = KeyPair(publicKey: Bytes, privateKey: Bytes, keyType: string)

  datatype PendingHeader = PendingHeader(
    identityKey: Bytes, identityDhKey: Bytes, ephemeralKey: Bytes,
    signedPrekeyId: nat, oneTimePrekeyId: Option<nat>)

  /** A live session, byte for byte.  The cache is an insertion-ordered map. */
  datatype Live = Live(
    rootKey: Bytes, ourRatchetKey: KeyPair,
    theirRatchetKey: Option<Bytes>, sendingChainKey: Option<Bytes>, receivingChainKey: Option<Bytes>,
    sendCount: nat, receiveCount: nat, previousChainLength: nat,
    skippedKeys: seq<(string, Bytes)>,
    associatedData: Bytes,
    pending: Option<PendingHeader>)

  datatype PairRecord = PairRecord(publicKey: string, privateKey: string, keyType: string)

  datatype PendingRecord = PendingRecord(
    identityKey: string, identityDhKey: string, ephemeralKey: string,
    signedPrekeyId: nat, oneTimePrekeyId: Option<nat>)

  /** What the vault returns; a missing field is `None`. */
  datatype Raw =
    | NotAnObject
    | Record(
        version: int,
        rootKey: string, ourRatchetKey: PairRecord,
        theirRatchetKey: Option<string>, sendingChainKey: Option<string>, receivingChainKey: Option<string>,
        sendCount: nat, receiveCount: nat, previousChainLength: nat,
        skippedKeys: Option<seq<(string, string)>>,
        associatedData: string,
        pending: Option<PendingRecord>)

  datatype Revival = Revived(session: Live) | NotARecord | UnsupportedVersion(version: int) | Undecodable

  // ----- suspending

  function Optionally(key: Option<Bytes>): Option<string> {
    if key.None? then None else Some(Btoa(key.value))
  }

  function EncodeEntries(cache: seq<(string, Bytes)>): seq<(string, string)> {
    if cache == [] then []
    else EncodeEntries(cache[..|cache| - 1]) + [(cache[|cache| - 1].0, Btoa(cache[|cache| - 1].1))]
  }

  function SerializeSession(s: Live): Raw {
    Record(
      SESSION_FORMAT_VERSION,
      Btoa(s.rootKey),
      PairRecord(Btoa(s.ourRatchetKey.publicKey), Btoa(s.ourRatchetKey.privateKey), s.ourRatchetKey.keyType),
      Optionally(s.theirRatchetKey), Optionally(s.sendingChainKey), Optionally(s.receivingChainKey),
      s.sendCount, s.receiveCount, s.previousChainLength,
      Some(EncodeEntries(s.skippedKeys)),
      Btoa(s.associatedData),
      if s.pending.None? then None
      else Some(PendingRecord(Btoa(s.pending.value.identityKey), Btoa(s.pending.value.identityDhKey),
                              Btoa(s.pending.value.ephemeralKey),
                              s.pending.value.signedPrekeyId, s.pending.value.oneTimePrekeyId)))
  }

  // ----- reviving

  /** An empty string is falsy, so it reads as a missing key. */
  function Decoded(text: Option<string>): Option<Option<Bytes>> {
    if text.None? || text.value == "" then Some(None)
    else
      var key := Atob(text.value);
      if key.None? then None else Some(key)
  }

  /** Setting a present id keeps its place. */
  function SetKey(cache: seq<(string, Bytes)>, id: string, key: Bytes): seq<(string, Bytes)> {
    if cache == [] then [(id, key)]
    else if cache[0].0 == id then [(id, key)] + cache[1..]
    else [cache[0]] + SetKey(cache[1..], id, key)
  }

  function DecodeEntries(entries: seq<(string, string)>): Option<seq<(string, Bytes)>> {
    if entries == [] then Some([])
    else
      var before := DecodeEntries(entries[..|entries| - 1]);
      var last := entries[|entries| - 1];
      var key := Atob(last.1);
      if before.None? || key.None? then None else Some(SetKey(before.value, last.0, key.value))
  }

  function DecodePending(pending: Option<PendingRecord>): Option<Option<PendingHeader>> {
    if pending.None? then Some(None)
    else
      var p := pending.value;
      var identity, dh, ephemeral := Atob(p.identityKey), Atob(p.identityDhKey), Atob(p.ephemeralKey);
      if identity.None? || dh.None? || ephemeral.None? then None
      else Some(Some(PendingHeader(identity.value, dh.value, ephemeral.value, p.signedPrekeyId, p.oneTimePrekeyId)))
  }

  function DecodePair(pair: PairRecord): Option<KeyPair> {
    var public, private := Atob(pair.publicKey), Atob(pair.privateKey);
    if public.None? || private.None? then None else Some(KeyPair(public.value, private.value, pair.keyType))
  }

  /** Nothing of an unknown version is ever revived. */
  function DeserializeSession(raw: Raw): (r: Revival)
    ensures r.Revived? ==> raw.Record? && raw.version == SESSION_FORMAT_VERSION
    ensures raw.NotAnObject? <==> r == NotARecord
    ensures raw.Record? && raw.version != 1 <==> r.UnsupportedVersion? && raw.Record? && r.version == raw.version
  {
    if raw.NotAnObject? then NotARecord
    else if raw.version != SESSION_FORMAT_VERSION then UnsupportedVersion(raw.version)
    else
      var root, ours := Atob(raw.rootKey), DecodePair(raw.ourRatchetKey);
      var theirs, sending, receiving :=
        Decoded(raw.theirRatchetKey), Decoded(raw.sendingChainKey), Decoded(raw.receivingChainKey);
      var skipped := DecodeEntries(if raw.skippedKeys.Some? then raw.skippedKeys.value else []);
      var ad, pending := Atob(raw.associatedData), DecodePending(raw.pending);
      if root.None? || ours.None? || theirs.None? || sending.None? || receiving.None? || skipped.None? || ad.None?
          || pending.None?
      then Undecodable
      else Revived(Live(root.value, ours.value, theirs.value, sending.value, receiving.value,
                        raw.sendCount, raw.receiveCount, raw.previousChainLength,
                        skipped.value, ad.value, pending.value))
  }

  // ----- the round trip

  /** A map holds each id once. */
  ghost predicate IsMap(cache: seq<(string, Bytes)>) {
    forall i, j | 0 <= i < j < |cache| :: cache[i].0 != cache[j].0
  }

  lemma {:induction false} SetNewKey(cache: seq<(string, Bytes)>, id: string, key: Bytes)
    requires forall i | 0 <= i < |cache| :: cache[i].0 != id
    ensures SetKey(cache, id, key) == cache + [(id, key)]
  {
    if cache != [] {
      SetNewKey(cache[1..], id, key);
    }
  }

  /** The cache comes back with every key and in the same order. */
  lemma {:induction false} EntriesRoundTrip(cache: seq<(string, Bytes)>)
    requires IsMap(cache)
    ensures DecodeEntries(EncodeEntries(cache)) == Some(cache)
  {
    if cache == [] {
      assert EncodeEntries(cache) == [];
    } else {
      hide Atob, Btoa, SetKey, DecodeEntries, EncodeEntries, IsMap;
      var front, last := cache[..|cache| - 1], cache[|cache| - 1];
      MapFront(cache);
      EntriesRoundTrip(front);
      SetNewKey(front, last.0, last.1);
      OneMoreEntry(front, last);
      assert cache == front + [last];
    }
  }

  lemma MapFront(cache: seq<(string, Bytes)>)
    requires IsMap(cache) && cache != []
    ensures var front := cache[..|cache| - 1];
      IsMap(front) && forall i | 0 <= i < |front| :: front[i].0 != cache[|cache| - 1].0
  {
  }

  lemma OneMoreEntry(front: seq<(string, Bytes)>, last: (string, Bytes))
    requires DecodeEntries(EncodeEntries(front)) == Some(front)
    ensures DecodeEntries(EncodeEntries(front + [last])) == Some(SetKey(front, last.0, last.1))
  {
    hide Atob, Btoa, SetKey;
    RoundTrip(last.1);
    var cache := front + [last];
    assert cache[..|cache| - 1] == front;
    assert EncodeEntries(cache)[..|EncodeEntries(cache)| - 1] == EncodeEntries(front);
  }

  /** What an optional key becomes: an empty one is lost. */
  function Survivor(key: Option<Bytes>): Option<Bytes> {
    if key == Some([]) then None else key
  }

  lemma BtoaIsEmptyExactlyWhen(b: Bytes)
    ensures Btoa(b) == "" <==> b == []
  {
    hide Btoa;
    UnpadBtoa(b);
  }

  lemma OptionalRoundTrip(key: Option<Bytes>)
    ensures Decoded(Optionally(key)) == Some(Survivor(key))
  {
    hide Atob, Btoa;
    if key.Some? {
      RoundTrip(key.value);
      BtoaIsEmptyExactlyWhen(key.value);
    }
  }

  lemma PendingRoundTrip(s: Live)
    ensures DecodePending(SerializeSession(s).pending) == Some(s.pending)
  {
    if s.pending.Some? {
      RoundTrip(s.pending.value.identityKey);
      RoundTrip(s.pending.value.identityDhKey);
      RoundTrip(s.pending.value.ephemeralKey);
      hide Atob, Btoa;
    }
  }

  /** Every field comes back, and the three optional keys unless empty. */
  lemma RevivesTo(s: Live)
    requires IsMap(s.skippedKeys)
    ensures DeserializeSession(SerializeSession(s)) ==
      Revived(s.(theirRatchetKey := Survivor(s.theirRatchetKey),
                 sendingChainKey := Survivor(s.sendingChainKey),
                 receivingChainKey := Survivor(s.receivingChainKey)))
  {
    hide Atob, Btoa, EncodeEntries, DecodeEntries, DecodePending, Decoded, Optionally, Survivor;
    RoundTrip(s.rootKey);
    RoundTrip(s.ourRatchetKey.publicKey);
    RoundTrip(s.ourRatchetKey.privateKey);
    RoundTrip(s.associatedData);
    OptionalRoundTrip(s.theirRatchetKey);
    OptionalRoundTrip(s.sendingChainKey);
    OptionalRoundTrip(s.receivingChainKey);
    EntriesRoundTrip(s.skippedKeys);
    PendingRoundTrip(s);
  }

  /** The session is restored exactly when no optional key is empty. */
  lemma RestoredExactlyWhen(s: Live)
    requires IsMap(s.skippedKeys)
    ensures DeserializeSession(SerializeSession(s)) == Revived(s) <==>
      s.theirRatchetKey != Some([]) && s.sendingChainKey != Some([]) && s.receivingChainKey != Some([])
  {
    RevivesTo(s);
    hide DeserializeSession, SerializeSession;
  }

  /** Every field of the record stands for the session's field of the same name. */
  lemma RecordIsReadable(s: Live)
    ensures var r := SerializeSession(s);
      && r.Record? && r.version == 1
      && Atob(r.rootKey) == Some(s.rootKey) && Atob(r.associatedData) == Some(s.associatedData)
      && Atob(r.ourRatchetKey.publicKey) == Some(s.ourRatchetKey.publicKey)
      && Atob(r.ourRatchetKey.privateKey) == Some(s.ourRatchetKey.privateKey)
      && r.ourRatchetKey.keyType == s.ourRatchetKey.keyType
      && r.sendCount == s.sendCount && r.receiveCount == s.receiveCount
      && r.previousChainLength == s.previousChainLength
      && r.skippedKeys.Some? && |r.skippedKeys.value| == |s.skippedKeys|
  {
    RoundTrip(s.rootKey);
    RoundTrip(s.associatedData);
    RoundTrip(s.ourRatchetKey.publicKey);
    RoundTrip(s.ourRatchetKey.privateKey);
    EntriesAreReadable(s.skippedKeys);
    hide Atob, Btoa;
  }

  lemma {:induction false} EntriesAreReadable(cache: seq<(string, Bytes)>)
    ensures |EncodeEntries(cache)| == |cache|
    ensures forall i | 0 <= i < |cache| ::
      EncodeEntries(cache)[i].0 == cache[i].0 && Atob(EncodeEntries(cache)[i].1) == Some(cache[i].1)
  {
    if cache != [] {
      var front, last := cache[..|cache| - 1], cache[|cache| - 1];
      EntriesAreReadable(front);
      RoundTrip(last.1);
      hide Atob, Btoa;
      var encoded := EncodeEntries(cache);
      assert encoded == EncodeEntries(front) + [(last.0, Btoa(last.1))];
      forall i | 0 <= i < |cache| ensures encoded[i].0 == cache[i].0 && Atob(encoded[i].1) == Some(cache[i].1) {
        assert i < |front| ==> encoded[i] == EncodeEntries(front)[i] && cache[i] == front[i];
      }
    }
  }

  lemma PendingIsReadable(s: Live)
    requires s.pending.Some?
    ensures var r, p := SerializeSession(s), s.pending.value;
      && r.Record? && r.pending.Some?
      && Atob(r.pending.value.identityKey) == Some(p.identityKey)
      && Atob(r.pending.value.identityDhKey) == Some(p.identityDhKey)
      && Atob(r.pending.value.ephemeralKey) == Some(p.ephemeralKey)
      && r.pending.value.signedPrekeyId == p.signedPrekeyId && r.pending.value.oneTimePrekeyId == p.oneTimePrekeyId
  {
    RoundTrip(s.pending.value.identityKey);
    RoundTrip(s.pending.value.identityDhKey);
    RoundTrip(s.pending.value.ephemeralKey);
    hide Atob, Btoa;
  }

  lemma OptionalsAreReadable(s: Live)
    ensures var r := SerializeSession(s);
      && (s.theirRatchetKey.Some? <==> r.theirRatchetKey.Some?)
      && (s.theirRatchetKey.Some? ==> Atob(r.theirRatchetKey.value) == s.theirRatchetKey)
      && (s.sendingChainKey.Some? <==> r.sendingChainKey.Some?)
      && (s.sendingChainKey.Some? ==> Atob(r.sendingChainKey.value) == s.sendingChainKey)
      && (s.receivingChainKey.Some? <==> r.receivingChainKey.Some?)
      && (s.receivingChainKey.Some? ==> Atob(r.receivingChainKey.value) == s.receivingChainKey)
  {
    forall b ensures Atob(Btoa(b)) == Some(b) {
      RoundTrip(b);
    }
    hide Atob, Btoa;
  }

  /** A record without a cache revives with an empty one. */
  lemma MissingCacheIsEmpty(s: Live)
    requires s.skippedKeys == []
    ensures var r := SerializeSession(s);
      r.Record? && DeserializeSession(r.(skippedKeys := None)) == DeserializeSession(r)
  {
    hide Atob, Btoa;
  }

  /** A chain key of no bytes would come back as no chain key.  Chain keys are
      32-byte outputs and ratchet keys are checked to have 32 bytes, so no session
      holds one. */
  lemma EmptyKeyIsLost()
    ensures var pair := KeyPair([1], [2], "x25519");
      var s := Live([3], pair, Some([4]), Some([]), None, 0, 0, 0, [], [5], None);
      DeserializeSession(SerializeSession(s)) == Revived(s.(sendingChainKey := None))
  {
    var s := Live([3], KeyPair([1], [2], "x25519"), Some([4]), Some([]), None, 0, 0, 0, [], [5], None);
    RevivesTo(s);
    hide DeserializeSession, SerializeSession;
  }

  // ----- the cache id

  function Decimal(n: nat): string {
    (if n < 10 then "" else Decimal(n / 10)) + [(n % 10 + 48) as char]
  }

  function SkippedKeyId(dhPublicKey: Bytes, messageNumber: nat): string {
    Btoa(dhPublicKey) + ":" + Decimal(messageNumber)
  }

  function Numeral(text: string): int {
    if text == "" then 0 else 10 * Numeral(text[..|text| - 1]) + text[|text| - 1] as int - 48
  }

  lemma {:induction false} NumeralOfDecimal(n: nat)
    ensures Numeral(Decimal(n)) == n
  {
    var text := Decimal(n);
    if n >= 10 {
      NumeralOfDecimal(n / 10);
      assert text[..|text| - 1] == Decimal(n / 10);
    } else {
      assert text[..|text| - 1] == "";
    }
  }

  /** Different keys or numbers never share a cache id. */
  lemma SkippedKeyIdIsInjective(a: Bytes, m: nat, b: Bytes, n: nat)
    requires SkippedKeyId(a, m) == SkippedKeyId(b, n)
    ensures a == b && m == n
  {
    BtoaHasNoColon(a);
    BtoaHasNoColon(b);
    SplitAtColon(Btoa(a), Decimal(m), Btoa(b), Decimal(n));
    BtoaIsInjective(a, b);
    NumeralOfDecimal(m);
    NumeralOfDecimal(n);
  }

  lemma SplitAtColon(a: string, m: string, b: string, n: string)
    requires a + ":" + m == b + ":" + n && ':' !in a && ':' !in b
    ensures a == b && m == n
  {
    var whole := a + ":" + m;
    assert whole[|a|] == ':' && whole[|b|] == ':';
    assert |a| == |b|;
    assert a == whole[..|a|] && m == whole[|a| + 1..];
    assert b == whole[..|b|] && n == whole[|b| + 1..];
  }
}
