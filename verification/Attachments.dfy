/**
 Files sent in chunks, and the assembler that puts them together again.
 */
module Attachments {
  import opened Wrappers
  import opened Base64
  import EnvelopeBuffers

  const MAX_CHUNK_BYTES: nat := 32768

  datatype Input = Input(id: string, name: string, mimeType: string, bytes: Bytes, timestamp: int,
      caption: Option<string>)

  datatype Chunk = Chunk(id: string, name: string, mimeType: string, size: nat, chunkIndex: nat, chunkCount: nat,
                         data: string, timestamp: int, caption: Option<string>)

  // ----- splitting

  function ChunkCount(size: nat): nat {
    var n := (size + MAX_CHUNK_BYTES - 1) / MAX_CHUNK_BYTES;
    if n < 1 then 1 else n
  }

  /** `slice` clamps both ends to the length. */
  function Cut(size: nat, i: nat): nat {
    if i * MAX_CHUNK_BYTES < size then i * MAX_CHUNK_BYTES else size
  }

  function Slice(bytes: Bytes, i: nat): Bytes {
    bytes[Cut(|bytes|, i)..Cut(|bytes|, i + 1)]
  }

  function ChunkOf(input: Input, i: nat): Chunk {
    var count := ChunkCount(|input.bytes|);
    Chunk(input.id, input.name, input.mimeType, |input.bytes|, i, count, Btoa(Slice(input.bytes, i)), input.timestamp,
          if i == count - 1 then input.caption else None)
  }

  /** Every chunk's text fits its envelope, and no chunk but the only one is empty. */
  lemma ChunkFits(input: Input, i: nat)
    requires i < ChunkCount(|input.bytes|)
    ensures |ChunkOf(input, i).data| <= 43692
    ensures input.bytes != [] ==> ChunkOf(input, i).data != ""
  {
    UnpadBtoa(Slice(input.bytes, i));
    hide Btoa;
  }

  /** As many chunks as the file needs, and one for an empty file. */
  lemma CountFits(size: nat)
    ensures var n := ChunkCount(size);
      n >= 1 && (n - 1) * 32768 <= size <= n * 32768 && (size > 0 ==> (n - 1) * 32768 < size)
  {
  }

  /** A chunk carries the file's own metadata, its place, and its part of the bytes. */
  ghost predicate Carries(c: Chunk, input: Input, i: nat, total: nat) {
    && c.id == input.id && c.name == input.name && c.mimeType == input.mimeType && c.timestamp == input.timestamp
    && c.size == |input.bytes| && c.chunkIndex == i && c.chunkCount == total
    && c.caption == (if i + 1 == total then input.caption else None)
    && var end := if i + 1 == total then |input.bytes| else (i + 1) * 32768;
    && i * 32768 <= end <= |input.bytes| && Atob(c.data) == Some(input.bytes[i * 32768..end])
  }

  lemma ChunkCarries(input: Input, i: nat)
    requires i < ChunkCount(|input.bytes|)
    ensures Carries(ChunkOf(input, i), input, i, ChunkCount(|input.bytes|))
  {
    CountFits(|input.bytes|);
    RoundTrip(Slice(input.bytes, i));
    hide Atob, Btoa, ChunkCount;
  }

  method ChunkAttachment(input: Input) returns (chunks: seq<Chunk>)
    ensures |chunks| == ChunkCount(|input.bytes|)
    ensures forall i | 0 <= i < |chunks| :: chunks[i] == ChunkOf(input, i) && |chunks[i].data| <= 43692
    ensures forall i | 0 <= i < |chunks| :: Carries(chunks[i], input, i, |chunks|)
    ensures var n, size := |chunks|, |input.bytes|;
      n >= 1 && (n - 1) * 32768 <= size <= n * 32768 && (size > 0 ==> (n - 1) * 32768 < size)
  {
    hide Btoa, Carries;
    CountFits(|input.bytes|);
    var total := ChunkCount(|input.bytes|);
    chunks := [];
    for i := 0 to total
      invariant |chunks| == i
      invariant forall k | 0 <= k < i :: chunks[k] == ChunkOf(input, k) && |chunks[k].data| <= 43692
      invariant forall k | 0 <= k < i :: Carries(chunks[k], input, k, total)
    {
      ChunkFits(input, i);
      ChunkCarries(input, i);
      var slice := Slice(input.bytes, i);
      chunks := chunks + [Chunk(input.id, input.name, input.mimeType, |input.bytes|, i, total, Btoa(slice),
                                input.timestamp, if i == total - 1 then input.caption else None)];
    }
  }

  // ----- putting together

  datatype AddError = OtherAttachment | CountChanged | BadData | MissingChunk | SizeMismatch

  datatype Added =
    | Waiting
    | Complete(name: string, mimeType: string, bytes: Bytes, caption: Option<string>)
    | Refused(error: AddError)

  datatype State = State(parts: map<nat, Bytes>, meta: Option<Chunk>)

  const EMPTY := State(map[], None)

  predicate HasAll(parts: map<nat, Bytes>, count: nat) {
    forall i | 0 <= i < count :: i in parts
  }

  function Together(parts: map<nat, Bytes>, count: nat): Bytes
    requires HasAll(parts, count)
  {
    if count == 0 then [] else Together(parts, count - 1) + parts[count - 1]
  }

  /** The metadata of the first chunk seen, with any caption seen since. */
  function Meta(meta: Option<Chunk>, c: Chunk): Chunk {
    var first := if meta.Some? then meta.value else c;
    if c.caption.Some? then first.(caption := c.caption) else first
  }

  function Finished(parts: map<nat, Bytes>, count: nat, meta: Chunk): Added {
    if |parts| != count then Waiting
    else if !HasAll(parts, count) then Refused(MissingChunk)
    else if |Together(parts, count)| != meta.size then Refused(SizeMismatch)
    else Complete(meta.name, meta.mimeType, Together(parts, count), meta.caption)
  }

  /** One chunk, and what the caller is told. */
  function Feed(s: State, c: Chunk): (State, Added) {
    if s.meta.Some? && s.meta.value.id != c.id then (s, Refused(OtherAttachment))
    else if s.meta.Some? && s.meta.value.chunkCount != c.chunkCount then (s, Refused(CountChanged))
    else
      var meta, data := Meta(s.meta, c), Atob(c.data);
      if data.None? then (State(s.parts, Some(meta)), Refused(BadData))
      else
        var parts := s.parts[c.chunkIndex := data.value];
        (State(parts, Some(meta)), Finished(parts, c.chunkCount, meta))
  }

  class Assembler {
    var parts: map<nat, Bytes>
    var meta: Option<Chunk>

    ghost function Now(): State
      reads this
    {
      State(parts, meta)
    }

    constructor ()
      ensures Now() == EMPTY
    {
      parts, meta := map[], None;
    }

    method Add(chunk: Chunk) returns (r: Added)
      modifies this
      ensures (Now(), r) == Feed(old(Now()), chunk)
    {
      hide Atob, Together;
      if meta.Some? && meta.value.id != chunk.id {
        return Refused(OtherAttachment);
      }
      if meta.Some? && meta.value.chunkCount != chunk.chunkCount {
        return Refused(CountChanged);
      }
      if meta.None? {
        meta := Some(chunk);
      }
      if chunk.caption.Some? {
        meta := Some(meta.value.(caption := chunk.caption));
      }
      var data := Atob(chunk.data);
      if data.None? {
        return Refused(BadData);
      }
      parts := parts[chunk.chunkIndex := data.value];
      r := Finish(parts, chunk.chunkCount, meta.value);
    }
  }

  /** Collects the parts in order and copies them with a running offset. */
  method Finish(parts: map<nat, Bytes>, count: nat, meta: Chunk) returns (r: Added)
    ensures r == Finished(parts, count, meta)
  {
    hide EnvelopeBuffers.Joined;
    if |parts| != count {
      return Waiting;
    }
    EnvelopeBuffers.JoinedNone();
    var ordered: seq<Bytes> := [];
    for i := 0 to count
      invariant HasAll(parts, i) && EnvelopeBuffers.Joined(ordered) == Together(parts, i)
    {
      if i !in parts {
        return Refused(MissingChunk);
      }
      EnvelopeBuffers.JoinedSnoc(ordered, parts[i]);
      ordered := ordered + [parts[i]];
    }
    var bytes := EnvelopeBuffers.Concatenate(ordered);
    assert |bytes[..]| == bytes.Length;
    if bytes.Length != meta.size {
      return Refused(SizeMismatch);
    }
    r := Complete(meta.name, meta.mimeType, bytes[..], meta.caption);
  }

  // ----- any order, any duplicates

  function Seen(order: seq<nat>): set<nat> {
    set i | i in order
  }

  ghost predicate Whole(input: Input, order: seq<nat>) {
    forall i | 0 <= i < ChunkCount(|input.bytes|) :: i in order
  }

  /** The assembler after a list of chunk indexes, and its last answer. */
  function FeedAll(input: Input, order: seq<nat>): (State, Added) {
    if order == [] then (EMPTY, Waiting)
    else
      var before := FeedAll(input, order[..|order| - 1]);
      Feed(before.0, ChunkOf(input, order[|order| - 1]))
  }

  /** What the assembler holds: the slices seen, and the metadata. */
  ghost predicate Holds(input: Input, order: seq<nat>, s: State) {
    && s.parts.Keys == Seen(order)
    && (forall i | i in s.parts :: s.parts[i] == Slice(input.bytes, i))
    && s.meta.Some? == (order != [])
    && (s.meta.Some? ==>
      var count, m := ChunkCount(|input.bytes|), s.meta.value;
      && m.id == input.id && m.name == input.name && m.mimeType == input.mimeType
      && m.size == |input.bytes| && m.chunkCount == count
      && m.caption == if count - 1 in order then input.caption else None)
  }

  lemma FeedHolds(input: Input, order: seq<nat>, s: State, i: nat)
    requires Holds(input, order, s)
    ensures Holds(input, order + [i], Feed(s, ChunkOf(input, i)).0)
  {
    RoundTrip(Slice(input.bytes, i));
    hide Atob, Btoa, Slice, Finished, ChunkCount;
    var s' := Feed(s, ChunkOf(input, i)).0;
    assert s'.parts == s.parts[i := Slice(input.bytes, i)];
    assert Seen(order + [i]) == Seen(order) + {i};
  }

  lemma NothingHeld(input: Input)
    ensures Holds(input, [], EMPTY)
  {
  }

  lemma {:induction false} FeedAllHolds(input: Input, order: seq<nat>)
    ensures Holds(input, order, FeedAll(input, order).0)
  {
    hide Holds, Feed, ChunkOf;
    if order == [] {
      NothingHeld(input);
    } else {
      var front, i := order[..|order| - 1], order[|order| - 1];
      FeedAllHolds(input, front);
      FeedHolds(input, front, FeedAll(input, front).0, i);
      assert order == front + [i];
    }
  }

  /** Mid-transfer, a chunk of another file or with another count is refused and
      changes nothing. */
  lemma StrangersAreRefused(input: Input, order: seq<nat>, c: Chunk)
    requires order != [] && (c.id != input.id || c.chunkCount != ChunkCount(|input.bytes|))
    ensures var s := FeedAll(input, order).0;
      Feed(s, c) == (s, Refused(if c.id != input.id then OtherAttachment else CountChanged))
  {
    FeedAllHolds(input, order);
    hide FeedAll, ChunkCount;
  }

  // ----- whatever arrives

  /** Data that does not decode is refused and joins no file. */
  lemma BadDataIsRefused(s: State, c: Chunk)
    requires Atob(c.data).None? && (s.meta.Some? ==> s.meta.value.id == c.id && s.meta.value.chunkCount == c.chunkCount)
    ensures Feed(s, c).1 == Refused(BadData) && Feed(s, c).0.parts == s.parts
  {
  }

  /** With as many parts as announced there is an answer: the file, or what is wrong
      with it. */
  lemma AnsweredWhenFull(parts: map<nat, Bytes>, count: nat, meta: Chunk)
    ensures var r := Finished(parts, count, meta);
      && (r.Waiting? <==> |parts| != count)
      && (r == Refused(MissingChunk) <==> |parts| == count && exists i :: 0 <= i < count && i !in parts)
      && (r == Refused(SizeMismatch) <==>
          |parts| == count && HasAll(parts, count) && |Together(parts, count)| != meta.size)
  {
  }

  function FeedSeq(cs: seq<Chunk>): (State, Added) {
    if cs == [] then (EMPTY, Waiting) else Feed(FeedSeq(cs[..|cs| - 1]).0, cs[|cs| - 1])
  }

  /** A chunk of the file the first chunk began, with data that decodes. */
  predicate Belongs(cs: seq<Chunk>, k: nat)
    requires k < |cs|
  {
    cs[k].id == cs[0].id && cs[k].chunkCount == cs[0].chunkCount && Atob(cs[k].data).Some?
  }

  /** The data of the last such chunk with an index. */
  function Latest(cs: seq<Chunk>, index: nat): Option<Bytes> {
    if cs == [] then None
    else if Belongs(cs, |cs| - 1) && cs[|cs| - 1].chunkIndex == index then Atob(cs[|cs| - 1].data)
    else Latest(cs[..|cs| - 1], index)
  }

  ghost predicate Tracks(cs: seq<Chunk>, s: State) {
    && s.meta.Some? == (cs != [])
    && (s.meta.Some? ==> s.meta.value.(caption := None) == cs[0].(caption := None))
    && forall i: nat :: Latest(cs, i) == if i in s.parts then Some(s.parts[i]) else None
  }

  lemma LatestMore(cs: seq<Chunk>, c: Chunk, i: nat)
    ensures var more := cs + [c];
      Latest(more, i) == if Belongs(more, |cs|) && c.chunkIndex == i then Atob(c.data) else Latest(cs, i)
  {
    hide Atob;
    assert (cs + [c])[..|cs|] == cs;
  }

  lemma FeedTracks(cs: seq<Chunk>, s: State, c: Chunk)
    requires Tracks(cs, s)
    ensures Tracks(cs + [c], Feed(s, c).0)
  {
    hide Atob, Finished;
    var more, s' := cs + [c], Feed(s, c).0;
    forall i: nat ensures Latest(more, i) == if i in s'.parts then Some(s'.parts[i]) else None {
      hide Latest;
      LatestMore(cs, c, i);
    }
  }

  lemma {:induction false} FeedSeqTracks(cs: seq<Chunk>)
    ensures Tracks(cs, FeedSeq(cs).0)
  {
    if cs != [] {
      hide Tracks, Feed;
      FeedSeqTracks(cs[..|cs| - 1]);
      FeedTracks(cs[..|cs| - 1], FeedSeq(cs[..|cs| - 1]).0, cs[|cs| - 1]);
      assert cs == cs[..|cs| - 1] + [cs[|cs| - 1]];
    }
  }

  /** Whatever chunks arrive, forged ones among them, a complete file is the latest
      matching chunk of every index, in order, under the first chunk's name and of
      the size it announced. */
  lemma CompleteIsWhole(cs: seq<Chunk>) returns (parts: map<nat, Bytes>)
    requires FeedSeq(cs).1.Complete?
    ensures cs != [] && HasAll(parts, cs[0].chunkCount)
    ensures forall i | 0 <= i < cs[0].chunkCount :: Latest(cs, i) == Some(parts[i])
    ensures var file := FeedSeq(cs).1;
      && file.bytes == Together(parts, cs[0].chunkCount) && |file.bytes| == cs[0].size
      && file.name == cs[0].name && file.mimeType == cs[0].mimeType
  {
    var front, c := cs[..|cs| - 1], cs[|cs| - 1];
    FeedSeqTracks(cs);
    FeedSeqTracks(front);
    assert front != [] ==> front[0] == cs[0];
    hide Atob, Latest, FeedSeq;
    parts := FeedSeq(cs).0.parts;
    FeedComplete(FeedSeq(front).0, c);
  }

  lemma FeedComplete(s: State, c: Chunk)
    requires Feed(s, c).1.Complete?
    ensures var s', file := Feed(s, c).0, Feed(s, c).1;
      && s'.meta.Some? && HasAll(s'.parts, c.chunkCount) && s'.meta.value.chunkCount == c.chunkCount
      && file == Complete(s'.meta.value.name, s'.meta.value.mimeType, Together(s'.parts, c.chunkCount),
          s'.meta.value.caption)
      && |file.bytes| == s'.meta.value.size
  {
    hide Atob, Together;
  }

  /** The slices in order are the file. */
  lemma {:induction false} SlicesJoin(bytes: Bytes, parts: map<nat, Bytes>, count: nat)
    requires HasAll(parts, count) && forall i | 0 <= i < count :: parts[i] == Slice(bytes, i)
    ensures Together(parts, count) == bytes[..Cut(|bytes|, count)]
  {
    if count > 0 {
      SlicesJoin(bytes, parts, count - 1);
    }
  }

  lemma CutsEnd(size: nat)
    ensures Cut(size, ChunkCount(size)) == size
  {
  }

  lemma {:induction false} Range(count: nat) returns (all: set<nat>)
    ensures |all| == count && forall i: nat :: i in all <==> i < count
  {
    if count == 0 {
      all := {};
    } else {
      var fewer := Range(count - 1);
      all := fewer + {count - 1};
    }
  }

  /** As many indexes below `count` as `count` are all of them. */
  lemma AllSeen(seen: set<nat>, count: nat)
    requires forall i | i in seen :: i < count
    ensures |seen| == count <==> forall i | 0 <= i < count :: i in seen
  {
    var all := Range(count);
    assert seen <= all;
    assert all == seen + (all - seen);
    assert |seen| == count ==> all - seen == {};
    assert (forall i | 0 <= i < count :: i in seen) ==> seen == all;
  }

  lemma FinishedExactlyWhenWhole(input: Input, order: seq<nat>, s: State)
    requires Holds(input, order, s) && order != [] && forall i | i in order :: i < ChunkCount(|input.bytes|)
    ensures Finished(s.parts, ChunkCount(|input.bytes|), s.meta.value) ==
      if Whole(input, order) then Complete(input.name, input.mimeType, input.bytes, input.caption) else Waiting
  {
    hide Slice;
    var count := ChunkCount(|input.bytes|);
    CutsEnd(|input.bytes|);
    hide ChunkCount, Cut;
    AllSeen(s.parts.Keys, count);
    assert |s.parts| == |s.parts.Keys| && forall i :: i in s.parts.Keys <==> i in order;
    assert |s.parts| == count <==> Whole(input, order);
    if Whole(input, order) {
      SlicesJoin(input.bytes, s.parts, count);
      assert input.bytes[..|input.bytes|] == input.bytes;
    }
  }

  /** Chunks in any order and with any repeats: nothing while one is missing, and
      from then on exactly the original bytes, name and caption. */
  lemma AnyOrderAssembles(input: Input, order: seq<nat>)
    requires order != [] && forall i | i in order :: i < ChunkCount(|input.bytes|)
    ensures FeedAll(input, order).1 ==
      if Whole(input, order) then Complete(input.name, input.mimeType, input.bytes, input.caption) else Waiting
  {
    var front, i := order[..|order| - 1], order[|order| - 1];
    FeedAllHolds(input, front);
    FeedAllHolds(input, order);
    var s := FeedAll(input, front).0;
    FinishedExactlyWhenWhole(input, order, FeedAll(input, order).0);
    AnswerIsFinished(input, front, s, i);
  }

  lemma AnswerIsFinished(input: Input, order: seq<nat>, s: State, i: nat)
    requires Holds(input, order, s)
    ensures var r := Feed(s, ChunkOf(input, i));
      r.0.meta.Some? && r.1 == Finished(r.0.parts, ChunkCount(|input.bytes|), r.0.meta.value)
  {
    RoundTrip(Slice(input.bytes, i));
    hide Atob, Btoa, Slice, Finished, ChunkCount;
  }
}
