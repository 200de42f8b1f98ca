/**
 The Double Ratchet session as a function of its state.

 Each function is what the corresponding in-place routine computes; module
 RatchetHeap proves the in-place routines against these, and module RatchetRun
 proves what two parties obtain when they run them over a hostile network.
 */
module Ratchet {
  import opened Wrappers
  import opened Crypto

  const MAX_SKIPPED_KEYS: nat := 2000
  const MAX_SKIP_CHAINS: nat := 64

  /** The cache is keyed by ratchet key and message number. */
  datatype Id = Id(dh: PublicKey, number: nat)

  datatype Entry = Entry(id: Id, key: Key)

  datatype State = State(
    root: Key,
    ours: nat,
    theirs: Option<nat>,
    sending: Option<Key>,
    receiving: Option<Key>,
    sendCount: nat,
    receiveCount: nat,
    previousLength: nat,
    skipped: seq<Entry>,
    ad: AssociatedData)

  /** A receiving chain exists only once the peer's ratchet key is known. */
  predicate WellFormed(s: State) {
    s.receiving.Some? ==> s.theirs.Some?
  }

  datatype Error = MalformedKey | RefusedKey | NoSendingChain | TooManySkipped | NoReceivingChain | Unauthentic

  // ----- the insertion-ordered cache

  function Lookup(cache: seq<Entry>, id: Id): Option<Key> {
    if cache == [] then None
    else if cache[|cache| - 1].id == id then Some(cache[|cache| - 1].key)
    else Lookup(cache[..|cache| - 1], id)
  }

  /** Setting a present id keeps its place; a new id goes to the end. */
  function Put(cache: seq<Entry>, e: Entry): seq<Entry> {
    if cache == [] then [e]
    else if cache[0].id == e.id then [e] + cache[1..]
    else [cache[0]] + Put(cache[1..], e)
  }

  function Remove(cache: seq<Entry>, id: Id): seq<Entry> {
    if cache == [] then []
    else if cache[0].id == id then Remove(cache[1..], id)
    else [cache[0]] + Remove(cache[1..], id)
  }

  /** The distinct ratchet keys of the cache, in order of first appearance. */
  function ChainsOf(cache: seq<Entry>): seq<PublicKey> {
    if cache == [] then []
    else
      var last := |cache| - 1;
      var before := ChainsOf(cache[..last]);
      if cache[last].id.dh in before then before else before + [cache[last].id.dh]
  }

  function Without(cache: seq<Entry>, doomed: seq<PublicKey>): seq<Entry> {
    if cache == [] then []
    else if cache[0].id.dh in doomed then Without(cache[1..], doomed)
    else [cache[0]] + Without(cache[1..], doomed)
  }

  function Only(cache: seq<Entry>, doomed: seq<PublicKey>): seq<Entry> {
    if cache == [] then []
    else if cache[0].id.dh in doomed then [cache[0]] + Only(cache[1..], doomed)
    else Only(cache[1..], doomed)
  }

  /** What eviction leaves and what it wipes, oldest first. */
  datatype Eviction = Eviction(kept: seq<Entry>, dropped: seq<Entry>)

  function Excess(size: nat, bound: nat): nat {
    if size > bound then size - bound else 0
  }

  function Evict(cache: seq<Entry>): Eviction {
    var over := Excess(|cache|, MAX_SKIPPED_KEYS);
    var rest := cache[over..];
    var chains := ChainsOf(rest);
    var doomed := chains[..Excess(|chains|, MAX_SKIP_CHAINS)];
    Eviction(Without(rest, doomed), cache[..over] + Only(rest, doomed))
  }

  // ----- sending

  datatype Sending = Sent(state: State, message: Message) | NotSent(error: Error)

  function Encrypt(s: State, text: Text): Sending {
    if s.sending.None? then NotSent(NoSendingChain)
    else
      var header := Header(Point(s.ours), s.previousLength, s.sendCount);
      Sent(s.(sending := Some(ChainStep(s.sending.value)), sendCount := s.sendCount + 1),
           Message(header, Sealed(MessageKey(s.sending.value), s.ad, header, text)))
  }

  // ----- receiving

  /** A state together with the cache entries wiped on the way to it. */
  datatype Progress = Progress(state: State, dropped: seq<Entry>) | Stuck(error: Error)

  function SkipOne(s: State): Progress
    requires s.receiving.Some? && s.theirs.Some?
  {
    var entry := Entry(Id(Point(s.theirs.value), s.receiveCount), MessageKey(s.receiving.value));
    var eviction := Evict(Put(s.skipped, entry));
    Progress(s.(receiving := Some(ChainStep(s.receiving.value)),
                receiveCount := s.receiveCount + 1,
                skipped := eviction.kept),
             eviction.dropped)
  }

  function SkipLoop(s: State, until: nat): (r: Progress)
    requires s.receiving.Some? && s.theirs.Some?
    ensures r.Progress? && r.state.receiving.Some?
    ensures r.state == s.(receiving := r.state.receiving, receiveCount := r.state.receiveCount,
        skipped := r.state.skipped)
    ensures r.state.receiveCount == if until <= s.receiveCount then s.receiveCount else until
    decreases until - s.receiveCount
  {
    if s.receiveCount < until then
      var one := SkipOne(s);
      var rest := SkipLoop(one.state, until);
      Progress(rest.state, one.dropped + rest.dropped)
    else Progress(s, [])
  }

  function Skip(s: State, until: nat): Progress
    requires WellFormed(s)
  {
    if s.receiving.None? then Progress(s, [])
    else if until - s.receiveCount > MAX_SKIPPED_KEYS then Stuck(TooManySkipped)
    else SkipLoop(s, until)
  }

  /** The DH step towards the peer's new key; `next` names our next key pair. */
  function DhRatchet(s: State, theirs: nat, next: nat): State {
    var receiveDh := Dh(s.ours, theirs);
    var middle := RootStep(s.root, receiveDh);
    var sendDh := Dh(next, theirs);
    s.(previousLength := s.sendCount,
       sendCount := 0,
       receiveCount := 0,
       theirs := Some(theirs),
       receiving := Some(ChainStart(s.root, receiveDh)),
       ours := next,
       root := RootStep(middle, sendDh),
       sending := Some(ChainStart(middle, sendDh)))
  }

  /** The part of a decryption that follows the header: skip the rest of the
      old chain and step the DH ratchet if the key is new. */
  function Turn(s: State, header: Header, next: nat): Progress
    requires WellFormed(s)
  {
    if s.theirs.Some? && header.dh == Point(s.theirs.value) then Progress(s, [])
    else
      var caughtUp := Skip(s, header.previousLength);
      if caughtUp.Stuck? then caughtUp
      else if !header.dh.Point? then Stuck(RefusedKey)
      else Progress(DhRatchet(caughtUp.state, header.dh.name, next), caughtUp.dropped)
  }

  function Advance(s: State, header: Header, next: nat): Progress
    requires WellFormed(s)
  {
    var turned := Turn(s, header, next);
    if turned.Stuck? then turned
    else
      var skipped := Skip(turned.state, header.number);
      if skipped.Stuck? then skipped
      else if skipped.state.receiving.None? then Stuck(NoReceivingChain)
      else Progress(skipped.state, turned.dropped + skipped.dropped)
  }

  datatype Receipt = Accepted(state: State, text: Text, dropped: seq<Entry>) | Refused(error: Error)

  function Decrypt(s: State, m: Message, next: nat): (r: Receipt)
    requires WellFormed(s)
    ensures r.Accepted? ==> WellFormed(r.state)
  {
    if m.header.dh.WrongLength? then Refused(MalformedKey)
    else
      var id := Id(m.header.dh, m.header.number);
      var cached := Lookup(s.skipped, id);
      if cached.Some? then
        var text := Open(cached.value, s.ad, m.header, m.body);
        if text.None? then Refused(Unauthentic)
        else Accepted(s.(skipped := Remove(s.skipped, id)), text.value, [])
      else
        var ready := Advance(s, m.header, next);
        if ready.Stuck? then Refused(ready.error)
        else
          var chain := ready.state.receiving.value;
          var text := Open(MessageKey(chain), s.ad, m.header, m.body);
          if text.None? then Refused(Unauthentic)
          else Accepted(ready.state.(receiving := Some(ChainStep(chain)),
                                     receiveCount := ready.state.receiveCount + 1),
                        text.value, ready.dropped)
  }

  // ----- the two starting states

  function InitiatorStart(secret: Key, ad: AssociatedData, theirs: nat, next: nat): State {
    var dh := Dh(next, theirs);
    State(RootStep(secret, dh), next, Some(theirs), Some(ChainStart(secret, dh)), None, 0, 0, 0, [], ad)
  }

  function ResponderStart(secret: Key, ad: AssociatedData, ours: nat): State {
    State(secret, ours, None, None, None, 0, 0, 0, [], ad)
  }
}
