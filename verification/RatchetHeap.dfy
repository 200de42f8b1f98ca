/**
 The ratchet as it runs: session objects whose secret buffers are wiped in
 place, a working copy per decryption, and a commit field by field.

 A 32-byte buffer is an object holding one key term; wiping it leaves `Zeroed`.
 Aliasing is therefore visible: a buffer shared by two sessions, or by a session
 and its working copy, would be wiped under the other.
 */
module RatchetHeap {
  import opened Wrappers
  import opened Crypto
  import opened Ratchet
  import opened RatchetCache

  class Buffer {
    var key: Key

    constructor (key: Key)
      ensures this.key == key
    {
      this.key := key;
    }

    method Wipe()
      modifies this
      ensures key == Zeroed
    {
      key := Zeroed;
    }
  }

  datatype Slot = Slot(id: Id, buffer: Buffer)

  datatype Outcome<T> = Done(value: T) | Thrown(error: Error)

  ghost function SlotBuffers(slots: seq<Slot>): set<Buffer> {
    set i | 0 <= i < |slots| :: slots[i].buffer
  }

  /** The buffers of the map hold the keys of the entries, in order. */
  ghost predicate Holds(slots: seq<Slot>, cache: seq<Entry>)
    reads SlotBuffers(slots)
  {
    && |slots| == |cache|
    && forall i | 0 <= i < |slots| :: cache[i] == Entry(slots[i].id, slots[i].buffer.key)
  }

  ghost predicate SeparateSlots(slots: seq<Slot>) {
    forall i, j | 0 <= i < j < |slots| :: slots[i].buffer != slots[j].buffer && slots[i].id != slots[j].id
  }

  // ----- eviction

  /** Wipes and forgets the oldest keys beyond the bound. */
  method DropOldest(slots: seq<Slot>, ghost cache: seq<Entry>) returns (rest: seq<Slot>)
    requires Holds(slots, cache) && SeparateSlots(slots)
    modifies SlotBuffers(slots)
    ensures var over := Excess(|slots|, MAX_SKIPPED_KEYS);
      && rest == slots[over..]
      && Holds(rest, cache[over..])
      && forall i | 0 <= i < over :: slots[i].buffer.key == Zeroed
  {
    rest := slots;
    ghost var k := 0;
    while |rest| > MAX_SKIPPED_KEYS
      invariant k <= Excess(|slots|, MAX_SKIPPED_KEYS) && rest == slots[k..]
      invariant forall i | 0 <= i < k :: slots[i].buffer.key == Zeroed
      invariant forall i | k <= i < |slots| :: slots[i].buffer.key == cache[i].key
    {
      assert rest[0] == slots[k];
      rest[0].buffer.Wipe();
      rest := rest[1..];
      k := k + 1;
    }
  }

  /** The distinct ratchet keys, collected as a set that remembers insertion order. */
  method ListChains(slots: seq<Slot>, ghost cache: seq<Entry>) returns (chains: seq<PublicKey>)
    requires Holds(slots, cache)
    ensures chains == ChainsOf(cache)
  {
    chains := [];
    var i := 0;
    while i < |slots|
      invariant 0 <= i <= |slots|
      invariant chains == ChainsOf(cache[..i])
    {
      assert cache[..i + 1][..i] == cache[..i];
      if slots[i].id.dh !in chains {
        chains := chains + [slots[i].id.dh];
      }
      i := i + 1;
    }
    assert cache[..i] == cache;
  }

  function Keeping(slots: seq<Slot>, doomed: seq<PublicKey>): seq<Slot> {
    if slots == [] then []
    else if slots[0].id.dh in doomed then Keeping(slots[1..], doomed)
    else [slots[0]] + Keeping(slots[1..], doomed)
  }

  lemma {:induction false} KeepingIsPart(slots: seq<Slot>, doomed: seq<PublicKey>)
    ensures forall s | s in Keeping(slots, doomed) :: s in slots && s.id.dh !in doomed
    ensures forall s | s in slots && s.id.dh !in doomed :: s in Keeping(slots, doomed)
    ensures SeparateSlots(slots) ==> SeparateSlots(Keeping(slots, doomed))
  {
    if slots != [] {
      KeepingIsPart(slots[1..], doomed);
    }
  }

  lemma {:induction false} KeepingHolds(slots: seq<Slot>, doomed: seq<PublicKey>, cache: seq<Entry>)
    requires |slots| == |cache|
    requires forall i | 0 <= i < |slots| :: cache[i].id == slots[i].id
    requires forall i | 0 <= i < |slots| :: slots[i].id.dh !in doomed ==> cache[i].key == slots[i].buffer.key
    ensures Holds(Keeping(slots, doomed), Without(cache, doomed))
  {
    if slots != [] {
      KeepingHolds(slots[1..], doomed, cache[1..]);
    }
  }

  /** Wipes and forgets every key of the doomed chains. */
  method DropChains(slots: seq<Slot>, doomed: seq<PublicKey>, ghost cache: seq<Entry>) returns (kept: seq<Slot>)
    requires Holds(slots, cache) && SeparateSlots(slots)
    modifies SlotBuffers(slots)
    ensures kept == Keeping(slots, doomed)
    ensures Holds(kept, Without(cache, doomed))
    ensures forall i | 0 <= i < |slots| && slots[i].id.dh in doomed :: slots[i].buffer.key == Zeroed
  {
    kept := [];
    var i := 0;
    while i < |slots|
      invariant 0 <= i <= |slots|
      invariant kept + Keeping(slots[i..], doomed) == Keeping(slots, doomed)
      invariant forall j | 0 <= j < i && slots[j].id.dh in doomed :: slots[j].buffer.key == Zeroed
      invariant forall j | 0 <= j < |slots| && (i <= j || slots[j].id.dh !in doomed) ::
          slots[j].buffer.key == cache[j].key
    {
      assert slots[i..][0] == slots[i] && slots[i..][1..] == slots[i + 1..];
      if slots[i].id.dh in doomed {
        slots[i].buffer.Wipe();
      } else {
        kept := kept + [slots[i]];
      }
      i := i + 1;
    }
    KeepingHolds(slots, doomed, cache);
  }

  lemma {:induction false} WithoutNothing(cache: seq<Entry>)
    ensures Without(cache, []) == cache
  {
    if cache != [] {
      WithoutNothing(cache[1..]);
    }
  }

  lemma PartBuffers(part: seq<Slot>, slots: seq<Slot>)
    requires forall s | s in part :: s in slots
    ensures SlotBuffers(part) <= SlotBuffers(slots)
  {
    forall i | 0 <= i < |part| ensures part[i].buffer in SlotBuffers(slots) {
      assert part[i] in slots;
    }
  }

  lemma SuffixBuffers(slots: seq<Slot>, k: nat)
    requires k <= |slots| && SeparateSlots(slots)
    ensures SlotBuffers(slots[k..]) <= SlotBuffers(slots) && SeparateSlots(slots[k..])
    ensures forall i | 0 <= i < k :: slots[i].buffer !in SlotBuffers(slots[k..])
  {
  }

  method EvictSkippedKeys(slots: seq<Slot>, ghost cache: seq<Entry>) returns (kept: seq<Slot>)
    requires Holds(slots, cache) && SeparateSlots(slots)
    modifies SlotBuffers(slots)
    ensures Holds(kept, Evict(cache).kept) && SeparateSlots(kept)
    ensures (forall s | s in kept :: s in slots) && SlotBuffers(kept) <= SlotBuffers(slots)
    ensures forall i | 0 <= i < |slots| :: slots[i] in kept || slots[i].buffer.key == Zeroed
  {
    hide Without, ChainsOf, Keeping, SeparateSlots, SlotBuffers;
    ghost var over := Excess(|slots|, MAX_SKIPPED_KEYS);
    SuffixBuffers(slots, over);
    var rest := DropOldest(slots, cache);
    var chains := ListChains(rest, cache[over..]);
    WithoutNothing(cache[over..]);
    if |chains| <= MAX_SKIP_CHAINS {
      assert chains[..0] == [];
      kept := rest;
    } else {
      var doomed := chains[..|chains| - MAX_SKIP_CHAINS];
      KeepingIsPart(rest, doomed);
      kept := DropChains(rest, doomed, cache[over..]);
    }
    PartBuffers(kept, slots);
    forall i | 0 <= i < |slots| ensures slots[i] in kept || slots[i].buffer.key == Zeroed {
      if over <= i {
        assert rest[i - over] == slots[i];
      }
    }
  }

  // ----- the map

  method Find(slots: seq<Slot>, id: Id) returns (at: int)
    ensures -1 <= at < |slots|
    ensures at >= 0 ==> slots[at].id == id
    ensures forall i | at < i < |slots| :: slots[i].id != id
  {
    at := |slots| - 1;
    while at >= 0 && slots[at].id != id
      invariant -1 <= at < |slots|
      invariant forall i | at < i < |slots| :: slots[i].id != id
    {
      at := at - 1;
    }
  }

  /** Map.set: a present id keeps its place, a new one goes last. */
  method SetSlot(slots: seq<Slot>, id: Id, buffer: Buffer, ghost cache: seq<Entry>) returns (r: seq<Slot>)
    requires Holds(slots, cache) && SeparateSlots(slots) && buffer !in SlotBuffers(slots)
    ensures Holds(r, Put(cache, Entry(id, buffer.key))) && SeparateSlots(r)
    ensures SlotBuffers(r) <= SlotBuffers(slots) + {buffer}
  {
    hide Put;
    assert forall i | 0 <= i < |slots| :: slots[i].buffer in SlotBuffers(slots);
    var at := Find(slots, id);
    if at < 0 {
      PutAppends(cache, Entry(id, buffer.key));
      r := slots + [Slot(id, buffer)];
    } else {
      forall i | 0 <= i < at ensures cache[i].id != id {
        assert slots[i].id != slots[at].id;
      }
      PutReplaces(cache, at, Entry(id, buffer.key));
      r := slots[at := Slot(id, buffer)];
    }
  }

  method CopySlots(slots: seq<Slot>, ghost cache: seq<Entry>) returns (copy: seq<Slot>)
    requires Holds(slots, cache) && SeparateSlots(slots)
    ensures Holds(copy, cache) && SeparateSlots(copy) && fresh(SlotBuffers(copy))
  {
    copy := [];
    var i := 0;
    while i < |slots|
      invariant 0 <= i <= |slots| && |copy| == i
      invariant forall j | 0 <= j < i :: fresh(copy[j].buffer) && cache[j] == Entry(copy[j].id, copy[j].buffer.key)
      invariant forall j | 0 <= j < i :: copy[j].id == slots[j].id
      invariant SeparateSlots(copy)
    {
      var buffer := new Buffer(slots[i].buffer.key);
      copy := copy + [Slot(slots[i].id, buffer)];
      i := i + 1;
    }
  }

  method AdvanceChainKey(chain: Buffer) returns (next: Buffer, message: Buffer)
    ensures fresh(next) && fresh(message) && next != message
    ensures next.key == ChainStep(chain.key) && message.key == MessageKey(chain.key)
  {
    message := new Buffer(MessageKey(chain.key));
    next := new Buffer(ChainStep(chain.key));
  }

  // ----- the map of skipped keys

  class KeyMap {
    var slots: seq<Slot>
    ghost var cache: seq<Entry>
    ghost var Repr: set<object>

    ghost predicate Valid()
      reads this, Repr
      ensures Valid() ==> this in Repr
    {
      && this in Repr
      && (forall i | 0 <= i < |slots| :: slots[i].buffer in Repr)
      && Holds(slots, cache)
      && SeparateSlots(slots)
    }

    constructor ()
      ensures Valid() && cache == [] && fresh(Repr)
    {
      slots, cache, Repr := [], [], {this};
    }

    /** A copy with buffers of its own. */
    constructor Copy(source: KeyMap)
      requires source.Valid()
      ensures Valid() && cache == source.cache && fresh(Repr)
    {
      var copy := CopySlots(source.slots, source.cache);
      slots, cache := copy, source.cache;
      Repr := {this} + SlotBuffers(copy);
    }

    /** One skipped key goes in, and the map back within its bounds. */
    method Remember(id: Id, buffer: Buffer)
      requires Valid() && buffer !in Repr
      modifies Repr, buffer
      ensures Valid() && Repr == old(Repr) + {buffer}
      ensures cache == Evict(Put(old(cache), Entry(id, old(buffer.key)))).kept
    {
      hide Put, Evict, SeparateSlots;
      ghost var more := Put(cache, Entry(id, buffer.key));
      slots := SetSlot(slots, id, buffer, cache);
      Repr := Repr + {buffer};
      slots := EvictSkippedKeys(slots, more);
      cache := Evict(more).kept;
    }

    /** An id has one buffer. */
    lemma OneSlotEach()
      requires Valid()
      ensures forall i, s | 0 <= i < |slots| && s in slots && s.id == slots[i].id :: s == slots[i]
    {
      forall i, s | 0 <= i < |slots| && s in slots && s.id == slots[i].id ensures s == slots[i] {
        var j :| 0 <= j < |slots| && slots[j] == s;
      }
    }

    method Get(id: Id) returns (found: Buffer?)
      requires Valid()
      ensures Lookup(cache, id).None? <==> found == null
      ensures found != null ==> found in Repr && Slot(id, found) in slots && Lookup(cache, id) == Some(found.key)
      ensures forall s | s in slots && s.id == id :: s.buffer == found
    {
      var at := Find(slots, id);
      LookupFinds(cache, id);
      if at < 0 {
        found := null;
      } else {
        assert cache[at].id == id;
        found := slots[at].buffer;
        assert slots[at] == Slot(id, found);
        ghost var j :| 0 <= j < |cache| && cache[j] == Entry(id, Lookup(cache, id).value);
        assert slots[j].id == slots[at].id;
      }
      OneSlotEach();
      forall s | s in slots && s.id == id ensures s.buffer == found {
        ghost var j :| 0 <= j < |slots| && slots[j] == s;
        assert cache[j].id == id;
      }
    }

    /** Wipes and forgets the key stored under an id; nothing else changes. */
    method Consume(id: Id) returns (ghost used: nat)
      requires Valid() && Lookup(cache, id).Some?
      modifies Repr
      ensures Valid() && Repr == old(Repr)
      ensures cache == Remove(old(cache), id) && |cache| == |old(cache)| - 1
      ensures used < |old(slots)| && old(slots)[used].id == id
      ensures slots == old(slots)[..used] + old(slots)[used + 1..]
      ensures old(slots)[used].buffer.key == Zeroed
      ensures forall b: Buffer | b in Repr && b != old(slots)[used].buffer :: b.key == old(b.key)
    {
      hide Remove, Lookup;
      LookupFinds(cache, id);
      var at := Find(slots, id);
      assert at >= 0;
      assert cache[at].id == id;
      CutOnce(cache, at);
      used := at;
      slots[at].buffer.Wipe();
      slots := slots[..at] + slots[at + 1..];
      cache := Remove(cache, id);
    }
  }

  // ----- the session object

  class Session {
    var root: Buffer
    var ours: nat
    var ourPrivate: Buffer
    var theirs: Option<nat>
    var sending: Buffer?
    var receiving: Buffer?
    var sendCount: nat
    var receiveCount: nat
    var previousLength: nat
    var skipped: KeyMap
    const ad: AssociatedData

    constructor (root: Buffer, ours: nat, ourPrivate: Buffer, theirs: Option<nat>, sending: Buffer?, receiving: Buffer?,
                 sendCount: nat, receiveCount: nat, previousLength: nat, skipped: KeyMap, ad: AssociatedData)
      ensures this.root == root && this.ours == ours && this.ourPrivate == ourPrivate && this.theirs == theirs
      ensures this.sending == sending && this.receiving == receiving
      ensures this.sendCount == sendCount && this.receiveCount == receiveCount && this.previousLength == previousLength
      ensures this.skipped == skipped && this.ad == ad
    {
      this.root, this.ours, this.ourPrivate, this.theirs := root, ours, ourPrivate, theirs;
      this.sending, this.receiving := sending, receiving;
      this.sendCount, this.receiveCount, this.previousLength := sendCount, receiveCount, previousLength;
      this.skipped, this.ad := skipped, ad;
    }

    /** Everything secret the session holds. */
    ghost function Repr(): set<object?>
      reads this, skipped
    {
      {root, ourPrivate, sending, receiving} + skipped.Repr
    }

    /** No two fields share a buffer with each other or with the cache. */
    ghost predicate Separate()
      reads this, skipped
    {
      && root != ourPrivate && root != sending && root != receiving
      && ourPrivate != sending && ourPrivate != receiving
      && (sending != null ==> sending != receiving)
      && this !in skipped.Repr
      && root !in skipped.Repr && ourPrivate !in skipped.Repr
      && sending !in skipped.Repr && receiving !in skipped.Repr
    }

    ghost predicate Valid()
      reads this, skipped, Repr()
    {
      && Separate()
      && ourPrivate.key == Private(ours)
      && (receiving != null ==> theirs.Some?)
      && skipped.Valid()
    }

    ghost function Abstract(): State
      reads this, skipped, Repr()
    {
      State(root.key, ours, theirs,
            if sending == null then None else Some(sending.key),
            if receiving == null then None else Some(receiving.key),
            sendCount, receiveCount, previousLength, skipped.cache, ad)
    }

    /** Every buffer held now was held before or is new. */
    twostate predicate HoldsNothingForeign()
      reads this, skipped
    {
      && (root == old(root) || fresh(root))
      && (ourPrivate == old(ourPrivate) || fresh(ourPrivate))
      && (sending == old(sending) || (sending != null && fresh(sending)))
      && (receiving == old(receiving) || (receiving != null && fresh(receiving)))
      && fresh(skipped.Repr - old(skipped.Repr))
    }

    method SkipOneKey()
      requires Valid() && receiving != null
      modifies this`receiving, this`receiveCount, receiving, skipped.Repr
      ensures Valid() && receiving != null && fresh(receiving) && old(receiving).key == Zeroed
      ensures Abstract() == SkipOne(old(Abstract())).state
      ensures old(skipped.Repr) <= skipped.Repr && fresh(skipped.Repr - old(skipped.Repr))
    {
      hide Put, Evict;
      var next, message := AdvanceChainKey(receiving);
      receiving.Wipe();
      receiving := next;
      var id := Id(Point(theirs.value), receiveCount);
      receiveCount := receiveCount + 1;
      skipped.Remember(id, message);
    }

    method SkipMessageKeys(until: nat) returns (r: Outcome<()>, ghost advances: nat)
      requires Valid()
      modifies this`receiving, this`receiveCount, receiving, skipped.Repr
      ensures Valid() && advances <= MAX_SKIPPED_KEYS
      ensures var spec := Skip(old(Abstract()), until);
        if spec.Progress? then r.Done? && Abstract() == spec.state else r == Thrown(spec.error)
      ensures receiving == old(receiving) || fresh(receiving)
      ensures old(skipped.Repr) <= skipped.Repr && fresh(skipped.Repr - old(skipped.Repr))
    {
      hide Evict, Put;
      advances := 0;
      if receiving == null {
        return Done(()), 0;
      }
      if until - receiveCount > MAX_SKIPPED_KEYS {
        return Thrown(TooManySkipped), 0;
      }
      while receiveCount < until
        invariant Valid() && receiving != null
        invariant SkipLoop(Abstract(), until).state == SkipLoop(old(Abstract()), until).state
        invariant receiving == old(receiving) || fresh(receiving)
        invariant old(skipped.Repr) <= skipped.Repr && fresh(skipped.Repr - old(skipped.Repr))
        invariant advances + (if receiveCount < until then until - receiveCount else 0)
               == if old(receiveCount) < until then until - old(receiveCount) else 0
      {
        SkipOneKey();
        advances := advances + 1;
      }
      r := Done(());
    }

    /** Receiving chain from our current key and their new one. */
    method DeriveReceivingChain(theirKey: nat)
      requires Valid() && theirs.Some?
      modifies this`root, this`receiving, root, receiving
      ensures Valid() && fresh(root) && fresh(receiving)
      ensures old(root).key == Zeroed && (old(receiving) != null ==> old(receiving).key == Zeroed)
      ensures var dh := Dh(ours, theirKey);
        Abstract() == old(Abstract()).(root := RootStep(old(root.key), dh),
            receiving := Some(ChainStart(old(root.key), dh)))
    {
      hide KeyMap.Valid;
      var dh := Dh(ourPrivate.key.name, theirKey);
      var newRoot := new Buffer(RootStep(root.key, dh));
      var chain := new Buffer(ChainStart(root.key, dh));
      root.Wipe();
      if receiving != null {
        receiving.Wipe();
      }
      root := newRoot;
      receiving := chain;
    }

    /** A fresh key pair; the old private half is destroyed. */
    method RenewKeyPair(next: nat)
      requires Valid()
      modifies this`ours, this`ourPrivate, ourPrivate
      ensures Valid() && fresh(ourPrivate) && old(ourPrivate).key == Zeroed
      ensures Abstract() == old(Abstract()).(ours := next)
    {
      hide KeyMap.Valid;
      ourPrivate.Wipe();
      ours := next;
      ourPrivate := new Buffer(Private(next));
    }

    /** The sending chain of the fresh key pair. */
    method DeriveSendingChain(theirKey: nat)
      requires Valid()
      modifies this`root, this`sending, root, sending
      ensures Valid() && fresh(root) && fresh(sending)
      ensures old(root).key == Zeroed && (old(sending) != null ==> old(sending).key == Zeroed)
      ensures var dh := Dh(ours, theirKey);
        Abstract() == old(Abstract()).(root := RootStep(old(root.key), dh),
            sending := Some(ChainStart(old(root.key), dh)))
    {
      hide KeyMap.Valid;
      var dh := Dh(ourPrivate.key.name, theirKey);
      var newRoot := new Buffer(RootStep(root.key, dh));
      var chain := new Buffer(ChainStart(root.key, dh));
      root.Wipe();
      if sending != null {
        sending.Wipe();
      }
      root := newRoot;
      sending := chain;
    }

    /** The DH step.  A point the primitive refuses is refused after the counters
        were reset, so only a working copy may be stepped. */
    method StepDhRatchet(key: PublicKey, next: nat) returns (r: Outcome<()>)
      requires Valid()
      modifies this, root, ourPrivate, sending, receiving
      ensures key.Point? ==> r.Done? && Valid() && Abstract() == DhRatchet(old(Abstract()), key.name, next)
      ensures !key.Point? ==> r == Thrown(RefusedKey)
      ensures key.Point? ==> fresh(root) && fresh(ourPrivate) && fresh(sending) && fresh(receiving)
      ensures key.Point? ==> old(root).key == Zeroed && old(ourPrivate).key == Zeroed
      ensures key.Point? && old(sending) != null ==> old(sending).key == Zeroed
      ensures key.Point? && old(receiving) != null ==> old(receiving).key == Zeroed
      ensures skipped == old(skipped)
    {
      hide KeyMap.Valid;
      previousLength := sendCount;
      sendCount := 0;
      receiveCount := 0;
      if !key.Point? {
        return Thrown(RefusedKey);
      }
      theirs := Some(key.name);
      DeriveReceivingChain(key.name);
      RenewKeyPair(next);
      DeriveSendingChain(key.name);
      r := Done(());
    }

    method CloneState() returns (w: Session)
      requires Valid()
      ensures w.Valid() && w.Abstract() == Abstract() && w.ad == ad
      ensures fresh(w) && fresh(w.root) && fresh(w.ourPrivate) && fresh(w.skipped.Repr)
      ensures (w.sending != null ==> fresh(w.sending)) && (w.receiving != null ==> fresh(w.receiving))
    {
      hide KeyMap.Valid;
      var copied := new KeyMap.Copy(skipped);
      var newRoot := new Buffer(root.key);
      var newPrivate := new Buffer(ourPrivate.key);
      var newSending: Buffer? := null;
      if sending != null {
        newSending := new Buffer(sending.key);
      }
      var newReceiving: Buffer? := null;
      if receiving != null {
        newReceiving := new Buffer(receiving.key);
      }
      w := new Session(newRoot, ours, newPrivate, theirs, newSending, newReceiving,
                       sendCount, receiveCount, previousLength, copied, ad);
    }

    /** Moves the verified working copy into the live object. */
    method CommitState(source: Session)
      requires source.Valid() && source != this && source.ad == ad && this !in source.skipped.Repr
      modifies this
      ensures Valid() && Abstract() == source.Abstract()
      ensures root == source.root && ourPrivate == source.ourPrivate && skipped == source.skipped
      ensures sending == source.sending && receiving == source.receiving
    {
      root, ourPrivate, sending, receiving, skipped :=
        source.root, source.ourPrivate, source.sending, source.receiving, source.skipped;
      ours, theirs, sendCount, receiveCount, previousLength :=
        source.ours, source.theirs, source.sendCount, source.receiveCount, source.previousLength;
    }

    method EncryptMessage(text: Text) returns (r: Outcome<Message>)
      requires Valid()
      modifies this`sending, this`sendCount, sending
      ensures Valid()
      ensures var spec := Encrypt(old(Abstract()), text);
        if spec.Sent? then r == Done(spec.message) && Abstract() == spec.state && fresh(sending)
            && old(sending).key == Zeroed
        else r == Thrown(spec.error) && unchanged(this)
    {
      hide KeyMap.Valid;
      if sending == null {
        return Thrown(NoSendingChain);
      }
      var next, messageKey := AdvanceChainKey(sending);
      sending.Wipe();
      sending := next;
      var header := Header(Point(ours), previousLength, sendCount);
      sendCount := sendCount + 1;
      r := Done(Message(header, Sealed(messageKey.key, ad, header, text)));
      messageKey.Wipe();
    }

    /** On a working copy: finish the old chain and step the ratchet if the key is new. */
    method TurnTo(header: Header, next: nat) returns (r: Outcome<()>, ghost advances: nat)
      requires Valid()
      modifies this, Repr()
      ensures advances <= MAX_SKIPPED_KEYS
      ensures var spec := Turn(old(Abstract()), header, next);
        if spec.Stuck? then r == Thrown(spec.error) else r.Done? && Valid() && Abstract() == spec.state
      ensures r.Done? ==> HoldsNothingForeign()
    {
      hide Skip, DhRatchet, KeyMap.Valid;
      if theirs.Some? && header.dh == Point(theirs.value) {
        return Done(()), 0;
      }
      r, advances := SkipMessageKeys(header.previousLength);
      if r.Done? {
        r := StepDhRatchet(header.dh, next);
      }
    }

    /** The key of the next place on the receiving chain, and its message. */
    method OpenNext(m: Message) returns (r: Outcome<Text>)
      requires Valid() && receiving != null
      modifies this`receiving, this`receiveCount
      ensures Valid()
      ensures var s := old(Abstract());
        var text := Open(MessageKey(s.receiving.value), ad, m.header, m.body);
        && r == (if text.None? then Thrown(Unauthentic) else Done(text.value))
        && Abstract() == s.(receiving := Some(ChainStep(s.receiving.value)), receiveCount := s.receiveCount + 1)
      ensures fresh(receiving)
    {
      hide KeyMap.Valid;
      var chain, messageKey := AdvanceChainKey(receiving);
      receiving := chain;
      receiveCount := receiveCount + 1;
      var text := Open(messageKey.key, ad, m.header, m.body);
      messageKey.Wipe();
      r := if text.None? then Thrown(Unauthentic) else Done(text.value);
    }

    /** The rest of a decryption, on a working copy. */
    method Follow(m: Message, next: nat) returns (r: Outcome<Text>, ghost advances: nat)
      requires Valid()
      modifies this, Repr()
      ensures advances <= 2 * MAX_SKIPPED_KEYS + 1
      ensures var spec := Advance(old(Abstract()), m.header, next);
        if spec.Stuck? then r == Thrown(spec.error)
        else
          var chain := spec.state.receiving.value;
          var text := Open(MessageKey(chain), ad, m.header, m.body);
          if text.None? then r == Thrown(Unauthentic)
          else && r == Done(text.value) && Valid()
               && Abstract() == spec.state.(receiving := Some(ChainStep(chain)),
                   receiveCount := spec.state.receiveCount + 1)
      ensures r.Done? ==> HoldsNothingForeign()
    {
      hide Turn, Skip, Open, KeyMap.Valid;
      ghost var first, second;
      var turning;
      turning, first := TurnTo(m.header, next);
      if turning.Thrown? {
        return Thrown(turning.error), first;
      }
      var skipping;
      skipping, second := SkipMessageKeys(m.header.number);
      if skipping.Thrown? {
        return Thrown(skipping.error), first + second;
      }
      if receiving == null {
        return Thrown(NoReceivingChain), first + second;
      }
      r := OpenNext(m);
      advances := first + second + 1;
    }

    /** A message whose key is cached.  The key is destroyed only once the message
        proved genuine. */
    method DecryptCached(m: Message, cached: Buffer) returns (r: Outcome<Text>)
      requires Valid() && cached in skipped.Repr && Slot(Id(m.header.dh, m.header.number), cached) in skipped.slots
      requires Lookup(skipped.cache, Id(m.header.dh, m.header.number)) == Some(cached.key)
      modifies skipped.Repr
      ensures Valid() && skipped.Repr == old(skipped.Repr)
      ensures var text := Open(old(cached.key), ad, m.header, m.body);
        if text.None? then r == Thrown(Unauthentic) && unchanged(skipped.Repr)
        else && r == Done(text.value)
             && skipped.cache == Remove(old(skipped.cache), Id(m.header.dh, m.header.number))
             && |skipped.cache| == |old(skipped.cache)| - 1
             && cached.key == Zeroed
             && forall b: Buffer | b in skipped.Repr && b != cached :: b.key == old(b.key)
    {
      hide Lookup, Remove, KeyMap.Valid;
      var text := Open(cached.key, ad, m.header, m.body);
      if text.None? {
        return Thrown(Unauthentic);
      }
      skipped.OneSlotEach();
      ghost var used := skipped.Consume(Id(m.header.dh, m.header.number));
      r := Done(text.value);
    }

    /** Any other message: everything is staged on a working copy with buffers of
        its own, and committed only if the message is authentic.  The buffers the
        live session held are then replaced as they are: only the copies were wiped. */
    method DecryptStaged(m: Message, next: nat) returns (r: Outcome<Text>, ghost advances: nat)
      requires Valid() && !m.header.dh.WrongLength?
      requires Lookup(skipped.cache, Id(m.header.dh, m.header.number)).None?
      modifies this
      ensures Valid() && advances <= 2 * MAX_SKIPPED_KEYS + 1
      ensures var spec := Decrypt(old(Abstract()), m, next);
        if spec.Accepted? then r == Done(spec.text) && Abstract() == spec.state
        else r == Thrown(spec.error) && unchanged(this)
      ensures HoldsNothingForeign()
      ensures r.Done? ==> fresh(root)
    {
      hide Advance, Lookup, KeyMap.Valid;
      var working := CloneState();
      r, advances := working.Follow(m, next);
      if r.Done? {
        CommitState(working);
      }
    }

    /** Decrypts one message; a call that throws leaves every field and every
        buffer as it was.  A key used from the cache is wiped; buffers replaced by a
        commit are not, and keep what they held. */
    method DecryptMessage(m: Message, next: nat) returns (r: Outcome<Text>, ghost advances: nat)
      requires Valid()
      modifies this, skipped.Repr
      ensures Valid() && advances <= 2 * MAX_SKIPPED_KEYS + 1
      ensures var spec := Decrypt(old(Abstract()), m, next);
        if spec.Accepted? then r == Done(spec.text) && Abstract() == spec.state
        else r == Thrown(spec.error) && unchanged(this) && unchanged(old(skipped.Repr))
      ensures Lookup(old(skipped.cache), Id(m.header.dh, m.header.number)).None? ==> unchanged(old(skipped.Repr))
      ensures Lookup(old(skipped.cache), Id(m.header.dh, m.header.number)).None? && r.Done? ==>
        fresh(root) && old(root).key == old(root.key) && old(ourPrivate).key == old(ourPrivate.key)
      ensures Lookup(old(skipped.cache), Id(m.header.dh, m.header.number)).Some? ==>
        unchanged(this) && (r.Done? ==> |skipped.cache| == |old(skipped.cache)| - 1)
      ensures r.Done? ==> forall s | s in old(skipped.slots) && s.id == Id(m.header.dh, m.header.number) ::
          s.buffer.key == Zeroed
      ensures HoldsNothingForeign()
    {
      hide Advance, Lookup, Remove, KeyMap.Valid;
      if m.header.dh.WrongLength? {
        return Thrown(MalformedKey), 0;
      }
      var cached := skipped.Get(Id(m.header.dh, m.header.number));
      if cached != null {
        advances := 0;
        r := DecryptCached(m, cached);
      } else {
        r, advances := DecryptStaged(m, next);
      }
    }
  }

  // ----- the two ways a session begins

  method InitializeInitiator(secret: Buffer, ad: AssociatedData, prekey: PublicKey, next: nat)
      returns (r: Outcome<Session>)
    ensures !prekey.Point? ==> r == Thrown(if prekey.WrongLength? then MalformedKey else RefusedKey)
    ensures prekey.Point? ==>
      && r.Done? && fresh(r.value) && fresh(r.value.Repr() - {null}) && r.value.Valid()
      && r.value.Abstract() == InitiatorStart(secret.key, ad, prekey.name, next)
  {
    if prekey.WrongLength? {
      return Thrown(MalformedKey);
    }
    if prekey.SmallOrder? {
      return Thrown(RefusedKey);
    }
    var dh := Dh(next, prekey.name);
    var pair := new Buffer(Private(next));
    var root := new Buffer(RootStep(secret.key, dh));
    var chain := new Buffer(ChainStart(secret.key, dh));
    var empty := new KeyMap();
    var s := new Session(root, next, pair, Some(prekey.name), chain, null, 0, 0, 0, empty, ad);
    r := Done(s);
  }

  /** The signed prekey serves many sessions, so its private half is copied. */
  method InitializeResponder(secret: Buffer, ad: AssociatedData, ours: nat, prekeyPrivate: Buffer) returns (s: Session)
    requires prekeyPrivate.key == Private(ours)
    ensures fresh(s) && fresh(s.Repr() - {null}) && s.Valid()
    ensures s.Abstract() == ResponderStart(secret.key, ad, ours)
  {
    var root := new Buffer(secret.key);
    var pair := new Buffer(prekeyPrivate.key);
    var empty := new KeyMap();
    s := new Session(root, ours, pair, None, null, null, 0, 0, 0, empty, ad);
  }
}
