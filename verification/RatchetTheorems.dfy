/**
 Whole runs of the ratchet: what is accepted, when, and how often.
 */
module RatchetTheorems {
  import opened Wrappers
  import opened Crypto
  import opened Ratchet
  import opened RatchetCache
  import opened RatchetRun
  import opened RatchetSteps

  /** A party at level `L` and its peer at level `M`, one DH step apart. */
  ghost predicate Duo(h: History, s: State, L: nat, p: State, M: nat) {
    && HistoryOk(h)
    && PartyOk(h, s, L) && PartyOk(h, p, M)
    && ((M == L + 1 && |h.keys| == L + 2) || (L == M + 1 && |h.keys| == M + 2))
  }

  // ----- sending

  ghost function Sending(h: History, key: nat, l: Letter): History {
    h.(letters := h.letters[key := LettersUnder(h, key) + [l]])
  }

  lemma SendKeepsHistory(h: History, L: nat, l: Letter)
    requires HistoryOk(h) && 1 <= L < |h.keys| <= L + 2
    requires IsGenuine(h, L - 1, |Letters(h, L - 1)|, l)
    ensures HistoryOk(Sending(h, h.keys[L], l))
  {
    var h' := Sending(h, h.keys[L], l);
    forall e: nat, n: nat | e + 1 < |h'.keys| && n < |Letters(h', e)|
      ensures IsGenuine(h', e, n, Letters(h', e)[n])
    {
      IndexIs(h.keys, e + 1);
      IndexIs(h.keys, L);
      assert PreviousLength(h', e) == PreviousLength(h, e) by {
        if e >= 2 { IndexIs(h.keys, e - 1); }
      }
      assert KeyAt(h', e, n) == KeyAt(h, e, n);
      if n < |Letters(h, e)| {
        assert IsGenuine(h, e, n, Letters(h, e)[n]);
      }
    }
    assert LettersUnder(h', h'.keys[0]) == [] by {
      IndexIs(h.keys, 0);
      IndexIs(h.keys, L);
    }
  }

  lemma SendKeepsPlaces(h: History, L: nat, l: Letter, s: State, M: nat)
    requires HistoryOk(h) && 1 <= L < |h.keys| && PartyOk(h, s, M)
    requires M == L || M == L + 1 || L == M + 1
    ensures PlacesOk(Sending(h, h.keys[L], l), s, M) && CacheOk(Sending(h, h.keys[L], l), s, M)
  {
    var h' := Sending(h, h.keys[L], l);
    forall i | 0 <= i < |s.skipped| ensures GoodEntry(h', M, s.receiveCount, s.skipped[i]) {
      assert GoodEntry(h, M, s.receiveCount, s.skipped[i]);
    }
    forall e: nat, n: nat | e + 1 < |h'.keys| && Even(e) == Even(M) ensures PlaceOk(h', s, M, e, n) {
      assert PlaceOk(h, s, M, e, n);
      IndexIs(h.keys, e + 1);
      IndexIs(h.keys, L);
    }
  }

  lemma SendKeepsChains(h: History, L: nat, l: Letter, p: State, M: nat)
    requires HistoryOk(h) && 1 <= L < |h.keys| && M < |h.keys| <= L + 2 && ChainsOk(h, p, M)
    requires M == L + 1 || L == M + 1
    ensures ChainsOk(Sending(h, h.keys[L], l), p, M)
  {
    IndexIs(h.keys, L);
    IndexIs(h.keys, M);
    if M >= 1 { IndexIs(h.keys, M - 1); }
    if M >= 3 { IndexIs(h.keys, M - 2); }
  }

  lemma SendKeeps(h: History, s: State, L: nat, p: State, M: nat, text: Text)
    requires Duo(h, s, L, p, M) && L >= 1
    ensures var r := Encrypt(s, text);
      && r.Sent?
      && r.message.header == HeaderAt(h, L - 1, |Letters(h, L - 1)|)
      && Duo(Sending(h, s.ours, Letter(r.message, text)), r.state, L, p, M)
  {
    hide RootAt;
    var r := Encrypt(s, text);
    var l := Letter(r.message, text);
    var h' := Sending(h, s.ours, l);
    SendKeepsHistory(h, L, l);
    SendKeepsPlaces(h, L, l, s, L);
    SendKeepsPlaces(h, L, l, p, M);
    SendKeepsChains(h, L, l, p, M);
    IndexIs(h.keys, L);
    if L >= 2 { IndexIs(h.keys, L - 1); }
    if L >= 3 { IndexIs(h.keys, L - 2); }
    assert ChainsOk(h', r.state, L);
    assert CacheOk(h', r.state, L);
    forall e: nat, n: nat | e + 1 < |h'.keys| && Even(e) == Even(L) ensures PlaceOk(h', r.state, L, e, n) {
      assert PlaceOk(h', s, L, e, n);
    }
  }

  // ----- receiving a genuine message

  /** What a receiver at level `L` can check before the call: the key is cached,
      or the message is ahead on the current chain within the window, or it is
      on the peer's next chain with both gaps within the window. */
  ghost predicate Acceptable(h: History, s: State, L: nat, e: nat, n: nat)
    requires e + 1 < |h.keys|
  {
    || InCache(s.skipped, IdAt(h.keys, e, n))
    || (e == L - 2 && s.receiveCount <= n <= s.receiveCount + MAX_SKIPPED_KEYS)
    || (e == L && n <= MAX_SKIPPED_KEYS
        && (L < 2 || |Letters(h, L - 2)| <= s.receiveCount + MAX_SKIPPED_KEYS))
  }

  ghost predicate IsLetter(h: History, e: nat, n: nat, m: Message) {
    e + 1 < |h.keys| && n < |Letters(h, e)| && Letters(h, e)[n].message == m
  }

  /** The history after a delivery, exactly as a step of the run records it. */
  ghost function Received(h: History, s: State, m: Message, r: Receipt): History
    requires r.Accepted?
  {
    h.(keys := if r.state.ours == s.ours then h.keys else h.keys + [r.state.ours],
       accepted := h.accepted + {Id(m.header.dh, m.header.number)},
       evicted := h.evicted + Ids(r.dropped))
  }

  ghost predicate Delivered(h: History, s: State, L: nat, p: State, M: nat, e: nat, n: nat, m: Message, r: Receipt)
    requires IsLetter(h, e, n, m)
  {
    && r.Accepted?
    && r.text == Letters(h, e)[n].text
    && Duo(Received(h, s, m, r), r.state, if e == L then L + 2 else L, p, M)
  }

  ghost predicate SealedFor(m: Message, key: Key, ad: AssociatedData, text: Text) {
    m.body == Sealed(key, ad, m.header, text)
  }

  lemma DecryptFromCache(s: State, m: Message, key: Key, text: Text, next: nat)
    requires WellFormed(s) && !m.header.dh.WrongLength? && SealedFor(m, key, s.ad, text)
    requires Lookup(s.skipped, Id(m.header.dh, m.header.number)) == Some(key)
    ensures Decrypt(s, m, next) ==
      Accepted(s.(skipped := Remove(s.skipped, Id(m.header.dh, m.header.number))), text, [])
  {
  }

  lemma DecryptFromChain(s: State, m: Message, chain: Key, text: Text, next: nat)
    requires WellFormed(s) && !m.header.dh.WrongLength? && SealedFor(m, MessageKey(chain), s.ad, text)
    requires Lookup(s.skipped, Id(m.header.dh, m.header.number)).None?
    requires Advance(s, m.header, next).Progress? && Advance(s, m.header, next).state.receiving == Some(chain)
    ensures var ready := Advance(s, m.header, next);
      Decrypt(s, m, next) ==
      Accepted(ready.state.(receiving := Some(ChainStep(chain)), receiveCount := ready.state.receiveCount + 1), text,
          ready.dropped)
  {
  }

  lemma LetterIsSealed(h: History, e: nat, n: nat, m: Message)
    requires HistoryOk(h) && IsLetter(h, e, n, m)
    ensures m.header == HeaderAt(h, e, n) && SealedFor(m, KeyAt(h, e, n), h.ad, Letters(h, e)[n].text)
  {
    assert IsGenuine(h, e, n, Letters(h, e)[n]);
  }

  lemma CachedEntry(h: History, s: State, L: nat, e: nat, n: nat) returns (i: nat)
    requires Distinct(h.keys) && CacheOk(h, s, L) && e + 1 < |h.keys| && InCache(s.skipped, IdAt(h.keys, e, n))
    ensures i < |s.skipped| && s.skipped[i].id == IdAt(h.keys, e, n)
    ensures Lookup(s.skipped, IdAt(h.keys, e, n)) == Some(KeyAt(h, e, n))
    ensures Even(e) == Even(L) && e < L
  {
    hide Ordered, KeyAt, Lookup, Even;
    var id := IdAt(h.keys, e, n);
    i :| 0 <= i < |s.skipped| && s.skipped[i].id == id;
    IndexIs(h.keys, e + 1);
    assert GoodEntry(h, L, s.receiveCount, s.skipped[i]);
    LookupFinds(s.skipped, id);
    var cached := Lookup(s.skipped, id);
    var j :| 0 <= j < |s.skipped| && s.skipped[j] == Entry(id, cached.value);
    assert GoodEntry(h, L, s.receiveCount, s.skipped[j]);
  }

  lemma KeysAreDistinct(h: History)
    requires HistoryOk(h)
    ensures Distinct(h.keys)
  {
  }

  lemma ReceiveCached(h: History, s: State, L: nat, p: State, M: nat, e: nat, n: nat, m: Message, next: nat)
    requires Duo(h, s, L, p, M) && IsLetter(h, e, n, m) && InCache(s.skipped, IdAt(h.keys, e, n))
    ensures Delivered(h, s, L, p, M, e, n, m, Decrypt(s, m, next)) && Even(e) == Even(L) && e < L
  {
    hide HistoryOk, CacheOk, PlacesOk, Remove, KeyAt, Lookup, Even;
    EvenAlternates(e);
    EvenAlternates(L);
    EvenAlternates(M);
    var id := IdAt(h.keys, e, n);
    KeysAreDistinct(h);
    var i := CachedEntry(h, s, L, e, n);
    LetterIsSealed(h, e, n, m);
    DecryptFromCache(s, m, KeyAt(h, e, n), Letters(h, e)[n].text, next);
    var r := Decrypt(s, m, next);
    assert Duo(Accepting(h, id), r.state, L, p, M) by {
      OpenCachedKeeps(h, s, L, i);
      AcceptingKeepsHistory(h, e, n);
      PeerKeeps(h, Accepting(h, id), Even(e + 1), p, M);
    }
    assert Ids([]) == {};
    assert Received(h, s, m, r) == Accepting(h, id);
  }

  lemma {:induction false} SkipAhead(h: History, s: State, L: nat, p: State, M: nat, n: nat)
    requires Duo(h, s, L, p, M) && L >= 2
    requires s.receiveCount <= n <= |Letters(h, L - 2)|
    ensures var r := SkipLoop(s, n);
      && r.state.receiving == Some(ChainAt(h.secret, h.keys, L - 2, n))
      && r.state.receiveCount == n
      && Duo(Evicting(h, r.dropped), r.state, L, p, M)
  {
    hide HistoryOk, CacheOk, PlacesOk, SkipLoop;
    EvenAlternates(L);
    EvenAlternates(M);
    SkipLoopKeeps(h, s, L, n);
    PeerKeeps(h, Evicting(h, SkipLoop(s, n).dropped), Even(L + 1), p, M);
  }

  lemma OpenHere(h: History, s: State, L: nat, p: State, M: nat)
    requires Duo(h, s, L, p, M) && L >= 2
    requires s.receiveCount < |Letters(h, L - 2)|
    ensures Duo(Accepting(h, IdAt(h.keys, L - 2, s.receiveCount)),
                s.(receiving := Some(ChainStep(s.receiving.value)), receiveCount := s.receiveCount + 1), L, p, M)
  {
    hide HistoryOk, CacheOk, PlacesOk;
    EvenAlternates(L);
    EvenAlternates(M);
    EvenAlternates(L - 2);
    EvenAlternates(L - 1);
    OpenCurrentKeeps(h, s, L);
    AcceptingKeepsHistory(h, L - 2, s.receiveCount);
    PeerKeeps(h, Accepting(h, IdAt(h.keys, L - 2, s.receiveCount)), Even(L - 2 + 1), p, M);
  }

  /** From a state whose receiving chain is chain `L - 2`, the last part of a
      decryption: skip to `n`, derive, open. */
  lemma OpenAhead(h: History, s: State, L: nat, p: State, M: nat, n: nat)
    requires Duo(h, s, L, p, M) && L >= 2
    requires s.receiveCount <= n < |Letters(h, L - 2)|
    ensures var r := SkipLoop(s, n);
      && r.state.receiving == Some(ChainAt(h.secret, h.keys, L - 2, n))
      && r.state.receiveCount == n
      && Duo(Accepting(Evicting(h, r.dropped), IdAt(h.keys, L - 2, n)),
             r.state.(receiving := Some(ChainStep(r.state.receiving.value)), receiveCount := n + 1), L, p, M)
  {
    hide HistoryOk, CacheOk, PlacesOk, SkipLoop;
    SkipAhead(h, s, L, p, M, n);
    var r := SkipLoop(s, n);
    OpenHere(Evicting(h, r.dropped), r.state, L, p, M);
  }

  lemma NotCached(h: History, s: State, L: nat, e: nat, n: nat)
    requires HistoryOk(h) && PartyOk(h, s, L) && e + 1 < |h.keys| && Even(e) == Even(L)
    requires !Passed(L, s.receiveCount, e, n)
    ensures Lookup(s.skipped, IdAt(h.keys, e, n)).None?
  {
    assert PlaceOk(h, s, L, e, n);
    LookupFinds(s.skipped, IdAt(h.keys, e, n));
  }

  lemma ReceiveCurrent(h: History, s: State, L: nat, p: State, M: nat, n: nat, m: Message, next: nat)
    requires Duo(h, s, L, p, M) && L >= 2 && IsLetter(h, L - 2, n, m)
    requires s.receiveCount <= n <= s.receiveCount + MAX_SKIPPED_KEYS
    ensures Delivered(h, s, L, p, M, L - 2, n, m, Decrypt(s, m, next))
  {
    hide HistoryOk, CacheOk, PlacesOk, SkipLoop;
    LetterIsSealed(h, L - 2, n, m);
    NotCached(h, s, L, L - 2, n);
    OpenAhead(h, s, L, p, M, n);
    var skipped := SkipLoop(s, n);
    assert Advance(s, m.header, next) == skipped by {
      assert [] + skipped.dropped == skipped.dropped;
    }
    DecryptFromChain(s, m, ChainAt(h.secret, h.keys, L - 2, n), Letters(h, L - 2)[n].text, next);
    var r := Decrypt(s, m, next);
    assert Received(h, s, m, r) == Accepting(Evicting(h, skipped.dropped), IdAt(h.keys, L - 2, n));
  }

  /** Finishing the old chain before the DH step. */
  lemma FinishOldChain(h: History, s: State, L: nat, p: State, M: nat)
    requires Duo(h, s, L, p, M) && M == L + 1
    requires L >= 2 ==> |Letters(h, L - 2)| <= s.receiveCount + MAX_SKIPPED_KEYS
    ensures var r := Skip(s, PreviousLength(h, L));
      && r.Progress?
      && Duo(Evicting(h, r.dropped), r.state, L, p, M)
      && (L >= 2 ==> r.state.receiveCount == |Letters(h, L - 2)|)
  {
    hide HistoryOk, CacheOk, PlacesOk, SkipLoop;
    if L >= 2 {
      SkipAhead(h, s, L, p, M, |Letters(h, L - 2)|);
    } else {
      assert Evicting(h, []) == h;
    }
  }

  lemma TakeDhStep(h: History, s: State, L: nat, p: State, M: nat, next: nat)
    requires Duo(h, s, L, p, M) && M == L + 1 && next !in h.keys
    requires L >= 2 ==> s.receiveCount == |Letters(h, L - 2)|
    ensures Duo(Growing(h, next), DhRatchet(s, h.keys[L + 1], next), L + 2, p, M)
    ensures Letters(Growing(h, next), L) == Letters(h, L)
  {
    GrowingKeepsHistory(h, next);
    DhRatchetKeeps(h, s, L, next);
    GrowingKeepsParty(h, next, p, M);
  }

  lemma TurnToNext(h: History, s: State, L: nat, p: State, M: nat, header: Header, next: nat) returns (turned: Progress)
    requires Duo(h, s, L, p, M) && M == L + 1 && next !in h.keys
    requires header.dh == Point(h.keys[L + 1]) && header.previousLength == PreviousLength(h, L)
    requires L >= 2 ==> |Letters(h, L - 2)| <= s.receiveCount + MAX_SKIPPED_KEYS
    ensures turned == Turn(s, header, next) && turned.Progress?
    ensures turned.state.ours == next && turned.state.receiveCount == 0 && turned.state.receiving.Some?
    ensures Duo(Growing(Evicting(h, turned.dropped), next), turned.state, L + 2, p, M)
  {
    IndexIs(h.keys, L + 1);
    if L >= 1 { IndexIs(h.keys, L - 1); }
    FinishOldChain(h, s, L, p, M);
    var finished := Skip(s, PreviousLength(h, L));
    TakeDhStep(Evicting(h, finished.dropped), finished.state, L, p, M, next);
    turned := Progress(DhRatchet(finished.state, h.keys[L + 1], next), finished.dropped);
  }

  lemma NextKey(h: History, dropped: seq<Entry>, next: nat, e: nat, n: nat)
    requires HistoryOk(h) && next !in h.keys && e + 1 < |h.keys|
    ensures var h' := Growing(Evicting(h, dropped), next);
      ChainAt(h'.secret, h'.keys, e, n) == ChainAt(h.secret, h.keys, e, n)
      && Letters(h', e) == Letters(h, e) && IdAt(h'.keys, e, n) == IdAt(h.keys, e, n)
  {
    GrowingKeepsKeys(h, next, e, n);
  }

  lemma ReceiveNext(h: History, s: State, L: nat, p: State, M: nat, n: nat, m: Message, next: nat)
    requires Duo(h, s, L, p, M) && IsLetter(h, L, n, m) && next !in h.keys
    requires n <= MAX_SKIPPED_KEYS
    requires L >= 2 ==> |Letters(h, L - 2)| <= s.receiveCount + MAX_SKIPPED_KEYS
    ensures Delivered(h, s, L, p, M, L, n, m, Decrypt(s, m, next))
  {
    hide HistoryOk, CacheOk, PlacesOk, SkipLoop, Turn, RootAt;
    LetterIsSealed(h, L, n, m);
    NotCached(h, s, L, L, n);
    var turned := TurnToNext(h, s, L, p, M, m.header, next);
    var h2 := Growing(Evicting(h, turned.dropped), next);
    NextKey(h, turned.dropped, next, L, n);
    OpenAhead(h2, turned.state, L + 2, p, M, n);
    var skipped := SkipLoop(turned.state, n);
    assert Advance(s, m.header, next) == Progress(skipped.state, turned.dropped + skipped.dropped);
    DecryptFromChain(s, m, ChainAt(h.secret, h.keys, L, n), Letters(h, L)[n].text, next);
    var r := Decrypt(s, m, next);
    assert Received(h, s, m, r) == Accepting(Evicting(h2, skipped.dropped), IdAt(h2.keys, L, n)) by {
      IdsConcat(turned.dropped, skipped.dropped);
      assert next != s.ours;
    }
  }

  lemma ReceiveAcceptable(h: History, s: State, L: nat, p: State, M: nat, e: nat, n: nat, m: Message, next: nat)
    requires Duo(h, s, L, p, M) && IsLetter(h, e, n, m) && next !in h.keys
    requires Acceptable(h, s, L, e, n)
    ensures Delivered(h, s, L, p, M, e, n, m, Decrypt(s, m, next))
  {
    hide HistoryOk, PartyOk, Delivered, Decrypt;
    if InCache(s.skipped, IdAt(h.keys, e, n)) {
      ReceiveCached(h, s, L, p, M, e, n, m, next);
    } else if e == L {
      ReceiveNext(h, s, L, p, M, n, m, next);
    } else {
      ReceiveCurrent(h, s, L, p, M, n, m, next);
    }
  }

  // ----- nothing else is accepted

  lemma {:induction false} SkipLoopChain(s: State, until: nat, start: Key)
    requires s.theirs.Some? && s.receiving == Some(Iterate(start, s.receiveCount))
    ensures var r := SkipLoop(s, until).state; r.receiving == Some(Iterate(start, r.receiveCount))
    decreases until - s.receiveCount
  {
    if s.receiveCount < until {
      SkipLoopChain(SkipOne(s).state, until, start);
    }
  }

  /** On the current chain, the key derived is the key of the place derived. */
  lemma CurrentChainKey(h: History, s: State, L: nat, header: Header, next: nat)
    requires 2 <= L < |h.keys| && ChainsOk(h, s, L) && header.dh == Point(h.keys[L - 1])
    ensures var r := Advance(s, header, next);
      r.Progress? ==>
        && header.number <= s.receiveCount + MAX_SKIPPED_KEYS
        && var at := if header.number <= s.receiveCount then s.receiveCount else header.number;
           r.state.receiving == Some(ChainAt(h.secret, h.keys, L - 2, at))
  {
    var start := ChainStart(RootAt(h.secret, h.keys, L - 2), Dh(h.keys[L - 2], h.keys[L - 1]));
    SkipLoopChain(s, header.number, start);
  }

  /** Under any other ratchet key, the key derived comes from the current root. */
  lemma NewChainKey(h: History, s: State, L: nat, header: Header, next: nat)
    requires L < |h.keys| && ChainsOk(h, s, L) && header.dh.Point?
    requires L >= 1 ==> header.dh != Point(h.keys[L - 1])
    ensures var r := Advance(s, header, next);
      r.Progress? ==>
        && header.number <= MAX_SKIPPED_KEYS
        && (L >= 2 ==> header.previousLength <= s.receiveCount + MAX_SKIPPED_KEYS)
        && r.state.receiving == Some(Iterate(ChainStart(RootAt(h.secret, h.keys, L), Dh(h.keys[L], header.dh.name)),
            header.number))
  {
    var turned := Turn(s, header, next);
    if turned.Progress? {
      SkipLoopChain(turned.state, header.number,
          ChainStart(RootAt(h.secret, h.keys, L), Dh(h.keys[L], header.dh.name)));
    }
  }

  /** The letter a body was sealed for. */
  lemma BodyHasPlace(h: History, key: nat, n: nat, body: Ciphertext) returns (e: nat)
    requires HistoryOk(h) && IsLetterBody(h, key, n, body)
    ensures e + 1 < |h.keys| && n < |Letters(h, e)|
    ensures body == Sealed(KeyAt(h, e, n), h.ad, HeaderAt(h, e, n), Letters(h, e)[n].text)
    ensures Letters(h, e)[n].message == Message(HeaderAt(h, e, n), body)
  {
    var i := Index(h.keys, key);
    e := i - 1;
    assert IsGenuine(h, e, n, Letters(h, e)[n]);
  }

  /** Whatever header an attacker writes in front of whatever sealed body, only
      an acceptable message of the peer's opens. */
  lemma OnlyLettersOpen(h: History, s: State, L: nat, key: nat, n: nat, m: Message, next: nat) returns (e: nat)
    requires HistoryOk(h) && PartyOk(h, s, L) && IsLetterBody(h, key, n, m.body)
    requires Decrypt(s, m, next).Accepted?
    ensures IsLetter(h, e, n, m) && Even(e) == Even(L) && Acceptable(h, s, L, e, n)
  {
    e := BodyHasPlace(h, key, n, m.body);
    assert m.header == HeaderAt(h, e, n);
    var id := IdAt(h.keys, e, n);
    assert Distinct(h.keys);
    hide HistoryOk, PlacesOk;
    LookupFinds(s.skipped, id);
    if Lookup(s.skipped, id).Some? {
      assert InCache(s.skipped, id);
      var i := CachedEntry(h, s, L, e, n);
    } else {
      hide CacheOk, Advance;
      DerivedFromChain(h, s, L, e, n, m.header, next);
    }
  }

  lemma {:induction false} DerivedFromChain(h: History, s: State, L: nat, e: nat, n: nat, header: Header, next: nat)
    requires L < |h.keys| && Distinct(h.keys) && ChainsOk(h, s, L)
    requires e + 1 < |h.keys| && header == HeaderAt(h, e, n)
    requires Advance(s, header, next).Progress?
    requires Advance(s, header, next).state.receiving == Some(ChainAt(h.secret, h.keys, e, n))
    ensures Even(e) == Even(L) && Acceptable(h, s, L, e, n)
  {
    hide Advance;
    if L >= 1 && header.dh == Point(h.keys[L - 1]) {
      assert e + 1 == L - 1;
      CurrentChainKey(h, s, L, header, next);
      var at := if n <= s.receiveCount then s.receiveCount else n;
      KeysAreIssuedOnce(h, L - 2, at, e, n);
      EvenAlternates(e);
      EvenAlternates(e + 1);
    } else {
      NewChainKey(h, s, L, header, next);
      DerivedKeyHasOnePlace(h, L, h.keys[e + 1], n, e, n);
    }
  }
}
