/**
 What each elementary step of the ratchet keeps: one skipped key, one DH step,
 one opened message, one sent message.
 */
module RatchetSteps {
  import opened Wrappers
  import opened Crypto
  import opened Ratchet
  import opened RatchetCache
  import opened RatchetRun

  // ----- keys are derived once

  ghost function Height(k: Key): nat {
    match k
    case RootStep(r, _) => 1 + Height(r)
    case _ => 0
  }

  lemma {:induction false} RootHeight(secret: Key, keys: seq<nat>, e: nat)
    requires e < |keys|
    ensures Height(RootAt(secret, keys, e)) == Height(secret) + e
  {
    if e > 0 {
      RootHeight(secret, keys, e - 1);
    }
  }

  lemma {:induction false} IterateInjective(r1: Key, d1: Shared, n1: nat, r2: Key, d2: Shared, n2: nat)
    requires Iterate(ChainStart(r1, d1), n1) == Iterate(ChainStart(r2, d2), n2)
    ensures r1 == r2 && d1 == d2 && n1 == n2
  {
    if n1 > 0 && n2 > 0 {
      IterateInjective(r1, d1, n1 - 1, r2, d2, n2 - 1);
    }
  }

  /** A key derived from the root of level `L` towards any ratchet key is the
      key of message `n` of chain `e` only if it is that message's own place. */
  lemma DerivedKeyHasOnePlace(h: History, L: nat, theirs: nat, m: nat, e: nat, n: nat)
    requires L < |h.keys| && e + 1 < |h.keys|
    requires MessageKey(Iterate(ChainStart(RootAt(h.secret, h.keys, L), Dh(h.keys[L], theirs)), m)) == KeyAt(h, e, n)
    ensures L == e && m == n && theirs == h.keys[e + 1]
  {
    IterateInjective(RootAt(h.secret, h.keys, L), Dh(h.keys[L], theirs), m,
                     RootAt(h.secret, h.keys, e), Dh(h.keys[e], h.keys[e + 1]), n);
    RootHeight(h.secret, h.keys, L);
    RootHeight(h.secret, h.keys, e);
    DhDeterminesPartner(h.keys[L], theirs, h.keys[e + 1]);
  }

  /** No message key is issued twice in a run. */
  lemma KeysAreIssuedOnce(h: History, e: nat, n: nat, e': nat, n': nat)
    requires e + 1 < |h.keys| && e' + 1 < |h.keys|
    requires KeyAt(h, e, n) == KeyAt(h, e', n')
    ensures e == e' && n == n'
  {
    DerivedKeyHasOnePlace(h, e, h.keys[e + 1], n, e', n');
  }

  lemma {:induction false} RootExtends(secret: Key, keys: seq<nat>, x: nat, e: nat)
    requires e < |keys|
    ensures RootAt(secret, keys + [x], e) == RootAt(secret, keys, e)
  {
    if e > 0 {
      RootExtends(secret, keys, x, e - 1);
    }
  }

  lemma IndexIs(keys: seq<nat>, i: nat)
    requires Distinct(keys) && i < |keys|
    ensures Index(keys, keys[i]) == i
  {
  }

  lemma EvenAlternates(n: nat)
    ensures Even(n + 1) == !Even(n)
  {
  }

  // ----- cache order

  lemma OrderedIsGrouped(keys: seq<nat>, cache: seq<Entry>)
    requires Ordered(keys, cache)
    ensures Grouped(cache)
  {
    forall i, j, k | 0 <= i < j < k < |cache| && cache[i].id.dh == cache[k].id.dh
      ensures cache[j].id.dh == cache[k].id.dh
    {
      assert Before(keys, cache[i].id, cache[j].id);
      assert Before(keys, cache[j].id, cache[k].id);
    }
  }

  // ----- skipping one key

  ghost function Evicting(h: History, dropped: seq<Entry>): History {
    h.(evicted := h.evicted + Ids(dropped))
  }

  lemma CachedComesBefore(h: History, L: nat, reached: nat, x: Entry)
    requires HistoryOk(h) && 2 <= L < |h.keys| && GoodEntry(h, L, reached, x)
    ensures var id := IdAt(h.keys, L - 2, reached); x.id != id && Before(h.keys, x.id, id)
    ensures GoodEntry(h, L, reached + 1, x)
  {
    IndexIs(h.keys, L - 1);
    var e := EpochOf(h.keys, x.id);
    assert h.keys[e + 1] == x.id.dh.name;
  }

  lemma SkipOneCache(h: History, s: State, L: nat)
    requires HistoryOk(h) && PartyOk(h, s, L) && L >= 2
    requires s.receiveCount < |Letters(h, L - 2)|
    ensures var x := Entry(IdAt(h.keys, L - 2, s.receiveCount), KeyAt(h, L - 2, s.receiveCount));
      && Put(s.skipped, x) == s.skipped + [x]
      && Ordered(h.keys, s.skipped + [x])
      && forall i | 0 <= i <= |s.skipped| :: GoodEntry(h, L, s.receiveCount + 1, (s.skipped + [x])[i])
  {
    hide PlacesOk, RootAt, Put;
    var x := Entry(IdAt(h.keys, L - 2, s.receiveCount), KeyAt(h, L - 2, s.receiveCount));
    var full := s.skipped + [x];
    forall i | 0 <= i < |s.skipped|
      ensures s.skipped[i].id != x.id && Before(h.keys, s.skipped[i].id, x.id)
      ensures GoodEntry(h, L, s.receiveCount + 1, s.skipped[i])
    {
      CachedComesBefore(h, L, s.receiveCount, s.skipped[i]);
    }
    PutAppends(s.skipped, x);
    assert GoodEntry(h, L, s.receiveCount + 1, x) by {
      IndexIs(h.keys, L - 1);
      EvenAlternates(L - 2);
      EvenAlternates(L - 1);
    }
    forall i, j | 0 <= i < j < |full| ensures Before(h.keys, full[i].id, full[j].id) {
    }
  }

  /** Nothing the peer receives has moved. */
  ghost predicate SameFor(h: History, h': History, parity: bool) {
    && h' == h.(accepted := h'.accepted, evicted := h'.evicted)
    && forall e: nat, n: nat | e + 1 < |h.keys| && Even(e) == parity ::
         var id := IdAt(h.keys, e, n);
         (id in h'.accepted <==> id in h.accepted) && (id in h'.evicted <==> id in h.evicted)
  }

  lemma SkipOneKeeps(h: History, s: State, L: nat)
    requires HistoryOk(h) && PartyOk(h, s, L) && L >= 2
    requires s.receiveCount < |Letters(h, L - 2)|
    ensures var r := SkipOne(s); PartyOk(Evicting(h, r.dropped), r.state, L) && HistoryOk(Evicting(h, r.dropped))
    ensures SameFor(h, Evicting(h, SkipOne(s).dropped), Even(L + 1))
  {
    hide HistoryOk, CacheOk, PlacesOk, Evict, Put, Ordered, Grouped, RootAt;
    var x := Entry(IdAt(h.keys, L - 2, s.receiveCount), KeyAt(h, L - 2, s.receiveCount));
    var full := s.skipped + [x];
    SkipOneCache(h, s, L);
    OrderedIsGrouped(h.keys, full);
    EvictDropsOldest(full);
    var r := SkipOne(s);
    var h' := Evicting(h, r.dropped);
    assert r.dropped + r.state.skipped == full;
    SplitKeepsParty(h, s, L, r.dropped, r.state);
  }

  lemma EvictingKeepsHistory(h: History, L: nat, reached: nat, dropped: seq<Entry>)
    requires HistoryOk(h)
    requires forall i | 0 <= i < |dropped| :: GoodEntry(h, L, reached, dropped[i])
    ensures HistoryOk(Evicting(h, dropped))
    ensures SameFor(h, Evicting(h, dropped), Even(L + 1))
  {
    var h' := Evicting(h, dropped);
    forall id | id in h'.evicted ensures Known(h'.keys, id) {
      if id !in h.evicted {
        var i :| 0 <= i < |dropped| && dropped[i].id == id;
        assert GoodEntry(h, L, reached, dropped[i]);
      }
    }
    forall e: nat, n: nat | e + 1 < |h'.keys| && n < |Letters(h', e)|
      ensures IsGenuine(h', e, n, Letters(h', e)[n])
    {
      assert IsGenuine(h, e, n, Letters(h, e)[n]);
    }
    forall e: nat, n: nat, i: nat | e + 1 < |h.keys| && Even(e) == Even(L + 1) && i < |dropped|
      ensures IdAt(h.keys, e, n) != dropped[i].id
    {
      assert GoodEntry(h, L, reached, dropped[i]);
      IndexIs(h.keys, e + 1);
    }
  }

  /** The cache with one more entry, split anywhere into evicted and kept. */
  lemma SplitKeepsParty(h: History, s: State, L: nat, dropped: seq<Entry>, s': State)
    requires HistoryOk(h) && PartyOk(h, s, L) && L >= 2
    requires s.receiveCount < |Letters(h, L - 2)|
    requires var x := Entry(IdAt(h.keys, L - 2, s.receiveCount), KeyAt(h, L - 2, s.receiveCount));
      dropped + s'.skipped == s.skipped + [x]
    requires s' == s.(receiving := Some(ChainAt(h.secret, h.keys, L - 2, s.receiveCount + 1)),
                      receiveCount := s.receiveCount + 1, skipped := s'.skipped)
    ensures PartyOk(Evicting(h, dropped), s', L) && HistoryOk(Evicting(h, dropped))
    ensures SameFor(h, Evicting(h, dropped), Even(L + 1))
  {
    var x := Entry(IdAt(h.keys, L - 2, s.receiveCount), KeyAt(h, L - 2, s.receiveCount));
    var full := s.skipped + [x];
    var h' := Evicting(h, dropped);
    SkipOneCache(h, s, L);
    forall i | 0 <= i < |s'.skipped| ensures s'.skipped[i] == full[|dropped| + i] {
    }
    forall i | 0 <= i < |dropped| ensures dropped[i] == full[i] {
    }
    forall i | 0 <= i < |full| ensures GoodEntry(h', L, s'.receiveCount, full[i]) {
      assert GoodEntry(h, L, s.receiveCount + 1, full[i]);
    }
    assert CacheOk(h', s', L);
    forall e: nat, n: nat | e + 1 < |h'.keys| && Even(e) == Even(L) ensures PlaceOk(h', s', L, e, n) {
      SplitPlace(h, s, L, dropped, s', full, e, n);
    }
    EvictingKeepsHistory(h, L, s.receiveCount + 1, dropped);
  }

  lemma SplitPlace(h: History, s: State, L: nat, dropped: seq<Entry>, s': State, full: seq<Entry>, e: nat, n: nat)
    requires HistoryOk(h) && PartyOk(h, s, L) && L >= 2
    requires s.receiveCount < |Letters(h, L - 2)| && s'.receiveCount == s.receiveCount + 1
    requires full == s.skipped + [Entry(IdAt(h.keys, L - 2, s.receiveCount), KeyAt(h, L - 2, s.receiveCount))]
    requires dropped + s'.skipped == full
    requires Ordered(h.keys, full)
    requires e + 1 < |h.keys| && Even(e) == Even(L)
    ensures PlaceOk(Evicting(h, dropped), s', L, e, n)
  {
    var id := IdAt(h.keys, e, n);
    assert PlaceOk(h, s, L, e, n);
    InCacheSplits(dropped, s'.skipped, id);
    InCacheSplits(s.skipped, [full[|s.skipped|]], id);
    assert InCache(dropped, id) <==> id in Ids(dropped);
    assert id == full[|s.skipped|].id <==> e == L - 2 && n == s.receiveCount by {
      IndexIs(h.keys, e + 1);
      IndexIs(h.keys, L - 1);
    }
    assert InCache([full[|s.skipped|]], id) <==> id == full[|s.skipped|].id by {
      assert [full[|s.skipped|]][0] == full[|s.skipped|];
    }
    forall i, j | 0 <= i < |dropped| && 0 <= j < |s'.skipped| ensures dropped[i].id != s'.skipped[j].id {
      assert Before(h.keys, full[i].id, full[|dropped| + j].id);
    }
  }

  lemma InCacheSplits(a: seq<Entry>, b: seq<Entry>, id: Id)
    ensures InCache(a + b, id) <==> InCache(a, id) || InCache(b, id)
  {
    var ab := a + b;
    if InCache(a, id) {
      var i :| 0 <= i < |a| && a[i].id == id;
      assert ab[i].id == id;
    }
    if InCache(b, id) {
      var i :| 0 <= i < |b| && b[i].id == id;
      assert ab[|a| + i].id == id;
    }
    if InCache(ab, id) {
      var i :| 0 <= i < |ab| && ab[i].id == id;
      assert if i < |a| then a[i].id == id else b[i - |a|].id == id;
    }
  }

  lemma {:induction false} SkipLoopKeeps(h: History, s: State, L: nat, until: nat)
    requires HistoryOk(h) && PartyOk(h, s, L) && L >= 2
    requires until <= |Letters(h, L - 2)|
    ensures var r := SkipLoop(s, until);
      PartyOk(Evicting(h, r.dropped), r.state, L) && HistoryOk(Evicting(h, r.dropped))
    ensures SameFor(h, Evicting(h, SkipLoop(s, until).dropped), Even(L + 1))
    decreases until - s.receiveCount
  {
    hide HistoryOk, CacheOk, PlacesOk, RootAt, Evict, Put;
    if s.receiveCount < until {
      SkipOneKeeps(h, s, L);
      var one := SkipOne(s);
      var h1 := Evicting(h, one.dropped);
      SkipLoopKeeps(h1, one.state, L, until);
      var rest := SkipLoop(one.state, until);
      IdsConcat(one.dropped, rest.dropped);
      assert Evicting(h1, rest.dropped) == Evicting(h, one.dropped + rest.dropped);
    } else {
      assert Evicting(h, []) == h;
    }
  }

  lemma IdsConcat(a: seq<Entry>, b: seq<Entry>)
    ensures Ids(a + b) == Ids(a) + Ids(b)
  {
    var ab := a + b;
    forall id | id in Ids(a) + Ids(b) ensures id in Ids(ab) {
      if id in Ids(a) {
        var i :| 0 <= i < |a| && a[i].id == id;
        assert ab[i].id == id;
      } else {
        var i :| 0 <= i < |b| && b[i].id == id;
        assert ab[|a| + i].id == id;
      }
    }
  }

  // ----- a step of the peer's

  lemma PeerKeeps(h: History, h': History, parity: bool, s: State, L: nat)
    requires PartyOk(h, s, L) && SameFor(h, h', parity) && parity == Even(L)
    ensures PartyOk(h', s, L)
  {
    forall i | 0 <= i < |s.skipped| ensures GoodEntry(h', L, s.receiveCount, s.skipped[i]) {
      assert GoodEntry(h, L, s.receiveCount, s.skipped[i]);
    }
    forall e: nat, n: nat | e + 1 < |h'.keys| && Even(e) == Even(L) ensures PlaceOk(h', s, L, e, n) {
      assert PlaceOk(h, s, L, e, n);
    }
  }

  // ----- a new ratchet key

  ghost function Growing(h: History, x: nat): History {
    h.(keys := h.keys + [x])
  }

  lemma GrowingKeepsKeys(h: History, x: nat, e: nat, n: nat)
    requires HistoryOk(h) && x !in h.keys && e + 1 < |h.keys|
    ensures KeyAt(Growing(h, x), e, n) == KeyAt(h, e, n)
    ensures ChainAt(h.secret, h.keys + [x], e, n) == ChainAt(h.secret, h.keys, e, n)
    ensures PreviousLength(Growing(h, x), e) == PreviousLength(h, e)
    ensures Letters(Growing(h, x), e) == Letters(h, e)
    ensures IdAt(h.keys + [x], e, n) == IdAt(h.keys, e, n)
  {
    RootExtends(h.secret, h.keys, x, e);
  }

  lemma GrowingKeepsHistory(h: History, x: nat)
    requires HistoryOk(h) && x !in h.keys
    ensures HistoryOk(Growing(h, x))
  {
    var h' := Growing(h, x);
    assert LettersUnder(h', x) == [];
    forall e: nat, n: nat | e + 1 < |h'.keys| && n < |Letters(h', e)|
      ensures IsGenuine(h', e, n, Letters(h', e)[n])
    {
      if e + 1 < |h.keys| {
        GrowingKeepsKeys(h, x, e, n);
        assert IsGenuine(h, e, n, Letters(h, e)[n]);
      }
    }
  }

  lemma IndexExtends(keys: seq<nat>, x: nat, k: nat)
    requires Distinct(keys) && x !in keys && k in keys
    ensures Index(keys + [x], k) == Index(keys, k)
  {
    var keys' := keys + [x];
    var i := Index(keys', k);
    assert i < |keys|;
    assert keys[i] == k;
  }

  lemma GoodEntryGrows(h: History, x: nat, L: nat, reached: nat, entry: Entry)
    requires HistoryOk(h) && x !in h.keys && GoodEntry(h, L, reached, entry)
    ensures GoodEntry(Growing(h, x), L, reached, entry)
    ensures EpochOf(h.keys + [x], entry.id) == EpochOf(h.keys, entry.id)
  {
    IndexExtends(h.keys, x, entry.id.dh.name);
    GrowingKeepsKeys(h, x, EpochOf(h.keys, entry.id), entry.id.number);
  }

  lemma GrowingKeepsCache(h: History, x: nat, s: State, L: nat)
    requires HistoryOk(h) && x !in h.keys && CacheOk(h, s, L)
    ensures CacheOk(Growing(h, x), s, L)
  {
    forall i | 0 <= i < |s.skipped|
      ensures GoodEntry(Growing(h, x), L, s.receiveCount, s.skipped[i])
      ensures EpochOf(h.keys + [x], s.skipped[i].id) == EpochOf(h.keys, s.skipped[i].id)
    {
      GoodEntryGrows(h, x, L, s.receiveCount, s.skipped[i]);
    }
    forall i, j | 0 <= i < j < |s.skipped| ensures Before(h.keys + [x], s.skipped[i].id, s.skipped[j].id) {
      assert Before(h.keys, s.skipped[i].id, s.skipped[j].id);
    }
  }

  lemma GrowingKeepsPlace(h: History, x: nat, s: State, L: nat, e: nat, n: nat)
    requires HistoryOk(h) && x !in h.keys && PartyOk(h, s, L) && |h.keys| <= L + 2
    requires e < |h.keys| && Even(e) == Even(L)
    ensures PlaceOk(Growing(h, x), s, L, e, n)
  {
    if e + 1 < |h.keys| {
      assert PlaceOk(h, s, L, e, n);
      GrowingKeepsKeys(h, x, e, n);
    } else {
      var id := IdAt(h.keys + [x], e, n);
      assert !Known(h.keys, id);
      forall i | 0 <= i < |s.skipped| ensures s.skipped[i].id != id {
        assert GoodEntry(h, L, s.receiveCount, s.skipped[i]);
      }
    }
  }

  lemma GrowingKeepsChains(h: History, x: nat, s: State, L: nat)
    requires HistoryOk(h) && x !in h.keys && L < |h.keys| && ChainsOk(h, s, L)
    ensures ChainsOk(Growing(h, x), s, L)
  {
    RootExtends(h.secret, h.keys, x, L);
    if L >= 1 {
      GrowingKeepsKeys(h, x, L - 1, s.sendCount);
    }
    if L >= 2 {
      GrowingKeepsKeys(h, x, L - 2, s.receiveCount);
    }
  }

  lemma GrowingKeepsParty(h: History, x: nat, s: State, L: nat)
    requires HistoryOk(h) && x !in h.keys && PartyOk(h, s, L) && |h.keys| <= L + 2
    ensures PartyOk(Growing(h, x), s, L)
  {
    GrowingKeepsChains(h, x, s, L);
    GrowingKeepsCache(h, x, s, L);
    forall e: nat, n: nat | e + 1 < |h.keys + [x]| && Even(e) == Even(L) ensures PlaceOk(Growing(h, x), s, L, e, n) {
      GrowingKeepsPlace(h, x, s, L, e, n);
    }
  }

  /** One DH step, taken when the peer is one step ahead and the old chain is
      used up, puts the party one step ahead of the peer. */
  lemma DhRatchetKeeps(h: History, s: State, L: nat, x: nat)
    requires HistoryOk(h) && x !in h.keys && PartyOk(h, s, L) && |h.keys| == L + 2
    requires L >= 2 ==> s.receiveCount == |Letters(h, L - 2)|
    ensures PartyOk(Growing(h, x), DhRatchet(s, h.keys[L + 1], x), L + 2)
  {
    var h' := Growing(h, x);
    var s' := DhRatchet(s, h.keys[L + 1], x);
    hide HistoryOk;
    GrowingKeepsParty(h, x, s, L);
    RootExtends(h.secret, h.keys, x, L);
    DhIsSymmetric(x, h.keys[L + 1]);
    assert RootAt(h.secret, h'.keys, L + 1) == RootStep(s.root, Dh(h.keys[L], h.keys[L + 1]));
    assert ChainsOk(h', s', L + 2);
    EvenAlternates(L);
    EvenAlternates(L + 1);
    forall i | 0 <= i < |s'.skipped| ensures GoodEntry(h', L + 2, 0, s'.skipped[i]) {
      assert GoodEntry(h', L, s.receiveCount, s.skipped[i]);
    }
    var L' := L + 2;
    forall e: nat, n: nat | e + 1 < |h'.keys| && Even(e) == Even(L') ensures PlaceOk(h', s', L', e, n) {
      assert PlaceOk(h', s, L, e, n);
      EvenAlternates(e);
      DhRatchetPlace(h', s, s', L, e, n);
    }
  }

  /** Nothing changes its place but that the whole old chain is now behind. */
  lemma DhRatchetPlace(h: History, s: State, s': State, L: nat, e: nat, n: nat)
    requires e + 1 < |h.keys| && PlaceOk(h, s, L, e, n) && Even(e) == Even(L) && |h.keys| == L + 3
    requires s'.skipped == s.skipped && s'.receiveCount == 0
    requires L >= 2 ==> s.receiveCount == |Letters(h, L - 2)|
    ensures PlaceOk(h, s', L + 2, e, n)
  {
    if e > L {
      EvenAlternates(L);
    }
  }

  // ----- opening a message

  ghost function Accepting(h: History, id: Id): History {
    h.(accepted := h.accepted + {id})
  }

  lemma AcceptingKeepsHistory(h: History, e: nat, n: nat)
    requires HistoryOk(h) && e + 1 < |h.keys|
    ensures HistoryOk(Accepting(h, IdAt(h.keys, e, n)))
    ensures SameFor(h, Accepting(h, IdAt(h.keys, e, n)), Even(e + 1))
  {
    var h' := Accepting(h, IdAt(h.keys, e, n));
    forall e: nat, n: nat | e + 1 < |h'.keys| && n < |Letters(h', e)|
      ensures IsGenuine(h', e, n, Letters(h', e)[n])
    {
      assert IsGenuine(h, e, n, Letters(h, e)[n]);
    }
    forall e': nat, n': nat | e' + 1 < |h.keys| && Even(e') == Even(e + 1)
      ensures IdAt(h.keys, e', n') != IdAt(h.keys, e, n)
    {
      IndexIs(h.keys, e' + 1);
      IndexIs(h.keys, e + 1);
    }
  }

  lemma OpenCurrentKeeps(h: History, s: State, L: nat)
    requires HistoryOk(h) && PartyOk(h, s, L) && L >= 2
    requires s.receiveCount < |Letters(h, L - 2)|
    ensures PartyOk(Accepting(h, IdAt(h.keys, L - 2, s.receiveCount)),
                    s.(receiving := Some(ChainStep(s.receiving.value)), receiveCount := s.receiveCount + 1), L)
  {
    var id := IdAt(h.keys, L - 2, s.receiveCount);
    var h' := Accepting(h, id);
    var s' := s.(receiving := Some(ChainStep(s.receiving.value)), receiveCount := s.receiveCount + 1);
    forall i | 0 <= i < |s'.skipped| ensures GoodEntry(h', L, s'.receiveCount, s'.skipped[i]) {
      assert GoodEntry(h, L, s.receiveCount, s.skipped[i]);
    }
    forall e: nat, n: nat | e + 1 < |h'.keys| && Even(e) == Even(L) ensures PlaceOk(h', s', L, e, n) {
      assert PlaceOk(h, s, L, e, n);
      IndexIs(h.keys, e + 1);
      IndexIs(h.keys, L - 1);
    }
  }

  lemma {:induction false} RemoveIsCut(keys: seq<nat>, cache: seq<Entry>, i: nat)
    requires i < |cache| && Ordered(keys, cache)
    ensures Remove(cache, cache[i].id) == cache[..i] + cache[i + 1..]
  {
    forall j, k | 0 <= j < k < |cache| ensures cache[j].id != cache[k].id {
      assert Before(keys, cache[j].id, cache[k].id);
    }
    CutOnce(cache, i);
  }

  lemma OpenCachedKeeps(h: History, s: State, L: nat, i: nat)
    requires HistoryOk(h) && PartyOk(h, s, L) && i < |s.skipped|
    ensures var id := s.skipped[i].id;
      PartyOk(Accepting(h, id), s.(skipped := Remove(s.skipped, id)), L)
  {
    var id := s.skipped[i].id;
    var h' := Accepting(h, id);
    var cut := s.skipped[..i] + s.skipped[i + 1..];
    RemoveIsCut(h.keys, s.skipped, i);
    var s' := s.(skipped := cut);
    assert CacheOk(h', s', L) by {
      CutKeepsCache(h, s, L, i, cut);
    }
    forall e: nat, n: nat | e + 1 < |h'.keys| && Even(e) == Even(L) ensures PlaceOk(h', s', L, e, n) {
      assert PlaceOk(h, s, L, e, n);
      CutPlace(h.keys, s.skipped, i, cut, IdAt(h.keys, e, n));
    }
  }

  lemma CutKeepsCache(h: History, s: State, L: nat, i: nat, cut: seq<Entry>)
    requires CacheOk(h, s, L) && i < |s.skipped| && cut == s.skipped[..i] + s.skipped[i + 1..]
    ensures CacheOk(Accepting(h, s.skipped[i].id), s.(skipped := cut), L)
  {
    var h' := Accepting(h, s.skipped[i].id);
    forall j | 0 <= j < |cut| ensures GoodEntry(h', L, s.receiveCount, cut[j]) {
      assert GoodEntry(h, L, s.receiveCount, s.skipped[if j < i then j else j + 1]);
    }
    forall j, k | 0 <= j < k < |cut| ensures Before(h.keys, cut[j].id, cut[k].id) {
      assert Before(h.keys, s.skipped[if j < i then j else j + 1].id, s.skipped[if k < i then k else k + 1].id);
    }
  }

  lemma CutPlace(keys: seq<nat>, cache: seq<Entry>, i: nat, cut: seq<Entry>, id: Id)
    requires Ordered(keys, cache) && i < |cache| && cut == cache[..i] + cache[i + 1..]
    ensures InCache(cut, id) <==> InCache(cache, id) && id != cache[i].id
    ensures id == cache[i].id ==> InCache(cache, id)
  {
    if InCache(cut, id) {
      var j :| 0 <= j < |cut| && cut[j].id == id;
      var k := if j < i then j else j + 1;
      assert cache[k].id == id;
      if k < i { assert Before(keys, cache[k].id, cache[i].id); }
          else { assert Before(keys, cache[i].id, cache[k].id); }
    }
    if InCache(cache, id) && id != cache[i].id {
      var k :| 0 <= k < |cache| && cache[k].id == id;
      assert cut[if k < i then k else k - 1].id == id;
    }
  }
}
