/**
 Evictions happen inside a decryption, on a cache that grows key by key: over every
 run they remove the oldest entries and nothing else.
 */
module RatchetEviction {
  import opened Wrappers
  import opened Crypto
  import opened Ratchet
  import opened RatchetCache
  import opened RatchetRun
  import opened RatchetSteps
  import opened RatchetTheorems
  import opened RatchetRuns

  /** The cache entry of one message. */
  ghost function EntryAt(secret: Key, keys: seq<nat>, e: nat, n: nat): Entry
    requires e + 1 < |keys|
  {
    Entry(IdAt(keys, e, n), MessageKey(ChainAt(secret, keys, e, n)))
  }

  /** The keys of messages `from` to `to` of chain `e`, in order. */
  ghost function Passing(secret: Key, keys: seq<nat>, e: nat, from: nat, to: nat): seq<Entry>
    requires e + 1 < |keys|
    decreases if from < to then to - from else 0
  {
    if from >= to then []
    else [EntryAt(secret, keys, e, from)] + Passing(secret, keys, e, from + 1, to)
  }

  lemma {:induction false} PassingGrows(h: History, x: nat, e: nat, from: nat, to: nat)
    requires HistoryOk(h) && x !in h.keys && e + 1 < |h.keys|
    ensures Passing(h.secret, h.keys + [x], e, from, to) == Passing(h.secret, h.keys, e, from, to)
    decreases if from < to then to - from else 0
  {
    if from < to {
      hide HistoryOk, ChainAt;
      GrowingKeepsKeys(h, x, e, from);
      PassingGrows(h, x, e, from + 1, to);
    }
  }

  /** What leaves the cache and what stays are, in this order, what was there and
      what came in; and nothing leaves that the bounds would have let stay. */
  ghost predicate OldestFirst(before: seq<Entry>, came: seq<Entry>, dropped: seq<Entry>, after: seq<Entry>) {
    && dropped + after == before + came
    && forall k | 0 <= k < |dropped| :: !Bounded((before + came)[k..])
  }

  lemma SkipOneDropsOldest(h: History, s: State, L: nat)
    requires HistoryOk(h) && PartyOk(h, s, L) && L >= 2 && s.receiveCount < |Letters(h, L - 2)|
    ensures var r := SkipOne(s);
      OldestFirst(s.skipped, [EntryAt(h.secret, h.keys, L - 2, s.receiveCount)], r.dropped, r.state.skipped)
  {
    hide HistoryOk, CacheOk, PlacesOk, Evict, Put, Ordered, Grouped, RootAt;
    var x := EntryAt(h.secret, h.keys, L - 2, s.receiveCount);
    SkipOneCache(h, s, L);
    OrderedIsGrouped(h.keys, s.skipped + [x]);
    EvictDropsOldest(s.skipped + [x]);
    forall k | 0 <= k < |Evict(s.skipped + [x]).dropped| ensures !Bounded((s.skipped + [x])[k..]) {
      EvictDropsFewest(s.skipped + [x], k);
    }
  }

  lemma TwoSteps(a: seq<Entry>, x: seq<Entry>, d: seq<Entry>, b: seq<Entry>, y: seq<Entry>, f: seq<Entry>,
      c: seq<Entry>)
    requires OldestFirst(a, x, d, b) && OldestFirst(b, y, f, c)
    ensures OldestFirst(a, x + y, d + f, c)
  {
    hide Bounded;
    assert d + f + c == d + (f + c) == d + (b + y) == (d + b) + y == a + x + y == a + (x + y);
    forall k | 0 <= k < |d + f| ensures !Bounded((a + (x + y))[k..]) {
      if k < |d| {
        assert (a + (x + y))[k..] == (a + x)[k..] + y;
        if Bounded((a + x)[k..] + y) {
          BoundedParts((a + x)[k..], y);
        }
      } else {
        assert (a + (x + y))[k..] == (b + y)[k - |d|..];
        assert !Bounded((b + y)[k - |d|..]);
      }
    }
  }

  lemma PartyReceives(h: History, s: State, L: nat)
    requires PartyOk(h, s, L) && L >= 2
    ensures s.receiving.Some? && s.theirs.Some? && L < |h.keys|
  {
  }

  lemma SkipsJoin(s: State, until: nat, x: Entry, more: seq<Entry>)
    requires s.receiving.Some? && s.theirs.Some? && s.receiveCount < until
    requires var one := SkipOne(s);
      && one.Progress? && one.state.receiving.Some? && one.state.theirs.Some?
      && OldestFirst(s.skipped, [x], one.dropped, one.state.skipped)
      && var rest := SkipLoop(one.state, until); OldestFirst(one.state.skipped, more, rest.dropped, rest.state.skipped)
    ensures var r := SkipLoop(s, until); OldestFirst(s.skipped, [x] + more, r.dropped, r.state.skipped)
  {
    hide SkipOne, SkipLoop, OldestFirst;
    SkipLoopUnfolds(s, until);
    var one := SkipOne(s);
    var rest := SkipLoop(one.state, until);
    TwoSteps(s.skipped, [x], one.dropped, one.state.skipped, more, rest.dropped, rest.state.skipped);
  }

  lemma SkipOneStep(h: History, s: State, L: nat) returns (h1: History, one: State, x: Entry)
    requires HistoryOk(h) && PartyOk(h, s, L) && L >= 2 && s.receiveCount < |Letters(h, L - 2)|
    ensures s.receiving.Some? && s.theirs.Some? && one.receiving.Some? && one.theirs.Some? && L < |h.keys|
    ensures SkipOne(s).Progress? && one == SkipOne(s).state && one.receiveCount == s.receiveCount + 1
    ensures HistoryOk(h1) && PartyOk(h1, one, L) && h1 == h.(evicted := h1.evicted)
    ensures x == EntryAt(h.secret, h.keys, L - 2, s.receiveCount)
    ensures OldestFirst(s.skipped, [x], SkipOne(s).dropped, one.skipped)
  {
    PartyReceives(h, s, L);
    hide HistoryOk, PartyOk, Evict, Put, EntryAt, SameFor, OldestFirst;
    SkipOneKeeps(h, s, L);
    SkipOneDropsOldest(h, s, L);
    one := SkipOne(s).state;
    h1 := Evicting(h, SkipOne(s).dropped);
    x := EntryAt(h.secret, h.keys, L - 2, s.receiveCount);
    PartyReceives(h1, one, L);
  }

  lemma {:induction false} SkipDropsOldest(h: History, s: State, L: nat, until: nat)
    requires HistoryOk(h) && PartyOk(h, s, L) && L >= 2 && until <= |Letters(h, L - 2)|
    ensures var r := SkipLoop(s, until);
      OldestFirst(s.skipped, Passing(h.secret, h.keys, L - 2, s.receiveCount, until), r.dropped, r.state.skipped)
    decreases until - s.receiveCount
  {
    PartyReceives(h, s, L);
    hide HistoryOk, PartyOk, SkipOne, SkipLoop, EntryAt, OldestFirst, Passing;
    if s.receiveCount < until {
      var h1, one, x := SkipOneStep(h, s, L);
      SkipDropsOldest(h1, one, L, until);
      var more := PassingOneMore(h.secret, h.keys, L - 2, s.receiveCount, until);
      SkipsJoin(s, until, x, more);
    } else {
      NothingPassed(h, s, L, until);
    }
  }

  lemma NothingPassed(h: History, s: State, L: nat, until: nat)
    requires 2 <= L < |h.keys| && s.receiving.Some? && s.theirs.Some? && until <= s.receiveCount
    ensures var r := SkipLoop(s, until);
      OldestFirst(s.skipped, Passing(h.secret, h.keys, L - 2, s.receiveCount, until), r.dropped, r.state.skipped)
  {
  }

  lemma PassingOneMore(secret: Key, keys: seq<nat>, e: nat, from: nat, to: nat) returns (more: seq<Entry>)
    requires e + 1 < |keys| && from < to
    ensures more == Passing(secret, keys, e, from + 1, to)
    ensures Passing(secret, keys, e, from, to) == [EntryAt(secret, keys, e, from)] + more
  {
    more := Passing(secret, keys, e, from + 1, to);
  }

  lemma SkipLoopUnfolds(s: State, until: nat)
    requires s.receiving.Some? && s.theirs.Some? && s.receiveCount < until
    ensures var one := SkipOne(s);
      && one.Progress? && one.state.receiving.Some? && one.state.theirs.Some?
      && SkipLoop(s, until) ==
         Progress(SkipLoop(one.state, until).state, one.dropped + SkipLoop(one.state, until).dropped)
  {
    hide Evict, Put;
  }

  lemma PassingNone(secret: Key, keys: seq<nat>, e: nat)
    requires e + 1 < |keys|
    ensures Passing(secret, keys, e, 0, 0) == []
  {
  }

  /** Everything a delivery passes over before message `n` of chain `e`: the rest of
      the current chain when it turns to the next, and the start of its own. */
  ghost function PassedOver(h: History, s: State, L: nat, e: nat, n: nat): seq<Entry>
    requires e + 1 < |h.keys|
  {
    if e == L then
      (if L >= 2 then Passing(h.secret, h.keys, L - 2, s.receiveCount, |Letters(h, L - 2)|) else [])
      + Passing(h.secret, h.keys, e, 0, n)
    else Passing(h.secret, h.keys, e, s.receiveCount, n)
  }

  lemma CurrentDropsOldest(h: History, s: State, L: nat, p: State, M: nat, n: nat, m: Message, next: nat)
    requires Duo(h, s, L, p, M) && L >= 2 && IsLetter(h, L - 2, n, m)
    requires s.receiveCount <= n <= s.receiveCount + MAX_SKIPPED_KEYS
    ensures var r := Decrypt(s, m, next);
      r.Accepted? && OldestFirst(s.skipped, PassedOver(h, s, L, L - 2, n), r.dropped, r.state.skipped)
  {
    hide HistoryOk, CacheOk, PlacesOk, SkipLoop, OldestFirst;
    LetterIsSealed(h, L - 2, n, m);
    NotCached(h, s, L, L - 2, n);
    OpenAhead(h, s, L, p, M, n);
    SkipDropsOldest(h, s, L, n);
    var skipped := SkipLoop(s, n);
    assert Advance(s, m.header, next) == skipped by {
      assert [] + skipped.dropped == skipped.dropped;
    }
    DecryptFromChain(s, m, ChainAt(h.secret, h.keys, L - 2, n), Letters(h, L - 2)[n].text, next);
  }

  /** Finishing the old chain, if there is one, before the DH step. */
  lemma FinishDropsOldest(h: History, s: State, L: nat, p: State, M: nat)
    requires Duo(h, s, L, p, M) && M == L + 1
    requires L >= 2 ==> |Letters(h, L - 2)| <= s.receiveCount + MAX_SKIPPED_KEYS
    ensures var r := Skip(s, PreviousLength(h, L));
      r.Progress? && OldestFirst(s.skipped, PassedOver(h, s, L, L, 0), r.dropped, r.state.skipped)
  {
    PassingNone(h.secret, h.keys, L);
    if L >= 2 {
      hide HistoryOk, CacheOk, PlacesOk, SkipLoop, OldestFirst, Passing;
      SkipDropsOldest(h, s, L, |Letters(h, L - 2)|);
      var passing := Passing(h.secret, h.keys, L - 2, s.receiveCount, |Letters(h, L - 2)|);
      assert passing + [] == passing;
    } else {
      hide HistoryOk, CacheOk, PlacesOk;
      assert PassedOver(h, s, L, L, 0) == [];
    }
  }

  lemma TurnDropsOldest(h: History, s: State, L: nat, p: State, M: nat, header: Header, next: nat)
    requires Duo(h, s, L, p, M) && M == L + 1 && next !in h.keys
    requires header.dh == Point(h.keys[L + 1]) && header.previousLength == PreviousLength(h, L)
    requires L >= 2 ==> |Letters(h, L - 2)| <= s.receiveCount + MAX_SKIPPED_KEYS
    ensures var turned := Turn(s, header, next);
      turned.Progress? && OldestFirst(s.skipped, PassedOver(h, s, L, L, 0), turned.dropped, turned.state.skipped)
  {
    IndexIs(h.keys, L + 1);
    if L >= 1 { IndexIs(h.keys, L - 1); }
    FinishDropsOldest(h, s, L, p, M);
    hide HistoryOk, CacheOk, PlacesOk, Skip, OldestFirst, PassedOver;
  }

  lemma NextDropsOldest(h: History, s: State, L: nat, p: State, M: nat, n: nat, m: Message, next: nat)
    requires Duo(h, s, L, p, M) && M == L + 1 && IsLetter(h, L, n, m) && next !in h.keys
    requires n <= MAX_SKIPPED_KEYS
    requires L >= 2 ==> |Letters(h, L - 2)| <= s.receiveCount + MAX_SKIPPED_KEYS
    ensures var r := Decrypt(s, m, next);
      r.Accepted? && OldestFirst(s.skipped, PassedOver(h, s, L, L, n), r.dropped, r.state.skipped)
  {
    hide HistoryOk, CacheOk, PlacesOk, SkipLoop, Turn, RootAt, OldestFirst, Passing;
    LetterIsSealed(h, L, n, m);
    NotCached(h, s, L, L, n);
    var turned := TurnToNext(h, s, L, p, M, m.header, next);
    TurnDropsOldest(h, s, L, p, M, m.header, next);
    var h2 := Growing(Evicting(h, turned.dropped), next);
    NextKey(h, turned.dropped, next, L, n);
    PassingGrows(h, next, L, 0, n);
    OpenAhead(h2, turned.state, L + 2, p, M, n);
    SkipDropsOldest(h2, turned.state, L + 2, n);
    var skipped := SkipLoop(turned.state, n);
    assert Advance(s, m.header, next) == Progress(skipped.state, turned.dropped + skipped.dropped);
    DecryptFromChain(s, m, ChainAt(h.secret, h.keys, L, n), Letters(h, L)[n].text, next);
    var old', own := PassedOver(h, s, L, L, 0), Passing(h.secret, h.keys, L, 0, n);
    TwoSteps(s.skipped, old', turned.dropped, turned.state.skipped, own, skipped.dropped, skipped.state.skipped);
    PassingNone(h.secret, h.keys, L);
    assert old' + own == PassedOver(h, s, L, L, n);
  }

  lemma CachedIsFound(s: State, id: Id)
    requires Lookup(s.skipped, id).None?
    ensures !InCache(s.skipped, id)
  {
    LookupFinds(s.skipped, id);
  }

  /** In every run, a delivery that is not opened from the cache moves the cache on
      like a queue: the keys it passes over come in at the end, in order, and what
      is evicted on the way is a prefix. */
  lemma EvictionsDropOldest(w: World, side: Side, m: Message) returns (e: nat, n: nat)
    requires Reachable(w) && WellFormed(w.Party(side)) && Possible(w.h, Deliver(side, m)) && |w.h.keys| >= 2
    requires Decrypt(w.Party(side), m, w.next).Accepted?
    requires Lookup(w.Party(side).skipped, Id(m.header.dh, m.header.number)).None?
    ensures IsLetter(w.h, e, n, m)
    ensures var s, r := w.Party(side), Decrypt(w.Party(side), m, w.next);
      OldestFirst(s.skipped, PassedOver(w.h, s, Level(w.h, side), e, n), r.dropped, r.state.skipped)
  {
    hide Reachable, Inv, Decrypt, Level, HistoryOk, PartyOk, PassedOver, OldestFirst, Lookup;
    ReachableIsInv(w);
    InvIsDuo(w, side);
    var s, L := w.Party(side), Level(w.h, side);
    var p, M := w.Party(Other(side)), Level(w.h, Other(side));
    e, n := AcceptedIsAcceptable(w, side, m);
    LetterIsSealed(w.h, e, n, m);
    CachedIsFound(s, IdAt(w.h.keys, e, n));
    if e == L {
      NextDropsOldest(w.h, s, L, p, M, n, m, w.next);
    } else {
      CurrentDropsOldest(w.h, s, L, p, M, n, m, w.next);
    }
  }

  /** So no key is evicted early: whatever the bounds leave room for, counted from
      the newest, is in the cache afterwards, and only the rest is marked evicted. */
  lemma NoEarlyEviction(w: World, side: Side, m: Message, e: nat, n: nat, k: nat)
    requires Reachable(w) && Possible(w.h, Deliver(side, m)) && |w.h.keys| >= 2 && IsLetter(w.h, e, n, m)
    requires WellFormed(w.initiator) && WellFormed(w.responder)
    requires Decrypt(w.Party(side), m, w.next).Accepted?
    requires Lookup(w.Party(side).skipped, Id(m.header.dh, m.header.number)).None?
    requires var all := w.Party(side).skipped + PassedOver(w.h, w.Party(side), Level(w.h, side), e, n);
      k < |all| && Bounded(all[k..])
    ensures var all := w.Party(side).skipped + PassedOver(w.h, w.Party(side), Level(w.h, side), e, n);
      var w' := Next(w, Deliver(side, m));
      && all[k] in w'.Party(side).skipped && |w'.Party(side).skipped| <= |all|
      && w'.h.evicted == w.h.evicted + Ids(all[..|all| - |w'.Party(side).skipped|])
  {
    AcceptedNext(w, side, m);
    ReachableIsInv(w);
    hide Reachable, Decrypt, Level, PartyOk, PassedOver, Lookup, Bounded, Next;
    var e', n' := EvictionsDropOldest(w, side, m);
    LetterHasOnePlace(w.h, e, n, e', n', m);
    var s, r := w.Party(side), Decrypt(w.Party(side), m, w.next);
    var all := s.skipped + PassedOver(w.h, s, Level(w.h, side), e, n);
    assert r.dropped + r.state.skipped == all && k >= |r.dropped|;
    assert all[k] == r.state.skipped[k - |r.dropped|];
    assert r.dropped == all[..|all| - |r.state.skipped|];
  }

  lemma AcceptedNext(w: World, side: Side, m: Message)
    requires WellFormed(w.initiator) && WellFormed(w.responder) && Decrypt(w.Party(side), m, w.next).Accepted?
    ensures var w', r := Next(w, Deliver(side, m)), Decrypt(w.Party(side), m, w.next);
      w'.Party(side) == r.state && w'.h.evicted == w.h.evicted + Ids(r.dropped)
  {
    hide Decrypt;
  }
}
