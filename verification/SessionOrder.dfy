/**
 The messages sent before the reply, in whatever order they arrive.
 */
module SessionOrder {
  import opened Wrappers
  import opened Crypto
  import opened Ratchet
  import opened RatchetCache
  import opened RatchetRun
  import opened RatchetSteps
  import opened RatchetTheorems
  import opened RatchetRuns
  import opened X3dh
  import opened SessionFacade
  import opened SessionTheorems

  // ----- nothing of one chain is evicted

  ghost predicate AllOfChain(cache: seq<Entry>, key: nat) {
    forall i | 0 <= i < |cache| :: cache[i].id.dh == Point(key)
  }

  lemma {:induction false} OneChain(cache: seq<Entry>, key: nat)
    requires AllOfChain(cache, key)
    ensures |ChainsOf(cache)| <= 1
  {
    FewerChains(cache, [Point(key)]);
  }

  lemma SmallCacheIsKept(cache: seq<Entry>, key: nat)
    requires AllOfChain(cache, key) && |cache| <= MAX_SKIPPED_KEYS
    ensures Evict(cache) == Eviction(cache, [])
  {
    OneChain(cache, key);
    assert cache[0..] == cache;
    NothingDoomed(cache);
    assert ChainsOf(cache)[..0] == [];
    assert cache[..0] + [] == [];
  }

  lemma {:induction false} NothingDoomed(cache: seq<Entry>)
    ensures Without(cache, []) == cache && Only(cache, []) == []
  {
    if cache != [] {
      NothingDoomed(cache[1..]);
    }
  }

  lemma {:induction false} PutGrows(cache: seq<Entry>, e: Entry, key: nat)
    requires AllOfChain(cache, key) && e.id.dh == Point(key)
    ensures AllOfChain(Put(cache, e), key) && |Put(cache, e)| <= |cache| + 1
  {
    if cache != [] {
      PutGrows(cache[1..], e, key);
    }
  }

  lemma {:induction false} RemoveTakesOne(cache: seq<Entry>, id: Id)
    requires Lookup(cache, id).Some?
    ensures |Remove(cache, id)| < |cache|
  {
    LookupFinds(cache, id);
    if cache[0].id == id {
      RemoveKeepsOthers(cache[1..], id);
    } else {
      LookupFinds(cache[1..], id);
      var i :| 0 <= i < |cache| && cache[i] == Entry(id, Lookup(cache, id).value);
      assert cache[1..][i - 1].id == id;
      RemoveTakesOne(cache[1..], id);
    }
  }

  /** With at most 2000 messages passed over and unread, skipping evicts nothing. */
  lemma {:induction false} SkipKeepsAll(s: State, until: nat, read: nat)
    requires s.receiving.Some? && s.theirs.Some? && until <= MAX_SKIPPED_KEYS + read
    requires AllOfChain(s.skipped, s.theirs.value) && |s.skipped| + read <= s.receiveCount
    ensures var r := SkipLoop(s, until);
      r.dropped == [] && AllOfChain(r.state.skipped, s.theirs.value) && |r.state.skipped| + read <= r.state.receiveCount
    decreases until - s.receiveCount
  {
    if s.receiveCount < until {
      var entry := Entry(Id(Point(s.theirs.value), s.receiveCount), MessageKey(s.receiving.value));
      PutGrows(s.skipped, entry, s.theirs.value);
      SmallCacheIsKept(Put(s.skipped, entry), s.theirs.value);
      hide Evict, Put;
      SkipKeepsAll(SkipOne(s).state, until, read);
    }
  }

  /** How far a reader of these messages of one chain has come. */
  function Reached(read: seq<nat>): nat {
    if read == [] then 0
    else
      var before, last := Reached(read[..|read| - 1]), read[|read| - 1];
      if last < before then before else last + 1
  }

  /** At every point of the order at most 2000 messages are passed over and unread. */
  ghost predicate InWindow(order: seq<nat>) {
    forall k | 0 <= k <= |order| :: Reached(order[..k]) <= MAX_SKIPPED_KEYS + k
  }

  /** On the first chain: what is cached is no more than what was passed and not read. */
  ghost predicate Keeps(s: State, key: nat, read: nat) {
    && s.theirs == Some(key) && s.receiving.Some?
    && AllOfChain(s.skipped, key) && |s.skipped| + read <= s.receiveCount
  }

  predicate Untouched(s: State) {
    s.theirs.None? && s.receiving.None? && s.skipped == []
  }

  /** The responder has read these messages of the first chain and lost none of it. */
  ghost predicate Calm(w: World, letters: seq<Letter>, read: seq<nat>) {
    && Reachable(w)
    && |w.h.keys| == (if read == [] then 2 else 3)
    && Letters(w.h, 0) == letters
    && w.h.evicted == {}
    && (forall n :: IdAt(w.h.keys, 0, n) in w.h.accepted <==> n in read)
    && (if read == [] then Untouched(w.responder)
        else Keeps(w.responder, w.h.keys[1], |read|) && w.responder.receiveCount == Reached(read))
  }

  lemma DecryptKeepsAll(s: State, m: Message, next: nat, key: nat, read: nat)
    requires WellFormed(s) && m.header.dh == Point(key) && m.header.number <= MAX_SKIPPED_KEYS + read
    requires Keeps(s, key, read) || (Untouched(s) && read == 0)
    requires Keeps(s, key, read) && Lookup(s.skipped, Id(m.header.dh, m.header.number)).None? ==>
        s.receiveCount <= m.header.number
    ensures var r := Decrypt(s, m, next);
      r.Accepted? ==>
        && r.dropped == [] && Keeps(r.state, key, read + 1)
        && r.state.ours == (if s.theirs.None? then next else s.ours)
        && r.state.receiveCount == if Lookup(s.skipped, Id(m.header.dh, m.header.number)).Some?
                                   then s.receiveCount else m.header.number + 1
  {
    var id := Id(m.header.dh, m.header.number);
    RemoveKeepsOthers(s.skipped, id);
    if s.theirs.None? {
      SkipKeepsAll(DhRatchet(s, key, next), m.header.number, read);
    } else {
      SkipKeepsAll(s, m.header.number, read);
    }
    hide SkipLoop;
    var r := Decrypt(s, m, next);
    if Lookup(s.skipped, id).Some? {
      RemoveTakesOne(s.skipped, id);
      if r.Accepted? {
        forall i | 0 <= i < |r.state.skipped| ensures r.state.skipped[i].id.dh == Point(key) {
          assert r.state.skipped[i] in s.skipped;
        }
      }
    }
  }

  /** An unread message of the first chain is cached if it was passed over, and
      otherwise it lies ahead. */
  lemma UnreadPlace(w: World, letters: seq<Letter>, read: seq<nat>, n: nat)
    requires Calm(w, letters, read) && n < |letters| && n !in read
    ensures Lookup(w.responder.skipped, IdAt(w.h.keys, 0, n)).Some? <==> n < Reached(read)
  {
    LevelSmall(w.h);
    LookupFinds(w.responder.skipped, IdAt(w.h.keys, 0, n));
    ReachableIsInv(w);
    hide Reachable;
    PassedHasPlace(w, Responder, 0, n);
    hide Inv;
    assert InCache(w.responder.skipped, IdAt(w.h.keys, 0, n)) <==>
        Passed(Level(w.h, Responder), w.responder.receiveCount, 0, n);
  }

  /** Every message of the burst not yet read opens, and nothing is lost by it. */
  lemma CalmDelivers(w: World, letters: seq<Letter>, read: seq<nat>, n: nat)
    requires Calm(w, letters, read) && n < |letters| && n !in read
    requires Reached(read + [n]) <= MAX_SKIPPED_KEYS + |read| + 1
    ensures WellFormed(w.initiator) && WellFormed(w.responder)
    ensures var m := letters[n].message;
      var r := Decrypt(w.responder, m, w.next);
      && r.Accepted? && r.text == letters[n].text
      && Calm(Next(w, Deliver(Responder, m)), letters, read + [n])
  {
    var m := letters[n].message;
    CalmIsReachable(w, letters, read);
    UnreadPlace(w, letters, read, n);
    CalmLetter(w, letters, read, n);
    var r := Decrypt(w.responder, m, w.next);
    ReachableNext(w, Deliver(Responder, m));
    ReachedMore(read, n);
    hide Decrypt, Reachable, Reached, Lookup, Next;
    CalmOpens(w, letters, read, n, m);
    DecryptKeepsAll(w.responder, m, w.next, w.h.keys[1], |read|);
    CalmStep(w, letters, read, n, m);
  }

  lemma ReachedMore(read: seq<nat>, n: nat)
    ensures Reached(read + [n]) == if n < Reached(read) then Reached(read) else n + 1
  {
    assert (read + [n])[..|read|] == read;
  }

  lemma CalmLetter(w: World, letters: seq<Letter>, read: seq<nat>, n: nat)
    requires Calm(w, letters, read) && n < |letters|
    ensures |w.h.keys| >= 2 && IsLetter(w.h, 0, n, letters[n].message)
        && Possible(w.h, Deliver(Responder, letters[n].message))
    ensures letters[n].message.header.dh == Point(w.h.keys[1]) && letters[n].message.header.number == n
    ensures w.responder.ours != w.next
  {
    ReachableIsInv(w);
    hide Reachable;
    InvIsDuo(w, Responder);
    LetterIsSealed(w.h, 0, n, letters[n].message);
    assert IsLetterBody(w.h, w.h.keys[1], n, letters[n].message.body);
  }

  lemma CalmStep(w: World, letters: seq<Letter>, read: seq<nat>, n: nat, m: Message)
    requires WellFormed(w.initiator) && WellFormed(w.responder) && Calm(w, letters, read)
    requires m.header.dh == Point(w.h.keys[1]) && m.header.number == n && w.responder.ours != w.next
    requires Reachable(Next(w, Deliver(Responder, m)))
    requires var r := Decrypt(w.responder, m, w.next);
      && r.Accepted? && r.dropped == [] && Keeps(r.state, w.h.keys[1], |read| + 1)
      && r.state.ours == (if w.responder.theirs.None? then w.next else w.responder.ours)
      && r.state.receiveCount == Reached(read + [n])
    ensures Calm(Next(w, Deliver(Responder, m)), letters, read + [n])
  {
    hide Decrypt, Reachable, Reached;
    var w' := Next(w, Deliver(Responder, m));
    assert w'.h.evicted == {} by {
      assert Ids([]) == {};
    }
    FirstKeysStay(w, w');
    assert w'.h.keys[1] == w'.h.keys[..2][1] == w.h.keys[..2][1];
    ReadMore(w.h, w'.h, read, n);
    hide AllOfChain;
    assert Keeps(w'.responder, w'.h.keys[1], |read + [n]|);
  }

  lemma ReadMore(h: History, h': History, read: seq<nat>, n: nat)
    requires |h.keys| >= 2 && |h'.keys| >= 2 && h'.keys[1] == h.keys[1]
    requires h'.accepted == h.accepted + {IdAt(h.keys, 0, n)}
    requires forall k :: IdAt(h.keys, 0, k) in h.accepted <==> k in read
    ensures forall k :: IdAt(h'.keys, 0, k) in h'.accepted <==> k in read + [n]
  {
    forall k: nat ensures IdAt(h'.keys, 0, k) in h'.accepted <==> k in read + [n] {
      assert IdAt(h'.keys, 0, k) == IdAt(h.keys, 0, k);
    }
  }

  lemma FirstKeysStay(w: World, w': World)
    requires |w.h.keys| >= 2 && (w'.h.keys == w.h.keys || exists x :: w'.h.keys == w.h.keys + [x])
    ensures w'.h.keys[..2] == w.h.keys[..2]
  {
  }

  lemma CalmOpens(w: World, letters: seq<Letter>, read: seq<nat>, n: nat, m: Message)
    requires Calm(w, letters, read) && IsLetter(w.h, 0, n, m) && n !in read && n <= MAX_SKIPPED_KEYS + |read|
    requires WellFormed(w.responder)
    ensures var r := Decrypt(w.responder, m, w.next); r.Accepted? && r.text == Letters(w.h, 0)[n].text
  {
    hide Decrypt, Reachable, Reached;
    FreshLetterOpens(w, 0, n, m);
    LevelSmall(w.h);
    ReachableIsInv(w);
    hide Inv;
    OpensExactlyWhen(w, Responder, 0, n, m);
    AcceptKeepsInv(w, Responder, 0, n, m);
  }

  lemma LevelSmall(h: History)
    requires 2 <= |h.keys| <= 3
    ensures Level(h, Responder) == if |h.keys| == 2 then 0 else 2
  {
    EvenAlternates(0);
    EvenAlternates(1);
  }

  ghost predicate AllOpen(w: World, letters: seq<Letter>, order: seq<nat>)
    requires WellFormed(w.initiator) && WellFormed(w.responder)
    requires forall i | 0 <= i < |order| :: order[i] < |letters|
    decreases |order|
  {
    order == [] ||
    var m := letters[order[0]].message;
    var r := Decrypt(w.responder, m, w.next);
    && r.Accepted? && r.text == letters[order[0]].text
    && AllOpen(Next(w, Deliver(Responder, m)), letters, order[1..])
  }

  lemma {:induction false} CalmDeliversAll(w: World, letters: seq<Letter>, order: seq<nat>, k: nat)
    requires k <= |order| && Calm(w, letters, order[..k]) && InWindow(order)
    requires forall i | 0 <= i < |order| :: order[i] < |letters|
    requires forall i, j | 0 <= i < j < |order| :: order[i] != order[j]
    ensures WellFormed(w.initiator) && WellFormed(w.responder)
    ensures AllOpen(w, letters, order[k..])
    decreases |order| - k
  {
    hide Calm, Decrypt, Next;
    CalmIsReachable(w, letters, order[..k]);
    if k < |order| {
      var n := order[k];
      assert order[..k + 1] == order[..k] + [n];
      CalmDelivers(w, letters, order[..k], n);
      var w' := Next(w, Deliver(Responder, letters[n].message));
      CalmDeliversAll(w', letters, order, k + 1);
      assert order[k..][1..] == order[k + 1..];
    }
  }

  lemma CalmIsReachable(w: World, letters: seq<Letter>, read: seq<nat>)
    requires Calm(w, letters, read)
    ensures Reachable(w) && |w.h.keys| >= 2 && WellFormed(w.initiator) && WellFormed(w.responder)
  {
    ReachableIsInv(w);
  }

  /** However many messages are sent before the reply, they open in any order in
      which at most 2000 are ever passed over and unread, each to its own text. */
  lemma {:induction false} BurstOpensInAnyOrder(g: Setting, texts: seq<Text>, order: seq<nat>)
    requires g.Ok() && InWindow(order)
    requires forall i | 0 <= i < |order| :: order[i] < |texts|
    requires forall i, j | 0 <= i < j < |order| :: order[i] != order[j]
    ensures BurstOk(g, texts)
    ensures AllOpen(Burst(g, texts).w, Letters(Burst(g, texts).w.h, 0), order)
  {
    BurstCarriesHandshake(g, texts);
    HandshakeAgrees(g);
    var w := Burst(g, texts).w;
    assert Calm(w, Letters(w.h, 0), order[..0]);
    CalmDeliversAll(w, Letters(w.h, 0), order, 0);
    assert order[0..] == order;
  }

  /** A session reads the chosen messages one after another, each to its text. */
  ghost predicate ReadsAll(session: Session, sent: seq<Inner>, texts: seq<Text>, order: seq<nat>, next: nat)
    requires |sent| == |texts| && forall i | 0 <= i < |order| :: order[i] < |sent|
    decreases |order|
  {
    order == [] ||
    (WellFormed(session.state) &&
     var r := DecryptFor(session, sent[order[0]], next);
     r.Incoming? && r.text == texts[order[0]] && ReadsAll(r.session, sent, texts, order[1..], next + 1))
  }

  lemma RunReadsOne(w: World, inner: Inner)
    requires WellFormed(w.initiator) && WellFormed(w.responder) && Decrypt(w.responder, inner.ratchet, w.next).Accepted?
    ensures var w' := Next(w, Deliver(Responder, inner.ratchet));
      && w'.next == w.next + 1
      && DecryptFor(Session(w.responder, None), inner, w.next)
         == Incoming(Session(w'.responder, None), Decrypt(w.responder, inner.ratchet, w.next).text)
  {
    hide Decrypt;
  }

  lemma {:induction false} RunReadsAll(w: World, letters: seq<Letter>, sent: seq<Inner>, texts: seq<Text>,
      order: seq<nat>)
    requires WellFormed(w.initiator) && WellFormed(w.responder)
    requires |sent| == |texts| == |letters| && forall i | 0 <= i < |order| :: order[i] < |letters|
    requires forall i | 0 <= i < |texts| :: sent[i].ratchet == letters[i].message && texts[i] == letters[i].text
    requires AllOpen(w, letters, order)
    ensures ReadsAll(Session(w.responder, None), sent, texts, order, w.next)
    decreases |order|
  {
    if order != [] {
      hide Decrypt, DecryptFor, Next;
      RunReadsOne(w, sent[order[0]]);
      RunReadsAll(Next(w, Deliver(Responder, letters[order[0]].message)), letters, sent, texts, order[1..]);
    }
  }

  /** Whichever message of the burst arrives first opens the session, and the
      session then reads all the others, in whatever order they follow. */
  lemma {:induction false} AnyOpenerThenTheRest(g: Setting, texts: seq<Text>, order: seq<nat>)
    requires g.Ok() && order != [] && InWindow(order)
    requires forall i | 0 <= i < |order| :: order[i] < |texts|
    requires forall i, j | 0 <= i < j < |order| :: order[i] != order[j]
    ensures BurstOk(g, texts)
    ensures var b := Burst(g, texts);
      var o := AcceptSession(g.them, g.store, b.sent[order[0]], b.w.next);
      && o.result.Opened? && o.result.text == texts[order[0]]
      && ReadsAll(o.result.session, b.sent, texts, order[1..], b.w.next + 1)
  {
    hide AcceptSession, Decrypt, Burst, BurstOk, ReadsAll, AllOpen, Reachable, Next;
    BurstOpensInAnyOrder(g, texts, order);
    FirstInWindow(order);
    AnyOpenerOpens(g, texts, order[0]);
    BurstLetters(g, texts);
    var b := Burst(g, texts);
    AllOpenTail(b.w, Letters(b.w.h, 0), order);
    RunReadsAll(Next(b.w, Deliver(Responder, b.sent[order[0]].ratchet)), Letters(b.w.h, 0), b.sent, texts, order[1..]);
    assert Next(b.w, Deliver(Responder, b.sent[order[0]].ratchet)).next == b.w.next + 1 by {
      DeliveryTicks(b.w, b.sent[order[0]].ratchet);
    }
  }

  lemma FirstInWindow(order: seq<nat>)
    requires InWindow(order) && order != []
    ensures order[0] <= MAX_SKIPPED_KEYS
  {
    assert order[..1][..0] == [] && order[..1][0] == order[0];
    assert Reached(order[..1]) == order[0] + 1;
  }

  /** Read in order, a burst of any length stays in the window. */
  lemma {:induction false} InOrderIsInWindow(order: seq<nat>)
    requires forall i | 0 <= i < |order| :: order[i] == i
    ensures InWindow(order)
  {
    forall k | 0 <= k <= |order| ensures Reached(order[..k]) == k {
      ReachedInOrder(order, k);
    }
  }

  lemma {:induction false} ReachedInOrder(order: seq<nat>, k: nat)
    requires k <= |order| && forall i | 0 <= i < |order| :: order[i] == i
    ensures Reached(order[..k]) == k
  {
    if k > 0 {
      ReachedInOrder(order, k - 1);
      assert order[..k][..k - 1] == order[..k - 1];
    }
  }

  /** So does any order at all of a burst of at most 2001 messages. */
  lemma {:induction false} ShortIsInWindow(order: seq<nat>)
    requires forall i | 0 <= i < |order| :: order[i] <= MAX_SKIPPED_KEYS
    ensures InWindow(order)
  {
    forall k | 0 <= k <= |order| ensures Reached(order[..k]) <= MAX_SKIPPED_KEYS + k {
      ReachedIsBounded(order[..k]);
    }
  }

  lemma {:induction false} ReachedIsBounded(order: seq<nat>)
    requires forall i | 0 <= i < |order| :: order[i] <= MAX_SKIPPED_KEYS
    ensures Reached(order) <= if order == [] then 0 else MAX_SKIPPED_KEYS + 1
  {
    if order != [] {
      ReachedIsBounded(order[..|order| - 1]);
    }
  }

  lemma DeliveryTicks(w: World, m: Message)
    requires WellFormed(w.initiator) && WellFormed(w.responder)
    ensures Next(w, Deliver(Responder, m)).next == w.next + 1
  {
    hide Decrypt;
  }

  lemma AllOpenTail(w: World, letters: seq<Letter>, order: seq<nat>)
    requires WellFormed(w.initiator) && WellFormed(w.responder)
    requires (forall i | 0 <= i < |order| :: order[i] < |letters|) && order != [] && AllOpen(w, letters, order)
    ensures AllOpen(Next(w, Deliver(Responder, letters[order[0]].message)), letters, order[1..])
  {
    hide Decrypt, Next;
  }

  lemma BurstLetters(g: Setting, texts: seq<Text>)
    requires g.Ok() && BurstOk(g, texts)
    ensures var b := Burst(g, texts);
      && |b.w.h.keys| == 2 && |b.sent| == |texts| == |Letters(b.w.h, 0)|
      && forall i | 0 <= i < |texts| ::
          b.sent[i].ratchet == Letters(b.w.h, 0)[i].message && texts[i] == Letters(b.w.h, 0)[i].text
  {
    hide Burst, Reachable;
  }
}
