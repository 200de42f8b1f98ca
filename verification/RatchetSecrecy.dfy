/**
 Forward secrecy on the symbolic terms: whoever takes a party's state cannot
 derive the keys of messages it has sent, opened or evicted.
 */
module RatchetSecrecy {
  import opened Wrappers
  import opened Crypto
  import opened Ratchet
  import opened RatchetRun
  import opened RatchetSteps
  import opened RatchetTheorems
  import opened RatchetRuns
  import opened X3dh
  import opened SessionTheorems

  // ----- what a state gives away

  /** The secrets a state holds as they are. */
  ghost predicate Holds(s: State, k: Key) {
    || k == s.root || k == Private(s.ours) || s.sending == Some(k) || s.receiving == Some(k)
    || exists i :: 0 <= i < |s.skipped| && s.skipped[i].key == k
  }

  /** With our private key every exchange of ours can be redone; public keys are public. */
  predicate Computable(s: State, dh: Shared) {
    dh.low == s.ours || dh.high == s.ours
  }

  /** Everything the key derivations can make of it. */
  ghost predicate Derivable(s: State, k: Key)
    decreases k
  {
    || Holds(s, k)
    || match k
       case ChainStep(chain) => Derivable(s, chain)
       case MessageKey(chain) => Derivable(s, chain)
       case RootStep(root, dh) => Derivable(s, root) && Computable(s, dh)
       case ChainStart(root, dh) => Derivable(s, root) && Computable(s, dh)
       case Agreed(dhs) => forall i | 0 <= i < |dhs| :: Computable(s, dhs[i])
       case _ => false
  }

  /** The handshake secret has a share between keys that are never ratchet keys of
      either party, the signed prekey excepted. */
  ghost predicate Unguessable(h: History) {
    h.secret.Agreed? && exists d :: d in h.secret.dhs && Foreign(h.keys, d)
  }

  ghost predicate Foreign(keys: seq<nat>, d: Shared) {
    forall i | 1 <= i < |keys| :: d.low != keys[i] && d.high != keys[i]
  }

  // ----- what is gone

  lemma SecretIsGone(h: History, s: State, L: nat)
    requires PartyOk(h, s, L) && L >= 1 && Unguessable(h)
    ensures !Derivable(s, h.secret)
  {
    hide PlacesOk, Ordered, KeyAt;
    ChainIsChain(h, L - 1, s.sendCount);
    if L >= 2 {
      ChainIsChain(h, L - 2, s.receiveCount);
    }
    forall i | 0 <= i < |s.skipped| ensures s.skipped[i].key.MessageKey? {
      assert GoodEntry(h, L, s.receiveCount, s.skipped[i]);
      KeyIsMessageKey(h, EpochOf(h.keys, s.skipped[i].id), s.skipped[i].id.number);
    }
    var d :| d in h.secret.dhs && Foreign(h.keys, d);
    var i :| 0 <= i < |h.secret.dhs| && h.secret.dhs[i] == d;
    assert !Computable(s, h.secret.dhs[i]);
  }

  lemma ChainIsChain(h: History, e: nat, n: nat)
    requires e + 1 < |h.keys|
    ensures var c := ChainAt(h.secret, h.keys, e, n); if n == 0 then c.ChainStart? else c.ChainStep?
  {
  }

  lemma KeyIsMessageKey(h: History, e: nat, n: nat)
    requires e + 1 < |h.keys|
    ensures KeyAt(h, e, n).MessageKey?
  {
  }

  /** Of chain and root keys a state holds only its own. */
  lemma HoldsOnlyItsOwn(h: History, s: State, L: nat, k: Key)
    requires PartyOk(h, s, L) && L >= 1 && !k.MessageKey? && !k.Private?
    ensures Holds(s, k) ==>
            || k == RootAt(h.secret, h.keys, L)
            || k == ChainAt(h.secret, h.keys, L - 1, s.sendCount)
            || (L >= 2 && k == ChainAt(h.secret, h.keys, L - 2, s.receiveCount))
  {
    hide PlacesOk, Ordered, KeyAt;
    forall i | 0 <= i < |s.skipped| ensures s.skipped[i].key.MessageKey? {
      assert GoodEntry(h, L, s.receiveCount, s.skipped[i]);
      KeyIsMessageKey(h, EpochOf(h.keys, s.skipped[i].id), s.skipped[i].id.number);
    }
  }

  lemma {:induction false} OldRootIsGone(h: History, s: State, L: nat, e: nat)
    requires PartyOk(h, s, L) && e < L && Unguessable(h)
    ensures !Derivable(s, RootAt(h.secret, h.keys, e))
  {
    if e == 0 {
      SecretIsGone(h, s, L);
    } else {
      OldRootIsGone(h, s, L, e - 1);
      hide PartyOk;
      var k := RootAt(h.secret, h.keys, e);
      HoldsOnlyItsOwn(h, s, L, k);
      RootHeight(h.secret, h.keys, e);
      RootHeight(h.secret, h.keys, L);
      ChainIsChain(h, L - 1, s.sendCount);
      if L >= 2 {
        ChainIsChain(h, L - 2, s.receiveCount);
      }
    }
  }

  /** The party at level `L` is past place `n` of chain `e`, sending or receiving. */
  predicate Behind(s: State, L: nat, e: nat, n: nat) {
    e < L && (e == L - 1 ==> n < s.sendCount) && (e == L - 2 ==> n < s.receiveCount)
  }

  lemma {:induction false} OldChainIsGone(h: History, s: State, L: nat, e: nat, n: nat)
    requires PartyOk(h, s, L) && Unguessable(h) && Behind(s, L, e, n)
    ensures !Derivable(s, ChainAt(h.secret, h.keys, e, n))
  {
    var k := ChainAt(h.secret, h.keys, e, n);
    ChainIsChain(h, e, n);
    if n == 0 {
      OldRootIsGone(h, s, L, e);
    } else {
      OldChainIsGone(h, s, L, e, n - 1);
    }
    hide PartyOk;
    HoldsOnlyItsOwn(h, s, L, k);
    RootIsRoot(h, L);
    SamePlace(h, L - 1, s.sendCount, e, n);
    if L >= 2 {
      SamePlace(h, L - 2, s.receiveCount, e, n);
    }
  }

  lemma RootIsRoot(h: History, L: nat)
    requires 1 <= L < |h.keys|
    ensures RootAt(h.secret, h.keys, L).RootStep?
  {
  }

  lemma SamePlace(h: History, e: nat, n: nat, e': nat, n': nat)
    requires e + 1 < |h.keys| && e' + 1 < |h.keys|
    ensures ChainAt(h.secret, h.keys, e, n) == ChainAt(h.secret, h.keys, e', n') ==> e == e' && n == n'
  {
    hide ChainAt;
    if ChainAt(h.secret, h.keys, e, n) == ChainAt(h.secret, h.keys, e', n') {
      KeysAreIssuedOnce(h, e, n, e', n');
    }
  }

  lemma OldKeyIsGone(h: History, s: State, L: nat, e: nat, n: nat)
    requires HistoryOk(h) && PartyOk(h, s, L) && Unguessable(h) && Behind(s, L, e, n)
    requires !InCache(s.skipped, IdAt(h.keys, e, n))
    ensures !Derivable(s, KeyAt(h, e, n))
  {
    OldChainIsGone(h, s, L, e, n);
    ChainIsChain(h, L - 1, s.sendCount);
    if L >= 2 {
      ChainIsChain(h, L - 2, s.receiveCount);
    }
    RootIsRoot(h, L);
    hide PlacesOk, Ordered, RootAt, ChainAt;
    forall i | 0 <= i < |s.skipped| ensures s.skipped[i].key != KeyAt(h, e, n) {
      assert GoodEntry(h, L, s.receiveCount, s.skipped[i]);
      var e', n' := EpochOf(h.keys, s.skipped[i].id), s.skipped[i].id.number;
      assert s.skipped[i].id == IdAt(h.keys, e', n');
      if s.skipped[i].key == KeyAt(h, e, n) {
        KeysAreIssuedOnce(h, e', n', e, n);
        assert false;
      }
    }
  }

  // ----- over every run

  /** A share of the handshake's made of keys older than the run's new ones. */
  ghost predicate Secretive(w: World) {
    && w.h.secret.Agreed?
    && exists d :: d in w.h.secret.dhs && d.low < w.next && d.high < w.next && Foreign(w.h.keys, d)
  }

  lemma NextKeepsSecretive(w: World, a: Action)
    requires WellFormed(w.initiator) && WellFormed(w.responder) && Secretive(w)
    ensures Secretive(Next(w, a))
  {
    var d :| d in w.h.secret.dhs && d.low < w.next && d.high < w.next && Foreign(w.h.keys, d);
    if a.Deliver? {
      AcceptedOurs(w.Party(a.side), a.message, w.next);
    }
    hide Decrypt, Encrypt;
    assert Foreign(Next(w, a).h.keys, d);
  }

  lemma {:induction false} ExecuteKeepsSecretive(w: World, actions: seq<Action>)
    requires WellFormed(w.initiator) && WellFormed(w.responder) && Secretive(w)
    ensures Secretive(Execute(w, actions))
    decreases |actions|
  {
    if actions != [] {
      hide Next, Secretive;
      NextKeepsSecretive(w, actions[0]);
      ExecuteKeepsSecretive(Next(w, actions[0]), actions[1..]);
    }
  }

  /** The places behind a party: what its peer sent it and it passed, and what it
      sent itself. */
  lemma PlacesBehind(w: World, side: Side, e: nat, n: nat)
    requires Inv(w) && |w.h.keys| >= 2 && e + 1 < |w.h.keys| && n < |Letters(w.h, e)|
    requires SenderOf(e) == side || IdAt(w.h.keys, e, n) in w.h.accepted + w.h.evicted
    ensures Behind(w.Party(side), Level(w.h, side), e, n) && !InCache(w.Party(side).skipped, IdAt(w.h.keys, e, n))
  {
    var s, L := w.Party(side), Level(w.h, side);
    LevelParity(w.h, side);
    InvIsDuo(w, side);
    EvenAlternates(e);
    EvenAlternates(e + 1);
    if SenderOf(e) == side {
      hide PlacesOk, Level;
      OneStepApart(w.h, side);
      SentIsBehind(w.h, s, L, e, n);
    } else {
      PassedHasPlace(w, side, e, n);
      hide Inv, Level, PartyOk, HistoryOk;
    }
  }

  lemma SentIsBehind(h: History, s: State, L: nat, e: nat, n: nat)
    requires PartyOk(h, s, L) && |h.keys| <= L + 2 && e + 1 < |h.keys| && n < |Letters(h, e)| && Even(e) != Even(L)
    requires Distinct(h.keys)
    ensures Behind(s, L, e, n) && !InCache(s.skipped, IdAt(h.keys, e, n))
  {
    hide PlacesOk, Ordered, KeyAt, RootAt;
    IndexIs(h.keys, e + 1);
    forall i | 0 <= i < |s.skipped| ensures s.skipped[i].id != IdAt(h.keys, e, n) {
      assert GoodEntry(h, L, s.receiveCount, s.skipped[i]);
    }
  }

  // ----- and what is not

  lemma {:induction false} ChainGoesForward(h: History, s: State, e: nat, m: nat, n: nat)
    requires e + 1 < |h.keys| && m <= n && Derivable(s, ChainAt(h.secret, h.keys, e, m))
    ensures Derivable(s, ChainAt(h.secret, h.keys, e, n))
  {
    if m < n {
      ChainGoesForward(h, s, e, m, n - 1);
    }
  }

  lemma AheadIsDerivable(h: History, s: State, L: nat, e: nat, n: nat)
    requires PartyOk(h, s, L) && e + 1 < |h.keys|
    requires e == L || (e == L - 2 && s.receiveCount <= n)
    ensures Derivable(s, KeyAt(h, e, n))
  {
    hide CacheOk, PlacesOk;
    if e == L {
      var dh := Dh(h.keys[L], h.keys[L + 1]);
      assert Derivable(s, s.root) && Computable(s, dh);
      assert ChainAt(h.secret, h.keys, e, 0) == ChainStart(s.root, dh);
      ChainGoesForward(h, s, e, 0, n);
    } else {
      assert Holds(s, s.receiving.value);
      ChainGoesForward(h, s, e, s.receiveCount, n);
    }
    assert KeyAt(h, e, n) == MessageKey(ChainAt(h.secret, h.keys, e, n));
  }

  lemma CachedIsDerivable(h: History, s: State, L: nat, e: nat, n: nat)
    requires HistoryOk(h) && PartyOk(h, s, L) && e + 1 < |h.keys| && InCache(s.skipped, IdAt(h.keys, e, n))
    ensures Derivable(s, KeyAt(h, e, n))
  {
    hide PlacesOk, Ordered, KeyAt;
    IndexIs(h.keys, e + 1);
    var i :| 0 <= i < |s.skipped| && s.skipped[i].id == IdAt(h.keys, e, n);
    assert GoodEntry(h, L, s.receiveCount, s.skipped[i]);
  }

  // ----- the results

  /** In every run: the key of a message sent to a party can be derived from the
      party's state exactly until the party has opened or evicted it. */
  lemma DerivableExactlyUntilSpent(w: World, e: nat, n: nat)
    requires Reachable(w) && Secretive(w) && |w.h.keys| >= 2 && e + 1 < |w.h.keys| && n < |Letters(w.h, e)|
    ensures Derivable(w.Party(Other(SenderOf(e))), KeyAt(w.h, e, n)) <==>
      IdAt(w.h.keys, e, n) !in w.h.accepted + w.h.evicted
  {
    var side := Other(SenderOf(e));
    if IdAt(w.h.keys, e, n) in w.h.accepted + w.h.evicted {
      ForwardSecrecy(w, side, e, n);
    } else {
      ReachableIsInv(w);
      InvIsDuo(w, side);
      hide Reachable, Inv, Level, PartyOk, HistoryOk, Derivable;
      var place := ExactlyOnePlace(w, e, n);
      if place == Cached {
        CachedIsDerivable(w.h, w.Party(side), Level(w.h, side), e, n);
      } else {
        AheadIsDerivable(w.h, w.Party(side), Level(w.h, side), e, n);
      }
    }
  }

  /** In every run: the key of a message a party has sent, opened or evicted cannot be
      derived from the state it is left with. */
  lemma ForwardSecrecy(w: World, side: Side, e: nat, n: nat)
    requires Reachable(w) && Secretive(w) && |w.h.keys| >= 2 && e + 1 < |w.h.keys| && n < |Letters(w.h, e)|
    requires SenderOf(e) == side || IdAt(w.h.keys, e, n) in w.h.accepted + w.h.evicted
    ensures !Derivable(w.Party(side), KeyAt(w.h, e, n))
  {
    ReachableIsInv(w);
    InvIsDuo(w, side);
    assert Unguessable(w.h);
    hide Reachable, Inv, Level, PartyOk, HistoryOk, Derivable;
    PlacesBehind(w, side, e, n);
    OldKeyIsGone(w.h, w.Party(side), Level(w.h, side), e, n);
  }

  /** A handshake whose identity key is no ratchet key of the run begins, and so
      keeps, such a secret. */
  lemma HandshakeIsSecretive(g: Setting)
    requires g.Ok() && g.us.dh < g.next && g.us.dh != g.first
    ensures Secretive(StartedRun(g).1)
  {
    HandshakeAgrees(g);
    var w := StartedRun(g).1;
    var d := Dh(g.us.dh, g.store.signedKey);
    assert w.h.keys == [g.store.signedKey, g.first];
    assert w.h.secret.dhs[0] == d;
    assert Foreign(w.h.keys, d);
  }
}
