/**
 The guarantees of every run: from any start, through any sequence of sends and
 hostile deliveries.
 */
module RatchetRuns {
  import opened Wrappers
  import opened Crypto
  import opened Ratchet
  import opened RatchetCache
  import opened RatchetRun
  import opened RatchetSteps
  import opened RatchetTheorems

  function Other(side: Side): Side {
    if side.Initiator? then Responder else Initiator
  }

  lemma HasKeys(h: History)
    requires HistoryOk(h)
    ensures |h.keys| >= 2
  {
  }

  /** The parties are never more than one DH step apart. */
  lemma OneStepApart(h: History, side: Side)
    requires |h.keys| >= 2
    ensures var L, M := Level(h, side), Level(h, Other(side));
      (L == M + 1 && |h.keys| == L + 1) || (M == L + 1 && |h.keys| == M + 1)
  {
  }

  lemma InvIsDuo(w: World, side: Side)
    requires Inv(w)
    ensures |w.h.keys| >= 2 && w.next !in w.h.keys
    ensures Duo(w.h, w.Party(side), Level(w.h, side), w.Party(Other(side)), Level(w.h, Other(side)))
  {
    hide PartyOk, HistoryOk, Level;
    HasKeys(w.h);
    OneStepApart(w.h, side);
  }

  lemma DuoIsInv(w: World, side: Side)
    requires |w.h.keys| >= 2 && forall i | 0 <= i < |w.h.keys| :: w.h.keys[i] < w.next
    requires Duo(w.h, w.Party(side), Level(w.h, side), w.Party(Other(side)), Level(w.h, Other(side)))
    ensures Inv(w)
  {
    hide PartyOk, HistoryOk, Level;
  }

  // ----- every step keeps the invariant

  lemma StartOk(secret: Key, ad: AssociatedData, prekey: nat, first: nat, next: nat)
    requires prekey != first && prekey < next && first < next
    ensures Inv(Start(secret, ad, prekey, first, next))
  {
    var w := Start(secret, ad, prekey, first, next);
    var h := w.h;
    DhIsSymmetric(prekey, first);
    assert h.keys == [prekey, first];
    assert RootAt(secret, h.keys, 1) == RootStep(secret, Dh(prekey, first));
    assert Level(h, Initiator) == 1 && Level(h, Responder) == 0 by {
      EvenAlternates(0);
    }
    assert ChainsOk(h, w.initiator, 1);
    assert ChainsOk(h, w.responder, 0);
    forall e: nat, n: nat | e + 1 < |h.keys| ensures PlaceOk(h, w.initiator, 1, e, n) {
    }
    forall e: nat, n: nat | e + 1 < |h.keys| ensures PlaceOk(h, w.responder, 0, e, n) {
    }
  }

  lemma SendKeepsInv(w: World, side: Side, text: Text)
    requires Inv(w)
    ensures WellFormed(w.initiator) && WellFormed(w.responder)
    ensures Inv(Next(w, Send(side, text)))
  {
    var s, L := w.Party(side), Level(w.h, side);
    var w' := Next(w, Send(side, text));
    if L >= 1 {
      InvIsDuo(w, side);
      hide PartyOk, HistoryOk, Level;
      SendKeeps(w.h, s, L, w.Party(Other(side)), Level(w.h, Other(side)), text);
      assert w'.h.keys == w.h.keys;
      SameLevel(w.h, w'.h, side);
      DuoIsInv(w', side);
    } else {
      assert w' == w;
    }
  }

  lemma SameLevel(h: History, h': History, side: Side)
    requires |h.keys| >= 2 && h'.keys == h.keys
    ensures Level(h', side) == Level(h, side) && Level(h', Other(side)) == Level(h, Other(side))
  {
  }

  lemma NextLevel(h: History, h': History, side: Side)
    requires |h.keys| >= 2 && |h'.keys| == |h.keys| + 1 && |h.keys| == Level(h, side) + 2
    ensures Level(h', side) == Level(h, side) + 2 && Level(h', Other(side)) == Level(h, Other(side))
  {
    EvenAlternates(|h.keys| - 1);
  }

  lemma AcceptKeepsInv(w: World, side: Side, e: nat, n: nat, m: Message)
    requires Inv(w) && WellFormed(w.initiator) && WellFormed(w.responder)
    requires IsLetter(w.h, e, n, m) && Acceptable(w.h, w.Party(side), Level(w.h, side), e, n)
    ensures Inv(Next(w, Deliver(side, m)))
    ensures var r := Decrypt(w.Party(side), m, w.next);
      r.Accepted? && r.text == Letters(w.h, e)[n].text
  {
    hide PartyOk, HistoryOk, Level, Acceptable, Decrypt, Inv;
    InvIsDuo(w, side);
    var s, L := w.Party(side), Level(w.h, side);
    var p, M := w.Party(Other(side)), Level(w.h, Other(side));
    var w' := Next(w, Deliver(side, m));
    KeysBelowNext(w);
    ReceiveAcceptable(w.h, s, L, p, M, e, n, m, w.next);
    var r := Decrypt(s, m, w.next);
    AcceptedOurs(s, m, w.next);
    assert w'.h == Received(w.h, s, m, r);
    DeliveredLevel(w.h, s, L, p, M, e, r.state, w'.h, w.next, side);
    DuoIsInv(w', side);
  }

  lemma KeysBelowNext(w: World)
    requires Inv(w)
    ensures forall i | 0 <= i < |w.h.keys| :: w.h.keys[i] < w.next
  {
  }

  /** A decryption keeps our ratchet key or takes the one offered. */
  lemma AcceptedOurs(s: State, m: Message, next: nat)
    requires WellFormed(s)
    ensures var r := Decrypt(s, m, next); r.Accepted? ==> r.state.ours == s.ours || r.state.ours == next
  {
  }

  /** The keys of the run grow exactly when the receiver took a DH step. */
  lemma DeliveredLevel(h: History, s: State, L: nat, p: State, M: nat, e: nat, s': State, h': History, next: nat,
      side: Side)
    requires Duo(h, s, L, p, M) && |h.keys| >= 2 && L == Level(h, side) && M == Level(h, Other(side))
    requires forall i | 0 <= i < |h.keys| :: h.keys[i] < next
    requires h'.keys == if s'.ours == s.ours then h.keys else h.keys + [s'.ours]
    requires Duo(h', s', if e == L then L + 2 else L, p, M)
    requires s'.ours == s.ours || s'.ours == next
    ensures |h'.keys| >= 2
    ensures Level(h', side) == if e == L then L + 2 else L
    ensures Level(h', Other(side)) == M
    ensures forall i | 0 <= i < |h'.keys| :: h'.keys[i] < next + 1
  {
    hide HistoryOk, PartyOk, Level;
    if e == L {
      NextLevel(h, h', side);
    } else {
      SameLevel(h, h', side);
    }
  }

  lemma PartiesWellFormed(w: World)
    requires Inv(w)
    ensures WellFormed(w.initiator) && WellFormed(w.responder)
  {
  }

  /** An accepted delivery is of an acceptable letter of the peer's. */
  lemma {:induction false} AcceptedIsAcceptable(w: World, side: Side, m: Message) returns (e: nat, n: nat)
    requires Inv(w) && WellFormed(w.Party(side)) && Possible(w.h, Deliver(side, m))
    requires Decrypt(w.Party(side), m, w.next).Accepted?
    ensures IsLetter(w.h, e, n, m) && Even(e) == Even(Level(w.h, side))
    ensures Acceptable(w.h, w.Party(side), Level(w.h, side), e, n)
  {
    hide PartyOk, HistoryOk, Level, Acceptable, Inv;
    InvIsDuo(w, side);
    JunkIsRefused(w.Party(side), m, w.next);
    hide Decrypt;
    var key;
    key, n :| IsLetterBody(w.h, key, n, m.body);
    e := OnlyLettersOpen(w.h, w.Party(side), Level(w.h, side), key, n, m, w.next);
  }

  lemma JunkIsRefused(s: State, m: Message, next: nat)
    requires WellFormed(s)
    ensures m.body.Junk? ==> Decrypt(s, m, next).Refused?
  {
  }

  lemma StepKeepsInv(w: World, a: Action)
    requires Inv(w) && Possible(w.h, a)
    ensures WellFormed(w.initiator) && WellFormed(w.responder)
    ensures Inv(Next(w, a))
  {
    hide PartyOk, HistoryOk, Level, Acceptable, Decrypt;
    PartiesWellFormed(w);
    match a
    case Send(side, text) => SendKeepsInv(w, side, text);
    case Deliver(side, m) =>
      if Decrypt(w.Party(side), m, w.next).Accepted? {
        var e, n := AcceptedIsAcceptable(w, side, m);
        AcceptKeepsInv(w, side, e, n, m);
      }
  }

  // ----- runs

  /** A run: every delivered ciphertext is junk or one already on the network. */
  ghost predicate Feasible(w: World, actions: seq<Action>)
    requires WellFormed(w.initiator) && WellFormed(w.responder)
    decreases |actions|
  {
    actions == [] || (Possible(w.h, actions[0]) && Feasible(Next(w, actions[0]), actions[1..]))
  }

  function Execute(w: World, actions: seq<Action>): (w': World)
    requires WellFormed(w.initiator) && WellFormed(w.responder)
    ensures WellFormed(w'.initiator) && WellFormed(w'.responder)
    decreases |actions|
  {
    if actions == [] then w else Execute(Next(w, actions[0]), actions[1..])
  }

  lemma {:induction false} ExecuteKeepsInv(w: World, actions: seq<Action>)
    requires Inv(w) && WellFormed(w.initiator) && WellFormed(w.responder) && Feasible(w, actions)
    ensures Inv(Execute(w, actions))
    decreases |actions|
  {
    hide Inv, Possible, Next;
    if actions != [] {
      StepKeepsInv(w, actions[0]);
      ExecuteKeepsInv(Next(w, actions[0]), actions[1..]);
    }
  }

  /** The worlds some run leads to. */
  ghost predicate Reachable(w: World) {
    exists secret, ad, prekey: nat, first: nat, next: nat, actions :: Leads(secret, ad, prekey, first, next, actions, w)
  }

  ghost predicate Leads(secret: Key, ad: AssociatedData, prekey: nat, first: nat, next: nat, actions: seq<Action>,
      w: World) {
    && prekey != first && prekey < next && first < next
    && var start := Start(secret, ad, prekey, first, next);
       Feasible(start, actions) && w == Execute(start, actions)
  }

  lemma {:induction false} ReachableIsInv(w: World)
    requires Reachable(w)
    ensures Inv(w) && WellFormed(w.initiator) && WellFormed(w.responder)
  {
    hide Inv, Feasible, Execute;
    var secret, ad, prekey: nat, first: nat, next: nat, actions :| Leads(secret, ad, prekey, first, next, actions, w);
    StartOk(secret, ad, prekey, first, next);
    ExecuteKeepsInv(Start(secret, ad, prekey, first, next), actions);
  }

  lemma {:induction false} ExecuteOneMore(w: World, actions: seq<Action>, a: Action)
    requires WellFormed(w.initiator) && WellFormed(w.responder) && Feasible(w, actions)
    requires Possible(Execute(w, actions).h, a)
    ensures Feasible(w, actions + [a]) && Execute(w, actions + [a]) == Next(Execute(w, actions), a)
    decreases |actions|
  {
    hide Next, Possible;
    var more := actions + [a];
    if actions == [] {
      assert more[1..] == [];
    } else {
      assert more[1..] == actions[1..] + [a];
      ExecuteOneMore(Next(w, actions[0]), actions[1..], a);
    }
  }

  lemma ReachableNext(w: World, a: Action)
    requires Reachable(w) && Possible(w.h, a)
    ensures WellFormed(w.initiator) && WellFormed(w.responder) && Reachable(Next(w, a))
  {
    hide Feasible, Execute, Next, Possible;
    var secret, ad, prekey: nat, first: nat, next: nat, actions :| Leads(secret, ad, prekey, first, next, actions, w);
    ExecuteOneMore(Start(secret, ad, prekey, first, next), actions, a);
    assert Leads(secret, ad, prekey, first, next, actions + [a], Next(w, a));
  }

  lemma ReachableStart(secret: Key, ad: AssociatedData, prekey: nat, first: nat, next: nat)
    requires prekey != first && prekey < next && first < next
    ensures Reachable(Start(secret, ad, prekey, first, next))
  {
    assert Leads(secret, ad, prekey, first, next, [], Start(secret, ad, prekey, first, next));
  }

  /** In every reachable state one party leads by exactly one DH step: it has
      answered the key the other still holds, and its root is one step on. */
  lemma PartiesOneStepApart(w: World) returns (lead: Side)
    requires Reachable(w)
    ensures var ahead, behind := w.Party(lead), w.Party(Other(lead));
      && ahead.theirs == Some(behind.ours) && behind.theirs != Some(ahead.ours) && ahead.ours != behind.ours
      && ahead.root == RootStep(behind.root, Dh(behind.ours, ahead.ours))
  {
    hide Reachable, Level, PlacesOk, CacheOk;
    ReachableIsInv(w);
    lead := if Level(w.h, Initiator) > Level(w.h, Responder) then Initiator else Responder;
    OneStepApart(w.h, lead);
  }

  // ----- the cache at rest

  ghost predicate CachesBounded(w: World) {
    Bounded(w.initiator.skipped) && Bounded(w.responder.skipped)
  }

  lemma {:induction false} ExecuteKeepsBounds(w: World, actions: seq<Action>)
    requires WellFormed(w.initiator) && WellFormed(w.responder) && CachesBounded(w)
    ensures CachesBounded(Execute(w, actions))
    decreases |actions|
  {
    if actions != [] {
      var a := actions[0];
      if a.Deliver? {
        DecryptKeepsBounds(w.Party(a.side), a.message, w.next);
      }
      assert CachesBounded(Next(w, a)) by {
        hide Bounded, Decrypt;
      }
      hide Bounded, Next;
      ExecuteKeepsBounds(Next(w, a), actions[1..]);
    }
  }

  /** Between calls a cache holds at most 2000 keys of at most 64 chains, the
      keys of a chain side by side. */
  lemma CacheAtRest(w: World, side: Side)
    requires Reachable(w)
    ensures |w.Party(side).skipped| <= 2000 && |ChainsOf(w.Party(side).skipped)| <= 64
    ensures Bounded(w.Party(side).skipped) && Grouped(w.Party(side).skipped)
  {
    ReachableIsInv(w);
    assert Grouped(w.Party(side).skipped) by {
      hide HistoryOk, ChainsOk, PlacesOk, Level;
      OrderedIsGrouped(w.h.keys, w.Party(side).skipped);
    }
    hide Inv, Bounded;
    var secret, ad, prekey: nat, first: nat, next: nat, actions :| Leads(secret, ad, prekey, first, next, actions, w);
    assert CachesBounded(Start(secret, ad, prekey, first, next)) by {
      assert ChainsOf([]) == [];
      EmptyIsBounded();
    }
    ExecuteKeepsBounds(Start(secret, ad, prekey, first, next), actions);
  }

  lemma EmptyIsBounded()
    ensures Bounded([])
  {
  }

  // ----- the theorems

  /** Chain 0 is the initiator's, and the parties take turns. */
  function SenderOf(e: nat): Side {
    if Even(e) then Initiator else Responder
  }

  lemma LevelParity(h: History, side: Side)
    requires |h.keys| >= 2
    ensures Even(Level(h, side)) == side.Responder?
  {
    EvenAlternates(|h.keys| - 2);
  }

  lemma PassedHasPlace(w: World, side: Side, e: nat, n: nat)
    requires Inv(w) && |w.h.keys| >= 2 && e + 1 < |w.h.keys| && SenderOf(e) == Other(side)
    ensures PlaceOk(w.h, w.Party(side), Level(w.h, side), e, n)
  {
    LevelParity(w.h, side);
    InvIsDuo(w, side);
    hide HistoryOk, ChainsOk, CacheOk, Level;
  }

  /** An accepted message is one the peer sent, opened to the text the peer
      sealed, under the peer's own header, and never accepted or evicted before. */
  lemma {:induction false} AcceptedIsGenuine(w: World, side: Side, m: Message) returns (e: nat, n: nat)
    requires Reachable(w) && WellFormed(w.Party(side)) && Possible(w.h, Deliver(side, m))
    requires Decrypt(w.Party(side), m, w.next).Accepted?
    ensures IsLetter(w.h, e, n, m) && SenderOf(e) == Other(side)
    ensures Decrypt(w.Party(side), m, w.next).text == Letters(w.h, e)[n].text
    ensures IdAt(w.h.keys, e, n) !in w.h.accepted + w.h.evicted
  {
    hide Reachable, Inv, Decrypt, PlaceOk, Level, Acceptable;
    ReachableIsInv(w);
    InvIsDuo(w, side);
    e, n := AcceptedIsAcceptable(w, side, m);
    LevelParity(w.h, side);
    AcceptKeepsInv(w, side, e, n, m);
    PassedHasPlace(w, side, e, n);
    NotSpent(w.h, w.Party(side), Level(w.h, side), e, n);
  }

  lemma NotSpent(h: History, s: State, L: nat, e: nat, n: nat)
    requires e + 1 < |h.keys| && PlaceOk(h, s, L, e, n) && Acceptable(h, s, L, e, n)
    ensures IdAt(h.keys, e, n) !in h.accepted + h.evicted
  {
  }

  lemma LetterHasOnePlace(h: History, e: nat, n: nat, e': nat, n': nat, m: Message)
    requires HistoryOk(h) && IsLetter(h, e, n, m) && IsLetter(h, e', n', m)
    ensures e == e' && n == n'
  {
    LetterIsSealed(h, e, n, m);
    LetterIsSealed(h, e', n', m);
    IndexIs(h.keys, e + 1);
    IndexIs(h.keys, e' + 1);
  }

  /** A letter of the peer's opens exactly when its key is cached, or it is
      ahead on the current chain or on the next with every gap in the window. */
  lemma OpensExactlyWhen(w: World, side: Side, e: nat, n: nat, m: Message)
    requires Reachable(w) && WellFormed(w.Party(side)) && |w.h.keys| >= 2
    requires IsLetter(w.h, e, n, m)
    ensures Decrypt(w.Party(side), m, w.next).Accepted? <==>
      SenderOf(e) == Other(side) && Acceptable(w.h, w.Party(side), Level(w.h, side), e, n)
  {
    hide Reachable, Inv, Decrypt, PlaceOk, Level, Acceptable, HistoryOk, PartyOk;
    ReachableIsInv(w);
    InvIsDuo(w, side);
    LevelParity(w.h, side);
    var s := w.Party(side);
    if Decrypt(s, m, w.next).Accepted? {
      assert IsLetterBody(w.h, w.h.keys[e + 1], n, m.body);
      assert Possible(w.h, Deliver(side, m));
      var e', n' := AcceptedIsAcceptable(w, side, m);
      LetterHasOnePlace(w.h, e, n, e', n', m);
    }
    if SenderOf(e) == Other(side) && Acceptable(w.h, s, Level(w.h, side), e, n) {
      AcceptKeepsInv(w, side, e, n, m);
    }
  }

  /** The places a sent message can be in, from its receiver's point of view. */
  datatype Place = Unreached | Ahead | Cached | Opened | Evicted

  ghost predicate At(w: World, e: nat, n: nat, place: Place)
    requires |w.h.keys| >= 2 && e + 1 < |w.h.keys|
  {
    var side := Other(SenderOf(e));
    var s, L, id := w.Party(side), Level(w.h, side), IdAt(w.h.keys, e, n);
    match place
    case Unreached => e == L
    case Ahead => e == L - 2 && s.receiveCount <= n
    case Cached => InCache(s.skipped, id)
    case Opened => id in w.h.accepted
    case Evicted => id in w.h.evicted
  }

  /** Every message sent is in exactly one place. */
  lemma ExactlyOnePlace(w: World, e: nat, n: nat) returns (place: Place)
    requires Reachable(w) && |w.h.keys| >= 2 && e + 1 < |w.h.keys| && n < |Letters(w.h, e)|
    ensures At(w, e, n, place)
    ensures forall other | At(w, e, n, other) :: other == place
  {
    hide Reachable, Inv, Level, HistoryOk, PartyOk;
    ReachableIsInv(w);
    var side := Other(SenderOf(e));
    LevelParity(w.h, side);
    OneStepApart(w.h, side);
    PassedHasPlace(w, side, e, n);
    EvenNeighbours(Level(w.h, side), e);
    var id := IdAt(w.h.keys, e, n);
    place :=
      if e == Level(w.h, side) then Unreached
      else if id in w.h.accepted then Opened
      else if id in w.h.evicted then Evicted
      else if InCache(w.Party(side).skipped, id) then Cached
      else Ahead;
  }

  lemma EvenNeighbours(L: nat, e: nat)
    requires Even(L) == Even(e) && e <= L
    ensures e == L || e <= L - 2
  {
    if e == L - 1 {
      EvenAlternates(e);
    }
  }

  /** A message neither opened nor evicted opens on delivery exactly when the
      gaps it spans are within the window. */
  lemma FreshLetterOpens(w: World, e: nat, n: nat, m: Message)
    requires Reachable(w) && |w.h.keys| >= 2 && IsLetter(w.h, e, n, m)
    requires IdAt(w.h.keys, e, n) !in w.h.accepted + w.h.evicted
    ensures var side := Other(SenderOf(e));
      var s, L := w.Party(side), Level(w.h, side);
      && WellFormed(s)
      && (Decrypt(s, m, w.next).Accepted? <==>
          && (At(w, e, n, Ahead) ==> n - s.receiveCount <= 2000)
          && (At(w, e, n, Unreached) ==>
              n <= 2000 && (L >= 2 ==> |Letters(w.h, L - 2)| - s.receiveCount <= 2000)))
  {
    hide Reachable, Inv, Level, HistoryOk, PartyOk, Decrypt;
    ReachableIsInv(w);
    var side := Other(SenderOf(e));
    OneStepApart(w.h, side);
    OpensExactlyWhen(w, side, e, n, m);
    var place := ExactlyOnePlace(w, e, n);
    assert !At(w, e, n, Opened) && !At(w, e, n, Evicted);
    assert At(w, e, n, Cached) <==> place == Cached;
    assert At(w, e, n, Ahead) <==> place == Ahead;
    assert At(w, e, n, Unreached) <==> place == Unreached;
  }

  /** No header (ratchet key, number) and no message key is used for two messages. */
  lemma IssuedOnce(w: World, e: nat, n: nat, m: Message, e': nat, n': nat, m': Message)
    requires Reachable(w) && IsLetter(w.h, e, n, m) && IsLetter(w.h, e', n', m')
    requires m.body.Sealed? && m'.body.Sealed?
    requires (m.header.dh == m'.header.dh && m.header.number == m'.header.number) || m.body.key == m'.body.key
    ensures e == e' && n == n' && m == m'
  {
    hide Reachable;
    ReachableIsInv(w);
    hide PartyOk;
    LetterIsSealed(w.h, e, n, m);
    LetterIsSealed(w.h, e', n', m');
    if m.body.key == m'.body.key {
      KeysAreIssuedOnce(w.h, e, n, e', n');
    }
    if m.header.dh == m'.header.dh {
      IndexIs(w.h.keys, e + 1);
      IndexIs(w.h.keys, e' + 1);
    }
  }
}
