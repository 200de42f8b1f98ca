/**
 The session facade: a handshake followed by the ratchet.
 */
module SessionFacade {
  import opened Wrappers
  import opened Crypto
  import opened Ratchet
  import opened X3dh

  /** A decoded inner message; the handshake header rides on initial messages. */
  datatype Inner = Inner(x3dh: Option<InitialHeader>, ratchet: Message)

  /** `pending` repeats the handshake header until the peer has answered. */
  datatype Session = Session(state: State, pending: Option<InitialHeader>)

  /** The responder's private prekeys, by id. */
  datatype PrekeyStore = PrekeyStore(signedId: nat, signedKey: nat, oneTime: map<nat, nat>)

  datatype SessionError =
    | Handshake(x3dh: X3dhError)
    | Refusal(ratchet: Error)
    | NotInitial
    | UnknownSignedPrekey(id: nat)
    | OneTimePrekeyGone(id: nat)

  datatype Started = Started(session: Session) | NotStarted(error: SessionError)

  /** `ephemeral` and `next` name the handshake and the first ratchet key pair. */
  function StartSession(us: Identity, bundle: Bundle, ephemeral: nat, next: nat): Started {
    match Initiate(us, bundle, ephemeral)
    case NotInitiated(e) => NotStarted(Handshake(e))
    case Initiated(agreement, header) =>
      if !bundle.signedPrekey.key.Point? then NotStarted(Refusal(RefusedKey))
      else
        var state := InitiatorStart(agreement.secret, agreement.ad, bundle.signedPrekey.key.name, next);
        Started(Session(state, Some(header)))
  }

  datatype Opening = Opening(result: Opened, store: PrekeyStore)

  datatype Opened = Opened(session: Session, text: Text) | NotOpened(error: SessionError)

  /** The one-time prekey leaves the store before the message is authenticated,
      so a refused opener has consumed it all the same. */
  function AcceptSession(us: Identity, store: PrekeyStore, inner: Inner, next: nat): Opening {
    if inner.x3dh.None? then Opening(NotOpened(NotInitial), store)
    else
      var header := inner.x3dh.value;
      if header.signedPrekeyId != store.signedId
      then Opening(NotOpened(UnknownSignedPrekey(header.signedPrekeyId)), store)
      else if header.oneTimePrekeyId.Some? && header.oneTimePrekeyId.value !in store.oneTime
      then Opening(NotOpened(OneTimePrekeyGone(header.oneTimePrekeyId.value)), store)
      else
        var taken := if header.oneTimePrekeyId.Some? then Some(store.oneTime[header.oneTimePrekeyId.value]) else None;
        var store' := if header.oneTimePrekeyId.Some?
                      then store.(oneTime := store.oneTime - {header.oneTimePrekeyId.value}) else store;
        match Respond(us, store.signedKey, taken, header)
        case NotResponded(e) => Opening(NotOpened(Handshake(e)), store')
        case Responded(agreement) =>
          match Decrypt(ResponderStart(agreement.secret, agreement.ad, store.signedKey), inner.ratchet, next)
          case Refused(e) => Opening(NotOpened(Refusal(e)), store')
          case Accepted(state, text, _) => Opening(Opened(Session(state, None), text), store')
  }

  datatype Outgoing = Outgoing(session: Session, inner: Inner) | Unsent(error: SessionError)

  function EncryptFor(session: Session, text: Text): Outgoing {
    match Encrypt(session.state, text)
    case NotSent(e) => Unsent(Refusal(e))
    case Sent(state, m) => Outgoing(session.(state := state), Inner(session.pending, m))
  }

  datatype Incoming = Incoming(session: Session, text: Text) | Unread(error: SessionError)

  function DecryptFor(session: Session, inner: Inner, next: nat): Incoming
    requires WellFormed(session.state)
  {
    match Decrypt(session.state, inner.ratchet, next)
    case Refused(e) => Unread(Refusal(e))
    case Accepted(state, text, _) => Incoming(Session(state, None), text)
  }
}

/**
 What a handshake opens, and what every message sent before the reply can do.
 */
module SessionTheorems {
  import opened Wrappers
  import opened Crypto
  import opened Ratchet
  import opened RatchetCache
  import opened RatchetRun
  import opened RatchetSteps
  import opened RatchetTheorems
  import opened RatchetRuns
  import opened X3dh
  import opened SessionFacade

  /** The peers of a handshake and the responder's prekeys it used. */
  datatype Setting = Setting(us: Identity, them: Identity, store: PrekeyStore, oneTimeId: Option<nat>,
                             ephemeral: nat, first: nat, next: nat)
  {
    predicate Ok() {
      && (oneTimeId.Some? ==> oneTimeId.value in store.oneTime)
      && store.signedKey != first && store.signedKey < next && first < next
    }

    function Taken(): Option<nat>
      requires Ok()
    {
      if oneTimeId.Some? then Some(store.oneTime[oneTimeId.value]) else None
    }

    function Fetched(): Bundle
      requires Ok()
    {
      Publish(them, store.signedId, store.signedKey,
              if oneTimeId.Some? then Some((oneTimeId.value, Taken().value)) else None)
    }
  }

  /** The session the initiator starts from the published bundle, and the run it
      belongs to: the responder's side exists as soon as it will be accepted. */
  function StartedRun(g: Setting): (r: (Session, World))
    requires g.Ok()
    ensures r.0.pending.Some? && WellFormed(r.1.initiator) && WellFormed(r.1.responder)
  {
    InitiatesExactlyWhenVouched(g.us, g.Fetched(), g.ephemeral);
    var i := Initiate(g.us, g.Fetched(), g.ephemeral);
    (StartSession(g.us, g.Fetched(), g.ephemeral, g.first).session,
     Start(i.agreement.secret, i.agreement.ad, g.store.signedKey, g.first, g.next))
  }

  /** The messages of a burst sent before any reply, with the run they give. */
  datatype Bursting = Bursting(session: Session, sent: seq<Inner>, w: World)

  function Burst(g: Setting, texts: seq<Text>): (b: Bursting)
    requires g.Ok()
    ensures WellFormed(b.w.initiator) && WellFormed(b.w.responder)
  {
    if texts == [] then Bursting(StartedRun(g).0, [], StartedRun(g).1)
    else
      var b := Burst(g, texts[..|texts| - 1]);
      var text := texts[|texts| - 1];
      match EncryptFor(b.session, text)
      case Unsent(_) => b
      case Outgoing(session, inner) => Bursting(session, b.sent + [inner], Next(b.w, Send(Initiator, text)))
  }

  ghost predicate BurstOk(g: Setting, texts: seq<Text>)
    requires g.Ok()
  {
    var b := Burst(g, texts);
    var start := StartedRun(g);
    && Reachable(b.w)
    && b.w.h.keys == [g.store.signedKey, g.first]
    && b.w.h.accepted == {} && b.w.h.evicted == {}
    && b.w.responder == start.1.responder
    && b.session == Session(b.w.initiator, start.0.pending)
    && |b.sent| == |texts| == |Letters(b.w.h, 0)|
    && forall i | 0 <= i < |texts| ::
         && b.sent[i] == Inner(start.0.pending, Letters(b.w.h, 0)[i].message)
         && Letters(b.w.h, 0)[i].text == texts[i]
  }

  /** Every message before the reply carries the handshake header. */
  lemma {:induction false} BurstCarriesHandshake(g: Setting, texts: seq<Text>)
    requires g.Ok()
    ensures BurstOk(g, texts)
  {
    var start := StartedRun(g);
    if texts == [] {
      ReachableStart(start.1.h.secret, start.1.h.ad, g.store.signedKey, g.first, g.next);
    } else {
      hide BurstOk, Burst;
      var before := texts[..|texts| - 1];
      BurstCarriesHandshake(g, before);
      BurstStep(g, before, texts[|texts| - 1]);
      assert texts == before + [texts[|texts| - 1]];
    }
  }

  lemma {:induction false} BurstStep(g: Setting, before: seq<Text>, text: Text)
    requires g.Ok() && BurstOk(g, before)
    ensures BurstOk(g, before + [text])
  {
    var texts := before + [text];
    assert texts[..|texts| - 1] == before;
    var b := Burst(g, before);
    ReachableNext(b.w, Send(Initiator, text));
    SendingExists(b.w);
    var b' := Burst(g, texts);
    assert Letters(b'.w.h, 0) == Letters(b.w.h, 0) + [Letter(b'.sent[|before|].ratchet, text)];
  }

  lemma SendingExists(w: World)
    requires Reachable(w) && |w.h.keys| == 2
    ensures w.initiator.sending.Some? && w.initiator.ours == w.h.keys[1]
  {
    ReachableIsInv(w);
    LevelOfTwo(w.h);
  }

  lemma LevelOfTwo(h: History)
    requires |h.keys| == 2
    ensures Level(h, Initiator) == 1 && Level(h, Responder) == 0
  {
    EvenAlternates(0);
  }

  /** Any message of the burst opens the responder's session exactly when its
      number is within the window; the session opened is the one the run has,
      and the one-time prekey is gone. */
  lemma {:induction false} AnyOpenerOpens(g: Setting, texts: seq<Text>, n: nat)
    requires g.Ok() && n < |texts|
    ensures BurstOk(g, texts)
    ensures var b := Burst(g, texts);
      var o := AcceptSession(g.them, g.store, b.sent[n], b.w.next);
      var w' := Next(b.w, Deliver(Responder, b.sent[n].ratchet));
      && (o.result.Opened? <==> n <= MAX_SKIPPED_KEYS)
      && (o.result.Opened? ==>
          && o.result.text == texts[n]
          && o.result.session == Session(w'.responder, None)
          && Reachable(w'))
      && (g.oneTimeId.Some? ==> g.oneTimeId.value !in o.store.oneTime)
  {
    BurstCarriesHandshake(g, texts);
    var b := Burst(g, texts);
    var m := b.sent[n].ratchet;
    HandshakeAgrees(g);
    assert IsLetter(b.w.h, 0, n, m);
    assert IsLetterBody(b.w.h, b.w.h.keys[1], n, m.body);
    ReachableNext(b.w, Deliver(Responder, m));
    LevelOfTwo(b.w.h);
    OpensExactlyWhen(b.w, Responder, 0, n, m);
    if Decrypt(b.w.responder, m, b.w.next).Accepted? {
      ReachableIsInv(b.w);
      AcceptKeepsInv(b.w, Responder, 0, n, m);
    }
  }

  lemma HandshakeAgrees(g: Setting)
    requires g.Ok()
    ensures var start := StartedRun(g);
      Respond(g.them, g.store.signedKey, g.Taken(), start.0.pending.value)
      == Responded(Agreement(start.1.h.secret, start.1.h.ad))
    ensures StartedRun(g).0.pending.value.signedPrekeyId == g.store.signedId
    ensures StartedRun(g).0.pending.value.oneTimePrekeyId == g.oneTimeId
    ensures StartedRun(g).1.responder
        == ResponderStart(StartedRun(g).1.h.secret, StartedRun(g).1.h.ad, g.store.signedKey)
  {
    var oneTime := if g.oneTimeId.Some? then Some((g.oneTimeId.value, g.Taken().value)) else None;
    AgreeExactlyWhen(g.us, g.them, g.store.signedId, g.store.signedKey, oneTime, g.ephemeral, g.store.signedKey,
        g.Taken());
  }

  /** An opener that reaches its one-time prekey uses it up, whether or not it then
      authenticates. */
  lemma OpenerConsumesPrekey(us: Identity, store: PrekeyStore, inner: Inner, next: nat)
    requires inner.x3dh.Some? && inner.x3dh.value.signedPrekeyId == store.signedId
    ensures AcceptSession(us, store, inner, next).store ==
      match inner.x3dh.value.oneTimePrekeyId
      case None => store
      case Some(id) => store.(oneTime := store.oneTime - {id})
  {
    if inner.x3dh.value.oneTimePrekeyId.Some? {
      var id := inner.x3dh.value.oneTimePrekeyId.value;
      assert id !in store.oneTime ==> store.oneTime - {id} == store.oneTime;
    }
  }

  /** From then on, until the id is issued again, any opener naming it is refused and
      changes nothing. */
  lemma ConsumedPrekeyIsRefused(us: Identity, store: PrekeyStore, again: Inner, next: nat)
    requires again.x3dh.Some? && again.x3dh.value.oneTimePrekeyId.Some?
    requires again.x3dh.value.oneTimePrekeyId.value !in store.oneTime
    ensures var o := AcceptSession(us, store, again, next);
      && o.result.NotOpened? && o.store == store
      && (again.x3dh.value.signedPrekeyId == store.signedId ==> o.result.error.OneTimePrekeyGone?)
  {
  }

  /** Why an opener is refused before the handshake, and that its store is untouched. */
  lemma RefusedOpenersChangeNothing(us: Identity, store: PrekeyStore, inner: Inner, next: nat)
    ensures var o := AcceptSession(us, store, inner, next);
      && (inner.x3dh.None? <==> o.result == NotOpened(NotInitial))
      && (inner.x3dh.Some? && inner.x3dh.value.signedPrekeyId != store.signedId <==>
          o.result.NotOpened? && o.result.error.UnknownSignedPrekey?)
      && (o.result.NotOpened? && !o.result.error.Handshake? && !o.result.error.Refusal? ==> o.store == store)
      && o.store.signedId == store.signedId && o.store.signedKey == store.signedKey
  {
  }

  // ----- the pending header

  datatype Event = Say(text: Text) | Hear(inner: Inner, next: nat)

  /** The session after some sends and receipts, and what it sent. */
  ghost function After(session: Session, events: seq<Event>): (r: (Session, seq<Inner>))
    requires WellFormed(session.state)
    ensures WellFormed(r.0.state)
  {
    if events == [] then (session, [])
    else
      var before := After(session, events[..|events| - 1]);
      match events[|events| - 1]
      case Say(text) =>
        (match EncryptFor(before.0, text)
         case Outgoing(s, inner) => (s, before.1 + [inner])
         case Unsent(_) => before)
      case Hear(inner, next) =>
        (match DecryptFor(before.0, inner, next)
         case Incoming(s, _) => (s, before.1)
         case Unread(_) => before)
  }

  ghost predicate Heard(session: Session, events: seq<Event>, i: nat)
    requires WellFormed(session.state) && i < |events|
  {
    events[i].Hear? && DecryptFor(After(session, events[..i]).0, events[i].inner, events[i].next).Incoming?
  }

  ghost predicate HeardAny(session: Session, events: seq<Event>)
    requires WellFormed(session.state)
  {
    exists i :: 0 <= i < |events| && Heard(session, events, i)
  }

  lemma HeardMore(session: Session, events: seq<Event>)
    requires WellFormed(session.state) && events != []
    ensures var n := |events| - 1;
      HeardAny(session, events) <==> HeardAny(session, events[..n]) || Heard(session, events, n)
  {
    hide After, DecryptFor, WellFormed;
    var n := |events| - 1;
    var front := events[..n];
    forall i | 0 <= i < n ensures Heard(session, front, i) <==> Heard(session, events, i) {
      assert front[..i] == events[..i];
    }
  }

  /** The handshake header rides on every message until one from the peer has been
      decrypted, and on none after that. */
  lemma {:induction false} HeaderUntilAnswered(session: Session, events: seq<Event>)
    requires WellFormed(session.state) && session.pending.Some?
    ensures After(session, events).0.pending == if HeardAny(session, events) then None else session.pending
  {
    if events != [] {
      hide EncryptFor, DecryptFor, WellFormed;
      var n := |events| - 1;
      var front := events[..n];
      HeaderUntilAnswered(session, front);
      HeardMore(session, events);
      PendingStep(After(session, front).0, events[n]);
      hide HeardAny;
    }
  }

  /** Sending keeps and shows the pending header; a decrypted message clears it. */
  lemma PendingStep(session: Session, event: Event)
    requires WellFormed(session.state)
    ensures event.Say? && EncryptFor(session, event.text).Outgoing? ==>
      EncryptFor(session, event.text).session.pending == session.pending == EncryptFor(session, event.text).inner.x3dh
    ensures event.Hear? && DecryptFor(session, event.inner, event.next).Incoming? ==>
      DecryptFor(session, event.inner, event.next).session.pending == None
  {
    hide Decrypt;
  }
}
