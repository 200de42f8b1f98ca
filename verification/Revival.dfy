/**
 A session may be written out and read back at any point of a run: nothing that
 follows can tell.
 */
module Revival {
  import opened Wrappers
  import opened Crypto
  import opened Base64
  import opened Serialize
  import opened Ratchet
  import opened RatchetCache
  import opened RatchetRun
  import opened RatchetRuns
  import opened X3dh
  import SessionFacade

  type Session = SessionFacade.Session

  /** How secrets, public keys and associated data look as bytes. */
  datatype Wire = Wire(key: Key -> Bytes, public: PublicKey -> Bytes, ad: AssociatedData -> Bytes)
  {
    /** Different values are different bytes, and no key is empty. */
    ghost predicate Faithful() {
      && (forall a, b | key(a) == key(b) :: a == b)
      && (forall a, b | public(a) == public(b) :: a == b)
      && (forall a, b | ad(a) == ad(b) :: a == b)
      && (forall a :: key(a) != []) && (forall n :: public(Point(n)) != [])
    }

    function Entry(e: Ratchet.Entry): (string, Bytes) {
      (SkippedKeyId(public(e.id.dh), e.id.number), key(e.key))
    }

    function Cache(cache: seq<Ratchet.Entry>): seq<(string, Bytes)> {
      seq(|cache|, i requires 0 <= i < |cache| => Entry(cache[i]))
    }

    function Pending(pending: Option<InitialHeader>): Option<PendingHeader> {
      if pending.None? then None
      else
        var h := pending.value;
        Some(PendingHeader(public(h.identityKey), public(h.identityDhKey), public(h.ephemeralKey),
                           h.signedPrekeyId, h.oneTimePrekeyId))
    }

    /** The live session as the bytes it holds. */
    function Written(s: Session): Live {
      var r := s.state;
      Live(key(r.root), KeyPair(public(Point(r.ours)), key(Private(r.ours)), "x25519"),
           if r.theirs.Some? then Some(public(Point(r.theirs.value))) else None,
           if r.sending.Some? then Some(key(r.sending.value)) else None,
           if r.receiving.Some? then Some(key(r.receiving.value)) else None,
           r.sendCount, r.receiveCount, r.previousLength,
           Cache(r.skipped), ad(r.ad), Pending(s.pending))
    }

    lemma EntryIsInjective(a: Ratchet.Entry, b: Ratchet.Entry)
      requires Faithful()
      ensures Entry(a).0 == Entry(b).0 ==> a.id == b.id
      ensures Entry(a) == Entry(b) ==> a == b
    {
      hide SkippedKeyId;
      if Entry(a).0 == Entry(b).0 {
        SkippedKeyIdIsInjective(public(a.id.dh), a.id.number, public(b.id.dh), b.id.number);
      }
    }

    lemma CacheIsInjective(a: seq<Ratchet.Entry>, b: seq<Ratchet.Entry>)
      requires Faithful() && Cache(a) == Cache(b)
      ensures a == b
    {
      assert |Cache(a)| == |a| && |Cache(b)| == |b|;
      forall i | 0 <= i < |a| ensures a[i] == b[i] {
        assert Cache(a)[i] == Entry(a[i]) && Cache(b)[i] == Entry(b[i]);
        EntryIsInjective(a[i], b[i]);
      }
    }

    lemma WrittenIsInjective(a: Session, b: Session)
      requires Faithful() && Written(a) == Written(b)
      ensures a == b
    {
      CacheIsInjective(a.state.skipped, b.state.skipped);
      assert Point(a.state.ours) == Point(b.state.ours);
      assert a.state.theirs.Some? ==> Point(a.state.theirs.value) == Point(b.state.theirs.value);
      assert a.pending == b.pending;
      assert a.state == b.state;
    }
  }

  ghost predicate DistinctIds(cache: seq<Ratchet.Entry>) {
    forall i, j | 0 <= i < j < |cache| :: cache[i].id != cache[j].id
  }

  ghost predicate RevivesAs(wire: Wire, s: Session, s': Session) {
    DeserializeSession(SerializeSession(wire.Written(s))) == Revived(wire.Written(s'))
  }

  /** A session comes back as itself: state, cache order and pending header. */
  lemma RevivesAsItself(wire: Wire, s: Session, s': Session)
    requires wire.Faithful() && DistinctIds(s.state.skipped)
    ensures RevivesAs(wire, s, s') <==> s' == s
  {
    hide DeserializeSession, SerializeSession;
    var live := wire.Written(s);
    assert IsMap(live.skippedKeys) by {
      forall i, j | 0 <= i < j < |live.skippedKeys| ensures live.skippedKeys[i].0 != live.skippedKeys[j].0 {
        wire.EntryIsInjective(s.state.skipped[i], s.state.skipped[j]);
      }
    }
    RestoredExactlyWhen(live);
    if RevivesAs(wire, s, s') {
      wire.WrittenIsInjective(s, s');
    }
  }

  // ----- whole runs

  datatype Step = Act(action: Action) | Suspend(side: Side, pending: Option<InitialHeader>)

  function Acts(steps: seq<Step>): seq<Action> {
    if steps == [] then []
    else Ahead(steps[0]) + Acts(steps[1..])
  }

  /** The world may change on a suspension only as reviving allows. */
  ghost predicate Moves(wire: Wire, w: World, step: Step, w': World) {
    match step
    case Act(a) =>
      Possible(w.h, a) && WellFormed(w.initiator) && WellFormed(w.responder) && w' == Next(w, a)
    case Suspend(side, pending) =>
      exists s: Session ::
        RevivesAs(wire, SessionFacade.Session(w.Party(side), pending), s) && w' == w.With(side, s.state)
            && s.pending == pending
  }

  ghost predicate IsRun(wire: Wire, ws: seq<World>, steps: seq<Step>) {
    && |ws| == |steps| + 1
    && forall i | 0 <= i < |steps| :: Moves(wire, ws[i], steps[i], ws[i + 1])
  }

  lemma CacheIdsDiffer(w: World, side: Side)
    requires Inv(w)
    ensures DistinctIds(w.Party(side).skipped)
  {
    var cache := w.Party(side).skipped;
    assert Ordered(w.h.keys, cache);
    forall i, j | 0 <= i < j < |cache| ensures cache[i].id != cache[j].id {
      assert Before(w.h.keys, cache[i].id, cache[j].id);
    }
  }

  function Ahead(step: Step): seq<Action> {
    if step.Act? then [step.action] else []
  }

  lemma MoveIsExecuted(wire: Wire, w: World, step: Step, w': World, rest: seq<Action>)
    requires wire.Faithful() && Inv(w) && WellFormed(w.initiator) && WellFormed(w.responder) && Moves(wire, w, step, w')
    ensures Inv(w') && WellFormed(w'.initiator) && WellFormed(w'.responder)
    ensures Feasible(w', rest) ==>
      Feasible(w, Ahead(step) + rest) && Execute(w, Ahead(step) + rest) == Execute(w', rest)
  {
    hide Inv, Possible, Next, RevivesAs;
    if step.Act? {
      StepKeepsInv(w, step.action);
      assert ([step.action] + rest)[1..] == rest;
    } else {
      var before := SessionFacade.Session(w.Party(step.side), step.pending);
      var s: Session :| RevivesAs(wire, before, s) && w' == w.With(step.side, s.state) && s.pending == step.pending;
      CacheIdsDiffer(w, step.side);
      RevivesAsItself(wire, before, s);
      assert Ahead(step) + rest == rest;
    }
  }

  lemma RunTail(wire: Wire, ws: seq<World>, steps: seq<Step>)
    requires IsRun(wire, ws, steps) && steps != []
    ensures |ws| == |steps| + 1 && Moves(wire, ws[0], steps[0], ws[1]) && IsRun(wire, ws[1..], steps[1..])
  {
    hide Moves;
  }

  /** A run with suspensions anywhere ends where the same run without them does. */
  lemma {:induction false} SuspendedRunIsTheSame(wire: Wire, ws: seq<World>, steps: seq<Step>)
    requires wire.Faithful() && IsRun(wire, ws, steps)
    requires Inv(ws[0]) && WellFormed(ws[0].initiator) && WellFormed(ws[0].responder)
    ensures Feasible(ws[0], Acts(steps)) && ws[|steps|] == Execute(ws[0], Acts(steps))
    decreases |steps|
  {
    hide Inv, Moves;
    if steps != [] {
      RunTail(wire, ws, steps);
      hide IsRun, Feasible, Execute, WellFormed;
      MoveIsExecuted(wire, ws[0], steps[0], ws[1], Acts(steps[1..]));
      SuspendedRunIsTheSame(wire, ws[1..], steps[1..]);
    }
  }
}
