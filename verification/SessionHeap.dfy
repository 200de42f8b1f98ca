/**
 The session object an application holds: ratchet state updated in place, and the
 handshake header repeated until the peer has answered.
 */
module SessionHeap {
  import opened Wrappers
  import opened Crypto
  import opened Ratchet
  import opened X3dh
  import opened RatchetHeap
  import Facade = SessionFacade

  class LiveSession {
    const state: Session
    var pending: Option<InitialHeader>

    constructor (state: Session, pending: Option<InitialHeader>)
      ensures this.state == state && this.pending == pending
    {
      this.state, this.pending := state, pending;
    }

    ghost predicate Valid()
      reads this, state, state.skipped, state.Repr()
    {
      state.Valid() && this !in state.Repr()
    }

    ghost function Abstract(): Facade.Session
      reads this, state, state.skipped, state.Repr()
    {
      Facade.Session(state.Abstract(), pending)
    }

    method EncryptFor(text: Text) returns (r: Outcome<Facade.Inner>)
      requires Valid()
      modifies state`sending, state`sendCount, state.sending
      ensures Valid()
      ensures var spec := Facade.EncryptFor(old(Abstract()), text);
        if spec.Outgoing? then r == Done(spec.inner) && Abstract() == spec.session
        else r.Thrown? && spec.error == Facade.Refusal(r.error) && Abstract() == old(Abstract())
    {
      hide KeyMap.Valid;
      var m := state.EncryptMessage(text);
      if m.Thrown? {
        return Thrown(m.error);
      }
      r := Done(Facade.Inner(pending, m.value));
    }

    /** A refused message leaves the pending header, and everything else, alone. */
    method DecryptFor(inner: Facade.Inner, next: nat) returns (r: Outcome<Text>)
      requires Valid()
      modifies this, state, state.skipped.Repr
      ensures Valid()
      ensures var spec := Facade.DecryptFor(old(Abstract()), inner, next);
        if spec.Incoming? then r == Done(spec.text) && Abstract() == spec.session
        else && r.Thrown? && spec.error == Facade.Refusal(r.error)
             && unchanged(this) && unchanged(state) && unchanged(old(state.skipped.Repr))
                 && Abstract() == old(Abstract())
    {
      hide KeyMap.Valid, Decrypt;
      var text, advances := state.DecryptMessage(inner.ratchet, next);
      if text.Thrown? {
        return Thrown(text.error);
      }
      pending := None;
      r := Done(text.value);
    }
  }
}
