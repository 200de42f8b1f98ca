/**
 Symbolic cryptography shared by the handshake and the ratchet.

 Keys are terms of a free datatype, so two derivations agree exactly when they
 were made the same way; Diffie-Hellman is the only operation with an equation
 (the two parties of an exchange reach the same secret).  A sealed text opens
 only under the key, the associated data and the header it was sealed with.
 */
module Crypto {
  import opened Wrappers

  /** A public key as it arrives in a header: a usable point, a point the DH
      primitive refuses, or bytes of the wrong length. */
  datatype PublicKey = Point(name: nat) | SmallOrder(tag: nat) | WrongLength(length: nat)

  /** The shared secret of two key pairs; `Dh` is the only way it is built. */
  datatype Shared = Shared(low: nat, high: nat)

  function Dh(ours: nat, theirs: nat): Shared {
    if ours <= theirs then Shared(ours, theirs) else Shared(theirs, ours)
  }

  lemma DhIsSymmetric(a: nat, b: nat)
    ensures Dh(a, b) == Dh(b, a)
  {
  }

  /** One party's key is shared with two partners in the same way only if the
      partners are the same. */
  lemma DhDeterminesPartner(a: nat, b: nat, c: nat)
    requires Dh(a, b) == Dh(a, c)
    ensures b == c
  {
  }

  /** Every secret 32-byte value.  `Zeroed` is what a wiped buffer holds. */
  datatype Key =
    | Agreed(dhs: seq<Shared>)
    | RootStep(root: Key, dh: Shared)
    | ChainStart(root: Key, dh: Shared)
    | ChainStep(chain: Key)
    | MessageKey(chain: Key)
    | Private(name: nat)
    | Zeroed

  type Text = string

  /** The two Ed25519 identities a session is bound to, initiator first. */
  datatype AssociatedData = AssociatedData(initiator: PublicKey, responder: PublicKey)

  datatype Header = Header(dh: PublicKey, previousLength: nat, number: nat)

  datatype Ciphertext =
    | Sealed(key: Key, ad: AssociatedData, header: Header, text: Text)
    | Junk(tag: nat)

  datatype Message = Message(header: Header, body: Ciphertext)

  function Open(key: Key, ad: AssociatedData, header: Header, body: Ciphertext): (r: Option<Text>)
    ensures r.Some? <==> body.Sealed? && body.key == key && body.ad == ad && body.header == header
    ensures r.Some? ==> r.value == body.text
  {
    if body.Sealed? && body.key == key && body.ad == ad && body.header == header
    then Some(body.text) else None
  }
}
