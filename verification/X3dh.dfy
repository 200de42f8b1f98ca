/**
 X3DH key agreement, with and without a one-time prekey.
 */
module X3dh {
  import opened Wrappers
  import opened Crypto

  /** A device's long-term key pairs, by name: Ed25519 signing and X25519 DH. */
  datatype Identity = Identity(signing: nat, dh: nat)

  /** What an identity key can sign. */
  datatype Claim = PrekeyClaim(key: PublicKey, id: nat) | DhKeyClaim(key: PublicKey)

  datatype Signature = Signed(signer: nat, claim: Claim) | Forged(tag: nat)

  predicate Verifies(key: PublicKey, claim: Claim, signature: Signature) {
    key.Point? && signature == Signed(key.name, claim)
  }

  datatype SignedPrekey = SignedPrekey(id: nat, key: PublicKey, signature: Signature)

  datatype OneTimePrekey = OneTimePrekey(id: nat, key: PublicKey)

  datatype Bundle = Bundle(
    identityKey: PublicKey,
    identityDhKey: PublicKey,
    identityDhSignature: Signature,
    signedPrekey: SignedPrekey,
    oneTimePrekey: Option<OneTimePrekey>)

  datatype InitialHeader = InitialHeader(
    identityKey: PublicKey,
    identityDhKey: PublicKey,
    ephemeralKey: PublicKey,
    signedPrekeyId: nat,
    oneTimePrekeyId: Option<nat>)

  datatype X3dhError = BadLength | BadPrekeySignature | BadDhKeySignature | RefusedPoint | PrekeyMismatch

  datatype Agreement = Agreement(secret: Key, ad: AssociatedData)

  datatype Initiation = Initiated(agreement: Agreement, header: InitialHeader) | NotInitiated(error: X3dhError)

  datatype Response = Responded(agreement: Agreement) | NotResponded(error: X3dhError)

  /** The initiator's half.  `ephemeral` names its one-shot key pair. */
  function Initiate(us: Identity, bundle: Bundle, ephemeral: nat): Initiation {
    var spk := bundle.signedPrekey.key;
    if bundle.identityKey.WrongLength? || bundle.identityDhKey.WrongLength? || spk.WrongLength?
       || (bundle.oneTimePrekey.Some? && bundle.oneTimePrekey.value.key.WrongLength?)
    then NotInitiated(BadLength)
    else if !Verifies(bundle.identityKey, PrekeyClaim(spk, bundle.signedPrekey.id), bundle.signedPrekey.signature)
    then NotInitiated(BadPrekeySignature)
    else if !Verifies(bundle.identityKey, DhKeyClaim(bundle.identityDhKey), bundle.identityDhSignature)
    then NotInitiated(BadDhKeySignature)
    else if !spk.Point? || !bundle.identityDhKey.Point?
            || (bundle.oneTimePrekey.Some? && !bundle.oneTimePrekey.value.key.Point?)
    then NotInitiated(RefusedPoint)
    else
      var dhs := [Dh(us.dh, spk.name), Dh(ephemeral, bundle.identityDhKey.name), Dh(ephemeral, spk.name)]
        + if bundle.oneTimePrekey.Some? then [Dh(ephemeral, bundle.oneTimePrekey.value.key.name)] else [];
      Initiated(
        Agreement(Agreed(dhs), AssociatedData(Point(us.signing), bundle.identityKey)),
        InitialHeader(Point(us.signing), Point(us.dh), Point(ephemeral), bundle.signedPrekey.id,
                      if bundle.oneTimePrekey.Some? then Some(bundle.oneTimePrekey.value.id) else None))
  }

  /** The responder's half, from the private prekeys the header selects. */
  function Respond(us: Identity, signedPrekey: nat, oneTimePrekey: Option<nat>, header: InitialHeader): Response {
    if header.identityKey.WrongLength? || header.identityDhKey.WrongLength? || header.ephemeralKey.WrongLength?
    then NotResponded(BadLength)
    else if header.oneTimePrekeyId.Some? != oneTimePrekey.Some? then NotResponded(PrekeyMismatch)
    else if !header.identityDhKey.Point? || !header.ephemeralKey.Point?
    then NotResponded(RefusedPoint)
    else
      var ephemeral := header.ephemeralKey.name;
      var dhs := [Dh(signedPrekey, header.identityDhKey.name), Dh(us.dh, ephemeral), Dh(signedPrekey, ephemeral)]
        + if oneTimePrekey.Some? then [Dh(oneTimePrekey.value, ephemeral)] else [];
      Responded(Agreement(Agreed(dhs), AssociatedData(header.identityKey, Point(us.signing))))
  }

  /** A bundle vouched for by the identity it claims, made of usable points. */
  predicate Vouched(bundle: Bundle) {
    && Verifies(bundle.identityKey, PrekeyClaim(bundle.signedPrekey.key, bundle.signedPrekey.id),
        bundle.signedPrekey.signature)
    && Verifies(bundle.identityKey, DhKeyClaim(bundle.identityDhKey), bundle.identityDhSignature)
    && bundle.signedPrekey.key.Point? && bundle.identityDhKey.Point?
    && (bundle.oneTimePrekey.Some? ==> bundle.oneTimePrekey.value.key.Point?)
  }

  /** The bundle a responder publishes: both signatures are its own. */
  function Publish(them: Identity, signedId: nat, signedPrekey: nat, oneTime: Option<(nat, nat)>): Bundle {
    var spk := Point(signedPrekey);
    Bundle(Point(them.signing), Point(them.dh), Signed(them.signing, DhKeyClaim(Point(them.dh))),
           SignedPrekey(signedId, spk, Signed(them.signing, PrekeyClaim(spk, signedId))),
           if oneTime.Some? then Some(OneTimePrekey(oneTime.value.0, Point(oneTime.value.1))) else None)
  }

  /** Nothing is derived from a bundle the identity has not vouched for. */
  lemma InitiatesExactlyWhenVouched(us: Identity, bundle: Bundle, ephemeral: nat)
    ensures Initiate(us, bundle, ephemeral).Initiated? <==> Vouched(bundle)
  {
  }

  /** Whatever a server does to the bundle of an identity that has signed one prekey
      and one DH key, a session starts only from those two; nothing but the unsigned
      one-time prekey can have been changed, and the two sides then agree exactly if
      the owner answers with that very key. */
  lemma TamperingIsCaught(us: Identity, them: Identity, signedId: nat, signedPrekey: nat, bundle: Bundle,
      ephemeral: nat,
                          taken: Option<nat>)
    requires bundle.identityKey == Point(them.signing)
    requires forall c | bundle.signedPrekey.signature == Signed(them.signing, c)
        || bundle.identityDhSignature == Signed(them.signing, c) ::
      c == PrekeyClaim(Point(signedPrekey), signedId) || c == DhKeyClaim(Point(them.dh))
    ensures var i := Initiate(us, bundle, ephemeral);
      i.Initiated? ==>
        && bundle.signedPrekey.key == Point(signedPrekey) && bundle.signedPrekey.id == signedId
        && bundle.identityDhKey == Point(them.dh)
        && (bundle.oneTimePrekey.Some? ==> bundle.oneTimePrekey.value.key.Point?)
        && var r := Respond(them, signedPrekey, taken, i.header);
           (r.Responded? && r.agreement == i.agreement) <==>
           taken == if bundle.oneTimePrekey.Some? then Some(bundle.oneTimePrekey.value.key.name) else None
  {
    InitiatesExactlyWhenVouched(us, bundle, ephemeral);
    if Initiate(us, bundle, ephemeral).Initiated? {
      var oneTime := if bundle.oneTimePrekey.Some?
                     then Some((bundle.oneTimePrekey.value.id, bundle.oneTimePrekey.value.key.name)) else None;
      assert bundle == Publish(them, signedId, signedPrekey, oneTime);
      hide Initiate, Respond;
      AgreeExactlyWhen(us, them, signedId, signedPrekey, oneTime, ephemeral, signedPrekey, taken);
    }
  }

  /** Both variants: the two halves reach one secret and one associated data
      exactly when the responder used the prekeys it published. */
  lemma AgreeExactlyWhen(us: Identity, them: Identity, signedId: nat, signedPrekey: nat, oneTime: Option<(nat, nat)>,
                         ephemeral: nat, signedUsed: nat, oneTimeUsed: Option<nat>)
    ensures var i := Initiate(us, Publish(them, signedId, signedPrekey, oneTime), ephemeral);
      && i.Initiated?
      && var r := Respond(them, signedUsed, oneTimeUsed, i.header);
         (r.Responded? && r.agreement == i.agreement) <==>
         (signedUsed == signedPrekey && oneTimeUsed == if oneTime.Some? then Some(oneTime.value.1) else None)
  {
    var bundle := Publish(them, signedId, signedPrekey, oneTime);
    var i := Initiate(us, bundle, ephemeral);
    var r := Respond(them, signedUsed, oneTimeUsed, i.header);
    if oneTimeUsed.Some? == oneTime.Some? {
      var ours, theirs := i.agreement.secret.dhs, r.agreement.secret.dhs;
      assert ours[0] == Dh(us.dh, signedPrekey) && theirs[0] == Dh(signedUsed, us.dh);
      assert ours[1] == theirs[1] && ours[2] == Dh(ephemeral, signedPrekey) && theirs[2] == Dh(signedUsed, ephemeral);
      if oneTime.Some? {
        assert ours[3] == Dh(ephemeral, oneTime.value.1) && theirs[3] == Dh(oneTimeUsed.value, ephemeral);
        assert ours == theirs <==> ours[0] == theirs[0] && ours[2] == theirs[2] && ours[3] == theirs[3];
      } else {
        assert ours == theirs <==> ours[0] == theirs[0] && ours[2] == theirs[2];
      }
    }
  }

  // ----- the agreement of the standard

  /** Section 3.3 of the X3DH specification: initiator's identity with the signed
      prekey, ephemeral with the responder's identity, ephemeral with the signed
      prekey, and ephemeral with the one-time prekey if there is one. */
  function StandardShares(identityA: nat, ephemeralA: nat, identityB: nat, signedB: nat,
                          oneTimeB: Option<nat>): seq<Shared>
  {
    [Dh(identityA, signedB), Dh(ephemeralA, identityB), Dh(ephemeralA, signedB)]
    + if oneTimeB.Some? then [Dh(ephemeralA, oneTimeB.value)] else []
  }

  /** The initiator derives from exactly these shares, binds the two identities with
      its own first, and tells the responder which keys it used. */
  lemma InitiatorFollowsStandard(us: Identity, bundle: Bundle, ephemeral: nat)
    requires Vouched(bundle)
    ensures var i, o := Initiate(us, bundle, ephemeral), bundle.oneTimePrekey;
      && i.Initiated?
      && i.agreement.secret == Agreed(StandardShares(us.dh, ephemeral, bundle.identityDhKey.name,
                                                     bundle.signedPrekey.key.name,
                                                     if o.Some? then Some(o.value.key.name) else None))
      && i.agreement.ad == AssociatedData(Point(us.signing), bundle.identityKey)
      && i.header == InitialHeader(Point(us.signing), Point(us.dh), Point(ephemeral), bundle.signedPrekey.id,
                                   if o.Some? then Some(o.value.id) else None)
  {
  }

  /** So does the responder, from its private halves and the keys in the header, the
      initiator's identity first; it refuses exactly unusable keys and a one-time
      prekey named without being given, or given without being named. */
  lemma ResponderFollowsStandard(us: Identity, signedPrekey: nat, oneTimePrekey: Option<nat>, header: InitialHeader)
    ensures var r := Respond(us, signedPrekey, oneTimePrekey, header);
      && (r.Responded? <==>
          && !header.identityKey.WrongLength? && header.identityDhKey.Point? && header.ephemeralKey.Point?
          && (header.oneTimePrekeyId.Some? <==> oneTimePrekey.Some?))
      && (r.Responded? ==>
          && r.agreement.secret == Agreed(StandardShares(header.identityDhKey.name, header.ephemeralKey.name, us.dh,
                                                         signedPrekey, oneTimePrekey))
          && r.agreement.ad == AssociatedData(header.identityKey, Point(us.signing)))
  {
    if header.identityDhKey.Point? && header.ephemeralKey.Point? {
      DhIsSymmetric(signedPrekey, header.identityDhKey.name);
      DhIsSymmetric(us.dh, header.ephemeralKey.name);
      DhIsSymmetric(signedPrekey, header.ephemeralKey.name);
      if oneTimePrekey.Some? {
        DhIsSymmetric(oneTimePrekey.value, header.ephemeralKey.name);
      }
    }
  }

  /** What a refused bundle is refused for: lengths first, then the signed prekey's
      signature, then the DH key's, then points the exchange will not take. */
  lemma RefusalsOfInitiate(us: Identity, bundle: Bundle, ephemeral: nat)
    ensures var i, spk, o := Initiate(us, bundle, ephemeral), bundle.signedPrekey, bundle.oneTimePrekey;
      var short := bundle.identityKey.WrongLength? || bundle.identityDhKey.WrongLength? || spk.key.WrongLength?
                   || (o.Some? && o.value.key.WrongLength?);
      && (i == NotInitiated(BadLength) <==> short)
      && (i == NotInitiated(BadPrekeySignature) <==>
          !short && !Verifies(bundle.identityKey, PrekeyClaim(spk.key, spk.id), spk.signature))
      && (i == NotInitiated(BadDhKeySignature) ==>
          !Verifies(bundle.identityKey, DhKeyClaim(bundle.identityDhKey), bundle.identityDhSignature))
      && (i == NotInitiated(RefusedPoint) ==>
          spk.key.SmallOrder? || bundle.identityDhKey.SmallOrder? || (o.Some? && o.value.key.SmallOrder?))
      && i != NotInitiated(PrekeyMismatch)
  {
  }
}
