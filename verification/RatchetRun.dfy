/**
 Two parties running the ratchet over a network that drops, reorders,
 duplicates and corrupts.

 The history of a run lists the ratchet keys in the order they came into use:
 the signed prekey first, then the initiator's and the responder's keys in
 turn.  Chain `e` is the chain sent under key `e + 1` towards key `e`.  A party
 at level `L` holds key `L`, sends on chain `L - 1` and receives on chain
 `L - 2`; the initiator's level is odd and the responder's even.
 */
module RatchetRun {
  import opened Wrappers
  import opened Crypto
  import opened Ratchet
  import opened RatchetCache

  datatype Side = Initiator | Responder

  datatype Letter = Letter(message: Message, text: Text)

  datatype History = History(
    secret: Key,
    ad: AssociatedData,
    keys: seq<nat>,
    letters: map<nat, seq<Letter>>,  // by ratchet key, in the order sent
    accepted: set<Id>,
    evicted: set<Id>)

  datatype World = World(h: History, initiator: State, responder: State, next: nat) {
    function Party(side: Side): State {
      if side.Initiator? then initiator else responder
    }

    function With(side: Side, s: State): World {
      if side.Initiator? then this.(initiator := s) else this.(responder := s)
    }
  }

  // ----- steps

  datatype Action = Send(side: Side, text: Text) | Deliver(side: Side, message: Message)

  function LettersUnder(h: History, key: nat): seq<Letter> {
    if key in h.letters then h.letters[key] else []
  }

  /** Every ciphertext on the network is junk or was sealed by one of the
      parties; the header in front of it may be anything. */
  ghost predicate Possible(h: History, a: Action) {
    a.Deliver? ==> a.message.body.Junk? || exists key, n :: IsLetterBody(h, key, n, a.message.body)
  }

  predicate IsLetterBody(h: History, key: nat, n: nat, body: Ciphertext) {
    n < |LettersUnder(h, key)| && LettersUnder(h, key)[n].message.body == body
  }

  function Ids(entries: seq<Entry>): set<Id> {
    set i | 0 <= i < |entries| :: entries[i].id
  }

  function Next(w: World, a: Action): (w': World)
    requires WellFormed(w.initiator) && WellFormed(w.responder)
    ensures WellFormed(w'.initiator) && WellFormed(w'.responder)
  {
    var s := w.Party(a.side);
    match a
    case Send(side, text) =>
      (match Encrypt(s, text)
       case Sent(s', m) =>
         w.With(side, s').(h := w.h.(letters := w.h.letters[s.ours := LettersUnder(w.h, s.ours) + [Letter(m, text)]]))
       case NotSent(_) => w)
    case Deliver(side, m) =>
      (match Decrypt(s, m, w.next)
       case Accepted(s', _, dropped) =>
         w.With(side, s').(
           h := w.h.(keys := if s'.ours == s.ours then w.h.keys else w.h.keys + [s'.ours],
                     accepted := w.h.accepted + {Id(m.header.dh, m.header.number)},
                     evicted := w.h.evicted + Ids(dropped)),
           next := w.next + 1)
       case Refused(_) => w.(next := w.next + 1))
  }

  function Start(secret: Key, ad: AssociatedData, prekey: nat, first: nat, next: nat): World {
    World(History(secret, ad, [prekey, first], map[], {}, {}),
          InitiatorStart(secret, ad, prekey, first),
          ResponderStart(secret, ad, prekey),
          next)
  }

  // ----- the keys of the run

  ghost predicate Distinct(keys: seq<nat>) {
    forall i, j | 0 <= i < j < |keys| :: keys[i] != keys[j]
  }

  ghost function RootAt(secret: Key, keys: seq<nat>, e: nat): Key
    requires e < |keys|
  {
    if e == 0 then secret else RootStep(RootAt(secret, keys, e - 1), Dh(keys[e - 1], keys[e]))
  }

  ghost function Iterate(chain: Key, n: nat): Key {
    if n == 0 then chain else ChainStep(Iterate(chain, n - 1))
  }

  ghost function ChainAt(secret: Key, keys: seq<nat>, e: nat, n: nat): Key
    requires e + 1 < |keys|
  {
    Iterate(ChainStart(RootAt(secret, keys, e), Dh(keys[e], keys[e + 1])), n)
  }

  ghost function KeyAt(h: History, e: nat, n: nat): Key
    requires e + 1 < |h.keys|
  {
    MessageKey(ChainAt(h.secret, h.keys, e, n))
  }

  ghost function IdAt(keys: seq<nat>, e: nat, n: nat): Id
    requires e + 1 < |keys|
  {
    Id(Point(keys[e + 1]), n)
  }

  ghost function Letters(h: History, e: nat): seq<Letter>
    requires e + 1 < |h.keys|
  {
    LettersUnder(h, h.keys[e + 1])
  }

  ghost function PreviousLength(h: History, e: nat): nat
    requires e + 1 < |h.keys|
  {
    if e < 2 then 0 else |Letters(h, e - 2)|
  }

  ghost function HeaderAt(h: History, e: nat, n: nat): Header
    requires e + 1 < |h.keys|
  {
    Header(Point(h.keys[e + 1]), PreviousLength(h, e), n)
  }

  ghost predicate IsGenuine(h: History, e: nat, n: nat, l: Letter)
    requires e + 1 < |h.keys|
  {
    var header := HeaderAt(h, e, n);
    l.message == Message(header, Sealed(KeyAt(h, e, n), h.ad, header, l.text))
  }

  // ----- where a message can be

  predicate Even(n: nat) {
    n == 0 || !Even(n - 1)
  }

  /** The receiver at level `L` has moved past message `n` of chain `e`. */
  predicate Passed(L: nat, reached: nat, e: nat, n: nat) {
    e < L - 2 || (e == L - 2 && n < reached)
  }

  ghost predicate InCache(cache: seq<Entry>, id: Id) {
    exists i :: 0 <= i < |cache| && cache[i].id == id
  }

  ghost function Index(keys: seq<nat>, k: nat): (i: nat)
    requires k in keys
    ensures i < |keys| && keys[i] == k
  {
    var i :| 0 <= i < |keys| && keys[i] == k;
    i
  }

  ghost function EpochOf(keys: seq<nat>, id: Id): int
    requires id.dh.Point? && id.dh.name in keys
  {
    Index(keys, id.dh.name) - 1
  }

  ghost predicate Known(keys: seq<nat>, id: Id) {
    id.dh.Point? && id.dh.name in keys
  }

  ghost predicate GoodEntry(h: History, L: nat, reached: nat, x: Entry) {
    && Known(h.keys, x.id)
    && var e := EpochOf(h.keys, x.id);
    && 0 <= e && Even(e) == Even(L)
    && Passed(L, reached, e, x.id.number)
    && x.key == KeyAt(h, e, x.id.number)
  }

  ghost predicate Before(keys: seq<nat>, a: Id, b: Id) {
    && Known(keys, a) && Known(keys, b)
    && (EpochOf(keys, a) < EpochOf(keys, b) || (a.dh == b.dh && a.number < b.number))
  }

  ghost predicate Ordered(keys: seq<nat>, cache: seq<Entry>) {
    forall i, j | 0 <= i < j < |cache| :: Before(keys, cache[i].id, cache[j].id)
  }

  ghost predicate CacheOk(h: History, s: State, L: nat) {
    && (forall i | 0 <= i < |s.skipped| :: GoodEntry(h, L, s.receiveCount, s.skipped[i]))
    && Ordered(h.keys, s.skipped)
  }

  /** A message passed by its receiver is cached, opened or evicted, and only
      one of the three; a message not passed is none of them. */
  ghost predicate PlaceOk(h: History, s: State, L: nat, e: nat, n: nat)
    requires e + 1 < |h.keys|
  {
    var id := IdAt(h.keys, e, n);
    && (InCache(s.skipped, id) ==> id !in h.accepted && id !in h.evicted)
    && (id in h.accepted ==> id !in h.evicted)
    && ((InCache(s.skipped, id) || id in h.accepted || id in h.evicted)
        <==> Passed(L, s.receiveCount, e, n) && n < |Letters(h, e)|)
  }

  ghost predicate PlacesOk(h: History, s: State, L: nat) {
    forall e: nat, n: nat | e + 1 < |h.keys| && Even(e) == Even(L) :: PlaceOk(h, s, L, e, n)
  }

  ghost predicate ChainsOk(h: History, s: State, L: nat)
    requires L < |h.keys|
  {
    && s.ad == h.ad
    && s.root == RootAt(h.secret, h.keys, L)
    && s.ours == h.keys[L]
    && s.theirs == (if L < 1 then None else Some(h.keys[L - 1]))
    && s.sending == (if L < 1 then None else Some(ChainAt(h.secret, h.keys, L - 1, s.sendCount)))
    && s.sendCount == (if L < 1 then 0 else |Letters(h, L - 1)|)
    && s.previousLength == (if L < 1 then 0 else PreviousLength(h, L - 1))
    && s.receiving == (if L < 2 then None else Some(ChainAt(h.secret, h.keys, L - 2, s.receiveCount)))
    && s.receiveCount <= (if L < 2 then 0 else |Letters(h, L - 2)|)
  }

  ghost predicate PartyOk(h: History, s: State, L: nat) {
    && L < |h.keys|
    && ChainsOk(h, s, L)
    && CacheOk(h, s, L)
    && PlacesOk(h, s, L)
  }

  ghost predicate HistoryOk(h: History) {
    && |h.keys| >= 2
    && Distinct(h.keys)
    && (forall k | k in h.letters :: k in h.keys)
    && (forall id | id in h.accepted || id in h.evicted :: Known(h.keys, id))
    && (forall e: nat, n: nat | e + 1 < |h.keys| && n < |Letters(h, e)| :: IsGenuine(h, e, n, Letters(h, e)[n]))
    && LettersUnder(h, h.keys[0]) == []
  }

  function Level(h: History, side: Side): nat
    requires |h.keys| >= 2
  {
    var top := |h.keys| - 1;
    if Even(top) == side.Responder? then top else top - 1
  }

  ghost predicate Inv(w: World) {
    && HistoryOk(w.h)
    && (forall i | 0 <= i < |w.h.keys| :: w.h.keys[i] < w.next)
    && PartyOk(w.h, w.initiator, Level(w.h, Initiator))
    && PartyOk(w.h, w.responder, Level(w.h, Responder))
  }
}
