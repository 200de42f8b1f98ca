/**
 One owner's prekeys over whole runs: minting, uploads that may be delayed, lost
 or refused, bundle fetches, openers that answer a handout and openers that answer
 none, and other accounts doing as they please.
 */
module PrekeyRun {
  import opened Wrappers
  import opened Crypto
  import opened X3dh
  import opened Prekeys

  const OWNER: Account := 0

  datatype World = World(
    vault: map<Id, nat>,
    next: nat,              // names of key pairs not yet generated start here
    uploading: set<Prekey>, // on the way to the server
    table: Table,
    unanswered: set<Prekey>, // handed out, opener not yet seen by the owner
    handed: seq<nat>,       // keys handed out, in order
    taken: seq<nat>,        // keys taken for the openers of their handouts, in order
    wasted: set<nat>)       // keys taken for openers that answered no open handout

  const START := World(map[], 0, {}, map[], {}, [], [], {})

  /** `remaining` is counted before an `await`, so it may be out of date. */
  datatype Action =
    | Replenish(remaining: nat, highest: nat)
    | Serve(batch: seq<Prekey>)
    | Lose(lost: set<Prekey>)
    | Fetch(p: Prekey)
    | Answer(p: Prekey)
    | Stray(id: Id)
    | Intrude(who: Account, batch: seq<Prekey>)
    | FetchOther(who: Account, id: Id)

  ghost predicate Possible(w: World, a: Action) {
    match a
    case Replenish(remaining, highest) => remaining <= PREKEY_LOW_WATER && IsHighest(w.vault, highest)
    case Serve(batch) => Elements(batch) <= w.uploading
    case Lose(_) => true
    case Fetch(p) => p in Pool(w.table, OWNER)
    case Answer(p) => p in w.unanswered
    case Stray(_) => true
    case Intrude(who, _) => who != OWNER
    case FetchOther(who, _) => who != OWNER
  }

  function Next(w: World, a: Action): World {
    match a
    case Replenish(remaining, highest) =>
      var count := if remaining <= PREKEY_LOW_WATER then PREKEY_TARGET - remaining else 0;
      w.(vault := Extended(w.vault, highest, w.next, count), next := w.next + count,
         uploading := w.uploading + Elements(Minted(highest, w.next, count)))
    case Serve(batch) =>
      w.(uploading := w.uploading - Elements(batch), table := Upload(w.table, OWNER, batch))
    case Lose(lost) => w.(uploading := w.uploading - lost)
    case Fetch(p) =>
      w.(table := w.table - {(OWNER, p.id)}, unanswered := w.unanswered + {p}, handed := w.handed + [p.key])
    case Answer(p) =>
      var w' := w.(vault := w.vault - {p.id}, unanswered := w.unanswered - {p});
      if p.id in w.vault then w'.(taken := w.taken + [w.vault[p.id]]) else w'
    case Stray(id) =>
      if id in w.vault then w.(vault := w.vault - {id}, wasted := w.wasted + {w.vault[id]}) else w
    case Intrude(who, batch) => w.(table := Upload(w.table, who, batch))
    case FetchOther(who, id) => w.(table := w.table - {(who, id)})
  }

  ghost predicate IsRun(ws: seq<World>, actions: seq<Action>) {
    && |ws| == |actions| + 1 && ws[0] == START
    && forall i | 0 <= i < |actions| :: Possible(ws[i], actions[i]) && ws[i + 1] == Next(ws[i], actions[i])
  }

  // ----- what every run keeps

  /** A world as its owner's prekeys see it. */
  datatype View = View(
    vault: map<Id, nat>, next: nat,
    uploading: set<Prekey>, pool: set<Prekey>, unanswered: set<Prekey>,
    handed: seq<nat>, taken: seq<nat>, wasted: set<nat>)

  function ViewOf(w: World): View {
    View(w.vault, w.next, w.uploading, Pool(w.table, OWNER), w.unanswered, w.handed, w.taken, w.wasted)
  }

  /** Every prekey a peer has or could still get. */
  function InPlay(v: View): set<Prekey> {
    v.uploading + v.pool + v.unanswered
  }

  /** The vault can answer each of them, with the same key. */
  ghost predicate Held(v: View) {
    forall p | p in InPlay(v) :: p.id in v.vault && v.vault[p.id] == p.key
  }

  ghost predicate Apart(v: View) {
    v.uploading !! v.pool !! v.unanswered
  }

  ghost predicate VaultOk(v: View) {
    && (forall id | id in v.vault :: v.vault[id] < v.next && v.vault[id] !in v.taken && v.vault[id] !in v.wasted)
    && (forall a, b | a in v.vault && b in v.vault && v.vault[a] == v.vault[b] :: a == b)
  }

  ghost predicate Distinct(keys: seq<nat>) {
    forall i, j | 0 <= i < j < |keys| :: keys[i] != keys[j]
  }

  ghost predicate LogOk(v: View) {
    && Distinct(v.handed) && Distinct(v.taken)
    && (forall k | k in v.handed :: k < v.next)
    && (forall k | k in v.taken :: k in v.handed && k !in v.wasted)
    && (forall k | k in v.wasted :: k < v.next)
    && (forall p | p in v.uploading + v.pool :: p.key !in v.handed)
    && (forall p | p in v.unanswered :: p.key in v.handed)
  }

  ghost predicate Core(v: View) {
    Held(v) && Apart(v) && VaultOk(v) && LogOk(v)
  }

  /** No prekey in play has this id. */
  ghost predicate Idle(v: View, id: Id) {
    forall p | p in InPlay(v) :: p.id != id
  }

  ghost predicate Capped(table: Table) {
    forall who :: |Pool(table, who)| <= MAX_STORED
  }

  ghost predicate Inv(w: World) {
    Core(ViewOf(w)) && Capped(w.table) && UniqueKeys(w.table)
  }

  // ----- step by step

  lemma {:induction false} ReplenishKeepsCore(v: View, highest: nat, count: nat)
    requires Core(v) && IsHighest(v.vault, highest)
    ensures Core(v.(vault := Extended(v.vault, highest, v.next, count), next := v.next + count,
                    uploading := v.uploading + Elements(Minted(highest, v.next, count))))
  {
    hide Minted, Extended, Distinct;
    ExtendedHolds(v.vault, highest, v.next, count);
    MintedHolds(highest, v.next, count);
    var minted := Minted(highest, v.next, count);
    var v' := v.(vault := Extended(v.vault, highest, v.next, count), next := v.next + count,
                 uploading := v.uploading + Elements(minted));
    assert Held(v') && Apart(v') by {
      hide VaultOk, LogOk;
      assert forall p | p in minted :: p.id !in v.vault;
    }
    assert VaultOk(v') by {
      hide Held, Apart;
      assert forall k | k in v.taken :: k < v.next;
    }
    assert LogOk(v') by {
      hide Held, Apart, VaultOk;
      assert forall p | p in minted :: p.key >= v.next;
    }
  }

  lemma LandKeepsCore(v: View, batch: set<Prekey>, stored: set<Prekey>)
    requires Core(v) && stored <= batch && batch <= v.uploading
    ensures Core(v.(uploading := v.uploading - batch, pool := v.pool + stored))
  {
    hide Distinct;
    var v' := v.(uploading := v.uploading - batch, pool := v.pool + stored);
    assert Held(v') && VaultOk(v') by { hide LogOk; }
    assert LogOk(v') by { hide Held, VaultOk; }
  }

  lemma LoseKeepsCore(v: View, lost: set<Prekey>)
    requires Core(v)
    ensures Core(v.(uploading := v.uploading - lost))
  {
    hide Distinct;
  }

  lemma DistinctSnoc(keys: seq<nat>, key: nat)
    requires Distinct(keys) && key !in keys
    ensures Distinct(keys + [key])
  {
  }

  lemma HandKeepsCore(v: View, p: Prekey)
    requires Core(v) && p in v.pool
    ensures Core(v.(pool := v.pool - {p}, unanswered := v.unanswered + {p}, handed := v.handed + [p.key]))
  {
    hide Distinct;
    var v' := v.(pool := v.pool - {p}, unanswered := v.unanswered + {p}, handed := v.handed + [p.key]);
    assert p in InPlay(v);
    DistinctSnoc(v.handed, p.key);
    assert Held(v') && VaultOk(v') by { hide LogOk; }
    forall q | q in v'.uploading + v'.pool ensures q.key != p.key {
      hide LogOk;
      assert q in InPlay(v);
    }
    assert LogOk(v') by { hide Held; }
  }

  lemma TakeKeepsCore(v: View, p: Prekey)
    requires Core(v) && p in v.unanswered
    ensures p.id in v.vault && v.vault[p.id] == p.key
    ensures Core(v.(vault := v.vault - {p.id}, unanswered := v.unanswered - {p}, taken := v.taken + [p.key]))
  {
    hide Distinct;
    var v' := v.(vault := v.vault - {p.id}, unanswered := v.unanswered - {p}, taken := v.taken + [p.key]);
    assert p in InPlay(v);
    DistinctSnoc(v.taken, p.key);
    forall q | q in InPlay(v') ensures q.id != p.id {
      hide LogOk, VaultOk;
      assert q in InPlay(v) && q != p;
    }
    assert Held(v') && VaultOk(v') by { hide LogOk; }
    assert LogOk(v') by { hide Held; }
  }

  lemma WasteKeepsCore(v: View, id: Id)
    requires Core(v) && id in v.vault && Idle(v, id)
    ensures Core(v.(vault := v.vault - {id}, wasted := v.wasted + {v.vault[id]}))
  {
    hide Distinct;
    var v' := v.(vault := v.vault - {id}, wasted := v.wasted + {v.vault[id]});
    assert InPlay(v') == InPlay(v);
    assert Held(v') && VaultOk(v') by { hide LogOk; }
    assert LogOk(v') by { hide Held; }
  }

  /** A stray opener does no harm if nothing in play has its id. */
  ghost predicate Harmless(w: World, a: Action) {
    a.Stray? ==> Idle(ViewOf(w), a.id)
  }

  lemma StepKeepsCore(w: World, a: Action)
    requires Core(ViewOf(w)) && Possible(w, a) && Harmless(w, a)
    ensures Core(ViewOf(Next(w, a)))
  {
    hide Core, Pool, Upload, Minted, Extended, IsHighest;
    var v, v' := ViewOf(w), ViewOf(Next(w, a));
    match a
    case Replenish(remaining, highest) =>
      ReplenishKeepsCore(v, highest, PREKEY_TARGET - remaining);
    case Serve(batch) =>
      PoolAfterUpload(w.table, OWNER, batch, OWNER);
      var stored := v'.pool - v.pool;
      assert v'.pool == v.pool + stored;
      LandKeepsCore(v, Elements(batch), stored);
    case Lose(lost) => LoseKeepsCore(v, lost);
    case Fetch(p) =>
      PoolAfterFetch(w.table, OWNER, p, OWNER);
      HandKeepsCore(v, p);
    case Answer(p) => TakeKeepsCore(v, p);
    case Stray(id) =>
      if id in w.vault {
        WasteKeepsCore(v, id);
      }
    case Intrude(who, batch) => PoolAfterUpload(w.table, who, batch, OWNER);
    case FetchOther(who, id) => PoolWithout(w.table, who, id, OWNER);
  }

  lemma StepKeepsCap(w: World, a: Action)
    requires Capped(w.table) && Possible(w, a)
    ensures Capped(Next(w, a).table)
  {
    hide Pool, Upload, Minted, Extended, IsHighest;
    forall who ensures |Pool(Next(w, a).table, who)| <= MAX_STORED {
      match a
      case Serve(batch) => PoolAfterUpload(w.table, OWNER, batch, who);
      case Intrude(other, batch) => PoolAfterUpload(w.table, other, batch, who);
      case Fetch(p) => PoolWithout(w.table, OWNER, p.id, who);
      case FetchOther(other, id) => PoolWithout(w.table, other, id, who);
      case _ =>
    }
  }

  lemma StepKeepsKeysUnique(w: World, a: Action)
    requires UniqueKeys(w.table)
    ensures UniqueKeys(Next(w, a).table)
  {
    hide Extended, Minted, Pool, InsertAll;
    match a
    case Serve(batch) => InsertsKeepKeysUnique(w.table, OWNER, batch);
    case Intrude(who, batch) => InsertsKeepKeysUnique(w.table, who, batch);
    case _ =>
  }

  lemma PoolWithout(table: Table, who: Account, id: Id, other: Account)
    ensures |Pool(table - {(who, id)}, other)| <= |Pool(table, other)|
    ensures other != who ==> Pool(table - {(who, id)}, other) == Pool(table, other)
  {
    SmallerSet(Pool(table - {(who, id)}, other), Pool(table, other));
    forall q | other != who && q in Pool(table, other) ensures q in Pool(table - {(who, id)}, other) {
      assert (other, q.id) in table - {(who, id)};
    }
  }

  lemma {:induction false} StepKeepsInv(w: World, a: Action)
    requires Inv(w) && Possible(w, a) && Harmless(w, a)
    ensures Inv(Next(w, a))
  {
    hide Core, Next, Possible, Capped, UniqueKeys, Harmless;
    StepKeepsCore(w, a);
    StepKeepsCap(w, a);
    StepKeepsKeysUnique(w, a);
  }

  lemma StartOk()
    ensures Inv(START)
  {
  }

  /** Every stray opener up to step `i` was harmless. */
  ghost predicate HarmlessUpTo(ws: seq<World>, actions: seq<Action>, i: nat)
    requires |ws| == |actions| + 1
  {
    forall k | 0 <= k < i && k < |actions| :: Harmless(ws[k], actions[k])
  }

  lemma {:induction false} RunKeepsInv(ws: seq<World>, actions: seq<Action>, i: nat)
    requires IsRun(ws, actions) && i < |ws| && HarmlessUpTo(ws, actions, i)
    ensures Inv(ws[i])
  {
    hide Inv, Next, Possible, Harmless;
    if i == 0 {
      StartOk();
    } else {
      RunKeepsInv(ws, actions, i - 1);
      StepKeepsInv(ws[i - 1], actions[i - 1]);
    }
  }

  // ----- the results

  /** Each prekey in the pool or handed out and unanswered is in the vault under its
      id and key; none is handed out twice or taken twice, by anybody; no public key
      is stored twice, and no account's pool passes the cap. */
  lemma PrekeysStayInStep(ws: seq<World>, actions: seq<Action>, i: nat)
    requires IsRun(ws, actions) && i < |ws| && HarmlessUpTo(ws, actions, i)
    ensures forall p | p in Pool(ws[i].table, OWNER) || p in ws[i].unanswered ::
      p.id in ws[i].vault && ws[i].vault[p.id] == p.key
    ensures Distinct(ws[i].handed) && Distinct(ws[i].taken)
    ensures forall k | k in ws[i].taken :: k in ws[i].handed && k !in ws[i].wasted
    ensures UniqueKeys(ws[i].table) && forall who :: |Pool(ws[i].table, who)| <= 200
  {
    hide Possible, Next, Pool, UniqueKeys;
    RunKeepsInv(ws, actions, i);
    assert forall p | p in Pool(ws[i].table, OWNER) || p in ws[i].unanswered :: p in InPlay(ViewOf(ws[i]));
  }

  /** A stray opener that names a prekey in play strands it. */
  lemma StrayStrands(w: World, id: Id)
    requires !Idle(ViewOf(w), id)
    ensures !Held(ViewOf(Next(w, Stray(id))))
  {
    var v, v' := ViewOf(w), ViewOf(Next(w, Stray(id)));
    var p :| p in InPlay(v) && p.id == id;
    assert p in InPlay(v') && id !in v'.vault;
  }

  /** Over a whole run: vault and prekeys in play stay in step for good exactly when
      no stray opener ever names the id of a prekey then in play. */
  lemma InStepExactlyWhen(ws: seq<World>, actions: seq<Action>)
    requires IsRun(ws, actions)
    ensures (forall i | 0 <= i < |ws| :: Held(ViewOf(ws[i]))) <==> HarmlessUpTo(ws, actions, |actions|)
  {
    hide Possible, Next, Held, ViewOf;
    if HarmlessUpTo(ws, actions, |actions|) {
      forall i | 0 <= i < |ws| ensures Held(ViewOf(ws[i])) {
        RunKeepsInv(ws, actions, i);
      }
    } else {
      var k :| 0 <= k < |actions| && !Harmless(ws[k], actions[k]);
      StrayStrands(ws[k], actions[k].id);
      assert ws[k + 1] == Next(ws[k], actions[k]);
    }
  }

  /** So the handshake of every handed-out prekey completes: what the owner takes
      for the opener's id is the key the peer used. */
  lemma OpenerAgrees(ws: seq<World>, actions: seq<Action>, i: nat, p: Prekey,
                     us: Identity, them: Identity, signedId: nat, signedPrekey: nat, ephemeral: nat)
    requires IsRun(ws, actions) && i < |actions| && actions[i] == Answer(p) && HarmlessUpTo(ws, actions, i)
    ensures p.id in ws[i].vault && ws[i + 1].taken == ws[i].taken + [p.key] && p.id !in ws[i + 1].vault
    ensures var start := Initiate(us, Publish(them, signedId, signedPrekey, Some((p.id, p.key))), ephemeral);
      && start.Initiated?
      && var reply := Respond(them, signedPrekey, Some(ws[i].vault[p.id]), start.header);
         reply.Responded? && reply.agreement == start.agreement
  {
    hide Publish, Initiate, Respond;
    PrekeysStayInStep(ws, actions, i);
    AgreeExactlyWhen(us, them, signedId, signedPrekey, Some((p.id, p.key)), ephemeral, signedPrekey, Some(p.key));
  }
}
