/**
 Ids come round: replenishing counts on from the highest id still held, so an old
 opener sent again can name a newer prekey.  When that does harm, told by events
 and by what the owner sees; and a run in which it does.
 */
module PrekeyRepeats {
  import opened Wrappers
  import opened Prekeys
  import opened PrekeyRun

  // ----- where prekeys in play come from

  /** The prekeys a step mints. */
  function MintedBy(w: World, a: Action): seq<Prekey> {
    if a.Replenish? && a.remaining <= PREKEY_LOW_WATER
    then Minted(a.highest, w.next, PREKEY_TARGET - a.remaining) else []
  }

  /** Nothing comes into play except by being minted, under a key not used before. */
  lemma StepMints(w: World, a: Action, q: Prekey)
    requires Possible(w, a) && q in InPlay(ViewOf(Next(w, a)))
    ensures q in InPlay(ViewOf(w)) || (q in MintedBy(w, a) && q.key >= w.next)
    ensures w.next <= Next(w, a).next
  {
    hide Pool, Upload, Minted, Extended, IsHighest;
    match a
    case Replenish(remaining, highest) => MintedHolds(highest, w.next, PREKEY_TARGET - remaining);
    case Serve(batch) => PoolAfterUpload(w.table, OWNER, batch, OWNER);
    case Fetch(p) => PoolAfterFetch(w.table, OWNER, p, OWNER);
    case Intrude(who, batch) => PoolAfterUpload(w.table, who, batch, OWNER);
    case FetchOther(who, id) => PoolWithout(w.table, who, id, OWNER);
    case _ =>
  }

  /** A prekey in play was in play before, or was minted since. */
  lemma {:induction false} InPlaySince(ws: seq<World>, actions: seq<Action>, i: nat, j: nat, q: Prekey)
    requires IsRun(ws, actions) && i <= j < |ws| && q in InPlay(ViewOf(ws[j]))
    ensures q in InPlay(ViewOf(ws[i])) || exists k :: i <= k < j && q in MintedBy(ws[k], actions[k])
    decreases j
  {
    if i < j {
      hide Possible, Next, InPlay, MintedBy, ViewOf;
      StepMints(ws[j - 1], actions[j - 1], q);
      if q in InPlay(ViewOf(ws[j - 1])) {
        InPlaySince(ws, actions, i, j - 1, q);
      }
    }
  }

  // ----- an opener repeated

  /** Some replenishing since step `i` minted the id, and its prekey is still in play. */
  ghost predicate ReissuedSince(ws: seq<World>, actions: seq<Action>, i: nat, j: nat, id: Id)
    requires j <= |actions| && j < |ws|
  {
    exists k, q :: i < k < j && q in MintedBy(ws[k], actions[k]) && q.id == id && q in InPlay(ViewOf(ws[j]))
  }

  lemma AnsweredIsGone(w: World, p: Prekey)
    requires Inv(w) && p in w.unanswered
    ensures p.id !in Next(w, Answer(p)).vault
  {
  }

  /** The opener of an answered prekey, sent again, does no harm exactly when no
      replenishing since has minted its id for a prekey still in play. */
  lemma RepeatHarmlessExactlyWhen(ws: seq<World>, actions: seq<Action>, i: nat, j: nat, p: Prekey)
    requires IsRun(ws, actions) && i < j < |actions| && HarmlessUpTo(ws, actions, j)
    requires actions[i] == Answer(p) && actions[j] == Stray(p.id)
    ensures Held(ViewOf(ws[j + 1])) <==> !ReissuedSince(ws, actions, i, j, p.id)
  {
    hide MintedBy, InPlay;
    RunKeepsInv(ws, actions, i);
    RunKeepsInv(ws, actions, i + 1);
    RunKeepsInv(ws, actions, j);
    AnsweredIsGone(ws[i], p);
    StrayHeldExactlyWhenIdle(ws[j], p.id);
    assert ws[i + 1] == Next(ws[i], actions[i]) && ws[j + 1] == Next(ws[j], actions[j]);
    hide Next, Possible;
    if !Idle(ViewOf(ws[j]), p.id) {
      var q :| q in InPlay(ViewOf(ws[j])) && q.id == p.id;
      InPlaySince(ws, actions, i + 1, j, q);
      assert q !in InPlay(ViewOf(ws[i + 1]));
      var k :| i + 1 <= k < j && q in MintedBy(ws[k], actions[k]);
    }
  }

  lemma StrayHeldExactlyWhenIdle(w: World, id: Id)
    requires Inv(w)
    ensures Held(ViewOf(Next(w, Stray(id)))) <==> Idle(ViewOf(w), id)
  {
    if Idle(ViewOf(w), id) {
      StepKeepsInv(w, Stray(id));
    } else {
      StrayStrands(w, id);
    }
  }

  // ----- what the owner sees

  /** Up to step `i` every upload arrived and was stored in full. */
  ghost predicate NothingLost(ws: seq<World>, actions: seq<Action>, i: nat)
    requires |ws| == |actions| + 1
  {
    forall k | 0 <= k < i && k < |actions| ::
      && !actions[k].Lose?
      && (actions[k].Serve? ==> Elements(actions[k].batch) <= Pool(ws[k + 1].table, OWNER))
  }

  /** Everything in the vault is in play. */
  ghost predicate AllInPlay(v: View) {
    forall id | id in v.vault :: Prekey(id, v.vault[id]) in InPlay(v)
  }

  lemma MintingKeepsAllInPlay(v: View, highest: nat, count: nat)
    requires AllInPlay(v) && IsHighest(v.vault, highest)
    ensures AllInPlay(v.(vault := Extended(v.vault, highest, v.next, count), next := v.next + count,
                         uploading := v.uploading + Elements(Minted(highest, v.next, count))))
  {
    hide Minted, Extended;
    ExtendedHolds(v.vault, highest, v.next, count);
    MintedHolds(highest, v.next, count);
    hide IsHighest;
    var v' := v.(vault := Extended(v.vault, highest, v.next, count), next := v.next + count,
                 uploading := v.uploading + Elements(Minted(highest, v.next, count)));
    forall id | id in v'.vault ensures Prekey(id, v'.vault[id]) in InPlay(v') {
      if id <= highest {
        assert Prekey(id, v.vault[id]) in InPlay(v);
      }
    }
  }

  /** The vault loses at most what leaves play. */
  lemma SmallerKeepsAllInPlay(v: View, v': View)
    requires AllInPlay(v)
    requires forall id | id in v'.vault :: id in v.vault && v'.vault[id] == v.vault[id]
    requires forall p | p in InPlay(v) && p.id in v'.vault :: p in InPlay(v')
    ensures AllInPlay(v')
  {
    hide InPlay;
  }

  lemma StepKeepsAllInPlay(w: World, a: Action)
    requires Possible(w, a) && AllInPlay(ViewOf(w)) && !a.Lose?
    requires a.Serve? ==> Elements(a.batch) <= Pool(Next(w, a).table, OWNER)
    ensures AllInPlay(ViewOf(Next(w, a)))
  {
    hide Pool, Upload, Minted, Extended, AllInPlay, IsHighest;
    var v, v' := ViewOf(w), ViewOf(Next(w, a));
    if a.Replenish? {
      MintingKeepsAllInPlay(v, a.highest, PREKEY_TARGET - a.remaining);
    } else {
      match a {
        case Serve(batch) => PoolAfterUpload(w.table, OWNER, batch, OWNER);
        case Fetch(p) => PoolAfterFetch(w.table, OWNER, p, OWNER);
        case Intrude(who, batch) => PoolAfterUpload(w.table, who, batch, OWNER);
        case FetchOther(who, id) => PoolWithout(w.table, who, id, OWNER);
        case _ =>
      }
      SmallerKeepsAllInPlay(v, v');
    }
  }

  lemma {:induction false} RunKeepsAllInPlay(ws: seq<World>, actions: seq<Action>, i: nat)
    requires IsRun(ws, actions) && i < |ws| && NothingLost(ws, actions, i)
    ensures AllInPlay(ViewOf(ws[i]))
  {
    if i > 0 {
      hide Next, Possible, Harmless, AllInPlay, Pool;
      RunKeepsAllInPlay(ws, actions, i - 1);
      StepKeepsAllInPlay(ws[i - 1], actions[i - 1]);
    }
  }

  /** Where no upload was lost, the owner can tell: a stray opener does no harm
      exactly when the vault has nothing under its id, and then it is refused. */
  lemma OwnerSeesHarm(ws: seq<World>, actions: seq<Action>, j: nat)
    requires IsRun(ws, actions) && j < |actions| && actions[j].Stray?
    requires HarmlessUpTo(ws, actions, j) && NothingLost(ws, actions, j)
    ensures Held(ViewOf(ws[j + 1])) <==> actions[j].id !in ws[j].vault
    ensures actions[j].id !in ws[j].vault ==> ws[j + 1] == ws[j]
  {
    RunKeepsInv(ws, actions, j);
    RunKeepsAllInPlay(ws, actions, j);
    StrayHeldExactlyWhenIdle(ws[j], actions[j].id);
    assert ws[j + 1] == Next(ws[j], actions[j]);
    hide InPlay;
  }

  // ----- a run in which it happens

  /** Each replenishing counted the vault as it was. */
  ghost predicate Honest(ws: seq<World>, actions: seq<Action>) {
    |ws| == |actions| + 1 && forall k | 0 <= k < |actions| && actions[k].Replenish? ::
        actions[k].remaining == |ws[k].vault|
  }

  ghost predicate IsStory(ws: seq<World>, actions: seq<Action>) {
    IsRun(ws, actions) && Honest(ws, actions)
  }

  ghost predicate GoesOn(ws: seq<World>, actions: seq<Action>, ws': seq<World>, actions': seq<Action>, a: Action)
    requires IsStory(ws, actions)
  {
    && IsStory(ws', actions') && |actions'| == |actions| + 1 && |ws'| == |actions'| + 1
    && ws <= ws' && actions <= actions' && actions'[|actions|] == a
    && ws'[|actions'|] == Next(ws[|actions|], a)
  }

  lemma GoOn(ws: seq<World>, actions: seq<Action>, a: Action) returns (ws': seq<World>, actions': seq<Action>)
    requires IsStory(ws, actions) && Possible(ws[|actions|], a)
        && (a.Replenish? ==> a.remaining == |ws[|actions|].vault|)
    ensures GoesOn(ws, actions, ws', actions', a)
  {
    hide Possible, Next;
    ws', actions' := ws + [Next(ws[|actions|], a)], actions + [a];
  }

  /** The first `n` prekeys of a registration are left, all of them in the pool. */
  ghost predicate Left(w: World, n: nat) {
    && w.vault == Extended(map[], 0, 0, n) && w.next == PREKEY_TARGET
    && w.uploading == {} && w.unanswered == {}
    && Pool(w.table, OWNER) == Elements(Minted(0, 0, n))
    && forall k | k in w.table :: k.0 == OWNER
  }

  /** A first replenishing, as registration does it, and its upload. */
  lemma FirstBatch(w: World, n: nat, none: nat) returns (w1: World, w2: World)
    requires w == START && n == PREKEY_TARGET && none == 0
    ensures Possible(w, Replenish(none, none)) && w1 == Next(w, Replenish(none, none)) && |w.vault| == none
    ensures Possible(w1, Serve(Minted(none, none, n))) && w2 == Next(w1, Serve(Minted(none, none, n))) && Left(w2, n)
  {
    assert Pool(w.table, OWNER) == {};
    BatchIsStored(w.table, none, none, n);
    hide Minted, Extended, Pool, Upload;
    w1 := Next(w, Replenish(none, none));
    w2 := Next(w1, Serve(Minted(none, none, n)));
  }

  lemma Begins() returns (ws: seq<World>, actions: seq<Action>)
    ensures IsStory(ws, actions) && |actions| == 0 && ws == [START]
  {
    ws, actions := [START], [];
  }

  lemma Registers(n: nat, none: nat) returns (ws: seq<World>, actions: seq<Action>)
    requires n == PREKEY_TARGET && none == 0
    ensures IsStory(ws, actions) && |actions| == 2 && |ws| == 3 && Left(ws[2], n)
  {
    hide Next, Possible, Left, Minted, IsStory;
    ws, actions := Begins();
    var w := ws[0];
    var w1, w2 := FirstBatch(w, n, none);
    ws, actions := GoOn(ws, actions, Replenish(none, none));
    ws, actions := GoOn(ws, actions, Serve(Minted(none, none, n)));
  }

  /** Every row is the owner's, with a lower id and an older key. */
  ghost predicate Below(table: Table, highest: nat, next: nat) {
    forall k | k in table :: k.0 == OWNER && k.1 <= highest && table[k] < next
  }

  lemma OneLands(table: Table, p: Prekey)
    requires p.id > 0 && Below(table, p.id - 1, p.key)
    ensures var table' := Insert(table, OWNER, p);
      Below(table', p.id, p.key + 1) && Pool(table', OWNER) == Pool(table, OWNER) + {p}
  {
    var table' := table[(OWNER, p.id) := p.key];
    assert (OWNER, p.id) in table';
    GrowsByOne(table, OWNER, p, OWNER);
  }

  /** A minted batch meets no conflict in a table that has none of its ids and keys. */
  lemma {:induction false} BatchLands(table: Table, highest: nat, next: nat, count: nat)
    requires Below(table, highest, next)
    ensures var ps := Minted(highest, next, count);
      var table' := InsertAll(table, OWNER, ps);
      && Pool(table', OWNER) == Pool(table, OWNER) + Elements(ps)
      && Below(table', highest + count, next + count)
  {
    var ps := Minted(highest, next, count);
    hide Pool, Below, Insert;
    if count == 0 {
      assert Elements(ps) == {};
    } else {
      BatchLands(table, highest, next, count - 1);
      var front, p := Minted(highest, next, count - 1), Prekey(highest + count, next + count - 1);
      assert ps[..|ps| - 1] == front && ps[|ps| - 1] == p;
      OneLands(InsertAll(table, OWNER, front), p);
      assert Elements(ps) == Elements(front) + {p};
    }
  }

  lemma {:induction false} BatchIsStored(table: Table, highest: nat, next: nat, count: nat)
    requires Below(table, highest, next) && |Pool(table, OWNER)| + count <= MAX_STORED
    ensures var ps := Minted(highest, next, count);
      var table' := Upload(table, OWNER, ps);
      Pool(table', OWNER) == Pool(table, OWNER) + Elements(ps) && Below(table', highest + count, next + count)
  {
    MintedSize(highest, next, count);
    hide Pool, Below, InsertAll, Minted;
    BatchLands(table, highest, next, count);
  }

  lemma LastMinted(n: nat)
    requires n > 0
    ensures var p := Prekey(n, n - 1);
      p in Elements(Minted(0, 0, n)) && Elements(Minted(0, 0, n)) - {p} == Elements(Minted(0, 0, n - 1))
  {
    MintedHolds(0, 0, n);
    MintedHolds(0, 0, n - 1);
    hide Minted;
  }

  lemma LastHeld(n: nat)
    requires n > 0
    ensures var vault := Extended(map[], 0, 0, n);
      n in vault && vault[n] == n - 1 && vault - {n} == Extended(map[], 0, 0, n - 1)
  {
    assert IsHighest(map[], 0);
    ExtendedHolds(map[], 0, 0, n - 1);
    var before := Extended(map[], 0, 0, n - 1);
    assert n !in before && before[n := n - 1] - {n} == before;
  }

  /** The last of them is handed out and answered. */
  lemma OneIsAnswered(w: World, n: nat)
    requires 0 < n <= PREKEY_TARGET && Left(w, n)
    ensures var p := Prekey(n, n - 1);
      var w1 := Next(w, Fetch(p));
      && Possible(w, Fetch(p)) && Possible(w1, Answer(p)) && Left(Next(w1, Answer(p)), n - 1)
  {
    hide Minted, Extended, Pool, Elements;
    var p := Prekey(n, n - 1);
    LastMinted(n);
    LastHeld(n);
    PoolAfterFetch(w.table, OWNER, p, OWNER);
  }

  lemma {:induction false} RunsDown(n: nat) returns (ws: seq<World>, actions: seq<Action>)
    requires n <= PREKEY_TARGET
    ensures IsStory(ws, actions) && Left(ws[|actions|], n)
    ensures n < PREKEY_TARGET ==> |actions| > 3 && actions[3] == Answer(Prekey(PREKEY_TARGET, PREKEY_TARGET - 1))
    ensures n == PREKEY_TARGET ==> |actions| == 2
    decreases PREKEY_TARGET - n
  {
    if n == PREKEY_TARGET {
      ws, actions := Registers(n, 0);
    } else {
      ws, actions := RunsDown(n + 1);
      hide Left, IsStory, Next, Possible;
      var w, p := ws[|actions|], Prekey(n + 1, n);
      OneIsAnswered(w, n + 1);
      ws, actions := GoOn(ws, actions, Fetch(p));
      ws, actions := GoOn(ws, actions, Answer(p));
    }
  }

  /** Fifty prekeys, forty answered from the top, a replenishing that counts on from
      ten: id 50 is minted again, served and handed out, and the old opener of id
      50, sent again, takes the new key.  The peer it was handed to is stranded. */
  lemma RepeatStrandsNewerPrekey() returns (ws: seq<World>, actions: seq<Action>, j: nat)
    ensures IsStory(ws, actions) && 3 < j < |actions|
    ensures actions[3] == Answer(Prekey(50, 49)) && actions[j] == Stray(50)
    ensures Prekey(50, 89) in ws[j].unanswered && 50 in ws[j].vault && ws[j].vault[50] == 89
    ensures Prekey(50, 89) in ws[j + 1].unanswered && 50 !in ws[j + 1].vault && 89 in ws[j + 1].wasted
  {
    ws, actions := RunsDown(10);
    var w := ws[|actions|];
    var p, ps := Prekey(50, 89), Minted(10, 50, 40);
    var w1, w2, w3 := Reissues(w, p, ps);
    hide Next, Possible, Left, IsStory, Minted;
    ws, actions := GoOn(ws, actions, Replenish(10, 10));
    ws, actions := GoOn(ws, actions, Serve(ps));
    ws, actions := GoOn(ws, actions, Fetch(p));
    j := |actions|;
    ws, actions := GoOn(ws, actions, Stray(50));
  }

  lemma Reissues(w: World, p: Prekey, ps: seq<Prekey>) returns (w1: World, w2: World, w3: World)
    requires Left(w, 10) && p == Prekey(50, 89) && ps == Minted(10, 50, 40)
    ensures Possible(w, Replenish(10, 10)) && |w.vault| == 10 && w1 == Next(w, Replenish(10, 10))
    ensures Possible(w1, Serve(ps)) && w2 == Next(w1, Serve(ps))
    ensures Possible(w2, Fetch(p)) && w3 == Next(w2, Fetch(p)) && Possible(w3, Stray(50))
    ensures p in w3.unanswered && 50 in w3.vault && w3.vault[50] == 89
    ensures var w4 := Next(w3, Stray(50)); p in w4.unanswered && 50 !in w4.vault && 89 in w4.wasted
  {
    assert IsHighest(map[], 0);
    ExtendedHolds(map[], 0, 0, 10);
    ExtendedSize(map[], 0, 0, 10);
    ExtendedHolds(w.vault, 10, 50, 40);
    MintedHolds(0, 0, 10);
    MintedHolds(10, 50, 40);
    forall k | k in w.table ensures k.1 <= 10 && w.table[k] < 50 {
      assert Prekey(k.1, w.table[k]) in Pool(w.table, OWNER);
    }
    TenAreLeft(w);
    BatchIsStored(w.table, 10, 50, 40);
    hide Minted, Extended, Upload, InsertAll;
    w1 := Next(w, Replenish(10, 10));
    w2 := Next(w1, Serve(ps));
    w3 := Next(w2, Fetch(p));
  }

  lemma TenAreLeft(w: World)
    requires Left(w, 10)
    ensures |Pool(w.table, OWNER)| <= 10
  {
    MintedSize(0, 0, 10);
    FewElements(Minted(0, 0, 10));
  }

  lemma {:induction false} FewElements(ps: seq<Prekey>)
    ensures |Elements(ps)| <= |ps|
  {
    if ps != [] {
      var front, p := ps[..|ps| - 1], ps[|ps| - 1];
      FewElements(front);
      assert Elements(ps) == Elements(front) + {p};
    }
  }
}
