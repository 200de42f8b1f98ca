/**
 Many replicas of one group: each authors changes against its own clock, and
 changes travel in any order, late, or twice.
 */
module GroupRun {
  import opened Wrappers
  import opened Group
  import opened GroupMerge
  import opened GroupAuthoring

  /** Each account's replica is the base and the changes it has applied, in its
      own order; `sent` is everything ever authored. */
  datatype Net = Net(base: GroupState, logs: map<Account, seq<Change>>, sent: set<Change>)

  datatype Action =
    | AuthorUpdate(who: Account, now: int, at: int, update: Update)
    | Receive(who: Account, change: Change)

  function Replica(n: Net, who: Account): GroupState
    requires who in n.logs
  {
    ApplyAll(n.base, n.logs[who])
  }

  /** A clock can read anything; the stamp is the one the state and clock give. */
  ghost predicate Possible(n: Net, a: Action) {
    && a.who in n.logs
    && match a
       case AuthorUpdate(who, now, at, _) => IsNextStamp(Replica(n, who), now, at)
       case Receive(_, c) => c in n.sent
  }

  function Next(n: Net, a: Action): Net
    requires a.who in n.logs
  {
    match a
    case AuthorUpdate(who, _, at, u) =>
      var changes := ChangesOf(u, at, who);
      Net(n.base, n.logs[who := n.logs[who] + changes], n.sent + set i | 0 <= i < |changes| :: changes[i])
    case Receive(who, c) => n.(logs := n.logs[who := n.logs[who] + [c]])
  }

  ghost predicate IsRun(nets: seq<Net>, actions: seq<Action>) {
    && |nets| == |actions| + 1
    && nets[0].sent == {} && (forall who | who in nets[0].logs :: nets[0].logs[who] == [])
    && forall i | 0 <= i < |actions| :: Possible(nets[i], actions[i]) && nets[i + 1] == Next(nets[i], actions[i])
  }

  // ----- a replica never forgets how late it is

  /** No bound on the state's times is below `t`. */
  ghost predicate Covers(g: GroupState, t: int) {
    forall u | UpTo(g, u) :: t <= u
  }

  lemma ApplyCovers(g: GroupState, c: Change)
    ensures Covers(Apply(g, c), c.at)
    ensures forall t | Covers(g, t) :: Covers(Apply(g, c), t)
  {
    var g' := Apply(g, c);
    forall u | UpTo(g', u) ensures UpTo(g, u) && c.at <= u {
      if c.Membership? {
        assert g'.members[c.account].addedAt <= u && g'.members[c.account].removedAt <= u;
        forall a | a in g.members ensures g.members[a].addedAt <= u && g.members[a].removedAt <= u {
          assert g'.members[a].addedAt <= u && g'.members[a].removedAt <= u;
        }
      }
    }
  }

  lemma {:induction false} ApplyAllCovers(g: GroupState, changes: seq<Change>, c: Change)
    requires c in changes
    ensures Covers(ApplyAll(g, changes), c.at)
  {
    var last := |changes| - 1;
    var before := ApplyAll(g, changes[..last]);
    ApplyCovers(before, changes[last]);
    if c != changes[last] {
      assert changes == changes[..last] + [changes[last]];
      ApplyAllCovers(g, changes[..last], c);
    }
  }

  /** A change is stamped later than everything its author has applied. */
  lemma StampIsLater(n: Net, a: Action, c: Change)
    requires Possible(n, a) && a.AuthorUpdate? && c in n.logs[a.who]
    ensures c.at < a.at
  {
    ApplyAllCovers(n.base, n.logs[a.who], c);
  }

  // ----- what every run keeps

  ghost predicate Inv(n: Net) {
    && (forall c | c in n.sent :: c.author in n.logs && c in n.logs[c.author])
    && (forall who, c | who in n.logs && c in n.logs[who] :: c in n.sent)
    && (forall c, d | c in n.sent && d in n.sent && c.Rename? && d.Rename? ::
          c.at == d.at && c.author == d.author ==> c.name == d.name)
  }

  lemma AuthorKeepsInv(n: Net, a: Action)
    requires Inv(n) && Possible(n, a) && a.AuthorUpdate?
    ensures Inv(Next(n, a))
  {
    var n' := Next(n, a);
    var changes := ChangesOf(a.update, a.at, a.who);
    forall c | c in changes ensures c.author == a.who && c.at == a.at && (c.Rename? ==> a.update.name == Some(c.name)) {
      ChangesList(a.update, a.at, a.who, c);
    }
    forall c | c in n.sent && c.author == a.who ensures c.at < a.at {
      StampIsLater(n, a, c);
    }
    forall c | c in n'.sent ensures c in n.sent || c in changes {
    }
  }

  lemma StepKeepsInv(n: Net, a: Action)
    requires Inv(n) && Possible(n, a)
    ensures Inv(Next(n, a))
  {
    if a.AuthorUpdate? {
      AuthorKeepsInv(n, a);
    }
  }

  lemma {:induction false} RunKeepsInv(nets: seq<Net>, actions: seq<Action>, i: nat)
    requires IsRun(nets, actions) && i < |nets|
    ensures Inv(nets[i])
  {
    hide Inv;
    if i == 0 {
      StartIsInv(nets[0]);
    } else {
      RunKeepsInv(nets, actions, i - 1);
      StepKeepsInv(nets[i - 1], actions[i - 1]);
    }
  }

  lemma StartIsInv(n: Net)
    requires n.sent == {} && forall who | who in n.logs :: n.logs[who] == []
    ensures Inv(n)
  {
  }

  lemma {:induction false} LogsGrow(nets: seq<Net>, actions: seq<Action>, i: nat, j: nat, who: Account)
    requires IsRun(nets, actions) && i <= j < |nets| && who in nets[i].logs
    ensures who in nets[j].logs && nets[i].logs[who] <= nets[j].logs[who]
    ensures nets[j].base == nets[i].base
    decreases j
  {
    if i < j {
      LogsGrow(nets, actions, i, j - 1, who);
      assert nets[j] == Next(nets[j - 1], actions[j - 1]);
    }
  }

  /** Over the whole run and for any clocks: an update is stamped strictly after
      every change its author applied before, its own and others'. */
  lemma AuthoredAfterAllSeen(nets: seq<Net>, actions: seq<Action>, i: nat, j: nat, c: Change)
    requires IsRun(nets, actions) && i <= j < |actions| && actions[j].AuthorUpdate?
    requires actions[j].who in nets[i].logs && c in nets[i].logs[actions[j].who]
    ensures c.at < actions[j].at
  {
    LogsGrow(nets, actions, i, j, actions[j].who);
    StampIsLater(nets[j], actions[j], c);
  }

  /** In every run, replicas that have applied the same changes are in the same
      state; the stamps authored in a run never tie with different names. */
  lemma ReplicasConverge(nets: seq<Net>, actions: seq<Action>, i: nat, who: Account, other: Account)
    requires IsRun(nets, actions) && i < |nets| && who in nets[i].logs && other in nets[i].logs
    requires SameChanges(nets[i].logs[who], nets[i].logs[other])
    ensures Replica(nets[i], who) == Replica(nets[i], other)
  {
    RunKeepsInv(nets, actions, i);
    var xs, ys := nets[i].logs[who], nets[i].logs[other];
    assert StampsDecideNames(xs);
    StampsSettleNames(nets[i].base, xs, xs);
    Converge(nets[i].base, xs, ys);
  }

  /** Exchanging and merging views brings any two replicas of a run to what each
      would hold had it applied the other's changes. */
  lemma ReplicasMerge(nets: seq<Net>, actions: seq<Action>, i: nat, who: Account, other: Account)
    requires IsRun(nets, actions) && i < |nets| && who in nets[i].logs && other in nets[i].logs
    ensures Agrees(Merge(Replica(nets[i], who), Replica(nets[i], other)),
                   ApplyAll(nets[i].base, nets[i].logs[who] + nets[i].logs[other]))
    ensures Agrees(Merge(Replica(nets[i], who), Replica(nets[i], other)),
                   Merge(Replica(nets[i], other), Replica(nets[i], who)))
  {
    RunKeepsInv(nets, actions, i);
    var xs, ys := nets[i].logs[who], nets[i].logs[other];
    assert StampsDecideNames(xs + ys);
    StampsSettleNames(nets[i].base, xs + ys, xs + ys);
    MergeIsReplay(nets[i].base, xs, ys);
    MergeIsReplay(nets[i].base, ys, xs);
    Converge(nets[i].base, xs + ys, ys + xs);
  }

  /** In every run of a created group each update takes effect on its author's
      replica: exactly the members it leaves, and the name it gives. */
  lemma UpdatesTakeEffect(nets: seq<Net>, actions: seq<Action>, i: nat)
    requires IsRun(nets, actions) && i < |actions| && actions[i].AuthorUpdate? && Founded(nets[0].base)
    ensures var who, u := actions[i].who, actions[i].update;
      && who in nets[i].logs && who in nets[i + 1].logs
      && CurrentMembers(Replica(nets[i + 1], who)) == Updated(CurrentMembers(Replica(nets[i], who)), u)
      && (u.name.Some? ==> Replica(nets[i + 1], who).name == u.name.value)
  {
    var a := actions[i];
    BaseStays(nets, actions, i);
    assert Possible(nets[i], a) && nets[i + 1] == Next(nets[i], a);
    ChangesKeepFounded(nets[i].base, nets[i].logs[a.who]);
    UpdateTakesEffect(Replica(nets[i], a.who), a.update, a.now, a.at, a.who);
    ApplyAllAppends(nets[i].base, nets[i].logs[a.who], ChangesOf(a.update, a.at, a.who));
  }

  /** Merging in another view undoes nothing of that either. */
  lemma MergeKeepsFounded(l: GroupState, r: GroupState)
    requires Founded(l)
    ensures Founded(Merge(l, r))
  {
    var a :| a in l.members && l.members[a].removedAt >= 0;
    assert a in Merge(l, r).members && Merge(l, r).members[a].removedAt >= 0;
  }

  lemma {:induction false} BaseStays(nets: seq<Net>, actions: seq<Action>, i: nat)
    requires IsRun(nets, actions) && i < |nets|
    ensures nets[i].base == nets[0].base
  {
    if i > 0 {
      BaseStays(nets, actions, i - 1);
      assert nets[i] == Next(nets[i - 1], actions[i - 1]);
    }
  }
}
