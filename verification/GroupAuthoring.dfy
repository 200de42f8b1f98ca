/**
 Stamping changes one past everything seen, and what a stamped change does, over
 arbitrary device clocks.
 */
module GroupAuthoring {
  import opened Wrappers
  import opened Group

  /** Every time in the state is at most `t`. */
  predicate UpTo(g: GroupState, t: int) {
    && g.nameUpdatedAt <= t && g.createdAt <= t
    && forall a | a in g.members :: g.members[a].addedAt <= t && g.members[a].removedAt <= t
  }

  /** Some time in the state is exactly `t`. */
  predicate Occurs(g: GroupState, t: int) {
    || t == g.nameUpdatedAt || t == g.createdAt
    || exists a :: a in g.members && (t == g.members[a].addedAt || t == g.members[a].removedAt)
  }

  method LatestTimestamp(g: GroupState) returns (latest: int)
    ensures UpTo(g, latest) && Occurs(g, latest)
  {
    latest := Max(g.nameUpdatedAt, g.createdAt);
    var left := g.members.Keys;
    while left != {}
      invariant left <= g.members.Keys
      invariant g.nameUpdatedAt <= latest && g.createdAt <= latest && Occurs(g, latest)
      invariant forall a | a in g.members && a !in left ::
          g.members[a].addedAt <= latest && g.members[a].removedAt <= latest
      decreases left
    {
      var a :| a in left;
      latest := Max(Max(latest, g.members[a].addedAt), g.members[a].removedAt);
      left := left - {a};
    }
  }

  /** The stamp of a change: the clock, or one past the newest time seen. */
  ghost predicate IsNextStamp(g: GroupState, now: int, at: int) {
    UpTo(g, at - 1) && now <= at && (at == now || Occurs(g, at - 1))
  }

  method NextTimestamp(g: GroupState, now: int) returns (at: int)
    ensures IsNextStamp(g, now, at)
  {
    var latest := LatestTimestamp(g);
    at := Max(now, latest + 1);
  }

  /** A clock and a state have one next stamp. */
  lemma NextStampIsUnique(g: GroupState, now: int, at: int, at': int)
    requires IsNextStamp(g, now, at) && IsNextStamp(g, now, at')
    ensures at == at'
  {
  }

  // ----- creating a group

  /** Some record was never removed before time 0, as its creator's is at first. */
  ghost predicate Founded(g: GroupState) {
    exists a :: a in g.members && g.members[a].removedAt >= 0
  }

  /** No change undoes that. */
  lemma {:induction false} ChangesKeepFounded(g: GroupState, changes: seq<Change>)
    requires Founded(g)
    ensures Founded(ApplyAll(g, changes))
  {
    if changes != [] {
      ChangesKeepFounded(g, changes[..|changes| - 1]);
      var before := ApplyAll(g, changes[..|changes| - 1]);
      var a :| a in before.members && before.members[a].removedAt >= 0;
      var after := Apply(before, changes[|changes| - 1]);
      assert a in after.members && after.members[a].removedAt >= 0;
    }
  }

  /** So every stamp given in such a group is positive. */
  lemma StampsArePositive(g: GroupState, now: int, at: int)
    requires Founded(g) && IsNextStamp(g, now, at)
    ensures at > 0
  {
    var a :| a in g.members && g.members[a].removedAt >= 0;
  }

  datatype Creation = Created(state: GroupState) | IdRequired

  method CreateGroup(id: string, name: string, createdBy: Account, members: seq<Account>, at: int) returns (r: Creation)
    ensures id == "" <==> r.IdRequired?
    ensures r.Created? ==>
      && r.state == GroupState(id, name, at, Some(createdBy), createdBy, at, r.state.members)
      && (forall a :: a in r.state.members <==> a == createdBy || a in members)
      && (forall a | a in r.state.members :: r.state.members[a] == Member(at, 0, Some(createdBy), None))
      && (forall a :: IsMember(r.state, a) <==> (a == createdBy || a in members) && at > 0)
      && Founded(r.state)
  {
    if id == "" {
      return IdRequired;
    }
    var record := Member(at, 0, Some(createdBy), None);
    var built: map<Account, Member> := map[createdBy := record];
    var i := 0;
    while i < |members|
      invariant 0 <= i <= |members|
      invariant forall a :: a in built <==> a == createdBy || a in members[..i]
      invariant forall a | a in built :: built[a] == record
    {
      built := built[members[i] := record];
      i := i + 1;
    }
    assert members[..i] == members;
    r := Created(GroupState(id, name, at, Some(createdBy), createdBy, at, built));
    assert createdBy in r.state.members;
  }

  // ----- updating a group

  datatype Update = Update(name: Option<string>, add: seq<Account>, remove: seq<Account>)

  function Adding(accounts: seq<Account>, added: bool, at: int, author: Account): seq<Change> {
    if accounts == [] then []
    else
      var last := |accounts| - 1;
      Adding(accounts[..last], added, at, author) + [Membership(accounts[last], added, at, author)]
  }

  /** The changes an update stands for, in the order they are applied. */
  function ChangesOf(u: Update, at: int, author: Account): seq<Change> {
    Adding(u.add, true, at, author) + Adding(u.remove, false, at, author)
      + if u.name.Some? then [Rename(u.name.value, at, author)] else []
  }

  lemma {:induction false} ApplyAllAppends(g: GroupState, xs: seq<Change>, ys: seq<Change>)
    ensures ApplyAll(g, xs + ys) == ApplyAll(ApplyAll(g, xs), ys)
  {
    if ys == [] {
      assert xs + ys == xs;
    } else {
      var last := |ys| - 1;
      ApplyAllAppends(g, xs, ys[..last]);
      assert (xs + ys)[..|xs + ys| - 1] == xs + ys[..last];
    }
  }

  method ApplyEach(g: GroupState, accounts: seq<Account>, added: bool, at: int, author: Account) returns (r: GroupState)
    ensures r == ApplyAll(g, Adding(accounts, added, at, author))
  {
    r := g;
    var i := 0;
    while i < |accounts|
      invariant 0 <= i <= |accounts|
      invariant r == ApplyAll(g, Adding(accounts[..i], added, at, author))
    {
      assert accounts[..i + 1][..i] == accounts[..i];
      var so := Adding(accounts[..i], added, at, author);
      assert (so + [Membership(accounts[i], added, at, author)])[..|so|] == so;
      r := ApplyMembershipChange(r, accounts[i], added, at, author);
      i := i + 1;
    }
    assert accounts[..i] == accounts;
  }

  /** Stamps the update past everything seen and applies it. */
  method UpdateGroup(g: GroupState, u: Update, now: int, author: Account) returns (r: GroupState, at: int)
    ensures IsNextStamp(g, now, at)
    ensures r == ApplyAll(g, ChangesOf(u, at, author))
  {
    at := NextTimestamp(g, now);
    r := ApplyEach(g, u.add, true, at, author);
    r := ApplyEach(r, u.remove, false, at, author);
    var adds, removes := Adding(u.add, true, at, author), Adding(u.remove, false, at, author);
    ApplyAllAppends(g, adds, removes);
    if u.name.Some? {
      var renaming := [Rename(u.name.value, at, author)];
      ApplyAllAppends(g, adds + removes, renaming);
      assert renaming[..0] == [];
      r := ApplyRename(r, u.name.value, at, author);
    } else {
      assert adds + removes + [] == adds + removes;
    }
  }

  // ----- what an update does

  lemma {:induction false} AddingLists(accounts: seq<Account>, added: bool, at: int, author: Account, c: Change)
    ensures c in Adding(accounts, added, at, author) <==>
      c.Membership? && c.account in accounts && c == Membership(c.account, added, at, author)
  {
    if accounts != [] {
      var last := |accounts| - 1;
      AddingLists(accounts[..last], added, at, author, c);
      assert accounts == accounts[..last] + [accounts[last]];
    }
  }

  lemma ChangesList(u: Update, at: int, author: Account, c: Change)
    ensures c in ChangesOf(u, at, author) <==>
      || (c.Membership? && c.added && c.account in u.add && c == Membership(c.account, true, at, author))
      || (c.Membership? && !c.added && c.account in u.remove && c == Membership(c.account, false, at, author))
      || (c.Rename? && u.name == Some(c.name) && c == Rename(c.name, at, author))
  {
    AddingLists(u.add, true, at, author, c);
    AddingLists(u.remove, false, at, author, c);
  }

  /** The register a stamped update writes to ends at its stamp, and every other
      register keeps what it had. */
  lemma {:induction false} UpdateWrites(g: GroupState, u: Update, at: int, author: Account, r: Register)
    requires Read(g, r).at < at
    ensures var written := match r
        case Added(a) => a in u.add
        case Removed(a) => a in u.remove
        case Naming => u.name.Some?;
      Read(ApplyAll(g, ChangesOf(u, at, author)), r) == if written then Stamp(at, Some(author)) else Read(g, r)
  {
    var changes := ChangesOf(u, at, author);
    ApplyAllIsLatest(g, changes, r);
    var c := match r
      case Added(a) => Membership(a, true, at, author)
      case Removed(a) => Membership(a, false, at, author)
      case Naming => Rename(if u.name.Some? then u.name.value else "", at, author);
    ChangesList(u, at, author, c);
    forall d | d in changes && Writes(d, r) ensures d == c {
      ChangesList(u, at, author, d);
    }
    LessIsTotal(author, author);
  }

  /** What an update does to one account in any state, even one no group can reach. */
  lemma UpdateEffect(g: GroupState, u: Update, now: int, at: int, author: Account, a: Account)
    requires IsNextStamp(g, now, at)
    ensures var g' := ApplyAll(g, ChangesOf(u, at, author));
      && (a in u.remove ==> !IsMember(g', a))
      && (a in u.add && a !in u.remove ==> (IsMember(g', a) <==> a in g.members || at > 0))
      && (a !in u.add && a !in u.remove ==> (IsMember(g', a) <==> IsMember(g, a)))
  {
    if a in g.members {
      UpdateWrites(g, u, at, author, Added(a));
      UpdateWrites(g, u, at, author, Removed(a));
      ApplyAllKeys(g, ChangesOf(u, at, author), a);
    } else {
      UpdateNewcomer(g, u, at, author, a);
    }
  }

  /** Exactly the members an update leaves: the old and the added, less the removed. */
  function Updated(members: set<Account>, u: Update): set<Account> {
    members + (set a | a in u.add) - (set a | a in u.remove)
  }

  /** After an update of a group begun by `CreateGroup`, for any clock: the removed
      are out, the added and not removed are in, everyone else keeps their
      membership, and a supplied name is in force. */
  lemma UpdateTakesEffect(g: GroupState, u: Update, now: int, at: int, author: Account)
    requires Founded(g) && IsNextStamp(g, now, at)
    ensures var g' := ApplyAll(g, ChangesOf(u, at, author));
      && CurrentMembers(g') == Updated(CurrentMembers(g), u)
      && g'.name == (if u.name.Some? then u.name.value else g.name)
      && Founded(g')
  {
    StampsArePositive(g, now, at);
    UpdateName(g, u, at, author);
    ChangesKeepFounded(g, ChangesOf(u, at, author));
    var g' := ApplyAll(g, ChangesOf(u, at, author));
    hide ApplyAll, ChangesOf, IsNextStamp, Founded;
    forall a ensures a in CurrentMembers(g') <==> a in Updated(CurrentMembers(g), u) {
      UpdateEffect(g, u, now, at, author, a);
    }
  }

  lemma {:induction false} UpdateName(g: GroupState, u: Update, at: int, author: Account)
    requires g.nameUpdatedAt < at
    ensures ApplyAll(g, ChangesOf(u, at, author)).name == if u.name.Some? then u.name.value else g.name
  {
    var changes := ChangesOf(u, at, author);
    UpdateWrites(g, u, at, author, Naming);
    NameComesWithStamp(g, changes);
    var g' := ApplyAll(g, changes);
    if u.name.Some? {
      var c :| c in changes && c.Rename? && IsWriteOf(c, Read(g, Naming), Read(g', Naming)) && g'.name == c.name;
      ChangesList(u, at, author, c);
    } else {
      WriteIsNotBase(g, changes);
    }
  }

  /** An account the group has never seen: its times start at 0. */
  lemma UpdateNewcomer(g: GroupState, u: Update, at: int, author: Account, a: Account)
    requires a !in g.members
    ensures var g' := ApplyAll(g, ChangesOf(u, at, author));
      && (a in u.remove ==> !IsMember(g', a))
      && (a in u.add && a !in u.remove ==> (IsMember(g', a) <==> at > 0))
      && (a !in u.add && a !in u.remove ==> !IsMember(g', a))
  {
    var changes := ChangesOf(u, at, author);
    var g' := ApplyAll(g, changes);
    ApplyAllKeys(g, changes, a);
    forall c | c in changes ensures c.at == at && c.author == author {
      ChangesList(u, at, author, c);
    }
    ChangesList(u, at, author, Membership(a, true, at, author));
    ChangesList(u, at, author, Membership(a, false, at, author));
    ApplyAllIsLatest(g, changes, Added(a));
    ApplyAllIsLatest(g, changes, Removed(a));
    forall c | c in changes && Writes(c, Added(a)) ensures c == Membership(a, true, at, author) {
      ChangesList(u, at, author, c);
    }
    forall c | c in changes && Writes(c, Removed(a)) ensures c == Membership(a, false, at, author) {
      ChangesList(u, at, author, c);
    }
  }
}
