/**
 Group membership as a last-writer-wins element set: every member reaches the
 same state from the same changes, whatever order they arrive in.
 */
module Group {
  import opened Wrappers

  type Account = string

  datatype Member = Member(addedAt: int, removedAt: int, addedBy: Option<Account>, removedBy: Option<Account>)

  const NEVER := Member(0, 0, None, None)

  datatype GroupState = GroupState(
    id: string,
    name: string,
    nameUpdatedAt: int,
    nameUpdatedBy: Option<Account>,
    createdBy: Account,
    createdAt: int,
    members: map<Account, Member>)

  datatype Change =
    | Membership(account: Account, added: bool, at: int, author: Account)
    | Rename(name: string, at: int, author: Account)

  // ----- stamps

  function Max(a: int, b: int): int {
    if a >= b then a else b
  }

  /** The order of strings, character by character. */
  predicate Less(a: string, b: string) {
    b != [] && (a == [] || a[0] < b[0] || (a[0] == b[0] && Less(a[1..], b[1..])))
  }

  function Author(author: Option<Account>): Account {
    if author.Some? then author.value else ""
  }

  predicate Wins(at: int, author: Account, currentAt: int, currentAuthor: Option<Account>) {
    if at != currentAt then at > currentAt else Less(Author(currentAuthor), author)
  }

  /** A last-writer-wins register: when it was last written and by whom. */
  datatype Stamp = Stamp(at: int, author: Option<Account>)

  predicate Beats(at: int, author: Account, s: Stamp) {
    Wins(at, author, s.at, s.author)
  }

  // ----- applying changes

  function Touch(s: Stamp, at: int, author: Account): Stamp {
    if Beats(at, author, s) then Stamp(at, Some(author)) else s
  }

  function RecordOf(g: GroupState, a: Account): Member {
    if a in g.members then g.members[a] else NEVER
  }

  function ApplyMembershipChange(g: GroupState, a: Account, added: bool, at: int, author: Account): GroupState {
    var existing := RecordOf(g, a);
    var updated :=
      if added then
        if Wins(at, author, existing.addedAt, existing.addedBy)
        then existing.(addedAt := at, addedBy := Some(author)) else existing
      else
        if Wins(at, author, existing.removedAt, existing.removedBy)
        then existing.(removedAt := at, removedBy := Some(author)) else existing;
    g.(members := g.members[a := updated])
  }

  function ApplyRename(g: GroupState, name: string, at: int, author: Account): GroupState {
    if !Wins(at, author, g.nameUpdatedAt, g.nameUpdatedBy) then g
    else g.(name := name, nameUpdatedAt := at, nameUpdatedBy := Some(author))
  }

  function Apply(g: GroupState, c: Change): GroupState {
    match c
    case Membership(a, added, at, author) => ApplyMembershipChange(g, a, added, at, author)
    case Rename(name, at, author) => ApplyRename(g, name, at, author)
  }

  function ApplyAll(g: GroupState, changes: seq<Change>): GroupState {
    if changes == [] then g else Apply(ApplyAll(g, changes[..|changes| - 1]), changes[|changes| - 1])
  }

  predicate IsMember(g: GroupState, a: Account) {
    a in g.members && g.members[a].addedAt > g.members[a].removedAt
  }

  /** The accounts in the group; their order is that of their names. */
  function CurrentMembers(g: GroupState): set<Account> {
    set a | a in g.members && IsMember(g, a)
  }

  // ----- the registers of a group

  /** Which register a change writes to. */
  datatype Register = Added(account: Account) | Removed(account: Account) | Naming

  predicate Writes(c: Change, r: Register) {
    match r
    case Added(a) => c.Membership? && c.account == a && c.added
    case Removed(a) => c.Membership? && c.account == a && !c.added
    case Naming => c.Rename?
  }

  function Read(g: GroupState, r: Register): Stamp {
    match r
    case Added(a) => Stamp(RecordOf(g, a).addedAt, RecordOf(g, a).addedBy)
    case Removed(a) => Stamp(RecordOf(g, a).removedAt, RecordOf(g, a).removedBy)
    case Naming => Stamp(g.nameUpdatedAt, g.nameUpdatedBy)
  }

  // ----- the order of stamps

  /** At the first place where they differ the smaller has the smaller character, or
      has already ended. */
  ghost predicate Precedes(a: string, b: string) {
    exists k: nat :: DifferAt(a, b, k)
  }

  ghost predicate DifferAt(a: string, b: string, k: nat) {
    k <= |a| && k < |b| && a[..k] == b[..k] && (k == |a| || a[k] < b[k])
  }

  lemma SharedStart(a: string, b: string, k: nat)
    requires a != [] && b != []
    ensures DifferAt(a, b, k) && k > 0 ==> a[0] == b[0]
  {
    if DifferAt(a, b, k) && k > 0 {
      assert a[..k][0] == b[..k][0];
    }
  }

  lemma {:induction false} LessIsLexicographic(a: string, b: string)
    ensures Less(a, b) <==> Precedes(a, b)
  {
    if a == [] || b == [] {
      assert b != [] ==> DifferAt(a, b, 0);
    } else if a[0] != b[0] {
      assert a[0] < b[0] ==> DifferAt(a, b, 0);
      forall k: nat ensures DifferAt(a, b, k) ==> k == 0 {
        SharedStart(a, b, k);
      }
    } else {
      LessIsLexicographic(a[1..], b[1..]);
      if Precedes(a[1..], b[1..]) {
        var k: nat :| DifferAt(a[1..], b[1..], k);
        assert a[..k + 1] == [a[0]] + a[1..][..k] && b[..k + 1] == [b[0]] + b[1..][..k];
        assert DifferAt(a, b, k + 1);
      }
      if Precedes(a, b) {
        var k: nat :| DifferAt(a, b, k);
        assert a[1..][..k - 1] == a[..k][1..] && b[1..][..k - 1] == b[..k][1..];
        assert DifferAt(a[1..], b[1..], k - 1);
      }
    }
  }

  /** A write wins if it is later, or as late and by the greater author; nobody counts
      as the empty name. */
  lemma WinsExactlyWhen(at: int, author: Account, currentAt: int, current: Option<Account>)
    ensures Wins(at, author, currentAt, current) <==>
      at > currentAt || (at == currentAt && Precedes(if current.Some? then current.value else "", author))
  {
    LessIsLexicographic(Author(current), author);
  }

  lemma {:induction false} LessIsTotal(a: string, b: string)
    ensures Less(a, b) || Less(b, a) || a == b
    ensures !(Less(a, b) && Less(b, a))
    ensures a == b ==> !Less(a, b)
  {
    if a != [] && b != [] {
      LessIsTotal(a[1..], b[1..]);
      if a[0] == b[0] && a[1..] == b[1..] {
        assert a == [a[0]] + a[1..] && b == [b[0]] + b[1..];
      }
    }
  }

  lemma {:induction false} LessIsTransitive(a: string, b: string, c: string)
    requires Less(a, b) && Less(b, c)
    ensures Less(a, c)
  {
    if a != [] && b != [] && c != [] && a[0] == b[0] && b[0] == c[0] {
      LessIsTransitive(a[1..], b[1..], c[1..]);
    }
  }

  lemma TouchNeverLoses(s: Stamp, at: int, author: Account, at': int, author': Account)
    requires !Beats(at', author', s)
    ensures !Beats(at', author', Touch(s, at, author))
    ensures !Beats(at, author, Touch(s, at, author))
  {
    LessIsTotal(author, author);
    LessIsTotal(author', Author(s.author));
    LessIsTotal(author', author);
    LessIsTotal(Author(s.author), author);
    if Less(Author(s.author), author) && Less(author, author') {
      LessIsTransitive(Author(s.author), author, author');
    }
  }

  // ----- a register ends at its latest write

  /** `s` is what a register holds after the changes, whatever their order: the
      base if nothing beats it, and otherwise the write nothing else beats. */
  ghost predicate Latest(base: Stamp, changes: seq<Change>, r: Register, s: Stamp) {
    && (forall c | c in changes && Writes(c, r) :: !Beats(c.at, c.author, s))
    && (s == base || exists c :: c in changes && Writes(c, r) && IsWriteOf(c, base, s))
  }

  predicate IsWriteOf(c: Change, base: Stamp, s: Stamp) {
    Beats(c.at, c.author, base) && s == Stamp(c.at, Some(c.author))
  }

  lemma LatestIsUnique(base: Stamp, xs: seq<Change>, ys: seq<Change>, r: Register, s: Stamp, t: Stamp)
    requires Latest(base, xs, r, s) && Latest(base, ys, r, t)
    requires forall c :: c in xs <==> c in ys
    ensures s == t
  {
    if s != base {
      var c :| c in xs && Writes(c, r) && IsWriteOf(c, base, s);
      assert !Beats(c.at, c.author, t);
      if t != base {
        var d :| d in ys && Writes(d, r) && IsWriteOf(d, base, t);
        assert !Beats(d.at, d.author, s);
        LessIsTotal(c.author, d.author);
      }
    }
  }

  lemma ApplyTouches(g: GroupState, c: Change, r: Register)
    ensures Read(Apply(g, c), r) == if Writes(c, r) then Touch(Read(g, r), c.at, c.author) else Read(g, r)
  {
  }

  lemma {:induction false} ApplyAllIsLatest(g: GroupState, changes: seq<Change>, r: Register)
    ensures Latest(Read(g, r), changes, r, Read(ApplyAll(g, changes), r))
  {
    if changes != [] {
      var last := changes[|changes| - 1];
      var before := changes[..|changes| - 1];
      var s := Read(ApplyAll(g, before), r);
      ApplyAllIsLatest(g, before, r);
      ApplyTouches(ApplyAll(g, before), last, r);
      var t := Read(ApplyAll(g, changes), r);
      forall c | c in changes && Writes(c, r) ensures !Beats(c.at, c.author, t) {
        if Writes(last, r) {
          LessIsTotal(last.author, last.author);
          if c in before {
            TouchNeverLoses(s, last.at, last.author, c.at, c.author);
          } else if !Beats(last.at, last.author, s) {
            TouchNeverLoses(s, last.at, last.author, last.at, last.author);
          }
        }
      }
      LatestIsReached(Read(g, r), before, last, r, s, t);
      assert changes == before + [last];
    }
  }

  lemma LatestIsReached(base: Stamp, before: seq<Change>, last: Change, r: Register, s: Stamp, t: Stamp)
    requires Latest(base, before, r, s)
    requires t == if Writes(last, r) then Touch(s, last.at, last.author) else s
    ensures t == base || exists c :: c in before + [last] && Writes(c, r) && IsWriteOf(c, base, t)
  {
    if t == s {
      if s != base {
        var c :| c in before && Writes(c, r) && IsWriteOf(c, base, s);
        assert c in before + [last] && Writes(c, r) && IsWriteOf(c, base, t);
      }
    } else {
      if s != base {
        var c :| c in before && Writes(c, r) && IsWriteOf(c, base, s);
        TouchBeatsBase(base, c, last, s);
      }
      assert last in before + [last] && IsWriteOf(last, base, t);
    }
  }

  lemma TouchBeatsBase(base: Stamp, c: Change, last: Change, s: Stamp)
    requires IsWriteOf(c, base, s) && Beats(last.at, last.author, s)
    ensures Beats(last.at, last.author, base)
  {
    if Less(Author(base.author), c.author) && Less(c.author, last.author) {
      LessIsTransitive(Author(base.author), c.author, last.author);
    }
  }

  // ----- convergence

  ghost predicate SameChanges(xs: seq<Change>, ys: seq<Change>) {
    forall c :: c in xs <==> c in ys
  }

  /** No two renames tie for the latest stamp with different names. */
  ghost predicate NameSettled(g: GroupState, changes: seq<Change>) {
    forall c, d | c in changes && d in changes && Unbeaten(g, changes, c) && Unbeaten(g, changes, d) :: c.name == d.name
  }

  ghost predicate Unbeaten(g: GroupState, changes: seq<Change>, c: Change) {
    && c.Rename?
    && Beats(c.at, c.author, Read(g, Naming))
    && forall d | d in changes && d.Rename? :: !Beats(d.at, d.author, Stamp(c.at, Some(c.author)))
  }

  lemma {:induction false} ApplyAllKeys(g: GroupState, changes: seq<Change>, a: Account)
    ensures a in ApplyAll(g, changes).members <==>
      a in g.members || exists c :: c in changes && c.Membership? && c.account == a
  {
    if changes != [] {
      var last := changes[|changes| - 1];
      var before := changes[..|changes| - 1];
      ApplyAllKeys(g, before, a);
      assert changes == before + [last];
      if exists c :: c in changes && c.Membership? && c.account == a {
        var c :| c in changes && c.Membership? && c.account == a;
        assert c in before || c == last;
      }
      assert last in changes;
    }
  }

  lemma {:induction false} ApplyAllKeepsRest(g: GroupState, changes: seq<Change>)
    ensures var g' := ApplyAll(g, changes);
      g'.id == g.id && g'.createdBy == g.createdBy && g'.createdAt == g.createdAt
  {
    if changes != [] {
      ApplyAllKeepsRest(g, changes[..|changes| - 1]);
    }
  }

  /** The name held belongs to the stamp held. */
  lemma {:induction false} NameComesWithStamp(g: GroupState, changes: seq<Change>)
    ensures var g' := ApplyAll(g, changes);
      || (Read(g', Naming) == Read(g, Naming) && g'.name == g.name)
      || exists c :: c in changes && c.Rename? && IsWriteOf(c, Read(g, Naming), Read(g', Naming)) && g'.name == c.name
  {
    if changes != [] {
      var last := changes[|changes| - 1];
      var before := changes[..|changes| - 1];
      var g1 := ApplyAll(g, before);
      NameComesWithStamp(g, before);
      assert changes == before + [last];
      assert last in changes;
      if Read(g1, Naming) != Read(g, Naming) || g1.name != g.name {
        var c :| c in before && c.Rename? && IsWriteOf(c, Read(g, Naming), Read(g1, Naming)) && g1.name == c.name;
        assert c in changes;
        if last.Rename? && Beats(last.at, last.author, Read(g1, Naming)) {
          TouchBeatsBase(Read(g, Naming), c, last, Read(g1, Naming));
        }
      }
    }
  }

  /** The members of the state, record by record. */
  lemma SameRegistersSameMembers(g: GroupState, h: GroupState)
    requires forall a :: a in g.members <==> a in h.members
    requires forall r :: Read(g, r) == Read(h, r)
    ensures g.members == h.members
  {
    forall a | a in g.members ensures g.members[a] == h.members[a] {
      assert Read(g, Added(a)) == Read(h, Added(a));
      assert Read(g, Removed(a)) == Read(h, Removed(a));
    }
  }

  lemma {:induction false} RegistersConverge(g: GroupState, xs: seq<Change>, ys: seq<Change>)
    requires SameChanges(xs, ys)
    ensures forall r :: Read(ApplyAll(g, xs), r) == Read(ApplyAll(g, ys), r)
    ensures forall a :: a in ApplyAll(g, xs).members <==> a in ApplyAll(g, ys).members
  {
    forall r ensures Read(ApplyAll(g, xs), r) == Read(ApplyAll(g, ys), r) {
      ApplyAllIsLatest(g, xs, r);
      ApplyAllIsLatest(g, ys, r);
      LatestIsUnique(Read(g, r), xs, ys, r, Read(ApplyAll(g, xs), r), Read(ApplyAll(g, ys), r));
    }
    forall a ensures a in ApplyAll(g, xs).members <==> a in ApplyAll(g, ys).members {
      ApplyAllKeys(g, xs, a);
      ApplyAllKeys(g, ys, a);
    }
  }

  lemma {:induction false} NamesConverge(g: GroupState, xs: seq<Change>, ys: seq<Change>)
    requires SameChanges(xs, ys) && NameSettled(g, xs)
    ensures ApplyAll(g, xs).name == ApplyAll(g, ys).name
  {
    var gx, gy := ApplyAll(g, xs), ApplyAll(g, ys);
    RegistersConverge(g, xs, ys);
    assert Read(gx, Naming) == Read(gy, Naming);
    NameComesWithStamp(g, xs);
    NameComesWithStamp(g, ys);
    ApplyAllIsLatest(g, xs, Naming);
    if Read(gx, Naming) != Read(g, Naming) {
      var c :| c in xs && c.Rename? && IsWriteOf(c, Read(g, Naming), Read(gx, Naming)) && gx.name == c.name;
      var d :| d in ys && d.Rename? && IsWriteOf(d, Read(g, Naming), Read(gy, Naming)) && gy.name == d.name;
      assert Unbeaten(g, xs, c) && Unbeaten(g, xs, d);
    } else {
      WriteIsNotBase(g, xs);
      WriteIsNotBase(g, ys);
    }
  }

  /** A write that beat the base is never mistaken for it. */
  lemma WriteIsNotBase(g: GroupState, changes: seq<Change>)
    requires Read(ApplyAll(g, changes), Naming) == Read(g, Naming)
    ensures ApplyAll(g, changes).name == g.name
  {
    NameComesWithStamp(g, changes);
    forall c | IsWriteOf(c, Read(g, Naming), Read(g, Naming)) ensures false {
      LessIsTotal(c.author, c.author);
    }
  }

  /** Two replicas that apply the same changes to one group, in any order and with
      any repetition, reach the same state. */
  lemma {:induction false} Converge(g: GroupState, xs: seq<Change>, ys: seq<Change>)
    requires SameChanges(xs, ys) && NameSettled(g, xs)
    ensures ApplyAll(g, xs) == ApplyAll(g, ys)
  {
    RegistersConverge(g, xs, ys);
    NamesConverge(g, xs, ys);
    ApplyAllKeepsRest(g, xs);
    ApplyAllKeepsRest(g, ys);
    SameRegistersSameMembers(ApplyAll(g, xs), ApplyAll(g, ys));
    assert Read(ApplyAll(g, xs), Naming) == Read(ApplyAll(g, ys), Naming);
  }

  /** A rename nothing beats decides the name when it comes first. */
  lemma {:induction false} FirstUnbeatenStays(g: GroupState, all: seq<Change>, c: Change, rest: seq<Change>)
    requires c in all && Unbeaten(g, all, c) && forall d | d in rest :: d in all
    ensures ApplyAll(g, [c] + rest).name == c.name
    ensures Read(ApplyAll(g, [c] + rest), Naming) == Stamp(c.at, Some(c.author))
  {
    if rest == [] {
      assert ([c] + rest)[..0] == [];
    } else {
      var last := |rest| - 1;
      FirstUnbeatenStays(g, all, c, rest[..last]);
      assert ([c] + rest)[..|[c] + rest| - 1] == [c] + rest[..last];
      assert rest[last] in all;
    }
  }

  /** What stands in a register in the end: the base or one of the writes, and of all
      the writes none is later, nor as late and by a greater author. */
  lemma LatestWriteStands(g: GroupState, changes: seq<Change>, r: Register)
    ensures var s := Read(ApplyAll(g, changes), r);
      && (s == Read(g, r) || exists c :: c in changes && Writes(c, r) && s == Stamp(c.at, Some(c.author)))
      && (forall c | c in changes && Writes(c, r) ::
            c.at < s.at || (c.at == s.at && !Precedes(if s.author.Some? then s.author.value else "", c.author)))
      && (r == Naming && s != Read(g, r) ==>
            exists c :: c in changes && c.Rename? && s == Stamp(c.at, Some(c.author))
                        && ApplyAll(g, changes).name == c.name)
  {
    ApplyAllIsLatest(g, changes, r);
    NameComesWithStamp(g, changes);
    var s := Read(ApplyAll(g, changes), r);
    forall c | c in changes && Writes(c, r)
      ensures c.at < s.at || (c.at == s.at && !Precedes(if s.author.Some? then s.author.value else "", c.author))
    {
      WinsExactlyWhen(c.at, c.author, s.at, s.author);
    }
    hide ApplyAll, Precedes, Less;
  }

  /** Order does not matter exactly when no two latest renames disagree. */
  lemma ConvergeExactlyWhen(g: GroupState, xs: seq<Change>)
    ensures (forall ys | SameChanges(xs, ys) :: ApplyAll(g, ys) == ApplyAll(g, xs)) <==> NameSettled(g, xs)
  {
    if NameSettled(g, xs) {
      forall ys | SameChanges(xs, ys) ensures ApplyAll(g, ys) == ApplyAll(g, xs) {
        Converge(g, xs, ys);
      }
    } else {
      var c, d :| c in xs && d in xs && Unbeaten(g, xs, c) && Unbeaten(g, xs, d) && c.name != d.name;
      var ys := FirstOfTied(g, xs, c);
      var zs := FirstOfTied(g, xs, d);
    }
  }

  lemma FirstOfTied(g: GroupState, xs: seq<Change>, c: Change) returns (ys: seq<Change>)
    requires c in xs && Unbeaten(g, xs, c)
    ensures SameChanges(xs, ys) && ApplyAll(g, ys).name == c.name
  {
    FirstUnbeatenStays(g, xs, c, xs);
    ys := [c] + xs;
  }

  /** A list of the accounts of a set, in order and without repetition. */
  ghost predicate IsListing(list: seq<Account>, accounts: set<Account>) {
    && (forall a :: a in list <==> a in accounts)
    && (forall i, j | 0 <= i < j < |list| :: Less(list[i], list[j]))
  }

  /** Members have one sorted list, so every replica shows one order. */
  lemma {:induction false} OneOrder(xs: seq<Account>, ys: seq<Account>, accounts: set<Account>)
    requires IsListing(xs, accounts) && IsListing(ys, accounts)
    ensures xs == ys
  {
    EmptyListing(xs, accounts);
    EmptyListing(ys, accounts);
    if accounts != {} {
      SameFirst(xs, ys, accounts);
      ListingTail(xs, accounts);
      ListingTail(ys, accounts);
      OneOrder(xs[1..], ys[1..], accounts - {xs[0]});
    }
  }

  lemma EmptyListing(list: seq<Account>, accounts: set<Account>)
    requires IsListing(list, accounts)
    ensures list == [] <==> accounts == {}
  {
    assert list != [] ==> list[0] in list;
  }

  lemma SameFirst(xs: seq<Account>, ys: seq<Account>, accounts: set<Account>)
    requires IsListing(xs, accounts) && IsListing(ys, accounts) && xs != [] && ys != []
    ensures xs[0] == ys[0]
  {
    assert xs[0] in ys && ys[0] in xs;
    var i :| 0 <= i < |ys| && ys[i] == xs[0];
    var j :| 0 <= j < |xs| && xs[j] == ys[0];
    LessIsTotal(xs[0], ys[0]);
  }

  lemma ListingTail(list: seq<Account>, accounts: set<Account>)
    requires IsListing(list, accounts) && list != []
    ensures IsListing(list[1..], accounts - {list[0]})
  {
    var tail := list[1..];
    assert list == [list[0]] + tail;
    forall i | 0 <= i < |tail| ensures tail[i] != list[0] && tail[i] in list {
      assert tail[i] == list[i + 1];
      LessIsTotal(list[0], list[i + 1]);
    }
    forall a | a in accounts - {list[0]} ensures a in tail {
      assert a in list;
    }
  }

  /** Two names under one stamp: whichever arrives first stays. */
  lemma TiedRenamesDoNotConverge()
    ensures var g := GroupState("g", "old", 0, None, "a", 0, map[]);
      var c, d := Rename("x", 1, "a"), Rename("y", 1, "a");
      ApplyAll(g, [c, d]).name == "x" && ApplyAll(g, [d, c]).name == "y"
  {
    var g := GroupState("g", "old", 0, None, "a", 0, map[]);
    var c, d := Rename("x", 1, "a"), Rename("y", 1, "a");
    assert [c, d][..1] == [c] && [d, c][..1] == [d] && [c][..0] == [] && [d][..0] == [];
    LessIsTotal("a", "a");
    assert ApplyAll(g, [c]) == Apply(g, c) && ApplyAll(g, [d]) == Apply(g, d);
  }
}
