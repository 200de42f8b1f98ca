/**
 Merging a peer's view of a group: the pairwise maximum is the replay of both
 histories.
 */
module GroupMerge {
  import opened Wrappers
  import opened Group

  datatype Merging = Merged(state: GroupState) | DifferentGroups

  function MergeMember(local: Member, remote: Member): Member {
    Member(Max(local.addedAt, remote.addedAt),
           Max(local.removedAt, remote.removedAt),
           if remote.addedAt > local.addedAt then remote.addedBy else local.addedBy,
           if remote.removedAt > local.removedAt then remote.removedBy else local.removedBy)
  }

  function Merge(local: GroupState, remote: GroupState): GroupState {
    var renamed := Wins(remote.nameUpdatedAt, Author(remote.nameUpdatedBy), local.nameUpdatedAt, local.nameUpdatedBy);
    local.(
      name := if renamed then remote.name else local.name,
      nameUpdatedAt := Max(local.nameUpdatedAt, remote.nameUpdatedAt),
      nameUpdatedBy := if renamed then remote.nameUpdatedBy else local.nameUpdatedBy,
      createdAt := if local.createdAt <= remote.createdAt then local.createdAt else remote.createdAt,
      members := map a | a in local.members.Keys + remote.members.Keys ::
        if a in remote.members then MergeMember(RecordOf(local, a), remote.members[a]) else local.members[a])
  }

  /** The loop over the remote records, one at a time and in any order. */
  method MergeGroups(local: GroupState, remote: GroupState) returns (r: Merging)
    ensures r == if local.id == remote.id then Merged(Merge(local, remote)) else DifferentGroups
  {
    if local.id != remote.id {
      return DifferentGroups;
    }
    var members := local.members;
    var left := remote.members.Keys;
    while left != {}
      invariant left <= remote.members.Keys
      invariant members.Keys == local.members.Keys + (remote.members.Keys - left)
      invariant forall a | a in members ::
        members[a] == if a in remote.members && a !in left
                      then MergeMember(RecordOf(local, a), remote.members[a]) else local.members[a]
      decreases left
    {
      var a :| a in left;
      var localRecord := if a in members then members[a] else NEVER;
      members := members[a := MergeMember(localRecord, remote.members[a])];
      left := left - {a};
    }
    var renamed := Wins(remote.nameUpdatedAt, Author(remote.nameUpdatedBy), local.nameUpdatedAt, local.nameUpdatedBy);
    r := Merged(local.(
      name := if renamed then remote.name else local.name,
      nameUpdatedAt := Max(local.nameUpdatedAt, remote.nameUpdatedAt),
      nameUpdatedBy := if renamed then remote.nameUpdatedBy else local.nameUpdatedBy,
      createdAt := if local.createdAt <= remote.createdAt then local.createdAt else remote.createdAt,
      members := members));
    assert members == Merge(local, remote).members;
  }

  /** What members see of a group: who is in it since when, and its name. */
  ghost predicate Agrees(g: GroupState, h: GroupState) {
    && g.members.Keys == h.members.Keys
    && (forall a | a in g.members ::
          g.members[a].addedAt == h.members[a].addedAt && g.members[a].removedAt == h.members[a].removedAt)
    && g.nameUpdatedAt == h.nameUpdatedAt && g.nameUpdatedBy == h.nameUpdatedBy && g.name == h.name
    && g.id == h.id && g.createdAt == h.createdAt
  }

  /** States that agree have the same members. */
  lemma AgreeOnMembers(g: GroupState, h: GroupState)
    requires Agrees(g, h)
    ensures CurrentMembers(g) == CurrentMembers(h)
  {
    forall a ensures a in CurrentMembers(g) <==> a in CurrentMembers(h) {
    }
  }

  // ----- merging is replaying

  /** The time a register holds after two histories is the later of the times
      it holds after each. */
  lemma LatestOfBoth(base: Stamp, xs: seq<Change>, ys: seq<Change>, r: Register, s: Stamp, t: Stamp, u: Stamp)
    requires Latest(base, xs, r, s) && Latest(base, ys, r, t) && Latest(base, xs + ys, r, u)
    ensures u == if t != base && Beats(t.at, Author(t.author), s) then t else s
  {
    var both := if t != base && Beats(t.at, Author(t.author), s) then t else s;
    if t != base {
      var d :| d in ys && Writes(d, r) && IsWriteOf(d, base, t);
      assert d in xs + ys;
    }
    if s != base {
      var c :| c in xs && Writes(c, r) && IsWriteOf(c, base, s);
      assert c in xs + ys;
    }
    forall c | c in xs + ys && Writes(c, r) ensures !Beats(c.at, c.author, both) {
      NotBeatenByEither(base, xs, ys, r, s, t, c);
    }
    LatestIsUnique(base, xs + ys, xs + ys, r, both, u);
  }

  lemma NotBeatenByEither(base: Stamp, xs: seq<Change>, ys: seq<Change>, r: Register, s: Stamp, t: Stamp, c: Change)
    requires Latest(base, xs, r, s) && Latest(base, ys, r, t)
    requires c in xs + ys && Writes(c, r)
    ensures var both := if t != base && Beats(t.at, Author(t.author), s) then t else s;
      !Beats(c.at, c.author, both)
  {
    if t != base {
      var d :| d in ys && Writes(d, r) && IsWriteOf(d, base, t);
      Order(c, s, t);
    } else if c in ys && s != base {
      var b :| b in xs && Writes(b, r) && IsWriteOf(b, base, s);
      OrderWrites(c, b, base);
    }
  }

  /** Of two stamps, what beats neither does not beat the later. */
  lemma Order(c: Change, s: Stamp, t: Stamp)
    requires t.author.Some?
    ensures !Beats(c.at, c.author, s) && Beats(t.at, t.author.value, s) ==> !Beats(c.at, c.author, t)
    ensures !Beats(c.at, c.author, t) && !Beats(t.at, t.author.value, s) ==> !Beats(c.at, c.author, s)
  {
    var x, y, z := Author(s.author), t.author.value, c.author;
    LessIsTotal(x, y);
    LessIsTotal(y, z);
    LessIsTotal(x, z);
    if Less(x, y) && Less(y, z) {
      LessIsTransitive(x, y, z);
    }
    if Less(y, x) && Less(x, z) {
      LessIsTransitive(y, x, z);
    }
  }

  lemma OrderWrites(c: Change, b: Change, base: Stamp)
    requires !Beats(c.at, c.author, base) && Beats(b.at, b.author, base)
    ensures !Beats(c.at, c.author, Stamp(b.at, Some(b.author)))
  {
    LessIsTotal(Author(base.author), b.author);
    if Less(Author(base.author), b.author) && Less(b.author, c.author) {
      LessIsTransitive(Author(base.author), b.author, c.author);
    }
  }

  /** A register only moves forward. */
  lemma LatestIsNoEarlier(base: Stamp, changes: seq<Change>, r: Register, s: Stamp)
    requires Latest(base, changes, r, s)
    ensures s.at >= base.at
  {
  }

  lemma RegisterTimes(g: GroupState, xs: seq<Change>, ys: seq<Change>, r: Register)
    ensures Read(ApplyAll(g, xs + ys), r).at == Max(Read(ApplyAll(g, xs), r).at, Read(ApplyAll(g, ys), r).at)
  {
    ApplyAllIsLatest(g, xs, r);
    ApplyAllIsLatest(g, ys, r);
    ApplyAllIsLatest(g, xs + ys, r);
    var s, t := Read(ApplyAll(g, xs), r), Read(ApplyAll(g, ys), r);
    LatestOfBoth(Read(g, r), xs, ys, r, s, t, Read(ApplyAll(g, xs + ys), r));
    LatestIsNoEarlier(Read(g, r), xs, r, s);
  }

  lemma MembersMergeAsReplay(g: GroupState, xs: seq<Change>, ys: seq<Change>, a: Account)
    ensures var m, z := Merge(ApplyAll(g, xs), ApplyAll(g, ys)), ApplyAll(g, xs + ys);
      && (a in m.members <==> a in z.members)
      && (a in m.members ==>
          m.members[a].addedAt == z.members[a].addedAt && m.members[a].removedAt == z.members[a].removedAt)
  {
    var l, r, z := ApplyAll(g, xs), ApplyAll(g, ys), ApplyAll(g, xs + ys);
    ApplyAllKeys(g, xs, a);
    ApplyAllKeys(g, ys, a);
    ApplyAllKeys(g, xs + ys, a);
    RegisterTimes(g, xs, ys, Added(a));
    RegisterTimes(g, xs, ys, Removed(a));
    if a in l.members && a !in r.members {
      assert RecordOf(r, a) == NEVER && RecordOf(g, a) == NEVER;
      ApplyAllIsLatest(g, xs, Added(a));
      ApplyAllIsLatest(g, xs, Removed(a));
      LatestIsNoEarlier(Read(g, Added(a)), xs, Added(a), Read(l, Added(a)));
      LatestIsNoEarlier(Read(g, Removed(a)), xs, Removed(a), Read(l, Removed(a)));
    }
  }

  /** The base never beats what a register holds later. */
  lemma BaseDoesNotBeat(base: Stamp, changes: seq<Change>, r: Register, s: Stamp)
    requires Latest(base, changes, r, s)
    ensures !Beats(base.at, Author(base.author), s)
  {
    LessIsTotal(Author(base.author), Author(base.author));
    if s != base {
      var c :| c in changes && Writes(c, r) && IsWriteOf(c, base, s);
      LessIsTotal(Author(base.author), c.author);
    }
  }

  ghost predicate SameName(g: GroupState, h: GroupState) {
    g.name == h.name && Read(g, Naming) == Read(h, Naming)
  }

  ghost predicate NameBeats(r: GroupState, l: GroupState) {
    Beats(r.nameUpdatedAt, Author(r.nameUpdatedBy), Read(l, Naming))
  }

  /** One more change: whether the replay follows `r` or stays at `l`, it keeps to it. */
  lemma RenameFollows(l: GroupState, r: GroupState, z: GroupState, c: Change)
    requires SameName(z, if NameBeats(r, l) then r else l)
    ensures var r', z' := Apply(r, c), Apply(z, c);
      SameName(z', if NameBeats(r', l) then r' else l)
  {
    if c.Rename? {
      var x, y, n := Author(l.nameUpdatedBy), Author(r.nameUpdatedBy), c.author;
      LessIsTotal(x, y);
      LessIsTotal(y, n);
      LessIsTotal(x, n);
      if Less(x, y) && Less(y, n) {
        LessIsTransitive(x, y, n);
      }
      if Less(y, x) && Less(x, n) {
        LessIsTransitive(y, x, n);
      }
    }
  }

  /** Replaying `ys` on top of `xs` ends with the name `ys` alone gives if its
      stamp beats that of `xs`, and otherwise with the name `xs` gives. */
  lemma {:induction false} NamesReplay(g: GroupState, xs: seq<Change>, ys: seq<Change>)
    ensures var l, r := ApplyAll(g, xs), ApplyAll(g, ys);
      SameName(ApplyAll(g, xs + ys), if NameBeats(r, l) then r else l)
  {
    if ys == [] {
      assert xs + ys == xs;
      ApplyAllIsLatest(g, xs, Naming);
      BaseDoesNotBeat(Read(g, Naming), xs, Naming, Read(ApplyAll(g, xs), Naming));
    } else {
      var front, c := ys[..|ys| - 1], ys[|ys| - 1];
      assert (xs + ys)[..|xs + ys| - 1] == xs + front;
      NamesReplay(g, xs, front);
      hide SameName, NameBeats, Apply;
      RenameFollows(ApplyAll(g, xs), ApplyAll(g, front), ApplyAll(g, xs + front), c);
    }
  }

  /** Merging two states reached from one base gives what replaying both
      histories gives: members, their times, and the name with its stamp. */
  lemma MergeIsReplay(g: GroupState, xs: seq<Change>, ys: seq<Change>)
    ensures Agrees(Merge(ApplyAll(g, xs), ApplyAll(g, ys)), ApplyAll(g, xs + ys))
  {
    var l, r, z := ApplyAll(g, xs), ApplyAll(g, ys), ApplyAll(g, xs + ys);
    var m := Merge(l, r);
    forall a ensures a in m.members <==> a in z.members {
      MembersMergeAsReplay(g, xs, ys, a);
    }
    forall a | a in m.members
      ensures m.members[a].addedAt == z.members[a].addedAt && m.members[a].removedAt == z.members[a].removedAt
    {
      MembersMergeAsReplay(g, xs, ys, a);
    }
    NamesReplay(g, xs, ys);
    ApplyAllKeepsRest(g, xs);
    ApplyAllKeepsRest(g, ys);
    ApplyAllKeepsRest(g, xs + ys);
  }

  /** Merging either way round agrees exactly unless the two views carry one name
      stamp with different names. */
  lemma {:induction false} MergeCommutesExactlyWhen(g: GroupState, xs: seq<Change>, ys: seq<Change>)
    ensures var l, r := ApplyAll(g, xs), ApplyAll(g, ys);
      Agrees(Merge(l, r), Merge(r, l)) <==> !(Read(l, Naming) == Read(r, Naming) && l.name != r.name)
  {
    var l, r := ApplyAll(g, xs), ApplyAll(g, ys);
    var z, z' := ApplyAll(g, xs + ys), ApplyAll(g, ys + xs);
    assert SameChanges(xs + ys, ys + xs);
    MergeIsReplay(g, xs, ys);
    MergeIsReplay(g, ys, xs);
    NamesReplay(g, xs, ys);
    NamesReplay(g, ys, xs);
    RegistersConverge(g, xs + ys, ys + xs);
    ApplyAllKeepsRest(g, xs + ys);
    ApplyAllKeepsRest(g, ys + xs);
    hide ApplyAll;
    assert Read(z, Naming) == Read(z', Naming);
    SameRegistersSameMembers(z, z');
    LessIsTotal(Author(l.nameUpdatedBy), Author(r.nameUpdatedBy));
    hide Merge, Read, Less;
  }

  lemma MergeRespectsAgreement(l: GroupState, l': GroupState, r: GroupState, r': GroupState)
    requires Agrees(l, l') && Agrees(r, r')
    ensures Agrees(Merge(l, r), Merge(l', r'))
  {
  }

  /** A time and an author belong to one name at most. */
  ghost predicate StampsDecideNames(changes: seq<Change>) {
    forall c, d | c in changes && d in changes && c.Rename? && d.Rename? ::
      c.at == d.at && c.author == d.author ==> c.name == d.name
  }

  lemma StampsSettleNames(g: GroupState, part: seq<Change>, all: seq<Change>)
    requires StampsDecideNames(all) && forall c | c in part :: c in all
    ensures NameSettled(g, part)
  {
    forall c, d | c in part && d in part && Unbeaten(g, part, c) && Unbeaten(g, part, d) ensures c.name == d.name {
      assert !Beats(d.at, d.author, Stamp(c.at, Some(c.author)));
      assert !Beats(c.at, c.author, Stamp(d.at, Some(d.author)));
      LessIsTotal(c.author, d.author);
    }
  }

  lemma AgreementIsTransitive(f: GroupState, g: GroupState, h: GroupState)
    requires Agrees(f, g) && (Agrees(g, h) || Agrees(h, g))
    ensures Agrees(f, h)
  {
  }

  lemma {:induction false} MergeAssociates(g: GroupState, xs: seq<Change>, ys: seq<Change>, zs: seq<Change>)
    ensures var a, b, c := ApplyAll(g, xs), ApplyAll(g, ys), ApplyAll(g, zs);
      Agrees(Merge(Merge(a, b), c), Merge(a, Merge(b, c)))
  {
    hide ApplyAll, Merge, Agrees;
    var a, b, c := ApplyAll(g, xs), ApplyAll(g, ys), ApplyAll(g, zs);
    var all := ApplyAll(g, xs + ys + zs);
    assert Agrees(Merge(Merge(a, b), c), all) by {
      MergeIsReplay(g, xs, ys);
      MergeIsReplay(g, xs + ys, zs);
      AgreesWithItself(c);
      MergeRespectsAgreement(Merge(a, b), ApplyAll(g, xs + ys), c, c);
      AgreementIsTransitive(Merge(Merge(a, b), c), Merge(ApplyAll(g, xs + ys), c), all);
    }
    assert Agrees(Merge(a, Merge(b, c)), all) by {
      assert xs + (ys + zs) == xs + ys + zs;
      MergeIsReplay(g, ys, zs);
      MergeIsReplay(g, xs, ys + zs);
      AgreesWithItself(a);
      MergeRespectsAgreement(a, a, Merge(b, c), ApplyAll(g, ys + zs));
      AgreementIsTransitive(Merge(a, Merge(b, c)), Merge(a, ApplyAll(g, ys + zs)), all);
    }
    AgreementIsTransitive(Merge(Merge(a, b), c), all, Merge(a, Merge(b, c)));
  }

  lemma AgreesWithItself(g: GroupState)
    ensures Agrees(g, g)
  {
  }

  lemma MergeIsIdempotent(g: GroupState)
    ensures Merge(g, g) == g
  {
    LessIsTotal(Author(g.nameUpdatedBy), Author(g.nameUpdatedBy));
    assert Merge(g, g).members == g.members;
  }

  /** The adder and the remover a merge records are the replay's exactly unless
      both views carry one time and the remote author would have won the tie. */
  lemma {:induction false} MergeKeepsAuthorExactlyWhen(g: GroupState, xs: seq<Change>, ys: seq<Change>, reg: Register)
    requires !reg.Naming?
    ensures var l, r := Read(ApplyAll(g, xs), reg), Read(ApplyAll(g, ys), reg);
      Read(Merge(ApplyAll(g, xs), ApplyAll(g, ys)), reg) == Read(ApplyAll(g, xs + ys), reg)
      <==> !(l.at == r.at && Less(Author(l.author), Author(r.author)))
  {
    var l, r, z := ApplyAll(g, xs), ApplyAll(g, ys), ApplyAll(g, xs + ys);
    MembersMergeAsReplay(g, xs, ys, reg.account);
    ApplyAllIsLatest(g, xs, reg);
    ApplyAllIsLatest(g, ys, reg);
    ApplyAllIsLatest(g, xs + ys, reg);
    LatestOfBoth(Read(g, reg), xs, ys, reg, Read(l, reg), Read(r, reg), Read(z, reg));
    BaseDoesNotBeat(Read(g, reg), xs, reg, Read(l, reg));
    LessIsTotal(Author(Read(l, reg).author), Author(Read(r, reg).author));
    hide ApplyAll, Latest;
  }

  /** Two adders at one time: the merge keeps the local one, a replay the greater. */
  lemma TiedAddersDiffer()
    ensures var g := GroupState("g", "n", 0, None, "a", 0, map[]);
      var xs, ys := [Membership("x", true, 1, "a")], [Membership("x", true, 1, "b")];
      && "x" in Merge(ApplyAll(g, xs), ApplyAll(g, ys)).members && "x" in ApplyAll(g, xs + ys).members
      && Merge(ApplyAll(g, xs), ApplyAll(g, ys)).members["x"].addedBy == Some("a")
      && ApplyAll(g, xs + ys).members["x"].addedBy == Some("b")
  {
    var g := GroupState("g", "n", 0, None, "a", 0, map[]);
    var c, d := Membership("x", true, 1, "a"), Membership("x", true, 1, "b");
    assert [c][..0] == [] && [d][..0] == [] && ([c] + [d])[..1] == [c];
    assert ApplyAll(g, [c]) == Apply(g, c) && ApplyAll(g, [d]) == Apply(g, d);
    assert ApplyAll(g, [c] + [d]) == Apply(Apply(g, c), d);
  }

  /** One stamp, two names: each view keeps its own when it merges the other. */
  lemma TiedNamesDoNotCommute()
    ensures var g := GroupState("g", "n", 0, None, "a", 0, map[]);
      var l, r := ApplyAll(g, [Rename("x", 1, "a")]), ApplyAll(g, [Rename("y", 1, "a")]);
      Merge(l, r).name == "x" && Merge(r, l).name == "y"
  {
    var g := GroupState("g", "n", 0, None, "a", 0, map[]);
    var c, d := Rename("x", 1, "a"), Rename("y", 1, "a");
    assert [c][..0] == [] && [d][..0] == [];
    LessIsTotal("a", "a");
    assert ApplyAll(g, [c]) == Apply(g, c) && ApplyAll(g, [d]) == Apply(g, d);
  }

  // ----- any two views, related or not

  predicate IsLarger(t: int, a: int, b: int) {
    t >= a && t >= b && (t == a || t == b)
  }

  /** A merge takes everyone either view knows, the larger of their times, the earlier
      creation, and the name written later or, as late, by the greater author. */
  lemma MergeIsPairwiseMaximum(l: GroupState, r: GroupState)
    ensures var m := Merge(l, r);
      && m.id == l.id && m.createdBy == l.createdBy
      && m.createdAt <= l.createdAt && m.createdAt <= r.createdAt && m.createdAt in {l.createdAt, r.createdAt}
      && m.members.Keys == l.members.Keys + r.members.Keys
      && (forall a | a in l.members && a in r.members ::
            && IsLarger(m.members[a].addedAt, l.members[a].addedAt, r.members[a].addedAt)
            && IsLarger(m.members[a].removedAt, l.members[a].removedAt, r.members[a].removedAt))
      && (forall a | a in l.members && a !in r.members :: m.members[a] == l.members[a])
      && (forall a | a !in l.members && a in r.members ::
            && IsLarger(m.members[a].addedAt, 0, r.members[a].addedAt)
            && IsLarger(m.members[a].removedAt, 0, r.members[a].removedAt))
  {
  }

  lemma MergedNameIsLater(l: GroupState, r: GroupState)
    ensures var m := Merge(l, r);
      var theirs := r.nameUpdatedAt > l.nameUpdatedAt ||
        (r.nameUpdatedAt == l.nameUpdatedAt &&
         Precedes(if l.nameUpdatedBy.Some? then l.nameUpdatedBy.value else "",
                  if r.nameUpdatedBy.Some? then r.nameUpdatedBy.value else ""));
      (m.name, m.nameUpdatedAt, m.nameUpdatedBy) ==
        if theirs then (r.name, r.nameUpdatedAt, r.nameUpdatedBy) else (l.name, l.nameUpdatedAt, l.nameUpdatedBy)
  {
    WinsExactlyWhen(r.nameUpdatedAt, Author(r.nameUpdatedBy), l.nameUpdatedAt, l.nameUpdatedBy);
    hide Precedes;
  }
}
