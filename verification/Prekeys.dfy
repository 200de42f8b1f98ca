/**
 One-time prekeys: a server pool that hands each out once, and the owner's vault
 of private halves, kept in step although ids may be used again.
 */
module Prekeys {
  import opened Wrappers

  type Account = nat
  type Id = nat

  const MAX_STORED: nat := 200
  const PREKEY_TARGET: nat := 50
  const PREKEY_LOW_WATER: nat := 10

  /** `key` names the key pair; the server only ever sees its public half. */
  datatype Prekey = Prekey(id: Id, key: nat)

  // ----- the server's table

  /** Primary key (account, id); public keys are unique over the whole table. */
  type Table = map<(Account, Id), nat>

  function Pool(table: Table, who: Account): set<Prekey> {
    set k | k in table && k.0 == who :: Prekey(k.1, table[k])
  }

  /** A conflict on either constraint leaves the table alone. */
  function Insert(table: Table, who: Account, p: Prekey): Table {
    if (who, p.id) in table || p.key in table.Values then table else table[(who, p.id) := p.key]
  }

  function InsertAll(table: Table, who: Account, ps: seq<Prekey>): Table {
    if ps == [] then table
    else Insert(InsertAll(table, who, ps[..|ps| - 1]), who, ps[|ps| - 1])
  }

  /** Refused as a whole when the upload could pass the cap. */
  function Upload(table: Table, who: Account, ps: seq<Prekey>): Table {
    if |Pool(table, who)| + |ps| > MAX_STORED then table else InsertAll(table, who, ps)
  }

  function Elements(ps: seq<Prekey>): set<Prekey> {
    set p | p in ps
  }

  /** From one table to the next: keys of one upload may join the uploader's pool. */
  ghost predicate Grows(table: Table, table': Table, who: Account, ps: seq<Prekey>, other: Account) {
    && Pool(table, other) <= Pool(table', other) <= Pool(table, other) + Elements(ps)
    && (other != who ==> Pool(table', other) == Pool(table, other))
    && |Pool(table', other)| <= |Pool(table, other)| + |ps|
  }

  lemma GrowsByOne(table: Table, who: Account, p: Prekey, other: Account)
    ensures Grows(table, Insert(table, who, p), who, [p], other)
  {
    var table' := Insert(table, who, p);
    forall q | q in Pool(table, other) ensures q in Pool(table', other) {
      assert (other, q.id) in table && (other, q.id) in table';
    }
    SmallerSet(Pool(table', other), Pool(table, other) + {p});
  }

  lemma GrowsOn(a: Table, b: Table, c: Table, who: Account, ps: seq<Prekey>, qs: seq<Prekey>, other: Account)
    requires Grows(a, b, who, ps, other) && Grows(b, c, who, qs, other)
    ensures Grows(a, c, who, ps + qs, other)
  {
    hide Pool;
    assert Elements(ps + qs) == Elements(ps) + Elements(qs);
  }

  /** An upload adds some of the named keys to the uploader's pool, and nothing else. */
  lemma {:induction false} GrowsByAll(table: Table, who: Account, ps: seq<Prekey>, other: Account)
    ensures Grows(table, InsertAll(table, who, ps), who, ps, other)
  {
    if ps != [] {
      hide Pool, Insert, Grows;
      var front, p := ps[..|ps| - 1], ps[|ps| - 1];
      GrowsByAll(table, who, front, other);
      GrowsByOne(InsertAll(table, who, front), who, p, other);
      GrowsOn(table, InsertAll(table, who, front), InsertAll(table, who, ps), who, front, [p], other);
      assert ps == front + [p];
    }
  }

  lemma {:induction false} SmallerSet(a: set<Prekey>, b: set<Prekey>)
    requires a <= b
    ensures |a| <= |b|
  {
    assert b == a + (b - a);
  }

  lemma PoolAfterUpload(table: Table, who: Account, ps: seq<Prekey>, other: Account)
    ensures Grows(table, Upload(table, who, ps), who, ps, other)
    ensures |Pool(table, other)| <= MAX_STORED ==> |Pool(Upload(table, who, ps), other)| <= MAX_STORED
  {
    GrowsByAll(table, who, ps, other);
  }

  /** A key conflicts with a row of its account under its id, or with any row, of any
      account, under its public key. */
  ghost predicate Conflicts(table: Table, who: Account, p: Prekey) {
    || (exists q :: q in Pool(table, who) && q.id == p.id)
    || (exists other, q :: q in Pool(table, other) && q.key == p.key)
  }

  /** A key is stored exactly when it conflicts with nothing. */
  lemma InsertExactlyWhen(table: Table, who: Account, p: Prekey)
    ensures var table' := Insert(table, who, p);
      Pool(table', who) == Pool(table, who) + if Conflicts(table, who, p) then {} else {p}
  {
    ConflictsExactlyWhen(table, who, p);
    GrowsByOne(table, who, p, who);
    hide Conflicts;
    var table' := Insert(table, who, p);
    if !Conflicts(table, who, p) {
      assert (who, p.id) in table' && p in Pool(table', who);
    }
  }

  lemma ConflictsExactlyWhen(table: Table, who: Account, p: Prekey)
    ensures Conflicts(table, who, p) <==> (who, p.id) in table || p.key in table.Values
  {
    if (who, p.id) in table {
      assert Prekey(p.id, table[(who, p.id)]) in Pool(table, who);
    }
    if p.key in table.Values {
      var k :| k in table && table[k] == p.key;
      assert Prekey(k.1, p.key) in Pool(table, k.0);
    }
  }

  /** Of an upload within the cap each key is stored that conflicts neither with the
      table nor with an earlier key of the same upload. */
  lemma {:induction false} EachLandsUnlessConflict(table: Table, who: Account, ps: seq<Prekey>, i: nat)
    requires i < |ps| && !Conflicts(table, who, ps[i])
    requires forall j | 0 <= j < i :: ps[j].id != ps[i].id && ps[j].key != ps[i].key
    ensures ps[i] in Pool(InsertAll(table, who, ps), who)
  {
    var front, last := ps[..|ps| - 1], ps[|ps| - 1];
    var before := InsertAll(table, who, front);
    if i < |front| {
      EachLandsUnlessConflict(table, who, front, i);
      GrowsByOne(before, who, last, who);
    } else {
      hide Pool, Insert, InsertAll;
      forall other, q | q in Pool(before, other) ensures q.key != last.key && (other == who ==> q.id != last.id) {
        GrowsByAll(table, who, front, other);
        if q !in Pool(table, other) {
          var j :| 0 <= j < |front| && front[j] == q;
        }
      }
      InsertExactlyWhen(before, who, last);
    }
  }

  /** No public key is stored twice, in one account or in two. */
  ghost predicate UniqueKeys(table: Table) {
    forall a, b | a in table && b in table && table[a] == table[b] :: a == b
  }

  lemma {:induction false} InsertsKeepKeysUnique(table: Table, who: Account, ps: seq<Prekey>)
    requires UniqueKeys(table)
    ensures UniqueKeys(InsertAll(table, who, ps))
  {
    if ps != [] {
      InsertsKeepKeysUnique(table, who, ps[..|ps| - 1]);
    }
  }

  lemma PoolAfterFetch(table: Table, who: Account, p: Prekey, other: Account)
    requires p in Pool(table, who)
    ensures Pool(table - {(who, p.id)}, other) == Pool(table, other) - (if other == who then {p} else {})
  {
    var table' := table - {(who, p.id)};
    forall q | q in Pool(table, other) && !(other == who && q == p) ensures q in Pool(table', other) {
      assert (other, q.id) in table';
    }
  }

  class PrekeyTable {
    var rows: Table
    /** Accounts that have published an identity and a signed prekey. */
    var published: set<Account>

    constructor (published: set<Account>)
      ensures rows == map[] && this.published == published
    {
      rows, this.published := map[], published;
    }

    method AddOneTimePrekeys(who: Account, ps: seq<Prekey>) returns (refused: bool)
      modifies this`rows
      ensures rows == Upload(old(rows), who, ps)
      ensures refused <==> |Pool(old(rows), who)| + |ps| > 200
      ensures forall other | |Pool(old(rows), other)| <= MAX_STORED :: |Pool(rows, other)| <= MAX_STORED
      ensures UniqueKeys(old(rows)) ==> UniqueKeys(rows)
    {
      if UniqueKeys(rows) {
        InsertsKeepKeysUnique(rows, who, ps);
      }
      forall other | |Pool(rows, other)| <= MAX_STORED
        ensures |Pool(Upload(rows, who, ps), other)| <= MAX_STORED
      {
        PoolAfterUpload(rows, who, ps, other);
      }
      var n := |Pool(rows, who)|;
      if n + |ps| > MAX_STORED {
        return true;
      }
      for i := 0 to |ps|
        invariant rows == InsertAll(old(rows), who, ps[..i])
      {
        assert ps[..i + 1][..i] == ps[..i];
        if (who, ps[i].id) !in rows && ps[i].key !in rows.Values {
          rows := rows[(who, ps[i].id) := ps[i].key];
        }
      }
      assert ps[..|ps|] == ps;
      refused := false;
    }

    /** Gives out at most one key and deletes it: the next caller cannot get it. */
    method FetchBundle(who: Account) returns (found: bool, oneTime: Option<Prekey>)
      modifies this`rows
      ensures found == (who in published)
      ensures oneTime.Some? <==> found && Pool(old(rows), who) != {}
      ensures oneTime.Some? ==> oneTime.value in Pool(old(rows), who) && oneTime.value !in Pool(rows, who)
      ensures forall other ::
        Pool(rows, other) == Pool(old(rows), other) - (if other == who && oneTime.Some? then {oneTime.value} else {})
    {
      if who !in published {
        return false, None;
      }
      found := true;
      var pool := Pool(rows, who);
      if pool == {} {
        oneTime := None;
      } else {
        var p :| p in pool;
        forall other ensures Pool(rows - {(who, p.id)}, other) == Pool(rows, other) - (if other == who then {p}
            else {}) {
          PoolAfterFetch(rows, who, p, other);
        }
        rows := rows - {(who, p.id)};
        oneTime := Some(p);
      }
    }
  }

  // ----- the owner's vault

  ghost predicate IsHighest(vault: map<Id, nat>, highest: nat) {
    && (forall id | id in vault :: id <= highest)
    && (highest == 0 || highest in vault)
  }

  /** Consecutive ids above the highest one still held, and fresh key pairs. */
  function Minted(highest: nat, next: nat, count: nat): seq<Prekey> {
    if count == 0 then []
    else Minted(highest, next, count - 1) + [Prekey(highest + count, next + count - 1)]
  }

  function Extended(vault: map<Id, nat>, highest: nat, next: nat, count: nat): map<Id, nat> {
    if count == 0 then vault
    else Extended(vault, highest, next, count - 1)[highest + count := next + count - 1]
  }

  class Vault {
    var oneTimePrekeys: map<Id, nat>
    /** The name of the next key pair to be generated. */
    var next: nat

    constructor ()
      ensures oneTimePrekeys == map[] && next == 0
    {
      oneTimePrekeys, next := map[], 0;
    }

    method TakeOneTimePrekey(id: Id) returns (key: Option<nat>)
      modifies this`oneTimePrekeys
      ensures key == if id in old(oneTimePrekeys) then Some(old(oneTimePrekeys)[id]) else None
      ensures oneTimePrekeys == old(oneTimePrekeys) - {id}
    {
      if id !in oneTimePrekeys {
        return None;
      }
      key := Some(oneTimePrekeys[id]);
      oneTimePrekeys := oneTimePrekeys - {id};
    }

    method Highest() returns (highest: nat)
      ensures IsHighest(oneTimePrekeys, highest)
    {
      highest := 0;
      var left := oneTimePrekeys.Keys;
      while left != {}
        invariant left <= oneTimePrekeys.Keys
        invariant forall id | id in oneTimePrekeys && id !in left :: id <= highest
        invariant highest == 0 || highest in oneTimePrekeys
        decreases left
      {
        var id :| id in left;
        left := left - {id};
        if id > highest {
          highest := id;
        }
      }
    }

    /** Generates keys into the vault and gives the public halves to upload. */
    method Generate(count: nat) returns (ghost highest: nat, ps: seq<Prekey>)
      modifies this
      ensures IsHighest(old(oneTimePrekeys), highest)
      ensures ps == Minted(highest, old(next), count) && next == old(next) + count
      ensures oneTimePrekeys == Extended(old(oneTimePrekeys), highest, old(next), count)
    {
      var top := Highest();
      highest := top;
      ps := [];
      for i := 0 to count
        invariant ps == Minted(top, old(next), i) && next == old(next) + i
        invariant oneTimePrekeys == Extended(old(oneTimePrekeys), top, old(next), i)
      {
        var id := top + i + 1;
        oneTimePrekeys := oneTimePrekeys[id := next];
        ps := ps + [Prekey(id, next)];
        next := next + 1;
      }
    }

    method ReplenishPrekeys() returns (ghost highest: nat, ps: seq<Prekey>)
      modifies this
      ensures var remaining := |old(oneTimePrekeys)|;
        if remaining > PREKEY_LOW_WATER then
          ps == [] && oneTimePrekeys == old(oneTimePrekeys) && next == old(next)
        else
          && IsHighest(old(oneTimePrekeys), highest)
          && ps == Minted(highest, old(next), PREKEY_TARGET - remaining) && next == old(next) + |ps|
          && oneTimePrekeys == Extended(old(oneTimePrekeys), highest, old(next), PREKEY_TARGET - remaining)
          && |oneTimePrekeys| == PREKEY_TARGET
    {
      var remaining := |oneTimePrekeys|;
      if remaining > PREKEY_LOW_WATER {
        return 0, [];
      }
      highest, ps := Generate(PREKEY_TARGET - remaining);
      MintedSize(highest, old(next), PREKEY_TARGET - remaining);
      ExtendedSize(old(oneTimePrekeys), highest, old(next), PREKEY_TARGET - remaining);
    }
  }

  lemma MintedSize(highest: nat, next: nat, count: nat)
    ensures |Minted(highest, next, count)| == count
  {
  }

  /** Old entries stay, and exactly the minted ones join them. */
  lemma {:induction false} ExtendedHolds(vault: map<Id, nat>, highest: nat, next: nat, count: nat)
    requires IsHighest(vault, highest)
    ensures var vault' := Extended(vault, highest, next, count);
      && (forall id :: id in vault' <==> id in vault || highest < id <= highest + count)
      && (forall id | id in vault' :: vault'[id] == if id <= highest then vault[id] else next + (id - highest - 1))
  {
    if count > 0 {
      ExtendedHolds(vault, highest, next, count - 1);
    }
  }

  lemma {:induction false} ExtendedSize(vault: map<Id, nat>, highest: nat, next: nat, count: nat)
    requires IsHighest(vault, highest)
    ensures |Extended(vault, highest, next, count)| == |vault| + count
  {
    if count > 0 {
      ExtendedSize(vault, highest, next, count - 1);
      OneMoreEntry(vault, highest, next, count);
    }
  }

  lemma OneMoreEntry(vault: map<Id, nat>, highest: nat, next: nat, count: nat)
    requires IsHighest(vault, highest) && count > 0
    ensures |Extended(vault, highest, next, count)| == |Extended(vault, highest, next, count - 1)| + 1
  {
    ExtendedHolds(vault, highest, next, count - 1);
    var before: map<Id, nat>, id: Id := Extended(vault, highest, next, count - 1), highest + count;
    assert id !in vault;
    assert id !in before;
    AddsOne(before, id, next + count - 1);
  }

  lemma AddsOne(vault: map<Id, nat>, id: Id, key: nat)
    requires id !in vault
    ensures |vault[id := key]| == |vault| + 1
  {
    assert vault[id := key].Keys == vault.Keys + {id};
  }

  lemma {:induction false} MintedHolds(highest: nat, next: nat, count: nat)
    ensures forall p :: p in Minted(highest, next, count) <==>
      highest < p.id <= highest + count && p.key == next + (p.id - highest - 1)
  {
    if count > 0 {
      MintedHolds(highest, next, count - 1);
    }
  }
}
