/**
 Message history: read-modify-write jobs on one record, queued by the write chain.
 */
module ChatStore {
  import opened Wrappers
  import opened WriteChain
  import Group

  type Account = Group.Account

  /** Plain fields by name, and reactions: for each emoji the accounts. */
  datatype StoredMessage = StoredMessage(id: string, fields: map<string, string>, reactions: Option<map<string,
      seq<Account>>>)

  type History = seq<StoredMessage>

  datatype HistoryOp =
    | Append(message: StoredMessage)
    | SetStatus(id: string, status: string, envelopeId: Option<string>)
    | MarkDeleted(id: string, at: string)
    | React(id: string, emoji: string, account: Account, active: bool)

  // ----- reactions

  function Unique(list: seq<Account>): seq<Account> {
    if list == [] then []
    else
      var before, last := Unique(list[..|list| - 1]), list[|list| - 1];
      if last in before then before else before + [last]
  }

  function Drop(list: seq<Account>, account: Account): seq<Account> {
    if list == [] then []
    else Drop(list[..|list| - 1], account) + if list[|list| - 1] == account then [] else [list[|list| - 1]]
  }

  function Insert(sorted: seq<Account>, a: Account): seq<Account> {
    if sorted == [] || Group.Less(a, sorted[0]) then [a] + sorted
    else [sorted[0]] + Insert(sorted[1..], a)
  }

  function Sort(list: seq<Account>): seq<Account> {
    if list == [] then [] else Insert(Sort(list[..|list| - 1]), list[|list| - 1])
  }

  function Toggled(list: seq<Account>, account: Account, active: bool): seq<Account> {
    var reacted := Unique(list);
    if !active then Drop(reacted, account)
    else if account in reacted then reacted else reacted + [account]
  }

  function Reacted(reactions: map<string, seq<Account>>, emoji: string, account: Account, active: bool): map<string,
      seq<Account>> {
    var list := Toggled(if emoji in reactions then reactions[emoji] else [], account, active);
    if list == [] then reactions - {emoji} else reactions[emoji := Sort(list)]
  }

  // ----- the jobs

  /** Object spread: the new message's fields win. */
  function Merge(existing: StoredMessage, m: StoredMessage): StoredMessage {
    StoredMessage(m.id, existing.fields + m.fields, if m.reactions.Some? then m.reactions else existing.reactions)
  }

  function Patch(op: HistoryOp, m: StoredMessage): StoredMessage {
    match op
    case Append(n) => Merge(m, n)
    case SetStatus(_, status, envelopeId) =>
      var fields := m.fields["status" := status];
      m.(fields := if envelopeId.Some? then fields["envelopeId" := envelopeId.value] else fields)
    case MarkDeleted(_, at) => m.(fields := (m.fields - {"attachment"})["body" := ""]["deletedAt" := at])
    case React(_, emoji, account, active) =>
      m.(reactions := Some(Reacted(if m.reactions.Some? then m.reactions.value else map[], emoji, account, active)))
  }

  function Target(op: HistoryOp): string {
    if op.Append? then op.message.id else op.id
  }

  function IndexOf(h: History, id: string): Option<nat> {
    if h == [] then None
    else
      var before := IndexOf(h[..|h| - 1], id);
      if before.Some? then before else if h[|h| - 1].id == id then Some(|h| - 1) else None
  }

  lemma {:induction false} IndexOfFinds(h: History, id: string)
    ensures var i := IndexOf(h, id);
      if i.Some? then i.value < |h| && h[i.value].id == id && forall k | 0 <= k < i.value :: h[k].id != id
      else forall k | 0 <= k < |h| :: h[k].id != id
  {
    if h != [] {
      IndexOfFinds(h[..|h| - 1], id);
    }
  }

  function Perform(op: HistoryOp, h: History): Effect<History> {
    IndexOfFinds(h, Target(op));
    var index := IndexOf(h, Target(op));
    if index.Some? then Write(h[index.value := Patch(op, h[index.value])])
    else if op.Append? then Write(h + [op.message])
    else Keep
  }

  // ----- what the jobs keep

  ghost predicate Strict(list: seq<Account>) {
    forall i, j | 0 <= i < j < |list| :: Group.Less(list[i], list[j])
  }

  /** Sorted, without repeats, and never empty. */
  ghost predicate GoodReactions(reactions: map<string, seq<Account>>) {
    forall emoji | emoji in reactions :: reactions[emoji] != [] && Strict(reactions[emoji])
  }

  ghost predicate GoodMessage(m: StoredMessage) {
    m.reactions.Some? ==> GoodReactions(m.reactions.value)
  }

  ghost predicate UniqueIds(h: History) {
    forall i, j | 0 <= i < j < |h| :: h[i].id != h[j].id
  }

  ghost predicate Good(h: History) {
    UniqueIds(h) && forall i | 0 <= i < |h| :: GoodMessage(h[i])
  }

  ghost predicate GoodOp(op: HistoryOp) {
    op.Append? ==> GoodMessage(op.message)
  }

  ghost predicate Distinct(list: seq<Account>) {
    forall i, j | 0 <= i < j < |list| :: list[i] != list[j]
  }

  lemma {:induction false} UniqueIsDistinct(list: seq<Account>)
    ensures Distinct(Unique(list)) && forall a :: a in Unique(list) <==> a in list
  {
    if list != [] {
      var front, last := list[..|list| - 1], list[|list| - 1];
      UniqueIsDistinct(front);
      assert list == front + [last];
    }
  }

  lemma {:induction false} DropDrops(list: seq<Account>, account: Account)
    requires Distinct(list)
    ensures Distinct(Drop(list, account)) && forall a :: a in Drop(list, account) <==> a in list && a != account
  {
    if list != [] {
      var front, last := list[..|list| - 1], list[|list| - 1];
      DropDrops(front, account);
      assert list == front + [last];
      assert last !in front;
    }
  }

  lemma {:induction false} InsertInserts(sorted: seq<Account>, a: Account)
    requires Strict(sorted) && a !in sorted
    ensures Strict(Insert(sorted, a)) && forall b :: b in Insert(sorted, a) <==> b in sorted || b == a
  {
    if sorted != [] {
      var first, rest := sorted[0], sorted[1..];
      assert sorted == [first] + rest;
      Group.LessIsTotal(a, first);
      if Group.Less(a, first) {
        StrictCons(a, sorted);
      } else {
        InsertInserts(rest, a);
        StrictCons(first, Insert(rest, a));
      }
    }
  }

  lemma StrictCons(a: Account, list: seq<Account>)
    requires Strict(list) && (list == [] || Group.Less(a, list[0]) || forall b | b in list :: Group.Less(a, b))
    ensures Strict([a] + list)
  {
    hide Group.Less;
    forall i | 0 <= i < |list| ensures Group.Less(a, list[i]) {
      if i > 0 && Group.Less(a, list[0]) {
        Group.LessIsTransitive(a, list[0], list[i]);
      }
    }
  }

  lemma {:induction false} SortSorts(list: seq<Account>)
    requires Distinct(list)
    ensures Strict(Sort(list)) && forall a :: a in Sort(list) <==> a in list
  {
    if list != [] {
      var front, last := list[..|list| - 1], list[|list| - 1];
      SortSorts(front);
      InsertInserts(Sort(front), last);
      assert list == front + [last];
    }
  }

  lemma ToggledExactly(list: seq<Account>, account: Account, active: bool)
    ensures Distinct(Toggled(list, account, active))
    ensures forall a :: a in Toggled(list, account, active) <==> if a == account then active else a in list
  {
    hide Unique, Drop;
    UniqueIsDistinct(list);
    if !active {
      DropDrops(Unique(list), account);
    }
  }

  function ReactionsOf(m: StoredMessage): map<string, seq<Account>> {
    if m.reactions.Some? then m.reactions.value else map[]
  }

  ghost predicate Has(reactions: map<string, seq<Account>>, emoji: string, account: Account) {
    emoji in reactions && account in reactions[emoji]
  }

  /** Exactly this account's reaction with this emoji is set or cleared. */
  lemma ReactedExactly(reactions: map<string, seq<Account>>, emoji: string, account: Account, active: bool)
    ensures forall e, a :: Has(Reacted(reactions, emoji, account, active), e, a) <==>
      if e == emoji && a == account then active else Has(reactions, e, a)
  {
    hide Toggled, Sort;
    var before := if emoji in reactions then reactions[emoji] else [];
    var list := Toggled(before, account, active);
    ToggledExactly(before, account, active);
    SortSorts(list);
    assert list != [] ==> list[0] in Sort(list);
    var after := Reacted(reactions, emoji, account, active);
    forall e, a ensures Has(after, e, a) <==> if e == emoji && a == account then active else Has(reactions, e, a) {
      assert a in list <==> if a == account then active else a in before;
    }
  }

  lemma ReactedIsGood(reactions: map<string, seq<Account>>, emoji: string, account: Account, active: bool)
    requires GoodReactions(reactions)
    ensures GoodReactions(Reacted(reactions, emoji, account, active))
  {
    hide Toggled, Sort, Group.Less;
    var list := Toggled(if emoji in reactions then reactions[emoji] else [], account, active);
    ToggledExactly(if emoji in reactions then reactions[emoji] else [], account, active);
    SortSorts(list);
    assert list != [] ==> list[0] in Sort(list);
  }

  lemma PatchIsGood(op: HistoryOp, m: StoredMessage)
    requires GoodMessage(m) && GoodOp(op) && m.id == Target(op)
    ensures GoodMessage(Patch(op, m)) && Patch(op, m).id == m.id
  {
    if op.React? {
      ReactedIsGood(if m.reactions.Some? then m.reactions.value else map[], op.emoji, op.account, op.active);
    }
  }

  /** The ids in order; a job keeps them all and adds at most its own at the end. */
  function Ids(h: History): seq<string> {
    seq(|h|, i requires 0 <= i < |h| => h[i].id)
  }

  lemma PerformKeepsGood(op: HistoryOp, h: History)
    requires Good(h) && GoodOp(op)
    ensures Good(Apply(Perform, op, h))
    ensures var ids := Ids(Apply(Perform, op, h));
      ids == if op.Append? && op.message.id !in Ids(h) then Ids(h) + [op.message.id] else Ids(h)
    ensures op.Append? ==> op.message.id in Ids(Apply(Perform, op, h))
  {
    IndexOfFinds(h, Target(op));
    var index := IndexOf(h, Target(op));
    hide IndexOf, Patch, GoodMessage;
    var h' := Apply(Perform, op, h);
    if index.Some? {
      PatchIsGood(op, h[index.value]);
      assert forall i | 0 <= i < |h| :: h'[i].id == h[i].id;
      assert Ids(h') == Ids(h) && Ids(h)[index.value] == Target(op);
    } else {
      assert Target(op) !in Ids(h);
      if op.Append? {
        assert Ids(h') == Ids(h) + [op.message.id];
        assert Ids(h')[|h|] == op.message.id;
      }
    }
  }

  /** A redelivered message changes nothing the second time. */
  lemma AppendIsIdempotent(m: StoredMessage, h: History)
    ensures var once := Apply(Perform, Append(m), h); Apply(Perform, Append(m), once) == once
  {
    var once := Apply(Perform, Append(m), h);
    IndexOfFinds(h, m.id);
    IndexOfFinds(once, m.id);
    var i, j := IndexOf(h, m.id), IndexOf(once, m.id);
    hide IndexOf;
    var at := if i.Some? then i.value else |h|;
    assert once[at].id == m.id && forall k | 0 <= k < at :: once[k] == h[k];
    assert j == Some(at);
    assert m.fields + m.fields == m.fields;
    assert Merge(once[at], m) == once[at];
  }

  /** An append leaves its own fields on the message with its id, and what the
      message had besides. */
  lemma AppendStores(m: StoredMessage, h: History) returns (at: nat)
    ensures var h' := Apply(Perform, Append(m), h);
      && |h| <= |h'| && at < |h'| && h'[at].id == m.id
      && (forall f | f in m.fields :: f in h'[at].fields && h'[at].fields[f] == m.fields[f])
      && (m.reactions.Some? ==> h'[at].reactions == m.reactions)
      && (at < |h| ==>
        && (forall f | f in h[at].fields && f !in m.fields :: f in h'[at].fields && h'[at].fields[f] == h[at].fields[f])
        && (m.reactions.None? ==> h'[at].reactions == h[at].reactions))
      && (forall i | 0 <= i < |h| && i != at :: h'[i] == h[i])
  {
    IndexOfFinds(h, m.id);
    var index := IndexOf(h, m.id);
    at := if index.Some? then index.value else |h|;
  }

  /** A status change, a retraction and a reaction each touch only their own part
      of the message they name, and no other message. */
  lemma PatchTouchesOnly(op: HistoryOp, h: History, i: nat)
    requires !op.Append? && i < |h|
    ensures var h' := Apply(Perform, op, h);
      && |h'| == |h|
      && (h[i].id != op.id ==> h'[i] == h[i])
      && (!op.React? ==> h'[i].reactions == h[i].reactions)
      && (op.React? ==> h'[i].fields == h[i].fields)
      && (op.React? ==> forall e, a | !(e == op.emoji && a == op.account) ::
            Has(ReactionsOf(h'[i]), e, a) <==> Has(ReactionsOf(h[i]), e, a))
      && (op.SetStatus? && op.envelopeId.None? ==>
            ("envelopeId" in h'[i].fields <==> "envelopeId" in h[i].fields)
            && ("envelopeId" in h[i].fields ==> h'[i].fields["envelopeId"] == h[i].fields["envelopeId"]))
      && (op.SetStatus? ==> h'[i].fields - {"status", "envelopeId"} == h[i].fields - {"status", "envelopeId"})
      && (op.MarkDeleted? ==>
        h'[i].fields - {"body", "attachment", "deletedAt"} == h[i].fields - {"body", "attachment", "deletedAt"})
  {
    IndexOfFinds(h, op.id);
    if op.React? {
      ReactedExactly(ReactionsOf(h[i]), op.emoji, op.account, op.active);
    }
    hide Reacted, IndexOf;
  }

  /** What a message looks like once a job has been done on it: an appended message
      has the appended fields, a status change its status, a retracted message no
      body and no attachment, a reaction is there or gone. */
  ghost predicate Shows(op: HistoryOp, m: StoredMessage) {
    match op
    case Append(n) =>
      && (forall f | f in n.fields :: f in m.fields && m.fields[f] == n.fields[f])
      && (n.reactions.Some? ==> m.reactions == n.reactions)
    case SetStatus(_, status, envelopeId) =>
      && "status" in m.fields && m.fields["status"] == status
      && (envelopeId.Some? ==> "envelopeId" in m.fields && m.fields["envelopeId"] == envelopeId.value)
    case MarkDeleted(_, at) =>
      && "body" in m.fields && m.fields["body"] == "" && "attachment" !in m.fields
      && "deletedAt" in m.fields && m.fields["deletedAt"] == at
    case React(_, emoji, account, active) => Has(ReactionsOf(m), emoji, account) <==> active
  }

  lemma PatchShows(op: HistoryOp, m: StoredMessage)
    ensures Shows(op, Patch(op, m))
  {
    if op.React? {
      ReactedExactly(ReactionsOf(m), op.emoji, op.account, op.active);
    }
    hide Reacted;
  }

  /** After a job its message shows it, and every other message is as it was. */
  lemma PerformShows(op: HistoryOp, h: History, i: nat)
    requires UniqueIds(h) && i < |Apply(Perform, op, h)|
    ensures var h' := Apply(Perform, op, h);
      if h'[i].id == Target(op) then Shows(op, h'[i]) else i < |h| && h'[i] == h[i]
  {
    IndexOfFinds(h, Target(op));
    var index := IndexOf(h, Target(op));
    if index.Some? {
      PatchShows(op, h[index.value]);
      PatchKeepsId(op, h[index.value]);
    }
    hide IndexOf, Patch;
  }

  lemma PatchKeepsId(op: HistoryOp, m: StoredMessage)
    requires m.id == Target(op)
    ensures Patch(op, m).id == m.id
  {
  }

  // ----- every interleaving

  ghost predicate AppendedIn(jobs: seq<Job<History, HistoryOp>>, key: Key, h: History) {
    forall j | 0 <= j < |jobs| && jobs[j].key == key && jobs[j].phase == Settled(false) && jobs[j].op.Append? ::
      jobs[j].op.message.id in Ids(h)
  }

  lemma NothingAppended(jobs: seq<Job<History, HistoryOp>>, key: Key, h: History)
    requires jobs == []
    ensures AppendedIn(jobs, key, h)
  {
  }

  lemma AppendedMore(jobs: seq<Job<History, HistoryOp>>, key: Key, h: History, h': History)
    requires jobs != [] && AppendedIn(jobs[..|jobs| - 1], key, h) && Ids(h) <= Ids(h')
    requires var last := jobs[|jobs| - 1];
      last.key == key && last.phase == Settled(false) && last.op.Append? ==> last.op.message.id in Ids(h')
    ensures AppendedIn(jobs, key, h')
  {
    hide Ids;
    forall j | 0 <= j < |jobs| && jobs[j].key == key && jobs[j].phase == Settled(false) && jobs[j].op.Append?
      ensures jobs[j].op.message.id in Ids(h')
    {
      if j < |jobs| - 1 {
        assert jobs[..|jobs| - 1][j] == jobs[j];
      }
    }
  }

  lemma {:induction false} SerialIsGood(jobs: seq<Job<History, HistoryOp>>, key: Key, h: History)
    requires Good(h) && forall j | 0 <= j < |jobs| :: GoodOp(jobs[j].op)
    ensures var h' := Serial(Perform, jobs, key, h);
      Good(h') && Ids(h) <= Ids(h') && AppendedIn(jobs, key, h')
  {
    hide Good, GoodOp, Perform, Ids, AppendedIn, Apply;
    if jobs == [] {
      NothingAppended(jobs, key, h);
    } else {
      var front, last := jobs[..|jobs| - 1], jobs[|jobs| - 1];
      SerialIsGood(front, key, h);
      var before, after := Serial(Perform, front, key, h), Serial(Perform, jobs, key, h);
      PerformKeepsGood(last.op, before);
      AppendedMore(jobs, key, before, after);
    }
  }

  /** Whatever the interleaving and whichever jobs fail, a history keeps unique
      ids and good reaction lists, loses no id, and holds every message whose
      append settled without failing. */
  lemma HistoryOfRun(ws: seq<World<History, HistoryOp>>, actions: seq<Action<HistoryOp>>, i: nat, key: Key)
    requires IsRun(ws, actions) && i < |ws| && ws[i].run == Perform
    requires Good(Read(ws[i].initial, key, ws[i].empty))
    requires forall j | 0 <= j < |ws[i].jobs| :: GoodOp(ws[i].jobs[j].op)
    ensures var h := Read(ws[i].records, key, ws[i].empty);
      Good(h) && Ids(Read(ws[i].initial, key, ws[i].empty)) <= Ids(h) && AppendedIn(ws[i].jobs, key, h)
  {
    hide Good, GoodOp, Perform, Ids, IsRun, AppendedIn, OrderOk;
    InterleavingIsSerial(ws, actions, i, key);
    SerialIsGood(ws[i].jobs, key, Read(ws[i].initial, key, ws[i].empty));
  }

  /** `j` is the last job on its message that settled without failing. */
  ghost predicate IsLatest(jobs: seq<Job<History, HistoryOp>>, key: Key, j: nat) {
    && j < |jobs| && jobs[j].key == key && jobs[j].phase == Settled(false)
    && forall k | j < k < |jobs| && jobs[k].key == key && jobs[k].phase == Settled(false) ::
         Target(jobs[k].op) != Target(jobs[j].op)
  }

  ghost predicate ShownIn(op: HistoryOp, h: History) {
    forall i | 0 <= i < |h| && h[i].id == Target(op) :: Shows(op, h[i])
  }

  lemma {:induction false} LatestJobShows(jobs: seq<Job<History, HistoryOp>>, key: Key, h: History, j: nat)
    requires Good(h) && (forall k | 0 <= k < |jobs| :: GoodOp(jobs[k].op)) && IsLatest(jobs, key, j)
    ensures ShownIn(jobs[j].op, Serial(Perform, jobs, key, h))
  {
    hide Perform, GoodOp, Apply, Shows;
    var front, last := jobs[..|jobs| - 1], jobs[|jobs| - 1];
    SerialIsGood(front, key, h);
    var before, after := Serial(Perform, front, key, h), Serial(Perform, jobs, key, h);
    if j < |front| {
      LatestJobShows(front, key, h, j);
    }
    if last.key == key && last.phase == Settled(false) {
      forall i | 0 <= i < |after| && after[i].id == Target(jobs[j].op) ensures Shows(jobs[j].op, after[i]) {
        PerformShows(last.op, before, i);
      }
    }
  }

  /** In every run and at every point of it, a message shows the last job on it that
      has settled without failing: a retraction leaves no body and no attachment. */
  lemma LatestJobShowsInRun(ws: seq<World<History, HistoryOp>>, actions: seq<Action<HistoryOp>>,
                            i: nat, key: Key, j: nat)
    requires IsRun(ws, actions) && i < |ws| && ws[i].run == Perform
    requires Good(Read(ws[i].initial, key, ws[i].empty))
    requires forall k | 0 <= k < |ws[i].jobs| :: GoodOp(ws[i].jobs[k].op)
    requires IsLatest(ws[i].jobs, key, j)
    ensures ShownIn(ws[i].jobs[j].op, Read(ws[i].records, key, ws[i].empty))
  {
    hide Good, GoodOp, Perform, IsRun, OrderOk, ShownIn;
    InterleavingIsSerial(ws, actions, i, key);
    LatestJobShows(ws[i].jobs, key, Read(ws[i].initial, key, ws[i].empty), j);
  }

  // ----- the store

  class ChatStore {
    var jobs: seq<Job<History, HistoryOp>>
    var writeChains: map<Key, nat>
    var records: map<Key, History>
    const initial: map<Key, History>

    ghost function Now(): World<History, HistoryOp>
      reads this
    {
      World(Perform, [], initial, jobs, writeChains, records)
    }

    constructor (vault: map<Key, History>)
      ensures Now() == World(Perform, [], vault, [], map[], vault)
    {
      jobs, writeChains, records, initial := [], map[], vault, vault;
    }

    /** Chains a job behind whatever the record is waiting for. */
    method Serialize(key: Key, op: HistoryOp)
      modifies this
      ensures Now() == Next(old(Now()), Call(key, op))
    {
      var previous := if key in writeChains then Some(writeChains[key]) else None;
      writeChains := writeChains[key := |jobs|];
      jobs := jobs + [Job(key, op, previous, Waiting)];
    }

    /** The vault read of a job whose turn has come. */
    method Begin(j: nat, fails: bool)
      requires Possible(Now(), Start(j, fails))
      modifies this
      ensures Now() == Next(old(Now()), Start(j, fails))
    {
      var seen := Read(records, jobs[j].key, []);
      jobs := jobs[j := jobs[j].(phase := if fails then Settled(true) else Holding(seen))];
    }

    /** The rest of the job: find, change in place or push, and write back. */
    method Complete(j: nat, fails: bool)
      requires Possible(Now(), Finish(j, fails))
      modifies this
      ensures Now() == Next(old(Now()), Finish(j, fails))
    {
      hide Patch, IndexOf;
      var op, history := jobs[j].op, jobs[j].phase.seen;
      if fails {
        jobs := jobs[j := jobs[j].(phase := Settled(true))];
        return;
      }
      var index := FindIndex(history, Target(op));
      if index.Some? {
        history := history[index.value := Patch(op, history[index.value])];
        records := records[jobs[j].key := history];
      } else if op.Append? {
        history := history + [op.message];
        records := records[jobs[j].key := history];
      }
      jobs := jobs[j := jobs[j].(phase := Settled(false))];
    }
  }

  method FindIndex(history: History, id: string) returns (index: Option<nat>)
    ensures index == IndexOf(history, id)
    ensures index.Some? ==> index.value < |history|
  {
    for i := 0 to |history|
      invariant IndexOf(history[..i], id) == None
    {
      assert history[..i + 1][..i] == history[..i];
      if history[i].id == id {
        IndexOfFinds(history, id);
        IndexOfFinds(history[..i], id);
        assert forall k | 0 <= k < i :: history[..i][k] == history[k];
        return Some(i);
      }
    }
    assert history[..|history|] == history;
    index := None;
  }
}
