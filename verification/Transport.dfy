/**
 The queue table and the client transport as objects: a page of the oldest live
 envelopes, the bounded memory of handled ids, and the drain loop.
 */
module Transport {
  import opened Delivery

  const MAX_ENVELOPE_BYTES: nat := 65536
  const MAX_ENVELOPES_PER_FETCH: nat := 100
  const MAX_QUEUED_PER_RECIPIENT: nat := 10000
  const MAX_DRAIN_PAGES: nat := 100
  const ENVELOPE_TTL: nat := 30 * 24 * 3600

  // ----- the table

  /** Queue order: by creation time, then id. */
  predicate Older(rows: map<Id, Row>, a: Id, b: Id)
    requires a in rows && b in rows
  {
    rows[a].createdAt < rows[b].createdAt || (rows[a].createdAt == rows[b].createdAt && a < b)
  }

  function LiveIds(rows: map<Id, Row>, recipient: Account, now: int): set<Id> {
    set id | id in rows && rows[id].recipient == recipient && rows[id].expiresAt > now
  }

  ghost predicate InOrder(rows: map<Id, Row>, ids: seq<Id>) {
    && (forall i | 0 <= i < |ids| :: ids[i] in rows)
    && forall i, j | 0 <= i < j < |ids| :: Older(rows, ids[i], ids[j])
  }

  /** By creation time, and by id among envelopes created together. */
  ghost predicate OldestFirst(rows: map<Id, Row>, ids: seq<Id>) {
    forall i, j | 0 <= i < j < |ids| ::
      && ids[i] in rows && ids[j] in rows
      && rows[ids[i]].createdAt <= rows[ids[j]].createdAt
      && (rows[ids[i]].createdAt == rows[ids[j]].createdAt ==> ids[i] < ids[j])
  }

  lemma InOrderIsOldestFirst(rows: map<Id, Row>, ids: seq<Id>)
    requires InOrder(rows, ids)
    ensures OldestFirst(rows, ids)
  {
  }

  function Elements(ids: seq<Id>): set<Id> {
    set id | id in ids
  }

  /** The oldest of a set of rows, as many as fit a page, oldest first. */
  ghost predicate IsPage(rows: map<Id, Row>, queue: set<Id>, page: seq<Id>) {
    && InOrder(rows, page)
    && Elements(page) <= queue <= rows.Keys
    && |page| == (if |queue| <= MAX_ENVELOPES_PER_FETCH then |queue| else MAX_ENVELOPES_PER_FETCH)
    && forall a, b | a in page && b in queue && b !in page :: Older(rows, a, b)
  }

  method OldestOf(rows: map<Id, Row>, ids: set<Id>) returns (oldest: Id)
    requires ids != {} && ids <= rows.Keys
    ensures oldest in ids && forall b | b in ids && b != oldest :: Older(rows, oldest, b)
  {
    oldest :| oldest in ids;
    var left := ids - {oldest};
    while left != {}
      invariant left <= ids && oldest in ids && oldest !in left
      invariant forall b | b in ids && b !in left && b != oldest :: Older(rows, oldest, b)
      decreases left
    {
      var id :| id in left;
      left := left - {id};
      if Older(rows, id, oldest) {
        oldest := id;
      }
    }
  }

  lemma InOrderSnoc(rows: map<Id, Row>, ids: seq<Id>, id: Id)
    requires InOrder(rows, ids) && id in rows && forall a | a in ids :: Older(rows, a, id)
    ensures InOrder(rows, ids + [id]) && Elements(ids + [id]) == Elements(ids) + {id}
  {
    assert forall i | 0 <= i < |ids| :: ids[i] in ids;
  }

  method OldestPage(rows: map<Id, Row>, queue: set<Id>) returns (page: seq<Id>)
    requires queue <= rows.Keys
    ensures IsPage(rows, queue, page)
  {
    page := [];
    var left := queue;
    while left != {} && |page| < MAX_ENVELOPES_PER_FETCH
      invariant left <= queue && Elements(page) == queue - left
      invariant |page| + |left| == |queue| && |page| <= MAX_ENVELOPES_PER_FETCH
      invariant InOrder(rows, page)
      invariant forall a, b | a in page && b in left :: Older(rows, a, b)
      decreases left
    {
      var id := OldestOf(rows, left);
      InOrderSnoc(rows, page, id);
      page := page + [id];
      left := left - {id};
    }
    assert forall b | b in queue && b !in page :: b !in Elements(page);
  }

  /** At most a hundred live envelopes of the recipient, oldest first; if any is left
      out the page is full, and none left out is older than one on the page. */
  ghost predicate OldestLive(rows: map<Id, Row>, recipient: Account, now: int, page: seq<Id>) {
    && |page| <= 100 && OldestFirst(rows, page)
    && (forall id | id in page :: id in rows && rows[id].recipient == recipient && rows[id].expiresAt > now)
    && forall id | id in rows && rows[id].recipient == recipient && rows[id].expiresAt > now && id !in page ::
         && |page| == 100
         && forall a | a in page ::
              && a in rows && rows[a].createdAt <= rows[id].createdAt
              && (rows[a].createdAt == rows[id].createdAt ==> a < id)
  }

  lemma PageIsOldestLive(rows: map<Id, Row>, recipient: Account, now: int)
    ensures LiveIds(rows, recipient, now) <= rows.Keys
    ensures forall page | IsPage(rows, LiveIds(rows, recipient, now), page) :: OldestLive(rows, recipient, now, page)
  {
    var queue := LiveIds(rows, recipient, now);
    forall page | IsPage(rows, queue, page) ensures OldestLive(rows, recipient, now, page) {
      InOrderIsOldestFirst(rows, page);
      hide InOrder, OldestFirst;
      assert forall a | a in page :: a in Elements(page) && a in queue;
      if |queue| <= 100 {
        FullPage(rows, queue, page);
      }
    }
  }

  /** A page as long as the queue leaves nothing out. */
  lemma FullPage(rows: map<Id, Row>, queue: set<Id>, page: seq<Id>)
    requires IsPage(rows, queue, page) && |queue| <= 100
    ensures forall b | b in queue :: b in page
  {
    InOrderIsDistinct(rows, page);
    DistinctCounts(page);
    SubsetFills(Elements(page), queue);
    assert forall b | b in queue :: b in Elements(page);
  }

  datatype StoreResult = Stored(id: Id) | EmptyPayload | TooLarge | NoRecipient | QueueFull

  class EnvelopeTable {
    var rows: map<Id, Row>
    var accounts: set<Account>

    constructor (accounts: set<Account>)
      ensures rows == map[] && this.accounts == accounts
    {
      rows, this.accounts := map[], accounts;
    }

    /** Queues an envelope; the id is one the database has never issued. */
    method StoreEnvelope(recipient: Account, size: nat, now: int, id: Id) returns (r: StoreResult)
      requires id !in rows
      modifies this`rows
      ensures r == (if size == 0 then EmptyPayload
                    else if size > 65536 then TooLarge
                    else if recipient !in accounts then NoRecipient
                    else if |LiveIds(old(rows), recipient, now)| >= 10000 then QueueFull
                    else Stored(id))
      ensures rows == if r.Stored? then old(rows)[id := Row(recipient, now, now + 30 * 24 * 3600)] else old(rows)
      ensures r.Stored? ==> |LiveIds(rows, recipient, now)| <= 10000
    {
      if size == 0 {
        return EmptyPayload;
      }
      if size > MAX_ENVELOPE_BYTES {
        return TooLarge;
      }
      if recipient !in accounts {
        return NoRecipient;
      }
      var queue := LiveIds(rows, recipient, now);
      if |queue| >= MAX_QUEUED_PER_RECIPIENT {
        return QueueFull;
      }
      rows := rows[id := Row(recipient, now, now + ENVELOPE_TTL)];
      assert LiveIds(rows, recipient, now) == queue + {id};
      r := Stored(id);
    }

    /** The oldest live envelopes of the recipient, by creation time and then by id.
        Fetching deletes nothing, so the same call gives the same page again. */
    method FetchEnvelopes(recipient: Account, now: int) returns (page: seq<Id>)
      ensures IsPage(rows, LiveIds(rows, recipient, now), page)
      ensures OldestLive(rows, recipient, now, page)
    {
      hide IsPage, LiveIds, OldestLive;
      PageIsOldestLive(rows, recipient, now);
      page := OldestPage(rows, LiveIds(rows, recipient, now));
    }

    method AcknowledgeEnvelopes(recipient: Account, ids: set<Id>) returns (removed: nat)
      modifies this`rows
      ensures rows == Acknowledge(old(rows), recipient, ids)
      ensures forall id | id in old(rows) && old(rows)[id].recipient != recipient ::
          id in rows && rows[id] == old(rows)[id]
      ensures forall id | id in ids && id in rows :: rows[id].recipient != recipient
      ensures removed == |old(rows)| - |rows|
    {
      var gone := set id | id in rows && rows[id].recipient == recipient && id in ids;
      var left := Acknowledge(rows, recipient, ids);
      assert left.Keys == rows.Keys - gone;
      removed := |gone|;
      assert |rows.Keys| == |left.Keys| + |gone|;
      rows := left;
    }

    method DeleteExpiredEnvelopes(now: int) returns (removed: nat)
      modifies this`rows
      ensures rows == DeleteExpired(old(rows), now)
      ensures forall who :: LiveIds(rows, who, now) == LiveIds(old(rows), who, now)
      ensures forall id | id in rows :: rows[id].expiresAt > now
      ensures removed == |old(rows)| - |rows|
    {
      var gone := set id | id in rows && rows[id].expiresAt <= now;
      var left := DeleteExpired(rows, now);
      assert left.Keys == rows.Keys - gone;
      removed := |gone|;
      assert |rows.Keys| == |left.Keys| + |gone|;
      rows := left;
    }
  }

  // ----- the client

  lemma DistinctSuffix(ids: seq<Id>, k: nat)
    requires Distinct(ids) && k <= |ids|
    ensures Distinct(ids[k..])
  {
  }

  /** An acknowledgement reaches the server and is answered, reaches it and the
      answer is lost, or never reaches it. */
  datatype Ack = Answered | AnswerLost | NotServed

  /** How each fetch and each handler run goes, counted from the first: the same
      envelope may fail on one page and succeed on the next. */
  datatype Fate = Fate(fetches: nat -> bool, handles: nat -> bool, acks: nat -> Ack)
  {
    ghost predicate AllSucceed() {
      forall n :: fetches(n) && handles(n) && acks(n) == Answered
    }

    ghost predicate NoneSucceeds() {
      forall n :: !(handles(n) && acks(n) == Answered)
    }
  }

  /** Removing rows one by one is removing them together. */
  lemma AcknowledgeMore(rows: map<Id, Row>, recipient: Account, some: set<Id>, more: set<Id>)
    ensures Acknowledge(Acknowledge(rows, recipient, some), recipient, more)
        == Acknowledge(rows, recipient, some + more)
  {
  }

  /** Part way through a drain: the oldest rows are gone, in order. */
  ghost predicate Drained(rows: map<Id, Row>, queue: set<Id>, recipient: Account, left: map<Id, Row>, done: seq<Id>) {
    && InOrder(rows, done) && Elements(done) <= queue <= rows.Keys
    && left == Acknowledge(rows, recipient, Elements(done))
    && forall a, b | a in done && b in queue && b !in done :: Older(rows, a, b)
  }

  lemma InOrderIsDistinct(rows: map<Id, Row>, ids: seq<Id>)
    requires InOrder(rows, ids)
    ensures Distinct(ids)
  {
  }

  lemma {:induction false} DistinctCounts(ids: seq<Id>)
    requires Distinct(ids)
    ensures |Elements(ids)| == |ids|
  {
    if ids != [] {
      var last := |ids| - 1;
      DistinctCounts(ids[..last]);
      assert Elements(ids) == Elements(ids[..last]) + {ids[last]};
    }
  }

  /** One more page: it continues the order and takes the next oldest. */
  lemma DrainedPage(rows: map<Id, Row>, queue: set<Id>, recipient: Account, now: int, left: map<Id, Row>,
      done: seq<Id>, page: seq<Id>)
    requires queue == LiveIds(rows, recipient, now) && Drained(rows, queue, recipient, left, done)
    requires IsPage(left, LiveIds(left, recipient, now), page)
    ensures LiveIds(left, recipient, now) == queue - Elements(done)
    ensures Elements(page) <= queue - Elements(done)
    ensures Drained(rows, queue, recipient, Acknowledge(left, recipient, Elements(page)), done + page)
    ensures |page| == MAX_ENVELOPES_PER_FETCH || |done + page| == |queue|
    ensures |done + page| <= |queue|
  {
    var rest := LiveIds(left, recipient, now);
    assert rest == queue - Elements(done);
    InOrderIsDistinct(rows, done);
    DistinctCounts(done);
    assert |rest| == |queue| - |done|;
    AcknowledgeMore(rows, recipient, Elements(done), Elements(page));
    assert Elements(done + page) == Elements(done) + Elements(page);
    var all := done + page;
    forall i, j | 0 <= i < j < |all| ensures all[i] in rows && all[j] in rows && Older(rows, all[i], all[j]) {
      if i < |done| && j >= |done| {
        assert all[i] in done && all[j] in page && all[j] in Elements(page);
      } else if i >= |done| {
        assert all[i] == page[i - |done|] && all[j] == page[j - |done|];
        assert Older(left, all[i], all[j]);
      }
    }
    forall i | 0 <= i < |all| ensures all[i] in rows {
      assert i >= |done| ==> page[i - |done|] in Elements(page);
    }
    forall a, b | a in all && b in queue && b !in all ensures Older(rows, a, b) {
      if a in page {
        assert b in rest && Older(left, a, b);
      }
    }
  }

  lemma DrainedAll(rows: map<Id, Row>, queue: set<Id>, recipient: Account, now: int, left: map<Id, Row>, done: seq<Id>)
    requires queue == LiveIds(rows, recipient, now) && Drained(rows, queue, recipient, left, done) && |done| >= |queue|
    ensures LiveIds(left, recipient, now) == {} && Elements(done) == queue && |done| == |queue|
  {
    InOrderIsDistinct(rows, done);
    DistinctCounts(done);
    SubsetFills(Elements(done), queue);
  }

  lemma SubsetFills(a: set<Id>, b: set<Id>)
    requires a <= b && |a| >= |b|
    ensures a == b
  {
    assert |b| == |a| + |b - a|;
  }

  class Connection {
    var inFlight: set<Id>
    var handled: seq<Id>
    /** Every handler run, in the order they began. */
    var runs: seq<Id>

    ghost predicate Valid()
      reads this
    {
      |handled| <= MAX_REMEMBERED_IDS && Distinct(handled)
    }

    constructor ()
      ensures Valid() && inFlight == {} && handled == [] && runs == []
    {
      inFlight, handled, runs := {}, [], [];
    }

    method RememberId(id: Id)
      requires Valid()
      modifies this`inFlight, this`handled
      ensures Valid()
      ensures inFlight == old(inFlight) - {id} && handled == Recent(Add(old(handled), id))
    {
      inFlight := inFlight - {id};
      if id !in handled {
        handled := handled + [id];
      }
      ghost var all, k := handled, 0;
      assert Distinct(all);
      while |handled| > MAX_REMEMBERED_IDS
        invariant k <= |all| && handled == all[k..] && |handled| == |all| - k
        invariant k > 0 ==> |handled| >= MAX_REMEMBERED_IDS
        invariant inFlight == old(inFlight) - {id}
      {
        handled := handled[1..];
        k := k + 1;
      }
      DistinctSuffix(all, k);
      assert k == 0 ==> all[k..] == all;
      assert handled == Recent(all);
    }

    /** One envelope: deduplicate, handle, then acknowledge.  Once handled it is
        remembered, however the acknowledgement went. */
    method Deliver(table: EnvelopeTable, recipient: Account, id: Id, fate: Fate) returns (acknowledged: bool)
      requires Valid()
      modifies this, table`rows
      ensures Valid() && inFlight == old(inFlight)
      ensures var duplicate, n := id in old(inFlight) || id in old(handled), |old(runs)|;
        && runs == (if duplicate then old(runs) else old(runs) + [id])
        && handled == (if duplicate || !fate.handles(n) then old(handled) else Recent(Add(old(handled), id)))
        && table.rows == (if duplicate || !fate.handles(n) || fate.acks(n).NotServed? then old(table.rows)
                          else Acknowledge(old(table.rows), recipient, {id}))
        && acknowledged == (!duplicate && fate.handles(n) && fate.acks(n).Answered?)
    {
      if id in inFlight || id in handled {
        return false;
      }
      inFlight := inFlight + {id};
      var n := |runs|;
      runs := runs + [id];
      if !fate.handles(n) {
        inFlight := inFlight - {id};
        return false;
      }
      if !fate.acks(n).NotServed? {
        var removed := table.AcknowledgeEnvelopes(recipient, {id});
      }
      RememberId(id);
      return fate.acks(n).Answered?;
    }

    /** Nothing in the way: no id seen before. */
    ghost predicate Unseen(ids: set<Id>)
      reads this
    {
      forall id | id in ids :: id !in inFlight && id !in handled
    }

    method DeliverPage(table: EnvelopeTable, recipient: Account, page: seq<Id>, fate: Fate) returns (acknowledged: bool)
      requires Valid() && Distinct(page)
      modifies this, table`rows
      ensures Valid() && inFlight == old(inFlight) && old(runs) <= runs
      ensures old(Unseen(Elements(page))) && fate.AllSucceed() ==>
        && acknowledged == (page != [])
        && runs == old(runs) + page
        && table.rows == Acknowledge(old(table.rows), recipient, Elements(page))
        && forall id | id in handled :: id in old(handled) || id in page
      ensures OnlyHandledLeave(old(table.rows), table.rows, recipient, fate, runs, |old(runs)|)
      ensures acknowledged ==> !fate.NoneSucceeds()
    {
      hide Acknowledge, OnlyHandledLeave, Recent, Add;
      LeavingNothing(table.rows, recipient, fate, runs, |runs|);
      NoneAcknowledged(table.rows, recipient);
      acknowledged := false;
      var i := 0;
      while i < |page|
        invariant 0 <= i <= |page| && Valid() && inFlight == old(inFlight) && old(runs) <= runs
        invariant old(Unseen(Elements(page))) && fate.AllSucceed() ==>
          && acknowledged == (i > 0)
          && runs == old(runs) + page[..i]
          && table.rows == Acknowledge(old(table.rows), recipient, Elements(page[..i]))
          && forall id | id in handled :: id in old(handled) || id in page[..i]
        invariant OnlyHandledLeave(old(table.rows), table.rows, recipient, fate, runs, |old(runs)|)
        invariant acknowledged ==> !fate.NoneSucceeds()
      {
        assert page[i] in page;
        assert page[i] !in page[..i];
        assert Elements(page[..i + 1]) == Elements(page[..i]) + {page[i]};
        AcknowledgeMore(old(table.rows), recipient, Elements(page[..i]), {page[i]});
        LeavingOne(old(table.rows), table.rows, recipient, page[i], fate, runs, |old(runs)|);
        RecentlyAdded(handled, page[i]);
        var ok := Deliver(table, recipient, page[i], fate);
        if ok {
          acknowledged := true;
        }
        i := i + 1;
      }
      assert page[..i] == page;
    }

    lemma StillUnseen(queue: set<Id>, done: seq<Id>, page: seq<Id>)
      requires forall id | id in queue :: id !in inFlight
      requires forall id | id in handled :: id !in queue || id in done
      requires Elements(page) <= queue - Elements(done)
      ensures Unseen(Elements(page))
    {
    }

    /** The drain so far, with nothing in the way of the rest. */
    ghost predicate DrainsOn(rows: map<Id, Row>, queue: set<Id>, recipient: Account, left: map<Id, Row>, done: seq<Id>)
      reads this
    {
      && Drained(rows, queue, recipient, left, done)
      && (forall id | id in queue :: id !in inFlight)
      && (forall id | id in handled :: id !in queue || id in done)
    }

    /** One page of the drain. */
    method DrainPage(table: EnvelopeTable, recipient: Account, now: int, fate: Fate,
                     ghost rows: map<Id, Row>, ghost from: nat, ghost done: seq<Id>, ghost smooth: bool)
        returns (page: seq<Id>, acknowledged: bool)
      requires Valid() && from <= |runs| && OnlyHandledLeave(rows, table.rows, recipient, fate, runs, from)
      requires smooth ==>
        fate.AllSucceed() && DrainsOn(rows, LiveIds(rows, recipient, now), recipient, table.rows, done)
      modifies this, table`rows
      ensures Valid() && inFlight == old(inFlight) && old(runs) <= runs
      ensures OnlyHandledLeave(rows, table.rows, recipient, fate, runs, from)
      ensures acknowledged ==> !fate.NoneSucceeds()
      ensures smooth ==>
        && var queue := LiveIds(rows, recipient, now);
        && DrainsOn(rows, queue, recipient, table.rows, done + page)
        && runs == old(runs) + page && acknowledged == (page != [])
        && (|page| == MAX_ENVELOPES_PER_FETCH || |done + page| == |queue|) && |done + page| <= |queue|
    {
      hide Drained, InOrder, IsPage, LiveIds, OldestLive, OnlyHandledLeave, Acknowledge, Distinct;
      hide Fate.AllSucceed, Fate.NoneSucceeds;
      page := table.FetchEnvelopes(recipient, now);
      ghost var before, ran := table.rows, runs;
      PageIsDistinct(before, recipient, now, page);
      if smooth {
        DrainedPage(rows, LiveIds(rows, recipient, now), recipient, now, before, done, page);
        StillUnseen(LiveIds(rows, recipient, now), done, page);
      }
      acknowledged := DeliverPage(table, recipient, page, fate);
      LeavingIsTransitive(rows, before, table.rows, recipient, fate, ran, runs, from);
    }

    /** Catches up: pages until one is empty, none is acknowledged, or the bound.
        Whatever fails, a row goes only after a handler run for it in this drain
        resolved. */
    method DrainBacklog(table: EnvelopeTable, recipient: Account, now: int, fate: Fate) returns (fetches: nat)
      requires Valid()
      modifies this, table`rows
      ensures Valid() && inFlight == old(inFlight) && fetches <= 100 && old(runs) <= runs
      ensures OnlyHandledLeave(old(table.rows), table.rows, recipient, fate, runs, |old(runs)|)
      ensures fate.NoneSucceeds() ==> fetches <= 1
      ensures var queue := old(LiveIds(table.rows, recipient, now));
        old(Unseen(queue)) && fate.AllSucceed() && |queue| <= 10000 ==>
          && LiveIds(table.rows, recipient, now) == {} && fetches * 100 <= |queue| + 199
          && |runs| == |old(runs)| + |queue|
          && Elements(runs[|old(runs)|..]) == queue
          && InOrder(old(table.rows), runs[|old(runs)|..])
          && OldestFirst(old(table.rows), runs[|old(runs)|..])
    {
      hide Drained, InOrder, LiveIds, OnlyHandledLeave, Elements, Distinct, OldestFirst;
      ghost var rows, queue := table.rows, LiveIds(table.rows, recipient, now);
      NothingDrained(rows, recipient, now);
      LeavingNothing(rows, recipient, fate, runs, |runs|);
      ghost var smooth := Unseen(queue) && fate.AllSucceed();
      ghost var done: seq<Id> := [];
      fetches := 0;
      while fetches < MAX_DRAIN_PAGES
        invariant fetches <= MAX_DRAIN_PAGES && Valid() && inFlight == old(inFlight) && old(runs) <= runs
        invariant OnlyHandledLeave(rows, table.rows, recipient, fate, runs, |old(runs)|)
        invariant smooth ==> DrainsOn(rows, queue, recipient, table.rows, done) && runs == old(runs) + done
        invariant smooth ==> |done| >= fetches * MAX_ENVELOPES_PER_FETCH || |done| == |queue|
        invariant smooth ==> fetches * 100 <= |done| + 99 && |done| <= |queue|
        invariant fate.NoneSucceeds() ==> fetches == 0
      {
        fetches := fetches + 1;
        if !fate.fetches(fetches - 1) {
          break;
        }
        var page, acknowledged := DrainPage(table, recipient, now, fate, rows, |old(runs)|, done, smooth);
        done := done + page;
        if page == [] || !acknowledged {
          break;
        }
      }
      if smooth && |queue| <= MAX_QUEUED_PER_RECIPIENT {
        DrainedAll(rows, queue, recipient, now, table.rows, done);
        DrainedInOrder(rows, queue, recipient, table.rows, done);
        InOrderIsOldestFirst(rows, done);
        assert runs[|old(runs)|..] == done;
      }
    }
  }

  lemma NoneAcknowledged(rows: map<Id, Row>, recipient: Account)
    ensures Acknowledge(rows, recipient, Elements([])) == rows
  {
  }

  lemma RecentlyAdded(ids: seq<Id>, id: Id)
    ensures forall x | x in Recent(Add(ids, id)) :: x in ids || x == id
  {
  }

  lemma NothingDrained(rows: map<Id, Row>, recipient: Account, now: int)
    ensures Drained(rows, LiveIds(rows, recipient, now), recipient, rows, [])
  {
  }

  lemma PageIsDistinct(rows: map<Id, Row>, recipient: Account, now: int, page: seq<Id>)
    requires IsPage(rows, LiveIds(rows, recipient, now), page)
    ensures Distinct(page)
  {
  }

  lemma DrainedInOrder(rows: map<Id, Row>, queue: set<Id>, recipient: Account, left: map<Id, Row>, done: seq<Id>)
    requires Drained(rows, queue, recipient, left, done)
    ensures InOrder(rows, done)
  {
  }

  // ----- what may leave the table

  ghost predicate Resolved(fate: Fate, runs: seq<Id>, from: nat, id: Id) {
    exists n :: from <= n < |runs| && runs[n] == id && fate.handles(n)
  }

  /** A row goes only if it was the recipient's and a handler run for it resolved. */
  ghost predicate OnlyHandledLeave(before: map<Id, Row>, after: map<Id, Row>, recipient: Account, fate: Fate,
                                   runs: seq<Id>, from: nat) {
    && (forall id | id in after :: id in before && before[id] == after[id])
    && (forall id | id in before && id !in after :: before[id].recipient == recipient && Resolved(fate, runs, from, id))
  }

  lemma LeavingNothing(rows: map<Id, Row>, recipient: Account, fate: Fate, runs: seq<Id>, from: nat)
    ensures OnlyHandledLeave(rows, rows, recipient, fate, runs, from)
  {
  }

  lemma ResolvedStays(fate: Fate, runs: seq<Id>, runs': seq<Id>, from: nat, from': nat, id: Id)
    requires runs <= runs' && from' <= from && Resolved(fate, runs, from, id)
    ensures Resolved(fate, runs', from', id)
  {
    var n :| from <= n < |runs| && runs[n] == id && fate.handles(n);
    assert runs'[n] == id;
  }

  /** One more handler run, and its row gone if it resolved. */
  lemma LeavingOne(rows: map<Id, Row>, left: map<Id, Row>, recipient: Account, id: Id, fate: Fate, runs: seq<Id>,
      from: nat)
    requires OnlyHandledLeave(rows, left, recipient, fate, runs, from) && from <= |runs|
    ensures OnlyHandledLeave(rows, left, recipient, fate, runs + [id], from)
    ensures fate.handles(|runs|) ==>
      OnlyHandledLeave(rows, Acknowledge(left, recipient, {id}), recipient, fate, runs + [id], from)
  {
    forall x | Resolved(fate, runs, from, x) ensures Resolved(fate, runs + [id], from, x) {
      ResolvedStays(fate, runs, runs + [id], from, from, x);
    }
    assert (runs + [id])[|runs|] == id;
  }

  lemma LeavingIsTransitive(a: map<Id, Row>, b: map<Id, Row>, c: map<Id, Row>, recipient: Account, fate: Fate,
                            runs: seq<Id>, runs': seq<Id>, from: nat)
    requires OnlyHandledLeave(a, b, recipient, fate, runs, from) && runs <= runs' && from <= |runs|
    requires OnlyHandledLeave(b, c, recipient, fate, runs', |runs|)
    ensures OnlyHandledLeave(a, c, recipient, fate, runs', from)
  {
    forall x | Resolved(fate, runs, from, x) ensures Resolved(fate, runs', from, x) {
      ResolvedStays(fate, runs, runs', from, from, x);
    }
    forall x | Resolved(fate, runs', |runs|, x) ensures Resolved(fate, runs', from, x) {
      ResolvedStays(fate, runs', runs', |runs|, from, x);
    }
  }
}
