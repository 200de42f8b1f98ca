/**
 Reliable delivery: a durable queue on the server, a lossy push, and clients that
 deduplicate, acknowledge after handling, and may crash anywhere.

 The client's code is split at each `await`; the server executes one transaction
 per step.
 */
module Delivery {

  type Id = nat
  type Account = nat

  const MAX_REMEMBERED_IDS: nat := 1000

  datatype Row = Row(recipient: Account, createdAt: int, expiresAt: int)

  // ----- the table

  /** Acknowledging deletes the named rows of the caller's own. */
  function Acknowledge(rows: map<Id, Row>, recipient: Account, ids: set<Id>): map<Id, Row> {
    map id | id in rows && !(rows[id].recipient == recipient && id in ids) :: rows[id]
  }

  function DeleteExpired(rows: map<Id, Row>, now: int): map<Id, Row> {
    map id | id in rows && rows[id].expiresAt > now :: rows[id]
  }

  // ----- the client

  /** What a delivery of one envelope is waiting for. */
  datatype Phase = Handling | Acknowledging

  /** `handled` is a bounded, insertion-ordered set. */
  datatype Client = Client(inFlight: map<Id, Phase>, handled: seq<Id>)

  function Recent(ids: seq<Id>): seq<Id> {
    if |ids| > MAX_REMEMBERED_IDS then ids[|ids| - MAX_REMEMBERED_IDS..] else ids
  }

  function Add(ids: seq<Id>, id: Id): seq<Id> {
    if id in ids then ids else ids + [id]
  }

  /** The id leaves the in-flight set and enters the bounded memory. */
  function Remember(c: Client, id: Id): Client {
    Client(c.inFlight - {id}, Recent(Add(c.handled, id)))
  }

  predicate Duplicate(c: Client, id: Id) {
    id in c.inFlight || id in c.handled
  }

  const NEW_CLIENT := Client(map[], [])

  // ----- the system

  datatype World = World(
    now: int,
    rows: map<Id, Row>,
    clients: map<Account, Client>,
    copies: set<(Account, Id)>,    // pushed or fetched, not yet seen by the client
    requests: set<(Account, Id)>,  // acknowledgements on the wire
    resolved: set<(Account, Id)>,  // handlers that have resolved
    memory: map<Account, seq<Id>>) // ids remembered in this lifetime, in order

  datatype Action =
    | Store(id: Id, row: Row)
    | Tick(now: int)
    | Push(who: Account, id: Id)
    | Fetch(who: Account, page: set<Id>)
    | Arrive(who: Account, id: Id)
    | Resolve(who: Account, id: Id)
    | Throw(who: Account, id: Id)
    | Serve(who: Account, id: Id)
    | Answer(who: Account, id: Id)
    | Crash(who: Account)
    | Sweep

  predicate Live(w: World, who: Account, id: Id) {
    id in w.rows && w.rows[id].recipient == who && w.rows[id].expiresAt > w.now
  }

  predicate Running(w: World, who: Account) {
    who in w.clients && who in w.memory
  }

  /** Which steps are open: a push or a page carries rows of its own recipient, and
      anything on the wire may arrive late, twice or never. */
  predicate Possible(w: World, a: Action) {
    match a
    case Store(id, _) => id !in w.rows && forall r | r in w.resolved :: r.1 != id
    case Tick(now) => w.now <= now
    case Push(who, id) => Live(w, who, id)
    case Fetch(who, page) => forall id | id in page :: Live(w, who, id)
    case Arrive(who, id) => Running(w, who) && (who, id) in w.copies
    case Resolve(who, id) => Running(w, who) && id in w.clients[who].inFlight && w.clients[who].inFlight[id] == Handling
    case Throw(who, id) => Running(w, who) && id in w.clients[who].inFlight && w.clients[who].inFlight[id] == Handling
    case Serve(who, id) => (who, id) in w.requests
    case Answer(who, id) => Running(w, who) && id in w.clients[who].inFlight
        && w.clients[who].inFlight[id] == Acknowledging
    case Crash(who) => Running(w, who)
    case Sweep => true
  }

  /** A handler starts on this step. */
  predicate Starts(w: World, a: Action) {
    Possible(w, a) && a.Arrive? && !Duplicate(w.clients[a.who], a.id)
  }

  function Next(w: World, a: Action): World
    requires Possible(w, a)
  {
    match a
    case Store(id, row) => w.(rows := w.rows[id := row])
    case Tick(now) => w.(now := now)
    case Push(who, id) => w.(copies := w.copies + {(who, id)})
    case Fetch(who, page) => w.(copies := w.copies + set id | id in page :: (who, id))
    case Arrive(who, id) =>
      var c := w.clients[who];
      if Duplicate(c, id) then w
      else w.(clients := w.clients[who := c.(inFlight := c.inFlight[id := Handling])])
    case Resolve(who, id) =>
      var c := w.clients[who];
      w.(clients := w.clients[who := c.(inFlight := c.inFlight[id := Acknowledging])],
         requests := w.requests + {(who, id)},
         resolved := w.resolved + {(who, id)})
    case Throw(who, id) =>
      var c := w.clients[who];
      w.(clients := w.clients[who := c.(inFlight := c.inFlight - {id})])
    case Serve(who, id) => w.(rows := Acknowledge(w.rows, who, {id}))
    case Answer(who, id) =>
      w.(clients := w.clients[who := Remember(w.clients[who], id)],
         memory := w.memory[who := w.memory[who] + [id]])
    case Crash(who) => w.(clients := w.clients[who := NEW_CLIENT], memory := w.memory[who := []])
    case Sweep => w.(rows := DeleteExpired(w.rows, w.now))
  }

  predicate IsStart(w: World) {
    && w.rows == map[] && w.copies == {} && w.requests == {} && w.resolved == {}
    && (forall who | who in w.clients :: w.clients[who] == NEW_CLIENT)
    && (forall who | who in w.memory :: w.memory[who] == [])
  }

  ghost predicate IsRun(ws: seq<World>, actions: seq<Action>) {
    && |ws| == |actions| + 1 && IsStart(ws[0])
    && forall i | 0 <= i < |actions| :: Possible(ws[i], actions[i]) && ws[i + 1] == Next(ws[i], actions[i])
  }

  // ----- what every run keeps

  /** Requests are sent only for resolved handlers, and the memory of a lifetime
      ends in the ids the client still refuses. */
  ghost predicate Inv(w: World) {
    && w.requests <= w.resolved
    && forall who | Running(w, who) :: ClientOk(w.clients[who], w.memory[who])
  }

  ghost predicate ClientOk(c: Client, memory: seq<Id>) {
    && c.handled == Recent(memory)
    && (forall i, j | 0 <= i < j < |c.handled| :: c.handled[i] != c.handled[j])
    && (forall id | id in c.inFlight :: id !in c.handled)
  }

  lemma RecentSnoc(memory: seq<Id>, id: Id)
    ensures Recent(Recent(memory) + [id]) == Recent(memory + [id])
  {
  }

  lemma RememberKeepsOk(c: Client, memory: seq<Id>, id: Id)
    requires ClientOk(c, memory) && id in c.inFlight
    ensures ClientOk(Remember(c, id), memory + [id])
  {
    var more := c.handled + [id];
    assert Add(c.handled, id) == more;
    assert forall i, j | 0 <= i < j < |more| :: more[i] != more[j];
    RecentSnoc(memory, id);
  }

  lemma StepKeepsInv(w: World, a: Action)
    requires Inv(w) && Possible(w, a)
    ensures Inv(Next(w, a))
  {
    var w' := Next(w, a);
    if a.Answer? {
      RememberKeepsOk(w.clients[a.who], w.memory[a.who], a.id);
    }
    forall who | Running(w', who) ensures ClientOk(w'.clients[who], w'.memory[who]) {
      assert Running(w, who);
    }
  }

  lemma {:induction false} RunKeepsInv(ws: seq<World>, actions: seq<Action>, i: nat)
    requires IsRun(ws, actions) && i < |ws|
    ensures Inv(ws[i])
  {
    if i > 0 {
      RunKeepsInv(ws, actions, i - 1);
      StepKeepsInv(ws[i - 1], actions[i - 1]);
    }
  }

  /** An envelope leaves the server only after its own recipient's handler has
      resolved for it, or once its time is up. */
  lemma NothingIsLost(ws: seq<World>, actions: seq<Action>, i: nat, id: Id)
    requires IsRun(ws, actions) && i < |actions| && id in ws[i].rows && id !in ws[i + 1].rows
    ensures (ws[i].rows[id].recipient, id) in ws[i].resolved || ws[i].rows[id].expiresAt <= ws[i].now
  {
    RunKeepsInv(ws, actions, i);
    assert ws[i + 1] == Next(ws[i], actions[i]);
  }

  lemma StepKeepsRow(w: World, a: Action, id: Id)
    requires Inv(w) && Possible(w, a) && id in w.rows
    requires (w.rows[id].recipient, id) !in w.resolved && w.rows[id].expiresAt > w.now
    ensures id in Next(w, a).rows && Next(w, a).rows[id] == w.rows[id]
  {
  }

  /** Until then it stays, unchanged: over any stretch of a run in which neither
      has happened, the row is there to be fetched again. */
  lemma {:induction false} RowStays(ws: seq<World>, actions: seq<Action>, i: nat, j: nat, id: Id)
    requires IsRun(ws, actions) && i <= j < |ws| && id in ws[i].rows
    requires forall k | i <= k < j ::
      (ws[i].rows[id].recipient, id) !in ws[k].resolved && ws[i].rows[id].expiresAt > ws[k].now
    ensures id in ws[j].rows && ws[j].rows[id] == ws[i].rows[id]
    decreases j
  {
    if i < j {
      hide Next, Inv, IsStart, Possible;
      RowStays(ws, actions, i, j - 1, id);
      RunKeepsInv(ws, actions, j - 1);
      StepKeepsRow(ws[j - 1], actions[j - 1], id);
    }
  }

  // ----- handler runs

  /** The steps that end a handler run for the id in one client. */
  predicate Ends(a: Action, who: Account, id: Id) {
    a == Crash(who) || a == Throw(who, id) || a == Answer(who, id)
  }

  ghost predicate Busy(w: World, who: Account, id: Id) {
    Running(w, who) && id in w.clients[who].inFlight
  }

  lemma StepKeepsBusy(w: World, a: Action, who: Account, id: Id)
    requires Possible(w, a) && Busy(w, who, id) && !Ends(a, who, id)
    ensures Busy(Next(w, a), who, id)
  {
  }

  lemma {:induction false} BusyUntilEnd(ws: seq<World>, actions: seq<Action>, i: nat, k: nat)
    requires IsRun(ws, actions) && i < k <= |actions| && Starts(ws[i], actions[i])
    requires forall m | i < m < k :: !Ends(actions[m], actions[i].who, actions[i].id)
    ensures Busy(ws[k], actions[i].who, actions[i].id)
  {
    if i + 1 < k {
      BusyUntilEnd(ws, actions, i, k - 1);
      hide Starts, Busy, Next, Possible, Ends, IsStart;
      StepKeepsBusy(ws[k - 1], actions[k - 1], actions[i].who, actions[i].id);
    }
  }

  /** Two handler runs for one id in one client never overlap: between the starts
      the first has thrown or been answered, or the client has crashed. */
  lemma RunsDoNotOverlap(ws: seq<World>, actions: seq<Action>, i: nat, j: nat) returns (k: nat)
    requires IsRun(ws, actions) && i < j < |actions| && Starts(ws[i], actions[i]) && Starts(ws[j], actions[j])
    requires actions[i].who == actions[j].who && actions[i].id == actions[j].id
    ensures i < k < j && Ends(actions[k], actions[i].who, actions[i].id)
  {
    if forall m | i < m < j :: !Ends(actions[m], actions[i].who, actions[i].id) {
      BusyUntilEnd(ws, actions, i, j);
      assert false;
    }
    k :| i < k < j && Ends(actions[k], actions[i].who, actions[i].id);
  }

  // ----- what a lifetime remembers

  ghost predicate Distinct(ids: seq<Id>) {
    forall i, j | 0 <= i < j < |ids| :: ids[i] != ids[j]
  }

  ghost predicate AnsweredBetween(actions: seq<Action>, low: nat, high: nat, who: Account, id: Id) {
    exists m :: low <= m < high && m < |actions| && actions[m] == Answer(who, id)
  }

  /** The ids remembered after step `k` were answered since, one step each. */
  ghost predicate RememberedSince(ws: seq<World>, actions: seq<Action>, k: nat, j: nat, who: Account)
    requires k < |ws| && j < |ws|
  {
    && Running(ws[k], who) && Running(ws[j], who)
    && ws[k].memory[who] <= ws[j].memory[who]
    && forall p | |ws[k].memory[who]| <= p < |ws[j].memory[who]| ::
         AnsweredBetween(actions, k, j, who, ws[j].memory[who][p])
  }

  lemma StepRemembers(w: World, a: Action, who: Account)
    requires Possible(w, a) && Running(w, who) && a != Crash(who)
    ensures Running(Next(w, a), who)
    ensures Next(w, a).memory[who] == w.memory[who] + if a.Answer? && a.who == who then [a.id] else []
  {
  }

  lemma {:induction false} MemoryIsAnswers(ws: seq<World>, actions: seq<Action>, k: nat, j: nat, who: Account)
    requires IsRun(ws, actions) && k <= j < |ws| && Running(ws[k], who)
    requires forall m | k <= m < j :: actions[m] != Crash(who)
    ensures RememberedSince(ws, actions, k, j, who)
  {
    if k < j {
      MemoryIsAnswers(ws, actions, k, j - 1, who);
      hide Next, Possible, IsStart, Running;
      StepRemembers(ws[j - 1], actions[j - 1], who);
      assert ws[j] == Next(ws[j - 1], actions[j - 1]);
      forall p | |ws[k].memory[who]| <= p < |ws[j].memory[who]|
        ensures AnsweredBetween(actions, k, j, who, ws[j].memory[who][p])
      {
        if p < |ws[j - 1].memory[who]| {
          assert AnsweredBetween(actions, k, j - 1, who, ws[j - 1].memory[who][p]);
        } else {
          assert actions[j - 1] == Answer(who, ws[j].memory[who][p]);
        }
      }
    }
  }

  /** What a client would start again has dropped out of its memory: the last 1000
      ids are all different and none of them this one. */
  lemma ForgottenLongAgo(c: Client, memory: seq<Id>, k: nat)
    requires ClientOk(c, memory) && k < |memory| && memory[k] !in c.handled
    ensures k + MAX_REMEMBERED_IDS < |memory|
    ensures var recent := memory[|memory| - MAX_REMEMBERED_IDS..];
      Distinct(recent) && memory[k] !in recent
  {
    var recent := Recent(memory);
    var start := |memory| - |recent|;
    assert k < start by {
      forall j | start <= j < |memory| ensures memory[j] != memory[k] {
        assert recent[j - start] == memory[j];
      }
    }
  }

  /** After a success no handler run for the id starts in the same lifetime until
      1000 other ids, all different, have been answered. */
  lemma NoEarlyRepeat(ws: seq<World>, actions: seq<Action>, k: nat, j: nat) returns (others: seq<Id>)
    requires IsRun(ws, actions) && k < j < |actions| && actions[k].Answer? && Starts(ws[j], actions[j])
    requires actions[j].who == actions[k].who && actions[j].id == actions[k].id
    requires forall m | k < m < j :: actions[m] != Crash(actions[k].who)
    ensures |others| == 1000 && Distinct(others) && actions[k].id !in others
    ensures forall id | id in others :: AnsweredBetween(actions, k + 1, j, actions[k].who, id)
  {
    var who, id := actions[k].who, actions[k].id;
    RunKeepsInv(ws, actions, j);
    StepRemembers(ws[k], actions[k], who);
    assert ws[k + 1] == Next(ws[k], actions[k]);
    MemoryIsAnswers(ws, actions, k + 1, j, who);
    var memory, at := ws[j].memory[who], |ws[k].memory[who]|;
    assert memory[at] == ws[k + 1].memory[who][at] == id;
    assert ClientOk(ws[j].clients[who], memory);
    ForgottenLongAgo(ws[j].clients[who], memory, at);
    others := memory[|memory| - MAX_REMEMBERED_IDS..];
    hide Next, Possible, IsStart, ClientOk, Inv;
    forall x | x in others ensures AnsweredBetween(actions, k + 1, j, who, x) {
      var p :| 0 <= p < |others| && others[p] == x;
      assert memory[|memory| - MAX_REMEMBERED_IDS + p] == x;
    }
  }

  // ----- and what it can always do

  /** A handler that threw may run again: the next copy to arrive starts it. */
  lemma ThrownMayRunAgain(w: World, who: Account, id: Id)
    requires Inv(w) && Possible(w, Throw(who, id)) && (who, id) in w.copies
    ensures Starts(Next(w, Throw(who, id)), Arrive(who, id))
  {
  }

  /** After a crash everything still in the table may be fetched and handled again. */
  lemma CrashForgets(w: World, who: Account, id: Id)
    requires Possible(w, Crash(who)) && Live(w, who, id)
    ensures var w' := Next(w, Crash(who)); Live(w', who, id) && Starts(Next(w', Push(who, id)), Arrive(who, id))
  {
  }

  /** From fetch to acknowledgement: each step is open after the one before, and in the
      end the row is gone, the id is out of flight and remembered as the newest. */
  lemma DeliveryRunsThrough(w: World, who: Account, id: Id)
    requires Inv(w) && Running(w, who) && Live(w, who, id) && !Duplicate(w.clients[who], id)
    ensures Possible(w, Fetch(who, {id}))
    ensures var w1 := Next(w, Fetch(who, {id}));
      && Starts(w1, Arrive(who, id))
      && var w2 := Next(w1, Arrive(who, id));
      && Possible(w2, Resolve(who, id))
      && var w3 := Next(w2, Resolve(who, id));
      && (who, id) in w3.resolved && Possible(w3, Serve(who, id))
      && var w4 := Next(w3, Serve(who, id));
      && id !in w4.rows && Possible(w4, Answer(who, id))
      && var w5 := Next(w4, Answer(who, id));
      && id !in w5.clients[who].inFlight && id in w5.clients[who].handled
      && w5.memory[who] == w.memory[who] + [id]
      && w5.rows == w.rows - {id}
  {
    var c := w.clients[who];
    assert Add(c.handled, id) == c.handled + [id];
    assert (c.handled + [id])[|c.handled|] == id;
    assert Recent(c.handled + [id])[|Recent(c.handled + [id])| - 1] == id;
  }

  /** A sweep takes exactly what has expired. */
  lemma SweepTakesExpired(w: World, id: Id)
    ensures id in Next(w, Sweep).rows <==> id in w.rows && w.rows[id].expiresAt > w.now
  {
  }
}
