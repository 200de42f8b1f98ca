/**
 Writes to one record are queued: each job starts only when the one called before
 it has settled, whether it succeeded or failed.  Jobs on other records run in
 between as they like.
 */
module WriteChain {
  import opened Wrappers

  type Key = string

  /** What a job decides once it has read its record. */
  datatype Effect<V> = Write(value: V) | Keep | Throw

  /** A job waits for its predecessor, holds what it read, and settles. */
  datatype Phase<V> = Waiting | Holding(seen: V) | Settled(failed: bool)

  datatype Job<V, Op> = Job(key: Key, op: Op, previous: Option<nat>, phase: Phase<V>)

  /** `chains` gives, per record, the promise the next job will wait for. */
  datatype World<!V, !Op> = World(
    run: (Op, V) -> Effect<V>,
    empty: V,
    initial: map<Key, V>,
    jobs: seq<Job<V, Op>>,
    chains: map<Key, nat>,
    records: map<Key, V>)

  datatype Action<Op> =
    | Call(key: Key, op: Op)
    | Start(j: nat, fails: bool)
    | Finish(j: nat, fails: bool)

  function Read<V>(records: map<Key, V>, key: Key, empty: V): V {
    if key in records then records[key] else empty
  }

  ghost predicate Possible<V(!new), Op(!new)>(w: World<V, Op>, a: Action<Op>) {
    match a
    case Call(_, _) => true
    case Start(j, _) =>
      && j < |w.jobs| && w.jobs[j].phase.Waiting?
      && (w.jobs[j].previous.Some? ==>
        w.jobs[j].previous.value < |w.jobs| && w.jobs[w.jobs[j].previous.value].phase.Settled?)
    case Finish(j, _) => j < |w.jobs| && w.jobs[j].phase.Holding?
  }

  ghost function SetPhase<V(!new), Op(!new)>(w: World<V, Op>, j: nat, phase: Phase<V>): World<V, Op>
    requires j < |w.jobs|
  {
    w.(jobs := w.jobs[j := w.jobs[j].(phase := phase)])
  }

  ghost function Next<V(!new), Op(!new)>(w: World<V, Op>, a: Action<Op>): World<V, Op>
    requires Possible(w, a)
  {
    match a
    case Call(key, op) =>
      var previous := if key in w.chains then Some(w.chains[key]) else None;
      w.(jobs := w.jobs + [Job(key, op, previous, Waiting)], chains := w.chains[key := |w.jobs|])
    case Start(j, fails) =>
      SetPhase(w, j, if fails then Settled(true) else Holding(Read(w.records, w.jobs[j].key, w.empty)))
    case Finish(j, fails) =>
      if fails then SetPhase(w, j, Settled(true))
      else
        match w.run(w.jobs[j].op, w.jobs[j].phase.seen)
        case Write(v) => SetPhase(w, j, Settled(false)).(records := w.records[w.jobs[j].key := v])
        case Keep => SetPhase(w, j, Settled(false))
        case Throw => SetPhase(w, j, Settled(true))
  }

  ghost predicate IsRun<V(!new), Op(!new)>(ws: seq<World<V, Op>>, actions: seq<Action<Op>>) {
    && |ws| == |actions| + 1
    && ws[0].jobs == [] && ws[0].chains == map[] && ws[0].records == ws[0].initial
    && forall i | 0 <= i < |actions| :: Possible(ws[i], actions[i]) && ws[i + 1] == Next(ws[i], actions[i])
  }

  // ----- one at a time, in call order

  function Apply<V, Op>(run: (Op, V) -> Effect<V>, op: Op, v: V): V {
    match run(op, v)
    case Write(v') => v'
    case _ => v
  }

  /** The record as it would be had each settled job run alone, in call order; a
      failed one changes nothing. */
  ghost function Serial<V(!new), Op(!new)>(run: (Op, V) -> Effect<V>, jobs: seq<Job<V, Op>>, key: Key, v: V): V {
    if jobs == [] then v
    else
      var last, before := jobs[|jobs| - 1], Serial(run, jobs[..|jobs| - 1], key, v);
      if last.key == key && last.phase == Settled(false) then Apply(run, last.op, before) else before
  }

  lemma {:induction false} SerialIgnores<V(!new),
      Op(!new)>(run: (Op, V) -> Effect<V>, jobs: seq<Job<V, Op>>, key: Key, v: V, n: nat)
    requires n <= |jobs|
    requires forall j | n <= j < |jobs| :: jobs[j].key == key ==> jobs[j].phase != Settled(false)
    ensures Serial(run, jobs, key, v) == Serial(run, jobs[..n], key, v)
  {
    if n < |jobs| {
      var front := jobs[..|jobs| - 1];
      SerialIgnores(run, front, key, v, n);
      assert front[..n] == jobs[..n];
    } else {
      assert jobs[..n] == jobs;
    }
  }

  // ----- what every run keeps

  ghost predicate NoneBetween<V(!new), Op(!new)>(jobs: seq<Job<V, Op>>, key: Key, low: nat, high: nat) {
    forall i | low <= i < high && i < |jobs| :: jobs[i].key != key
  }

  /** The chain of a record ends in its last job. */
  ghost predicate ChainsOk<V(!new), Op(!new)>(w: World<V, Op>) {
    forall key ::
      if key in w.chains
      then w.chains[key] < |w.jobs| && w.jobs[w.chains[key]].key == key
          && NoneBetween(w.jobs, key, w.chains[key] + 1, |w.jobs|)
      else NoneBetween(w.jobs, key, 0, |w.jobs|)
  }

  /** Each job waits for the one called just before it on the same record. */
  ghost predicate LinksOk<V(!new), Op(!new)>(jobs: seq<Job<V, Op>>) {
    forall j | 0 <= j < |jobs| ::
      var job := jobs[j];
      if job.previous.Some?
      then job.previous.value < j && jobs[job.previous.value].key == job.key
          && NoneBetween(jobs, job.key, job.previous.value + 1, j)
      else NoneBetween(jobs, job.key, 0, j)
  }

  /** Jobs of one record settle in call order, one at a time. */
  ghost predicate OrderOk<V(!new), Op(!new)>(jobs: seq<Job<V, Op>>) {
    forall i, j | 0 <= i < j < |jobs| && jobs[i].key == jobs[j].key :: jobs[i].phase.Settled? || jobs[j].phase.Waiting?
  }

  ghost predicate RecordsOk<V(!new), Op(!new)>(w: World<V, Op>) {
    forall key :: Read(w.records, key, w.empty) == Serial(w.run, w.jobs, key, Read(w.initial, key, w.empty))
  }

  /** A job in progress holds the record as it still is. */
  ghost predicate HoldingOk<V(!new), Op(!new)>(w: World<V, Op>) {
    forall j | 0 <= j < |w.jobs| && w.jobs[j].phase.Holding? ::
      w.jobs[j].phase.seen == Read(w.records, w.jobs[j].key, w.empty)
  }

  ghost predicate Inv<V(!new), Op(!new)>(w: World<V, Op>) {
    ChainsOk(w) && LinksOk(w.jobs) && OrderOk(w.jobs) && RecordsOk(w) && HoldingOk(w)
  }

  // ----- step by step

  lemma CallKeepsLinks<V(!new), Op(!new)>(w: World<V, Op>, a: Action<Op>)
    requires ChainsOk(w) && LinksOk(w.jobs) && a.Call?
    ensures ChainsOk(Next(w, a)) && LinksOk(Next(w, a).jobs)
  {
    var w' := Next(w, a);
    forall key, low: nat, high: nat | NoneBetween(w.jobs, key, low, high) && (high <= |w.jobs| || key != a.key)
      ensures NoneBetween(w'.jobs, key, low, high)
    {
    }
    forall j | 0 <= j < |w'.jobs| ensures
      var job := w'.jobs[j];
      if job.previous.Some?
      then job.previous.value < j && w'.jobs[job.previous.value].key == job.key
          && NoneBetween(w'.jobs, job.key, job.previous.value + 1, j)
      else NoneBetween(w'.jobs, job.key, 0, j)
    {
      if j < |w.jobs| {
        assert w'.jobs[j] == w.jobs[j];
      }
    }
  }

  lemma CallKeepsRest<V(!new), Op(!new)>(w: World<V, Op>, a: Action<Op>)
    requires OrderOk(w.jobs) && RecordsOk(w) && HoldingOk(w) && a.Call?
    ensures OrderOk(Next(w, a).jobs) && RecordsOk(Next(w, a)) && HoldingOk(Next(w, a))
  {
    var w' := Next(w, a);
    assert w'.jobs[..|w.jobs|] == w.jobs;
  }

  /** A phase change touches no key and no link. */
  lemma PhaseKeepsLinks<V(!new), Op(!new)>(w: World<V, Op>, j: nat, phase: Phase<V>)
    requires ChainsOk(w) && LinksOk(w.jobs) && j < |w.jobs|
    ensures ChainsOk(SetPhase(w, j, phase)) && LinksOk(SetPhase(w, j, phase).jobs)
  {
    var w' := SetPhase(w, j, phase);
    assert forall i | 0 <= i < |w.jobs| :: w'.jobs[i].key == w.jobs[i].key && w'.jobs[i].previous == w.jobs[i].previous;
    forall key, low: nat, high: nat | NoneBetween(w.jobs, key, low, high) ensures NoneBetween(w'.jobs, key, low, high) {
    }
  }

  /** When a job may start, everything called before it on its record has settled. */
  lemma StartsLast<V(!new), Op(!new)>(w: World<V, Op>, a: Action<Op>, i: nat)
    requires LinksOk(w.jobs) && OrderOk(w.jobs) && a.Start? && Possible(w, a)
    requires i < a.j && w.jobs[i].key == w.jobs[a.j].key
    ensures w.jobs[i].phase.Settled?
  {
    var previous := w.jobs[a.j].previous;
    assert previous.Some? && i <= previous.value;
  }

  lemma {:induction false} SerialSkips<V(!new),
      Op(!new)>(run: (Op, V) -> Effect<V>, jobs: seq<Job<V, Op>>, key: Key, v: V, j: nat, phase: Phase<V>)
    requires j < |jobs| && (jobs[j].key != key || (jobs[j].phase != Settled(false) && phase != Settled(false)))
    ensures Serial(run, jobs[j := jobs[j].(phase := phase)], key, v) == Serial(run, jobs, key, v)
  {
    var jobs', n := jobs[j := jobs[j].(phase := phase)], |jobs| - 1;
    if j < n {
      SerialSkips(run, jobs[..n], key, v, j, phase);
      assert jobs'[..n] == jobs[..n][j := jobs[j].(phase := phase)];
    } else {
      assert jobs'[..n] == jobs[..n];
    }
  }

  /** A job that changes no record: it starts, or it settles without writing. */
  lemma {:induction false} QuietKeepsInv<V(!new), Op(!new)>(w: World<V, Op>, j: nat, phase: Phase<V>)
    requires Inv(w) && j < |w.jobs| && !w.jobs[j].phase.Settled? && phase != Settled(false) && !phase.Waiting?
    requires forall i | 0 <= i < j && w.jobs[i].key == w.jobs[j].key :: w.jobs[i].phase.Settled?
    requires phase.Holding? ==> w.jobs[j].phase.Waiting? && phase.seen == Read(w.records, w.jobs[j].key, w.empty)
    ensures Inv(SetPhase(w, j, phase))
  {
    PhaseKeepsLinks(w, j, phase);
    hide ChainsOk, LinksOk;
    var w' := SetPhase(w, j, phase);
    forall key ensures Read(w'.records, key, w.empty) == Serial(w.run, w'.jobs, key, Read(w.initial, key, w.empty)) {
      SerialSkips(w.run, w.jobs, key, Read(w.initial, key, w.empty), j, phase);
    }
    hide Serial;
  }

  /** A job that succeeds leaves the record its own run alone would leave. */
  lemma SettleIsSerial<V(!new), Op(!new)>(w: World<V, Op>, j: nat, key: Key, v: V)
    requires OrderOk(w.jobs) && j < |w.jobs| && w.jobs[j].phase.Holding?
    ensures var jobs' := SetPhase(w, j, Settled(false)).jobs;
      Serial(w.run, jobs', key, v) ==
      if key == w.jobs[j].key then Apply(w.run, w.jobs[j].op, Serial(w.run, w.jobs, key, v))
          else Serial(w.run, w.jobs, key, v)
  {
    var jobs' := SetPhase(w, j, Settled(false)).jobs;
    if key == w.jobs[j].key {
      SerialIgnores(w.run, jobs', key, v, j + 1);
      SerialIgnores(w.run, w.jobs, key, v, j);
      assert jobs'[..j + 1][..j] == w.jobs[..j];
    } else {
      SerialSkips(w.run, w.jobs, key, v, j, Settled(false));
    }
  }

  lemma AloneHolding<V(!new), Op(!new)>(w: World<V, Op>, j: nat, i: nat)
    requires OrderOk(w.jobs) && j < |w.jobs| && i < |w.jobs| && i != j && w.jobs[i].key == w.jobs[j].key
    requires w.jobs[j].phase.Holding?
    ensures !w.jobs[i].phase.Holding? && (i < j ==> w.jobs[i].phase.Settled?) && (j < i ==> w.jobs[i].phase.Waiting?)
  {
  }

  /** After a success the record is what the job made of the record it held. */
  lemma SuccessReads<V(!new), Op(!new)>(w: World<V, Op>, j: nat, key: Key)
    requires HoldingOk(w) && j < |w.jobs| && w.jobs[j].phase.Holding?
    requires !w.run(w.jobs[j].op, w.jobs[j].phase.seen).Throw?
    ensures var w', v := Next(w, Finish(j, false)), Read(w.records, key, w.empty);
      && w'.jobs == SetPhase(w, j, Settled(false)).jobs && w'.chains == w.chains
      && w'.run == w.run && w'.empty == w.empty && w'.initial == w.initial
      && Read(w'.records, key, w.empty) == if key == w.jobs[j].key then Apply(w.run, w.jobs[j].op, v) else v
  {
  }

  lemma SuccessKeepsRecords<V(!new), Op(!new)>(w: World<V, Op>, j: nat)
    requires OrderOk(w.jobs) && RecordsOk(w) && HoldingOk(w) && j < |w.jobs| && w.jobs[j].phase.Holding?
    requires !w.run(w.jobs[j].op, w.jobs[j].phase.seen).Throw?
    ensures RecordsOk(Next(w, Finish(j, false)))
  {
    hide Serial, Next, SetPhase, Apply, HoldingOk, OrderOk;
    var w' := Next(w, Finish(j, false));
    SuccessReads(w, j, w.jobs[j].key);
    forall key ensures Read(w'.records, key, w'.empty)
        == Serial(w'.run, w'.jobs, key, Read(w'.initial, key, w'.empty)) {
      SuccessReads(w, j, key);
      SettleIsSerial(w, j, key, Read(w.initial, key, w.empty));
    }
  }

  lemma SuccessKeepsHolding<V(!new), Op(!new)>(w: World<V, Op>, j: nat)
    requires OrderOk(w.jobs) && HoldingOk(w) && j < |w.jobs| && w.jobs[j].phase.Holding?
    requires !w.run(w.jobs[j].op, w.jobs[j].phase.seen).Throw?
    ensures OrderOk(Next(w, Finish(j, false)).jobs) && HoldingOk(Next(w, Finish(j, false)))
  {
    var w' := Next(w, Finish(j, false));
    SuccessReads(w, j, w.jobs[j].key);
    hide Next, Apply;
    forall i | 0 <= i < |w'.jobs| && w'.jobs[i].phase.Holding?
      ensures w'.jobs[i].phase.seen == Read(w'.records, w'.jobs[i].key, w'.empty)
    {
      assert w'.jobs[i] == w.jobs[i] && i != j;
      if w.jobs[i].key == w.jobs[j].key {
        AloneHolding(w, j, i);
      } else {
        SuccessReads(w, j, w.jobs[i].key);
      }
    }
  }

  lemma SuccessKeepsInv<V(!new), Op(!new)>(w: World<V, Op>, j: nat)
    requires Inv(w) && j < |w.jobs| && w.jobs[j].phase.Holding?
    requires !w.run(w.jobs[j].op, w.jobs[j].phase.seen).Throw?
    ensures Inv(Next(w, Finish(j, false)))
  {
    hide LinksOk, OrderOk, RecordsOk, HoldingOk, Next;
    PhaseKeepsLinks(w, j, Settled(false));
    SuccessReads(w, j, w.jobs[j].key);
    SuccessKeepsRecords(w, j);
    SuccessKeepsHolding(w, j);
    SameChains(SetPhase(w, j, Settled(false)), Next(w, Finish(j, false)));
  }

  lemma SameChains<V(!new), Op(!new)>(a: World<V, Op>, b: World<V, Op>)
    requires ChainsOk(a) && a.jobs == b.jobs && a.chains == b.chains
    ensures ChainsOk(b)
  {
  }

  lemma StepKeepsInv<V(!new), Op(!new)>(w: World<V, Op>, a: Action<Op>)
    requires Inv(w) && Possible(w, a)
    ensures Inv(Next(w, a))
  {
    match a
    case Call(_, _) =>
      hide ChainsOk, LinksOk, OrderOk, RecordsOk, HoldingOk;
      CallKeepsLinks(w, a);
      CallKeepsRest(w, a);
    case Start(j, fails) =>
      forall i | 0 <= i < j && w.jobs[i].key == w.jobs[j].key ensures w.jobs[i].phase.Settled? {
        StartsLast(w, a, i);
      }
      hide ChainsOk, LinksOk, OrderOk, RecordsOk, HoldingOk;
      QuietKeepsInv(w, j, if fails then Settled(true) else Holding(Read(w.records, w.jobs[j].key, w.empty)));
    case Finish(j, fails) =>
      forall i | 0 <= i < j && w.jobs[i].key == w.jobs[j].key ensures w.jobs[i].phase.Settled? {
        AloneHolding(w, j, i);
      }
      hide ChainsOk, LinksOk, OrderOk, RecordsOk, HoldingOk;
      if fails || w.run(w.jobs[j].op, w.jobs[j].phase.seen).Throw? {
        QuietKeepsInv(w, j, Settled(true));
      } else {
        SuccessKeepsInv(w, j);
      }
  }

  lemma {:induction false} RunKeepsInv<V(!new), Op(!new)>(ws: seq<World<V, Op>>, actions: seq<Action<Op>>, i: nat)
    requires IsRun(ws, actions) && i < |ws|
    ensures Inv(ws[i])
  {
    if i > 0 {
      hide Inv, Next, Possible;
      RunKeepsInv(ws, actions, i - 1);
      StepKeepsInv(ws[i - 1], actions[i - 1]);
    }
  }

  /** The queue of a record never stalls: while a job on it has not settled, some job
      on it can start or finish, whether the ones before it succeeded or failed. */
  lemma {:induction false} QueueNeverStalls<V(!new), Op(!new)>(w: World<V, Op>, j: nat) returns (k: nat)
    requires Inv(w) && j < |w.jobs| && !w.jobs[j].phase.Settled?
    ensures k <= j && w.jobs[k].key == w.jobs[j].key
    ensures forall fails :: Possible(w, Start(k, fails)) || Possible(w, Finish(k, fails))
  {
    if i: nat :| i < j && w.jobs[i].key == w.jobs[j].key && !w.jobs[i].phase.Settled? {
      k := QueueNeverStalls(w, i);
    } else {
      k := j;
    }
  }

  /** Any interleaving leaves the record that running the jobs one at a time, in
      the order they were called, would leave; and they settle in that order. */
  lemma InterleavingIsSerial<V(!new), Op(!new)>(ws: seq<World<V, Op>>, actions: seq<Action<Op>>, i: nat, key: Key)
    requires IsRun(ws, actions) && i < |ws|
    ensures var w := ws[i];
      && Read(w.records, key, w.empty) == Serial(w.run, w.jobs, key, Read(w.initial, key, w.empty))
      && OrderOk(w.jobs)
  {
    hide Next, Possible, Serial;
    RunKeepsInv(ws, actions, i);
  }
}
