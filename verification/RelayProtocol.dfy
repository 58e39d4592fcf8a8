/** The outbox protocol as interleaved atomic steps: transactions that write events, the wake hook
    they run after committing, any number of processes each with its own relay loop, the broker
    stream, and the consumers.  Each step is labelled with the outcome the environment chose, so a
    run is a sequence of labels.  Sources: outbox/relay.go, outbox/outbox.go, tenancy/base.go,
    tenancy/outboxwake.go. */
module RelayProtocol {
  import opened Results
  import opened SweepSchedules
  import opened Outbox
  import Consumers

  // ----- State -----

  datatype Cfg = Cfg(base: int, idleMax: int, batch: nat)

  /** Where drain stands for the tenant in hand: before the fetch, before publishing batch[i],
      before marking batch[i], or with its outcome still to be recorded. */
  datatype Phase =
    | Fetching
    | Publishing(batch: seq<int>, i: nat)
    | Marking(batch: seq<int>, i: nat)
    | Recording(busy: bool)

  /** The tenants a sweep still has to visit. */
  datatype Rest =
    | WokenRest(todo: set<Tenant>)
    | TickRest(flagged: set<Tenant>, now: int, list: seq<Tenant>)

  /** Where the Run goroutine stands. */
  datatype Loop =
    | NotStarted
    | Idle
    | Entered(woken: bool)   // in sweep, before ensureStream
    | Ready(woken: bool)     // before takeWoken
    | Listing(flagged: set<Tenant>)
    | Between(rest: Rest)
    | Draining(tenant: Tenant, phase: Phase, rest: Rest)
    | Stopped

  /** A goroutine inside InTx or InTxFor: its transaction is open, or committed and about to run
      the wake hook, or has flagged its tenant and is about to signal the channel. */
  datatype Tx =
    | Open(tenant: Tenant, ids: set<int>, marked: bool)
    | Hooking(tenant: Tenant)
    | Signalling

  /** One process: its relay loop, its one-slot channel, its schedule and its transactions. */
  datatype Proc = Proc(loop: Loop, streamReady: bool, token: bool, sched: Schedule, txs: map<int, Tx>)

  /** `nextIds` is each outbox table's id sequence; rolled-back inserts leave gaps. */
  datatype State = State(cfg: Cfg, clock: int, nextIds: map<Tenant, int>, rows: Table, log: seq<EventId>,
                         procs: map<int, Proc>, consumer: Consumers.Consumer)

  // ----- Steps -----

  datatype LoopStep =
    | Start
    | Tick
    | Receive
    | Stop
    | EnsureStream(created: bool)
    | TakeWoken
    | List(tenants: seq<Tenant>)
    | Visit(tenant: Tenant)
    | Skip
    | EndSweep
    | FetchBatch(ok: bool)
    | Publish(acked: bool, appended: bool)
    | Mark(ok: bool, written: bool)
    | Record

  datatype TxStep =
    | Begin(tenant: Tenant)
    | Insert(id: int, marks: bool)
    | Commit
    | Rollback
    | Hook
    | Signal

  datatype Action =
    | Relay(p: int, step: LoopStep)
    | Transact(p: int, tx: int, txStep: TxStep)
    | Crash(p: int, streamReady: bool)
    | Advance(d: nat)
    | Consume(a: Consumers.Step)

  function Fresh(cfg: Cfg, streamReady: bool): Proc {
    Proc(NotStarted, streamReady, false, New(cfg.base, cfg.idleMax), map[])
  }

  ghost predicate Initial(s: State) {
    && 1 <= s.cfg.batch && s.nextIds == map[] && s.rows == map[] && s.log == [] && s.consumer == Consumers.INITIAL
    && forall p :: p in s.procs ==> s.procs[p] == Fresh(s.cfg, s.procs[p].streamReady)
  }

  /** A tick sweep visits the head of its list when it was flagged or is due. */
  predicate HeadWanted(sched: Schedule, r: Rest)
    requires r.TickRest? && r.list != []
  {
    r.list[0] in r.flagged || sched.Due(r.list[0], r.now)
  }

  predicate NobodyLeft(r: Rest) {
    if r.WokenRest? then r.todo == {} else r.list == []
  }

  predicate RelayEnabled(s: State, p: int, l: LoopStep) {
    p in s.procs &&
    var pr := s.procs[p];
    match l
    case Start => pr.loop.NotStarted?
    case Tick => pr.loop.Idle?
    case Receive => pr.loop.Idle? && pr.token
    case Stop => pr.loop.Idle?
    case EnsureStream(_) => pr.loop.Entered?
    case TakeWoken => pr.loop.Ready?
    case List(_) => pr.loop.Listing?
    case Visit(t) =>
      pr.loop.Between? &&
      if pr.loop.rest.WokenRest? then t in pr.loop.rest.todo
      else pr.loop.rest.list != [] && t == pr.loop.rest.list[0] && HeadWanted(pr.sched, pr.loop.rest)
    case Skip =>
      pr.loop.Between? && pr.loop.rest.TickRest? && pr.loop.rest.list != [] && !HeadWanted(pr.sched, pr.loop.rest)
    case EndSweep => pr.loop.Between? && NobodyLeft(pr.loop.rest)
    case FetchBatch(_) => pr.loop.Draining? && pr.loop.phase.Fetching?
    case Publish(acked, appended) =>
      // The broker drops a copy it remembers; it acknowledges nothing it does not hold.
      && pr.loop.Draining? && pr.loop.phase.Publishing? && pr.loop.phase.i < |pr.loop.phase.batch|
      && (acked && !appended ==> EventId(pr.loop.tenant, pr.loop.phase.batch[pr.loop.phase.i]) in s.log)
    case Mark(ok, written) =>
      && pr.loop.Draining? && pr.loop.phase.Marking? && pr.loop.phase.i < |pr.loop.phase.batch|
      && EventId(pr.loop.tenant, pr.loop.phase.batch[pr.loop.phase.i]) in s.rows
      && (ok ==> written)
    case Record => pr.loop.Draining? && pr.loop.phase.Recording?
  }

  function Visited(r: Rest, t: Tenant): Rest
    requires r.TickRest? ==> r.list != []
  {
    match r
    case WokenRest(todo) => WokenRest(todo - {t})
    case TickRest(flagged, now, list) => TickRest(flagged, now, list[1..])
  }

  function RelayProc(s: State, p: int, l: LoopStep): (r: Proc)
    requires RelayEnabled(s, p, l)
    ensures r.txs == s.procs[p].txs
  {
    var pr := s.procs[p];
    match l
    case Start => pr.(loop := Idle)
    case Tick => pr.(loop := Entered(false))
    case Receive => pr.(loop := Entered(true), token := false)
    case Stop => pr.(loop := Stopped)
    case EnsureStream(created) =>
      if pr.streamReady || created then pr.(loop := Ready(pr.loop.woken), streamReady := true) else pr.(loop := Idle)
    case TakeWoken =>
      pr.(loop := if pr.loop.woken then Between(WokenRest(pr.sched.woken)) else Listing(pr.sched.woken),
          sched := pr.sched.Unflagged())
    case List(tenants) =>
      pr.(loop := Between(TickRest(pr.loop.flagged, s.clock, tenants)), sched := pr.sched.Prune(tenants))
    case Visit(t) => pr.(loop := Draining(t, Fetching, Visited(pr.loop.rest, t)))
    case Skip => pr.(loop := Between(Visited(pr.loop.rest, pr.loop.rest.list[0])))
    case EndSweep => pr.(loop := Idle)
    case FetchBatch(ok) =>
      var batch := Fetch(s.rows, pr.loop.tenant, s.cfg.batch);
      pr.(loop := pr.loop.(phase := if !ok then Recording(true) else if batch == [] then Recording(false)
                                    else Publishing(batch, 0)))
    case Publish(acked, _) =>
      pr.(loop := pr.loop.(phase := if acked then Marking(pr.loop.phase.batch, pr.loop.phase.i) else Recording(true)))
    case Mark(ok, _) =>
      var next := pr.loop.phase.i + 1;
      pr.(loop := pr.loop.(phase := if ok && next < |pr.loop.phase.batch| then Publishing(pr.loop.phase.batch, next)
                                    else Recording(true)))
    case Record =>
      pr.(loop := Between(pr.loop.rest), sched := pr.sched.Done(pr.loop.tenant, pr.loop.phase.busy, s.clock))
  }

  /** The event the loop is publishing or marking. */
  function InHand(l: Loop): EventId
    requires l.Draining? && (l.phase.Publishing? || l.phase.Marking?) && l.phase.i < |l.phase.batch|
  {
    EventId(l.tenant, l.phase.batch[l.phase.i])
  }

  function RelayApply(s: State, p: int, l: LoopStep): State
    requires RelayEnabled(s, p, l)
  {
    var after := s.(procs := s.procs[p := RelayProc(s, p, l)]);
    match l
    case Publish(_, true) => after.(log := s.log + [InHand(s.procs[p].loop)])
    case Mark(_, true) => after.(rows := MarkPublished(s.rows, InHand(s.procs[p].loop)))
    case _ => after
  }

  function NextId(s: State, t: Tenant): int { if t in s.nextIds then s.nextIds[t] else 1 }

  predicate TxEnabled(s: State, p: int, tx: int, x: TxStep) {
    p in s.procs &&
    var txs := s.procs[p].txs;
    match x
    case Begin(_) => tx !in txs
    case Insert(id, _) => tx in txs && txs[tx].Open? && NextId(s, txs[tx].tenant) <= id
    case Commit => tx in txs && txs[tx].Open?
    case Rollback => tx in txs && txs[tx].Open?
    case Hook => tx in txs && txs[tx].Hooking?
    case Signal => tx in txs && txs[tx].Signalling?
  }

  function Events(t: Tenant, ids: set<int>): (es: set<EventId>)
    ensures forall e :: e in es <==> e.tenant == t && e.id in ids
  {
    set x | x in ids :: EventId(t, x)
  }

  function Committed(rows: Table, t: Tenant, ids: set<int>, notifier: Option<int>): Table {
    rows + map e | e in Events(t, ids) :: Row(false, notifier)
  }

  function TxApply(s: State, p: int, tx: int, x: TxStep): State
    requires TxEnabled(s, p, tx, x)
  {
    var pr := s.procs[p];
    var forget := pr.(txs := pr.txs - {tx});
    match x
    case Begin(t) => s.(procs := s.procs[p := pr.(txs := pr.txs[tx := Open(t, {}, false)])])
    case Insert(id, marks) =>
      var open := pr.txs[tx];
      s.(nextIds := s.nextIds[open.tenant := id + 1],
         procs := s.procs[p := pr.(txs := pr.txs[tx := Open(open.tenant, open.ids + {id}, open.marked || marks)])])
    case Commit =>
      var open := pr.txs[tx];
      s.(rows := Committed(s.rows, open.tenant, open.ids, if open.marked then Some(p) else None),
         procs := s.procs[p := if open.marked then pr.(txs := pr.txs[tx := Hooking(open.tenant)]) else forget])
    case Rollback => s.(procs := s.procs[p := forget])
    case Hook =>
      // Before the relay registers itself no hook is there to run.
      s.(procs := s.procs[p := if pr.loop.NotStarted? then forget
                               else pr.(sched := pr.sched.Wake(pr.txs[tx].tenant), txs := pr.txs[tx := Signalling])])
    case Signal => s.(procs := s.procs[p := forget.(token := true)])
  }

  predicate Enabled(s: State, a: Action) {
    match a
    case Relay(p, l) => RelayEnabled(s, p, l)
    case Transact(p, tx, x) => TxEnabled(s, p, tx, x)
    case Crash(p, _) => p in s.procs
    case Advance(_) => true
    case Consume(c) =>
      Consumers.Enabled(s.consumer, c) && (c.Claim? || c.Duplicate? ==> c.event in s.log)
  }

  function Apply(s: State, a: Action): State
    requires Enabled(s, a)
  {
    match a
    case Relay(p, l) => RelayApply(s, p, l)
    case Transact(p, tx, x) => TxApply(s, p, tx, x)
    case Crash(p, ready) => s.(procs := s.procs[p := Fresh(s.cfg, ready)])
    case Advance(d) => s.(clock := s.clock + d)
    case Consume(c) => s.(consumer := Consumers.Apply(s.consumer, c))
  }

  // ----- What the environment may do -----

  /** Every outcome is open to the environment: a fetch may fail; a publish may be acknowledged or
      not, and without an acknowledgement have reached the stream or not; a mark may fail, and have
      been written or not; the stream may be created or not; and time passes. */
  lemma OutcomesAreOpen(s: State, p: int, ok: bool, d: nat)
    requires p in s.procs
    ensures Enabled(s, Advance(d)) && Apply(s, Advance(d)).clock == s.clock + d
    ensures var l := s.procs[p].loop;
            && (l.Entered? ==> RelayEnabled(s, p, EnsureStream(ok)))
            && (l.Draining? && l.phase.Fetching? ==> RelayEnabled(s, p, FetchBatch(ok)))
            && (l.Draining? && l.phase.Publishing? && l.phase.i < |l.phase.batch| ==>
                  && RelayEnabled(s, p, Publish(true, true)) && RelayEnabled(s, p, Publish(false, ok))
                  && (RelayEnabled(s, p, Publish(true, false)) <==> InHand(l) in s.log))
            && (l.Draining? && l.phase.Marking? && l.phase.i < |l.phase.batch| && InHand(l) in s.rows ==>
                  RelayEnabled(s, p, Mark(true, true)) && RelayEnabled(s, p, Mark(false, ok)))
  {
  }

  /** A process may crash at any moment; it loses its loop, its flags, its token, its schedule and its
      open transactions, and nothing that is committed or published. */
  lemma CrashesAreOpen(s: State, p: int, ready: bool)
    requires p in s.procs
    ensures Enabled(s, Crash(p, ready))
    ensures var r := Apply(s, Crash(p, ready)); var pr := r.procs[p];
            && r.rows == s.rows && r.log == s.log && r.consumer == s.consumer && r.nextIds == s.nextIds
            && (forall q :: q in s.procs && q != p ==> q in r.procs && r.procs[q] == s.procs[q])
            && pr.loop.NotStarted? && !pr.token && pr.txs == map[] && pr.sched.woken == {} && pr.sched.state == map[]
            && pr.sched.base == s.cfg.base && pr.sched.idleMax == s.cfg.idleMax
  {
  }

  // ----- Runs -----

  predicate HoldsBatch(l: Loop) {
    l.Draining? && (l.phase.Publishing? || l.phase.Marking?)
  }

  /** Some loop holds the event in the batch it is publishing. */
  ghost predicate InSomeBatch(s: State, e: EventId) {
    exists p :: p in s.procs && HoldsBatch(s.procs[p].loop) && s.procs[p].loop.tenant == e.tenant
                && e.id in s.procs[p].loop.phase.batch
  }

  /** Needed for delivery order only: what a commit makes visible lies above every event of its
      tenant that is already in the stream or on its way there. */
  ghost predicate InIdOrder(s: State, a: Action)
    requires Enabled(s, a)
  {
    a.Transact? && a.txStep.Commit? ==>
      var open := s.procs[a.p].txs[a.tx];
      forall e: EventId, id: int ::
        e.tenant == open.tenant && (e in s.log || InSomeBatch(s, e)) && id in open.ids ==> e.id < id
  }

  ghost predicate IsRun(s: State, run: seq<Action>)
    decreases |run|
  {
    run != [] ==> Enabled(s, run[0]) && IsRun(Apply(s, run[0]), run[1..])
  }

  ghost function After(s: State, run: seq<Action>): State
    requires IsRun(s, run)
    decreases |run|
  {
    if run == [] then s else After(Apply(s, run[0]), run[1..])
  }

  ghost predicate IsOrderedRun(s: State, run: seq<Action>)
    requires IsRun(s, run)
    decreases |run|
  {
    run != [] ==> InIdOrder(s, run[0]) && IsOrderedRun(Apply(s, run[0]), run[1..])
  }

  lemma RunOf(s: State, a: Action, rest: seq<Action>)
    requires Enabled(s, a) && IsRun(Apply(s, a), rest)
    ensures IsRun(s, [a] + rest) && After(s, [a] + rest) == After(Apply(s, a), rest)
  {
    assert ([a] + rest)[1..] == rest;
  }

  lemma {:induction false} RunThen(s: State, run: seq<Action>, more: seq<Action>)
    requires IsRun(s, run) && IsRun(After(s, run), more)
    ensures IsRun(s, run + more) && After(s, run + more) == After(After(s, run), more)
    decreases |run|
  {
    if run == [] {
      assert run + more == more;
    } else {
      RunThen(Apply(s, run[0]), run[1..], more);
      RunOf(s, run[0], run[1..] + more);
      assert run + more == [run[0]] + (run[1..] + more);
    }
  }

  lemma {:induction false} RunSplit(s: State, run: seq<Action>, k: nat)
    requires IsRun(s, run) && k <= |run|
    ensures IsRun(s, run[..k]) && IsRun(After(s, run[..k]), run[k..])
    ensures After(After(s, run[..k]), run[k..]) == After(s, run)
    decreases k
  {
    if k == 0 {
      assert run[..0] == [] && run[0..] == run;
    } else {
      RunSplit(Apply(s, run[0]), run[1..], k - 1);
      assert run[1..][..k - 1] == run[..k][1..] && run[1..][k - 1..] == run[k..];
      RunOf(s, run[0], run[..k][1..]);
      assert run[..k] == [run[0]] + run[..k][1..];
    }
  }

  lemma RunOn(s: State, run: seq<Action>, a: Action)
    requires IsRun(s, run) && Enabled(After(s, run), a)
    ensures IsRun(s, run + [a]) && After(s, run + [a]) == Apply(After(s, run), a)
  {
    RunOf(After(s, run), a, []);
    assert [a] + [] == [a];
    RunThen(s, run, [a]);
  }
}
