/**
 * The worker's claim loop (cmd/worker/job_runner.go): one loop claims batches and
 * sends them over a bounded channel to a pool of workers, and shutdown drains
 * whatever was sent.  Every interleaving is a run of the transition relation `Next`.
 *
 * The n-th job ever claimed gets ticket n, so a job that is claimed again after a
 * retry counts as a new claim.
 */
module JobRunner {

  type JobId = int

  /** How `runJobWithRecovery` ends: no error, an error, or a panic turned into one. */
  datatype Outcome = Succeeded | Errored | Panicked

  /** A worker that has received a job holds it until it calls `processJob`. */
  datatype Worker =
    | Idle
    | Holding(ticket: nat)
    | Processing(ticket: nat)
    | Settling(ticket: nat, outcome: Outcome)
    | Exited

  datatype Loop = Checking | Claiming | Waiting | Sending(todo: seq<nat>) | Draining | Returned

  datatype Event = Receipt(ticket: nat) | Process(ticket: nat) | Complete(ticket: nat) | Fail(ticket: nat)

  datatype Config = Config(batchSize: nat, concurrency: int) {
    function Workers(): nat {
      if concurrency <= 0 then 1 else concurrency
    }

    function Capacity(): nat {
      batchSize * Workers()
    }
  }

  /**
   * `claimed` lists every job claimed so far and `batchStart` is the first ticket of the
   * newest batch; `received`, `results` and `log` record what the workers have done.
   */
  datatype State = State(
    loop: Loop,
    cancelled: bool,
    claimed: seq<JobId>,
    batchStart: nat,
    abandoned: seq<nat>,
    queue: seq<nat>,
    workers: seq<Worker>,
    received: nat,
    results: map<nat, Outcome>,
    log: seq<Event>)

  datatype Step =
    | Cancel
    | Check
    | ClaimFails
    | ClaimReturns(batch: seq<JobId>)
    | WaitEnds
    | Send
    | Handoff(w: nat)
    | BatchDone
    | GiveUp
    | Receive(w: nat)
    | Begin(w: nat)
    | Finish(w: nat, outcome: Outcome)
    | Settle(w: nat)
    | Exit(w: nat)
    | Return

  function Interval(lo: nat, hi: nat): (r: seq<nat>)
    requires lo <= hi
    ensures |r| == hi - lo && forall i :: 0 <= i < |r| ==> r[i] == lo + i
  {
    seq(hi - lo, i requires 0 <= i < hi - lo => lo + i)
  }

  lemma InInterval(lo: nat, hi: nat, u: nat)
    requires lo <= hi
    ensures u in Interval(lo, hi) <==> lo <= u < hi
  {
    if lo <= u < hi {
      assert Interval(lo, hi)[u - lo] == u;
    }
  }

  function Start(c: Config): State {
    State(Checking, false, [], 0, [], [], seq(c.Workers(), i => Idle), 0, map[], [])
  }

  /** The channel is closed by the deferred function, on every way out of the loop. */
  predicate Closed(s: State) {
    s.loop.Draining? || s.loop.Returned?
  }

  predicate Enabled(c: Config, s: State, step: Step) {
    match step
    case Cancel => !s.cancelled
    case Check => s.loop.Checking?
    case ClaimFails => s.loop.Claiming?
    case ClaimReturns(_) => s.loop.Claiming?
    case WaitEnds => s.loop.Waiting?
    case Send => s.loop.Sending? && s.loop.todo != [] && |s.queue| < c.Capacity()
    case Handoff(w) => s.loop.Sending? && s.loop.todo != [] && s.queue == [] && w < |s.workers| && s.workers[w].Idle?
    case BatchDone => s.loop.Sending? && s.loop.todo == []
    case GiveUp => s.loop.Sending? && s.loop.todo != [] && s.cancelled
    case Receive(w) => w < |s.workers| && s.workers[w].Idle? && s.queue != []
    case Begin(w) => w < |s.workers| && s.workers[w].Holding?
    case Finish(w, _) => w < |s.workers| && s.workers[w].Processing?
    case Settle(w) => w < |s.workers| && s.workers[w].Settling?
    case Exit(w) => w < |s.workers| && s.workers[w].Idle? && s.queue == [] && Closed(s)
    case Return => s.loop.Draining? && forall w :: 0 <= w < |s.workers| ==> s.workers[w].Exited?
  }

  /** A worker receives the next ticket. */
  function Take(s: State, w: nat, ticket: nat): State
    requires w < |s.workers|
  {
    s.(workers := s.workers[w := Holding(ticket)], received := s.received + 1, log := s.log + [Receipt(ticket)])
  }

  function Apply(c: Config, s: State, step: Step): State
    requires Enabled(c, s, step)
  {
    match step
    case Cancel => s.(cancelled := true)
    case Check => s.(loop := if s.cancelled then Draining else Claiming)
    case ClaimFails => s.(loop := Waiting)
    case ClaimReturns(batch) =>
      if batch == [] then s.(loop := Waiting)
      else s.(loop := Sending(Interval(|s.claimed|, |s.claimed| + |batch|)),
              claimed := s.claimed + batch, batchStart := |s.claimed|)
    case WaitEnds => s.(loop := Checking)
    case Send => s.(loop := Sending(s.loop.todo[1..]), queue := s.queue + [s.loop.todo[0]])
    case Handoff(w) => Take(s.(loop := Sending(s.loop.todo[1..])), w, s.loop.todo[0])
    case BatchDone => s.(loop := Checking)
    case GiveUp => s.(loop := Draining, abandoned := s.loop.todo)
    case Receive(w) => Take(s.(queue := s.queue[1..]), w, s.queue[0])
    case Begin(w) =>
      var t := s.workers[w].ticket;
      s.(workers := s.workers[w := Processing(t)], log := s.log + [Process(t)])
    case Finish(w, outcome) =>
      s.(workers := s.workers[w := Settling(s.workers[w].ticket, outcome)],
         results := s.results[s.workers[w].ticket := outcome])
    case Settle(w) =>
      var t := s.workers[w].ticket;
      s.(workers := s.workers[w := Idle],
         log := s.log + [if s.workers[w].outcome.Succeeded? then Complete(t) else Fail(t)])
    case Exit(w) => s.(workers := s.workers[w := Exited])
    case Return => s.(loop := Returned)
  }

  ghost predicate Next(c: Config, s: State, s': State) {
    exists step :: Enabled(c, s, step) && s' == Apply(c, s, step)
  }

  // ---------------------------------------------------------------- the invariant

  predicate Working(worker: Worker) {
    worker.Holding? || worker.Processing? || worker.Settling?
  }

  predicate Holds(worker: Worker, t: nat) {
    Working(worker) && worker.ticket == t
  }

  ghost predicate Busy(s: State, t: nat) {
    exists w :: 0 <= w < |s.workers| && Holds(s.workers[w], t)
  }

  function Sent(s: State): nat {
    s.received + |s.queue|
  }

  /** Tickets cross the channel in claim order, so every list is an interval. */
  ghost predicate ChannelInv(c: Config, s: State) {
    && |s.queue| <= c.Capacity()
    && s.queue == Interval(s.received, Sent(s))
    && s.batchStart <= Sent(s) <= |s.claimed|
    && (s.loop.Sending? ==> s.loop.todo == Interval(Sent(s), |s.claimed|))
    && (Closed(s) ==> s.abandoned == Interval(Sent(s), |s.claimed|) && s.cancelled)
    && (!Closed(s) ==> s.abandoned == [] && (!s.loop.Sending? ==> Sent(s) == |s.claimed|))
  }

  ghost predicate WorkerInv(c: Config, s: State) {
    && |s.workers| == c.Workers()
    && (forall w :: 0 <= w < |s.workers| && Working(s.workers[w]) ==> s.workers[w].ticket < s.received)
    && (forall w, v :: 0 <= w < v < |s.workers| && Working(s.workers[w]) ==> !Holds(s.workers[v], s.workers[w].ticket))
    && (forall w :: 0 <= w < |s.workers| && s.workers[w].Settling? ==>
         s.workers[w].ticket in s.results && s.results[s.workers[w].ticket] == s.workers[w].outcome)
    && (forall w :: 0 <= w < |s.workers| && s.workers[w].Exited? ==> Closed(s) && s.queue == [])
    && (s.loop.Returned? ==> forall w :: 0 <= w < |s.workers| ==> s.workers[w].Exited?)
  }

  /** Some worker has received `t` but not yet called `processJob` on it. */
  predicate Waits(s: State, t: nat) {
    Holding(t) in s.workers
  }

  /** Each received ticket is processed once, and settled once as soon as no worker holds it. */
  ghost predicate TicketInv(s: State, t: nat) {
    var m := multiset(s.log);
    && m[Process(t)] == (if t < s.received && !Waits(s, t) then 1 else 0)
    && (t < s.received && !Busy(s, t) ==>
         t in s.results && m[Complete(t)] == (if s.results[t].Succeeded? then 1 else 0) && m[Fail(t)] == 1 - m[Complete(t)])
    && (t >= s.received || Busy(s, t) ==> m[Complete(t)] == 0 && m[Fail(t)] == 0)
  }

  ghost predicate Inv(c: Config, s: State) {
    ChannelInv(c, s) && WorkerInv(c, s) && (forall t: nat :: TicketInv(s, t)) && ReceiptOrder(s.log) == Interval(0, s.received)
  }

  /** The tickets in the order they were received from the channel. */
  function ReceiptOrder(log: seq<Event>): seq<nat> {
    if log == [] then []
    else
      var rest := ReceiptOrder(log[..|log| - 1]);
      var last := log[|log| - 1];
      if last.Receipt? then rest + [last.ticket] else rest
  }

  /** The tickets of the `processJob` calls, in the order the calls were made. */
  function ProcessOrder(log: seq<Event>): seq<nat> {
    if log == [] then []
    else
      var rest := ProcessOrder(log[..|log| - 1]);
      var last := log[|log| - 1];
      if last.Process? then rest + [last.ticket] else rest
  }

  lemma StartInv(c: Config)
    ensures Inv(c, Start(c))
  {
  }

  predicate MovesWorker(step: Step) {
    step.Handoff? || step.Receive? || step.Begin? || step.Finish? || step.Settle? || step.Exit?
  }

  lemma ChannelWorkerStep(c: Config, s: State, step: Step)
    requires Inv(c, s) && Enabled(c, s, step) && MovesWorker(step)
    ensures ChannelInv(c, Apply(c, s, step))
  {
  }

  lemma ChannelLoopStep(c: Config, s: State, step: Step)
    requires Inv(c, s) && Enabled(c, s, step) && !MovesWorker(step)
    ensures ChannelInv(c, Apply(c, s, step))
  {
  }

  lemma WorkerTakes(c: Config, s: State, step: Step)
    requires Inv(c, s) && Enabled(c, s, step) && (step.Handoff? || step.Receive?)
    ensures WorkerInv(c, Apply(c, s, step))
  {
    var w, s' := step.w, Apply(c, s, step);
    assert forall v :: 0 <= v < |s.workers| && v != w ==> s'.workers[v] == s.workers[v];
  }

  lemma WorkerMovesOn(c: Config, s: State, step: Step)
    requires Inv(c, s) && Enabled(c, s, step) && (step.Begin? || step.Finish? || step.Settle? || step.Exit?)
    ensures WorkerInv(c, Apply(c, s, step))
  {
    var w, s' := step.w, Apply(c, s, step);
    assert forall v :: 0 <= v < |s.workers| && v != w ==> s'.workers[v] == s.workers[v];
  }

  lemma WorkerLoopStep(c: Config, s: State, step: Step)
    requires Inv(c, s) && Enabled(c, s, step) && !MovesWorker(step)
    ensures WorkerInv(c, Apply(c, s, step))
  {
    assert Apply(c, s, step).workers == s.workers;
  }

  lemma OrderAppend(log: seq<Event>, e: Event)
    ensures ProcessOrder(log + [e]) == ProcessOrder(log) + (if e.Process? then [e.ticket] else [])
    ensures ReceiptOrder(log + [e]) == ReceiptOrder(log) + (if e.Receipt? then [e.ticket] else [])
  {
    assert (log + [e])[..|log|] == log;
  }

  lemma TakeOrder(c: Config, s: State, step: Step)
    requires ChannelInv(c, s) && ReceiptOrder(s.log) == Interval(0, s.received)
    requires Enabled(c, s, step) && (step.Handoff? || step.Receive?)
    ensures ReceiptOrder(Apply(c, s, step).log) == Interval(0, Apply(c, s, step).received)
  {
    OrderAppend(s.log, Receipt(s.received));
  }

  lemma OrderStep(c: Config, s: State, step: Step)
    requires ChannelInv(c, s) && ReceiptOrder(s.log) == Interval(0, s.received) && Enabled(c, s, step)
    ensures ReceiptOrder(Apply(c, s, step).log) == Interval(0, Apply(c, s, step).received)
  {
    match step
    case Handoff(_) => TakeOrder(c, s, step);
    case Receive(_) => TakeOrder(c, s, step);
    case Begin(w) => OrderAppend(s.log, Process(s.workers[w].ticket));
    case Settle(w) =>
      var t := s.workers[w].ticket;
      OrderAppend(s.log, if s.workers[w].outcome.Succeeded? then Complete(t) else Fail(t));
    case _ =>
  }

  lemma BusyElsewhere(s: State, s': State, w: nat, t: nat)
    requires w < |s.workers| == |s'.workers| && s'.workers == s.workers[w := s'.workers[w]]
    requires Holds(s.workers[w], t) == Holds(s'.workers[w], t)
    ensures Busy(s, t) == Busy(s', t)
  {
    if Busy(s, t) {
      var v :| 0 <= v < |s.workers| && Holds(s.workers[v], t);
      assert Holds(s'.workers[v], t);
    }
    if Busy(s', t) {
      var v :| 0 <= v < |s'.workers| && Holds(s'.workers[v], t);
      assert Holds(s.workers[v], t);
    }
  }

  lemma WaitsElsewhere(s: State, s': State, w: nat, t: nat)
    requires w < |s.workers| == |s'.workers| && s'.workers == s.workers[w := s'.workers[w]]
    requires (s.workers[w] == Holding(t)) == (s'.workers[w] == Holding(t))
    ensures Waits(s, t) == Waits(s', t)
  {
    assert forall v :: 0 <= v < |s.workers| && v != w ==> s'.workers[v] == s.workers[v];
  }

  lemma TakeTicket(c: Config, s: State, step: Step, t: nat)
    requires Inv(c, s) && Enabled(c, s, step) && (step.Receive? || step.Handoff?)
    ensures TicketInv(Apply(c, s, step), t)
  {
    var s', w := Apply(c, s, step), step.w;
    assert TicketInv(s, t);
    if t == s.received {
      assert Holds(s'.workers[w], t) && Waits(s', t);
    } else {
      BusyElsewhere(s, s', w, t);
      WaitsElsewhere(s, s', w, t);
    }
  }

  lemma BeginTicket(c: Config, s: State, w: nat, t: nat)
    requires Inv(c, s) && Enabled(c, s, Begin(w))
    ensures TicketInv(Apply(c, s, Begin(w)), t)
  {
    var s' := Apply(c, s, Begin(w));
    assert TicketInv(s, t);
    BusyElsewhere(s, s', w, t);
    if t == s.workers[w].ticket {
      assert s.workers[w] == Holding(t) && Holds(s.workers[w], t);
      assert !Waits(s', t);
    } else {
      WaitsElsewhere(s, s', w, t);
    }
  }

  lemma SettleTicket(c: Config, s: State, w: nat, t: nat)
    requires Inv(c, s) && Enabled(c, s, Settle(w))
    ensures TicketInv(Apply(c, s, Settle(w)), t)
  {
    var s' := Apply(c, s, Settle(w));
    assert TicketInv(s, t);
    WaitsElsewhere(s, s', w, t);
    if t == s.workers[w].ticket {
      assert Holds(s.workers[w], t);
      assert !Busy(s', t);
    } else {
      BusyElsewhere(s, s', w, t);
    }
  }

  lemma FinishTicket(c: Config, s: State, w: nat, outcome: Outcome, t: nat)
    requires Inv(c, s) && Enabled(c, s, Finish(w, outcome))
    ensures TicketInv(Apply(c, s, Finish(w, outcome)), t)
  {
    assert TicketInv(s, t);
    BusyElsewhere(s, Apply(c, s, Finish(w, outcome)), w, t);
    WaitsElsewhere(s, Apply(c, s, Finish(w, outcome)), w, t);
    if t == s.workers[w].ticket {
      assert Holds(s.workers[w], t);
    }
  }

  lemma LoopStepKeepsTicket(c: Config, s: State, step: Step, t: nat)
    requires TicketInv(s, t) && Enabled(c, s, step) && !MovesWorker(step)
    ensures TicketInv(Apply(c, s, step), t)
  {
    assert Apply(c, s, step).workers == s.workers;
  }

  lemma TicketStep(c: Config, s: State, step: Step, t: nat)
    requires Inv(c, s) && Enabled(c, s, step)
    ensures TicketInv(Apply(c, s, step), t)
  {
    assert TicketInv(s, t);
    match step
    case Receive(_) => TakeTicket(c, s, step, t);
    case Handoff(_) => TakeTicket(c, s, step, t);
    case Settle(w) => SettleTicket(c, s, w, t);
    case Finish(w, outcome) => FinishTicket(c, s, w, outcome, t);
    case Begin(w) => BeginTicket(c, s, w, t);
    case Exit(w) =>
      BusyElsewhere(s, Apply(c, s, step), w, t);
      WaitsElsewhere(s, Apply(c, s, step), w, t);
    case _ => LoopStepKeepsTicket(c, s, step, t);
  }

  /** Every step of every thread keeps the invariant. */
  lemma InvStep(c: Config, s: State, s': State)
    requires Inv(c, s) && Next(c, s, s')
    ensures Inv(c, s')
  {
    var step :| Enabled(c, s, step) && s' == Apply(c, s, step);
    if MovesWorker(step) {
      ChannelWorkerStep(c, s, step);
      if step.Handoff? || step.Receive? {
        WorkerTakes(c, s, step);
      } else {
        WorkerMovesOn(c, s, step);
      }
    } else {
      ChannelLoopStep(c, s, step);
      WorkerLoopStep(c, s, step);
    }
    OrderStep(c, s, step);
    forall t: nat ensures TicketInv(s', t) {
      TicketStep(c, s, step, t);
    }
  }

  ghost predicate IsRun(c: Config, run: seq<State>) {
    && run != [] && run[0] == Start(c)
    && forall i :: 0 <= i < |run| - 1 ==> Next(c, run[i], run[i + 1])
  }

  lemma {:induction false} RunInv(c: Config, run: seq<State>, i: nat)
    requires IsRun(c, run) && i < |run|
    ensures Inv(c, run[i])
  {
    if i == 0 {
      StartInv(c);
    } else {
      RunInv(c, run, i - 1);
      InvStep(c, run[i - 1], run[i]);
    }
  }

  ghost predicate Reachable(c: Config, s: State) {
    exists run :: IsRun(c, run) && run[|run| - 1] == s
  }

  lemma ReachableInv(c: Config, s: State)
    requires Reachable(c, s)
    ensures Inv(c, s)
  {
    var run :| IsRun(c, run) && run[|run| - 1] == s;
    RunInv(c, run, |run| - 1);
  }

  // ---------------------------------------------------------------- conservation of jobs

  ghost predicate Settled(s: State, t: nat) {
    Complete(t) in s.log || Fail(t) in s.log
  }

  function Unsent(s: State): seq<nat> {
    if s.loop.Sending? then s.loop.todo else []
  }

  function One(b: bool): nat {
    if b then 1 else 0
  }

  /** Where ticket `t` is: counted once per place that holds it. */
  ghost function Places(s: State, t: nat): nat {
    multiset(Unsent(s))[t] + multiset(s.queue)[t] + One(Busy(s, t)) + One(Settled(s, t)) + multiset(s.abandoned)[t]
  }

  lemma {:induction false} IntervalCount(lo: nat, hi: nat, t: nat)
    requires lo <= hi
    ensures multiset(Interval(lo, hi))[t] == One(lo <= t < hi)
    decreases hi - lo
  {
    if lo < hi {
      IntervalCount(lo, hi - 1, t);
      assert Interval(lo, hi) == Interval(lo, hi - 1) + [hi - 1];
    }
  }

  /** No claimed job is lost or duplicated, in any reachable state. */
  lemma JobsAreConserved(c: Config, s: State, t: nat)
    requires Reachable(c, s)
    ensures Places(s, t) == One(t < |s.claimed|)
  {
    ReachableInv(c, s);
    assert TicketInv(s, t);
    IntervalCount(s.received, Sent(s), t);
    IntervalCount(Sent(s), |s.claimed|, t);
    assert multiset(s.log)[Complete(t)] > 0 <==> Complete(t) in s.log;
    assert multiset(s.log)[Fail(t)] > 0 <==> Fail(t) in s.log;
    if t >= s.received {
      assert !Busy(s, t);
    }
  }

  /**
   * When the loop has returned, every job that was sent had exactly one `processJob` call and one
   * settle attempt (`CompleteJob` exactly when it succeeded), and every other claimed job
   * was left untouched by a cancelled shutdown in the newest batch.
   */
  lemma ReturnSettlesWhatWasSent(c: Config, s: State, t: nat)
    requires Reachable(c, s) && s.loop.Returned? && t < |s.claimed|
    ensures s.queue == [] && !Busy(s, t) && s.cancelled
    ensures t !in s.abandoned ==>
              && multiset(s.log)[Process(t)] == 1 && t in s.results
              && multiset(s.log)[Complete(t)] == One(s.results[t].Succeeded?)
              && multiset(s.log)[Fail(t)] == One(!s.results[t].Succeeded?)
    ensures t in s.abandoned ==> t >= s.batchStart && Process(t) !in s.log && !Settled(s, t)
    ensures t in s.abandoned ==> forall u: nat :: t <= u < |s.claimed| ==> u in s.abandoned
  {
    ReachableInv(c, s);
    assert TicketInv(s, t);
    assert c.Workers() >= 1 && s.workers[0].Exited?;
    forall u: nat ensures u in s.abandoned <==> Sent(s) <= u < |s.claimed| {
      InInterval(Sent(s), |s.claimed|, u);
    }
    if t in s.abandoned {
      assert multiset(s.log)[Process(t)] == 0;
    }
  }

  // ---------------------------------------------------------------- order

  /** Workers receive the jobs in the order they were claimed. */
  lemma ReceivedInClaimOrder(c: Config, s: State)
    requires Reachable(c, s)
    ensures ReceiptOrder(s.log) == Interval(0, s.received)
  {
    ReachableInv(c, s);
  }

  /** The `processJob` calls so far are those of the first jobs claimed, in claim order. */
  ghost predicate CallsInClaimOrder(s: State) {
    ProcessOrder(s.log) == Interval(0, |ProcessOrder(s.log)|)
  }

  /** A worker on its own calls `processJob` on each job before it receives the next. */
  ghost predicate SoloInv(s: State) {
    && |s.workers| == 1
    && (s.workers[0].Holding? ==> s.received == s.workers[0].ticket + 1)
    && ProcessOrder(s.log) == Interval(0, if s.workers[0].Holding? then s.workers[0].ticket else s.received)
  }

  lemma SoloTakes(c: Config, s: State, step: Step)
    requires ChannelInv(c, s) && SoloInv(s) && Enabled(c, s, step) && (step.Handoff? || step.Receive?)
    ensures SoloInv(Apply(c, s, step))
  {
    OrderAppend(s.log, Receipt(s.received));
  }

  lemma SoloMovesOn(c: Config, s: State, step: Step)
    requires SoloInv(s) && Enabled(c, s, step) && (step.Begin? || step.Finish? || step.Settle? || step.Exit?)
    ensures SoloInv(Apply(c, s, step))
  {
    match step
    case Begin(w) => OrderAppend(s.log, Process(s.workers[w].ticket));
    case Settle(w) =>
      var t := s.workers[w].ticket;
      OrderAppend(s.log, if s.workers[w].outcome.Succeeded? then Complete(t) else Fail(t));
    case _ =>
  }

  lemma SoloStep(c: Config, s: State, step: Step)
    requires Inv(c, s) && SoloInv(s) && Enabled(c, s, step)
    ensures SoloInv(Apply(c, s, step))
  {
    if step.Handoff? || step.Receive? {
      SoloTakes(c, s, step);
    } else if MovesWorker(step) {
      SoloMovesOn(c, s, step);
    } else {
      var s' := Apply(c, s, step);
      assert s'.workers == s.workers && s'.log == s.log && s'.received == s.received;
    }
  }

  lemma {:induction false} SoloRun(c: Config, run: seq<State>, i: nat)
    requires IsRun(c, run) && i < |run| && c.Workers() == 1
    ensures SoloInv(run[i])
  {
    if i > 0 {
      SoloRun(c, run, i - 1);
      RunInv(c, run, i - 1);
      var step :| Enabled(c, run[i - 1], step) && run[i] == Apply(c, run[i - 1], step);
      SoloStep(c, run[i - 1], step);
    }
  }

  lemma StartIsReachable(c: Config)
    ensures Reachable(c, Start(c))
  {
    assert IsRun(c, [Start(c)]);
  }

  lemma ReachableStep(c: Config, s: State, step: Step)
    requires Reachable(c, s) && Enabled(c, s, step)
    ensures Reachable(c, Apply(c, s, step))
  {
    var run :| IsRun(c, run) && run[|run| - 1] == s;
    assert IsRun(c, run + [Apply(c, s, step)]);
  }

  /** The loop claims one more job and hands it to idle worker `w`. */
  lemma ClaimAndHandOff(c: Config, s: State, w: nat, id: JobId) returns (s': State)
    requires Reachable(c, s) && s.loop.Checking? && !s.cancelled && s.queue == [] && w < |s.workers|
    requires s.workers[w].Idle?
    ensures Reachable(c, s') && s'.loop.Checking? && !s'.cancelled && s'.queue == [] && s'.claimed == s.claimed + [id]
    ensures s'.workers == s.workers[w := Holding(|s.claimed|)] && ProcessOrder(s'.log) == ProcessOrder(s.log)
  {
    ReachableStep(c, s, Check);
    var claiming := Apply(c, s, Check);
    ReachableStep(c, claiming, ClaimReturns([id]));
    var sending := Apply(c, claiming, ClaimReturns([id]));
    ReachableStep(c, sending, Handoff(w));
    var sent := Apply(c, sending, Handoff(w));
    ReachableStep(c, sent, BatchDone);
    s' := Apply(c, sent, BatchDone);
    OrderAppend(s.log, Receipt(|s.claimed|));
  }

  lemma BeginsCall(c: Config, s: State, w: nat) returns (s': State)
    requires Reachable(c, s) && w < |s.workers| && s.workers[w].Holding?
    ensures Reachable(c, s') && ProcessOrder(s'.log) == ProcessOrder(s.log) + [s.workers[w].ticket]
  {
    ReachableStep(c, s, Begin(w));
    s' := Apply(c, s, Begin(w));
    OrderAppend(s.log, Process(s.workers[w].ticket));
  }

  /** With a second worker, the second job may be called first. */
  lemma SecondJobFirst(c: Config) returns (s: State)
    requires c.Workers() > 1
    ensures Reachable(c, s) && ProcessOrder(s.log) == [1]
  {
    StartIsReachable(c);
    var s1 := ClaimAndHandOff(c, Start(c), 0, 0);
    var s2 := ClaimAndHandOff(c, s1, 1, 0);
    s := BeginsCall(c, s2, 1);
  }

  /** `processJob` calls follow the claim order in every run exactly if there is one worker. */
  lemma CallsInClaimOrderIff(c: Config)
    ensures (forall s :: Reachable(c, s) ==> CallsInClaimOrder(s)) <==> c.Workers() == 1
  {
    if c.Workers() == 1 {
      forall s | Reachable(c, s) ensures CallsInClaimOrder(s) {
        var run :| IsRun(c, run) && run[|run| - 1] == s;
        SoloRun(c, run, |run| - 1);
      }
    } else {
      var s := SecondJobFirst(c);
      assert !CallsInClaimOrder(s);
    }
  }

  // ---------------------------------------------------------------- bounds, and that they are reached

  /** The pool has as many workers as configured, at least one, and the channel holds a batch for each. */
  lemma Bounds(c: Config, s: State)
    requires Reachable(c, s)
    ensures |s.workers| == if c.concurrency <= 1 then 1 else c.concurrency
    ensures |s.queue| <= c.batchSize * if c.concurrency <= 1 then 1 else c.concurrency
  {
    ReachableInv(c, s);
  }

  /** All workers can be at work at once. */
  lemma {:induction false} WorkersCanHold(c: Config, n: nat) returns (s: State)
    requires n <= if c.concurrency <= 1 then 1 else c.concurrency
    ensures Reachable(c, s) && s.loop.Checking? && !s.cancelled && s.queue == []
    ensures |s.workers| == c.Workers()
    ensures forall w :: 0 <= w < |s.workers| ==> s.workers[w] == if w < n then Holding(w) else Idle
    ensures |s.claimed| == n
  {
    if n == 0 {
      StartIsReachable(c);
      s := Start(c);
    } else {
      var s' := WorkersCanHold(c, n - 1);
      s := ClaimAndHandOff(c, s', n - 1, 0);
    }
  }

  lemma {:induction false} SendsAll(c: Config, s: State) returns (s': State)
    requires Reachable(c, s) && s.loop.Sending? && |s.queue| + |s.loop.todo| <= c.Capacity()
    ensures Reachable(c, s') && |s'.queue| == |s.queue| + |s.loop.todo| && s'.workers == s.workers
    decreases |s.loop.todo|
  {
    if s.loop.todo == [] {
      s' := s;
    } else {
      ReachableStep(c, s, Send);
      s' := SendsAll(c, Apply(c, s, Send));
    }
  }

  /** With every worker at work the channel still takes a batch for each. */
  lemma ChannelCanFill(c: Config) returns (s: State)
    ensures Reachable(c, s) && |s.queue| == c.batchSize * if c.concurrency <= 1 then 1 else c.concurrency
    ensures forall w :: 0 <= w < |s.workers| ==> s.workers[w].Holding?
  {
    var busy := WorkersCanHold(c, c.Workers());
    var batch := seq(c.Capacity(), i => 0);
    if batch == [] {
      return busy;
    }
    ReachableStep(c, busy, Check);
    var claiming := Apply(c, busy, Check);
    ReachableStep(c, claiming, ClaimReturns(batch));
    s := SendsAll(c, Apply(c, claiming, ClaimReturns(batch)));
  }

  /** A shutdown can leave a job that was claimed unsent. */
  lemma ShutdownCanAbandon(c: Config, id: JobId) returns (s: State)
    ensures Reachable(c, s) && s.claimed == [id] && s.abandoned == [0] && s.loop.Draining?
  {
    StartIsReachable(c);
    ReachableStep(c, Start(c), Check);
    var claiming := Apply(c, Start(c), Check);
    ReachableStep(c, claiming, ClaimReturns([id]));
    var sending := Apply(c, claiming, ClaimReturns([id]));
    ReachableStep(c, sending, Cancel);
    var cancelled := Apply(c, sending, Cancel);
    ReachableStep(c, cancelled, GiveUp);
    s := Apply(c, cancelled, GiveUp);
    assert s.abandoned == [0];
  }

  lemma LeavesWaiting(c: Config, s: State, s': State)
    requires Next(c, s, s') && s.loop.Waiting?
    ensures s'.loop.Waiting? || s'.loop.Checking?
  {
  }

  lemma {:induction false} WaitIsPassed(c: Config, run: seq<State>, i: nat, j: nat) returns (k: nat)
    requires IsRun(c, run) && i < j < |run| && run[i].loop.Waiting? && run[j].loop.Claiming?
    ensures i <= k < j && run[k].loop.Waiting? && run[k + 1].loop.Checking?
    decreases j - i
  {
    LeavesWaiting(c, run[i], run[i + 1]);
    k := i;
    if run[i + 1].loop.Waiting? {
      k := WaitIsPassed(c, run, i + 1, j);
    }
  }

  /** A claim that brings nothing, or fails, is followed by a wait before the next claim. */
  lemma NoBusyPolling(c: Config, run: seq<State>, i: nat, j: nat) returns (k: nat)
    requires IsRun(c, run) && i + 1 < j < |run| && run[j].loop.Claiming?
    requires run[i].loop.Claiming? && !run[i + 1].loop.Claiming? && run[i + 1].claimed == run[i].claimed
    ensures i < k < j && run[k].loop.Waiting? && run[k + 1].loop.Checking?
  {
    assert Next(c, run[i], run[i + 1]);
    var step :| Enabled(c, run[i], step) && run[i + 1] == Apply(c, run[i], step);
    if step.ClaimReturns? {
      assert |run[i + 1].claimed| == |run[i].claimed| + |step.batch|;
    }
    k := WaitIsPassed(c, run, i + 1, j);
  }

  // ---------------------------------------------------------------- progress

  /** Short of having returned, some thread can always move, whatever the environment does. */
  lemma NoDeadlock(c: Config, s: State) returns (step: Step)
    requires Reachable(c, s) && !s.loop.Returned?
    ensures Enabled(c, s, step) && !step.Cancel?
  {
    ReachableInv(c, s);
    match s.loop
    case Checking => step := Check;
    case Claiming => step := ClaimFails;
    case Waiting => step := WaitEnds;
    case Sending(todo) =>
      if todo == [] {
        step := BatchDone;
      } else if |s.queue| < c.Capacity() {
        step := Send;
      } else {
        step := WorkerCanMove(c, s);
      }
    case Draining =>
      if forall w :: 0 <= w < |s.workers| ==> s.workers[w].Exited? {
        step := Return;
      } else {
        var w :| 0 <= w < |s.workers| && !s.workers[w].Exited?;
        step := if s.workers[w].Holding? then Begin(w)
                else if s.workers[w].Processing? then Finish(w, Errored)
                else if s.workers[w].Settling? then Settle(w)
                else if s.queue == [] then Exit(w) else Receive(w);
      }
  }

  lemma WorkerCanMove(c: Config, s: State) returns (step: Step)
    requires Inv(c, s) && s.loop.Sending? && s.loop.todo != []
    ensures Enabled(c, s, step) && !step.Cancel?
  {
    assert c.Workers() >= 1 && !s.workers[0].Exited?;
    step := if s.workers[0].Holding? then Begin(0)
            else if s.workers[0].Processing? then Finish(0, Errored)
            else if s.workers[0].Settling? then Settle(0)
            else if s.queue == [] then Handoff(0) else Receive(0);
  }

  function Rank(l: Loop): nat {
    match l
    case Claiming => 4
    case Sending(_) => 3
    case Waiting => 3
    case Checking => 2
    case Draining => 1
    case Returned => 0
  }

  function Weight(w: Worker): nat {
    match w
    case Holding(_) => 4
    case Processing(_) => 3
    case Settling(_, _) => 2
    case Idle => 1
    case Exited => 0
  }

  function TotalWeight(ws: seq<Worker>): nat {
    if ws == [] then 0 else Weight(ws[0]) + TotalWeight(ws[1..])
  }

  lemma {:induction false} WeightUpdate(ws: seq<Worker>, w: nat, x: Worker)
    requires w < |ws|
    ensures TotalWeight(ws[w := x]) + Weight(ws[w]) == TotalWeight(ws) + Weight(x)
  {
    if w == 0 {
      assert ws[w := x][1..] == ws[1..];
    } else {
      WeightUpdate(ws[1..], w - 1, x);
      assert ws[w := x][1..] == ws[1..][w - 1 := x];
    }
  }

  /** The work left before the loop can leave its current phase. */
  function Work(s: State): nat {
    5 * |Unsent(s)| + 4 * |s.queue| + TotalWeight(s.workers)
  }

  ghost predicate Forward(s: State, s': State) {
    s'.cancelled && (Rank(s'.loop) < Rank(s.loop) || (Rank(s'.loop) == Rank(s.loop) && Work(s') < Work(s)))
  }

  lemma WorkerProgress(c: Config, s: State, step: Step)
    requires s.cancelled && Enabled(c, s, step) && MovesWorker(step)
    ensures Forward(s, Apply(c, s, step))
  {
    WeightUpdate(s.workers, step.w, Apply(c, s, step).workers[step.w]);
  }

  /** Once cancelled, every step moves the shutdown forward. */
  lemma ShutdownProgress(c: Config, s: State, step: Step)
    requires s.cancelled && Enabled(c, s, step)
    ensures Forward(s, Apply(c, s, step))
  {
    if MovesWorker(step) {
      WorkerProgress(c, s, step);
    } else {
      assert Apply(c, s, step).workers == s.workers;
    }
  }

  /** A run that keeps going until the loop has returned. */
  ghost predicate Maximal(c: Config, run: nat -> State) {
    forall i: nat :: if run(i).loop.Returned? then run(i + 1) == run(i) else Next(c, run(i), run(i + 1))
  }

  lemma {:induction false} ShutdownFrom(c: Config, run: nat -> State, i: nat) returns (n: nat)
    requires Maximal(c, run) && Inv(c, run(i)) && run(i).cancelled
    ensures n >= i && run(n).loop.Returned?
    decreases Rank(run(i).loop), Work(run(i))
  {
    if run(i).loop.Returned? {
      n := i;
    } else {
      var step :| Enabled(c, run(i), step) && run(i + 1) == Apply(c, run(i), step);
      InvStep(c, run(i), run(i + 1));
      ShutdownProgress(c, run(i), step);
      n := ShutdownFrom(c, run, i + 1);
    }
  }

  /** After the context is cancelled the loop returns on every schedule, having drained the channel. */
  lemma ShutdownTerminates(c: Config, run: nat -> State, i: nat) returns (n: nat)
    requires Maximal(c, run) && Reachable(c, run(i)) && run(i).cancelled
    ensures n >= i && run(n).loop.Returned?
  {
    ReachableInv(c, run(i));
    n := ShutdownFrom(c, run, i);
  }
}
