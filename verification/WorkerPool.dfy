/**
 The judge worker pool (backend/src/judge/worker_pool.hpp, worker_pool.cpp) as interleaved steps.

 Every event is one critical section of the pool's mutex or one action outside it: a submitter
 unlocking before it notifies, a wake-up, the test of the wait predicate, the end of a task, the
 parts of shutdown.  A run is any sequence of enabled events of any number of workers, submitters
 and shutdown callers.
 */
module WorkerPools {
  import opened Counting
  import opened Wrappers

  // What a task's callable does when it is run: return a value or throw.
  datatype Outcome = Value(v: int) | Threw(message: string)

  datatype Task = Task(ticket: nat, outcome: Outcome)

  datatype Worker =
    | Awake                 // about to lock the mutex and test the wait predicate
    | Asleep                // in the wait set of `available_`
    | Running(task: Task)   // popped a task, mutex released
    | Exited                // left workerLoop

  // How far the first caller of shutdown() has come.
  datatype Closing = NotCalled | Notifying | Joining(joined: nat) | Returned

  datatype Pool = Pool(
    workers: seq<Worker>,
    queue: seq<Task>,
    notifies: nat,               // submitters past the unlock that still owe their notify_one
    closing: Closing,
    accepted: seq<Task>,         // history: every task submit() took
    started: seq<Task>,          // history: every task a worker popped
    resolved: seq<Task>)         // history: every future set, in order
  {
    predicate Stopping() { closing != NotCalled }
  }

  datatype Event =
    | Submit(outcome: Outcome)   // lock, test stopping_, push or throw
    | NotifyOne(w: nat)          // notify_one; it picks w when somebody sleeps
    | Spurious(w: nat)           // a wait returns without a notification
    | Test(w: nat)               // lock, test the predicate, then sleep, exit or pop
    | Finish(w: nat)             // the task ends and its future is set
    | Shutdown                   // lock, return at once or set stopping_
    | NotifyAll                  // the first caller's notify_all
    | Join                       // the first caller joins the next thread, or returns

  function Init(n: nat): Pool {
    Pool(seq(n, i => Awake), [], 0, NotCalled, [], [], [])
  }

  predicate SomeoneAsleep(s: Pool) { Asleep in s.workers }

  predicate Enabled(s: Pool, e: Event) {
    match e
    case Submit(_) => true
    case NotifyOne(w) => s.notifies > 0 && (SomeoneAsleep(s) ==> w < |s.workers| && s.workers[w] == Asleep)
    case Spurious(w) => w < |s.workers| && s.workers[w] == Asleep
    case Test(w) => w < |s.workers| && s.workers[w] == Awake
    case Finish(w) => w < |s.workers| && s.workers[w].Running?
    case Shutdown => true
    case NotifyAll => s.closing == Notifying
    case Join =>
      && s.closing.Joining?
      && (s.closing.joined < |s.workers| ==> s.workers[s.closing.joined] == Exited)
  }

  function WakeAll(ws: seq<Worker>): seq<Worker> { Replace(ws, Asleep, Awake) }

  function Next(s: Pool, e: Event): Pool
    requires Enabled(s, e)
  {
    match e
    case Submit(outcome) =>
      if s.Stopping() then s
      else
        var task := Task(|s.accepted|, outcome);
        s.(queue := s.queue + [task], accepted := s.accepted + [task], notifies := s.notifies + 1)
    case NotifyOne(w) =>
      if SomeoneAsleep(s)
      then s.(notifies := s.notifies - 1, workers := s.workers[w := Awake])
      else s.(notifies := s.notifies - 1)
    case Spurious(w) => s.(workers := s.workers[w := Awake])
    case Test(w) =>
      if s.queue == [] then
        s.(workers := s.workers[w := if s.Stopping() then Exited else Asleep])
      else
        s.(queue := s.queue[1..], started := s.started + [s.queue[0]],
           workers := s.workers[w := Running(s.queue[0])])
    case Finish(w) =>
      s.(resolved := s.resolved + [s.workers[w].task], workers := s.workers[w := Awake])
    case Shutdown => if s.Stopping() then s else s.(closing := Notifying)
    case NotifyAll => s.(workers := WakeAll(s.workers), closing := Joining(0))
    case Join =>
      if s.closing.joined < |s.workers|
      then s.(closing := Joining(s.closing.joined + 1))
      else s.(closing := Returned)
  }

  // ---- Runs ----

  ghost predicate Legal(s: Pool, es: seq<Event>)
    decreases |es|
  {
    es == [] || (Enabled(s, es[0]) && Legal(Next(s, es[0]), es[1..]))
  }

  ghost function Exec(s: Pool, es: seq<Event>): Pool
    requires Legal(s, es)
    decreases |es|
  {
    if es == [] then s else Exec(Next(s, es[0]), es[1..])
  }

  // ---- What every reachable state satisfies ----

  function Holding(s: Pool, phase: Worker): nat { Count(s.workers, phase) }

  ghost predicate Inv(s: Pool) {
    && |s.workers| > 0
    && Fifo(s)
    && Futures(s)
    && Wakeups(s)
    && Shutdowns(s)
  }

  // Tasks start in the order they were accepted, and the ticket is the position in that order.
  ghost predicate Fifo(s: Pool) {
    && s.started + s.queue == s.accepted
    && forall i | 0 <= i < |s.accepted| :: s.accepted[i].ticket == i
  }

  // Every started task is either running in exactly one worker or has had its future set exactly once.
  ghost predicate Futures(s: Pool) {
    forall t: Task :: Holding(s, Running(t)) + Count(s.resolved, t) == Count(s.started, t)
  }

  // No lost wake-up: work that sleepers could take is covered by owed notifications and awake workers.
  ghost predicate Wakeups(s: Pool) {
    SomeoneAsleep(s) ==>
      && |s.queue| <= s.notifies + Holding(s, Awake)
      && (s.Stopping() ==> s.closing == Notifying)
  }

  ghost predicate Shutdowns(s: Pool) {
    && (Exited in s.workers ==> s.Stopping() && s.queue == [])
    && (s.closing.Joining? ==>
          && s.closing.joined <= |s.workers|
          && forall i | 0 <= i < s.closing.joined :: s.workers[i] == Exited)
    && (s.closing.Returned? ==> forall i | 0 <= i < |s.workers| :: s.workers[i] == Exited)
  }

  lemma InitInv(n: nat)
    requires n > 0
    ensures Inv(Init(n))
  {
    var s := Init(n);
    forall t: Task ensures Holding(s, Running(t)) == 0 {
      CountMember(s.workers, Running(t));
    }
  }

  function One(x: Worker, y: Worker): int { if x == y then 1 else 0 }

  function WakeDelta(ws: seq<Worker>, x: Worker): int {
    if x == Asleep then -(Count(ws, Asleep) as int) else if x == Awake then Count(ws, Asleep) else 0
  }

  // How many workers an event adds to phase x.
  function Delta(s: Pool, e: Event, x: Worker): int
    requires Enabled(s, e)
  {
    match e
    case NotifyOne(w) => if SomeoneAsleep(s) then One(x, Awake) - One(x, Asleep) else 0
    case Spurious(w) => One(x, Awake) - One(x, Asleep)
    case Test(w) => One(x, Next(s, e).workers[w]) - One(x, Awake)
    case Finish(w) => One(x, Awake) - One(x, s.workers[w])
    case NotifyAll => WakeDelta(s.workers, x)
    case _ => 0
  }

  lemma StepCounts(s: Pool, e: Event, x: Worker)
    requires Enabled(s, e)
    ensures Holding(Next(s, e), x) == Holding(s, x) + Delta(s, e, x)
  {
    hide Count;
    match e
    case NotifyOne(w) => if SomeoneAsleep(s) { CountUpdate(s.workers, w, Awake, x); }
    case Spurious(w) => CountUpdate(s.workers, w, Awake, x);
    case Test(w) => CountUpdate(s.workers, w, Next(s, e).workers[w], x);
    case Finish(w) => CountUpdate(s.workers, w, Awake, x);
    case NotifyAll => CountReplace(s.workers, Asleep, Awake, x);
    case _ =>
  }

  lemma StepFifo(s: Pool, e: Event)
    requires Enabled(s, e) && Fifo(s)
    ensures Fifo(Next(s, e))
  {
  }

  lemma StepFuture(s: Pool, e: Event, t: Task)
    requires Enabled(s, e) && Holding(s, Running(t)) + Count(s.resolved, t) == Count(s.started, t)
    ensures var s' := Next(s, e); Holding(s', Running(t)) + Count(s'.resolved, t) == Count(s'.started, t)
  {
    hide Count;
    StepCounts(s, e, Running(t));
    if e.Test? && s.queue != [] {
      CountSnoc(s.started, s.queue[0], t);
    } else if e.Finish? {
      CountSnoc(s.resolved, s.workers[e.w].task, t);
    }
  }

  lemma StepFutures(s: Pool, e: Event)
    requires Enabled(s, e) && Futures(s)
    ensures Futures(Next(s, e))
  {
    forall t: Task
      ensures var s' := Next(s, e); Holding(s', Running(t)) + Count(s'.resolved, t) == Count(s'.started, t)
    {
      StepFuture(s, e, t);
    }
  }

  lemma StepWakeups(s: Pool, e: Event)
    requires Enabled(s, e) && Wakeups(s)
    ensures Wakeups(Next(s, e))
  {
    hide Count;
    StepCounts(s, e, Awake);
    StepCounts(s, e, Asleep);
    CountMember(s.workers, Asleep);
    CountMember(Next(s, e).workers, Asleep);
  }

  lemma StepShutdowns(s: Pool, e: Event)
    requires Enabled(s, e) && Shutdowns(s)
    ensures Shutdowns(Next(s, e))
  {
    var s' := Next(s, e);
    if Exited in s'.workers && Exited !in s.workers {
      var i :| 0 <= i < |s'.workers| && s'.workers[i] == Exited;
      assert s.workers[i] != Exited;
    }
  }

  lemma StepInv(s: Pool, e: Event)
    requires Inv(s) && Enabled(s, e)
    ensures Inv(Next(s, e))
  {
    StepFifo(s, e);
    StepFutures(s, e);
    StepWakeups(s, e);
    StepShutdowns(s, e);
  }

  /** Every state of every run satisfies the invariant; stopping_ is never reset and no accepted task is withdrawn. */
  lemma {:induction false} RunInv(s: Pool, es: seq<Event>)
    requires Inv(s) && Legal(s, es)
    ensures Inv(Exec(s, es))
    ensures s.Stopping() ==> Exec(s, es).Stopping()
    ensures s.accepted <= Exec(s, es).accepted && s.resolved <= Exec(s, es).resolved
    decreases |es|
  {
    if es != [] {
      StepInv(s, es[0]);
      RunInv(Next(s, es[0]), es[1..]);
    }
  }

  // ---- FIFO and exactly once ----

  lemma StartedIsDistinct(s: Pool, t: Task)
    requires Fifo(s)
    ensures Count(s.started, t) <= 1
  {
    forall i, j | 0 <= i < j < |s.started| ensures s.started[i] != s.started[j] {
      assert s.started[i] == s.accepted[i] && s.started[j] == s.accepted[j];
    }
    CountDistinct(s.started, t);
  }

  /** In every run tasks start in acceptance order and each future is set at most once, with its own task's
      outcome. */
  lemma FifoExactlyOnce(n: nat, es: seq<Event>)
    requires n > 0 && Legal(Init(n), es)
    ensures var s := Exec(Init(n), es);
            && s.started + s.queue == s.accepted
            && (forall i, j | 0 <= i < j < |s.resolved| :: s.resolved[i].ticket != s.resolved[j].ticket)
            && (forall t | t in s.resolved :: t.ticket < |s.started| && s.accepted[t.ticket] == t)
  {
    var s := Exec(Init(n), es);
    InitInv(n);
    RunInv(Init(n), es);
    forall t | t in s.resolved
      ensures t.ticket < |s.started| && s.accepted[t.ticket] == t && Count(s.resolved, t) <= 1
    {
      CountMember(s.resolved, t);
      CountMember(s.started, t);
      StartedIsDistinct(s, t);
      assert Holding(s, Running(t)) + Count(s.resolved, t) == Count(s.started, t);
      var i :| 0 <= i < |s.started| && s.started[i] == t;
      assert s.accepted[i] == t;
    }
    forall i, j | 0 <= i < j < |s.resolved| ensures s.resolved[i].ticket != s.resolved[j].ticket {
      assert s.resolved[i] in s.resolved && s.resolved[j] in s.resolved;
      if s.resolved[i] == s.resolved[j] {
        CountAtMostOnce(s.resolved, i, j);
        assert false;
      }
    }
  }

  // ---- Every submission to an open pool is taken ----

  // What was submitted before the first shutdown().
  function Offered(es: seq<Event>): seq<Outcome> {
    if es == [] || es[0].Shutdown? then []
    else (if es[0].Submit? then [es[0].outcome] else []) + Offered(es[1..])
  }

  function Outcomes(ts: seq<Task>): (outcomes: seq<Outcome>)
    ensures |outcomes| == |ts| && forall i | 0 <= i < |ts| :: outcomes[i] == ts[i].outcome
  {
    seq(|ts|, i requires 0 <= i < |ts| => ts[i].outcome)
  }

  // What one event makes the pool accept.
  function Taken(s: Pool, e: Event): seq<Outcome> {
    if e.Submit? && !s.Stopping() then [e.outcome] else []
  }

  lemma StepAccepts(s: Pool, e: Event)
    requires Enabled(s, e)
    ensures Outcomes(Next(s, e).accepted) == Outcomes(s.accepted) + Taken(s, e)
    ensures Next(s, e).Stopping() <==> s.Stopping() || e.Shutdown?
  {
    assert e.Submit? && !s.Stopping() ==>
        Next(s, e).accepted == s.accepted + [Task(|s.accepted|, e.outcome)];
  }

  lemma {:induction false} RunAccepts(s: Pool, es: seq<Event>)
    requires Legal(s, es)
    ensures Outcomes(Exec(s, es).accepted) == Outcomes(s.accepted) + if s.Stopping() then [] else Offered(es)
    decreases |es|
  {
    if es != [] {
      StepAccepts(s, es[0]);
      RunAccepts(Next(s, es[0]), es[1..]);
    }
  }

  /** In every run the accepted tasks are, in order, those submitted before the first shutdown(), and whatever is
      resolved carries the outcome its own submission gave. */
  lemma EverySubmissionIsTaken(n: nat, es: seq<Event>)
    requires n > 0 && Legal(Init(n), es)
    ensures var s := Exec(Init(n), es);
            && Outcomes(s.accepted) == Offered(es)
            && forall t | t in s.resolved :: t.ticket < |Offered(es)| && t.outcome == Offered(es)[t.ticket]
  {
    RunAccepts(Init(n), es);
    FifoExactlyOnce(n, es);
    var s := Exec(Init(n), es);
    assert Outcomes(Init(n).accepted) + Offered(es) == Offered(es);
    forall t | t in s.resolved ensures t.ticket < |Offered(es)| && t.outcome == Offered(es)[t.ticket] {
      assert s.started + s.queue == s.accepted && t.ticket < |s.started|;
      assert s.accepted[t.ticket] == t;
    }
  }

  /** When the first shutdown() has returned, each of those submissions has been resolved exactly once. */
  lemma ShutdownResolvesAllOffered(n: nat, es: seq<Event>, i: nat)
    requires n > 0 && Legal(Init(n), es) && Exec(Init(n), es).closing == Returned && i < |Offered(es)|
    ensures Count(Exec(Init(n), es).resolved, Task(i, Offered(es)[i])) == 1
  {
    var s, t := Exec(Init(n), es), Task(i, Offered(es)[i]);
    ShutdownDrains(n, es);
    EverySubmissionIsTaken(n, es);
    InitInv(n);
    RunInv(Init(n), es);
    assert s.accepted[i] == t && t in s.accepted;
    CountMember(s.accepted, t);
    StartedIsDistinct(s, t);
    assert s.started == s.accepted;
    assert Count(s.resolved, t) == Count(s.accepted, t);
  }

  function Live(s: Pool): int { |s.workers| - Holding(s, Exited) }

  /** A task that throws costs no worker: only an idle worker of a stopping pool ever leaves. */
  lemma OnlyIdleWorkersLeave(s: Pool, e: Event)
    requires Inv(s) && Enabled(s, e)
    ensures Live(Next(s, e)) == Live(s) - if e.Test? && s.Stopping() && s.queue == [] then 1 else 0
  {
    StepCounts(s, e, Exited);
  }

  // ---- Progress and termination ----

  // Steps of the pool itself.  Spurious wake-ups count only once stopping_ is set.
  predicate Internal(s: Pool, e: Event) {
    match e
    case Submit(_) => false
    case Shutdown => false
    case Spurious(_) => s.Stopping()
    case _ => true
  }

  function ClosingWeight(s: Pool): nat {
    match s.closing
    case NotCalled => 0
    case Notifying => |s.workers| + 2
    case Joining(k) => if k <= |s.workers| then |s.workers| - k + 1 else 0
    case Returned => 0
  }

  // Before stopping_ a sleeper is at rest; afterwards it still has to wake up and leave.
  function Load(s: Pool): int {
    (if s.Stopping() then 2 * Holding(s, Asleep) else 0) + Holding(s, Awake)
    + 2 * (|s.workers| - Holding(s, Asleep) - Holding(s, Awake) - Holding(s, Exited))
  }

  function Measure(s: Pool): int {
    Load(s) + 2 * |s.queue| + 2 * s.notifies + ClosingWeight(s)
  }

  lemma {:induction false} PhasesFit(ws: seq<Worker>)
    ensures Count(ws, Asleep) + Count(ws, Awake) + Count(ws, Exited) <= |ws|
  {
    if ws != [] {
      var n := |ws| - 1;
      PhasesFit(ws[..n]);
    }
  }

  lemma LoadStep(s: Pool, e: Event)
    requires Inv(s) && Enabled(s, e) && Internal(s, e)
    ensures Next(s, e).Stopping() == s.Stopping()
    ensures Load(Next(s, e)) <= Load(s) +
              match e
              case NotifyOne(_) => if SomeoneAsleep(s) then 1 else 0
              case Test(_) => if s.queue == [] then -1 else 1
              case Spurious(_) => -1
              case Finish(_) => -1
              case _ => 0
  {
    StepCounts(s, e, Asleep);
    StepCounts(s, e, Awake);
    StepCounts(s, e, Exited);
  }

  /** Every step of the pool itself strictly decreases the measure. */
  lemma StepDecreases(s: Pool, e: Event)
    requires Inv(s) && Enabled(s, e) && Internal(s, e)
    ensures 0 <= Measure(Next(s, e)) < Measure(s)
    ensures Next(s, e).Stopping() == s.Stopping() && Next(s, e).accepted == s.accepted
  {
    LoadStep(s, e);
    PhasesFit(Next(s, e).workers);
  }

  function Work(es: seq<Event>): nat {
    if es == [] then 0
    else (if es[0].Submit? || es[0].Shutdown? then 0 else 1) + Work(es[1..])
  }

  /** Once stopping_ is set a run does at most Measure(s) steps, and no task is accepted in it. */
  lemma {:induction false} StoppingRunsAreBounded(s: Pool, es: seq<Event>)
    requires Inv(s) && s.Stopping() && Legal(s, es)
    ensures Work(es) <= Measure(s)
    ensures Exec(s, es).accepted == s.accepted && Exec(s, es).Stopping()
    decreases |es|
  {
    PhasesFit(s.workers);
    if es != [] {
      StepInv(s, es[0]);
      if Internal(s, es[0]) {
        StepDecreases(s, es[0]);
      }
      StoppingRunsAreBounded(Next(s, es[0]), es[1..]);
    }
  }

  ghost predicate AllInternal(s: Pool, es: seq<Event>)
    requires Legal(s, es)
    decreases |es|
  {
    es == [] || (Internal(s, es[0]) && AllInternal(Next(s, es[0]), es[1..]))
  }

  /** A run of internal steps alone has at most Measure(s) of them. */
  lemma {:induction false} QuietRunsAreBounded(s: Pool, es: seq<Event>)
    requires Inv(s) && Legal(s, es) && AllInternal(s, es)
    ensures |es| <= Measure(s)
    decreases |es|
  {
    PhasesFit(s.workers);
    if es != [] {
      StepInv(s, es[0]);
      StepDecreases(s, es[0]);
      QuietRunsAreBounded(Next(s, es[0]), es[1..]);
    }
  }

  // The steps of a run that the pool takes by itself, spurious wake-ups aside.
  function Steps(es: seq<Event>): nat {
    if es == [] then 0
    else (if es[0].Submit? || es[0].Spurious? || es[0].Shutdown? then 0 else 1) + Steps(es[1..])
  }

  // What submissions and spurious wake-ups add to the measure.
  function Provoked(es: seq<Event>): nat {
    if es == [] then 0
    else (if es[0].Submit? then 4 else if es[0].Spurious? then 1 else 0) + Provoked(es[1..])
  }

  // What the first call of shutdown() will add, if it is still to come.
  function Notice(s: Pool): nat { if s.Stopping() then 0 else 3 * |s.workers| + 2 }

  // Events that are no step of the pool raise the measure by no more than their share.
  lemma OutsideStep(s: Pool, e: Event)
    requires Inv(s) && Enabled(s, e) && (e.Submit? || e.Spurious? || e.Shutdown?)
    ensures Measure(Next(s, e)) + Notice(Next(s, e))
         <= Measure(s) + Notice(s) + if e.Submit? then 4 else if e.Spurious? then 1 else 0
  {
    hide Count;
    StepCounts(s, e, Asleep);
    StepCounts(s, e, Awake);
    StepCounts(s, e, Exited);
    PhasesFit(s.workers);
  }

  /** In every run the pool's own steps are bounded: each submission allows for four, each spurious wake-up for one,
      and the first shutdown for a number that depends on the workers alone. */
  lemma {:induction false} RunsAreBounded(s: Pool, es: seq<Event>)
    requires Inv(s) && Legal(s, es)
    ensures Steps(es) <= Measure(s) + Notice(s) + Provoked(es)
    decreases |es|
  {
    hide Inv, Measure, Notice;
    MeasureIsNat(s);
    if es != [] {
      var e := es[0];
      StepInv(s, e);
      RunsAreBounded(Next(s, e), es[1..]);
      if e.Submit? || e.Spurious? || e.Shutdown? {
        OutsideStep(s, e);
      } else {
        StepDecreases(s, e);
        SameNotice(s, e);
      }
    }
  }

  lemma MeasureIsNat(s: Pool)
    requires Inv(s)
    ensures Measure(s) >= 0
  {
    PhasesFit(s.workers);
  }

  lemma SameNotice(s: Pool, e: Event)
    requires Inv(s) && Enabled(s, e) && Internal(s, e)
    ensures Notice(Next(s, e)) == Notice(s)
  {
    hide Inv;
    StepDecreases(s, e);
  }

  ghost predicate Stuck(s: Pool) {
    forall e :: Internal(s, e) ==> !Enabled(s, e)
  }

  // Nothing is queued and every accepted task's future has been set, exactly once each.
  ghost predicate Drained(s: Pool) {
    s.queue == [] && forall t :: Count(s.resolved, t) == Count(s.accepted, t)
  }

  lemma IdleMeansDrained(s: Pool)
    requires Inv(s)
    ensures Drained(s) <==> s.queue == [] && forall i | 0 <= i < |s.workers| :: !s.workers[i].Running?
  {
    if s.queue == [] {
      assert s.started == s.accepted;
      if i :| 0 <= i < |s.workers| && s.workers[i].Running? {
        var t := s.workers[i].task;
        CountMember(s.workers, Running(t));
        assert s.workers[i] in s.workers;
        assert Holding(s, Running(t)) + Count(s.resolved, t) == Count(s.accepted, t);
      } else {
        forall t: Task ensures Count(s.resolved, t) == Count(s.accepted, t) {
          CountMember(s.workers, Running(t));
          assert Holding(s, Running(t)) + Count(s.resolved, t) == Count(s.started, t);
        }
      }
    }
  }

  /** The pool only comes to rest with all work done; after shutdown() also with every worker gone. */
  lemma RestMeansDone(s: Pool)
    requires Inv(s) && Stuck(s)
    ensures Drained(s) && s.notifies == 0
    ensures if s.Stopping() then s.closing == Returned && forall i | 0 <= i < |s.workers| :: s.workers[i] == Exited
            else forall i | 0 <= i < |s.workers| :: s.workers[i] == Asleep
  {
    forall i | 0 <= i < |s.workers| ensures s.workers[i] == Asleep || s.workers[i] == Exited {
      assert Internal(s, Test(i)) && Internal(s, Finish(i));
    }
    if s.notifies > 0 {
      if SomeoneAsleep(s) {
        var w :| 0 <= w < |s.workers| && s.workers[w] == Asleep;
        assert Internal(s, NotifyOne(w)) && Enabled(s, NotifyOne(w));
      } else {
        assert Internal(s, NotifyOne(0)) && Enabled(s, NotifyOne(0));
      }
    }
    assert Internal(s, NotifyAll) && Internal(s, Join);
    CountMember(s.workers, Awake);
    if s.Stopping() {
      assert !SomeoneAsleep(s);
    } else {
      assert s.workers[0] == Asleep;
    }
    IdleMeansDrained(s);
  }

  /** A non-empty queue never leaves the pool stuck. */
  lemma QueuedWorkIsNeverStuck(s: Pool)
    requires Inv(s) && s.queue != []
    ensures exists e :: Internal(s, e) && !e.Spurious? && Enabled(s, e)
  {
    var e: Event;
    if i :| 0 <= i < |s.workers| && s.workers[i] == Awake {
      e := Test(i);
    } else if i :| 0 <= i < |s.workers| && s.workers[i].Running? {
      e := Finish(i);
    } else {
      CountMember(s.workers, Awake);
      assert s.workers[0] in s.workers;
      e := if s.notifies > 0 then NotifyOne(0) else NotifyAll;
    }
    assert Internal(s, e) && !e.Spurious? && Enabled(s, e);
  }

  /** From any reachable state the pool can run to rest by its own steps alone. */
  lemma {:induction false} RunsToRest(s: Pool) returns (es: seq<Event>)
    requires Inv(s)
    ensures Legal(s, es) && AllInternal(s, es) && Stuck(Exec(s, es))
    decreases Measure(s)
  {
    if Stuck(s) {
      es := [];
    } else {
      var e :| Internal(s, e) && Enabled(s, e);
      StepInv(s, e);
      StepDecreases(s, e);
      var rest := RunsToRest(Next(s, e));
      es := [e] + rest;
      assert es[1..] == rest;
    }
  }

  /** When the first shutdown() returns, every worker has left and every accepted task has run. */
  lemma ShutdownDrains(n: nat, es: seq<Event>)
    requires n > 0 && Legal(Init(n), es)
    ensures var s := Exec(Init(n), es);
            s.closing == Returned ==>
              && Drained(s)
              && forall i | 0 <= i < |s.workers| :: s.workers[i] == Exited
  {
    InitInv(n);
    RunInv(Init(n), es);
    var s := Exec(Init(n), es);
    if s.closing == Returned {
      assert s.workers[0] in s.workers;
      IdleMeansDrained(s);
    }
  }

  /** A later shutdown() call returns at once, so it finds the pool drained only if it already was. */
  lemma LateShutdownDoesNotWait(s: Pool)
    requires Inv(s) && s.Stopping()
    ensures Next(s, Shutdown) == s
    ensures Drained(Next(s, Shutdown))
       <==> s.queue == [] && forall i | 0 <= i < |s.workers| :: !s.workers[i].Running?
  {
    IdleMeansDrained(s);
  }

  /** A run in which a later shutdown() call returns while an accepted task has not even started. */
  lemma LateShutdownWitness(outcome: Outcome)
    ensures var es := [Submit(outcome), Shutdown, Shutdown];
            Legal(Init(1), es) && Exec(Init(1), es).queue != []
  {
    var s0 := Init(1);
    var s1 := Next(s0, Submit(outcome));
    var s2 := Next(s1, Shutdown);
    var es := [Submit(outcome), Shutdown, Shutdown];
    assert es[1..] == [Shutdown, Shutdown] && es[1..][1..] == [Shutdown] && es[1..][1..][1..] == [];
    assert Legal(s2, []) && Exec(s2, []) == s2;
    assert Legal(s2, [Shutdown]) && Exec(s2, [Shutdown]) == s2;
    assert Legal(s1, es[1..]) && Exec(s1, es[1..]) == s2;
    assert Exec(s0, es) == s2;
  }

  // ---- The pool object ----

  class WorkerPool {
    var tasks: seq<Task>
    var stopping: bool
    const workers: array<Worker>
    ghost var notifies: nat
    ghost var closing: Closing
    ghost var accepted: seq<Task>
    ghost var started: seq<Task>
    ghost var resolved: seq<Task>
    var issued: nat

    ghost function State(): Pool
      reads this, workers
    {
      Pool(workers[..], tasks, notifies, closing, accepted, started, resolved)
    }

    ghost predicate Valid()
      reads this, workers
    {
      Inv(State()) && stopping == State().Stopping() && issued == |accepted|
    }

    constructor (count: nat)
      requires count > 0
      ensures Valid() && fresh(workers) && State() == Init(count)
    {
      workers := new Worker[count](i => Awake);
      tasks, stopping, issued := [], false, 0;
      notifies, closing := 0, NotCalled;
      accepted, started, resolved := [], [], [];
      new;
      assert workers[..] == Init(count).workers;
      InitInv(count);
    }

    /** The constructor's guard: zero workers is an error. */
    static method Create(count: nat) returns (r: Result<WorkerPool, string>)
      ensures r.Success? <==> count > 0
      ensures r.Success? ==> fresh(r.value) && r.value.Valid() && r.value.State() == Init(count)
    {
      if count == 0 {
        return Failure("worker count must be greater than 0");
      }
      var pool := new WorkerPool(count);
      return Success(pool);
    }

    /** The locked part of submit(): the ticket stands for the future handed back. */
    method Submit(outcome: Outcome) returns (r: Result<nat, string>)
      requires Valid()
      modifies this
      ensures Valid() && State() == Next(old(State()), Event.Submit(outcome))
      ensures r.Failure? <==> old(stopping)
      ensures r.Success? ==> r.value == |old(accepted)| && tasks == old(tasks) + [Task(r.value, outcome)]
    {
      ghost var before := State();
      StepInv(before, Event.Submit(outcome));
      if stopping {
        return Failure("worker pool is shutting down");
      }
      var task := Task(issued, outcome);
      tasks := tasks + [task];
      accepted := accepted + [task];
      issued := issued + 1;
      notifies := notifies + 1;
      return Success(task.ticket);
    }

    /** notify_one, waking the sleeper w if there is any. */
    method NotifyOne(w: nat)
      requires Valid() && Enabled(State(), Event.NotifyOne(w))
      modifies this`notifies, workers
      ensures Valid() && State() == Next(old(State()), Event.NotifyOne(w))
    {
      ghost var before := State();
      StepInv(before, Event.NotifyOne(w));
      notifies := notifies - 1;
      if w < workers.Length && workers[w] == Asleep {
        workers[w] := Awake;
        assert before.workers[w] in before.workers;
      }
      assert workers[..] == Next(before, Event.NotifyOne(w)).workers;
    }

    /** One turn of workerLoop under the lock: sleep, exit, or pop the oldest task. */
    method TakeTask(w: nat) returns (task: Option<Task>)
      requires Valid() && Enabled(State(), Event.Test(w))
      modifies this`tasks, this`started, workers
      ensures Valid() && State() == Next(old(State()), Event.Test(w))
      ensures task == if old(tasks) == [] then None else Some(old(tasks)[0])
    {
      ghost var before := State();
      StepInv(before, Event.Test(w));
      if !stopping && tasks == [] {
        workers[w] := Asleep;
        task := None;
      } else if tasks == [] {
        workers[w] := Exited;
        task := None;
      } else {
        var front := tasks[0];
        tasks := tasks[1..];
        started := started + [front];
        workers[w] := Running(front);
        task := Some(front);
      }
      assert workers[..] == Next(before, Event.Test(w)).workers;
      assert State() == Next(before, Event.Test(w));
    }

    /** The end of a task: its future is set, a thrown exception included, and the worker loops. */
    method FinishTask(w: nat)
      requires Valid() && Enabled(State(), Event.Finish(w))
      modifies this`resolved, workers
      ensures Valid() && State() == Next(old(State()), Event.Finish(w))
    {
      ghost var before := State();
      StepInv(before, Event.Finish(w));
      resolved := resolved + [workers[w].task];
      workers[w] := Awake;
      assert workers[..] == Next(before, Event.Finish(w)).workers;
    }

    /** The locked part of shutdown(): true for the one caller that goes on to notify and join. */
    method BeginShutdown() returns (first: bool)
      requires Valid()
      modifies this`stopping, this`closing
      ensures Valid() && State() == Next(old(State()), Event.Shutdown)
      ensures first <==> !old(stopping)
    {
      StepInv(State(), Event.Shutdown);
      if stopping {
        return false;
      }
      stopping := true;
      closing := Notifying;
      return true;
    }

    method NotifyAll()
      requires Valid() && Enabled(State(), Event.NotifyAll)
      modifies this`closing, workers
      ensures Valid() && State() == Next(old(State()), Event.NotifyAll)
    {
      ghost var before := State();
      StepInv(before, Event.NotifyAll);
      for i := 0 to workers.Length
        invariant forall j | 0 <= j < i :: workers[j] == WakeAll(before.workers)[j]
        invariant forall j | i <= j < workers.Length :: workers[j] == before.workers[j]
      {
        if workers[i] == Asleep {
          workers[i] := Awake;
        }
      }
      closing := Joining(0);
      assert workers[..] == WakeAll(before.workers);
    }

    method Pending() returns (n: nat)
      ensures n == |tasks|
    {
      n := |tasks|;
    }
  }
}
