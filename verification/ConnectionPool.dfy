/**
 The database connection pool (backend/src/db/pool.cpp) as interleaved steps.

 Connections are numbered in the order mysql_init produced them.  The pool's fields, every lease
 object and every thread inside acquireFor() are kept side by side, with the log of mysql_close
 calls, so that ownership can be stated as a count.
 */
module ConnectionPools {
  import opened Counting
  import opened Wrappers

  type Conn = nat

  // Where a thread stands in acquireFor().
  datatype Thread =
    | Outside              // not acquiring
    | Awake                // about to lock and test the wait predicate
    | Asleep               // in the wait set of `available`
    | Expired              // its wait_for timed out; one last test is due
    | Checking(conn: Conn) // took a connection, in_use already raised, pinging it
    | Reconnecting         // the dead connection is closed, a new one is being made
    | Unwinding            // the reconnect failed; the catch branch is due

  datatype Pool = Pool(
    size: nat,                     // connections opened by the constructor
    idle: seq<Conn>,
    inUse: nat,
    stopping: bool,
    leases: seq<Option<Conn>>,     // connection_ of every lease object, None when empty
    threads: seq<Thread>,
    created: nat,                  // history: handles created so far
    closed: seq<Conn>,             // history: handles closed, in order
    lost: nat)                     // history: acquisitions that ended in the catch branch

  datatype Event =
    | Call(t: nat)                                // acquireFor begins
    | Timeout(t: nat)
    | Spurious(t: nat)
    | Test(t: nat)                                // locked: predicate, then take, throw or sleep
    | PingOk(t: nat, slot: nat)                   // healthy: the lease object `slot` is built
    | PingFailed(t: nat)                          // mysql_close of the dead connection
    | Reconnected(t: nat, slot: nat)
    | ReconnectFailed(t: nat, initialised: bool)  // initialised: mysql_init succeeded, connect did not
    | Unwind(t: nat, w: nat)                      // locked catch branch, notify_one picks w
    | Release(slot: nat, w: nat)                  // lease destructor
    | MoveConstruct(src: nat, dst: nat)
    | MoveAssign(src: nat, dst: nat, w: nat)
    | Shutdown                                    // locked: close the idle connections, notify_all

  predicate AtThread(s: Pool, t: nat, phase: Thread) { t < |s.threads| && s.threads[t] == phase }

  // w is a choice notify_one can make.
  predicate CanNotify(s: Pool, w: nat) { Asleep in s.threads ==> AtThread(s, w, Asleep) }

  predicate EmptySlot(s: Pool, slot: nat) { slot < |s.leases| && s.leases[slot] == None }

  predicate Enabled(s: Pool, e: Event) {
    match e
    case Call(t) => AtThread(s, t, Outside)
    case Timeout(t) => AtThread(s, t, Asleep)
    case Spurious(t) => AtThread(s, t, Asleep)
    case Test(t) => AtThread(s, t, Awake) || AtThread(s, t, Expired)
    case PingOk(t, slot) => t < |s.threads| && s.threads[t].Checking? && EmptySlot(s, slot)
    case PingFailed(t) => t < |s.threads| && s.threads[t].Checking?
    case Reconnected(t, slot) => AtThread(s, t, Reconnecting) && EmptySlot(s, slot)
    case ReconnectFailed(t, _) => AtThread(s, t, Reconnecting)
    case Unwind(t, w) => AtThread(s, t, Unwinding) && CanNotify(s, w)
    case Release(slot, w) => slot < |s.leases| && CanNotify(s, w)
    case MoveConstruct(src, dst) => src < |s.leases| && src != dst && EmptySlot(s, dst)
    case MoveAssign(src, dst, w) => src < |s.leases| && dst < |s.leases| && CanNotify(s, w)
    case Shutdown => true
  }

  function NotifyOne(s: Pool, w: nat): Pool
    requires CanNotify(s, w)
  {
    if Asleep in s.threads then s.(threads := s.threads[w := Awake]) else s
  }

  function GiveBack(s: Pool, conn: Conn, w: nat): Pool
    requires CanNotify(s, w)
  {
    var s1 := s.(inUse := if s.inUse > 0 then s.inUse - 1 else s.inUse);
    if s.stopping then s1.(closed := s1.closed + [conn])
    else NotifyOne(s1.(idle := s1.idle + [conn]), w)
  }

  // release(): give the connection back if there is one, and leave the lease empty.
  function Vacate(s: Pool, slot: nat, w: nat): Pool
    requires slot < |s.leases| && CanNotify(s, w)
  {
    match s.leases[slot]
    case None => s
    case Some(conn) => GiveBack(s, conn, w).(leases := s.leases[slot := None])
  }

  function Move(s: Pool, src: nat, dst: nat): Pool
    requires src < |s.leases| && dst < |s.leases|
  {
    s.(leases := s.leases[dst := s.leases[src]][src := None])
  }

  function At(s: Pool, t: nat, phase: Thread): Pool
    requires t < |s.threads|
  {
    s.(threads := s.threads[t := phase])
  }

  // What the locked part of acquireFor decides.
  datatype Ruling = Take | Sleep | TimedOut | ShuttingDown

  function Rule(s: Pool, t: nat): Ruling
    requires t < |s.threads|
  {
    if s.stopping then ShuttingDown
    else if s.idle != [] then Take
    else if s.threads[t] == Expired then TimedOut
    else Sleep
  }

  function Next(s: Pool, e: Event): Pool
    requires Enabled(s, e)
  {
    match e
    case Call(t) => At(s, t, Awake)
    case Timeout(t) => At(s, t, Expired)
    case Spurious(t) => At(s, t, Awake)
    case Test(t) =>
      (match Rule(s, t)
       case Take => At(s, t, Checking(s.idle[0])).(idle := s.idle[1..], inUse := s.inUse + 1)
       case Sleep => At(s, t, Asleep)
       case _ => At(s, t, Outside))
    case PingOk(t, slot) =>
      At(s, t, Outside).(leases := s.leases[slot := Some(s.threads[t].conn)])
    case PingFailed(t) => At(s, t, Reconnecting).(closed := s.closed + [s.threads[t].conn])
    case Reconnected(t, slot) =>
      At(s, t, Outside).(leases := s.leases[slot := Some(s.created)], created := s.created + 1)
    case ReconnectFailed(t, initialised) =>
      var s1 := At(s, t, Unwinding);
      if initialised then s1.(created := s.created + 1, closed := s.closed + [s.created]) else s1
    case Unwind(t, w) =>
      var s1 := At(NotifyOne(s, w), t, Outside);
      s1.(inUse := if s.inUse > 0 then s.inUse - 1 else 0, lost := s.lost + 1)
    case Release(slot, w) => Vacate(s, slot, w)
    case MoveConstruct(src, dst) => Move(s, src, dst)
    case MoveAssign(src, dst, w) => if src == dst then s else Move(Vacate(s, dst, w), src, dst)
    case Shutdown =>
      s.(stopping := true, idle := [], closed := s.closed + s.idle,
         threads := Replace(s.threads, Asleep, Awake))
  }

  // ---- Runs ----

  ghost predicate Legal(s: Pool, es: seq<Event>)
    decreases |es|
  {
    es == [] || (Enabled(s, es[0]) && Legal(Next(s, es[0]), es[1..]))
  }

  ghost function Exec(s: Pool, es: seq<Event>): Pool
    requires Legal(s, es)
    decreases |es|
  {
    if es == [] then s else Exec(Next(s, es[0]), es[1..])
  }

  // ---- What every reachable state satisfies ----

  // In how many places a connection is: idle, in a lease, being checked, or closed.
  function Places(s: Pool, c: Conn): nat {
    Count(s.idle, c) + Count(s.leases, Some(c)) + Count(s.threads, Checking(c)) + Count(s.closed, c)
  }

  ghost predicate InPlace(s: Pool, c: Conn) {
    Places(s, c) == if c < s.created then 1 else 0
  }

  // Every handle ever created is in exactly one place, and nothing else is anywhere.
  ghost predicate Owned(s: Pool) {
    forall c: Conn :: InPlace(s, c)
  }

  function LiveLeases(s: Pool): int { |s.leases| - Count(s.leases, None) }

  // Acquisitions past `++in_use` that have not ended yet.
  function InFlight(s: Pool): int {
    |s.threads| - Count(s.threads, Outside) - Count(s.threads, Awake)
    - Count(s.threads, Asleep) - Count(s.threads, Expired)
  }

  ghost predicate Counted(s: Pool) {
    && s.inUse == LiveLeases(s) + InFlight(s)
    && (s.stopping ==> s.idle == [])
    && (!s.stopping ==> |s.idle| + s.inUse + s.lost == s.size)
  }

  // A waiter sleeps only while the idle connections are covered by threads already woken.
  ghost predicate Waiting(s: Pool) {
    Asleep in s.threads ==>
      !s.stopping && |s.idle| <= Count(s.threads, Awake) + Count(s.threads, Expired)
  }

  ghost predicate Inv(s: Pool) {
    Owned(s) && Counted(s) && Waiting(s)
  }

  // The counts a thread's move from one phase to another changes.
  lemma AtCounts(s: Pool, t: nat, phase: Thread, x: Thread)
    requires t < |s.threads|
    ensures Count(At(s, t, phase).threads, x)
         == Count(s.threads, x) + (if x == phase then 1 else 0) - if x == s.threads[t] then 1 else 0
  {
    CountUpdate(s.threads, t, phase, x);
  }

  lemma NotifyCounts(s: Pool, w: nat, x: Thread)
    requires CanNotify(s, w)
    ensures Count(NotifyOne(s, w).threads, x)
         == Count(s.threads, x)
            + if Asleep in s.threads then (if x == Awake then 1 else 0) - (if x == Asleep then 1 else 0) else 0
  {
    if Asleep in s.threads {
      CountUpdate(s.threads, w, Awake, x);
    }
  }

  lemma VacateOwned(s: Pool, slot: nat, w: nat)
    requires slot < |s.leases| && CanNotify(s, w) && Owned(s)
    ensures Owned(Vacate(s, slot, w))
  {
    var s' := Vacate(s, slot, w);
    if s.leases[slot].Some? {
      var conn := s.leases[slot].value;
      forall c: Conn ensures InPlace(s', c) {
        assert InPlace(s, c);
        CountUpdate(s.leases, slot, None, Some(c));
        if s.stopping {
          CountSnoc(s.closed, conn, c);
        } else {
          CountSnoc(s.idle, conn, c);
          NotifyCounts(s, w, Checking(c));
        }
      }
    }
  }

  lemma MoveOwned(s: Pool, src: nat, dst: nat)
    requires src < |s.leases| && src != dst && EmptySlot(s, dst) && Owned(s)
    ensures Owned(Move(s, src, dst))
  {
    var s' := Move(s, src, dst);
    var mid := s.leases[dst := s.leases[src]];
    forall c: Conn ensures InPlace(s', c) {
      assert InPlace(s, c);
      CountUpdate(s.leases, dst, s.leases[src], Some(c));
      CountUpdate(mid, src, None, Some(c));
    }
  }

  lemma LeaseMade(s: Pool, t: nat, slot: nat, c: Conn)
    requires InPlace(s, c) && EmptySlot(s, slot)
    ensures Enabled(s, PingOk(t, slot)) ==> InPlace(Next(s, PingOk(t, slot)), c)
    ensures Enabled(s, Reconnected(t, slot)) ==> InPlace(Next(s, Reconnected(t, slot)), c)
  {
    hide Count;
    if t < |s.threads| {
      AtCounts(s, t, Outside, Checking(c));
      CountUpdate(s.leases, slot, Some(s.created), Some(c));
      if s.threads[t].Checking? {
        CountUpdate(s.leases, slot, Some(s.threads[t].conn), Some(c));
      }
    }
  }

  lemma HandleClosed(s: Pool, e: Event, c: Conn)
    requires Enabled(s, e) && (e.PingFailed? || e.ReconnectFailed? || e.Shutdown?) && InPlace(s, c)
    ensures InPlace(Next(s, e), c)
  {
    hide Count;
    match e
    case PingFailed(t) =>
      AtCounts(s, t, Reconnecting, Checking(c));
      CountSnoc(s.closed, s.threads[t].conn, c);
    case ReconnectFailed(t, _) =>
      AtCounts(s, t, Unwinding, Checking(c));
      CountSnoc(s.closed, s.created, c);
    case Shutdown =>
      CountEmpty(c);
      CountConcat(s.closed, s.idle, c);
      CountReplace(s.threads, Asleep, Awake, Checking(c));
  }

  lemma ThreadMoved(s: Pool, e: Event, c: Conn)
    requires Enabled(s, e) && (e.Call? || e.Timeout? || e.Spurious? || e.Test? || e.Unwind?) && InPlace(s, c)
    ensures InPlace(Next(s, e), c)
  {
    hide Count;
    match e
    case Call(t) => AtCounts(s, t, Awake, Checking(c));
    case Timeout(t) => AtCounts(s, t, Expired, Checking(c));
    case Spurious(t) => AtCounts(s, t, Awake, Checking(c));
    case Test(t) =>
      AtCounts(s, t, Next(s, e).threads[t], Checking(c));
      if Rule(s, t) == Take {
        CountTail(s.idle, c);
      }
    case Unwind(t, w) =>
      NotifyCounts(s, w, Checking(c));
      AtCounts(NotifyOne(s, w), t, Outside, Checking(c));
  }

  lemma StepPlaces(s: Pool, e: Event, c: Conn)
    requires Enabled(s, e) && Owned(s)
    requires !e.Release? && !e.MoveConstruct? && !e.MoveAssign?
    ensures InPlace(Next(s, e), c)
  {
    assert InPlace(s, c);
    match e
    case PingOk(t, slot) => LeaseMade(s, t, slot, c);
    case Reconnected(t, slot) => LeaseMade(s, t, slot, c);
    case PingFailed(_) => HandleClosed(s, e, c);
    case ReconnectFailed(_, _) => HandleClosed(s, e, c);
    case Shutdown => HandleClosed(s, e, c);
    case _ => ThreadMoved(s, e, c);
  }

  lemma StepOwned(s: Pool, e: Event)
    requires Enabled(s, e) && Owned(s)
    ensures Owned(Next(s, e))
  {
    match e
    case Release(slot, w) => VacateOwned(s, slot, w);
    case MoveConstruct(src, dst) => MoveOwned(s, src, dst);
    case MoveAssign(src, dst, w) =>
      if src != dst {
        VacateOwned(s, dst, w);
        MoveOwned(Vacate(s, dst, w), src, dst);
      }
    case _ =>
      forall c: Conn ensures InPlace(Next(s, e), c) {
        StepPlaces(s, e, c);
      }
  }

  // How an event changes the two kinds of use and the number of sleeping and woken waiters.
  function FlightDelta(s: Pool, e: Event): int
    requires Enabled(s, e)
  {
    match e
    case Test(t) => if Rule(s, t) == Take then 1 else 0
    case PingOk(_, _) => -1
    case Reconnected(_, _) => -1
    case Unwind(_, _) => -1
    case _ => 0
  }

  // The phase the event's own thread moves to.
  function Target(s: Pool, e: Event): Option<(nat, Thread)>
    requires Enabled(s, e)
  {
    match e
    case Call(t) => Some((t, Awake))
    case Timeout(t) => Some((t, Expired))
    case Spurious(t) => Some((t, Awake))
    case Test(t) =>
      Some((t, match Rule(s, t)
               case Take => Checking(s.idle[0])
               case Sleep => Asleep
               case _ => Outside))
    case PingOk(t, _) => Some((t, Outside))
    case PingFailed(t) => Some((t, Reconnecting))
    case Reconnected(t, _) => Some((t, Outside))
    case ReconnectFailed(t, _) => Some((t, Unwinding))
    case Unwind(t, _) => Some((t, Outside))
    case _ => None
  }

  predicate Notifies(s: Pool, e: Event)
    requires Enabled(s, e)
  {
    match e
    case Unwind(_, _) => true
    case Release(slot, _) => s.leases[slot].Some? && !s.stopping
    case MoveAssign(src, dst, _) => src != dst && s.leases[dst].Some? && !s.stopping
    case _ => false
  }

  function Is(x: Thread, y: Thread): int { if x == y then 1 else 0 }

  // The change in the number of threads in phase x, for every event.
  function PhaseDelta(s: Pool, e: Event, x: Thread): int
    requires Enabled(s, e)
  {
    if e.Shutdown? then
      if x == Asleep then -(Count(s.threads, Asleep) as int)
      else if x == Awake then Count(s.threads, Asleep) else 0
    else
      (match Target(s, e)
       case None => 0
       case Some(move) => Is(x, move.1) - Is(x, s.threads[move.0]))
      + if Notifies(s, e) && Asleep in s.threads then Is(x, Awake) - Is(x, Asleep) else 0
  }

  // Events that move their own thread and notify nobody.
  lemma OwnPhase(s: Pool, e: Event, x: Thread)
    requires Enabled(s, e) && Target(s, e).Some? && !e.Unwind?
    ensures Count(Next(s, e).threads, x) == Count(s.threads, x) + PhaseDelta(s, e, x)
  {
    hide Count;
    var (t, phase) := Target(s, e).value;
    assert Next(s, e).threads == At(s, t, phase).threads;
    AtCounts(s, t, phase, x);
  }

  lemma VacatePhase(s: Pool, slot: nat, w: nat, x: Thread)
    requires slot < |s.leases| && CanNotify(s, w)
    ensures Count(Vacate(s, slot, w).threads, x)
         == Count(s.threads, x)
            + if s.leases[slot].Some? && !s.stopping && Asleep in s.threads then Is(x, Awake) - Is(x, Asleep) else 0
  {
    NotifyCounts(s, w, x);
  }

  lemma StepPhase(s: Pool, e: Event, x: Thread)
    requires Enabled(s, e)
    ensures Count(Next(s, e).threads, x) == Count(s.threads, x) + PhaseDelta(s, e, x)
  {
    hide Count;
    match e
    case Shutdown => CountReplace(s.threads, Asleep, Awake, x);
    case Release(slot, w) => VacatePhase(s, slot, w, x);
    case MoveConstruct(_, _) =>
    case MoveAssign(_, dst, w) => VacatePhase(s, dst, w, x);
    case Unwind(t, w) =>
      NotifyCounts(s, w, x);
      AtCounts(NotifyOne(s, w), t, Outside, x);
    case _ => OwnPhase(s, e, x);
  }

  lemma FlightPhases(s: Pool, e: Event)
    requires Enabled(s, e)
    ensures PhaseDelta(s, e, Outside) + PhaseDelta(s, e, Awake) + PhaseDelta(s, e, Asleep)
            + PhaseDelta(s, e, Expired) == -FlightDelta(s, e)
  {
  }

  lemma SameThreads(s: Pool, e: Event)
    requires Enabled(s, e)
    ensures |Next(s, e).threads| == |s.threads|
  {
  }

  lemma StepInFlight(s: Pool, e: Event)
    requires Enabled(s, e)
    ensures InFlight(Next(s, e)) == InFlight(s) + FlightDelta(s, e)
  {
    SameThreads(s, e);
    FlightPhases(s, e);
    StepPhase(s, e, Outside);
    StepPhase(s, e, Awake);
    StepPhase(s, e, Asleep);
    StepPhase(s, e, Expired);
  }

  // Moving the content of one slot into another, empty one changes no number of live leases.
  lemma MoveLeases(s: Pool, src: nat, dst: nat)
    requires src < |s.leases| && src != dst && EmptySlot(s, dst)
    ensures LiveLeases(Move(s, src, dst)) == LiveLeases(s)
  {
    CountUpdate(s.leases, dst, s.leases[src], None);
    CountUpdate(s.leases[dst := s.leases[src]], src, None, None);
  }

  lemma VacateLeases(s: Pool, slot: nat, w: nat)
    requires slot < |s.leases| && CanNotify(s, w)
    ensures LiveLeases(Vacate(s, slot, w)) == LiveLeases(s) - if s.leases[slot].Some? then 1 else 0
    ensures |Vacate(s, slot, w).leases| == |s.leases| && EmptySlot(Vacate(s, slot, w), slot)
  {
    CountUpdate(s.leases, slot, None, None);
  }

  function LeaseDelta(s: Pool, e: Event): int
    requires Enabled(s, e)
  {
    match e
    case PingOk(_, _) => 1
    case Reconnected(_, _) => 1
    case Release(slot, _) => if s.leases[slot].Some? then -1 else 0
    case MoveAssign(src, dst, _) => if src != dst && s.leases[dst].Some? then -1 else 0
    case _ => 0
  }

  lemma StepLeases(s: Pool, e: Event)
    requires Enabled(s, e)
    ensures LiveLeases(Next(s, e)) == LiveLeases(s) + LeaseDelta(s, e)
  {
    hide Count;
    match e
    case PingOk(t, slot) => CountUpdate(s.leases, slot, Some(s.threads[t].conn), None);
    case Reconnected(t, slot) => CountUpdate(s.leases, slot, Some(s.created), None);
    case Release(slot, w) => VacateLeases(s, slot, w);
    case MoveConstruct(src, dst) => MoveLeases(s, src, dst);
    case MoveAssign(src, dst, w) =>
      if src != dst {
        VacateLeases(s, dst, w);
        MoveLeases(Vacate(s, dst, w), src, dst);
      }
    case _ =>
  }

  lemma {:induction false} LeasePositive(ls: seq<Option<Conn>>, slot: nat)
    requires slot < |ls|
    ensures |ls| - Count(ls, None) >= if ls[slot].Some? then 1 else 0
  {
    var n := |ls| - 1;
    if n > 0 {
      LeasePositive(ls[..n], if slot < n then slot else 0);
    }
  }

  lemma {:induction false} FlightPositive(ts: seq<Thread>, t: nat)
    requires t < |ts|
    ensures |ts| - Count(ts, Outside) - Count(ts, Awake) - Count(ts, Asleep) - Count(ts, Expired)
         >= if ts[t].Checking? || ts[t].Reconnecting? || ts[t].Unwinding? then 1 else 0
  {
    var n := |ts| - 1;
    if n > 0 {
      FlightPositive(ts[..n], if t < n then t else 0);
    }
  }

  /** The guards on `--in_use` never matter: whoever gives back or unwinds is counted. */
  lemma DecrementsNeverUnderflow(s: Pool, e: Event)
    requires Inv(s) && Enabled(s, e)
    requires match e
             case Unwind(_, _) => true
             case Release(slot, _) => s.leases[slot].Some?
             case MoveAssign(_, dst, _) => s.leases[dst].Some?
             case _ => false
    ensures s.inUse > 0
  {
    match e
    case Unwind(t, _) =>
      FlightPositive(s.threads, t);
      if s.leases != [] { LeasePositive(s.leases, 0); }
    case Release(slot, _) =>
      LeasePositive(s.leases, slot);
      if s.threads != [] { FlightPositive(s.threads, 0); }
    case MoveAssign(_, dst, _) =>
      LeasePositive(s.leases, dst);
      if s.threads != [] { FlightPositive(s.threads, 0); }
  }

  lemma StepCounted(s: Pool, e: Event)
    requires Inv(s) && Enabled(s, e)
    ensures Counted(Next(s, e))
  {
    StepInFlight(s, e);
    StepLeases(s, e);
    if e.Unwind? || (e.Release? && s.leases[e.slot].Some?) || (e.MoveAssign? && s.leases[e.dst].Some?) {
      DecrementsNeverUnderflow(s, e);
    }
  }

  lemma StepWaiting(s: Pool, e: Event)
    requires Inv(s) && Enabled(s, e)
    ensures Waiting(Next(s, e))
  {
    hide Count;
    StepPhase(s, e, Awake);
    StepPhase(s, e, Asleep);
    StepPhase(s, e, Expired);
    CountMember(s.threads, Asleep);
    CountMember(Next(s, e).threads, Asleep);
  }

  lemma StepInv(s: Pool, e: Event)
    requires Inv(s) && Enabled(s, e)
    ensures Inv(Next(s, e))
  {
    StepOwned(s, e);
    StepCounted(s, e);
    StepWaiting(s, e);
  }

  /** Every state of every run satisfies the invariant. */
  lemma {:induction false} RunInv(s: Pool, es: seq<Event>)
    requires Inv(s) && Legal(s, es)
    ensures Inv(Exec(s, es))
    decreases |es|
  {
    if es != [] {
      StepInv(s, es[0]);
      RunInv(Next(s, es[0]), es[1..]);
    }
  }

  // ---- Ownership ----

  /** A connection is in at most one lease, never leased while idle, being checked or closed, and closed at
      most once. */
  lemma UniqueOwnership(s: Pool)
    requires Inv(s)
    ensures forall i, j | 0 <= i < j < |s.leases| && s.leases[i].Some? :: s.leases[i] != s.leases[j]
    ensures forall i | 0 <= i < |s.leases| && s.leases[i].Some? ::
              var c := s.leases[i].value;
              c < s.created && c !in s.idle && c !in s.closed && Checking(c) !in s.threads
    ensures forall i, j | 0 <= i < j < |s.closed| :: s.closed[i] != s.closed[j]
    ensures forall i, j | 0 <= i < j < |s.idle| :: s.idle[i] != s.idle[j]
    ensures forall c | c in s.idle :: c !in s.closed && Checking(c) !in s.threads
    ensures forall t | 0 <= t < |s.threads| && s.threads[t].Checking? :: s.threads[t].conn !in s.closed
  {
    forall i, j | 0 <= i < j < |s.leases| && s.leases[i].Some? ensures s.leases[i] != s.leases[j] {
      assert InPlace(s, s.leases[i].value);
      if s.leases[i] == s.leases[j] {
        CountAtMostOnce(s.leases, i, j);
        assert false;
      }
    }
    forall c: Conn
      ensures (if c in s.idle then 1 else 0) + (if Some(c) in s.leases then 1 else 0)
              + (if Checking(c) in s.threads then 1 else 0) + (if c in s.closed then 1 else 0) <= 1
      ensures Some(c) in s.leases ==> c < s.created
    {
      CountMember(s.idle, c);
      CountMember(s.leases, Some(c));
      CountMember(s.threads, Checking(c));
      CountMember(s.closed, c);
      assert InPlace(s, c);
    }
    forall i | 0 <= i < |s.leases| && s.leases[i].Some?
      ensures var c := s.leases[i].value;
              c < s.created && c !in s.idle && c !in s.closed && Checking(c) !in s.threads
    {
      assert s.leases[i] in s.leases;
    }
    NoRepeat(s, s.closed);
    NoRepeat(s, s.idle);
    forall t | 0 <= t < |s.threads| && s.threads[t].Checking? ensures s.threads[t].conn !in s.closed {
      assert s.threads[t] in s.threads;
    }
  }

  lemma NoRepeat(s: Pool, cs: seq<Conn>)
    requires Owned(s) && (cs == s.idle || cs == s.closed)
    ensures forall i, j | 0 <= i < j < |cs| :: cs[i] != cs[j]
  {
    forall i, j | 0 <= i < j < |cs| ensures cs[i] != cs[j] {
      assert InPlace(s, cs[i]);
      if cs[i] == cs[j] {
        CountAtMostOnce(cs, i, j);
        assert false;
      }
    }
  }

  /** Once the pool is shut down, every lease is gone and no acquisition is in flight, every handle ever
      created has been closed exactly once. */
  lemma TeardownClosesEverything(s: Pool)
    requires Inv(s) && s.stopping
    requires forall i | 0 <= i < |s.leases| :: s.leases[i] == None
    requires forall t | 0 <= t < |s.threads| :: !s.threads[t].Checking?
    ensures forall c: Conn :: Count(s.closed, c) == if c < s.created then 1 else 0
  {
    forall c: Conn ensures Count(s.closed, c) == if c < s.created then 1 else 0 {
      CountMember(s.leases, Some(c));
      CountMember(s.threads, Checking(c));
      assert InPlace(s, c);
    }
  }

  /** After shutdown the pool stays stopped with nothing idle, whatever leases do. */
  lemma {:induction false} ShutdownIsForever(s: Pool, es: seq<Event>)
    requires Inv(s) && s.stopping && Legal(s, es)
    ensures Exec(s, es).stopping && Exec(s, es).idle == []
    decreases |es|
  {
    if es != [] {
      StepInv(s, es[0]);
      ShutdownIsForever(Next(s, es[0]), es[1..]);
    }
  }

  // ---- Waiting ----

  /** An acquire that gives up did so when every surviving connection was in use. */
  lemma TimeoutMeansAllInUse(s: Pool, t: nat)
    requires Inv(s) && Enabled(s, Test(t)) && Rule(s, t) == TimedOut
    ensures !s.stopping && s.idle == []
    ensures s.inUse == s.size - s.lost == LiveLeases(s) + InFlight(s)
  {
  }

  /** What the locked part of an acquire rules: it serves whenever some surviving connection is not in use, and gives up
      exactly when its wait has expired with all of them in use. */
  lemma RulingIff(s: Pool, t: nat)
    requires Inv(s) && Enabled(s, Test(t))
    ensures Rule(s, t) == ShuttingDown <==> s.stopping
    ensures Rule(s, t) == Take <==> !s.stopping && s.inUse + s.lost < s.size
    ensures Rule(s, t) == TimedOut <==> !s.stopping && s.threads[t] == Expired && s.inUse + s.lost == s.size
    ensures Rule(s, t) == Sleep <==> !s.stopping && s.threads[t] == Awake && s.inUse + s.lost == s.size
    ensures s.threads[t] == Expired ==>
              Next(s, Test(t)).threads[t] == Outside || Next(s, Test(t)).threads[t].Checking?
    ensures Next(s, Test(t)).threads[t].Checking? <==> Rule(s, t) == Take
    ensures Next(s, Test(t)).threads[t] == Asleep <==> Rule(s, t) == Sleep
  {
    hide Count;
  }

  // Which connections an event takes from the idle ones, and which it gives back to them.
  function TakenBy(s: Pool, e: Event): seq<Conn>
    requires Enabled(s, e)
  {
    if e.Test? && Next(s, e).threads[e.t].Checking? then [Next(s, e).threads[e.t].conn] else []
  }

  function ReturnedBy(s: Pool, e: Event): seq<Conn>
    requires Enabled(s, e)
  {
    if s.stopping then []
    else
      match e
      case Release(slot, _) => if s.leases[slot].Some? then [s.leases[slot].value] else []
      case MoveAssign(src, dst, _) => if src != dst && s.leases[dst].Some? then [s.leases[dst].value] else []
      case _ => []
  }

  ghost function Taken(s: Pool, es: seq<Event>): seq<Conn>
    requires Legal(s, es)
    decreases |es|
  {
    if es == [] then [] else TakenBy(s, es[0]) + Taken(Next(s, es[0]), es[1..])
  }

  ghost function GivenBack(s: Pool, es: seq<Event>): seq<Conn>
    requires Legal(s, es)
    decreases |es|
  {
    if es == [] then [] else ReturnedBy(s, es[0]) + GivenBack(Next(s, es[0]), es[1..])
  }

  lemma StepRotates(s: Pool, e: Event)
    requires Enabled(s, e) && !Next(s, e).stopping
    ensures s.idle + ReturnedBy(s, e) == TakenBy(s, e) + Next(s, e).idle
  {
  }

  lemma {:induction false} StoppedBefore(s: Pool, es: seq<Event>)
    requires Legal(s, es) && !Exec(s, es).stopping
    ensures !s.stopping
    decreases |es|
  {
    if es != [] {
      StoppedBefore(Next(s, es[0]), es[1..]);
    }
  }

  lemma Reassociate<T>(a: seq<T>, b: seq<T>, c: seq<T>, d: seq<T>, e: seq<T>, f: seq<T>, g: seq<T>)
    requires a + b == c + d && d + e == f + g
    ensures a + (b + e) == (c + f) + g
  {
    assert a + (b + e) == (a + b) + e;
    assert (c + d) + e == c + (d + e);
    assert c + (f + g) == (c + f) + g;
  }

  /** While the pool is open its connections rotate: over any run they are taken in the order in which they became
      idle. */
  lemma {:induction false} IdleIsFifo(s: Pool, es: seq<Event>)
    requires Legal(s, es) && !Exec(s, es).stopping
    ensures s.idle + GivenBack(s, es) == Taken(s, es) + Exec(s, es).idle
    decreases |es|
  {
    if es != [] {
      var s' := Next(s, es[0]);
      StoppedBefore(s', es[1..]);
      StepRotates(s, es[0]);
      IdleIsFifo(s', es[1..]);
      Reassociate(s.idle, ReturnedBy(s, es[0]), TakenBy(s, es[0]), s'.idle,
                  GivenBack(s', es[1..]), Taken(s', es[1..]), Exec(s, es).idle);
    }
  }

  // Everywhere but in the given slots the leases are as before.
  predicate OtherLeases(s: Pool, s': Pool, slots: set<nat>) {
    && |s'.leases| == |s.leases|
    && forall i: nat | i < |s.leases| && i !in slots :: s'.leases[i] == s.leases[i]
  }

  // The connection has been given back, or closed if the pool is stopping.
  predicate GaveUp(s': Pool, conn: Option<Conn>) {
    conn.Some? ==> if s'.stopping then conn.value in s'.closed else conn.value in s'.idle
  }

  /** What each way to make, move and drop a lease does to the lease objects: a new one holds the connection its acquire
      took, or a handle never seen before; a move carries the connection over, empties the source and gives up what
      the target held; a release empties the lease and gives up its connection. */
  lemma LeaseEvents(s: Pool, e: Event)
    requires Inv(s) && Enabled(s, e)
    ensures var s' := Next(s, e);
            match e
            case PingOk(t, slot) =>
              s'.leases[slot] == Some(s.threads[t].conn) && s'.closed == s.closed && OtherLeases(s, s', {slot})
            case Reconnected(t, slot) =>
              && s'.leases[slot] == Some(s.created) && s'.created == s.created + 1 && OtherLeases(s, s', {slot})
              && s.created !in s.closed && s.created !in s.idle && Some(s.created) !in s.leases
            case Release(slot, _) =>
              s'.leases[slot] == None && GaveUp(s', s.leases[slot]) && OtherLeases(s, s', {slot})
            case MoveConstruct(src, dst) =>
              s'.leases[dst] == s.leases[src] && s'.leases[src] == None && OtherLeases(s, s', {src, dst})
            case MoveAssign(src, dst, _) =>
              if src == dst then s' == s
              else
                && s'.leases[dst] == s.leases[src] && s'.leases[src] == None
                && GaveUp(s', s.leases[dst]) && OtherLeases(s, s', {src, dst})
            case _ => s'.leases == s.leases
  {
    hide Count;
    if e.Reconnected? {
      NeverSeen(s, s.created);
    }
  }

  lemma NeverSeen(s: Pool, c: Conn)
    requires Inv(s) && c >= s.created
    ensures c !in s.closed && c !in s.idle && Some(c) !in s.leases
  {
    assert InPlace(s, c);
    CountMember(s.closed, c);
    CountMember(s.idle, c);
    CountMember(s.leases, Some(c));
  }

  /** A waiter never sleeps next to an idle connection unless somebody awake is about to take it. */
  lemma SleepersAreCovered(s: Pool)
    requires Inv(s) && Asleep in s.threads && s.idle != []
    ensures exists t :: Enabled(s, Test(t)) && Rule(s, t) == Take
  {
    CountMember(s.threads, Awake);
    CountMember(s.threads, Expired);
    var t :| 0 <= t < |s.threads| && (s.threads[t] == Awake || s.threads[t] == Expired);
    assert Enabled(s, Test(t)) && Rule(s, t) == Take;
  }

  // ---- Lost connections ----

  /** A connection lost to a failed reconnect never comes back: while the pool is open its capacity only shrinks. */
  lemma {:induction false} CapacityOnlyShrinks(s: Pool, es: seq<Event>)
    requires Inv(s) && Legal(s, es)
    ensures var s' := Exec(s, es);
            && s'.lost >= s.lost && s'.size == s.size
            && (!s'.stopping ==> !s.stopping && |s'.idle| + s'.inUse == s.size - s'.lost <= |s.idle| + s.inUse)
    decreases |es|
  {
    if es != [] {
      StepInv(s, es[0]);
      CapacityOnlyShrinks(Next(s, es[0]), es[1..]);
    }
  }

  // Stopping, or every connection lost or about to be counted so by a thread that is unwinding.
  ghost predicate Doomed(s: Pool) {
    s.stopping || s.lost + Count(s.threads, Unwinding) == s.size
  }

  // After this run the test of thread t takes a connection.
  ghost predicate Serves(s: Pool, es: seq<Event>, t: nat) {
    Legal(s, es) && Enabled(Exec(s, es), Test(t)) && Rule(Exec(s, es), t) == Take
  }

  ghost predicate CanServe(s: Pool) { exists es, t :: Serves(s, es, t) }

  // Acquisitions in flight that are not unwinding.
  function Healthy(ts: seq<Thread>): int {
    |ts| - Count(ts, Outside) - Count(ts, Awake) - Count(ts, Asleep) - Count(ts, Expired) - Count(ts, Unwinding)
  }

  predicate Holds(x: Thread) { x.Checking? || x.Reconnecting? }

  lemma HealthyStep(ts: seq<Thread>)
    requires ts != []
    ensures Healthy(ts) == Healthy(ts[..|ts| - 1]) + if Holds(ts[|ts| - 1]) then 1 else 0
  {
  }

  lemma {:induction false} HealthyPositive(ts: seq<Thread>, t: nat)
    requires t < |ts|
    ensures Healthy(ts) >= if Holds(ts[t]) then 1 else 0
  {
    var n := |ts| - 1;
    HealthyStep(ts);
    if n > 0 {
      HealthyPositive(ts[..n], if t < n then t else 0);
    } else {
      assert Healthy(ts[..n]) == 0;
    }
  }

  lemma {:induction false} HealthyNone(ts: seq<Thread>)
    requires forall t | 0 <= t < |ts| :: !Holds(ts[t])
    ensures Healthy(ts) == 0
  {
    if ts != [] {
      HealthyStep(ts);
      HealthyNone(ts[..|ts| - 1]);
    }
  }

  lemma {:induction false} NoLeases(ls: seq<Option<Conn>>)
    requires forall i | 0 <= i < |ls| :: ls[i] == None
    ensures Count(ls, None) == |ls|
  {
    if ls != [] {
      NoLeases(ls[..|ls| - 1]);
    }
  }

  // In an open, doomed pool every connection still counted is an unwinding thread's.
  lemma DoomedIsBare(s: Pool)
    requires Inv(s) && Doomed(s) && !s.stopping
    ensures s.idle == []
    ensures forall i | 0 <= i < |s.leases| :: s.leases[i] == None
    ensures forall t | 0 <= t < |s.threads| :: !Holds(s.threads[t])
  {
    hide Count;
    if s.leases != [] { LeasePositive(s.leases, 0); } else { NoLeases([]); }
    if s.threads != [] { HealthyPositive(s.threads, 0); } else { HealthyNone([]); }
    forall i | 0 <= i < |s.leases| ensures s.leases[i] == None {
      LeasePositive(s.leases, i);
    }
    forall t | 0 <= t < |s.threads| ensures !Holds(s.threads[t]) {
      HealthyPositive(s.threads, t);
    }
  }

  lemma StepDoomed(s: Pool, e: Event)
    requires Inv(s) && Enabled(s, e) && Doomed(s)
    ensures Doomed(Next(s, e))
  {
    hide Count, Inv;
    if !s.stopping {
      DoomedIsBare(s);
      StepPhase(s, e, Unwinding);
    }
  }

  lemma {:induction false} DoomedServesNobody(s: Pool, es: seq<Event>, t: nat)
    requires Inv(s) && Doomed(s)
    ensures !Serves(s, es, t)
    decreases |es|
  {
    hide Doomed, Inv;
    if es == [] {
      if !s.stopping {
        DoomedIsBare(s);
      }
    } else if Legal(s, es) {
      StepInv(s, es[0]);
      StepDoomed(s, es[0]);
      DoomedServesNobody(Next(s, es[0]), es[1..], t);
    }
  }

  lemma ServeLater(s: Pool, e: Event)
    requires Enabled(s, e) && CanServe(Next(s, e))
    ensures CanServe(s)
  {
    var es, t :| Serves(Next(s, e), es, t);
    assert ([e] + es)[1..] == es;
    assert Serves(s, [e] + es, t);
  }

  lemma Choose(s: Pool) returns (w: nat)
    ensures CanNotify(s, w)
  {
    w := 0;
    if Asleep in s.threads {
      w :| w < |s.threads| && s.threads[w] == Asleep;
    }
  }

  // An open pool with an idle connection and a thread that is not in flight.
  lemma ServeIdle(s: Pool, t: nat)
    requires !s.stopping && s.idle != [] && t < |s.threads| && !Holds(s.threads[t]) && s.threads[t] != Unwinding
    ensures CanServe(s)
    decreases s.threads[t] == Outside || s.threads[t] == Asleep
  {
    if s.threads[t] == Awake || s.threads[t] == Expired {
      assert Serves(s, [], t);
    } else {
      var e := if s.threads[t] == Outside then Call(t) else Timeout(t);
      ServeIdle(Next(s, e), t);
      ServeLater(s, e);
    }
  }

  // An open pool with an idle connection, whatever its first thread is doing.
  lemma ServeAfterSettling(s: Pool)
    requires !s.stopping && s.idle != [] && s.threads != [] && s.leases != []
    ensures CanServe(s)
    decreases s.leases[0].Some?
  {
    var w := Choose(s);
    if s.threads[0] == Unwinding {
      ServeIdle(Next(s, Unwind(0, w)), 0);
      ServeLater(s, Unwind(0, w));
    } else if !Holds(s.threads[0]) {
      ServeIdle(s, 0);
    } else if s.leases[0].Some? {
      ServeAfterSettling(Next(s, Release(0, w)));
      ServeLater(s, Release(0, w));
    } else {
      var e := if s.threads[0].Checking? then PingOk(0, 0) else Reconnected(0, 0);
      ServeIdle(Next(s, e), 0);
      ServeLater(s, e);
    }
  }

  // An open pool with a live lease: once it is released there is an idle connection.
  lemma ServeAfterRelease(s: Pool, slot: nat)
    requires !s.stopping && s.threads != [] && slot < |s.leases| && s.leases[slot].Some?
    ensures CanServe(s)
  {
    var w := Choose(s);
    ServeAfterSettling(Next(s, Release(slot, w)));
    ServeLater(s, Release(slot, w));
  }

  lemma NotDoomedServes(s: Pool)
    requires Inv(s) && !Doomed(s) && s.threads != [] && s.leases != []
    ensures CanServe(s)
  {
    if s.idle != [] {
      ServeAfterSettling(s);
    } else if i: nat :| i < |s.leases| && s.leases[i].Some? {
      ServeAfterRelease(s, i);
    } else if t: nat :| t < |s.threads| && Holds(s.threads[t]) {
      var e := if s.threads[t].Checking? then PingOk(t, 0) else Reconnected(t, 0);
      ServeAfterRelease(Next(s, e), 0);
      ServeLater(s, e);
    } else {
      NoLeases(s.leases);
      HealthyNone(s.threads);
      assert false;
    }
  }

  /** Some run of an open pool ends with an acquire being served exactly if a connection is neither lost already nor
      held by a thread whose failed reconnect is unwinding. */
  lemma ServesIff(s: Pool)
    requires Inv(s) && !s.stopping && s.threads != [] && s.leases != []
    ensures CanServe(s) <==> s.lost + Count(s.threads, Unwinding) != s.size
  {
    if Doomed(s) {
      forall es, t ensures !Serves(s, es, t) {
        DoomedServesNobody(s, es, t);
      }
    } else {
      NotDoomedServes(s);
    }
  }

  /** With every connection lost, or about to be counted so, no later acquire of any run is served, whatever threads
      and leases there are. */
  lemma ExhaustedPoolServesNobody(s: Pool, es: seq<Event>, t: nat)
    requires Inv(s) && (Doomed(s) || s.lost == s.size)
    requires Legal(s, es) && Enabled(Exec(s, es), Test(t))
    ensures Rule(Exec(s, es), t) != Take
  {
    if Doomed(s) {
      DoomedServesNobody(s, es, t);
    } else {
      CapacityOnlyShrinks(s, es);
    }
  }

  // An open pool of one connection, one thread and one empty lease.
  function Single(idle: seq<Conn>, inUse: nat, thread: Thread, created: nat, closed: seq<Conn>, lost: nat): Pool {
    Pool(1, idle, inUse, false, [None], [thread], created, closed, lost)
  }

  const FAILING := [Call(0), Test(0), PingFailed(0), ReconnectFailed(0, true), Unwind(0, 0)]

  lemma FailingRun()
    ensures Legal(Fresh(1, 1, 1), FAILING)
    ensures Exec(Fresh(1, 1, 1), FAILING) == Single([], 0, Outside, 2, [0, 1], 1)
  {
    hide Legal, Exec;
    FailingStart();
    FailingTail();
    var s := Single([0], 0, Awake, 1, [], 0);
    Cons(Single([], 1, Checking(0), 1, [], 0), FAILING[2], FAILING[3..]);
    Cons(s, FAILING[1], [FAILING[2]] + FAILING[3..]);
    Cons(Fresh(1, 1, 1), FAILING[0], [FAILING[1]] + ([FAILING[2]] + FAILING[3..]));
    assert FAILING == [FAILING[0]] + ([FAILING[1]] + ([FAILING[2]] + FAILING[3..]));
  }

  lemma FailingStart()
    ensures Enabled(Fresh(1, 1, 1), FAILING[0])
    ensures Next(Fresh(1, 1, 1), FAILING[0]) == Single([0], 0, Awake, 1, [], 0)
    ensures Next(Single([0], 0, Awake, 1, [], 0), FAILING[1]) == Single([], 1, Checking(0), 1, [], 0)
    ensures Next(Single([], 1, Checking(0), 1, [], 0), FAILING[2]) == Single([], 1, Reconnecting, 1, [0], 0)
  {
    assert Fresh(1, 1, 1) == Single([0], 0, Outside, 1, [], 0);
  }

  lemma FailingTail()
    ensures Legal(Single([], 1, Reconnecting, 1, [0], 0), FAILING[3..])
    ensures Exec(Single([], 1, Reconnecting, 1, [0], 0), FAILING[3..]) == Single([], 0, Outside, 2, [0, 1], 1)
  {
    var s := Single([], 1, Reconnecting, 1, [0], 0);
    var s' := Single([], 1, Unwinding, 2, [0, 1], 0);
    assert Next(s, ReconnectFailed(0, true)) == s';
    assert Next(s', Unwind(0, 0)) == Single([], 0, Outside, 2, [0, 1], 1);
    assert Legal(Next(s', Unwind(0, 0)), []);
    Cons(s', FAILING[4], []);
    Cons(s, FAILING[3], [FAILING[4]]);
    assert FAILING[3..] == [FAILING[3]] + [FAILING[4]];
  }

  /** A pool of one connection whose only reconnect fails: it stays open and serves nobody ever again. */
  lemma ExhaustionWitness()
    ensures Legal(Fresh(1, 1, 1), FAILING)
    ensures var s := Exec(Fresh(1, 1, 1), FAILING); Inv(s) && !s.stopping && s.lost == s.size && !CanServe(s)
  {
    hide Fresh, Legal, Exec, Inv, CanServe;
    FailingRun();
    FreshInv(1, 1, 1);
    RunInv(Fresh(1, 1, 1), FAILING);
    ServesIff(Exec(Fresh(1, 1, 1), FAILING));
  }

  lemma Cons(s: Pool, e: Event, es: seq<Event>)
    requires Enabled(s, e) && Legal(Next(s, e), es)
    ensures Legal(s, [e] + es) && Exec(s, [e] + es) == Exec(Next(s, e), es)
  {
    assert ([e] + es)[1..] == es;
  }

  // ---- Construction ----

  // What one createConnection() does.
  datatype Attempt = InitFailed | ConnectFailed | Connected

  // A constructor that threw: how many handles it created and the order it closed them in.
  datatype Wreck = Wreck(created: nat, closed: seq<Conn>)

  function Ids(n: nat): seq<Conn> { seq(n, i => i) }

  function Fill<T>(n: nat, x: T): seq<T> { seq(n, i => x) }

  function Fresh(size: nat, threads: nat, slots: nat): Pool {
    Pool(size, Ids(size), 0, false, Fill(slots, None), Fill(threads, Outside), size, [], 0)
  }

  lemma {:induction false} CountIds(n: nat, c: Conn)
    ensures Count(Ids(n), c) == if c < n then 1 else 0
  {
    if n > 0 {
      CountIds(n - 1, c);
      assert Ids(n)[..n - 1] == Ids(n - 1);
    }
  }

  lemma {:induction false} CountFill<T>(n: nat, y: T, x: T)
    ensures Count(Fill(n, y), x) == if x == y then n else 0
  {
    if n > 0 {
      CountFill(n - 1, y, x);
      assert Fill(n, y)[..n - 1] == Fill(n - 1, y);
    }
  }

  lemma FreshInv(size: nat, threads: nat, slots: nat)
    ensures Inv(Fresh(size, threads, slots))
  {
    var s := Fresh(size, threads, slots);
    forall c: Conn ensures InPlace(s, c) {
      CountIds(size, c);
      CountFill(slots, None, Some(c));
      CountFill(threads, Outside, Checking(c));
    }
    CountFill<Option<Conn>>(slots, None, None);
    CountFill(threads, Outside, Outside);
    CountFill(threads, Outside, Awake);
    CountFill(threads, Outside, Asleep);
    CountFill(threads, Outside, Expired);
  }

  /** The constructor opens its connections one by one; a failure closes every handle it created, once each. */
  method Construct(attempts: seq<Attempt>, threads: nat, slots: nat) returns (r: Result<Pool, Wreck>)
    ensures r.Success? <==> forall i | 0 <= i < |attempts| :: attempts[i] == Connected
    ensures r.Success? ==> r.value == Fresh(|attempts|, threads, slots)
    ensures r.Failure? ==> forall c: Conn :: Count(r.error.closed, c) == if c < r.error.created then 1 else 0
  {
    var idle: seq<Conn> := [];
    for index := 0 to |attempts|
      invariant idle == Ids(index)
      invariant forall i | 0 <= i < index :: attempts[i] == Connected
    {
      match attempts[index] {
        case Connected => idle := idle + [index];
        case InitFailed =>
          forall c: Conn ensures Count(idle, c) == if c < index then 1 else 0 { CountIds(index, c); }
          return Failure(Wreck(index, idle));
        case ConnectFailed =>
          var all: seq<Conn> := [index] + idle;
          assert all[1..] == idle;
          forall c: Conn ensures Count(all, c) == if c < index + 1 then 1 else 0 {
            CountIds(index, c);
            CountTail(all, c);
          }
          return Failure(Wreck(index + 1, all));
      }
    }
    return Success(Pool(|attempts|, idle, 0, false, Fill(slots, None), Fill(threads, Outside),
                        |attempts|, [], 0));
  }

  // ---- The pool object ----

  class ConnectionPool {
    const size: nat
    var idle: seq<Conn>
    var inUse: nat
    var stopping: bool
    const leases: array<Option<Conn>>     // connection_ of each lease object
    const threads: array<Thread>
    var created: nat
    var closed: seq<Conn>
    ghost var lost: nat

    ghost function State(): Pool
      reads this, leases, threads
    {
      Pool(size, idle, inUse, stopping, leases[..], threads[..], created, closed, lost)
    }

    ghost predicate Valid()
      reads this, leases, threads
    {
      Inv(State())
    }

    constructor (size: nat, threadCount: nat, slots: nat)
      ensures Valid() && State() == Fresh(size, threadCount, slots)
      ensures fresh(leases) && fresh(threads)
    {
      this.size := size;
      idle, inUse, stopping := Ids(size), 0, false;
      leases := new Option<Conn>[slots](i => None);
      threads := new Thread[threadCount](i => Outside);
      created, closed, lost := size, [], 0;
      new;
      FreshInv(size, threadCount, slots);
      assert leases[..] == Fresh(size, threadCount, slots).leases;
      assert threads[..] == Fresh(size, threadCount, slots).threads;
      assert State() == Fresh(size, threadCount, slots);
    }

    // available.notify_one(), waking w if anybody sleeps.
    method Notify(w: nat)
      requires CanNotify(State(), w)
      modifies threads
      ensures State() == NotifyOne(old(State()), w)
    {
      ghost var before := State();
      if w < threads.Length && threads[w] == Asleep {
        threads[w] := Awake;
        assert before.threads[w] in before.threads;
      }
      assert threads[..] == NotifyOne(before, w).threads;
    }

    // State::giveBack.
    method Return(conn: Conn, w: nat)
      requires CanNotify(State(), w)
      modifies this, threads
      ensures State() == GiveBack(old(State()), conn, w)
    {
      if inUse > 0 {
        inUse := inUse - 1;
      }
      if stopping {
        closed := closed + [conn];
      } else {
        idle := idle + [conn];
        Notify(w);
      }
    }

    // ConnectionLease::release.
    method Drop(slot: nat, w: nat)
      requires slot < leases.Length && CanNotify(State(), w)
      modifies this, leases, threads
      ensures State() == Vacate(old(State()), slot, w)
    {
      ghost var before := State();
      if leases[slot].Some? {
        Return(leases[slot].value, w);
      }
      leases[slot] := None;
      assert leases[..] == Vacate(before, slot, w).leases;
    }

    /** The lease's destructor. */
    method Release(slot: nat, w: nat)
      requires Valid() && Enabled(State(), Event.Release(slot, w))
      modifies this, leases, threads
      ensures Valid() && State() == Next(old(State()), Event.Release(slot, w))
    {
      StepInv(State(), Event.Release(slot, w));
      Drop(slot, w);
    }

    /** Move assignment, self-move included. */
    method MoveAssign(src: nat, dst: nat, w: nat)
      requires Valid() && Enabled(State(), Event.MoveAssign(src, dst, w))
      modifies this, leases, threads
      ensures Valid() && State() == Next(old(State()), Event.MoveAssign(src, dst, w))
    {
      ghost var before := State();
      StepInv(before, Event.MoveAssign(src, dst, w));
      if src != dst {
        Drop(dst, w);
        leases[dst] := leases[src];
        leases[src] := None;
        assert leases[..] == Next(before, Event.MoveAssign(src, dst, w)).leases;
      }
    }

    /** The locked part of acquireFor, on the first test, after a wake-up and after the timeout. */
    method Acquire(t: nat) returns (ruling: Ruling)
      requires Valid() && Enabled(State(), Event.Test(t))
      modifies this`idle, this`inUse, threads
      ensures Valid() && State() == Next(old(State()), Event.Test(t))
      ensures ruling == Rule(old(State()), t)
    {
      ghost var before := State();
      StepInv(before, Event.Test(t));
      if !stopping && idle == [] {
        ruling := if threads[t] == Expired then TimedOut else Sleep;
        threads[t] := if threads[t] == Expired then Outside else Asleep;
      } else if stopping {
        ruling := ShuttingDown;
        threads[t] := Outside;
      } else {
        ruling := Take;
        threads[t] := Checking(idle[0]);
        idle := idle[1..];
        inUse := inUse + 1;
      }
      assert threads[..] == Next(before, Event.Test(t)).threads;
    }

    /** shutdown(): the loop closes the idle connections front to back, then everybody is woken. */
    method Shutdown()
      requires Valid()
      modifies this`stopping, this`idle, this`closed, threads
      ensures Valid() && State() == Next(old(State()), Event.Shutdown)
    {
      ghost var before := State();
      StepInv(before, Event.Shutdown);
      stopping := true;
      while idle != []
        invariant closed + idle == before.closed + before.idle
        invariant stopping && threads[..] == before.threads
        decreases |idle|
      {
        closed := closed + [idle[0]];
        idle := idle[1..];
      }
      assert closed + [] == closed;
      for i := 0 to threads.Length
        invariant stopping && idle == [] && closed == before.closed + before.idle
        invariant forall j | 0 <= j < i :: threads[j] == Replace(before.threads, Asleep, Awake)[j]
        invariant forall j | i <= j < threads.Length :: threads[j] == before.threads[j]
      {
        if threads[i] == Asleep {
          threads[i] := Awake;
        }
      }
      assert threads[..] == Replace(before.threads, Asleep, Awake);
    }
  }
}
