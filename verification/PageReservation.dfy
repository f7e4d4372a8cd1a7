/**
  The page reservation protocol of one memory zone (page_alloc.cpp): a
  lock-free counter of unreserved free pages, a priority-sorted queue of
  blocked reservers under a mutex, and the threads that reserve, allocate,
  free, steal cached pages, scrub pages or allocate contiguous runs.

  The model is a state machine over any number of threads under sequentially
  consistent atomics, one step per access to shared data.  Steps that only
  touch mutex-guarded data and then drop the mutex are one step.  A page queue
  is its length; a read-locked queue access needs no writer to be active.
*/
module PageReservation {
  import opened Options
  import opened Sequences

  type Tid = nat

  const SCRUB_SIZE: nat := 32

  datatype Pc =
    | Idle
    // reserve_pages
    | TryReserve | CheckUnsat | Steal | StealPut | WantDeficit | AddUnsat | LoadFree | UndoUnsat
    | Enqueue | Waiting | Relock | CheckQueued | SubUnsat
    // unreserve_pages_for_zone and wake_up_page_reservation_waiters_for_zone
    | AddFree | LoadUnsat | WantWake | WakeLoop | WakeSub | WakeGive
    // vm_page_allocate_page_etc
    | TakeFirst | TakeSecond | WantWrite | TakeWrite
    // allocate_page_run
    | RunPull | RunSteal | RunFinish | RunRelock | RunCleanup
    // page_scrubber
    | ScrubPull | ScrubPush
    // page daemon: free_cached_pages followed by unreserve
    | DaemonSteal | DaemonPut

  /** A running reserve_pages call, with its PageReservationWaiter. */
  datatype Request = Request(
    asked: nat,        // pages the caller asked for
    want: nat,         // `count`: pages not reserved yet
    dontTouch: nat,    // reserve this priority must leave alone
    priority: int,     // thread priority
    canWait: bool,
    missing: nat,      // PageReservationWaiter::missing
    queued: bool)      // PageReservationWaiter::queued

  /** A running page run allocation; the scrubber uses pulledFree, too. */
  datatype PageRun = PageRun(
    len: nat,          // requested length, 0 outside a run
    pulledFree: nat,   // pages pulled out of the free queue
    pulledClear: nat,  // pages pulled out of the clear queue
    stolen: nat,       // cached pages taken
    given: nat)        // of those, pages returned to the counter

  const NO_RUN := PageRun(0, 0, 0, 0, 0)

  datatype Thread = Thread(
    pc: Pc,
    count: nat,        // vm_reservation_t::count (or the scrubber's `reserved`)
    owned: nat,        // pages allocated by this thread
    rq: Request,
    loose: nat,        // pages about to be added to the counter
    carry: nat,        // waker: pages just reserved for the head waiter
    taking: nat,       // 1 between reservation->count-- and taking the page
    clearFirst: bool,  // allocation: look at the clear queue first
    limbo: nat,        // 1 while a stolen page is between two queues
    run: PageRun)

  /** The zone's counters and locks. */
  datatype Pool = Pool(
    free: int, clear: int, cached: int,   // queue lengths
    unreserved: int,                      // fUnreservedFreePages
    unsat: int,                           // fUnsatisfiedPageReservations
    deficit: Option<Tid>,                 // owner of fPageDeficitLock
    writer: Option<Tid>,                  // write owner of fFreePageQueuesLock
    panicked: bool)                       // "Had reserved page, but there is none!"

  datatype State = State(
    pool: Pool,
    queue: seq<Tid>,                      // fPageReservationWaiters
    th: seq<Thread>)

  // ---- what a thread still has a claim on, what it holds, what it owes ----

  predicate Reserving(p: Pc) {
    (p.TryReserve? || p.CheckUnsat? || p.Steal? || p.StealPut? || p.WantDeficit? || p.AddUnsat? || p.LoadFree?
      || p.UndoUnsat? || p.Enqueue? || p.Waiting? || p.Relock? || p.CheckQueued? || p.SubUnsat?)
  }

  predicate Blocked(p: Pc) { (p.Waiting? || p.Relock? || p.CheckQueued? || p.SubUnsat?) }

  /** Pages the running reserve_pages call has secured so far. */
  function Secured(x: Thread): int {
    if !Reserving(x.pc) then 0
    else if Blocked(x.pc) then x.rq.asked - x.rq.missing
    else x.rq.asked - x.rq.want
  }

  /** Pages of the free and clear queues that are spoken for by this thread. */
  function Claims(x: Thread): int {
    x.count + Secured(x) + x.loose + x.carry + x.taking - x.run.pulledFree - x.run.pulledClear - x.run.given
  }

  /** Pages this thread has out of every queue. */
  function Held(x: Thread): int {
    x.owned + x.limbo + x.run.pulledFree + x.run.pulledClear + x.run.stolen
  }

  /** This thread's share of fUnsatisfiedPageReservations. */
  function Debt(x: Thread): int {
    if (x.pc.LoadFree? || x.pc.UndoUnsat? || x.pc.Enqueue?) then x.rq.want
    else if x.pc == SubUnsat then x.rq.missing
    else if x.pc == WakeGive then 0 - x.carry
    else if x.rq.queued then x.rq.missing
    else 0
  }

  function SumClaims(th: seq<Thread>): int {
    if th == [] then 0 else SumClaims(th[..|th| - 1]) + Claims(th[|th| - 1])
  }

  function SumHeld(th: seq<Thread>): int {
    if th == [] then 0 else SumHeld(th[..|th| - 1]) + Held(th[|th| - 1])
  }

  function SumDebt(th: seq<Thread>): int {
    if th == [] then 0 else SumDebt(th[..|th| - 1]) + Debt(th[|th| - 1])
  }

  /** The three sums after replacing one thread. */
  lemma {:induction false} SumsUpdate(th: seq<Thread>, t: Tid, x: Thread)
    requires t < |th|
    ensures SumClaims(th[t := x]) == SumClaims(th) - Claims(th[t]) + Claims(x)
    ensures SumHeld(th[t := x]) == SumHeld(th) - Held(th[t]) + Held(x)
    ensures SumDebt(th[t := x]) == SumDebt(th) - Debt(th[t]) + Debt(x)
  {
    var n := |th| - 1;
    if t == n {
      assert th[t := x][..n] == th[..n];
    } else {
      assert th[t := x][..n] == th[..n][t := x];
      SumsUpdate(th[..n], t, x);
    }
  }

  lemma {:induction false} ClaimsDominate(th: seq<Thread>, t: Tid)
    requires t < |th| && forall u | 0 <= u < |th| :: Claims(th[u]) >= 0
    ensures SumClaims(th) >= Claims(th[t])
    decreases th
  {
    var n := |th| - 1;
    if t < n { ClaimsDominate(th[..n], t); }
    else if n > 0 { ClaimsDominate(th[..n], 0); }
  }

  /** If only thread h can have a negative share, the total is at least any other thread's share plus h's. */
  lemma {:induction false} DebtDominates(th: seq<Thread>, t: Tid, h: Tid)
    requires t < |th| && t != h && (h < |th| ==> Debt(th[h]) <= 0)
    requires forall u | 0 <= u < |th| && u != h :: Debt(th[u]) >= 0
    ensures SumDebt(th) >= Debt(th[t]) + (if h < |th| then Debt(th[h]) else 0)
  {
    var n := |th| - 1;
    if t == n {
      DebtAtLeast(th[..n], h);
    } else {
      DebtDominates(th[..n], t, h);
    }
  }

  lemma {:induction false} DebtAtLeast(th: seq<Thread>, h: Tid)
    requires (h < |th| ==> Debt(th[h]) <= 0)
    requires forall u | 0 <= u < |th| && u != h :: Debt(th[u]) >= 0
    ensures SumDebt(th) >= if h < |th| then Debt(th[h]) else 0
  {
    if th != [] { DebtAtLeast(th[..|th| - 1], h); }
  }

  // ---- steps ----

  /** reserve_some_pages_from_zone: what a successful compare-and-swap takes from u. */
  function Amount(u: int, want: nat, dontTouch: nat): (r: nat)
    ensures r <= want
    ensures r > 0 ==> u - r >= dontTouch
    ensures r < want ==> u - r <= dontTouch
  {
    if u <= dontTouch then 0 else if want < u - dontTouch then want else u - dontTouch
  }

  predicate HoldsDeficit(p: Pc) {
    (p.AddUnsat? || p.LoadFree? || p.UndoUnsat? || p.Enqueue? || p.CheckQueued? || p.SubUnsat?
     || p.WakeLoop? || p.WakeSub? || p.WakeGive?)
  }

  predicate HoldsWriter(p: Pc) { p.TakeWrite? || p.RunPull? || p.RunCleanup? }

  function Minus(a: nat, b: nat): nat { if b <= a then a - b else 0 }

  /** unreserve_pages_for_zone returns into the page run it was called from, if any. */
  function Return(x: Thread): Pc { if x.run.len > 0 then RunFinish else Idle }

  /** reserve_pages gave up: vm_reserve_pages returns what it had secured. */
  function Fail(x: Thread): Thread { x.(pc := AddFree, loose := Minus(x.rq.asked, x.rq.want)) }

  /** All pages secured: they become the caller's reservation. */
  function Satisfied(x: Thread): Thread { x.(pc := Idle, count := x.rq.asked) }

  function EndRun(x: Thread): Thread {
    x.(pc := Idle, run := NO_RUN)
  }

  function AfterSteal(x: Thread): Thread { if x.rq.canWait then x.(pc := WantDeficit) else Fail(x) }

  /** The lock-free part of reserve_pages, with the stealing of cached pages. */
  datatype ReserveAction =
    | StartReserve(n: nat, dontTouch: nat, priority: int, canWait: bool)
    | DoTryReserve | DoCheckUnsat | StealTake | StealStop | DoStealPut

  predicate ReserveEnabled(p: Pool, x: Thread, a: ReserveAction) {
    match a
    case StartReserve(n, _, _, _) => x.pc == Idle && x.count == 0 && n > 0
    case DoTryReserve => x.pc == TryReserve
    case DoCheckUnsat => x.pc == CheckUnsat
    case StealTake => x.pc == Steal && p.cached > 0
    case StealStop => x.pc == Steal
    case DoStealPut => x.pc == StealPut && p.writer == None
  }

  function ReserveStep(p: Pool, x: Thread, a: ReserveAction): (Pool, Thread) {
    match a
    case StartReserve(n, d, pr, w) =>
      (p, x.(pc := TryReserve, rq := Request(n, n, d, pr, w, 0, false)))
    case DoTryReserve =>
      var r := Amount(p.unreserved, x.rq.want, x.rq.dontTouch);
      var y := x.(rq := x.rq.(want := x.rq.want - r));
      (p.(unreserved := p.unreserved - r), if y.rq.want == 0 then Satisfied(y) else y.(pc := CheckUnsat))
    case DoCheckUnsat => (p, if p.unsat == 0 then x.(pc := Steal) else AfterSteal(x))
    case StealTake => (p.(cached := p.cached - 1), x.(pc := StealPut, limbo := 1))
    case StealStop => (p, AfterSteal(x))
    case DoStealPut =>
      var y := x.(limbo := 0, rq := x.rq.(want := Minus(x.rq.want, 1)));
      (p.(free := p.free + 1), if y.rq.want == 0 then Satisfied(y) else y.(pc := Steal))
  }

  /** The part of reserve_pages that runs under the deficit lock, except the queue itself. */
  datatype DeficitAction = LockDeficit | DoAddUnsat | DoLoadFree | DoUndo | WakeUp | DoSubUnsat(retry: bool)

  predicate DeficitEnabled(p: Pool, x: Thread, a: DeficitAction) {
    match a
    case LockDeficit => p.deficit == None && (x.pc == WantDeficit || x.pc == WantWake || x.pc == Relock)
    case DoAddUnsat => x.pc == AddUnsat
    case DoLoadFree => x.pc == LoadFree
    case DoUndo => x.pc == UndoUnsat
    case WakeUp => x.pc == Waiting
    case DoSubUnsat(_) => x.pc == SubUnsat
  }

  function DeficitStep(p: Pool, x: Thread, t: Tid, a: DeficitAction): (Pool, Thread) {
    match a
    case LockDeficit =>
      (p.(deficit := Some(t)),
       x.(pc := if x.pc == WantDeficit then AddUnsat else if x.pc == WantWake then WakeLoop else CheckQueued))
    case DoAddUnsat => (p.(unsat := p.unsat + x.rq.want), x.(pc := LoadFree))
    case DoLoadFree => (p, x.(pc := if p.unreserved > x.rq.dontTouch then UndoUnsat else Enqueue))
    case DoUndo => (p.(unsat := p.unsat - x.rq.want, deficit := None), x.(pc := TryReserve))
    case WakeUp => (p, x.(pc := Relock))
    case DoSubUnsat(retry) =>
      var y := x.(rq := x.rq.(want := x.rq.missing));
      (p.(unsat := p.unsat - x.rq.missing, deficit := None), if retry then y.(pc := TryReserve) else Fail(y))
  }

  /** unreserve_pages_for_zone, up to the wake-up loop. */
  datatype ReturnAction = StartUnreserve | DoAddFree | DoLoadUnsat | DoWakeSub

  predicate ReturnEnabled(p: Pool, x: Thread, a: ReturnAction) {
    match a
    case StartUnreserve => x.pc == Idle && x.count > 0
    case DoAddFree => x.pc == AddFree
    case DoLoadUnsat => x.pc == LoadUnsat
    case DoWakeSub => x.pc == WakeSub
  }

  function ReturnStep(p: Pool, x: Thread, a: ReturnAction): (Pool, Thread) {
    match a
    case StartUnreserve => (p, x.(pc := AddFree, loose := x.count, count := 0))
    case DoAddFree => (p.(unreserved := p.unreserved + x.loose), x.(pc := LoadUnsat, loose := 0))
    case DoLoadUnsat => (p, x.(pc := if p.unsat != 0 then WantWake else Return(x)))
    case DoWakeSub => (p.(unsat := p.unsat - x.carry), x.(pc := WakeGive))
  }

  /** vm_page_allocate_page_etc: first queue, second queue, then both under the write lock. */
  datatype AllocAction = StartAlloc(clearFirst: bool) | DoTakeFirst | DoTakeSecond | LockWriter | DoTakeWrite

  predicate AllocEnabled(p: Pool, x: Thread, a: AllocAction) {
    match a
    case StartAlloc(_) => x.pc == Idle && x.count > 0
    case DoTakeFirst => x.pc == TakeFirst && p.writer == None
    case DoTakeSecond => x.pc == TakeSecond && p.writer == None
    case LockWriter => p.writer == None && (x.pc == WantWrite || x.pc == RunRelock)
    case DoTakeWrite => x.pc == TakeWrite
  }

  /** Taking a page out of one of the two queues. */
  function TakeFrom(p: Pool, x: Thread, clear: bool): (Pool, Thread) {
    (if clear then p.(clear := p.clear - 1) else p.(free := p.free - 1),
     x.(pc := Idle, taking := 0, owned := x.owned + 1))
  }

  function Length(p: Pool, clear: bool): int { if clear then p.clear else p.free }

  function AllocStep(p: Pool, x: Thread, t: Tid, a: AllocAction): (Pool, Thread) {
    match a
    case StartAlloc(c) => (p, x.(pc := TakeFirst, count := Minus(x.count, 1), taking := 1, clearFirst := c))
    case DoTakeFirst =>
      if Length(p, x.clearFirst) > 0 then TakeFrom(p, x, x.clearFirst) else (p, x.(pc := TakeSecond))
    case DoTakeSecond =>
      if Length(p, !x.clearFirst) > 0 then TakeFrom(p, x, !x.clearFirst) else (p, x.(pc := WantWrite))
    case LockWriter => (p.(writer := Some(t)), x.(pc := if x.pc == WantWrite then TakeWrite else RunCleanup))
    case DoTakeWrite =>
      if Length(p, x.clearFirst) > 0 then TakeFrom(p.(writer := None), x, x.clearFirst)
      else if Length(p, !x.clearFirst) > 0 then TakeFrom(p.(writer := None), x, !x.clearFirst)
      else (p.(writer := None, panicked := true), x.(pc := WantWrite))
  }

  /** free_page with its callers, and the cached queue. */
  datatype PageAction = FreePage(toClear: bool, keep: bool) | ToCached | FromCached

  predicate PageEnabled(p: Pool, x: Thread, a: PageAction) {
    match a
    case FreePage(_, _) => x.pc == Idle && x.owned > 0 && p.writer == None
    case ToCached => x.pc == Idle && x.owned > 0
    case FromCached => x.pc == Idle && p.cached > 0
  }

  function PageStep(p: Pool, x: Thread, a: PageAction): (Pool, Thread) {
    match a
    case FreePage(c, keep) =>
      var y := x.(owned := Minus(x.owned, 1));
      (if c then p.(clear := p.clear + 1) else p.(free := p.free + 1),
       if keep then y.(count := x.count + 1) else y.(pc := AddFree, loose := 1))
    case ToCached => (p.(cached := p.cached + 1), x.(owned := Minus(x.owned, 1)))
    case FromCached => (p.(cached := p.cached - 1), x.(owned := x.owned + 1))
  }

  /** vm_page_allocate_page_run with allocate_page_run and its cleanup. */
  datatype RunAction =
    | StartRun(len: nat) | RunPullOne(fromClear: bool) | RunAbort | RunUnlock
    | RunStealOne | RunStealEnd | RunSucceed | RunFail | DoRunCleanup

  predicate RunEnabled(p: Pool, x: Thread, a: RunAction) {
    var pulled := x.run.pulledFree + x.run.pulledClear;
    match a
    case StartRun(len) => x.pc == Idle && 0 < len <= x.count && p.writer == None
    case RunPullOne(c) => x.pc == RunPull && pulled < x.run.len && (if c then p.clear > 0 else p.free > 0)
    case RunAbort => x.pc == RunPull
    case RunUnlock => x.pc == RunPull
    case RunStealOne => x.pc == RunSteal && p.cached > 0 && pulled + x.run.stolen < x.run.len
    case RunStealEnd => x.pc == RunSteal
    case RunSucceed => x.pc == RunFinish && pulled + x.run.stolen == x.run.len
    case RunFail => x.pc == RunFinish && (pulled + x.run.stolen < x.run.len || x.run.stolen > 0)
    case DoRunCleanup => x.pc == RunCleanup
  }

  function RunStep(p: Pool, x: Thread, t: Tid, a: RunAction): (Pool, Thread) {
    match a
    case StartRun(len) => (p.(writer := Some(t)), x.(pc := RunPull, run := NO_RUN.(len := len)))
    case RunPullOne(c) =>
      if c then (p.(clear := p.clear - 1), x.(run := x.run.(pulledClear := x.run.pulledClear + 1)))
      else (p.(free := p.free - 1), x.(run := x.run.(pulledFree := x.run.pulledFree + 1)))
    case RunAbort =>
      (p.(free := p.free + x.run.pulledFree, clear := p.clear + x.run.pulledClear, writer := None), EndRun(x))
    case RunUnlock =>
      (p.(writer := None), x.(pc := if x.run.pulledFree + x.run.pulledClear == x.run.len then RunFinish else RunSteal))
    case RunStealOne => (p.(cached := p.cached - 1), x.(run := x.run.(stolen := x.run.stolen + 1)))
    case RunStealEnd =>
      (p, if x.run.stolen > 0 then x.(pc := AddFree, loose := x.run.stolen, run := x.run.(given := x.run.stolen))
        else x.(pc := RunFinish))
    case RunSucceed =>
      (p, EndRun(x.(count := Minus(x.count, x.run.len),
        owned := x.owned + x.run.pulledFree + x.run.pulledClear + x.run.stolen)))
    case RunFail => (p, x.(pc := RunRelock))
    case DoRunCleanup =>
      (p.(free := p.free + x.run.pulledFree + x.run.stolen, clear := p.clear + x.run.pulledClear, writer := None),
        EndRun(x))
  }

  /** page_scrubber: reserve, move pages from the free to the clear queue, unreserve. */
  datatype ScrubAction = StartScrub(dontTouch: nat) | ScrubPullOne | ScrubPullEnd | ScrubPushOne | ScrubPushEnd

  predicate ScrubEnabled(p: Pool, x: Thread, a: ScrubAction) {
    match a
    case StartScrub(_) => x.pc == Idle && x.count == 0
    case ScrubPullOne => x.pc == ScrubPull && p.writer == None && p.free > 0 && x.run.pulledFree < x.count
    case ScrubPullEnd => x.pc == ScrubPull
    case ScrubPushOne => x.pc == ScrubPush && p.writer == None && x.run.pulledFree > 0
    case ScrubPushEnd => x.pc == ScrubPush && x.run.pulledFree == 0
  }

  function ScrubStep(p: Pool, x: Thread, a: ScrubAction): (Pool, Thread) {
    match a
    case StartScrub(d) =>
      var r := Amount(p.unreserved, SCRUB_SIZE, d);
      if r == 0 then (p, x) else (p.(unreserved := p.unreserved - r), x.(pc := ScrubPull, count := r))
    case ScrubPullOne => (p.(free := p.free - 1), x.(run := x.run.(pulledFree := x.run.pulledFree + 1)))
    case ScrubPullEnd => (p, x.(pc := ScrubPush))
    case ScrubPushOne => (p.(clear := p.clear + 1), x.(run := x.run.(pulledFree := Minus(x.run.pulledFree, 1))))
    case ScrubPushEnd => (p, x.(pc := AddFree, loose := x.count, count := 0))
  }

  /** The page daemon: free_cached_pages, then unreserve what was freed. */
  datatype DaemonAction = StartDaemon | DaemonTake | DoDaemonPut | DaemonEnd

  predicate DaemonEnabled(p: Pool, x: Thread, a: DaemonAction) {
    match a
    case StartDaemon => x.pc == Idle
    case DaemonTake => x.pc == DaemonSteal && p.cached > 0
    case DoDaemonPut => x.pc == DaemonPut && p.writer == None
    case DaemonEnd => x.pc == DaemonSteal
  }

  function DaemonStep(p: Pool, x: Thread, a: DaemonAction): (Pool, Thread) {
    match a
    case StartDaemon => (p, x.(pc := DaemonSteal))
    case DaemonTake => (p.(cached := p.cached - 1), x.(pc := DaemonPut, limbo := 1))
    case DoDaemonPut => (p.(free := p.free + 1), x.(pc := DaemonSteal, limbo := 0, loose := x.loose + 1))
    case DaemonEnd => (p, if x.loose > 0 then x.(pc := AddFree) else x.(pc := Idle))
  }

  /** Steps that read or change the waiter queue. */
  datatype QueueAction = DoEnqueue | DoCheckQueued | DoWakeLoop | DoWakeGive

  datatype Action =
    | Reserve(reserve: ReserveAction) | Deficit(deficit: DeficitAction) | GiveBack(back: ReturnAction)
    | Alloc(alloc: AllocAction) | Page(page: PageAction) | Run(run: RunAction) | Scrub(scrub: ScrubAction)
    | Daemon(daemon: DaemonAction)
    | Queue(queue: QueueAction)

  predicate LocalEnabled(p: Pool, x: Thread, a: Action) {
    match a
    case Reserve(b) => ReserveEnabled(p, x, b)
    case Deficit(b) => DeficitEnabled(p, x, b)
    case GiveBack(b) => ReturnEnabled(p, x, b)
    case Alloc(b) => AllocEnabled(p, x, b)
    case Page(b) => PageEnabled(p, x, b)
    case Run(b) => RunEnabled(p, x, b)
    case Scrub(b) => ScrubEnabled(p, x, b)
    case Daemon(b) => DaemonEnabled(p, x, b)
    case Queue(_) => false
  }

  /** A step of thread t that leaves the waiter queue and all other threads alone. */
  function LocalStep(p: Pool, x: Thread, t: Tid, a: Action): (Pool, Thread) {
    match a
    case Reserve(b) => ReserveStep(p, x, b)
    case Deficit(b) => DeficitStep(p, x, t, b)
    case GiveBack(b) => ReturnStep(p, x, b)
    case Alloc(b) => AllocStep(p, x, t, b)
    case Page(b) => PageStep(p, x, b)
    case Run(b) => RunStep(p, x, t, b)
    case Scrub(b) => ScrubStep(p, x, b)
    case Daemon(b) => DaemonStep(p, x, b)
    case Queue(_) => (p, x)
  }

  // ---- what every thread's own fields satisfy ----

  predicate UnreserveTail(p: Pc) {
    p.AddFree? || p.LoadUnsat? || p.WantWake? || p.WakeLoop? || p.WakeSub? || p.WakeGive?
  }

  predicate RunPc(p: Pc) { p.RunPull? || p.RunSteal? || p.RunFinish? || p.RunRelock? || p.RunCleanup? }

  predicate OnQueue(p: Pc) { p.Waiting? || p.Relock? || p.CheckQueued? }

  predicate ReserveFields(x: Thread) {
    && (Reserving(x.pc) ==> x.count == 0)
    && (Reserving(x.pc) && !Blocked(x.pc) ==> 0 < x.rq.want <= x.rq.asked)
    && (Blocked(x.pc) ==> x.rq.missing <= x.rq.asked)
    && (x.rq.queued ==> OnQueue(x.pc))
    && (OnQueue(x.pc) ==> (x.rq.queued <==> x.rq.missing > 0))
    && (x.pc.SubUnsat? ==> x.rq.missing > 0)
    && (x.pc.WakeSub? || x.pc.WakeGive? <==> x.carry > 0)
    && (x.loose > 0 ==> x.pc.AddFree? || x.pc.DaemonSteal? || x.pc.DaemonPut?)
  }

  predicate PageFields(x: Thread) {
    && x.taking == (if x.pc.TakeFirst? || x.pc.TakeSecond? || x.pc.WantWrite? || x.pc.TakeWrite? then 1 else 0)
    && x.limbo == (if x.pc.StealPut? || x.pc.DaemonPut? then 1 else 0)
    && (RunPc(x.pc) ==> x.run.len > 0)
    && (x.run.len > 0 ==> x.run.len <= x.count && (RunPc(x.pc) || UnreserveTail(x.pc)))
    && (x.run.len > 0 ==> x.run.pulledFree + x.run.pulledClear + x.run.stolen <= x.run.len)
    && (x.run.len == 0 ==> x.run.pulledClear == 0 && x.run.stolen == 0)
    && (x.run.len == 0 && x.run.pulledFree > 0 ==> (x.pc.ScrubPull? || x.pc.ScrubPush?) && x.run.pulledFree <= x.count)
    && x.run.given == (if x.pc.RunPull? || x.pc.RunSteal? then 0 else x.run.stolen)
    && (x.pc.RunPull? ==> x.run.stolen == 0)
  }

  predicate FieldsOk(x: Thread) { ReserveFields(x) && PageFields(x) }

  lemma ClaimsNonNegative(x: Thread)
    requires FieldsOk(x)
    ensures Claims(x) >= x.taking
    ensures Held(x) >= 0
  {
  }

  /** A step keeps the books: queue pages against claims, pages against holders, debts against the counter. */
  predicate Balanced(p: Pool, x: Thread, q: Pool, y: Thread) {
    && q.free + q.clear - q.unreserved - Claims(y) == p.free + p.clear - p.unreserved - Claims(x)
    && q.free + q.clear + q.cached + Held(y) == p.free + p.clear + p.cached + Held(x)
    && q.unsat - Debt(y) == p.unsat - Debt(x)
  }

  /** Queue lengths and the counter stay non-negative, and there is no panic. */
  predicate PoolOk(p: Pool) { p.free >= 0 && p.clear >= 0 && p.cached >= 0 && p.unreserved >= 0 && !p.panicked }

  predicate Good(p: Pool, x: Thread, q: Pool, y: Thread) { Balanced(p, x, q, y) && FieldsOk(y) && PoolOk(q) }

  lemma StartReserveGood(p: Pool, x: Thread, a: ReserveAction)
    requires ReserveEnabled(p, x, a) && FieldsOk(x) && PoolOk(p)
    requires a.StartReserve?
    ensures var (q, y) := ReserveStep(p, x, a); Good(p, x, q, y)
  {
  }

  lemma TryReserveGood(p: Pool, x: Thread, a: ReserveAction)
    requires ReserveEnabled(p, x, a) && FieldsOk(x) && PoolOk(p)
    requires a.DoTryReserve?
    ensures var (q, y) := ReserveStep(p, x, a); Good(p, x, q, y)
  {
  }

  lemma CheckUnsatGood(p: Pool, x: Thread, a: ReserveAction)
    requires ReserveEnabled(p, x, a) && FieldsOk(x) && PoolOk(p)
    requires a.DoCheckUnsat?
    ensures var (q, y) := ReserveStep(p, x, a); Good(p, x, q, y)
  {
  }

  lemma StealGood(p: Pool, x: Thread, a: ReserveAction)
    requires ReserveEnabled(p, x, a) && FieldsOk(x) && PoolOk(p)
    requires a.StealTake? || a.StealStop?
    ensures var (q, y) := ReserveStep(p, x, a); Good(p, x, q, y)
  {
  }

  lemma StealPutGood(p: Pool, x: Thread, a: ReserveAction)
    requires ReserveEnabled(p, x, a) && FieldsOk(x) && PoolOk(p)
    requires a.DoStealPut?
    ensures var (q, y) := ReserveStep(p, x, a); Good(p, x, q, y)
  {
  }

  lemma DeficitGood(p: Pool, x: Thread, t: Tid, a: DeficitAction)
    requires DeficitEnabled(p, x, a) && FieldsOk(x) && PoolOk(p)
    requires !a.DoSubUnsat? && !a.LockDeficit?
    ensures var (q, y) := DeficitStep(p, x, t, a); Good(p, x, q, y)
  {
  }

  lemma LockDeficitGood(p: Pool, x: Thread, t: Tid, a: DeficitAction)
    requires DeficitEnabled(p, x, a) && FieldsOk(x) && PoolOk(p)
    requires a.LockDeficit?
    ensures var (q, y) := DeficitStep(p, x, t, a); Good(p, x, q, y)
  {
  }

  lemma SubUnsatGood(p: Pool, x: Thread, t: Tid, a: DeficitAction)
    requires DeficitEnabled(p, x, a) && FieldsOk(x) && PoolOk(p)
    requires a.DoSubUnsat?
    ensures var (q, y) := DeficitStep(p, x, t, a); Good(p, x, q, y)
  {
  }

  lemma AddFreeGood(p: Pool, x: Thread, a: ReturnAction)
    requires ReturnEnabled(p, x, a) && FieldsOk(x) && PoolOk(p)
    requires a.StartUnreserve? || a.DoAddFree?
    ensures var (q, y) := ReturnStep(p, x, a); Good(p, x, q, y)
  {
  }

  lemma LoadUnsatGood(p: Pool, x: Thread, a: ReturnAction)
    requires ReturnEnabled(p, x, a) && FieldsOk(x) && PoolOk(p)
    requires a.DoLoadUnsat? || a.DoWakeSub?
    ensures var (q, y) := ReturnStep(p, x, a); Good(p, x, q, y)
  {
  }

  lemma AllocGood(p: Pool, x: Thread, t: Tid, a: AllocAction)
    requires AllocEnabled(p, x, a) && FieldsOk(x) && PoolOk(p)
    requires a.StartAlloc? || a.LockWriter?
    ensures var (q, y) := AllocStep(p, x, t, a); Good(p, x, q, y)
  {
  }

  lemma TakeFirstGood(p: Pool, x: Thread, t: Tid, a: AllocAction)
    requires AllocEnabled(p, x, a) && FieldsOk(x) && PoolOk(p)
    requires a.DoTakeFirst?
    ensures var (q, y) := AllocStep(p, x, t, a); Good(p, x, q, y)
  {
  }

  lemma TakeSecondGood(p: Pool, x: Thread, t: Tid, a: AllocAction)
    requires AllocEnabled(p, x, a) && FieldsOk(x) && PoolOk(p)
    requires a.DoTakeSecond?
    ensures var (q, y) := AllocStep(p, x, t, a); Good(p, x, q, y)
  {
  }

  lemma TakeWriteGood(p: Pool, x: Thread, t: Tid, a: AllocAction)
    requires AllocEnabled(p, x, a) && FieldsOk(x) && PoolOk(p)
    requires a.DoTakeWrite?
    requires p.free > 0 || p.clear > 0
    ensures var (q, y) := AllocStep(p, x, t, a); Good(p, x, q, y)
  {
  }

  lemma FreeGood(p: Pool, x: Thread, a: PageAction)
    requires PageEnabled(p, x, a) && FieldsOk(x) && PoolOk(p) && a.FreePage?
    ensures var (q, y) := PageStep(p, x, a); Good(p, x, q, y)
  {
  }

  lemma CachedGood(p: Pool, x: Thread, a: PageAction)
    requires PageEnabled(p, x, a) && FieldsOk(x) && PoolOk(p) && !a.FreePage?
    ensures var (q, y) := PageStep(p, x, a); Good(p, x, q, y)
  {
  }

  lemma RunStartGood(p: Pool, x: Thread, t: Tid, a: RunAction)
    requires RunEnabled(p, x, a) && FieldsOk(x) && PoolOk(p)
    requires a.StartRun? || a.RunUnlock?
    ensures var (q, y) := RunStep(p, x, t, a); Good(p, x, q, y)
  {
  }

  lemma RunPullGood(p: Pool, x: Thread, t: Tid, a: RunAction)
    requires RunEnabled(p, x, a) && FieldsOk(x) && PoolOk(p)
    requires a.RunPullOne? || a.RunAbort?
    ensures var (q, y) := RunStep(p, x, t, a); Good(p, x, q, y)
  {
  }

  lemma RunStealGood(p: Pool, x: Thread, t: Tid, a: RunAction)
    requires RunEnabled(p, x, a) && FieldsOk(x) && PoolOk(p)
    requires a.RunStealOne? || a.RunStealEnd?
    ensures var (q, y) := RunStep(p, x, t, a); Good(p, x, q, y)
  {
  }

  lemma RunFailGood(p: Pool, x: Thread, t: Tid, a: RunAction)
    requires RunEnabled(p, x, a) && FieldsOk(x) && PoolOk(p)
    requires a.RunFail? || a.DoRunCleanup?
    ensures var (q, y) := RunStep(p, x, t, a); Good(p, x, q, y)
  {
  }

  lemma RunEndGood(p: Pool, x: Thread, t: Tid, a: RunAction)
    requires RunEnabled(p, x, a) && FieldsOk(x) && PoolOk(p)
    requires a.RunSucceed?
    ensures var (q, y) := RunStep(p, x, t, a); Good(p, x, q, y)
  {
  }

  lemma ScrubGood(p: Pool, x: Thread, a: ScrubAction)
    requires ScrubEnabled(p, x, a) && FieldsOk(x) && PoolOk(p)
    requires a.StartScrub? || a.ScrubPullOne?
    ensures var (q, y) := ScrubStep(p, x, a); Good(p, x, q, y)
  {
  }

  lemma ScrubPushGood(p: Pool, x: Thread, a: ScrubAction)
    requires ScrubEnabled(p, x, a) && FieldsOk(x) && PoolOk(p)
    requires !a.StartScrub? && !a.ScrubPullOne?
    ensures var (q, y) := ScrubStep(p, x, a); Good(p, x, q, y)
  {
  }

  lemma DaemonTakeGood(p: Pool, x: Thread, a: DaemonAction)
    requires DaemonEnabled(p, x, a) && FieldsOk(x) && PoolOk(p)
    requires a.StartDaemon? || a.DaemonTake?
    ensures var (q, y) := DaemonStep(p, x, a); Good(p, x, q, y)
  {
  }

  lemma DaemonPutGood(p: Pool, x: Thread, a: DaemonAction)
    requires DaemonEnabled(p, x, a) && FieldsOk(x) && PoolOk(p)
    requires a.DoDaemonPut? || a.DaemonEnd?
    ensures var (q, y) := DaemonStep(p, x, a); Good(p, x, q, y)
  {
  }

  /** Every step that leaves the queue alone keeps the books and the thread's own fields. */
  lemma LocalGood(p: Pool, x: Thread, t: Tid, a: Action)
    requires LocalEnabled(p, x, a) && FieldsOk(x) && PoolOk(p)
    requires a.Alloc? && a.alloc.DoTakeWrite? ==> p.free > 0 || p.clear > 0
    ensures var (q, y) := LocalStep(p, x, t, a); Good(p, x, q, y)
  {
    match a
    case Reserve(b) =>
      match b {
        case StartReserve(_, _, _, _) => StartReserveGood(p, x, b);
        case DoTryReserve => TryReserveGood(p, x, b);
        case DoCheckUnsat => CheckUnsatGood(p, x, b);
        case StealTake | StealStop => StealGood(p, x, b);
        case DoStealPut => StealPutGood(p, x, b);
      }
    case Deficit(b) =>
      match b {
        case LockDeficit => LockDeficitGood(p, x, t, b);
        case DoSubUnsat(_) => SubUnsatGood(p, x, t, b);
        case _ => DeficitGood(p, x, t, b);
      }
    case GiveBack(b) =>
      if b.StartUnreserve? || b.DoAddFree? { AddFreeGood(p, x, b); } else { LoadUnsatGood(p, x, b); }
    case Alloc(b) =>
      match b {
        case DoTakeFirst => TakeFirstGood(p, x, t, b);
        case DoTakeSecond => TakeSecondGood(p, x, t, b);
        case DoTakeWrite => TakeWriteGood(p, x, t, b);
        case _ => AllocGood(p, x, t, b);
      }
    case Page(b) =>
      if b.FreePage? { FreeGood(p, x, b); } else { CachedGood(p, x, b); }
    case Run(b) =>
      match b {
        case StartRun(_) | RunUnlock => RunStartGood(p, x, t, b);
        case RunPullOne(_) | RunAbort => RunPullGood(p, x, t, b);
        case RunStealOne | RunStealEnd => RunStealGood(p, x, t, b);
        case RunFail | DoRunCleanup => RunFailGood(p, x, t, b);
        case RunSucceed => RunEndGood(p, x, t, b);
      }
    case Scrub(b) =>
      if b.StartScrub? || b.ScrubPullOne? { ScrubGood(p, x, b); } else { ScrubPushGood(p, x, b); }
    case Daemon(b) =>
      if b.StartDaemon? || b.DaemonTake? { DaemonTakeGood(p, x, b); } else { DaemonPutGood(p, x, b); }
  }

  // ---- what a local step does to locks, to the thread's waiter, and to pending wake-ups ----

  predicate LockMove(before: Option<Tid>, after: Option<Tid>, t: Tid, held: bool, holds: bool) {
    || (before == after && held == holds)
    || (before == None && after == Some(t) && !held && holds)
    || (after == None && held && !holds)
  }

  /** A thread that will still look at the waiter queue before it returns. */
  predicate Owes(p: Pc) { p.LoadUnsat? || p.WantWake? || p.WakeLoop? }

  predicate Carries(p: Pc) { p.WakeSub? || p.WakeGive? }

  predicate Quiet(p: Pool, x: Thread, q: Pool, y: Thread, t: Tid) {
    && LockMove(p.deficit, q.deficit, t, HoldsDeficit(x.pc), HoldsDeficit(y.pc))
    && LockMove(p.writer, q.writer, t, HoldsWriter(x.pc), HoldsWriter(y.pc))
    && y.rq.queued == x.rq.queued
    && (x.rq.queued ==> y.rq == x.rq)
    && (q.unreserved <= p.unreserved || Owes(y.pc))
    && (Owes(x.pc) ==> Owes(y.pc) || (x.pc.LoadUnsat? && p.unsat == 0))
    && Carries(y.pc) == Carries(x.pc) && y.carry == x.carry
    && (y.pc.Enqueue? ==> x.pc.LoadFree? && p.unreserved <= y.rq.dontTouch)
  }

  lemma QuietReserve(p: Pool, x: Thread, t: Tid, a: Action)
    requires LocalEnabled(p, x, a) && FieldsOk(x) && a.Reserve?
    ensures var (q, y) := LocalStep(p, x, t, a); Quiet(p, x, q, y, t)
  {
  }

  lemma QuietReturn(p: Pool, x: Thread, t: Tid, a: Action)
    requires LocalEnabled(p, x, a) && FieldsOk(x) && (a.GiveBack? || a.Page?)
    ensures var (q, y) := LocalStep(p, x, t, a); Quiet(p, x, q, y, t)
  {
  }

  lemma QuietDeficit(p: Pool, x: Thread, t: Tid, a: Action)
    requires LocalEnabled(p, x, a) && FieldsOk(x) && a.Deficit?
    ensures var (q, y) := LocalStep(p, x, t, a); Quiet(p, x, q, y, t)
  {
  }

  lemma QuietAlloc(p: Pool, x: Thread, t: Tid, a: Action)
    requires LocalEnabled(p, x, a) && FieldsOk(x) && a.Alloc?
    ensures var (q, y) := LocalStep(p, x, t, a); Quiet(p, x, q, y, t)
  {
  }

  lemma QuietDaemon(p: Pool, x: Thread, t: Tid, a: Action)
    requires LocalEnabled(p, x, a) && FieldsOk(x) && a.Daemon?
    ensures var (q, y) := LocalStep(p, x, t, a); Quiet(p, x, q, y, t)
  {
  }

  lemma QuietRun(p: Pool, x: Thread, t: Tid, a: Action)
    requires LocalEnabled(p, x, a) && FieldsOk(x) && a.Run?
    ensures var (q, y) := LocalStep(p, x, t, a); Quiet(p, x, q, y, t)
  {
  }

  lemma QuietScrub(p: Pool, x: Thread, t: Tid, a: Action)
    requires LocalEnabled(p, x, a) && FieldsOk(x) && a.Scrub?
    ensures var (q, y) := LocalStep(p, x, t, a); Quiet(p, x, q, y, t)
  {
  }

  lemma LocalQuiet(p: Pool, x: Thread, t: Tid, a: Action)
    requires LocalEnabled(p, x, a) && FieldsOk(x)
    ensures var (q, y) := LocalStep(p, x, t, a); Quiet(p, x, q, y, t)
  {
    match a
    case Reserve(_) => QuietReserve(p, x, t, a);
    case GiveBack(_) | Page(_) => QuietReturn(p, x, t, a);
    case Deficit(_) => QuietDeficit(p, x, t, a);
    case Alloc(_) => QuietAlloc(p, x, t, a);
    case Daemon(_) => QuietDaemon(p, x, t, a);
    case Run(_) => QuietRun(p, x, t, a);
    case Scrub(_) => QuietScrub(p, x, t, a);
  }

  // ---- the waiter queue ----

  /** PageReservationWaiter::operator<: smaller reserve first, then higher thread priority. */
  predicate Before(x: Request, y: Request) {
    if x.dontTouch != y.dontTouch then x.dontTouch < y.dontTouch else x.priority > y.priority
  }

  /** Where a new waiter goes: in front of the first one it precedes. */
  function Position(x: Request, queue: seq<Tid>, th: seq<Thread>): (i: nat)
    ensures i <= |queue|
    ensures forall j | 0 <= j < i && queue[j] < |th| :: !Before(x, th[queue[j]].rq)
    ensures i < |queue| && queue[i] < |th| ==> Before(x, th[queue[i]].rq)
  {
    if queue == [] then 0
    else if queue[0] < |th| && Before(x, th[queue[0]].rq) then 0
    else 1 + Position(x, queue[1..], th)
  }

  /** Doubly linked list insertion in front of position i. */
  function Insert(q: seq<Tid>, i: nat, t: Tid): (r: seq<Tid>)
    requires i <= |q|
    ensures |r| == |q| + 1 && r[i] == t
    ensures forall k | 0 <= k < i :: r[k] == q[k]
    ensures forall k | i < k < |r| :: r[k] == q[k - 1]
    ensures forall u: Tid :: u in r <==> u == t || u in q
  {
    var r := q[..i] + [t] + q[i..];
    assert forall u: Tid | u in q :: u in q[..i] || u in q[i..] by { assert q == q[..i] + q[i..]; }
    r
  }

  predicate QueueEnabled(x: Thread, a: QueueAction) {
    match a
    case DoEnqueue => x.pc == Enqueue
    case DoCheckQueued => x.pc == CheckQueued
    case DoWakeLoop => x.pc == WakeLoop
    case DoWakeGive => x.pc == WakeGive
  }

  function Update(s: State, p: Pool, t: Tid, x: Thread): State
    requires t < |s.th|
  {
    s.(pool := p, th := s.th[t := x])
  }

  predicate HasHead(s: State) { s.queue != [] && s.queue[0] < |s.th| }

  function EnqueueStep(s: State, t: Tid): State
    requires t < |s.th|
  {
    var x := s.th[t];
    var i := Position(x.rq, s.queue, s.th);
    Update(s, s.pool.(deficit := None), t, x.(pc := Waiting, rq := x.rq.(missing := x.rq.want, queued := true)))
      .(queue := Insert(s.queue, i, t))
  }

  function CheckQueuedStep(s: State, t: Tid): State
    requires t < |s.th|
  {
    var x := s.th[t];
    if !x.rq.queued then Update(s, s.pool.(deficit := None), t, Satisfied(x))
    else Update(s, s.pool, t, x.(pc := SubUnsat, rq := x.rq.(queued := false))).(queue := Without(s.queue, t))
  }

  function WakeLoopStep(s: State, t: Tid): State
    requires t < |s.th|
  {
    var x := s.th[t];
    var done := Update(s, s.pool.(deficit := None), t, x.(pc := Return(x)));
    if !HasHead(s) then done
    else
      var h := s.th[s.queue[0]].rq;
      var r := Amount(s.pool.unreserved, h.missing, h.dontTouch);
      if r == 0 then done
      else Update(s, s.pool.(unreserved := s.pool.unreserved - r), t, x.(pc := WakeSub, carry := r))
  }

  function WakeGiveStep(s: State, t: Tid): State
    requires t < |s.th|
  {
    var x := s.th[t];
    if !HasHead(s) then s
    else
      var h := s.queue[0];
      var w := s.th[h];
      var left := Minus(w.rq.missing, x.carry);
      if left > 0 then
        Update(Update(s, s.pool, h, w.(rq := w.rq.(missing := left))),
               s.pool.(deficit := None), t, x.(pc := Return(x), carry := 0))
      else
        Update(Update(s, s.pool, h, w.(rq := w.rq.(missing := 0, queued := false))),
               s.pool, t, x.(pc := WakeLoop, carry := 0)).(queue := s.queue[1..])
  }

  predicate Enabled(s: State, t: Tid, a: Action) {
    t < |s.th| && if a.Queue? then QueueEnabled(s.th[t], a.queue) else LocalEnabled(s.pool, s.th[t], a)
  }

  /** One atomic step of thread t. */
  function Do(s: State, t: Tid, a: Action): State
    requires Enabled(s, t, a)
  {
    match a
    case Queue(b) =>
      (match b
       case DoEnqueue => EnqueueStep(s, t)
       case DoCheckQueued => CheckQueuedStep(s, t)
       case DoWakeLoop => WakeLoopStep(s, t)
       case DoWakeGive => WakeGiveStep(s, t))
    case _ =>
      var (q, y) := LocalStep(s.pool, s.th[t], t, a);
      Update(s, q, t, y)
  }

  // ---- the invariant ----

  function Total(s: State): int { s.pool.free + s.pool.clear + s.pool.cached + SumHeld(s.th) }

  ghost predicate BooksOk(s: State) {
    && PoolOk(s.pool)
    && (forall t | 0 <= t < |s.th| :: FieldsOk(s.th[t]))
    && s.pool.free + s.pool.clear == s.pool.unreserved + SumClaims(s.th)
    && s.pool.unsat == SumDebt(s.th)
  }

  ghost predicate LocksOk(s: State) {
    && (forall t | 0 <= t < |s.th| :: HoldsDeficit(s.th[t].pc) <==> s.pool.deficit == Some(t))
    && (forall t | 0 <= t < |s.th| :: HoldsWriter(s.th[t].pc) <==> s.pool.writer == Some(t))
  }

  ghost predicate Sorted(queue: seq<Tid>, th: seq<Thread>) {
    forall i, j | 0 <= i < j < |queue| && queue[i] < |th| && queue[j] < |th| ::
      !Before(th[queue[j]].rq, th[queue[i]].rq)
  }

  ghost predicate QueueOk(s: State) {
    && (forall u | u in s.queue :: u < |s.th| && s.th[u].rq.queued)
    && (forall i, j | 0 <= i < j < |s.queue| :: s.queue[i] != s.queue[j])
    && (forall t | 0 <= t < |s.th| && s.th[t].rq.queued :: t in s.queue)
    && Sorted(s.queue, s.th)
  }

  ghost predicate CarryOk(s: State) {
    forall t | 0 <= t < |s.th| && Carries(s.th[t].pc) ::
      HasHead(s) && s.th[t].carry <= s.th[s.queue[0]].rq.missing
  }

  predicate OwesAt(s: State, t: Tid) {
    t < |s.th| &&
    (|| Owes(s.th[t].pc)
     || (Carries(s.th[t].pc) && HasHead(s) && s.th[t].carry == s.th[s.queue[0]].rq.missing))
  }

  /** A waiter that must leave d pages alone needs no wake-up now, or someone owes one. */
  ghost predicate Wakeful(s: State, d: nat) {
    s.pool.unreserved <= d || exists t: Tid :: OwesAt(s, t)
  }

  ghost predicate WakeOk(s: State) {
    && (HasHead(s) ==> Wakeful(s, s.th[s.queue[0]].rq.dontTouch))
    && (forall t | 0 <= t < |s.th| && s.th[t].pc.Enqueue? :: Wakeful(s, s.th[t].rq.dontTouch))
  }

  ghost predicate Inv(s: State) { BooksOk(s) && LocksOk(s) && QueueOk(s) && CarryOk(s) && WakeOk(s) }

  // ---- local steps keep the invariant ----

  lemma BooksLocal(s: State, t: Tid, q: Pool, y: Thread)
    requires BooksOk(s) && t < |s.th| && Good(s.pool, s.th[t], q, y)
    ensures BooksOk(Update(s, q, t, y)) && Total(Update(s, q, t, y)) == Total(s)
  {
    SumsUpdate(s.th, t, y);
  }

  lemma LocksLocal(s: State, t: Tid, q: Pool, y: Thread)
    requires LocksOk(s) && t < |s.th| && Quiet(s.pool, s.th[t], q, y, t)
    ensures LocksOk(Update(s, q, t, y))
  {
  }

  lemma QueueLocal(s: State, t: Tid, q: Pool, y: Thread)
    requires QueueOk(s) && t < |s.th| && Quiet(s.pool, s.th[t], q, y, t)
    ensures QueueOk(Update(s, q, t, y))
  {
    var s2 := Update(s, q, t, y);
    forall u | 0 <= u < |s.th| && s.th[u].rq.queued ensures s2.th[u].rq == s.th[u].rq { }
  }

  lemma CarryLocal(s: State, t: Tid, q: Pool, y: Thread)
    requires QueueOk(s) && CarryOk(s) && t < |s.th| && Quiet(s.pool, s.th[t], q, y, t)
    ensures CarryOk(Update(s, q, t, y))
  {
    if HasHead(s) { assert s.th[s.queue[0]].rq.queued; }
  }

  /** Only the thread that is about to credit a waiter can have a negative share. */
  lemma DebtSigns(s: State, h: Tid)
    requires BooksOk(s) && LocksOk(s)
    requires s.pool.deficit == Some(h) || (s.pool.deficit == None && h >= |s.th|)
      || (s.pool.deficit.Some? && s.pool.deficit.value >= |s.th| && h >= |s.th|)
    ensures forall u | 0 <= u < |s.th| && u != h :: Debt(s.th[u]) >= 0
  {
    assert forall u | 0 <= u < |s.th| && u != h :: !HoldsDeficit(s.th[u].pc);
  }

  /** A waiter's or enqueuer's share is positive. */
  lemma DebtPositive(x: Thread)
    requires FieldsOk(x) && (x.rq.queued || x.pc.Enqueue?)
    ensures Debt(x) > 0 && (x.rq.queued ==> Debt(x) == x.rq.missing)
  {
  }

  /** While h credits the head waiter, a counter of zero means the credit is all that waiter needs. */
  lemma ZeroWhileCrediting(s: State, h: Tid)
    requires BooksOk(s) && LocksOk(s) && QueueOk(s) && CarryOk(s) && s.pool.unsat == 0
    requires h < |s.th| && s.th[h].pc.WakeGive?
    ensures OwesAt(s, h) && HasHead(s)
  {
    assert HoldsDeficit(s.th[h].pc);
    DebtSigns(s, h);
    var w := s.queue[0];
    assert w in s.queue;
    DebtPositive(s.th[w]);
    DebtDominates(s.th, w, h);
  }

  /** A counter of zero with a waiter queued or about to queue: the lock holder owes the wake-up. */
  lemma ZeroMeansOwed(s: State, d: Tid)
    requires BooksOk(s) && LocksOk(s) && QueueOk(s) && CarryOk(s) && s.pool.unsat == 0
    requires d < |s.th| && (s.th[d].rq.queued || s.th[d].pc.Enqueue?)
    ensures HasHead(s) && exists t: Tid :: OwesAt(s, t) && Carries(s.th[t].pc)
  {
    if h: Tid :| h < |s.th| && s.th[h].pc.WakeGive? {
      ZeroWhileCrediting(s, h);
    } else {
      DebtPositive(s.th[d]);
      DebtDominates(s.th, d, |s.th|);
    }
  }

  lemma OwesKept(s: State, t: Tid, q: Pool, y: Thread, u: Tid)
    requires QueueOk(s) && t < |s.th| && Quiet(s.pool, s.th[t], q, y, t)
    requires OwesAt(s, u) && (u != t || Owes(y.pc) || Carries(y.pc))
    ensures OwesAt(Update(s, q, t, y), u)
  {
    if HasHead(s) { assert s.th[s.queue[0]].rq.queued; }
  }

  lemma WakefulLocal(s: State, t: Tid, q: Pool, y: Thread, d: nat, w: Tid)
    requires BooksOk(s) && LocksOk(s) && QueueOk(s) && CarryOk(s)
    requires t < |s.th| && Quiet(s.pool, s.th[t], q, y, t)
    requires Wakeful(s, d) && w < |s.th| && (s.th[w].rq.queued || s.th[w].pc.Enqueue?)
    ensures Wakeful(Update(s, q, t, y), d)
  {
    var s2 := Update(s, q, t, y);
    if Owes(y.pc) {
      assert OwesAt(s2, t);
    } else if Owes(s.th[t].pc) {
      ZeroMeansOwed(s, w);
      var u: Tid :| OwesAt(s, u) && Carries(s.th[u].pc);
      OwesKept(s, t, q, y, u);
    } else if s.pool.unreserved > d {
      var u: Tid :| OwesAt(s, u);
      OwesKept(s, t, q, y, u);
    }
  }

  lemma WakeLocal(s: State, t: Tid, q: Pool, y: Thread)
    requires BooksOk(s) && LocksOk(s) && QueueOk(s) && CarryOk(s) && WakeOk(s)
    requires t < |s.th| && Quiet(s.pool, s.th[t], q, y, t)
    ensures WakeOk(Update(s, q, t, y))
  {
    var s2 := Update(s, q, t, y);
    if HasHead(s) {
      var h := s.queue[0];
      assert s.th[h].rq.queued && s2.th[h].rq == s.th[h].rq;
      WakefulLocal(s, t, q, y, s.th[h].rq.dontTouch, h);
    }
    forall u | 0 <= u < |s2.th| && s2.th[u].pc.Enqueue? ensures Wakeful(s2, s2.th[u].rq.dontTouch) {
      if u != t { WakefulLocal(s, t, q, y, s.th[u].rq.dontTouch, u); }
    }
  }

  /** An allocating thread always finds its page: its claim keeps the two queues non-empty. */
  lemma ReservedPageExists(s: State, t: Tid)
    requires BooksOk(s) && t < |s.th| && s.th[t].taking == 1
    ensures s.pool.free + s.pool.clear >= 1
  {
    forall u | 0 <= u < |s.th| ensures Claims(s.th[u]) >= 0 { ClaimsNonNegative(s.th[u]); }
    ClaimsNonNegative(s.th[t]);
    ClaimsDominate(s.th, t);
  }

  lemma LocalInv(s: State, t: Tid, a: Action)
    requires Inv(s) && Enabled(s, t, a) && !a.Queue?
    ensures Inv(Do(s, t, a)) && Total(Do(s, t, a)) == Total(s)
  {
    var x := s.th[t];
    var (q, y) := LocalStep(s.pool, x, t, a);
    if a.Alloc? && a.alloc.DoTakeWrite? { ReservedPageExists(s, t); }
    LocalGood(s.pool, x, t, a);
    LocalQuiet(s.pool, x, t, a);
    BooksLocal(s, t, q, y);
    LocksLocal(s, t, q, y);
    QueueLocal(s, t, q, y);
    CarryLocal(s, t, q, y);
    WakeLocal(s, t, q, y);
  }

  // ---- joining the queue ----

  /** The deficit lock is held by t, so no other thread is crediting a waiter or about to queue. */
  lemma HolderAlone(s: State, t: Tid)
    requires LocksOk(s) && t < |s.th| && HoldsDeficit(s.th[t].pc)
    ensures forall u | 0 <= u < |s.th| && u != t :: !HoldsDeficit(s.th[u].pc)
    ensures s.pool.deficit == Some(t)
  {
  }

  lemma EnqueueBooks(s: State, t: Tid)
    requires BooksOk(s) && t < |s.th| && s.th[t].pc.Enqueue?
    ensures BooksOk(EnqueueStep(s, t)) && Total(EnqueueStep(s, t)) == Total(s)
  {
    var y := EnqueueStep(s, t).th[t];
    SumsUpdate(s.th, t, y);
  }

  lemma InsertDistinct(q: seq<Tid>, i: nat, t: Tid)
    requires i <= |q| && t !in q && forall j, k | 0 <= j < k < |q| :: q[j] != q[k]
    ensures forall j, k | 0 <= j < k < |q| + 1 :: Insert(q, i, t)[j] != Insert(q, i, t)[k]
  {
  }

  /** Inserting in front of the first waiter that x precedes keeps the order. */
  lemma InsertSorted(q: seq<Tid>, th: seq<Thread>, t: Tid)
    requires t < |th| && Sorted(q, th) && forall u | u in q :: u < |th|
    ensures Sorted(Insert(q, Position(th[t].rq, q, th), t), th)
  {
    var x := th[t].rq;
    var i := Position(x, q, th);
    var r := Insert(q, i, t);
    forall j, k | 0 <= j < k < |r| && r[j] < |th| && r[k] < |th|
      ensures !Before(th[r[k]].rq, th[r[j]].rq)
    {
      if j == i {
        assert q[i] in q && Before(x, th[q[i]].rq);
        if k > i + 1 { assert !Before(th[q[k - 1]].rq, th[q[i]].rq); }
      }
    }
  }

  lemma SortedSame(q: seq<Tid>, th: seq<Thread>, th2: seq<Thread>)
    requires |th| == |th2| && Sorted(q, th)
    requires forall u | u in q && u < |th| ::
      th2[u].rq.dontTouch == th[u].rq.dontTouch && th2[u].rq.priority == th[u].rq.priority
    ensures Sorted(q, th2)
  {
  }

  /** Joining keeps the queue sorted, without repetition and complete. */
  lemma EnqueueQueue(s: State, t: Tid)
    requires QueueOk(s) && t < |s.th| && !s.th[t].rq.queued
    ensures QueueOk(EnqueueStep(s, t))
  {
    var s2 := EnqueueStep(s, t);
    assert t !in s.queue;
    InsertDistinct(s.queue, Position(s.th[t].rq, s.queue, s.th), t);
    InsertSorted(s.queue, s.th, t);
    SortedSame(s2.queue, s.th, s2.th);
  }

  lemma EnqueueLocks(s: State, t: Tid)
    requires LocksOk(s) && t < |s.th| && s.th[t].pc.Enqueue?
    ensures LocksOk(EnqueueStep(s, t)) && CarryOk(EnqueueStep(s, t))
    ensures forall u | 0 <= u < |s.th| && u != t :: !s.th[u].pc.Enqueue? && !Carries(s.th[u].pc)
  {
    HolderAlone(s, t);
  }

  lemma EnqueueWake(s: State, t: Tid)
    requires LocksOk(s) && QueueOk(s) && WakeOk(s) && t < |s.th| && s.th[t].pc.Enqueue? && !s.th[t].rq.queued
    ensures WakeOk(EnqueueStep(s, t))
  {
    var s2 := EnqueueStep(s, t);
    EnqueueLocks(s, t);
    EnqueueQueue(s, t);
    var h := s2.queue[0];
    assert h in s2.queue;
    assert h == t || h == s.queue[0];
    assert Wakeful(s, s.th[h].rq.dontTouch) by { assert h == t || HasHead(s); }
    if s.pool.unreserved > s.th[h].rq.dontTouch {
      var u: Tid :| OwesAt(s, u);
      assert OwesAt(s2, u);
    }
  }

  lemma EnqueueInv(s: State, t: Tid)
    requires Inv(s) && t < |s.th| && s.th[t].pc.Enqueue?
    ensures Inv(EnqueueStep(s, t)) && Total(EnqueueStep(s, t)) == Total(s)
  {
    assert FieldsOk(s.th[t]);
    EnqueueBooks(s, t);
    EnqueueQueue(s, t);
    EnqueueLocks(s, t);
    EnqueueWake(s, t);
  }

  // ---- leaving the queue after a timeout, or finding the request satisfied ----

  lemma {:induction false} WithoutMembers(q: seq<Tid>, t: Tid)
    requires t in q && forall j, k | 0 <= j < k < |q| :: q[j] != q[k]
    ensures forall u: Tid :: u in Without(q, t) <==> u in q && u != t
    ensures forall j, k | 0 <= j < k < |Without(q, t)| :: Without(q, t)[j] != Without(q, t)[k]
    ensures Without(q, t) != [] ==> Without(q, t)[0] == if q[0] == t then q[1] else q[0]
  {
    TailMembers(q);
    if q[0] != t {
      WithoutMembers(q[1..], t);
      var r := Without(q[1..], t);
      assert Without(q, t) == [q[0]] + r;
      forall k | 0 <= k < |r| ensures r[k] != q[0] { assert r[k] in r; }
    }
  }

  lemma HeadFirst(q: seq<Tid>, th: seq<Thread>)
    requires Sorted(q, th) && q != [] && forall u | u in q :: u < |th|
    ensures q[0] < |th| && forall u | u in q[1..] :: u < |th| && !Before(th[u].rq, th[q[0]].rq)
  {
    assert q[0] in q;
    forall u | u in q[1..] ensures u < |th| && !Before(th[u].rq, th[q[0]].rq) {
      var i :| 0 <= i < |q| - 1 && q[1..][i] == u;
      assert q[i + 1] == u && u in q;
    }
  }

  lemma ConsSorted(h: Tid, r: seq<Tid>, th: seq<Thread>)
    requires Sorted(r, th) && h < |th| && forall u | u in r :: u < |th| && !Before(th[u].rq, th[h].rq)
    ensures Sorted([h] + r, th)
  {
    var q := [h] + r;
    forall i, j | 0 <= i < j < |q| && q[i] < |th| && q[j] < |th| ensures !Before(th[q[j]].rq, th[q[i]].rq) {
      assert q[j] == r[j - 1] && r[j - 1] in r;
      if i > 0 { assert q[i] == r[i - 1]; }
    }
  }

  lemma {:induction false} WithoutSorted(q: seq<Tid>, t: Tid, th: seq<Thread>)
    requires Sorted(q, th) && forall u | u in q :: u < |th|
    ensures Sorted(Without(q, t), th)
    ensures forall u | u in Without(q, t) :: u in q
  {
    if q != [] {
      TailSorted(q, th);
      HeadFirst(q, th);
      if q[0] != t {
        WithoutSorted(q[1..], t, th);
        ConsSorted(q[0], Without(q[1..], t), th);
      }
    }
  }

  lemma CheckQueuedGood(p: Pool, x: Thread, y: Thread, q: Pool)
    requires FieldsOk(x) && x.pc.CheckQueued? && PoolOk(p)
    requires if x.rq.queued then q == p && y == x.(pc := SubUnsat, rq := x.rq.(queued := false))
             else q == p.(deficit := None) && y == Satisfied(x)
    ensures Good(p, x, q, y)
  {
  }

  lemma CheckQueuedBooks(s: State, t: Tid)
    requires BooksOk(s) && t < |s.th| && s.th[t].pc.CheckQueued?
    ensures BooksOk(CheckQueuedStep(s, t)) && Total(CheckQueuedStep(s, t)) == Total(s)
  {
    var s2 := CheckQueuedStep(s, t);
    CheckQueuedGood(s.pool, s.th[t], s2.th[t], s2.pool);
    BooksLocal(s, t, s2.pool, s2.th[t]);
  }

  lemma CheckQueuedQueue(s: State, t: Tid)
    requires QueueOk(s) && t < |s.th| && s.th[t].pc.CheckQueued?
    ensures QueueOk(CheckQueuedStep(s, t))
  {
    var s2 := CheckQueuedStep(s, t);
    if s.th[t].rq.queued {
      WithoutMembers(s.queue, t);
      WithoutSorted(s.queue, t, s.th);
    }
    SortedSame(s2.queue, s.th, s2.th);
  }

  lemma CheckQueuedLocks(s: State, t: Tid)
    requires LocksOk(s) && t < |s.th| && s.th[t].pc.CheckQueued?
    ensures LocksOk(CheckQueuedStep(s, t))
  {
    HolderAlone(s, t);
  }

  /** The head of the queue after t has left it may touch no more pages than the old head. */
  lemma NextHead(s: State, t: Tid)
    requires QueueOk(s) && t < |s.th| && s.th[t].pc.CheckQueued? && HasHead(CheckQueuedStep(s, t))
    ensures HasHead(s)
    ensures var h := CheckQueuedStep(s, t).queue[0];
      h != t && s.th[h].rq.dontTouch >= s.th[s.queue[0]].rq.dontTouch
  {
    if s.th[t].rq.queued {
      WithoutMembers(s.queue, t);
      assert s.queue[0] in s.queue && Without(s.queue, t)[0] in Without(s.queue, t);
      if s.queue[0] == t { assert !Before(s.th[s.queue[1]].rq, s.th[s.queue[0]].rq); }
    } else {
      assert s.queue[0] in s.queue;
    }
  }

  lemma CheckQueuedWake(s: State, t: Tid)
    requires LocksOk(s) && QueueOk(s) && WakeOk(s) && t < |s.th| && s.th[t].pc.CheckQueued?
    ensures WakeOk(CheckQueuedStep(s, t)) && CarryOk(CheckQueuedStep(s, t))
  {
    var s2 := CheckQueuedStep(s, t);
    HolderAlone(s, t);
    if HasHead(s2) {
      NextHead(s, t);
      if s.pool.unreserved > s.th[s.queue[0]].rq.dontTouch {
        var u: Tid :| OwesAt(s, u);
        assert OwesAt(s2, u);
      }
    }
  }

  // ---- the wake-up loop ----

  lemma WakeLoopInv(s: State, t: Tid)
    requires Inv(s) && t < |s.th| && s.th[t].pc.WakeLoop?
    ensures Inv(WakeLoopStep(s, t)) && Total(WakeLoopStep(s, t)) == Total(s)
  {
    var s2 := WakeLoopStep(s, t);
    HolderAlone(s, t);
    assert FieldsOk(s.th[t]);
    if HasHead(s) { assert FieldsOk(s.th[s.queue[0]]) && s.queue[0] in s.queue; }
    WakeLoopBooks(s, t);
    WakeLoopQueue(s, t);
    WakeLoopLocks(s, t);
    WakeLoopWake(s, t);
  }

  lemma WakeLoopGood(p: Pool, x: Thread, r: nat)
    requires FieldsOk(x) && x.pc.WakeLoop? && PoolOk(p) && r <= p.unreserved
    ensures Good(p, x, p.(deficit := None), x.(pc := Return(x)))
    ensures r > 0 ==> Good(p, x, p.(unreserved := p.unreserved - r), x.(pc := WakeSub, carry := r))
  {
  }

  lemma WakeLoopBooks(s: State, t: Tid)
    requires BooksOk(s) && t < |s.th| && s.th[t].pc.WakeLoop?
    ensures BooksOk(WakeLoopStep(s, t)) && Total(WakeLoopStep(s, t)) == Total(s)
  {
    var s2 := WakeLoopStep(s, t);
    var r := if HasHead(s) then
               Amount(s.pool.unreserved, s.th[s.queue[0]].rq.missing, s.th[s.queue[0]].rq.dontTouch) else 0;
    WakeLoopGood(s.pool, s.th[t], r);
    BooksLocal(s, t, s2.pool, s2.th[t]);
  }

  lemma WakeLoopQueue(s: State, t: Tid)
    requires QueueOk(s) && t < |s.th| && s.th[t].pc.WakeLoop? && !s.th[t].rq.queued
    ensures QueueOk(WakeLoopStep(s, t))
  {
    SortedSame(s.queue, s.th, WakeLoopStep(s, t).th);
  }

  lemma WakeLoopLocks(s: State, t: Tid)
    requires QueueOk(s) && LocksOk(s) && t < |s.th| && s.th[t].pc.WakeLoop? && !s.th[t].rq.queued
    ensures LocksOk(WakeLoopStep(s, t)) && CarryOk(WakeLoopStep(s, t))
  {
    HolderAlone(s, t);
    LocksFrom(s, WakeLoopStep(s, t), t);
    if HasHead(s) { assert s.queue[0] in s.queue; }
  }

  lemma WakeLoopWake(s: State, t: Tid)
    requires QueueOk(s) && LocksOk(s) && t < |s.th| && s.th[t].pc.WakeLoop? && !s.th[t].rq.queued
    requires HasHead(s) ==> s.th[s.queue[0]].rq.missing > 0
    ensures WakeOk(WakeLoopStep(s, t))
  {
    var s2 := WakeLoopStep(s, t);
    HolderAlone(s, t);
    if HasHead(s) {
      var h := s.queue[0];
      assert h in s.queue && h != t;
      var r := Amount(s.pool.unreserved, s.th[h].rq.missing, s.th[h].rq.dontTouch);
      if r == s.th[h].rq.missing { assert OwesAt(s2, t); }
    }
  }

  /** Replacing two threads at once. */
  lemma BooksTwo(s: State, h: Tid, w: Thread, q: Pool, t: Tid, y: Thread)
    requires BooksOk(s) && h < |s.th| && t < |s.th| && h != t && PoolOk(q) && FieldsOk(w) && FieldsOk(y)
    requires q.free == s.pool.free && q.clear == s.pool.clear && q.cached == s.pool.cached
      && q.unreserved == s.pool.unreserved && q.unsat == s.pool.unsat
    requires Claims(w) + Claims(y) == Claims(s.th[h]) + Claims(s.th[t])
    requires Held(w) + Held(y) == Held(s.th[h]) + Held(s.th[t])
    requires Debt(w) + Debt(y) == Debt(s.th[h]) + Debt(s.th[t])
    ensures BooksOk(Update(Update(s, s.pool, h, w), q, t, y))
    ensures Total(Update(Update(s, s.pool, h, w), q, t, y)) == Total(s)
  {
    SumsUpdate(s.th, h, w);
    SumsUpdate(s.th[h := w], t, y);
  }

  lemma WakeGiveGood(x: Thread, w: Thread, w2: Thread, y: Thread)
    requires FieldsOk(x) && x.pc.WakeGive? && FieldsOk(w) && w.rq.queued && x.carry <= w.rq.missing
    requires w2.rq.missing == w.rq.missing - x.carry && w2.rq.queued == (w2.rq.missing > 0)
    requires w2 == w.(rq := w.rq.(missing := w2.rq.missing, queued := w2.rq.queued))
    requires y == x.(pc := if w2.rq.queued then Return(x) else WakeLoop, carry := 0)
    ensures FieldsOk(w2) && FieldsOk(y)
    ensures Claims(w2) + Claims(y) == Claims(w) + Claims(x)
    ensures Held(w2) + Held(y) == Held(w) + Held(x)
    ensures Debt(w2) + Debt(y) == Debt(w) + Debt(x)
  {
  }

  lemma WakeGiveBooks(s: State, t: Tid)
    requires BooksOk(s) && CarryOk(s) && QueueOk(s) && t < |s.th| && s.th[t].pc.WakeGive?
    ensures BooksOk(WakeGiveStep(s, t)) && Total(WakeGiveStep(s, t)) == Total(s)
  {
    var s2 := WakeGiveStep(s, t);
    var h := s.queue[0];
    assert h in s.queue && FieldsOk(s.th[h]) && FieldsOk(s.th[t]);
    assert h != t;
    WakeGiveGood(s.th[t], s.th[h], s2.th[h], s2.th[t]);
    BooksTwo(s, h, s2.th[h], s2.pool, t, s2.th[t]);
  }

  lemma TailSorted(q: seq<Tid>, th: seq<Thread>)
    requires Sorted(q, th) && q != []
    ensures Sorted(q[1..], th)
  {
    var tail := q[1..];
    forall i, j | 0 <= i < j < |tail| && tail[i] < |th| && tail[j] < |th|
      ensures !Before(th[tail[j]].rq, th[tail[i]].rq)
    {
      assert tail[i] == q[i + 1] && tail[j] == q[j + 1];
    }
  }

  lemma TailMembers(q: seq<Tid>)
    requires q != [] && forall j, k | 0 <= j < k < |q| :: q[j] != q[k]
    ensures forall u: Tid :: u in q[1..] <==> u in q && u != q[0]
    ensures forall j, k | 0 <= j < k < |q[1..]| :: q[1..][j] != q[1..][k]
  {
    assert q == [q[0]] + q[1..];
  }

  lemma WakeGiveShape(s: State, t: Tid)
    requires BooksOk(s) && QueueOk(s) && CarryOk(s) && t < |s.th| && s.th[t].pc.WakeGive?
    ensures HasHead(s) && s.queue[0] != t && s.queue[0] in s.queue
    ensures var s2, h := WakeGiveStep(s, t), s.queue[0];
      && |s2.th| == |s.th| && !s.th[t].rq.queued && s2.th[t].rq == s.th[t].rq
      && (forall u | 0 <= u < |s.th| && u != h && u != t :: s2.th[u] == s.th[u])
      && s2.th[h].pc == s.th[h].pc && s2.th[h].rq.dontTouch == s.th[h].rq.dontTouch
      && s2.th[h].rq.priority == s.th[h].rq.priority
      && (if s.th[t].carry < s.th[h].rq.missing then
            s2.queue == s.queue && s2.th[h].rq.queued && s2.th[t].pc == Return(s.th[t])
            && s2.pool == s.pool.(deficit := None)
          else s2.queue == s.queue[1..] && !s2.th[h].rq.queued && s2.th[t].pc.WakeLoop? && s2.pool == s.pool)
  {
    var h := s.queue[0];
    assert h in s.queue && FieldsOk(s.th[h]) && FieldsOk(s.th[t]);
  }

  lemma WakeGiveQueue(s: State, t: Tid)
    requires BooksOk(s) && QueueOk(s) && CarryOk(s) && t < |s.th| && s.th[t].pc.WakeGive?
    ensures QueueOk(WakeGiveStep(s, t))
  {
    hide WakeGiveStep, BooksOk, CarryOk, Sorted;
    WakeGiveShape(s, t);
    TailMembers(s.queue);
    TailSorted(s.queue, s.th);
    SortedSame(WakeGiveStep(s, t).queue, s.th, WakeGiveStep(s, t).th);
  }

  /** The locks stay consistent if only t moved, and t keeps or drops what it held. */
  lemma LocksFrom(s: State, s2: State, t: Tid)
    requires LocksOk(s) && t < |s.th| && |s2.th| == |s.th| && HoldsDeficit(s.th[t].pc)
    requires forall u | 0 <= u < |s.th| && u != t :: s2.th[u].pc == s.th[u].pc
    requires s2.pool.writer == s.pool.writer && HoldsWriter(s2.th[t].pc) == HoldsWriter(s.th[t].pc)
    requires s2.pool.deficit == if HoldsDeficit(s2.th[t].pc) then s.pool.deficit else None
    ensures LocksOk(s2)
  {
  }

  lemma WakeGiveLocks(s: State, t: Tid)
    requires BooksOk(s) && QueueOk(s) && LocksOk(s) && CarryOk(s) && t < |s.th| && s.th[t].pc.WakeGive?
    ensures LocksOk(WakeGiveStep(s, t))
  {
    hide WakeGiveStep, BooksOk, QueueOk, CarryOk, LocksOk;
    WakeGiveShape(s, t);
    LocksFrom(s, WakeGiveStep(s, t), t);
  }

  lemma WakeGiveCarry(s: State, t: Tid)
    requires BooksOk(s) && QueueOk(s) && LocksOk(s) && CarryOk(s) && t < |s.th| && s.th[t].pc.WakeGive?
    ensures CarryOk(WakeGiveStep(s, t))
    ensures forall u | 0 <= u < |s.th| && u != t :: !s.th[u].pc.Enqueue? && !Carries(s.th[u].pc)
  {
    HolderAlone(s, t);
    WakeGiveShape(s, t);
  }

  lemma WakeGiveWake(s: State, t: Tid)
    requires Inv(s) && t < |s.th| && s.th[t].pc.WakeGive?
    ensures WakeOk(WakeGiveStep(s, t))
  {
    var s2 := WakeGiveStep(s, t);
    WakeGiveShape(s, t);
    WakeGiveCarry(s, t);
    var h := s.queue[0];
    if s2.th[t].pc.WakeLoop? {
      assert OwesAt(s2, t);
    } else {
      assert !OwesAt(s, t);
      if s.pool.unreserved > s.th[h].rq.dontTouch {
        var u: Tid :| OwesAt(s, u);
        assert OwesAt(s2, u);
      }
    }
  }

  /** Every step of every thread keeps the invariant and the number of pages. */
  lemma StepInv(s: State, t: Tid, a: Action)
    requires Inv(s) && Enabled(s, t, a)
    ensures Inv(Do(s, t, a)) && Total(Do(s, t, a)) == Total(s)
  {
    if !a.Queue? {
      LocalInv(s, t, a);
    } else {
      match a.queue
      case DoEnqueue => EnqueueInv(s, t);
      case DoCheckQueued => CheckQueuedBooks(s, t); CheckQueuedQueue(s, t); CheckQueuedLocks(s, t);
        CheckQueuedWake(s, t);
      case DoWakeLoop => WakeLoopInv(s, t);
      case DoWakeGive => WakeGiveBooks(s, t); WakeGiveQueue(s, t); WakeGiveLocks(s, t); WakeGiveCarry(s, t);
        WakeGiveWake(s, t);
    }
  }

  // ---- whole runs ----

  /** Boot is over: every free page is unreserved, nothing is running. */
  ghost predicate Init(s: State) {
    && PoolOk(s.pool) && s.queue == [] && s.pool.unsat == 0
    && s.pool.deficit == None && s.pool.writer == None
    && s.pool.free + s.pool.clear == s.pool.unreserved
    && forall t | 0 <= t < |s.th| ::
         var x := s.th[t];
         x.pc == Idle && x.count == 0 && !x.rq.queued && x.loose == 0 && x.carry == 0 && x.taking == 0
         && x.limbo == 0 && x.run == NO_RUN
  }

  lemma {:induction false} IdleSums(th: seq<Thread>)
    requires forall t | 0 <= t < |th| :: Claims(th[t]) == 0 && Debt(th[t]) == 0
    ensures SumClaims(th) == 0 && SumDebt(th) == 0
  {
    if th != [] { IdleSums(th[..|th| - 1]); }
  }

  lemma InitInv(s: State)
    requires Init(s)
    ensures Inv(s)
  {
    IdleSums(s.th);
  }

  datatype Event = Event(t: Tid, a: Action)

  /** A run: any threads, any requests, any interleaving of their atomic steps. */
  ghost predicate IsRun(run: seq<State>, events: seq<Event>) {
    && |run| == |events| + 1
    && Init(run[0])
    && forall i | 0 <= i < |events| ::
         && Enabled(run[i], events[i].t, events[i].a)
         && run[i + 1] == Do(run[i], events[i].t, events[i].a)
  }

  lemma {:induction false} RunInv(run: seq<State>, events: seq<Event>, k: nat)
    requires IsRun(run, events) && k < |run|
    ensures Inv(run[k]) && Total(run[k]) == Total(run[0])
  {
    hide Inv, Init, Do, Enabled, Total;
    if k == 0 {
      InitInv(run[0]);
    } else {
      RunInv(run, events, k - 1);
      StepInv(run[k - 1], events[k - 1].t, events[k - 1].a);
    }
  }

  /**
    A reserved page always exists: in every state of every run the free and
    clear queues hold exactly the unreserved pages plus everybody's claims, no
    page is lost, and the "Had reserved page, but there is none!" panic has not
    happened.
  */
  lemma ReservationWarranty(run: seq<State>, events: seq<Event>, k: nat)
    requires IsRun(run, events) && k < |run|
    ensures run[k].pool.free + run[k].pool.clear == run[k].pool.unreserved + SumClaims(run[k].th)
    ensures run[k].pool.unreserved >= 0
    ensures forall t | 0 <= t < |run[k].th| :: Claims(run[k].th[t]) >= 0
    ensures !run[k].pool.panicked
    ensures Total(run[k]) == Total(run[0])
  {
    RunInv(run, events, k);
    forall t | 0 <= t < |run[k].th| ensures Claims(run[k].th[t]) >= 0 { ClaimsNonNegative(run[k].th[t]); }
  }

  /**
    No lost wake-up: the unsatisfied counter is exact, the waiter queue is
    sorted and free of repetition, and whenever it is not empty either the
    first waiter may not touch the pages that are free or some thread will
    still run the wake-up loop.
  */
  lemma NoLostWakeUp(run: seq<State>, events: seq<Event>, k: nat)
    requires IsRun(run, events) && k < |run|
    ensures run[k].pool.unsat == SumDebt(run[k].th)
    ensures QueueOk(run[k])
    ensures run[k].queue != [] ==> HasHead(run[k])
    ensures HasHead(run[k]) ==>
      || run[k].pool.unreserved <= run[k].th[run[k].queue[0]].rq.dontTouch
      || exists t: Tid :: OwesAt(run[k], t)
  {
    RunInv(run, events, k);
    var s := run[k];
    if s.queue != [] {
      assert s.queue[0] in s.queue && HasHead(s);
    }
  }

  /** Nobody is stuck: once all threads are idle or asleep, no sleeping reserver could take a single free page. */
  lemma NobodyStuck(run: seq<State>, events: seq<Event>, k: nat, w: Tid)
    requires IsRun(run, events) && k < |run| && w in run[k].queue
    requires forall t | 0 <= t < |run[k].th| :: run[k].th[t].pc.Idle? || run[k].th[t].pc.Waiting?
    ensures w < |run[k].th| && run[k].pool.unreserved <= run[k].th[w].rq.dontTouch
  {
    hide QueueOk, IsRun, OwesAt, HasHead;
    NoLostWakeUp(run, events, k);
    QuietQueue(run[k], w);
  }

  lemma QuietQueue(s: State, w: Tid)
    requires QueueOk(s) && HasHead(s) && Wakeful(s, s.th[s.queue[0]].rq.dontTouch) && w in s.queue
    requires forall t | 0 <= t < |s.th| :: s.th[t].pc.Idle? || s.th[t].pc.Waiting?
    ensures w < |s.th| && s.pool.unreserved <= s.th[w].rq.dontTouch
  {
    hide Sorted;
    assert forall t: Tid :: !OwesAt(s, t);
    HeadFirst(s.queue, s.th);
    assert s.queue == [s.queue[0]] + s.queue[1..];
  }
}
