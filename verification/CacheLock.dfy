/**
  The lock of a VM cache (cache/vm_cache_lock.cpp): an atomic counter gives the
  fast path, a spin lock guards a FIFO of blocked threads and a `released`
  token, and a contended unlock hands the lock over instead of freeing it.

  The protocol is a state machine over any number of threads, one step per
  atomic access.  Everything between taking and dropping the spin lock touches
  only data that the spin lock guards, so it is one step.
*/
module CacheLock {
  import opened Options

  type Tid = nat

  /** Where a thread is inside the lock's code. */
  datatype Pc =
    | Outside          // not in any lock operation and not the owner
    | Acquired         // counter went 0 -> -1, `holder` not yet written
    | Contending       // counter was already negative, spin lock not yet taken
    | SlowPath         // in _LockInternal with the spin lock
    | Queued           // in the waiter list, blocked
    | Woken            // unblocked by the previous owner
    | Holding          // the operation returned 0: this thread owns the lock
    | Releasing        // `holder` cleared, counter not yet incremented
    | HandOver         // contended unlock, spin lock not yet taken
    | HandOverLocked   // contended unlock with the spin lock
    | Switching        // SwitchFrom*: spin lock taken, counter not yet decremented
    | SwitchAcquired   // SwitchFrom*: counter went 0 -> -1, spin lock still held

  /** What a program counter means for the accounting. */
  datatype Role = Exclusive | Handing | Contender | Bystander

  function RoleOf(p: Pc): Role {
    match p
    case Acquired | SwitchAcquired | Woken | Holding | Releasing => Exclusive
    case HandOver | HandOverLocked => Handing
    case Contending | SlowPath | Queued => Contender
    case Outside | Switching => Bystander
  }

  predicate HoldsSpin(p: Pc) {
    p.SlowPath? || p.HandOverLocked? || p.Switching? || p.SwitchAcquired?
  }

  /** The lock's fields, every thread's program counter, and the history. */
  datatype State = State(
    count: int,
    holder: Option<Tid>,
    released: bool,
    waiters: seq<Tid>,
    spin: Option<Tid>,
    pc: seq<Pc>,
    enqueued: seq<Tid>,   // history: every thread that ever joined the queue
    granted: seq<Tid>,    // history: every thread that got the lock from the queue
    contended: nat,       // history: unlocks that saw a contender
    tokensSet: nat,       // history: times `released` was set
    tokensTaken: nat      // history: times `released` was consumed
  )

  datatype Action =
    | Lock | TryLock | SwitchLock
    | SetHolder | TakeSpin | EnterSlowPath | SwitchDecrement
    | Resume | ClearHolder | Increment | PassOn

  ghost predicate Init(s: State) {
    && s.count == 0 && s.holder == None && !s.released && s.waiters == [] && s.spin == None
    && (forall t | 0 <= t < |s.pc| :: s.pc[t] == Outside)
    && s.enqueued == [] && s.granted == [] && s.contended == 0 && s.tokensSet == 0 && s.tokensTaken == 0
  }

  predicate Enabled(s: State, t: Tid, a: Action) {
    t < |s.pc| &&
    match a
    case Lock => s.pc[t] == Outside
    case TryLock => s.pc[t] == Outside
    case SwitchLock => s.pc[t] == Outside && s.spin == None
    case SetHolder => s.pc[t] == Acquired || s.pc[t] == SwitchAcquired
    case TakeSpin => s.spin == None && (s.pc[t] == Contending || s.pc[t] == HandOver)
    case EnterSlowPath => s.pc[t] == SlowPath
    case SwitchDecrement => s.pc[t] == Switching
    case Resume => s.pc[t] == Woken
    case ClearHolder => s.pc[t] == Holding
    case Increment => s.pc[t] == Releasing
    case PassOn => s.pc[t] == HandOverLocked
  }

  /** thread_unblock: the blocked thread w runs again. */
  function Unblock(pc: seq<Pc>, w: Tid): (r: seq<Pc>)
    ensures |r| == |pc|
  {
    if w < |pc| then pc[w := Woken] else pc
  }

  /** One atomic step of thread t. */
  function Do(s: State, t: Tid, a: Action): State
    requires Enabled(s, t, a)
  {
    match a
    case Lock =>
      s.(count := s.count - 1, pc := s.pc[t := if s.count < 0 then Contending else Acquired])
    case TryLock =>
      if s.count == 0 then s.(count := -1, pc := s.pc[t := Acquired]) else s
    case SwitchLock =>
      s.(spin := Some(t), pc := s.pc[t := Switching])
    case SwitchDecrement =>
      s.(count := s.count - 1, pc := s.pc[t := if s.count < 0 then SlowPath else SwitchAcquired])
    case SetHolder =>
      s.(holder := Some(t), pc := s.pc[t := Holding],
         spin := if s.pc[t] == SwitchAcquired then None else s.spin)
    case TakeSpin =>
      s.(spin := Some(t), pc := s.pc[t := if s.pc[t] == Contending then SlowPath else HandOverLocked])
    case EnterSlowPath =>
      if s.released then
        s.(released := false, holder := Some(t), pc := s.pc[t := Holding], spin := None,
           tokensTaken := s.tokensTaken + 1)
      else
        s.(waiters := s.waiters + [t], pc := s.pc[t := Queued], spin := None,
           enqueued := s.enqueued + [t])
    case Resume =>
      s.(pc := s.pc[t := Holding])
    case ClearHolder =>
      s.(holder := None, pc := s.pc[t := Releasing])
    case Increment =>
      if s.count < -1 then
        s.(count := s.count + 1, pc := s.pc[t := HandOver], contended := s.contended + 1)
      else
        s.(count := s.count + 1, pc := s.pc[t := Outside])
    case PassOn =>
      if s.waiters != [] then
        var w := s.waiters[0];
        s.(waiters := s.waiters[1..], holder := Some(w), spin := None,
           pc := Unblock(s.pc[t := Outside], w), granted := s.granted + [w])
      else
        s.(released := true, spin := None, pc := s.pc[t := Outside], tokensSet := s.tokensSet + 1)
  }

  function Count(pc: seq<Pc>, r: Role): nat {
    if pc == [] then 0
    else Count(pc[..|pc| - 1], r) + (if RoleOf(pc[|pc| - 1]) == r then 1 else 0)
  }

  function Is(p: Pc, r: Role): nat { if RoleOf(p) == r then 1 else 0 }

  lemma {:induction false} CountUpdate(pc: seq<Pc>, t: Tid, p: Pc, r: Role)
    requires t < |pc|
    ensures Count(pc[t := p], r) == Count(pc, r) - Is(pc[t], r) + Is(p, r)
  {
    var n := |pc| - 1;
    if t == n {
      assert pc[t := p][..n] == pc[..n];
    } else {
      assert pc[t := p][..n] == pc[..n][t := p];
      CountUpdate(pc[..n], t, p, r);
    }
  }

  lemma {:induction false} CountAtLeast(pc: seq<Pc>, t: Tid, r: Role)
    requires t < |pc| && RoleOf(pc[t]) == r
    ensures Count(pc, r) >= 1
  {
    var n := |pc| - 1;
    if t < n { CountAtLeast(pc[..n], t, r); }
  }

  lemma {:induction false} CountTwo(pc: seq<Pc>, t: Tid, u: Tid, r: Role)
    requires t < u < |pc| && RoleOf(pc[t]) == r && RoleOf(pc[u]) == r
    ensures Count(pc, r) >= 2
  {
    var n := |pc| - 1;
    if u == n { CountAtLeast(pc[..n], t, r); } else { CountTwo(pc[..n], t, u, r); }
  }

  lemma {:induction false} CountWitness(pc: seq<Pc>, r: Role) returns (t: Tid)
    requires Count(pc, r) >= 1
    ensures t < |pc| && RoleOf(pc[t]) == r
  {
    var n := |pc| - 1;
    if RoleOf(pc[n]) == r { t := n; } else { t := CountWitness(pc[..n], r); }
  }

  lemma {:induction false} CountNone(pc: seq<Pc>, r: Role)
    requires forall t | 0 <= t < |pc| :: RoleOf(pc[t]) != r
    ensures Count(pc, r) == 0
  {
    if pc != [] { CountNone(pc[..|pc| - 1], r); }
  }

  lemma {:induction false} CountBound(pc: seq<Pc>, r: Role, q: Role)
    requires r != q
    ensures Count(pc, r) + Count(pc, q) <= |pc|
  {
    if pc != [] { CountBound(pc[..|pc| - 1], r, q); }
  }

  function Token(s: State): nat { if s.released then 1 else 0 }

  /** The counter: owner (or acquirer) plus contenders; one owner or token exactly when needed. */
  ghost predicate CounterOk(s: State) {
    var ex, ho, co := Count(s.pc, Exclusive), Count(s.pc, Handing), Count(s.pc, Contender);
    && s.count == -(ex + co)
    && ex + ho + Token(s) == (if ex + co > 0 then 1 else 0)
  }

  ghost predicate QueueOk(s: State) {
    && (forall i, j | 0 <= i < j < |s.waiters| :: s.waiters[i] != s.waiters[j])
    && (forall i | 0 <= i < |s.waiters| :: s.waiters[i] < |s.pc| && s.pc[s.waiters[i]] == Queued)
    && (forall t | 0 <= t < |s.pc| && s.pc[t] == Queued :: t in s.waiters)
    && (s.released ==> s.waiters == [])
    && s.enqueued == s.granted + s.waiters
  }

  ghost predicate HolderOk(s: State) {
    && (forall t | 0 <= t < |s.pc| :: (s.pc[t] == Holding || s.pc[t] == Woken) <==> s.holder == Some(t))
    && (s.holder.Some? ==> s.holder.value < |s.pc|)
  }

  ghost predicate SpinOk(s: State) {
    && (forall t | 0 <= t < |s.pc| :: HoldsSpin(s.pc[t]) <==> s.spin == Some(t))
    && (s.spin.Some? ==> s.spin.value < |s.pc|)
  }

  ghost predicate HistoryOk(s: State) {
    && s.contended == |s.granted| + s.tokensSet + Count(s.pc, Handing)
    && s.tokensSet == s.tokensTaken + Token(s)
  }

  ghost predicate Inv(s: State) {
    CounterOk(s) && QueueOk(s) && HolderOk(s) && SpinOk(s) && HistoryOk(s)
  }

  lemma InitInv(s: State)
    requires Init(s)
    ensures Inv(s)
  {
    CountNone(s.pc, Exclusive);
    CountNone(s.pc, Handing);
    CountNone(s.pc, Contender);
  }

  /** The owner role is held by one thread: anyone in it excludes everyone else. */
  lemma OwnerAlone(s: State, t: Tid)
    requires Inv(s) && t < |s.pc| && RoleOf(s.pc[t]) == Exclusive
    ensures forall u | 0 <= u < |s.pc| && u != t :: RoleOf(s.pc[u]) != Exclusive
    ensures Count(s.pc, Exclusive) == 1 && Count(s.pc, Handing) == 0 && !s.released
    ensures forall u | 0 <= u < |s.pc| :: RoleOf(s.pc[u]) != Handing
  {
    CountAtLeast(s.pc, t, Exclusive);
    forall u | 0 <= u < |s.pc| && u != t ensures RoleOf(s.pc[u]) != Exclusive {
      if RoleOf(s.pc[u]) == Exclusive {
        if t < u { CountTwo(s.pc, t, u, Exclusive); } else { CountTwo(s.pc, u, t, Exclusive); }
      }
    }
    forall u | 0 <= u < |s.pc| ensures RoleOf(s.pc[u]) != Handing {
      if RoleOf(s.pc[u]) == Handing { CountAtLeast(s.pc, u, Handing); }
    }
  }

  /** A pending hand-over (by a thread or by the token) means nobody owns the lock. */
  lemma NoOwner(s: State)
    requires Inv(s) && Count(s.pc, Exclusive) == 0
    ensures s.holder == None
    ensures forall u | 0 <= u < |s.pc| :: RoleOf(s.pc[u]) != Exclusive
  {
    forall u | 0 <= u < |s.pc| ensures RoleOf(s.pc[u]) != Exclusive {
      if RoleOf(s.pc[u]) == Exclusive { CountAtLeast(s.pc, u, Exclusive); }
    }
    if s.holder.Some? {
      CountAtLeast(s.pc, s.holder.value, Exclusive);
    }
  }

  /** The three tallies after moving thread t to p. */
  lemma Tallies(pc: seq<Pc>, t: Tid, p: Pc)
    requires t < |pc|
    ensures Count(pc[t := p], Exclusive) == Count(pc, Exclusive) - Is(pc[t], Exclusive) + Is(p, Exclusive)
    ensures Count(pc[t := p], Handing) == Count(pc, Handing) - Is(pc[t], Handing) + Is(p, Handing)
    ensures Count(pc[t := p], Contender) == Count(pc, Contender) - Is(pc[t], Contender) + Is(p, Contender)
  {
    CountUpdate(pc, t, p, Exclusive);
    CountUpdate(pc, t, p, Handing);
    CountUpdate(pc, t, p, Contender);
  }

  ghost predicate HeadQueued(s: State) {
    s.waiters != [] ==> s.waiters[0] < |s.pc| && s.pc[s.waiters[0]] == Queued
  }

  lemma CounterEnter(s: State, t: Tid, a: Action)
    requires CounterOk(s) && HistoryOk(s) && Enabled(s, t, a)
    requires a in {Lock, TryLock, SwitchLock, SwitchDecrement, TakeSpin}
    ensures CounterOk(Do(s, t, a)) && HistoryOk(Do(s, t, a))
  {
    var p := Do(s, t, a).pc[t];
    assert Do(s, t, a).pc == s.pc[t := p];
    Tallies(s.pc, t, p);
  }

  lemma CounterLeave(s: State, t: Tid, a: Action)
    requires CounterOk(s) && HistoryOk(s) && Enabled(s, t, a)
    requires a in {SetHolder, EnterSlowPath, Resume, ClearHolder, Increment}
    ensures CounterOk(Do(s, t, a)) && HistoryOk(Do(s, t, a))
  {
    CountAtLeast(s.pc, t, RoleOf(s.pc[t]));
    var p := Do(s, t, a).pc[t];
    assert Do(s, t, a).pc == s.pc[t := p];
    Tallies(s.pc, t, p);
  }

  lemma CounterPassOn(s: State, t: Tid)
    requires CounterOk(s) && HistoryOk(s) && Enabled(s, t, PassOn) && HeadQueued(s)
    ensures CounterOk(Do(s, t, PassOn)) && HistoryOk(Do(s, t, PassOn))
  {
    CountAtLeast(s.pc, t, Handing);
    Tallies(s.pc, t, Outside);
    if s.waiters != [] { Tallies(s.pc[t := Outside], s.waiters[0], Woken); }
  }

  lemma SpinStep(s: State, t: Tid, a: Action)
    requires SpinOk(s) && Enabled(s, t, a) && HeadQueued(s)
    ensures SpinOk(Do(s, t, a))
  {
  }

  /** An owner's steps: nobody else is in the owner role. */
  lemma HolderByOwner(s: State, t: Tid, a: Action)
    requires HolderOk(s) && Enabled(s, t, a) && a in {SetHolder, Resume, ClearHolder, Increment}
    requires RoleOf(s.pc[t]) == Exclusive
    requires forall u | 0 <= u < |s.pc| && u != t :: RoleOf(s.pc[u]) != Exclusive
    ensures HolderOk(Do(s, t, a))
  {
    assert forall u | 0 <= u < |s.pc| && u != t :: s.holder != Some(u);
  }

  lemma HolderByHandOver(s: State, t: Tid, a: Action)
    requires HolderOk(s) && Enabled(s, t, a) && a in {PassOn, EnterSlowPath} && HeadQueued(s)
    requires a == PassOn || s.released ==> s.holder == None
    ensures HolderOk(Do(s, t, a))
  {
  }

  lemma HolderElse(s: State, t: Tid, a: Action)
    requires HolderOk(s) && Enabled(s, t, a) && a in {Lock, TryLock, SwitchLock, TakeSpin, SwitchDecrement}
    ensures HolderOk(Do(s, t, a))
  {
  }

  lemma HolderStep(s: State, t: Tid, a: Action)
    requires Inv(s) && Enabled(s, t, a)
    ensures HolderOk(Do(s, t, a))
  {
    if a in {SetHolder, Resume, ClearHolder, Increment} {
      OwnerAlone(s, t);
      HolderByOwner(s, t, a);
    } else if a in {PassOn, EnterSlowPath} {
      if a == PassOn || s.released {
        CountAtLeast(s.pc, t, RoleOf(s.pc[t]));
        NoOwner(s);
      }
      HolderByHandOver(s, t, a);
    } else {
      HolderElse(s, t, a);
    }
  }

  lemma QueueJoin(s: State, t: Tid)
    requires QueueOk(s) && Enabled(s, t, EnterSlowPath)
    ensures QueueOk(Do(s, t, EnterSlowPath))
  {
    assert t !in s.waiters;
  }

  lemma TailOfDistinct(w: seq<Tid>)
    requires w != [] && forall i, j | 0 <= i < j < |w| :: w[i] != w[j]
    ensures forall u :: u in w[1..] <==> u in w && u != w[0]
    ensures forall i, j | 0 <= i < j < |w[1..]| :: w[1..][i] != w[1..][j]
  {
    assert w == [w[0]] + w[1..];
  }

  lemma QueueLeave(s: State, t: Tid)
    requires QueueOk(s) && Enabled(s, t, PassOn) && s.waiters != []
    ensures QueueOk(Do(s, t, PassOn))
  {
    var s2, w := Do(s, t, PassOn), s.waiters[0];
    TailOfDistinct(s.waiters);
    assert s.granted + s.waiters == s2.granted + s2.waiters;
    forall i | 0 <= i < |s2.waiters| ensures s2.waiters[i] < |s2.pc| && s2.pc[s2.waiters[i]] == Queued {
      assert s2.waiters[i] in s2.waiters;
    }
  }

  lemma QueueToken(s: State, t: Tid)
    requires QueueOk(s) && Enabled(s, t, PassOn) && s.waiters == []
    ensures QueueOk(Do(s, t, PassOn))
  {
  }

  lemma QueueElse(s: State, t: Tid, a: Action)
    requires QueueOk(s) && Enabled(s, t, a) && a != EnterSlowPath && a != PassOn
    ensures QueueOk(Do(s, t, a))
  {
    var s2 := Do(s, t, a);
    assert s2.waiters == s.waiters && s2.released == s.released;
    assert t !in s.waiters;
    assert s2.pc[t] != Queued;
    assert forall u | 0 <= u < |s.pc| && u != t :: s2.pc[u] == s.pc[u];
  }

  /** Every step of every thread keeps the invariant. */
  lemma StepInv(s: State, t: Tid, a: Action)
    requires Inv(s) && Enabled(s, t, a)
    ensures Inv(Do(s, t, a))
  {
    if a == PassOn {
      CounterPassOn(s, t);
      if s.waiters == [] { QueueToken(s, t); } else { QueueLeave(s, t); }
    } else {
      if a in {Lock, TryLock, SwitchLock, SwitchDecrement, TakeSpin} { CounterEnter(s, t, a); }
      else { CounterLeave(s, t, a); }
      if a == EnterSlowPath { QueueJoin(s, t); } else { QueueElse(s, t, a); }
    }
    SpinStep(s, t, a);
    HolderStep(s, t, a);
  }

  // ---- whole runs ----

  datatype Event = Event(t: Tid, a: Action)

  /** A run: any threads, any interleaving, from a fresh lock. */
  ghost predicate IsRun(run: seq<State>, events: seq<Event>) {
    && |run| == |events| + 1
    && Init(run[0])
    && forall i | 0 <= i < |events| ::
         && Enabled(run[i], events[i].t, events[i].a)
         && run[i + 1] == Do(run[i], events[i].t, events[i].a)
  }

  lemma {:induction false} RunInv(run: seq<State>, events: seq<Event>, k: nat)
    requires IsRun(run, events) && k < |run|
    ensures Inv(run[k])
  {
    if k == 0 {
      InitInv(run[0]);
    } else {
      RunInv(run, events, k - 1);
      StepInv(run[k - 1], events[k - 1].t, events[k - 1].a);
    }
  }

  /** Mutual exclusion: in every state of every run at most one thread is in the owner role. */
  lemma MutualExclusion(run: seq<State>, events: seq<Event>, k: nat, t: Tid, u: Tid)
    requires IsRun(run, events) && k < |run|
    requires t < |run[k].pc| && u < |run[k].pc|
    requires RoleOf(run[k].pc[t]) == Exclusive && RoleOf(run[k].pc[u]) == Exclusive
    ensures t == u
  {
    RunInv(run, events, k);
    OwnerAlone(run[k], t);
  }

  /** The counter is minus the owner plus the contenders, so it stays in [-threads, 0]. */
  lemma CounterExact(run: seq<State>, events: seq<Event>, k: nat)
    requires IsRun(run, events) && k < |run|
    ensures run[k].count == -(Count(run[k].pc, Exclusive) + Count(run[k].pc, Contender))
    ensures -|run[k].pc| <= run[k].count <= 0
  {
    RunInv(run, events, k);
    CountBound(run[k].pc, Exclusive, Contender);
  }

  /** `holder` names exactly the thread the lock has been given to, so no assertion on it fails. */
  lemma HolderExact(run: seq<State>, events: seq<Event>, k: nat, t: Tid)
    requires IsRun(run, events) && k < |run| && t < |run[k].pc|
    ensures run[k].holder == Some(t) <==> run[k].pc[t] == Holding || run[k].pc[t] == Woken
  {
    RunInv(run, events, k);
  }

  /** No lost hand-over: with a waiter queued, some thread owns the lock or is about to pass it on. */
  lemma NeverIdleWithWaiter(run: seq<State>, events: seq<Event>, k: nat)
    requires IsRun(run, events) && k < |run| && run[k].waiters != []
    ensures !run[k].released
    ensures exists t :: 0 <= t < |run[k].pc| && RoleOf(run[k].pc[t]) in {Exclusive, Handing}
  {
    RunInv(run, events, k);
    var s := run[k];
    CountAtLeast(s.pc, s.waiters[0], Contender);
    if Count(s.pc, Exclusive) >= 1 {
      var t := CountWitness(s.pc, Exclusive);
    } else {
      var t := CountWitness(s.pc, Handing);
    }
  }

  /**
    Every contended unlock hands over exactly once: to the longest waiting
    thread, through the token, or it still holds the duty; and a token is
    consumed at most once before the next one is set.
  */
  lemma HandOverOnce(run: seq<State>, events: seq<Event>, k: nat)
    requires IsRun(run, events) && k < |run|
    ensures run[k].granted <= run[k].enqueued
    ensures run[k].waiters == run[k].enqueued[|run[k].granted|..]
    ensures run[k].contended == |run[k].granted| + run[k].tokensSet + Count(run[k].pc, Handing)
    ensures run[k].tokensSet == run[k].tokensTaken + Token(run[k])
  {
    RunInv(run, events, k);
  }

  /**
    No deadlock in one lock by itself: while anyone contends, some thread that
    is already inside can move.  Locks that threads switch between, and that
    share spin locks, are in LockSwitches.
  */
  lemma NoDeadlock(run: seq<State>, events: seq<Event>, k: nat) returns (t: Tid, a: Action)
    requires IsRun(run, events) && k < |run| && Count(run[k].pc, Contender) > 0
    ensures Enabled(run[k], t, a) && a !in {Lock, TryLock, SwitchLock}
  {
    RunInv(run, events, k);
    var s := run[k];
    if s.spin.Some? {
      t := s.spin.value;
      a := if s.pc[t] == SlowPath then EnterSlowPath
           else if s.pc[t] == HandOverLocked then PassOn
           else if s.pc[t] == Switching then SwitchDecrement else SetHolder;
    } else if Count(s.pc, Exclusive) >= 1 {
      t := CountWitness(s.pc, Exclusive);
      a := if s.pc[t] == Acquired then SetHolder
           else if s.pc[t] == Woken then Resume
           else if s.pc[t] == Holding then ClearHolder else Increment;
    } else if Count(s.pc, Handing) >= 1 {
      t := CountWitness(s.pc, Handing);
      a := TakeSpin;
    } else {
      t := CountWitness(s.pc, Contender);
      a := TakeSpin;
    }
  }

  // ---- destruction ----

  function TurnedAway(pc: seq<Pc>, t: Tid): (r: seq<Pc>)
    ensures |r| == |pc|
    ensures forall u | 0 <= u < |pc| :: r[u] == if u == t || pc[u] == Queued then Outside else pc[u]
  {
    seq(|pc|, u requires 0 <= u < |pc| => if u == t || pc[u] == Queued then Outside else pc[u])
  }

  /** Destroy by the owner t: every queued thread is unblocked with an error, the fields are reset. */
  function Destroy(s: State, t: Tid): State {
    s.(count := 0, holder := None, released := false, waiters := [],
       pc := TurnedAway(s.pc, t), enqueued := s.granted)
  }

  /**
    Destroying is sound exactly when every contender has reached the queue: a
    thread caught between the counter and the spin lock would be stranded.
    SwitchFromReadLock, which decrements with the spin lock held, rules that out.
  */
  lemma DestroyExact(s: State, t: Tid)
    requires Inv(s) && t < |s.pc| && s.pc[t] == Holding && s.spin == None
    ensures Inv(Destroy(s, t)) <==> forall u | 0 <= u < |s.pc| :: s.pc[u] != Contending
  {
    OwnerAlone(s, t);
    var d := Destroy(s, t);
    if forall u | 0 <= u < |s.pc| :: s.pc[u] != Contending {
      CountNone(d.pc, Exclusive);
      CountNone(d.pc, Handing);
      CountNone(d.pc, Contender);
    } else {
      var u :| 0 <= u < |s.pc| && s.pc[u] == Contending;
      assert d.pc[u] == Contending;
      CountAtLeast(d.pc, u, Contender);
    }
  }

  /**
    Such a state is reached: thread 0 owns the lock and thread 1 has just
    decremented the counter.  After Destroy the counter no longer counts it.
  */
  lemma DestroyStrands() returns (run: seq<State>, events: seq<Event>)
    ensures IsRun(run, events) && |run| == 4
    ensures run[3].pc == [Holding, Contending] && run[3].spin == None
    ensures Destroy(run[3], 0).pc == [Outside, Contending] && Destroy(run[3], 0).count == 0 && !Inv(Destroy(run[3], 0))
  {
    var s0 := State(0, None, false, [], None, [Outside, Outside], [], [], 0, 0, 0);
    var s1 := Do(s0, 0, Lock);
    var s2 := Do(s1, 0, SetHolder);
    var s3 := Do(s2, 1, Lock);
    run, events := [s0, s1, s2, s3], [Event(0, Lock), Event(0, SetHolder), Event(1, Lock)];
    assert IsRun(run, events);
    RunInv(run, events, 3);
    DestroyExact(s3, 0);
  }
}
