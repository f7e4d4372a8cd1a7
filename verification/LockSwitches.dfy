/**
  Several VM cache locks and their shared spin locks (cache/vm_cache_lock.cpp).
  A lock's spin lock is chosen by a hash of its address.  SwitchFromLock takes
  the spin lock of the lock it wants and keeps it while it gives up the other
  one; if that one is contended, it needs its spin lock too.
*/
module LockSwitches {
  import opened Options
  import opened CacheLock

  /** The locks, and for each thread in SwitchFromLock the lock it gives up and the one it wants. */
  datatype System = System(locks: seq<State>, switch: map<Tid, (nat, nat)>)

  datatype Act =
    | On(l: nat, t: Tid, a: Action)            // thread t steps in lock l
    | Begin(t: Tid, from: nat, to: nat)        // thread t starts to switch

  /** In the middle of an operation on a lock. */
  predicate Busy(p: Pc) { p != Outside && p != Holding }

  /** Thread t may take the spin lock of lock l, or has it already. */
  predicate SpinFree(sys: System, hash: seq<nat>, l: nat, t: Tid)
    requires |hash| == |sys.locks| && l < |hash|
  {
    forall k | 0 <= k < |hash| && hash[k] == hash[l] :: sys.locks[k].spin == None || sys.locks[k].spin == Some(t)
  }

  predicate PcOk(sys: System, n: nat) { forall l | 0 <= l < |sys.locks| :: |sys.locks[l].pc| == n }

  /** Thread t is in the middle of no operation on a lock other than l. */
  predicate FreeElsewhere(sys: System, n: nat, l: nat, t: Tid)
    requires PcOk(sys, n) && t < n
  {
    forall k | 0 <= k < |sys.locks| && k != l :: !Busy(sys.locks[k].pc[t])
  }

  predicate Can(sys: System, hash: seq<nat>, n: nat, act: Act) {
    && |hash| == |sys.locks| && PcOk(sys, n)
    && match act
       case On(l, t, a) =>
         && l < |hash| && t < n && Enabled(sys.locks[l], t, a)
         && (a == TakeSpin || a == SwitchLock ==> SpinFree(sys, hash, l, t))
         && if t in sys.switch then InSwitch(sys, n, sys.switch[t], l, t, a) else FreeElsewhere(sys, n, l, t)
       case Begin(t, from, to) =>
         && from < |hash| && to < |hash| && from != to && t < n && t !in sys.switch
         && sys.locks[from].pc[t] == Holding && Enabled(sys.locks[to], t, SwitchLock)
         && FreeElsewhere(sys, n, to, t) && SpinFree(sys, hash, to, t)
  }

  /** The order of SwitchFromLock: the old lock is given up before the wanted one's counter is touched. */
  predicate InSwitch(sys: System, n: nat, s: (nat, nat), l: nat, t: Tid, a: Action)
    requires PcOk(sys, n) && t < n
  {
    if l == s.0 then a == ClearHolder || a == Increment || a == TakeSpin || a == PassOn
    else l == s.1 && a == SwitchDecrement && s.0 < |sys.locks| && sys.locks[s.0].pc[t] == Outside
  }

  function Step(sys: System, hash: seq<nat>, n: nat, act: Act): System
    requires Can(sys, hash, n, act)
  {
    match act
    case On(l, t, a) =>
      System(sys.locks[l := Do(sys.locks[l], t, a)], if a == SwitchDecrement then sys.switch - {t} else sys.switch)
    case Begin(t, from, to) =>
      System(sys.locks[to := Do(sys.locks[to], t, SwitchLock)], sys.switch[t := (from, to)])
  }

  // ---- the invariant ----

  ghost predicate LocksOk(sys: System) { forall l | 0 <= l < |sys.locks| :: Inv(sys.locks[l]) }

  /** A spin lock has one owner. */
  ghost predicate SpinsOk(sys: System, hash: seq<nat>)
    requires |hash| == |sys.locks|
  {
    forall k, l | 0 <= k < l < |hash| && hash[k] == hash[l] && sys.locks[k].spin.Some? && sys.locks[l].spin.Some? ::
      sys.locks[k].spin == sys.locks[l].spin
  }

  /** Where a thread can be: in one operation, or in a switch between two locks. */
  ghost predicate ThreadOk(sys: System, n: nat, t: Tid)
    requires PcOk(sys, n) && t < n
  {
    if t in sys.switch then
      var (from, to) := sys.switch[t];
      && from < |sys.locks| && to < |sys.locks| && from != to
      && sys.locks[to].pc[t] == Switching
      && sys.locks[from].pc[t] in {Holding, Releasing, HandOver, HandOverLocked, Outside}
      && forall k | 0 <= k < |sys.locks| && k != from && k != to :: !Busy(sys.locks[k].pc[t])
    else
      forall k, l | 0 <= k < l < |sys.locks| :: !Busy(sys.locks[k].pc[t]) || !Busy(sys.locks[l].pc[t])
  }

  ghost predicate SysInv(sys: System, hash: seq<nat>, n: nat) {
    && |hash| == |sys.locks| && PcOk(sys, n) && LocksOk(sys) && SpinsOk(sys, hash)
    && (forall t | 0 <= t < n :: ThreadOk(sys, n, t)) && forall t | t in sys.switch :: t < n
  }

  ghost predicate SysInit(sys: System, hash: seq<nat>, n: nat) {
    |hash| == |sys.locks| && PcOk(sys, n) && sys.switch == map[] && forall l | 0 <= l < |sys.locks| ::
      Init(sys.locks[l])
  }

  lemma SysInitInv(sys: System, hash: seq<nat>, n: nat)
    requires SysInit(sys, hash, n)
    ensures SysInv(sys, hash, n)
  {
    forall l | 0 <= l < |sys.locks| ensures Inv(sys.locks[l]) { InitInv(sys.locks[l]); }
  }

  /** The lock an act steps in, and the step. */
  function Where(act: Act): nat { if act.On? then act.l else act.to }

  function What(act: Act): Action { if act.On? then act.a else SwitchLock }

  lemma StepIs(sys: System, hash: seq<nat>, n: nat, act: Act)
    requires Can(sys, hash, n, act)
    ensures Where(act) < |sys.locks| && act.t < n && Enabled(sys.locks[Where(act)], act.t, What(act))
    ensures Step(sys, hash, n, act).locks == sys.locks[Where(act) := Do(sys.locks[Where(act)], act.t, What(act))]
  {
  }

  /** Where thread t is after its step. */
  function Next(s: State, t: Tid, a: Action): Pc
    requires Enabled(s, t, a)
  {
    match a
    case Lock => if s.count < 0 then Contending else Acquired
    case TryLock => if s.count == 0 then Acquired else Outside
    case SwitchLock => Switching
    case SwitchDecrement => if s.count < 0 then SlowPath else SwitchAcquired
    case SetHolder => Holding
    case TakeSpin => if s.pc[t] == Contending then SlowPath else HandOverLocked
    case EnterSlowPath => if s.released then Holding else Queued
    case Resume => Holding
    case ClearHolder => Releasing
    case Increment => if s.count < -1 then HandOver else Outside
    case PassOn => Outside
  }

  /** What one step does to the program counters and the spin lock of its lock. */
  lemma DoIs(s: State, t: Tid, a: Action)
    requires Inv(s) && Enabled(s, t, a)
    ensures |Do(s, t, a).pc| == |s.pc| && t < |s.pc| && Do(s, t, a).pc[t] == Next(s, t, a)
    ensures forall u | 0 <= u < |s.pc| && u != t ::
      Do(s, t, a).pc[u] == s.pc[u] || (s.pc[u] == Queued && Do(s, t, a).pc[u] == Woken)
    ensures Do(s, t, a).spin == s.spin || Do(s, t, a).spin == None
      || (Do(s, t, a).spin == Some(t) && (a == TakeSpin || a == SwitchLock))
  {
  }

  lemma StepSpins(sys: System, hash: seq<nat>, n: nat, act: Act)
    requires SysInv(sys, hash, n) && Can(sys, hash, n, act)
    ensures LocksOk(Step(sys, hash, n, act)) && PcOk(Step(sys, hash, n, act), n)
    ensures SpinsOk(Step(sys, hash, n, act), hash)
  {
    hide Inv, Do, Enabled, ThreadOk;
    StepIs(sys, hash, n, act);
    var l, t := Where(act), act.t;
    StepInv(sys.locks[l], t, What(act));
    DoIs(sys.locks[l], t, What(act));
  }

  lemma OtherThread(sys: System, hash: seq<nat>, n: nat, act: Act, u: Tid)
    requires SysInv(sys, hash, n) && Can(sys, hash, n, act) && u < n && u != act.t && PcOk(Step(sys, hash, n, act), n)
    ensures ThreadOk(Step(sys, hash, n, act), n, u)
  {
    hide Inv, Do, Enabled, Next, PcOk, SpinsOk, Can, Step;
    assert ThreadOk(sys, n, u);
    SwitchSame(sys, hash, n, act, u);
    StepIs(sys, hash, n, act);
    PcIs(sys, n);
    var l, s2 := Where(act), Step(sys, hash, n, act);
    DoIs(sys.locks[l], act.t, What(act));
    assert forall k | 0 <= k < |sys.locks| && k != l :: s2.locks[k] == sys.locks[k];
    PcIs(s2, n);
    assert forall k | 0 <= k < |sys.locks| ::
        (s2.locks[k].pc[u] == sys.locks[k].pc[u] || (sys.locks[k].pc[u] == Queued && s2.locks[k].pc[u] == Woken));
  }

  lemma SwitchSame(sys: System, hash: seq<nat>, n: nat, act: Act, u: Tid)
    requires Can(sys, hash, n, act) && u != act.t
    ensures var s2 := Step(sys, hash, n, act);
      (u in s2.switch <==> u in sys.switch) && (u in sys.switch ==> s2.switch[u] == sys.switch[u])
  {
  }

  lemma PcIs(sys: System, n: nat)
    requires PcOk(sys, n)
    ensures forall l | 0 <= l < |sys.locks| :: |sys.locks[l].pc| == n
  {
  }

  lemma OwnThread(sys: System, hash: seq<nat>, n: nat, act: Act)
    requires SysInv(sys, hash, n) && Can(sys, hash, n, act) && PcOk(Step(sys, hash, n, act), n)
    ensures act.t < n && ThreadOk(Step(sys, hash, n, act), n, act.t)
  {
    hide Inv, Do, PcOk, SpinsOk, SpinFree;
    StepIs(sys, hash, n, act);
    PcIs(sys, n);
    assert ThreadOk(sys, n, act.t);
    var l, s2 := Where(act), Step(sys, hash, n, act);
    DoIs(sys.locks[l], act.t, What(act));
    assert forall k | 0 <= k < |sys.locks| && k != l :: s2.locks[k] == sys.locks[k];
  }

  /** Every step of every thread keeps it: in particular each lock behaves as a lock by itself. */
  lemma SysStepInv(sys: System, hash: seq<nat>, n: nat, act: Act)
    requires SysInv(sys, hash, n) && Can(sys, hash, n, act)
    ensures SysInv(Step(sys, hash, n, act), hash, n)
  {
    hide Inv, Do, Enabled;
    StepSpins(sys, hash, n, act);
    StepIs(sys, hash, n, act);
    forall u | 0 <= u < n ensures ThreadOk(Step(sys, hash, n, act), n, u) {
      if u == act.t { OwnThread(sys, hash, n, act); } else { OtherThread(sys, hash, n, act, u); }
    }
  }

  // ---- who spins for ever ----

  /** Thread t has the spin lock of lock l. */
  predicate Has(sys: System, l: int, t: Tid) { 0 <= l < |sys.locks| && sys.locks[l].spin == Some(t) }

  ghost predicate HasOne(sys: System, t: Tid) { exists l :: Has(sys, l, t) }

  /** Thread t has a spin lock and an enabled step. */
  ghost predicate Moves(sys: System, hash: seq<nat>, n: nat, t: Tid) {
    HasOne(sys, t) && exists l, a :: Can(sys, hash, n, On(l, t, a))
  }

  /** Thread t, switching, waits for a spin lock that another thread has. */
  ghost predicate Waits(sys: System, hash: seq<nat>, t: Tid)
    requires |hash| == |sys.locks|
  {
    && t in sys.switch && sys.switch[t].0 < |hash| && sys.switch[t].1 < |hash|
    && t < |sys.locks[sys.switch[t].0].pc| && sys.locks[sys.switch[t].0].pc[t] == HandOver
    && exists k, u :: Has(sys, k, u) && u != t && hash[k] == hash[sys.switch[t].0]
  }

  /** A thread that has a spin lock can move, unless it is switching and waits for another one. */
  lemma MovesOrWaits(sys: System, hash: seq<nat>, n: nat, l: nat, t: Tid)
    requires SysInv(sys, hash, n) && Has(sys, l, t)
    ensures Moves(sys, hash, n, t) <==> !Waits(sys, hash, t)
  {
    SpinIs(sys.locks[l], t);
    assert ThreadOk(sys, n, t);
    if t in sys.switch {
      SwitcherMoves(sys, hash, n, t);
    } else {
      hide Inv;
      var p := sys.locks[l].pc[t];
      var a := if p == SlowPath then EnterSlowPath else if p == HandOverLocked then PassOn
               else if p == Switching then SwitchDecrement else SetHolder;
      assert Can(sys, hash, n, On(l, t, a));
    }
  }

  lemma SpinIs(s: State, t: Tid)
    requires Inv(s) && s.spin == Some(t)
    ensures t < |s.pc| && HoldsSpin(s.pc[t])
  {
  }

  lemma SpinOf(s: State, t: Tid)
    requires Inv(s) && t < |s.pc|
    ensures HoldsSpin(s.pc[t]) <==> s.spin == Some(t)
  {
  }

  lemma SwitcherMoves(sys: System, hash: seq<nat>, n: nat, t: Tid)
    requires SysInv(sys, hash, n) && t in sys.switch
    ensures sys.switch[t].1 < |hash| && Has(sys, sys.switch[t].1, t)
    ensures Moves(sys, hash, n, t) <==> !Waits(sys, hash, t)
  {
    hide Inv, SpinsOk;
    assert ThreadOk(sys, n, t);
    var (from, to) := sys.switch[t];
    SpinOf(sys.locks[to], t);
    SpinOf(sys.locks[from], t);
    var p := sys.locks[from].pc[t];
    if p == HandOver {
      if SpinFree(sys, hash, from, t) {
        assert Can(sys, hash, n, On(from, t, TakeSpin));
      } else {
        var k :| 0 <= k < |hash| && hash[k] == hash[from] && sys.locks[k].spin != None && sys.locks[k].spin != Some(t);
        assert Has(sys, k, sys.locks[k].spin.value);
        CannotMove(sys, hash, n, t);
      }
    } else {
      var a := if p == Holding then ClearHolder else if p == Releasing then Increment
               else if p == HandOverLocked then PassOn else SwitchDecrement;
      assert Can(sys, hash, n, On(if p == Outside then to else from, t, a));
    }
  }

  lemma CannotMove(sys: System, hash: seq<nat>, n: nat, t: Tid)
    requires SysInv(sys, hash, n) && t in sys.switch && sys.switch[t].0 < |hash|
    requires !SpinFree(sys, hash, sys.switch[t].0, t)
    requires t < n && sys.locks[sys.switch[t].0].pc[t] == HandOver
    ensures forall act: Act | act.t == t :: !Can(sys, hash, n, act)
  {
    hide Inv, SpinsOk, SpinFree;
    assert ThreadOk(sys, n, t);
  }

  /** Thread t, switching, waits for the spin lock that thread u took for its own switch. */
  ghost predicate WaitsFor(sys: System, hash: seq<nat>, t: Tid, u: Tid)
    requires |hash| == |sys.locks|
  {
    && t in sys.switch && u in sys.switch && t != u
    && sys.switch[t].0 < |hash| && sys.switch[u].1 < |hash| && hash[sys.switch[t].0] == hash[sys.switch[u].1]
    && t < |sys.locks[sys.switch[t].0].pc| && sys.locks[sys.switch[t].0].pc[t] == HandOver
  }

  /** Each of these threads waits for another one of them. */
  ghost predicate Circle(sys: System, hash: seq<nat>, c: set<Tid>)
    requires |hash| == |sys.locks|
  {
    c != {} && forall t {:trigger WaitsIn(sys, hash, t, c)} | t in c :: WaitsIn(sys, hash, t, c)
  }

  ghost predicate WaitsIn(sys: System, hash: seq<nat>, t: Tid, c: set<Tid>)
    requires |hash| == |sys.locks|
  {
    exists u :: u in c && WaitsFor(sys, hash, t, u)
  }

  lemma WaitsInIs(sys: System, hash: seq<nat>, t: Tid, c: set<Tid>, u: Tid)
    requires |hash| == |sys.locks| && u in c && WaitsFor(sys, hash, t, u)
    ensures WaitsIn(sys, hash, t, c)
  {
  }

  lemma WaitsInSome(sys: System, hash: seq<nat>, t: Tid, c: set<Tid>) returns (u: Tid)
    requires |hash| == |sys.locks| && WaitsIn(sys, hash, t, c)
    ensures u in c && WaitsFor(sys, hash, t, u)
  {
    u :| u in c && WaitsFor(sys, hash, t, u);
  }

  /** The threads that have a spin lock. */
  ghost function Spinners(sys: System, n: nat): set<Tid> {
    set t: Tid | 0 <= t < n && HasOne(sys, t)
  }

  /**
    Whenever a spin lock is taken, some thread that has one can move, or else they are all in a
    circle; and vice versa.
  */
  lemma MovesOrCircle(sys: System, hash: seq<nat>, n: nat, l: nat, t: Tid)
    requires SysInv(sys, hash, n) && Has(sys, l, t)
    ensures (forall u :: !Moves(sys, hash, n, u)) <==> Circle(sys, hash, Spinners(sys, n))
  {
    hide SysInv, Moves, WaitsFor, WaitsIn, Waits, Has, Spinners;
    SpinnerIs(sys, hash, n, l, t);
    var c := Spinners(sys, n);
    if forall u :: !Moves(sys, hash, n, u) {
      forall u | u in c ensures WaitsIn(sys, hash, u, c) {
        var v := StuckWaits(sys, hash, n, u);
        WaitsInIs(sys, hash, u, c, v);
      }
    }
    if Circle(sys, hash, c) {
      forall u ensures !Moves(sys, hash, n, u) {
        if u in c {
          var v := WaitsInSome(sys, hash, u, c);
          Blocked(sys, hash, n, u, v);
        }
        NotMoving(sys, hash, n, u);
      }
    }
  }

  lemma NotMoving(sys: System, hash: seq<nat>, n: nat, u: Tid)
    requires SysInv(sys, hash, n)
    requires u in Spinners(sys, n) ==> forall act: Act | act.t == u :: !Can(sys, hash, n, act)
    ensures !Moves(sys, hash, n, u)
  {
    hide SysInv, Can;
    if HasOne(sys, u) {
      var l :| Has(sys, l, u);
      SpinnerIs(sys, hash, n, l, u);
      forall k, a ensures !Can(sys, hash, n, On(k, u, a)) {
        assert On(k, u, a).t == u;
      }
    }
  }

  lemma StuckWaits(sys: System, hash: seq<nat>, n: nat, t: Tid) returns (u: Tid)
    requires SysInv(sys, hash, n) && |hash| == |sys.locks| && t in Spinners(sys, n)
    requires forall v :: !Moves(sys, hash, n, v)
    ensures u in Spinners(sys, n) && WaitsFor(sys, hash, t, u)
  {
    hide SysInv, Moves, Waits, WaitsFor;
    var k :| Has(sys, k, t);
    MovesOrWaits(sys, hash, n, k, t);
    u := WaitsForSome(sys, hash, n, t);
  }

  lemma SpinnerIs(sys: System, hash: seq<nat>, n: nat, l: int, t: Tid)
    requires SysInv(sys, hash, n) && Has(sys, l, t)
    ensures |hash| == |sys.locks| && 0 <= l < |hash| && t < n && t in Spinners(sys, n)
  {
    SpinIs(sys.locks[l], t);
  }

  /** If none of the threads with a spin lock moves, the one waited for is switching as well. */
  lemma WaitsForSome(sys: System, hash: seq<nat>, n: nat, t: Tid) returns (u: Tid)
    requires SysInv(sys, hash, n) && |hash| == |sys.locks| && Waits(sys, hash, t) && forall v :: !Moves(sys, hash, n, v)
    ensures u in Spinners(sys, n) && WaitsFor(sys, hash, t, u)
  {
    hide Moves;
    var k: int;
    k, u :| Has(sys, k, u) && u != t && hash[k] == hash[sys.switch[t].0];
    SpinnerIs(sys, hash, n, k, u);
    MovesOrWaits(sys, hash, n, k, u);
    HeldForSwitch(sys, hash, n, k, u);
  }

  /** A thread that waits in a switch has only the spin lock of the lock it wants. */
  lemma HeldForSwitch(sys: System, hash: seq<nat>, n: nat, k: int, u: Tid)
    requires SysInv(sys, hash, n) && Has(sys, k, u) && |hash| == |sys.locks| && Waits(sys, hash, u)
    ensures k == sys.switch[u].1
  {
    hide Inv, SpinsOk;
    SpinIs(sys.locks[k], u);
    assert ThreadOk(sys, n, u);
  }

  /** The threads of a circle never move again, whatever others do. */
  lemma CircleStays(sys: System, hash: seq<nat>, n: nat, c: set<Tid>, act: Act)
    requires SysInv(sys, hash, n) && Circle(sys, hash, c) && Can(sys, hash, n, act)
    ensures act.t !in c && |Step(sys, hash, n, act).locks| == |hash| && Circle(Step(sys, hash, n, act), hash, c)
  {
    hide SysInv, Can, Step, WaitsFor, WaitsIn;
    LocksSame(sys, hash, n, act);
    if act.t in c {
      var u := WaitsInSome(sys, hash, act.t, c);
      Blocked(sys, hash, n, act.t, u);
    }
    var s2 := Step(sys, hash, n, act);
    forall t | t in c ensures WaitsIn(s2, hash, t, c) {
      var u := WaitsInSome(sys, hash, t, c);
      WaitStays(sys, hash, n, t, u, act);
      WaitsInIs(s2, hash, t, c, u);
    }
  }

  lemma LocksSame(sys: System, hash: seq<nat>, n: nat, act: Act)
    requires SysInv(sys, hash, n) && Can(sys, hash, n, act)
    ensures |Step(sys, hash, n, act).locks| == |hash| == |sys.locks|
  {
  }

  lemma Blocked(sys: System, hash: seq<nat>, n: nat, t: Tid, u: Tid)
    requires SysInv(sys, hash, n) && |hash| == |sys.locks| && WaitsFor(sys, hash, t, u)
    ensures forall act: Act | act.t == t :: !Can(sys, hash, n, act)
  {
    assert ThreadOk(sys, n, t);
    SwitcherMoves(sys, hash, n, u);
    CannotMove(sys, hash, n, t);
  }

  lemma WaitStays(sys: System, hash: seq<nat>, n: nat, t: Tid, u: Tid, act: Act)
    requires SysInv(sys, hash, n) && |hash| == |sys.locks| && WaitsFor(sys, hash, t, u) && Can(sys, hash, n, act)
    requires act.t != t && act.t != u
    ensures |Step(sys, hash, n, act).locks| == |hash| && WaitsFor(Step(sys, hash, n, act), hash, t, u)
  {
    hide Inv, Do, Enabled, SpinsOk, SpinFree;
    StepIs(sys, hash, n, act);
    DoIs(sys.locks[Where(act)], act.t, What(act));
  }

  /** Every switch goes to a lower spin lock, or stays with the same. */
  ghost predicate Ranked(sys: System, hash: seq<nat>, rank: nat -> nat) {
    forall t | t in sys.switch :: sys.switch[t].0 < |hash| && sys.switch[t].1 < |hash| &&
      (hash[sys.switch[t].0] == hash[sys.switch[t].1] || rank(hash[sys.switch[t].1]) < rank(hash[sys.switch[t].0]))
  }

  /** If all switches go down in some order of the spin locks, there is no circle. */
  lemma RankedNoCircle(sys: System, hash: seq<nat>, n: nat, rank: nat -> nat, c: set<Tid>)
    requires SysInv(sys, hash, n) && |hash| == |sys.locks| && Ranked(sys, hash, rank)
    ensures !Circle(sys, hash, c)
  {
    hide SysInv, WaitsFor, WaitsIn, Ranked, Wanted;
    if Circle(sys, hash, c) {
      var t := Highest(sys, hash, rank, c);
      var u := WaitsInSome(sys, hash, t, c);
      var v := WaitsInSome(sys, hash, u, c);
      Above(sys, hash, n, rank, t, u, v);
    }
  }

  /** The rank of the spin lock a switching thread needs for the lock it gives up. */
  ghost function Wanted(sys: System, hash: seq<nat>, rank: nat -> nat, t: Tid): nat {
    if t in sys.switch && sys.switch[t].0 < |hash| then rank(hash[sys.switch[t].0]) else 0
  }

  lemma {:induction false} Highest(sys: System, hash: seq<nat>, rank: nat -> nat, c: set<Tid>) returns (t: Tid)
    requires c != {}
    ensures t in c && forall v | v in c :: Wanted(sys, hash, rank, v) <= Wanted(sys, hash, rank, t)
    decreases |c|
  {
    hide Wanted;
    t :| t in c;
    var rest := c - {t};
    if rest != {} {
      var u := Highest(sys, hash, rank, rest);
      assert forall v | v in c :: v in rest || v == t;
      if Wanted(sys, hash, rank, u) > Wanted(sys, hash, rank, t) { t := u; }
    } else {
      assert c == {t};
    }
  }

  /** Each thread of a circle needs a lower spin lock than the one it waits for. */
  lemma Above(sys: System, hash: seq<nat>, n: nat, rank: nat -> nat, t: Tid, u: Tid, v: Tid)
    requires SysInv(sys, hash, n) && |hash| == |sys.locks| && Ranked(sys, hash, rank)
    requires WaitsFor(sys, hash, t, u) && WaitsFor(sys, hash, u, v)
    ensures Wanted(sys, hash, rank, t) < Wanted(sys, hash, rank, u)
  {
    hide SysInv;
    SwitcherMoves(sys, hash, n, u);
    SwitcherMoves(sys, hash, n, v);
    OneOwner(sys, hash, n, sys.switch[u].1, sys.switch[v].1, u, v);
  }

  lemma OneOwner(sys: System, hash: seq<nat>, n: nat, k: nat, l: nat, t: Tid, u: Tid)
    requires SysInv(sys, hash, n) && Has(sys, k, t) && Has(sys, l, u) && t != u
    ensures k < |hash| && l < |hash| && hash[k] != hash[l]
  {
  }

  // ---- whole runs ----

  ghost predicate IsSysRun(run: seq<System>, acts: seq<Act>, hash: seq<nat>, n: nat) {
    && |run| == |acts| + 1 && SysInit(run[0], hash, n)
    && forall i | 0 <= i < |acts| :: Leads(run[i], hash, n, acts[i], run[i + 1])
  }

  ghost predicate Leads(sys: System, hash: seq<nat>, n: nat, act: Act, sys2: System) {
    Can(sys, hash, n, act) && Step(sys, hash, n, act) == sys2
  }

  lemma {:induction false} SysRunInv(run: seq<System>, acts: seq<Act>, hash: seq<nat>, n: nat, k: nat)
    requires IsSysRun(run, acts, hash, n) && k < |run|
    ensures SysInv(run[k], hash, n)
  {
    hide SysInv, Can, Step, SysInit;
    if k == 0 {
      SysInitInv(run[0], hash, n);
    } else {
      SysRunInv(run, acts, hash, n, k - 1);
      assert Leads(run[k - 1], hash, n, acts[k - 1], run[k]);
      SysStepInv(run[k - 1], hash, n, acts[k - 1]);
    }
  }

  /** Once threads are in a circle, they are in it, without a step, for the rest of the run. */
  lemma {:induction false} CircleForEver(run: seq<System>, acts: seq<Act>, hash: seq<nat>, n: nat, c: set<Tid>,
                                         j: nat, k: nat)
    requires IsSysRun(run, acts, hash, n) && j <= k < |run| && |run[j].locks| == |hash| && Circle(run[j], hash, c)
    ensures |run| == |acts| + 1 && |run[k].locks| == |hash| && Circle(run[k], hash, c)
    ensures forall i | j <= i < k :: acts[i].t !in c
    decreases k
  {
    hide SysInv, Can, Step, Circle, IsSysRun, WaitsIn;
    RunLength(run, acts, hash, n);
    if j < k {
      CircleForEver(run, acts, hash, n, c, j, k - 1);
      SysRunInv(run, acts, hash, n, k - 1);
      StepOf(run, acts, hash, n, k - 1);
      CircleStays(run[k - 1], hash, n, c, acts[k - 1]);
    }
  }

  lemma RunLength(run: seq<System>, acts: seq<Act>, hash: seq<nat>, n: nat)
    requires IsSysRun(run, acts, hash, n)
    ensures |run| == |acts| + 1
  {
  }

  lemma StepOf(run: seq<System>, acts: seq<Act>, hash: seq<nat>, n: nat, i: nat)
    requires IsSysRun(run, acts, hash, n) && i < |acts|
    ensures Can(run[i], hash, n, acts[i]) && Step(run[i], hash, n, acts[i]) == run[i + 1]
  {
    assert Leads(run[i], hash, n, acts[i], run[i + 1]);
  }

  // ---- a run that ends in a circle ----

  function Fresh(): State { State(0, None, false, [], None, [Outside, Outside, Outside, Outside], [], [], 0, 0, 0) }

  /** Thread x gets a lock, y contends for it, and x gives it up as far as it can without the spin lock. */
  function Stage(x: Tid, y: Tid, k: nat): State
    requires x < 4 && y < 4
  {
    var s := Fresh();
    match k
    case 0 => s
    case 1 => s.(count := -1, pc := s.pc[x := Acquired])
    case 2 => s.(count := -1, pc := s.pc[x := Holding], holder := Some(x))
    case 3 => s.(count := -2, pc := s.pc[x := Holding][y := Contending], holder := Some(x))
    case 4 => s.(count := -2, pc := s.pc[x := Releasing][y := Contending])
    case _ => s.(count := -1, pc := s.pc[x := HandOver][y := Contending], contended := 1)
  }

  function Thread(x: Tid, y: Tid, k: nat): Tid { if k == 2 then y else x }

  function Doing(k: nat): Action {
    match k
    case 0 => Lock
    case 1 => SetHolder
    case 2 => Lock
    case 3 => ClearHolder
    case _ => Increment
  }

  lemma StageNext(x: Tid, y: Tid, k: nat)
    requires x < 4 && y < 4 && x != y && k < 5
    ensures Enabled(Stage(x, y, k), Thread(x, y, k), Doing(k))
    ensures Do(Stage(x, y, k), Thread(x, y, k), Doing(k)) == Stage(x, y, k + 1)
  {
  }

  /** The lock x wants, once it has its spin lock. */
  function Target(x: Tid, b: bool): State
    requires x < 4
  {
    if b then Fresh().(spin := Some(x), pc := Fresh().pc[x := Switching]) else Fresh()
  }

  /** Thread 0 switches from lock 0 to 1, thread 1 from lock 2 to 3. */
  function Pair(a: nat, b: bool, c: nat, d: bool): System {
    System([Stage(0, 2, a), Target(0, b), Stage(1, 3, c), Target(1, d)],
           (if b then map[0 := (0, 1)] else map[]) + if d then map[1 := (2, 3)] else map[])
  }

  /** Locks 0 and 3 share a spin lock, and so do 1 and 2. */
  function Hash(): seq<nat> { [0, 1, 1, 0] }

  lemma FirstStep(a: nat, b: bool, c: nat, d: bool)
    requires a < 5 && (b <==> a >= 3)
    ensures Leads(Pair(a, b, c, d), Hash(), 4, On(0, Thread(0, 2, a), Doing(a)), Pair(a + 1, b, c, d))
  {
    hide Do, Enabled, Stage, SpinFree;
    StageNext(0, 2, a);
    StageIs(a);
    StageIs(c);
  }

  lemma SecondStep(a: nat, b: bool, c: nat, d: bool)
    requires c < 5 && (d <==> c >= 3)
    ensures Leads(Pair(a, b, c, d), Hash(), 4, On(2, Thread(1, 3, c), Doing(c)), Pair(a, b, c + 1, d))
  {
    hide Do, Enabled, Stage, SpinFree;
    StageNext(1, 3, c);
    StageIs(a);
    StageIs(c);
  }

  lemma StageIs(k: nat)
    ensures |Stage(0, 2, k).pc| == |Stage(1, 3, k).pc| == 4
    ensures Stage(0, 2, k).pc[1] == Stage(0, 2, k).pc[3] == Stage(1, 3, k).pc[0] == Stage(1, 3, k).pc[2] == Outside
    ensures Stage(0, 2, k).spin == Stage(1, 3, k).spin == None
    ensures k == 3 ==> Stage(0, 2, k).pc[0] == Stage(1, 3, k).pc[1] == Holding
  {
  }

  lemma FirstBegins(c: nat)
    ensures Leads(Pair(3, false, c, false), Hash(), 4, Begin(0, 0, 1), Pair(3, true, c, false))
  {
    StageIs(3);
    StageIs(c);
  }

  lemma SecondBegins(a: nat, b: bool)
    ensures Leads(Pair(a, b, 3, false), Hash(), 4, Begin(1, 2, 3), Pair(a, b, 3, true))
  {
    StageIs(3);
    StageIs(a);
  }

  /** A run extended by a step. */
  lemma Extend(run: seq<System>, acts: seq<Act>, act: Act, sys: System) returns (run2: seq<System>, acts2: seq<Act>)
    requires IsSysRun(run, acts, Hash(), 4) && Leads(run[|acts|], Hash(), 4, act, sys)
    ensures IsSysRun(run2, acts2, Hash(), 4) && |run2| == |acts2| + 1 && run2[|acts2|] == sys
  {
    hide SysInit, Leads;
    run2, acts2 := run + [sys], acts + [act];
    forall i | 0 <= i < |acts2| ensures Leads(run2[i], Hash(), 4, acts2[i], run2[i + 1]) {
      if i < |acts| {
        assert run2[i] == run[i] && run2[i + 1] == run[i + 1] && acts2[i] == acts[i];
      }
    }
  }

  lemma {:induction false} FirstUpTo(run: seq<System>, acts: seq<Act>, a: nat, k: nat, b: bool, c: nat, d: bool)
    returns (run2: seq<System>, acts2: seq<Act>)
    requires IsSysRun(run, acts, Hash(), 4) && |run| == |acts| + 1 && run[|acts|] == Pair(a, b, c, d)
    requires a <= k <= 5 && if b then 3 <= a else k <= 3
    ensures IsSysRun(run2, acts2, Hash(), 4) && |run2| == |acts2| + 1 && run2[|acts2|] == Pair(k, b, c, d)
    decreases k - a
  {
    hide IsSysRun, Leads, Pair, Hash;
    run2, acts2 := run, acts;
    if a < k {
      FirstStep(a, b, c, d);
      run2, acts2 := Extend(run, acts, On(0, Thread(0, 2, a), Doing(a)), Pair(a + 1, b, c, d));
      run2, acts2 := FirstUpTo(run2, acts2, a + 1, k, b, c, d);
    }
  }

  lemma {:induction false} SecondUpTo(run: seq<System>, acts: seq<Act>, a: nat, b: bool, c: nat, k: nat, d: bool)
    returns (run2: seq<System>, acts2: seq<Act>)
    requires IsSysRun(run, acts, Hash(), 4) && |run| == |acts| + 1 && run[|acts|] == Pair(a, b, c, d)
    requires c <= k <= 5 && if d then 3 <= c else k <= 3
    ensures IsSysRun(run2, acts2, Hash(), 4) && |run2| == |acts2| + 1 && run2[|acts2|] == Pair(a, b, k, d)
    decreases k - c
  {
    hide IsSysRun, Leads, Pair, Hash;
    run2, acts2 := run, acts;
    if c < k {
      SecondStep(a, b, c, d);
      run2, acts2 := Extend(run, acts, On(2, Thread(1, 3, c), Doing(c)), Pair(a, b, c + 1, d));
      run2, acts2 := SecondUpTo(run2, acts2, a, b, c + 1, k, d);
    }
  }

  /**
    Two threads switch between four different locks, each to a lock nobody has.
    Through the hash each waits for the spin lock the other one took: they spin
    for ever.
  */
  lemma SwitchesDeadlock() returns (run: seq<System>, acts: seq<Act>)
    ensures IsSysRun(run, acts, Hash(), 4) && |run| == |acts| + 1
    ensures run[|acts|].switch == map[0 := (0, 1), 1 := (2, 3)]
    ensures |run[|acts|].locks| == |Hash()| && Circle(run[|acts|], Hash(), {0, 1})
  {
    hide IsSysRun, Leads, Pair, Hash;
    run, acts := [Pair(0, false, 0, false)], [];
    Starts();
    run, acts := FirstUpTo(run, acts, 0, 3, false, 0, false);
    run, acts := SecondUpTo(run, acts, 3, false, 0, 3, false);
    FirstBegins(3);
    run, acts := Extend(run, acts, Begin(0, 0, 1), Pair(3, true, 3, false));
    SecondBegins(3, true);
    run, acts := Extend(run, acts, Begin(1, 2, 3), Pair(3, true, 3, true));
    run, acts := FirstUpTo(run, acts, 3, 5, true, 3, true);
    run, acts := SecondUpTo(run, acts, 5, true, 3, 5, true);
    Ends();
  }

  lemma Starts()
    ensures IsSysRun([Pair(0, false, 0, false)], [], Hash(), 4)
  {
  }

  lemma Ends()
    ensures var sys := Pair(5, true, 5, true);
      sys.switch == map[0 := (0, 1), 1 := (2, 3)] && |sys.locks| == |Hash()| && Circle(sys, Hash(), {0, 1})
  {
    var sys := Pair(5, true, 5, true);
    assert WaitsFor(sys, Hash(), 0, 1) && WaitsFor(sys, Hash(), 1, 0);
    WaitsInIs(sys, Hash(), 0, {0, 1}, 1);
    WaitsInIs(sys, Hash(), 1, {0, 1}, 0);
  }
}
