/**
  Commitment accounting of anonymous caches (cache/mm_anonymous_cache.cpp,
  page_alloc.cpp): every cache holds swap space and memory it has reserved from
  two global amounts.  The threads working on different caches interleave; a
  step is what one of them does under one of the two global locks, together with
  the update of its own cache that follows.
*/
module Commitment {

  const PAGE: nat := 4096

  datatype Outcome = Nothing | Committed(size: int) | Failed

  /** Where the thread working on a cache is. */
  datatype Phase =
    | Idle(last: Outcome)
    | Adjust(target: int)                  // swap space has been reserved
    | ShrinkSwap(target: int, left: int)   // memory has been given back
    | FaultRam                             // a fault found no swap space

  /** committed_size, committed_swap_size */
  datatype Cache = Cache(size: int, swap: int, phase: Phase)

  /** sAvailSwapSpace, sAvailableMemory, sTotalMemory */
  datatype State = State(swap: int, ram: int, total: nat, caches: seq<Cache>)

  function Min(a: int, b: int): int { if a <= b then a else b }

  function SwapSum(cs: seq<Cache>): int {
    if cs == [] then 0 else SwapSum(cs[..|cs| - 1]) + cs[|cs| - 1].swap
  }

  /** memory committed beside swap space */
  function RamSum(cs: seq<Cache>): int {
    if cs == [] then 0 else RamSum(cs[..|cs| - 1]) + cs[|cs| - 1].size - cs[|cs| - 1].swap
  }

  lemma {:induction false} SumUpdate(cs: seq<Cache>, i: nat, c: Cache)
    requires i < |cs|
    ensures SwapSum(cs[i := c]) == SwapSum(cs) - cs[i].swap + c.swap
    ensures RamSum(cs[i := c]) == RamSum(cs) - (cs[i].size - cs[i].swap) + (c.size - c.swap)
  {
    var n := |cs| - 1;
    if i == n {
      assert cs[i := c][..n] == cs[..n];
    } else {
      SumUpdate(cs[..n], i, c);
      assert cs[i := c][..n] == cs[..n][i := c];
    }
  }

  function AllSwap(s: State): int { s.swap + SwapSum(s.caches) }

  function AllRam(s: State): int { s.ram + RamSum(s.caches) }

  // ---- steps ----

  datatype Action =
    | Start(i: nat, size: int)     // _Commit: reserve swap space
    | Settle(i: nat)               // nothing left to do
    | FreeRam(i: nat)              // the commitment shrinks: memory first
    | FreeSwap(i: nat)             // then swap space
    | TakeRam(i: nat, kept: nat)   // the commitment grows: `kept` is left for other priorities
    | RefuseRam(i: nat, kept: nat)
    | Fault(i: nat)                // one more page
    | TakeOver(i: nat, j: nat)     // Merge: the commitments of the source
    | Destroy(i: nat)

  /** vm_try_reserve_memory succeeds. */
  predicate RamAvailable(s: State, amount: int, kept: nat) {
    amount + kept < s.total * 9 / 10 && s.ram >= kept + amount
  }

  predicate IsIdle(s: State, i: nat) { i < |s.caches| && s.caches[i].phase.Idle? }

  /** What is to be reserved in memory. */
  function Wanted(c: Cache): int { if c.phase.Adjust? then c.phase.target - c.size else if c.phase.FaultRam? then PAGE
    else 0 }

  predicate Enabled(s: State, act: Action) {
    match act
    case Start(i, size) => IsIdle(s, i) && size >= 0
    case Settle(i) => i < |s.caches| && s.caches[i].phase.Adjust? && s.caches[i].size == s.caches[i].phase.target
    case FreeRam(i) => i < |s.caches| && s.caches[i].phase.Adjust? && s.caches[i].size > s.caches[i].phase.target
    case FreeSwap(i) => i < |s.caches| && s.caches[i].phase.ShrinkSwap?
    case TakeRam(i, kept) => i < |s.caches| && Wanted(s.caches[i]) > 0 && RamAvailable(s, Wanted(s.caches[i]), kept)
    case RefuseRam(i, kept) => i < |s.caches| && Wanted(s.caches[i]) > 0 && !RamAvailable(s, Wanted(s.caches[i]), kept)
    case Fault(i) => IsIdle(s, i)
    case TakeOver(i, j) => i != j && IsIdle(s, i) && IsIdle(s, j)
    case Destroy(i) => IsIdle(s, i)
  }

  /** Reserves swap space up to the new size; what is there of it may be less. */
  function Started(s: State, i: nat, size: int): State
    requires i < |s.caches|
  {
    var c := s.caches[i];
    var got := if size > c.swap then Min(s.swap, size - c.swap) else 0;
    s.(swap := s.swap - got, caches := s.caches[i := Cache(c.size + got, c.swap + got, Adjust(size))])
  }

  function RamFreed(s: State, i: nat): State
    requires i < |s.caches| && s.caches[i].phase.Adjust?
  {
    var c := s.caches[i];
    var left := c.size - c.phase.target;
    var memory := c.size - c.swap;
    var freed := if memory > 0 then Min(left, memory) else 0;
    s.(ram := s.ram + freed,
      caches := s.caches[i := Cache(c.size - freed, c.swap, ShrinkSwap(c.phase.target, left - freed))])
  }

  function SwapFreed(s: State, i: nat): State
    requires i < |s.caches| && s.caches[i].phase.ShrinkSwap?
  {
    var c := s.caches[i];
    var freed := if c.phase.left > 0 then c.phase.left else 0;
    s.(swap := s.swap + freed,
      caches := s.caches[i := Cache(c.size - freed, c.swap - freed, Idle(Committed(c.phase.target)))])
  }

  /** What swap_space_reserve took is not given back if it is less than a page. */
  function Faulted(s: State, i: nat): State
    requires i < |s.caches|
  {
    var c := s.caches[i];
    if s.swap >= PAGE then s.(swap := s.swap - PAGE,
      caches := s.caches[i := Cache(c.size + PAGE, c.swap + PAGE, Idle(Nothing))])
    else s.(swap := 0, caches := s.caches[i := c.(phase := FaultRam)])
  }

  function RamTaken(s: State, i: nat): State
    requires i < |s.caches|
  {
    var c := s.caches[i];
    var done := if c.phase.Adjust? then Committed(c.phase.target) else Nothing;
    s.(ram := s.ram - Wanted(c), caches := s.caches[i := Cache(c.size + Wanted(c), c.swap, Idle(done))])
  }

  function TakenOver(s: State, i: nat, j: nat): State
    requires i < |s.caches| && j < |s.caches|
  {
    var c, d := s.caches[i], s.caches[j];
    s.(caches := s.caches[j := Cache(0, 0, Idle(Nothing))][i := Cache(c.size + d.size, c.swap + d.swap, Idle(Nothing))])
  }

  function Destroyed(s: State, i: nat): State
    requires i < |s.caches|
  {
    var c := s.caches[i];
    s.(swap := s.swap + c.swap, ram := s.ram + (if c.size > c.swap then c.size - c.swap else 0),
       caches := s.caches[i := Cache(0, 0, Idle(Nothing))])
  }

  function Do(s: State, act: Action): State
    requires Enabled(s, act)
  {
    match act
    case Start(i, size) => Started(s, i, size)
    case Settle(i) => s.(caches := s.caches[i := s.caches[i].(phase := Idle(Committed(s.caches[i].phase.target)))])
    case FreeRam(i) => RamFreed(s, i)
    case FreeSwap(i) => SwapFreed(s, i)
    case TakeRam(i, _) => RamTaken(s, i)
    case RefuseRam(i, _) => s.(caches := s.caches[i := s.caches[i].(phase := Idle(Failed))])
    case Fault(i) => Faulted(s, i)
    case TakeOver(i, j) => TakenOver(s, i, j)
    case Destroy(i) => Destroyed(s, i)
  }

  // ---- invariant ----

  /** A successful _Commit(size) has left committed_size == size. */
  ghost predicate CacheOk(c: Cache) {
    && 0 <= c.swap <= c.size
    && (c.phase.Idle? && c.phase.last.Committed? ==> c.size == c.phase.last.size)
    && (c.phase.Adjust? ==> c.phase.target >= 0)
    && (c.phase.ShrinkSwap? ==>
      0 <= c.phase.left && c.size - c.phase.left == c.phase.target && c.phase.target >= 0
      && (c.phase.left > 0 ==> c.size == c.swap))
  }

  ghost predicate Inv(s: State) {
    s.swap >= 0 && s.ram >= 0 && forall i | 0 <= i < |s.caches| :: CacheOk(s.caches[i])
  }

  lemma StepInv(s: State, act: Action)
    requires Inv(s) && Enabled(s, act)
    ensures Inv(Do(s, act))
  {
  }

  // ---- conservation ----

  /** A fault that finds some swap space, but less than a page. */
  predicate Spills(s: State, act: Action) { act.Fault? && 0 < s.swap < PAGE }

  /** Every step keeps all memory; it keeps all swap space unless a fault finds a part of a page, which is then lost. */
  lemma StepConserves(s: State, act: Action)
    requires Inv(s) && Enabled(s, act)
    ensures AllRam(Do(s, act)) == AllRam(s)
    ensures AllSwap(Do(s, act)) == AllSwap(s) - (if Spills(s, act) then s.swap else 0)
    ensures AllSwap(Do(s, act)) == AllSwap(s) <==> !Spills(s, act)
  {
    hide SwapSum, RamSum;
    match act {
      case TakeOver(i, j) =>
        assert CacheOk(s.caches[i]) && CacheOk(s.caches[j]);
        SumUpdate(s.caches, j, Cache(0, 0, Idle(Nothing)));
        var cs := s.caches[j := Cache(0, 0, Idle(Nothing))];
        SumUpdate(cs, i, Do(s, act).caches[i]);
      case _ =>
        var i := act.i;
        assert CacheOk(s.caches[i]);
        SumUpdate(s.caches, i, Do(s, act).caches[i]);
        assert Do(s, act).caches == s.caches[i := Do(s, act).caches[i]];
    }
  }

  // ---- what _Commit promises ----

  /** Memory is wanted only if the swap space ran out in the reservation just made. */
  lemma RamOnlyWithoutSwap(s: State, i: nat, size: int)
    requires Inv(s) && IsIdle(s, i) && size >= 0
    ensures Wanted(Started(s, i, size).caches[i]) > 0 ==> Started(s, i, size).swap == 0
  {
    assert CacheOk(s.caches[i]);
  }

  /** The commitment of a merged cache only shrinks to its size: it needs no memory, so it cannot fail. */
  lemma MergeCommitFits(s: State, i: nat, size: int)
    requires Inv(s) && IsIdle(s, i) && 0 <= size < s.caches[i].size
    ensures Wanted(Started(s, i, size).caches[i]) < 0
  {
  }

  /** What shrinks by giving back memory first keeps as much swap space as it can use. */
  lemma ShrinkKeepsSwap(s: State, i: nat)
    requires Inv(s) && Enabled(s, FreeRam(i))
    ensures var c := s.caches[i];
      var after := SwapFreed(RamFreed(s, i), i).caches[i];
      after.size == c.phase.target && after.swap == Min(c.swap, c.phase.target)
  {
    assert CacheOk(s.caches[i]);
  }

  // ---- runs ----

  ghost predicate Init(s: State) {
    s.swap >= 0 && s.ram >= 0 && forall i | 0 <= i < |s.caches| :: s.caches[i] == Cache(0, 0, Idle(Nothing))
  }

  ghost predicate IsRun(states: seq<State>, acts: seq<Action>) {
    && |states| == |acts| + 1 && Init(states[0])
    && forall i | 0 <= i < |acts| :: Enabled(states[i], acts[i]) && states[i + 1] == Do(states[i], acts[i])
  }

  lemma {:induction false} NothingCommitted(cs: seq<Cache>)
    requires forall i | 0 <= i < |cs| :: cs[i] == Cache(0, 0, Idle(Nothing))
    ensures SwapSum(cs) == RamSum(cs) == 0
  {
    if cs != [] { NothingCommitted(cs[..|cs| - 1]); }
  }

  /** What the faults of a run have lost. */
  ghost function Lost(states: seq<State>, acts: seq<Action>, n: nat): int
    requires |states| == |acts| + 1 && n <= |acts|
  {
    if n == 0 then 0
      else Lost(states, acts, n - 1) + (if Spills(states[n - 1], acts[n - 1]) then states[n - 1].swap else 0)
  }

  /** In every run what is available and what is committed add up to what there was, less what faults have lost. */
  lemma {:induction false} RunConserves(states: seq<State>, acts: seq<Action>, n: nat)
    requires IsRun(states, acts) && n <= |acts|
    ensures Inv(states[n])
    ensures AllRam(states[n]) == states[0].ram
    ensures AllSwap(states[n]) == states[0].swap - Lost(states, acts, n)
  {
    if n == 0 {
      NothingCommitted(states[0].caches);
    } else {
      RunConserves(states, acts, n - 1);
      StepInv(states[n - 1], acts[n - 1]);
      StepConserves(states[n - 1], acts[n - 1]);
    }
  }

  /** A run that loses swap space: a fault finds a hundred bytes, takes them, and commits memory instead. */
  lemma FaultLosesSwap()
    ensures var s := State(100, 2 * PAGE, 4 * PAGE, [Cache(0, 0, Idle(Nothing))]);
      var acts := [Fault(0), TakeRam(0, 0)];
      var states := [s, Do(s, Fault(0)), Do(Do(s, Fault(0)), TakeRam(0, 0))];
      IsRun(states, acts) && AllSwap(states[0]) == 100 && AllSwap(states[2]) == 0 && states[2].caches[0].size == PAGE
  {
    var s := State(100, 2 * PAGE, 4 * PAGE, [Cache(0, 0, Idle(Nothing))]);
    var s1 := Do(s, Fault(0));
    var states, acts := [s, s1, Do(s1, TakeRam(0, 0))], [Fault(0), TakeRam(0, 0)];
    assert IsRun(states, acts);
    RunConserves(states, acts, 2);
    NothingCommitted(s.caches);
    assert Lost(states, acts, 2) == Lost(states, acts, 1) == 100;
  }

  // ---- whole pages ----

  predicate Whole(a: int) { a % PAGE == 0 }

  ghost predicate WholeCache(c: Cache) {
    && Whole(c.size) && Whole(c.swap)
    && (c.phase.Adjust? ==> Whole(c.phase.target))
    && (c.phase.ShrinkSwap? ==> Whole(c.phase.target) && Whole(c.phase.left))
  }

  ghost predicate WholePages(s: State) { Whole(s.swap) && forall i | 0 <= i < |s.caches| :: WholeCache(s.caches[i]) }

  predicate WholeAction(act: Action) { act.Start? ==> Whole(act.size) }

  lemma WholeSum(a: int, b: int)
    requires Whole(a) && Whole(b)
    ensures Whole(a + b) && Whole(a - b)
  {
  }

  lemma WholeZero()
    ensures Whole(0) && Whole(PAGE)
  {
  }

  /** The caches a step changes stay whole. */
  lemma StepWhole(s: State, act: Action)
    requires Inv(s) && Enabled(s, act) && WholePages(s) && WholeAction(act)
    ensures WholePages(Do(s, act)) && !Spills(s, act)
  {
    hide Whole, Inv, RamAvailable;
    var c := s.caches[act.i];
    assert WholeCache(c);
    WholeZero();
    WholeSum(c.size, c.swap);
    match act {
      case Start(i, size) =>
        WholeSum(size, c.swap);
        var got := if size > c.swap then Min(s.swap, size - c.swap) else 0;
        WholeSum(c.size, got);
        WholeSum(c.swap, got);
        WholeSum(s.swap, got);
      case Settle(i) =>
      case FreeRam(i) =>
        WholeSum(c.size, c.phase.target);
        var left := c.size - c.phase.target;
        var freed := if c.size - c.swap > 0 then Min(left, c.size - c.swap) else 0;
        WholeSum(c.size, freed);
        WholeSum(left, freed);
      case FreeSwap(i) =>
        WholeSum(c.size, c.phase.left);
        WholeSum(c.swap, c.phase.left);
        WholeSum(s.swap, c.phase.left);
      case TakeRam(i, _) =>
        if c.phase.Adjust? { WholeSum(c.phase.target, c.size); }
        WholeSum(c.size, Wanted(c));
      case RefuseRam(i, _) =>
      case Fault(i) =>
        NoSpill(s);
        WholeSum(c.size, PAGE);
        WholeSum(c.swap, PAGE);
        WholeSum(s.swap, PAGE);
      case TakeOver(i, j) =>
        var d := s.caches[j];
        assert WholeCache(d);
        WholeSum(c.size, d.size);
        WholeSum(c.swap, d.swap);
      case Destroy(i) => WholeSum(s.swap, c.swap);
    }
  }

  lemma NoSpill(s: State)
    requires Inv(s) && Whole(s.swap)
    ensures !(0 < s.swap < PAGE)
  {
  }

  /** With swap space and commitments of whole pages nothing is lost in any run. */
  lemma {:induction false} WholeRunConserves(states: seq<State>, acts: seq<Action>, n: nat)
    requires IsRun(states, acts) && n <= |acts| && Whole(states[0].swap)
    requires forall k | 0 <= k < |acts| :: WholeAction(acts[k])
    ensures WholePages(states[n]) && Lost(states, acts, n) == 0 && AllSwap(states[n]) == states[0].swap
  {
    RunConserves(states, acts, n);
    if n > 0 {
      WholeRunConserves(states, acts, n - 1);
      RunConserves(states, acts, n - 1);
      StepWhole(states[n - 1], acts[n - 1]);
    }
  }

  // ---- _Commit and Fault, not interrupted ----

  /** sAvailSwapSpace and sAvailableMemory */
  class Available {
    var swap: int
    var ram: int
    const total: nat

    constructor (swap: nat, ram: nat, total: nat)
      ensures this.swap == swap && this.ram == ram && this.total == total
    {
      this.swap, this.ram, this.total := swap, ram, total;
    }

    method ReserveSwap(amount: int) returns (reserved: int)
      requires swap >= 0 && amount >= 0
      modifies `swap
      ensures 0 <= reserved <= amount && swap == old(swap) - reserved >= 0
      ensures reserved == amount || swap == 0
    {
      reserved := amount;
      if swap >= amount {
        swap := swap - amount;
      } else {
        reserved := swap;
        swap := 0;
      }
    }

    method TryReserveRam(amount: int, kept: nat) returns (ok: bool)
      modifies `ram
      ensures ok <==> amount + kept < total * 9 / 10 && old(ram) >= kept + amount
      ensures ram == if ok then old(ram) - amount else old(ram)
    {
      ok := amount + kept < total * 9 / 10 && ram >= kept + amount;
      if ok {
        ram := ram - amount;
      }
    }
  }

  /** How a fault ends: at the guard, without memory, or for the caller to handle. */
  datatype FaultResult = GuardHit | NoMemory | Handle

  class Anonymous {
    var committedSize: int
    var committedSwap: int
    var precommitted: nat            // precommitted_pages
    var pageCount: nat               // page_count
    const guardSize: nat
    const canOvercommit: bool

    constructor (guardSize: nat, canOvercommit: bool, precommitted: nat)
      ensures committedSize == committedSwap == 0 && pageCount == 0 && this.precommitted == precommitted
    {
      this.guardSize, this.canOvercommit, this.precommitted := guardSize, canOvercommit, precommitted;
      committedSize, committedSwap, pageCount := 0, 0, 0;
    }

    /** All pages, and those promised to come, are paid for. */
    ghost predicate Covered(pages: nat)
      reads this
    {
      committedSize >= (pages + precommitted) * PAGE
    }

    ghost function AsCache(phase: Phase): Cache
      reads this
    {
      Cache(committedSize, committedSwap, phase)
    }

    /**
      Ends with the size asked for unless the swap space has run out and there is
      not enough memory; nothing is lost either way, swap space is preferred, and
      a failed call has kept the swap space it found.
    */
    method Commit(size: int, kept: nat, a: Available) returns (ok: bool)
      requires CacheOk(AsCache(Idle(Nothing))) && a.swap >= 0 && size >= 0
      modifies this, a
      ensures CacheOk(AsCache(Idle(if ok then Committed(size) else Failed)))
      ensures a.swap + committedSwap == old(a.swap + committedSwap) && a.swap >= 0
      ensures a.ram + committedSize - committedSwap == old(a.ram + committedSize - committedSwap)
      ensures committedSwap == Min(size, old(committedSwap + a.swap))
      ensures ok ==> committedSize == size
      ensures !ok ==> committedSize < size && a.swap == 0 && a.ram == old(a.ram)
      ensures !ok ==> size - committedSize + kept >= a.total * 9 / 10 || a.ram < kept + size - committedSize
      ensures committedSize - committedSwap > old(committedSize - committedSwap) ==> ok && a.swap == 0
    {
      var memory := committedSize - committedSwap;
      if size > committedSwap {
        var reserved := a.ReserveSwap(size - committedSwap);
        committedSwap := committedSwap + reserved;
        committedSize := committedSwap + memory;
      }
      if committedSize == size { return true; }
      if committedSize > size {
        var left := committedSize - size;
        if memory > 0 {
          var unreserved := Min(left, memory);
          a.ram := a.ram + unreserved;
          committedSize := committedSize - unreserved;
          left := left - unreserved;
        }
        if left > 0 {
          a.swap := a.swap + left;
          committedSwap := committedSwap - left;
          committedSize := committedSize - left;
        }
        return true;
      }
      ok := a.TryReserveRam(size - committedSize, kept);
      if !ok { return false; }
      committedSize := size;
    }

    /**
      A fault at an offset where a page or a swap slot is or is not `present`.
      A page the cache may lack is paid for before it is made: from what was
      precommitted, from what is committed beyond the pages there are, or with
      one more page, and no more than that.  Whether something was lost depends
      only on the swap space found.
    */
    method Fault(offset: nat, present: bool, kept: nat, a: Available) returns (r: FaultResult)
      requires CacheOk(AsCache(Idle(Nothing))) && a.swap >= 0
      modifies this, a
      ensures CacheOk(AsCache(Idle(Nothing))) && a.swap >= 0 && pageCount == old(pageCount)
      ensures r == GuardHit <==> offset < guardSize
      ensures r == Handle && canOvercommit && !present && old(Covered(pageCount)) ==> Covered(pageCount + 1)
      ensures committedSize != old(committedSize) ==>
        committedSize == old(committedSize) + PAGE && committedSize < (pageCount + 2) * PAGE
      ensures committedSize != old(committedSize) ==> r == Handle && precommitted == old(precommitted) == 0
      ensures present || !canOvercommit || r == GuardHit || old(precommitted) > 0 ==>
        committedSize == old(committedSize) && committedSwap == old(committedSwap) && a.swap == old(a.swap)
          && a.ram == old(a.ram)
      ensures a.ram + committedSize - committedSwap == old(a.ram + committedSize - committedSwap)
      ensures a.swap + committedSwap == old(a.swap + committedSwap) <==>
        !(old(Reserves(offset, present)) && 0 < old(a.swap) < PAGE)
      ensures r == NoMemory ==> old(Reserves(offset, present)) && old(a.swap) < PAGE && a.ram == old(a.ram)
    {
      if guardSize > 0 && offset < guardSize { return GuardHit; }
      if canOvercommit && !present {
        if precommitted == 0 {
          if committedSize / PAGE > pageCount { return Handle; }
          var reserved := a.ReserveSwap(PAGE);
          if reserved == PAGE {
            committedSwap := committedSwap + PAGE;
          } else {
            var ok := a.TryReserveRam(PAGE, kept);
            if !ok { return NoMemory; }
          }
          committedSize := committedSize + PAGE;
        } else {
          precommitted := precommitted - 1;
        }
      }
      return Handle;
    }

    /** The fault has to commit a page. */
    predicate Reserves(offset: nat, present: bool)
      reads this
    {
      offset >= guardSize && canOvercommit && !present && precommitted == 0 && committedSize / PAGE <= pageCount
    }

    /** Merge takes over what the source has committed. */
    method TakeOver(source: Anonymous, actualSize: nat, kept: nat, a: Available)
      requires this != source && a.swap >= 0 && CacheOk(AsCache(Idle(Nothing)))
      requires CacheOk(source.AsCache(Idle(Nothing)))
      modifies this, source, a
      ensures CacheOk(AsCache(Idle(Nothing))) && source.committedSize == source.committedSwap == 0 && a.swap >= 0
      ensures committedSize == Min(actualSize, old(committedSize + source.committedSize))
      ensures a.swap + committedSwap == old(a.swap + committedSwap + source.committedSwap)
      ensures a.ram + committedSize - committedSwap ==
        old(a.ram + committedSize - committedSwap + source.committedSize - source.committedSwap)
    {
      committedSwap := committedSwap + source.committedSwap;
      source.committedSwap := 0;
      committedSize := committedSize + source.committedSize;
      source.committedSize := 0;
      if committedSize > actualSize {
        var ok := Commit(actualSize, kept, a);
      }
    }
  }
}
