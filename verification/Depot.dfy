/**
  The object depot (slab/mm_depot.cpp): per-CPU pairs of magazines in front of
  shared lists of full and empty ones.  A step is what one CPU does with
  interrupts off; between steps threads carry the object they are storing, and
  detached magazines are emptied object by object.
*/
module Depot {
  import opened Options

  type Obj = nat

  type Magazine = seq<Obj>

  datatype Store = Store(loaded: Option<Magazine>, previous: Option<Magazine>)

  /**
    `carried` are the objects being stored, `draining` those in magazines being
    emptied, `slab` those in the slabs, `out` those in use.
  */
  datatype State = State(stores: seq<Store>, full: seq<Magazine>, empty: seq<Magazine>, fullCount: int, emptyCount: int,
                         max: nat, capacity: nat, carried: multiset<Obj>, draining: multiset<Obj>,
                         slab: multiset<Obj>, out: multiset<Obj>)

  // ---- counting an object ----

  /** How often x is among the objects of a magazine. */
  function InSeq(m: seq<Obj>, x: Obj): nat {
    if m == [] then 0 else InSeq(m[..|m| - 1], x) + (if m[|m| - 1] == x then 1 else 0)
  }

  function InMagazine(m: Option<Magazine>, x: Obj): nat { if m.Some? then InSeq(m.value, x) else 0 }

  function InStore(s: Store, x: Obj): nat { InMagazine(s.loaded, x) + InMagazine(s.previous, x) }

  function InStores(ss: seq<Store>, x: Obj): nat {
    if ss == [] then 0 else InStores(ss[..|ss| - 1], x) + InStore(ss[|ss| - 1], x)
  }

  function InList(ms: seq<Magazine>, x: Obj): nat {
    if ms == [] then 0 else InSeq(ms[0], x) + InList(ms[1..], x)
  }

  /** Where object x is, counted over all places it can be. */
  function Everywhere(s: State, x: Obj): nat {
    InStores(s.stores, x) + InList(s.full, x) + InList(s.empty, x) + s.carried[x] + s.draining[x] + s.slab[x] + s.out[x]
  }

  lemma {:induction false} StoreUpdate(ss: seq<Store>, c: nat, s: Store, x: Obj)
    requires c < |ss|
    ensures InStores(ss[c := s], x) + InStore(ss[c], x) == InStores(ss, x) + InStore(s, x)
  {
    var n := |ss| - 1;
    if c == n {
      assert ss[c := s][..n] == ss[..n];
    } else {
      StoreUpdate(ss[..n], c, s, x);
      assert ss[c := s][..n] == ss[..n][c := s];
    }
  }

  lemma PushList(ms: seq<Magazine>, m: Magazine, x: Obj)
    ensures InList([m] + ms, x) == InSeq(m, x) + InList(ms, x)
  {
    assert ([m] + ms)[1..] == ms;
  }

  lemma PushSeq(m: Magazine, y: Obj, x: Obj)
    ensures InSeq(m + [y], x) == InSeq(m, x) + (if y == x then 1 else 0)
  {
    assert (m + [y])[..|m|] == m;
  }

  lemma {:induction false} NoStores(n: nat, x: Obj)
    ensures InStores(seq(n, _ => Store(None, None)), x) == 0
  {
    if n > 0 {
      var ss: seq<Store> := seq(n, _ => Store(None, None));
      assert ss[..n - 1] == seq(n - 1, _ => Store(None, None));
      NoStores(n - 1, x);
    }
  }

  // ---- invariant ----

  predicate IsFull(m: Magazine, capacity: nat) { |m| == capacity }

  ghost predicate StoreOk(s: Store, capacity: nat) {
    && (s.loaded.Some? ==> |s.loaded.value| <= capacity)
    && (s.previous.Some? ==> s.previous.value == [] || IsFull(s.previous.value, capacity))
  }

  /** The counts may exceed the list lengths, but not fall below, and `max` is kept. */
  ghost predicate Inv(s: State) {
    && s.capacity > 0
    && (forall c | 0 <= c < |s.stores| :: StoreOk(s.stores[c], s.capacity))
    && (forall i | 0 <= i < |s.full| :: IsFull(s.full[i], s.capacity))
    && (forall i | 0 <= i < |s.empty| :: s.empty[i] == [])
    && |s.full| <= s.fullCount <= s.max && |s.empty| <= s.emptyCount
  }

  // ---- steps ----

  /**
    object_depot_obtain: from the loaded magazine, else from the previous one if full, else from a
    full one of the depot.
  */
  function Obtained(s: State, c: nat): (State, Option<Obj>)
    requires c < |s.stores|
  {
    var st := s.stores[c];
    if st.loaded.None? then (s, None)
    else if st.loaded.value != [] then Popped(s, c, st)
    else if st.previous.None? then (s, None)
    else if IsFull(st.previous.value, s.capacity) then Popped(s, c, Store(st.previous, st.loaded))
    else if s.full == [] then (s, None)
    else
      var s1 := s.(fullCount := s.fullCount - 1, emptyCount := s.emptyCount + 1, full := s.full[1..],
        empty := [st.previous.value] + s.empty);
      Popped(s1, c, Store(Some(s.full[0]), st.loaded))
  }

  /** The last object of the loaded magazine goes out. */
  function Popped(s: State, c: nat, st: Store): (State, Option<Obj>)
    requires c < |s.stores|
  {
    if st.loaded.None? || st.loaded.value == [] then (s.(stores := s.stores[c := st]), None)
    else
      var m := st.loaded.value;
      var x := m[|m| - 1];
      (s.(stores := s.stores[c := st.(loaded := Some(m[..|m| - 1]))], out := s.out + multiset{x}), Some(x))
  }

  datatype Action =
    | Obtain(c: nat)
    | GiveBack(x: Obj)                    // a client starts storing an object
    | Put(c: nat, x: Obj)                 // the loaded magazine has room
    | Swap(c: nat, x: Obj)                // the previous magazine is empty: swap
    | Exchange(c: nat, x: Obj)            // exchange_with_empty, then swap
    | Allocate(x: Obj)                    // a new empty magazine for the depot, made with all locks released
    | GiveUp(x: Obj)                      // no memory for one: the object goes to the slab
    | Drain(x: Obj)                       // empty_magazine returns one object
    | FromSlab(x: Obj)                    // the depot had none: an object of a slab is handed out
    | MakeEmpty(detached: multiset<Obj>)  // what the detached magazines hold

  /** The loaded magazine takes no object: there is none, or it is full. */
  predicate Stuck(s: State, c: nat)
    requires c < |s.stores|
  {
    s.stores[c].loaded.None? || IsFull(s.stores[c].loaded.value, s.capacity)
  }

  predicate PreviousEmpty(s: State, c: nat)
    requires c < |s.stores|
  {
    s.stores[c].previous.Some? && s.stores[c].previous.value == []
  }

  ghost predicate Enabled(s: State, act: Action) {
    match act
    case Obtain(c) => c < |s.stores|
    case GiveBack(x) => x in s.out
    case Put(c, x) => c < |s.stores| && x in s.carried && !Stuck(s, c)
    case Swap(c, x) => c < |s.stores| && x in s.carried && Stuck(s, c) && PreviousEmpty(s, c)
    case Exchange(c, x) => c < |s.stores| && x in s.carried && Stuck(s, c) && !PreviousEmpty(s, c) && s.empty != []
    case Allocate(x) => x in s.carried
    case GiveUp(x) => x in s.carried
    case Drain(x) => x in s.draining
    case FromSlab(x) => x in s.slab
    case MakeEmpty(detached) => forall x ::
      detached[x] == InStores(s.stores, x) + InList(s.full, x) + InList(s.empty, x)
  }

  /**
    exchange_with_empty and the swap after it: a full previous magazine goes to the depot if there
    is room, else it is emptied.
  */
  function Exchanged(s: State, c: nat): State
    requires c < |s.stores| && s.empty != []
  {
    var st := s.stores[c];
    var s1 := s.(emptyCount := s.emptyCount - 1, empty := s.empty[1..],
      stores := s.stores[c := Store(Some(s.empty[0]), st.loaded)]);
    if st.previous.None? then s1
    else if s.fullCount < s.max then s1.(full := [st.previous.value] + s.full, fullCount := s.fullCount + 1)
    else s1.(draining := s.draining + multiset(st.previous.value))
  }

  /** object_depot_make_empty: all magazines are detached; the counts stay as they are. */
  function Emptied(s: State, detached: multiset<Obj>): State {
    s.(stores := seq(|s.stores|, _ => Store(None, None)), full := [], empty := [], draining := s.draining + detached)
  }

  ghost function Do(s: State, act: Action): State
    requires Enabled(s, act)
  {
    match act
    case Obtain(c) => Obtained(s, c).0
    case GiveBack(x) => s.(out := s.out - multiset{x}, carried := s.carried + multiset{x})
    case Put(c, x) =>
      var st := s.stores[c];
      s.(stores := s.stores[c := st.(loaded := Some(st.loaded.value + [x]))], carried := s.carried - multiset{x})
    case Swap(c, x) => s.(stores := s.stores[c := Store(s.stores[c].previous, s.stores[c].loaded)])
    case Exchange(c, x) => Exchanged(s, c)
    case Allocate(x) => s.(empty := [[]] + s.empty, emptyCount := s.emptyCount + 1)
    case GiveUp(x) => s.(carried := s.carried - multiset{x}, slab := s.slab + multiset{x})
    case Drain(x) => s.(draining := s.draining - multiset{x}, slab := s.slab + multiset{x})
    case FromSlab(x) => s.(slab := s.slab - multiset{x}, out := s.out + multiset{x})
    case MakeEmpty(detached) => Emptied(s, detached)
  }

  // ---- what every step keeps ----

  lemma PoppedInv(s: State, c: nat, st: Store)
    requires Inv(s) && c < |s.stores| && StoreOk(st, s.capacity)
    ensures Inv(Popped(s, c, st).0)
  {
  }

  lemma ObtainInv(s: State, c: nat)
    requires Inv(s) && c < |s.stores|
    ensures Inv(Obtained(s, c).0)
  {
    hide Popped;
    var st := s.stores[c];
    assert StoreOk(st, s.capacity);
    if st.loaded.None? {
    } else if st.loaded.value != [] {
      PoppedInv(s, c, st);
    } else if st.previous.Some? {
      if IsFull(st.previous.value, s.capacity) {
        PoppedInv(s, c, Store(st.previous, st.loaded));
      } else if s.full != [] {
        var s1 := s.(fullCount := s.fullCount - 1, emptyCount := s.emptyCount + 1, full := s.full[1..],
          empty := [st.previous.value] + s.empty);
        assert Inv(s1);
        PoppedInv(s1, c, Store(Some(s.full[0]), st.loaded));
      }
    }
  }

  lemma ExchangeInv(s: State, c: nat)
    requires Inv(s) && c < |s.stores| && s.empty != [] && Stuck(s, c) && !PreviousEmpty(s, c)
    ensures Inv(Exchanged(s, c))
  {
    assert StoreOk(s.stores[c], s.capacity);
  }

  lemma StoreInv(s: State, c: nat, st: Store)
    requires Inv(s) && c < |s.stores| && StoreOk(st, s.capacity)
    ensures Inv(s.(stores := s.stores[c := st]))
  {
  }

  lemma PutInv(s: State, c: nat, x: Obj)
    requires Inv(s) && Enabled(s, Put(c, x))
    ensures Inv(Do(s, Put(c, x)))
  {
    var st := s.stores[c];
    assert StoreOk(st, s.capacity);
    StoreInv(s.(carried := s.carried - multiset{x}), c, st.(loaded := Some(st.loaded.value + [x])));
  }

  lemma SwapInv(s: State, c: nat, x: Obj)
    requires Inv(s) && Enabled(s, Swap(c, x))
    ensures Inv(Do(s, Swap(c, x)))
  {
    assert StoreOk(s.stores[c], s.capacity);
    StoreInv(s, c, Store(s.stores[c].previous, s.stores[c].loaded));
  }

  /** Steps that only carry objects, or add or detach magazines. */
  lemma OtherInv(s: State, act: Action)
    requires Inv(s) && Enabled(s, act)
    requires (act.GiveBack? || act.GiveUp? || act.Drain? || act.FromSlab? || act.Allocate? || act.MakeEmpty?)
    ensures Inv(Do(s, act))
  {
    if act.Allocate? { assert forall i | 0 <= i < |Do(s, act).empty| :: Do(s, act).empty[i] == []; }
  }

  lemma StepInv(s: State, act: Action)
    requires Inv(s) && Enabled(s, act)
    ensures Inv(Do(s, act))
  {
    hide Inv, Do, Enabled;
    match act
    case Obtain(c) => ObtainStepInv(s, c);
    case Exchange(c, x) => ExchangeStepInv(s, c, x);
    case Put(c, x) => PutInv(s, c, x);
    case Swap(c, x) => SwapInv(s, c, x);
    case _ => OtherInv(s, act);
  }

  lemma ObtainStepInv(s: State, c: nat)
    requires Inv(s) && Enabled(s, Obtain(c))
    ensures Inv(Do(s, Obtain(c)))
  {
    hide Inv, Obtained;
    ObtainInv(s, c);
  }

  lemma ExchangeStepInv(s: State, c: nat, x: Obj)
    requires Inv(s) && Enabled(s, Exchange(c, x))
    ensures Inv(Do(s, Exchange(c, x)))
  {
    hide Inv, Exchanged;
    ExchangeInv(s, c);
  }

  // ---- no object is lost or doubled ----

  lemma PoppedKeeps(s: State, c: nat, st: Store, x: Obj)
    requires c < |s.stores|
    ensures Everywhere(Popped(s, c, st).0, x) + InStore(s.stores[c], x) == Everywhere(s, x) + InStore(st, x)
  {
    if st.loaded.None? || st.loaded.value == [] {
      StoreUpdate(s.stores, c, st, x);
    } else {
      var m := st.loaded.value;
      StoreUpdate(s.stores, c, st.(loaded := Some(m[..|m| - 1])), x);
    }
  }

  lemma ObtainKeeps(s: State, c: nat, x: Obj)
    requires Inv(s) && c < |s.stores|
    ensures Everywhere(Obtained(s, c).0, x) == Everywhere(s, x)
  {
    hide Popped, Inv, InStores;
    var st := s.stores[c];
    if st.loaded.None? {
    } else if st.loaded.value != [] {
      PoppedKeeps(s, c, st, x);
    } else if st.previous.Some? {
      if IsFull(st.previous.value, s.capacity) {
        PoppedKeeps(s, c, Store(st.previous, st.loaded), x);
      } else if s.full != [] {
        var s1 := s.(fullCount := s.fullCount - 1, emptyCount := s.emptyCount + 1, full := s.full[1..],
          empty := [st.previous.value] + s.empty);
        PushList(s.empty, st.previous.value, x);
        PoppedKeeps(s1, c, Store(Some(s.full[0]), st.loaded), x);
      }
    }
  }

  lemma ExchangeKeeps(s: State, c: nat, x: Obj)
    requires Inv(s) && c < |s.stores| && s.empty != []
    ensures Everywhere(Exchanged(s, c), x) == Everywhere(s, x)
  {
    hide Inv, InStores;
    var st := s.stores[c];
    StoreUpdate(s.stores, c, Store(Some(s.empty[0]), st.loaded), x);
    if st.previous.Some? {
      PushList(s.full, st.previous.value, x);
      SeqCount(st.previous.value, x);
    }
  }

  lemma {:induction false} SeqCount(m: seq<Obj>, x: Obj)
    ensures multiset(m)[x] == InSeq(m, x)
  {
    if m != [] {
      SeqCount(m[..|m| - 1], x);
      assert m == m[..|m| - 1] + [m[|m| - 1]];
    }
  }

  lemma PutKeeps(s: State, c: nat, y: Obj, x: Obj)
    requires Enabled(s, Put(c, y))
    ensures Everywhere(Do(s, Put(c, y)), x) == Everywhere(s, x)
  {
    hide InStores, InList, InSeq;
    var st := s.stores[c];
    PushSeq(st.loaded.value, y, x);
    StoreUpdate(s.stores, c, st.(loaded := Some(st.loaded.value + [y])), x);
  }

  lemma SwapKeeps(s: State, c: nat, y: Obj, x: Obj)
    requires Enabled(s, Swap(c, y))
    ensures Everywhere(Do(s, Swap(c, y)), x) == Everywhere(s, x)
  {
    hide InStores, InList, InSeq;
    StoreUpdate(s.stores, c, Store(s.stores[c].previous, s.stores[c].loaded), x);
  }

  lemma EmptyKeeps(s: State, detached: multiset<Obj>, x: Obj)
    requires Enabled(s, MakeEmpty(detached))
    ensures Everywhere(Do(s, MakeEmpty(detached)), x) == Everywhere(s, x)
  {
    hide InStores;
    NoStores(|s.stores|, x);
  }

  /** Every step keeps the number of times each object is anywhere. */
  lemma StepKeeps(s: State, act: Action, x: Obj)
    requires Inv(s) && Enabled(s, act)
    ensures Everywhere(Do(s, act), x) == Everywhere(s, x)
  {
    hide Inv, InStores, InList, Obtained, Exchanged, Stuck, PreviousEmpty;
    match act
    case Obtain(c) => ObtainKeeps(s, c, x);
    case Exchange(c, _) => ExchangeKeeps(s, c, x);
    case Put(c, y) => PutKeeps(s, c, y, x);
    case Swap(c, y) => SwapKeeps(s, c, y, x);
    case GiveBack(_) =>
    case Allocate(_) => PushList(s.empty, [], x);
    case GiveUp(_) =>
    case Drain(_) =>
    case FromSlab(_) =>
    case MakeEmpty(detached) => EmptyKeeps(s, detached, x);
  }

  // ---- the counts ----

  /** By how much the count of full magazines exceeds the list. */
  function Slack(s: State): int { s.fullCount - |s.full| }

  /**
    Only make_empty makes a count differ from its list: the counts are not
    reset, so they stay exact through it exactly if there was nothing to detach.
  */
  lemma SlackStep(s: State, act: Action)
    requires Inv(s) && Enabled(s, act)
    ensures Slack(Do(s, act)) == Slack(s) + (if act.MakeEmpty? then |s.full| else 0)
    ensures Do(s, act).emptyCount - |Do(s, act).empty| ==
      s.emptyCount - |s.empty| + (if act.MakeEmpty? then |s.empty| else 0)
    ensures Do(s, act).max == s.max && Do(s, act).capacity == s.capacity
  {
    match act
    case Obtain(c) => ObtainSlack(s, c);
    case Exchange(_, _) =>
    case Put(_, _) =>
    case Swap(_, _) =>
    case GiveBack(_) =>
    case Allocate(_) =>
    case GiveUp(_) =>
    case Drain(_) =>
    case FromSlab(_) =>
    case MakeEmpty(_) =>
  }

  lemma ObtainSlack(s: State, c: nat)
    requires c < |s.stores|
    ensures var s2 := Obtained(s, c).0;
      && s2.fullCount - |s2.full| == s.fullCount - |s.full| && s2.emptyCount - |s2.empty| == s.emptyCount - |s.empty|
      && s2.max == s.max && s2.capacity == s.capacity
  {
  }

  // ---- runs ----

  /** A new depot; all objects are in use or in the slabs. */
  ghost predicate Init(s: State) {
    && s.capacity > 0 && (forall c | 0 <= c < |s.stores| :: s.stores[c] == Store(None, None))
    && s.full == [] && s.empty == [] && s.fullCount == s.emptyCount == 0
    && s.carried == s.draining == multiset{}
  }

  ghost predicate IsRun(states: seq<State>, acts: seq<Action>) {
    && |states| == |acts| + 1 && Init(states[0])
    && forall i | 0 <= i < |acts| :: Enabled(states[i], acts[i]) && states[i + 1] == Do(states[i], acts[i])
  }

  /** In every state of every run the invariant holds and each object is where it was put, as often as at the start. */
  lemma {:induction false} RunKeeps(states: seq<State>, acts: seq<Action>, i: nat, x: Obj)
    requires IsRun(states, acts) && i <= |acts|
    ensures Inv(states[i]) && Everywhere(states[i], x) == Everywhere(states[0], x) && states[i].max == states[0].max
    ensures Slack(states[i]) >= 0
  {
    hide Do, Enabled, Everywhere;
    if i > 0 {
      RunKeeps(states, acts, i - 1, x);
      StepInv(states[i - 1], acts[i - 1]);
      StepKeeps(states[i - 1], acts[i - 1], x);
      SlackStep(states[i - 1], acts[i - 1]);
    }
  }

  /** In every run both asserts of the exchanges hold: the magazine handed in is empty, or missing or full. */
  lemma ExchangeAsserts(states: seq<State>, acts: seq<Action>, i: nat, c: nat)
    requires IsRun(states, acts) && i <= |acts| && c < |states[i].stores|
    ensures var previous := states[i].stores[c].previous;
      && (previous.Some? && !IsFull(previous.value, states[i].capacity) ==> previous.value == [])
      && (!PreviousEmpty(states[i], c) ==> previous.None? || IsFull(previous.value, states[i].capacity))
  {
    hide Do, Enabled, Everywhere;
    RunKeeps(states, acts, i, 0);
    assert StoreOk(states[i].stores[c], states[i].capacity);
  }

  /**
    In every run, however often it went through the depot and the slabs, an
    object that exists once is in one place; while it is handed out it is
    nowhere else.
  */
  lemma HandedOutOnce(states: seq<State>, acts: seq<Action>, i: nat, x: Obj)
    requires IsRun(states, acts) && i <= |acts| && Everywhere(states[0], x) == 1
    ensures Everywhere(states[i], x) == 1
    ensures states[i].out[x] == 1 ==>
      && states[i].slab[x] == states[i].carried[x] == states[i].draining[x] == 0
      && InStores(states[i].stores, x) == InList(states[i].full, x) == InList(states[i].empty, x) == 0
  {
    RunKeeps(states, acts, i, x);
  }

  /**
    What make_empty leaves behind is lost for good: once the count is at its
    maximum with no full magazine left, the depot never keeps one again.
  */
  lemma {:induction false} FullListStaysEmpty(states: seq<State>, acts: seq<Action>, i: nat, j: nat)
    requires IsRun(states, acts) && i <= j <= |acts| && states[i].full == [] && states[i].fullCount == states[i].max
    ensures states[j].full == [] && states[j].fullCount == states[j].max
    decreases j
  {
    hide Do, Enabled, Everywhere, StoreOk, IsFull;
    if i < j {
      FullListStaysEmpty(states, acts, i, j - 1);
      RunKeeps(states, acts, j - 1, 0);
      StepInv(states[j - 1], acts[j - 1]);
      SlackStep(states[j - 1], acts[j - 1]);
    }
  }

  // ---- a run after which the depot keeps no full magazine ----

  ghost predicate Leads(s: State, act: Action, s2: State) { Enabled(s, act) && Do(s, act) == s2 }

  /** One processor, magazines of one object, room for one full magazine. */
  function At(loaded: Option<Magazine>, previous: Option<Magazine>, full: seq<Magazine>, empty: seq<Magazine>,
              carried: multiset<Obj>, out: multiset<Obj>): State {
    State([Store(loaded, previous)], full, empty, |full|, |empty|, 1, 1, carried, multiset{}, multiset{}, out)
  }

  lemma Freeing(loaded: Option<Magazine>, previous: Option<Magazine>, out: multiset<Obj>, x: Obj)
    requires x in out
    ensures Leads(At(loaded, previous, [], [], multiset{}, out), GiveBack(x),
                  At(loaded, previous, [], [], multiset{x}, out - multiset{x}))
  {
  }

  lemma Filling(previous: Option<Magazine>, out: multiset<Obj>, x: Obj)
    ensures Leads(At(Some([]), previous, [], [], multiset{x}, out), Put(0, x),
      At(Some([x]), previous, [], [], multiset{}, out))
  {
    var s := At(Some([]), previous, [], [], multiset{x}, out);
    assert multiset{x} - multiset{x} == multiset{};
    assert s.stores[0].loaded.value + [x] == [x];
  }

  lemma Exchanging(x: Obj, y: Obj, z: Obj, out: multiset<Obj>)
    ensures Leads(At(None, None, [], [[]], multiset{x}, out), Exchange(0, x),
      At(Some([]), None, [], [], multiset{x}, out))
    ensures Leads(At(Some([y]), None, [], [[]], multiset{x}, out), Exchange(0, x),
      At(Some([]), Some([y]), [], [], multiset{x}, out))
    ensures Leads(At(Some([y]), Some([z]), [], [[]], multiset{x}, out), Exchange(0, x),
                  At(Some([]), Some([y]), [[z]], [], multiset{x}, out))
  {
  }

  lemma Detaching()
    ensures var s := At(Some([]), Some([2]), [[1]], [], multiset{3}, multiset{});
      Enabled(s, MakeEmpty(multiset{1, 2})) && Do(s, MakeEmpty(multiset{1, 2})).full == []
      && Do(s, MakeEmpty(multiset{1, 2})).fullCount == 1 == Do(s, MakeEmpty(multiset{1, 2})).max
  {
    var s := At(Some([]), Some([2]), [[1]], [], multiset{3}, multiset{});
    forall x ensures multiset{1, 2}[x] == InStores(s.stores, x) + InList(s.full, x) + InList(s.empty, x) {
      assert InStores(s.stores, x) == InStores([], x) + InStore(s.stores[0], x) by { assert s.stores[..0] == []; }
      assert InSeq([2], x) == InSeq([], x) + (if x == 2 then 1 else 0) by { assert [2][..0] == []; }
      assert InSeq([1], x) == InSeq([], x) + (if x == 1 then 1 else 0) by { assert [1][..0] == []; }
      assert InList(s.full, x) == InSeq([1], x) + InList([], x);
    }
  }

  lemma Extend(states: seq<State>, acts: seq<Action>, act: Action, s: State)
    returns (states2: seq<State>, acts2: seq<Action>)
    requires IsRun(states, acts) && Leads(states[|acts|], act, s)
    ensures IsRun(states2, acts2) && |states2| == |acts2| + 1 && states2[|acts2|] == s && acts2 == acts + [act]
  {
    hide Do, Enabled;
    states2, acts2 := states + [s], acts + [act];
    forall i | 0 <= i < |acts2| ensures Enabled(states2[i], acts2[i]) && states2[i + 1] == Do(states2[i], acts2[i]) {
      if i < |acts| {
        assert states2[i] == states[i] && states2[i + 1] == states[i + 1] && acts2[i] == acts[i];
      }
    }
  }

  /** Freeing three objects puts a full magazine into the depot; then the depot is made empty. */
  lemma FullListIsLost() returns (states: seq<State>, acts: seq<Action>)
    ensures IsRun(states, acts) && |states| == |acts| + 1
    ensures var s := states[|acts|]; s.full == [] && s.fullCount == s.max == 1
  {
    hide Leads, IsRun;
    states, acts := [At(None, None, [], [], multiset{}, multiset{1, 2, 3})], [];
    Fresh();
    states, acts := Frees(states, acts, None, None, multiset{1, 2, 3}, 1);
    assert multiset{1, 2, 3} - multiset{1} == multiset{2, 3};
    Exchanging(1, 0, 0, multiset{2, 3});
    states, acts := Extend(states, acts, Exchange(0, 1), At(Some([]), None, [], [], multiset{1}, multiset{2, 3}));
    Filling(None, multiset{2, 3}, 1);
    states, acts := Extend(states, acts, Put(0, 1), At(Some([1]), None, [], [], multiset{}, multiset{2, 3}));
    states, acts := Frees(states, acts, Some([1]), None, multiset{2, 3}, 2);
    assert multiset{2, 3} - multiset{2} == multiset{3};
    Exchanging(2, 1, 0, multiset{3});
    states, acts := Extend(states, acts, Exchange(0, 2), At(Some([]), Some([1]), [], [], multiset{2}, multiset{3}));
    Filling(Some([1]), multiset{3}, 2);
    states, acts := Extend(states, acts, Put(0, 2), At(Some([2]), Some([1]), [], [], multiset{}, multiset{3}));
    states, acts := Frees(states, acts, Some([2]), Some([1]), multiset{3}, 3);
    Exchanging(3, 2, 1, multiset{});
    states, acts := Extend(states, acts, Exchange(0, 3), At(Some([]), Some([2]), [[1]], [], multiset{3}, multiset{}));
    states, acts := Detached(states, acts);
  }

  lemma Fresh()
    ensures IsRun([At(None, None, [], [], multiset{}, multiset{1, 2, 3})], [])
  {
  }

  lemma Frees(states: seq<State>, acts: seq<Action>, loaded: Option<Magazine>, previous: Option<Magazine>,
              out: multiset<Obj>, x: Obj) returns (states2: seq<State>, acts2: seq<Action>)
    requires IsRun(states, acts) && |states| == |acts| + 1 && x in out
    requires states[|acts|] == At(loaded, previous, [], [], multiset{}, out)
    ensures IsRun(states2, acts2) && |states2| == |acts2| + 1
    ensures states2[|acts2|] == At(loaded, previous, [], [[]], multiset{x}, out - multiset{x})
  {
    hide Leads, IsRun;
    Freeing(loaded, previous, out, x);
    states2, acts2 := Extend(states, acts, GiveBack(x), At(loaded, previous, [], [], multiset{x}, out - multiset{x}));
    Allocating(loaded, previous, out - multiset{x}, x);
    states2, acts2 := Extend(states2, acts2, Allocate(x),
      At(loaded, previous, [], [[]], multiset{x}, out - multiset{x}));
  }

  lemma Allocating(loaded: Option<Magazine>, previous: Option<Magazine>, out: multiset<Obj>, x: Obj)
    ensures Leads(At(loaded, previous, [], [], multiset{x}, out), Allocate(x),
                  At(loaded, previous, [], [[]], multiset{x}, out))
  {
  }

  lemma Detached(states: seq<State>, acts: seq<Action>) returns (states2: seq<State>, acts2: seq<Action>)
    requires IsRun(states, acts) && |states| == |acts| + 1
    requires states[|acts|] == At(Some([]), Some([2]), [[1]], [], multiset{3}, multiset{})
    ensures IsRun(states2, acts2) && |states2| == |acts2| + 1
    ensures var s := states2[|acts2|]; s.full == [] && s.fullCount == s.max == 1
  {
    hide IsRun, Do, Enabled;
    Detaching();
    var s := states[|acts|];
    states2, acts2 := Extend(states, acts, MakeEmpty(multiset{1, 2}), Do(s, MakeEmpty(multiset{1, 2})));
  }
}
