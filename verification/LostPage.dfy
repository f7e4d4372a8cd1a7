/**
  Two concrete runs in which an area loses a page although nobody stores through
  it: one frees a swap slot after a merge, one merges twice.  In both the first
  merge copies a slot into a block the consumer has, without raising its counter.
  Every merge follows at once on the drop of the other consumer, as in the code.
*/
module LostPage {
  import opened Options
  import Swap = SwapBlocks
  import opened CopyOnWrite

  // ---- the first merge ----

  /** The slot of page 1 below, and that of page 0 above. */
  function Lower(): Backing { Slots(Swap.Build(map[], 1, 0), 1) }

  function Upper(): Backing { Slots(Swap.Build(map[], 0, 1), 1) }

  function Disk(): map<Swap.Slot, int> { map[0 := 7, 1 := 0] }

  function Bottom(): Cache { Cache(None, map[], Lower()) }

  function Middle(): Cache { Cache(Some(0), map[], Upper()) }

  ghost function Both(): Cache { MergedCache(Middle(), Bottom()) }

  lemma Backs()
    ensures Swap.BlocksExact(Lower().blocks) && Swap.BlocksExact(Upper().blocks)
    ensures forall o :: Slot(Lower(), o) == if o == 1 then Some(0) else None
    ensures forall o :: Slot(Upper(), o) == if o == 0 then Some(1) else None
    ensures 0 in Lower().blocks && 0 in Upper().blocks && Upper().blocks[0].used == 1 && Lower().blocks[0].used == 1
  {
    Swap.BuildIs(map[], 1, 0);
    Swap.BuildIs(map[], 0, 1);
  }

  /** The merged block has both slots and a counter of one. */
  lemma BothIs()
    ensures Both().source == None && Both().pages == map[] && Both().back.Slots?
    ensures Swap.BlocksShaped(Both().back.blocks)
    ensures forall o :: Slot(Both().back, o) == if o == 0 then Some(1) else if o == 1 then Some(0) else None
    ensures 0 in Both().back.blocks && Both().back.blocks[0].used == 1
  {
    hide Swap.Build, Swap.UsedAfter, Swap.ResidentIn;
    Backs();
    var c, s := Im(Middle()), Im(Bottom());
    Swap.MergedShaped(c, s);
    forall o ensures Slot(Both().back, o) == if o == 0 then Some(1) else if o == 1 then Some(0) else None {
      NotSkipped(o);
      assert Swap.SlotAt(s.blocks, o) == Slot(Lower(), o) && Swap.SlotAt(c.blocks, o) == Slot(Upper(), o);
      Swap.ExactLosesNothing(c, s, o);
      Swap.MergedSlotAt(c, s, o);
    }
    NotSkipped(0);
    OneKept();
    Swap.CopiedBlock(c, s, 0);
  }

  lemma NotSkipped(o: int)
    ensures Both().source == None && Both().pages == map[] && Both().back.Slots?
    ensures Both().back.blocks == Swap.Merged(Im(Middle()), Im(Bottom())).blocks
  {
    hide Swap.MergeBlocks, Swap.MergedSize, Swap.Build;
    assert Swap.MergePages(Im(Middle()), Im(Bottom())) == map[];
  }

  lemma OneKept()
    ensures Swap.UsedAfter(Some(Upper().blocks[0]), Lower().blocks[0], Swap.ResidentIn<Id>(map[], 0)) != 0
  {
    hide Swap.Build, Swap.UsedAfter, Swap.ResidentIn;
    Backs();
    var cb, sb, resident := Some(Upper().blocks[0]), Lower().blocks[0], Swap.ResidentIn<Id>(map[], 0);
    Swap.ExactDiscardsEmpty(cb, sb, resident);
    assert Slot(Lower(), 1) == Some(0) && Slot(Upper(), 1) == None;
    assert Swap.Kept(cb, sb.slots, resident)[1].Some?;
  }

  // ---- up to the first merge ----

  function Anon(source: Option<Id>, pages: map<int, Id>): Cache { Cache(source, pages, NoSlots()) }

  function S1(): State { State(map[0 := Anon(None, map[])], map[], map[0 := Area(0, true)], map[], {}, map[]) }

  function S2(v: int): State {
    State(map[0 := Anon(None, map[1 := 0])], map[0 := Frame(v, 0, 1)], map[0 := Area(0, true)],
          map[(0, 1) := Mapping(0, true)], {}, map[])
  }

  function S4(): State {
    State(map[0 := Cache(None, map[1 := 0], Lower())], map[0 := Frame(7, 0, 1)], map[0 := Area(0, true)],
          map[(0, 1) := Mapping(0, true)], {}, map[0 := 7])
  }

  function S5(): State { State(map[0 := Bottom()], map[], map[0 := Area(0, true)], map[], {}, map[0 := 7]) }

  function S6(): State {
    State(map[0 := Bottom(), 1 := Anon(Some(0), map[]), 2 := Anon(Some(0), map[])], map[],
          map[0 := Area(2, true), 1 := Area(1, true)], map[], {}, map[0 := 7])
  }

  function S7(): State {
    State(map[0 := Bottom(), 1 := Anon(Some(0), map[0 := 0]), 2 := Anon(Some(0), map[])], map[0 := Frame(0, 1, 0)],
          map[0 := Area(2, true), 1 := Area(1, true)], map[(1, 0) := Mapping(0, true)], {}, map[0 := 7])
  }

  function S8(): State {
    S7().(caches := map[0 := Bottom(), 1 := Cache(Some(0), map[0 := 0], Upper()), 2 := Anon(Some(0), map[])],
      disk := Disk())
  }

  function S9(): State {
    State(map[0 := Bottom(), 1 := Middle(), 2 := Anon(Some(0), map[])], map[],
          map[0 := Area(2, true), 1 := Area(1, true)], map[], {}, Disk())
  }

  function S10(): State { S9().(areas := map[1 := Area(1, true)]) }

  function S11(): State {
    State(map[0 := Bottom(), 1 := Middle()], map[], map[1 := Area(1, true)], map[], {}, Disk())
  }

  ghost function S12(): State { State(map[1 := Both()], map[], map[1 := Area(1, true)], map[], {}, Disk()) }

  /** The step is possible and leads from s to s2. */
  ghost predicate Leads(s: State, act: Action, s2: State) { Enabled(s, act) && Do(s, act) == s2 }

  function S0(): State { State(map[], map[], map[], map[], {}, map[]) }

  lemma To1()
    ensures Leads(S0(), NewArea(0, 0, true, None), S1())
  {
  }

  lemma To2()
    ensures Leads(S1(), CleanWrite(0, 1, 0), S2(0))
  {
    NoSlotsIs(map[], 1);
  }

  lemma To3()
    ensures Leads(S2(0), StoreValue(0, 1, 7), S2(7))
  {
  }

  lemma To4()
    ensures Leads(S2(7), WriteBack(0, 1, 0), S4())
  {
    hide Swap.Build;
    forall o ensures !Backed(NoSlots(), o) && Slot(NoSlots(), o).None? { NoSlotsIs(map[], o); }
  }

  lemma To5()
    ensures Leads(S4(), Steal(0, 1), S5())
  {
    hide Swap.Build;
    Backs();
    assert Unmapped(S4(), 0) == map[];
  }

  lemma To6()
    ensures Leads(S5(), CopyArea(0, 1, 1, 2, 0), S6())
  {
    hide Swap.Build, PagesBelow, WiredIn, UpFrames, ReadOnly;
    NoPages(0, 2, 0);
  }

  /** A fork of a cache without pages moves none. */
  lemma NoPages(c: Id, u: Id, a: Id)
    ensures PagesBelow(map[], {}, 0) == map[] && WiredIn(map[], {}) == map[]
    ensures UpFrames(map[], {}, c, u, 0) == map[] && ReadOnly(map[], {}, a) == map[]
  {
  }

  lemma To7()
    ensures Leads(S6(), CleanWrite(1, 0, 0), S7())
  {
    hide Swap.Build, Slot;
    Backs();
    NoSlotsIs(map[], 0);
  }

  lemma To8()
    ensures Leads(S7(), WriteBack(1, 0, 1), S8())
  {
    hide Swap.Build, Slot;
    Backs();
    forall o ensures !Backed(NoSlots(), o) && Slot(NoSlots(), o).None? { NoSlotsIs(map[], o); }
  }

  lemma To9()
    ensures Leads(S8(), Steal(1, 0), S9())
  {
    hide Swap.Build, Slot;
    Backs();
    assert Unmapped(S8(), 0) == map[];
  }

  lemma To10()
    ensures Leads(S9(), DeleteArea(0), S10())
  {
    hide Swap.Build;
  }

  lemma To11()
    ensures Leads(S10(), Drop(2), S11())
  {
    hide Swap.Build, Leads;
    Dropped(S10(), 2, S11().caches);
  }

  /** A cache without pages goes. */
  lemma Dropped(s: State, c: Id, caches: map<Id, Cache>)
    requires NoConsumer(s.caches, c) && NoArea(s, c) && caches == s.caches - {c}
    requires forall p | p in s.frames :: s.frames[p].cache != c
    ensures Leads(s, Drop(c), s.(caches := caches))
  {
    assert (map p | p in s.frames && s.frames[p].cache != c :: s.frames[p]) == s.frames;
  }

  lemma To12()
    ensures Leads(S11(), Merge(0, 1), S12())
  {
    hide Swap.Build, MergedCache;
  }

  // ---- freeing a slot ----

  ghost function A13(): State {
    State(map[1 := Both().(pages := map[0 := 0])], map[0 := Frame(0, 1, 0)], map[1 := Area(1, true)], map[], {}, Disk())
  }

  ghost function A14(): State { A13().(caches := map[1 := SlotFreed(Both().(pages := map[0 := 0]), 0)]) }

  lemma ToA13()
    ensures Leads(S12(), PageIn(1, 0, 0), A13())
  {
    hide Both, Slot;
    BothIs();
  }

  lemma ToA14()
    ensures Leads(A13(), FreeSlot(1, 0), A14())
  {
    hide Both, Slot, SlotFreed;
    BothIs();
  }

  lemma PageOneGone()
    ensures Content(A13(), 1, 1) == 7 && Content(A14(), 1, 1) == 0 && 1 in A14().areas
  {
    hide Both, SlotFreed;
    BothIs();
    var k := Both().(pages := map[0 := 0]);
    FreedAt(k, 0, 1);
    assert Slot(Both().back, 1) == Some(0);
  }

  /** A run that frees a slot: area 1, a copy of area 0, loses what was stored at page 1. */
  lemma FreeingLosesAPage() returns (states: seq<State>, acts: seq<Action>)
    ensures IsRun(states, acts) && |acts| == 14 && acts[13] == FreeSlot(1, 0)
    ensures Content(states[13], 1, 1) == 7 && Content(states[14], 1, 1) == 0
    ensures !Harmless(states[13], acts[13])
  {
    hide Leads, IsRun, S12, A13, A14, Content, Harmless;
    states, acts := FirstTwelve();
    ToA13();
    states, acts := Extend(states, acts, PageIn(1, 0, 0), A13());
    ToA14();
    states, acts := Extend(states, acts, FreeSlot(1, 0), A14());
    PageOneGone();
    Harms(states, acts, 13, 1, 1);
  }

  /** A step of a run that changes what an area shows, and is no store, is not harmless. */
  lemma Harms(states: seq<State>, acts: seq<Action>, i: nat, a: Id, o: int)
    requires IsRun(states, acts) && i < |acts| && !acts[i].StoreValue? && !acts[i].NewArea? && !acts[i].CopyArea?
    requires a in states[i + 1].areas && Content(states[i + 1], a, o) != Content(states[i], a, o)
    ensures !Harmless(states[i], acts[i])
  {
    hide Content, Do, Harmless;
    RunInv(states, acts, i);
    StepHarmless(states[i], acts[i]);
  }

  // ---- runs, step by step ----

  /** One more step. */
  lemma Extend(states: seq<State>, acts: seq<Action>, act: Action, s: State)
    returns (states2: seq<State>, acts2: seq<Action>)
    requires IsRun(states, acts) && |states| == |acts| + 1 && Leads(states[|acts|], act, s)
    ensures IsRun(states2, acts2) && |states2| == |acts2| + 1 == |acts| + 2
    ensures states2 == states + [s] && acts2 == acts + [act] && states2[|acts2|] == s
  {
    hide Do, Enabled;
    states2, acts2 := states + [s], acts + [act];
    forall i | 0 <= i < |acts2| ensures Leads(states2[i], acts2[i], states2[i + 1]) {
      if i < |acts| {
        assert states2[i] == states[i] && states2[i + 1] == states[i + 1] && acts2[i] == acts[i];
      }
    }
  }

  lemma FirstSix() returns (states: seq<State>, acts: seq<Action>)
    ensures IsRun(states, acts) && |acts| == 6 && |states| == 7 && states[6] == S6()
  {
    hide Leads, S1, S2, S4, S5, S6;
    states, acts := [S0()], [];
    To1();
    states, acts := Extend(states, acts, NewArea(0, 0, true, None), S1());
    To2();
    states, acts := Extend(states, acts, CleanWrite(0, 1, 0), S2(0));
    To3();
    states, acts := Extend(states, acts, StoreValue(0, 1, 7), S2(7));
    To4();
    states, acts := Extend(states, acts, WriteBack(0, 1, 0), S4());
    To5();
    states, acts := Extend(states, acts, Steal(0, 1), S5());
    To6();
    states, acts := Extend(states, acts, CopyArea(0, 1, 1, 2, 0), S6());
  }

  lemma FirstTwelve() returns (states: seq<State>, acts: seq<Action>)
    ensures IsRun(states, acts) && |acts| == 12 && |states| == 13 && states[12] == S12() && acts[11] == Merge(0, 1)
  {
    hide Leads, IsRun, S6, S7, S8, S9, S10, S11, S12;
    states, acts := FirstSix();
    To7();
    states, acts := Extend(states, acts, CleanWrite(1, 0, 0), S7());
    To8();
    states, acts := Extend(states, acts, WriteBack(1, 0, 1), S8());
    To9();
    states, acts := Extend(states, acts, Steal(1, 0), S9());
    To10();
    states, acts := Extend(states, acts, DeleteArea(0), S10());
    To11();
    states, acts := Extend(states, acts, Drop(2), S11());
    To12();
    states, acts := Extend(states, acts, Merge(0, 1), S12());
  }

  // ---- merging twice ----

  function Top(pages: map<int, Id>): Cache { Cache(Some(1), pages, NoSlots()) }

  /** Area 2 is a copy of area 1. */
  function Copies(): map<Id, Area> { map[1 := Area(4, true), 2 := Area(3, true)] }

  ghost function Filled(): Cache { Both().(pages := map[0 := 0]) }

  ghost function B13(): State {
    State(map[1 := Both(), 3 := Top(map[]), 4 := Top(map[])], map[], Copies(), map[], {}, Disk())
  }

  ghost function B14(): State {
    State(map[1 := Filled(), 3 := Top(map[]), 4 := Top(map[])], map[0 := Frame(0, 1, 0)], Copies(), map[], {}, Disk())
  }

  ghost function B15(): State {
    State(map[1 := Filled(), 3 := Top(map[0 := 1]), 4 := Top(map[])], map[0 := Frame(0, 1, 0), 1 := Frame(0, 3, 0)],
          Copies(), map[(2, 0) := Mapping(1, true)], {}, Disk())
  }

  ghost function B16(): State { B15().(areas := map[2 := Area(3, true)]) }

  ghost function B17(): State {
    State(map[1 := Filled(), 3 := Top(map[0 := 1])],
          map[0 := Frame(0, 1, 0), 1 := Frame(0, 3, 0)], map[2 := Area(3, true)],
          map[(2, 0) := Mapping(1, true)], {}, Disk())
  }

  lemma ToB13()
    ensures Leads(S12(), CopyArea(1, 2, 3, 4, 0), B13())
  {
    hide Both, PagesBelow, WiredIn, UpFrames, ReadOnly;
    BothIs();
    NoPages(1, 4, 1);
  }

  lemma ToB14()
    ensures Leads(B13(), PageIn(2, 0, 0), B14())
  {
    hide Both, Slot;
    BothIs();
    NoSlotsIs(Disk(), 0);
  }

  lemma ToB15()
    ensures Leads(B14(), CopyUp(2, 0, 1), B15())
  {
    hide Both, Slot;
    BothIs();
    NoSlotsIs(Disk(), 0);
  }

  lemma ToB16()
    ensures Leads(B15(), DeleteArea(1), B16())
  {
    hide Both;
  }

  lemma ToB17()
    ensures Leads(B16(), Drop(4), B17())
  {
    hide Both, Leads, NoConsumer;
    assert Filled().source == None by { BothIs(); }
    WithoutTop(Filled());
    Dropped(B16(), 4, B17().caches);
  }

  lemma WithoutTop(k: Cache)
    requires k.source == None
    ensures var cs := map[1 := k, 3 := Top(map[0 := 1]), 4 := Top(map[])];
      cs - {4} == map[1 := k, 3 := Top(map[0 := 1])] && NoConsumer(cs, 4)
  {
  }

  lemma ToB18() returns (last: State)
    ensures Leads(B17(), Merge(1, 3), last)
  {
    hide Both, Slot, MergedCache, MergedFrames;
    BothIs();
    last := Do(B17(), Merge(1, 3));
  }

  /** The slot of page 0 is freed, the counter of the block reaches zero, and page 1 goes with it. */
  lemma PageOneLost()
    ensures B17().caches[1].back.Slots? && B17().caches[3].back.Slots?
    ensures Spoiled(B17().caches[3], B17().caches[1], 1)
  {
    hide Both, Swap.Lost;
    BothIs();
    assert Slot(Both().back, 0) == Some(1) && Slot(Both().back, 1) == Some(0);
    OnlyOneFreed(Both().back.blocks[0], map[0 := 1]);
    LostIs(B17().caches[3], B17().caches[1]);
  }

  lemma OnlyOneFreed(b: Swap.SwapBlock, pages: map<int, Id>)
    requires Swap.Shaped(b) && b.used == 1 && b.slots[0].Some? && pages.Keys == {0}
    ensures Swap.UsedAfter(None, b, Swap.ResidentIn(pages, 0)) == 0
  {
    var one := Swap.OneSlot(0, 0);
    Swap.FreedIsCount(b.slots, Swap.ResidentIn(pages, 0), one);
    Swap.CountOne(one, 0);
  }

  lemma LostIs(upper: Cache, lower: Cache)
    requires upper.back == NoSlots() && lower.back.Slots? && upper.pages.Keys == lower.pages.Keys == {0}
    requires Slot(lower.back, 1).Some? && 0 in lower.back.blocks
    requires Swap.UsedAfter(None, lower.back.blocks[0], Swap.ResidentIn(upper.pages, 0)) == 0
    ensures Spoiled(upper, lower, 1)
  {
    NoSlotsIs(map[], 1);
    assert Swap.BlockAt(upper.back.blocks, 0) == None;
  }

  /** A run that merges twice: area 2, a copy of a copy of area 0, loses what was stored at page 1. */
  lemma MergingLosesAPage() returns (states: seq<State>, acts: seq<Action>)
    ensures IsRun(states, acts) && |acts| == 18 && acts[11] == Merge(0, 1) && acts[17] == Merge(1, 3)
    ensures Content(states[17], 2, 1) == 7 && Content(states[18], 2, 1) == 0
    ensures !Harmless(states[17], acts[17])
  {
    hide Leads, IsRun, S12, B13, B14, B15, B16, B17, Content, Harmless;
    states, acts := FirstTwelve();
    ToB13();
    states, acts := Extend(states, acts, CopyArea(1, 2, 3, 4, 0), B13());
    ToB14();
    states, acts := Extend(states, acts, PageIn(2, 0, 0), B14());
    ToB15();
    states, acts := Extend(states, acts, CopyUp(2, 0, 1), B15());
    ToB16();
    states, acts := Extend(states, acts, DeleteArea(1), B16());
    ToB17();
    states, acts := Extend(states, acts, Drop(4), B17());
    var last := ToB18();
    RunInv(states, acts, 17);
    PageTwoLost(B17(), last);
    states, acts := Extend(states, acts, Merge(1, 3), last);
    Harms(states, acts, 17, 2, 1);
  }

  lemma PageTwoLost(s: State, s2: State)
    requires s == B17() && Inv(s) && Leads(s, Merge(1, 3), s2)
    ensures Content(s, 2, 1) == 7 && Content(s2, 2, 1) == 0 && 2 in s2.areas
  {
    hide Both, MergedCache, MergedFrames, Spoiled;
    BothIs();
    assert Slot(Both().back, 1) == Some(0);
    NoSlotsIs(Disk(), 1);
    PageOneLost();
    MergeKeeps(s, 1, 3);
  }
}
