/**
  VMAnonymousCache::Adopt and VMCache::Adopt (cache/mm_anonymous_cache.cpp,
  cache/mm_cache.cpp): a new cache takes over a range of another cache's swap
  slots and pages, at a different offset.  The 32-slot blocks of the two caches
  need not be aligned to each other.
*/
module Adoption {
  import opened Options
  import opened SwapBlocks
  import opened VmCache
  import opened AnonymousCache

  // ---- one block ----

  /** Where the inner loop stops: at the end of the block, or when the counter is used up. */
  function Stop(slots: seq<Option<Slot>>, used: nat, i: nat): nat
    decreases |slots| - i
  {
    if i >= |slots| || used == 0 then i else Stop(slots, used - (if slots[i].Some? then 1 else 0), i + 1)
  }

  /** What is left of the counter then. */
  function Left(slots: seq<Option<Slot>>, used: nat, i: nat): nat
    decreases |slots| - i
  {
    if i >= |slots| || used == 0 then used else Left(slots, used - (if slots[i].Some? then 1 else 0), i + 1)
  }

  /** How many slots there are from index i on. */
  function CountFrom(slots: seq<Option<Slot>>, i: nat): nat
    decreases |slots| - i
  {
    if i >= |slots| then 0 else (if slots[i].Some? then 1 else 0) + CountFrom(slots, i + 1)
  }

  /** The loop gets to all slots if and only if the counter covers them; otherwise it stops before one of them. */
  lemma {:induction false} StopIs(slots: seq<Option<Slot>>, used: nat, i: nat)
    requires i <= |slots|
    ensures i <= Stop(slots, used, i) <= |slots|
    ensures (forall j | i <= j < |slots| && slots[j].Some? :: j < Stop(slots, used, i)) <==> used >= CountFrom(slots, i)
    ensures Left(slots, used, i) == if used >= CountFrom(slots, i) then used - CountFrom(slots, i) else 0
    ensures Left(slots, used, i) > 0 ==> Stop(slots, used, i) == |slots|
    decreases |slots| - i
  {
    if i < |slots| {
      if used == 0 {
        SomeFrom(slots, i);
      } else {
        StopIs(slots, used - (if slots[i].Some? then 1 else 0), i + 1);
      }
    }
  }

  lemma {:induction false} SomeFrom(slots: seq<Option<Slot>>, i: nat)
    requires i <= |slots|
    ensures CountFrom(slots, i) > 0 <==> exists j :: i <= j < |slots| && slots[j].Some?
    decreases |slots| - i
  {
    if i < |slots| { SomeFrom(slots, i + 1); }
  }

  lemma {:induction false} CountFromCount(slots: seq<Option<Slot>>, i: nat)
    requires i <= |slots|
    ensures Count(slots[..i]) + CountFrom(slots, i) == Count(slots)
    decreases |slots| - i
  {
    if i < |slots| {
      CountFromCount(slots, i + 1);
      assert slots[..i + 1][..i] == slots[..i];
    } else {
      assert slots[..i] == slots;
    }
  }

  // ---- the translation ----

  /** What both caches held at the start, and the two offsets. */
  datatype Shift = Shift(src: map<int, SwapBlock>, dst: map<int, SwapBlock>, start: int, to: int)

  /** The first index of block b that the loop looks at. */
  function First(k: Shift, b: int): nat { if b == BlockOf(k.start) then IndexOf(k.start) else 0 }

  /** The loop gets to page o of the source before the counter of its block is used up. */
  predicate Moves(k: Shift, o: int) {
    && k.start <= o && BlockOf(o) in k.src
    && IndexOf(o) < Stop(k.src[BlockOf(o)].slots, k.src[BlockOf(o)].used, First(k, BlockOf(o)))
  }

  /** The counter of block b reaches zero, so the block is discarded with what is left in it. */
  predicate Drops(k: Shift, b: int) {
    && BlockOf(k.start) <= b && b in k.src && k.src[b].used > 0
    && Left(k.src[b].slots, k.src[b].used, First(k, b)) == 0
  }

  /** The slot the destination gets at its page d. */
  function Given(k: Shift, s: int, d: int): Option<Slot> {
    var o := d - k.to + k.start;
    if k.start <= o < s && Moves(k, o) && SlotAt(k.src, o).Some? then SlotAt(k.src, o) else SlotAt(k.dst, d)
  }

  /** The slot the source keeps at its page o when pages up to s were looked at and blocks below e are done. */
  function Remains(k: Shift, s: int, e: int, o: int): Option<Slot> {
    if (k.start <= o < s && Moves(k, o)) || (BlockOf(o) < e && Drops(k, BlockOf(o))) then None else SlotAt(k.src, o)
  }

  /** What Adopt has done to the slots by then. */
  ghost predicate Shifted(k: Shift, s: int, e: int, src: map<int, SwapBlock>, dst: map<int, SwapBlock>) {
    && BlocksShaped(src) && BlocksShaped(dst)
    && (forall o :: SlotAt(src, o) == Remains(k, s, e, o))
    && (forall d :: SlotAt(dst, d) == Given(k, s, d))
  }

  /** Blocks the loop has not come to are as they were. */
  ghost predicate Ahead(k: Shift, e: int, src: map<int, SwapBlock>) {
    forall b | e <= b :: BlockAt(src, b) == BlockAt(k.src, b)
  }

  /** The destination has no slot in the way of one of the source's slots. */
  ghost predicate Clear(k: Shift, t: int) {
    forall o | k.start <= o < t && SlotAt(k.src, o).Some? :: SlotAt(k.dst, o - k.start + k.to).None?
  }

  lemma ShiftStart(k: Shift)
    requires BlocksShaped(k.src) && BlocksShaped(k.dst)
    ensures Shifted(k, k.start, BlockOf(k.start), k.src, k.dst) && Ahead(k, BlockOf(k.start), k.src)
  {
  }

  /** The slots that went over, among the pages before s. */
  ghost function MovedSet(k: Shift, s: int): set<int> {
    set o | o in Occupied(k.src) && k.start <= o < s && Moves(k, o)
  }

  /** The slots of the source among the pages before s. */
  ghost function RangeSet(k: Shift, s: int): set<int> { set o | o in Occupied(k.src) && k.start <= o < s }

  lemma MovedSetStep(k: Shift, s: int)
    requires BlocksShaped(k.src) && k.start <= s
    ensures |MovedSet(k, s + 1)| == |MovedSet(k, s)| + (if Moves(k, s) && SlotAt(k.src, s).Some? then 1 else 0)
  {
    hide Moves, Occupied;
    OccupiedIs(k.src, s);
    if Moves(k, s) && SlotAt(k.src, s).Some? {
      assert MovedSet(k, s + 1) == MovedSet(k, s) + {s};
    } else {
      assert MovedSet(k, s + 1) == MovedSet(k, s);
    }
  }

  lemma MovedSetSame(k: Shift, s: int, t: int)
    requires BlocksShaped(k.src) && k.start <= s <= t && forall o | s <= o < t :: !Moves(k, o) || SlotAt(k.src, o).None?
    ensures MovedSet(k, t) == MovedSet(k, s)
  {
    forall o | o in MovedSet(k, t) ensures o < s { OccupiedIs(k.src, o); }
  }

  /** Both allocated sizes follow the slots that went over. */
  ghost predicate Sizes(k: Shift, s: int, srcSize: int, dstSize: int, src: Anonymous, dst: Anonymous)
    reads src, dst
  {
    src.swapSize == srcSize - |MovedSet(k, s)| && dst.swapSize == dstSize + |MovedSet(k, s)|
  }

  /** The scan of block b has come to index i. */
  ghost predicate Scanning(k: Shift, b: int, i: nat, src: map<int, SwapBlock>) {
    && b in src && b in k.src && Shaped(k.src[b])
    && Stop(k.src[b].slots, src[b].used, i) == Stop(k.src[b].slots, k.src[b].used, First(k, b))
    && Left(k.src[b].slots, src[b].used, i) == Left(k.src[b].slots, k.src[b].used, First(k, b))
  }

  /** `swapBlock`, while it is kept from one page to the next, is the block of the current page. */
  ghost predicate Current(block: Option<int>, d: int, dst: map<int, SwapBlock>) {
    block.Some? && IndexOf(d) != 0 ==> block.value == BlockOf(d) && BlockOf(d) in dst
  }

  /** Finds or allocates the destination block of page d; `memory` is how many blocks can still be allocated. */
  method DestinationBlock(dst: Anonymous, d: int, block: Option<int>, memory: nat) returns (ok: bool, rest: nat)
    requires BlocksShaped(dst.blocks) && Current(block, d, dst.blocks)
    modifies dst`blocks
    ensures BlocksShaped(dst.blocks) && (ok ==> BlockOf(d) in dst.blocks)
    ensures forall o :: SlotAt(dst.blocks, o) == SlotAt(old(dst.blocks), o)
    ensures !ok ==> memory == 0
    ensures rest + 1 >= memory
  {
    ok, rest := true, memory;
    if block.None? || IndexOf(d) == 0 {
      if BlockOf(d) !in dst.blocks {
        if memory == 0 {
          return false, 0;
        }
        rest := memory - 1;
        WithBlockOfIs(dst.blocks, d);
        dst.blocks := dst.blocks[BlockOf(d) := EmptyBlock()];
      }
    }
  }

  /** One page of the inner loop: its slot, if it has one, goes over. */
  lemma MoveStep(k: Shift, s: int, src: map<int, SwapBlock>, dst: map<int, SwapBlock>)
    requires Shifted(k, s, BlockOf(s), src, dst) && k.start <= s && Clear(k, s + 1)
    requires Scanning(k, BlockOf(s), IndexOf(s), src) && src[BlockOf(s)].used > 0
    ensures Moves(k, s) && SlotAt(src, s) == SlotAt(k.src, s)
    ensures SlotAt(src, s).Some? ==> SlotAt(dst, s - k.start + k.to).None?
  {
    StopMore(k.src[BlockOf(s)].slots, src[BlockOf(s)].used, IndexOf(s));
  }

  lemma StopMore(slots: seq<Option<Slot>>, used: nat, i: nat)
    requires i < |slots| && used > 0
    ensures Stop(slots, used, i) > i
  {
    StopIs(slots, used - (if slots[i].Some? then 1 else 0), i + 1);
  }

  /** Looking at a page without a slot changes nothing. */
  lemma ShiftSkip(k: Shift, s: int, t: int, e: int, src: map<int, SwapBlock>, dst: map<int, SwapBlock>)
    requires Shifted(k, s, e, src, dst) && k.start <= s <= t
    requires forall o | s <= o < t :: !Moves(k, o) || SlotAt(k.src, o).None?
    ensures Shifted(k, t, e, src, dst)
  {
    hide Moves;
    forall o ensures Remains(k, t, e, o) == Remains(k, s, e, o) {}
    forall d ensures Given(k, t, d) == Given(k, s, d) {}
  }

  lemma ShiftMove(k: Shift, s: int, src: map<int, SwapBlock>, dst: map<int, SwapBlock>)
    requires Shifted(k, s, BlockOf(s), src, dst) && k.start <= s && Moves(k, s)
    requires BlockOf(s) in src && SlotAt(src, s) == SlotAt(k.src, s) && SlotAt(src, s).Some?
    requires BlockOf(s - k.start + k.to) in dst
    ensures Shifted(k, s + 1, BlockOf(s), WithSlot(src, s, None, -1),
      WithSlot(dst, s - k.start + k.to, SlotAt(src, s), 1))
  {
    hide Moves, WithSlot;
    var d := s - k.start + k.to;
    WithSlotAt(src, s, None, -1);
    WithSlotAt(dst, d, SlotAt(src, s), 1);
    forall o ensures Remains(k, s + 1, BlockOf(s), o) == if o == s then None else Remains(k, s, BlockOf(s), o) {}
    forall q ensures Given(k, s + 1, q) == if q == d then SlotAt(src, s) else Given(k, s, q) {}
  }

  /** The scan goes on with the next index. */
  lemma ScanOn(k: Shift, b: int, i: nat, src: map<int, SwapBlock>, src2: map<int, SwapBlock>)
    requires Scanning(k, b, i, src) && i < SWAP_BLOCK_PAGES && src[b].used > 0 && b in src2
    requires src2[b].used == src[b].used - (if k.src[b].slots[i].Some? then 1 else 0)
    ensures Scanning(k, b, i + 1, src2)
  {
  }

  /** Moves the slot of source page s, if it has one, to destination page d. */
  method MoveSlot(dst: Anonymous, src: Anonymous, s: int, d: int, ghost k: Shift, ghost srcSize: int,
                  ghost dstSize: int)
    requires dst != src && Shifted(k, s, BlockOf(s), src.blocks, dst.blocks) && k.start <= s && Clear(k, s + 1)
    requires Scanning(k, BlockOf(s), IndexOf(s), src.blocks) && src.blocks[BlockOf(s)].used > 0
    requires d == s - k.start + k.to && BlockOf(d) in dst.blocks && Sizes(k, s, srcSize, dstSize, src, dst)
    requires Ahead(k, BlockOf(s) + 1, src.blocks) && BlocksShaped(k.src)
    modifies dst`blocks, dst`swapSize, src`blocks, src`swapSize
    ensures Shifted(k, s + 1, BlockOf(s), src.blocks, dst.blocks) && Scanning(k, BlockOf(s), IndexOf(s) + 1, src.blocks)
    ensures Ahead(k, BlockOf(s) + 1, src.blocks) && BlockOf(d) in dst.blocks
    ensures Sizes(k, s + 1, srcSize, dstSize, src, dst)
  {
    hide Shifted, Clear, Moves, MovedSet, WithSlot, Stop, Left;
    ghost var was := src.blocks;
    BlocksOf(k, s, BlockOf(s), src.blocks, dst.blocks);
    MoveStep(k, s, src.blocks, dst.blocks);
    MovedSetStep(k, s);
    var b := BlockOf(s);
    var slot := src.blocks[b].slots[IndexOf(s)];
    assert slot == SlotAt(src.blocks, s) && slot == k.src[b].slots[IndexOf(s)];
    if slot.None? {
      ShiftSkip(k, s, s + 1, b, src.blocks, dst.blocks);
    } else {
      ShiftMove(k, s, src.blocks, dst.blocks);
      WithSlotIs(src.blocks, s, None, -1);
      WithSlotIs(dst.blocks, d, slot, 1);
      dst.blocks, dst.swapSize := WithSlot(dst.blocks, d, slot, 1), dst.swapSize + 1;
      src.blocks, src.swapSize := WithSlot(src.blocks, s, None, -1), src.swapSize - 1;
    }
    ScanOn(k, b, IndexOf(s), was, src.blocks);
  }

  lemma BlocksOf(k: Shift, s: int, e: int, src: map<int, SwapBlock>, dst: map<int, SwapBlock>)
    requires Shifted(k, s, e, src, dst)
    ensures BlocksShaped(src) && BlocksShaped(dst)
  {
  }

  /** One slot changes in its block only. */
  lemma WithSlotIs(blocks: map<int, SwapBlock>, o: int, v: Option<Slot>, change: int)
    requires BlocksShaped(blocks) && BlockOf(o) in blocks && -1 <= change <= 1
    ensures var m := WithSlot(blocks, o, v, change);
      && m.Keys == blocks.Keys && (forall b | b in m && b != BlockOf(o) :: m[b] == blocks[b])
      && (change == -1 && blocks[BlockOf(o)].used > 0 ==> m[BlockOf(o)].used == blocks[BlockOf(o)].used - 1)
  {
  }

  /** The first page of the next block. */
  function NextBlock(s: int): int { (BlockOf(s) + 1) * SWAP_BLOCK_PAGES }

  /** The inner loop and what follows it: the slots of one source block from page s on. */
  method AdoptBlock(dst: Anonymous, src: Anonymous, s: int, d: int, block: Option<int>, memory: nat,
                    ghost k: Shift, ghost srcSize: int, ghost dstSize: int)
      returns (ok: bool, current: Option<int>, rest: nat, ghost reached: int)
    requires dst != src && Shifted(k, s, BlockOf(s), src.blocks, dst.blocks) && k.start <= s && Clear(k, NextBlock(s))
    requires BlocksShaped(k.src) && Ahead(k, BlockOf(s), src.blocks) && BlockOf(s) in src.blocks
    requires src.blocks[BlockOf(s)].used > 0 && First(k, BlockOf(s)) == IndexOf(s)
    requires d == s - k.start + k.to && Current(block, d, dst.blocks) && Sizes(k, s, srcSize, dstSize, src, dst)
    modifies dst`blocks, dst`swapSize, src`blocks, src`swapSize
    ensures s <= reached <= NextBlock(s) && Sizes(k, reached, srcSize, dstSize, src, dst)
    ensures ok ==> reached == NextBlock(s) && Shifted(k, reached, BlockOf(s) + 1, src.blocks, dst.blocks)
    ensures ok ==> Ahead(k, BlockOf(s) + 1, src.blocks) && Current(current, reached - k.start + k.to, dst.blocks)
    ensures !ok ==> rest == 0 && reached < NextBlock(s) && Shifted(k, reached, BlockOf(s), src.blocks, dst.blocks)
    ensures if ok then rest + NextBlock(s) - s >= memory else memory < NextBlock(s) - s
  {
    hide Shifted, Clear, MovedSet, Stop, Left, Moves;
    var b, left := BlockOf(s), SWAP_BLOCK_PAGES - IndexOf(s);
    ok, current, rest, reached := true, block, memory, s;
    var i := 0;
    ScanStart(k, s, src.blocks);
    while i < left && src.blocks[b].used > 0
      invariant 0 <= i <= left && reached == s + i && rest + i >= memory
      invariant Shifted(k, s + i, b, src.blocks, dst.blocks) && Scanning(k, b, IndexOf(s) + i, src.blocks)
      invariant Ahead(k, b + 1, src.blocks) && Current(current, d + i, dst.blocks)
      invariant Sizes(k, s + i, srcSize, dstSize, src, dst)
    {
      PageInBlock(s, i);
      ClearSome(k, NextBlock(s), s + i + 1);
      BlocksOf(k, s + i, b, src.blocks, dst.blocks);
      ghost var was := dst.blocks;
      ok, rest := DestinationBlock(dst, d + i, current, rest);
      SameDst(k, s + i, b, src.blocks, was, dst.blocks);
      if !ok {
        rest := 0;
        return;
      }
      current := Some(BlockOf(d + i));
      MoveSlot(dst, src, s + i, d + i, k, srcSize, dstSize);
      i, reached := i + 1, reached + 1;
      SameBlockNext(d + i);
    }
    reached := NextBlock(s);
    ScanEnded(k, s, i, src.blocks, dst.blocks);
    if i < left {
      current := None;
    }
    BlockDone(k, s, src.blocks, dst.blocks);
    if src.blocks[b].used == 0 {
      src.blocks := src.blocks - {b};
    }
  }

  lemma ScanStart(k: Shift, s: int, src: map<int, SwapBlock>)
    requires BlocksShaped(k.src) && Ahead(k, BlockOf(s), src) && BlockOf(s) in src && First(k, BlockOf(s)) == IndexOf(s)
    ensures Scanning(k, BlockOf(s), IndexOf(s), src) && Ahead(k, BlockOf(s) + 1, src)
    ensures k.src[BlockOf(s)].used == src[BlockOf(s)].used
  {
    assert BlockAt(src, BlockOf(s)) == BlockAt(k.src, BlockOf(s));
  }

  lemma PageInBlock(s: int, i: nat)
    requires i < SWAP_BLOCK_PAGES - IndexOf(s)
    ensures BlockOf(s + i) == BlockOf(s) && IndexOf(s + i) == IndexOf(s) + i
    ensures NextBlock(s) == s + SWAP_BLOCK_PAGES - IndexOf(s)
  {
  }

  lemma SameBlockNext(d: int)
    ensures IndexOf(d) != 0 ==> BlockOf(d) == BlockOf(d - 1)
  {
  }

  lemma ClearSome(k: Shift, t: int, u: int)
    requires Clear(k, t) && u <= t
    ensures Clear(k, u)
  {
  }

  lemma SameDst(k: Shift, s: int, e: int, src: map<int, SwapBlock>, dst: map<int, SwapBlock>, dst2: map<int, SwapBlock>)
    requires Shifted(k, s, e, src, dst) && BlocksShaped(dst2) && forall o :: SlotAt(dst2, o) == SlotAt(dst, o)
    ensures Shifted(k, s, e, src, dst2)
  {
    hide Given, Remains, SlotAt;
  }

  /** When the loop has stopped, the rest of the block does not move. */
  lemma ScanEnded(k: Shift, s: int, i: nat, src: map<int, SwapBlock>, dst: map<int, SwapBlock>)
    requires BlocksShaped(k.src) && k.start <= s && i <= SWAP_BLOCK_PAGES - IndexOf(s)
    requires Shifted(k, s + i, BlockOf(s), src, dst) && Scanning(k, BlockOf(s), IndexOf(s) + i, src)
    requires i < SWAP_BLOCK_PAGES - IndexOf(s) ==> src[BlockOf(s)].used == 0
    ensures Shifted(k, NextBlock(s), BlockOf(s), src, dst) && MovedSet(k, NextBlock(s)) == MovedSet(k, s + i)
    ensures src[BlockOf(s)].used == Left(k.src[BlockOf(s)].slots, k.src[BlockOf(s)].used, First(k, BlockOf(s)))
    ensures k.start <= s + i <= NextBlock(s)
  {
    var b := BlockOf(s);
    forall o | s + i <= o < NextBlock(s) ensures !Moves(k, o) {
      PageInBlock(s, o - s);
    }
    ShiftSkip(k, s + i, NextBlock(s), b, src, dst);
    MovedSetSame(k, s + i, NextBlock(s));
  }

  /** A block whose counter is zero now is discarded with what is left in it. */
  lemma BlockDone(k: Shift, s: int, src: map<int, SwapBlock>, dst: map<int, SwapBlock>)
    requires Shifted(k, NextBlock(s), BlockOf(s), src, dst) && k.start <= s && BlockOf(s) in src && BlockOf(s) in k.src
    requires k.src[BlockOf(s)].used > 0
    requires src[BlockOf(s)].used == Left(k.src[BlockOf(s)].slots, k.src[BlockOf(s)].used, First(k, BlockOf(s)))
    ensures var b := BlockOf(s);
      Shifted(k, NextBlock(s), b + 1, if src[b].used == 0 then src - {b} else src, dst)
  {
    hide Moves, Left, Given;
    var b := BlockOf(s);
    StartBelow(k, s);
    DropBlock(src, b);
    forall o ensures Remains(k, NextBlock(s), b + 1, o) ==
                     (if BlockOf(o) == b && src[b].used == 0 then None else Remains(k, NextBlock(s), b, o)) {}
  }

  lemma StartBelow(k: Shift, s: int)
    requires k.start <= s
    ensures BlockOf(k.start) <= BlockOf(s)
  {
  }

  // ---- all blocks ----

  /** Where the loop ends: it works block by block, so it runs on to the end of the last block. */
  function ScanEnd(start: int, end: int): int { if start < end then NextBlock(end - 1) else start }

  /** The first page of the scan in o's block. */
  function BlockStart(k: Shift, o: int): int {
    if BlockOf(o) == BlockOf(k.start) then k.start else BlockOf(o) * SWAP_BLOCK_PAGES
  }

  /** The allocated size was positive when the loop came to each page's block. */
  ghost predicate Funded(k: Shift, s: int, srcSize: int) {
    forall o | k.start <= o < s :: srcSize > |MovedSet(k, BlockStart(k, o))|
  }

  /**
    The swap part of Adopt, for any swap blocks.  `reached` is how far the loop
    came: to the end, or to where the source's allocated size or the memory for
    blocks ran out.  Each slot up to there went over, stayed or was discarded as
    Given and Remains say, and both allocated sizes changed by the slots that
    went over, so their sum did not change.
  */
  method AdoptSlots(dst: Anonymous, src: Anonymous, start: int, end: int, to: int, memory: nat, ghost k: Shift)
      returns (ok: bool, ghost reached: int)
    requires dst != src && BlocksShaped(src.blocks) && BlocksShaped(dst.blocks)
    requires k == Shift(src.blocks, dst.blocks, start, to) && Clear(k, ScanEnd(start, end))
    modifies dst`blocks, dst`swapSize, src`blocks, src`swapSize
    ensures start <= reached <= ScanEnd(start, end) && Shifted(k, reached, BlockOf(reached), src.blocks, dst.blocks)
    ensures Sizes(k, reached, old(src.swapSize), old(dst.swapSize), src, dst)
    ensures ok ==> reached == ScanEnd(start, end) || (src.swapSize <= 0 && (reached == start || IndexOf(reached) == 0))
    ensures ok ==> Funded(k, reached, old(src.swapSize))
    ensures memory >= ScanEnd(start, end) - start ==> ok
  {
    hide Shifted, Clear, MovedSet, Moves, Funded;
    ghost var srcSize, dstSize := src.swapSize, dst.swapSize;
    ShiftStart(k);
    ScanFrom(start, end);
    NothingMoved(k, srcSize);
    var s, d, block := start, to, None;
    var rest: nat := memory;
    ok, reached := true, start;
    while s < end && src.swapSize > 0
      invariant start <= s <= ScanEnd(start, end) && d == s - start + to && reached == s && rest + s - start >= memory
      invariant (s == start || IndexOf(s) == 0)
      invariant Shifted(k, s, BlockOf(s), src.blocks, dst.blocks) && Ahead(k, BlockOf(s), src.blocks)
      invariant Current(block, d, dst.blocks) && Sizes(k, s, srcSize, dstSize, src, dst) && Funded(k, s, srcSize)
      decreases end - s
    {
      ScanStep(start, s, end);
      ClearSome(k, ScanEnd(start, end), NextBlock(s));
      FundedStep(k, s, srcSize);
      if BlockOf(s) !in src.blocks || src.blocks[BlockOf(s)].used == 0 {
        NothingThere(k, s, src.blocks, dst.blocks);
        block := None;
      } else {
        ok, block, rest, reached := AdoptBlock(dst, src, s, d, block, rest, k, srcSize, dstSize);
        if !ok {
          SameBlockAs(s, reached);
          return;
        }
      }
      s, d := NextBlock(s), d + NextBlock(s) - s;
      reached := s;
    }
    if s >= end {
      ScanDone(start, s, end);
    }
  }

  lemma NothingMoved(k: Shift, srcSize: int)
    ensures MovedSet(k, k.start) == {} && Funded(k, k.start, srcSize)
  {
  }

  lemma FundedStep(k: Shift, s: int, srcSize: int)
    requires Funded(k, s, srcSize) && srcSize > |MovedSet(k, s)| && k.start <= s && (s == k.start || IndexOf(s) == 0)
    ensures Funded(k, NextBlock(s), srcSize)
  {
    hide MovedSet;
    forall o | s <= o < NextBlock(s) ensures BlockStart(k, o) == s {
      PageInBlock(s, o - s);
      StartBelow(k, s);
    }
  }

  lemma ScanFrom(start: int, end: int)
    ensures start <= ScanEnd(start, end)
  {
  }

  lemma ScanStep(start: int, s: int, end: int)
    requires start <= s < end
    ensures s < NextBlock(s) <= ScanEnd(start, end) && IndexOf(NextBlock(s)) == 0
    ensures BlockOf(NextBlock(s)) == BlockOf(s) + 1
    ensures s == start || IndexOf(s) == 0 ==> First(Shift(map[], map[], start, 0), BlockOf(s)) == IndexOf(s)
  {
  }

  lemma SameBlockAs(s: int, t: int)
    requires s <= t < NextBlock(s)
    ensures BlockOf(t) == BlockOf(s)
  {
  }

  lemma ScanDone(start: int, s: int, end: int)
    requires start <= s <= ScanEnd(start, end) && end <= s && (s == start || IndexOf(s) == 0)
    ensures s == ScanEnd(start, end)
  {
  }

  /** No block, or one whose counter is zero: nothing moves and nothing is discarded. */
  lemma NothingThere(k: Shift, s: int, src: map<int, SwapBlock>, dst: map<int, SwapBlock>)
    requires Shifted(k, s, BlockOf(s), src, dst) && Ahead(k, BlockOf(s), src) && k.start <= s && BlocksShaped(k.src)
    requires BlockOf(s) !in src || src[BlockOf(s)].used == 0
    ensures Shifted(k, NextBlock(s), BlockOf(s) + 1, src, dst) && Ahead(k, BlockOf(s) + 1, src)
    ensures MovedSet(k, NextBlock(s)) == MovedSet(k, s)
  {
    var b := BlockOf(s);
    assert BlockAt(src, b) == BlockAt(k.src, b);
    forall o | s <= o < NextBlock(s) ensures !Moves(k, o) || SlotAt(k.src, o).None? {
      PageInBlock(s, o - s);
    }
    ShiftSkip(k, s, NextBlock(s), b, src, dst);
    MovedSetSame(k, s, NextBlock(s));
    forall o ensures Remains(k, NextBlock(s), b + 1, o) == Remains(k, NextBlock(s), b, o) {}
  }

  // ---- when the range is translated as a whole ----

  /** What the destination should have at page d: the slot of the page of the range that goes there, or what it had. */
  function Wanted(k: Shift, t: int, d: int): Option<Slot> {
    var o := d - k.to + k.start;
    if k.start <= o < t && SlotAt(k.src, o).Some? then SlotAt(k.src, o) else SlotAt(k.dst, d)
  }

  /** All slots of the range went over, and nothing else changed. */
  ghost predicate Translated(k: Shift, t: int, src: map<int, SwapBlock>, dst: map<int, SwapBlock>) {
    && (forall d :: SlotAt(dst, d) == Wanted(k, t, d))
    && (forall o :: SlotAt(src, o) == if k.start <= o < t then None else SlotAt(k.src, o))
  }

  /**
    The counter covers the slots of the block from the start of the range on, and if it covers no
    more, there are no others.
  */
  ghost predicate BlockCovered(k: Shift, b: int)
    requires b in k.src
  {
    var slots, used := k.src[b].slots, k.src[b].used;
    && used >= CountFrom(slots, First(k, b))
    && (used > 0 && used == CountFrom(slots, First(k, b)) ==> forall i | 0 <= i < First(k, b) && i < |slots| ::
      slots[i].None?)
  }

  /** The allocated size covers the slots of the range in all blocks before one that has more of them. */
  ghost predicate SizeCovers(k: Shift, t: int, srcSize: int) {
    forall o | k.start <= o < t && SlotAt(k.src, o).Some? :: srcSize > |RangeSet(k, BlockStart(k, o))|
  }

  /** Counters and allocated size of the source cover the range; all of it can be evaluated before the call. */
  ghost predicate Covers(k: Shift, t: int, srcSize: int) {
    && (forall b | BlockOf(k.start) <= b < BlockOf(t) && b in k.src :: BlockCovered(k, b))
    && SizeCovers(k, t, srcSize)
  }

  /** How the loop ended: at t, or at a block's start with no allocated size left. */
  ghost predicate Ended(k: Shift, t: int, reached: int, srcSize: int) {
    && k.start <= reached <= t && (t == k.start || IndexOf(t) == 0)
    && Funded(k, reached, srcSize)
    && (reached == t || (srcSize <= |MovedSet(k, reached)| && (reached == k.start || IndexOf(reached) == 0)))
  }

  lemma InRange(k: Shift, o: int)
    requires k.start <= o
    ensures First(k, BlockOf(o)) <= IndexOf(o) && BlockOf(k.start) <= BlockOf(o)
    ensures BlockOf(o) * SWAP_BLOCK_PAGES + IndexOf(o) == o
  {
  }

  lemma AtIndex(k: Shift, b: int, i: nat)
    requires i < SWAP_BLOCK_PAGES
    ensures BlockOf(b * SWAP_BLOCK_PAGES + i) == b && IndexOf(b * SWAP_BLOCK_PAGES + i) == i
    ensures BlockOf(k.start) <= b && First(k, b) <= i ==> k.start <= b * SWAP_BLOCK_PAGES + i
    ensures i < First(k, b) ==> b * SWAP_BLOCK_PAGES + i < k.start
  {
  }

  /** The loop comes to every slot of a block if and only if the counter covers them. */
  lemma CoveredMoves(k: Shift, b: int)
    requires BlocksShaped(k.src) && b in k.src && BlockOf(k.start) <= b
    ensures k.src[b].used >= CountFrom(k.src[b].slots, First(k, b)) <==>
      forall o | k.start <= o && BlockOf(o) == b && SlotAt(k.src, o).Some? :: Moves(k, o)
    ensures Drops(k, b) && k.src[b].used >= CountFrom(k.src[b].slots, First(k, b)) ==>
      k.src[b].used == CountFrom(k.src[b].slots, First(k, b))
    ensures k.src[b].used > 0 && k.src[b].used == CountFrom(k.src[b].slots, First(k, b)) ==> Drops(k, b)
  {
    hide CountFrom, Left, Stop;
    var slots, used, first := k.src[b].slots, k.src[b].used, First(k, b);
    StopIs(slots, used, first);
    if used >= CountFrom(slots, first) {
      forall o | k.start <= o && BlockOf(o) == b && SlotAt(k.src, o).Some? ensures Moves(k, o) {
        InRange(k, o);
      }
    } else {
      var i :| first <= i < |slots| && slots[i].Some? && !(i < Stop(slots, used, first));
      AtIndex(k, b, i);
      var o := b * SWAP_BLOCK_PAGES + i;
      assert SlotAt(k.src, o).Some? && !Moves(k, o);
    }
  }

  lemma SetSize(a: set<int>, b: set<int>)
    requires a <= b
    ensures |a| <= |b|
  {
    assert b == a + (b - a);
  }

  /** If everything moves, the loop came to every slot. */
  lemma ReachesAll(k: Shift, t: int, reached: int, srcSize: int, o: int)
    requires Ended(k, t, reached, srcSize) && SizeCovers(k, t, srcSize) && k.start <= o < t && SlotAt(k.src, o).Some?
    ensures o < reached
  {
    hide Occupied, Moves, SlotAt;
    if reached <= o {
      BlockFrom(k, reached, o);
      SetSize(MovedSet(k, reached), RangeSet(k, BlockStart(k, o)));
    }
  }

  lemma BlockFrom(k: Shift, s: int, o: int)
    requires k.start <= s <= o && (s == k.start || IndexOf(s) == 0)
    ensures s <= BlockStart(k, o)
  {
  }

  lemma BlockBefore(k: Shift, s: int, o: int)
    requires k.start <= o < s && IndexOf(s) == 0
    ensures BlockOf(o) < BlockOf(s)
  {
  }

  lemma CoversEnough(k: Shift, t: int, reached: int, srcSize: int, src: map<int, SwapBlock>, dst: map<int, SwapBlock>)
    requires BlocksShaped(k.src) && Shifted(k, reached, BlockOf(reached), src, dst) && Ended(k, t, reached, srcSize)
    requires Covers(k, t, srcSize)
    ensures Translated(k, t, src, dst)
  {
    hide CountFrom, Left, Stop, Moves, Occupied, Drops, Shifted, BlockCovered;
    forall o | k.start <= o < t && SlotAt(k.src, o).Some? ensures o < reached && Moves(k, o) {
      ReachesAll(k, t, reached, srcSize, o);
      InRange(k, o);
      BlockBefore(k, t, o);
      AllCovered(k, BlockOf(o));
    }
    forall o ensures BlockOf(o) < BlockOf(reached) && Drops(k, BlockOf(o)) ==>
      o < t && (o < k.start ==> SlotAt(k.src, o).None?) {
      if BlockOf(o) < BlockOf(reached) && Drops(k, BlockOf(o)) { DropsNothing(k, t, reached, o); }
    }
    ShiftedAll(k, t, reached, src, dst);
  }

  lemma AllCovered(k: Shift, b: int)
    requires BlocksShaped(k.src) && b in k.src && BlockOf(k.start) <= b && BlockCovered(k, b)
    ensures forall o | k.start <= o && BlockOf(o) == b && SlotAt(k.src, o).Some? :: Moves(k, o)
  {
    hide CountFrom, Moves, Drops;
    CoveredMoves(k, b);
  }

  /** Every slot of the range moved and no other was discarded. */
  lemma ShiftedAll(k: Shift, t: int, reached: int, src: map<int, SwapBlock>, dst: map<int, SwapBlock>)
    requires Shifted(k, reached, BlockOf(reached), src, dst) && k.start <= reached <= t
    requires forall o | k.start <= o < t && SlotAt(k.src, o).Some? :: o < reached && Moves(k, o)
    requires forall o | BlockOf(o) < BlockOf(reached) && Drops(k, BlockOf(o)) ::
      o < t && (o < k.start ==> SlotAt(k.src, o).None?)
    ensures Translated(k, t, src, dst)
  {
    hide Moves, Drops, SlotAt, BlocksShaped;
    forall o ensures SlotAt(src, o) == if k.start <= o < t then None else SlotAt(k.src, o) {
      assert SlotAt(src, o) == Remains(k, reached, BlockOf(reached), o);
    }
    forall d ensures SlotAt(dst, d) == Wanted(k, t, d) {
      var o := d - k.to + k.start;
      assert SlotAt(dst, d) == Given(k, reached, d);
      assert k.start <= o < t && SlotAt(k.src, o).Some? ==> o < reached && Moves(k, o);
    }
  }

  /** A block that is covered and discarded had nothing outside the range. */
  lemma DropsNothing(k: Shift, t: int, reached: int, o: int)
    requires BlocksShaped(k.src) && BlockOf(o) < BlockOf(reached) && reached <= t && (t == k.start || IndexOf(t) == 0)
    requires Drops(k, BlockOf(o)) && forall b | BlockOf(k.start) <= b < BlockOf(t) && b in k.src :: BlockCovered(k, b)
    ensures o < t && (o < k.start ==> SlotAt(k.src, o).None?)
  {
    hide CountFrom, Left, Stop;
    var b := BlockOf(o);
    BlockOrder(o, reached);
    BlockOrder(reached, t);
    assert BlockCovered(k, b);
    CoveredMoves(k, b);
    if o < k.start { BelowStart(k, o); }
  }

  lemma BlockOrder(o: int, t: int)
    ensures BlockOf(o) < BlockOf(t) ==> o < t
    ensures o <= t ==> BlockOf(o) <= BlockOf(t)
  {
  }

  lemma BelowStart(k: Shift, o: int)
    requires o < k.start && BlockOf(k.start) <= BlockOf(o)
    ensures IndexOf(o) < First(k, BlockOf(o))
  {
  }

  lemma TranslatedCovers(k: Shift, t: int, reached: int, srcSize: int, src: map<int, SwapBlock>, dst: map<int,
                         SwapBlock>)
    requires BlocksShaped(k.src) && Shifted(k, reached, BlockOf(reached), src, dst) && Ended(k, t, reached, srcSize)
    requires Clear(k, t) && Translated(k, t, src, dst)
    ensures Covers(k, t, srcSize)
  {
    hide CountFrom, Left, Stop, Moves, Occupied, MovedSet, RangeSet, BlockStart;
    forall o | k.start <= o < t && SlotAt(k.src, o).Some? ensures o < reached && Moves(k, o) {
      var d := o - k.start + k.to;
      assert SlotAt(dst, d) == Given(k, reached, d) && SlotAt(dst, d) == Wanted(k, t, d);
    }
    forall b | BlockOf(k.start) <= b < BlockOf(t) && b in k.src ensures BlockCovered(k, b) {
      BlockIsCovered(k, t, reached, b, src, dst);
    }
    forall o | k.start <= o < t && SlotAt(k.src, o).Some? ensures srcSize > |RangeSet(k, BlockStart(k, o))| {
      SameSets(k, t, BlockStart(k, o)) by { StartOf(k, o); }
    }
  }

  lemma StartOf(k: Shift, o: int)
    requires k.start <= o
    ensures BlockStart(k, o) <= o
  {
  }

  lemma SameSets(k: Shift, t: int, s: int)
    requires BlocksShaped(k.src) && s <= t && forall o | k.start <= o < t && SlotAt(k.src, o).Some? :: Moves(k, o)
    ensures MovedSet(k, s) == RangeSet(k, s)
  {
    hide Moves, SlotAt, Occupied;
    forall o | o in RangeSet(k, s) ensures Moves(k, o) { OccupiedIs(k.src, o); }
  }

  lemma BlockIsCovered(k: Shift, t: int, reached: int, b: int, src: map<int, SwapBlock>, dst: map<int, SwapBlock>)
    requires BlocksShaped(k.src) && Shifted(k, reached, BlockOf(reached), src, dst) && Translated(k, t, src, dst)
    requires k.start <= reached <= t && (t == k.start || IndexOf(t) == 0)
    requires reached == t || reached == k.start || IndexOf(reached) == 0
    requires forall o | k.start <= o < t && SlotAt(k.src, o).Some? :: o < reached && Moves(k, o)
    requires BlockOf(k.start) <= b < BlockOf(t) && b in k.src
    ensures BlockCovered(k, b)
  {
    hide CountFrom, Left, Stop, Moves, Drops, Shifted, Translated;
    var slots, used, first := k.src[b].slots, k.src[b].used, First(k, b);
    CoveredMoves(k, b);
    forall o | k.start <= o && BlockOf(o) == b && SlotAt(k.src, o).Some? ensures Moves(k, o) { BlockOrder(o, t); }
    if used > 0 && used == CountFrom(slots, first) { OthersKept(k, t, reached, b, src, dst); }
  }

  /** A block that is discarded, while all outside the range stays as it was, has nothing there. */
  lemma OthersKept(k: Shift, t: int, reached: int, b: int, src: map<int, SwapBlock>, dst: map<int, SwapBlock>)
    requires BlocksShaped(k.src) && Shifted(k, reached, BlockOf(reached), src, dst) && Translated(k, t, src, dst)
    requires k.start <= reached <= t && (t == k.start || IndexOf(t) == 0)
    requires reached == t || reached == k.start || IndexOf(reached) == 0
    requires forall o | k.start <= o < t && SlotAt(k.src, o).Some? :: o < reached
    requires BlockOf(k.start) <= b < BlockOf(t) && b in k.src
    requires k.src[b].used > 0 && k.src[b].used == CountFrom(k.src[b].slots, First(k, b)) && Drops(k, b)
    ensures forall i | 0 <= i < First(k, b) && i < |k.src[b].slots| :: k.src[b].slots[i].None?
  {
    hide CountFrom, Left, Stop, Moves, Drops, Shifted, Translated;
    var slots, first := k.src[b].slots, First(k, b);
    SomeFrom(slots, first);
    var j :| first <= j < |slots| && slots[j].Some?;
    AtIndex(k, b, j);
    var o := b * SWAP_BLOCK_PAGES + j;
    assert SlotAt(k.src, o).Some?;
    BlockOrder(o, t);
    BlockBefore(k, reached, o);
    forall i | 0 <= i < first && i < |slots| ensures slots[i].None? {
      AtIndex(k, b, i);
      var q := b * SWAP_BLOCK_PAGES + i;
      ShiftedAt(k, reached, src, dst, q);
      TranslatedBelow(k, t, src, dst, q);
    }
  }

  lemma TranslatedBelow(k: Shift, t: int, src: map<int, SwapBlock>, dst: map<int, SwapBlock>, o: int)
    requires Translated(k, t, src, dst) && o < k.start
    ensures SlotAt(src, o) == SlotAt(k.src, o)
  {
    hide SlotAt;
  }

  /** The range is translated as a whole, and nothing else changes, if and only if counters and size cover it. */
  lemma AdoptExact(k: Shift, t: int, reached: int, srcSize: int, src: map<int, SwapBlock>, dst: map<int, SwapBlock>)
    requires BlocksShaped(k.src) && Shifted(k, reached, BlockOf(reached), src, dst) && Ended(k, t, reached, srcSize)
    requires Clear(k, t)
    ensures Translated(k, t, src, dst) <==> Covers(k, t, srcSize)
  {
    hide Shifted, Translated, Covers, Ended, Clear;
    if Covers(k, t, srcSize) { CoversEnough(k, t, reached, srcSize, src, dst); }
    if Translated(k, t, src, dst) { TranslatedCovers(k, t, reached, srcSize, src, dst); }
  }

  /** Exact counters and sizes cover every range. */
  lemma ExactCovers(k: Shift, t: int, srcSize: int)
    requires BlocksExact(k.src) && Counted(k.src, srcSize)
    ensures Covers(k, t, srcSize)
  {
    hide CountFrom, Occupied;
    forall b | BlockOf(k.start) <= b < BlockOf(t) && b in k.src ensures BlockCovered(k, b) {
      CountFromCount(k.src[b].slots, First(k, b));
      CountBounds(k.src[b].slots[..First(k, b)]);
      assert forall i | 0 <= i < First(k, b) :: k.src[b].slots[..First(k, b)][i] == k.src[b].slots[i];
    }
    forall o | k.start <= o < t && SlotAt(k.src, o).Some? ensures srcSize > |RangeSet(k, BlockStart(k, o))| {
      OccupiedIs(k.src, o);
      StartOf(k, o);
      SetSize(RangeSet(k, BlockStart(k, o)), Occupied(k.src) - {o});
    }
  }

  // ---- the resident pages ----

  function PageAt<P>(pages: map<int, P>, o: int): Option<P> { if o in pages then Some(pages[o]) else None }

  /** What the adopting cache has at index o: a page of the range, moved by `change`, or what it had. */
  function AdoptedPage<P>(mine: map<int, P>, theirs: map<int, P>, start: int, end: int, change: int,
                          o: int): Option<P> {
    if start <= o - change < end && o - change in theirs then Some(theirs[o - change]) else PageAt(mine, o)
  }

  /** What the other cache still has. */
  function LeftPage<P>(theirs: map<int, P>, start: int, end: int, o: int): Option<P> {
    if start <= o < end then None else PageAt(theirs, o)
  }

  /** VMCache::Adopt: every page of the range moves to its translated index and names the new cache. */
  method AdoptPages(dst: Cache, src: Cache, start: int, end: int, change: int)
    requires dst.Valid() && src.Valid() && dst != src
    requires forall o | o in src.pages && start <= o < end :: o + change !in dst.pages
    modifies dst, src, src.pages.Values
    ensures dst.Valid() && src.Valid() && dst.ref == old(dst.ref) && src.ref == old(src.ref)
    ensures forall o :: PageAt(dst.pages, o) == AdoptedPage(old(dst.pages), old(src.pages), start, end, change, o)
    ensures forall o :: PageAt(src.pages, o) == LeftPage(old(src.pages), start, end, o)
  {
    hide Wired, AdoptedPage, LeftPage, PageAt, Gained, Remaining, Cache.Valid, Enumerates;
    ghost var mine, theirs := dst.pages, src.pages;
    var keys := Iterate(src.pages);
    NothingAdopted(mine, theirs, keys, start, end, change);
    for i := 0 to |keys|
      invariant dst.Valid() && src.Valid() && dst.ref == old(dst.ref) && src.ref == old(src.ref)
      invariant dst.pages == Gained(mine, theirs, keys[..i], start, end, change)
      invariant src.pages == Remaining(theirs, keys[..i], start, end)
    {
      AdoptStep(mine, theirs, keys, i, start, end, change);
      FiledPage(src, keys[i]);
      if start <= keys[i] < end {
        dst.MovePage(src.pages[keys[i]], keys[i] + change);
      }
    }
    assert keys[..|keys|] == keys;
    AdoptedAll(mine, theirs, keys, start, end, change);
  }

  ghost function Gained<P>(mine: map<int, P>, theirs: map<int, P>, keys: seq<int>, start: int, end: int,
                           change: int): map<int, P> {
    if keys == [] then mine
    else
      var o := keys[|keys| - 1];
      var m := Gained(mine, theirs, keys[..|keys| - 1], start, end, change);
      if start <= o < end && o in theirs then m[o + change := theirs[o]] else m
  }

  ghost function Remaining<P>(theirs: map<int, P>, keys: seq<int>, start: int, end: int): map<int, P> {
    if keys == [] then theirs
    else
      var o := keys[|keys| - 1];
      var m := Remaining(theirs, keys[..|keys| - 1], start, end);
      if start <= o < end then m - {o} else m
  }

  lemma {:induction false} AdoptedAt<P>(mine: map<int, P>, theirs: map<int, P>, keys: seq<int>, start: int, end: int,
                                        change: int, o: int)
    ensures var m := Gained(mine, theirs, keys, start, end, change);
      && (o in m <==> o in mine || (o - change in keys && start <= o - change < end && o - change in theirs))
      && (o in m ==>
        m[o] == if o - change in keys && start <= o - change < end && o - change in theirs then theirs[o - change]
        else mine[o])
    ensures var r := Remaining(theirs, keys, start, end);
      && (o in r <==> o in theirs && !(o in keys && start <= o < end))
      && (o in r ==> r[o] == theirs[o])
  {
    if keys != [] {
      var n := |keys| - 1;
      AdoptedAt(mine, theirs, keys[..n], start, end, change, o);
      assert keys == keys[..n] + [keys[n]];
    }
  }

  lemma NothingAdopted<P>(mine: map<int, P>, theirs: map<int, P>, keys: seq<int>, start: int, end: int, change: int)
    ensures Gained(mine, theirs, keys[..0], start, end, change) == mine
    ensures Remaining(theirs, keys[..0], start, end) == theirs
  {
  }

  lemma AdoptStep<P>(mine: map<int, P>, theirs: map<int, P>, keys: seq<int>, i: nat, start: int, end: int, change: int)
    requires i < |keys| && Enumerates(keys, theirs)
    requires forall o | o in theirs && start <= o < end :: o + change !in mine
    ensures keys[i] in theirs && keys[..i + 1][..i] == keys[..i]
    ensures keys[i] in Remaining(theirs, keys[..i], start, end)
    ensures Remaining(theirs, keys[..i], start, end)[keys[i]] == theirs[keys[i]]
    ensures start <= keys[i] < end ==> keys[i] + change !in Gained(mine, theirs, keys[..i], start, end, change)
    ensures Gained(mine, theirs, keys[..i + 1], start, end, change) ==
      var m := Gained(mine, theirs, keys[..i], start, end, change);
      if start <= keys[i] < end then m[keys[i] + change := theirs[keys[i]]] else m
    ensures Remaining(theirs, keys[..i + 1], start, end) ==
      var m := Remaining(theirs, keys[..i], start, end);
      if start <= keys[i] < end then m - {keys[i]} else m
  {
    assert keys[i] in keys;
    assert keys[..i + 1][..i] == keys[..i];
    AdoptedAt(mine, theirs, keys[..i], start, end, change, keys[i]);
    AdoptedAt(mine, theirs, keys[..i], start, end, change, keys[i] + change);
    assert keys[i] !in keys[..i];
  }

  lemma AdoptedAll<P>(mine: map<int, P>, theirs: map<int, P>, keys: seq<int>, start: int, end: int, change: int)
    requires Enumerates(keys, theirs)
    ensures forall o ::
      PageAt(Gained(mine, theirs, keys, start, end, change), o) == AdoptedPage(mine, theirs, start, end, change, o)
    ensures forall o :: PageAt(Remaining(theirs, keys, start, end), o) == LeftPage(theirs, start, end, o)
  {
    forall o
      ensures PageAt(Gained(mine, theirs, keys, start, end, change), o) ==
        AdoptedPage(mine, theirs, start, end, change, o)
      ensures PageAt(Remaining(theirs, keys, start, end), o) == LeftPage(theirs, start, end, o)
    {
      AdoptedAt(mine, theirs, keys, start, end, change, o);
      assert (o in keys <==> o in theirs) && (o - change in keys <==> o - change in theirs);
    }
  }

  // ---- both together ----

  ghost function ShiftOf<P>(d: Image<P>, s: Image<P>, start: int,
                            to: int): Shift { Shift(s.blocks, d.blocks, start, to) }

  /** The pages of the range moved. */
  ghost predicate PagesAdopted<P>(d: Image<P>, s: Image<P>, start: int, end: int, to: int, d2: Image<P>, s2: Image<P>) {
    && (forall o :: PageAt(d2.pages, o) == AdoptedPage(d.pages, s.pages, start, end, to - start, o))
    && (forall o :: PageAt(s2.pages, o) == LeftPage(s.pages, start, end, o))
  }

  /** Adopt did what it is for: slots and pages of the range are the destination's. */
  ghost predicate Adopted<P>(d: Image<P>, s: Image<P>, start: int, end: int, to: int, d2: Image<P>, s2: Image<P>) {
    && Translated(ShiftOf(d, s, start, to), ScanEnd(start, end), s2.blocks, d2.blocks)
    && PagesAdopted(d, s, start, end, to, d2, s2)
  }

  /** No page and no slot of the destination is in the way: the assertions of both parts of Adopt. */
  ghost predicate Vacant<P>(d: Image<P>, s: Image<P>, start: int, end: int, to: int) {
    && Clear(ShiftOf(d, s, start, to), ScanEnd(start, end))
    && forall o | o in s.pages && start <= o < end :: o + (to - start) !in d.pages
  }

  /**
    Adopt (the swap slots, then the pages).  It fails only if no memory is left
    for a swap block; then the slots up to some page went over, the pages did
    not move.  When it succeeds the range is translated if and only if the
    source's counters and allocated size cover it.
  */
  method Adopt(dst: Anonymous, src: Anonymous, start: int, end: int, to: int, memory: nat) returns (ok: bool)
    requires dst != src && dst.cache != src.cache && dst.Valid() && src.Valid()
    requires Vacant(dst.Im(), src.Im(), start, end, to)
    modifies dst`blocks, dst`swapSize, src`blocks, src`swapSize, dst.cache, src.cache, src.cache.pages.Values
    ensures dst.cache.Valid() && src.cache.Valid()
    ensures src.swapSize + dst.swapSize == old(src.swapSize + dst.swapSize)
    ensures ok ==> PagesAdopted(old(dst.Im()), old(src.Im()), start, end, to, dst.Im(), src.Im())
    ensures ok ==>
      (Adopted(old(dst.Im()), old(src.Im()), start, end, to, dst.Im(), src.Im()) <==>
       Covers(ShiftOf(old(dst.Im()), old(src.Im()), start, to), ScanEnd(start, end), old(src.swapSize)))
    ensures exists reached | start <= reached <= ScanEnd(start, end) ::
      && Shifted(ShiftOf(old(dst.Im()), old(src.Im()), start, to), reached, BlockOf(reached), src.blocks, dst.blocks)
      && (ok ==> Ended(ShiftOf(old(dst.Im()), old(src.Im()), start, to), ScanEnd(start, end), reached,
        old(src.swapSize)))
    ensures !ok ==> dst.cache.pages == old(dst.cache.pages) && src.cache.pages == old(src.cache.pages)
    ensures memory >= ScanEnd(start, end) - start ==> ok
  {
    hide Shifted, Clear, ScanEnd, Wired, Cache.Valid, AdoptedPage, LeftPage, PageAt, MovedSet, Translated, Covers;
    hide BlocksShaped;
    ghost var k, srcSize := ShiftOf(dst.Im(), src.Im(), start, to), src.swapSize;
    ghost var reached;
    ok, reached := AdoptSlots(dst, src, start, end, to, memory, k);
    if ok {
      HowEnded(k, end, reached, srcSize);
      AdoptExact(k, ScanEnd(start, end), reached, srcSize, src.blocks, dst.blocks);
      AdoptPages(dst.cache, src.cache, start, end, to - start);
    }
  }

  lemma HowEnded(k: Shift, end: int, reached: int, srcSize: int)
    requires k.start <= reached <= ScanEnd(k.start, end) && Funded(k, reached, srcSize)
    requires reached == ScanEnd(k.start, end)
      || (srcSize - |MovedSet(k, reached)| <= 0 && (reached == k.start || IndexOf(reached) == 0))
    ensures Ended(k, ScanEnd(k.start, end), reached, srcSize)
  {
  }

  /**
    Adopt is a translation of the range: page or slot, whatever showed at o now shows at the new
    offset, and only there.
  */
  lemma AdoptTranslates<P>(d: Image<P>, s: Image<P>, start: int, end: int, to: int, d2: Image<P>, s2: Image<P>, o: int)
    requires Adopted(d, s, start, end, to, d2, s2) && start <= o < end && Own(d, o - start + to).Absent?
    ensures Own(d2, o - start + to) == Own(s, o)
    ensures Own(s2, o) == Absent
  {
    hide SlotAt, Translated, PagesAdopted;
    ScanStep(start, o, end);
    TranslatedAt(ShiftOf(d, s, start, to), ScanEnd(start, end), s2.blocks, d2.blocks, o);
    PagesAt(d, s, start, end, to, d2, s2, o);
  }

  lemma TranslatedAt(k: Shift, t: int, src: map<int, SwapBlock>, dst: map<int, SwapBlock>, o: int)
    requires Translated(k, t, src, dst) && k.start <= o < t
    ensures SlotAt(src, o).None?
    ensures SlotAt(dst, o - k.start + k.to) ==
      if SlotAt(k.src, o).Some? then SlotAt(k.src, o) else SlotAt(k.dst, o - k.start + k.to)
  {
    hide SlotAt;
    assert SlotAt(dst, o - k.start + k.to) == Wanted(k, t, o - k.start + k.to);
  }

  lemma PagesAt<P>(d: Image<P>, s: Image<P>, start: int, end: int, to: int, d2: Image<P>, s2: Image<P>, o: int)
    requires PagesAdopted(d, s, start, end, to, d2, s2) && start <= o < end
    ensures o !in s2.pages
    ensures var x := o - start + to;
      if o in s.pages then x in d2.pages && d2.pages[x] == s.pages[o] else PageAt(d2.pages, x) == PageAt(d.pages, x)
  {
    var x := o - start + to;
    assert PageAt(d2.pages, x) == AdoptedPage(d.pages, s.pages, start, end, to - start, x);
    assert PageAt(s2.pages, o) == LeftPage(s.pages, start, end, o);
  }

  /** Below the range, and above its last block, the source keeps what it has. */
  lemma AdoptLeavesOthers<P>(d: Image<P>, s: Image<P>, start: int, end: int, to: int, d2: Image<P>, s2: Image<P>,
                             o: int)
    requires Adopted(d, s, start, end, to, d2, s2) && (o < start || ScanEnd(start, end) <= o)
    ensures Own(s2, o) == Own(s, o)
  {
    hide SlotAt;
    ScanFrom(start, end);
    if start < end { ScanStep(start, end - 1, end); }
    assert PageAt(s2.pages, o) == LeftPage(s.pages, start, end, o);
    assert SlotAt(s2.blocks, o) == SlotAt(s.blocks, o);
  }

  /**
    Between the end of the range and the end of its last block the source keeps
    its pages but not its slots, since the inner loop does not look at the end
    index: it shows the same as before exactly if no slot decided what it showed.
    A range that reaches the source's end therefore loses nothing.
  */
  lemma AdoptTail<P>(d: Image<P>, s: Image<P>, start: int, end: int, to: int, d2: Image<P>, s2: Image<P>, o: int)
    requires Adopted(d, s, start, end, to, d2, s2) && start < end <= o < ScanEnd(start, end)
    ensures Own(s2, o) == Own(s, o) <==> o in s.pages || SlotAt(s.blocks, o).None?
    ensures SlotAt(s.blocks, o).Some? ==> SlotAt(d2.blocks, o - start + to) == SlotAt(s.blocks, o)
    ensures SlotAt(s2.blocks, o).None? && PageAt(s2.pages, o) == PageAt(s.pages, o)
  {
    hide SlotAt;
    assert PageAt(s2.pages, o) == LeftPage(s.pages, start, end, o);
    TranslatedAt(ShiftOf(d, s, start, to), ScanEnd(start, end), s2.blocks, d2.blocks, o);
  }

  // ---- concrete caches ----

  /** A cache with slots x and y at pages 0 and 1 and the given block counter. */
  function TwoSlots(x: Slot, y: Slot, used: nat): map<int, SwapBlock> {
    map[0 := SwapBlock(used, OneSlot(0, x)[1 := Some(y)])]
  }

  lemma TwoSlotsAre(x: Slot, y: Slot, used: nat)
    requires used < UINT32
    ensures BlocksShaped(TwoSlots(x, y, used))
    ensures SlotAt(TwoSlots(x, y, used), 0) == Some(x) && SlotAt(TwoSlots(x, y, used), 1) == Some(y)
    ensures forall o | o != 0 && o != 1 :: SlotAt(TwoSlots(x, y, used), o).None?
  {
  }

  /** What a counter of one lets the loop do. */
  lemma StopsAtOne(x: Slot, y: Slot, reached: int, src: map<int, SwapBlock>, dst: map<int, SwapBlock>)
    requires reached == 32 && Shifted(Shift(TwoSlots(x, y, 1), map[], 0, 0), reached, BlockOf(reached), src, dst)
    ensures SlotAt(src, 1) == SlotAt(dst, 1) == None && SlotAt(dst, 0) == Some(x)
  {
    hide Shifted;
    var k := Shift(TwoSlots(x, y, 1), map[], 0, 0);
    TwoSlotsAre(x, y, 1);
    assert Stop(k.src[0].slots, 1, 0) == 1 && Left(k.src[0].slots, 1, 0) == 0;
    ShiftedAt(k, reached, src, dst, 0);
    ShiftedAt(k, reached, src, dst, 1);
  }

  lemma ShiftedAt(k: Shift, s: int, src: map<int, SwapBlock>, dst: map<int, SwapBlock>, o: int)
    requires Shifted(k, s, BlockOf(s), src, dst)
    ensures SlotAt(src, o) == Remains(k, s, BlockOf(s), o) && SlotAt(dst, o) == Given(k, s, o)
  {
    hide Remains, Given, SlotAt;
  }

  /**
    The slots of pages 0 and 1 with a counter of one: a cache that adopts both pages gets one, and
    the other is gone.
  */
  method UndercountLosesASlot(x: Slot, y: Slot) returns (dst: Anonymous, src: Anonymous)
    ensures SlotAt(src.blocks, 1) == SlotAt(dst.blocks, 1) == None && SlotAt(dst.blocks, 0) == Some(x)
  {
    hide Shifted, TwoSlots, Cache.Valid, SlotAt;
    src := new Anonymous(0, 32);
    dst := new Anonymous(0, 32);
    TwoSlotsAre(x, y, 1);
    src.blocks, src.swapSize := TwoSlots(x, y, 1), 2;
    NothingInTheWay(dst.Im(), src.Im(), 0, 32, 0);
    ghost var k := ShiftOf(dst.Im(), src.Im(), 0, 0);
    var ok := Adopt(dst, src, 0, 32, 0, 32);
    ghost var reached :| 0 <= reached <= 32 && Ended(k, 32, reached, 2)
      && Shifted(k, reached, BlockOf(reached), src.blocks, dst.blocks);
    NothingMoved(k, 2);
    StopsAtOne(x, y, reached, src.blocks, dst.blocks);
  }

  /** A range of one page in a block with a second slot: the source no longer shows page 1, which was not to move. */
  method TailLosesASlot(x: Slot, y: Slot) returns (dst: Anonymous, src: Anonymous)
    ensures Own(src.Im(), 1) == Absent && SlotAt(dst.blocks, 1) == Some(y)
  {
    hide Shifted, TwoSlots, Cache.Valid, SlotAt, Adopted, Covers;
    src := new Anonymous(0, 32);
    dst := new Anonymous(0, 1);
    TwoSlotsAre(x, y, 2);
    src.blocks, src.swapSize := TwoSlots(x, y, 2), 2;
    ghost var s, d := src.Im(), dst.Im();
    NothingInTheWay(d, s, 0, 1, 0);
    TwoSlotsExact(x, y);
    ExactCovers(ShiftOf(d, s, 0, 0), 32, 2);
    var ok := Adopt(dst, src, 0, 1, 0, 32);
    AdoptTail(d, s, 0, 1, 0, dst.Im(), src.Im(), 1);
  }

  lemma NothingInTheWay<P>(d: Image<P>, s: Image<P>, start: int, end: int, to: int)
    requires d.blocks == map[] && s.pages == map[]
    ensures Vacant(d, s, start, end, to)
  {
  }

  lemma TwoSlotsExact(x: Slot, y: Slot)
    ensures BlocksExact(TwoSlots(x, y, 2)) && Counted(TwoSlots(x, y, 2), 2)
  {
    hide Occupied;
    var m, one := TwoSlots(x, y, 2), OneSlot(0, x);
    CountOne(one, 0);
    CountUpdate(one, 1, Some(y));
    TwoSlotsAre(x, y, 2);
    forall o ensures o in Occupied(m) <==> o == 0 || o == 1 { OccupiedIs(m, o); }
    assert Occupied(m) == {0, 1};
  }
}
