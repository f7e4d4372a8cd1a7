/**
  The swap bookkeeping of an anonymous cache (cache/mm_anonymous_cache.cpp) as
  values: swap blocks of 32 slots with a `used` counter, what _MergeSwapPages
  makes of a pair of blocks, and what that does to the consumer's view.
  All sizes and indices are in pages.
*/
module SwapBlocks {
  import opened Options

  type Slot = nat

  const SWAP_BLOCK_PAGES: nat := 32

  const UINT32: nat := 0x1_0000_0000

  datatype SwapBlock = SwapBlock(used: nat, slots: seq<Option<Slot>>)

  ghost predicate Shaped(b: SwapBlock) { |b.slots| == SWAP_BLOCK_PAGES && b.used < UINT32 }

  function Count(slots: seq<Option<Slot>>): nat {
    if slots == [] then 0 else Count(slots[..|slots| - 1]) + (if slots[|slots| - 1].Some? then 1 else 0)
  }

  /** The counter says how many slots are in use. */
  ghost predicate Exact(b: SwapBlock) { Shaped(b) && b.used == Count(b.slots) }

  lemma {:induction false} CountBounds(slots: seq<Option<Slot>>)
    ensures Count(slots) <= |slots|
    ensures Count(slots) == 0 <==> forall i | 0 <= i < |slots| :: slots[i].None?
  {
    if slots != [] { CountBounds(slots[..|slots| - 1]); }
  }

  lemma {:induction false} CountUpdate(slots: seq<Option<Slot>>, i: nat, v: Option<Slot>)
    requires i < |slots|
    ensures Count(slots[i := v]) == Count(slots) - (if slots[i].Some? then 1 else 0) + (if v.Some? then 1 else 0)
  {
    var n := |slots| - 1;
    if i == n {
      assert slots[i := v][..n] == slots[..n];
    } else {
      assert slots[i := v][..n] == slots[..n][i := v];
      CountUpdate(slots[..n], i, v);
    }
  }

  // ---- the blocks of a cache ----

  function BlockOf(o: int): int { o / SWAP_BLOCK_PAGES }

  function IndexOf(o: int): nat { o % SWAP_BLOCK_PAGES }

  ghost predicate BlocksShaped(blocks: map<int, SwapBlock>) { forall b | b in blocks :: Shaped(blocks[b]) }

  ghost predicate BlocksExact(blocks: map<int, SwapBlock>) { forall b | b in blocks :: Exact(blocks[b]) }

  function BlockAt(blocks: map<int, SwapBlock>, b: int): Option<SwapBlock> {
    if b in blocks then Some(blocks[b]) else None
  }

  /** Slot i of a block, if there is a block at all. */
  function SlotOf(b: Option<SwapBlock>, i: nat): Option<Slot> {
    if b.Some? && i < |b.value.slots| then b.value.slots[i] else None
  }

  /** _SwapBlockGetAddress. */
  function SlotAt(blocks: map<int, SwapBlock>, o: int): Option<Slot> {
    SlotOf(BlockAt(blocks, o / SWAP_BLOCK_PAGES), o % SWAP_BLOCK_PAGES)
  }

  function EmptyBlock(): (b: SwapBlock)
    ensures Exact(b)
  {
    EmptyCount(SWAP_BLOCK_PAGES);
    SwapBlock(0, seq(SWAP_BLOCK_PAGES, _ => None))
  }

  lemma EmptyCount(n: nat)
    ensures Count(seq(n, _ => None)) == 0
  {
    CountBounds(seq(n, _ => None));
  }

  /** Slot o set to v, and the counter changed in 32-bit arithmetic. */
  function WithSlot(blocks: map<int, SwapBlock>, o: int, v: Option<Slot>, change: int): map<int, SwapBlock>
    requires -1 <= change <= 1
  {
    if BlockOf(o) !in blocks || IndexOf(o) >= |blocks[BlockOf(o)].slots| then blocks
    else
      var block := blocks[BlockOf(o)];
      blocks[BlockOf(o) := SwapBlock((block.used + UINT32 + change) % UINT32, block.slots[IndexOf(o) := v])]
  }

  /** By how much the number of slots changes when slot o becomes v. */
  function Change(blocks: map<int, SwapBlock>, o: int, v: Option<Slot>): int {
    (if v.Some? then 1 else 0) - (if SlotAt(blocks, o).Some? then 1 else 0)
  }

  lemma WithSlotAt(blocks: map<int, SwapBlock>, o: int, v: Option<Slot>, change: int)
    requires BlocksShaped(blocks) && BlockOf(o) in blocks && -1 <= change <= 1
    ensures BlocksShaped(WithSlot(blocks, o, v, change))
    ensures BlocksExact(blocks) && change == Change(blocks, o, v) ==> BlocksExact(WithSlot(blocks, o, v, change))
    ensures forall x :: SlotAt(WithSlot(blocks, o, v, change), x) == if x == o then v else SlotAt(blocks, x)
  {
    var b, i := BlockOf(o), IndexOf(o);
    CountUpdate(blocks[b].slots, i, v);
    CountBounds(blocks[b].slots[i := v]);
    forall x ensures SlotAt(WithSlot(blocks, o, v, change), x) == if x == o then v else SlotAt(blocks, x) {
      if BlockOf(x) == b && IndexOf(x) == i {
        assert x == b * SWAP_BLOCK_PAGES + i == o;
      }
    }
  }

  /** An empty block for page o if there is none. */
  function WithBlockOf(blocks: map<int, SwapBlock>, o: int): map<int, SwapBlock> {
    if BlockOf(o) in blocks then blocks else blocks[BlockOf(o) := EmptyBlock()]
  }

  lemma WithBlockOfIs(blocks: map<int, SwapBlock>, o: int)
    requires BlocksShaped(blocks)
    ensures BlocksShaped(WithBlockOf(blocks, o)) && BlockOf(o) in WithBlockOf(blocks, o)
    ensures BlocksExact(blocks) ==> BlocksExact(WithBlockOf(blocks, o))
    ensures forall x :: SlotAt(WithBlockOf(blocks, o), x) == SlotAt(blocks, x)
  {
  }

  /** Dropping a block drops its slots, which are none if its exact counter is zero. */
  lemma DropBlock(blocks: map<int, SwapBlock>, b: int)
    requires BlocksShaped(blocks)
    ensures BlocksShaped(blocks - {b}) && (BlocksExact(blocks) ==> BlocksExact(blocks - {b}))
    ensures forall x :: SlotAt(blocks - {b}, x) == if BlockOf(x) == b then None else SlotAt(blocks, x)
    ensures b in blocks && Exact(blocks[b]) && blocks[b].used == 0 ==>
      forall x :: SlotAt(blocks - {b}, x) == SlotAt(blocks, x)
  {
    if b in blocks { CountBounds(blocks[b].slots); }
  }

  /** _SwapBlockBuild of one page. */
  function Build(blocks: map<int, SwapBlock>, o: int, slot: Slot): map<int, SwapBlock> {
    WithSlot(WithBlockOf(blocks, o), o, Some(slot), 1)
  }

  /** _SwapBlockFree of one page: a block whose counter reaches zero is dropped. */
  function Release(blocks: map<int, SwapBlock>, o: int): map<int, SwapBlock> {
    var m := WithSlot(blocks, o, None, -1);
    if BlockOf(o) in m && m[BlockOf(o)].used == 0 then m - {BlockOf(o)} else m
  }

  /** Freeing the slot of page o takes the slots of its whole block with it if the counter was one. */
  predicate Goes(blocks: map<int, SwapBlock>, o: int, x: int)
    requires BlockOf(o) in blocks
  {
    x == o || (BlockOf(x) == BlockOf(o) && blocks[BlockOf(o)].used == 1)
  }

  lemma BuildIs(blocks: map<int, SwapBlock>, o: int, slot: Slot)
    requires BlocksShaped(blocks)
    ensures BlocksShaped(Build(blocks, o, slot))
    ensures BlocksExact(blocks) && SlotAt(blocks, o).None? ==> BlocksExact(Build(blocks, o, slot))
    ensures forall x :: SlotAt(Build(blocks, o, slot), x) == if x == o then Some(slot) else SlotAt(blocks, x)
  {
    WithBlockOfIs(blocks, o);
    WithSlotAt(WithBlockOf(blocks, o), o, Some(slot), 1);
  }

  lemma ReleaseIs(blocks: map<int, SwapBlock>, o: int)
    requires BlocksShaped(blocks) && SlotAt(blocks, o).Some?
    ensures BlocksShaped(Release(blocks, o)) && (BlocksExact(blocks) ==> BlocksExact(Release(blocks, o)))
    ensures forall x :: SlotAt(Release(blocks, o), x) == if Goes(blocks, o, x) then None else SlotAt(blocks, x)
  {
    WithSlotAt(blocks, o, None, -1);
    DropBlock(WithSlot(blocks, o, None, -1), BlockOf(o));
  }

  /** With an exact counter of one the block has no other slot. */
  lemma ReleaseExact(blocks: map<int, SwapBlock>, o: int, x: int)
    requires BlocksExact(blocks) && SlotAt(blocks, o).Some? && x != o
    ensures SlotAt(Release(blocks, o), x) == SlotAt(blocks, x)
  {
    WithSlotAt(blocks, o, None, -1);
    DropBlock(WithSlot(blocks, o, None, -1), BlockOf(o));
  }

  // ---- how many slots a cache has ----

  /** The page indices with a swap slot, in the blocks of bs. */
  ghost function OccupiedIn(blocks: map<int, SwapBlock>, bs: set<int>): set<int> {
    set b, i | b in blocks && b in bs && 0 <= i < |blocks[b].slots| && blocks[b].slots[i].Some? ::
      b * SWAP_BLOCK_PAGES + i
  }

  ghost function Occupied(blocks: map<int, SwapBlock>): set<int> { OccupiedIn(blocks, blocks.Keys) }

  /** allocated_swap_size is the number of slots. */
  ghost predicate Counted(blocks: map<int, SwapBlock>, size: int) { size == |Occupied(blocks)| }

  lemma OccupiedInIs(blocks: map<int, SwapBlock>, bs: set<int>, o: int)
    requires BlocksShaped(blocks)
    ensures o in OccupiedIn(blocks, bs) <==> BlockOf(o) in bs && SlotAt(blocks, o).Some?
  {
    assert BlockOf(o) * SWAP_BLOCK_PAGES + IndexOf(o) == o;
    if SlotAt(blocks, o).Some? {
      assert blocks[BlockOf(o)].slots[IndexOf(o)].Some?;
    }
    if o in OccupiedIn(blocks, bs) {
      var b, i :| b in blocks && b in bs && 0 <= i < |blocks[b].slots| && blocks[b].slots[i].Some? &&
        b * SWAP_BLOCK_PAGES + i == o;
      assert BlockOf(o) == b && IndexOf(o) == i;
    }
  }

  lemma OccupiedIs(blocks: map<int, SwapBlock>, o: int)
    requires BlocksShaped(blocks)
    ensures o in Occupied(blocks) <==> SlotAt(blocks, o).Some?
  {
    OccupiedInIs(blocks, blocks.Keys, o);
  }

  /** One slot more or less. */
  lemma OneSlotChanged(a: map<int, SwapBlock>, b: map<int, SwapBlock>, o: int, v: Option<Slot>, size: int)
    requires Counted(a, size) && BlocksShaped(a) && BlocksShaped(b)
    requires forall x :: SlotAt(b, x) == if x == o then v else SlotAt(a, x)
    ensures Counted(b, size + Change(a, o, v))
  {
    hide Occupied, SlotAt, BlocksShaped;
    forall x ensures x in Occupied(b) <==> if x == o then v.Some? else x in Occupied(a) {
      OccupiedIs(a, x);
      OccupiedIs(b, x);
    }
    OccupiedIs(a, o);
    if v.Some? {
      assert Occupied(b) == Occupied(a) + {o};
    } else {
      assert Occupied(b) == Occupied(a) - {o};
    }
  }

  lemma NoneLeft(blocks: map<int, SwapBlock>, size: int, o: int)
    requires BlocksShaped(blocks) && Counted(blocks, size) && size <= 0
    ensures SlotAt(blocks, o).None?
  {
    OccupiedIs(blocks, o);
  }

  // ---- merging one pair of blocks ----

  /** The consumer already has something at index i: a swapped out or a resident page. */
  predicate Shadowed(cb: Option<SwapBlock>, resident: seq<bool>, i: nat) {
    SlotOf(cb, i).Some? || (i < |resident| && resident[i])
  }

  /** The source slots that are not shadowed by the consumer. */
  function Kept(cb: Option<SwapBlock>, slots: seq<Option<Slot>>, resident: seq<bool>): (r: seq<Option<Slot>>)
    ensures |r| == |slots|
    ensures forall i | 0 <= i < |slots| :: r[i] == if Shadowed(cb, resident, i) then None else slots[i]
  {
    seq(|slots|, i requires 0 <= i < |slots| => if Shadowed(cb, resident, i) then None else slots[i])
  }

  /** How many slots the merge frees, scanning from the front as the code does. */
  function Freed(cb: Option<SwapBlock>, slots: seq<Option<Slot>>, resident: seq<bool>): nat {
    if slots == [] then 0
    else
      var n := |slots| - 1;
      Freed(cb, slots[..n], resident) + (if slots[n].Some? && Shadowed(cb, resident, n) then 1 else 0)
  }

  lemma {:induction false} FreedAndKept(cb: Option<SwapBlock>, slots: seq<Option<Slot>>, resident: seq<bool>)
    ensures Freed(cb, slots, resident) + Count(Kept(cb, slots, resident)) == Count(slots)
  {
    if slots != [] {
      var n := |slots| - 1;
      FreedAndKept(cb, slots[..n], resident);
      assert Kept(cb, slots, resident)[..n] == Kept(cb, slots[..n], resident);
    }
  }

  /** `used` after one decrement per freed slot, in 32-bit arithmetic. */
  function UsedAfter(cb: Option<SwapBlock>, sb: SwapBlock, resident: seq<bool>): nat {
    (sb.used + UINT32 - Freed(cb, sb.slots, resident)) % UINT32
  }

  /** The consumer's block where the source had block sb; the copy branch leaves `used` alone. */
  function MergeOne(cb: Option<SwapBlock>, sb: SwapBlock, resident: seq<bool>): Option<SwapBlock> {
    var kept := Kept(cb, sb.slots, resident);
    var used := UsedAfter(cb, sb, resident);
    if used == 0 then cb
    else if cb.None? then Some(SwapBlock(used, kept))
    else Some(SwapBlock(cb.value.used, CopyInto(cb.value.slots, kept)))
  }

  function CopyInto(slots: seq<Option<Slot>>, kept: seq<Option<Slot>>): (r: seq<Option<Slot>>)
    ensures |r| == |slots|
    ensures forall i | 0 <= i < |slots| :: r[i] == if i < |kept| && kept[i].Some? then kept[i] else slots[i]
  {
    seq(|slots|, i requires 0 <= i < |slots| => if i < |kept| && kept[i].Some? then kept[i] else slots[i])
  }

  /** The block is discarded although a slot of it is neither shadowed nor freed. */
  ghost predicate Discards(cb: Option<SwapBlock>, sb: SwapBlock, resident: seq<bool>) {
    UsedAfter(cb, sb, resident) == 0
  }

  /** What the merged block holds, slot by slot. */
  lemma MergedSlot(cb: Option<SwapBlock>, sb: SwapBlock, resident: seq<bool>, i: nat)
    requires Shaped(sb) && (cb.Some? ==> Shaped(cb.value)) && i < SWAP_BLOCK_PAGES
    ensures SlotOf(MergeOne(cb, sb, resident), i) ==
      if SlotOf(cb, i).Some? then SlotOf(cb, i)
      else if Shadowed(cb, resident, i) || Discards(cb, sb, resident) then None
      else sb.slots[i]
  {
  }

  /** With an exact counter, discarding is right: nothing is left in the block. */
  lemma ExactDiscardsEmpty(cb: Option<SwapBlock>, sb: SwapBlock, resident: seq<bool>)
    requires Exact(sb)
    ensures Discards(cb, sb, resident) <==>
      forall i | 0 <= i < SWAP_BLOCK_PAGES :: Kept(cb, sb.slots, resident)[i].None?
    ensures UsedAfter(cb, sb, resident) == Count(Kept(cb, sb.slots, resident))
  {
    var kept := Kept(cb, sb.slots, resident);
    FreedAndKept(cb, sb.slots, resident);
    CountBounds(sb.slots);
    CountBounds(kept);
    assert sb.used + UINT32 - Freed(cb, sb.slots, resident) == UINT32 + Count(kept);
  }

  lemma {:induction false} CountCopied(slots: seq<Option<Slot>>, kept: seq<Option<Slot>>)
    requires |slots| == |kept| && forall i | 0 <= i < |slots| :: slots[i].None? || kept[i].None?
    ensures Count(CopyInto(slots, kept)) == Count(slots) + Count(kept)
  {
    if slots != [] {
      var n := |slots| - 1;
      CountCopied(slots[..n], kept[..n]);
      assert CopyInto(slots, kept)[..n] == CopyInto(slots[..n], kept[..n]);
    }
  }

  /**
    From exact counters, the merged block is exact again exactly when no slot
    had to be copied into an existing consumer block: copying does not raise `used`.
  */
  lemma MergeKeepsExact(cb: Option<SwapBlock>, sb: SwapBlock, resident: seq<bool>)
    requires Exact(sb) && (cb.Some? ==> Exact(cb.value))
    ensures var r := MergeOne(cb, sb, resident);
      (r.Some? ==> Exact(r.value)) <==> cb.None? || Discards(cb, sb, resident)
  {
    var kept := Kept(cb, sb.slots, resident);
    ExactDiscardsEmpty(cb, sb, resident);
    CountBounds(kept);
    if cb.Some? && !Discards(cb, sb, resident) {
      CountCopied(cb.value.slots, kept);
    }
  }

  // ---- whole caches ----

  /** What one cache holds: resident pages and swap blocks (keyed by block number). */
  datatype Image<P> = Image(pages: map<int, P>, blocks: map<int, SwapBlock>)

  datatype Entry<P> = Resident(page: P) | Swapped(slot: Slot) | Absent

  /** What a cache itself has at page index o: a resident page wins over a swap slot. */
  function Own<P>(im: Image<P>, o: int): Entry<P> {
    if o in im.pages then Resident(im.pages[o])
    else match SlotAt(im.blocks, o)
      case Some(slot) => Swapped(slot)
      case None => Absent
  }

  function Over<P>(a: Entry<P>, b: Entry<P>): Entry<P> { if a.Absent? then b else a }

  /** What a fault finds at o, searching a cache and then its sources. */
  function View<P>(chain: seq<Image<P>>, o: int): Entry<P> {
    if chain == [] then Absent else Over(Own(chain[0], o), View(chain[1..], o))
  }

  function ResidentIn<P>(pages: map<int, P>, b: int): (r: seq<bool>)
    ensures |r| == SWAP_BLOCK_PAGES
    ensures forall i | 0 <= i < SWAP_BLOCK_PAGES :: r[i] == (b * SWAP_BLOCK_PAGES + i in pages)
  {
    seq(SWAP_BLOCK_PAGES, i requires 0 <= i < SWAP_BLOCK_PAGES => b * SWAP_BLOCK_PAGES + i in pages)
  }

  function MergedBlock<P>(c: Image<P>, s: Image<P>, b: int): Option<SwapBlock> {
    if b in s.blocks then MergeOne(BlockAt(c.blocks, b), s.blocks[b], ResidentIn(c.pages, b))
    else BlockAt(c.blocks, b)
  }

  /** The consumer's swap blocks after _MergeSwapPages. */
  function MergeBlocks<P>(c: Image<P>, s: Image<P>): (m: map<int, SwapBlock>)
    ensures forall b :: BlockAt(m, b) == MergedBlock(c, s, b)
  {
    map b | b in c.blocks.Keys + s.blocks.Keys && MergedBlock(c, s, b).Some? :: MergedBlock(c, s, b).value
  }

  /** The consumer's resident pages after the merge. */
  function MergePages<P>(c: Image<P>, s: Image<P>): (m: map<int, P>) {
    map o | o in c.pages.Keys + s.pages.Keys && (o in c.pages || SlotAt(c.blocks, o).None?) ::
      if o in c.pages then c.pages[o] else s.pages[o]
  }

  function Merged<P>(c: Image<P>, s: Image<P>): Image<P> { Image(MergePages(c, s), MergeBlocks(c, s)) }

  ghost predicate AllShaped<P>(im: Image<P>) { BlocksShaped(im.blocks) }

  ghost predicate AllExact<P>(im: Image<P>) { BlocksExact(im.blocks) }

  /**
    The swapped out page at o is thrown away by merging s into c: nothing
    shadows it, no page is resident, but the block's counter reaches zero.
    Everything here can be evaluated before the merge.
  */
  predicate Lost<P>(c: Image<P>, s: Image<P>, o: int) {
    && SlotAt(s.blocks, o).Some? && o !in s.pages
    && SlotAt(c.blocks, o).None? && o !in c.pages
    && UsedAfter(BlockAt(c.blocks, o / SWAP_BLOCK_PAGES), s.blocks[o / SWAP_BLOCK_PAGES],
                 ResidentIn(c.pages, o / SWAP_BLOCK_PAGES)) == 0
  }

  lemma MergedSlotAt<P>(c: Image<P>, s: Image<P>, o: int)
    requires AllShaped(c) && AllShaped(s)
    ensures SlotAt(Merged(c, s).blocks, o) ==
      if SlotAt(c.blocks, o).Some? then SlotAt(c.blocks, o)
      else if o in c.pages || SlotAt(s.blocks, o).None? then None
      else if UsedAfter(BlockAt(c.blocks, o / SWAP_BLOCK_PAGES), s.blocks[o / SWAP_BLOCK_PAGES],
                        ResidentIn(c.pages, o / SWAP_BLOCK_PAGES)) == 0 then None
      else SlotAt(s.blocks, o)
  {
    var b, i := o / SWAP_BLOCK_PAGES, o % SWAP_BLOCK_PAGES;
    if b in s.blocks {
      MergedSlot(BlockAt(c.blocks, b), s.blocks[b], ResidentIn(c.pages, b), i);
      assert b * SWAP_BLOCK_PAGES + i == o;
    }
  }

  /** At o the merged consumer shows what consumer over source showed, exactly when the page is not lost. */
  lemma MergeViewAt<P>(c: Image<P>, s: Image<P>, o: int)
    requires AllShaped(c) && AllShaped(s)
    ensures Own(Merged(c, s), o) == Over(Own(c, o), Own(s, o)) <==> !Lost(c, s, o)
    ensures Lost(c, s, o) ==> Own(Merged(c, s), o).Absent?
  {
    MergedSlotAt(c, s, o);
  }

  /**
    Merging a cache into its only consumer preserves the consumer's view at
    every offset, through any further sources, if and only if no page is lost.
  */
  lemma MergePreservesView<P(!new)>(c: Image<P>, s: Image<P>)
    requires AllShaped(c) && AllShaped(s)
    ensures (forall rest: seq<Image<P>>, o :: View([Merged(c, s)] + rest, o) == View([c, s] + rest, o))
      <==> (forall o :: !Lost(c, s, o))
  {
    forall rest: seq<Image<P>>, o
      ensures View([c, s] + rest, o) == Over(Over(Own(c, o), Own(s, o)), View(rest, o))
      ensures View([Merged(c, s)] + rest, o) == Over(Own(Merged(c, s), o), View(rest, o))
    {
      assert ([c, s] + rest)[1..] == [s] + rest && ([s] + rest)[1..] == rest;
      assert ([Merged(c, s)] + rest)[1..] == rest;
    }
    if forall o :: !Lost(c, s, o) {
      forall rest: seq<Image<P>>, o ensures View([Merged(c, s)] + rest, o) == View([c, s] + rest, o) {
        MergeViewAt(c, s, o);
      }
    } else {
      var o :| Lost(c, s, o);
      MergeViewAt(c, s, o);
      var none: seq<Image<P>> := [];
      assert View([Merged(c, s)] + none, o) != View([c, s] + none, o);
    }
  }

  /** With exact counters in the source nothing is ever lost. */
  lemma ExactLosesNothing<P>(c: Image<P>, s: Image<P>, o: int)
    requires AllExact(s)
    ensures !Lost(c, s, o)
  {
    if Lost(c, s, o) {
      var b, i := o / SWAP_BLOCK_PAGES, o % SWAP_BLOCK_PAGES;
      assert b * SWAP_BLOCK_PAGES + i == o;
      var kept := Kept(BlockAt(c.blocks, b), s.blocks[b].slots, ResidentIn(c.pages, b));
      assert kept[i].Some?;
      ExactDiscardsEmpty(BlockAt(c.blocks, b), s.blocks[b], ResidentIn(c.pages, b));
    }
  }

  /** What the consumer's allocated size gains for block b: the source block's counter when the filter is done. */
  ghost function Taken<P>(c: Image<P>, s: Image<P>, b: int): nat {
    if b in s.blocks then UsedAfter(BlockAt(c.blocks, b), s.blocks[b], ResidentIn(c.pages, b)) else 0
  }

  /** Some source block has slots left for a block the consumer has too. */
  ghost predicate Copies<P>(c: Image<P>, s: Image<P>) {
    exists b :: b in c.blocks && b in s.blocks && Taken(c, s, b) != 0
  }

  /** The counters are exact after the merge exactly when no block pair took the copy branch. */
  lemma MergeKeepsCounters<P>(c: Image<P>, s: Image<P>)
    requires AllExact(c) && AllExact(s)
    ensures AllExact(Merged(c, s)) <==> !Copies(c, s)
  {
    var m := Merged(c, s);
    forall b | b in s.blocks
      ensures (b in m.blocks ==> Exact(m.blocks[b])) <==> b !in c.blocks || Taken(c, s, b) == 0
    {
      MergeKeepsExact(BlockAt(c.blocks, b), s.blocks[b], ResidentIn(c.pages, b));
      assert BlockAt(m.blocks, b) == MergedBlock(c, s, b);
    }
    forall b ensures BlockAt(m.blocks, b) == MergedBlock(c, s, b) {}
    if Copies(c, s) {
      var b :| b in c.blocks && b in s.blocks && Taken(c, s, b) != 0;
      assert BlockAt(m.blocks, b) == MergedBlock(c, s, b);
    } else {
      forall b | b in m.blocks ensures Exact(m.blocks[b]) {
        assert BlockAt(m.blocks, b) == MergedBlock(c, s, b);
        if b in c.blocks && b in s.blocks { assert Taken(c, s, b) == 0; }
      }
    }
  }

  // ---- allocated sizes, and the whole merge ----

  ghost function SlotsOf(blocks: map<int, SwapBlock>, b: int): seq<Option<Slot>> {
    if b in blocks then blocks[b].slots else []
  }

  /** As many elements as the sum of what is taken for the blocks of bs. */
  ghost function TakenIn<P>(c: Image<P>, s: Image<P>, bs: set<int>): set<(int, int)> {
    set b, i | b in bs && 0 <= i < Taken(c, s, b) :: (b, i)
  }

  /** The consumer's allocated size after all blocks were merged. */
  ghost function MergedSize<P>(c: Image<P>, s: Image<P>, size: int): int { size + |TakenIn(c, s, s.blocks.Keys)| }

  lemma TakenIsGain<P>(c: Image<P>, s: Image<P>, b: int)
    requires AllShaped(c) && AllExact(s)
    ensures Count(SlotsOf(Merged(c, s).blocks, b)) == Count(SlotsOf(c.blocks, b)) + Taken(c, s, b)
  {
    assert BlockAt(Merged(c, s).blocks, b) == MergedBlock(c, s, b);
    if b in s.blocks {
      var cb, resident := BlockAt(c.blocks, b), ResidentIn(c.pages, b);
      var kept := Kept(cb, s.blocks[b].slots, resident);
      ExactDiscardsEmpty(cb, s.blocks[b], resident);
      if cb.Some? { CountCopied(cb.value.slots, kept); }
    }
  }

  lemma {:induction false} CountIsSize(slots: seq<Option<Slot>>, first: int, places: set<int>)
    requires forall o :: o in places <==> 0 <= o - first < |slots| && slots[o - first].Some?
    ensures |places| == Count(slots)
  {
    if slots == [] {
      SomeBlock(places);
    } else {
      var n := |slots| - 1;
      CountIsSize(slots[..n], first, places - {first + n});
    }
  }

  lemma OccupiedSplit(blocks: map<int, SwapBlock>, bs: set<int>, b: int)
    requires BlocksShaped(blocks) && b in bs
    ensures |OccupiedIn(blocks, bs)| == |OccupiedIn(blocks, bs - {b})| + Count(SlotsOf(blocks, b))
  {
    hide OccupiedIn;
    var all, rest, here := OccupiedIn(blocks, bs), OccupiedIn(blocks, bs - {b}), OccupiedIn(blocks, {b});
    forall o ensures (o in all <==> o in rest || o in here) && !(o in rest && o in here) {
      OccupiedInIs(blocks, bs, o);
      OccupiedInIs(blocks, bs - {b}, o);
      OccupiedInIs(blocks, {b}, o);
    }
    assert all == rest + here && rest !! here;
    OccupiedHere(blocks, b);
  }

  lemma OccupiedHere(blocks: map<int, SwapBlock>, b: int)
    requires BlocksShaped(blocks)
    ensures |OccupiedIn(blocks, {b})| == Count(SlotsOf(blocks, b))
  {
    hide OccupiedIn, Count;
    var slots, first, here := SlotsOf(blocks, b), b * SWAP_BLOCK_PAGES, OccupiedIn(blocks, {b});
    forall o ensures o in here <==> 0 <= o - first < |slots| && slots[o - first].Some? {
      OccupiedInIs(blocks, {b}, o);
      InBlock(b, o);
    }
    CountIsSize(slots, first, here);
  }

  lemma InBlock(b: int, o: int)
    ensures BlockOf(o) == b <==> 0 <= o - b * SWAP_BLOCK_PAGES < SWAP_BLOCK_PAGES
    ensures BlockOf(o) == b ==> IndexOf(o) == o - b * SWAP_BLOCK_PAGES
  {
  }

  lemma {:induction false} RowSize(b: int, n: nat, row: set<(int, int)>)
    requires forall x :: x in row <==> x.0 == b && 0 <= x.1 < n
    ensures |row| == n
  {
    if n == 0 {
      assert row == {};
    } else {
      RowSize(b, n - 1, row - {(b, n - 1)});
    }
  }

  lemma TakenSplit<P>(c: Image<P>, s: Image<P>, bs: set<int>, b: int)
    requires b in bs
    ensures |TakenIn(c, s, bs)| == |TakenIn(c, s, bs - {b})| + Taken(c, s, b)
  {
    hide Taken;
    var all, rest := TakenIn(c, s, bs), TakenIn(c, s, bs - {b});
    var row := all - rest;
    assert all == rest + row;
    RowSize(b, Taken(c, s, b), row);
  }

  lemma {:induction false} SizesIn<P>(c: Image<P>, s: Image<P>, bs: set<int>)
    requires AllShaped(c) && AllExact(s) && AllShaped(Merged(c, s))
    ensures |OccupiedIn(Merged(c, s).blocks, bs)| == |OccupiedIn(c.blocks, bs)| + |TakenIn(c, s, bs)|
    decreases bs
  {
    hide OccupiedIn, TakenIn, SlotsOf, Taken, Merged;
    if bs == {} {
      NothingIn(c, s, Merged(c, s));
    } else {
      SomeBlock(bs);
      var b :| b in bs;
      SizesIn(c, s, bs - {b});
      OccupiedSplit(Merged(c, s).blocks, bs, b);
      OccupiedSplit(c.blocks, bs, b);
      TakenSplit(c, s, bs, b);
      TakenIsGain(c, s, b);
    }
  }

  lemma SomeBlock(bs: set<int>)
    ensures bs == {} || exists b :: b in bs
  {
    if forall b :: b !in bs { assert bs == {}; }
  }

  lemma NothingIn<P>(c: Image<P>, s: Image<P>, m: Image<P>)
    ensures OccupiedIn(m.blocks, {}) == OccupiedIn(c.blocks, {}) == {} && TakenIn(c, s, {}) == {}
  {
  }

  lemma MergedShaped<P>(c: Image<P>, s: Image<P>)
    requires AllShaped(c) && AllShaped(s)
    ensures AllShaped(Merged(c, s))
  {
    var m := Merged(c, s).blocks;
    forall b | b in m ensures Shaped(m[b]) {
      assert BlockAt(m, b) == MergedBlock(c, s, b);
    }
  }

  lemma OccupiedWithin(blocks: map<int, SwapBlock>, bs: set<int>)
    requires BlocksShaped(blocks) && blocks.Keys <= bs
    ensures OccupiedIn(blocks, bs) == Occupied(blocks)
  {
    forall o ensures o in OccupiedIn(blocks, bs) <==> o in Occupied(blocks) {
      OccupiedInIs(blocks, bs, o);
      OccupiedIs(blocks, o);
    }
  }

  /** With exact counters in the source, the consumer's allocated size stays exact. */
  lemma MergedSizeExact<P>(c: Image<P>, s: Image<P>, size: int)
    requires AllShaped(c) && AllExact(s) && Counted(c.blocks, size)
    ensures Counted(Merged(c, s).blocks, MergedSize(c, s, size))
  {
    var m := Merged(c, s);
    MergedShaped(c, s);
    var bs := c.blocks.Keys + s.blocks.Keys;
    forall b | b in m.blocks ensures b in bs { assert BlockAt(m.blocks, b) == MergedBlock(c, s, b); }
    SizesIn(c, s, bs);
    OccupiedWithin(m.blocks, bs);
    OccupiedWithin(c.blocks, bs);
    assert TakenIn(c, s, bs) == TakenIn(c, s, s.blocks.Keys);
  }

  /** _MergeSwapPages returns at once if neither cache has allocated swap space. */
  predicate Skips(cSize: int, sSize: int) { cSize == 0 && sSize == 0 }

  /** What VMAnonymousCache::Merge makes of the consumer. */
  function Outcome<P>(c: Image<P>, s: Image<P>, cSize: int, sSize: int): Image<P> {
    if Skips(cSize, sSize) then Image(s.pages + c.pages, c.blocks) else Merged(c, s)
  }

  ghost function OutcomeSize<P>(c: Image<P>, s: Image<P>, cSize: int, sSize: int): int {
    if Skips(cSize, sSize) then cSize else MergedSize(c, s, cSize)
  }

  /**
    Merge changes what o shows: the blocks are skipped although a slot decides
    what o shows, or the slot is lost.  Everything here can be evaluated before
    the merge.
  */
  predicate Spoiled<P>(c: Image<P>, s: Image<P>, cSize: int, sSize: int, o: int) {
    if Skips(cSize, sSize)
    then o !in c.pages
      && (if SlotAt(c.blocks, o).Some? then o in s.pages else o !in s.pages && SlotAt(s.blocks, o).Some?)
    else Lost(c, s, o)
  }

  lemma OutcomeViewAt<P>(c: Image<P>, s: Image<P>, cSize: int, sSize: int, o: int)
    requires AllShaped(c) && AllShaped(s)
    ensures Own(Outcome(c, s, cSize, sSize), o) == Over(Own(c, o), Own(s, o)) <==> !Spoiled(c, s, cSize, sSize, o)
    ensures Spoiled(c, s, cSize, sSize, o) ==>
      Own(Outcome(c, s, cSize, sSize), o) == if o in s.pages then Resident(s.pages[o]) else Absent
  {
    MergeViewAt(c, s, o);
  }

  /** The whole of Merge preserves the consumer's view through all further sources if and only if no page is spoiled. */
  lemma OutcomePreservesView<P(!new)>(c: Image<P>, s: Image<P>, cSize: int, sSize: int)
    requires AllShaped(c) && AllShaped(s)
    ensures
      (forall rest: seq<Image<P>>, o ::
         View([Outcome(c, s, cSize, sSize)] + rest, o) == View([c, s] + rest, o))
      <==> (forall o :: !Spoiled(c, s, cSize, sSize, o))
  {
    forall rest: seq<Image<P>>, o ensures Through(c, s, Outcome(c, s, cSize, sSize), rest, o) {
      ThroughIs(c, s, Outcome(c, s, cSize, sSize), rest, o);
    }
    forall o
      ensures Own(Outcome(c, s, cSize, sSize), o) == Over(Own(c, o), Own(s, o)) <==> !Spoiled(c, s, cSize, sSize, o)
    {
      OutcomeViewAt(c, s, cSize, sSize, o);
    }
    var none: seq<Image<P>> := [];
    assert forall o :: Through(c, s, Outcome(c, s, cSize, sSize), none, o);
    if exists o :: Spoiled(c, s, cSize, sSize, o) {
      var o :| Spoiled(c, s, cSize, sSize, o);
      assert View([Outcome(c, s, cSize, sSize)] + none, o) != View([c, s] + none, o);
    }
  }

  /** The two views, taken apart. */
  ghost predicate Through<P>(c: Image<P>, s: Image<P>, m: Image<P>, rest: seq<Image<P>>, o: int) {
    && View([c, s] + rest, o) == Over(Over(Own(c, o), Own(s, o)), View(rest, o))
    && View([m] + rest, o) == Over(Own(m, o), View(rest, o))
  }

  lemma ThroughIs<P>(c: Image<P>, s: Image<P>, m: Image<P>, rest: seq<Image<P>>, o: int)
    ensures Through(c, s, m, rest, o)
  {
    assert ([c, s] + rest)[1..] == [s] + rest && ([s] + rest)[1..] == rest;
    assert ([m] + rest)[1..] == rest;
  }

  /** If the allocated sizes are the numbers of slots, the skip is harmless: only lost pages are spoiled. */
  lemma CountedSkipsNothing<P>(c: Image<P>, s: Image<P>, cSize: int, sSize: int, o: int)
    requires AllShaped(c) && AllShaped(s) && Counted(c.blocks, cSize) && Counted(s.blocks, sSize)
    ensures Spoiled(c, s, cSize, sSize, o) <==> Lost(c, s, o)
  {
    if Skips(cSize, sSize) {
      NoneLeft(c.blocks, cSize, o);
      NoneLeft(s.blocks, sSize, o);
    }
  }

  /**
    From exact counters and sizes Merge spoils nothing and leaves exact sizes;
    the counters are exact again exactly if no pair of blocks took the copy branch.
  */
  lemma ExactOutcome<P>(c: Image<P>, s: Image<P>, cSize: int, sSize: int)
    requires AllExact(c) && AllExact(s) && Counted(c.blocks, cSize) && Counted(s.blocks, sSize)
    ensures forall o :: !Spoiled(c, s, cSize, sSize, o)
    ensures Counted(Outcome(c, s, cSize, sSize).blocks, OutcomeSize(c, s, cSize, sSize))
    ensures AllExact(Outcome(c, s, cSize, sSize)) <==> !Copies(c, s)
  {
    hide Outcome, OutcomeSize, Spoiled, Lost, Merged, MergedSize;
    forall o ensures !Spoiled(c, s, cSize, sSize, o) {
      CountedSkipsNothing(c, s, cSize, sSize, o);
      ExactLosesNothing(c, s, o);
    }
    MergedSizeExact(c, s, cSize);
    MergeKeepsCounters(c, s);
    OutcomeEither(c, s, cSize, sSize);
    if Skips(cSize, sSize) { NoSlotsNoCopies(c, s, sSize); }
  }

  lemma NoSlotsNoCopies<P>(c: Image<P>, s: Image<P>, sSize: int)
    requires AllExact(s) && Counted(s.blocks, sSize) && sSize == 0
    ensures !Copies(c, s)
  {
    forall b | b in s.blocks ensures Taken(c, s, b) == 0 {
      var slots := s.blocks[b].slots;
      forall i | 0 <= i < |slots| ensures slots[i].None? {
        var o := b * SWAP_BLOCK_PAGES + i;
        assert BlockOf(o) == b && IndexOf(o) == i;
        NoneLeft(s.blocks, sSize, o);
      }
      ExactDiscardsEmpty(BlockAt(c.blocks, b), s.blocks[b], ResidentIn(c.pages, b));
    }
  }

  lemma OutcomeEither<P>(c: Image<P>, s: Image<P>, cSize: int, sSize: int)
    ensures Skips(cSize, sSize) ==>
      Outcome(c, s, cSize, sSize).blocks == c.blocks && OutcomeSize(c, s, cSize, sSize) == cSize
    ensures !Skips(cSize, sSize) ==>
      Outcome(c, s, cSize, sSize) == Merged(c, s) && OutcomeSize(c, s, cSize, sSize) == MergedSize(c, s, cSize)
  {
  }

  function OneSlot(i: nat, slot: Slot): (r: seq<Option<Slot>>)
    ensures |r| == SWAP_BLOCK_PAGES
    ensures forall k | 0 <= k < SWAP_BLOCK_PAGES :: r[k] == if k == i then Some(slot) else None
  {
    seq(SWAP_BLOCK_PAGES, k => if k == i then Some(slot) else None)
  }

  lemma {:induction false} CountOne(r: seq<Option<Slot>>, i: nat)
    requires i < |r| && r[i].Some? && forall k | 0 <= k < |r| && k != i :: r[k].None?
    ensures Count(r) == 1
  {
    var n := |r| - 1;
    if i == n { CountBounds(r[..n]); } else { CountOne(r[..n], i); }
  }

  lemma {:induction false} FreedIsCount(slots: seq<Option<Slot>>, resident: seq<bool>, base: seq<Option<Slot>>)
    requires |base| == |slots| <= |resident|
    requires forall i | 0 <= i < |slots| :: (slots[i].Some? && resident[i]) <==> base[i].Some?
    ensures Freed(None, slots, resident) == Count(base)
  {
    if slots != [] {
      var n := |slots| - 1;
      FreedIsCount(slots[..n], resident, base[..n]);
    }
  }

  /** A cache with a resident page wherever block b of im has a slot. */
  function Covering<P>(im: Image<P>, b: int, p: P): Image<P> {
    Image(map o | b * SWAP_BLOCK_PAGES <= o < b * SWAP_BLOCK_PAGES + SWAP_BLOCK_PAGES && SlotAt(im.blocks, o).Some? ::
      p,
          map[])
  }

  lemma CoveringResident<P>(im: Image<P>, b: int, p: P, i: nat)
    requires i < SWAP_BLOCK_PAGES && b in im.blocks && Shaped(im.blocks[b])
    ensures ResidentIn(Covering(im, b, p).pages, b)[i] <==> im.blocks[b].slots[i].Some?
  {
    var o := b * SWAP_BLOCK_PAGES + i;
    assert o / SWAP_BLOCK_PAGES == b && o % SWAP_BLOCK_PAGES == i;
  }

  /** In the copy branch the merged block keeps the consumer's counter. */
  lemma CopiedBlock<P>(middle: Image<P>, bottom: Image<P>, b: int)
    requires b in middle.blocks && b in bottom.blocks
    requires UsedAfter(Some(middle.blocks[b]), bottom.blocks[b], ResidentIn(middle.pages, b)) != 0
    ensures b in Merged(middle, bottom).blocks
    ensures Merged(middle, bottom).blocks[b] ==
      SwapBlock(middle.blocks[b].used,
                CopyInto(middle.blocks[b].slots,
                         Kept(Some(middle.blocks[b]), bottom.blocks[b].slots, ResidentIn(middle.pages, b))))
  {
    assert BlockAt(Merged(middle, bottom).blocks, b) == MergedBlock(middle, bottom, b);
  }

  /**
    Every merge that copies into an existing block prepares a loss.  Let
    `middle` and `bottom` have exact counters, and let page o be swapped out in
    `bottom` only, in a block that `middle` has too.  After merging them, a
    consumer with resident pages over `middle`'s own slots loses page o when
    `middle` is merged into it, although no counter was wrong to begin with.
  */
  lemma CopyPreparesLoss<P>(middle: Image<P>, bottom: Image<P>, o: int, p: P)
    requires AllExact(middle) && AllExact(bottom) && o / SWAP_BLOCK_PAGES in middle.blocks
    requires SlotAt(bottom.blocks, o).Some? && o !in bottom.pages
    requires SlotAt(middle.blocks, o).None? && o !in middle.pages
    ensures Lost(Covering(middle, o / SWAP_BLOCK_PAGES, p), Merged(middle, bottom), o)
    ensures Own(Merged(middle, bottom), o) == Own(bottom, o)
  {
    var b, i := o / SWAP_BLOCK_PAGES, o % SWAP_BLOCK_PAGES;
    var mb, bb := middle.blocks[b], bottom.blocks[b];
    var both, top := Merged(middle, bottom), Covering(middle, b, p);
    ExactLosesNothing(middle, bottom, o);
    MergedSlotAt(middle, bottom, o);
    CopiedBlock(middle, bottom, b);
    CoveredBlockDiscarded(mb, Kept(Some(mb), bb.slots, ResidentIn(middle.pages, b)), ResidentIn(top.pages, b)) by {
      forall k | 0 <= k < SWAP_BLOCK_PAGES ensures ResidentIn(top.pages, b)[k] <==> mb.slots[k].Some? {
        CoveringResident(middle, b, p, k);
      }
    }
    assert BlockAt(top.blocks, b) == None && SlotAt(top.blocks, o) == None;
  }

  /** A block that got slots copied in is discarded once its own slots are all shadowed. */
  lemma CoveredBlockDiscarded(mb: SwapBlock, kept: seq<Option<Slot>>, resident: seq<bool>)
    requires Exact(mb) && |kept| == |resident| == SWAP_BLOCK_PAGES
    requires forall k | 0 <= k < SWAP_BLOCK_PAGES :: resident[k] <==> mb.slots[k].Some?
    ensures UsedAfter(None, SwapBlock(mb.used, CopyInto(mb.slots, kept)), resident) == 0
  {
    FreedIsCount(CopyInto(mb.slots, kept), resident, mb.slots);
    CountBounds(mb.slots);
  }

  /** The smallest instance: slot y of page 1 below, slot x of page 0 in the middle, page 0 resident on top. */
  lemma TwoMergesLoseAPage(x: Slot, y: Slot)
    ensures var middle := Image(map[], map[0 := SwapBlock(1, OneSlot(0, x))]);
      var bottom := Image(map[], map[0 := SwapBlock(1, OneSlot(1, y))]);
      var top := Covering(middle, 0, "page");
      && AllExact(top) && AllExact(middle) && AllExact(bottom)
      && Over(Own(top, 1), Over(Own(middle, 1), Own(bottom, 1))) == Swapped(y)
      && Own(Merged(top, Merged(middle, bottom)), 1) == Absent
  {
    var middle: Image<string> := Image(map[], map[0 := SwapBlock(1, OneSlot(0, x))]);
    var bottom: Image<string> := Image(map[], map[0 := SwapBlock(1, OneSlot(1, y))]);
    var top := Covering(middle, 0, "page");
    CountOne(OneSlot(0, x), 0);
    CountOne(OneSlot(1, y), 1);
    assert SlotAt(middle.blocks, 1) == None && SlotAt(bottom.blocks, 1) == Some(y);
    CopyPreparesLoss(middle, bottom, 1, "page");
    var both := Merged(middle, bottom);
    assert AllShaped(both) by {
      assert forall b | b in both.blocks :: BlockAt(both.blocks, b) == MergedBlock(middle, bottom, b);
    }
    MergeViewAt(top, both, 1);
  }

  /** A size that says zero for a cache with a slot makes Merge lose the page. */
  lemma UndercountLosesAPage(y: Slot)
    ensures var s: Image<string> := Image(map[], map[0 := SwapBlock(1, OneSlot(1, y))]);
      var c: Image<string> := Image(map[], map[]);
      && AllExact(c) && AllExact(s) && Counted(c.blocks, 0) && !Counted(s.blocks, 0)
      && Over(Own(c, 1), Own(s, 1)) == Swapped(y) && Own(Outcome(c, s, 0, 0), 1) == Absent
  {
    var s: Image<string> := Image(map[], map[0 := SwapBlock(1, OneSlot(1, y))]);
    CountOne(OneSlot(1, y), 1);
    assert SlotAt(s.blocks, 1) == Some(y);
    if Counted(s.blocks, 0) { NoneLeft(s.blocks, 0, 1); }
  }
}
