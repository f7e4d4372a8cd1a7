/**
  VMAnonymousCache::_FreeSwapPageRange (cache/mm_anonymous_cache.cpp), with
  which a cache gives back the swap slots of a range when it is resized, rebased,
  discarded from or deleted.  The loop trusts the block counters and the
  allocated size, so it frees the slots of its range and no others only if they
  cover them.
*/
module SwapRange {
  import opened Options
  import opened SwapBlocks
  import opened AnonymousCache

  /** The pages [from, to) without those in `skip`: the busy ones, unless the cache is being deleted. */
  datatype Range = Range(from: int, to: int, skip: set<int>)

  predicate Aimed(r: Range, o: int) { r.from <= o < r.to && o !in r.skip }

  /** The pages of the range that have a slot. */
  ghost function Targets(k: map<int, SwapBlock>, r: Range): set<int> { set o | o in Occupied(k) && Aimed(r, o) }

  // ---- one block ----

  predicate Before(r: Range, b: int, i: nat, p: int) {
    Aimed(r, b * SWAP_BLOCK_PAGES + i) && b * SWAP_BLOCK_PAGES + i < p
  }

  /** The slots of block b that the range has before page p. */
  function Aim(r: Range, slots: seq<Option<Slot>>, b: int, p: int): (s: seq<Option<Slot>>)
    ensures |s| == |slots| && forall i | 0 <= i < |s| :: s[i] == if Before(r, b, i, p) then slots[i] else None
  {
    seq(|slots|, i requires 0 <= i < |slots| => if Before(r, b, i, p) then slots[i] else None)
  }

  /** The others. */
  function Rest(r: Range, slots: seq<Option<Slot>>, b: int, p: int): (s: seq<Option<Slot>>)
    ensures |s| == |slots| && forall i | 0 <= i < |s| :: s[i] == if Before(r, b, i, p) then None else slots[i]
  {
    seq(|slots|, i requires 0 <= i < |slots| => if Before(r, b, i, p) then None else slots[i])
  }

  function Hits(k: map<int, SwapBlock>, r: Range, b: int, p: int): nat
    requires b in k
  {
    Count(Aim(r, k[b].slots, b, p))
  }

  /** The counter of block b has reached zero before page p, and the block was discarded. */
  predicate Gone(k: map<int, SwapBlock>, r: Range, b: int, p: int) {
    b in k && 0 < k[b].used <= Hits(k, r, b, p)
  }

  /** What is left of block b when the loop comes to page p; a counter that is zero too early wraps. */
  function BlockBefore(k: map<int, SwapBlock>, r: Range, b: int, p: int): SwapBlock
    requires b in k
  {
    SwapBlock((k[b].used + UINT32 - Hits(k, r, b, p)) % UINT32, Rest(r, k[b].slots, b, p))
  }

  /** The blocks when the loop comes to page p. */
  ghost function BlocksBefore(k: map<int, SwapBlock>, r: Range, p: int): map<int, SwapBlock> {
    map b | b in k && !Gone(k, r, b, p) :: BlockBefore(k, r, b, p)
  }

  /** The loop comes to page o before the block of the page is discarded. */
  predicate Reached(k: map<int, SwapBlock>, r: Range, o: int) {
    BlockOf(o) in k && (k[BlockOf(o)].used == 0 || Hits(k, r, BlockOf(o), o) < k[BlockOf(o)].used)
  }

  ghost function FreedBefore(k: map<int, SwapBlock>, r: Range, p: int): set<int> {
    set o | o in Targets(k, r) && o < p && Reached(k, r, o)
  }

  // ---- steps of the loop ----

  lemma {:induction false} CountMore(a: seq<Option<Slot>>, b: seq<Option<Slot>>)
    requires |a| == |b| && forall i | 0 <= i < |a| && a[i].Some? :: b[i].Some?
    ensures Count(a) <= Count(b)
    ensures Count(a) == Count(b) <==> forall i | 0 <= i < |a| && b[i].Some? :: a[i].Some?
  {
    if a != [] { CountMore(a[..|a| - 1], b[..|b| - 1]); }
  }

  lemma HitsMore(k: map<int, SwapBlock>, r: Range, b: int, p: int, q: int)
    requires b in k && p <= q
    ensures Hits(k, r, b, p) <= Hits(k, r, b, q) <= Count(k[b].slots)
  {
    CountMore(Aim(r, k[b].slots, b, p), Aim(r, k[b].slots, b, q));
    CountMore(Aim(r, k[b].slots, b, q), k[b].slots);
  }

  /** Pages from p to q that are not in the block, or have no slot or are not aimed at, change nothing in it. */
  lemma SameBlock(k: map<int, SwapBlock>, r: Range, b: int, p: int, q: int)
    requires b in k && Shaped(k[b]) && p <= q
    requires forall o | p <= o < q && BlockOf(o) == b :: !Aimed(r, o) || k[b].slots[IndexOf(o)].None?
    ensures Hits(k, r, b, q) == Hits(k, r, b, p) && BlockBefore(k, r, b, q) == BlockBefore(k, r, b, p)
  {
    forall i | 0 <= i < SWAP_BLOCK_PAGES && Before(r, b, i, q) && !Before(r, b, i, p) ensures k[b].slots[i].None? {
      InBlock(b, b * SWAP_BLOCK_PAGES + i);
    }
    assert Aim(r, k[b].slots, b, q) == Aim(r, k[b].slots, b, p);
    assert Rest(r, k[b].slots, b, q) == Rest(r, k[b].slots, b, p);
  }

  /** A page without a slot, or one that is skipped. */
  lemma PassPage(k: map<int, SwapBlock>, r: Range, p: int)
    requires BlocksShaped(k) && (!Aimed(r, p) || SlotAt(k, p).None?)
    ensures BlocksBefore(k, r, p + 1) == BlocksBefore(k, r, p) && FreedBefore(k, r, p + 1) == FreedBefore(k, r, p)
  {
    forall b | b in k
      ensures Gone(k, r, b, p + 1) == Gone(k, r, b, p) && BlockBefore(k, r, b, p + 1) == BlockBefore(k, r, b, p)
    {
      SameBlock(k, r, b, p, p + 1);
    }
    OccupiedIs(k, p);
  }

  /** The rest of a block that is not there. */
  lemma PassBlock(k: map<int, SwapBlock>, r: Range, b: int, p: int, q: int)
    requires BlocksShaped(k) && b * SWAP_BLOCK_PAGES <= p <= q <= (b + 1) * SWAP_BLOCK_PAGES
    requires b !in BlocksBefore(k, r, p)
    ensures BlocksBefore(k, r, q) == BlocksBefore(k, r, p) && FreedBefore(k, r, q) == FreedBefore(k, r, p)
  {
    hide Hits, Rest, SlotAt, Occupied;
    forall c | c in k
      ensures Gone(k, r, c, q) == Gone(k, r, c, p)
      ensures c != b ==> BlockBefore(k, r, c, q) == BlockBefore(k, r, c, p)
    {
      if c == b { HitsMore(k, r, b, p, q); } else { SameBlock(k, r, c, p, q); }
    }
    forall o | o in FreedBefore(k, r, q) ensures o in FreedBefore(k, r, p) {
      if p <= o {
        OccupiedIs(k, o);
        HitsMore(k, r, b, p, o);
      }
    }
  }

  /** A page with a slot: it is freed, and the block discarded if its counter gets to zero. */
  lemma FreePage(k: map<int, SwapBlock>, r: Range, p: int)
    requires BlocksShaped(k) && Aimed(r, p) && BlockOf(p) in BlocksBefore(k, r, p) && SlotAt(k, p).Some?
    ensures BlocksBefore(k, r, p + 1) == Release(BlocksBefore(k, r, p), p)
    ensures FreedBefore(k, r, p + 1) == FreedBefore(k, r, p) + {p} && p !in FreedBefore(k, r, p)
  {
    hide Hits, Rest, SlotAt, Occupied;
    OccupiedIs(k, p);
    var b, h := BlockOf(p), Hits(k, r, BlockOf(p), p);
    var m, m2 := BlocksBefore(k, r, p), BlocksBefore(k, r, p + 1);
    FreeInBlock(k, r, p);
    Wraps(k[b].used, h);
    forall c | c in k && c != b
      ensures Gone(k, r, c, p + 1) == Gone(k, r, c, p) && BlockBefore(k, r, c, p + 1) == BlockBefore(k, r, c, p)
    {
      SameBlock(k, r, c, p, p + 1);
    }
    assert BlockAt(m2, b) == BlockAt(Release(m, p), b);
    assert m2.Keys == Release(m, p).Keys;
  }

  lemma Wraps(used: nat, h: nat)
    requires used < UINT32 && h < SWAP_BLOCK_PAGES && (used == 0 || h < used)
    ensures ((used + UINT32 - h) % UINT32 + UINT32 - 1) % UINT32 == (used + UINT32 - (h + 1)) % UINT32
    ensures (used + UINT32 - (h + 1)) % UINT32 == 0 <==> used == h + 1
  {
  }

  lemma FreeInBlock(k: map<int, SwapBlock>, r: Range, p: int)
    requires BlocksShaped(k) && Aimed(r, p) && SlotAt(k, p).Some?
    ensures var b, i := BlockOf(p), IndexOf(p);
      && Hits(k, r, b, p + 1) == Hits(k, r, b, p) + 1 <= SWAP_BLOCK_PAGES
      && Rest(r, k[b].slots, b, p + 1) == Rest(r, k[b].slots, b, p)[i := None]
  {
    var b, i := BlockOf(p), IndexOf(p);
    var slots := k[b].slots;
    assert b * SWAP_BLOCK_PAGES + i == p;
    CountUpdate(Aim(r, slots, b, p), i, slots[i]);
    assert Aim(r, slots, b, p)[i := slots[i]] == Aim(r, slots, b, p + 1);
    CountBounds(Aim(r, slots, b, p + 1));
    assert Rest(r, slots, b, p)[i := None] == Rest(r, slots, b, p + 1);
  }

  /** From the end of the range on, or once all its slots were freed, nothing changes. */
  lemma Ended(k: map<int, SwapBlock>, r: Range, p: int)
    requires BlocksShaped(k) && (p >= r.to || FreedBefore(k, r, p) == Targets(k, r))
    ensures BlocksBefore(k, r, p) == BlocksBefore(k, r, r.to) && FreedBefore(k, r, p) == FreedBefore(k, r, r.to)
  {
    hide Reached, Occupied;
    forall b | b in k
      ensures Gone(k, r, b, p) == Gone(k, r, b, r.to) && BlockBefore(k, r, b, p) == BlockBefore(k, r, b, r.to)
    {
      if p >= r.to {
        SameBlock(k, r, b, r.to, p);
      } else {
        forall o | p <= o < r.to && BlockOf(o) == b ensures !Aimed(r, o) || k[b].slots[IndexOf(o)].None? {
          OccupiedIs(k, o);
          assert o !in FreedBefore(k, r, p);
        }
        SameBlock(k, r, b, p, r.to);
      }
    }
  }

  // ---- when it frees the range's slots and no others ----

  /** The counter allows for the range's slots in the block, and for the others too unless there are none. */
  predicate Covers(k: map<int, SwapBlock>, r: Range, b: int)
    requires b in k
  {
    var n := Hits(k, r, b, r.to);
    n == 0 || k[b].used == 0 || n < k[b].used || n == k[b].used == Count(k[b].slots)
  }

  ghost predicate AllCovered(k: map<int, SwapBlock>, r: Range) { forall b | b in k :: Covers(k, r, b) }

  /** Exactly the slots of `pages` are gone. */
  ghost predicate Without(k: map<int, SwapBlock>, m: map<int, SwapBlock>, pages: set<int>) {
    forall o :: SlotAt(m, o) == if o in pages then None else SlotAt(k, o)
  }

  lemma TargetHits(k: map<int, SwapBlock>, r: Range, o: int)
    requires BlocksShaped(k) && o in Targets(k, r)
    ensures BlockOf(o) in k && Hits(k, r, BlockOf(o), o) < Hits(k, r, BlockOf(o), r.to)
  {
    hide Hits, Occupied;
    OccupiedIs(k, o);
    FreeInBlock(k, r, o);
    HitsMore(k, r, BlockOf(o), o + 1, r.to);
  }

  lemma CoveredAt(k: map<int, SwapBlock>, r: Range, o: int)
    requires BlocksShaped(k) && (BlockOf(o) in k ==> Covers(k, r, BlockOf(o)))
    ensures o in Targets(k, r) ==> Reached(k, r, o)
    ensures SlotAt(BlocksBefore(k, r, r.to), o) == if o in Targets(k, r) then None else SlotAt(k, o)
  {
    hide Hits, Occupied;
    var b := BlockOf(o);
    OccupiedIs(k, o);
    if o in Targets(k, r) { TargetHits(k, r, o); }
    assert b * SWAP_BLOCK_PAGES + IndexOf(o) == o;
    if Gone(k, r, b, r.to) && Covers(k, r, b) && o !in Targets(k, r) { NoOthers(k, r, o); }
  }

  /** A block that has as many slots as the range has in it has no others. */
  lemma NoOthers(k: map<int, SwapBlock>, r: Range, o: int)
    requires BlocksShaped(k) && BlockOf(o) in k && o !in Targets(k, r)
    requires Hits(k, r, BlockOf(o), r.to) == Count(k[BlockOf(o)].slots)
    ensures SlotAt(k, o).None?
  {
    hide Occupied;
    var b := BlockOf(o);
    OccupiedIs(k, o);
    assert b * SWAP_BLOCK_PAGES + IndexOf(o) == o;
    CountMore(Aim(r, k[b].slots, b, r.to), k[b].slots);
  }

  /** The page of the range in block b that comes after h others. */
  lemma NthTarget(k: map<int, SwapBlock>, r: Range, b: int, h: nat) returns (o: int)
    requires BlocksShaped(k) && b in k && h < Hits(k, r, b, r.to)
    ensures o in Targets(k, r) && BlockOf(o) == b && Hits(k, r, b, o) == h
  {
    hide Hits, Occupied;
    o := b * SWAP_BLOCK_PAGES;
    NoHits(k, r, b);
    while !(Aimed(r, o) && SlotAt(k, o).Some? && Hits(k, r, b, o) == h) && o < (b + 1) * SWAP_BLOCK_PAGES
      invariant b * SWAP_BLOCK_PAGES <= o <= (b + 1) * SWAP_BLOCK_PAGES && Hits(k, r, b, o) <= h
    {
      InBlock(b, o);
      if Aimed(r, o) && SlotAt(k, o).Some? {
        FreeInBlock(k, r, o);
      } else {
        SameBlock(k, r, b, o, o + 1);
      }
      o := o + 1;
    }
    AllHits(k, r, b);
    InBlock(b, o);
    OccupiedIs(k, o);
  }

  lemma NoHits(k: map<int, SwapBlock>, r: Range, b: int)
    requires b in k
    ensures Hits(k, r, b, b * SWAP_BLOCK_PAGES) == 0
  {
    CountBounds(Aim(r, k[b].slots, b, b * SWAP_BLOCK_PAGES));
  }

  lemma AllHits(k: map<int, SwapBlock>, r: Range, b: int)
    requires BlocksShaped(k) && b in k
    ensures Hits(k, r, b, r.to) <= Hits(k, r, b, (b + 1) * SWAP_BLOCK_PAGES)
  {
    CountMore(Aim(r, k[b].slots, b, r.to), Aim(r, k[b].slots, b, (b + 1) * SWAP_BLOCK_PAGES));
  }

  lemma MustCover(k: map<int, SwapBlock>, r: Range, b: int)
    requires BlocksShaped(k) && b in k && FreedBefore(k, r, r.to) == Targets(k, r)
    requires Without(k, BlocksBefore(k, r, r.to), Targets(k, r))
    ensures Covers(k, r, b)
  {
    hide Hits, Occupied;
    var n, u := Hits(k, r, b, r.to), k[b].used;
    if 0 < u < n {
      var o := NthTarget(k, r, b, u);
      assert false;
    } else if 0 < u == n {
      forall i | 0 <= i < SWAP_BLOCK_PAGES && k[b].slots[i].Some? ensures Before(r, b, i, r.to) {
        var o := b * SWAP_BLOCK_PAGES + i;
        InBlock(b, o);
        OccupiedIs(k, o);
        assert SlotAt(BlocksBefore(k, r, r.to), o).None? && SlotAt(k, o).Some?;
      }
      AllAimed(k, r, b);
    }
  }

  lemma AllAimed(k: map<int, SwapBlock>, r: Range, b: int)
    requires BlocksShaped(k) && b in k
    requires forall i | 0 <= i < SWAP_BLOCK_PAGES && k[b].slots[i].Some? :: Before(r, b, i, r.to)
    ensures Hits(k, r, b, r.to) == Count(k[b].slots)
  {
    CountMore(Aim(r, k[b].slots, b, r.to), k[b].slots);
  }

  /** To the end, the loop frees exactly the slots of the range if and only if the counters cover them. */
  lemma ExactIff(k: map<int, SwapBlock>, r: Range)
    requires BlocksShaped(k)
    ensures AllCovered(k, r) <==>
      FreedBefore(k, r, r.to) == Targets(k, r) && Without(k, BlocksBefore(k, r, r.to), Targets(k, r))
  {
    hide Occupied, Hits, BlocksBefore, Without;
    if AllCovered(k, r) {
      forall o
        ensures o in Targets(k, r) ==> Reached(k, r, o)
        ensures SlotAt(BlocksBefore(k, r, r.to), o) == if o in Targets(k, r) then None else SlotAt(k, o)
      {
        CoveredAt(k, r, o);
      }
      WithoutIs(k, BlocksBefore(k, r, r.to), Targets(k, r));
    }
    if FreedBefore(k, r, r.to) == Targets(k, r) && Without(k, BlocksBefore(k, r, r.to), Targets(k, r)) {
      forall b | b in k ensures Covers(k, r, b) { MustCover(k, r, b); }
    }
  }

  lemma WithoutIs(k: map<int, SwapBlock>, m: map<int, SwapBlock>, pages: set<int>)
    requires forall o :: SlotAt(m, o) == if o in pages then None else SlotAt(k, o)
    ensures Without(k, m, pages)
  {
  }

  /** Exact counters and an exact size cover every range. */
  lemma ExactCovers(k: map<int, SwapBlock>, size: int, r: Range)
    requires BlocksExact(k) && Counted(k, size)
    ensures AllCovered(k, r) && |Targets(k, r)| <= size
  {
    forall b | b in k ensures Covers(k, r, b) { HitsMore(k, r, b, r.to, r.to); }
    SubsetSize(Targets(k, r), Occupied(k));
  }

  lemma {:induction false} SubsetSize(a: set<int>, b: set<int>)
    requires a <= b
    ensures |a| <= |b| && (|a| == |b| ==> a == b)
  {
    assert b == a + (b - a) && |b| == |a| + |b - a|;
  }

  // ---- the loop ----

  /** `swapBlock`, while it is kept from one page to the next, is the block of the current page. */
  ghost predicate AtBlock(block: Option<int>, p: int, m: map<int, SwapBlock>) {
    block.Some? && IndexOf(p) != 0 ==> block.value == BlockOf(p) && BlockOf(p) in m
  }

  lemma StartsHere(k: map<int, SwapBlock>, r: Range)
    requires BlocksShaped(k)
    ensures BlocksBefore(k, r, r.from) == k && FreedBefore(k, r, r.from) == {}
  {
    forall b | b in k ensures Hits(k, r, b, r.from) == 0 && Rest(r, k[b].slots, b, r.from) == k[b].slots {
      CountBounds(Aim(r, k[b].slots, b, r.from));
    }
  }

  /** The slot of the page the loop has come to is as it was. */
  lemma SlotBefore(k: map<int, SwapBlock>, r: Range, p: int)
    requires BlocksShaped(k)
    ensures var m, b := BlocksBefore(k, r, p), BlockOf(p);
      BlocksShaped(m) && (b in m ==> b in k && m[b].slots[IndexOf(p)] == k[b].slots[IndexOf(p)] == SlotAt(k, p))
  {
    assert BlockOf(p) * SWAP_BLOCK_PAGES + IndexOf(p) == p;
  }

  lemma AtEnd(k: map<int, SwapBlock>, r: Range, p: int, freed: set<int>, size: int, m: map<int, SwapBlock>)
    requires BlocksShaped(k) && m == BlocksBefore(k, r, p) && freed == FreedBefore(k, r, p)
    requires (freed == {} || |freed| <= size) && (p >= r.to || size <= |freed|)
    ensures BlocksShaped(m) && freed <= Targets(k, r)
    ensures freed == Targets(k, r) && Without(k, m, freed) <==>
      AllCovered(k, r) && (Targets(k, r) == {} || |Targets(k, r)| <= size)
    ensures |Targets(k, r)| <= size ==> m == BlocksBefore(k, r, r.to) && freed == FreedBefore(k, r, r.to)
  {
    hide Occupied, Hits, Without, AllCovered;
    SlotBefore(k, r, p);
    ExactIff(k, r);
    SubsetSize(freed, Targets(k, r));
    if p >= r.to || freed == Targets(k, r) { Ended(k, r, p); }
  }

  /**
    _FreeSwapPageRange; `freed` are the pages whose slots go back to the swap
    files.  These are the slots of the range, and they are all the cache loses,
    if and only if the block counters and the allocated size cover them.
  */
  method FreeSwapPageRange(c: Anonymous, r: Range) returns (freed: set<int>)
    requires BlocksShaped(c.blocks)
    modifies c`blocks, c`swapSize
    ensures BlocksShaped(c.blocks) && c.swapSize == old(c.swapSize) - |freed| && freed <= Targets(old(c.blocks), r)
    ensures freed == Targets(old(c.blocks), r) && Without(old(c.blocks), c.blocks, freed) <==>
      AllCovered(old(c.blocks), r)
        && (Targets(old(c.blocks), r) == {} || |Targets(old(c.blocks), r)| <= old(c.swapSize))
    ensures |Targets(old(c.blocks), r)| <= old(c.swapSize) ==>
      c.blocks == BlocksBefore(old(c.blocks), r, r.to) && freed == FreedBefore(old(c.blocks), r, r.to)
  {
    hide Occupied, Hits, Gone, Reached, BlockBefore, BlocksBefore, FreedBefore, Without, AllCovered, Targets;
    ghost var k, size := c.blocks, c.swapSize;
    var p := r.from;
    var block: Option<int> := None;
    freed := {};
    StartsHere(k, r);
    while p < r.to && c.swapSize > 0
      invariant r.from <= p && c.blocks == BlocksBefore(k, r, p) && freed == FreedBefore(k, r, p)
      invariant c.swapSize == size - |freed| && (freed == {} || |freed| <= size)
      invariant AtBlock(block, p, c.blocks)
    {
      var b := BlockOf(p);
      SlotBefore(k, r, p);
      if block.None? || IndexOf(p) == 0 {
        if b !in c.blocks {
          PassBlock(k, r, b, p, (b + 1) * SWAP_BLOCK_PAGES);
          p, block := (b + 1) * SWAP_BLOCK_PAGES, None;
          continue;
        }
        block := Some(b);
      }
      if c.blocks[b].slots[IndexOf(p)].None? || p in r.skip {
        PassPage(k, r, p);
        p := p + 1;
        continue;
      }
      FreePage(k, r, p);
      freed := freed + {p};
      c.swapSize := c.swapSize - 1;
      c.blocks := WithSlot(c.blocks, p, None, -1);
      if c.blocks[b].used == 0 {
        c.blocks := c.blocks - {b};
        PassBlock(k, r, b, p + 1, (b + 1) * SWAP_BLOCK_PAGES);
        p, block := (b + 1) * SWAP_BLOCK_PAGES, None;
      } else {
        p := p + 1;
      }
    }
    AtEnd(k, r, p, freed, size, c.blocks);
  }

  /** The block of two pages with a counter of one, as a merge can leave it. */
  function Pair(x: Slot, y: Slot): map<int, SwapBlock> {
    map[0 := SwapBlock(1, OneSlot(0, x)[1 := Some(y)])]
  }

  /** Giving back the slot of page 0 then takes that of page 1 from the cache, which goes back to no swap file. */
  method RangeTakesAnother(x: Slot, y: Slot) returns (c: Anonymous, freed: set<int>)
    ensures SlotAt(Pair(x, y), 1) == Some(y) && SlotAt(c.blocks, 1) == None && freed == {0}
  {
    c := new Anonymous(0, 2);
    c.blocks, c.swapSize := Pair(x, y), 2;
    PairIs(x, y);
    PairRange(x, y);
    freed := FreeSwapPageRange(c, Range(0, 1, {}));
  }

  lemma PairRange(x: Slot, y: Slot)
    ensures var k, r := Pair(x, y), Range(0, 1, {});
      && BlocksShaped(k) && Targets(k, r) == {0} && |Targets(k, r)| == 1
      && FreedBefore(k, r, 1) == {0} && BlocksBefore(k, r, 1) == map[]
  {
    hide BlocksBefore, FreedBefore, Occupied, Pair, Release;
    var k, r := Pair(x, y), Range(0, 1, {});
    PairIs(x, y);
    OccupiedIs(k, 0);
    assert Targets(k, r) == {0};
    StartsHere(k, r);
    FreePage(k, r, 0);
  }

  lemma PairIs(x: Slot, y: Slot)
    ensures BlocksShaped(Pair(x, y)) && 0 in Pair(x, y)
    ensures SlotAt(Pair(x, y), 0) == Some(x) && SlotAt(Pair(x, y), 1) == Some(y) && Release(Pair(x, y), 0) == map[]
  {
  }
}
