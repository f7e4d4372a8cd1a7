/**
  Merging an anonymous cache into its only consumer, as the code does it in
  place (cache/mm_anonymous_cache.cpp): first the swap blocks, block by block
  and slot by slot, then the resident pages by whichever strategy is cheaper.
  The result is the image the theorems of module SwapBlocks are about.

  The global swap hash is split by the cache part of its key: `blocks` holds
  the blocks of one cache.  Sizes and indices are in pages.
*/
module AnonymousCache {
  import opened Options
  import opened SwapBlocks
  import opened VmCache

  class Anonymous {
    const cache: Cache                  // the VMCache part: resident pages
    var blocks: map<int, SwapBlock>
    var swapSize: int                  // allocated_swap_size
    var base: int                       // virtual_base
    var end: int                        // virtual_end

    constructor (base: int, end: int)
      ensures Valid() && blocks == map[] && cache.pages == map[] && swapSize == 0
      ensures this.base == base && this.end == end && fresh(cache) && fresh(cache.ref)
    {
      cache := new Cache();
      blocks := map[];
      swapSize := 0;
      this.base := base;
      this.end := end;
    }

    ghost predicate Valid()
      reads this, cache, cache.ref, cache.pages.Values
    {
      cache.Valid() && BlocksShaped(blocks)
    }

    ghost function Im(): Image<Page>
      reads this, cache
    {
      Image(cache.pages, blocks)
    }

    /** Everything the cache holds lies between virtual_base and virtual_end. */
    ghost predicate InRange()
      reads this, cache
    {
      Bounded(Im(), base, end)
    }

    /** Frees the source's pages that a consumer swap slot shadows; `first` is the block's first page. */
    static method RemoveShadowedPages(source: Cache, slots: seq<Option<Slot>>, first: int, ghost all: set<Page>)
      requires source.Valid() && Within(source.pages, all)
      modifies source, all
      ensures source.Valid() && source.ref == old(source.ref) && Within(source.pages, all)
      ensures source.pages == Unshadowed(old(source.pages), slots, first)
    {
      hide Unshadowed, Wired;
      ghost var pages, left := source.pages, source.pages;
      assert Unshadowed(pages, slots[..0], first) == pages by { UnshadowedNone(pages, first); }
      for i := 0 to |slots|
        invariant source.Valid() && source.ref == old(source.ref) && Within(source.pages, all)
        invariant left == Unshadowed(pages, slots[..i], first)
        invariant source.pages == left
      {
        UnshadowedStep(pages, slots, first, i);
        if slots[i].Some? {
          left := left - {first + i};
          if first + i in source.pages {
            source.RemovePage(source.pages[first + i]);
          }
        }
      }
      assert slots[..|slots|] == slots;
    }

    /**
      The slot loop of _MergeSwapPages: frees the source slots the consumer
      shadows, counting `used` down in 32-bit arithmetic; `owned` is what the
      source's allocated size loses.
    */
    method FilterSlots(cb: Option<SwapBlock>, sb: SwapBlock, first: int)
        returns (kept: SwapBlock, owned: nat, freed: seq<Slot>)
      requires Shaped(sb) && first % SWAP_BLOCK_PAGES == 0
      ensures Filter(kept.slots, kept.used, owned, freed) ==
        FilterUpTo(cb, sb, ResidentIn(cache.pages, first / SWAP_BLOCK_PAGES), |sb.slots|)
    {
      ghost var resident := ResidentIn(cache.pages, first / SWAP_BLOCK_PAGES);
      var slots, used: nat := sb.slots, sb.used;
      owned, freed := 0, [];
      for i := 0 to |sb.slots|
        invariant Filter(slots, used, owned, freed) == FilterUpTo(cb, sb, resident, i)
        invariant |slots| == SWAP_BLOCK_PAGES
      {
        assert resident[i] <==> first + i in cache.pages;
        if slots[i].Some? {
          if SlotOf(cb, i).Some? || first + i in cache.pages {
            freed := freed + [slots[i].value];
            slots := slots[i := None];
            used := (used + UINT32 - 1) % UINT32;
          }
          owned := owned + 1;
        }
      }
      kept := SwapBlock(used, slots);
    }

    /** The block part of one round of _MergeSwapPages. */
    method MergeSwapBlock(source: Anonymous, b: int)
      requires AllShaped(Im()) && AllShaped(source.Im()) && source != this
      modifies this`blocks, this`swapSize, source`blocks, source`swapSize
      ensures blocks == WithBlock(old(blocks), b, MergedBlock(old(Im()), old(source.Im()), b))
      ensures source.blocks == old(source.blocks) - {b}
      ensures source.swapSize == old(source.swapSize) - Count(SlotsOf(old(source.blocks), b))
      ensures swapSize == old(swapSize) + Taken(old(Im()), old(source.Im()), b)
    {
      var first := b * SWAP_BLOCK_PAGES;
      var sb, cb := BlockAt(source.blocks, b), BlockAt(blocks, b);
      source.blocks := source.blocks - {b};
      if sb.Some? {
        var kept, owned, freed := FilterSlots(cb, sb.value, first);
        FilterIs(cb, sb.value, ResidentIn(cache.pages, b));
        source.swapSize := source.swapSize - owned;
        swapSize := swapSize + kept.used;
        if kept.used == 0 {
        } else if cb.None? {
          blocks := blocks[b := kept];
        } else {
          blocks := blocks[b := SwapBlock(cb.value.used, CopyInto(cb.value.slots, kept.slots))];
        }
      }
    }

    /** One round of _MergeSwapPages. */
    method MergeRound(source: Anonymous, b: int, ghost all: set<Page>)
      requires AllShaped(Im()) && AllShaped(source.Im()) && source != this && source.cache != cache
      requires source.cache.Valid() && Within(source.cache.pages, all)
      modifies this`blocks, this`swapSize, source`blocks, source`swapSize, source.cache, all
      ensures source.cache.Valid() && source.cache.ref == old(source.cache.ref) && Within(source.cache.pages, all)
      ensures Both(Im(), source.Im(), swapSize) == Round(Both(old(Im()), old(source.Im()), old(swapSize)), b)
    {
      hide WithBlock, MergeOne, UsedAfter, ResidentIn, Wired, Cache.Valid;
      if b in blocks {
        RemoveShadowedPages(source.cache, blocks[b].slots, b * SWAP_BLOCK_PAGES, all);
      }
      MergeSwapBlock(source, b);
    }

    /**
      _MergeSwapPages: nothing to do if neither cache has swap space; otherwise
      all blocks of the source's range are merged, and the source pages that
      consumer swap slots shadow are freed.
    */
    method MergeSwapPages(source: Anonymous, ghost all: set<Page>)
      requires AllShaped(Im()) && AllShaped(source.Im()) && source != this && source.cache != cache
      requires source.cache.Valid() && Within(source.cache.pages, all)
      modifies this`blocks, this`swapSize, source`blocks, source`swapSize, source.cache, all
      ensures source.cache.Valid() && source.cache.ref == old(source.cache.ref) && Within(source.cache.pages, all)
      ensures old(swapSize == 0 && source.swapSize == 0) ==>
        Im() == old(Im()) && source.Im() == old(source.Im()) && swapSize == 0
      ensures !old(swapSize == 0 && source.swapSize == 0) ==>
        var n := BlocksIn(source.base, source.end);
        Both(Im(), source.Im(), swapSize) ==
          AfterRounds(Both(old(Im()), old(source.Im()), old(swapSize)), FirstBlock(source.base), n)
    {
      if source.swapSize == 0 && swapSize == 0 {
        return;
      }
      MergeAllRounds(source, all);
    }

    method MergeAllRounds(source: Anonymous, ghost all: set<Page>)
      requires AllShaped(Im()) && AllShaped(source.Im()) && source != this && source.cache != cache
      requires source.cache.Valid() && Within(source.cache.pages, all)
      modifies this`blocks, this`swapSize, source`blocks, source`swapSize, source.cache, all
      ensures source.cache.Valid() && source.cache.ref == old(source.cache.ref) && Within(source.cache.pages, all)
      ensures var n := BlocksIn(source.base, source.end);
        && Both(Im(), source.Im(), swapSize) ==
           AfterRounds(Both(old(Im()), old(source.Im()), old(swapSize)), FirstBlock(source.base), n)
    {
      hide Round, Within, Shaped, Cache.Valid, Wired;
      ghost var was, lo := Both(Im(), source.Im(), swapSize), FirstBlock(source.base);
      ghost var n, now := 0, was;
      var b := FirstBlock(source.base);
      while b * SWAP_BLOCK_PAGES < source.end
        invariant b == lo + n && n <= BlocksIn(source.base, source.end)
        invariant source.cache.Valid() && source.cache.ref == old(source.cache.ref) && Within(source.cache.pages, all)
        invariant now == AfterRounds(was, lo, n)
        invariant Both(Im(), source.Im(), swapSize) == now
        decreases source.end - b * SWAP_BLOCK_PAGES
      {
        AfterRoundsShaped(was, lo, n);
        AfterRoundsStep(was, lo, n);
        BlockVisited(b, source.end);
        MergeRound(source, b, all);
        now := Round(now, b);
        b, n := b + 1, n + 1;
      }
      BlockVisited(b, source.end);
    }

    /**
      Merge: the swap blocks first, then the resident pages by the cheaper of
      the two strategies.  The caches are different and `source` is in range.
      The consumer ends up with the merged image, every page of it naming the
      consumer, with its page counts exact and the allocated size the loop adds
      up; if the code skips the swap blocks because neither cache has allocated
      swap space, they stay as they were.
    */
    method Merge(source: Anonymous)
      requires Valid() && source.Valid() && source.InRange()
      requires source != this && source.cache != cache
      modifies this`blocks, this`swapSize, source`blocks, source`swapSize, cache, source.cache
      modifies cache.ref, source.cache.ref, cache.pages.Values, source.cache.pages.Values
      ensures cache.Valid() && source.cache.Valid()
      ensures Im() == Outcome(old(Im()), old(source.Im()), old(swapSize), old(source.swapSize))
      ensures swapSize == OutcomeSize(old(Im()), old(source.Im()), old(swapSize), old(source.swapSize))
    {
      hide Outcome, OutcomeSize, Union, Cache.Valid, Within, Shaped, BlocksShaped, Wired;
      MergeSwap(source);
      cache.MergePages(source.cache, old(cache.pages.Values), old(source.cache.pages.Values));
    }

    /** MergeSwapPages leaves the consumer's pages alone, and what is left to merge is the page maps. */
    method MergeSwap(source: Anonymous)
      requires Valid() && source.Valid() && source.InRange() && source != this && source.cache != cache
      modifies this`blocks, this`swapSize, source`blocks, source`swapSize, source.cache, source.cache.pages.Values
      ensures cache.Valid() && source.cache.Valid() && source.cache.ref == old(source.cache.ref)
      ensures Within(source.cache.pages, old(source.cache.pages.Values))
      ensures cache.pages == old(cache.pages)
      ensures Image(Union(cache.pages, source.cache.pages), blocks) ==
        Outcome(old(Im()), old(source.Im()), old(swapSize), old(source.swapSize))
      ensures swapSize == OutcomeSize(old(Im()), old(source.Im()), old(swapSize), old(source.swapSize))
    {
      hide AfterRounds, Wired, Outcome, OutcomeSize, Union, BlocksIn, FirstBlock, Bounded, BlocksShaped, Cache.Valid;
      hide Within, Shaped;
      PagesApart(cache, source.cache);
      ghost var c, s, size, all := Im(), source.Im(), swapSize, source.cache.pages.Values;
      WithinAll(source.cache);
      MergeSwapPages(source, all);
      OutcomeFrom(c, s, source.base, source.end, size, old(source.swapSize), Both(Im(), source.Im(), swapSize));
    }
  }

  lemma WithinAll(cache: Cache)
    ensures Within(cache.pages, cache.pages.Values)
  {
  }

  ghost function WithBlock(blocks: map<int, SwapBlock>, b: int, block: Option<SwapBlock>): (m: map<int, SwapBlock>)
    ensures forall k :: BlockAt(m, k) == if k == b then block else BlockAt(blocks, k)
  {
    if block.Some? then blocks[b := block.value] else blocks - {b}
  }

  // ---- the block loop on values ----

  datatype Both<P> = Both(c: Image<P>, s: Image<P>, swapSize: int)

  /** Both caches after one more round. */
  ghost function Round<P>(x: Both<P>, b: int): Both<P> {
    Both(Image(x.c.pages, WithBlock(x.c.blocks, b, MergedBlock(x.c, x.s, b))),
         Image(Unshadowed(x.s.pages, SlotsOf(x.c.blocks, b), b * SWAP_BLOCK_PAGES), x.s.blocks - {b}),
         x.swapSize + Taken(x.c, x.s, b))
  }

  ghost function AfterRounds<P>(x: Both<P>, lo: int, n: nat): Both<P> {
    if n == 0 then x else Round(AfterRounds(x, lo, n - 1), lo + (n - 1))
  }

  lemma AfterRoundsStep<P>(x: Both<P>, lo: int, n: nat)
    ensures AfterRounds(x, lo, n + 1) == Round(AfterRounds(x, lo, n), lo + n)
  {
  }

  /** The blocks lo .. b - 1 have been merged. */
  ghost predicate Rounds<P>(x: Both<P>, lo: int, b: int, y: Both<P>) {
    && y.c.pages == x.c.pages
    && AllShaped(y.c) && AllShaped(y.s)
    && (forall k :: BlockAt(y.c.blocks, k) == if lo <= k < b then MergedBlock(x.c, x.s, k) else BlockAt(x.c.blocks, k))
    && (forall k :: BlockAt(y.s.blocks, k) == if lo <= k < b then None else BlockAt(x.s.blocks, k))
    && PagesLeft(x.c, x.s, lo, b, y.s.pages)
  }

  ghost predicate PagesLeft<P>(c: Image<P>, s: Image<P>, lo: int, b: int, pages: map<int, P>) {
    && (forall o :: o in pages <==> o in s.pages && !(lo <= o / SWAP_BLOCK_PAGES < b && SlotAt(c.blocks, o).Some?))
    && (forall o | o in pages :: pages[o] == s.pages[o])
  }

  /** Skipped or merged, what is left to merge is the page maps. */
  lemma OutcomeFrom<P>(c: Image<P>, s: Image<P>, base: int, end: int, cSize: int, sSize: int, y: Both<P>)
    requires AllShaped(c) && AllShaped(s) && Bounded(s, base, end)
    requires y == if Skips(cSize, sSize) then Both(c, s, cSize)
                  else AfterRounds(Both(c, s, cSize), FirstBlock(base), BlocksIn(base, end))
    ensures y.c.pages == c.pages && Image(Union(c.pages, y.s.pages), y.c.blocks) == Outcome(c, s, cSize, sSize)
    ensures y.swapSize == OutcomeSize(c, s, cSize, sSize)
  {
    hide AfterRounds, Merged, MergedSize;
    MergedAll(c, s, base, end, cSize);
    SizeAfterAll(c, s, base, end, cSize);
  }

  /** All rounds together make the merged image, page map included. */
  lemma MergedAll<P>(c: Image<P>, s: Image<P>, base: int, end: int, swapSize: int)
    requires AllShaped(c) && AllShaped(s) && Bounded(s, base, end)
    ensures var y := AfterRounds(Both(c, s, swapSize), FirstBlock(base), BlocksIn(base, end));
      y.c.pages == c.pages && Image(Union(c.pages, y.s.pages), y.c.blocks) == Merged(c, s)
  {
    var x, lo := Both(c, s, swapSize), FirstBlock(base);
    var y := AfterRounds(x, lo, BlocksIn(base, end));
    AfterRoundsIs(x, lo, BlocksIn(base, end));
    var m := Merged(c, s);
    forall b ensures BlockAt(y.c.blocks, b) == BlockAt(m.blocks, b) {
      assert BlockAt(s.blocks, b).Some? ==> lo <= b < lo + BlocksIn(base, end);
    }
    SameBlocks(y.c.blocks, m.blocks);
    var u := Union(c.pages, y.s.pages);
    forall o ensures o in u <==> o in m.pages {
      assert o in s.pages ==> lo <= o / SWAP_BLOCK_PAGES < lo + BlocksIn(base, end);
    }
    assert u.Keys == m.pages.Keys;
  }

  /** The allocated size after the blocks lo .. lo + n - 1. */
  lemma {:induction false} SizeAfterRounds<P>(c: Image<P>, s: Image<P>, size: int, lo: int, n: nat)
    requires AllShaped(c) && AllShaped(s)
    ensures AfterRounds(Both(c, s, size), lo, n).swapSize == size + |TakenIn(c, s, Range(lo, n))|
  {
    hide Round, Taken;
    if n > 0 {
      SizeAfterRounds(c, s, size, lo, n - 1);
      RoundSize(Both(c, s, size), lo, n - 1);
      RangeIs(lo, n - 1, lo + (n - 1));
      assert Range(lo, n) - {lo + (n - 1)} == Range(lo, n - 1);
      TakenSplit(c, s, Range(lo, n), lo + (n - 1));
    } else {
      assert TakenIn(c, s, Range(lo, n)) == {};
    }
  }

  ghost function Range(lo: int, n: nat): set<int> { if n == 0 then {} else Range(lo, n - 1) + {lo + (n - 1)} }

  lemma {:induction false} RangeIs(lo: int, n: nat, b: int)
    ensures b in Range(lo, n) <==> lo <= b < lo + n
  {
    if n > 0 { RangeIs(lo, n - 1, b); }
  }

  lemma SizeAfterAll<P>(c: Image<P>, s: Image<P>, base: int, end: int, size: int)
    requires AllShaped(c) && AllShaped(s) && Bounded(s, base, end)
    ensures AfterRounds(Both(c, s, size), FirstBlock(base), BlocksIn(base, end)).swapSize == MergedSize(c, s, size)
  {
    SizeAfterRounds(c, s, size, FirstBlock(base), BlocksIn(base, end));
    var r := Range(FirstBlock(base), BlocksIn(base, end));
    forall b ensures b in r <==> FirstBlock(base) <= b < FirstBlock(base) + BlocksIn(base, end) {
      RangeIs(FirstBlock(base), BlocksIn(base, end), b);
    }
    assert TakenIn(c, s, r) == TakenIn(c, s, s.blocks.Keys);
  }

  lemma RoundSize<P>(x: Both<P>, lo: int, n: nat)
    requires AllShaped(x.c) && AllShaped(x.s)
    ensures Round(AfterRounds(x, lo, n), lo + n).swapSize == AfterRounds(x, lo, n).swapSize + Taken(x.c, x.s, lo + n)
  {
    AfterRoundsIs(x, lo, n);
    RoundSame(x, lo, lo + n, AfterRounds(x, lo, n));
  }

  lemma SameBlocks(a: map<int, SwapBlock>, b: map<int, SwapBlock>)
    requires forall k :: BlockAt(a, k) == BlockAt(b, k)
    ensures a == b
  {
    forall k ensures k in a <==> k in b ensures k in a ==> a[k] == b[k] {
      assert BlockAt(a, k) == BlockAt(b, k);
    }
    assert a.Keys == b.Keys;
  }

  lemma {:induction false} AfterRoundsIs<P>(x: Both<P>, lo: int, n: nat)
    requires AllShaped(x.c) && AllShaped(x.s)
    ensures Rounds(x, lo, lo + n, AfterRounds(x, lo, n))
  {
    hide Round;
    if n > 0 {
      AfterRoundsIs(x, lo, n - 1);
      RoundStep(x, lo, lo + (n - 1), AfterRounds(x, lo, n - 1));
    }
  }

  lemma AfterRoundsShaped<P>(x: Both<P>, lo: int, n: nat)
    requires AllShaped(x.c) && AllShaped(x.s)
    ensures AllShaped(AfterRounds(x, lo, n).c) && AllShaped(AfterRounds(x, lo, n).s)
  {
    AfterRoundsIs(x, lo, n);
  }

  lemma RoundPages<P>(c: Image<P>, s: Image<P>, lo: int, b: int, pages: map<int, P>)
    requires lo <= b && PagesLeft(c, s, lo, b, pages) && AllShaped(c)
    ensures PagesLeft(c, s, lo, b + 1, Unshadowed(pages, SlotsOf(c.blocks, b), b * SWAP_BLOCK_PAGES))
  {
    var slots := SlotsOf(c.blocks, b);
    var r := Unshadowed(pages, slots, b * SWAP_BLOCK_PAGES);
    forall o
      ensures o in r <==> o in s.pages && !(lo <= o / SWAP_BLOCK_PAGES < b + 1 && SlotAt(c.blocks, o).Some?)
      ensures o in r ==> r[o] == s.pages[o]
    {
      UnshadowedAt(pages, slots, b * SWAP_BLOCK_PAGES, o);
      var i := o - b * SWAP_BLOCK_PAGES;
      if o / SWAP_BLOCK_PAGES == b {
        assert 0 <= i < SWAP_BLOCK_PAGES && i == o % SWAP_BLOCK_PAGES;
      } else {
        assert !(0 <= i < SWAP_BLOCK_PAGES);
      }
    }
  }

  lemma RoundSame<P>(x: Both<P>, lo: int, b: int, y: Both<P>)
    requires Rounds(x, lo, b, y)
    ensures BlockAt(y.c.blocks, b) == BlockAt(x.c.blocks, b) && BlockAt(y.s.blocks, b) == BlockAt(x.s.blocks, b)
    ensures MergedBlock(y.c, y.s, b) == MergedBlock(x.c, x.s, b) && Taken(y.c, y.s, b) == Taken(x.c, x.s, b)
    ensures SlotsOf(y.c.blocks, b) == SlotsOf(x.c.blocks, b)
  {
    assert BlockAt(y.c.blocks, b) == BlockAt(x.c.blocks, b) && BlockAt(y.s.blocks, b) == BlockAt(x.s.blocks, b);
  }

  lemma MergedBlockShaped<P>(c: Image<P>, s: Image<P>, b: int)
    requires AllShaped(c) && AllShaped(s)
    ensures MergedBlock(c, s, b).Some? ==> Shaped(MergedBlock(c, s, b).value)
  {
  }

  lemma RoundStep<P>(x: Both<P>, lo: int, b: int, y: Both<P>)
    requires lo <= b && AllShaped(x.c) && Rounds(x, lo, b, y)
    ensures Rounds(x, lo, b + 1, Round(y, b))
  {
    RoundSame(x, lo, b, y);
    RoundPages(x.c, x.s, lo, b, y.s.pages);
    MergedBlockShaped(y.c, y.s, b);
    var m, r := Round(y, b).c.blocks, y.s.blocks - {b};
    forall k ensures BlockAt(m, k) == if lo <= k < b + 1 then MergedBlock(x.c, x.s, k) else BlockAt(x.c.blocks, k) {
      assert BlockAt(y.c.blocks, k) == if lo <= k < b then MergedBlock(x.c, x.s, k) else BlockAt(x.c.blocks, k);
    }
    forall k ensures BlockAt(r, k) == if lo <= k < b + 1 then None else BlockAt(x.s.blocks, k) {
      assert BlockAt(r, k) == if k == b then None else BlockAt(y.s.blocks, k);
    }
    forall k | k in m ensures Shaped(m[k]) {
      assert BlockAt(m, k) == if k == b then MergedBlock(y.c, y.s, b) else BlockAt(y.c.blocks, k);
    }
  }

  function FirstBlock(base: int): int { base / SWAP_BLOCK_PAGES }

  ghost predicate Bounded<P>(im: Image<P>, base: int, end: int) {
    && (forall b | b in im.blocks :: FirstBlock(base) <= b < EndBlock(end))
    && (forall o | o in im.pages :: FirstBlock(base) <= o / SWAP_BLOCK_PAGES < EndBlock(end))
  }

  lemma BlockVisited(b: int, end: int)
    ensures b * SWAP_BLOCK_PAGES < end <==> b < EndBlock(end)
  {
  }

  /** How many blocks the loop visits. */
  function BlocksIn(base: int, end: int): nat {
    if EndBlock(end) <= FirstBlock(base) then 0 else EndBlock(end) - FirstBlock(base)
  }

  function EndBlock(end: int): int { (end + SWAP_BLOCK_PAGES - 1) / SWAP_BLOCK_PAGES }

  /** Pages left when those with a slot in `slots` are gone. */
  ghost function Unshadowed<P>(pages: map<int, P>, slots: seq<Option<Slot>>, first: int): map<int, P> {
    if slots == [] then pages
    else
      var n := |slots| - 1;
      var rest := Unshadowed(pages, slots[..n], first);
      if slots[n].Some? then rest - {first + n} else rest
  }

  lemma UnshadowedNone<P>(pages: map<int, P>, first: int)
    ensures Unshadowed(pages, [], first) == pages
  {
  }

  lemma UnshadowedStep<P>(pages: map<int, P>, slots: seq<Option<Slot>>, first: int, i: nat)
    requires i < |slots|
    ensures Unshadowed(pages, slots[..i + 1], first) ==
      var rest := Unshadowed(pages, slots[..i], first);
      if slots[i].Some? then rest - {first + i} else rest
  {
    assert slots[..i + 1][..i] == slots[..i];
  }

  lemma {:induction false} UnshadowedAt<P>(pages: map<int, P>, slots: seq<Option<Slot>>, first: int, o: int)
    ensures var r := Unshadowed(pages, slots, first);
      && (o in r <==> o in pages && !(0 <= o - first < |slots| && slots[o - first].Some?))
      && (o in r ==> r[o] == pages[o])
  {
    if slots != [] { UnshadowedAt(pages, slots[..|slots| - 1], first, o); }
  }

  /** The slots in use. */
  ghost function Present(slots: seq<Option<Slot>>): multiset<Slot> {
    if slots == [] then multiset{}
    else
      var n := |slots| - 1;
      Present(slots[..n]) + (if slots[n].Some? then multiset{slots[n].value} else multiset{})
  }

  // ---- the slot loop on values ----

  datatype Filter = Filter(slots: seq<Option<Slot>>, used: nat, owned: nat, freed: seq<Slot>)

  ghost function FilterOne(f: Filter, cb: Option<SwapBlock>, resident: seq<bool>, i: nat): Filter {
    if i >= |f.slots| || f.slots[i].None? then f
    else if Shadowed(cb, resident, i) then
      Filter(f.slots[i := None], (f.used + UINT32 - 1) % UINT32, f.owned + 1, f.freed + [f.slots[i].value])
    else f.(owned := f.owned + 1)
  }

  ghost function FilterUpTo(cb: Option<SwapBlock>, sb: SwapBlock, resident: seq<bool>, n: nat): Filter {
    if n == 0 then Filter(sb.slots, sb.used, 0, [])
      else FilterOne(FilterUpTo(cb, sb, resident, n - 1), cb, resident, n - 1)
  }

  lemma {:induction false} FilteredSlots(cb: Option<SwapBlock>, sb: SwapBlock, resident: seq<bool>, n: nat)
    requires n <= |sb.slots|
    ensures FilterUpTo(cb, sb, resident, n).slots == Kept(cb, sb.slots[..n], resident) + sb.slots[n..]
  {
    if n > 0 {
      var m := n - 1;
      FilteredSlots(cb, sb, resident, m);
      KeptStep(cb, sb.slots, resident, m);
      var before, slot := Kept(cb, sb.slots[..m], resident), sb.slots[m];
      assert sb.slots[m..] == [slot] + sb.slots[n..];
      ReplaceMiddle(before, slot, None, sb.slots[n..]);
    }
  }

  lemma KeptStep(cb: Option<SwapBlock>, slots: seq<Option<Slot>>, resident: seq<bool>, m: nat)
    requires m < |slots|
    ensures |Kept(cb, slots[..m], resident)| == m
    ensures Kept(cb, slots[..m + 1], resident) ==
      Kept(cb, slots[..m], resident) + [if Shadowed(cb, resident, m) then None else slots[m]]
  {
  }

  lemma ReplaceMiddle(a: seq<Option<Slot>>, x: Option<Slot>, y: Option<Slot>, b: seq<Option<Slot>>)
    ensures (a + ([x] + b))[|a| := y] == a + [y] + b && (a + ([x] + b))[|a|] == x && a + ([x] + b) == a + [x] + b
  {
  }

  lemma WrapDown(x: nat)
    requires x > 0
    ensures (x % UINT32 + UINT32 - 1) % UINT32 == (x - 1) % UINT32
  {
    var q, r := x / UINT32, x % UINT32;
    if r == 0 {
      assert x - 1 == (q - 1) * UINT32 + (UINT32 - 1);
    } else {
      assert x - 1 == q * UINT32 + (r - 1) && x % UINT32 + UINT32 - 1 == UINT32 + (r - 1);
    }
  }

  lemma {:induction false} FilteredCounts(cb: Option<SwapBlock>, sb: SwapBlock, resident: seq<bool>, n: nat)
    requires Shaped(sb) && n <= |sb.slots|
    ensures var f := FilterUpTo(cb, sb, resident, n);
      && f.owned == Count(sb.slots[..n])
      && Freed(cb, sb.slots[..n], resident) <= n
      && f.used == (sb.used + UINT32 - Freed(cb, sb.slots[..n], resident)) % UINT32
  {
    if n > 0 {
      FilteredCounts(cb, sb, resident, n - 1);
      NotYet(cb, sb, resident, n - 1);
      assert sb.slots[..n][..n - 1] == sb.slots[..n - 1];
      WrapDown(sb.used + UINT32 - Freed(cb, sb.slots[..n - 1], resident));
    }
  }

  /** The freed slots in order. */
  ghost function FreedSlots(cb: Option<SwapBlock>, slots: seq<Option<Slot>>, resident: seq<bool>): seq<Slot> {
    if slots == [] then []
    else
      var n := |slots| - 1;
      FreedSlots(cb, slots[..n], resident) +
      (if slots[n].Some? && Shadowed(cb, resident, n) then [slots[n].value] else [])
  }

  lemma {:induction false} FilteredFreed(cb: Option<SwapBlock>, sb: SwapBlock, resident: seq<bool>, n: nat)
    requires n <= |sb.slots|
    ensures FilterUpTo(cb, sb, resident, n).freed == FreedSlots(cb, sb.slots[..n], resident)
  {
    if n > 0 {
      hide Kept;
      FilteredFreed(cb, sb, resident, n - 1);
      NotYet(cb, sb, resident, n - 1);
      assert sb.slots[..n][..n - 1] == sb.slots[..n - 1];
    }
  }

  /** The loop has not touched the slots ahead. */
  lemma NotYet(cb: Option<SwapBlock>, sb: SwapBlock, resident: seq<bool>, n: nat)
    requires n < |sb.slots|
    ensures var slots := FilterUpTo(cb, sb, resident, n).slots; |slots| == |sb.slots| && slots[n] == sb.slots[n]
  {
    hide Kept, FilterUpTo;
    FilteredSlots(cb, sb, resident, n);
    KeptStep(cb, sb.slots, resident, n);
  }

  lemma PresentSnoc(slots: seq<Option<Slot>>, x: Option<Slot>)
    ensures Present(slots + [x]) == Present(slots) + (if x.Some? then multiset{x.value} else multiset{})
  {
    assert (slots + [x])[..|slots|] == slots;
  }

  /** Every slot is either freed or kept. */
  lemma {:induction false} FreedOrKept(cb: Option<SwapBlock>, slots: seq<Option<Slot>>, resident: seq<bool>)
    ensures multiset(FreedSlots(cb, slots, resident)) + Present(Kept(cb, slots, resident))
      == Present(slots)
  {
    hide Present, FreedSlots, Kept;
    if slots == [] {
      NothingFreed(cb, resident);
    } else {
      var n := |slots| - 1;
      FreedOrKept(cb, slots[..n], resident);
      assert slots[..n + 1] == slots && slots[..n] + [slots[n]] == slots;
      KeptStep(cb, slots, resident, n);
      FreedSnoc(cb, slots, resident);
      PresentSnoc(Kept(cb, slots[..n], resident), if Shadowed(cb, resident, n) then None else slots[n]);
      PresentSnoc(slots[..n], slots[n]);
      AddOne(multiset(FreedSlots(cb, slots[..n], resident)), Present(Kept(cb, slots[..n], resident)),
        Present(slots[..n]),
             if slots[n].Some? then multiset{slots[n].value} else multiset{});
    }
  }

  lemma AddOne(a: multiset<Slot>, b: multiset<Slot>, c: multiset<Slot>, one: multiset<Slot>)
    requires a + b == c
    ensures a + one + b == c + one && a + (b + one) == c + one && a + multiset{} == a && b + multiset{} == b
  {
  }

  lemma NothingFreed(cb: Option<SwapBlock>, resident: seq<bool>)
    ensures FreedSlots(cb, [], resident) == [] && Present(Kept(cb, [], resident)) == Present([]) == multiset{}
  {
  }

  lemma FreedSnoc(cb: Option<SwapBlock>, slots: seq<Option<Slot>>, resident: seq<bool>)
    requires slots != []
    ensures var n := |slots| - 1;
      multiset(FreedSlots(cb, slots, resident)) == multiset(FreedSlots(cb, slots[..n], resident)) +
        (if slots[n].Some? && Shadowed(cb, resident, n) then multiset{slots[n].value} else multiset{})
  {
  }

  /** What the slot loop leaves of a source block: no slot disappears, and what stays is what nothing shadows. */
  lemma FilterIs(cb: Option<SwapBlock>, sb: SwapBlock, resident: seq<bool>)
    requires Shaped(sb)
    ensures var f := FilterUpTo(cb, sb, resident, |sb.slots|);
      && f.slots == Kept(cb, sb.slots, resident)
      && f.used == UsedAfter(cb, sb, resident)
      && f.owned == Count(sb.slots)
      && multiset(f.freed) + Present(f.slots) == Present(sb.slots)
  {
    assert sb.slots[..|sb.slots|] == sb.slots;
    FilteredSlots(cb, sb, resident, |sb.slots|);
    FilteredCounts(cb, sb, resident, |sb.slots|);
    FilteredFreed(cb, sb, resident, |sb.slots|);
    FreedOrKept(cb, sb.slots, resident);
  }
}
