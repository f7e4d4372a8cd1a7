/**
  The memory manager of the slab allocator (slab/mm_manager.cpp) as its callers
  see it: chunks handed out for object caches and for raw allocations, found
  again by their address alone.  Addresses and sizes are in pages, references in
  bytes.
*/
module SlabMemory {
  import opened Options
  import opened Arithmetic
  import opened MetaChunks
  import opened MetaChunkLists

  // ---- who has which chunks ----

  /**
    An allocation: its number of chunks, their size, its address, and what the
    record of its first chunk says: 1 while it is being mapped, then the object
    cache it was made for, which is even, or the end of a raw allocation, which
    is odd.
  */
  datatype Held = Held(n: nat, size: nat, address: nat, word: nat)

  type Chunk = (int, int)      // meta chunk and index

  /** Chunk c belongs to the n chunks from h on. */
  predicate InRun(h: Chunk, n: nat, c: Chunk) { c.0 == h.0 && h.1 <= c.1 < h.1 + n }

  ghost function Chunks(h: Chunk, n: nat): set<Chunk> {
    set j | h.1 <= j < h.1 + n :: (h.0, j)
  }

  lemma ChunksAre(h: Chunk, n: nat)
    ensures forall c :: c in Chunks(h, n) <==> InRun(h, n, c)
  {
    forall c | InRun(h, n, c) ensures c in Chunks(h, n) {
      assert c == (h.0, c.1);
    }
  }

  function AddressOf(e: Entry, admin: nat, i: nat): nat
    requires e.meta.size > 0
  {
    ChunkAddress(BaseOf(e.base, e.position, admin, e.meta.size), e.meta.size, i)
  }

  /** The allocated chunks are exactly those of the allocations, and each has one owner. */
  ghost predicate Owned(es: seq<Entry>, held: map<Chunk, Held>, owner: map<Chunk, Chunk>) {
    && (forall k, i :: Allocated(es, k, i) <==> (k, i) in owner)
    && (forall c | c in owner :: owner[c] in held && InRun(owner[c], held[owner[c]].n, c))
    && (forall h | h in held :: held[h].n > 0)
    && forall h, c | h in held && InRun(h, held[h].n, c) :: c in owner && owner[c] == h
  }

  /** What is noted of an allocation agrees with its meta chunk and its first record. */
  ghost predicate Noted(es: seq<Entry>, admin: nat, refs: map<Chunk, nat>, h: Chunk, a: Held) {
    && 0 <= h.0 < |es| && 0 <= h.1 && 0 < a.size == es[h.0].meta.size && h.1 + a.n <= es[h.0].meta.count
    && a.address == AddressOf(es[h.0], admin, h.1) && h in refs && refs[h] == a.word
  }

  ghost predicate AllNoted(es: seq<Entry>, admin: nat, refs: map<Chunk, nat>, held: map<Chunk, Held>) {
    forall h | h in held :: Noted(es, admin, refs, h, held[h])
  }

  predicate Aligned(base: nat, perArea: nat)
    requires perArea > 0
  {
    base % (perArea * LARGE) == 0
  }

  /** A chunk size comes with its number of chunks; areas are aligned and have each position once. */
  ghost predicate PlacesOk(es: seq<Entry>, admin: nat, perArea: nat)
    requires perArea > 0
  {
    && (forall k | 0 <= k < |es| && es[k].meta.size != 0 ::
          es[k].meta.count == CountOf(es[k].Short(), admin, es[k].meta.size))
    && (forall k | 0 <= k < |es| :: es[k].position < perArea && Aligned(es[k].base, perArea))
    && forall j, k | 0 <= j < k < |es| :: es[j].base != es[k].base || es[j].position != es[k].position
  }

  /** After a run was taken. */
  lemma OwnedTake(es: seq<Entry>, es2: seq<Entry>, held: map<Chunk, Held>, owner: map<Chunk, Chunk>, h: Chunk, a: Held)
    requires Owned(es, held, owner) && a.n > 0
    requires IsTaken(es, es2, h, a.n)
    ensures h !in held && Owned(es2, held[h := a], owner + map c | c in Chunks(h, a.n) :: h)
  {
    ChunksAre(h, a.n);
    assert !Allocated(es, h.0, h.1) && h == (h.0, h.1);
    assert h in held ==> InRun(h, held[h].n, h);
    var held2, owner2 := held[h := a], owner + map c | c in Chunks(h, a.n) :: h;
    forall g, c | g in held2 && InRun(g, held2[g].n, c) ensures c in owner2 && owner2[c] == g {
      if g != h {
        assert c in owner && owner[c] == g && Allocated(es, c.0, c.1);
        assert c !in Chunks(h, a.n);
      }
    }
    forall c | c in owner2 ensures owner2[c] in held2 && InRun(owner2[c], held2[owner2[c]].n, c) {
      if c !in Chunks(h, a.n) { assert c in owner && owner[c] != h; }
    }
    forall k, i ensures Allocated(es2, k, i) <==> (k, i) in owner2 {
    }
  }

  /** After an allocation was given back. */
  lemma OwnedGive(es: seq<Entry>, es2: seq<Entry>, held: map<Chunk, Held>, owner: map<Chunk, Chunk>, h: Chunk)
    requires Owned(es, held, owner) && h in held
    requires forall k, i :: Allocated(es2, k, i) <==> Allocated(es, k, i) && !InRun(h, held[h].n, (k, i))
    ensures Owned(es2, held - {h}, map c | c in owner && owner[c] != h :: owner[c])
  {
    var owner2 := map c | c in owner && owner[c] != h :: owner[c];
    forall k, i ensures Allocated(es2, k, i) <==> (k, i) in owner2 {
      if (k, i) in owner && owner[(k, i)] == h { assert InRun(h, held[h].n, (k, i)); }
    }
  }

  /** An allocation elsewhere keeps its note when chunks are taken. */
  lemma NotedTake(es: seq<Entry>, es2: seq<Entry>, admin: nat, refs: map<Chunk, nat>, refs2: map<Chunk, nat>,
                  held: map<Chunk, Held>)
    requires AllNoted(es, admin, refs, held) && Recut(es, es2, admin)
    requires forall h | h in held && h in refs :: h in refs2 && refs2[h] == refs[h]
    ensures AllNoted(es2, admin, refs2, held)
  {
    forall h | h in held ensures Noted(es2, admin, refs2, h, held[h]) {
      assert Noted(es, admin, refs, h, held[h]);
    }
  }

  /** And when others are given back. */
  lemma NotedGive(es: seq<Entry>, es2: seq<Entry>, admin: nat, refs: map<Chunk, nat>, refs2: map<Chunk, nat>,
                  held: map<Chunk, Held>, owner: map<Chunk, Chunk>)
    requires AllNoted(es, admin, refs, held) && Owned(es2, held, owner) && Shrunk(es, es2)
    requires forall h | h in held && h in refs :: h in refs2 && refs2[h] == refs[h]
    ensures AllNoted(es2, admin, refs2, held)
  {
    forall h | h in held ensures Noted(es2, admin, refs2, h, held[h]) {
      assert Noted(es, admin, refs, h, held[h]);
      assert InRun(h, held[h].n, h);
      assert Allocated(es2, h.0, h.1);
    }
  }

  lemma PlacesRecut(es: seq<Entry>, es2: seq<Entry>, admin: nat, perArea: nat)
    requires perArea > 0 && PlacesOk(es, admin, perArea) && (Recut(es, es2, admin) || Shrunk(es, es2))
    ensures PlacesOk(es2, admin, perArea)
  {
  }

  lemma PlacesAdded(es: seq<Entry>, admin: nat, perArea: nat, base: nat, position: nat)
    requires perArea > 0 && PlacesOk(es, admin, perArea) && Aligned(base, perArea) && position < perArea
    requires forall k | 0 <= k < |es| :: es[k].base != base || es[k].position < position
    ensures PlacesOk(es + [Unused(base, position)], admin, perArea)
  {
  }

  // ---- from addresses back to chunks ----

  /** An address inside a chunk leads to the area, the meta chunk and the chunk. */
  lemma Located(e: Entry, admin: nat, perArea: nat, i: nat, address: nat)
    requires perArea > 0 && e.position < perArea && Aligned(e.base, perArea) && e.meta.size > 0
    requires e.meta.count == CountOf(e.Short(), admin, e.meta.size) && i < e.meta.count
    requires AddressOf(e, admin, i) <= address < AddressOf(e, admin, i) + e.meta.size
    ensures address / (perArea * LARGE) * (perArea * LARGE) == e.base
    ensures address % (perArea * LARGE) / LARGE == e.position
    ensures ChunkIndex(BaseOf(e.base, e.position, admin, e.meta.size), e.meta.size, address) == i
  {
    hide AddressOf, Prepared;
    var size := e.meta.size;
    CountIs(e.position, admin, size);
    AddressIs(e, admin, i);
    MetaOfAddress(e.base, e.position, admin, size, i, address);
    IndexOfAddress(BaseOf(e.base, e.position, admin, size), size, i, address);
    Ordered(e.position + 1, perArea, LARGE);
    InArea(e.base, perArea * LARGE, address);
  }

  lemma AddressIs(e: Entry, admin: nat, i: nat)
    requires e.meta.size > 0
    ensures AddressOf(e, admin, i) == ChunkAddress(BaseOf(e.base, e.position, admin, e.meta.size), e.meta.size, i)
  {
  }

  lemma CountIs(position: nat, admin: nat, size: nat)
    requires size > 0 && CountOf(position == 0, admin, size) > 0
    ensures TotalOf(position, admin, size) >= 0
    ensures CountOf(position == 0, admin, size) == TotalOf(position, admin, size) / size
  {
  }

  lemma InArea(base: nat, area: nat, address: nat)
    requires area > 0 && base % area == 0 && base <= address < base + area
    ensures address / area * area == base && address % area == address - base
  {
    var q := base / area;
    Quotient(address, area, q, address - base);
  }

  /** The end of a raw allocation is odd, and gives its number of chunks back. */
  lemma RawSize(address: nat, n: nat, size: nat)
    requires n > 0 && size > 0
    ensures var word := RawReference(address, n * size);
      && word > address * PAGE && word % 2 == 1
      && (word - address * PAGE + 1) / (size * PAGE) == n
  {
    var pages := n * size;
    assert pages > 0;
    assert RawReference(address, pages) == 2 * (2048 * (address + pages) - 1) + 1;
    assert pages * PAGE == n * (size * PAGE) + 0;
    Quotient(pages * PAGE, size * PAGE, n, 0);
  }

  /** The end of a raw allocation does not look like a link: it lies behind the area's records. */
  lemma RawIsNoLink(e: Entry, admin: nat, i: nat, pages: nat, records: nat, count: nat)
    requires e.meta.size > 0 && admin < LARGE && pages > 0
    requires (e.base + 1) * PAGE <= records && records + count * RECORD <= (e.base + 1 + admin) * PAGE
    ensures RawReference(AddressOf(e, admin, i), pages) > 0
    ensures !IsFreeWord(records, count, RawReference(AddressOf(e, admin, i), pages))
  {
    hide AddressOf;
    BehindRecords(e, admin, i);
  }

  /**
    Neither does a pointer to an object cache, as long as the cache lies in
    memory from the slab, in a chunk f of the same area or of any other.
  */
  lemma CacheIsNoLink(e: Entry, f: Entry, admin: nat, perArea: nat, i: nat, word: nat, records: nat, count: nat)
    requires perArea > 0 && admin < LARGE && Aligned(e.base, perArea)
    requires f.position < perArea && Aligned(f.base, perArea) && f.meta.size > 0
    requires f.meta.count == CountOf(f.Short(), admin, f.meta.size) && i < f.meta.count
    requires AddressOf(f, admin, i) * PAGE <= word < (AddressOf(f, admin, i) + f.meta.size) * PAGE
    requires (e.base + 1) * PAGE <= records && records + count * RECORD <= (e.base + 1 + admin) * PAGE
    ensures !IsFreeWord(records, count, word)
  {
    hide AddressOf, Aligned, CountOf;
    var page := word / PAGE;
    Located(f, admin, perArea, i, page);
    BehindRecords(f, admin, i);
    if records <= word < records + count * RECORD {
      assert e.base + 1 <= page < e.base + 1 + admin;
      Ordered(1, perArea, LARGE);
      AreaOf(e.base, perArea, page);
      assert false;
    }
  }

  lemma AreaOf(base: nat, perArea: nat, page: nat)
    requires perArea > 0 && Aligned(base, perArea) && base <= page < base + perArea * LARGE
    ensures page / (perArea * LARGE) * (perArea * LARGE) == base
  {
    InArea(base, perArea * LARGE, page);
  }

  /** The chunks of an area lie behind its records. */
  lemma BehindRecords(e: Entry, admin: nat, i: nat)
    requires e.meta.size > 0 && admin < LARGE
    ensures e.base + 1 + admin <= AddressOf(e, admin, i)
  {
    var size := e.meta.size;
    if e.position == 0 {
      RoundedUp(1 + admin, size);
    } else {
      Ordered(1, e.position, LARGE);
    }
    assert i * size >= 0;
  }

  lemma RoundedUp(n: nat, size: nat)
    requires n > 0 && size > 0
    ensures (n + size - 1) / size * size >= n
  {
    var q := (n + size - 1) / size;
    assert n + size - 1 == q * size + (n + size - 1) % size;
  }

  // ---- the memory manager ----

  /** What FreeRawOrReturnCache did: freed a raw allocation, named the object cache, or found no area. */
  datatype Release = Freed | Cache(word: nat) | Elsewhere

  class MemoryManager {
    const chunks: Manager
    const perArea: nat                     // SLAB_META_CHUNKS_PER_AREA
    var refs: map<Chunk, nat>              // the records of used chunks
    ghost var held: map<Chunk, Held>
    ghost var owner: map<Chunk, Chunk>

    ghost predicate Valid()
      reads this, chunks
    {
      && chunks.Valid() && perArea >= 2
      && PlacesOk(chunks.entries, chunks.admin, perArea)
      && Owned(chunks.entries, held, owner) && AllNoted(chunks.entries, chunks.admin, refs, held)
    }

    /** No area yet. */
    constructor (admin: nat, perArea: nat)
      requires admin <= ADMIN_MAX && perArea >= 2
      ensures Valid() && held == map[] && fresh(chunks) && chunks.entries == []
    {
      chunks := new Manager(admin);
      this.perArea := perArea;
      refs, held, owner := map[], map[], map[];
    }

    /** The address lies in an allocation a caller knows: anywhere for an object cache, at the start of a raw one. */
    ghost predicate Leads(address: nat, h: Chunk)
      reads this
    {
      && h in held && held[h].address <= address < held[h].address + held[h].size
      && (held[h].word % 2 == 1 ==>
            address == held[h].address && held[h].word == RawReference(address, held[h].n * held[h].size))
    }

    /** No area has the address. */
    ghost predicate Unknown(address: nat)
      requires perArea > 0
      reads this, chunks
    {
      forall k | 0 <= k < |chunks.entries| ::
        chunks.entries[k].base != address / (perArea * LARGE) * (perArea * LARGE)
    }

    /** _GetChunks: n chunks in a row that nobody has. */
    method GetRun(size: nat, n: nat) returns (found: Option<(nat, nat)>)
      requires Valid() && (size == SMALL || size == MEDIUM || size == LARGE) && n > 0 && n * size <= LARGE
      modifies this, chunks
      ensures Valid()
      ensures found.None? ==> refs == old(refs) && held == old(held) && chunks.entries == old(chunks.entries)
      ensures found.None? ==> old(chunks.lists).freeComplete == [] && chunks.lists == old(chunks.lists)
      ensures found.Some? ==> IsHanded(old(held), held, found.value, n, size)
      ensures found.Some? ==> IsTaken(old(chunks.entries), chunks.entries, found.value, n)
    {
      hide Owned, AllNoted, PlacesOk, Allocated, AllOk, Recut;
      if n == 1 {
        found := chunks.GetChunk(size);
      } else {
        found := chunks.GetChunks(size, n);
      }
      if found.Some? {
        Hand(found.value, size, n, old(chunks.entries));
      }
    }

    /** The run's records are set to 1; what the chunks now belong to is noted. */
    method Hand(h: Chunk, size: nat, n: nat, ghost was: seq<Entry>)
      requires chunks.Valid() && perArea >= 2
      requires PlacesOk(was, chunks.admin, perArea) && Owned(was, held, owner)
      requires AllNoted(was, chunks.admin, refs, held)
      requires Recut(was, chunks.entries, chunks.admin) && IsTaken(was, chunks.entries, h, n)
      requires 0 <= h.0 < |chunks.entries| && 0 <= h.1 && n > 0 && 0 < size == chunks.entries[h.0].meta.size
      modifies this
      ensures Valid() && h !in old(held) && held == old(held)[h := Taken(chunks.entries, chunks.admin, h, n)]
    {
      hide Owned, PlacesOk, AllOk, Recut, AllNoted, Noted, IsTaken;
      OwnedTake(was, chunks.entries, held, owner, h, Taken(chunks.entries, chunks.admin, h, n));
      PlacesRecut(was, chunks.entries, chunks.admin, perArea);
      NotedNew(was, chunks.entries, chunks.admin, refs, held, owner, h, n);
      refs := Ones(refs, h, n);
      held := held[h := Taken(chunks.entries, chunks.admin, h, n)];
      owner := owner + map c | c in Chunks(h, n) :: h;
    }

    lemma SizeAt(h: Chunk)
      requires Valid() && h in held
      ensures held[h].size > 0
    {
      assert Noted(chunks.entries, chunks.admin, refs, h, held[h]);
    }

    /** _AddArea: an area's meta chunks go to the free lists. */
    method AddArea(base: nat)
      requires Valid() && Aligned(base, perArea)
      requires forall k | 0 <= k < |chunks.entries| :: chunks.entries[k].base != base
      modifies chunks
      ensures Valid() && SameAllocated(old(chunks.entries), chunks.entries) && chunks.lists.freeComplete != []
    {
      hide Owned, AllNoted, PlacesOk, AllOk, Aligned;
      for p := 0 to perArea
        invariant chunks.Valid() && PlacesOk(chunks.entries, chunks.admin, perArea)
        invariant forall k | 0 <= k < |chunks.entries| ::
          chunks.entries[k].base != base || chunks.entries[k].position < p
        invariant old(chunks.entries) <= chunks.entries && SameAllocated(old(chunks.entries), chunks.entries)
        invariant p >= 2 ==> chunks.lists.freeComplete != []
      {
        PlacesAdded(chunks.entries, chunks.admin, perArea, base, p);
        chunks.AddMeta(base, p);
      }
      OwnedSame(old(chunks.entries), chunks.entries, held, owner);
      NotedAdded(old(chunks.entries), chunks.entries, chunks.admin, refs, held);
    }

    /**
      _AllocateChunks: with a new or spare area at hand it cannot fail.  Without
      one it fails only if no meta chunk can serve the request.
    */
    method AllocateChunks(size: nat, n: nat, spare: Option<nat>) returns (found: Option<(nat, nat)>)
      requires Valid() && (size == SMALL || size == MEDIUM || size == LARGE) && n > 0 && n * size <= LARGE
      requires spare.Some? ==> Aligned(spare.value, perArea)
      requires spare.Some? ==> forall k | 0 <= k < |chunks.entries| :: chunks.entries[k].base != spare.value
      modifies this, chunks
      ensures Valid() && (spare.Some? ==> found.Some?)
      ensures found.None? ==> held == old(held) && chunks.entries == old(chunks.entries)
      ensures found.Some? ==> IsHanded(old(held), held, found.value, n, size)
      ensures found.Some? ==> IsTaken(old(chunks.entries), chunks.entries, found.value, n)
    {
      hide Owned, AllNoted, PlacesOk, AllOk, Aligned, Allocated;
      found := GetRun(size, n);
      if found.None? && spare.Some? {
        AddArea(spare.value);
        found := GetRun(size, n);
      }
    }

    /** The memory was mapped: the first chunk's record says whose it is. */
    method Refer(h: Chunk, word: nat)
      requires Valid() && h in held
      modifies this
      ensures Valid() && held == old(held)[h := old(held)[h].(word := word)]
    {
      hide Owned, PlacesOk, AllOk;
      OwnedWord(chunks.entries, held, owner, h, word);
      refs := refs[h := word];
      held := held[h := held[h].(word := word)];
    }

    /** The free loop of AllocateRaw and FreeRawOrReturnCache: the allocation's n chunks, one after the other. */
    method GiveBack(h: Chunk, n: nat)
      requires Valid() && h in held && held[h].n == n
      modifies this, chunks
      ensures Valid() && held == old(held) - {h}
      ensures IsGiven(old(chunks.entries), chunks.entries, h, n)
    {
      hide Owned, AllNoted, PlacesOk, AllOk, Allocated, Shrunk;
      RunAllocated(chunks.entries, held, owner, h);
      ShrunkSame(chunks.entries);
      for i := 0 to n
        invariant chunks.Valid() && Shrunk(old(chunks.entries), chunks.entries)
        invariant unchanged(this) && IsGiven(old(chunks.entries), chunks.entries, h, i)
      {
        ghost var es := chunks.entries;
        NextAllocated(old(chunks.entries), es, h, n, i);
        chunks.FreeChunk(h.0, h.1 + i);
        ShrunkMore(old(chunks.entries), es, chunks.entries);
        GivenMore(old(chunks.entries), es, chunks.entries, h, i);
      }
      OwnedGive(old(chunks.entries), chunks.entries, held, owner, h);
      PlacesRecut(old(chunks.entries), chunks.entries, chunks.admin, perArea);
      ghost var left := held - {h};
      ghost var owner2 := map c | c in owner && owner[c] != h :: owner[c];
      NotInRun(old(chunks.entries), held, owner, h);
      NotedSubset(old(chunks.entries), chunks.admin, refs, held, left);
      NotedGive(old(chunks.entries), chunks.entries, chunks.admin, refs, Zapped(refs, h, n), left, owner2);
      refs := Zapped(refs, h, n);
      held, owner := left, owner2;
    }

    /** _ChunkAddress of an allocation's first chunk. */
    method AddressAt(h: Chunk) returns (address: nat)
      requires Valid() && h in held
      ensures address == held[h].address
    {
      assert Noted(chunks.entries, chunks.admin, refs, h, held[h]);
      var e := chunks.entries[h.0];
      address := ChunkAddress(BaseOf(e.base, e.position, chunks.admin, e.meta.size), e.meta.size, h.1);
    }

    /** Looking up an area and one of its meta chunks. */
    method FindMeta(base: nat, position: nat) returns (found: Option<nat>)
      ensures found.Some? ==> found.value < |chunks.entries|
      ensures found.Some? ==>
        chunks.entries[found.value].base == base && chunks.entries[found.value].position == position
      ensures found.None? ==>
        forall k | 0 <= k < |chunks.entries| :: chunks.entries[k].base != base || chunks.entries[k].position != position
    {
      for k := 0 to |chunks.entries|
        invariant forall j | 0 <= j < k :: chunks.entries[j].base != base || chunks.entries[j].position != position
      {
        if chunks.entries[k].base == base && chunks.entries[k].position == position {
          return Some(k);
        }
      }
      return None;
    }

    /** Free: the chunk an object cache had at that address. */
    method Free(address: nat, ghost h: Chunk)
      requires Valid() && Leads(address, h) && held[h].n == 1
      modifies this, chunks
      ensures Valid() && held == old(held) - {h} && IsGiven(old(chunks.entries), chunks.entries, h, 1)
    {
      hide Owned, AllNoted, PlacesOk, AllOk;
      var area := perArea * LARGE;
      LeadsBack(chunks.entries, chunks.admin, perArea, refs, held, owner, h, address);
      var k := FindMeta(address / area * area, address % area / LARGE);
      SamePlace(chunks.entries, chunks.admin, perArea, k.value, h.0);
      var e := chunks.entries[k.value];
      var i := ChunkIndex(BaseOf(e.base, e.position, chunks.admin, e.meta.size), e.meta.size, address);
      GiveBack((k.value, i), 1);
    }

    /**
      FreeRawOrReturnCache.  From the address alone: the object cache of the
      chunk it lies in, or exactly the chunks of the raw allocation it starts
      are given back.
    */
    method FreeRawOrReturnCache(address: nat, ghost h: Chunk) returns (r: Release)
      requires Valid() && (Unknown(address) || Leads(address, h))
      modifies this, chunks
      ensures Valid()
      ensures old(Unknown(address)) ==> r == Elsewhere
      ensures old(Leads(address, h)) && old(held)[h].word % 2 == 0 ==> r == Cache(old(held)[h].word)
      ensures r != Freed ==> held == old(held) && refs == old(refs) && chunks.entries == old(chunks.entries)
      ensures old(Leads(address, h)) && old(held)[h].word % 2 == 1 ==>
        && r == Freed && held == old(held) - {h}
        && IsGiven(old(chunks.entries), chunks.entries, h, old(held)[h].n)
    {
      hide Owned, AllNoted, PlacesOk, AllOk;
      var area := perArea * LARGE;
      var k := FindMeta(address / area * area, address % area / LARGE);
      if Leads(address, h) {
        LeadsBack(chunks.entries, chunks.admin, perArea, refs, held, owner, h, address);
      }
      if k.None? {
        return Elsewhere;
      }
      SamePlace(chunks.entries, chunks.admin, perArea, k.value, h.0);
      var e := chunks.entries[k.value];
      var i := ChunkIndex(BaseOf(e.base, e.position, chunks.admin, e.meta.size), e.meta.size, address);
      var word := refs[(k.value, i)];
      if word % 2 == 0 {
        return Cache(word);
      }
      RawSize(address, held[h].n, held[h].size);
      var n := (word - address * PAGE + 1) / (e.meta.size * PAGE);
      GiveBack((k.value, i), n);
      return Freed;
    }
  }

  /** Exactly the chunk run at h is a new allocation, which is not mapped yet. */
  ghost predicate IsHanded(held: map<Chunk, Held>, held2: map<Chunk, Held>, h: Chunk, n: nat, size: nat) {
    && h !in held && h in held2 && held2 == held[h := held2[h]]
    && held2[h].n == n && held2[h].size == size && held2[h].word == 1
  }

  /** Of all chunks, exactly the n from h on are no longer allocated. */
  ghost predicate IsGiven(es: seq<Entry>, es2: seq<Entry>, h: Chunk, n: nat) {
    forall k, i :: Allocated(es2, k, i) <==> Allocated(es, k, i) && !InRun(h, n, (k, i))
  }

  /** The records of chunks on the free list are references no more. */
  function Zapped(refs: map<Chunk, nat>, h: Chunk, n: nat): map<Chunk, nat> {
    map c | c in refs && !InRun(h, n, c) :: refs[c]
  }

  lemma OwnedSame(es: seq<Entry>, es2: seq<Entry>, held: map<Chunk, Held>, owner: map<Chunk, Chunk>)
    requires Owned(es, held, owner) && SameAllocated(es, es2)
    ensures Owned(es2, held, owner)
  {
  }

  lemma NotedAdded(es: seq<Entry>, es2: seq<Entry>, admin: nat, refs: map<Chunk, nat>, held: map<Chunk, Held>)
    requires AllNoted(es, admin, refs, held) && es <= es2
    ensures AllNoted(es2, admin, refs, held)
  {
    forall h | h in held ensures Noted(es2, admin, refs, h, held[h]) {
      assert Noted(es, admin, refs, h, held[h]);
    }
  }

  lemma OwnedWord(es: seq<Entry>, held: map<Chunk, Held>, owner: map<Chunk, Chunk>, h: Chunk, word: nat)
    requires Owned(es, held, owner) && h in held
    ensures Owned(es, held[h := held[h].(word := word)], owner)
  {
    var held2 := held[h := held[h].(word := word)];
    assert forall g | g in held2 :: held2[g].n == held[g].n;
  }

  lemma RunAllocated(es: seq<Entry>, held: map<Chunk, Held>, owner: map<Chunk, Chunk>, h: Chunk)
    requires Owned(es, held, owner) && h in held
    ensures forall i | h.1 <= i < h.1 + held[h].n :: Allocated(es, h.0, i)
  {
    forall i | h.1 <= i < h.1 + held[h].n ensures Allocated(es, h.0, i) {
      assert InRun(h, held[h].n, (h.0, i));
    }
  }

  lemma NextAllocated(es: seq<Entry>, es2: seq<Entry>, h: Chunk, n: nat, i: nat)
    requires (forall j | h.1 <= j < h.1 + n :: Allocated(es, h.0, j)) && IsGiven(es, es2, h, i) && i < n
    ensures Allocated(es2, h.0, h.1 + i) && h.0 >= 0 && h.1 + i >= 0
  {
    assert Allocated(es, h.0, h.1 + i);
  }

  lemma ShrunkSame(es: seq<Entry>)
    ensures Shrunk(es, es)
  {
  }

  lemma ShrunkMore(es: seq<Entry>, es1: seq<Entry>, es2: seq<Entry>)
    requires Shrunk(es, es1) && Shrunk(es1, es2)
    ensures Shrunk(es, es2)
  {
  }

  lemma GivenMore(es: seq<Entry>, es1: seq<Entry>, es2: seq<Entry>, h: Chunk, i: nat)
    requires IsGiven(es, es1, h, i)
    requires forall k, j :: Allocated(es2, k, j) <==> Allocated(es1, k, j) && (k, j) != (h.0, h.1 + i)
    ensures IsGiven(es, es2, h, i + 1)
  {
  }

  /** No other allocation starts within one. */
  lemma NotInRun(es: seq<Entry>, held: map<Chunk, Held>, owner: map<Chunk, Chunk>, h: Chunk)
    requires Owned(es, held, owner) && h in held
    ensures forall g | g in held && g != h :: !InRun(h, held[h].n, g)
  {
    forall g | g in held && g != h ensures !InRun(h, held[h].n, g) {
      assert InRun(g, held[g].n, g) && owner[g] == g;
    }
  }

  lemma NotedSubset(es: seq<Entry>, admin: nat, refs: map<Chunk, nat>, held: map<Chunk, Held>, held2: map<Chunk, Held>)
    requires AllNoted(es, admin, refs, held) && forall h | h in held2 :: h in held && held2[h] == held[h]
    ensures AllNoted(es, admin, refs, held2)
  {
  }

  /** Places in areas are unique. */
  lemma SamePlace(es: seq<Entry>, admin: nat, perArea: nat, j: int, k: int)
    requires perArea > 0 && PlacesOk(es, admin, perArea) && 0 <= j < |es| && 0 <= k < |es|
    requires es[j].base == es[k].base && es[j].position == es[k].position
    ensures j == k
  {
  }

  /** An address in an allocation's first chunk leads back to it. */
  lemma LeadsBack(es: seq<Entry>, admin: nat, perArea: nat, refs: map<Chunk, nat>, held: map<Chunk, Held>,
                  owner: map<Chunk, Chunk>, h: Chunk, address: nat)
    requires perArea > 0 && PlacesOk(es, admin, perArea) && Owned(es, held, owner) && AllNoted(es, admin, refs, held)
    requires h in held && held[h].address <= address < held[h].address + held[h].size
    ensures 0 <= h.0 < |es| && es[h.0].meta.size == held[h].size > 0 && held[h].n > 0 && h in refs
    ensures refs[h] == held[h].word
    ensures var e := es[h.0];
      && address / (perArea * LARGE) * (perArea * LARGE) == e.base
      && address % (perArea * LARGE) / LARGE == e.position
      && ChunkIndex(BaseOf(e.base, e.position, admin, e.meta.size), e.meta.size, address) == h.1
  {
    assert Noted(es, admin, refs, h, held[h]);
    Located(es[h.0], admin, perArea, h.1, address);
  }

  /** Of all chunks, exactly the n from h on became allocated. */
  ghost predicate IsTaken(es: seq<Entry>, es2: seq<Entry>, h: Chunk, n: nat) {
    && (forall i | h.1 <= i < h.1 + n :: !Allocated(es, h.0, i))
    && forall k, i :: Allocated(es2, k, i) <==> Allocated(es, k, i) || InRun(h, n, (k, i))
  }

  /** An allocation that is not mapped yet. */
  ghost function Taken(es: seq<Entry>, admin: nat, h: Chunk, n: nat): Held
    requires 0 <= h.0 < |es| && 0 <= h.1 && es[h.0].meta.size > 0
  {
    Held(n, es[h.0].meta.size, AddressOf(es[h.0], admin, h.1), 1)
  }

  function Ones(refs: map<Chunk, nat>, h: Chunk, n: nat): map<Chunk, nat> {
    refs + map j | h.1 <= j < h.1 + n :: (h.0, j) := 1
  }

  lemma NotedNew(es: seq<Entry>, es2: seq<Entry>, admin: nat, refs: map<Chunk, nat>, held: map<Chunk, Held>,
                 owner: map<Chunk, Chunk>, h: Chunk, n: nat)
    requires AllNoted(es, admin, refs, held) && Owned(es, held, owner) && Recut(es, es2, admin)
    requires IsTaken(es, es2, h, n)
    requires 0 <= h.0 < |es2| && 0 <= h.1 && n > 0 && es2[h.0].meta.size > 0
    ensures AllNoted(es2, admin, Ones(refs, h, n), held[h := Taken(es2, admin, h, n)])
  {
    var refs2 := Ones(refs, h, n);
    NoneInRun(es, held, owner, h, n);
    assert forall g | g in held && g in refs :: g in refs2 && refs2[g] == refs[g];
    NotedTake(es, es2, admin, refs, refs2, held);
    assert InRun(h, n, (h.0, h.1 + n - 1)) && Allocated(es2, h.0, h.1 + n - 1);
    assert h == (h.0, h.1) && h in refs2 && refs2[h] == 1;
    assert Noted(es2, admin, refs2, h, Taken(es2, admin, h, n));
  }

  /** Chunks that are not allocated start no allocation. */
  lemma NoneInRun(es: seq<Entry>, held: map<Chunk, Held>, owner: map<Chunk, Chunk>, h: Chunk, n: nat)
    requires Owned(es, held, owner) && forall i | h.1 <= i < h.1 + n :: !Allocated(es, h.0, i)
    ensures forall g | g in held :: !InRun(h, n, g)
  {
    forall g | g in held ensures !InRun(h, n, g) {
      assert InRun(g, held[g].n, g) && g == (g.0, g.1) && Allocated(es, g.0, g.1);
    }
  }

  // ---- runs ----

  /** What a user of the memory manager does; allocations it has are named by their chunk. */
  datatype Use =
    | Begin(size: nat, n: nat, spare: Option<nat>)     // allocating chunks, to be mapped
    | Name(h: Chunk, word: nat)                        // mapped: for an object cache, or raw
    | Drop(h: Chunk)                                   // freed, or given up while being mapped

  /** What somebody knows of allocations is right, and none of them is `keep`. */
  ghost predicate Known(held: map<Chunk, Held>, theirs: map<Chunk, Held>, keep: Chunk) {
    keep !in theirs && forall h | h in theirs :: h in held && held[h] == theirs[h] && Settled(theirs[h])
  }

  /**
    Everybody else, who may already have any of the other allocations: any
    sequence of allocations and frees leaves an allocation as it is.
  */
  method Others(m: MemoryManager, uses: seq<Use>, theirs: map<Chunk, Held>, ghost keep: Chunk)
      returns (left: map<Chunk, Held>)
    requires m.Valid() && keep in m.held && Known(m.held, theirs, keep)
    modifies m, m.chunks
    ensures m.Valid() && keep in m.held && m.held[keep] == old(m.held[keep]) && Known(m.held, left, keep)
  {
    left := theirs;
    for i := 0 to |uses|
      invariant m.Valid() && keep in m.held && m.held[keep] == old(m.held[keep]) && Known(m.held, left, keep)
    {
      left := UseOnce(m, uses[i], left, keep);
    }
  }

  /** What an allocation's first record may say. */
  predicate Settled(a: Held) {
    || a.word == 1
    || (a.word % 2 == 0 && a.n == 1)
    || (a.word % 2 == 1 && a.word == RawReference(a.address, a.n * a.size))
  }

  predicate Permitted(m: MemoryManager, use: Use, mine: map<Chunk, Held>)
    requires m.perArea > 0
    reads m, m.chunks
  {
    match use
    case Begin(size, n, spare) =>
      && (size == SMALL || size == MEDIUM || size == LARGE) && n > 0 && n * size <= LARGE
      && (spare.Some? ==> Aligned(spare.value, m.perArea))
      && (spare.Some? ==> forall k | 0 <= k < |m.chunks.entries| :: m.chunks.entries[k].base != spare.value)
    case Name(h, word) => h in mine && mine[h].word == 1 && Settled(mine[h].(word := word))
    case Drop(h) => h in mine
  }

  method UseOnce(m: MemoryManager, use: Use, mine: map<Chunk, Held>, ghost keep: Chunk)
    returns (mine2: map<Chunk, Held>)
    requires m.Valid() && keep in m.held && Known(m.held, mine, keep)
    modifies m, m.chunks
    ensures m.Valid() && keep in m.held && m.held[keep] == old(m.held[keep]) && Known(m.held, mine2, keep)
  {
    hide Owned, AllNoted, PlacesOk, AllOk, IsTaken, IsGiven;
    mine2 := mine;
    if Permitted(m, use, mine) {
      match use
      case Begin(size, n, spare) =>
        var found := m.AllocateChunks(size, n, spare);
        if found.Some? {
          var address := m.AddressAt(found.value);
          mine2 := mine[found.value := Held(n, size, address, 1)];
        }
      case Name(h, word) =>
        m.Refer(h, word);
        mine2 := mine[h := mine[h].(word := word)];
      case Drop(h) =>
        var a := mine[h];
        m.SizeAt(h);
        if a.word == 1 {
          m.GiveBack(h, a.n);
        } else if a.word % 2 == 0 {
          m.Free(a.address, h);
        } else {
          var r := m.FreeRawOrReturnCache(a.address, h);
        }
        mine2 := mine - {h};
    }
  }

  /**
    AllocateRaw, which is interrupted while the memory is mapped, and later
    FreeRawOrReturnCache: whatever others did in between, with allocations they
    had before or made since, the chunks that are given back are exactly those
    that were taken.
  */
  method RawRoundTrip(m: MemoryManager, pages: nat, spare: Option<nat>, theirs: map<Chunk, Held>,
                      mapping: seq<Use>, later: seq<Use>)
    returns (address: Option<nat>, r: Release, ghost h: Chunk, ghost mid: seq<Entry>)
    requires m.Valid() && 0 < pages <= LARGE
    requires Permitted(m, Begin(RawChunk(pages), RawCount(pages), spare), map[])
    requires forall g | g in theirs :: g in m.held && m.held[g] == theirs[g] && Settled(theirs[g])
    modifies m, m.chunks
    ensures m.Valid() && (spare.Some? ==> address.Some?)
    ensures address.Some? ==>
      && r == Freed && RawCount(pages) * RawChunk(pages) == pages
      && (forall i | h.1 <= i < h.1 + RawCount(pages) :: !Allocated(old(m.chunks.entries), h.0, i))
      && IsGiven(mid, m.chunks.entries, h, RawCount(pages))
      && (forall i | h.1 <= i < h.1 + RawCount(pages) :: Allocated(mid, h.0, i))
  {
    hide Owned, AllNoted, PlacesOk, AllOk, IsGiven, Allocated;
    RawChunks(pages);
    h, mid, address, r := (0, 0), [], None, Elsewhere;
    var found := m.AllocateChunks(RawChunk(pages), RawCount(pages), spare);
    if found.Some? {
      h := found.value;
      var at := m.AddressAt(found.value);
      RawSize(at, RawCount(pages), RawChunk(pages));
      var left := Others(m, mapping, theirs, h);
      m.Refer(found.value, RawReference(at, pages));
      left := Others(m, later, left, h);
      mid := m.chunks.entries;
      RunAllocated(mid, m.held, m.owner, h);
      m.SizeAt(h);
      r := m.FreeRawOrReturnCache(at, h);
      address := Some(at);
    }
  }
}
