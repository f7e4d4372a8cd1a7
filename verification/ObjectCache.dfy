/**
  An object cache (slab/mm_allocator.cpp): slabs of equal objects on three
  lists, named by how many of their objects are free.  Slabs and objects are
  known by their addresses.  Each method is what a thread does from taking the
  cache lock to dropping it; the lock is dropped in the middle of adding a slab
  and in the middle of giving one back, so others may come in between.
*/
module ObjectCache {
  import opened Options
  import opened Arithmetic
  import opened Sequences

  // ---- sequences without duplicates ----

  lemma DistinctConcat(s: seq<nat>, t: seq<nat>)
    requires Distinct(s) && Distinct(t) && forall x | x in s :: x !in t
    ensures Distinct(s + t)
  {
    forall i, j | 0 <= i < j < |s + t| ensures (s + t)[i] != (s + t)[j] {
      if i < |s| <= j { assert s[i] in s && t[j - |s|] in t; }
    }
  }

  ghost function Elements(s: seq<nat>): set<nat> { set x | x in s }

  lemma {:induction false} DistinctSize(s: seq<nat>)
    requires Distinct(s)
    ensures |Elements(s)| == |s|
  {
    if s != [] {
      var t := s[..|s| - 1];
      assert s == t + [s[|s| - 1]];
      DistinctSize(t);
      assert Elements(s) == Elements(t) + {s[|s| - 1]};
    }
  }

  lemma SubsetSize(a: set<nat>, b: set<nat>)
    requires a <= b
    ensures |a| <= |b|
  {
    assert b == a + (b - a);
  }

  // ---- layout of a slab ----

  /** `byteCount` is what the objects may occupy of the `slabSize` bytes of a chunk. */
  datatype Config = Config(objectSize: nat, alignment: nat, slabSize: nat, byteCount: nat)

  ghost predicate ConfigOk(c: Config) {
    && c.objectSize > 0 && c.alignment > 0 && c.objectSize % c.alignment == 0 && c.slabSize % c.alignment == 0
    && 2 * c.objectSize <= c.byteCount <= c.slabSize
  }

  function PerSlab(c: Config): nat
    requires c.objectSize > 0
  {
    c.byteCount / c.objectSize
  }

  function Spare(c: Config): int
    requires c.objectSize > 0
  {
    c.byteCount - PerSlab(c) * c.objectSize
  }

  lemma PerSlabIs(c: Config)
    requires ConfigOk(c)
    ensures PerSlab(c) >= 2 && 0 <= Spare(c) < c.objectSize
  {
    assert c.byteCount == PerSlab(c) * c.objectSize + c.byteCount % c.objectSize;
    Below(2, PerSlab(c) + 1, c.objectSize);
  }

  function ObjectAt(c: Config, pages: nat, offset: nat, i: nat): nat { pages + offset + i * c.objectSize }

  /** The check of a freed object: it starts at a whole number of objects, inside the slab. */
  predicate IsObject(c: Config, pages: nat, offset: nat, x: nat)
    requires c.objectSize > 0
  {
    pages + offset <= x < pages + offset + PerSlab(c) * c.objectSize && (x - pages - offset) % c.objectSize == 0
  }

  /** ObjectSlab: the chunk an address lies in. */
  function ChunkOf(c: Config, x: nat): nat
    requires c.slabSize > 0
  {
    x - x % c.slabSize
  }

  ghost predicate OffsetOk(c: Config, offset: nat)
    requires c.objectSize > 0 && c.alignment > 0
  {
    offset <= Spare(c) && offset % c.alignment == 0
  }

  lemma Scale(a: int, b: int, m: nat)
    requires a <= b
    ensures a * m <= b * m
  {
  }

  lemma Below(a: int, b: int, m: nat)
    requires a * m < b * m
    ensures a < b
  {
    if a >= b { Scale(b, a, m); }
  }

  lemma Times(k: nat, m: nat)
    requires m > 0
    ensures k * m % m == 0 && k * m / m == k
  {
    Quotient(k * m, m, k, 0);
  }

  lemma Multiple(a: nat, b: nat, m: nat)
    requires m > 0 && a % m == 0 && b % m == 0
    ensures (a + b) % m == 0
  {
    assert a == a / m * m && b == b / m * m;
    Times(a / m + b / m, m);
    assert a + b == (a / m + b / m) * m;
  }

  lemma MultipleOf(a: nat, b: nat, m: nat)
    requires m > 0 && b > 0 && a % b == 0 && b % m == 0
    ensures a % m == 0
  {
    var j, k := a / b, b / m;
    assert a == j * b && b == k * m;
    assert a == j * k * m;
    Times(j * k, m);
  }

  /** Every object has an index. */
  lemma ObjectIndex(c: Config, pages: nat, offset: nat, x: nat) returns (k: nat)
    requires c.objectSize > 0 && IsObject(c, pages, offset, x)
    ensures k < PerSlab(c) && x == ObjectAt(c, pages, offset, k)
  {
    k := (x - pages - offset) / c.objectSize;
    assert x - pages - offset == k * c.objectSize;
    Below(k, PerSlab(c), c.objectSize);
  }

  lemma ObjectAtIs(c: Config, pages: nat, offset: nat, i: nat)
    requires c.objectSize > 0 && i < PerSlab(c)
    ensures IsObject(c, pages, offset, ObjectAt(c, pages, offset, i))
    ensures ObjectAt(c, pages, offset, i) + c.objectSize <= pages + offset + PerSlab(c) * c.objectSize
  {
    hide PerSlab;
    Times(i, c.objectSize);
    Scale(i + 1, PerSlab(c), c.objectSize);
    assert (i + 1) * c.objectSize == i * c.objectSize + c.objectSize;
  }

  lemma InChunk(c: Config, pages: nat, x: nat)
    requires c.slabSize > 0 && pages % c.slabSize == 0 && pages <= x < pages + c.slabSize
    ensures ChunkOf(c, x) == pages
  {
    assert pages == pages / c.slabSize * c.slabSize;
    Quotient(x, c.slabSize, pages / c.slabSize, x - pages);
  }

  lemma AlignedAt(c: Config, pages: nat, offset: nat, k: nat)
    requires ConfigOk(c) && pages % c.slabSize == 0 && offset % c.alignment == 0
    ensures ObjectAt(c, pages, offset, k) % c.alignment == 0
  {
    MultipleOf(pages, c.slabSize, c.alignment);
    Times(k, c.objectSize);
    MultipleOf(k * c.objectSize, c.objectSize, c.alignment);
    Multiple(pages, offset, c.alignment);
    Multiple(pages + offset, k * c.objectSize, c.alignment);
  }

  /** Objects lie inside their chunk, before its header, aligned, and ObjectSlab finds their chunk. */
  lemma ObjectInside(c: Config, pages: nat, offset: nat, x: nat)
    requires ConfigOk(c) && pages % c.slabSize == 0 && OffsetOk(c, offset) && IsObject(c, pages, offset, x)
    ensures pages <= x && x + c.objectSize <= pages + c.byteCount
    ensures x % c.alignment == 0
    ensures ChunkOf(c, x) == pages
  {
    hide PerSlab, IsObject, ChunkOf;
    var k := ObjectIndex(c, pages, offset, x);
    ObjectAtIs(c, pages, offset, k);
    AlignedAt(c, pages, offset, k);
    InChunk(c, pages, x);
  }

  /** Different objects of a slab do not overlap. */
  lemma ObjectsApart(c: Config, pages: nat, offset: nat, x: nat, y: nat)
    requires c.objectSize > 0 && IsObject(c, pages, offset, x) && IsObject(c, pages, offset, y) && x < y
    ensures x + c.objectSize <= y
  {
    hide PerSlab, IsObject;
    var a := ObjectIndex(c, pages, offset, x);
    var b := ObjectIndex(c, pages, offset, y);
    Below(a, b, c.objectSize);
    Scale(a + 1, b, c.objectSize);
    assert (a + 1) * c.objectSize == a * c.objectSize + c.objectSize;
  }

  /** The first n objects of a slab. */
  ghost function Objects(c: Config, pages: nat, offset: nat, n: nat): set<nat> {
    if n == 0 then {} else Objects(c, pages, offset, n - 1) + {ObjectAt(c, pages, offset, n - 1)}
  }

  lemma {:induction false} ObjectsAre(c: Config, pages: nat, offset: nat, n: nat, x: nat)
    requires c.objectSize > 0
    ensures x in Objects(c, pages, offset, n) <==>
      pages + offset <= x < pages + offset + n * c.objectSize && (x - pages - offset) % c.objectSize == 0
  {
    if n > 0 {
      ObjectsAre(c, pages, offset, n - 1, x);
      Times(n - 1, c.objectSize);
      assert n * c.objectSize == (n - 1) * c.objectSize + c.objectSize;
      if pages + offset + (n - 1) * c.objectSize <= x < pages + offset + n * c.objectSize {
        Quotient(x - pages - offset, c.objectSize, n - 1, x - pages - offset - (n - 1) * c.objectSize);
      }
    }
  }

  lemma {:induction false} ObjectsSize(c: Config, pages: nat, offset: nat, n: nat)
    requires c.objectSize > 0
    ensures |Objects(c, pages, offset, n)| == n
  {
    if n > 0 {
      ObjectsSize(c, pages, offset, n - 1);
      ObjectsAre(c, pages, offset, n - 1, ObjectAt(c, pages, offset, n - 1));
    }
  }

  // ---- sizes ----

  const PAGE_SIZE: nat := 4096
  const CHUNK_SMALL: nat := PAGE_SIZE
  const CHUNK_MEDIUM: nat := 8 * PAGE_SIZE
  const CHUNK_LARGE: nat := 32 * PAGE_SIZE

  /** AcceptableChunkSize */
  function ChunkSize(size: nat): nat {
    if size <= CHUNK_SMALL then CHUNK_SMALL else if size <= CHUNK_MEDIUM then CHUNK_MEDIUM else CHUNK_LARGE
  }

  /** The object size Init keeps. */
  function RoundedSize(size: nat, alignment: nat): nat
    requires alignment > 0
  {
    if size % alignment != 0 then size + alignment - size % alignment else size
  }

  lemma RoundedSizeIs(size: nat, alignment: nat)
    requires alignment > 0
    ensures RoundedSize(size, alignment) % alignment == 0 && size <= RoundedSize(size, alignment) < size + alignment
  {
    if size % alignment != 0 {
      assert size == size / alignment * alignment + size % alignment;
      Times(size / alignment + 1, alignment);
      assert size + alignment - size % alignment == (size / alignment + 1) * alignment;
    }
  }

  /** A hashed cache gets slabs of two objects or more exactly if its objects fill at most half a large chunk. */
  lemma HashedHoldsTwo(objectSize: nat, large: bool)
    requires objectSize > 0
    ensures 2 * objectSize <= ChunkSize((if large then 128 else 8) * objectSize) <==> 2 * objectSize <= CHUNK_LARGE
  {
  }

  // ---- invariant ----

  /** Slab(size, count of free objects, colour offset, the free objects) */
  datatype Slab = Slab(size: nat, count: nat, offset: nat, free: seq<nat>)

  ghost predicate SlabOk(c: Config, pages: nat, s: Slab)
    requires c.objectSize > 0 && c.slabSize > 0 && c.alignment > 0
  {
    && pages % c.slabSize == 0
    && s.size == PerSlab(c) && s.count == |s.free| <= s.size
    && OffsetOk(c, s.offset)
    && Distinct(s.free) && (forall x | x in s.free :: IsObject(c, pages, s.offset, x))
  }

  ghost predicate SlabsOk(c: Config, slabs: map<nat, Slab>)
    requires c.objectSize > 0 && c.slabSize > 0 && c.alignment > 0
  {
    forall p | p in slabs :: SlabOk(c, p, slabs[p])
  }

  predicate IsEmpty(s: Slab) { s.count == s.size }

  predicate IsFull(s: Slab) { s.count == 0 }

  predicate IsPartial(s: Slab) { 0 < s.count < s.size }

  /** Every slab is on exactly the list its free count names. */
  ghost predicate Listed(slabs: map<nat, Slab>, empty: seq<nat>, partial: seq<nat>, full: seq<nat>) {
    && Distinct(empty) && Distinct(partial) && Distinct(full)
    && (forall p :: p in empty <==> p in slabs && IsEmpty(slabs[p]))
    && (forall p :: p in partial <==> p in slabs && IsPartial(slabs[p]))
    && (forall p :: p in full <==> p in slabs && IsFull(slabs[p]))
  }

  /** x is an object of its slab and not free. */
  predicate InUse(c: Config, slabs: map<nat, Slab>, x: nat)
    requires c.objectSize > 0 && c.slabSize > 0
  {
    var p := ChunkOf(c, x);
    p in slabs && IsObject(c, p, slabs[p].offset, x) && x !in slabs[p].free
  }

  ghost predicate UsedAre(c: Config, slabs: map<nat, Slab>, used: set<nat>)
    requires c.objectSize > 0 && c.slabSize > 0
  {
    forall x: nat :: x in used <==> InUse(c, slabs, x)
  }

  // ---- counting ----

  ghost function UsedIn(c: Config, slabs: map<nat, Slab>, list: seq<nat>): set<nat>
    requires forall p | p in list :: p in slabs
  {
    if list == [] then {}
    else
      var p := list[0];
      UsedIn(c, slabs, list[1..]) + (Objects(c, p, slabs[p].offset, slabs[p].size) - Elements(slabs[p].free))
  }

  /** used objects, summed over the slabs of a list */
  ghost function UsedSum(slabs: map<nat, Slab>, list: seq<nat>): int
    requires forall p | p in list :: p in slabs
  {
    if list == [] then 0 else UsedSum(slabs, list[1..]) + (slabs[list[0]].size - slabs[list[0]].count)
  }

  lemma SlabObjects(c: Config, pages: nat, s: Slab, x: nat)
    requires ConfigOk(c) && SlabOk(c, pages, s)
    ensures x in Objects(c, pages, s.offset, s.size) <==> IsObject(c, pages, s.offset, x)
    ensures x in Objects(c, pages, s.offset, s.size) ==> ChunkOf(c, x) == pages
  {
    ObjectsAre(c, pages, s.offset, s.size, x);
    if IsObject(c, pages, s.offset, x) { ObjectInside(c, pages, s.offset, x); }
  }

  /** The used objects of one slab. */
  lemma SlabUsed(c: Config, pages: nat, s: Slab)
    requires ConfigOk(c) && SlabOk(c, pages, s)
    ensures |Objects(c, pages, s.offset, s.size) - Elements(s.free)| == s.size - s.count
  {
    var all := Objects(c, pages, s.offset, s.size);
    ObjectsSize(c, pages, s.offset, s.size);
    DistinctSize(s.free);
    forall x | x in s.free ensures x in all { SlabObjects(c, pages, s, x); }
    assert Elements(s.free) <= all;
    assert all == (all - Elements(s.free)) + Elements(s.free);
  }

  lemma {:induction false} UsedInIs(c: Config, slabs: map<nat, Slab>, list: seq<nat>, x: nat)
    requires ConfigOk(c) && SlabsOk(c, slabs) && (forall p | p in list :: p in slabs)
    ensures x in UsedIn(c, slabs, list) <==> ChunkOf(c, x) in list && InUse(c, slabs, x)
  {
    if list != [] {
      var p := list[0];
      assert SlabOk(c, p, slabs[p]);
      UsedInIs(c, slabs, list[1..], x);
      SlabObjects(c, p, slabs[p], x);
    }
  }

  lemma {:induction false} UsedInSize(c: Config, slabs: map<nat, Slab>, list: seq<nat>)
    requires ConfigOk(c) && SlabsOk(c, slabs) && (forall p | p in list :: p in slabs) && Distinct(list)
    ensures |UsedIn(c, slabs, list)| == UsedSum(slabs, list)
  {
    if list != [] {
      var p := list[0];
      assert SlabOk(c, p, slabs[p]);
      var rest, here := UsedIn(c, slabs, list[1..]),
        Objects(c, p, slabs[p].offset, slabs[p].size) - Elements(slabs[p].free);
      UsedInSize(c, slabs, list[1..]);
      SlabUsed(c, p, slabs[p]);
      forall x | x in rest ensures x !in here {
        UsedInIs(c, slabs, list[1..], x);
        SlabObjects(c, p, slabs[p], x);
      }
      assert rest !! here;
    }
  }

  /** The used objects are as many as the slabs of the three lists say. */
  lemma UsedSize(c: Config, slabs: map<nat, Slab>, empty: seq<nat>, partial: seq<nat>, full: seq<nat>, used: set<nat>)
    requires ConfigOk(c) && SlabsOk(c, slabs) && Listed(slabs, empty, partial, full) && UsedAre(c, slabs, used)
    ensures |used| == UsedSum(slabs, empty + partial + full)
  {
    var list := empty + partial + full;
    PerSlabIs(c);
    forall p | p in slabs ensures p in list { assert SlabOk(c, p, slabs[p]); }
    DistinctJoin(slabs, empty, partial, full);
    UsedInSize(c, slabs, list);
    forall x ensures x in UsedIn(c, slabs, list) <==> x in used { UsedInIs(c, slabs, list, x); }
    assert UsedIn(c, slabs, list) == used;
  }

  lemma DistinctJoin(slabs: map<nat, Slab>, empty: seq<nat>, partial: seq<nat>, full: seq<nat>)
    requires Listed(slabs, empty, partial, full) && (forall p | p in slabs :: slabs[p].size > 0)
    ensures Distinct(empty + partial + full)
  {
    DistinctConcat(empty, partial);
    assert forall p | p in empty + partial :: p !in full;
    DistinctConcat(empty + partial, full);
  }

  ghost function FreeSum(slabs: map<nat, Slab>, list: seq<nat>): int
    requires forall p | p in list :: p in slabs
  {
    if list == [] then 0 else FreeSum(slabs, list[1..]) + slabs[list[0]].count
  }

  /** Used and free objects of a list are all its objects; none is free if all its slabs are full. */
  lemma {:induction false} SumsAdd(slabs: map<nat, Slab>, list: seq<nat>, size: nat)
    requires forall p | p in list :: p in slabs && slabs[p].size == size
    ensures UsedSum(slabs, list) + FreeSum(slabs, list) == size * |list| && FreeSum(slabs, list) >= 0
    ensures (forall p | p in list :: IsFull(slabs[p])) ==> FreeSum(slabs, list) == 0
  {
    if list != [] {
      SumsAdd(slabs, list[1..], size);
      Successor(size, |list| - 1);
    }
  }

  lemma Successor(m: nat, k: nat)
    ensures m * (k + 1) == m * k + m
  {
  }

  // ---- one slab changes ----

  /** The first free object of a slab is handed out. */
  function Taken(s: Slab): Slab
    requires s.free != [] && s.count > 0
  {
    s.(count := s.count - 1, free := s.free[1..])
  }

  function Given(s: Slab, x: nat): Slab { s.(count := s.count + 1, free := [x] + s.free) }

  lemma TakenOk(c: Config, slabs: map<nat, Slab>, used: set<nat>, p: nat)
    requires ConfigOk(c) && SlabsOk(c, slabs) && UsedAre(c, slabs, used) && p in slabs && slabs[p].count > 0
    ensures var x := slabs[p].free[0]; var after := slabs[p := Taken(slabs[p])];
      x !in used && SlabsOk(c, after) && UsedAre(c, after, used + {x}) && ChunkOf(c, x) == p && x % c.alignment == 0
  {
    hide IsObject, ChunkOf;
    assert SlabOk(c, p, slabs[p]);
    var s := slabs[p];
    var x, after := s.free[0], slabs[p := Taken(s)];
    assert s.free == [x] + Taken(s).free;
    ObjectInside(c, p, s.offset, x);
    forall y: nat ensures y in used + {x} <==> InUse(c, after, y) {
      assert y in used <==> InUse(c, slabs, y);
      if ChunkOf(c, y) == p { assert after[p].offset == s.offset; }
    }
    forall q | q in after ensures SlabOk(c, q, after[q]) {
      if q != p { assert SlabOk(c, q, slabs[q]); }
    }
  }

  lemma GivenOk(c: Config, slabs: map<nat, Slab>, used: set<nat>, x: nat)
    requires ConfigOk(c) && SlabsOk(c, slabs) && UsedAre(c, slabs, used) && x in used
    ensures var p := ChunkOf(c, x);
      && p in slabs && slabs[p].count < slabs[p].size
      && var after := slabs[p := Given(slabs[p], x)]; SlabsOk(c, after) && UsedAre(c, after, used - {x})
  {
    hide IsObject, ChunkOf;
    assert InUse(c, slabs, x);
    var p := ChunkOf(c, x);
    var s := slabs[p];
    assert SlabOk(c, p, s);
    var after := slabs[p := Given(s, x)];
    DistinctCons(x, s.free);
    FreeBound(c, p, s.offset, [x] + s.free);
    forall y: nat ensures y in used - {x} <==> InUse(c, after, y) {
      assert y in used <==> InUse(c, slabs, y);
      if ChunkOf(c, y) == p { assert after[p].offset == s.offset; }
    }
    forall q | q in after ensures SlabOk(c, q, after[q]) {
      if q != p { assert SlabOk(c, q, slabs[q]); }
    }
  }

  /** Different objects of a slab are at most PerSlab. */
  lemma FreeBound(c: Config, pages: nat, offset: nat, free: seq<nat>)
    requires c.objectSize > 0 && Distinct(free) && forall x | x in free :: IsObject(c, pages, offset, x)
    ensures |free| <= PerSlab(c)
    ensures |free| == PerSlab(c) ==> forall x | IsObject(c, pages, offset, x) :: x in free
  {
    var all := Objects(c, pages, offset, PerSlab(c));
    ObjectsSize(c, pages, offset, PerSlab(c));
    DistinctSize(free);
    forall x | x in free ensures x in all { ObjectsAre(c, pages, offset, PerSlab(c), x); }
    assert Elements(free) <= all;
    SubsetSize(Elements(free), all);
    if |free| == PerSlab(c) {
      assert all == Elements(free) + (all - Elements(free));
      assert |all - Elements(free)| == 0;
      forall x | IsObject(c, pages, offset, x) ensures x in free {
        ObjectsAre(c, pages, offset, PerSlab(c), x);
        assert x in Elements(free);
      }
    }
  }

  /** No object of an empty slab is in use, so slabs may come and go while they are empty. */
  lemma EmptyUnused(c: Config, slabs: map<nat, Slab>, p: nat, s: Slab, used: set<nat>)
    requires ConfigOk(c) && SlabsOk(c, slabs) && p !in slabs && SlabOk(c, p, s) && IsEmpty(s)
    ensures SlabsOk(c, slabs[p := s])
    ensures UsedAre(c, slabs, used) <==> UsedAre(c, slabs[p := s], used)
  {
    hide IsObject, ChunkOf;
    var after := slabs[p := s];
    FreeBound(c, p, s.offset, s.free);
    forall y: nat ensures InUse(c, slabs, y) <==> InUse(c, after, y) {}
    forall q | q in after ensures SlabOk(c, q, after[q]) {
      if q != p { assert SlabOk(c, q, slabs[q]); }
    }
    if UsedAre(c, slabs, used) {
      forall y: nat ensures y in used <==> InUse(c, after, y) { assert y in used <==> InUse(c, slabs, y); }
    }
    if UsedAre(c, after, used) {
      forall y: nat ensures y in used <==> InUse(c, slabs, y) { assert y in used <==> InUse(c, after, y); }
    }
  }

  // ---- one slab changes lists ----

  lemma Relisted(slabs: map<nat, Slab>, e: seq<nat>, pa: seq<nat>, f: seq<nat>,
                 p: nat, s: Slab, e2: seq<nat>, pa2: seq<nat>, f2: seq<nat>)
    requires Listed(slabs, e, pa, f)
    requires SameBut(e, e2, p) && SameBut(pa, pa2, p) && SameBut(f, f2, p)
    requires Distinct(e2) && Distinct(pa2) && Distinct(f2)
    requires (p in e2 <==> IsEmpty(s)) && (p in pa2 <==> IsPartial(s)) && (p in f2 <==> IsFull(s))
    ensures Listed(slabs[p := s], e2, pa2, f2)
  {
  }

  lemma Appended(s: seq<nat>, q: nat)
    requires Distinct(s) && q !in s
    ensures Distinct(s + [q]) && SameBut(s, s + [q], q) && q in s + [q]
  {
    DistinctConcat(s, [q]);
  }

  lemma Headless(s: seq<nat>)
    requires Distinct(s) && s != []
    ensures Distinct(s[1..]) && SameBut(s, s[1..], s[0]) && s[0] !in s[1..]
  {
    assert s == [s[0]] + s[1..];
  }

  /** The moves of ReturnObjectToSlab when the free count of slab p has become `count`. */
  function MovedOnReturn(e: seq<nat>, pa: seq<nat>, f: seq<nat>, p: nat, count: nat, size: nat): (seq<nat>, seq<nat>,
                         seq<nat>) {
    if count == size then (e + [p], Without(pa, p), f)
    else if count == 1 then (e, pa + [p], Without(f, p))
    else (e, pa, f)
  }

  /** They leave the slab on the list its new count names, and on no other, exactly if it has two objects or more. */
  lemma ReturnMoves(slabs: map<nat, Slab>, e: seq<nat>, pa: seq<nat>, f: seq<nat>, p: nat, s: Slab)
    requires Listed(slabs, e, pa, f) && p in slabs
    requires s.size == slabs[p].size && s.count == slabs[p].count + 1 <= s.size
    ensures var (e2, pa2, f2) := MovedOnReturn(e, pa, f, p, s.count, s.size);
      Listed(slabs[p := s], e2, pa2, f2) <==> s.size >= 2
  {
    var (e2, pa2, f2) := MovedOnReturn(e, pa, f, p, s.count, s.size);
    if s.size >= 2 {
      WithoutIs(pa, p);
      WithoutIs(f, p);
      if p !in e { Appended(e, p); }
      if p !in pa { Appended(pa, p); }
      Relisted(slabs, e, pa, f, p, s, e2, pa2, f2);
    } else {
      assert p in f && p in f2;
    }
  }

  // ---- the cache ----

  /** A chunk from the memory manager; `constructed` objects in it can be constructed. */
  datatype Chunk = Chunk(pages: nat, constructed: nat)

  /** How a step of adding slabs ends, or what it waits for. */
  datatype Step =
    | Enough           // as many objects are free as asked for
    | MustWait         // another thread is adding slabs
    | WouldBlock       // this thread is already adding slabs
    | OutOfQuota
    | NoMemory
    | Making           // the lock is dropped to get memory for a slab

  /** The objects of a slab from the last to the first: the order in which they are free. */
  ghost predicate Constructed(c: Config, pages: nat, offset: nat, n: nat, free: seq<nat>) {
    |free| == n && forall k | 0 <= k < n :: free[k] == ObjectAt(c, pages, offset, n - 1 - k)
  }

  lemma ConstructedOk(c: Config, pages: nat, offset: nat, free: seq<nat>)
    requires ConfigOk(c) && pages % c.slabSize == 0 && OffsetOk(c, offset)
    requires Constructed(c, pages, offset, PerSlab(c), free)
    ensures SlabOk(c, pages, Slab(PerSlab(c), PerSlab(c), offset, free))
  {
    hide PerSlab, IsObject;
    var n := PerSlab(c);
    forall k | 0 <= k < n ensures IsObject(c, pages, offset, free[k]) { ObjectAtIs(c, pages, offset, n - 1 - k); }
    forall i, j | 0 <= i < j < n ensures free[i] != free[j] {
      Scale(n - 1 - j + 1, n - 1 - i, c.objectSize);
      Successor(c.objectSize, n - 1 - j);
    }
  }

  /** The objects and the bytes of n slabs. */
  ghost predicate Sized(c: Config, n: int, objects: int, bytes: int)
    requires c.objectSize > 0
  {
    objects == PerSlab(c) * n && bytes == c.slabSize * n
  }

  lemma SizedMore(c: Config, n: nat, objects: int, bytes: int)
    requires c.objectSize > 0
    ensures Sized(c, n, objects, bytes) <==> Sized(c, n + 1, objects + PerSlab(c), bytes + c.slabSize)
  {
    Successor(PerSlab(c), n);
    Successor(c.slabSize, n);
  }

  class Cache {
    const c: Config
    const maximum: nat
    var colour: nat
    var slabs: map<nat, Slab>
    var empty: seq<nat>
    var partial: seq<nat>
    var full: seq<nat>
    var totalObjects: int
    var usedCount: int
    var emptyCount: int
    var usage: int
    var pressure: nat
    var minReserve: nat
    var canWait: bool         // a thread that may wait for memory is making a slab (resize_entry_can_wait)
    var dontWait: bool        // and one that may not (resize_entry_dont_wait)
    var trimming: bool        // a slab is off the empty list, but still counted
    ghost var used: set<nat>  // the objects handed out

    ghost predicate Shape()
      reads `colour, `slabs, `empty, `partial, `full, `used
    {
      && ConfigOk(c) && OffsetOk(c, colour) && SlabsOk(c, slabs)
      && Listed(slabs, empty, partial, full) && UsedAre(c, slabs, used)
    }

    ghost predicate Counted()
      reads `empty, `partial, `full, `used, `totalObjects, `usedCount, `emptyCount, `usage, `trimming
    {
      && c.objectSize > 0 && Sized(c, |empty| + |partial| + |full|, totalObjects, usage)
      && emptyCount == |empty| + (if trimming then 1 else 0) && usedCount == |used|
    }

    /** Slabs being made. */
    function Creating(): nat
      reads `canWait, `dontWait
    {
      (if canWait then 1 else 0) + if dontWait then 1 else 0
    }

    /** What is used and what was promised to threads making slabs is over the quota by a slab at most. */
    ghost predicate NearQuota()
      reads `usage, `canWait, `dontWait
    {
      maximum != 0 ==> usage + c.slabSize * Creating() <= maximum + c.slabSize
    }

    ghost predicate Valid()
      reads this
    {
      Shape() && Counted() && NearQuota()
    }

    /** Unless a slab is being given back, the count of empty slabs is exact. */
    lemma EmptyIsCounted()
      requires Valid()
      ensures !trimming ==> emptyCount == |empty|
    {
    }

    /** ObjectCache::Init: no slabs yet. */
    constructor (c: Config, maximum: nat, minReserve: nat)
      requires ConfigOk(c)
      ensures Valid() && this.c == c && this.maximum == maximum && this.minReserve == minReserve
      ensures used == {} && slabs == map[] && totalObjects == usedCount == usage == 0
      ensures !canWait && !dontWait && !trimming
    {
      this.c, this.maximum, this.minReserve := c, maximum, minReserve;
      colour, pressure := 0, 0;
      slabs, empty, partial, full, used := map[], [], [], [], {};
      totalObjects, usedCount, emptyCount, usage := 0, 0, 0, 0;
      canWait, dontWait, trimming := false, false, false;
      PerSlabIs(c);
    }

    /** The counters are the sums over the slabs. */
    lemma Totals()
      requires Valid()
      ensures var list := empty + partial + full;
        && (forall p :: p in list <==> p in slabs) && Distinct(list)
        && usedCount == UsedSum(slabs, list) && totalObjects - usedCount == FreeSum(slabs, list) >= 0
        && totalObjects == PerSlab(c) * |list|
      ensures empty == partial == [] ==> usedCount == totalObjects
      ensures ConfigOk(c)
    {
      var list := empty + partial + full;
      PerSlabIs(c);
      forall p | p in slabs ensures p in list { assert SlabOk(c, p, slabs[p]); }
      forall p | p in list ensures p in slabs && slabs[p].size == PerSlab(c) { assert SlabOk(c, p, slabs[p]); }
      DistinctJoin(slabs, empty, partial, full);
      UsedSize(c, slabs, empty, partial, full, used);
      SumsAdd(slabs, list, PerSlab(c));
    }

    /** Some object is free unless only full slabs are left. */
    lemma Room()
      requires Valid()
      ensures usedCount <= totalObjects && (empty == partial == [] ==> usedCount == totalObjects)
    {
      Totals();
    }

    /**
      InitSlab: all objects are free, at the current colour; if a constructor fails, exactly the
      objects constructed are destroyed.
    */
    method InitSlab(pages: nat, constructed: nat) returns (slab: Option<Slab>, destroyed: seq<nat>)
      requires Valid() && pages % c.slabSize == 0
      modifies `colour
      ensures Valid()
      ensures slab.Some? <==> constructed >= PerSlab(c)
      ensures slab.Some? ==>
        SlabOk(c, pages, slab.value) && IsEmpty(slab.value) && slab.value.offset == old(colour) && destroyed == []
      ensures slab.None? ==> |destroyed| == constructed && forall i | 0 <= i < constructed ::
        destroyed[i] == ObjectAt(c, pages, old(colour), i)
    {
      hide PerSlab, SlabsOk, Listed, UsedAre, IsObject;
      var size := PerSlab(c);
      PerSlabIs(c);
      var offset := colour;
      var free: seq<nat> := [];
      NextColour();
      var data := pages + offset;
      destroyed := [];
      for i := 0 to size
        invariant data == ObjectAt(c, pages, offset, i) && Constructed(c, pages, offset, i, free) && i <= constructed
        invariant Valid()
      {
        if i == constructed {
          data := pages + offset;
          for j := 0 to i
            invariant data == ObjectAt(c, pages, offset, j) && |destroyed| == j
            invariant forall k | 0 <= k < j :: destroyed[k] == ObjectAt(c, pages, offset, k)
            invariant Valid()
          {
            destroyed := destroyed + [data];
            Successor(c.objectSize, j);
            data := data + c.objectSize;
          }
          return None, destroyed;
        }
        free := [data] + free;
        Successor(c.objectSize, i);
        data := data + c.objectSize;
      }
      ConstructedOk(c, pages, offset, free);
      return Some(Slab(size, size, offset, free)), [];
    }

    /** Colours go up by one alignment and start again when the spare bytes are used up. */
    method NextColour()
      requires Valid()
      modifies `colour
      ensures Valid()
      ensures colour == if old(colour) + c.alignment <= Spare(c) then old(colour) + c.alignment else 0
    {
      Multiple(colour, c.alignment, c.alignment);
      PerSlabIs(c);
      colour := colour + c.alignment;
      if colour > c.byteCount - PerSlab(c) * c.objectSize {
        colour := 0;
      }
    }

    method AddSlab(pages: nat, slab: Slab)
      requires Shape() && Counted() && pages !in slabs && SlabOk(c, pages, slab) && IsEmpty(slab)
      requires maximum != 0 ==> usage + c.slabSize * (Creating() + 1) <= maximum + c.slabSize
      modifies `usage, `totalObjects, `slabs, `empty, `emptyCount
      ensures Valid() && slabs == old(slabs)[pages := slab] && empty == old(empty) + [pages]
      ensures totalObjects == old(totalObjects) + PerSlab(c) && usage == old(usage) + c.slabSize
    {
      hide Sized, PerSlab, IsObject, InUse;
      Successor(c.slabSize, Creating());
      EmptyUnused(c, slabs, pages, slab, used);
      PerSlabIs(c);
      Appended(empty, pages);
      Relisted(slabs, empty, partial, full, pages, slab, empty + [pages], partial, full);
      SizedMore(c, |empty| + |partial| + |full|, totalObjects, usage);
      usage := usage + c.slabSize;
      totalObjects := totalObjects + slab.size;
      slabs := slabs[pages := slab];
      empty := empty + [pages];
      emptyCount := emptyCount + 1;
    }

    /** check_cache_quota. */
    predicate InQuota()
      reads this
    {
      maximum == 0 || usage + c.slabSize <= maximum
    }

    /** The first part of CreateSlab: the quota is checked, and the lock dropped. */
    method StartSlab(noWait: bool) returns (r: Step)
      requires Valid() && if noWait then !dontWait else !canWait
      modifies `canWait, `dontWait
      ensures Valid() && (r == Making || r == OutOfQuota) && (r == Making <==> InQuota())
      ensures canWait == (old(canWait) || (r == Making && !noWait))
      ensures dontWait == (old(dontWait) || (r == Making && noWait))
      ensures Creating() == old(Creating()) + if r == Making then 1 else 0
    {
      hide Cache.Shape, Cache.Counted;
      if !InQuota() { return OutOfQuota; }
      Successor(c.slabSize, Creating());
      if noWait {
        dontWait := true;
      } else {
        canWait := true;
      }
      return Making;
    }

    /**
      object_cache_reserve_internal up to the first drop of the lock.  `mine`:
      the entry found is the calling thread's.
    */
    method ReserveStart(objectCount: nat, noWait: bool, mine: bool) returns (r: Step)
      requires Valid()
      modifies `canWait, `dontWait
      ensures Valid()
      ensures r == (if objectCount <= totalObjects - usedCount then Enough
                    else if old(dontWait) || (old(canWait) && (mine || !noWait)) then if mine then WouldBlock
                      else MustWait
                    else if InQuota() then Making else OutOfQuota)
      ensures r == Making ==> Creating() == old(Creating()) + 1 && (if noWait then dontWait else canWait)
      ensures r != Making ==> canWait == old(canWait) && dontWait == old(dontWait)
    {
      if objectCount <= totalObjects - usedCount { return Enough; }
      if dontWait {
        return if mine then WouldBlock else MustWait;
      }
      if canWait {
        if mine { return WouldBlock; }
        if !noWait { return MustWait; }
      }
      r := StartSlab(noWait);
    }

    /**
      From taking the lock again in CreateSlab: the slab is added, and another
      one begun if there are still too few objects.
    */
    method ReserveMore(objectCount: nat, noWait: bool, chunk: Option<Chunk>) returns (r: Step)
      requires Valid() && (if noWait then dontWait else canWait)
      requires chunk.Some? ==> chunk.value.pages % c.slabSize == 0 && chunk.value.pages !in slabs
      modifies `canWait, `dontWait, `colour, `usage, `totalObjects, `slabs, `empty, `emptyCount
      ensures Valid() && (r == Enough || r == NoMemory || r == OutOfQuota || r == Making)
      ensures r == NoMemory <==> chunk.None? || chunk.value.constructed < PerSlab(c)
      ensures r == NoMemory ==> slabs == old(slabs) && usage == old(usage) && totalObjects == old(totalObjects)
      ensures r != NoMemory ==> usage == old(usage) + c.slabSize && totalObjects == old(totalObjects) + PerSlab(c)
      ensures r != NoMemory ==> slabs.Keys == old(slabs).Keys + {chunk.value.pages}
      ensures r == Enough ==> objectCount <= totalObjects - usedCount
      ensures r == OutOfQuota ==> !InQuota() && objectCount > totalObjects - usedCount
      ensures r == Making ==> InQuota() && objectCount > totalObjects - usedCount
      ensures Creating() == old(Creating()) - if r == Making then 0 else 1
      ensures if noWait then canWait == old(canWait) else dontWait == old(dontWait)
    {
      hide PerSlab, SlabOk, Listed, UsedAre, SlabsOk, Cache.Counted, Cache.Shape;
      ConfigIs();
      Successor(c.slabSize, Creating() - 1);
      if noWait {
        dontWait := false;
      } else {
        canWait := false;
      }
      if chunk.None? { return NoMemory; }
      var slab, destroyed := InitSlab(chunk.value.pages, chunk.value.constructed);
      if slab.None? { return NoMemory; }
      AddSlab(chunk.value.pages, slab.value);
      if objectCount <= totalObjects - usedCount { return Enough; }
      r := StartSlab(noWait);
    }

    lemma UsedIs(x: nat)
      requires Valid()
      ensures c.objectSize > 0 && c.slabSize > 0 && (InUse(c, slabs, x) <==> x in used)
    {
    }

    lemma ConfigIs()
      requires Shape()
      ensures ConfigOk(c)
    {
    }

    /**
      What object_cache_alloc does once: the head of the partial slabs, else of the empty ones,
      gives its first free object.
    */
    method Take() returns (item: Option<nat>)
      requires Valid()
      modifies `slabs, `empty, `partial, `full, `usedCount, `emptyCount, `used
      ensures Valid()
      ensures item.None? <==> old(partial) == old(empty) == []
      ensures item.None? ==> used == old(used) && slabs == old(slabs) && partial == empty == []
      ensures item.Some? ==>
        item.value !in old(used) && used == old(used) + {item.value} && item.value % c.alignment == 0
      ensures usedCount == old(usedCount) + if item.Some? then 1 else 0
      ensures item.Some? ==> slabs.Keys == old(slabs.Keys) && ChunkOf(c, item.value) in slabs
    {
      if partial == [] && empty == [] { return None; }
      if partial != [] {
        assert partial[0] in partial;
        item := TakeFrom(partial[0]);
      } else {
        assert empty[0] in empty;
        item := TakeEmpty();
      }
    }

    /** From a partial slab, which may become full. */
    method TakeFrom(source: nat) returns (item: Option<nat>)
      requires Valid() && source in partial
      modifies `slabs, `empty, `partial, `full, `usedCount, `emptyCount, `used
      ensures Valid()
      ensures item.Some? && item.value !in old(used) && used == old(used) + {item.value}
      ensures item.value % c.alignment == 0
      ensures usedCount == old(usedCount) + 1
      ensures slabs.Keys == old(slabs.Keys) && ChunkOf(c, item.value) in slabs
    {
      hide Sized, PerSlab, IsObject, InUse, ChunkOf, SlabsOk, UsedAre, Listed, Distinct, SameBut;
      OnLists(slabs, empty, partial, full, source);
      var slab := slabs[source];
      FromSlabs(c, slabs, source);
      TakenOk(c, slabs, used, source);
      var x := slab.free[0];
      slab := Taken(slab);
      usedCount := usedCount + 1;
      used := used + {x};
      var partial2, full2 := partial, full;
      if slab.count == 0 {
        WithoutIs(partial, source);
        Appended(full, source);
        partial2, full2 := Without(partial, source), full + [source];
      }
      Relisted(slabs, empty, partial, full, source, slab, empty, partial2, full2);
      slabs, partial, full := slabs[source := slab], partial2, full2;
      item := Some(x);
    }

    /** The first empty slab becomes partial. */
    method TakeEmpty() returns (item: Option<nat>)
      requires Valid() && empty != []
      modifies `slabs, `empty, `partial, `full, `usedCount, `emptyCount, `used
      ensures Valid()
      ensures item.Some? && item.value !in old(used) && used == old(used) + {item.value}
      ensures item.value % c.alignment == 0
      ensures usedCount == old(usedCount) + 1
      ensures slabs.Keys == old(slabs.Keys) && ChunkOf(c, item.value) in slabs
    {
      hide Sized, PerSlab, IsObject, InUse, ChunkOf, SlabsOk, UsedAre, Listed, Distinct, SameBut;
      var source := empty[0];
      assert source in empty;
      OnLists(slabs, empty, partial, full, source);
      var slab := slabs[source];
      PerSlabIs(c);
      FromSlabs(c, slabs, source);
      Headless(empty);
      Appended(partial, source);
      TakenOk(c, slabs, used, source);
      var x := slab.free[0];
      slab := Taken(slab);
      Relisted(slabs, empty, partial, full, source, slab, empty[1..], partial + [source], full);
      slabs, empty, partial := slabs[source := slab], empty[1..], partial + [source];
      emptyCount := emptyCount - 1;
      usedCount := usedCount + 1;
      used := used + {x};
      item := Some(x);
    }

    method RaisePressure()
      requires Valid()
      modifies `pressure
      ensures Valid() && pressure == old(pressure) + 1
    {
      pressure := pressure + 1;
    }

    /**
      object_cache_alloc up to the first drop of the lock: an object that was
      not in use.  There is none only if all objects are used.
    */
    method AllocateStart(noWait: bool, mine: bool) returns (item: Option<nat>, r: Step)
      requires Valid()
      modifies `slabs, `empty, `partial, `full, `usedCount, `emptyCount, `used, `canWait, `dontWait
      ensures Valid() && IsHanded(item, old(used), used) && (item.Some? ==> item.value % c.alignment == 0)
      ensures item.Some? <==> old(usedCount < totalObjects)
      ensures item.None? ==> usedCount == totalObjects && r != Enough && r != NoMemory
      ensures r == Making ==> InQuota() && Creating() == old(Creating()) + 1 && (if noWait then dontWait else canWait)
      ensures r != Making ==> canWait == old(canWait) && dontWait == old(dontWait)
      ensures usedCount == old(usedCount) + if item.Some? then 1 else 0
      ensures slabs.Keys == old(slabs).Keys
      ensures item.Some? ==> r == Enough
      ensures item.None? ==>
        r == if old(dontWait) || (old(canWait) && (mine || !noWait)) then if mine then WouldBlock else MustWait
             else if InQuota() then Making else OutOfQuota
    {
      hide PerSlab, SlabOk, Listed, UsedAre, SlabsOk, Cache.Counted, Cache.Shape, UsedSum, FreeSum;
      r := Enough;
      Room();
      item := Take();
      Room();
      if item.None? {
        r := ReserveStart(1, noWait, mine);
      }
    }

    /** After waiting for another thread: reserving starts over. */
    method AllocateAgain(noWait: bool, mine: bool) returns (item: Option<nat>, r: Step)
      requires Valid()
      modifies `slabs, `empty, `partial, `full, `usedCount, `emptyCount, `used, `canWait, `dontWait, `pressure
      ensures Valid() && IsHanded(item, old(used), used) && (item.Some? ==> item.value % c.alignment == 0)
      ensures item.Some? <==> old(usedCount < totalObjects)
      ensures item.None? ==> usedCount == totalObjects && r != Enough && r != NoMemory
      ensures r == Making ==> InQuota() && Creating() == old(Creating()) + 1 && (if noWait then dontWait else canWait)
      ensures r != Making ==> canWait == old(canWait) && dontWait == old(dontWait)
      ensures usedCount == old(usedCount) + if item.Some? then 1 else 0
      ensures item.Some? ==> r == Enough
      ensures item.None? ==>
        r == if old(dontWait) || (old(canWait) && (mine || !noWait)) then if mine then WouldBlock else MustWait
             else if InQuota() then Making else OutOfQuota
    {
      hide PerSlab, SlabOk, Listed, UsedAre, SlabsOk, Cache.Counted, Cache.Shape, UsedSum, FreeSum;
      item := None;
      Room();
      r := ReserveStart(1, noWait, mine);
      if r == Enough {
        RaisePressure();
        Room();
        item := Take();
      }
    }

    /**
      With the memory for the slab, or without it.  It fails only then, and an
      object may well be free: all are used exactly if all were when the lock
      was taken again.
    */
    method AllocateMore(noWait: bool, chunk: Option<Chunk>) returns (item: Option<nat>, r: Step)
      requires Valid() && (if noWait then dontWait else canWait)
      requires chunk.Some? ==> chunk.value.pages % c.slabSize == 0 && chunk.value.pages !in slabs
      modifies `slabs, `empty, `partial, `full, `usedCount, `emptyCount, `used, `canWait, `dontWait, `pressure,
               `colour, `usage, `totalObjects
      ensures Valid() && IsHanded(item, old(used), used) && (item.Some? ==> item.value % c.alignment == 0)
      ensures item.None? <==> chunk.None? || chunk.value.constructed < PerSlab(c)
      ensures item.None? ==> r == NoMemory && (usedCount == totalObjects <==> old(usedCount == totalObjects))
      ensures item.Some? ==> r == Enough
      ensures usage == old(usage) + (if item.Some? then c.slabSize else 0) && Creating() == old(Creating()) - 1
      ensures totalObjects == old(totalObjects) + if item.Some? then PerSlab(c) else 0
      ensures usedCount == old(usedCount) + if item.Some? then 1 else 0
    {
      hide SlabOk, Listed, UsedAre, SlabsOk, Cache.Counted, Cache.Shape, UsedSum, FreeSum, PerSlab;
      item := None;
      Room();
      ConfigIs();
      PerSlabIs(c);
      r := ReserveMore(1, noWait, chunk);
      if r == Enough {
        RaisePressure();
        Room();
        item := Take();
      }
    }

    /**
      ReturnObjectToSlab: the object is free again.  A slab that becomes empty is
      kept or given back; with few empty slabs it is given back exactly when
      fewer objects than the reserve are then free.
    */
    method ReturnObject(x: nat, mustNotFree: bool) returns (released: Option<nat>)
      requires Valid() && x in used
      modifies `slabs, `empty, `partial, `full, `usedCount, `emptyCount, `used, `usage, `totalObjects
      ensures Valid() && used == old(used) - {x} && usedCount == old(usedCount) - 1
      ensures var p := ChunkOf(c, x);
        && p in old(slabs)
        && (released.None? ==> slabs == old(slabs)[p := Given(old(slabs)[p], x)] && totalObjects == old(totalObjects))
        && (released == Some(p) ==> slabs == old(slabs) - {p} && totalObjects == old(totalObjects) - PerSlab(c))
        && (released == None || released == Some(p))
      ensures usage == old(usage) - if released.Some? then c.slabSize else 0
      ensures released.Some? ==> !mustNotFree && IsEmpty(Given(old(slabs)[ChunkOf(c, x)], x))
      ensures old(emptyCount) < pressure && !mustNotFree && IsEmpty(Given(old(slabs)[ChunkOf(c, x)], x)) ==>
        (released.Some? <==> old(totalObjects) - usedCount - PerSlab(c) < minReserve)
      ensures released.Some? && old(emptyCount) < pressure ==> totalObjects - usedCount < minReserve
    {
      hide Sized, PerSlab, IsObject, InUse, ChunkOf, SlabsOk, UsedAre, Listed, Distinct, SameBut, Without;
      var source := ChunkOf(c, x);
      GivenOk(c, slabs, used, x);
      FromSlabs(c, slabs, source);
      PerSlabIs(c);
      var slab := Given(slabs[source], x);
      released := None;
      if slab.count == slab.size {
        if mustNotFree || (emptyCount < pressure && totalObjects - (usedCount - 1) - slab.size >= minReserve) {
          Keep(x, source, slab);
        } else {
          released := Some(source);
          GiveUp(x, source, slab);
        }
      } else {
        Keep(x, source, slab);
      }
    }

    /** The object's slab stays, on the list its free objects name. */
    method Keep(x: nat, source: nat, slab: Slab)
      requires Valid() && x in used && source == ChunkOf(c, x) && source in slabs && slab == Given(slabs[source], x)
      modifies `slabs, `empty, `partial, `full, `usedCount, `emptyCount, `used
      ensures Valid() && used == old(used) - {x} && slabs == old(slabs)[source := slab]
      ensures usedCount == old(usedCount) - 1
    {
      hide Sized, PerSlab, IsObject, InUse, ChunkOf, SlabsOk, UsedAre, Listed, Distinct, SameBut, Without;
      Prepare(x, source);
      usedCount := usedCount - 1;
      used := used - {x};
      slabs := slabs[source := slab];
      if slab.count == slab.size {
        empty, partial := empty + [source], Without(partial, source);
        emptyCount := emptyCount + 1;
      } else if slab.count == 1 {
        partial, full := partial + [source], Without(full, source);
      }
    }

    /** The slab has no used object left and goes: ReturnSlab. */
    method GiveUp(x: nat, source: nat, slab: Slab)
      requires Valid() && x in used && source == ChunkOf(c, x) && source in slabs && slab == Given(slabs[source], x)
      requires IsEmpty(slab)
      modifies `slabs, `partial, `usedCount, `used, `usage, `totalObjects
      ensures Valid() && used == old(used) - {x} && slabs == old(slabs) - {source} && usedCount == old(usedCount) - 1
      ensures totalObjects == old(totalObjects) - PerSlab(c) && usage == old(usage) - c.slabSize
    {
      hide Sized, PerSlab, IsObject, InUse, ChunkOf, SlabsOk, UsedAre, Listed, Distinct, SameBut, Without;
      Prepare(x, source);
      Dropped(c, slabs[source := slab], empty + [source], Without(partial, source), full, used - {x}, source);
      assert slabs[source := slab] - {source} == slabs - {source};
      assert (empty + [source])[..|empty|] == empty;
      SizedMore(c, |empty| + |partial| + |full| - 1, totalObjects - PerSlab(c), usage - c.slabSize);
      usedCount := usedCount - 1;
      used := used - {x};
      slabs, partial := slabs - {source}, Without(partial, source);
      usage := usage - c.slabSize;
      totalObjects := totalObjects - slab.size;
    }

    lemma Prepare(x: nat, source: nat)
      requires Valid() && x in used && source == ChunkOf(c, x) && source in slabs
      ensures var slab := Given(slabs[source], x);
        && slab.size == PerSlab(c) && slab.count <= slab.size
        && SlabsOk(c, slabs[source := slab]) && UsedAre(c, slabs[source := slab], used - {x})
        && var (e2, pa2, f2) := MovedOnReturn(empty, partial, full, source, slab.count, slab.size);
           Listed(slabs[source := slab], e2, pa2, f2)
      ensures IsEmpty(Given(slabs[source], x)) ==> |Without(partial, source)| == |partial| - 1
      ensures slabs[source].count == 0 ==> |Without(full, source)| == |full| - 1
    {
      hide Sized, PerSlab, IsObject, InUse, ChunkOf, SlabsOk, UsedAre, Listed, Distinct, SameBut, Without;
      GivenOk(c, slabs, used, x);
      FromSlabs(c, slabs, source);
      PerSlabIs(c);
      OnLists(slabs, empty, partial, full, source);
      ReturnMoves(slabs, empty, partial, full, source, Given(slabs[source], x));
      WithoutIs(partial, source);
      WithoutIs(full, source);
    }

    /**
      One round of object_cache_low_memory up to dropping the lock in
      ReturnSlab: an empty slab goes if more than the minimum are there and the
      reserve stays.  It is not counted off yet.
    */
    method TrimStart(minimumAllowed: nat) returns (released: Option<nat>)
      requires Valid() && !trimming
      modifies `usage, `totalObjects, `slabs, `empty, `trimming
      ensures Valid() && trimming == released.Some?
      ensures released.Some? <==> old(|empty| > minimumAllowed && totalObjects - usedCount >= minReserve + PerSlab(c))
      ensures released.None? ==> slabs == old(slabs) && empty == old(empty)
      ensures released.Some? ==> totalObjects - usedCount >= minReserve
      ensures usage == old(usage) - if released.Some? then c.slabSize else 0
      ensures released.Some? ==> old(empty) == [released.value] + empty && slabs == old(slabs) - {released.value}
    {
      hide Sized, PerSlab, IsObject, InUse, ChunkOf, SlabsOk, SlabOk, UsedAre, Listed, Distinct, SameBut;
      if emptyCount <= minimumAllowed { return None; }
      var head := empty[0];
      assert head in empty;
      OnLists(slabs, empty, partial, full, head);
      FromSlabs(c, slabs, head);
      SizeOf(c, head, slabs[head]);
      var freeObjects := totalObjects - usedCount;
      if freeObjects < minReserve + slabs[head].size { return None; }
      released := Some(head);
      DroppedFirst(c, slabs, empty, partial, full, used);
      SizedMore(c, |empty| + |partial| + |full| - 1, totalObjects - PerSlab(c), usage - c.slabSize);
      usage := usage - c.slabSize;
      totalObjects := totalObjects - slabs[head].size;
      slabs, empty := slabs - {head}, empty[1..];
      trimming := true;
    }

    /** With the lock again: the slab is counted off, however many others came and went. */
    method TrimEnd()
      requires Valid() && trimming
      modifies `emptyCount, `trimming
      ensures Valid() && !trimming && emptyCount == |empty|
    {
      hide Cache.Shape, Cache.NearQuota, Sized;
      emptyCount := emptyCount - 1;
      trimming := false;
    }
  }

  /** The object handed out, if any, was not in use. */
  ghost predicate IsHanded(item: Option<nat>, used: set<nat>, used2: set<nat>) {
    if item.None? then used2 == used else item.value !in used && used2 == used + {item.value}
  }

  lemma SizeOf(c: Config, p: nat, s: Slab)
    requires ConfigOk(c) && SlabOk(c, p, s)
    ensures s.size == PerSlab(c) && s.count == |s.free| <= s.size
  {
  }

  lemma Unlisted(slabs: map<nat, Slab>, e: seq<nat>, pa: seq<nat>, f: seq<nat>, p: nat, e2: seq<nat>)
    requires Listed(slabs, e, pa, f) && p in e && p !in pa && p !in f
    requires Distinct(e2) && SameBut(e, e2, p) && p !in e2
    ensures Listed(slabs - {p}, e2, pa, f)
  {
  }

  lemma UsedWithout(c: Config, slabs: map<nat, Slab>, used: set<nat>, p: nat)
    requires ConfigOk(c) && SlabsOk(c, slabs) && UsedAre(c, slabs, used) && p in slabs && IsEmpty(slabs[p])
    ensures SlabsOk(c, slabs - {p}) && UsedAre(c, slabs - {p}, used)
  {
    hide UsedAre, SlabOk;
    FromSlabs(c, slabs, p);
    assert (slabs - {p})[p := slabs[p]] == slabs;
    EmptyUnused(c, slabs - {p}, p, slabs[p], used);
  }

  lemma DroppedFirst(c: Config, slabs: map<nat, Slab>, e: seq<nat>, pa: seq<nat>, f: seq<nat>, used: set<nat>)
    requires ConfigOk(c) && SlabsOk(c, slabs) && Listed(slabs, e, pa, f) && UsedAre(c, slabs, used) && e != []
    ensures SlabsOk(c, slabs - {e[0]}) && Listed(slabs - {e[0]}, e[1..], pa, f) && UsedAre(c, slabs - {e[0]}, used)
  {
    hide UsedAre, SlabsOk;
    assert e[0] in e;
    OnLists(slabs, e, pa, f, e[0]);
    Headless(e);
    FromSlabs(c, slabs, e[0]);
    PerSlabIs(c);
    Unlisted(slabs, e, pa, f, e[0], e[1..]);
    UsedWithout(c, slabs, used, e[0]);
  }

  /** The empty slab just put at the end of its list is taken off again. */
  lemma Dropped(c: Config, slabs: map<nat, Slab>, e: seq<nat>, pa: seq<nat>, f: seq<nat>, used: set<nat>, p: nat)
    requires ConfigOk(c) && SlabsOk(c, slabs) && Listed(slabs, e, pa, f) && UsedAre(c, slabs, used) && e != []
    requires p == e[|e| - 1]
    ensures SlabsOk(c, slabs - {p}) && Listed(slabs - {p}, e[..|e| - 1], pa, f) && UsedAre(c, slabs - {p}, used)
  {
    hide UsedAre, SlabsOk;
    assert p in e && e == e[..|e| - 1] + [p];
    OnLists(slabs, e, pa, f, p);
    FromSlabs(c, slabs, p);
    PerSlabIs(c);
    Unlisted(slabs, e, pa, f, p, e[..|e| - 1]);
    UsedWithout(c, slabs, used, p);
  }

  lemma OnLists(slabs: map<nat, Slab>, e: seq<nat>, pa: seq<nat>, f: seq<nat>, p: nat)
    requires Listed(slabs, e, pa, f)
    ensures Distinct(e) && Distinct(pa) && Distinct(f)
    ensures p in e <==> p in slabs && IsEmpty(slabs[p])
    ensures p in pa <==> p in slabs && IsPartial(slabs[p])
    ensures p in f <==> p in slabs && IsFull(slabs[p])
    ensures SameBut(e, e, p) && SameBut(pa, pa, p) && SameBut(f, f, p)
  {
  }

  lemma FromSlabs(c: Config, slabs: map<nat, Slab>, p: nat)
    requires ConfigOk(c) && SlabsOk(c, slabs) && p in slabs
    ensures SlabOk(c, p, slabs[p])
  {
  }

  // ---- runs ----

  /** What some thread does with the cache while it has the lock. */
  datatype Op =
    | AllocateFirst(noWait: bool, mine: bool)
    | AllocateWoken(noWait: bool, mine: bool)
    | AllocateGot(noWait: bool, chunk: Option<Chunk>)
    | ReserveFirst(objectCount: nat, noWait: bool, mine: bool)
    | ReserveGot(objectCount: nat, noWait: bool, chunk: Option<Chunk>)
    | Free(x: nat, mustNotFree: bool)
    | TrimFirst(minimumAllowed: nat)
    | TrimLast

  /** A thread that gets memory asked for it; one that counts a slab off took it off its list. */
  predicate Enabled(cache: Cache, op: Op)
    requires cache.c.slabSize > 0 && cache.c.objectSize > 0
    reads cache
  {
    match op
    case AllocateGot(noWait, chunk) => (if noWait then cache.dontWait else cache.canWait) && Fits(cache, chunk)
    case ReserveGot(_, noWait, chunk) => (if noWait then cache.dontWait else cache.canWait) && Fits(cache, chunk)
    case Free(x, _) => InUse(cache.c, cache.slabs, x)
    case TrimFirst(_) => !cache.trimming
    case TrimLast => cache.trimming
    case _ => true
  }

  predicate Fits(cache: Cache, chunk: Option<Chunk>)
    requires cache.c.slabSize > 0
    reads cache
  {
    chunk.Some? ==> chunk.value.pages % cache.c.slabSize == 0 && chunk.value.pages !in cache.slabs
  }

  /** The counters a decision to make a slab looks at. */
  datatype Counters = Counters(usage: int, total: int, used: int, canWait: bool, dontWait: bool) {
    function Creating(): nat { (if canWait then 1 else 0) + if dontWait then 1 else 0 }
  }

  function CountersOf(cache: Cache): Counters
    reads cache
  {
    Counters(cache.usage, cache.totalObjects, cache.usedCount, cache.canWait, cache.dontWait)
  }

  /** Everything used and promised is within the quota. */
  predicate WithinQuota(c: Config, maximum: nat, s: Counters) {
    maximum != 0 ==> s.usage + c.slabSize * s.Creating() <= maximum
  }

  /**
    Reserving n objects begins a slab: too few are free, nobody has to be waited for, and the
    quota has room for one.
  */
  predicate Begins(c: Config, maximum: nat, s: Counters, n: nat, noWait: bool, mine: bool) {
    && n > s.total - s.used && !s.dontWait && !(s.canWait && (mine || !noWait))
    && (maximum == 0 || s.usage + c.slabSize <= maximum)
  }

  /** The step begins a slab that has no room in the quota beside those already being made. */
  predicate Overcommits(c: Config, maximum: nat, s: Counters, op: Op)
    requires c.objectSize > 0
  {
    && maximum != 0 && s.usage + c.slabSize * (s.Creating() + 1) > maximum
    && match op
       case AllocateFirst(noWait, mine) => Begins(c, maximum, s, 1, noWait, mine)
       case AllocateWoken(noWait, mine) => Begins(c, maximum, s, 1, noWait, mine)
       case ReserveFirst(n, noWait, mine) => Begins(c, maximum, s, n, noWait, mine)
       case ReserveGot(n, _, chunk) =>
         && chunk.Some? && chunk.value.constructed >= PerSlab(c)
         && n > s.total + PerSlab(c) - s.used && s.usage + 2 * c.slabSize <= maximum
       case _ => false
  }

  /** One step keeps what is used and promised within the quota if and only if it does not overcommit. */
  method Once(cache: Cache, op: Op)
    requires cache.Valid() && cache.c.slabSize > 0 && cache.c.objectSize > 0 && Enabled(cache, op)
    modifies cache
    ensures cache.Valid()
    ensures old(WithinQuota(cache.c, cache.maximum, CountersOf(cache))) ==>
      (WithinQuota(cache.c, cache.maximum, CountersOf(cache)) <==>
       !old(Overcommits(cache.c, cache.maximum, CountersOf(cache), op)))
  {
    if op.AllocateFirst? || op.AllocateWoken? || op.AllocateGot? {
      AllocateOnce(cache, op);
    } else {
      OtherOnce(cache, op);
    }
  }

  method AllocateOnce(cache: Cache, op: Op)
    requires cache.Valid() && cache.c.slabSize > 0 && cache.c.objectSize > 0 && Enabled(cache, op)
    requires op.AllocateFirst? || op.AllocateWoken? || op.AllocateGot?
    modifies cache
    ensures cache.Valid()
    ensures old(WithinQuota(cache.c, cache.maximum, CountersOf(cache))) ==>
      (WithinQuota(cache.c, cache.maximum, CountersOf(cache)) <==>
       !old(Overcommits(cache.c, cache.maximum, CountersOf(cache), op)))
  {
    hide Cache.Shape, Cache.Counted, PerSlab;
    Successor(cache.c.slabSize, 0);
    Successor(cache.c.slabSize, 1);
    Successor(cache.c.slabSize, 2);
    match op
    case AllocateFirst(noWait, mine) =>
      var item, r := cache.AllocateStart(noWait, mine);
    case AllocateWoken(noWait, mine) =>
      var item, r := cache.AllocateAgain(noWait, mine);
    case AllocateGot(noWait, chunk) =>
      var item, r := cache.AllocateMore(noWait, chunk);
  }

  method OtherOnce(cache: Cache, op: Op)
    requires cache.Valid() && cache.c.slabSize > 0 && cache.c.objectSize > 0 && Enabled(cache, op)
    requires !op.AllocateFirst? && !op.AllocateWoken? && !op.AllocateGot?
    modifies cache
    ensures cache.Valid()
    ensures old(WithinQuota(cache.c, cache.maximum, CountersOf(cache))) ==>
      (WithinQuota(cache.c, cache.maximum, CountersOf(cache)) <==>
       !old(Overcommits(cache.c, cache.maximum, CountersOf(cache), op)))
  {
    hide Cache.Shape, Cache.Counted, PerSlab;
    Successor(cache.c.slabSize, 0);
    Successor(cache.c.slabSize, 1);
    Successor(cache.c.slabSize, 2);
    match op
    case ReserveFirst(objectCount, noWait, mine) =>
      var r := cache.ReserveStart(objectCount, noWait, mine);
    case ReserveGot(objectCount, noWait, chunk) =>
      var r := cache.ReserveMore(objectCount, noWait, chunk);
    case Free(x, mustNotFree) =>
      cache.UsedIs(x);
      var r := cache.ReturnObject(x, mustNotFree);
    case TrimFirst(minimumAllowed) =>
      var r := cache.TrimStart(minimumAllowed);
    case TrimLast =>
      cache.TrimEnd();
  }

  /** In every state what is used and promised is within the quota. */
  ghost predicate AlwaysWithin(c: Config, maximum: nat, trace: seq<Counters>) {
    forall i | 0 <= i < |trace| :: WithinQuota(c, maximum, trace[i])
  }

  ghost predicate NeverOvercommits(c: Config, maximum: nat, trace: seq<Counters>, done: seq<Op>)
    requires c.objectSize > 0 && |done| <= |trace|
  {
    forall i | 0 <= i < |done| :: !Overcommits(c, maximum, trace[i], done[i])
  }

  /**
    Over any run the lists, the counters and the handed out objects agree, also
    while slabs are being made and given back.  `done` are the steps that were
    taken, up to the first that is not possible, and `trace` the counters before,
    between and after them: everything used and promised is within the quota in
    every state if and only if no step overcommits.  If one does, the quota is
    exceeded by one slab at most.
  */
  method Run(cache: Cache, ops: seq<Op>) returns (done: seq<Op>, trace: seq<Counters>)
    requires cache.Valid() && cache.c.slabSize > 0 && cache.c.objectSize > 0
    modifies cache
    ensures cache.Valid()
    ensures cache.maximum != 0 ==> cache.usage <= cache.maximum + cache.c.slabSize
    ensures !cache.trimming ==> cache.emptyCount == |cache.empty|
    ensures |done| <= |ops| && done == ops[..|done|] && (|done| < |ops| ==> !Enabled(cache, ops[|done|]))
    ensures |trace| == |done| + 1 && trace[0] == old(CountersOf(cache)) && trace[|done|] == CountersOf(cache)
    ensures WithinQuota(cache.c, cache.maximum, trace[0]) ==>
      (AlwaysWithin(cache.c, cache.maximum, trace) <==>
       NeverOvercommits(cache.c, cache.maximum, trace, done))
    ensures AlwaysWithin(cache.c, cache.maximum, trace) && cache.maximum != 0 ==>
      forall i | 0 <= i < |trace| :: trace[i].usage <= cache.maximum
  {
    hide Enabled, PerSlab, Overcommits, Cache.Shape, Cache.Counted;
    done, trace := [], [CountersOf(cache)];
    var i := 0;
    while i < |ops| && Enabled(cache, ops[i])
      invariant cache.Valid() && i <= |ops| && done == ops[..i]
      invariant |trace| == |done| + 1 && trace[0] == old(CountersOf(cache)) && trace[|done|] == CountersOf(cache)
      invariant WithinQuota(cache.c, cache.maximum, trace[0]) ==>
        (AlwaysWithin(cache.c, cache.maximum, trace) <==>
         NeverOvercommits(cache.c, cache.maximum, trace, done))
    {
      Once(cache, ops[i]);
      if WithinQuota(cache.c, cache.maximum, trace[0]) {
        TraceMore(cache.c, cache.maximum, trace, done, ops[i], CountersOf(cache));
      }
      done, trace := done + [ops[i]], trace + [CountersOf(cache)];
      i := i + 1;
    }
    cache.EmptyIsCounted();
  }

  lemma TraceMore(c: Config, maximum: nat, trace: seq<Counters>, done: seq<Op>, op: Op, s: Counters)
    requires c.objectSize > 0 && |trace| == |done| + 1 && WithinQuota(c, maximum, trace[0])
    requires AlwaysWithin(c, maximum, trace) <==> NeverOvercommits(c, maximum, trace, done)
    requires WithinQuota(c, maximum, trace[|done|]) ==>
      (WithinQuota(c, maximum, s) <==> !Overcommits(c, maximum, trace[|done|], op))
    ensures AlwaysWithin(c, maximum, trace + [s]) <==> NeverOvercommits(c, maximum, trace + [s], done + [op])
  {
    hide Overcommits, WithinQuota;
    var n := |done|;
    assert (trace + [s])[..n + 1] == trace && (done + [op])[..n] == done;
    assert forall i | 0 <= i < n + 1 :: (trace + [s])[i] == trace[i];
    if AlwaysWithin(c, maximum, trace) {
      assert WithinQuota(c, maximum, trace[n]);
    }
    if AlwaysWithin(c, maximum, trace + [s]) {
      forall i | 0 <= i < n + 1 ensures WithinQuota(c, maximum, trace[i]) {
        assert WithinQuota(c, maximum, (trace + [s])[i]);
      }
      assert WithinQuota(c, maximum, (trace + [s])[n + 1]);
    }
    if NeverOvercommits(c, maximum, trace + [s], done + [op]) {
      forall i | 0 <= i < n ensures !Overcommits(c, maximum, trace[i], done[i]) {
        assert !Overcommits(c, maximum, (trace + [s])[i], (done + [op])[i]);
      }
      assert !Overcommits(c, maximum, (trace + [s])[n], (done + [op])[n]);
    }
  }

  /** Two threads that each found room for one slab in a quota of one. */
  method OverQuota() returns (cache: Cache)
    ensures fresh(cache) && cache.Valid() && cache.maximum != 0 && cache.usage > cache.maximum && cache.Creating() == 0
  {
    hide Cache.Shape, Cache.Counted;
    cache := new Cache(Config(8, 8, 32, 24), 32, 0);
    var r := cache.ReserveStart(1, false, false);
    r := cache.ReserveStart(1, true, false);
    r := cache.ReserveMore(1, false, Some(Chunk(0, 3)));
    r := cache.ReserveMore(1, true, Some(Chunk(32, 3)));
  }

  /** No object for this thread, although one was freed while it asked for memory. */
  method FailsWithOneFree() returns (cache: Cache, item: Option<nat>)
    ensures fresh(cache) && cache.Valid() && item.None? && cache.usedCount < cache.totalObjects
  {
    hide Cache.Shape, Cache.Counted, Cache.NearQuota, ChunkOf;
    cache := new Cache(Config(8, 8, 32, 16), 0, 0);
    var r: Step;
    item, r := cache.AllocateStart(false, false);
    var a, b, c: Option<nat>;
    a, r := cache.AllocateMore(false, Some(Chunk(0, 2)));
    b, r := cache.AllocateStart(false, false);
    c, r := cache.AllocateStart(false, false);
    var released := cache.ReturnObject(a.value, true);
    item, r := cache.AllocateMore(false, None);
  }

  /** Slabs with a single object: when it is freed the slab is empty and still on the list of full ones. */
  lemma OneObjectSlab(p: nat, x: nat)
    ensures var slabs := map[p := Slab(1, 0, 0, [])];
      && Listed(slabs, [], [], [p])
      && var (e, pa, f) := MovedOnReturn([], [], [p], p, 1, 1);
         p in e && p in f && !Listed(slabs[p := Given(slabs[p], x)], e, pa, f)
  {
    var slabs := map[p := Slab(1, 0, 0, [])];
    assert Listed(slabs, [], [], [p]);
    ReturnMoves(slabs, [], [], [p], p, Given(slabs[p], x));
  }
}
