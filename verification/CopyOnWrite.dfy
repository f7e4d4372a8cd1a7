/**
  Copy-on-write chains (mm.cpp, cache/mm_cache.cpp): page faults, stores, area
  copies, merges, page-out and page-in as atomic steps, and the promise they
  keep together: every area has its own memory, and what is stored through one
  is never seen through another.

  An area's offsets are those of its cache.  A cache is backed by swap slots, in
  the blocks and with the counters of module SwapBlocks, or by a file; `disk` is
  what the slots of the swap files contain.  Source caches are older than their
  consumers, so ids go down along a chain.

  Merging and freeing slots are what the code does, so they can lose a page whose
  block counter is too small.  The theorems say exactly when.
*/
module CopyOnWrite {
  import opened Options
  import Swap = SwapBlocks

  type Id = nat

  /** Swap blocks and the allocated size, or a file's contents. */
  datatype Backing = Slots(blocks: map<int, Swap.SwapBlock>, size: int) | File(contents: map<int, int>)

  datatype Cache = Cache(source: Option<Id>, pages: map<int, Id>, back: Backing)

  /** A cache without swap space. */
  function NoSlots(): Backing { Slots(map[], 0) }

  function Slot(back: Backing, o: int): Option<Swap.Slot> {
    if back.Slots? then Swap.SlotAt(back.blocks, o) else None
  }

  /** HasPage: the backing store has the page. */
  predicate Backed(back: Backing, o: int) { if back.File? then o in back.contents else Slot(back, o).Some? }

  function OnDisk(disk: map<Swap.Slot, int>, slot: Swap.Slot): int { if slot in disk then disk[slot] else 0 }

  /** What the backing store has there. */
  function Saved(disk: map<Swap.Slot, int>, back: Backing, o: int): int {
    match back
    case File(contents) => if o in contents then contents[o] else 0
    case Slots(_, _) => if Slot(back, o).Some? then OnDisk(disk, Slot(back, o).value) else 0
  }

  /** A physical page: contents, and the cache and offset it says it belongs to. */
  datatype Frame = Frame(value: int, cache: Id, offset: int)

  datatype Area = Area(cache: Id, writable: bool)

  datatype Mapping = Mapping(page: Id, write: bool)

  datatype State = State(caches: map<Id, Cache>, frames: map<Id, Frame>, areas: map<Id, Area>,
                         maps: map<(Id, int), Mapping>, wired: set<Id>,
                         disk: map<Swap.Slot, int>)

  // ---- what a fault finds ----

  /** The first cache of a chain with a page or backing store for the offset, or the deepest one. */
  datatype Hit = Page(cache: Id, page: Id) | Stored(cache: Id) | Nothing(cache: Id)

  function Find(cs: map<Id, Cache>, c: Id, o: int): Hit
    decreases c
  {
    if c !in cs then Nothing(c)
    else if o in cs[c].pages then Page(c, cs[c].pages[o])
    else if Backed(cs[c].back, o) then Stored(c)
    else if cs[c].source.Some? && cs[c].source.value < c then Find(cs, cs[c].source.value, o)
    else Nothing(c)
  }

  function FrameValue(frames: map<Id, Frame>, p: Id): int { if p in frames then frames[p].value else 0 }

  function HitValue(s: State, h: Hit, o: int): int {
    match h
    case Page(_, p) => FrameValue(s.frames, p)
    case Stored(c) => if c in s.caches then Saved(s.disk, s.caches[c].back, o) else 0
    case Nothing(_) => 0
  }

  /** What the cache chain holds at an offset; a page nobody has reads as zero. */
  function Value(s: State, c: Id, o: int): int { HitValue(s, Find(s.caches, c, o), o) }

  /** What an area shows at an offset. */
  function Content(s: State, a: Id, o: int): int {
    if a in s.areas then Value(s, s.areas[a].cache, o) else 0
  }

  // ---- invariant ----

  ghost predicate ChainsOk(cs: map<Id, Cache>) {
    forall c | c in cs :: cs[c].source.Some? ==> cs[c].source.value in cs && cs[c].source.value < c
  }

  /** Every page in a cache says so itself; hence no page is in two places. */
  ghost predicate PagesOk(cs: map<Id, Cache>, frames: map<Id, Frame>) {
    forall c, o | c in cs && o in cs[c].pages ::
      && cs[c].pages[o] in frames
      && frames[cs[c].pages[o]].cache == c && frames[cs[c].pages[o]].offset == o
  }

  ghost predicate AreasOk(s: State) {
    && (forall a | a in s.areas :: s.areas[a].cache in s.caches)
    && (forall a, b | a in s.areas && b in s.areas && s.areas[a].cache == s.areas[b].cache :: a == b)
  }

  ghost predicate NoConsumer(cs: map<Id, Cache>, c: Id) { forall d | d in cs :: cs[d].source != Some(c) }

  /** The cache of a writable area is nobody's source. */
  ghost predicate TopsOk(s: State) {
    forall a | a in s.areas && s.areas[a].writable :: NoConsumer(s.caches, s.areas[a].cache)
  }

  /** What is mapped is the page a fault would find; it is mapped writable only if the area's own cache has it. */
  ghost predicate MappingOk(s: State, a: Id, o: int) {
    && a in s.areas && (a, o) in s.maps
    && var h := Find(s.caches, s.areas[a].cache, o);
    && h.Page? && h.page == s.maps[(a, o)].page
    && (s.maps[(a, o)].write ==> h.cache == s.areas[a].cache && s.areas[a].writable)
  }

  ghost predicate MapsOk(s: State) { forall a, o | (a, o) in s.maps :: MappingOk(s, a, o) }

  /** Everything but the swap slots. */
  ghost predicate Core(s: State) {
    ChainsOk(s.caches) && PagesOk(s.caches, s.frames) && AreasOk(s) && TopsOk(s) && MapsOk(s)
  }

  /** No slot is in two places. */
  ghost predicate SlotsApart(cs: map<Id, Cache>) {
    forall c, o, d, q | c in cs && d in cs && Slot(cs[c].back, o).Some? && Slot(cs[c].back, o) == Slot(cs[d].back, q) ::
      c == d && o == q
  }

  ghost predicate BacksShaped(cs: map<Id, Cache>) {
    forall c | c in cs && cs[c].back.Slots? :: Swap.BlocksShaped(cs[c].back.blocks)
  }

  ghost predicate BacksOk(cs: map<Id, Cache>) { SlotsApart(cs) && BacksShaped(cs) }

  ghost predicate Inv(s: State) { Core(s) && BacksOk(s.caches) }

  // ---- how one change of a cache changes what is found ----

  /** What the cache itself has. */
  function Own(k: Cache, o: int): Option<Option<Id>> {
    if o in k.pages then Some(Some(k.pages[o])) else if Backed(k.back, o) then Some(None) else None
  }

  /** Chains whose caches have not changed at o find the same. */
  lemma {:induction false} FindSame(cs: map<Id, Cache>, cs2: map<Id, Cache>, c: Id, o: int)
    requires ChainsOk(cs) && c in cs
    requires forall d | d in cs :: d in cs2 && cs2[d].source == cs[d].source && Own(cs2[d], o) == Own(cs[d], o)
    ensures Find(cs2, c, o) == Find(cs, c, o)
    decreases c
  {
    assert Own(cs2[c], o) == Own(cs[c], o);
    if Own(cs[c], o).None? && cs[c].source.Some? {
      FindSame(cs, cs2, cs[c].source.value, o);
    }
  }

  /** A hit names a cache that has what was found. */
  lemma {:induction false} FindHits(cs: map<Id, Cache>, c: Id, o: int)
    requires ChainsOk(cs) && c in cs
    ensures var h := Find(cs, c, o);
      && h.cache in cs && h.cache <= c
      && (h.Page? ==> o in cs[h.cache].pages && cs[h.cache].pages[o] == h.page)
      && (h.Stored? ==> Backed(cs[h.cache].back, o) && o !in cs[h.cache].pages)
      && (h.Nothing? ==> cs[h.cache].source.None? && Own(cs[h.cache], o).None?)
    decreases c
  {
    if Own(cs[c], o).None? && cs[c].source.Some? {
      FindHits(cs, cs[c].source.value, o);
    }
  }

  /** Cache x, which chains reach at o, gets a page: they find it there. */
  lemma {:induction false} FindInserted(cs: map<Id, Cache>, x: Id, k: Cache, p: Id, c: Id, o: int)
    requires ChainsOk(cs) && c in cs && x in cs && o !in cs[x].pages && (Backed(cs[x].back, o) || cs[x].source.None?)
    requires k.source == cs[x].source && Own(k, o) == Some(Some(p))
    ensures Find(cs[x := k], c, o) == if Find(cs, c, o) == Stored(x) || Find(cs, c, o) == Nothing(x) then Page(x, p)
      else Find(cs, c, o)
    decreases c
  {
    FindHits(cs, c, o);
    if c != x && Own(cs[c], o).None? && cs[c].source.Some? {
      FindInserted(cs, x, k, p, cs[c].source.value, o);
    }
  }

  /** Cache x with no consumers changes: only chains that start at x notice. */
  lemma {:induction false} FindBelow(cs: map<Id, Cache>, x: Id, k: Cache, c: Id, o: int)
    requires ChainsOk(cs) && c in cs && x in cs && NoConsumer(cs, x) && c != x
    ensures Find(cs[x := k], c, o) == Find(cs, c, o)
    decreases c
  {
    if Own(cs[c], o).None? && cs[c].source.Some? {
      FindBelow(cs, x, k, cs[c].source.value, o);
    }
  }

  /** Cache x loses a page that is in its backing store. */
  lemma {:induction false} FindRemoved(cs: map<Id, Cache>, x: Id, k: Cache, c: Id, o: int)
    requires ChainsOk(cs) && c in cs && x in cs && o in cs[x].pages
    requires k.source == cs[x].source && Own(k, o) == Some(None)
    ensures Find(cs[x := k], c, o) == if Find(cs, c, o) == Page(x, cs[x].pages[o]) then Stored(x) else Find(cs, c, o)
    decreases c
  {
    FindHits(cs, c, o);
    if c != x && Own(cs[c], o).None? && cs[c].source.Some? {
      FindRemoved(cs, x, k, cs[c].source.value, o);
    }
  }

  /** A mapped page belongs where a fault finds it. */
  lemma MappedPage(s: State, a: Id, o: int)
    requires Inv(s) && (a, o) in s.maps
    ensures a in s.areas && s.maps[(a, o)].page in s.frames
    ensures var f := s.frames[s.maps[(a, o)].page];
      && f.offset == o && f.cache in s.caches && o in s.caches[f.cache].pages
      && s.caches[f.cache].pages[o] == s.maps[(a, o)].page
      && Find(s.caches, s.areas[a].cache, o) == Page(f.cache, s.maps[(a, o)].page)
      && (s.maps[(a, o)].write ==> f.cache == s.areas[a].cache && s.areas[a].writable)
  {
    assert MappingOk(s, a, o);
    FindHits(s.caches, s.areas[a].cache, o);
  }

  // ---- steps ----

  /** A fresh page with contents v goes into cache x at o. */
  function Insert(s: State, x: Id, o: int, p: Id, v: int): State {
    if x !in s.caches then s
    else s.(caches := s.caches[x := s.caches[x].(pages := s.caches[x].pages[o := p])],
      frames := s.frames[p := Frame(v, x, o)])
  }

  function MapPage(s: State, a: Id, o: int, p: Id, write: bool): State {
    s.(maps := s.maps[(a, o) := Mapping(p, write)])
  }

  function WithValue(frames: map<Id, Frame>, p: Id, v: int): map<Id, Frame> {
    if p in frames then frames[p := frames[p].(value := v)] else frames
  }

  function Unmapped(s: State, p: Id): map<(Id, int), Mapping> {
    map k | k in s.maps && s.maps[k].page != p :: s.maps[k]
  }

  /** The wired ones of a cache's pages. */
  function WiredIn(pages: map<int, Id>, wired: set<Id>): map<int, Id> {
    map o | o in pages && pages[o] in wired :: pages[o]
  }

  function Im(k: Cache): Swap.Image<Id>
    requires k.back.Slots?
  {
    Swap.Image(k.pages, k.back.blocks)
  }

  /** VMAnonymousCache::Merge changes what o shows. */
  predicate Spoiled(upper: Cache, lower: Cache, o: int)
    requires upper.back.Slots? && lower.back.Slots?
  {
    Swap.Spoiled(Im(upper), Im(lower), upper.back.size, lower.back.size, o)
  }

  /** The consumer after VMAnonymousCache::Merge, with the source's source. */
  ghost function MergedCache(upper: Cache, lower: Cache): Cache
    requires upper.back.Slots? && lower.back.Slots?
  {
    var m := Swap.Outcome(Im(upper), Im(lower), upper.back.size, lower.back.size);
    Cache(lower.source, m.pages,
          Slots(m.blocks, Swap.OutcomeSize(Im(upper), Im(lower), upper.back.size, lower.back.size)))
  }

  /** Pages of x that went up belong to y now; the others are freed. */
  ghost function MergedFrames(s: State, x: Id, y: Id): map<Id, Frame>
    requires x in s.caches && y in s.caches && s.caches[x].back.Slots? && s.caches[y].back.Slots?
  {
    var up := MergedCache(s.caches[y], s.caches[x]).pages;
    map p | p in s.frames && (s.frames[p].cache == x ==> s.frames[p].offset in up && up[s.frames[p].offset] == p) ::
      if s.frames[p].cache == x then s.frames[p].(cache := y) else s.frames[p]
  }

  datatype Action =
    | MapFound(a: Id, o: int)                 // fault: the page found is mapped, read-only if it is a lower cache's
    | CleanRead(a: Id, o: int, p: Id)         // read fault, nothing found: a clean page for the deepest cache
    | CleanWrite(a: Id, o: int, p: Id)        // write fault, nothing found: a clean page for the top cache
    | CopyUp(a: Id, o: int, p: Id)            // write fault, page in a lower cache: a copy for the top cache
    | PageIn(a: Id, o: int, p: Id)            // fault, backing store found: read it in and start over
    | StoreValue(a: Id, o: int, v: int)       // the hardware stores through a writable mapping
    | Unmap(a: Id, o: int)
    | WriteBack(c: Id, o: int, slot: Swap.Slot)  // a page's contents go to its slot or file, or to a new slot
    | FreeSlot(c: Id, o: int)                 // Write frees the swap slot of a resident page, before it gets a new one
    | Steal(c: Id, o: int)                    // an unmodified, unwired page is unmapped and freed
    | SetWired(pages: set<Id>)                // pages get wired and unwired
    | CopyArea(a: Id, b: Id, t: Id, u: Id, shift: nat)
    | NewArea(a: Id, c: Id, writable: bool, file: Option<map<int, int>>)
    | DeleteArea(a: Id)
    | Merge(x: Id, y: Id)
    | Drop(c: Id)

  ghost predicate OnlyConsumer(cs: map<Id, Cache>, x: Id, y: Id) {
    && x in cs && y in cs && cs[y].source == Some(x)
    && forall d | d in cs && cs[d].source == Some(x) :: d == y
  }

  ghost predicate NoArea(s: State, c: Id) { forall a | a in s.areas :: s.areas[a].cache != c }

  /** The slot is nobody's. */
  ghost predicate Unused(cs: map<Id, Cache>, slot: Swap.Slot) {
    forall c, o | c in cs :: Slot(cs[c].back, o) != Some(slot)
  }

  ghost predicate FreshIn(s: State, c: Id, t: Id) { t !in s.caches && c < t }

  /** Page numbers from `shift` on are free: the copy of page p gets number p + shift. */
  ghost predicate FreshFrom(s: State, shift: nat) { forall p | p in s.frames :: p < shift }

  ghost predicate Enabled(s: State, act: Action) {
    match act
    case MapFound(a, o) => a in s.areas && Find(s.caches, s.areas[a].cache, o).Page?
    case CleanRead(a, o, p) => a in s.areas && p !in s.frames && Find(s.caches, s.areas[a].cache, o).Nothing?
    case CleanWrite(a, o, p) => a in s.areas && p !in s.frames && s.areas[a].writable
      && Find(s.caches, s.areas[a].cache, o).Nothing?
    case CopyUp(a, o, p) => a in s.areas && p !in s.frames && s.areas[a].writable &&
      var h := Find(s.caches, s.areas[a].cache, o); h.Page? && h.cache != s.areas[a].cache
    case PageIn(a, o, p) => a in s.areas && p !in s.frames && Find(s.caches, s.areas[a].cache, o).Stored?
    case StoreValue(a, o, v) => (a, o) in s.maps && s.maps[(a, o)].write
    case Unmap(a, o) => true
    case WriteBack(c, o, slot) => c in s.caches && o in s.caches[c].pages
      && (!Backed(s.caches[c].back, o) ==> Unused(s.caches, slot))
    case FreeSlot(c, o) => c in s.caches && o in s.caches[c].pages && Slot(s.caches[c].back, o).Some?
    case Steal(c, o) => c in s.caches && o in s.caches[c].pages && Backed(s.caches[c].back, o)
      && Saved(s.disk, s.caches[c].back, o) == FrameValue(s.frames, s.caches[c].pages[o])
        && s.caches[c].pages[o] !in s.wired
    case SetWired(_) => true
    case CopyArea(a, b, t, u, shift) => a in s.areas && b !in s.areas && t != u && FreshFrom(s, shift)
      && FreshIn(s, s.areas[a].cache, t) && FreshIn(s, s.areas[a].cache, u)
    case NewArea(a, c, _, _) => a !in s.areas && c !in s.caches
    case DeleteArea(a) => true
    case Merge(x, y) => OnlyConsumer(s.caches, x, y) && NoArea(s, x)
      && s.caches[x].back.Slots? && s.caches[y].back.Slots?
    case Drop(c) => NoConsumer(s.caches, c) && NoArea(s, c)
  }

  /** vm_copy_area of a private area: both areas get a cache of their own on top, unless nothing is writable. */
  function Copied(s: State, a: Id, b: Id, t: Id, u: Id, shift: nat): State
    requires a in s.areas
  {
    var c := s.areas[a].cache;
    var target := s.(caches := s.caches[t := Cache(Some(c), map[], NoSlots())],
                     areas := s.areas[b := Area(t, s.areas[a].writable)]);
    if s.areas[a].writable then OnTop(target, a, c, u, shift) else target
  }

  /**
    vm_copy_on_write_area: a new cache u for the area on top of c.  Wired pages
    move up with their protection, and copies take their places below; all
    other mappings of the area become read-only.
  */
  function OnTop(s: State, a: Id, c: Id, u: Id, shift: nat): State {
    if c !in s.caches then s
    else
    var pages := s.caches[c].pages;
    State(s.caches[c := s.caches[c].(pages := PagesBelow(pages, s.wired, shift))][u := Cache(Some(c),
      WiredIn(pages, s.wired), NoSlots())],
          UpFrames(s.frames, s.wired, c, u, shift),
          s.areas[a := Area(u, true)],
          ReadOnly(s.maps, s.wired, a),
          s.wired,
          s.disk)
  }

  /** The area's mappings without write access, except to wired pages. */
  function ReadOnly(maps: map<(Id, int), Mapping>, wired: set<Id>, a: Id): map<(Id, int), Mapping> {
    map m | m in maps :: if m.0 == a then maps[m].(write := maps[m].write && maps[m].page in wired) else maps[m]
  }

  function PagesBelow(pages: map<int, Id>, wired: set<Id>, shift: nat): map<int, Id> {
    map o | o in pages :: if pages[o] in wired then pages[o] + shift else pages[o]
  }

  /** The page that is copied into page q. */
  function CopyOf(frames: map<Id, Frame>, wired: set<Id>, c: Id, shift: nat, q: Id): Option<Id> {
    if shift <= q && q - shift in frames && frames[q - shift].cache == c && q - shift in wired then Some(q - shift)
      else None
  }

  function UpFrames(frames: map<Id, Frame>, wired: set<Id>, c: Id, u: Id, shift: nat): map<Id, Frame> {
    var copies := set p | p in frames :: p + shift;
    map q | q in frames.Keys + copies && (q in frames || CopyOf(frames, wired, c, shift, q).Some?) ::
      if q !in frames then frames[CopyOf(frames, wired, c, shift, q).value]
      else if frames[q].cache == c && q in wired then frames[q].(cache := u)
      else frames[q]
  }

  /** The page goes to the file, to the slot it has, or to a new one. */
  ghost function Written(s: State, c: Id, o: int, slot: Swap.Slot): State
    requires c in s.caches && o in s.caches[c].pages
  {
    var k := s.caches[c];
    var v := FrameValue(s.frames, k.pages[o]);
    match k.back
    case File(contents) => s.(caches := s.caches[c := k.(back := File(contents[o := v]))])
    case Slots(blocks, size) =>
      if Slot(k.back, o).Some? then s.(disk := s.disk[Slot(k.back, o).value := v])
      else s.(caches := s.caches[c := k.(back := Slots(Swap.Build(blocks, o, slot), size + 1))],
        disk := s.disk[slot := v])
  }

  /** What Write does first with a page that has a slot. */
  ghost function SlotFreed(k: Cache, o: int): Cache
    requires k.back.Slots?
  {
    k.(back := Slots(Swap.Release(k.back.blocks, o), k.back.size - 1))
  }

  ghost function Do(s: State, act: Action): State
    requires Enabled(s, act)
  {
    match act
    case MapFound(a, o) =>
      var h := Find(s.caches, s.areas[a].cache, o);
      MapPage(s, a, o, h.page, s.areas[a].writable && h.cache == s.areas[a].cache)
    case CleanRead(a, o, p) =>
      var d := Find(s.caches, s.areas[a].cache, o).cache;
      MapPage(Insert(s, d, o, p, 0), a, o, p, s.areas[a].writable && d == s.areas[a].cache)
    case CleanWrite(a, o, p) => MapPage(Insert(s, s.areas[a].cache, o, p, 0), a, o, p, true)
    case CopyUp(a, o, p) =>
      var q := Find(s.caches, s.areas[a].cache, o).page;
      MapPage(Insert(s, s.areas[a].cache, o, p, FrameValue(s.frames, q)), a, o, p, true)
    case PageIn(a, o, p) =>
      var h := Find(s.caches, s.areas[a].cache, o);
      Insert(s, h.cache, o, p, HitValue(s, h, o))
    case StoreValue(a, o, v) =>
      s.(frames := WithValue(s.frames, s.maps[(a, o)].page, v))
    case Unmap(a, o) => s.(maps := s.maps - {(a, o)})
    case WriteBack(c, o, slot) => Written(s, c, o, slot)
    case FreeSlot(c, o) => s.(caches := s.caches[c := SlotFreed(s.caches[c], o)])
    case Steal(c, o) =>
      var k := s.caches[c];
      s.(caches := s.caches[c := k.(pages := k.pages - {o})], frames := s.frames - {k.pages[o]},
        maps := Unmapped(s, k.pages[o]))
    case SetWired(pages) => s.(wired := pages)
    case CopyArea(a, b, t, u, shift) => Copied(s, a, b, t, u, shift)
    case NewArea(a, c, writable, file) =>
      s.(caches := s.caches[c := Cache(None, map[], if file.Some? then File(file.value) else NoSlots())],
         areas := s.areas[a := Area(c, writable)])
    case DeleteArea(a) => s.(areas := s.areas - {a}, maps := map m | m in s.maps && m.0 != a :: s.maps[m])
    case Merge(x, y) =>
      s.(caches := (s.caches - {x})[y := MergedCache(s.caches[y], s.caches[x])], frames := MergedFrames(s, x, y))
    case Drop(c) =>
      s.(caches := s.caches - {c}, frames := map p | p in s.frames && s.frames[p].cache != c :: s.frames[p])
  }

  /** What a new area shows: the file's contents, or zeros. */
  function Initial(file: Option<map<int, int>>, o: int): int {
    if file.Some? && o in file.value then file.value[o] else 0
  }

  /** What area a should show at o after a step, said without looking at caches. */
  ghost function Shows(s: State, act: Action, a: Id, o: int): int {
    match act
    case StoreValue(b, q, v) => if a == b && o == q then v else Content(s, a, o)
    case CopyArea(src, b, _, _, _) => if a == b then Content(s, src, o) else Content(s, a, o)
    case NewArea(b, _, _, file) => if a != b then Content(s, a, o) else Initial(file, o)
    case _ => Content(s, a, o)
  }

  /** The step changes what the area shows at o behind its back. */
  ghost predicate Spoils(s: State, act: Action, a: Id, o: int)
    requires Enabled(s, act)
  {
    && a in s.areas
    && var h := Find(s.caches, s.areas[a].cache, o);
    match act
    case Merge(x, y) => (h.cache == x || h.cache == y) && Spoiled(s.caches[y], s.caches[x], o)
    case FreeSlot(c, i) => h == Stored(c) && o != i && Swap.Goes(s.caches[c].back.blocks, i, o)
    case _ => false
  }

  /** What the chain holds below cache c. */
  function Beneath(s: State, c: Id, o: int): int
    requires c in s.caches
  {
    HitValue(s, FindBeneath(s.caches, c, o), o)
  }

  /** What it shows instead. */
  ghost function Revealed(s: State, act: Action, o: int): int
    requires Enabled(s, act)
  {
    match act
    case Merge(x, _) =>
      if o in s.caches[x].pages then FrameValue(s.frames, s.caches[x].pages[o]) else Beneath(s, x, o)
    case FreeSlot(c, _) => Beneath(s, c, o)
    case _ => 0
  }

  /** What the area does show at o after a step. */
  ghost function After(s: State, act: Action, a: Id, o: int): int
    requires Enabled(s, act)
  {
    if Spoils(s, act, a, o) then Revealed(s, act, o) else Shows(s, act, a, o)
  }

  /**
    Nobody sees a page lost: wherever the step changes what an area shows, it
    happens to show the same.  This can be evaluated before the step.
  */
  ghost predicate Harmless(s: State, act: Action)
    requires Enabled(s, act)
  {
    forall a, o | Spoils(s, act, a, o) :: Revealed(s, act, o) == Content(s, a, o)
  }

  /** The parts of the invariant that do not look at mappings. */
  ghost predicate Shape(s: State) { ChainsOk(s.caches) && PagesOk(s.caches, s.frames) && AreasOk(s) && TopsOk(s) }

  /** s2 finds page for page what s finds, perhaps under another cache's name, so nobody sees a difference. */
  ghost predicate SameView(s: State, s2: State) {
    forall a, o | a in s.areas && a in s2.areas :: Content(s2, a, o) == Content(s, a, o)
  }

  // ---- a page goes into a cache ----

  lemma InsertShape(s: State, x: Id, o: int, p: Id, v: int)
    requires Shape(s) && x in s.caches && p !in s.frames && o !in s.caches[x].pages
    ensures Shape(Insert(s, x, o, p, v))
  {
  }

  /** Where chains end or reach backing store, they find the new page. */
  lemma InsertReached(s: State, x: Id, i: int, p: Id, v: int, c: Id, o: int)
    requires Shape(s) && x in s.caches && p !in s.frames && i !in s.caches[x].pages && c in s.caches
    requires if Backed(s.caches[x].back, i) then v == Saved(s.disk, s.caches[x].back, i)
             else s.caches[x].source.None? && v == 0
    ensures Find(Insert(s, x, i, p, v).caches, c, o) ==
      if o == i && (Find(s.caches, c, o) == Stored(x) || Find(s.caches, c, o) == Nothing(x)) then Page(x, p)
        else Find(s.caches, c, o)
    ensures Value(Insert(s, x, i, p, v), c, o) == Value(s, c, o)
  {
    var s2 := Insert(s, x, i, p, v);
    FindHits(s.caches, c, o);
    if o == i {
      FindInserted(s.caches, x, s2.caches[x], p, c, o);
    } else {
      FindSame(s.caches, s2.caches, c, o);
    }
  }

  /** A page for a top cache is found from there only. */
  lemma InsertTop(s: State, x: Id, i: int, p: Id, v: int, c: Id, o: int)
    requires Shape(s) && x in s.caches && p !in s.frames && Own(s.caches[x], i).None? && c in s.caches
    requires NoConsumer(s.caches, x)
    requires v == Value(s, x, i)
    ensures Find(Insert(s, x, i, p, v).caches, c, o) == if c == x && o == i then Page(x, p) else Find(s.caches, c, o)
    ensures Value(Insert(s, x, i, p, v), c, o) == Value(s, c, o)
  {
    var s2 := Insert(s, x, i, p, v);
    FindHits(s.caches, c, o);
    if c != x {
      FindBelow(s.caches, x, s2.caches[x], c, o);
    } else if o != i {
      FindSame(s.caches, s2.caches, c, o);
    }
  }

  lemma InsertReachedKeeps(s: State, x: Id, i: int, p: Id, v: int)
    requires Inv(s) && x in s.caches && p !in s.frames && i !in s.caches[x].pages
    requires if Backed(s.caches[x].back, i) then v == Saved(s.disk, s.caches[x].back, i)
             else s.caches[x].source.None? && v == 0
    ensures Core(Insert(s, x, i, p, v)) && SameView(s, Insert(s, x, i, p, v))
  {
    var s2 := Insert(s, x, i, p, v);
    InsertShape(s, x, i, p, v);
    forall a, o | (a, o) in s2.maps ensures MappingOk(s2, a, o) {
      assert MappingOk(s, a, o);
      InsertReached(s, x, i, p, v, s.areas[a].cache, o);
    }
    forall a, o | a in s.areas ensures Content(s2, a, o) == Content(s, a, o) {
      InsertReached(s, x, i, p, v, s.areas[a].cache, o);
    }
  }

  /** The new top page replaces whatever the area had mapped there. */
  lemma InsertTopKeeps(s: State, a: Id, i: int, p: Id, v: int)
    requires Inv(s) && a in s.areas && s.areas[a].writable && p !in s.frames
    requires Own(s.caches[s.areas[a].cache], i).None? && v == Value(s, s.areas[a].cache, i)
    ensures var s2 := MapPage(Insert(s, s.areas[a].cache, i, p, v), a, i, p, true);
      Core(s2) && SameView(s, s2)
  {
    var x := s.areas[a].cache;
    var s1 := Insert(s, x, i, p, v);
    var s2 := MapPage(s1, a, i, p, true);
    InsertShape(s, x, i, p, v);
    assert NoConsumer(s.caches, x);
    forall b, o | (b, o) in s2.maps ensures MappingOk(s2, b, o) {
      if (b, o) == (a, i) {
        InsertTop(s, x, i, p, v, x, i);
      } else {
        assert MappingOk(s, b, o);
        InsertTop(s, x, i, p, v, s.areas[b].cache, o);
      }
    }
    forall b, o | b in s.areas ensures Content(s2, b, o) == Content(s, b, o) {
      InsertTop(s, x, i, p, v, s.areas[b].cache, o);
    }
  }

  // ---- faults ----

  /** Mapping the page a fault finds, writable only if it is the top cache's, is always right. */
  lemma MapFoundKeeps(s: State, a: Id, o: int, write: bool)
    requires Core(s) && a in s.areas && Find(s.caches, s.areas[a].cache, o).Page?
    requires write ==> s.areas[a].writable && Find(s.caches, s.areas[a].cache, o).cache == s.areas[a].cache
    ensures var s2 := MapPage(s, a, o, Find(s.caches, s.areas[a].cache, o).page, write); Core(s2) && SameView(s, s2)
  {
    var s2 := MapPage(s, a, o, Find(s.caches, s.areas[a].cache, o).page, write);
    forall b, q | (b, q) in s2.maps ensures MappingOk(s2, b, q) {
      if (b, q) != (a, o) { assert MappingOk(s, b, q); }
    }
  }

  lemma FaultKeeps(s: State, act: Action)
    requires Inv(s) && Enabled(s, act)
    requires act.MapFound? || act.CleanRead? || act.CleanWrite? || act.CopyUp? || act.PageIn?
    ensures Core(Do(s, act)) && SameView(s, Do(s, act))
  {
    var c := s.areas[act.a].cache;
    FindHits(s.caches, c, act.o);
    match act
    case MapFound(a, o) =>
      MapFoundKeeps(s, a, o, s.areas[a].writable && Find(s.caches, c, o).cache == c);
    case CleanRead(a, o, p) =>
      var d := Find(s.caches, c, o).cache;
      var s1 := Insert(s, d, o, p, 0);
      InsertReachedKeeps(s, d, o, p, 0);
      InsertReached(s, d, o, p, 0, c, o);
      MapFoundKeeps(s1, a, o, s.areas[a].writable && d == c);
      ViewTrans(s, s1, Do(s, act));
    case CleanWrite(a, o, p) =>
      FindTopNone(s.caches, c, o);
      InsertTopKeeps(s, a, o, p, 0);
    case CopyUp(a, o, p) =>
      FindTopNone(s.caches, c, o);
      InsertTopKeeps(s, a, o, p, FrameValue(s.frames, Find(s.caches, c, o).page));
    case PageIn(a, o, p) =>
      var d := Find(s.caches, c, o).cache;
      InsertReachedKeeps(s, d, o, p, Saved(s.disk, s.caches[d].back, o));
  }

  /** If a chain finds the page further down or nowhere, its top cache has nothing. */
  lemma FindTopNone(cs: map<Id, Cache>, c: Id, o: int)
    requires c in cs && (Find(cs, c, o).Nothing? || (Find(cs, c, o).Page? && Find(cs, c, o).cache != c))
    ensures Own(cs[c], o).None?
  {
  }

  lemma ViewTrans(s: State, s1: State, s2: State)
    requires s.areas == s1.areas == s2.areas && SameView(s, s1) && SameView(s1, s2)
    ensures SameView(s, s2)
  {
    forall a, o | a in s.areas ensures Content(s2, a, o) == Content(s, a, o) {
      assert Content(s1, a, o) == Content(s, a, o);
    }
  }

  // ---- stores, paging ----

  /** A store goes to a page that only the storing area can find. */
  lemma StoreSeen(s: State, a: Id, o: int, v: int, b: Id, q: int)
    requires Inv(s) && (a, o) in s.maps && s.maps[(a, o)].write && b in s.areas
    ensures Content(Do(s, StoreValue(a, o, v)), b, q) == if b == a && q == o then v else Content(s, b, q)
  {
    MappedPage(s, a, o);
    var c := s.areas[b].cache;
    FindHits(s.caches, c, q);
    if b != a && q == o {
      OnlyFromTop(s.caches, s.areas[a].cache, c, q);
    }
  }

  /** Nobody else's chain runs through a cache without consumers. */
  lemma {:induction false} OnlyFromTop(cs: map<Id, Cache>, x: Id, c: Id, o: int)
    requires ChainsOk(cs) && x in cs && c in cs && c != x && NoConsumer(cs, x)
    ensures Find(cs, c, o).cache != x
    decreases c
  {
    if Own(cs[c], o).None? && cs[c].source.Some? {
      OnlyFromTop(cs, x, cs[c].source.value, o);
    }
  }

  lemma StoreKeepsInv(s: State, a: Id, o: int, v: int)
    requires Inv(s) && (a, o) in s.maps && s.maps[(a, o)].write
    ensures Core(Do(s, StoreValue(a, o, v)))
  {
    MappedPage(s, a, o);
    var s2 := Do(s, StoreValue(a, o, v));
    forall b, q | (b, q) in s2.maps ensures MappingOk(s2, b, q) {
      assert MappingOk(s, b, q);
    }
  }

  /** Writing a resident page back changes no cache's pages and no other page's saved contents. */
  lemma WrittenAt(s: State, c: Id, i: int, slot: Swap.Slot, d: Id, o: int)
    requires Inv(s) && Enabled(s, WriteBack(c, i, slot)) && d in s.caches
    ensures var s2 := Written(s, c, i, slot);
      && d in s2.caches && s2.caches[d].source == s.caches[d].source && s2.caches[d].pages == s.caches[d].pages
      && Own(s2.caches[d], o) == Own(s.caches[d], o)
      && (o !in s.caches[d].pages ==> Saved(s2.disk, s2.caches[d].back, o) == Saved(s.disk, s.caches[d].back, o))
  {
    var k := s.caches[c];
    if k.back.Slots? {
      Swap.BuildIs(k.back.blocks, i, slot);
      var written := if Slot(k.back, i).Some? then Slot(k.back, i).value else slot;
      if (d, o) != (c, i) { assert Slot(s.caches[d].back, o) != Some(written); }
    }
  }

  lemma WriteBackKeeps(s: State, c: Id, i: int, slot: Swap.Slot)
    requires Inv(s) && Enabled(s, WriteBack(c, i, slot))
    ensures Core(Do(s, WriteBack(c, i, slot))) && SameView(s, Do(s, WriteBack(c, i, slot)))
  {
    hide Written, Slot, Saved, Swap.BlocksShaped;
    var s2 := Written(s, c, i, slot);
    WrittenRest(s, c, i, slot);
    forall d, o | d in s.caches
      ensures d in s2.caches && s2.caches[d].source == s.caches[d].source && s2.caches[d].pages == s.caches[d].pages
      ensures Own(s2.caches[d], o) == Own(s.caches[d], o)
      ensures o !in s.caches[d].pages ==> Saved(s2.disk, s2.caches[d].back, o) == Saved(s.disk, s.caches[d].back, o)
    {
      WrittenAt(s, c, i, slot, d, o);
    }
    SameLinks(s, s2);
    forall b, o | b in s.areas ensures Find(s2.caches, s.areas[b].cache, o) == Find(s.caches, s.areas[b].cache, o) {
      forall d | d in s.caches
        ensures d in s2.caches && s2.caches[d].source == s.caches[d].source
        ensures Own(s2.caches[d], o) == Own(s.caches[d], o)
      {
        WrittenAt(s, c, i, slot, d, o);
      }
      FindSame(s.caches, s2.caches, s.areas[b].cache, o);
    }
    forall b, o | (b, o) in s2.maps ensures MappingOk(s2, b, o) {
      assert MappingOk(s, b, o);
    }
    forall b, o | b in s.areas ensures Content(s2, b, o) == Content(s, b, o) {
      FindHits(s.caches, s.areas[b].cache, o);
    }
  }

  /** The same sources and pages: the shape is the same. */
  lemma SameLinks(s: State, s2: State)
    requires Shape(s) && s2.frames == s.frames && s2.areas == s.areas && s2.caches.Keys == s.caches.Keys
    requires forall d | d in s.caches ::
      s2.caches[d].source == s.caches[d].source && s2.caches[d].pages == s.caches[d].pages
    ensures Shape(s2)
  {
  }

  lemma WrittenRest(s: State, c: Id, i: int, slot: Swap.Slot)
    requires c in s.caches && i in s.caches[c].pages
    ensures var s2 := Written(s, c, i, slot);
      && s2.caches.Keys == s.caches.Keys
      && s2.frames == s.frames && s2.areas == s.areas && s2.maps == s.maps && s2.wired == s.wired
  {
    hide Swap.Build, Slot, FrameValue;
  }

  // ---- freeing a slot ----

  /** Cache x loses what it has at o: chains that found it there look further. */
  lemma {:induction false} FindLost(cs: map<Id, Cache>, x: Id, k: Cache, c: Id, o: int)
    requires ChainsOk(cs) && c in cs && x in cs && Own(cs[x], o) == Some(None)
    requires k.source == cs[x].source && Own(k, o).None?
    ensures Find(cs[x := k], c, o) == if Find(cs, c, o) == Stored(x) then FindBeneath(cs, x, o) else Find(cs, c, o)
    decreases c
  {
    FindHits(cs, c, o);
    if c == x {
      if cs[x].source.Some? { FindAbove(cs, x, k, cs[x].source.value, o); }
    } else if Own(cs[c], o).None? && cs[c].source.Some? {
      FindLost(cs, x, k, cs[c].source.value, o);
    }
  }

  /** What the chain finds below cache x. */
  function FindBeneath(cs: map<Id, Cache>, x: Id, o: int): Hit
    requires x in cs
  {
    if cs[x].source.Some? then Find(cs, cs[x].source.value, o) else Nothing(x)
  }

  /** A change of cache x is not noticed below x. */
  lemma {:induction false} FindAbove(cs: map<Id, Cache>, x: Id, k: Cache, c: Id, o: int)
    requires ChainsOk(cs) && c in cs && c < x
    ensures Find(cs[x := k], c, o) == Find(cs, c, o)
    decreases c
  {
    if Own(cs[c], o).None? && cs[c].source.Some? {
      FindAbove(cs, x, k, cs[c].source.value, o);
    }
  }

  /** The pages of a block are gone with the last slot its counter knows of. */
  lemma FreedAt(k: Cache, i: int, o: int)
    requires k.back.Slots? && Slot(k.back, i).Some? && Swap.BlocksShaped(k.back.blocks) && i in k.pages
    ensures var k2 := SlotFreed(k, i);
      && k2.source == k.source && k2.pages == k.pages && k2.back.Slots?
      && (if o != i && Swap.Goes(k.back.blocks, i, o) && Own(k, o) == Some(None)
          then Own(k2, o).None? else Own(k2, o) == Own(k, o))
      && (Slot(k2.back, o).Some? ==> Slot(k2.back, o) == Slot(k.back, o))
  {
    Swap.ReleaseIs(k.back.blocks, i);
  }

  lemma FreeSlotFind(s: State, c: Id, i: int, d: Id, o: int)
    requires Inv(s) && Enabled(s, FreeSlot(c, i)) && d in s.caches
    ensures Find(Do(s, FreeSlot(c, i)).caches, d, o) ==
      if Find(s.caches, d, o) == Stored(c) && o != i && Swap.Goes(s.caches[c].back.blocks, i, o)
      then FindBeneath(s.caches, c, o) else Find(s.caches, d, o)
  {
    var k := s.caches[c];
    FreedAt(k, i, o);
    FindHits(s.caches, d, o);
    if Own(SlotFreed(k, i), o) == Own(k, o) {
      FindSame(s.caches, s.caches[c := SlotFreed(k, i)], d, o);
    } else {
      FindLost(s.caches, c, SlotFreed(k, i), d, o);
    }
  }

  lemma FreeSlotKeeps(s: State, c: Id, i: int)
    requires Inv(s) && Enabled(s, FreeSlot(c, i))
    ensures Core(Do(s, FreeSlot(c, i)))
    ensures forall b, o | b in s.areas :: Content(Do(s, FreeSlot(c, i)), b, o) == After(s, FreeSlot(c, i), b, o)
  {
    hide SlotFreed, Swap.BlocksShaped, Swap.Goes;
    var s2 := Do(s, FreeSlot(c, i));
    FreedAt(s.caches[c], i, i);
    SameLinks(s, s2);
    forall b, o | (b, o) in s2.maps ensures MappingOk(s2, b, o) {
      assert MappingOk(s, b, o);
      FreeSlotFind(s, c, i, s.areas[b].cache, o);
    }
    forall b, o | b in s.areas ensures Content(s2, b, o) == After(s, FreeSlot(c, i), b, o) {
      FreeSlotFind(s, c, i, s.areas[b].cache, o);
      FindHits(s.caches, s.areas[b].cache, o);
      FreedAt(s.caches[c], i, o);
      BeneathValue(s, s2, c, o);
    }
  }

  /** What is below c has not changed. */
  lemma BeneathValue(s: State, s2: State, c: Id, o: int)
    requires ChainsOk(s.caches) && c in s.caches && s2.frames == s.frames && s2.disk == s.disk
    requires forall d | d in s.caches && d < c :: d in s2.caches && s2.caches[d] == s.caches[d]
    ensures HitValue(s2, FindBeneath(s.caches, c, o), o) == Beneath(s, c, o)
  {
    if s.caches[c].source.Some? { FindHits(s.caches, s.caches[c].source.value, o); }
  }

  lemma StealKeeps(s: State, c: Id, i: int)
    requires Inv(s) && Enabled(s, Steal(c, i))
    ensures Core(Do(s, Steal(c, i))) && SameView(s, Do(s, Steal(c, i)))
  {
    hide Slot, Written, SlotFreed, MergedCache, MergedFrames, OnTop, Saved, Backed;
    var s2 := Do(s, Steal(c, i));
    var p := s.caches[c].pages[i];
    StealShape(s, c, i);
    forall b, o | b in s.areas
      ensures Find(s2.caches, s.areas[b].cache, o) ==
        if Find(s.caches, s.areas[b].cache, o) == Page(c, p) && o == i then Stored(c)
          else Find(s.caches, s.areas[b].cache, o)
    {
      if o == i {
        FindRemoved(s.caches, c, s2.caches[c], s.areas[b].cache, o);
      } else {
        FindSame(s.caches, s2.caches, s.areas[b].cache, o);
      }
    }
    forall b, o | (b, o) in s2.maps ensures MappingOk(s2, b, o) {
      assert MappingOk(s, b, o);
    }
    forall b, o | b in s.areas ensures Content(s2, b, o) == Content(s, b, o) {
      FindHits(s.caches, s.areas[b].cache, o);
    }
  }

  lemma StealShape(s: State, c: Id, i: int)
    requires Inv(s) && Enabled(s, Steal(c, i))
    ensures Shape(Do(s, Steal(c, i)))
  {
    hide Slot, Written, SlotFreed, MergedCache, MergedFrames, OnTop, Saved;
    var s2 := Do(s, Steal(c, i));
    forall d, o | d in s2.caches && o in s2.caches[d].pages
      ensures s2.caches[d].pages[o] in s2.frames && s2.caches[d].pages[o] == s.caches[d].pages[o]
    {
      assert o in s.caches[d].pages;
    }
    assert forall d | d in s2.caches :: s2.caches[d].source == s.caches[d].source;
  }

  // ---- areas and caches come and go ----

  lemma NewAreaFind(s: State, act: Action, c: Id, o: int)
    requires Inv(s) && Enabled(s, act) && act.NewArea? && c in s.caches
    ensures Find(Do(s, act).caches, c, o) == Find(s.caches, c, o)
    ensures Value(Do(s, act), c, o) == Value(s, c, o)
  {
    hide Slot, Written, SlotFreed, MergedCache, MergedFrames, OnTop, Saved, Backed, FrameValue;
    FindSame(s.caches, Do(s, act).caches, c, o);
    FindHits(s.caches, c, o);
  }

  /** A cache without slots has nothing. */
  lemma NoSlotsIs(disk: map<Swap.Slot, int>, o: int)
    ensures !Backed(NoSlots(), o) && Slot(NoSlots(), o).None? && Saved(disk, NoSlots(), o) == 0
  {
  }

  lemma FileIs(disk: map<Swap.Slot, int>, file: map<int, int>, o: int)
    ensures Backed(File(file), o) <==> o in file
    ensures Saved(disk, File(file), o) == if o in file then file[o] else 0
  {
  }

  /** A new cache without pages, and a new area on it. */
  lemma NewCacheShape(s: State, t: Id, source: Option<Id>, back: Backing, b: Id, writable: bool)
    requires Shape(s) && t !in s.caches && b !in s.areas
    requires source.Some? ==> source.value in s.caches && source.value < t
    requires forall a | a in s.areas && s.areas[a].writable :: source != Some(s.areas[a].cache)
    ensures Shape(s.(caches := s.caches[t := Cache(source, map[], back)], areas := s.areas[b := Area(t, writable)]))
  {
    assert NoConsumer(s.caches[t := Cache(source, map[], back)], t);
  }

  lemma NewAreaKeeps(s: State, act: Action)
    requires Inv(s) && Enabled(s, act) && act.NewArea?
    ensures Core(Do(s, act))
    ensures forall b, o | b in Do(s, act).areas :: Content(Do(s, act), b, o) == Shows(s, act, b, o)
  {
    hide Do, Enabled, Core, Content, Shows, Inv;
    NewAreaCore(s, act);
    forall b, o | b in Do(s, act).areas ensures Content(Do(s, act), b, o) == Shows(s, act, b, o) {
      NewAreaContent(s, act, b, o);
    }
  }

  lemma NewAreaCore(s: State, act: Action)
    requires Inv(s) && Enabled(s, act) && act.NewArea?
    ensures Core(Do(s, act))
  {
    hide Slot, Written, SlotFreed, MergedCache, MergedFrames, OnTop, Saved, Backed, FrameValue;
    var s2 := Do(s, act);
    NewCacheShape(s, act.c, None, if act.file.Some? then File(act.file.value) else NoSlots(), act.a, act.writable);
    forall b, o | (b, o) in s2.maps ensures MappingOk(s2, b, o) {
      assert MappingOk(s, b, o);
      NewAreaFind(s, act, s.areas[b].cache, o);
    }
  }

  lemma NewAreaContent(s: State, act: Action, b: Id, o: int)
    requires Inv(s) && Enabled(s, act) && act.NewArea? && Core(Do(s, act)) && b in Do(s, act).areas
    ensures Content(Do(s, act), b, o) == Shows(s, act, b, o)
  {
    hide Slot, Written, SlotFreed, MergedCache, MergedFrames, OnTop, Saved, Backed, FrameValue;
    if b in s.areas {
      NewAreaFind(s, act, s.areas[b].cache, o);
    } else {
      NoSlotsIs(s.disk, o);
      if act.file.Some? { FileIs(s.disk, act.file.value, o); }
    }
  }

  lemma DeleteAreaKeeps(s: State, a: Id)
    requires Inv(s)
    ensures Core(Do(s, DeleteArea(a))) && SameView(s, Do(s, DeleteArea(a)))
  {
    var s2 := Do(s, DeleteArea(a));
    forall b, o | (b, o) in s2.maps ensures MappingOk(s2, b, o) {
      assert MappingOk(s, b, o);
    }
  }

  lemma UnmapKeeps(s: State, a: Id, i: int)
    requires Inv(s)
    ensures Core(Do(s, Unmap(a, i))) && SameView(s, Do(s, Unmap(a, i)))
  {
    var s2 := Do(s, Unmap(a, i));
    forall b, o | (b, o) in s2.maps ensures MappingOk(s2, b, o) {
      assert MappingOk(s, b, o);
    }
  }

  lemma SetWiredKeeps(s: State, pages: set<Id>)
    requires Inv(s)
    ensures Core(Do(s, SetWired(pages))) && SameView(s, Do(s, SetWired(pages)))
  {
    var s2 := Do(s, SetWired(pages));
    forall b, o | (b, o) in s2.maps ensures MappingOk(s2, b, o) {
      assert MappingOk(s, b, o);
    }
  }

  /** Chains that never meet x do not miss it. */
  lemma {:induction false} FindWithout(cs: map<Id, Cache>, x: Id, c: Id, o: int)
    requires ChainsOk(cs) && c in cs && c != x && NoConsumer(cs, x)
    ensures Find(cs - {x}, c, o) == Find(cs, c, o)
    decreases c
  {
    if Own(cs[c], o).None? && cs[c].source.Some? {
      FindWithout(cs, x, cs[c].source.value, o);
    }
  }

  lemma DropKeeps(s: State, c: Id)
    requires Inv(s) && Enabled(s, Drop(c))
    ensures Core(Do(s, Drop(c))) && SameView(s, Do(s, Drop(c)))
  {
    var s2 := Do(s, Drop(c));
    assert Shape(s2);
    forall b, o | (b, o) in s2.maps ensures MappingOk(s2, b, o) {
      assert MappingOk(s, b, o);
      FindWithout(s.caches, c, s.areas[b].cache, o);
    }
    forall b, o | b in s.areas ensures Content(s2, b, o) == Content(s, b, o) {
      FindHits(s.caches, s.areas[b].cache, o);
      FindWithout(s.caches, c, s.areas[b].cache, o);
      if c in s.caches { OnlyFromTop(s.caches, c, s.areas[b].cache, o); }
    }
  }

  // ---- merging ----

  function Relabel(h: Hit, x: Id, y: Id): Hit { if h.cache == x then h.(cache := y) else h }

  ghost function MergedCaches(cs: map<Id, Cache>, x: Id, y: Id): map<Id, Cache>
    requires x in cs && y in cs && cs[x].back.Slots? && cs[y].back.Slots?
  {
    (cs - {x})[y := MergedCache(cs[y], cs[x])]
  }

  ghost predicate Joins(cs: map<Id, Cache>, x: Id, y: Id) {
    ChainsOk(cs) && BacksShaped(cs) && OnlyConsumer(cs, x, y) && cs[x].back.Slots? && cs[y].back.Slots?
  }

  function AsOwn(e: Swap.Entry<Id>): Option<Option<Id>> {
    match e
    case Resident(p) => Some(Some(p))
    case Swapped(_) => Some(None)
    case Absent => None
  }

  /** The merged cache at o: consumer over source, unless that page is spoiled. */
  lemma MergedOwn(upper: Cache, lower: Cache, o: int)
    requires upper.back.Slots? && lower.back.Slots?
    requires Swap.BlocksShaped(upper.back.blocks) && Swap.BlocksShaped(lower.back.blocks)
    ensures var m := MergedCache(upper, lower);
      && m.back.Slots? && m.source == lower.source
      && (if Spoiled(upper, lower, o)
          then Own(m, o) == (if o in lower.pages then Some(Some(lower.pages[o])) else None) && o !in upper.pages
               && (Own(upper, o).Some? ==> o in lower.pages) && (Own(upper, o).None? ==> o !in lower.pages)
               && (Own(upper, o).Some? || Own(lower, o).Some?)
          else Own(m, o) == if Own(upper, o).Some? then Own(upper, o) else Own(lower, o))
      && (!Spoiled(upper, lower, o) && Own(m, o) == Some(None) ==>
          Slot(m.back, o) == if Own(upper, o).Some? then Slot(upper.back, o) else Slot(lower.back, o))
  {
    hide Swap.Outcome, Swap.BlocksShaped;
    var m := MergedCache(upper, lower);
    Swap.OutcomeViewAt(Im(upper), Im(lower), upper.back.size, lower.back.size, o);
    assert Own(m, o) == AsOwn(Swap.Own(Im(m), o));
  }

  /** Merging x into its only consumer y: every chain finds the same page as before, unless it is spoiled. */
  lemma {:induction false} FindMerged(cs: map<Id, Cache>, x: Id, y: Id, c: Id, o: int)
    requires Joins(cs, x, y) && c in cs && c != x
    ensures var h, h2 := Find(cs, c, o), Find(MergedCaches(cs, x, y), c, o);
      if (h.cache == x || h.cache == y) && Spoiled(cs[y], cs[x], o)
      then h2 == (if o in cs[x].pages then Page(y, cs[x].pages[o]) else Relabel(FindBeneath(cs, x, o), x, y))
      else h2 == Relabel(h, x, y)
    decreases c
  {
    hide Spoiled, MergedCache, BacksShaped;
    var cs2 := MergedCaches(cs, x, y);
    if c == y {
      MergedShapes(cs, x, y);
      MergedOwn(cs[y], cs[x], o);
      FindHits(cs, y, o);
      if cs[x].source.Some? {
        var d := cs[x].source.value;
        FindMerged(cs, x, y, d, o);
        FindHits(cs, d, o);
      }
    } else if Own(cs[c], o).None? && cs[c].source.Some? {
      FindMerged(cs, x, y, cs[c].source.value, o);
    }
  }

  lemma MergedShapes(cs: map<Id, Cache>, x: Id, y: Id)
    requires Joins(cs, x, y)
    ensures Swap.BlocksShaped(cs[x].back.blocks) && Swap.BlocksShaped(cs[y].back.blocks)
  {
  }

  /** What is found in a page is never spoiled. */
  lemma {:induction false} PagesNotSpoiled(cs: map<Id, Cache>, x: Id, y: Id, c: Id, o: int)
    requires Joins(cs, x, y) && c in cs && c != x && Find(cs, c, o).Page?
    requires Find(cs, c, o).cache == x || Find(cs, c, o).cache == y
    ensures !Spoiled(cs[y], cs[x], o)
  {
    hide Spoiled, MergedCache, BacksShaped;
    MergedShapes(cs, x, y);
    MergedOwn(cs[y], cs[x], o);
    FindHits(cs, c, o);
    if Find(cs, c, o).cache == x { FindThrough(cs, x, y, c, o); }
  }

  /** Where the merged cache's pages come from. */
  lemma MergedPage(upper: Cache, lower: Cache, o: int)
    requires upper.back.Slots? && lower.back.Slots? && o in MergedCache(upper, lower).pages
    ensures var p := MergedCache(upper, lower).pages[o];
      if o in upper.pages then p == upper.pages[o] else o in lower.pages && p == lower.pages[o]
  {
  }

  lemma MergeShape(s: State, x: Id, y: Id)
    requires Inv(s) && Enabled(s, Merge(x, y))
    ensures Shape(Do(s, Merge(x, y)))
  {
    hide MergedCache;
    var s2 := Do(s, Merge(x, y));
    assert x != y;
    assert MergedCache(s.caches[y], s.caches[x]).source ==
      s.caches[x].source by { MergedSource(s.caches[y], s.caches[x]); }
    forall d, o | d in s2.caches && o in s2.caches[d].pages
      ensures s2.caches[d].pages[o] in s2.frames
      ensures s2.frames[s2.caches[d].pages[o]].cache == d && s2.frames[s2.caches[d].pages[o]].offset == o
    {
      if d == y { MergedPage(s.caches[y], s.caches[x], o); }
      var from := if d == y && o !in s.caches[y].pages then x else d;
      assert o in s.caches[from].pages;
    }
    forall d | d in s2.caches
      ensures s2.caches[d].source.Some? ==> s2.caches[d].source.value in s2.caches && s2.caches[d].source.value < d
    {
    }
  }

  lemma MergedSource(upper: Cache, lower: Cache)
    requires upper.back.Slots? && lower.back.Slots?
    ensures MergedCache(upper, lower).source == lower.source && MergedCache(upper, lower).back.Slots?
  {
  }

  lemma MergeKeeps(s: State, x: Id, y: Id)
    requires Inv(s) && Enabled(s, Merge(x, y))
    ensures Core(Do(s, Merge(x, y)))
    ensures forall b, o | b in s.areas :: Content(Do(s, Merge(x, y)), b, o) == After(s, Merge(x, y), b, o)
  {
    hide MergedCache, Spoiled, BacksShaped;
    var s2 := Do(s, Merge(x, y));
    MergeShape(s, x, y);
    forall b, o | (b, o) in s2.maps ensures MappingOk(s2, b, o) {
      assert MappingOk(s, b, o);
      var h := Find(s.caches, s.areas[b].cache, o);
      FindMerged(s.caches, x, y, s.areas[b].cache, o);
      if h.cache == x || h.cache == y { PagesNotSpoiled(s.caches, x, y, s.areas[b].cache, o); }
    }
    forall b, o | b in s.areas ensures Content(s2, b, o) == After(s, Merge(x, y), b, o) {
      MergeValue(s, x, y, b, o);
    }
  }

  /** A chain gets to x only through y. */
  lemma {:induction false} FindThrough(cs: map<Id, Cache>, x: Id, y: Id, c: Id, o: int)
    requires ChainsOk(cs) && OnlyConsumer(cs, x, y) && c in cs && c != x && Find(cs, c, o).cache == x
    ensures Own(cs[y], o).None?
    decreases c
  {
    if c != y {
      FindThrough(cs, x, y, cs[c].source.value, o);
    } else {
      FindHits(cs, cs[y].source.value, o);
    }
  }

  ghost predicate GoesUp(upper: Cache, lower: Cache, o: int)
    requires upper.back.Slots? && lower.back.Slots? && o in lower.pages
  {
    var up := MergedCache(upper, lower).pages;
    o in up && up[o] == lower.pages[o]
  }

  /** Pages found outside x, and those that go up from x, keep their contents. */
  lemma MergedFrame(s: State, x: Id, y: Id, c: Id, o: int)
    requires Inv(s) && Enabled(s, Merge(x, y)) && c in s.caches && o in s.caches[c].pages
    requires c == x ==> GoesUp(s.caches[y], s.caches[x], o)
    ensures FrameValue(Do(s, Merge(x, y)).frames, s.caches[c].pages[o]) == FrameValue(s.frames, s.caches[c].pages[o])
  {
    hide MergedCache;
    assert s.frames[s.caches[c].pages[o]].cache == c && s.frames[s.caches[c].pages[o]].offset == o;
  }

  lemma MergeValue(s: State, x: Id, y: Id, b: Id, o: int)
    requires Inv(s) && Enabled(s, Merge(x, y)) && b in s.areas
    ensures Content(Do(s, Merge(x, y)), b, o) == After(s, Merge(x, y), b, o)
  {
    hide MergedCache, Spoiled, BacksShaped, MergedFrames, Saved;
    var c, s2 := s.areas[b].cache, Do(s, Merge(x, y));
    var h := Find(s.caches, c, o);
    FindHits(s.caches, c, o);
    FindMerged(s.caches, x, y, c, o);
    if h.cache == x { FindThrough(s.caches, x, y, c, o); }
    MergedShapes(s.caches, x, y);
    MergedOwn(s.caches[y], s.caches[x], o);
    if (h.cache == x || h.cache == y) && Spoiled(s.caches[y], s.caches[x], o) {
      if o in s.caches[x].pages {
        MergedFrame(s, x, y, x, o);
      } else {
        MergeBeneath(s, x, y, o);
      }
    } else {
      MergeHit(s, x, y, h, o);
    }
  }

  lemma MergeBeneath(s: State, x: Id, y: Id, o: int)
    requires Inv(s) && Enabled(s, Merge(x, y))
    ensures HitValue(Do(s, Merge(x, y)), Relabel(FindBeneath(s.caches, x, o), x, y), o) == Beneath(s, x, o)
  {
    hide MergedCache, MergedFrames, Saved;
    var h := FindBeneath(s.caches, x, o);
    if s.caches[x].source.Some? { FindHits(s.caches, s.caches[x].source.value, o); }
    if h.Page? { MergedFrame(s, x, y, h.cache, o); }
  }

  /** A hit that is not spoiled has the same contents under its new name. */
  lemma MergeHit(s: State, x: Id, y: Id, h: Hit, o: int)
    requires Inv(s) && Enabled(s, Merge(x, y)) && h.cache in s.caches
    requires h.Page? ==> o in s.caches[h.cache].pages && s.caches[h.cache].pages[o] == h.page
    requires h.Stored? ==> Own(s.caches[h.cache], o) == Some(None)
    requires h.cache == x ==> Own(s.caches[y], o).None?
    requires (h.cache == x || h.cache == y) ==> !Spoiled(s.caches[y], s.caches[x], o)
    ensures HitValue(Do(s, Merge(x, y)), Relabel(h, x, y), o) == HitValue(s, h, o)
  {
    hide MergedCache, MergedFrames, Spoiled, BacksShaped;
    MergedShapes(s.caches, x, y);
    MergedOwn(s.caches[y], s.caches[x], o);
    if h.Page? { MergedFrame(s, x, y, h.cache, o); }
  }

  // ---- copying an area ----

  /** A read-only area's copy: a new cache on top of its cache. */
  lemma CopyReadOnlyKeeps(s: State, act: Action)
    requires Inv(s) && Enabled(s, act) && act.CopyArea? && !s.areas[act.a].writable
    ensures Core(Do(s, act))
    ensures forall b, o | b in Do(s, act).areas :: Content(Do(s, act), b, o) == Shows(s, act, b, o)
  {
    hide Slot, Written, SlotFreed, MergedCache, MergedFrames, OnTop, Saved, Backed, FrameValue;
    var s2 := Do(s, act);
    NewCacheShape(s, act.t, Some(s.areas[act.a].cache), NoSlots(), act.b, false);
    forall b, o | b in s.areas ensures Find(s2.caches, s.areas[b].cache, o) == Find(s.caches, s.areas[b].cache, o) {
      FindSame(s.caches, s2.caches, s.areas[b].cache, o);
    }
    forall b, o | (b, o) in s2.maps ensures MappingOk(s2, b, o) {
      assert MappingOk(s, b, o);
    }
    forall b, o | b in s2.areas ensures Content(s2, b, o) == Shows(s, act, b, o) {
      var c := if b in s.areas then s.areas[b].cache else s.areas[act.a].cache;
      NoSlotsIs(s.disk, o);
      FindHits(s.caches, c, o);
      assert Find(s2.caches, c, o) == Find(s.caches, c, o);
    }
  }

  ghost predicate Forks(s: State, act: Action) {
    Inv(s) && Enabled(s, act) && act.CopyArea? && s.areas[act.a].writable
  }

  /**
    The caches after a fork: c keeps `below`, the source area's new cache u gets `up`, the
    target's new cache t nothing.
  */
  ghost function ForkCaches(cs: map<Id, Cache>, c: Id, t: Id, u: Id, below: map<int, Id>, up: map<int,
                            Id>): (cs2: map<Id, Cache>)
    requires c in cs
  {
    cs[t := Cache(Some(c), map[], NoSlots())][c := cs[c].(pages := below)][u := Cache(Some(c), up, NoSlots())]
  }

  ghost predicate ForkRoom(cs: map<Id, Cache>, c: Id, t: Id, u: Id, below: map<int, Id>) {
    && ChainsOk(cs) && c in cs && NoConsumer(cs, c) && t !in cs && u !in cs && t != u && c < t && c < u
    && below.Keys == cs[c].pages.Keys
  }

  lemma ForkFindOld(cs: map<Id, Cache>, c: Id, t: Id, u: Id, below: map<int, Id>, up: map<int, Id>, d: Id, o: int)
    requires ForkRoom(cs, c, t, u, below) && d in cs
    ensures Find(ForkCaches(cs, c, t, u, below, up), d, o) == if d == c && o in below then Page(c, below[o])
      else Find(cs, d, o)
  {
    var k := cs[c].(pages := below);
    var cs1, cs2 := cs[c := k], ForkCaches(cs, c, t, u, below, up);
    FindSame(cs1, cs2, d, o);
    assert o in below <==> o in cs[c].pages;
    if d != c {
      FindBelow(cs, c, k, d, o);
    } else if Own(cs[c], o).None? && cs[c].source.Some? {
      FindBelow(cs, c, k, cs[c].source.value, o);
    }
  }

  lemma ForkFindNew(cs: map<Id, Cache>, c: Id, t: Id, u: Id, below: map<int, Id>, up: map<int, Id>, o: int)
    requires ForkRoom(cs, c, t, u, below)
    ensures var cs2 := ForkCaches(cs, c, t, u, below, up);
      && Find(cs2, t, o) == Find(cs2, c, o)
      && Find(cs2, u, o) == if o in up then Page(u, up[o]) else Find(cs2, c, o)
  {
  }

  /** What a fork does to the state. */
  lemma ForkState(s: State, act: Action)
    requires Forks(s, act)
    ensures var c, s2 := s.areas[act.a].cache, Do(s, act);
      && s2.caches == ForkCaches(s.caches, c, act.t, act.u, Below(s, act), Up(s, act))
      && s2.frames == UpFrames(s.frames, s.wired, c, act.u, act.shift)
      && s2.areas == s.areas[act.b := Area(act.t, true)][act.a := Area(act.u, true)]
      && s2.maps == ReadOnly(s.maps, s.wired, act.a) && s2.disk == s.disk
  {
    assert s.areas[act.a].cache in s.caches;
    hide UpFrames, PagesBelow, WiredIn, ReadOnly, Find, Inv;
  }

  lemma ForkFits(s: State, act: Action)
    requires Forks(s, act)
    ensures ForkRoom(s.caches, s.areas[act.a].cache, act.t, act.u, Below(s, act))
  {
    assert NoConsumer(s.caches, s.areas[act.a].cache);
  }

  lemma ForkStores(cs: map<Id, Cache>, c: Id, t: Id, u: Id, below: map<int, Id>, up: map<int, Id>, d: Id)
    requires ForkRoom(cs, c, t, u, below) && d in cs
    ensures d in ForkCaches(cs, c, t, u, below, up) && ForkCaches(cs, c, t, u, below, up)[d].back == cs[d].back
  {
  }

  lemma ForkChains(cs: map<Id, Cache>, c: Id, t: Id, u: Id, below: map<int, Id>, up: map<int, Id>)
    requires ForkRoom(cs, c, t, u, below)
    ensures ChainsOk(ForkCaches(cs, c, t, u, below, up))
    ensures NoConsumer(ForkCaches(cs, c, t, u, below, up), t) && NoConsumer(ForkCaches(cs, c, t, u, below, up), u)
    ensures forall x | x in cs && x != c && NoConsumer(cs, x) :: NoConsumer(ForkCaches(cs, c, t, u, below, up), x)
    ensures forall x | x in cs :: x in ForkCaches(cs, c, t, u, below, up)
    ensures t in ForkCaches(cs, c, t, u, below, up) && u in ForkCaches(cs, c, t, u, below, up)
  {
  }

  ghost function Below(s: State, act: Action): map<int, Id>
    requires Forks(s, act)
  {
    PagesBelow(s.caches[s.areas[act.a].cache].pages, s.wired, act.shift)
  }

  ghost function Up(s: State, act: Action): map<int, Id>
    requires Forks(s, act)
  {
    WiredIn(s.caches[s.areas[act.a].cache].pages, s.wired)
  }

  /** Pages keep number and contents; the copy of a wired page has its contents. */
  lemma ForkFrame(s: State, c: Id, u: Id, shift: nat, p: Id)
    requires FreshFrom(s, shift) && p in s.frames
    ensures var f := UpFrames(s.frames, s.wired, c, u, shift);
      && p in f && f[p] == (if s.frames[p].cache == c && p in s.wired then s.frames[p].(cache := u) else s.frames[p])
      && (s.frames[p].cache == c && p in s.wired ==> p + shift in f && f[p + shift] == s.frames[p])
  {
    assert p < shift;
    if s.frames[p].cache == c && p in s.wired {
      assert p + shift !in s.frames;
      assert p + shift in (set q | q in s.frames :: q + shift);
    }
  }

  lemma ForkPages(s: State, act: Action)
    requires Forks(s, act)
    ensures PagesOk(Do(s, act).caches, Do(s, act).frames)
  {
    hide Do, UpFrames;
    var c, s2 := s.areas[act.a].cache, Do(s, act);
    ForkState(s, act);
    forall d, o | d in s2.caches && o in s2.caches[d].pages
      ensures s2.caches[d].pages[o] in s2.frames
      ensures s2.frames[s2.caches[d].pages[o]].cache == d && s2.frames[s2.caches[d].pages[o]].offset == o
    {
      var p := if d == act.u then s.caches[c].pages[o] else s.caches[d].pages[o];
      ForkFrame(s, c, act.u, act.shift, p);
    }
  }

  lemma ForkShape(s: State, act: Action)
    requires Forks(s, act)
    ensures Shape(Do(s, act))
  {
    hide Do, UpFrames, PagesOk, WiredIn, PagesBelow, ForkCaches, NoConsumer;
    ForkPages(s, act);
    ForkState(s, act);
    ForkFits(s, act);
    ForkChains(s.caches, s.areas[act.a].cache, act.t, act.u, Below(s, act), Up(s, act));
  }

  lemma ForkKeepsInv(s: State, act: Action)
    requires Forks(s, act)
    ensures Core(Do(s, act))
  {
    hide Do, UpFrames, PagesOk, ForkCaches;
    var c, s2 := s.areas[act.a].cache, Do(s, act);
    var below, up := Below(s, act), Up(s, act);
    ForkShape(s, act);
    ForkState(s, act);
    ForkFits(s, act);
    forall b, o | (b, o) in s2.maps ensures MappingOk(s2, b, o) {
      assert MappingOk(s, b, o);
      MappedPage(s, b, o);
      ForkFindOld(s.caches, c, act.t, act.u, below, up, s.areas[b].cache, o);
      ForkFindNew(s.caches, c, act.t, act.u, below, up, o);
      ForkFindOld(s.caches, c, act.t, act.u, below, up, c, o);
    }
  }

  lemma ForkContent(s: State, act: Action, b: Id, o: int)
    requires Forks(s, act) && b in Do(s, act).areas
    ensures Content(Do(s, act), b, o) == Shows(s, act, b, o)
  {
    hide Do, UpFrames, ForkCaches;
    var c, s2 := s.areas[act.a].cache, Do(s, act);
    ForkState(s, act);
    ForkFits(s, act);
    var d := if b in s.areas then s.areas[b].cache else c;
    var below, up := Below(s, act), Up(s, act);
    ForkFindOld(s.caches, c, act.t, act.u, below, up, d, o);
    ForkFindNew(s.caches, c, act.t, act.u, below, up, o);
    FindHits(s.caches, d, o);
    var h := Find(s.caches, d, o);
    ForkStores(s.caches, c, act.t, act.u, below, up, h.cache);
    if h.Page? { ForkFrame(s, c, act.u, act.shift, h.page); }
  }

  // ---- every step, every run ----

  /** Slots only disappear. */
  lemma ApartFrom(cs: map<Id, Cache>, cs2: map<Id, Cache>)
    requires SlotsApart(cs)
    requires forall c, o | c in cs2 && Slot(cs2[c].back, o).Some? ::
      c in cs && Slot(cs[c].back, o) == Slot(cs2[c].back, o)
    ensures SlotsApart(cs2)
  {
  }

  /** Caches keep their backing store, or are new and have none. */
  lemma SameBacks(cs: map<Id, Cache>, cs2: map<Id, Cache>)
    requires BacksOk(cs)
    requires Stays(cs, cs2)
    ensures BacksOk(cs2)
  {
    ApartFrom(cs, cs2);
  }

  lemma WrittenBacks(s: State, c: Id, i: int, slot: Swap.Slot)
    requires Inv(s) && Enabled(s, WriteBack(c, i, slot))
    ensures BacksOk(Do(s, WriteBack(c, i, slot)).caches)
  {
    var s2, k := Do(s, WriteBack(c, i, slot)), s.caches[c];
    if k.back.Slots? && Slot(k.back, i).None? {
      Swap.BuildIs(k.back.blocks, i, slot);
      forall d, o | d in s2.caches
        ensures Slot(s2.caches[d].back, o) == if d == c && o == i then Some(slot) else Slot(s.caches[d].back, o)
      {
      }
      assert Unused(s.caches, slot);
    } else {
      SameBacks(s.caches, s2.caches);
    }
  }

  lemma FreeSlotBacks(s: State, c: Id, i: int)
    requires Inv(s) && Enabled(s, FreeSlot(c, i))
    ensures BacksOk(Do(s, FreeSlot(c, i)).caches)
  {
    var s2, k := Do(s, FreeSlot(c, i)), s.caches[c];
    Swap.ReleaseIs(k.back.blocks, i);
    forall d, o | d in s2.caches && Slot(s2.caches[d].back, o).Some?
      ensures Slot(s.caches[d].back, o) == Slot(s2.caches[d].back, o) {
    }
    ApartFrom(s.caches, s2.caches);
  }

  /** A slot of the merged cache was at the same offset of one of the two. */
  lemma MergedSlots(upper: Cache, lower: Cache, o: int)
    requires upper.back.Slots? && lower.back.Slots?
    requires Swap.BlocksShaped(upper.back.blocks) && Swap.BlocksShaped(lower.back.blocks)
    ensures var m := MergedCache(upper, lower);
      && Swap.BlocksShaped(m.back.blocks)
      && (Slot(m.back, o).Some? ==>
        Slot(m.back, o) == if Slot(upper.back, o).Some? then Slot(upper.back, o) else Slot(lower.back, o))
  {
    Swap.MergedSlotAt(Im(upper), Im(lower), o);
    Swap.MergedShaped(Im(upper), Im(lower));
  }

  lemma MergeBacks(s: State, x: Id, y: Id)
    requires Inv(s) && Enabled(s, Merge(x, y))
    ensures BacksOk(Do(s, Merge(x, y)).caches)
  {
    hide MergedCache, Swap.BlocksShaped, Slot, MergedFrames;
    var cs, cs2 := s.caches, Do(s, Merge(x, y)).caches;
    MergedSlots(cs[y], cs[x], 0);
    forall c, o | c in cs2 && Slot(cs2[c].back, o).Some?
      ensures Slot(cs[From(cs, x, y, c, o)].back, o) == Slot(cs2[c].back, o) {
      if c == y { MergedSlots(cs[y], cs[x], o); }
    }
    forall c, o, d, q | c in cs2 && d in cs2 && Slot(cs2[c].back, o).Some?
      && Slot(cs2[c].back, o) == Slot(cs2[d].back, q)
      ensures c == d && o == q
    {
      assert Slot(cs[From(cs, x, y, c, o)].back, o) == Slot(cs[From(cs, x, y, d, q)].back, q);
    }
  }

  /** The cache that had what the merged cache has at o. */
  function From(cs: map<Id, Cache>, x: Id, y: Id, c: Id, o: int): (d: Id)
    requires x in cs && y in cs && c in cs
    ensures d in cs
  {
    if c == y && Slot(cs[y].back, o).None? then x else c
  }

  lemma StepBacks(s: State, act: Action)
    requires Inv(s) && Enabled(s, act)
    ensures BacksOk(Do(s, act).caches)
  {
    hide Core, BacksOk, Do, Enabled;
    match act {
      case WriteBack(c, o, slot) => WrittenBacks(s, c, o, slot);
      case FreeSlot(c, o) => FreeSlotBacks(s, c, o);
      case Merge(x, y) => MergeBacks(s, x, y);
      case _ =>
        BacksStay(s, act);
        SameBacks(s.caches, Do(s, act).caches);
    }
  }

  /** The other steps leave every backing store alone; new caches have none, or a file. */
  ghost predicate Stays(cs: map<Id, Cache>, cs2: map<Id, Cache>) {
    forall c | c in cs2 :: (c in cs && cs2[c].back == cs[c].back) || cs2[c].back == NoSlots() || cs2[c].back.File?
  }

  lemma InsertStays(s: State, x: Id, o: int, p: Id, v: int)
    ensures Stays(s.caches, Insert(s, x, o, p, v).caches)
  {
  }

  lemma CopiedStays(s: State, a: Id, b: Id, t: Id, u: Id, shift: nat)
    requires a in s.areas
    ensures Stays(s.caches, Copied(s, a, b, t, u, shift).caches)
  {
    hide UpFrames, PagesBelow, WiredIn, ReadOnly;
  }

  lemma BacksStay(s: State, act: Action)
    requires Enabled(s, act) && !act.WriteBack? && !act.FreeSlot? && !act.Merge?
    ensures Stays(s.caches, Do(s, act).caches)
  {
    hide Insert, Copied, Find, HitValue, FrameValue, Unmapped;
    match act {
      case CleanRead(a, o, p) => InsertStays(s, Find(s.caches, s.areas[a].cache, o).cache, o, p, 0);
      case CleanWrite(a, o, p) => InsertStays(s, s.areas[a].cache, o, p, 0);
      case CopyUp(a, o, p) =>
        InsertStays(s, s.areas[a].cache, o, p, FrameValue(s.frames, Find(s.caches, s.areas[a].cache, o).page));
      case PageIn(a, o, p) =>
        var h := Find(s.caches, s.areas[a].cache, o);
        InsertStays(s, h.cache, o, p, HitValue(s, h, o));
      case CopyArea(a, b, t, u, shift) => CopiedStays(s, a, b, t, u, shift);
      case _ =>
    }
  }

  /** A step keeps the invariant, and says what every area shows afterwards, also where a page is lost. */
  lemma StepKeeps(s: State, act: Action)
    requires Inv(s) && Enabled(s, act)
    ensures Inv(Do(s, act))
    ensures forall b, o | b in Do(s, act).areas :: Content(Do(s, act), b, o) == After(s, act, b, o)
  {
    hide Inv, Core, BacksOk, Find, HitValue, MergedCache, MergedFrames, OnTop, Written, SlotFreed, Spoiled, Swap.Goes;
    StepBacks(s, act);
    StepInv(s, act);
    match act
    case MapFound(_, _) => FaultKeeps(s, act);
    case CleanRead(_, _, _) => FaultKeeps(s, act);
    case CleanWrite(_, _, _) => FaultKeeps(s, act);
    case CopyUp(_, _, _) => FaultKeeps(s, act);
    case PageIn(_, _, _) => FaultKeeps(s, act);
    case StoreValue(a, o, v) =>
      forall b, q | b in Do(s, act).areas ensures Content(Do(s, act), b, q) == Shows(s, act, b, q) {
        StoreSeen(s, a, o, v, b, q);
      }
    case Unmap(a, o) => UnmapKeeps(s, a, o);
    case WriteBack(c, o, slot) => WriteBackKeeps(s, c, o, slot); WrittenAreas(s, c, o, slot);
    case FreeSlot(c, o) => FreeSlotKeeps(s, c, o);
    case Steal(c, o) => StealKeeps(s, c, o);
    case SetWired(pages) => SetWiredKeeps(s, pages);
    case CopyArea(a, _, _, _, _) =>
      if s.areas[a].writable {
        forall b, o | b in Do(s, act).areas ensures Content(Do(s, act), b, o) == Shows(s, act, b, o) {
          ForkContent(s, act, b, o);
        }
      } else {
        CopyReadOnlyKeeps(s, act);
      }
    case NewArea(_, _, _, _) => NewAreaKeeps(s, act);
    case DeleteArea(a) => DeleteAreaKeeps(s, a);
    case Merge(x, y) => MergeKeeps(s, x, y);
    case Drop(c) => DropKeeps(s, c);
  }

  lemma WrittenAreas(s: State, c: Id, o: int, slot: Swap.Slot)
    requires Enabled(s, WriteBack(c, o, slot))
    ensures Do(s, WriteBack(c, o, slot)).areas == s.areas
  {
    hide Written;
    WrittenRest(s, c, o, slot);
  }

  lemma StepInv(s: State, act: Action)
    requires Inv(s) && Enabled(s, act)
    ensures Inv(Do(s, act))
  {
    hide Core, BacksOk, Find, HitValue, MergedCache, MergedFrames, OnTop, Written, SlotFreed, Spoiled, Swap.Goes, Do;
    StepBacks(s, act);
    match act
    case MapFound(_, _) => FaultKeeps(s, act);
    case CleanRead(_, _, _) => FaultKeeps(s, act);
    case CleanWrite(_, _, _) => FaultKeeps(s, act);
    case CopyUp(_, _, _) => FaultKeeps(s, act);
    case PageIn(_, _, _) => FaultKeeps(s, act);
    case StoreValue(a, o, v) => StoreKeepsInv(s, a, o, v);
    case Unmap(a, o) => UnmapKeeps(s, a, o);
    case WriteBack(c, o, slot) => WriteBackKeeps(s, c, o, slot);
    case FreeSlot(c, o) => FreeSlotKeeps(s, c, o);
    case Steal(c, o) => StealKeeps(s, c, o);
    case SetWired(pages) => SetWiredKeeps(s, pages);
    case CopyArea(a, _, _, _, _) => if s.areas[a].writable { ForkKeepsInv(s, act); } else { CopyReadOnlyKeeps(s, act); }
    case NewArea(_, _, _, _) => NewAreaKeeps(s, act);
    case DeleteArea(a) => DeleteAreaKeeps(s, a);
    case Merge(x, y) => MergeKeeps(s, x, y);
    case Drop(c) => DropKeeps(s, c);
  }

  /** Every area shows what stores and copies say, after this step, if and only if the step is harmless. */
  lemma StepHarmless(s: State, act: Action)
    requires Inv(s) && Enabled(s, act)
    ensures (forall b, o | b in Do(s, act).areas :: Content(Do(s, act), b, o) == Shows(s, act, b, o)) <==>
      Harmless(s, act)
  {
    hide Inv, Find, HitValue, MergedCache, MergedFrames, OnTop, Written, SlotFreed, Spoiled, Swap.Goes, Content;
    StepKeeps(s, act);
    SpoilsOf(s, act);
    if !Harmless(s, act) {
      var a, o :| Spoils(s, act, a, o) && Revealed(s, act, o) != Content(s, a, o);
      assert Content(Do(s, act), a, o) != Shows(s, act, a, o);
    }
  }

  /** Only merges and freed slots spoil, and they leave the areas alone. */
  lemma SpoilsOf(s: State, act: Action)
    requires Enabled(s, act)
    ensures forall a, o | Spoils(s, act, a, o) :: a in Do(s, act).areas && Shows(s, act, a, o) == Content(s, a, o)
  {
  }

  // ---- every run ----

  ghost predicate Init(s: State) { s == State(map[], map[], map[], map[], {}, map[]) }

  ghost predicate IsRun(states: seq<State>, acts: seq<Action>) {
    && |states| == |acts| + 1 && Init(states[0])
    && forall i | 0 <= i < |acts| :: Enabled(states[i], acts[i]) && states[i + 1] == Do(states[i], acts[i])
  }

  lemma {:induction false} RunInv(states: seq<State>, acts: seq<Action>, i: nat)
    requires IsRun(states, acts) && i <= |acts|
    ensures Inv(states[i])
  {
    hide Do, Enabled;
    if i > 0 {
      RunInv(states, acts, i - 1);
      StepInv(states[i - 1], acts[i - 1]);
    }
  }

  /** What area a holds at o after the first i actions, going by stores and copies alone. */
  ghost function Told(acts: seq<Action>, i: nat, a: Id, o: int): int
    requires i <= |acts|
  {
    if i == 0 then 0
    else match acts[i - 1]
      case StoreValue(b, q, v) => if a == b && o == q then v else Told(acts, i - 1, a, o)
      case CopyArea(src, b, _, _, _) => if a == b then Told(acts, i - 1, src, o) else Told(acts, i - 1, a, o)
      case NewArea(b, _, _, file) => if a != b then Told(acts, i - 1, a, o) else Initial(file, o)
      case _ => Told(acts, i - 1, a, o)
  }

  /** Every area shows what stores and copies say it holds. */
  ghost predicate Right(s: State, acts: seq<Action>, i: nat)
    requires i <= |acts|
  {
    forall a, o | a in s.areas :: Content(s, a, o) == Told(acts, i, a, o)
  }

  /** From a right state, a step leads to a right state if and only if it is harmless. */
  lemma StepRight(s: State, acts: seq<Action>, i: nat)
    requires i < |acts| && Inv(s) && Enabled(s, acts[i]) && Right(s, acts, i)
    ensures Right(Do(s, acts[i]), acts, i + 1) <==> Harmless(s, acts[i])
  {
    hide Inv, Enabled, Do, Harmless, Content;
    var act := acts[i];
    StepHarmless(s, act);
    forall a, o | a in Do(s, act).areas ensures Shows(s, act, a, o) == Told(acts, i + 1, a, o) {
      AreaFrom(s, act, a);
      var b := if act.CopyArea? && a == act.b then act.a else a;
      assert b in s.areas ==> Content(s, b, o) == Told(acts, i, b, o);
    }
  }

  /** Only copying and creating add areas. */
  lemma AreaFrom(s: State, act: Action, a: Id)
    requires Enabled(s, act) && a in Do(s, act).areas
    ensures if act.CopyArea? && a == act.b then act.a in s.areas else a in s.areas || (act.NewArea? && a == act.a)
  {
    hide Find, HitValue, MergedCache, MergedFrames, SlotFreed, Spoiled;
  }

  /**
    Copy-on-write is invisible: however faults, page-out, page-in, merges and
    wiring are mixed in, every area shows in every state what stores and copies
    say it holds, if and only if every step is harmless.
  */
  lemma {:induction false} RunRefinesMemory(states: seq<State>, acts: seq<Action>, n: nat)
    requires IsRun(states, acts) && n <= |acts|
    ensures (forall i | 0 <= i <= n :: Right(states[i], acts, i)) <==>
      (forall i | 0 <= i < n :: Harmless(states[i], acts[i]))
  {
    hide Inv, Enabled, Do, Harmless, Right;
    if n == 0 {
      NothingYet(states[0], acts);
    } else {
      RunRefinesMemory(states, acts, n - 1);
      RunInv(states, acts, n - 1);
      if Right(states[n - 1], acts, n - 1) { StepRight(states[n - 1], acts, n - 1); }
      assert Enabled(states[n - 1], acts[n - 1]) && states[n] == Do(states[n - 1], acts[n - 1]);
    }
  }

  lemma NothingYet(s: State, acts: seq<Action>)
    requires Init(s)
    ensures Right(s, acts, 0)
  {
  }

  /** Harmless steps: a load through any mapping returns what the area holds. */
  lemma LoadIsRight(states: seq<State>, acts: seq<Action>, i: nat, a: Id, o: int)
    requires IsRun(states, acts) && i <= |acts| && (a, o) in states[i].maps
    requires forall k | 0 <= k < i :: Harmless(states[k], acts[k])
    ensures a in states[i].areas && states[i].maps[(a, o)].page in states[i].frames
    ensures states[i].frames[states[i].maps[(a, o)].page].value == Told(acts, i, a, o)
  {
    hide Enabled, Do, Harmless;
    RunInv(states, acts, i);
    MappedPage(states[i], a, o);
    RunRefinesMemory(states, acts, i);
    assert Right(states[i], acts, i);
  }

  /** Every writable mapping points into the area's own cache, where no other area finds the page. */
  lemma WritableIsPrivate(states: seq<State>, acts: seq<Action>, i: nat, a: Id, o: int, b: Id, q: int)
    requires IsRun(states, acts) && i <= |acts| && (a, o) in states[i].maps && states[i].maps[(a, o)].write
    requires b in states[i].areas && b != a
    ensures a in states[i].areas
    ensures Find(states[i].caches, states[i].areas[a].cache, o) ==
      Page(states[i].areas[a].cache, states[i].maps[(a, o)].page)
    ensures var h := Find(states[i].caches, states[i].areas[b].cache, q); h.Page? ==>
      h.page != states[i].maps[(a, o)].page
  {
    hide Enabled, Do;
    RunInv(states, acts, i);
    var s := states[i];
    MappedPage(s, a, o);
    FindHits(s.caches, s.areas[b].cache, q);
    OnlyFromTop(s.caches, s.areas[a].cache, s.areas[b].cache, q);
  }

  /** After a copy both areas read what the source read. */
  lemma CopyReadsTheSame(states: seq<State>, acts: seq<Action>, i: nat, o: int)
    requires IsRun(states, acts) && i < |acts| && acts[i].CopyArea?
    ensures acts[i].a in states[i + 1].areas && acts[i].b in states[i + 1].areas
    ensures Content(states[i + 1], acts[i].b, o) == Content(states[i + 1], acts[i].a, o) ==
      Content(states[i], acts[i].a, o)
  {
    hide Inv, Find, HitValue, Written, SlotFreed, MergedCache, MergedFrames, Spoiled, Content;
    RunInv(states, acts, i);
    StepKeeps(states[i], acts[i]);
  }

  /** Only a store through an old area should change what it shows. */
  lemma OldArea(s: State, act: Action, b: Id, o: int)
    requires Enabled(s, act) && b in s.areas && !(act.StoreValue? && act.a == b && act.o == o)
    ensures Shows(s, act, b, o) == Content(s, b, o)
  {
    hide Find, HitValue, Content;
  }

  /**
    Fork isolation: between two moments of a run, an area that lives throughout
    changes at o only by stores through that area at o, and by steps that lose
    its page there.  In particular never by a store through another area.
  */
  lemma {:induction false} ForkIsolation(states: seq<State>, acts: seq<Action>, i: nat, j: nat, b: Id, o: int)
    requires IsRun(states, acts) && i <= j <= |acts|
    requires forall k | i <= k <= j :: b in states[k].areas
    requires forall k | i <= k < j :: !(acts[k].StoreValue? && acts[k].a == b && acts[k].o == o)
    requires forall k | i <= k < j ::
      Spoils(states[k], acts[k], b, o) ==> Revealed(states[k], acts[k], o) == Content(states[k], b, o)
    ensures Content(states[j], b, o) == Content(states[i], b, o)
    decreases j
  {
    hide Inv, Spoils, Revealed, Content, Do, Enabled;
    if i < j {
      ForkIsolation(states, acts, i, j - 1, b, o);
      RunInv(states, acts, j - 1);
      StepKeeps(states[j - 1], acts[j - 1]);
      assert b in states[j - 1].areas && b in states[j].areas;
      OldArea(states[j - 1], acts[j - 1], b, o);
    }
  }

  // ---- runs in which nothing is lost ----

  /** All block counters and allocated sizes are exact. */
  ghost predicate CountersOk(cs: map<Id, Cache>) {
    forall c | c in cs && cs[c].back.Slots? :: CounterOk(cs[c].back.blocks, cs[c].back.size)
  }

  ghost predicate CounterOk(blocks: map<int, Swap.SwapBlock>, size: int) {
    Swap.BlocksExact(blocks) && Swap.Counted(blocks, size)
  }

  /** The step is not a merge that copies slots into a block the consumer already has. */
  ghost predicate NoCopy(s: State, act: Action)
    requires Enabled(s, act)
  {
    act.Merge? ==> !Swap.Copies(Im(s.caches[act.y]), Im(s.caches[act.x]))
  }

  lemma SameCounters(cs: map<Id, Cache>, cs2: map<Id, Cache>)
    requires CountersOk(cs)
    requires Stays(cs, cs2)
    ensures CountersOk(cs2)
  {
  }

  lemma WrittenCounters(k: Cache, i: int, slot: Swap.Slot)
    requires k.back.Slots? && CounterOk(k.back.blocks, k.back.size) && Slot(k.back, i).None?
    ensures CounterOk(Swap.Build(k.back.blocks, i, slot), k.back.size + 1)
  {
    Swap.BuildIs(k.back.blocks, i, slot);
    Swap.OneSlotChanged(k.back.blocks, Swap.Build(k.back.blocks, i, slot), i, Some(slot), k.back.size);
  }

  lemma FreedCounters(k: Cache, i: int)
    requires k.back.Slots? && CounterOk(k.back.blocks, k.back.size) && Slot(k.back, i).Some?
    ensures CounterOk(SlotFreed(k, i).back.blocks, SlotFreed(k, i).back.size)
    ensures forall o | o != i && Slot(k.back, o).Some? :: !Swap.Goes(k.back.blocks, i, o)
  {
    var blocks, blocks2 := k.back.blocks, Swap.Release(k.back.blocks, i);
    Swap.ReleaseIs(blocks, i);
    forall o | o != i ensures Swap.SlotAt(blocks2, o) == Swap.SlotAt(blocks, o) { Swap.ReleaseExact(blocks, i, o); }
    Swap.OneSlotChanged(blocks, blocks2, i, None, k.back.size);
  }

  /** Exact counters: a step loses nothing, and leaves them exact unless it copies slots. */
  lemma StepExact(s: State, act: Action)
    requires Inv(s) && CountersOk(s.caches) && Enabled(s, act)
    ensures forall a, o :: !Spoils(s, act, a, o)
    ensures NoCopy(s, act) ==> CountersOk(Do(s, act).caches)
  {
    hide Inv, CountersOk, Do, Enabled, Spoils, NoCopy;
    match act {
      case WriteBack(c, o, slot) =>
        WriteBackExact(s, c, o, slot);
        OthersSpoilNothing(s, act);
      case FreeSlot(c, o) => FreeSlotExact(s, c, o);
      case Merge(x, y) => MergeStepExact(s, x, y);
      case _ =>
        BacksStay(s, act);
        SameCounters(s.caches, Do(s, act).caches);
        OthersSpoilNothing(s, act);
    }
  }

  lemma OthersSpoilNothing(s: State, act: Action)
    requires Enabled(s, act) && !act.FreeSlot? && !act.Merge?
    ensures forall a, o :: !Spoils(s, act, a, o)
  {
    hide Find, Spoiled, Swap.Goes;
  }

  lemma WriteBackExact(s: State, c: Id, i: int, slot: Swap.Slot)
    requires CountersOk(s.caches) && Enabled(s, WriteBack(c, i, slot))
    ensures CountersOk(Do(s, WriteBack(c, i, slot)).caches)
  {
    hide CounterOk, Swap.Build, FrameValue;
    var k := s.caches[c];
    if k.back.Slots? && Slot(k.back, i).None? { WrittenCounters(k, i, slot); }
  }

  lemma FreeSlotExact(s: State, c: Id, i: int)
    requires Inv(s) && CountersOk(s.caches) && Enabled(s, FreeSlot(c, i))
    ensures forall a, o :: !Spoils(s, FreeSlot(c, i), a, o)
    ensures CountersOk(Do(s, FreeSlot(c, i)).caches)
  {
    hide CounterOk, SlotFreed, Find, Swap.Goes;
    var k := s.caches[c];
    FreedCounters(k, i);
    assert SlotFreed(k, i).back.Slots? by { FreedSlots(k, i); }
    forall a, o ensures !Spoils(s, FreeSlot(c, i), a, o) {
      if a in s.areas { FindHits(s.caches, s.areas[a].cache, o); }
    }
  }

  lemma FreedSlots(k: Cache, i: int)
    requires k.back.Slots?
    ensures SlotFreed(k, i).back.Slots?
  {
  }

  lemma MergeStepExact(s: State, x: Id, y: Id)
    requires Inv(s) && CountersOk(s.caches) && Enabled(s, Merge(x, y))
    ensures forall a, o :: !Spoils(s, Merge(x, y), a, o)
    ensures NoCopy(s, Merge(x, y)) ==> CountersOk(Do(s, Merge(x, y)).caches)
  {
    hide CounterOk, MergedCache, MergedFrames, Find, Spoiled, Swap.Copies;
    MergeExact(s.caches[y], s.caches[x]);
  }

  lemma MergeExact(upper: Cache, lower: Cache)
    requires upper.back.Slots? && lower.back.Slots?
    requires CounterOk(upper.back.blocks, upper.back.size) && CounterOk(lower.back.blocks, lower.back.size)
    ensures forall o :: !Spoiled(upper, lower, o)
    ensures var m := MergedCache(upper, lower);
      m.back.Slots? && (!Swap.Copies(Im(upper), Im(lower)) ==> CounterOk(m.back.blocks, m.back.size))
  {
    Swap.ExactOutcome(Im(upper), Im(lower), upper.back.size, lower.back.size);
  }

  /** If no merge copies slots into an existing block, no step of the run loses anything. */
  lemma {:induction false} NothingLost(states: seq<State>, acts: seq<Action>, n: nat)
    requires IsRun(states, acts) && n <= |acts| && forall i | 0 <= i < n :: NoCopy(states[i], acts[i])
    ensures CountersOk(states[n].caches)
    ensures forall i | 0 <= i < n :: Harmless(states[i], acts[i])
  {
    hide Inv, NoCopy, Spoils, Revealed, CounterOk, Do;
    if n > 0 {
      NothingLost(states, acts, n - 1);
      RunInv(states, acts, n - 1);
      StepExact(states[n - 1], acts[n - 1]);
    }
  }
}
