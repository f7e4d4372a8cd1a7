/**
  Which meta chunk is on which list (slab/mm_manager.cpp): partial meta chunks
  by chunk size, and free ones, where an area's first, short meta chunk is kept
  apart.  Chunks are handed out from and returned to these.
*/
module MetaChunkLists {
  import opened Options
  import opened Sequences
  import opened MetaChunks

  /**
    A meta chunk: its area's address, its position in the area, and its chunks.
    The first one of an area is short; one with chunk size 0 is not in use.
  */
  datatype Entry = Entry(base: nat, position: nat, meta: Meta) {
    predicate Short() { position == 0 }
  }

  ghost predicate EntryOk(e: Entry) {
    && MetaOk(e.meta)
    && (e.meta.size == 0 || e.meta.size == SMALL || e.meta.size == MEDIUM || e.meta.size == LARGE)
    && (e.meta.size != 0 ==> 0 < e.meta.used)
    && (e.meta.size == SMALL ==> e.meta.count > 1)
    && (e.meta.size == LARGE ==> e.meta.count == 1)
  }

  ghost predicate Partial(m: Meta, size: nat) { m.size == size && m.used < m.count }

  ghost predicate ListOk(l: seq<nat>, n: nat) { Distinct(l) && forall k | k in l :: k < n }

  /** Each meta chunk is on exactly the list that its chunk size and use count name. */
  ghost predicate ListsOk(es: seq<Entry>, small: seq<nat>, medium: seq<nat>, freeShort: seq<nat>,
                          freeComplete: seq<nat>) {
    && ListOk(small, |es|) && ListOk(medium, |es|) && ListOk(freeShort, |es|) && ListOk(freeComplete, |es|)
    && (forall k | 0 <= k < |es| :: k in small <==> Partial(es[k].meta, SMALL))
    && (forall k | 0 <= k < |es| :: k in medium <==> Partial(es[k].meta, MEDIUM))
    && (forall k | 0 <= k < |es| :: k in freeShort <==> es[k].meta.size == 0 && es[k].Short())
    && (forall k | 0 <= k < |es| :: k in freeComplete <==> es[k].meta.size == 0 && !es[k].Short())
  }

  /** Chunk i of meta chunk k is allocated. */
  ghost predicate Allocated(es: seq<Entry>, k: int, i: int) {
    0 <= k < |es| && es[k].meta.size != 0 && 0 <= i < es[k].meta.count && i !in es[k].meta.free
  }

  function Remove(l: seq<nat>, k: nat): (r: seq<nat>)
    ensures forall x :: x in r <==> x in l && x != k
    ensures Distinct(l) ==> Distinct(r)
  {
    OutsideIs(l, k, 1);
    Outside(l, k, 1)
  }

  datatype Lists = Lists(small: seq<nat>, medium: seq<nat>, freeShort: seq<nat>, freeComplete: seq<nat>)

  /** List l2 differs from l at most in whether it holds k. */
  ghost predicate Except(l: seq<nat>, l2: seq<nat>, k: nat) { forall x | x != k :: x in l2 <==> x in l }

  ghost predicate AllOk(es: seq<Entry>, l: Lists) {
    (forall k | 0 <= k < |es| :: EntryOk(es[k])) && ListsOk(es, l.small, l.medium, l.freeShort, l.freeComplete)
  }

  ghost predicate OthersOk(es: seq<Entry>, k: nat) { forall j | 0 <= j < |es| && j != k :: EntryOk(es[j]) }

  /** Meta chunk k belongs on exactly these lists. */
  ghost predicate Placed(e: Entry, l: Lists, k: nat) {
    && (k in l.small <==> Partial(e.meta, SMALL)) && (k in l.medium <==> Partial(e.meta, MEDIUM))
    && (k in l.freeShort <==> e.meta.size == 0 && e.Short())
      && (k in l.freeComplete <==> e.meta.size == 0 && !e.Short())
  }

  ghost predicate ExceptAll(l: Lists, l2: Lists, k: nat) {
    && Except(l.small, l2.small, k) && Except(l.medium, l2.medium, k)
    && Except(l.freeShort, l2.freeShort, k) && Except(l.freeComplete, l2.freeComplete, k)
    && Distinct(l2.small) && Distinct(l2.medium) && Distinct(l2.freeShort) && Distinct(l2.freeComplete)
  }

  ghost predicate ListsFit(es: seq<Entry>, l: Lists) { ListsOk(es, l.small, l.medium, l.freeShort, l.freeComplete) }

  /** Changing one meta chunk and moving it to the list it belongs to now keeps everything. */
  lemma Moved(es: seq<Entry>, l: Lists, k: nat, e: Entry, l2: Lists)
    requires ListsFit(es, l) && OthersOk(es, k) && k < |es| && ExceptAll(l, l2, k) && Placed(e, l2, k)
    ensures ListsFit(es[k := e], l2) && OthersOk(es[k := e], k)
    ensures EntryOk(e) ==> AllOk(es[k := e], l2)
  {
  }

  lemma DropHead(l: seq<nat>)
    requires Distinct(l) && l != []
    ensures Distinct(l[1..]) && l[0] in l && forall x :: x in l[1..] <==> x in l && x != l[0]
  {
    assert l == [l[0]] + l[1..];
  }

  lemma AddEnd(l: seq<nat>, k: nat)
    requires Distinct(l) && k !in l
    ensures Distinct(l + [k]) && Distinct([k] + l)
    ensures forall x :: (x in l + [k] <==> x in l || x == k) && (x in [k] + l <==> x in l || x == k)
  {
  }

  /** A meta chunk of that chunk size with a free chunk; it may be freshly prepared. */
  ghost predicate Ready(e: Entry, size: nat) {
    && MetaOk(e.meta) && e.meta.size == size && e.meta.free != []
    && (size == SMALL ==> e.meta.count > 1) && (size == LARGE ==> e.meta.count == 1)
  }

  ghost predicate SameAllocated(es: seq<Entry>, es2: seq<Entry>) {
    forall k, i :: Allocated(es2, k, i) <==> Allocated(es, k, i)
  }

  /** The chunks of a meta chunk of that chunk size. */
  function CountOf(short: bool, admin: nat, size: nat): nat
    requires size > 0
  {
    Prepared(short, admin, size).count
  }

  ghost predicate SamePlaces(es: seq<Entry>, es2: seq<Entry>) {
    |es2| == |es| && forall k | 0 <= k < |es| :: es2[k].base == es[k].base && es2[k].position == es[k].position
  }

  /** Meta chunks in use keep their chunk size; others may be cut into chunks. */
  ghost predicate Recut(es: seq<Entry>, es2: seq<Entry>, admin: nat) {
    && SamePlaces(es, es2)
    && (forall k | 0 <= k < |es| && es[k].meta.size != 0 ::
          es2[k].meta.size == es[k].meta.size && es2[k].meta.count == es[k].meta.count)
    && forall k | 0 <= k < |es| && es[k].meta.size == 0 && es2[k].meta.size != 0 ::
         es2[k].meta.count == CountOf(es[k].Short(), admin, es2[k].meta.size)
  }

  /** Meta chunks keep their chunk size or are in use no longer. */
  ghost predicate Shrunk(es: seq<Entry>, es2: seq<Entry>) {
    && SamePlaces(es, es2)
    && forall k | 0 <= k < |es| && es2[k].meta.size != 0 ::
         es2[k].meta.size == es[k].meta.size && es2[k].meta.count == es[k].meta.count
  }

  /** A free meta chunk leaves its free list and, unless for large chunks, joins the partial list. */
  ghost function Fetched(l: Lists, k: nat, size: nat): Lists {
    var l1 := if l.freeShort != [] && l.freeShort[0] == k then l.(freeShort := l.freeShort[1..])
              else if l.freeComplete != [] then l.(freeComplete := l.freeComplete[1..]) else l;
    if size == SMALL then l1.(small := l1.small + [k]) else if size == MEDIUM then l1.(medium := l1.medium + [k])
      else l1
  }

  lemma Fetch(es: seq<Entry>, l: Lists, k: nat, size: nat, admin: nat)
    requires AllOk(es, l) && admin <= ADMIN_MAX && (size == SMALL || size == MEDIUM || size == LARGE)
    requires (l.freeShort != [] && k == l.freeShort[0] && size != LARGE)
      || (l.freeComplete != [] && k == l.freeComplete[0])
    ensures k < |es| && es[k].Short() == (k in l.freeShort) && es[k].meta.size == 0
    ensures var e := es[k].(meta := Prepared(es[k].Short(), admin, size));
      Ready(e, size) && ListsFit(es[k := e], Fetched(l, k, size)) && OthersOk(es[k := e], k)
        && SameAllocated(es, es[k := e])
  {
    var short := l.freeShort != [] && k == l.freeShort[0] && size != LARGE;
    if l.freeShort != [] { DropHead(l.freeShort); }
    if l.freeComplete != [] { DropHead(l.freeComplete); }
    assert es[k].meta.size == 0;
    assert k !in l.small && k !in l.medium;
    AddEnd(l.small, k);
    AddEnd(l.medium, k);
    PreparedOk(es[k].Short(), admin, size);
    var e, l2 := es[k].(meta := Prepared(es[k].Short(), admin, size)), Fetched(l, k, size);
    Moved(es, l, k, e, l2);
  }

  /** One chunk is taken; a full meta chunk leaves its partial list. */
  function AfterTake(l: Lists, k: nat, size: nat, full: bool): Lists {
    if full && size == SMALL then l.(small := Remove(l.small, k))
    else if full && size == MEDIUM then l.(medium := Remove(l.medium, k))
    else l
  }

  lemma TakeKeeps(es: seq<Entry>, l: Lists, k: nat, size: nat)
    requires k < |es| && ListsFit(es, l) && OthersOk(es, k) && Ready(es[k], size)
    requires (size == SMALL || size == MEDIUM || size == LARGE)
    ensures var m := TakeOne(es[k].meta);
      var es2 := es[k := es[k].(meta := m)];
      && AllOk(es2, AfterTake(l, k, size, m.used == m.count))
      && !Allocated(es, k, es[k].meta.free[0])
      && forall j, i :: Allocated(es2, j, i) <==> Allocated(es, j, i) || (j == k && i == es[k].meta.free[0])
  {
    var m := TakeOne(es[k].meta);
    TakeOneOk(es[k].meta);
    Moved(es, l, k, es[k].(meta := m), AfterTake(l, k, size, m.used == m.count));
    assert es[k].meta.free[0] in es[k].meta.free;
  }

  /** How many chunks fit. */
  function Fitting(total: int, size: nat): nat
    requires size > 0
  {
    if total < 0 then 0 else total / size
  }

  /** A meta chunk right after _PrepareMetaChunk. */
  function Prepared(short: bool, admin: nat, size: nat): Meta
    requires size > 0
  {
    var n := Fitting(TotalOf(if short then 0 else 1, admin, size), size);
    Meta(size, n, 0, 0, n - 1, seq(n, i => i))
  }

  /** An area's records leave room for a medium chunk in its first meta chunk. */
  const ADMIN_MAX: nat := 23

  lemma PreparedOk(short: bool, admin: nat, size: nat)
    requires admin <= ADMIN_MAX && (size == SMALL || size == MEDIUM || (size == LARGE && !short))
    ensures var m := Prepared(short, admin, size);
      && MetaOk(m) && m.count > 0 && m.free != [] && m.size == size
      && (size == SMALL ==> m.count > 1) && (size == LARGE ==> m.count == 1)
      && forall i | 0 <= i < m.count :: i in m.free
  {
    var m := Prepared(short, admin, size);
    AllInOrder(m.free, m.count);
  }

  class Manager {
    var entries: seq<Entry>
    var lists: Lists
    const admin: nat             // pages of an area's own records (kAreaAdminSize)

    constructor (admin: nat)
      requires admin <= ADMIN_MAX
      ensures Valid() && entries == [] && this.admin == admin
    {
      this.admin := admin;
      entries, lists := [], Lists([], [], [], []);
    }

    ghost predicate Valid()
      reads this
    {
      admin <= ADMIN_MAX && AllOk(entries, lists)
    }

    /**
      _GetChunk: one chunk from the first partial meta chunk, or from a free
      one, short ones first unless a large chunk is wanted.  The chunk was not
      allocated before, and no other chunk's state changes.
    */
    method GetChunk(size: nat) returns (found: Option<(nat, nat)>)
      requires Valid() && (size == SMALL || size == MEDIUM || size == LARGE)
      modifies `entries, `lists
      ensures Valid()
      ensures found.None? ==> entries == old(entries) && lists == old(lists)
      ensures found.Some? ==>
        && !Allocated(old(entries), found.value.0, found.value.1)
        && forall k, i :: Allocated(entries, k, i) <==> Allocated(old(entries), k, i) || (k, i) == found.value
      ensures found.None? <==> old(NoneFor(lists, size))
      ensures Recut(old(entries), entries, admin)
      ensures found.Some? ==> found.value.0 < |entries| && entries[found.value.0].meta.size == size
    {
      hide AllOk, ListsFit, OthersOk, Ready, Prepared, TakeOne, Placed, Allocated;
      var k: nat := 0;
      if size == SMALL && lists.small != [] {
        PartialReady(entries, lists, lists.small[0]);
        k := lists.small[0];
      } else if size == MEDIUM && lists.medium != [] {
        PartialReady(entries, lists, lists.medium[0]);
        k := lists.medium[0];
      } else if size != LARGE && lists.freeShort != [] {
        k := FetchMeta(size, true);
      } else if lists.freeComplete != [] {
        k := FetchMeta(size, false);
      } else {
        return None;
      }
      var chunk := TakeFrom(k, size);
      found := Some((k, chunk));
    }

    /**
      _GetChunks for more than one chunk: the first partial meta chunk whose
      cached range is long enough, or a free one.  The chunks are consecutive,
      were not allocated before, and no other chunk's state changes.  It fails
      exactly if no partial meta chunk has the range and no free one has the room.
    */
    method GetChunks(size: nat, n: nat) returns (found: Option<(nat, nat)>)
      requires Valid() && (size == SMALL || size == MEDIUM) && n > 1 && n * size <= LARGE
      modifies `entries, `lists
      ensures Valid()
      ensures found.None? ==> entries == old(entries) && lists == old(lists)
      ensures found.Some? ==>
        && (forall i | found.value.1 <= i < found.value.1 + n :: !Allocated(old(entries), found.value.0, i))
        && forall k, i :: Allocated(entries, k, i) <==>
             Allocated(old(entries), k, i) || (k == found.value.0 && found.value.1 <= i < found.value.1 + n)
      ensures found.None? <==> old(NoRange(entries, lists, size, n, admin))
      ensures Recut(old(entries), entries, admin)
      ensures found.Some? ==> found.value.0 < |entries| && entries[found.value.0].meta.size == size
    {
      hide AllOk, ListsFit, OthersOk, Ready, Prepared, TakeRun, Placed, Allocated;
      InBounds(entries, lists);
      var hit := FindRange(if size == SMALL then lists.small else lists.medium, n);
      var k: nat := 0;
      if hit.Some? {
        PartialReady(entries, lists, hit.value);
        k := hit.value;
      } else {
        NoPartial(entries, lists, size, n);
        if ShortRoom(admin, size) >= n && lists.freeShort != [] {
          PreparedRoom(true, admin, size, n);
          k := FetchMeta(size, true);
        } else if lists.freeComplete != [] {
          PreparedRoom(false, admin, size, n);
          k := FetchMeta(size, false);
        } else {
          return None;
        }
      }
      var chunk := TakeManyFrom(k, size, n);
      found := Some((k, chunk));
    }

    /** The first meta chunk of a list with a long enough range. */
    method FindRange(list: seq<nat>, n: nat) returns (found: Option<nat>)
      requires forall j | 0 <= j < |list| :: list[j] < |entries|
      ensures found.Some? ==> found.value in list && HasRange(entries[found.value].meta, n)
      ensures found.None? ==> forall k | k in list :: k < |entries| && !HasRange(entries[k].meta, n)
    {
      for i := 0 to |list|
        invariant forall j | 0 <= j < i :: !HasRange(entries[list[j]].meta, n)
      {
        if HasRange(entries[list[i]].meta, n) {
          return Some(list[i]);
        }
      }
      return None;
    }

    /** A run of chunks of a meta chunk that has one. */
    method TakeManyFrom(k: nat, size: nat, n: nat) returns (chunk: nat)
      requires k < |entries| && ListsFit(entries, lists) && OthersOk(entries, k) && Ready(entries[k], size)
      requires (size == SMALL || size == MEDIUM) && n > 0 && HasRange(entries[k].meta, n)
      modifies `entries, `lists
      ensures AllOk(entries, lists)
      ensures forall i | chunk <= i < chunk + n :: !Allocated(old(entries), k, i)
      ensures forall j, i ::
        Allocated(entries, j, i) <==> Allocated(old(entries), j, i) || (j == k && chunk <= i < chunk + n)
      ensures Recut(old(entries), entries, admin) && |entries| == |old(entries)| && entries[k].meta.size == size
    {
      TakeManyKeeps(entries, lists, k, size, n);
      hide AllOk, ListsFit, OthersOk, TakeRun, AfterTake;
      var meta := entries[k].meta;
      chunk := meta.first;
      var m := TakeRun(meta, n);
      entries := entries[k := entries[k].(meta := m)];
      lists := AfterTake(lists, k, size, m.used == m.count);
    }

    /**
      _FreeChunk: exactly that chunk is free afterwards.  An empty meta chunk
      goes back to its free list, one that was full to its partial list.
    */
    method FreeChunk(k: nat, chunk: nat)
      requires Valid() && Allocated(entries, k, chunk)
      modifies `entries, `lists
      ensures Valid()
      ensures forall j, i :: Allocated(entries, j, i) <==> Allocated(old(entries), j, i) && (j, i) != (k, chunk)
      ensures Shrunk(old(entries), entries)
    {
      hide AllOk;
      GiveKeeps(entries, lists, k, chunk);
      var e := entries[k];
      var size, m := e.meta.size, Put(e.meta, chunk);
      if m.used == 0 {
        if size == SMALL {
          lists := lists.(small := Remove(lists.small, k));
        } else if size == MEDIUM {
          if m.count > 1 {
            lists := lists.(medium := Remove(lists.medium, k));
          }
        }
        m := m.(size := 0);
        if e.Short() {
          lists := lists.(freeShort := [k] + lists.freeShort);
        } else {
          lists := lists.(freeComplete := [k] + lists.freeComplete);
        }
      } else if m.used == m.count - 1 {
        if size == SMALL {
          lists := lists.(small := [k] + lists.small);
        } else if size == MEDIUM {
          lists := lists.(medium := [k] + lists.medium);
        }
      }
      entries := entries[k := e.(meta := m)];
    }

    /** One round of the loop of _AddArea: a meta chunk of a new area goes to the end of its free list. */
    method AddMeta(base: nat, position: nat)
      requires Valid()
      modifies `entries, `lists
      ensures Valid() && entries == old(entries) + [Unused(base, position)]
      ensures SameAllocated(old(entries), entries)
      ensures position > 0 ==> lists.freeComplete != []
      ensures old(lists).freeComplete != [] ==> lists.freeComplete != []
    {
      hide AllOk;
      MetaAdded(entries, lists, base, position);
      if position == 0 {
        lists := lists.(freeShort := lists.freeShort + [|entries|]);
      } else {
        lists := lists.(freeComplete := lists.freeComplete + [|entries|]);
      }
      entries := entries + [Unused(base, position)];
    }

    /** A free meta chunk is prepared and put on its partial list. */
    method FetchMeta(size: nat, short: bool) returns (k: nat)
      requires Valid() && (size == SMALL || size == MEDIUM || size == LARGE)
      requires if short then size != LARGE && lists.freeShort != [] else lists.freeComplete != []
      modifies `entries, `lists
      ensures k < |entries| && ListsFit(entries, lists) && OthersOk(entries, k) && Ready(entries[k], size)
      ensures SameAllocated(old(entries), entries) && entries[k].meta == Prepared(short, admin, size)
      ensures Recut(old(entries), entries, admin)
    {
      hide AllOk, ListsFit, OthersOk, Ready, SameAllocated;
      ghost var l := lists;
      if short {
        k := lists.freeShort[0];
        Fetch(entries, lists, k, size, admin);
        lists := lists.(freeShort := lists.freeShort[1..]);
      } else {
        k := lists.freeComplete[0];
        Fetch(entries, lists, k, size, admin);
        NotBoth(entries, lists, k);
        lists := lists.(freeComplete := lists.freeComplete[1..]);
      }
      if size == SMALL {
        lists := lists.(small := lists.small + [k]);
      } else if size == MEDIUM {
        lists := lists.(medium := lists.medium + [k]);
      }
      entries := entries[k := entries[k].(meta := Prepared(entries[k].Short(), admin, size))];
    }

    /** One chunk of a meta chunk that has one. */
    method TakeFrom(k: nat, size: nat) returns (chunk: nat)
      requires k < |entries| && ListsFit(entries, lists) && OthersOk(entries, k) && Ready(entries[k], size)
      requires size == SMALL || size == MEDIUM || size == LARGE
      modifies `entries, `lists
      ensures AllOk(entries, lists)
      ensures !Allocated(old(entries), k, chunk)
      ensures forall j, i :: Allocated(entries, j, i) <==> Allocated(old(entries), j, i) || (j == k && i == chunk)
      ensures Recut(old(entries), entries, admin) && |entries| == |old(entries)| && entries[k].meta.size == size
    {
      TakeKeeps(entries, lists, k, size);
      hide AllOk, ListsFit, OthersOk, TakeOne, AfterTake;
      var meta := entries[k].meta;
      chunk := meta.free[0];
      var m := TakeOne(meta);
      entries := entries[k := entries[k].(meta := m)];
      lists := AfterTake(lists, k, size, m.used == m.count);
    }
  }

  /** A meta chunk that is cut into no chunks. */
  function Unused(base: nat, position: nat): Entry { Entry(base, position, Meta(0, 0, 0, 0, -1, [])) }

  lemma MetaAdded(es: seq<Entry>, l: Lists, base: nat, position: nat)
    requires AllOk(es, l)
    ensures var l2 := if position == 0 then l.(freeShort := l.freeShort + [|es|])
                      else l.(freeComplete := l.freeComplete + [|es|]);
      AllOk(es + [Unused(base, position)], l2)
    ensures SameAllocated(es, es + [Unused(base, position)])
  {
    AddEnd(l.freeShort, |es|);
    AddEnd(l.freeComplete, |es|);
  }

  lemma PartialReady(es: seq<Entry>, l: Lists, k: nat)
    requires AllOk(es, l) && (k in l.small || k in l.medium)
    ensures k < |es| && ListsFit(es, l) && OthersOk(es, k) && Ready(es[k], es[k].meta.size)
    ensures (k in l.small ==> Partial(es[k].meta, SMALL)) && (k in l.medium ==> Partial(es[k].meta, MEDIUM))
  {
  }

  lemma InBounds(es: seq<Entry>, l: Lists)
    requires AllOk(es, l)
    ensures forall j | 0 <= j < |l.small| :: l.small[j] < |es|
    ensures forall j | 0 <= j < |l.medium| :: l.medium[j] < |es|
  {
    forall j | 0 <= j < |l.small| ensures l.small[j] < |es| { assert l.small[j] in l.small; }
    forall j | 0 <= j < |l.medium| ensures l.medium[j] < |es| { assert l.medium[j] in l.medium; }
  }

  /** The partial meta chunks of a chunk size are those on its list. */
  lemma NoPartial(es: seq<Entry>, l: Lists, size: nat, n: nat)
    requires AllOk(es, l) && (size == SMALL || size == MEDIUM)
    requires forall k | k in (if size == SMALL then l.small else l.medium) :: k < |es| && !HasRange(es[k].meta, n)
    ensures forall k | 0 <= k < |es| && Partial(es[k].meta, size) :: !HasRange(es[k].meta, n)
  {
  }

  lemma NotBoth(es: seq<Entry>, l: Lists, k: nat)
    requires AllOk(es, l) && k in l.freeComplete
    ensures k !in l.freeShort
  {
  }

  /** No list can serve a request of that chunk size. */
  ghost predicate NoneFor(l: Lists, size: nat) {
    && l.freeComplete == [] && (size != LARGE ==> l.freeShort == [])
    && (size == SMALL ==> l.small == []) && (size == MEDIUM ==> l.medium == [])
  }

  /** The test of _GetChunks: the cached range has n chunks. */
  predicate HasRange(m: Meta, n: nat) { m.first + n - 1 <= m.last }

  /** The test of _GetChunks for an area's first meta chunk: what fits after the area's records. */
  function ShortRoom(admin: nat, size: nat): int
    requires size > 0
  {
    (LARGE - 1 - admin) / size
  }

  /** Nothing for a run of n chunks: no partial meta chunk has the range, and no free one has the room. */
  ghost predicate NoRange(es: seq<Entry>, l: Lists, size: nat, n: nat, admin: nat)
    requires size > 0
  {
    && (forall k | 0 <= k < |es| && Partial(es[k].meta, size) :: !HasRange(es[k].meta, n))
    && l.freeComplete == [] && (l.freeShort != [] ==> ShortRoom(admin, size) < n)
  }

  lemma PreparedRoom(short: bool, admin: nat, size: nat, n: nat)
    requires (size == SMALL || size == MEDIUM) && n * size <= LARGE && (short ==> ShortRoom(admin, size) >= n) && n > 0
    ensures HasRange(Prepared(short, admin, size), n)
  {
  }

  lemma TakeManyKeeps(es: seq<Entry>, l: Lists, k: nat, size: nat, n: nat)
    requires k < |es| && ListsFit(es, l) && OthersOk(es, k) && Ready(es[k], size) && (size == SMALL || size == MEDIUM)
    requires n > 0 && HasRange(es[k].meta, n)
    ensures var m := TakeRun(es[k].meta, n);
      var es2 := es[k := es[k].(meta := m)];
      && AllOk(es2, AfterTake(l, k, size, m.used == m.count))
      && (forall i | es[k].meta.first <= i < es[k].meta.first + n :: !Allocated(es, k, i))
      && forall j, i :: Allocated(es2, j, i) <==>
        Allocated(es, j, i) || (j == k && es[k].meta.first <= i < es[k].meta.first + n)
  {
    var m := TakeRun(es[k].meta, n);
    TakeRunOk(es[k].meta, n);
    OutsideIs(es[k].meta.free, es[k].meta.first, n);
    Moved(es, l, k, es[k].(meta := m), AfterTake(l, k, size, m.used == m.count));
  }

  /** The lists after a chunk was given back. */
  ghost function AfterGive(l: Lists, k: nat, e: Entry, m: Meta): Lists {
    if m.used == 0 then
      var l1 := if e.meta.size == SMALL then l.(small := Remove(l.small, k))
                else if e.meta.size == MEDIUM && m.count > 1 then l.(medium := Remove(l.medium, k)) else l;
      if e.Short() then l1.(freeShort := [k] + l1.freeShort) else l1.(freeComplete := [k] + l1.freeComplete)
    else if m.used == m.count - 1 then
      if e.meta.size == SMALL then l.(small := [k] + l.small)
      else if e.meta.size == MEDIUM then l.(medium := [k] + l.medium) else l
    else l
  }

  lemma GiveKeeps(es: seq<Entry>, l: Lists, k: nat, chunk: nat)
    requires AllOk(es, l) && Allocated(es, k, chunk)
    ensures var m := Put(es[k].meta, chunk);
      var e2 := es[k].(meta := if m.used == 0 then m.(size := 0) else m);
      && AllOk(es[k := e2], AfterGive(l, k, es[k], m))
      && forall j, i :: Allocated(es[k := e2], j, i) <==> Allocated(es, j, i) && (j, i) != (k, chunk)
  {
    var e := es[k];
    PutOk(e.meta, chunk);
    var m := Put(e.meta, chunk);
    var e2, l2 := e.(meta := if m.used == 0 then m.(size := 0) else m), AfterGive(l, k, e, m);
    assert k !in l.freeShort && k !in l.freeComplete;
    AddEnd(l.freeShort, k);
    AddEnd(l.freeComplete, k);
    if k !in l.small { AddEnd(l.small, k); }
    if k !in l.medium { AddEnd(l.medium, k); }
    Moved(es, l, k, e2, l2);
    if m.used == 0 { Pigeonhole(m.free, m.count); }
  }

  /**
    The cached range is only some range: a full meta chunk given back chunks 0, 2 and 3 has two in
    a row it does not find.
  */
  lemma RunMissed(m: Meta)
    requires MetaOk(m) && m.used == m.count == 6 && m.free == []
    ensures var g := Put(Put(Put(m, 0), 2), 3);
      MetaOk(g) && 2 in g.free && 3 in g.free && !HasRange(g, 2)
  {
    PutOk(m, 0);
    PutOk(Put(m, 0), 2);
    PutOk(Put(Put(m, 0), 2), 3);
  }
}
