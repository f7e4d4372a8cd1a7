/**
  The kernel address-range allocator (aspace/VMKernelAddressSpace.cpp): a list
  and a tree of ranges that tile the address space, and free lists by powers of
  two, updated in place.  Addresses and sizes are in pages.
*/
module KernelAddressSpace {
  import opened Options
  import opened KernelRanges

  class KernelSpace {
    const lo: nat                // fBase
    const hi: nat                // fEndAddress + 1
    var list: seq<Range>         // fRangeList
    var tree: seq<Id>            // fRangeTree, in order
    var free: seq<set<Id>>       // fFreeLists
    var next: Id                 // the next range object

    ghost predicate Valid()
      reads this
    {
      Ok(lo, hi, list, tree, free, next)
    }

    /** InitObject: one free range. */
    constructor (lo: nat, hi: nat)
      requires lo < hi
      ensures Valid() && list == [Range(0, lo, hi - lo, Free)] && this.lo == lo && this.hi == hi
    {
      var r := Range(0, lo, hi - lo, Free);
      IndexInBounds(lo, hi, hi - lo);
      var lists: seq<set<Id>> := seq(Log(hi - lo) + 1, _ => {});
      this.lo, this.hi := lo, hi;
      list, tree, next := [r], [0], 1;
      free := FreeAdd(lists, r.id, r.size);
      new;
      forall q | 0 <= q < |free| ensures free[q] == FreeIds(list, q) {
        FreeIdsAre([r], q);
        assert FreeOfAll([r], q) == FreeOf(r, q) + FreeOfAll([], q);
      }
      assert Tiles([], hi, hi);
      assert [r][1..] == [];
    }

    /** _InsertRange; `p` is the place between its neighbours. */
    method InsertRange(r: Range, ghost p: nat)
      requires p <= |list| && |tree| == |list| && (p > 0 ==> list[p - 1].base <= r.base)
      requires (Sorted(list) && (p < |list| ==> r.base < list[p].base)) || Beyond(list, p, r.base)
      requires 0 <= Log(r.size) < |free|
      modifies this`list, this`tree, this`free
      ensures list == InsertAt(old(list), p, r)
      ensures (p > 0 ==> old(list)[p - 1].base < r.base) ==> tree == InsertAt(old(tree), p, r.id)
      ensures free == if r.kind.Free? then FreeAdd(old(free), r.id, r.size) else old(free)
    {
      if Sorted(list) && (p < |list| ==> r.base < list[p].base) { SortedBeyond(list, p, r.base); }
      PlaceIs(list, r.base, p);
      var t := BelowOnly(list, r.base);
      list := InsertAt(list, AtOrBelow(list, r.base), r);
      tree := InsertAt(tree, t, r.id);
      if r.kind.Free? {
        free := FreeAdd(free, r.id, r.size);
      }
    }

    /**
      The second half of _AllocateRange together with what its callers do next:
      `size` pages at `address` are taken out of range k and become a range of
      the given kind.  Needs up to two new range objects; `memory` is how many
      can be allocated, and if they do not suffice, nothing changes.
    */
    method AllocateAt(k: nat, address: nat, size: nat, kind: Kind, memory: nat) returns (ok: bool, at: nat)
      requires Valid() && k < |list| && !kind.Free?
      requires list[k].base <= address && address + size <= End(list[k]) && size > 0
      modifies this
      ensures ok <==> memory >= SplitNext(old(list[k]), address, size, 0)
      ensures !ok ==> list == old(list) && tree == old(tree) && free == old(free)
      ensures Valid()
      ensures ok ==> list == Replace(old(list), k, k + 1, Split(old(list[k]), address, size, kind, old(next)))
      ensures ok ==> at < |list| && list[at] == Range(old(list[k].id), address, size, kind)
    {
      hide Ok, Tiles, Split, Replace;
      if address == list[k].base {
        if list[k].size > size {
          if memory < 1 {
            return false, 0;
          }
          AllocateHead(k, size, kind);
        } else {
          AllocateWhole(k, kind);
        }
        ok, at := true, k;
      } else if address + size == End(list[k]) {
        if memory < 1 {
          return false, 0;
        }
        AllocateTail(k, address, size, kind);
        ok, at := true, k + 1;
      } else {
        if memory < 2 {
          return false, 0;
        }
        AllocateMiddle(k, address, size, kind);
        ok, at := true, k + 1;
      }
    }

    method AllocateWhole(k: nat, kind: Kind)
      requires Valid() && k < |list| && !kind.Free?
      modifies this
      ensures Valid() && k < |list| && list[k] == Range(old(list[k].id), old(list[k].base), old(list[k].size), kind)
      ensures list ==
        Replace(old(list), k, k + 1, Split(old(list[k]), old(list[k].base), old(list[k].size), kind, old(next)))
    {
      hide Ok, Tiles, Sorted, Follows, Split, FreeDel, Replace, Log, Ids, FreeOfAll, FreeIds;
      var r := list[k];
      OkFacts(lo, hi, list, tree, free, next, k);
      ghost var l, f := list, free;
      TilesSplit(list, k, lo, hi);
      SplitPlace(lo, hi, list, k, r.base, r.size);
      IndexInBounds(lo, hi, r.size);
      WholeDone(list, k, kind, next, free);
      if r.kind.Free? {
        free := FreeDel(free, r.id, r.size);
      }
      list := list[k := r.(kind := kind)];
      SplitOk(lo, hi, l, f, next, k, r.base, r.size, kind, free);
    }

    method AllocateHead(k: nat, size: nat, kind: Kind)
      requires Valid() && k < |list| && !kind.Free? && 0 < size < list[k].size
      modifies this
      ensures Valid() && k < |list| && list[k] == Range(old(list[k].id), old(list[k].base), size, kind)
      ensures list == Replace(old(list), k, k + 1, Split(old(list[k]), old(list[k].base), size, kind, old(next)))
    {
      hide Ok, Tiles, Sorted, Follows, Split, FreeDel, FreeAdd, InsertAt, Log, Ids, FreeOfAll, FreeIds;
      var r := list[k];
      OkFacts(lo, hi, list, tree, free, next, k);
      ghost var l, f := list, free;
      SplitPlace(lo, hi, list, k, r.base, size);
      IndexInBounds(lo, hi, r.size);
      IndexInBounds(lo, hi, r.size - size);
      HeadDone(list, k, size, kind, next, free);
      TakeHead(k, size);
      if r.kind.Free? {
        free := FreeDel(free, r.id, r.size);
      }
      list := list[k := Range(r.id, r.base, size, kind)];
      SplitOk(lo, hi, l, f, old(next), k, r.base, size, kind, free);
    }

    method AllocateTail(k: nat, address: nat, size: nat, kind: Kind)
      requires Valid() && k < |list| && !kind.Free? && list[k].base < address && 0 < size
      requires address + size == End(list[k])
      modifies this
      ensures Valid() && k + 1 < |list| && list[k + 1] == Range(old(list[k].id), address, size, kind)
      ensures list == Replace(old(list), k, k + 1, Split(old(list[k]), address, size, kind, old(next)))
    {
      hide Ok, Tiles, Sorted, Follows, Split, FreeDel, FreeAdd, InsertAt, Log, Ids, FreeOfAll, FreeIds;
      var r := list[k];
      OkFacts(lo, hi, list, tree, free, next, k);
      ghost var l, f := list, free;
      SplitPlace(lo, hi, list, k, address, size);
      IndexInBounds(lo, hi, r.size);
      IndexInBounds(lo, hi, r.size - size);
      TailDone(list, k, address, size, kind, next, free);
      TakeTail(k, address, size);
      if r.kind.Free? {
        free := FreeDel(free, r.id, r.size);
      }
      list := list[k + 1 := Range(r.id, address, size, kind)];
      SplitOk(lo, hi, l, f, old(next), k, address, size, kind, free);
    }

    method AllocateMiddle(k: nat, address: nat, size: nat, kind: Kind)
      requires Valid() && k < |list| && !kind.Free? && list[k].base < address && 0 < size
      requires address + size < End(list[k])
      modifies this
      ensures Valid() && k + 1 < |list| && list[k + 1] == Range(old(list[k].id), address, size, kind)
      ensures list == Replace(old(list), k, k + 1, Split(old(list[k]), address, size, kind, old(next)))
    {
      hide Ok, Tiles, Sorted, Follows, Split, FreeDel, FreeAdd, InsertAt, Log, Ids, FreeOfAll, FreeIds;
      var r := list[k];
      OkFacts(lo, hi, list, tree, free, next, k);
      ghost var l, f := list, free;
      SplitPlace(lo, hi, list, k, address, size);
      IndexInBounds(lo, hi, r.size);
      IndexInBounds(lo, hi, address - r.base);
      IndexInBounds(lo, hi, End(r) - address - size);
      MiddleDone(list, k, address, size, kind, next, free);
      TakeMiddle(k, address, size);
      if r.kind.Free? {
        free := FreeDel(free, r.id, r.size);
      }
      list := list[k + 1 := Range(r.id, address, size, kind)];
      SplitOk(lo, hi, l, f, old(next), k, address, size, kind, free);
    }

    /** The split for an allocation at the beginning of range k. */
    method TakeHead(k: nat, size: nat)
      requires Sorted(list) && k < |list| == |tree| && 0 < size < list[k].size
      requires k + 1 < |list| ==> End(list[k]) <= list[k + 1].base
      requires 0 <= Log(list[k].size - size) < |free|
      modifies this
      ensures var r := old(list[k]);
        var left := Range(old(next), r.base + size, r.size - size, r.kind);
        && list == Replace(old(list), k, k + 1, [r.(size := size), left])
        && tree == InsertAt(old(tree), k + 1, left.id)
        && free == (if r.kind.Free? then FreeAdd(old(free), left.id, left.size) else old(free))
        && next == old(next) + 1
    {
      var r := list[k];
      var left := Range(next, r.base + size, r.size - size, r.kind);
      list := list[k := r.(size := size)];
      InsertRange(left, k + 1);
      next := next + 1;
    }

    /** At its end. */
    method TakeTail(k: nat, address: nat, size: nat)
      requires Sorted(list) && k < |list| == |tree| && list[k].base < address && 0 < size
      requires address + size == End(list[k])
      requires k + 1 < |list| ==> End(list[k]) <= list[k + 1].base
      requires 0 <= Log(list[k].size - size) < |free|
      modifies this
      ensures var r := old(list[k]);
        var left := Range(old(next), r.base, r.size - size, r.kind);
        && list == Replace(old(list), k, k + 1, [left, Range(r.id, address, size, r.kind)])
        && tree == InsertAt(old(tree), k, left.id)
        && free == (if r.kind.Free? then FreeAdd(old(free), left.id, left.size) else old(free))
        && next == old(next) + 1
    {
      var r := list[k];
      var left := Range(next, r.base, r.size - size, r.kind);
      list := list[k := Range(r.id, address, size, r.kind)];
      InsertRange(left, k);
      next := next + 1;
    }

    /** In its middle. */
    method TakeMiddle(k: nat, address: nat, size: nat)
      requires Sorted(list) && k < |list| == |tree| && list[k].base < address && 0 < size
      requires address + size < End(list[k])
      requires k + 1 < |list| ==> End(list[k]) <= list[k + 1].base
      requires 0 <= Log(address - list[k].base) < |free| && 0 <= Log(End(list[k]) - address - size) < |free|
      modifies this
      ensures var r := old(list[k]);
        var left1 := Range(old(next), r.base, address - r.base, r.kind);
        var left2 := Range(old(next) + 1, address + size, End(r) - address - size, r.kind);
        && list == Replace(old(list), k, k + 1, [left1, Range(r.id, address, size, r.kind), left2])
        && tree == InsertAt(InsertAt(old(tree), k, left1.id), k + 2, left2.id)
        && free == (if r.kind.Free? then FreeAdd(FreeAdd(old(free), left1.id, left1.size), left2.id, left2.size)
          else old(free))
        && next == old(next) + 2
    {
      hide Sorted, Log, FreeAdd, InsertAt, Replace;
      var r := list[k];
      var left1 := Range(next, r.base, address - r.base, r.kind);
      var left2 := Range(next + 1, address + size, r.size - size - left1.size, r.kind);
      MiddlePlace(list, k, Range(r.id, address, size, r.kind), left1, left2);
      list := list[k := Range(r.id, address, size, r.kind)];
      InsertRange(left1, k);
      InsertRange(left2, k + 2);
      next := next + 2;
    }

    /** _FreeRange: the k-th range becomes free, joined with free neighbours. */
    method FreeRange(k: nat)
      requires Valid() && k < |list| && !list[k].kind.Free?
      modifies this`list, this`tree, this`free
      ensures Valid()
      ensures list == Joined(old(list), k)
    {
      hide Ok, Tiles, Follows, FreeDel, FreeAdd, Log, Ids, FreeOfAll, FreeIds, Joined, RemoveAt;
      ghost var l, f := list, free;
      var range := list[k];
      OkFacts(lo, hi, list, tree, free, next, k);
      if k > 0 && list[k - 1].kind.Free? {
        var previous := list[k - 1];
        OkFacts(lo, hi, list, tree, free, next, k - 1);
        IndexInBounds(lo, hi, previous.size);
        if k + 1 < |list| && list[k + 1].kind.Free? {
          var following := list[k + 1];
          OkFacts(lo, hi, list, tree, free, next, k + 1);
          JoinAll(lo, hi, list, free, next, k);
          free := FreeDel(free, previous.id, previous.size);
          RemoveRange(k);
          RemoveRange(k);
          var joined := previous.(size := previous.size + range.size + following.size);
          list := list[k - 1 := joined];
          free := FreeAdd(free, joined.id, joined.size);
        } else {
          JoinPrevious(lo, hi, list, free, next, k);
          free := FreeDel(free, previous.id, previous.size);
          RemoveRange(k);
          var joined := previous.(size := previous.size + range.size);
          list := list[k - 1 := joined];
          free := FreeAdd(free, joined.id, joined.size);
        }
      } else {
        if k + 1 < |list| && list[k + 1].kind.Free? {
          var following := list[k + 1];
          OkFacts(lo, hi, list, tree, free, next, k + 1);
          JoinFollowing(lo, hi, list, free, next, k);
          RemoveRange(k + 1);
          range := range.(size := range.size + following.size);
        } else {
          JoinNone(lo, hi, list, free, next, k);
        }
        list := list[k := range.(kind := Free)];
        free := FreeAdd(free, range.id, range.size);
      }
    }

    /**
      ResizeArea of the area in range k.  A tail that is cut off joins a free
      range behind it or becomes one; to grow, the range takes from the one
      behind it, which must not be a reservation made for something above the
      area and must be large enough.  A resize to nothing leaves an empty range.
    */
    method ResizeArea(k: nat, newSize: nat, memory: nat) returns (status: Status)
      requires Valid() && k < |list| && list[k].kind.Area?
      modifies this
      ensures Valid() <==> newSize > 0 || !status.Done?
      ensures status == ResizeStatus(old(list), k, newSize, memory)
      ensures status.Done? ==> list == Resized(old(list), k, newSize, old(next))
      ensures !status.Done? ==> list == old(list) && tree == old(tree) && free == old(free)
    {
      hide Ok, Tiles, Follows, FreeDel, FreeAdd, Log, Ids, FreeOfAll, FreeIds, Replace, InsertAt, RemoveAt, Sorted;
      var range := list[k];
      OkFacts(lo, hi, list, tree, free, next, k);
      if newSize == range.size {
        return Done;
      }
      ghost var l := list;
      ResizedTilesOf(lo, hi, list, tree, free, next, k, newSize, memory);
      if newSize < range.size {
        if k + 1 < |list| && list[k + 1].kind.Free? {
          var following := list[k + 1];
          if newSize > 0 {
            MoveBorder(lo, hi, list, free, next, k, newSize);
          } else {
            EmptyBorder(lo, hi, list, tree, free, next, k);
          }
          free := FreeDel(free, following.id, following.size);
          following := following.(size := following.size + range.size - newSize, base := range.base + newSize);
          free := FreeAdd(free, following.id, following.size);
          list := list[k + 1 := following];
        } else {
          if memory < 1 {
            return NoMemory;
          }
          if newSize > 0 {
            CutSplits(lo, hi, list, free, next, k, newSize);
          } else {
            EmptyCut(lo, hi, list, tree, free, next, k);
          }
          InsertRange(Range(next, range.base + newSize, range.size - newSize, Free), k + 1);
          next := next + 1;
        }
      } else {
        if k + 1 == |list| || (list[k + 1].kind.Reserved? && list[k + 1].kind.base > range.base) {
          return Invalid;
        }
        var following, sizeDiff := list[k + 1], newSize - range.size;
        if sizeDiff > following.size {
          return Invalid;
        }
        if sizeDiff == following.size {
          GrowCovers(lo, hi, list, free, next, k, newSize);
          RemoveRange(k + 1);
        } else {
          MoveBorder(lo, hi, list, free, next, k, newSize);
          if following.kind.Free? {
            free := FreeDel(free, following.id, following.size);
          }
          var rest := following.(size := following.size - sizeDiff, base := range.base + newSize);
          if following.kind.Free? {
            free := FreeAdd(free, rest.id, rest.size);
          }
          list := list[k + 1 := rest];
        }
      }
      list := list[k := range.(size := newSize)];
      return Done;
    }

    /**
      ShrinkAreaHead: the head that is cut off joins a free range before it or
      becomes one.  Cutting off all leaves an empty range.
    */
    method ShrinkAreaHead(k: nat, newSize: nat, memory: nat) returns (status: Status)
      requires Valid() && k < |list| && list[k].kind.Area?
      modifies this
      ensures Valid() <==> newSize > 0 || !status.Done?
      ensures status == if newSize > old(list[k].size) then Invalid
        else if newSize < old(list[k].size) && !(k > 0 && old(list)[k - 1].kind.Free?) && memory < 1 then NoMemory
          else Done
      ensures status.Done? ==> list == Beheaded(old(list), k, newSize, old(next))
      ensures !status.Done? ==> list == old(list) && tree == old(tree) && free == old(free)
    {
      hide Ok, Tiles, Follows, FreeDel, FreeAdd, Log, Ids, FreeOfAll, FreeIds, Replace, InsertAt, RemoveAt, Sorted;
      var range := list[k];
      OkFacts(lo, hi, list, tree, free, next, k);
      if newSize == range.size {
        return Done;
      }
      if newSize > range.size {
        return Invalid;
      }
      BeheadedTilesOf(lo, hi, list, tree, free, next, k, newSize);
      var sizeDiff := range.size - newSize;
      var rest := range.(base := range.base + sizeDiff, size := newSize);
      if k > 0 && list[k - 1].kind.Free? {
        var previous := list[k - 1];
        if newSize > 0 {
          HeadJoins(lo, hi, list, free, next, k, newSize);
        } else {
          EmptyHeadJoins(lo, hi, list, tree, free, next, k);
        }
        free := FreeDel(free, previous.id, previous.size);
        previous := previous.(size := previous.size + sizeDiff);
        free := FreeAdd(free, previous.id, previous.size);
        list := list[k - 1 := previous][k := rest];
      } else {
        if memory < 1 {
          return NoMemory;
        }
        if newSize > 0 {
          HeadSplits(lo, hi, list, free, next, k, newSize);
        } else {
          EmptyHeadSplits(lo, hi, list, tree, free, next, k);
        }
        list := list[k := rest];
        InsertRange(Range(next, range.base, sizeDiff, Free), k);
        next := next + 1;
      }
      return Done;
    }

    // ---- searching ----

    /** The B_EXACT_ADDRESS case of _FindFreeRange. */
    method FindExact(start: nat, size: nat, allowReserved: bool) returns (found: Option<nat>)
      requires Valid() && size > 0
      ensures found.Some? ==>
        && found.value < |list| && Usable(list[found.value], allowReserved)
        && list[found.value].base <= start && start + size <= End(list[found.value])
      ensures found.None? ==> forall k | 0 <= k < |list| && list[k].base <= start && start + size <= End(list[k]) ::
        !Usable(list[k], allowReserved)
    {
      var n := AtOrBelow(list, start);
      Closest(lo, hi, list, start);
      if n == 0 || list[n - 1].kind.Area? || End(list[n - 1]) < start + size {
        return None;
      }
      if !list[n - 1].kind.Free? && !allowReserved {
        return None;
      }
      return Some(n - 1);
    }

    /** LookupArea: the area that contains an address. */
    method LookupArea(address: nat) returns (found: Option<nat>)
      requires Valid()
      ensures found.Some? ==>
        && found.value < |list| && list[found.value].kind.Area?
        && list[found.value].base <= address < End(list[found.value])
      ensures found.None? ==>
        forall k | 0 <= k < |list| && list[k].kind.Area? :: !(list[k].base <= address < End(list[k]))
    {
      var n := AtOrBelow(list, address);
      Closest(lo, hi, list, address);
      if n == 0 || !list[n - 1].kind.Area? || End(list[n - 1]) <= address {
        return None;
      }
      return Some(n - 1);
    }

    /** The base-address case of _FindFreeRange: the first free range from `start` on with room. */
    method FindFrom(start: nat, size: nat, alignment: nat, random: Option<nat>) returns (found: Option<(nat, nat)>)
      requires Valid() && size > 0 && alignment > 0
      ensures found.Some? ==> Spot(list, found.value.0, found.value.1, start, size, alignment)
      ensures forall k | 0 <= k < |list| && AtOrBelow(list, start) > 0 && AtOrBelow(list, start) - 1 <= k
        && (found.Some? ==> k < found.value.0) ::
        !HasRoom(list[k], start, size, alignment)
    {
      var n := AtOrBelow(list, start);
      Closest(lo, hi, list, start);
      if n == 0 {
        return None;
      }
      var k := n - 1;
      while k < |list|
        invariant n - 1 <= k <= |list|
        invariant forall j | n - 1 <= j < k :: !HasRoom(list[j], start, size, alignment)
      {
        if HasRoom(list[k], start, size, alignment) {
          var address := Choose(list[k], start, size, alignment, random);
          return Some((k, address));
        }
        k := k + 1;
      }
      return None;
    }

    /** The any-address case: the first range with room in the free lists that can hold the size. */
    method FindAny(start: nat, size: nat, alignment: nat, random: Option<nat>) returns (found: Option<(nat, nat)>)
      requires Valid() && size > 0 && alignment > 0
      ensures found.Some? ==> Spot(list, found.value.0, found.value.1, start, size, alignment)
      ensures found.Some? ==>
        forall k | 0 <= k < |list| && SearchIndex(size) <= Log(list[k].size) < Log(list[found.value.0].size) ::
        !HasRoom(list[k], start, size, alignment)
      ensures found.None? ==> NoRoom(list, start, size, alignment)
    {
      var index := Ld(2 * size - 1);
      LogBounds(2 * size - 1);
      var i := index;
      while i < |free|
        invariant index <= i
        invariant forall k | 0 <= k < |list| && index <= Log(list[k].size) < i ::
          !HasRoom(list[k], start, size, alignment)
      {
        var hit := FindInList(i, start, size, alignment, random);
        if hit.Some? {
          return hit;
        }
        i := i + 1;
      }
      AllInLists(lo, hi, list, tree, free, next);
      return None;
    }

    /** One free list, in any order. */
    method FindInList(i: nat, start: nat, size: nat, alignment: nat, random: Option<nat>)
      returns (found: Option<(nat, nat)>)
      requires Valid() && size > 0 && alignment > 0 && i < |free|
      ensures found.Some? ==> Spot(list, found.value.0, found.value.1, start, size, alignment)
      ensures found.Some? ==> Log(list[found.value.0].size) == i
      ensures found.None? ==>
        forall k | 0 <= k < |list| && Log(list[k].size) == i :: !HasRoom(list[k], start, size, alignment)
    {
      var todo := free[i];
      while todo != {}
        invariant todo <= free[i]
        invariant forall k | 0 <= k < |list| && list[k].kind.Free? && Log(list[k].size) == i && list[k].id !in todo ::
          !HasRoom(list[k], start, size, alignment)
        decreases todo
      {
        SomeId(todo);
        var id :| id in todo;
        ListedRange(lo, hi, list, tree, free, next, i, id);
        var k := IndexOf(list, id);
        if HasRoom(list[k], start, size, alignment) {
          var address := Choose(list[k], start, size, alignment, random);
          return Some((k, address));
        }
        todo := todo - {id};
      }
      return None;
    }

    /** A base-address search goes on with any address. */
    method FindBase(start: nat, size: nat, alignment: nat, random: Option<nat>) returns (found: Option<(nat, nat)>)
      requires Valid() && size > 0 && alignment > 0
      ensures found.Some? ==> Spot(list, found.value.0, found.value.1, start, size, alignment)
      ensures found.None? ==> NoRoom(list, start, size, alignment)
    {
      found := FindFrom(start, size, alignment, random);
      if found.None? {
        found := FindAny(start, size, alignment, random);
      }
    }

    /**
      _FindFreeRange but for exact addresses.  A randomized base-address search
      tries the start that was drawn, then the one asked for, then all of the space.
    */
    method FindSpot(spec: Spec, size: nat, alignment: nat, random: Option<nat>) returns (found: Option<(nat, nat)>)
      requires Valid() && size > 0 && alignment > 0 && !spec.Exact?
      ensures found.Some? ==> Spot(list, found.value.0, found.value.1, 0, size, alignment)
      ensures found.Some? && spec.From? ==> found.value.1 >= StartOf(spec.address, lo, hi, size, alignment)
      ensures found.None? ==>
        NoRoom(list, if spec.From? then StartOf(spec.address, lo, hi, size, alignment) else lo, size, alignment)
    {
      hide Ok, NoRoom, StartOf, RoundUp;
      OkTiles(lo, hi, list, tree, free, next);
      if spec.Any? {
        found := FindAny(lo, size, alignment, random);
        return;
      }
      var start := StartOf(spec.address, lo, hi, size, alignment);
      if spec.From? {
        found := FindBase(start, size, alignment, random);
        return;
      }
      found := FindBase(spec.drawn, size, alignment, random);
      if found.None? && spec.drawn != start {
        found := FindBase(start, size, alignment, random);
      }
      if found.None? {
        found := FindAny(lo, size, alignment, random);
      }
    }

    /** InsertArea and ReserveAddressRange: find a spot and take it, or fail and change nothing. */
    method Allocate(spec: Spec, size: nat, alignment: nat, reserve: Option<bool>, random: Option<nat>, memory: nat)
        returns (status: Status, at: nat, ghost from: nat)
      requires Valid() && alignment > 0 && (spec.Exact? ==> size > 0)
      modifies this
      ensures Valid() && (size == 0 ==> status.NoMemory?)
      ensures !status.Done? ==> list == old(list) && tree == old(tree) && free == old(free)
      ensures status.Done? ==>
        && at < |list| && list[at].size == size && !list[at].kind.Free? && list[at].kind.Area? == reserve.None?
        && from < |old(list)| && Usable(old(list)[from], spec.Exact?)
        && old(list)[from].base <= list[at].base && End(list[at]) <= End(old(list)[from])
        && list == Replace(old(list), from, from + 1,
          Split(old(list)[from], list[at].base, size, list[at].kind, old(next)))
      ensures status.Done? && spec.Exact? ==> list[at].base == spec.address
      ensures status.Done? && !spec.Exact? ==> list[at].base % alignment == 0
      ensures status.Invalid? ==> spec.Exact?
      ensures status.NoMemory? && memory >= 2 ==> spec.From? || spec.Any? || spec.RandomFrom?
      ensures status.NoMemory? && memory >= 2 && size > 0 ==>
        NoRoom(list, if spec.From? then StartOf(spec.address, lo, hi, size, alignment) else lo, size, alignment)
    {
      hide Ok, Tiles, Split, Replace, Log, AtOrBelow, Choose, RoundUp, NoRoom, StartOf;
      at := 0;
      var address: nat, k: nat;
      match spec {
        case Exact(wanted) =>
          var hit := FindExact(wanted, size, reserve.None?);
          if hit.None? {
            return Invalid, 0, 0;
          }
          k, address := hit.value, wanted;
        case _ =>
          if size == 0 {
            return NoMemory, 0, 0;       // no spot is valid for an empty range
          }
          var hit := FindSpot(spec, size, alignment, random);
          if hit.None? {
            return NoMemory, 0, 0;
          }
          k, address := hit.value.0, hit.value.1;
      }
      from := k;
      var ok;
      ok, at := AllocateAt(k, address, size, if reserve.Some? then Reserved(address, reserve.value) else Area, memory);
      status := if ok then Done else NoMemory;
    }

    /**
      vm_reserve_address_range on the kernel's space, for any request: one for
      nothing is refused before it gets to Allocate.
    */
    method Reserve(spec: Spec, size: nat, alignment: nat, avoidBase: bool, random: Option<nat>, memory: nat)
        returns (status: Status, at: nat)
      requires Valid() && alignment > 0
      modifies this
      ensures Valid() && (size == 0 ==> status.Invalid?)
      ensures !status.Done? ==> list == old(list) && tree == old(tree) && free == old(free)
      ensures status.Done? ==>
        && at < |list| && list[at].size == size && list[at].kind.Reserved?
        && exists from | 0 <= from < |old(list)| ::
          && Usable(old(list)[from], spec.Exact?)
          && old(list)[from].base <= list[at].base && End(list[at]) <= End(old(list)[from])
          && list == Replace(old(list), from, from + 1,
            Split(old(list)[from], list[at].base, size, list[at].kind, old(next)))
    {
      hide Ok, Tiles, Split, Replace;
      if size == 0 {
        return Invalid, 0;
      }
      ghost var from;
      status, at, from := Allocate(spec, size, alignment, Some(avoidBase), random, memory);
    }

    /** The next range, skipping free ones, which freeing range k may join to it. */
    method NextUsed(k: nat) returns (n: nat)
      requires k < |list|
      ensures k < n <= |list| && (forall i | k < i < n :: list[i].kind.Free?) && (n < |list| ==> !list[n].kind.Free?)
    {
      n := k + 1;
      while n < |list| && list[n].kind.Free?
        invariant k < n <= |list|
        invariant forall i | k < i < n :: list[i].kind.Free?
      {
        n := n + 1;
      }
    }

    /** Where a range ends; an empty one at address zero ends, after wrapping around, where all memory does. */
    function EndAddress(address: nat, size: nat): nat { if address + size == 0 then hi else address + size }

    /**
      UnreserveAddressRange: every reservation that lies within the address
      range is freed; nothing else that is in use changes.
    */
    method Unreserve(address: nat, size: nat)
      requires Valid()
      modifies this`list, this`tree, this`free
      ensures Valid()
      ensures Busy(list) == Unreserved(Busy(old(list)), address, EndAddress(address, size))
    {
      hide Ok, Joined, Unreserved, Busy, BelowOnly, Tiles, Progress;
      ghost var l := list;
      var left := |list| - BelowOnly(list, address);
      var end := EndAddress(address, size);
      OkTiles(lo, hi, list, tree, free, next);
      ProgressStart(lo, hi, list, address, end);
      while left > 0 && End(list[|list| - left]) <= end
        invariant Valid() && 0 <= left <= |list|
        invariant Progress(l, list, address, end, left)
      {
        var k := |list| - left;
        var n := NextUsed(k);
        var stillLeft := |list| - n;
        if list[k].kind.Reserved? {
          ProgressFree(l, list, address, end, left, stillLeft);
          FreeRange(k);
        } else {
          ProgressSkip(l, list, address, end, left, stillLeft);
        }
        left := stillLeft;
      }
      ProgressEnd(lo, hi, l, list, address, end, left);
    }

    /** _RemoveRange of the k-th range. */
    method RemoveRange(k: nat)
      requires k < |list| == |tree| && 0 <= Log(list[k].size) < |free|
      modifies this`list, this`tree, this`free
      ensures list == RemoveAt(old(list), k) && tree == RemoveAt(old(tree), k)
      ensures free == if old(list[k]).kind.Free? then FreeDel(old(free), old(list[k]).id, old(list[k]).size)
        else old(free)
    {
      var r := list[k];
      tree := RemoveAt(tree, k);
      list := RemoveAt(list, k);
      if r.kind.Free? {
        free := FreeDel(free, r.id, r.size);
      }
    }
  }

  lemma ResizedTilesOf(lo: nat, hi: nat, l: seq<Range>, tree: seq<Id>, free: seq<set<Id>>, next: Id, k: nat,
                       newSize: nat, memory: nat)
    requires Ok(lo, hi, l, tree, free, next) && k < |l|
    ensures newSize == 0 ==>
      forall tree2, free2, next2 :: !Ok(lo, hi, Resized(l, k, newSize, next), tree2, free2, next2)
  {
    OkFacts(lo, hi, l, tree, free, next, k);
    if newSize == 0 { ResizedTiles(lo, hi, l, k, newSize, next); }
  }

  lemma BeheadedTilesOf(lo: nat, hi: nat, l: seq<Range>, tree: seq<Id>, free: seq<set<Id>>, next: Id, k: nat,
                        newSize: nat)
    requires Ok(lo, hi, l, tree, free, next) && k < |l| && newSize <= l[k].size
    ensures newSize == 0 ==>
      forall tree2, free2, next2 :: !Ok(lo, hi, Beheaded(l, k, newSize, next), tree2, free2, next2)
  {
    OkFacts(lo, hi, l, tree, free, next, k);
    if newSize == 0 { BeheadedTiles(lo, hi, l, k, newSize, next); }
  }
}
