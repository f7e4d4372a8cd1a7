/**
  Tilings of an address space by ranges, with free lists by powers of two, and
  what allocating, freeing, resizing and unreserving do to them
  (aspace/VMKernelAddressSpace.cpp).  Addresses and sizes are in pages.  A range
  object is a record with an id; the list holds the records, tree and free lists
  hold ids.  The allocator itself is in module KernelAddressSpace.
*/
module KernelRanges {
  import opened Options

  type Id = nat

  datatype Kind = Free | Reserved(base: nat, avoidBase: bool) | Area

  datatype Range = Range(id: Id, base: nat, size: nat, kind: Kind)

  // ---- logarithms ----

  /** The index of the highest bit; -1 for zero. */
  function Log(v: nat): int { if v == 0 then -1 else 1 + Log(v / 2) }

  function Pow2(n: nat): nat { if n == 0 then 1 else 2 * Pow2(n - 1) }

  /** ld(). */
  method Ld(value: nat) returns (index: int)
    ensures index == Log(value)
  {
    var v := value;
    index := -1;
    while v > 0
      invariant index + Log(v) + 1 == Log(value)
    {
      v := v / 2;
      index := index + 1;
    }
  }

  lemma {:induction false} LogBounds(v: nat)
    requires v > 0
    ensures Log(v) >= 0 && Pow2(Log(v)) <= v < 2 * Pow2(Log(v))
  {
    if v > 1 { LogBounds(v / 2); }
  }

  lemma {:induction false} LogMonotone(v: nat, w: nat)
    requires v <= w
    ensures Log(v) <= Log(w)
  {
    if v > 0 { LogMonotone(v / 2, w / 2); } else if w > 0 { LogBounds(w); }
  }

  lemma {:induction false} Pow2Monotone(m: nat, n: nat)
    requires m <= n
    ensures Pow2(m) <= Pow2(n)
  {
    if m < n { Pow2Monotone(m, n - 1); }
  }

  /** The free list where the search for n pages starts. */
  function SearchIndex(n: nat): nat
    requires n > 0
  {
    LogBounds(2 * n - 1);
    Log(2 * n - 1)
  }

  /** Every range in a list from there on is large enough. */
  lemma SearchedListsFit(n: nat, size: nat)
    requires n > 0 && size > 0 && Log(size) >= SearchIndex(n)
    ensures size >= n
  {
    LogBounds(2 * n - 1);
    LogBounds(size);
    Pow2Monotone(Log(2 * n - 1), Log(size));
  }

  /** Ranges in the lists before it are smaller than the next power of two of n. */
  lemma SkippedListsSmall(n: nat, size: nat)
    requires n > 0 && size > 0 && Log(size) < SearchIndex(n)
    ensures size < Pow2(SearchIndex(n)) && Pow2(SearchIndex(n)) < 2 * n
    ensures n <= Pow2(SearchIndex(n))
  {
    LogBounds(2 * n - 1);
    LogBounds(size);
    Pow2Monotone(Log(size) + 1, Log(2 * n - 1));
  }

  // ---- lists of ranges ----

  function End(r: Range): nat { r.base + r.size }

  /** The ranges cover lo .. hi in order, without gap, overlap or empty range. */
  ghost predicate Tiles(l: seq<Range>, lo: nat, hi: nat) {
    if l == [] then lo == hi else l[0].base == lo && l[0].size > 0 && Tiles(l[1..], End(l[0]), hi)
  }

  ghost predicate NoAdjoiningFree(l: seq<Range>) {
    forall i, j | 0 <= i < |l| && j == i + 1 && j < |l| :: !(l[i].kind.Free? && l[j].kind.Free?)
  }

  ghost predicate DistinctIds(l: seq<Range>) {
    forall i, j | 0 <= i < j < |l| :: l[i].id != l[j].id
  }

  ghost predicate Sorted(l: seq<Range>) {
    forall i, j | 0 <= i < j < |l| :: l[i].base < l[j].base
  }

  function Ids(l: seq<Range>): (r: seq<Id>)
    ensures |r| == |l| && forall i | 0 <= i < |l| :: r[i] == l[i].id
  {
    seq(|l|, i requires 0 <= i < |l| => l[i].id)
  }

  /** What free list i must hold. */
  ghost function FreeIds(l: seq<Range>, i: int): set<Id> {
    set k | 0 <= k < |l| && l[k].kind.Free? && Log(l[k].size) == i :: l[k].id
  }

  lemma {:induction false} TilesJoin(a: seq<Range>, b: seq<Range>, lo: nat, mid: nat, hi: nat)
    requires Tiles(a, lo, mid) && Tiles(b, mid, hi)
    ensures Tiles(a + b, lo, hi) && lo <= mid <= hi
  {
    if a == [] {
      assert a + b == b;
      TilesGrow(b, mid, hi);
    } else {
      TilesJoin(a[1..], b, End(a[0]), mid, hi);
      assert (a + b)[1..] == a[1..] + b;
    }
  }

  lemma {:induction false} TilesGrow(l: seq<Range>, lo: nat, hi: nat)
    requires Tiles(l, lo, hi)
    ensures lo <= hi && (l != [] ==> lo < hi)
  {
    if l != [] { TilesGrow(l[1..], End(l[0]), hi); }
  }

  /** Where range k of a tiling starts, or where the tiling ends. */
  ghost function Start(l: seq<Range>, k: nat, hi: nat): nat
    requires k <= |l|
  {
    if k < |l| then l[k].base else hi
  }

  lemma {:induction false} TilesSplit(l: seq<Range>, k: nat, lo: nat, hi: nat)
    requires Tiles(l, lo, hi) && k <= |l|
    ensures Tiles(l[..k], lo, Start(l, k, hi)) && Tiles(l[k..], Start(l, k, hi), hi)
    ensures k < |l| ==> l[k].size > 0 && End(l[k]) == Start(l, k + 1, hi)
  {
    if k == 0 {
      assert l[..0] == [] && l[0..] == l;
      if |l| > 1 { assert l[1..][0] == l[1]; }
    } else {
      TilesSplit(l[1..], k - 1, End(l[0]), hi);
      SliceTail(l, k);
    }
  }

  lemma SliceTail(l: seq<Range>, k: nat)
    requires 0 < k <= |l|
    ensures l[..k][1..] == l[1..][..k - 1] && l[k..] == l[1..][k - 1..]
  {
    assert forall i | 0 <= i < k - 1 :: l[..k][1..][i] == l[1..][..k - 1][i];
  }

  lemma {:induction false} TilesSorted(l: seq<Range>, lo: nat, hi: nat)
    requires Tiles(l, lo, hi)
    ensures Sorted(l) && forall i | 0 <= i < |l| :: lo <= l[i].base && End(l[i]) <= hi && l[i].size > 0
  {
    if l != [] {
      TilesSorted(l[1..], End(l[0]), hi);
      TilesGrow(l, lo, hi);
      TilesGrow(l[1..], End(l[0]), hi);
      assert forall i | 0 < i < |l| :: l[i] == l[1..][i - 1];
    }
  }

  lemma FreeIdsJoin(a: seq<Range>, b: seq<Range>, i: int)
    ensures FreeIds(a + b, i) == FreeIds(a, i) + FreeIds(b, i)
  {
    assert forall k | 0 <= k < |a| :: (a + b)[k] == a[k];
    assert forall k | 0 <= k < |b| :: (a + b)[|a| + k] == b[k];
    forall x | x in FreeIds(b, i) ensures x in FreeIds(a + b, i) {
      var k :| 0 <= k < |b| && b[k].kind.Free? && Log(b[k].size) == i && b[k].id == x;
      assert (a + b)[|a| + k].id == x;
    }
  }

  // ---- replacing part of the list ----

  function Replace(l: seq<Range>, i: nat, j: nat, mid: seq<Range>): seq<Range>
    requires i <= j <= |l|
  {
    l[..i] + mid + l[j..]
  }

  lemma ReplaceTiles(l: seq<Range>, i: nat, j: nat, mid: seq<Range>, lo: nat, hi: nat)
    requires Tiles(l, lo, hi) && i <= j <= |l| && Tiles(mid, Start(l, i, hi), Start(l, j, hi))
    ensures Tiles(Replace(l, i, j, mid), lo, hi)
  {
    TilesSplit(l, i, lo, hi);
    TilesSplit(l, j, lo, hi);
    TilesJoin(l[..i], mid, lo, Start(l, i, hi), Start(l, j, hi));
    TilesJoin(l[..i] + mid, l[j..], lo, Start(l, j, hi), hi);
  }

  /** No free neighbours inside the new part or at its borders. */
  ghost predicate Borders(l: seq<Range>, i: nat, j: nat, mid: seq<Range>)
    requires i <= j <= |l|
  {
    && mid != [] && NoAdjoiningFree(mid)
    && (i > 0 ==> !(l[i - 1].kind.Free? && mid[0].kind.Free?))
    && (j < |l| ==> !(mid[|mid| - 1].kind.Free? && l[j].kind.Free?))
  }

  lemma ReplaceNoAdjoining(l: seq<Range>, i: nat, j: nat, mid: seq<Range>)
    requires NoAdjoiningFree(l) && i <= j <= |l| && Borders(l, i, j, mid)
    ensures NoAdjoiningFree(Replace(l, i, j, mid))
  {
    var m := Replace(l, i, j, mid);
    forall x, y | 0 <= x < |m| && y == x + 1 && y < |m| ensures !(m[x].kind.Free? && m[y].kind.Free?) {
      if y < i {
        assert m[x] == l[x] && m[y] == l[y];
      } else if i <= x && y < i + |mid| {
        assert m[x] == mid[x - i] && m[y] == mid[y - i];
      } else if i + |mid| <= x {
        assert m[x] == l[x - i - |mid| + j] && m[y] == l[y - i - |mid| + j];
      }
    }
  }

  /** The ids of the new part are its old ids or new ones. */
  ghost predicate IdsFrom(l: seq<Range>, i: nat, j: nat, mid: seq<Range>, next: Id)
    requires i <= j <= |l|
  {
    && DistinctIds(mid)
    && forall x | 0 <= x < |mid| :: mid[x].id >= next || exists k | i <= k < j :: l[k].id == mid[x].id
  }

  ghost predicate IdsBelow(l: seq<Range>, next: Id) { forall k | 0 <= k < |l| :: l[k].id < next }

  lemma ReplaceDistinct(l: seq<Range>, i: nat, j: nat, mid: seq<Range>, next: Id)
    requires DistinctIds(l) && IdsBelow(l, next) && i <= j <= |l| && IdsFrom(l, i, j, mid, next)
    ensures DistinctIds(Replace(l, i, j, mid))
  {
    var m := Replace(l, i, j, mid);
    forall x, y | 0 <= x < y < |m| ensures m[x].id != m[y].id {
      if i <= x < i + |mid| && !(i <= y < i + |mid|) {
        assert m[x] == mid[x - i] && m[y] == l[y - i - |mid| + j];
      } else if i <= y < i + |mid| && !(i <= x < i + |mid|) {
        assert m[y] == mid[y - i] && m[x] == l[x];
      }
    }
  }

  lemma FreeIdsReplace(l: seq<Range>, i: nat, j: nat, mid: seq<Range>, q: int)
    requires i <= j <= |l|
    ensures FreeIds(l, q) == FreeIds(l[..i], q) + FreeIds(l[i..j], q) + FreeIds(l[j..], q)
    ensures FreeIds(Replace(l, i, j, mid), q) == FreeIds(l[..i], q) + FreeIds(mid, q) + FreeIds(l[j..], q)
  {
    FreeIdsJoin(l[..i], l[i..j], q);
    FreeIdsJoin(l[..i] + l[i..j], l[j..], q);
    assert l == l[..i] + l[i..j] + l[j..];
    FreeIdsJoin(l[..i], mid, q);
    FreeIdsJoin(l[..i] + mid, l[j..], q);
  }

  /** With distinct ids, the replaced part's ids are in no free list for another reason. */
  lemma FreeIdsApart(l: seq<Range>, i: nat, j: nat, q: int)
    requires DistinctIds(l) && i <= j <= |l|
    ensures forall k | i <= k < j :: l[k].id !in FreeIds(l[..i], q) + FreeIds(l[j..], q)
  {
  }

  // ---- the structures together ----

  /** What _CheckStructures checks. */
  ghost predicate Ok(lo: nat, hi: nat, l: seq<Range>, tree: seq<Id>, free: seq<set<Id>>, next: Id) {
    && lo < hi && Tiles(l, lo, hi) && NoAdjoiningFree(l) && DistinctIds(l) && IdsBelow(l, next)
    && tree == Ids(l)
    && |free| == Log(hi - lo) + 1
    && forall q | 0 <= q < |free| :: free[q] == FreeIds(l, q)
  }

  lemma OkFacts(lo: nat, hi: nat, l: seq<Range>, tree: seq<Id>, free: seq<set<Id>>, next: Id, k: nat)
    requires Ok(lo, hi, l, tree, free, next) && k < |l|
    ensures lo < hi && Tiles(l, lo, hi) && tree == Ids(l) && |tree| == |l| && l[k].id < next
    ensures |free| == Log(hi - lo) + 1
    ensures l[k].size > 0 && lo <= l[k].base && End(l[k]) <= hi
  {
    TilesSorted(l, lo, hi);
  }

  /** Free list q should hold r. */
  ghost function FreeOf(r: Range, q: int): set<Id> { if r.kind.Free? && Log(r.size) == q then {r.id} else {} }

  ghost function FreeOfAll(l: seq<Range>, q: int): set<Id> {
    if l == [] then {} else FreeOf(l[0], q) + FreeOfAll(l[1..], q)
  }

  lemma {:induction false} FreeIdsAre(l: seq<Range>, q: int)
    ensures FreeIds(l, q) == FreeOfAll(l, q)
  {
    if l != [] {
      FreeIdsAre(l[1..], q);
      FreeIdsJoin([l[0]], l[1..], q);
      assert l == [l[0]] + l[1..];
      assert FreeIds([l[0]], q) == FreeOf(l[0], q) by {
        assert forall k | 0 <= k < |[l[0]]| :: [l[0]][k] == l[0];
        if l[0].kind.Free? && Log(l[0].size) == q { assert [l[0]][0].id in FreeIds([l[0]], q); }
      }
    }
  }

  /** Ranges of the space fit the free lists. */
  lemma IndexInBounds(lo: nat, hi: nat, size: nat)
    requires lo < hi && 0 < size <= hi - lo
    ensures 0 <= Log(size) < Log(hi - lo) + 1
  {
    LogBounds(size);
    LogMonotone(size, hi - lo);
  }

  /** Replacing part of the list by an equal span keeps everything, if the free lists follow. */
  lemma ReplaceOk(lo: nat, hi: nat, l: seq<Range>, free: seq<set<Id>>, next: Id,
                  i: nat, j: nat, mid: seq<Range>, free2: seq<set<Id>>, next2: Id)
    requires Ok(lo, hi, l, Ids(l), free, next) && i <= j <= |l|
    requires Tiles(mid, Start(l, i, hi), Start(l, j, hi)) && Borders(l, i, j, mid)
    requires IdsFrom(l, i, j, mid, next) && IdsBelow(mid, next2) && next <= next2
    requires Follows(free, free2, l[i..j], mid)
    ensures Ok(lo, hi, Replace(l, i, j, mid), Ids(Replace(l, i, j, mid)), free2, next2)
  {
    ReplaceTiles(l, i, j, mid, lo, hi);
    ReplaceNoAdjoining(l, i, j, mid);
    ReplaceDistinct(l, i, j, mid, next);
    var m := Replace(l, i, j, mid);
    assert IdsBelow(m, next2);
    forall q | 0 <= q < |free| ensures free2[q] == FreeIds(m, q) {
      ReplaceFree(l, i, j, mid, q);
      FreeIdsAre(l[i..j], q);
      FreeIdsAre(mid, q);
      assert free2[q] == free[q] - FreeOfAll(l[i..j], q) + FreeOfAll(mid, q);
    }
  }

  lemma ReplaceFree(l: seq<Range>, i: nat, j: nat, mid: seq<Range>, q: int)
    requires DistinctIds(l) && i <= j <= |l|
    ensures FreeIds(Replace(l, i, j, mid), q) == FreeIds(l, q) - FreeIds(l[i..j], q) + FreeIds(mid, q)
  {
    FreeIdsReplace(l, i, j, mid, q);
    FreeIdsApart(l, i, j, q);
    forall x | x in FreeIds(l[i..j], q) ensures x !in FreeIds(l[..i], q) + FreeIds(l[j..], q) {
      var k :| 0 <= k < |l[i..j]| && l[i..j][k].kind.Free? && Log(l[i..j][k].size) == q && l[i..j][k].id == x;
      assert l[i + k].id == x;
    }
  }

  // ---- the allocator ----

  function FreeAdd(free: seq<set<Id>>, id: Id, size: nat): (f: seq<set<Id>>)
    requires 0 <= Log(size) < |free|
    ensures |f| == |free| && forall q | 0 <= q < |free| :: f[q] == if q == Log(size) then free[q] + {id} else free[q]
  {
    free[Log(size) := free[Log(size)] + {id}]
  }

  function FreeDel(free: seq<set<Id>>, id: Id, size: nat): (f: seq<set<Id>>)
    requires 0 <= Log(size) < |free|
    ensures |f| == |free| && forall q | 0 <= q < |free| :: f[q] == if q == Log(size) then free[q] - {id} else free[q]
  {
    free[Log(size) := free[Log(size)] - {id}]
  }

  /** How many ranges from the front start at or below an address: FindClosest() is the last of them. */
  function AtOrBelow(l: seq<Range>, address: nat): nat {
    if l == [] then 0 else if l[|l| - 1].base <= address then |l| else AtOrBelow(l[..|l| - 1], address)
  }

  /** How many start below it: where the tree puts a range with that base. */
  function BelowOnly(l: seq<Range>, address: nat): nat {
    if l == [] then 0 else if l[|l| - 1].base < address then |l| else BelowOnly(l[..|l| - 1], address)
  }

  /** From the p-th on all ranges start above an address. */
  ghost predicate Beyond(l: seq<Range>, p: nat, address: nat) { forall j | p <= j < |l| :: address < l[j].base }

  lemma SortedBeyond(l: seq<Range>, p: nat, address: nat)
    requires Sorted(l) && (p < |l| ==> address < l[p].base)
    ensures Beyond(l, p, address)
  {
  }

  /** The place of an address in the list; the tree agrees on it unless there is a range with that base. */
  lemma {:induction false} PlaceIs(l: seq<Range>, address: nat, p: nat)
    requires p <= |l| && (p > 0 ==> l[p - 1].base <= address) && Beyond(l, p, address)
    ensures AtOrBelow(l, address) == p && BelowOnly(l, address) <= |l|
    ensures (p > 0 ==> l[p - 1].base < address) ==> BelowOnly(l, address) == p
  {
    if p < |l| {
      var n := |l| - 1;
      assert address < l[n].base;
      PlaceIs(l[..n], address, p);
    } else {
      BelowBound(l, address);
    }
  }

  lemma {:induction false} BelowBound(l: seq<Range>, address: nat)
    ensures BelowOnly(l, address) <= |l|
  {
    if l != [] { BelowBound(l[..|l| - 1], address); }
  }

  function InsertAt<T>(s: seq<T>, p: nat, x: T): (r: seq<T>)
    requires p <= |s|
    ensures |r| == |s| + 1 && r[p] == x
  {
    s[..p] + [x] + s[p..]
  }

  function RemoveAt<T>(s: seq<T>, k: nat): (r: seq<T>)
    requires k < |s|
    ensures |r| == |s| - 1 && forall i | 0 <= i < |r| :: r[i] == s[if i < k then i else i + 1]
  {
    s[..k] + s[k + 1..]
  }

  /** What becomes of range r when `size` pages at `address` are taken from it. */
  ghost function Split(r: Range, address: nat, size: nat, kind: Kind, next: Id): seq<Range>
    requires r.base <= address && address + size <= End(r)
  {
    (if address > r.base then [Range(next, r.base, address - r.base, r.kind)] else []) +
    [Range(r.id, address, size, kind)] +
    (if address + size < End(r)
     then [Range(if address > r.base then next + 1 else next, address + size, End(r) - address - size, r.kind)] else [])
  }

  ghost function SplitNext(r: Range, address: nat, size: nat, next: Id): Id {
    next + (if address > r.base then 1 else 0) + (if address + size < End(r) then 1 else 0)
  }

  lemma SplitTiles(r: Range, address: nat, size: nat, kind: Kind, next: Id)
    requires r.base <= address && address + size <= End(r) && size > 0
    ensures Tiles(Split(r, address, size, kind, next), r.base, End(r))
  {
    var mid := Range(r.id, address, size, kind);
    var right := Range(if address > r.base then next + 1 else next, address + size, End(r) - address - size, r.kind);
    var tail := if address + size < End(r) then [right] else [];
    assert Tiles([], End(r), End(r));
    assert Tiles(tail, address + size, End(r)) by { if tail != [] { assert tail[1..] == []; } }
    assert Tiles([mid] + tail, address, End(r)) by { assert ([mid] + tail)[1..] == tail; }
    if address > r.base {
      var left := Range(next, r.base, address - r.base, r.kind);
      assert Split(r, address, size, kind, next) == [left] + ([mid] + tail);
      assert ([left] + ([mid] + tail))[1..] == [mid] + tail;
    } else {
      assert Split(r, address, size, kind, next) == [mid] + tail;
    }
  }

  lemma SplitBorders(l: seq<Range>, k: nat, address: nat, size: nat, kind: Kind, next: Id)
    requires k < |l| && NoAdjoiningFree(l) && l[k].base <= address && address + size <= End(l[k]) && !kind.Free?
    ensures Borders(l, k, k + 1, Split(l[k], address, size, kind, next))
  {
  }

  lemma SplitIds(l: seq<Range>, k: nat, address: nat, size: nat, kind: Kind, next: Id)
    requires k < |l| && l[k].base <= address && address + size <= End(l[k]) && l[k].id < next
    ensures var mid := Split(l[k], address, size, kind, next);
      IdsFrom(l, k, k + 1, mid, next) && IdsBelow(mid, SplitNext(l[k], address, size, next))
  {
    assert exists x | k <= x < k + 1 :: l[x].id == l[k].id;
  }

  /** The free lists after a part `gone` of the list was replaced by `mid`. */
  ghost predicate Follows(free: seq<set<Id>>, free2: seq<set<Id>>, gone: seq<Range>, mid: seq<Range>) {
    |free2| == |free| && forall q | 0 <= q < |free| :: free2[q] == free[q] - FreeOfAll(gone, q) + FreeOfAll(mid, q)
  }

  /** Taking a piece out of a range keeps the structures. */
  lemma SplitOk(lo: nat, hi: nat, l: seq<Range>, free: seq<set<Id>>, next: Id, k: nat, address: nat, size: nat,
                kind: Kind,
                free2: seq<set<Id>>)
    requires Ok(lo, hi, l, Ids(l), free, next) && k < |l|
    requires l[k].base <= address && address + size <= End(l[k]) && size > 0 && !kind.Free?
    requires Follows(free, free2, [l[k]], Split(l[k], address, size, kind, next))
    ensures var m := Replace(l, k, k + 1, Split(l[k], address, size, kind, next));
      Ok(lo, hi, m, Ids(m), free2, SplitNext(l[k], address, size, next))
  {
    var mid := Split(l[k], address, size, kind, next);
    TilesSplit(l, k, lo, hi);
    SplitTiles(l[k], address, size, kind, next);
    SplitBorders(l, k, address, size, kind, next);
    SplitIds(l, k, address, size, kind, next);
    assert l[k..k + 1] == [l[k]];
    hide Split, SplitNext, Tiles, FreeOfAll, Borders, IdsFrom, IdsBelow;
    ReplaceOk(lo, hi, l, free, next, k, k + 1, mid, free2, SplitNext(l[k], address, size, next));
  }

  /** While a range is being split, the list stays sorted and the pieces go between its neighbours. */
  lemma SplitPlace(lo: nat, hi: nat, l: seq<Range>, k: nat, address: nat, size: nat)
    requires Tiles(l, lo, hi) && k < |l| && l[k].base <= address && address + size <= End(l[k]) && size > 0
    ensures Sorted(l) && lo <= l[k].base && End(l[k]) <= hi && l[k].size > 0
    ensures k > 0 ==> l[k - 1].base < l[k].base
    ensures k + 1 < |l| ==> End(l[k]) <= l[k + 1].base
    ensures forall r: Range | address <= r.base < address + size :: Sorted(l[k := r])
  {
    TilesSorted(l, lo, hi);
    TilesSplit(l, k, lo, hi);
  }

  lemma SortedInsert(l: seq<Range>, p: nat, r: Range)
    requires Sorted(l) && p <= |l| && (p > 0 ==> l[p - 1].base < r.base) && (p < |l| ==> r.base < l[p].base)
    ensures Sorted(InsertAt(l, p, r))
  {
  }

  // ---- the free lists of short parts ----

  lemma FreeOf1(a: Range, q: int)
    ensures FreeOfAll([a], q) == FreeOf(a, q)
  {
    assert [a][1..] == [];
  }

  lemma FreeOf2(a: Range, b: Range, q: int)
    ensures FreeOfAll([a, b], q) == FreeOf(a, q) + FreeOf(b, q)
  {
    assert [a, b][1..] == [b];
    FreeOf1(b, q);
  }

  lemma FreeOf3(a: Range, b: Range, c: Range, q: int)
    ensures FreeOfAll([a, b, c], q) == FreeOf(a, q) + FreeOf(b, q) + FreeOf(c, q)
  {
    assert [a, b, c][1..] == [b, c];
    FreeOf2(b, c, q);
  }

  // ---- the result of each kind of split is Split ----

  lemma WholeDone(l: seq<Range>, k: nat, kind: Kind, next: Id, free: seq<set<Id>>)
    requires k < |l| && !kind.Free? && 0 <= Log(l[k].size) < |free|
    ensures var r := l[k];
      var mid := Split(r, r.base, r.size, kind, next);
      && l[k := r.(kind := kind)] == Replace(l, k, k + 1, mid)
      && Ids(l[k := r.(kind := kind)]) == Ids(l)
      && Follows(free, if r.kind.Free? then FreeDel(free, r.id, r.size) else free, [r], mid)
  {
    var r := l[k];
    var taken := r.(kind := kind);
    assert Split(r, r.base, r.size, kind, next) == [taken];
    forall q | 0 <= q < |free| ensures FreeOfAll([r], q) == FreeOf(r, q) && FreeOfAll([taken], q) == {} {
      FreeOf1(r, q);
      FreeOf1(taken, q);
    }
    hide FreeOfAll;
  }

  lemma HeadDone(l: seq<Range>, k: nat, size: nat, kind: Kind, next: Id, free: seq<set<Id>>)
    requires k < |l| && !kind.Free? && 0 < size < l[k].size && 0 <= Log(l[k].size) < |free|
    requires 0 <= Log(l[k].size - size) < |free|
    requires l[k].id < next
    ensures var r := l[k];
      var left := Range(next, r.base + size, r.size - size, r.kind);
      var mid := Split(r, r.base, size, kind, next);
      && (Replace(l, k, k + 1, [r.(size := size), left]))[k := Range(r.id, r.base, size, kind)] ==
        Replace(l, k, k + 1, mid)
      && InsertAt(Ids(l), k + 1, left.id) == Ids(Replace(l, k, k + 1, mid))
      && Follows(free, if r.kind.Free? then FreeDel(FreeAdd(free, left.id, left.size), r.id, r.size)
        else free, [r], mid)
  {
    var r := l[k];
    var left := Range(next, r.base + size, r.size - size, r.kind);
    var taken := Range(r.id, r.base, size, kind);
    assert Split(r, r.base, size, kind, next) == [taken, left];
    forall q | 0 <= q < |free|
      ensures FreeOfAll([r], q) == FreeOf(r, q) && FreeOfAll([taken, left], q) == FreeOf(left, q) {
      FreeOf1(r, q);
      FreeOf2(taken, left, q);
    }
    hide FreeOfAll;
  }

  lemma TailDone(l: seq<Range>, k: nat, address: nat, size: nat, kind: Kind, next: Id, free: seq<set<Id>>)
    requires k < |l| && !kind.Free? && l[k].base < address && 0 < size && address + size == End(l[k])
    requires 0 <= Log(l[k].size) < |free| && 0 <= Log(l[k].size - size) < |free| && l[k].id < next
    ensures var r := l[k];
      var left := Range(next, r.base, r.size - size, r.kind);
      var mid := Split(r, address, size, kind, next);
      && (Replace(l, k, k + 1, [left, Range(r.id, address, size, r.kind)]))[k + 1 := Range(r.id, address, size, kind)]
         == Replace(l, k, k + 1, mid)
      && InsertAt(Ids(l), k, left.id) == Ids(Replace(l, k, k + 1, mid))
      && Follows(free, if r.kind.Free? then FreeDel(FreeAdd(free, left.id, left.size), r.id, r.size)
        else free, [r], mid)
  {
    var r := l[k];
    var left := Range(next, r.base, r.size - size, r.kind);
    var taken := Range(r.id, address, size, kind);
    assert Split(r, address, size, kind, next) == [left, taken];
    forall q | 0 <= q < |free|
      ensures FreeOfAll([r], q) == FreeOf(r, q) && FreeOfAll([left, taken], q) == FreeOf(left, q) {
      FreeOf1(r, q);
      FreeOf2(left, taken, q);
    }
    hide FreeOfAll;
  }

  lemma MiddleDone(l: seq<Range>, k: nat, address: nat, size: nat, kind: Kind, next: Id, free: seq<set<Id>>)
    requires k < |l| && !kind.Free? && l[k].base < address && 0 < size && address + size < End(l[k])
    requires 0 <= Log(l[k].size) < |free| && 0 <= Log(address - l[k].base) < |free|
    requires 0 <= Log(End(l[k]) - address - size) < |free| && l[k].id < next
    ensures var r := l[k];
      var left1 := Range(next, r.base, address - r.base, r.kind);
      var left2 := Range(next + 1, address + size, End(r) - address - size, r.kind);
      var mid := Split(r, address, size, kind, next);
      && (Replace(l, k, k + 1, [left1, Range(r.id, address, size, r.kind), left2]))[k + 1 := Range(r.id, address, size,
        kind)]
         == Replace(l, k, k + 1, mid)
      && InsertAt(InsertAt(Ids(l), k, left1.id), k + 2, left2.id) == Ids(Replace(l, k, k + 1, mid))
      && Follows(free,
        if r.kind.Free? then FreeDel(FreeAdd(FreeAdd(free, left1.id, left1.size), left2.id, left2.size), r.id, r.size)
        else free,
                 [r], mid)
  {
    var r := l[k];
    var left1 := Range(next, r.base, address - r.base, r.kind);
    var left2 := Range(next + 1, address + size, End(r) - address - size, r.kind);
    var taken := Range(r.id, address, size, kind);
    assert Split(r, address, size, kind, next) == [left1, taken, left2];
    forall q | 0 <= q < |free|
      ensures FreeOfAll([r], q) == FreeOf(r, q)
      ensures FreeOfAll([left1, taken, left2], q) == FreeOf(left1, q) + FreeOf(left2, q)
    {
      FreeOf1(r, q);
      FreeOf3(left1, taken, left2, q);
    }
    hide FreeOfAll;
  }

  // ---- freeing ----

  ghost function JoinFrom(l: seq<Range>, k: nat): nat
    requires k < |l|
  {
    if k > 0 && l[k - 1].kind.Free? then k - 1 else k
  }

  ghost function JoinTo(l: seq<Range>, k: nat): nat
    requires k < |l|
  {
    if k + 1 < |l| && l[k + 1].kind.Free? then k + 2 else k + 1
  }

  ghost function JoinedRange(l: seq<Range>, k: nat): Range
    requires k < |l|
  {
    var i, j := JoinFrom(l, k), JoinTo(l, k);
    Range(l[i].id, l[i].base, (if i < k then l[i].size else 0) + l[k].size + (if k + 1 < j then l[k + 1].size else 0),
      Free)
  }

  /** The list after range k was freed: one free range instead of it and its free neighbours. */
  ghost function Joined(l: seq<Range>, k: nat): seq<Range>
    requires k < |l|
  {
    Replace(l, JoinFrom(l, k), JoinTo(l, k), [JoinedRange(l, k)])
  }

  lemma JoinedSpan(lo: nat, hi: nat, l: seq<Range>, k: nat)
    requires Tiles(l, lo, hi) && k < |l|
    ensures var i, j, r := JoinFrom(l, k), JoinTo(l, k), JoinedRange(l, k);
      End(r) == Start(l, j, hi) && r.base == Start(l, i, hi) && Tiles([r], r.base, End(r))
  {
    var i, j, r := JoinFrom(l, k), JoinTo(l, k), JoinedRange(l, k);
    TilesSplit(l, k, lo, hi);
    TilesSplit(l, i, lo, hi);
    if k + 1 < |l| { TilesSplit(l, k + 1, lo, hi); }
    assert [r][1..] == [] && Tiles([], End(r), End(r));
  }

  lemma JoinedBorders(l: seq<Range>, k: nat, next: Id)
    requires NoAdjoiningFree(l) && IdsBelow(l, next) && k < |l|
    ensures var i, j, r := JoinFrom(l, k), JoinTo(l, k), JoinedRange(l, k);
      Borders(l, i, j, [r]) && IdsFrom(l, i, j, [r], next) && IdsBelow([r], next)
  {
    assert l[JoinFrom(l, k)].id == [JoinedRange(l, k)][0].id;
  }

  lemma JoinedOk(lo: nat, hi: nat, l: seq<Range>, free: seq<set<Id>>, next: Id, k: nat, free2: seq<set<Id>>)
    requires Ok(lo, hi, l, Ids(l), free, next) && k < |l| && !l[k].kind.Free?
    requires Follows(free, free2, l[JoinFrom(l, k)..JoinTo(l, k)], [JoinedRange(l, k)])
    ensures Ok(lo, hi, Joined(l, k), Ids(Joined(l, k)), free2, next)
  {
    hide Follows, FreeOfAll, FreeIds, Tiles, NoAdjoiningFree, DistinctIds, IdsBelow, Borders, IdsFrom, Ids, Log;
    JoinedSpan(lo, hi, l, k);
    JoinedBorders(l, k, next);
    ReplaceOk(lo, hi, l, free, next, JoinFrom(l, k), JoinTo(l, k), [JoinedRange(l, k)], free2, next);
  }

  /** A range that is joined fits the free lists too. */
  lemma JoinedFits(lo: nat, hi: nat, l: seq<Range>, k: nat)
    requires Tiles(l, lo, hi) && k < |l| && lo < hi
    ensures var r := JoinedRange(l, k); 0 < r.size <= hi - lo && 0 <= Log(r.size) < Log(hi - lo) + 1
  {
    var i, r := JoinFrom(l, k), JoinedRange(l, k);
    TilesSplit(l, k, lo, hi);
    TilesSplit(l, i, lo, hi);
    if k + 1 < |l| { TilesSplit(l, k + 1, lo, hi); }
    TilesSorted(l, lo, hi);
    IndexInBounds(lo, hi, r.size);
  }

  lemma FollowsAll(free: seq<set<Id>>, a: Range, b: Range, c: Range, joined: Range)
    requires a.kind.Free? && !b.kind.Free? && c.kind.Free? && joined.kind.Free? && joined.id == a.id
    requires 0 <= Log(a.size) < |free| && 0 <= Log(c.size) < |free| && 0 <= Log(joined.size) < |free|
    ensures Follows(free, FreeAdd(FreeDel(FreeDel(free, a.id, a.size), c.id, c.size), joined.id, joined.size),
      [a, b, c], [joined])
  {
    forall q | 0 <= q < |free|
      ensures FreeOfAll([a, b, c], q) == FreeOf(a, q) + FreeOf(c, q) && FreeOfAll([joined], q) == FreeOf(joined, q)
    {
      FreeOf3(a, b, c, q);
      FreeOf1(joined, q);
    }
  }

  lemma FollowsPrevious(free: seq<set<Id>>, a: Range, b: Range, joined: Range)
    requires a.kind.Free? && !b.kind.Free? && joined.kind.Free? && joined.id == a.id
    requires 0 <= Log(a.size) < |free| && 0 <= Log(joined.size) < |free|
    ensures Follows(free, FreeAdd(FreeDel(free, a.id, a.size), joined.id, joined.size), [a, b], [joined])
  {
    forall q | 0 <= q < |free|
      ensures FreeOfAll([a, b], q) == FreeOf(a, q) && FreeOfAll([joined], q) == FreeOf(joined, q) {
      FreeOf2(a, b, q);
      FreeOf1(joined, q);
    }
  }

  lemma FollowsFollowing(free: seq<set<Id>>, b: Range, c: Range, joined: Range)
    requires !b.kind.Free? && c.kind.Free? && joined.kind.Free? && joined.id == b.id
    requires 0 <= Log(c.size) < |free| && 0 <= Log(joined.size) < |free|
    ensures Follows(free, FreeAdd(FreeDel(free, c.id, c.size), joined.id, joined.size), [b, c], [joined])
  {
    forall q | 0 <= q < |free|
      ensures FreeOfAll([b, c], q) == FreeOf(c, q) && FreeOfAll([joined], q) == FreeOf(joined, q) {
      FreeOf2(b, c, q);
      FreeOf1(joined, q);
    }
  }

  lemma FollowsNone(free: seq<set<Id>>, b: Range, joined: Range)
    requires !b.kind.Free? && joined.kind.Free? && 0 <= Log(joined.size) < |free|
    ensures Follows(free, FreeAdd(free, joined.id, joined.size), [b], [joined])
  {
    forall q | 0 <= q < |free| ensures FreeOfAll([b], q) == {} && FreeOfAll([joined], q) == FreeOf(joined, q) {
      FreeOf1(b, q);
      FreeOf1(joined, q);
    }
  }

  lemma JoinAll(lo: nat, hi: nat, l: seq<Range>, free: seq<set<Id>>, next: Id, k: nat)
    requires Ok(lo, hi, l, Ids(l), free, next) && 0 < k && k + 1 < |l| && !l[k].kind.Free?
    requires l[k - 1].kind.Free? && l[k + 1].kind.Free?
    ensures var joined := l[k - 1].(size := l[k - 1].size + l[k].size + l[k + 1].size);
      && 0 <= Log(l[k - 1].size) < |free| && 0 <= Log(l[k].size) < |free| && 0 <= Log(l[k + 1].size) < |free|
      && 0 <= Log(joined.size) < |free|
      && RemoveAt(RemoveAt(l, k), k)[k - 1 := joined] == Joined(l, k)
      && Ids(Joined(l, k)) == RemoveAt(RemoveAt(Ids(l), k), k)
      && Ok(lo, hi, Joined(l, k), Ids(Joined(l, k)),
            FreeAdd(FreeDel(FreeDel(free, l[k - 1].id, l[k - 1].size), l[k + 1].id, l[k + 1].size), joined.id,
              joined.size), next)
  {
    hide Ok, Tiles, Follows, Log, FreeAdd, FreeDel;
    var a, b, c := l[k - 1], l[k], l[k + 1];
    var joined := a.(size := a.size + b.size + c.size);
    OkFacts(lo, hi, l, Ids(l), free, next, k - 1);
    OkFacts(lo, hi, l, Ids(l), free, next, k);
    OkFacts(lo, hi, l, Ids(l), free, next, k + 1);
    JoinedFits(lo, hi, l, k);
    IndexInBounds(lo, hi, a.size);
    IndexInBounds(lo, hi, b.size);
    IndexInBounds(lo, hi, c.size);
    FollowsAll(free, a, b, c, joined);
    assert l[k - 1..k + 2] == [a, b, c];
    JoinedOk(lo, hi, l, free, next, k,
      FreeAdd(FreeDel(FreeDel(free, a.id, a.size), c.id, c.size), joined.id, joined.size));
  }

  lemma JoinPrevious(lo: nat, hi: nat, l: seq<Range>, free: seq<set<Id>>, next: Id, k: nat)
    requires Ok(lo, hi, l, Ids(l), free, next) && 0 < k < |l| && !l[k].kind.Free?
    requires l[k - 1].kind.Free? && !(k + 1 < |l| && l[k + 1].kind.Free?)
    ensures var joined := l[k - 1].(size := l[k - 1].size + l[k].size);
      && 0 <= Log(l[k - 1].size) < |free| && 0 <= Log(l[k].size) < |free| && 0 <= Log(joined.size) < |free|
      && RemoveAt(l, k)[k - 1 := joined] == Joined(l, k)
      && Ids(Joined(l, k)) == RemoveAt(Ids(l), k)
      && Ok(lo, hi, Joined(l, k), Ids(Joined(l, k)),
        FreeAdd(FreeDel(free, l[k - 1].id, l[k - 1].size), joined.id, joined.size), next)
  {
    hide Ok, Tiles, Follows, Log, FreeAdd, FreeDel;
    var a, b := l[k - 1], l[k];
    var joined := a.(size := a.size + b.size);
    OkFacts(lo, hi, l, Ids(l), free, next, k - 1);
    OkFacts(lo, hi, l, Ids(l), free, next, k);
    JoinedFits(lo, hi, l, k);
    IndexInBounds(lo, hi, a.size);
    IndexInBounds(lo, hi, b.size);
    FollowsPrevious(free, a, b, joined);
    assert l[k - 1..k + 1] == [a, b];
    JoinedOk(lo, hi, l, free, next, k, FreeAdd(FreeDel(free, a.id, a.size), joined.id, joined.size));
  }

  lemma JoinFollowing(lo: nat, hi: nat, l: seq<Range>, free: seq<set<Id>>, next: Id, k: nat)
    requires Ok(lo, hi, l, Ids(l), free, next) && k + 1 < |l| && !l[k].kind.Free?
    requires l[k + 1].kind.Free? && !(k > 0 && l[k - 1].kind.Free?)
    ensures var joined := l[k].(size := l[k].size + l[k + 1].size, kind := Free);
      && 0 <= Log(l[k + 1].size) < |free| && 0 <= Log(joined.size) < |free|
      && RemoveAt(l, k + 1)[k := joined] == Joined(l, k)
      && Ids(Joined(l, k)) == RemoveAt(Ids(l), k + 1)
      && Ok(lo, hi, Joined(l, k), Ids(Joined(l, k)),
        FreeAdd(FreeDel(free, l[k + 1].id, l[k + 1].size), joined.id, joined.size), next)
  {
    hide Ok, Tiles, Follows, Log, FreeAdd, FreeDel;
    var b, c := l[k], l[k + 1];
    var joined := b.(size := b.size + c.size, kind := Free);
    OkFacts(lo, hi, l, Ids(l), free, next, k);
    OkFacts(lo, hi, l, Ids(l), free, next, k + 1);
    JoinedFits(lo, hi, l, k);
    IndexInBounds(lo, hi, c.size);
    FollowsFollowing(free, b, c, joined);
    assert l[k..k + 2] == [b, c];
    JoinedOk(lo, hi, l, free, next, k, FreeAdd(FreeDel(free, c.id, c.size), joined.id, joined.size));
  }

  lemma JoinNone(lo: nat, hi: nat, l: seq<Range>, free: seq<set<Id>>, next: Id, k: nat)
    requires Ok(lo, hi, l, Ids(l), free, next) && k < |l| && !l[k].kind.Free?
    requires !(k + 1 < |l| && l[k + 1].kind.Free?) && !(k > 0 && l[k - 1].kind.Free?)
    ensures var joined := l[k].(kind := Free);
      && 0 <= Log(joined.size) < |free|
      && l[k := joined] == Joined(l, k) && Ids(Joined(l, k)) == Ids(l)
      && Ok(lo, hi, Joined(l, k), Ids(Joined(l, k)), FreeAdd(free, joined.id, joined.size), next)
  {
    hide Ok, Tiles, Follows, Log, FreeAdd, FreeDel;
    var b := l[k];
    var joined := b.(kind := Free);
    OkFacts(lo, hi, l, Ids(l), free, next, k);
    JoinedFits(lo, hi, l, k);
    FollowsNone(free, b, joined);
    assert l[k..k + 1] == [b];
    JoinedOk(lo, hi, l, free, next, k, FreeAdd(free, joined.id, joined.size));
  }

  // ---- resizing ----

  datatype Status = Done | Invalid | NoMemory

  ghost function ResizeStatus(l: seq<Range>, k: nat, newSize: nat, memory: nat): Status
    requires k < |l|
  {
    if newSize < l[k].size then
      if !(k + 1 < |l| && l[k + 1].kind.Free?) && memory < 1 then NoMemory else Done
    else if newSize > l[k].size then
      if k + 1 == |l| || (l[k + 1].kind.Reserved? && l[k + 1].kind.base > l[k].base)
        || newSize - l[k].size > l[k + 1].size
      then Invalid else Done
    else Done
  }

  /** How many of the ranges from k on a resize replaces. */
  ghost function ResizeTo(l: seq<Range>, k: nat, newSize: nat): nat
    requires k < |l|
  {
    if k + 1 < |l| && (l[k + 1].kind.Free? || newSize > l[k].size) then k + 2 else k + 1
  }

  /** The end of the part that a resize replaces. */
  ghost function ResizeEnd(l: seq<Range>, k: nat, newSize: nat): nat
    requires k < |l|
  {
    if ResizeTo(l, k, newSize) == k + 2 then End(l[k]) + l[k + 1].size else End(l[k])
  }

  /** The resized range, and what is left of the part behind it. */
  ghost function ResizedPart(l: seq<Range>, k: nat, newSize: nat, next: Id): seq<Range>
    requires k < |l|
  {
    var end := ResizeEnd(l, k, newSize);
    [l[k].(size := newSize)] +
    (if end <= l[k].base + newSize then []
     else if ResizeTo(l, k, newSize) == k + 2
     then [Range(l[k + 1].id, l[k].base + newSize, end - l[k].base - newSize, l[k + 1].kind)]
     else [Range(next, l[k].base + newSize, end - l[k].base - newSize, Free)])
  }

  ghost function Resized(l: seq<Range>, k: nat, newSize: nat, next: Id): seq<Range>
    requires k < |l|
  {
    if newSize == l[k].size then l else Replace(l, k, ResizeTo(l, k, newSize), ResizedPart(l, k, newSize, next))
  }

  lemma ResizedSpan(lo: nat, hi: nat, l: seq<Range>, k: nat, newSize: nat, next: Id)
    requires Tiles(l, lo, hi) && k < |l| && 0 < newSize && l[k].base + newSize <= ResizeEnd(l, k, newSize)
    ensures Start(l, k, hi) == l[k].base && Start(l, ResizeTo(l, k, newSize), hi) == ResizeEnd(l, k, newSize)
    ensures Tiles(ResizedPart(l, k, newSize, next), l[k].base, ResizeEnd(l, k, newSize))
  {
    TilesSplit(l, k, lo, hi);
    if k + 1 < |l| { TilesSplit(l, k + 1, lo, hi); }
    var end, part := ResizeEnd(l, k, newSize), ResizedPart(l, k, newSize, next);
    assert Tiles([], end, end);
    if l[k].base + newSize < end {
      assert part[1..][1..] == [];
      assert part[1..][0] == part[1];
    } else {
      assert part[1..] == [];
    }
  }

  lemma ResizedBorders(l: seq<Range>, k: nat, newSize: nat, next: Id)
    requires NoAdjoiningFree(l) && IdsBelow(l, next) && DistinctIds(l) && k < |l| && l[k].kind.Area?
    ensures var j, part := ResizeTo(l, k, newSize), ResizedPart(l, k, newSize, next);
      Borders(l, k, j, part) && IdsFrom(l, k, j, part, next) && IdsBelow(part, next + 1)
  {
    assert l[k].id == l[k].id;
    var j, part := ResizeTo(l, k, newSize), ResizedPart(l, k, newSize, next);
    forall x | 0 <= x < |part| ensures part[x].id >= next || exists y | k <= y < j :: l[y].id == part[x].id {
      if x == 0 { assert l[k].id == part[0].id; } else if j == k + 2 { assert l[k + 1].id == part[1].id; }
    }
  }

  lemma ResizedOk(lo: nat, hi: nat, l: seq<Range>, free: seq<set<Id>>, next: Id, k: nat, newSize: nat,
                  free2: seq<set<Id>>, next2: Id)
    requires Ok(lo, hi, l, Ids(l), free, next) && k < |l| && l[k].kind.Area? && 0 < newSize
    requires newSize != l[k].size && l[k].base + newSize <= ResizeEnd(l, k, newSize)
    requires Follows(free, free2, l[k..ResizeTo(l, k, newSize)], ResizedPart(l, k, newSize, next))
    requires next <= next2 && IdsBelow(ResizedPart(l, k, newSize, next), next2)
    ensures Ok(lo, hi, Resized(l, k, newSize, next), Ids(Resized(l, k, newSize, next)), free2, next2)
  {
    hide Follows, FreeOfAll, FreeIds, Tiles, NoAdjoiningFree, DistinctIds, IdsBelow, Borders, IdsFrom, Ids, Log,
      ResizedPart;
    ResizedSpan(lo, hi, l, k, newSize, next);
    ResizedBorders(l, k, newSize, next);
    ReplaceOk(lo, hi, l, free, next, k, ResizeTo(l, k, newSize), ResizedPart(l, k, newSize, next), free2, next2);
  }

  lemma FollowsMoved(free: seq<set<Id>>, b: Range, b2: Range, c: Range, c2: Range)
    requires !b.kind.Free? && !b2.kind.Free? && c2.kind == c.kind && c2.id == c.id
    requires 0 <= Log(c.size) < |free| && 0 <= Log(c2.size) < |free|
    ensures Follows(free, if c.kind.Free? then FreeAdd(FreeDel(free, c.id, c.size), c2.id, c2.size)
      else free, [b, c], [b2, c2])
  {
    forall q | 0 <= q < |free| ensures FreeOfAll([b, c], q) == FreeOf(c, q) && FreeOfAll([b2, c2], q) == FreeOf(c2, q) {
      FreeOf2(b, c, q);
      FreeOf2(b2, c2, q);
    }
  }

  /** The border between range k and the next one moves. */
  lemma MoveBorder(lo: nat, hi: nat, l: seq<Range>, free: seq<set<Id>>, next: Id, k: nat, newSize: nat)
    requires Ok(lo, hi, l, Ids(l), free, next) && k + 1 < |l| && l[k].kind.Area? && 0 < newSize && newSize != l[k].size
    requires l[k].base + newSize < End(l[k]) + l[k + 1].size && (l[k + 1].kind.Free? || newSize > l[k].size)
    ensures var b, c := l[k], l[k + 1];
      var b2 := b.(size := newSize);
      var c2 := Range(c.id, b.base + newSize, b.size + c.size - newSize, c.kind);
      && 0 <= Log(c.size) < |free| && 0 <= Log(c2.size) < |free|
      && l[k + 1 := c2][k := b2] == Resized(l, k, newSize, next)
      && Ids(Resized(l, k, newSize, next)) == Ids(l)
      && Ok(lo, hi, Resized(l, k, newSize, next), Ids(l),
            if c.kind.Free? then FreeAdd(FreeDel(free, c.id, c.size), c2.id, c2.size) else free, next)
  {
    hide Ok, Tiles, Follows, Log, FreeAdd, FreeDel;
    var b, c := l[k], l[k + 1];
    var b2, c2 := b.(size := newSize), Range(c.id, b.base + newSize, b.size + c.size - newSize, c.kind);
    OkFacts(lo, hi, l, Ids(l), free, next, k);
    OkFacts(lo, hi, l, Ids(l), free, next, k + 1);
    TilesSplit(l, k, lo, hi);
    IndexInBounds(lo, hi, c.size);
    IndexInBounds(lo, hi, c2.size);
    FollowsMoved(free, b, b2, c, c2);
    assert l[k..k + 2] == [b, c] && ResizedPart(l, k, newSize, next) == [b2, c2];
    ResizedOk(lo, hi, l, free, next, k, newSize,
              if c.kind.Free? then FreeAdd(FreeDel(free, c.id, c.size), c2.id, c2.size) else free, next);
  }

  lemma FollowsCut(free: seq<set<Id>>, b: Range, b2: Range, c: Range)
    requires !b.kind.Free? && !b2.kind.Free? && c.kind.Free? && 0 <= Log(c.size) < |free|
    ensures Follows(free, FreeAdd(free, c.id, c.size), [b], [b2, c])
  {
    forall q | 0 <= q < |free| ensures FreeOfAll([b], q) == {} && FreeOfAll([b2, c], q) == FreeOf(c, q) {
      FreeOf1(b, q);
      FreeOf2(b2, c, q);
    }
  }

  /** The cut-off tail becomes a free range. */
  lemma CutSplits(lo: nat, hi: nat, l: seq<Range>, free: seq<set<Id>>, next: Id, k: nat, newSize: nat)
    requires Ok(lo, hi, l, Ids(l), free, next) && k < |l| && l[k].kind.Area? && 0 < newSize < l[k].size
    requires !(k + 1 < |l| && l[k + 1].kind.Free?)
    ensures var b := l[k];
      var c := Range(next, b.base + newSize, b.size - newSize, Free);
      && 0 <= Log(c.size) < |free| && Sorted(l) && (k + 1 < |l| ==> c.base < l[k + 1].base)
      && InsertAt(l, k + 1, c)[k := b.(size := newSize)] == Resized(l, k, newSize, next)
      && Ids(Resized(l, k, newSize, next)) == InsertAt(Ids(l), k + 1, next)
      && Ok(lo, hi, Resized(l, k, newSize, next), Ids(Resized(l, k, newSize, next)), FreeAdd(free, c.id, c.size),
        next + 1)
  {
    hide Ok, Tiles, Follows, Log, FreeAdd, FreeDel, Sorted, InsertAt, Ids, Replace;
    var b := l[k];
    var b2, c := b.(size := newSize), Range(next, b.base + newSize, b.size - newSize, Free);
    OkFacts(lo, hi, l, Ids(l), free, next, k);
    SplitPlace(lo, hi, l, k, b.base, newSize);
    IndexInBounds(lo, hi, c.size);
    FollowsCut(free, b, b2, c);
    InsertAfter(l, k, b2, c);
    assert l[k..k + 1] == [b] && ResizedPart(l, k, newSize, next) == [b2, c];
    ResizedOk(lo, hi, l, free, next, k, newSize, FreeAdd(free, c.id, c.size), next + 1);
  }

  lemma FollowsCovered(free: seq<set<Id>>, b: Range, b2: Range, c: Range)
    requires !b.kind.Free? && !b2.kind.Free? && 0 <= Log(c.size) < |free|
    ensures Follows(free, if c.kind.Free? then FreeDel(free, c.id, c.size) else free, [b, c], [b2])
  {
    forall q | 0 <= q < |free| ensures FreeOfAll([b, c], q) == FreeOf(c, q) && FreeOfAll([b2], q) == {} {
      FreeOf2(b, c, q);
      FreeOf1(b2, q);
    }
  }

  /** The next range is taken completely. */
  lemma GrowCovers(lo: nat, hi: nat, l: seq<Range>, free: seq<set<Id>>, next: Id, k: nat, newSize: nat)
    requires Ok(lo, hi, l, Ids(l), free, next) && k + 1 < |l| && l[k].kind.Area? && newSize == l[k].size + l[k + 1].size
    ensures var b, c := l[k], l[k + 1];
      && 0 <= Log(c.size) < |free|
      && RemoveAt(l, k + 1)[k := b.(size := newSize)] == Resized(l, k, newSize, next)
      && Ids(Resized(l, k, newSize, next)) == RemoveAt(Ids(l), k + 1)
      && Ok(lo, hi, Resized(l, k, newSize, next), Ids(Resized(l, k, newSize, next)),
            if c.kind.Free? then FreeDel(free, c.id, c.size) else free, next)
  {
    hide Ok, Tiles, Follows, Log, FreeAdd, FreeDel;
    var b, c := l[k], l[k + 1];
    var b2 := b.(size := newSize);
    OkFacts(lo, hi, l, Ids(l), free, next, k);
    OkFacts(lo, hi, l, Ids(l), free, next, k + 1);
    IndexInBounds(lo, hi, c.size);
    FollowsCovered(free, b, b2, c);
    assert l[k..k + 2] == [b, c] && ResizedPart(l, k, newSize, next) == [b2];
    ResizedOk(lo, hi, l, free, next, k, newSize, if c.kind.Free? then FreeDel(free, c.id, c.size) else free, next);
  }

  /** The three pieces of a split in the middle go in one after the other. */
  lemma MiddlePlace(l: seq<Range>, k: nat, r: Range, left1: Range, left2: Range)
    requires Sorted(l) && k < |l| && l[k].base == left1.base < r.base < left2.base
    requires k + 1 < |l| ==> left2.base < l[k + 1].base
    ensures var l1 := InsertAt(l[k := r], k, left1);
      && Sorted(l[k := r]) && (k > 0 ==> l[k - 1].base < left1.base)
      && Sorted(l1) && |l1| == |l| + 1 && l1[k + 1].base == r.base && (k + 2 < |l1| ==> left2.base < l1[k + 2].base)
      && InsertAt(l1, k + 2, left2) == Replace(l, k, k + 1, [left1, r, left2])
  {
    SortedInsert(l[k := r], k, left1);
  }

  /**
    A successful resize leaves every other area's range alone exactly if
    CanResizeArea would have allowed it; the code itself also takes from an
    area that follows.
  */
  lemma ResizeKeepsAreas(lo: nat, hi: nat, l: seq<Range>, k: nat, newSize: nat, next: Id)
    requires Tiles(l, lo, hi) && DistinctIds(l) && k < |l| && l[k].kind.Area? && newSize > 0
    requires ResizeStatus(l, k, newSize, 1).Done?
    ensures (forall x | 0 <= x < |l| && x != k && l[x].kind.Area? :: l[x] in Resized(l, k, newSize, next)) <==>
      CanResize(l, k, newSize)
  {
    var l2, j, part := Resized(l, k, newSize, next), ResizeTo(l, k, newSize), ResizedPart(l, k, newSize, next);
    if newSize != l[k].size {
      ReplaceElements(l, k, j, part);
      if k + 1 < |l| && l[k + 1].kind.Area? && newSize > l[k].size {
        TilesSplit(l, k, lo, hi);
        assert l[k + 1] !in part;
      }
    }
  }

  /** Which ranges are in a list after a replacement. */
  lemma ReplaceElements(l: seq<Range>, i: nat, j: nat, mid: seq<Range>)
    requires i <= j <= |l|
    ensures forall x | 0 <= x < |l| && (x < i || j <= x) :: l[x] in Replace(l, i, j, mid)
    ensures DistinctIds(l) ==> forall x | i <= x < j :: l[x] in Replace(l, i, j, mid) ==> l[x] in mid
  {
    var m := Replace(l, i, j, mid);
    forall x | 0 <= x < |l| && (x < i || j <= x) ensures l[x] in m {
      if x < i { assert m[x] == l[x]; } else { assert m[x - j + i + |mid|] == l[x]; }
    }
    forall x, y | DistinctIds(l) && i <= x < j && 0 <= y < |m| && !(i <= y < i + |mid|) ensures m[y] != l[x] {
      if y < i { assert m[y] == l[y]; } else { assert m[y] == l[y - i - |mid| + j]; }
    }
    forall x | DistinctIds(l) && i <= x < j && l[x] in m ensures l[x] in mid {
      var y :| 0 <= y < |m| && m[y] == l[x];
      assert m[y] == mid[y - i];
    }
  }

  /** CanResizeArea. */
  predicate CanResize(l: seq<Range>, k: nat, newSize: nat)
    requires k < |l|
  {
    newSize <= l[k].size ||
    (k + 1 < |l| && !l[k + 1].kind.Area? && !(l[k + 1].kind.Reserved? && l[k + 1].kind.base > l[k].base)
     && newSize - l[k].size <= l[k + 1].size)
  }

  /** A resize that takes from another area: it swallows one area of three pages, or cuts off its first page. */
  lemma ResizeSwallows()
    ensures var l := [Range(0, 0, 2, Area), Range(1, 2, 3, Area)];
      && Tiles(l, 0, 5) && DistinctIds(l)
      && ResizeStatus(l, 0, 5, 0).Done? && Resized(l, 0, 5, 2) == [Range(0, 0, 5, Area)]
      && ResizeStatus(l, 0, 3, 0).Done? && Resized(l, 0, 3, 2) == [Range(0, 0, 3, Area), Range(1, 3, 2, Area)]
  {
    var l := [Range(0, 0, 2, Area), Range(1, 2, 3, Area)];
    assert l[1..] == [l[1]] && l[1..][1..] == [];
    assert Tiles(l[1..][1..], 5, 5);
  }

  // ---- nothing left ----

  /** An empty range is not part of a tiling. */
  lemma EmptyRange(l: seq<Range>, k: nat, lo: nat, hi: nat)
    requires k < |l| && l[k].size == 0
    ensures !Tiles(l, lo, hi)
  {
    if Tiles(l, lo, hi) { TilesSorted(l, lo, hi); }
  }

  /** A resize that succeeds leaves a tiling exactly if something of the area is left. */
  lemma ResizedTiles(lo: nat, hi: nat, l: seq<Range>, k: nat, newSize: nat, next: Id)
    requires Tiles(l, lo, hi) && k < |l| && ResizeStatus(l, k, newSize, 1).Done?
    ensures Tiles(Resized(l, k, newSize, next), lo, hi) <==> newSize > 0
  {
    TilesSplit(l, k, lo, hi);
    if newSize == 0 {
      assert Resized(l, k, 0, next)[k] == l[k].(size := 0);
      EmptyRange(Resized(l, k, 0, next), k, lo, hi);
    } else if newSize != l[k].size {
      ResizedSpan(lo, hi, l, k, newSize, next);
      ReplaceTiles(l, k, ResizeTo(l, k, newSize), ResizedPart(l, k, newSize, next), lo, hi);
    }
  }

  /** So does cutting off a head. */
  lemma BeheadedTiles(lo: nat, hi: nat, l: seq<Range>, k: nat, newSize: nat, next: Id)
    requires Tiles(l, lo, hi) && k < |l| && newSize <= l[k].size
    ensures Tiles(Beheaded(l, k, newSize, next), lo, hi) <==> newSize > 0
  {
    TilesSplit(l, k, lo, hi);
    var i, part := HeadFrom(l, k), BeheadedPart(l, k, newSize, next);
    if newSize == 0 {
      assert Beheaded(l, k, 0, next)[i + 1] == part[1];
      EmptyRange(Beheaded(l, k, 0, next), i + 1, lo, hi);
    } else if newSize != l[k].size {
      BeheadedSpan(lo, hi, l, k, newSize, next);
      ReplaceTiles(l, i, k + 1, part, lo, hi);
    }
  }

  /** And taking pages out of a range. */
  lemma SplitTilesExactly(lo: nat, hi: nat, l: seq<Range>, k: nat, address: nat, size: nat, kind: Kind, next: Id)
    requires Tiles(l, lo, hi) && k < |l| && l[k].base <= address && address + size <= End(l[k])
    ensures Tiles(Replace(l, k, k + 1, Split(l[k], address, size, kind, next)), lo, hi) <==> size > 0
  {
    TilesSplit(l, k, lo, hi);
    var mid := Split(l[k], address, size, kind, next);
    if size > 0 {
      SplitTiles(l[k], address, size, kind, next);
      ReplaceTiles(l, k, k + 1, mid, lo, hi);
    } else {
      var i := if address > l[k].base then 1 else 0;
      assert Replace(l, k, k + 1, mid)[k + i] == mid[i];
      EmptyRange(Replace(l, k, k + 1, mid), k + i, lo, hi);
    }
  }

  /** The free range behind takes over the whole area, which stays as an empty range. */
  lemma EmptyBorder(lo: nat, hi: nat, l: seq<Range>, tree: seq<Id>, free: seq<set<Id>>, next: Id, k: nat)
    requires Ok(lo, hi, l, tree, free, next) && k + 1 < |l| && l[k].kind.Area? && l[k + 1].kind.Free?
    ensures var c := l[k + 1];
      var c2 := Range(c.id, l[k].base, l[k].size + c.size, c.kind);
      && 0 <= Log(c.size) < |free| && 0 <= Log(c2.size) < |free|
      && l[k + 1 := c2][k := l[k].(size := 0)] == Resized(l, k, 0, next)
  {
    hide Ok, Tiles, Log;
    OkFacts(lo, hi, l, tree, free, next, k);
    OkFacts(lo, hi, l, tree, free, next, k + 1);
    TilesSplit(l, k, lo, hi);
    IndexInBounds(lo, hi, l[k + 1].size);
    IndexInBounds(lo, hi, l[k].size + l[k + 1].size);
  }

  lemma EmptyCut(lo: nat, hi: nat, l: seq<Range>, tree: seq<Id>, free: seq<set<Id>>, next: Id, k: nat)
    requires Ok(lo, hi, l, tree, free, next) && k < |l| && l[k].kind.Area? && !(k + 1 < |l| && l[k + 1].kind.Free?)
    ensures var c := Range(next, l[k].base, l[k].size, Free);
      && 0 <= Log(c.size) < |free| && Sorted(l) && (k + 1 < |l| ==> c.base < l[k + 1].base) && |tree| == |l|
      && InsertAt(l, k + 1, c)[k := l[k].(size := 0)] == Resized(l, k, 0, next)
  {
    hide Ok, Tiles, Log;
    OkFacts(lo, hi, l, tree, free, next, k);
    TilesSorted(l, lo, hi);
    IndexInBounds(lo, hi, l[k].size);
  }

  /** The free range before takes over the whole area, which stays behind it as an empty range. */
  lemma EmptyHeadJoins(lo: nat, hi: nat, l: seq<Range>, tree: seq<Id>, free: seq<set<Id>>, next: Id, k: nat)
    requires Ok(lo, hi, l, tree, free, next) && 0 < k < |l| && l[k].kind.Area? && l[k - 1].kind.Free?
    ensures var a, b := l[k - 1], l[k];
      var a2, b2 := a.(size := a.size + b.size), b.(base := b.base + b.size, size := 0);
      && 0 <= Log(a.size) < |free| && 0 <= Log(a2.size) < |free|
      && l[k - 1 := a2][k := b2] == Beheaded(l, k, 0, next)
  {
    hide Ok, Tiles, Log;
    OkFacts(lo, hi, l, tree, free, next, k);
    OkFacts(lo, hi, l, tree, free, next, k - 1);
    TilesSplit(l, k - 1, lo, hi);
    IndexInBounds(lo, hi, l[k - 1].size);
    IndexInBounds(lo, hi, l[k - 1].size + l[k].size);
  }

  lemma EmptyHeadSplits(lo: nat, hi: nat, l: seq<Range>, tree: seq<Id>, free: seq<set<Id>>, next: Id, k: nat)
    requires Ok(lo, hi, l, tree, free, next) && k < |l| && l[k].kind.Area? && !(k > 0 && l[k - 1].kind.Free?)
    ensures var b := l[k];
      var a, b2 := Range(next, b.base, b.size, Free), b.(base := b.base + b.size, size := 0);
      && 0 <= Log(a.size) < |free| && Beyond(l[k := b2], k, a.base) && (k > 0 ==> l[k - 1].base < a.base)
      && |tree| == |l| && InsertAt(l[k := b2], k, a) == Beheaded(l, k, 0, next)
  {
    hide Ok, Tiles, Log;
    OkFacts(lo, hi, l, tree, free, next, k);
    TilesSorted(l, lo, hi);
    IndexInBounds(lo, hi, l[k].size);
  }

  // ---- cutting off heads ----

  ghost function HeadFrom(l: seq<Range>, k: nat): nat
    requires k < |l|
  {
    if k > 0 && l[k - 1].kind.Free? then k - 1 else k
  }

  ghost function BeheadedPart(l: seq<Range>, k: nat, newSize: nat, next: Id): seq<Range>
    requires k < |l| && newSize <= l[k].size
  {
    var diff := l[k].size - newSize;
    [if HeadFrom(l, k) < k then l[k - 1].(size := l[k - 1].size + diff) else Range(next, l[k].base, diff, Free),
     l[k].(base := l[k].base + diff, size := newSize)]
  }

  ghost function Beheaded(l: seq<Range>, k: nat, newSize: nat, next: Id): seq<Range>
    requires k < |l| && newSize <= l[k].size
  {
    if newSize == l[k].size then l else Replace(l, HeadFrom(l, k), k + 1, BeheadedPart(l, k, newSize, next))
  }

  lemma BeheadedOk(lo: nat, hi: nat, l: seq<Range>, free: seq<set<Id>>, next: Id, k: nat, newSize: nat,
                   free2: seq<set<Id>>, next2: Id)
    requires Ok(lo, hi, l, Ids(l), free, next) && k < |l| && l[k].kind.Area? && 0 < newSize < l[k].size
    requires Follows(free, free2, l[HeadFrom(l, k)..k + 1], BeheadedPart(l, k, newSize, next))
    requires next <= next2 && IdsBelow(BeheadedPart(l, k, newSize, next), next2)
    ensures Ok(lo, hi, Beheaded(l, k, newSize, next), Ids(Beheaded(l, k, newSize, next)), free2, next2)
  {
    hide Follows, FreeOfAll, FreeIds, Tiles, NoAdjoiningFree, DistinctIds, IdsBelow, Borders, IdsFrom, Ids, Log,
      BeheadedPart;
    BeheadedSpan(lo, hi, l, k, newSize, next);
    BeheadedBorders(l, k, newSize, next);
    ReplaceOk(lo, hi, l, free, next, HeadFrom(l, k), k + 1, BeheadedPart(l, k, newSize, next), free2, next2);
  }

  lemma BeheadedSpan(lo: nat, hi: nat, l: seq<Range>, k: nat, newSize: nat, next: Id)
    requires Tiles(l, lo, hi) && k < |l| && 0 < newSize < l[k].size
    ensures Tiles(BeheadedPart(l, k, newSize, next), Start(l, HeadFrom(l, k), hi), Start(l, k + 1, hi))
  {
    TilesSplit(l, k, lo, hi);
    TilesSplit(l, HeadFrom(l, k), lo, hi);
    var part := BeheadedPart(l, k, newSize, next);
    assert part[1..][1..] == [] && part[1..][0] == part[1] && Tiles([], End(part[1]), End(part[1]));
  }

  lemma BeheadedBorders(l: seq<Range>, k: nat, newSize: nat, next: Id)
    requires NoAdjoiningFree(l) && IdsBelow(l, next) && DistinctIds(l) && k < |l| && l[k].kind.Area?
    requires newSize <= l[k].size
    ensures var i, part := HeadFrom(l, k), BeheadedPart(l, k, newSize, next);
      Borders(l, i, k + 1, part) && IdsFrom(l, i, k + 1, part, next)
  {
    var i, part := HeadFrom(l, k), BeheadedPart(l, k, newSize, next);
    assert l[k].id == part[1].id;
    if i < k { assert l[i].id == part[0].id; }
  }

  lemma FollowsHeadJoin(free: seq<set<Id>>, a: Range, a2: Range, b: Range, b2: Range)
    requires a.kind.Free? && a2.kind.Free? && a2.id == a.id && !b.kind.Free? && !b2.kind.Free?
    requires 0 <= Log(a.size) < |free| && 0 <= Log(a2.size) < |free|
    ensures Follows(free, FreeAdd(FreeDel(free, a.id, a.size), a2.id, a2.size), [a, b], [a2, b2])
  {
    forall q | 0 <= q < |free| ensures FreeOfAll([a, b], q) == FreeOf(a, q) && FreeOfAll([a2, b2], q) == FreeOf(a2, q) {
      FreeOf2(a, b, q);
      FreeOf2(a2, b2, q);
    }
  }

  lemma HeadJoins(lo: nat, hi: nat, l: seq<Range>, free: seq<set<Id>>, next: Id, k: nat, newSize: nat)
    requires Ok(lo, hi, l, Ids(l), free, next) && 0 < k < |l| && l[k].kind.Area? && 0 < newSize < l[k].size
    requires l[k - 1].kind.Free?
    ensures var a, b := l[k - 1], l[k];
      var a2, b2 := a.(size := a.size + b.size - newSize), b.(base := b.base + b.size - newSize, size := newSize);
      && 0 <= Log(a.size) < |free| && 0 <= Log(a2.size) < |free|
      && l[k - 1 := a2][k := b2] == Beheaded(l, k, newSize, next) && Ids(Beheaded(l, k, newSize, next)) == Ids(l)
      && Ok(lo, hi, Beheaded(l, k, newSize, next), Ids(l), FreeAdd(FreeDel(free, a.id, a.size), a2.id, a2.size), next)
  {
    hide Ok, Tiles, Follows, Log, FreeAdd, FreeDel;
    var a, b := l[k - 1], l[k];
    var a2, b2 := a.(size := a.size + b.size - newSize), b.(base := b.base + b.size - newSize, size := newSize);
    OkFacts(lo, hi, l, Ids(l), free, next, k);
    OkFacts(lo, hi, l, Ids(l), free, next, k - 1);
    TilesSplit(l, k - 1, lo, hi);
    IndexInBounds(lo, hi, a.size);
    IndexInBounds(lo, hi, a2.size);
    FollowsHeadJoin(free, a, a2, b, b2);
    assert l[k - 1..k + 1] == [a, b] && BeheadedPart(l, k, newSize, next) == [a2, b2];
    BeheadedOk(lo, hi, l, free, next, k, newSize, FreeAdd(FreeDel(free, a.id, a.size), a2.id, a2.size), next);
  }

  lemma FollowsHeadSplit(free: seq<set<Id>>, a: Range, b: Range, b2: Range)
    requires a.kind.Free? && !b.kind.Free? && !b2.kind.Free? && 0 <= Log(a.size) < |free|
    ensures Follows(free, FreeAdd(free, a.id, a.size), [b], [a, b2])
  {
    forall q | 0 <= q < |free| ensures FreeOfAll([b], q) == {} && FreeOfAll([a, b2], q) == FreeOf(a, q) {
      FreeOf1(b, q);
      FreeOf2(a, b2, q);
    }
  }

  lemma HeadSplits(lo: nat, hi: nat, l: seq<Range>, free: seq<set<Id>>, next: Id, k: nat, newSize: nat)
    requires Ok(lo, hi, l, Ids(l), free, next) && k < |l| && l[k].kind.Area? && 0 < newSize < l[k].size
    requires !(k > 0 && l[k - 1].kind.Free?)
    ensures var b := l[k];
      var a, b2 := Range(next, b.base, b.size - newSize, Free), b.(base := b.base + b.size - newSize, size := newSize);
      && 0 <= Log(a.size) < |free| && Sorted(l[k := b2]) && (k > 0 ==> l[k - 1].base < a.base)
      && InsertAt(l[k := b2], k, a) == Beheaded(l, k, newSize, next)
      && Ids(Beheaded(l, k, newSize, next)) == InsertAt(Ids(l), k, next)
      && Ok(lo, hi, Beheaded(l, k, newSize, next), Ids(Beheaded(l, k, newSize, next)), FreeAdd(free, a.id, a.size),
        next + 1)
  {
    hide Ok, Tiles, Follows, Log, FreeAdd, FreeDel, Sorted, InsertAt, Ids, Replace;
    var b := l[k];
    var a, b2 := Range(next, b.base, b.size - newSize, Free), b.(base := b.base + b.size - newSize, size := newSize);
    OkFacts(lo, hi, l, Ids(l), free, next, k);
    SplitPlace(lo, hi, l, k, b2.base, newSize);
    IndexInBounds(lo, hi, a.size);
    FollowsHeadSplit(free, a, b, b2);
    InsertBefore(l, k, a, b2);
    assert l[k..k + 1] == [b] && BeheadedPart(l, k, newSize, next) == [a, b2];
    BeheadedOk(lo, hi, l, free, next, k, newSize, FreeAdd(free, a.id, a.size), next + 1);
  }

  lemma InsertBefore(l: seq<Range>, k: nat, a: Range, b: Range)
    requires k < |l| && b.id == l[k].id
    ensures InsertAt(l[k := b], k, a) == Replace(l, k, k + 1, [a, b])
    ensures Ids(Replace(l, k, k + 1, [a, b])) == InsertAt(Ids(l), k, a.id)
  {
  }

  lemma InsertAfter(l: seq<Range>, k: nat, b: Range, c: Range)
    requires k < |l| && b.id == l[k].id
    ensures InsertAt(l, k + 1, c)[k := b] == Replace(l, k, k + 1, [b, c])
    ensures Ids(Replace(l, k, k + 1, [b, c])) == InsertAt(Ids(l), k + 1, c.id)
  {
  }

  // ---- searching ----

  predicate Usable(r: Range, allowReserved: bool) { r.kind.Free? || (r.kind.Reserved? && allowReserved) }

  function RoundUp(x: nat, alignment: nat): (r: nat)
    requires alignment > 0
  {
    (x + alignment - 1) / alignment * alignment
  }

  function RoundDown(x: nat, alignment: nat): (r: nat)
    requires alignment > 0
  {
    x / alignment * alignment
  }

  /** A free range with a valid spot: is_valid_spot() of its first aligned address. */
  predicate HasRoom(r: Range, start: nat, size: nat, alignment: nat)
    requires alignment > 0
  {
    r.kind.Free? && RoundUp(r.base, alignment) >= start && RoundUp(r.base, alignment) + size <= End(r)
  }

  /** What a search may return. */
  ghost predicate Spot(l: seq<Range>, k: nat, address: nat, start: nat, size: nat, alignment: nat)
    requires alignment > 0
  {
    && k < |l| && l[k].kind.Free? && address >= start && address % alignment == 0
    && l[k].base <= address && address + size <= End(l[k])
  }

  /** The first aligned address, or a random aligned one behind it (_RandomizeAddress). */
  function Choose(r: Range, start: nat, size: nat, alignment: nat, random: Option<nat>): (address: nat)
    requires alignment > 0 && HasRoom(r, start, size, alignment)
    ensures address >= start && address % alignment == 0 && r.base <= address && address + size <= End(r)
  {
    var first := RoundUp(r.base, alignment);
    RoundUpIs(r.base, alignment);
    if random.None? then first
    else
      var offset := random.value % (End(r) - size - first + 1);
      RoundDownIs(offset, alignment);
      AlignedSum(first, RoundDown(offset, alignment), alignment);
      first + RoundDown(offset, alignment)
  }

  lemma RoundUpIs(x: nat, alignment: nat)
    requires alignment > 0
    ensures x <= RoundUp(x, alignment) && RoundUp(x, alignment) % alignment == 0
    ensures alignment == 1 ==> RoundUp(x, alignment) == x
  {
    var q, r := (x + alignment - 1) / alignment, (x + alignment - 1) % alignment;
    assert x + alignment - 1 == q * alignment + r;
    Multiple(q, alignment);
  }

  lemma RoundDownIs(x: nat, alignment: nat)
    requires alignment > 0
    ensures RoundDown(x, alignment) <= x && RoundDown(x, alignment) % alignment == 0
  {
    var q, r := x / alignment, x % alignment;
    assert x == q * alignment + r;
    Multiple(q, alignment);
  }

  lemma Multiple(q: nat, m: nat)
    requires m > 0
    ensures (q * m) % m == 0
  {
    var x := q * m;
    NoRemainder(x, q, m, x / m, x % m);
  }

  lemma NoRemainder(x: nat, q: nat, m: nat, d: nat, r: nat)
    requires x == q * m && x == d * m + r && r < m
    ensures r == 0
  {
    if q > d { AtLeastOne(q - d, m); Distributes(q, d, m); }
      else if q < d { AtLeastOne(d - q, m); Distributes(d, q, m); }
  }

  lemma {:induction false} AtLeastOne(k: nat, m: nat)
    requires k > 0
    ensures k * m >= m
  {
    if k > 1 { AtLeastOne(k - 1, m); }
  }

  lemma Distributes(q: nat, d: nat, m: nat)
    requires q >= d
    ensures (q - d) * m == q * m - d * m
  {
  }

  lemma AlignedSum(a: nat, b: nat, m: nat)
    requires m > 0 && a % m == 0 && b % m == 0
    ensures (a + b) % m == 0
  {
    assert a == a / m * m && b == b / m * m;
    assert a + b == (a / m + b / m) * m;
    Multiple(a / m + b / m, m);
  }

  /** FindClosest: the range that contains the address, if any does. */
  lemma Closest(lo: nat, hi: nat, l: seq<Range>, address: nat)
    requires Tiles(l, lo, hi)
    ensures var n := AtOrBelow(l, address);
      && n <= |l| && (n > 0 ==> l[n - 1].base <= address)
      && forall k | 0 <= k < |l| :: l[k].base <= address < End(l[k]) ==> k == n - 1
  {
    TilesSorted(l, lo, hi);
    AtOrBelowIs(l, address);
    forall k | 0 <= k < |l| && l[k].base <= address < End(l[k]) ensures k == AtOrBelow(l, address) - 1 {
      TilesSplit(l, k, lo, hi);
    }
  }

  lemma {:induction false} AtOrBelowIs(l: seq<Range>, address: nat)
    requires Sorted(l)
    ensures var n := AtOrBelow(l, address);
      && n <= |l| && (forall k | 0 <= k < n :: l[k].base <= address) && (forall k | n <= k < |l| :: address < l[k].base)
  {
    if l != [] && l[|l| - 1].base > address { AtOrBelowIs(l[..|l| - 1], address); }
  }

  function IndexOf(l: seq<Range>, id: Id): (k: nat)
    requires exists i | 0 <= i < |l| :: l[i].id == id
    ensures k < |l| && l[k].id == id
  {
    if l[|l| - 1].id == id then |l| - 1 else IndexOf(l[..|l| - 1], id)
  }

  lemma SomeId(s: set<Id>)
    ensures s == {} || exists id :: id in s
  {
    if forall id :: id !in s { assert s == {}; }
  }

  /** A range in free list i is free and of that order. */
  lemma ListedRange(lo: nat, hi: nat, l: seq<Range>, tree: seq<Id>, free: seq<set<Id>>, next: Id, i: nat, id: Id)
    requires Ok(lo, hi, l, tree, free, next) && i < |free| && id in free[i]
    ensures exists k | 0 <= k < |l| :: l[k].id == id
    ensures forall k | 0 <= k < |l| && l[k].id == id :: l[k].kind.Free? && Log(l[k].size) == i
  {
    assert id in FreeIds(l, i);
  }

  /** Every range's order has a free list. */
  lemma AllInLists(lo: nat, hi: nat, l: seq<Range>, tree: seq<Id>, free: seq<set<Id>>, next: Id)
    requires Ok(lo, hi, l, tree, free, next)
    ensures forall k | 0 <= k < |l| :: Log(l[k].size) < |free|
  {
    TilesSorted(l, lo, hi);
    forall k | 0 <= k < |l| ensures Log(l[k].size) < |free| {
      IndexInBounds(lo, hi, l[k].size);
    }
  }

  /**
    The free-list search refines a scan: a page-aligned request for any address
    that is refused means every free range is smaller than the next power of
    two of the size.
  */
  lemma RefusedMeansSmall(lo: nat, hi: nat, l: seq<Range>, size: nat)
    requires Tiles(l, lo, hi) && size > 0
    requires NoRoom(l, lo, size, 1)
    ensures forall k | 0 <= k < |l| && l[k].kind.Free? :: l[k].size < Pow2(SearchIndex(size))
    ensures size <= Pow2(SearchIndex(size)) < 2 * size
  {
    TilesSorted(l, lo, hi);
    LogBounds(2 * size - 1);
    forall k | 0 <= k < |l| && l[k].kind.Free? ensures l[k].size < Pow2(SearchIndex(size)) {
      RoundUpIs(l[k].base, 1);
      if Log(l[k].size) >= SearchIndex(size) {
        SearchedListsFit(size, l[k].size);
      } else {
        SkippedListsSmall(size, l[k].size);
      }
    }
  }

  /** B_EXACT_ADDRESS, B_BASE_ADDRESS, B_RANDOMIZED_BASE_ADDRESS with the start that was drawn, any address */
  datatype Spec = Exact(address: nat) | From(address: nat) | RandomFrom(address: nat, drawn: nat) | Any

  /** No range of the free lists that are searched for the size has room from `start` on. */
  ghost predicate NoRoom(l: seq<Range>, start: nat, size: nat, alignment: nat)
    requires size > 0 && alignment > 0
  {
    forall k | 0 <= k < |l| && Log(l[k].size) >= SearchIndex(size) :: !HasRoom(l[k], start, size, alignment)
  }

  /** The start address of a base-address search. */
  function StartOf(address: nat, lo: nat, hi: nat, size: nat, alignment: nat): nat
    requires alignment > 0 && lo <= hi
  {
    RoundDown(if address < lo || address >= hi || hi - address < size then lo else address, alignment)
  }

  // ---- what is in use ----

  /** The ranges that are not free, in order. */
  ghost function Busy(l: seq<Range>): seq<Range> {
    if l == [] then [] else Busy(l[..|l| - 1]) + (if l[|l| - 1].kind.Free? then [] else [l[|l| - 1]])
  }

  lemma {:induction false} BusyJoin(a: seq<Range>, b: seq<Range>)
    ensures Busy(a + b) == Busy(a) + Busy(b)
  {
    if b == [] {
      assert a + b == a;
    } else {
      var n := |b| - 1;
      BusyJoin(a, b[..n]);
      assert (a + b)[..|a + b| - 1] == a + b[..n];
    }
  }

  /** The ranges in use without the reservations between two addresses. */
  ghost function Unreserved(l: seq<Range>, from: nat, to: nat): seq<Range> {
    if l == [] then []
    else
      var r := l[|l| - 1];
      Unreserved(l[..|l| - 1], from, to) + (if r.kind.Reserved? && from <= r.base && End(r) <= to then [] else [r])
  }

  lemma {:induction false} UnreservedJoin(a: seq<Range>, b: seq<Range>, from: nat, to: nat)
    ensures Unreserved(a + b, from, to) == Unreserved(a, from, to) + Unreserved(b, from, to)
  {
    if b == [] {
      assert a + b == a;
    } else {
      var n := |b| - 1;
      UnreservedJoin(a, b[..n], from, to);
      assert (a + b)[..|a + b| - 1] == a + b[..n];
    }
  }

  lemma {:induction false} BusyNone(l: seq<Range>)
    requires forall i | 0 <= i < |l| :: l[i].kind.Free?
    ensures Busy(l) == []
  {
    if l != [] { BusyNone(l[..|l| - 1]); }
  }

  lemma Slices(l: seq<Range>, j: nat, n: nat)
    requires j <= n <= |l|
    ensures l[j..] == l[j..n] + l[n..] && l[..n] == l[..j] + l[j..n]
  {
  }

  lemma Parts(a: seq<Range>, b: seq<Range>)
    ensures (a + b)[..|a + b| - |b|] == a && (a + b)[|a + b| - |b|..] == b
  {
  }

  /** Freeing a range takes exactly it out of use. */
  lemma JoinedBusy(l: seq<Range>, k: nat, n: nat)
    requires k < n <= |l| && !l[k].kind.Free? && (forall i | k < i < n :: l[i].kind.Free?)
    requires (n < |l| ==> !l[n].kind.Free?)
    ensures |Joined(l, k)| >= |l| - n && Joined(l, k)[|Joined(l, k)| - (|l| - n)..] == l[n..]
    ensures Busy(Joined(l, k)[..|Joined(l, k)| - (|l| - n)]) == Busy(l[..k])
  {
    hide Busy;
    var i, j, r, m := JoinFrom(l, k), JoinTo(l, k), JoinedRange(l, k), Joined(l, k);
    assert j <= n;
    var rest := l[j..n];
    Slices(l, j, n);
    assert m == (l[..i] + ([r] + rest)) + l[n..];
    Parts(l[..i] + ([r] + rest), l[n..]);
    forall x | 0 <= x < |[r] + rest| ensures ([r] + rest)[x].kind.Free? {
      if x > 0 { assert ([r] + rest)[x] == l[j + x - 1]; }
    }
    BusyNone([r] + rest);
    BusyJoin(l[..i], [r] + rest);
    assert l[..k] == l[..i] + l[i..k];
    BusyNone(l[i..k]);
    BusyJoin(l[..i], l[i..k]);
  }

  lemma OkTiles(lo: nat, hi: nat, l: seq<Range>, tree: seq<Id>, free: seq<set<Id>>, next: Id)
    requires Ok(lo, hi, l, tree, free, next)
    ensures Tiles(l, lo, hi) && lo < hi
  {
  }

  lemma {:induction false} BelowOnlySorted(l: seq<Range>, address: nat)
    requires Sorted(l)
    ensures var n := BelowOnly(l, address);
      && n <= |l| && (forall k | 0 <= k < n :: l[k].base < address) && (forall k | n <= k < |l| :: address <= l[k].base)
  {
    if l != [] && l[|l| - 1].base >= address { BelowOnlySorted(l[..|l| - 1], address); }
  }

  lemma BelowOnlyIs(lo: nat, hi: nat, l: seq<Range>, address: nat)
    requires Tiles(l, lo, hi)
    ensures var n := BelowOnly(l, address);
      && n <= |l| && (forall k | 0 <= k < n :: l[k].base < address) && (forall k | n <= k < |l| :: address <= l[k].base)
  {
    TilesSorted(l, lo, hi);
    BelowOnlySorted(l, address);
  }

  /** Ranges that do not lie between the addresses stay. */
  lemma {:induction false} UnreservedKeeps(l: seq<Range>, from: nat, to: nat)
    requires forall i | 0 <= i < |l| :: l[i].base < from || End(l[i]) > to
    ensures Unreserved(Busy(l), from, to) == Busy(l)
  {
    if l != [] {
      var n := |l| - 1;
      UnreservedKeeps(l[..n], from, to);
      UnreservedJoin(Busy(l[..n]), if l[n].kind.Free? then [] else [l[n]], from, to);
      UnreservedOne(l[n], from, to);
    }
  }

  lemma UnreservedOne(r: Range, from: nat, to: nat)
    ensures Unreserved([r], from, to) == if r.kind.Reserved? && from <= r.base && End(r) <= to then [] else [r]
    ensures Unreserved([], from, to) == []
  {
    assert [r][..0] == [];
  }

  lemma UnreserveStart(l: seq<Range>, from: nat, to: nat, k: nat)
    requires k <= |l| && forall i | 0 <= i < k :: l[i].base < from
    ensures Unreserved(Busy(l[..k]), from, to) == Busy(l[..k])
  {
    UnreservedKeeps(l[..k], from, to);
  }

  /** One range and the free ones behind it. */
  lemma BusyRun(l: seq<Range>, k: nat, n: nat)
    requires k < n <= |l| && forall i | k < i < n :: l[i].kind.Free?
    ensures Busy(l[..n]) == Busy(l[..k]) + (if l[k].kind.Free? then [] else [l[k]])
  {
    assert l[..n] == l[..k] + [l[k]] + l[k + 1..n];
    BusyNone(l[k + 1..n]);
    BusyJoin(l[..k] + [l[k]], l[k + 1..n]);
    BusyJoin(l[..k], [l[k]]);
    assert Busy([l[k]]) == if l[k].kind.Free? then [] else [l[k]] by { assert [l[k]][..0] == []; }
  }

  lemma SameSuffix(l: seq<Range>, cur: seq<Range>, left: nat, left2: nat)
    requires left2 < left <= |cur| && left <= |l| && cur[|cur| - left..] == l[|l| - left..]
    ensures cur[|cur| - left2..] == l[|l| - left2..] && cur[|cur| - left] == l[|l| - left]
    ensures forall i | |l| - left <= i < |l| - left2 :: l[i] == cur[i - |l| + |cur|]
  {
    assert cur[|cur| - left2..] == cur[|cur| - left..][left - left2..]
      && l[|l| - left2..] == l[|l| - left..][left - left2..];
    forall i | |l| - left <= i < |l| - left2 ensures l[i] == cur[i - |l| + |cur|] {
      assert l[i] == l[|l| - left..][i - |l| + left];
    }
    assert cur[|cur| - left..][0] == cur[|cur| - left];
  }

  lemma UnreserveStep(l: seq<Range>, cur: seq<Range>, from: nat, to: nat, left: nat, left2: nat)
    requires left2 < left <= |cur| && left <= |l| && cur[|cur| - left..] == l[|l| - left..]
    requires from <= cur[|cur| - left].base && End(cur[|cur| - left]) <= to
    requires forall i | |cur| - left < i < |cur| - left2 :: cur[i].kind.Free?
    ensures var k, n := |cur| - left, |cur| - left2;
      && cur[n..] == l[|l| - left2..]
      && Busy(cur[..n]) == Busy(cur[..k]) + (if cur[k].kind.Free? then [] else [cur[k]])
      && Unreserved(Busy(l[..|l| - left2]), from, to) ==
         Unreserved(Busy(l[..|l| - left]), from, to) + (if cur[k].kind.Free? || cur[k].kind.Reserved? then []
           else [cur[k]])
  {
    hide Busy, Unreserved;
    var k, n := |cur| - left, |cur| - left2;
    var d := |l| - |cur|;
    SameSuffix(l, cur, left, left2);
    BusyRun(cur, k, n);
    BusyRun(l, k + d, n + d);
    UnreservedJoin(Busy(l[..k + d]), if cur[k].kind.Free? then [] else [cur[k]], from, to);
    UnreservedOne(cur[k], from, to);
  }

  /** How far Unreserve has got: the last `left` ranges are as they were, those before are done. */
  ghost predicate Progress(l: seq<Range>, cur: seq<Range>, from: nat, to: nat, left: nat) {
    && left <= |cur| && left <= |l| && cur[|cur| - left..] == l[|l| - left..]
    && Busy(cur[..|cur| - left]) == Unreserved(Busy(l[..|l| - left]), from, to)
    && forall k | |l| - left <= k < |l| :: l[k].base >= from
  }

  lemma ProgressStart(lo: nat, hi: nat, l: seq<Range>, from: nat, to: nat)
    requires Tiles(l, lo, hi)
    ensures BelowOnly(l, from) <= |l| && Progress(l, l, from, to, |l| - BelowOnly(l, from))
  {
    BelowOnlyIs(lo, hi, l, from);
    UnreserveStart(l, from, to, BelowOnly(l, from));
  }

  lemma ProgressSkip(l: seq<Range>, cur: seq<Range>, from: nat, to: nat, left: nat, left2: nat)
    requires Progress(l, cur, from, to, left) && left2 < left && End(cur[|cur| - left]) <= to
    requires !cur[|cur| - left].kind.Reserved?
    requires forall i | |cur| - left < i < |cur| - left2 :: cur[i].kind.Free?
    ensures Progress(l, cur, from, to, left2)
  {
    hide Busy, Unreserved;
    SameSuffix(l, cur, left, left2);
    UnreserveStep(l, cur, from, to, left, left2);
  }

  lemma ProgressFree(l: seq<Range>, cur: seq<Range>, from: nat, to: nat, left: nat, left2: nat)
    requires Progress(l, cur, from, to, left) && left2 < left && End(cur[|cur| - left]) <= to
    requires cur[|cur| - left].kind.Reserved?
    requires forall i | |cur| - left < i < |cur| - left2 :: cur[i].kind.Free?
    requires left2 > 0 ==> !cur[|cur| - left2].kind.Free?
    ensures |Joined(cur, |cur| - left)| >= left2 && Progress(l, Joined(cur, |cur| - left), from, to, left2)
  {
    hide Busy, Unreserved, Joined;
    SameSuffix(l, cur, left, left2);
    UnreserveStep(l, cur, from, to, left, left2);
    JoinedBusy(cur, |cur| - left, |cur| - left2);
  }

  lemma TailAbove(lo: nat, hi: nat, l: seq<Range>, k: nat, to: nat)
    requires Tiles(l, lo, hi) && k < |l| && End(l[k]) > to
    ensures forall i | k <= i < |l| :: End(l[i]) > to
  {
    TilesSorted(l, lo, hi);
    TilesSplit(l, k, lo, hi);
    forall i | k < i < |l| ensures End(l[i]) > to {
      assert l[k + 1].base <= l[i].base;
    }
  }

  lemma ProgressEnd(lo: nat, hi: nat, l: seq<Range>, cur: seq<Range>, from: nat, to: nat, left: nat)
    requires Tiles(l, lo, hi) && Progress(l, cur, from, to, left) && (left > 0 ==> End(cur[|cur| - left]) > to)
    ensures Busy(cur) == Unreserved(Busy(l), from, to)
  {
    hide Busy, Unreserved, Tiles;
    var k := |l| - left;
    var rest := l[k..];
    if left > 0 {
      assert cur[|cur| - left..][0] == cur[|cur| - left] && rest[0] == l[k];
      TailAbove(lo, hi, l, k, to);
    }
    UnreservedKeeps(rest, from, to);
    assert l == l[..k] + rest && cur == cur[..|cur| - left] + rest;
    BusyJoin(l[..k], rest);
    BusyJoin(cur[..|cur| - left], rest);
    UnreservedJoin(Busy(l[..k]), Busy(rest), from, to);
  }

  /** Allocating from a free range puts exactly the new range into use, where the free range was. */
  lemma SplitBusy(l: seq<Range>, k: nat, address: nat, size: nat, kind: Kind, next: Id)
    requires k < |l| && l[k].kind.Free? && !kind.Free? && l[k].base <= address && address + size <= End(l[k])
    ensures Busy(l) == Busy(l[..k]) + Busy(l[k + 1..])
    ensures Busy(Replace(l, k, k + 1, Split(l[k], address, size, kind, next)))
      == Busy(l[..k]) + [Range(l[k].id, address, size, kind)] + Busy(l[k + 1..])
  {
    var taken := Range(l[k].id, address, size, kind);
    var mid := Split(l[k], address, size, kind, next);
    var at := if address > l[k].base then 1 else 0;
    assert mid == mid[..at] + [taken] + mid[at + 1..];
    BusyNone(mid[..at]);
    BusyNone(mid[at + 1..]);
    BusyJoin(mid[..at] + [taken], mid[at + 1..]);
    BusyJoin(mid[..at], [taken]);
    assert Busy([taken]) == [taken] by { assert [taken][..0] == []; }
    assert Busy(mid) == [taken];
    BusyJoin(l[..k], mid);
    BusyJoin(l[..k] + mid, l[k + 1..]);
    BusyRun(l, k, k + 1);
    assert l == l[..k + 1] + l[k + 1..];
    BusyJoin(l[..k + 1], l[k + 1..]);
  }

  // ---- what is in use determines the tiling ----

  datatype Span = Span(base: nat, size: nat, kind: Kind)

  function Spans(l: seq<Range>): (r: seq<Span>)
    ensures |r| == |l| && forall i | 0 <= i < |l| :: r[i] == Span(l[i].base, l[i].size, l[i].kind)
  {
    seq(|l|, i requires 0 <= i < |l| => Span(l[i].base, l[i].size, l[i].kind))
  }

  /** A tiling that does not end with a free range ends where its last range in use ends. */
  lemma BusyEnd(l: seq<Range>, lo: nat, hi: nat)
    requires Tiles(l, lo, hi) && NoAdjoiningFree(l) && (l == [] || !l[|l| - 1].kind.Free?)
    ensures hi == if Busy(l) == [] then lo else End(Busy(l)[|Busy(l)| - 1])
  {
    if l != [] { TilesSplit(l, |l| - 1, lo, hi); }
  }

  /** Two tilings of one space without adjoining free ranges and with the same ranges in use are the same. */
  lemma {:induction false} BusyDetermines(a: seq<Range>, b: seq<Range>, lo: nat, hi: nat)
    requires Tiles(a, lo, hi) && Tiles(b, lo, hi) && NoAdjoiningFree(a) && NoAdjoiningFree(b) && Busy(a) == Busy(b)
    ensures Spans(a) == Spans(b)
    decreases |a|
  {
    hide Busy, Tiles;
    TilesGrow(a, lo, hi);
    TilesGrow(b, lo, hi);
    TilesEmpty(a, lo, hi);
    TilesEmpty(b, lo, hi);
    if a != [] {
      var n, m := |a| - 1, |b| - 1;
      var x, y := a[n], b[m];
      LastRange(a, lo, hi);
      LastRange(b, lo, hi);
      if x.kind.Free? && y.kind.Free? {
        BusyEnd(a[..n], lo, x.base);
        BusyEnd(b[..m], lo, y.base);
        BusyDetermines(a[..n], b[..m], lo, x.base);
        LastSpan(a, b);
      } else if !x.kind.Free? && !y.kind.Free? {
        assert Busy(a[..n]) == Busy(a)[..|Busy(a)| - 1] && Busy(b[..m]) == Busy(b)[..|Busy(b)| - 1];
        assert x == Busy(a)[|Busy(a)| - 1] && y == Busy(b)[|Busy(b)| - 1];
        BusyDetermines(a[..n], b[..m], lo, x.base);
        LastSpan(a, b);
      } else if x.kind.Free? {
        BusyEnd(a[..n], lo, x.base);
        BusyEnd(b, lo, hi);
      } else {
        BusyEnd(a, lo, hi);
        BusyEnd(b[..m], lo, y.base);
      }
    }
  }

  lemma TilesEmpty(l: seq<Range>, lo: nat, hi: nat)
    requires Tiles(l, lo, hi)
    ensures l == [] ==> lo == hi
  {
  }

  /** Taking the last range off a tiling. */
  lemma LastRange(l: seq<Range>, lo: nat, hi: nat)
    requires Tiles(l, lo, hi) && NoAdjoiningFree(l) && l != []
    ensures var n := |l| - 1;
      && Tiles(l[..n], lo, l[n].base) && l[n].size > 0 && End(l[n]) == hi && NoAdjoiningFree(l[..n])
      && Busy(l) == (if l[n].kind.Free? then Busy(l[..n]) else Busy(l[..n]) + [l[n]])
      && (l[n].kind.Free? ==> l[..n] == [] || !l[..n][|l[..n]| - 1].kind.Free?)
  {
    TilesSplit(l, |l| - 1, lo, hi);
  }

  lemma LastSpan(a: seq<Range>, b: seq<Range>)
    requires a != [] && b != [] && Spans(a[..|a| - 1]) == Spans(b[..|b| - 1])
    requires Spans([a[|a| - 1]]) == Spans([b[|b| - 1]])
    ensures Spans(a) == Spans(b)
  {
    assert Spans(a) == Spans(a[..|a| - 1]) + Spans([a[|a| - 1]]);
    assert Spans(b) == Spans(b[..|b| - 1]) + Spans([b[|b| - 1]]);
  }

  lemma JoinedTiles(lo: nat, hi: nat, l: seq<Range>, k: nat, next: Id)
    requires Tiles(l, lo, hi) && NoAdjoiningFree(l) && IdsBelow(l, next) && k < |l|
    ensures Tiles(Joined(l, k), lo, hi) && NoAdjoiningFree(Joined(l, k))
  {
    JoinedSpan(lo, hi, l, k);
    JoinedBorders(l, k, next);
    ReplaceTiles(l, JoinFrom(l, k), JoinTo(l, k), [JoinedRange(l, k)], lo, hi);
    ReplaceNoAdjoining(l, JoinFrom(l, k), JoinTo(l, k), [JoinedRange(l, k)]);
  }

  lemma FreedBusy(l: seq<Range>, k: nat)
    requires k < |l| && !l[k].kind.Free?
    ensures Busy(l) == Busy(l[..k]) + [l[k]] + Busy(l[k + 1..])
    ensures Busy(Joined(l, k)) == Busy(l[..k]) + Busy(l[k + 1..])
  {
    hide Busy, Joined;
    AreaBusy(l, k);
    JoinedParts(l, k);
  }

  lemma JoinedParts(l: seq<Range>, k: nat)
    requires k < |l|
    ensures Busy(Joined(l, k)) == Busy(l[..k]) + Busy(l[k + 1..])
  {
    hide Busy, JoinFrom, JoinTo, Replace, JoinedRange;
    var i, j, r := JoinFrom(l, k), JoinTo(l, k), JoinedRange(l, k);
    JoinedSides(l, k);
    BusyReplaced(l, i, j, [r]);
    BusyOne(r);
    assert Busy(l[..i]) + [] == Busy(l[..i]);
  }

  /** What is joined with range k was free. */
  lemma JoinedSides(l: seq<Range>, k: nat)
    requires k < |l|
    ensures JoinFrom(l, k) <= k < JoinTo(l, k) <= |l| && JoinedRange(l, k).kind.Free?
    ensures Busy(l[..JoinFrom(l, k)]) == Busy(l[..k]) && Busy(l[JoinTo(l, k)..]) == Busy(l[k + 1..])
  {
    hide Busy;
    if JoinFrom(l, k) < k {
      assert l[..k] == l[..k - 1] + [l[k - 1]];
      BusyJoin(l[..k - 1], [l[k - 1]]);
      BusyOne(l[k - 1]);
    }
    if k + 1 < JoinTo(l, k) {
      assert l[k + 1..] == [l[k + 1]] + l[k + 2..];
      BusyJoin([l[k + 1]], l[k + 2..]);
      BusyOne(l[k + 1]);
    }
  }

  lemma BusyParts(l: seq<Range>, p: nat)
    requires p <= |l|
    ensures Busy(l) == Busy(l[..p]) + Busy(l[p..])
  {
    assert l == l[..p] + l[p..];
    BusyJoin(l[..p], l[p..]);
  }

  /** Freeing what was allocated from a free range restores the tiling. */
  lemma AllocateThenFree(lo: nat, hi: nat, l: seq<Range>, k: nat, address: nat, size: nat, kind: Kind, next: Id)
    requires Tiles(l, lo, hi) && NoAdjoiningFree(l) && DistinctIds(l) && IdsBelow(l, next) && k < |l| && l[k].kind.Free?
    requires l[k].base <= address && address + size <= End(l[k]) && size > 0 && !kind.Free?
    ensures var m := Replace(l, k, k + 1, Split(l[k], address, size, kind, next));
      var at := if address > l[k].base then k + 1 else k;
      at < |m| && m[at] == Range(l[k].id, address, size, kind) && Spans(Joined(m, at)) == Spans(l)
  {
    hide Busy, Joined, Tiles, NoAdjoiningFree, DistinctIds, IdsBelow, Split, Spans;
    var m := Replace(l, k, k + 1, Split(l[k], address, size, kind, next));
    var at := if address > l[k].base then k + 1 else k;
    SplitWhole(lo, hi, l, k, address, size, kind, next);
    JoinedTiles(lo, hi, m, at, SplitNext(l[k], address, size, next));
    FreedBusy(m, at);
    SplitSides(l, k, address, size, kind, next);
    FreeBusy(l, k);
    BusyDetermines(Joined(m, at), l, lo, hi);
  }

  /** The tiling with part of a free range allocated. */
  lemma SplitWhole(lo: nat, hi: nat, l: seq<Range>, k: nat, address: nat, size: nat, kind: Kind, next: Id)
    requires Tiles(l, lo, hi) && NoAdjoiningFree(l) && DistinctIds(l) && IdsBelow(l, next) && k < |l| && l[k].kind.Free?
    requires l[k].base <= address && address + size <= End(l[k]) && size > 0 && !kind.Free?
    ensures var m := Replace(l, k, k + 1, Split(l[k], address, size, kind, next));
      var at := if address > l[k].base then k + 1 else k;
      && at < |m| && m[at] == Range(l[k].id, address, size, kind)
      && Tiles(m, lo, hi) && NoAdjoiningFree(m) && IdsBelow(m, SplitNext(l[k], address, size, next))
  {
    hide Tiles, NoAdjoiningFree;
    var mid := Split(l[k], address, size, kind, next);
    TilesSplit(l, k, lo, hi);
    SplitTiles(l[k], address, size, kind, next);
    SplitBorders(l, k, address, size, kind, next);
    SplitIds(l, k, address, size, kind, next);
    ReplaceTiles(l, k, k + 1, mid, lo, hi);
    ReplaceNoAdjoining(l, k, k + 1, mid);
  }

  lemma FreeBusy(l: seq<Range>, k: nat)
    requires k < |l| && l[k].kind.Free?
    ensures Busy(l) == Busy(l[..k]) + Busy(l[k + 1..])
  {
    hide Busy;
    BusyParts(l, k);
    BusyParts(l[k..], 1);
    assert l[k..][..1] == [l[k]] && l[k..][1..] == l[k + 1..];
    BusyNone([l[k]]);
  }

  /** Only free pieces are left around the allocated one. */
  lemma SplitSides(l: seq<Range>, k: nat, address: nat, size: nat, kind: Kind, next: Id)
    requires k < |l| && l[k].kind.Free? && l[k].base <= address && address + size <= End(l[k])
    ensures var m := Replace(l, k, k + 1, Split(l[k], address, size, kind, next));
      var at := if address > l[k].base then k + 1 else k;
      at < |m| && Busy(m[..at]) == Busy(l[..k]) && Busy(m[at + 1..]) == Busy(l[k + 1..])
  {
    hide Busy;
    var mid := Split(l[k], address, size, kind, next);
    var m := Replace(l, k, k + 1, mid);
    var i := if address > l[k].base then 1 else 0;
    assert m[..k + i] == l[..k] + mid[..i] && m[k + i + 1..] == mid[i + 1..] + l[k + 1..];
    BusyNone(mid[..i]);
    BusyNone(mid[i + 1..]);
    BusyJoin(l[..k], mid[..i]);
    BusyJoin(mid[i + 1..], l[k + 1..]);
  }

  lemma BusyOne(r: Range)
    ensures Busy([r]) == if r.kind.Free? then [] else [r]
  {
    assert [r][..0] == [];
  }

  lemma BusyReplaced(l: seq<Range>, i: nat, j: nat, mid: seq<Range>)
    requires i <= j <= |l|
    ensures Busy(Replace(l, i, j, mid)) == Busy(l[..i]) + Busy(mid) + Busy(l[j..])
  {
    hide Busy;
    BusyJoin(l[..i] + mid, l[j..]);
    BusyJoin(l[..i], mid);
  }

  /** Of what is in use, shrinking an area's head changes only that area: it ends where it ended. */
  lemma BeheadedBusy(l: seq<Range>, k: nat, newSize: nat, next: Id)
    requires k < |l| && l[k].kind.Area? && newSize <= l[k].size
    ensures Busy(l) == Busy(l[..k]) + [l[k]] + Busy(l[k + 1..])
    ensures Busy(Beheaded(l, k, newSize, next)) ==
      Busy(l[..k]) + [Range(l[k].id, l[k].base + l[k].size - newSize, newSize, Area)] + Busy(l[k + 1..])
  {
    hide Busy, Beheaded;
    AreaBusy(l, k);
    if newSize == l[k].size {
      NothingCut(l, k, next);
    } else {
      CutBusy(l, k, newSize, next);
    }
  }

  lemma CutBusy(l: seq<Range>, k: nat, newSize: nat, next: Id)
    requires k < |l| && l[k].kind.Area? && newSize < l[k].size
    ensures Busy(Beheaded(l, k, newSize, next)) ==
      Busy(l[..k]) + [Range(l[k].id, l[k].base + l[k].size - newSize, newSize, Area)] + Busy(l[k + 1..])
  {
    hide Busy, HeadFrom, BeheadedPart, Replace, Beheaded;
    var i, part := HeadFrom(l, k), BeheadedPart(l, k, newSize, next);
    HeadBusy(l, k);
    HeadPartBusy(l, k, newSize, next);
    BeheadedIs(l, k, newSize, next);
    BusyReplaced(l, i, k + 1, part);
    assert Busy(Replace(l, i, k + 1, part)) == Busy(l[..i]) + Busy(part) + Busy(l[k + 1..]);
  }

  lemma NothingCut(l: seq<Range>, k: nat, next: Id)
    requires k < |l| && l[k].kind.Area?
    ensures Beheaded(l, k, l[k].size, next) == l && l[k] == Range(l[k].id, l[k].base, l[k].size, Area)
  {
  }

  lemma BeheadedIs(l: seq<Range>, k: nat, newSize: nat, next: Id)
    requires k < |l| && newSize < l[k].size
    ensures HeadFrom(l, k) <= k
    ensures Beheaded(l, k, newSize, next) == Replace(l, HeadFrom(l, k), k + 1, BeheadedPart(l, k, newSize, next))
  {
  }

  lemma HeadBusy(l: seq<Range>, k: nat)
    requires k < |l|
    ensures HeadFrom(l, k) <= k && Busy(l[..HeadFrom(l, k)]) == Busy(l[..k])
  {
    hide Busy;
    if HeadFrom(l, k) < k {
      assert l[..k] == l[..k - 1] + [l[k - 1]];
      BusyJoin(l[..k - 1], [l[k - 1]]);
      BusyOne(l[k - 1]);
    }
  }

  lemma HeadPartBusy(l: seq<Range>, k: nat, newSize: nat, next: Id)
    requires k < |l| && l[k].kind.Area? && newSize <= l[k].size
    ensures Busy(BeheadedPart(l, k, newSize, next)) == [Range(l[k].id, l[k].base + l[k].size - newSize, newSize, Area)]
  {
    hide Busy;
    var part := BeheadedPart(l, k, newSize, next);
    assert part == [part[0]] + [part[1]];
    BusyJoin([part[0]], [part[1]]);
    BusyOne(part[0]);
    BusyOne(part[1]);
  }

  lemma AreaBusy(l: seq<Range>, k: nat)
    requires k < |l| && !l[k].kind.Free?
    ensures Busy(l) == Busy(l[..k]) + [l[k]] + Busy(l[k + 1..])
  {
    hide Busy;
    BusyParts(l, k + 1);
    assert l[..k + 1] == l[..k] + [l[k]];
    BusyJoin(l[..k], [l[k]]);
    BusyOne(l[k]);
  }

  /** What is left in use of the range behind an area that has grown to newSize. */
  ghost function Remaining(l: seq<Range>, k: nat, newSize: nat): seq<Range>
    requires k + 1 < |l|
  {
    var left := l[k].size + l[k + 1].size - newSize;
    if l[k + 1].kind.Free? || left <= 0 then [] else [Range(l[k + 1].id, l[k].base + newSize, left, l[k + 1].kind)]
  }

  /**
    Of what is in use, resizing changes that area, which stays where it is, and when it grows, the
    range it takes from.
  */
  lemma ResizedBusy(l: seq<Range>, k: nat, newSize: nat, next: Id)
    requires k < |l| && l[k].kind.Area? && ResizeStatus(l, k, newSize, 1).Done?
    ensures var area := Range(l[k].id, l[k].base, newSize, Area);
      Busy(Resized(l, k, newSize, next)) == Busy(l[..k]) + [area] +
        (if newSize <= l[k].size then Busy(l[k + 1..]) else Remaining(l, k, newSize) + Busy(l[k + 2..]))
  {
    hide Busy;
    var area, j, part := Range(l[k].id, l[k].base, newSize, Area), ResizeTo(l, k, newSize),
      ResizedPart(l, k, newSize, next);
    if newSize == l[k].size {
      AreaBusy(l, k);
    } else {
      BusyReplaced(l, k, j, part);
      assert part == [area] + part[1..];
      BusyJoin([area], part[1..]);
      BusyOne(area);
      if part[1..] == [] { BusyNone([]); } else { assert part[1..] == [part[1]]; BusyOne(part[1]); }
      if j == k + 2 && l[k + 1].kind.Free? {
        BusyParts(l[k + 1..], 1);
        assert l[k + 1..][..1] == [l[k + 1]] && l[k + 1..][1..] == l[k + 2..];
        BusyOne(l[k + 1]);
      }
    }
  }
}
