/**
  Batching page writes (page_alloc.cpp): a transfer collects pages that are
  neighbours in their cache into as few physical vectors as it can; runs and
  ranges write transfers and tell every page how its own transfer went.
  Physical addresses and cache offsets are in pages.
*/
module WriteBatch {

  datatype Vec = Vec(base: nat, length: nat)

  datatype PageInfo = PageInfo(cache: nat, offset: nat, frame: nat)

  const MAX_VECS: nat := 32

  /** The frames a vector stands for. */
  function Frames(v: Vec): (r: seq<nat>)
    ensures |r| == v.length && forall i | 0 <= i < v.length :: r[i] == v.base + i
  {
    seq(v.length, i => v.base + i)
  }

  ghost function Flatten(vs: seq<Vec>): seq<nat> {
    if vs == [] then [] else Flatten(vs[..|vs| - 1]) + Frames(vs[|vs| - 1])
  }

  lemma {:induction false} FlattenJoin(a: seq<Vec>, b: seq<Vec>)
    ensures Flatten(a + b) == Flatten(a) + Flatten(b)
  {
    if b == [] {
      assert a + b == a;
    } else {
      var n := |b| - 1;
      FlattenJoin(a, b[..n]);
      assert (a + b)[..|a + b| - 1] == a + b[..n];
    }
  }

  lemma FlattenOne(v: Vec)
    ensures Flatten([v]) == Frames(v)
  {
    assert [v][..0] == [];
  }

  /** Growing the last vector by one frame, or the first one downwards. */
  lemma GrowLast(vs: seq<Vec>)
    requires vs != []
    ensures var v := vs[|vs| - 1];
      Flatten(vs[|vs| - 1 := Vec(v.base, v.length + 1)]) == Flatten(vs) + [v.base + v.length]
  {
    var n, v := |vs| - 1, vs[|vs| - 1];
    var grown := vs[n := Vec(v.base, v.length + 1)];
    assert grown[..n] == vs[..n];
    assert Frames(Vec(v.base, v.length + 1)) == Frames(v) + [v.base + v.length];
  }

  lemma GrowFirst(vs: seq<Vec>)
    requires vs != [] && vs[0].base > 0
    ensures Flatten(vs[0 := Vec(vs[0].base - 1, vs[0].length + 1)]) == [vs[0].base - 1] + Flatten(vs)
  {
    hide Flatten;
    var v, w := vs[0], Vec(vs[0].base - 1, vs[0].length + 1);
    assert vs == [v] + vs[1..] && vs[0 := w] == [w] + vs[1..];
    FlattenJoin([v], vs[1..]);
    FlattenJoin([w], vs[1..]);
    FlattenOne(v);
    FlattenOne(w);
    FrameBefore(v);
  }

  lemma FrameBefore(v: Vec)
    requires v.base > 0
    ensures Frames(Vec(v.base - 1, v.length + 1)) == [v.base - 1] + Frames(v)
  {
  }

  lemma AddVector(vs: seq<Vec>, frame: nat)
    ensures Flatten(vs + [Vec(frame, 1)]) == Flatten(vs) + [frame]
    ensures Flatten([Vec(frame, 1)] + vs) == [frame] + Flatten(vs)
  {
    FlattenJoin(vs, [Vec(frame, 1)]);
    FlattenJoin([Vec(frame, 1)], vs);
    FlattenOne(Vec(frame, 1));
    assert Frames(Vec(frame, 1)) == [frame];
  }

  class Transfer {
    var cache: nat
    var offset: nat              // fOffset
    var count: nat               // fPageCount
    var max: int                 // fMaxPages, negative for no limit
    const vecs: array<Vec>       // fVecs
    var vecCount: nat
    ghost var frames: seq<nat>   // the frames of cache offsets offset, offset + 1, ...

    ghost predicate Valid()
      reads this, vecs
    {
      && vecs.Length == MAX_VECS && 0 < vecCount <= MAX_VECS
      && |frames| == count && Flatten(vecs[..vecCount]) == frames
    }

    constructor ()
      ensures fresh(vecs) && vecs.Length == MAX_VECS
    {
      vecs := new Vec[MAX_VECS](_ => Vec(0, 0));
      cache, offset, count, max, vecCount, frames := 0, 0, 0, 0, 0, [];
    }

    /** SetTo: a transfer of one page. */
    method SetTo(page: PageInfo, max: int)
      requires vecs.Length == MAX_VECS
      modifies this, vecs
      ensures Valid() && cache == page.cache && offset == page.offset && count == 1 && frames == [page.frame]
      ensures this.max == max
    {
      cache, offset, count, this.max := page.cache, page.offset, 1, max;
      vecs[0] := Vec(page.frame, 1);
      vecCount := 1;
      frames := [page.frame];
      assert vecs[..1] == [Vec(page.frame, 1)];
      FlattenOne(Vec(page.frame, 1));
      assert Frames(Vec(page.frame, 1)) == [page.frame];
    }

    /** A page that may join: of this cache, next to the range, and below the limit. */
    predicate Adjoins(page: PageInfo)
      reads this
    {
      page.cache == cache && !(max >= 0 && count >= max) && (page.offset == offset + count || page.offset + 1 == offset)
    }

    /** It continues the last vector, or the first one downwards. */
    predicate Contiguous(page: PageInfo)
      requires Valid()
      reads this, vecs
    {
      || (page.offset == offset + count && page.frame == vecs[vecCount - 1].base + vecs[vecCount - 1].length)
      || (page.offset + 1 == offset && page.frame + 1 == vecs[0].base)
    }

    /**
      AddPage: the page joins at the end or at the front, in an old vector or in
      a new one.  The vectors flattened stay exactly the frames of the range.
    */
    method AddPage(page: PageInfo) returns (added: bool)
      requires Valid()
      modifies this, vecs
      ensures Valid() && cache == old(cache) && max == old(max)
      ensures added <==> old(Adjoins(page) && (Contiguous(page) || vecCount < MAX_VECS))
      ensures !added ==> offset == old(offset) && count == old(count) && frames == old(frames)
      ensures added ==> count == old(count) + 1
      ensures added && page.offset == old(offset + count) ==>
        offset == old(offset) && frames == old(frames) + [page.frame]
      ensures added && page.offset != old(offset + count) ==>
        offset + 1 == old(offset) && frames == [page.frame] + old(frames)
    {
      hide Flatten;
      if page.cache != cache || (max >= 0 && count >= max) {
        return false;
      }
      ghost var vs := vecs[..vecCount];
      var last := vecs[vecCount - 1];
      if page.frame == last.base + last.length && page.offset == offset + count {
        GrowLast(vs);
        vecs[vecCount - 1] := Vec(last.base, last.length + 1);
        assert vecs[..vecCount] == vs[vecCount - 1 := Vec(last.base, last.length + 1)];
        count, frames := count + 1, frames + [page.frame];
        return true;
      }
      var first := vecs[0];
      if page.frame + 1 == first.base && page.offset + 1 == offset {
        GrowFirst(vs);
        vecs[0] := Vec(first.base - 1, first.length + 1);
        assert vecs[..vecCount] == vs[0 := Vec(first.base - 1, first.length + 1)];
        offset, count, frames := page.offset, count + 1, [page.frame] + frames;
        return true;
      }
      if (page.offset == offset + count || page.offset + 1 == offset) && vecCount < MAX_VECS {
        AddVector(vs, page.frame);
        if page.offset < offset {
          MakeRoom();
          vecs[0] := Vec(page.frame, 1);
          assert vecs[..vecCount + 1] == [Vec(page.frame, 1)] + vs;
          offset, frames := page.offset, [page.frame] + frames;
        } else {
          vecs[vecCount] := Vec(page.frame, 1);
          assert vecs[..vecCount + 1] == vs + [Vec(page.frame, 1)];
          frames := frames + [page.frame];
        }
        vecCount, count := vecCount + 1, count + 1;
        return true;
      }
      return false;
    }

    /** Moves the vectors one place up. */
    method MakeRoom()
      requires vecs.Length == MAX_VECS && 0 < vecCount < MAX_VECS
      modifies vecs
      ensures forall i | 0 <= i < vecCount :: vecs[i + 1] == old(vecs[..])[i]
    {
      var i := vecCount;
      while i > 0
        invariant 0 <= i <= vecCount
        invariant forall j | i <= j < vecCount :: vecs[j + 1] == old(vecs[..])[j]
        invariant forall j | 0 <= j <= i && j < vecs.Length :: vecs[j] == old(vecs[..])[j]
      {
        vecs[i] := vecs[i - 1];
        i := i - 1;
      }
    }
  }

  // ---- a run ----

  /** What a run knows of a transfer: its cache and its range of offsets. */
  datatype Span = Span(cache: nat, offset: nat, count: nat)

  /** AddPage() took the page: it was next to the range. */
  function Extended(s: Span, page: PageInfo): Span {
    if page.offset == s.offset + s.count then s.(count := s.count + 1)
      else s.(offset := page.offset, count := s.count + 1)
  }

  predicate CanExtend(s: Span, page: PageInfo) {
    page.cache == s.cache && (page.offset == s.offset + s.count || page.offset + 1 == s.offset)
  }

  /** The pages are those of the span, each offset once. */
  ghost predicate Fills(pages: seq<PageInfo>, s: Span) {
    && |pages| == s.count
    && (forall i | 0 <= i < |pages| :: pages[i].cache == s.cache && s.offset <= pages[i].offset < s.offset + s.count)
    && (forall i, j | 0 <= i < j < |pages| :: pages[i].offset != pages[j].offset)
  }

  /** The pages of the run, in the order they were added, are those of its transfers one after the other. */
  ghost predicate Partitions(pages: seq<PageInfo>, spans: seq<Span>)
    decreases spans
  {
    if spans == [] then pages == []
    else
      var s := spans[|spans| - 1];
      s.count <= |pages| && Fills(pages[|pages| - s.count..], s)
        && Partitions(pages[..|pages| - s.count], spans[..|spans| - 1])
  }

  ghost function Total(spans: seq<Span>): nat {
    if spans == [] then 0 else Total(spans[..|spans| - 1]) + spans[|spans| - 1].count
  }

  lemma {:induction false} PartitionSize(pages: seq<PageInfo>, spans: seq<Span>)
    requires Partitions(pages, spans)
    ensures |pages| == Total(spans)
    decreases spans
  {
    if spans != [] { PartitionSize(pages[..|pages| - spans[|spans| - 1].count], spans[..|spans| - 1]); }
  }

  /** The first n transfers partition the first pages. */
  lemma {:induction false} PartitionPrefix(pages: seq<PageInfo>, spans: seq<Span>, n: nat)
    requires Partitions(pages, spans) && n <= |spans|
    ensures Total(spans[..n]) <= |pages| && Partitions(pages[..Total(spans[..n])], spans[..n])
    decreases spans
  {
    PartitionSize(pages, spans);
    if n < |spans| {
      var s := spans[|spans| - 1];
      var front, rest := pages[..|pages| - s.count], spans[..|spans| - 1];
      PartitionPrefix(front, rest, n);
      assert rest[..n] == spans[..n];
      assert front[..Total(spans[..n])] == pages[..Total(spans[..n])];
    } else {
      assert spans[..n] == spans && pages[..|pages|] == pages;
    }
  }

  lemma PartitionExtend(pages: seq<PageInfo>, spans: seq<Span>, page: PageInfo)
    requires Partitions(pages, spans) && spans != [] && CanExtend(spans[|spans| - 1], page)
    ensures Partitions(pages + [page], spans[|spans| - 1 := Extended(spans[|spans| - 1], page)])
  {
    var n := |spans| - 1;
    var s, s2 := spans[n], Extended(spans[n], page);
    var own := pages[|pages| - s.count..];
    assert (pages + [page])[|pages| + 1 - s2.count..] == own + [page];
    assert (pages + [page])[..|pages| + 1 - s2.count] == pages[..|pages| - s.count];
    assert spans[n := s2][..n] == spans[..n];
  }

  lemma PartitionNew(pages: seq<PageInfo>, spans: seq<Span>, page: PageInfo)
    requires Partitions(pages, spans)
    ensures Partitions(pages + [page], spans + [Span(page.cache, page.offset, 1)])
  {
    var s := Span(page.cache, page.offset, 1);
    assert (pages + [page])[|pages|..] == [page] && (pages + [page])[..|pages|] == pages;
    assert (spans + [s])[..|spans|] == spans;
  }

  class WriterRun {
    var pages: seq<PageInfo>     // fWrappers
    var spans: seq<Span>         // fTransfers

    ghost predicate Valid()
      reads this
    {
      Partitions(pages, spans)
    }

    constructor ()
      ensures Valid() && pages == [] && spans == []
    {
      pages, spans := [], [];
    }

    /** AddPage; `room` says whether the last transfer still has a vector for a page next to it. */
    method AddPage(page: PageInfo, room: bool)
      requires Valid()
      modifies this
      ensures Valid() && pages == old(pages) + [page]
      ensures spans == if old(spans) != [] && room && CanExtend(old(spans)[|old(spans)| - 1], page)
        then old(spans)[|old(spans)| - 1 := Extended(old(spans)[|old(spans)| - 1], page)]
        else old(spans) + [Span(page.cache, page.offset, 1)]
    {
      if spans == [] || !(room && CanExtend(spans[|spans| - 1], page)) {
        PartitionNew(pages, spans, page);
        spans := spans + [Span(page.cache, page.offset, 1)];
      } else {
        PartitionExtend(pages, spans, page);
        spans := spans[|spans| - 1 := Extended(spans[|spans| - 1], page)];
      }
      pages := pages + [page];
    }

    /**
      The second part of Go: each page ends as the transfer it belongs to says.
      It counts as failed exactly if that transfer did not reach its last page
      and the page is still part of its cache.
    */
    method Finish(io: seq<Io>, shrunk: seq<bool>) returns (fates: seq<Fate>, failed: nat)
      requires Valid() && |io| == |spans| && |shrunk| == |pages|
      ensures |fates| == |pages| && Ended(spans, io, shrunk, fates, |spans|)
      ensures failed == Failures(fates)
    {
      hide Done, Status, Failures, Total, Ended;
      PartitionSize(pages, spans);
      NoneEnded(spans, io, shrunk);
      fates, failed := [], 0;
      for t := 0 to |spans|
        invariant |fates| == Total(spans[..t]) <= |pages| && failed == Failures(fates)
        invariant Ended(spans, io, shrunk, fates, t)
      {
        TotalNext(spans, t);
        ghost var before := fates;
        var more := DoneAll(Status(io[t], spans[t].count), spans[t].count, shrunk[|fates|..]);
        var n := CountModified(more);
        failed := failed + n;
        fates := fates + more;
        FailuresJoin(before, more);
        EndedNext(spans, io, shrunk, before, fates, t);
      }
      assert spans[..|spans|] == spans;
    }
  }

  /** The pages of the first n transfers ended as those say. */
  ghost predicate Ended(spans: seq<Span>, io: seq<Io>, shrunk: seq<bool>, fates: seq<Fate>, n: nat)
    requires n <= |spans| == |io| && |fates| <= |shrunk|
  {
    forall t, i | 0 <= t < n && Total(spans[..t]) <= i < Total(spans[..t + 1]) && i < |fates| ::
      fates[i] == Done(Status(io[t], spans[t].count), shrunk[i])
  }

  lemma NoneEnded(spans: seq<Span>, io: seq<Io>, shrunk: seq<bool>)
    requires |spans| == |io|
    ensures Ended(spans, io, shrunk, [], 0) && Failures([]) == 0 && Total(spans[..0]) == 0
  {
  }

  lemma EndedNext(spans: seq<Span>, io: seq<Io>, shrunk: seq<bool>, fates: seq<Fate>, fates2: seq<Fate>, t: nat)
    requires t < |spans| == |io| && |fates| <= |fates2| <= |shrunk| && Ended(spans, io, shrunk, fates, t)
    requires |fates| == Total(spans[..t]) && fates2[..|fates|] == fates
    requires forall i | |fates| <= i < |fates2| :: fates2[i] == Done(Status(io[t], spans[t].count), shrunk[i])
    ensures Ended(spans, io, shrunk, fates2, t + 1)
  {
    hide Done, Status, Total;
    forall u, i | 0 <= u < t + 1 && Total(spans[..u]) <= i < Total(spans[..u + 1]) && i < |fates2|
      ensures fates2[i] == Done(Status(io[u], spans[u].count), shrunk[i])
    {
      if u < t {
        TotalMonotone(spans, u + 1, t);
        assert fates2[i] == fates2[..|fates|][i] == fates[i];
      }
    }
  }

  lemma TotalNext(spans: seq<Span>, t: nat)
    requires t < |spans|
    ensures Total(spans[..t + 1]) == Total(spans[..t]) + spans[t].count <= Total(spans)
  {
    assert spans[..t + 1][..t] == spans[..t];
    TotalMonotone(spans, t + 1, |spans|);
    assert spans[..|spans|] == spans;
  }

  /** The inner loop of Go: the wrappers of one transfer. */
  method DoneAll(result: int, count: nat, shrunk: seq<bool>) returns (fates: seq<Fate>)
    requires count <= |shrunk|
    ensures |fates| == count && forall i | 0 <= i < count :: fates[i] == Done(result, shrunk[i])
  {
    fates := [];
    for j := 0 to count
      invariant |fates| == j && forall i | 0 <= i < j :: fates[i] == Done(result, shrunk[i])
    {
      fates := fates + [Done(result, shrunk[j])];
    }
  }

  method CountModified(fates: seq<Fate>) returns (n: nat)
    ensures n == Failures(fates)
  {
    n := 0;
    for i := 0 to |fates|
      invariant n == Failures(fates[..i])
    {
      assert fates[..i + 1][..i] == fates[..i];
      if fates[i].StillModified? {
        n := n + 1;
      }
    }
    assert fates[..|fates|] == fates;
  }

  lemma {:induction false} FailuresJoin(a: seq<Fate>, b: seq<Fate>)
    ensures Failures(a + b) == Failures(a) + Failures(b)
  {
    if b == [] {
      assert a + b == a;
    } else {
      assert (a + b)[..|a + b| - 1] == a + b[..|b| - 1];
      FailuresJoin(a, b[..|b| - 1]);
    }
  }

  /** What the I/O of a transfer reports. */
  datatype Io = Io(status: int, transferred: nat)

  const PAGE: nat := 4096

  const EIO: int := -5

  /** SetStatus: at least a part of the last page must have been written. */
  function Status(io: Io, pages: nat): int {
    if io.status == 0 && io.transferred <= (pages - 1) * PAGE then EIO else io.status
  }

  /** What becomes of a page: clean, freed because its cache was shrunk meanwhile, or to be written again. */
  datatype Fate = Written | Freed | StillModified

  /** PageWriteWrapper::Done. */
  function Done(result: int, shrunk: bool): Fate {
    if result == 0 then Written else if shrunk then Freed else StillModified
  }

  ghost function Failures(s: seq<Fate>): nat {
    if s == [] then 0 else Failures(s[..|s| - 1]) + (if s[|s| - 1].StillModified? then 1 else 0)
  }

  /** No page is clean unless it was written at least in part, and all pages before it in full. */
  lemma WrittenInFull(io: Io, pages: nat, k: nat, shrunk: bool)
    requires 0 < pages && k < pages && Done(Status(io, pages), shrunk).Written?
    ensures io.status == 0 && io.transferred > k * PAGE && (k + 1 < pages ==> io.transferred >= (k + 1) * PAGE)
  {
  }

  lemma {:induction false} TotalMonotone(spans: seq<Span>, a: nat, b: nat)
    requires a <= b <= |spans|
    ensures Total(spans[..a]) <= Total(spans[..b])
  {
    if a < b {
      TotalMonotone(spans, a, b - 1);
      assert spans[..b][..b - 1] == spans[..b - 1];
    }
  }

  /** The pages from one transfer's total to the next are exactly that transfer's pages. */
  lemma OwnPages(pages: seq<PageInfo>, spans: seq<Span>, t: nat)
    requires Partitions(pages, spans) && t < |spans|
    ensures Total(spans[..t]) <= Total(spans[..t + 1]) <= |pages|
    ensures Fills(pages[Total(spans[..t])..Total(spans[..t + 1])], spans[t])
  {
    PartitionPrefix(pages, spans, t + 1);
    var front := pages[..Total(spans[..t + 1])];
    assert spans[..t + 1][..t] == spans[..t];
    assert front[|front| - spans[t].count..] == pages[Total(spans[..t])..Total(spans[..t + 1])];
  }

  // ---- a range of modified pages ----

  /** What the walk over a range meets: a page to write, or something that ends the transfer. */
  datatype Visit = Modified(joins: bool) | Gap

  /** A wrapper handed out while others were active. */
  datatype Handed = Handed(wrapper: nat, active: set<nat>)

  /**
    The ring of wrappers of vm_page_write_modified_page_range.  A transfer takes
    at most `max` pages; a wrapper that is handed out is one of the ring's and
    never one that is still active, and at the end none is.
  */
  method WriteRange(visits: seq<Visit>, max: nat) returns (handed: seq<Handed>, active: set<nat>, written: nat)
    requires max > 0
    ensures |handed| == Count(visits)
    ensures forall i | 0 <= i < |handed| :: handed[i].wrapper <= max && handed[i].wrapper !in handed[i].active
    ensures active == {} && written == Count(visits)
  {
    var next, used: seq<nat> := 0, [];
    handed, active, written := [], {}, 0;
    for i := 0 to |visits|
      invariant next <= max && |used| <= max && RingOk(next, used, max) && active == Members(used)
      invariant written + |used| == Count(visits[..i]) == |handed|
      invariant forall k | 0 <= k < |handed| :: handed[k].wrapper <= max && handed[k].wrapper !in handed[k].active
    {
      assert visits[..i + 1][..i] == visits[..i];
      if visits[i].Modified? {
        RingFree(next, used, max);
        var wrapper := next;
        handed := handed + [Handed(wrapper, active)];
        next := if next + 1 > max then 0 else next + 1;
        active := active + {wrapper};
        if used == [] || (visits[i].joins && |used| < max) {
          RingPush(wrapper, used, max);
          used := used + [wrapper];
        } else {
          written := written + |used|;
          active := active - Members(used);
          RingRestart(wrapper, used, max);
          used := [wrapper];
        }
      } else {
        written := written + |used|;
        active := active - Members(used);
        used := [];
      }
    }
    assert visits[..|visits|] == visits;
    written := written + |used|;
    active := active - Members(used);
  }

  ghost function Count(visits: seq<Visit>): nat {
    if visits == [] then 0 else Count(visits[..|visits| - 1]) + (if visits[|visits| - 1].Modified? then 1 else 0)
  }

  function Members(s: seq<nat>): set<nat> { set x | x in s }

  /** The active wrappers are the ones just before `next`, in order, around the ring of max + 1. */
  ghost predicate RingOk(next: nat, used: seq<nat>, max: nat) {
    forall i | 0 <= i < |used| :: used[i] == (next + (max + 1) - (|used| - i)) % (max + 1)
  }

  lemma Mod(a: nat, b: nat)
    requires 0 < b && a < 2 * b
    ensures a % b == if a < b then a else a - b
  {
  }

  lemma RingFree(next: nat, used: seq<nat>, max: nat)
    requires next <= max && |used| <= max && RingOk(next, used, max)
    ensures next !in Members(used)
  {
    forall i | 0 <= i < |used| ensures used[i] != next {
      Mod(next + (max + 1) - (|used| - i), max + 1);
    }
  }

  lemma RingPush(next: nat, used: seq<nat>, max: nat)
    requires next <= max && |used| < max && RingOk(next, used, max)
    ensures var after := if next + 1 > max then 0 else next + 1;
      RingOk(after, used + [next], max) && Members(used + [next]) == Members(used) + {next}
  {
    var after := if next + 1 > max then 0 else next + 1;
    var u := used + [next];
    forall i | 0 <= i < |u| ensures u[i] == (after + (max + 1) - (|u| - i)) % (max + 1) {
      Mod(next + (max + 1) - (|used| - i), max + 1);
      Mod(after + (max + 1) - (|u| - i), max + 1);
    }
  }

  lemma RingRestart(next: nat, used: seq<nat>, max: nat)
    requires next <= max && |used| <= max && RingOk(next, used, max) && max > 0
    ensures var after := if next + 1 > max then 0 else next + 1; RingOk(after, [next], max)
    ensures Members(used) + {next} - Members(used) == Members([next])
  {
    var after := if next + 1 > max then 0 else next + 1;
    Mod(after + (max + 1) - 1, max + 1);
    RingFree(next, used, max);
  }
}
