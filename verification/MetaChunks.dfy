/**
  Meta chunks of the slab memory manager (slab/mm_manager.cpp, mm_manager.h): a
  run of memory cut into equal chunks, with a free list threaded through the
  chunk records and "some" range of free chunks kept for multi-chunk requests.
  Sizes and addresses are in pages.
*/
module MetaChunks {
  import opened Options
  import opened Arithmetic
  import opened Sequences

  /** A chunk record: the next free chunk, or what a used chunk refers to. */
  datatype Link = Next(next: Option<nat>) | InUse(reference: nat)

  // ---- the word a record holds ----

  /** Bytes of a chunk record, which is one word: a pointer or a reference. */
  const RECORD: nat := 8

  /** The pointer to a chunk record in the array at `records`. */
  function Pointer(records: nat, next: Option<nat>): nat {
    if next.None? then 0 else records + next.value * RECORD
  }

  /** The record such a pointer leads to. */
  function Target(records: nat, word: nat): Option<nat>
    requires word == 0 || records <= word
  {
    if word == 0 then None else Some((word - records) / RECORD)
  }

  function Word(records: nat, link: Link): nat {
    if link.Next? then Pointer(records, link.next) else link.reference
  }

  /** The pointer test of _IsChunkFree. */
  predicate IsFreeWord(records: nat, count: nat, word: nat) {
    word == 0 || records <= word < records + count * RECORD
  }

  lemma TargetOf(records: nat, next: Option<nat>)
    requires records > 0
    ensures var word := Pointer(records, next);
      (word == 0 || records <= word) && Target(records, word) == next
  {
  }

  /** The test tells free chunks from used ones exactly as long as no reference is null or points into the records. */
  lemma FreeTestDecides(records: nat, count: nat, link: Link)
    requires records > 0 && (link.Next? && link.next.Some? ==> link.next.value < count)
    ensures (IsFreeWord(records, count, Word(records, link)) <==> link.Next?) <==>
              (link.InUse? ==> !IsFreeWord(records, count, link.reference))
  {
  }

  /** The words are those of the links, and no reference looks like a link. */
  ghost predicate Worded(records: nat, words: seq<nat>, chunks: seq<Link>) {
    && |words| == |chunks| && records > 1
    && (forall i | 0 <= i < |chunks| :: words[i] == Word(records, chunks[i]))
    && forall i | 0 <= i < |chunks| && chunks[i].InUse? :: !IsFreeWord(records, |chunks|, chunks[i].reference)
  }

  lemma WordedSet(records: nat, words: seq<nat>, chunks: seq<Link>, i: nat, link: Link)
    requires Worded(records, words, chunks) && i < |chunks|
    requires link.InUse? ==> !IsFreeWord(records, |chunks|, link.reference)
    ensures |words| == |chunks| && Worded(records, words[i := Word(records, link)], chunks[i := link])
  {
  }

  /** Reading a link through the word. */
  lemma WordedNext(records: nat, words: seq<nat>, chunks: seq<Link>, i: nat)
    requires Worded(records, words, chunks) && i < |chunks| && chunks[i].Next?
    ensures |words| == |chunks| && words[i] == Pointer(records, chunks[i].next)
    ensures (words[i] == 0 || records <= words[i]) && Target(records, words[i]) == chunks[i].next
  {
    TargetOf(records, chunks[i].next);
  }

  /** A chunk on the list links to a chunk or ends the list. */
  lemma {:induction false} ChainTarget(chunks: seq<Link>, head: Option<nat>, free: seq<nat>, i: nat)
    requires Chain(chunks, head, free) && i in free
    ensures i < |chunks| && chunks[i].Next? && (chunks[i].next.Some? ==> chunks[i].next.value < |chunks|)
    decreases free
  {
    if i == free[0] {
      assert Chain(chunks, chunks[i].next, free[1..]);
    } else {
      assert free == [free[0]] + free[1..];
      ChainTarget(chunks, chunks[free[0]].next, free[1..], i);
    }
  }

  /** So the test finds exactly the chunks on the list. */
  lemma FreeTestFinds(records: nat, words: seq<nat>, chunks: seq<Link>, head: Option<nat>, free: seq<nat>, i: nat)
    requires Worded(records, words, chunks) && Chain(chunks, head, free) && Marked(chunks, free) && i < |chunks|
    ensures |words| == |chunks| && (IsFreeWord(records, |chunks|, words[i]) <==> i in free)
  {
    if i in free { ChainTarget(chunks, head, free, i); }
    FreeTestDecides(records, |chunks|, chunks[i]);
  }

  // ---- the free list as a sequence ----

  /** From `head` on, the chunk records thread the sequence: each free chunk names the next one. */
  ghost predicate Chain(chunks: seq<Link>, head: Option<nat>, free: seq<nat>)
    decreases free
  {
    if free == [] then head == None
    else
      && head == Some(free[0]) && free[0] < |chunks| && chunks[free[0]].Next?
      && Chain(chunks, chunks[free[0]].next, free[1..])
  }

  /** Exactly the free chunks have links. */
  ghost predicate Marked(chunks: seq<Link>, free: seq<nat>) {
    forall i | 0 <= i < |chunks| :: chunks[i].Next? <==> i in free
  }

  lemma {:induction false} ChainSame(chunks: seq<Link>, head: Option<nat>, free: seq<nat>, x: nat, v: Link)
    requires Chain(chunks, head, free) && x < |chunks| && x !in free
    ensures Chain(chunks[x := v], head, free)
    decreases free
  {
    if free != [] {
      assert free == [free[0]] + free[1..];
      ChainSame(chunks, chunks[free[0]].next, free[1..], x, v);
    }
  }

  /** Pushing a chunk. */
  lemma ChainPush(chunks: seq<Link>, head: Option<nat>, free: seq<nat>, x: nat)
    requires Chain(chunks, head, free) && x < |chunks| && x !in free
    ensures Chain(chunks[x := Next(head)], Some(x), [x] + free)
  {
    ChainSame(chunks, head, free, x, Next(head));
    assert ([x] + free)[1..] == free;
  }

  /** Popping a chunk. */
  lemma ChainPop(chunks: seq<Link>, head: Option<nat>, free: seq<nat>, v: Link)
    requires Chain(chunks, head, free) && free != [] && Distinct(free)
    ensures head == Some(free[0]) && free[0] < |chunks| && chunks[free[0]].Next?
    ensures Chain(chunks[free[0] := v], chunks[free[0]].next, free[1..])
  {
    assert free == [free[0]] + free[1..];
    ChainSame(chunks, chunks[free[0]].next, free[1..], free[0], v);
  }

  /** In the middle of the list: the record before `rest` names its first chunk. */
  lemma {:induction false} ChainAt(chunks: seq<Link>, head: Option<nat>, done: seq<nat>, rest: seq<nat>)
    requires Chain(chunks, head, done + rest) && rest != []
    ensures rest[0] < |chunks| && chunks[rest[0]].Next?
    ensures done == [] ==> head == Some(rest[0])
    ensures done != [] ==> done[|done| - 1] < |chunks| && chunks[done[|done| - 1]] == Next(Some(rest[0]))
    decreases done
  {
    if done != [] {
      var all := done + rest;
      assert all[0] == done[0] && all[1..] == done[1..] + rest;
      ChainAt(chunks, chunks[done[0]].next, done[1..], rest);
    }
  }

  /** Unlinking the first chunk of `rest` through the record before it. */
  lemma {:induction false} ChainUnlink(chunks: seq<Link>, head: Option<nat>, done: seq<nat>, rest: seq<nat>, v: Link)
    requires Chain(chunks, head, done + rest) && rest != [] && done != [] && Distinct(done + rest)
    requires done[|done| - 1] < |chunks| && rest[0] < |chunks| && chunks[rest[0]].Next?
    ensures Chain(chunks[done[|done| - 1] := Next(chunks[rest[0]].next)][rest[0] := v], head, done + rest[1..])
    decreases done
  {
    var all := done + rest;
    var p := done[|done| - 1];
    var c2 := chunks[p := Next(chunks[rest[0]].next)][rest[0] := v];
    assert all[0] == done[0] && all[1..] == done[1..] + rest && (done + rest[1..])[1..] == done[1..] + rest[1..];
    assert all[|done|] == rest[0] && all[|done| - 1] == p;
    if |done| == 1 {
      assert done[1..] + rest == rest && done[1..] + rest[1..] == rest[1..];
      var tail := rest[1..];
      assert forall x | x in tail :: x != p && x != rest[0] by {
        assert forall k | 0 <= k < |tail| :: tail[k] == all[|done| + 1 + k];
      }
      ChainSame(chunks, chunks[rest[0]].next, tail, p, Next(chunks[rest[0]].next));
      ChainSame(chunks[p := Next(chunks[rest[0]].next)], chunks[rest[0]].next, tail, rest[0], v);
    } else {
      assert Distinct(done[1..] + rest) by { assert forall k | 0 <= k < |all| - 1 ::
        (done[1..] + rest)[k] == all[k + 1]; }
      ChainUnlink(chunks, chunks[done[0]].next, done[1..], rest, v);
      assert done[1..][|done| - 2] == p;
      assert done[0] != p && done[0] != rest[0];
    }
  }

  /** The value of a meta chunk: its free list in order, and the cached range. */
  datatype Meta = Meta(size: nat, count: nat, used: nat, first: nat, last: int, free: seq<nat>)

  /**
    The free list holds each unused chunk exactly once, the use count is exact,
    and every chunk of the cached range is free.
  */
  ghost predicate MetaOk(m: Meta) {
    && Distinct(m.free) && (forall i | i in m.free :: i < m.count)
    && m.used + |m.free| == m.count
    && m.first <= m.last + 1 <= m.count
    && forall i | m.first <= i <= m.last :: i in m.free
  }

  // ---- taking one chunk ----

  /** The range without chunk i: the shorter side is given up. */
  function RangeWithout(m: Meta, i: nat): (nat, int) {
    if m.first <= i <= m.last then
      if i - m.first <= m.last - i then (i + 1, m.last) else (m.first, i - 1)
    else (m.first, m.last)
  }

  function TakeOne(m: Meta): Meta
    requires m.free != []
  {
    var r := RangeWithout(m, m.free[0]);
    m.(used := m.used + 1, free := m.free[1..], first := r.0, last := r.1)
  }

  lemma TakeOneOk(m: Meta)
    requires MetaOk(m) && m.free != []
    ensures MetaOk(TakeOne(m)) && m.free[0] !in TakeOne(m).free
    ensures forall i :: i in m.free <==> i == m.free[0] || i in TakeOne(m).free
  {
    var t := TakeOne(m);
    assert m.free == [m.free[0]] + m.free[1..];
    assert forall i | i in t.free :: i in m.free;
    forall i | t.first <= i <= t.last ensures i in t.free {
      assert i in m.free && i != m.free[0];
    }
  }

  // ---- taking a run ----

  /** The chunks that are not among the n from `first` on, in order. */
  function Outside(s: seq<nat>, first: nat, n: nat): seq<nat> {
    if s == [] then []
    else (if first <= s[0] < first + n then [] else [s[0]]) + Outside(s[1..], first, n)
  }

  function TakeRun(m: Meta, n: nat): Meta {
    m.(used := m.used + n, free := Outside(m.free, m.first, n), first := m.first + n)
  }

  lemma {:induction false} OutsideIs(s: seq<nat>, first: nat, n: nat)
    ensures forall i :: i in Outside(s, first, n) <==> i in s && !(first <= i < first + n)
    ensures Distinct(s) ==> Distinct(Outside(s, first, n))
  {
    if s != [] {
      OutsideIs(s[1..], first, n);
      assert s == [s[0]] + s[1..];
      var w := Outside(s[1..], first, n);
      if Distinct(s) {
        assert Distinct(s[1..]) && s[0] !in s[1..];
        assert s[0] !in w;
      }
    }
  }

  /** Taking n chunks that are all on the list, each once, makes it n shorter. */
  lemma {:induction false} OutsideLength(s: seq<nat>, first: nat, n: nat)
    requires Distinct(s) && forall i | first <= i < first + n :: i in s
    ensures |Outside(s, first, n)| + n == |s|
    decreases n
  {
    hide Outside, Distinct;
    if n == 0 {
      OutsideNothing(s, first);
    } else {
      var x := first + n - 1;
      assert x in s;
      OutsideLength(s, first, n - 1);
      OutsideMore(s, first, n - 1);
      OutsideIs(s, first, n - 1);
      OutsideOne(Outside(s, first, n - 1), x);
    }
  }

  lemma {:induction false} OutsideNothing(s: seq<nat>, first: nat)
    ensures Outside(s, first, 0) == s
  {
    if s != [] { OutsideNothing(s[1..], first); }
  }

  lemma {:induction false} OutsideMore(s: seq<nat>, first: nat, n: nat)
    ensures Outside(s, first, n + 1) == Outside(Outside(s, first, n), first + n, 1)
  {
    if s != [] {
      OutsideMore(s[1..], first, n);
      var w := Outside(s[1..], first, n);
      assert Outside(s, first, n) == if first <= s[0] < first + n then w else [s[0]] + w;
      assert ([s[0]] + w)[1..] == w;
    }
  }

  lemma {:induction false} OutsideOne(s: seq<nat>, x: nat)
    requires Distinct(s) && x in s
    ensures |Outside(s, x, 1)| + 1 == |s|
  {
    if s[0] == x {
      OutsideAbsent(s[1..], x);
    } else {
      assert s == [s[0]] + s[1..];
      OutsideOne(s[1..], x);
    }
  }

  lemma {:induction false} OutsideAbsent(s: seq<nat>, x: nat)
    requires x !in s
    ensures Outside(s, x, 1) == s
  {
    if s != [] {
      assert s == [s[0]] + s[1..];
      OutsideAbsent(s[1..], x);
    }
  }

  lemma TakeRunOk(m: Meta, n: nat)
    requires MetaOk(m) && m.first + n <= m.last + 1
    ensures MetaOk(TakeRun(m, n))
    ensures forall i :: i in m.free <==> m.first <= i < m.first + n || i in TakeRun(m, n).free
  {
    OutsideIs(m.free, m.first, n);
    OutsideLength(m.free, m.first, n);
  }

  // ---- giving a chunk back ----

  /** The lowest chunk from which all up to i are free. */
  function LowestFree(free: seq<nat>, i: nat): (r: nat)
    ensures r <= i && (forall k | r <= k < i :: k in free) && (r == 0 || r - 1 !in free)
  {
    if i > 0 && i - 1 in free then LowestFree(free, i - 1) else i
  }

  /** The highest chunk below `count` up to which all from i are free. */
  function HighestFree(free: seq<nat>, i: nat, count: nat): (r: nat)
    requires i < count
    ensures i <= r < count && (forall k | i < k <= r :: k in free) && (r + 1 == count || r + 1 !in free)
    decreases count - i
  {
    if i + 1 < count && i + 1 in free then HighestFree(free, i + 1, count) else i
  }

  /** The range when chunk i, now on the list, was freed; once no chunk is used it is left alone. */
  function RangeWith(m: Meta, free: seq<nat>, i: nat): (nat, int)
    requires i < m.count
  {
    if m.used == 1 then (m.first, m.last)
    else if m.used == m.count then (i, i)
    else if i + 1 == m.first then (LowestFree(free, i), m.last)
    else if i == m.last + 1 then (m.first, HighestFree(free, i, m.count))
    else (m.first, m.last)
  }

  function Put(m: Meta, i: nat): Meta
    requires i < m.count
  {
    var free := [i] + m.free;
    var r := RangeWith(m, free, i);
    m.(used := if m.used > 0 then m.used - 1 else 0, free := free, first := r.0, last := r.1)
  }

  lemma PutOk(m: Meta, i: nat)
    requires MetaOk(m) && i < m.count && i !in m.free
    ensures m.used > 0 && MetaOk(Put(m, i))
    ensures forall k :: k in Put(m, i).free <==> k == i || k in m.free
  {
    UsedPositive(m, i);
    var p := Put(m, i);
    assert forall k :: k in p.free <==> k == i || k in m.free;
    forall k | p.first <= k <= p.last ensures k in p.free {
      assert m.first <= k <= m.last ==> k in m.free;
    }
  }

  /** A chunk that is not on the list is in use. */
  lemma UsedPositive(m: Meta, i: nat)
    requires MetaOk(m) && i < m.count && i !in m.free
    ensures m.used > 0
  {
    Pigeonhole(m.free, m.count);
  }

  lemma {:induction false} Pigeonhole(s: seq<nat>, n: nat)
    requires Distinct(s) && forall x | x in s :: x < n
    ensures |s| <= n && (|s| == n ==> forall i | 0 <= i < n :: i in s)
    decreases n
  {
    assert s == [] || s[0] in s;
    if n > 0 {
      var t := Outside(s, n - 1, 1);
      OutsideIs(s, n - 1, 1);
      Pigeonhole(t, n - 1);
      if n - 1 in s { OutsideOne(s, n - 1); } else { OutsideAbsent(s, n - 1); }
    }
  }

  // ---- the records ----

  /** How many chunks of a list are among the n from `first` on. */
  ghost function Hits(s: seq<nat>, first: nat, n: nat): nat {
    if s == [] then 0 else (if first <= s[0] < first + n then 1 else 0) + Hits(s[1..], first, n)
  }

  lemma {:induction false} HitsAre(s: seq<nat>, first: nat, n: nat)
    ensures |Outside(s, first, n)| + Hits(s, first, n) == |s|
    ensures Hits(s, first, n) == 0 ==> Outside(s, first, n) == s
  {
    if s != [] { HitsAre(s[1..], first, n); }
  }

  lemma {:induction false} OutsideJoin(a: seq<nat>, b: seq<nat>, first: nat, n: nat)
    ensures Outside(a + b, first, n) == Outside(a, first, n) + Outside(b, first, n)
  {
    hide Outside;
    if a == [] {
      assert a + b == b;
      OutsideNone(first, n);
    } else {
      assert (a + b)[1..] == a[1..] + b;
      OutsideCons(a, first, n);
      OutsideCons(a + b, first, n);
      OutsideJoin(a[1..], b, first, n);
    }
  }

  lemma OutsideNone(first: nat, n: nat)
    ensures Outside([], first, n) == []
  {
  }

  lemma OutsideCons(s: seq<nat>, first: nat, n: nat)
    requires s != []
    ensures Outside(s, first, n) == (if first <= s[0] < first + n then [] else [s[0]]) + Outside(s[1..], first, n)
  {
  }

  /** State of the unlinking loop of _GetChunks: `done` was passed over, `rest` is still to come. */
  ghost predicate Unlinking(was: seq<nat>, first: nat, n: nat, chunks: seq<Link>, head: Option<nat>,
                            done: seq<nat>, rest: seq<nat>, remaining: nat) {
    && Chain(chunks, head, done + rest) && Marked(chunks, done + rest) && Distinct(done + rest)
    && Outside(done, first, n) == done && Hits(rest, first, n) == remaining
    && done + Outside(rest, first, n) == Outside(was, first, n)
  }

  ghost function PointerAfter(done: seq<nat>): Option<nat> { if done == [] then None else Some(done[|done| - 1]) }

  lemma UnlinkStart(m: Meta, n: nat, chunks: seq<Link>, head: Option<nat>)
    requires MetaOk(m) && m.first + n <= m.last + 1 && Chain(chunks, head, m.free) && Marked(chunks, m.free)
    ensures Unlinking(m.free, m.first, n, chunks, head, [], m.free, n)
  {
    assert [] + m.free == m.free;
    OutsideLength(m.free, m.first, n);
    HitsAre(m.free, m.first, n);
  }

  lemma UnlinkPass(was: seq<nat>, first: nat, n: nat, chunks: seq<Link>, head: Option<nat>, done: seq<nat>,
                   rest: seq<nat>, remaining: nat)
    requires Unlinking(was, first, n, chunks, head, done, rest, remaining) && rest != []
    requires !(first <= rest[0] < first + n)
    ensures Unlinking(was, first, n, chunks, head, done + [rest[0]], rest[1..], remaining)
  {
    assert done + [rest[0]] + rest[1..] == done + rest;
    OutsideJoin(done, [rest[0]], first, n);
    assert Outside([rest[0]], first, n) == [rest[0]] by { assert [rest[0]][1..] == []; }
  }

  lemma DropMiddle(done: seq<nat>, rest: seq<nat>)
    requires rest != [] && Distinct(done + rest)
    ensures Distinct(done + rest[1..]) && rest[0] !in done + rest[1..]
    ensures forall x :: x in done + rest <==> x == rest[0] || x in done + rest[1..]
  {
    var all, all2 := done + rest, done + rest[1..];
    assert all == done + [rest[0]] + rest[1..] && all[|done|] == rest[0];
    forall k | 0 <= k < |all2| ensures all2[k] == all[if k < |done| then k else k + 1] {
    }
    forall i, j | 0 <= i < j < |all2| ensures all2[i] != all2[j] {
      assert all2[i] == all[if i < |done| then i else i + 1] && all2[j] == all[if j < |done| then j else j + 1];
    }
    forall x | x in all2 ensures x != rest[0] {
      var k :| 0 <= k < |all2| && all2[k] == x;
      assert all2[k] == all[if k < |done| then k else k + 1];
    }
  }

  lemma UnlinkTake(was: seq<nat>, first: nat, n: nat, chunks: seq<Link>, head: Option<nat>, done: seq<nat>,
                   rest: seq<nat>, remaining: nat)
    requires Unlinking(was, first, n, chunks, head, done, rest, remaining) && rest != [] && first <= rest[0] < first + n
    ensures remaining > 0 && rest[0] < |chunks| && chunks[rest[0]].Next?
    ensures done != [] ==> done[|done| - 1] < |chunks| && done[|done| - 1] != rest[0]
    ensures var next := chunks[rest[0]].next;
      var chunks1 := if done == [] then chunks else chunks[done[|done| - 1] := Next(next)];
      var head1 := if done == [] then next else head;
      Unlinking(was, first, n, chunks1[rest[0] := InUse(1)], head1, done, rest[1..], remaining - 1)
  {
    ChainAt(chunks, head, done, rest);
    var all, all2 := done + rest, done + rest[1..];
    DropMiddle(done, rest);
    if done == [] {
      assert all == rest && all2 == rest[1..];
      ChainPop(chunks, head, rest, InUse(1));
    } else {
      ChainUnlink(chunks, head, done, rest, InUse(1));
      assert done[|done| - 1] in all2;
    }
  }

  lemma UnlinkEnd(was: seq<nat>, first: nat, n: nat, chunks: seq<Link>, head: Option<nat>, done: seq<nat>,
                  rest: seq<nat>)
    requires Unlinking(was, first, n, chunks, head, done, rest, 0)
    ensures Chain(chunks, head, Outside(was, first, n)) && Marked(chunks, Outside(was, first, n))
  {
    HitsAre(rest, first, n);
  }

  class MetaChunk {
    var size: nat                    // chunkSize
    var count: nat                   // chunkCount
    var used: nat                    // usedChunkCount
    var first: nat                   // firstFreeChunk
    var last: int                    // lastFreeChunk
    var words: seq<nat>              // chunks
    var head: nat                    // freeChunks
    const records: nat               // the address of the chunk records
    ghost var chunks: seq<Link>
    ghost var top: Option<nat>
    ghost var free: seq<nat>

    ghost function View(): Meta
      reads this
    {
      Meta(size, count, used, first, last, free)
    }

    ghost predicate Linked()
      reads `count, `words, `head, `chunks, `top, `free
    {
      && |chunks| == count && Worded(records, words, chunks) && head == Pointer(records, top)
      && Chain(chunks, top, free) && Marked(chunks, free)
    }

    ghost predicate Valid()
      reads this
    {
      Linked() && MetaOk(View())
    }

    /** _PrepareMetaChunk: all chunks free, in order of their addresses. */
    constructor (records: nat, chunkSize: nat, totalSize: nat)
      requires chunkSize > 0 && records > 1
      ensures Valid() && size == chunkSize && count == totalSize / chunkSize && used == 0
      ensures first == 0 && last == count - 1 && |free| == count && forall i | 0 <= i < count :: free[i] == i
    {
      var n := totalSize / chunkSize;
      this.records := records;
      size, count, used := chunkSize, n, 0;
      first, last := 0, n - 1;
      words, chunks := seq(n, _ => 1), seq(n, _ => InUse(1));
      head, top, free := 0, None, [];
      new;
      hide Worded, Chain;
      WordedOnes(records, words, chunks);
      ChainNone(chunks);
      var i := n;
      while i > 0
        invariant 0 <= i <= n == count && |free| == n - i && Linked()
        invariant forall k | 0 <= k < |free| :: free[k] == i + k
        invariant forall x | x in free :: i <= x < n
        invariant size == chunkSize && used == 0 && first == 0 && last == n - 1
      {
        i := i - 1;
        Push(i);
      }
      AllInOrder(free, n);
    }

    /** _push: the chunk goes to the front of the list. */
    method Push(i: nat)
      requires Linked() && i < count && i !in free
      modifies `words, `head, `chunks, `top, `free
      ensures Linked() && free == [i] + old(free)
    {
      hide Chain, Worded, MetaOk;
      WordedSize(records, words, chunks);
      ChainPush(chunks, top, free, i);
      WordedSet(records, words, chunks, i, Next(top));
      words := words[i := head];
      head := records + i * RECORD;
      chunks := chunks[i := Next(top)];
      top, free := Some(i), [i] + free;
    }

    /** _pop: the first chunk leaves the list; its record is a reference from now on. */
    method Pop() returns (chunk: nat)
      requires Linked() && free != [] && Distinct(free)
      modifies `words, `head, `chunks, `top, `free
      ensures Linked() && chunk == old(free[0]) < count && free == old(free)[1..]
    {
      hide Chain, Worded, MetaOk;
      WordedSize(records, words, chunks);
      ChainPop(chunks, top, free, InUse(1));
      WordedNext(records, words, chunks, free[0]);
      WordedSet(records, words, chunks, free[0], InUse(1));
      MarkedPop(chunks, free);
      TargetOf(records, top);
      chunk := Target(records, head).value;
      head := words[chunk];
      words := words[chunk := 1];
      top := chunks[chunk].next;
      chunks := chunks[chunk := InUse(1)];
      free := free[1..];
    }

    /** The chunk part of _GetChunk. */
    method Take() returns (chunk: nat)
      requires Valid() && free != []
      modifies this
      ensures Valid() && View() == TakeOne(old(View())) && chunk == old(free[0])
    {
      hide Linked, MetaOk;
      TakeOneOk(View());
      MetaDistinct(View());
      used := used + 1;
      chunk := Pop();
      if first <= chunk <= last {
        if chunk - first <= last - chunk {
          first := chunk + 1;
        } else {
          last := chunk - 1;
        }
      }
    }

    /** A used chunk's record is given its reference: the object cache, or the end of a raw allocation. */
    method Refer(chunk: nat, reference: nat)
      requires Valid() && chunk < count && chunk !in free && !IsFreeWord(records, count, reference)
      modifies `words, `chunks
      ensures Valid() && words == old(words)[chunk := reference]
    {
      hide Chain, MetaOk, Worded;
      WordedSize(records, words, chunks);
      WordedSet(records, words, chunks, chunk, InUse(reference));
      ChainSame(chunks, top, free, chunk, InUse(reference));
      words, chunks := words[chunk := reference], chunks[chunk := InUse(reference)];
    }

    /**
      The chunk part of _GetChunks: n chunks from the start of the cached range
      are unlinked wherever they are on the free list.  The walk never runs off
      the list, since all of them are on it.
    */
    method TakeMany(n: nat) returns (chunk: nat)
      requires Valid() && first + n <= last + 1
      modifies this
      ensures Valid() && View() == TakeRun(old(View()), n) && chunk == old(first)
    {
      hide Unlinking, Outside, Hits, Chain, Marked, Worded, MetaOk;
      TakeRunOk(View(), n);
      UnlinkStart(View(), n, chunks, top);
      ghost var done: seq<nat>, rest: seq<nat> := [], free;
      var pointer: Option<nat> := None;      // the record that points to the next chunk, or the list head
      var remaining := n;
      while remaining > 0
        invariant Unlinking(free, first, n, chunks, top, done, rest, remaining) && |chunks| == count
        invariant Worded(records, words, chunks) && head == Pointer(records, top)
        invariant pointer == PointerAfter(done) && View() == old(View())
        decreases |rest|
      {
        UnlinkMore(free, first, n, chunks, top, done, rest, remaining);
        WordedSize(records, words, chunks);
        TargetOf(records, top);
        if pointer.Some? { WordedNext(records, words, chunks, pointer.value); }
        var c := Target(records, if pointer.None? then head else words[pointer.value]).value;
        if first <= c < first + n {
          UnlinkTake(free, first, n, chunks, top, done, rest, remaining);
          Unlink(pointer, c);
          rest := rest[1..];
          remaining := remaining - 1;
        } else {
          UnlinkPass(free, first, n, chunks, top, done, rest, remaining);
          done, rest := done + [c], rest[1..];
          pointer := Some(c);
        }
      }
      UnlinkEnd(free, first, n, chunks, top, done, rest);
      free := Outside(free, first, n);
      used := used + n;
      chunk := first;
      first := first + n;
    }

    /** What points to chunk c points past it, and its record becomes a reference. */
    method Unlink(pointer: Option<nat>, c: nat)
      requires |chunks| == count && Worded(records, words, chunks) && head == Pointer(records, top)
      requires c < count && chunks[c].Next? && (pointer.Some? ==> pointer.value < count && pointer.value != c)
      modifies `words, `head, `chunks, `top
      ensures Worded(records, words, chunks) && head == Pointer(records, top)
      ensures top == if pointer.None? then old(chunks[c].next) else old(top)
      ensures var linked := if pointer.None? then old(chunks)
        else old(chunks)[pointer.value := Next(old(chunks[c].next))];
        chunks == linked[c := InUse(1)]
    {
      hide Worded;
      WordedNext(records, words, chunks, c);
      if pointer.None? {
        head, top := words[c], chunks[c].next;
      } else {
        WordedSet(records, words, chunks, pointer.value, Next(chunks[c].next));
        words := words[pointer.value := words[c]];
        chunks := chunks[pointer.value := Next(chunks[c].next)];
      }
      WordedSize(records, words, chunks);
      WordedSet(records, words, chunks, c, InUse(1));
      words, chunks := words[c := 1], chunks[c := InUse(1)];
    }

    /**
      The chunk part of _FreeChunk: the chunk goes to the front of the list, and
      the cached range becomes that chunk if there was none free before, or is
      extended over all free chunks next to it.
    */
    method Give(chunk: nat)
      requires Valid() && chunk < count && chunk !in free
      modifies this
      ensures Valid() && View() == Put(old(View()), chunk)
    {
      hide Linked, MetaOk;
      PutOk(View(), chunk);
      Push(chunk);
      used := used - 1;
      if used > 0 {
        if used + 1 == count {
          first, last := chunk, chunk;
        } else if chunk + 1 == first {
          first := ScanDown(chunk);
        } else if chunk == last + 1 {
          last := ScanUp(chunk);
        }
      }
    }

    /** The first loop of _FreeChunk: down over free chunks. */
    method ScanDown(chunk: nat) returns (f: nat)
      requires Linked() && chunk < count
      ensures f == LowestFree(free, chunk)
    {
      f := chunk;
      while f > 0
        invariant 0 <= f <= chunk && LowestFree(free, f) == LowestFree(free, chunk)
      {
        FreeTestFinds(records, words, chunks, top, free, f - 1);
        if !IsFreeWord(records, count, words[f - 1]) {
          break;
        }
        f := f - 1;
      }
    }

    /** The second one: up. */
    method ScanUp(chunk: nat) returns (l: nat)
      requires Linked() && chunk < count
      ensures l == HighestFree(free, chunk, count)
    {
      l := chunk;
      while l + 1 < count
        invariant chunk <= l < count && HighestFree(free, l, count) == HighestFree(free, chunk, count)
      {
        FreeTestFinds(records, words, chunks, top, free, l + 1);
        if !IsFreeWord(records, count, words[l + 1]) {
          break;
        }
        l := l + 1;
      }
    }
  }

  lemma WordedSize(records: nat, words: seq<nat>, chunks: seq<Link>)
    requires Worded(records, words, chunks)
    ensures |words| == |chunks| && records > 1
  {
  }

  lemma WordedOnes(records: nat, words: seq<nat>, chunks: seq<Link>)
    requires records > 1 && |words| == |chunks|
    requires forall i | 0 <= i < |chunks| :: words[i] == 1 && chunks[i] == InUse(1)
    ensures Worded(records, words, chunks) && Marked(chunks, [])
  {
  }

  lemma ChainNone(chunks: seq<Link>)
    ensures Chain(chunks, None, [])
  {
  }

  lemma MarkedPop(chunks: seq<Link>, free: seq<nat>)
    requires Marked(chunks, free) && free != [] && Distinct(free) && free[0] < |chunks|
    ensures Marked(chunks[free[0] := InUse(1)], free[1..])
  {
    assert free == [free[0]] + free[1..];
  }

  lemma MetaDistinct(m: Meta)
    requires MetaOk(m)
    ensures Distinct(m.free)
  {
  }

  lemma AllInOrder(list: seq<nat>, n: nat)
    requires |list| == n && forall k | 0 <= k < n :: list[k] == k
    ensures Distinct(list) && (forall i | i in list :: i < n) && forall i | 0 <= i < n :: i in list
  {
    forall i | 0 <= i < n ensures i in list {
      assert list[i] == i;
    }
  }

  /** While chunks remain to be unlinked, the pointer points at one. */
  lemma UnlinkMore(was: seq<nat>, first: nat, n: nat, chunks: seq<Link>, head: Option<nat>, done: seq<nat>,
                   rest: seq<nat>, remaining: nat)
    requires Unlinking(was, first, n, chunks, head, done, rest, remaining) && remaining > 0
    ensures rest != [] && rest[0] < |chunks|
    ensures done == [] ==> head == Some(rest[0])
    ensures done != [] ==> done[|done| - 1] < |chunks| && chunks[done[|done| - 1]] == Next(Some(rest[0]))
  {
    ChainAt(chunks, head, done, rest);
  }

  // ---- addresses ----

  const SMALL: nat := 1

  const MEDIUM: nat := 8

  const LARGE: nat := 32

  /** _ChunkAddress. */
  function ChunkAddress(base: nat, size: nat, i: nat): nat { base + i * size }

  /** _ChunkIndexForAddress. */
  function ChunkIndex(base: nat, size: nat, address: nat): int
    requires size > 0
  {
    (address - base) / size
  }

  /** Any address within a chunk leads back to that chunk; so chunks do not overlap. */
  lemma IndexOfAddress(base: nat, size: nat, i: nat, address: nat)
    requires size > 0 && ChunkAddress(base, size, i) <= address < ChunkAddress(base, size, i) + size
    ensures ChunkIndex(base, size, address) == i
  {
    Quotient(address - base, size, i, address - base - i * size);
  }

  lemma {:induction false} Ordered(a: nat, b: nat, m: nat)
    requires a <= b
    ensures a * m <= b * m
  {
    if a < b { Ordered(a, b - 1, m); }
  }

  /** The unusable start of an area's first meta chunk, in which the area's own records lie. */
  function Unusable(admin: nat, size: nat): nat
    requires size > 0
  {
    (1 + admin + size - 1) / size * size
  }

  /** Where a meta chunk's chunks start, and how much it holds, once prepared. */
  function BaseOf(area: nat, k: nat, admin: nat, size: nat): nat
    requires size > 0
  {
    if k == 0 then area + Unusable(admin, size) else area + k * LARGE
  }

  function TotalOf(k: nat, admin: nat, size: nat): int
    requires size > 0
  {
    if k == 0 then LARGE - Unusable(admin, size) else LARGE
  }

  /** An address inside a chunk of meta chunk k leads back to meta chunk k. */
  lemma MetaOfAddress(area: nat, k: nat, admin: nat, size: nat, i: nat, address: nat)
    requires size > 0 && TotalOf(k, admin, size) >= 0 && i < TotalOf(k, admin, size) / size
    requires ChunkAddress(BaseOf(area, k, admin, size), size, i) <= address < ChunkAddress(BaseOf(area, k, admin, size),
      size, i) + size
    ensures area <= address && (address - area) / LARGE == k
  {
    var total := TotalOf(k, admin, size);
    var n := total / size;
    Ordered(i + 1, n, size);
    assert n * size <= total by { assert total == n * size + total % size; }
    assert (i + 1) * size == i * size + size;
  }

  // ---- raw allocations ----

  /** AllocateRaw: chunk size and count for a size of at most a large chunk. */
  function RawChunk(pages: nat): nat { if pages % MEDIUM == 0 then MEDIUM else SMALL }

  function RawCount(pages: nat): nat { pages / RawChunk(pages) }

  const PAGE: nat := 4096

  /** What AllocateRaw notes in the first chunk: the allocation's last byte. */
  function RawReference(address: nat, pages: nat): int { address * PAGE + pages * PAGE - 1 }

  lemma RawChunks(pages: nat)
    requires 0 < pages <= LARGE
    ensures RawCount(pages) > 0 && RawCount(pages) * RawChunk(pages) == pages
  {
  }

  /** Freeing chunk after chunk, as both raw free loops do. */
  function PutRun(m: Meta, i: nat, n: nat): Meta
    requires i + n <= m.count
    decreases n
  {
    if n == 0 then m else PutRun(Put(m, i), i + 1, n - 1)
  }

  lemma {:induction false} PutRunOk(m: Meta, i: nat, n: nat)
    requires MetaOk(m) && i + n <= m.count && forall k | i <= k < i + n :: k !in m.free
    ensures MetaOk(PutRun(m, i, n)) && PutRun(m, i, n).used + n == m.used && PutRun(m, i, n).count == m.count
    ensures forall k :: k in PutRun(m, i, n).free <==> i <= k < i + n || k in m.free
    decreases n
  {
    if n > 0 {
      PutOk(m, i);
      PutRunOk(Put(m, i), i + 1, n - 1);
    }
  }

  /** A run that is taken and given back leaves the same chunks free. */
  lemma RunRoundTrip(m: Meta, n: nat)
    requires MetaOk(m) && m.first + n <= m.last + 1
    ensures var r := PutRun(TakeRun(m, n), m.first, n);
      MetaOk(r) && r.used == m.used && forall k :: k in r.free <==> k in m.free
  {
    TakeRunOk(m, n);
    OutsideIs(m.free, m.first, n);
    PutRunOk(TakeRun(m, n), m.first, n);
  }
}
