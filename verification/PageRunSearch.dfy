/**
  The search for a run of physical pages (vm_page_allocate_page_run in
  page_alloc.cpp), in one segment: a window of page numbers, an alignment and a
  boundary that the run must not cross.  Numbers are page numbers; masking with
  a power of two is written as division, and the alignment divides the boundary.
*/
module PageRunSearch {
  import opened Options
  import opened Arithmetic

  /** Free and clear pages can be taken; cached ones in a second attempt. */
  datatype PageState = Available | Cached | InUse

  // ---- arithmetic of multiples ----

  lemma DivMonotone(x: nat, y: nat, m: nat)
    requires m > 0 && x <= y
    ensures x / m <= y / m
  {
    DivMod(x, m);
    DivMod(y, m);
    if y / m < x / m { MulLess(y / m, x / m, m); }
  }

  lemma {:induction false} MultipleOfMultiple(q: nat, b: nat, a: nat)
    requires a > 0 && b % a == 0
    ensures q * b % a == 0
  {
    DivMod(b, a);
    var n := b / a;
    assert q * b == q * n * a by { assert b == n * a; MulAssoc(q, n, a); }
    Quotient(q * b, a, q * n, 0);
  }

  lemma MulAssoc(x: nat, y: nat, z: nat)
    ensures x * (y * z) == x * y * z
  {
  }

  // ---- where a run may start ----

  function AlignUp(o: nat, a: nat): nat
    requires a > 0
  {
    (o + a - 1) / a * a
  }

  /** The run of `length` pages from o lies in one block of the boundary; boundary 0 is none. */
  predicate OneBlock(o: nat, length: nat, boundary: nat)
    requires length > 0
  {
    boundary == 0 || o / boundary == (o + length - 1) / boundary
  }

  predicate Admissible(o: nat, length: nat, alignment: nat, boundary: nat)
    requires length > 0 && alignment > 0
  {
    o % alignment == 0 && OneBlock(o, length, boundary)
  }

  /** What the caller must keep to. */
  ghost predicate Sane(length: nat, alignment: nat, boundary: nat) {
    length > 0 && alignment > 0 && (boundary != 0 ==> boundary % alignment == 0 && length <= boundary)
  }

  /** Enforcing alignment, then boundary. */
  function Adjust(o: nat, length: nat, alignment: nat, boundary: nat): nat
    requires length > 0 && alignment > 0
  {
    var up := AlignUp(o, alignment);
    if OneBlock(up, length, boundary) then up else (up + length - 1) / boundary * boundary
  }

  lemma AlignUpIs(o: nat, a: nat)
    requires a > 0
    ensures o <= AlignUp(o, a) < o + a && AlignUp(o, a) % a == 0
    ensures forall s | s >= o && s % a == 0 :: s >= AlignUp(o, a)
  {
    hide AlignUp;
    AlignUpAt(o, a);
    forall s | s >= o && s % a == 0 ensures s >= AlignUp(o, a) {
      AlignUpLeast(o, a, s);
    }
  }

  lemma AlignUpAt(o: nat, a: nat)
    requires a > 0
    ensures o <= AlignUp(o, a) < o + a && AlignUp(o, a) % a == 0
  {
    var q := (o + a - 1) / a;
    DivMod(o + a - 1, a);
    Quotient(q * a, a, q, 0);
  }

  lemma AlignUpLeast(o: nat, a: nat, s: nat)
    requires a > 0 && s >= o && s % a == 0
    ensures s >= AlignUp(o, a)
  {
    DivMod(o + a - 1, a);
    DivMod(s, a);
    NoMultipleBetween(o, a, s, s / a, (o + a - 1) / a, (o + a - 1) % a);
  }

  lemma NoMultipleBetween(o: nat, a: nat, s: nat, t: nat, q: nat, r: nat)
    requires s >= o && s == t * a && o + a - 1 == q * a + r
    ensures s >= q * a
  {
    if t < q { MulLess(t, q, a); }
  }

  /** The start of the block that a run reaches into. */
  lemma BlockStart(up: nat, length: nat, alignment: nat, boundary: nat)
    requires Sane(length, alignment, boundary) && boundary > 0 && !OneBlock(up, length, boundary)
    ensures var r := (up + length - 1) / boundary * boundary;
      r >= up && r % alignment == 0 && OneBlock(r, length, boundary)
  {
    var q := (up + length - 1) / boundary;
    var r := q * boundary;
    BlockAfter(up, up + length - 1, boundary);
    MultipleOfMultiple(q, boundary, alignment);
    Quotient(r, boundary, q, 0);
    Quotient(r + length - 1, boundary, q, length - 1);
  }

  lemma BlockAfter(x: nat, y: nat, m: nat)
    requires m > 0 && x <= y && x / m != y / m
    ensures y / m * m >= x
  {
    DivMonotone(x, y, m);
    DivMod(x, m);
    MulLess(x / m, y / m, m);
  }

  /** Adjust gives the least admissible start from o on. */
  lemma AdjustIs(o: nat, length: nat, alignment: nat, boundary: nat)
    requires Sane(length, alignment, boundary)
    ensures var r := Adjust(o, length, alignment, boundary);
      r >= o && Admissible(r, length, alignment, boundary)
      && forall s | s >= o && Admissible(s, length, alignment, boundary) :: s >= r
  {
    hide AlignUp;
    var up := AlignUp(o, alignment);
    AlignUpIs(o, alignment);
    if !OneBlock(up, length, boundary) {
      BlockStart(up, length, alignment, boundary);
      forall s | s >= o && Admissible(s, length, alignment, boundary)
        ensures s >= (up + length - 1) / boundary * boundary
      {
        BeforeBoundary(s, up, length, boundary, (up + length - 1) / boundary);
      }
    }
  }

  /** A run from before the boundary block's start reaches into it. */
  lemma BeforeBoundary(s: nat, up: nat, length: nat, boundary: nat, q: nat)
    requires boundary > 0 && length > 0 && s >= up && q == (up + length - 1) / boundary
    requires s / boundary == (s + length - 1) / boundary
    ensures s >= q * boundary
  {
    DivMonotone(up + length - 1, s + length - 1, boundary);
    DivMod(s, boundary);
    if s / boundary == q {
    } else {
      MulLess(q, s / boundary, boundary);
    }
  }

  // ---- with a mask of 32 bits ----

  const WORD: nat := 0x1_0000_0000

  /** A power of two divides the word or is a multiple of it. */
  ghost predicate Binary(boundary: nat) { boundary == 0 || WORD % boundary == 0 || boundary % WORD == 0 }

  /** What the boundary mask, which is kept in 32 bits, leaves of a frame number. */
  function Masked(x: nat, boundary: nat): nat
    requires boundary > 0
  {
    x % WORD / boundary * boundary
  }

  /** Enforcing alignment, then boundary, as the search does. */
  function MaskAdjust(o: nat, length: nat, alignment: nat, boundary: nat): nat
    requires length > 0 && alignment > 0
  {
    var up := AlignUp(o, alignment);
    if boundary % WORD == 0 || Masked(up, boundary) == Masked(up + length - 1, boundary) then up
    else Masked(up + length - 1, boundary)
  }

  /** Of larger ones the multiples of the word are lost. */
  lemma MaskedIs(x: nat, boundary: nat)
    requires boundary > 0 && WORD % boundary == 0
    ensures Masked(x, boundary) == x / boundary * boundary - x / WORD * WORD
  {
    var n, k := WORD / boundary, x / WORD;
    var y := x % WORD;
    DivMod(WORD, boundary);
    DivMod(x, WORD);
    DivMod(y, boundary);
    MulAssoc(k, n, boundary);
    assert x == (k * n + y / boundary) * boundary + y % boundary by { Distribute(k * n, y / boundary, boundary); }
    Quotient(x, boundary, k * n + y / boundary, y % boundary);
    Distribute(k * n, y / boundary, boundary);
  }

  lemma Distribute(a: nat, b: nat, m: nat)
    ensures (a + b) * m == a * m + b * m
  {
  }

  /** Two frames of neighbouring blocks stay apart when masked, unless the mask is empty. */
  lemma MaskedApart(x: nat, y: nat, boundary: nat)
    requires 0 < boundary < WORD && WORD % boundary == 0 && x <= y < x + boundary
    ensures Masked(x, boundary) == Masked(y, boundary) <==> x / boundary == y / boundary
  {
    hide Masked;
    MaskedIs(x, boundary);
    MaskedIs(y, boundary);
    DivMod(x, boundary);
    DivMod(y, boundary);
    DivMod(x, WORD);
    DivMod(y, WORD);
    if x / boundary == y / boundary {
      SameWord(x, y, boundary);
    } else {
      DivMonotone(x, y, boundary);
      MulLess(x / boundary, y / boundary, boundary);
      HalfWord(boundary);
      assert y / boundary * boundary - x / boundary * boundary < WORD;
    }
  }

  /** A proper divisor is at most half. */
  lemma HalfWord(boundary: nat)
    requires 0 < boundary < WORD && WORD % boundary == 0
    ensures 2 * boundary <= WORD
  {
    DivMod(WORD, boundary);
    if WORD / boundary < 2 { MulLess(WORD / boundary, 2, boundary); }
  }

  /** A block does not cross a word. */
  lemma SameWord(x: nat, y: nat, boundary: nat)
    requires boundary > 0 && WORD % boundary == 0 && x <= y && x / boundary == y / boundary
    ensures x / WORD == y / WORD
  {
    DivMonotone(x, y, WORD);
    if x / WORD < y / WORD {
      var k := y / WORD * WORD;
      DivMod(x, WORD);
      DivMod(y, WORD);
      MulLess(x / WORD, y / WORD, WORD);
      MultipleOfMultiple(y / WORD, WORD, boundary);
      DivMod(k, boundary);
      Quotient(k, boundary, k / boundary, 0);
      DivMonotone(k, y, boundary);
      DivMod(x, boundary);
      MulLess(x / boundary, x / boundary + 1, boundary);
      assert x < k;
      DivMonotone(x, k, boundary);
    }
  }

  /** The search keeps to the boundary exactly if the run need not move for it or ends below frame 2^32. */
  lemma MaskExact(o: nat, length: nat, alignment: nat, boundary: nat)
    requires Sane(length, alignment, boundary) && Binary(boundary)
    ensures var up := AlignUp(o, alignment);
      MaskAdjust(o, length, alignment, boundary) == Adjust(o, length, alignment, boundary) <==>
        OneBlock(up, length, boundary) || up + length - 1 < WORD
  {
    hide AlignUp, Masked;
    var up := AlignUp(o, alignment);
    var y := up + length - 1;
    if boundary == 0 {
    } else if boundary % WORD == 0 {
      if !OneBlock(up, length, boundary) {
        BlockStart(up, length, alignment, boundary);
        WideBlock(up, y, boundary);
      }
    } else {
      assert boundary < WORD by { if boundary >= WORD { DivMod(WORD, boundary); } }
      MaskedApart(up, y, boundary);
      if !OneBlock(up, length, boundary) {
        MaskedIs(y, boundary);
        DivMod(y, WORD);
        if y >= WORD { DivMonotone(WORD, y, WORD); }
      }
    }
  }

  /** A boundary of a word or more is not enforced, and is crossed only above frame 2^32. */
  lemma WideBlock(x: nat, y: nat, boundary: nat)
    requires boundary > 0 && boundary % WORD == 0 && x <= y && x / boundary != y / boundary
    ensures y >= WORD && y / boundary * boundary > x
  {
    DivMod(boundary, WORD);
    assert boundary >= WORD;
    DivMonotone(x, y, boundary);
    DivMod(x, boundary);
    DivMod(y, boundary);
    MulLess(x / boundary, y / boundary, boundary);
  }

  /** Above it the search can be sent back: a run across a boundary there is to start in the first pages of memory. */
  lemma MaskLosesFrames()
    ensures MaskAdjust(WORD + 255, 2, 1, 256) == 256 && Adjust(WORD + 255, 2, 1, 256) == WORD + 256
  {
    assert (WORD + 255) % WORD == 255 && (WORD + 256) % WORD == 256;
  }

  // ---- the search ----

  datatype Segment = Segment(base: nat, pages: seq<PageState>)

  predicate Takes(p: PageState, useCached: bool) { p.Available? || (p.Cached? && useCached) }

  /** A run the restrictions allow, within the window [from, end) of the segment. */
  ghost predicate Fits(seg: Segment, start: nat, length: nat, from: nat, end: nat, alignment: nat, boundary: nat)
    requires length > 0 && alignment > 0
  {
    from <= start && start + length <= end <= |seg.pages| && Admissible(start + seg.base, length, alignment, boundary)
  }

  /**
    The search proper.  `failures` names pages that could not be allocated
    although they looked takeable (cached pages in use by someone).  A run that
    is returned fits all restrictions and consists of takeable pages.  If there
    is none, every run that fits contains a page that is in use or failed.  If
    there is a boundary, the memory ends below frame 2^32, where its mask is
    exact.
  */
  method FindRun(seg: Segment, length: nat, from: nat, end: nat, alignment: nat, boundary: nat, cachedFirst: bool,
                 failures: set<nat>)
      returns (found: Option<nat>)
    requires Sane(length, alignment, boundary) && Binary(boundary) && end <= |seg.pages|
    requires boundary != 0 ==>
      seg.base + from + alignment + length <= WORD && seg.base + end + alignment + length <= WORD
    ensures found.Some? ==>
      && Fits(seg, found.value, length, from, end, alignment, boundary)
      && forall k | found.value <= k < found.value + length :: Takes(seg.pages[k], true) && k !in failures
    ensures found.None? ==> forall s: nat | Fits(seg, s, length, from, end, alignment, boundary) ::
      exists k | s <= k < s + length :: k < |seg.pages| && (seg.pages[k].InUse? || k in failures)
  {
    hide AlignUp, MaskAdjust, Adjust;
    var useCached, start := cachedFirst, from;
    while true
      invariant from <= start && (start == from || start <= end)
      invariant useCached ==> Cleared(seg, length, from, start, end, alignment, boundary, failures)
      decreases !useCached, end - start
    {
      AdjustIs(start + seg.base, length, alignment, boundary);
      MaskExact(start + seg.base, length, alignment, boundary);
      AlignUpIs(start + seg.base, alignment);
      ghost var was := start;
      start := MaskAdjust(start + seg.base, length, alignment, boundary) - seg.base;
      AdjustCleared(seg, length, from, was, start, end, alignment, boundary, failures, useCached);
      if start + length > end {
        if useCached {
          return None;
        }
        useCached, start := true, from;
        continue;
      }
      var i := FirstMissing(seg, start, length, useCached, failures);
      if i == length {
        return Some(start);
      }
      SkipCleared(seg, length, from, start, i, end, alignment, boundary, failures, useCached);
      start := start + i + 1;
    }
    return None;
  }

  /** The first page of the run that cannot be taken. */
  method FirstMissing(seg: Segment, start: nat, length: nat, useCached: bool, failures: set<nat>) returns (i: nat)
    requires start + length <= |seg.pages|
    ensures i <= length && forall k | start <= k < start + i :: Takes(seg.pages[k], useCached) && k !in failures
    ensures i < length ==> !Takes(seg.pages[start + i], useCached) || start + i in failures
  {
    i := 0;
    while i < length && Takes(seg.pages[start + i], useCached) && start + i !in failures
      invariant i <= length && forall k | start <= k < start + i :: Takes(seg.pages[k], useCached) && k !in failures
    {
      i := i + 1;
    }
  }

  /** Every run that fits and starts before `start` has a page that cannot be taken. */
  ghost predicate Cleared(seg: Segment, length: nat, from: nat, start: nat, end: nat, alignment: nat, boundary: nat,
                          failures: set<nat>)
    requires length > 0 && alignment > 0
  {
    forall s: nat | s < start && Fits(seg, s, length, from, end, alignment, boundary) ::
      exists k | s <= k < s + length :: k < |seg.pages| && (seg.pages[k].InUse? || k in failures)
  }

  lemma AdjustCleared(seg: Segment, length: nat, from: nat, was: nat, start: nat, end: nat, alignment: nat,
                      boundary: nat,
                      failures: set<nat>, useCached: bool)
    requires Sane(length, alignment, boundary) && was <= start
    requires start + seg.base == Adjust(was + seg.base, length, alignment, boundary)
    requires useCached ==> Cleared(seg, length, from, was, end, alignment, boundary, failures)
    ensures useCached ==> Cleared(seg, length, from, start, end, alignment, boundary, failures)
  {
    AdjustIs(was + seg.base, length, alignment, boundary);
    assert forall s: nat | Fits(seg, s, length, from, end, alignment, boundary) && s >= was ::
      s + seg.base >= start + seg.base;
  }

  lemma SkipCleared(seg: Segment, length: nat, from: nat, start: nat, i: nat, end: nat, alignment: nat, boundary: nat,
                    failures: set<nat>, useCached: bool)
    requires length > 0 && alignment > 0 && i < length && start + length <= |seg.pages|
    requires !Takes(seg.pages[start + i], useCached) || start + i in failures
    requires useCached ==> Cleared(seg, length, from, start, end, alignment, boundary, failures)
    ensures useCached ==> Cleared(seg, length, from, start + i + 1, end, alignment, boundary, failures)
  {
    if useCached {
      forall s: nat | s < start + i + 1 && Fits(seg, s, length, from, end, alignment, boundary)
        ensures exists k | s <= k < s + length :: k < |seg.pages| && (seg.pages[k].InUse? || k in failures)
      {
        if s >= start {
          assert s <= start + i < s + length;
        }
      }
    }
  }
}
