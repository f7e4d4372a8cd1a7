/**
  cache_io (cache/fs_cache.cpp): a byte range of a file is read or written page
  by page, from pages in memory where there are some and through a hook for the
  gaps between them.  What the loop meets on its way comes from outside: for
  each turn whether the page is there, whether memory is low, and whether the
  hook succeeds.
*/
module FileCacheIo {

  const PAGE: nat := 4096

  const MAX_IO_VECS: nat := 32

  const BYPASS_IO_SIZE: nat := 65536

  /** What a lookup of the next page finds: nothing, a page, a busy page, or one that is gone on second look. */
  datatype Lookup = Missing | Present | Busy | Vanishing

  datatype Turn = Turn(lookup: Lookup, lowMemory: bool, hookOk: bool)

  /** The hooks: through the cache, or around it. */
  datatype Hook = ReadIntoCache | ReadFromFile | WriteToCache | WriteToFile

  /** Work done: from position `start` of the request, at file offset `offset`. */
  datatype Piece =
    | Copied(start: nat, length: nat, offset: nat)
    | Hooked(hook: Hook, start: nat, length: nat, offset: nat, pages: nat, reserved: nat)

  datatype Outcome = Complete | Failed | Waiting

  function PagesFor(bytes: nat): nat { (bytes + PAGE - 1) / PAGE }

  function Min(a: nat, b: nat): nat { if a < b then a else b }

  function Choose(doWrite: bool, size: nat, lowMemory: bool): Hook {
    if size >= BYPASS_IO_SIZE && lowMemory
    then if doWrite then WriteToFile else ReadFromFile
    else if doWrite then WriteToCache else ReadIntoCache
  }

  /**
    The pieces cover the request from position 0 up to `to` exactly once and in order, each at its
    place in the file.
  */
  ghost predicate Covers(log: seq<Piece>, to: nat, file: nat) {
    if log == [] then to == 0
    else
      var p := log[|log| - 1];
      p.length > 0 && p.start + p.length == to && p.offset == file + p.start && Covers(log[..|log| - 1], p.start, file)
  }

  /** Every hook call stays within the vector array and within the reservation held for it. */
  ghost predicate WithinLimits(log: seq<Piece>) {
    forall i | 0 <= i < |log| && log[i].Hooked? :: log[i].pages <= MAX_IO_VECS && log[i].pages <= log[i].reserved
  }

  /**
    What is reserved after a hook: all hooks give their reservation back and take the next one,
    but one does neither.
  */
  function HeldAfter(hook: Hook, useBuffer: bool, held: nat, next: nat): nat {
    if hook == ReadFromFile && !useBuffer then held else next
  }

  /** Reading past the cache without a buffer does nothing at all, so it cannot fail. */
  predicate CanFail(hook: Hook, useBuffer: bool) { hook != ReadFromFile || useBuffer }

  /** The loop variables: `pos` is `buffer` and `last` is `lastBuffer`, both from the start of the request. */
  datatype Cursor = Cursor(pos: nat, pageOffset: nat, offset: nat, last: nat, lastPageOffset: nat, lastOffset: nat)

  ghost predicate CursorOk(c: Cursor, file: nat, size: nat) {
    && c.last <= c.pos < size
    && c.offset % PAGE == 0 && c.pageOffset < PAGE && c.offset + c.pageOffset == file + c.pos
    && c.lastOffset % PAGE == 0 && c.lastPageOffset < PAGE && c.lastOffset + c.lastPageOffset == file + c.last
    && (c.last < c.pos ==> c.pageOffset == 0)
    && c.pos - c.last + c.lastPageOffset < MAX_IO_VECS * PAGE
  }

  /** The reservation suffices for anything the next hook call can ask. */
  ghost predicate Enough(c: Cursor, size: nat, held: nat) {
    c.last <= size && held >= Min(MAX_IO_VECS, PagesFor(c.lastPageOffset + size - c.last))
  }

  lemma CoversMore(log: seq<Piece>, to: nat, file: nat, p: Piece)
    requires Covers(log, to, file) && p.start == to && p.length > 0 && p.offset == file + to
    ensures Covers(log + [p], to + p.length, file)
  {
    assert (log + [p])[..|log|] == log;
  }

  lemma LimitsMore(log: seq<Piece>, p: Piece)
    requires WithinLimits(log) && (p.Hooked? ==> p.pages <= MAX_IO_VECS && p.pages <= p.reserved)
    ensures WithinLimits(log + [p])
  {
  }

  predicate Holds(p: Piece, b: int) { p.start <= b < p.start + p.length }

  /** Exactly one piece handles each byte of the range covered, and pieces come in order. */
  lemma {:induction false} EachByteOnce(log: seq<Piece>, to: nat, file: nat, b: nat)
    requires Covers(log, to, file)
    ensures b < to ==>
      exists i | 0 <= i < |log| :: Holds(log[i], b) && forall j | 0 <= j < |log| && j != i :: !Holds(log[j], b)
    ensures b >= to ==> forall i | 0 <= i < |log| :: !Holds(log[i], b)
    ensures forall i, j | 0 <= i < j < |log| :: log[i].start + log[i].length <= log[j].start
    ensures forall i | 0 <= i < |log| :: log[i].start + log[i].length <= to
  {
    if log != [] {
      var n := |log| - 1;
      EachByteOnce(log[..n], log[n].start, file, b);
      if b < log[n].start {
        var i :| 0 <= i < n && Holds(log[..n][i], b) && forall j | 0 <= j < n && j != i :: !Holds(log[..n][j], b);
        assert Holds(log[i], b);
        forall j | 0 <= j < |log| && j != i ensures !Holds(log[j], b) {
          if j < n { assert log[j] == log[..n][j]; }
        }
      } else if b < to {
        assert Holds(log[n], b);
        forall j | 0 <= j < n ensures !Holds(log[j], b) {
          assert log[j] == log[..n][j];
        }
      } else {
        forall j | 0 <= j < n ensures !Holds(log[j], b) {
          assert log[j] == log[..n][j];
        }
      }
      forall i, j | 0 <= i < j < |log| ensures log[i].start + log[i].length <= log[j].start {
        assert log[i] == log[..n][i] && (j < n ==> log[j] == log[..n][j]);
      }
      forall i | 0 <= i < |log| ensures log[i].start + log[i].length <= to {
        if i < n { assert log[i] == log[..n][i]; }
      }
    }
  }

  lemma PagesMonotone(a: nat, b: nat)
    requires a <= b
    ensures PagesFor(a) <= PagesFor(b)
  {
  }

  lemma PagesBound(bytes: nat)
    requires bytes <= MAX_IO_VECS * PAGE
    ensures PagesFor(bytes) <= MAX_IO_VECS
  {
  }

  /** A gap ends at a page boundary. */
  lemma GapAligned(c: Cursor, file: nat, size: nat)
    requires CursorOk(c, file, size) && c.last < c.pos
    ensures (c.pos - c.last + c.lastPageOffset) % PAGE == 0
    ensures c.pos - c.last + c.lastPageOffset <= (MAX_IO_VECS - 1) * PAGE
  {
    assert c.pos - c.last + c.lastPageOffset == c.offset - c.lastOffset;
  }

  /** The hook for the gap before the current page is within the limits. */
  lemma GapFits(c: Cursor, file: nat, size: nat, held: nat)
    requires c.last < c.pos <= size && c.lastPageOffset < PAGE && Enough(c, size, held)
    requires c.pos - c.last + c.lastPageOffset <= MAX_IO_VECS * PAGE
    ensures var pages := PagesFor(c.lastPageOffset + c.pos - c.last); pages <= MAX_IO_VECS && pages <= held
  {
    PagesBound(c.lastPageOffset + c.pos - c.last);
    PagesMonotone(c.lastPageOffset + c.pos - c.last, c.lastPageOffset + size - c.last);
  }

  /** After a gap was filled, what is reserved suffices for the rest. */
  lemma EnoughAfter(c: Cursor, size: nat, held: nat, hook: Hook, useBuffer: bool)
    requires c.last < c.pos <= size && Enough(c, size, held)
    ensures var next := Min(MAX_IO_VECS, PagesFor(size - c.last - (c.pos - c.last) + c.lastPageOffset));
      HeldAfter(hook, useBuffer, held, next) >= Min(MAX_IO_VECS, PagesFor(size - c.pos))
  {
    PagesMonotone(size - c.pos, size - c.pos + c.lastPageOffset);
    PagesMonotone(size - c.pos, c.lastPageOffset + size - c.last);
  }

  // ---- the turns of a call ----

  /** How many pages the first i turns deal with: all but those that wait for a busy page. */
  function Done(turns: seq<Turn>, i: nat): nat
    requires i <= |turns|
  {
    if i == 0 then 0 else Done(turns, i - 1) + (if turns[i - 1].lookup.Busy? then 0 else 1)
  }

  /** What the first i turns know about memory: every 32 pages they look whether it is low. */
  function Reading(turns: seq<Turn>, i: nat): bool
    requires i <= |turns|
  {
    if i == 0 then false
    else if Done(turns, i - 1) % 32 == 0 then turns[i - 1].lowMemory
    else Reading(turns, i - 1)
  }

  /** Turn n deals with the last one of so many pages. */
  predicate IsLast(turns: seq<Turn>, n: nat, pages: nat) {
    n < |turns| && !turns[n].lookup.Busy? && Done(turns, n) + 1 == pages
  }

  lemma {:induction false} DoneMore(turns: seq<Turn>, i: nat, j: nat)
    requires i <= j <= |turns|
    ensures Done(turns, i) <= Done(turns, j)
    decreases j
  {
    if i < j { DoneMore(turns, i, j - 1); }
  }

  lemma OneLast(turns: seq<Turn>, n: nat, m: nat, pages: nat)
    requires IsLast(turns, n, pages) && IsLast(turns, m, pages)
    ensures n == m
  {
    if n < m { DoneMore(turns, n + 1, m); }
    if m < n { DoneMore(turns, m + 1, n); }
  }

  /**
    The calls that keep their reservation: a read without a buffer, long enough
    to bypass the cache, whose last page is not cached, with memory low when it
    was last looked at.
  */
  predicate Keeps(turns: seq<Turn>, n: nat, doWrite: bool, useBuffer: bool, size: nat)
    requires n < |turns|
  {
    !useBuffer && !doWrite && size >= BYPASS_IO_SIZE && !turns[n].lookup.Present? && Reading(turns, n + 1)
  }

  /** The page at `done` is the current one. */
  ghost predicate AtPage(c: Cursor, file: nat, done: nat) { c.offset == file - file % PAGE + done * PAGE }

  lemma LastPage(c: Cursor, file: nat, size: nat, done: nat)
    requires CursorOk(c, file, size) && AtPage(c, file, done)
    ensures done < PagesFor(file % PAGE + size)
    ensures size - c.pos <= PAGE - c.pageOffset <==> done + 1 == PagesFor(file % PAGE + size)
  {
  }

  class CacheIo {
    var c: Cursor
    var log: seq<Piece>
    var held: nat                // pages reserved
    const file: nat              // where the request starts in the file
    const size: nat
    const doWrite: bool
    const useBuffer: bool

    constructor (file: nat, size: nat, doWrite: bool, useBuffer: bool)
      requires size > 0
      ensures this.file == file && this.size == size && this.doWrite == doWrite && this.useBuffer == useBuffer
      ensures log == [] && CursorOk(c, file, size) && Enough(c, size, held) && c.pos == c.last == 0
      ensures c.lastPageOffset == c.pageOffset == file % PAGE
    {
      this.file, this.size, this.doWrite, this.useBuffer := file, size, doWrite, useBuffer;
      var pageOffset := file % PAGE;
      c := Cursor(0, pageOffset, file - pageOffset, 0, pageOffset, file - pageOffset);
      log := [];
      held := Min(MAX_IO_VECS, PagesFor(pageOffset + size));
    }

    /** What holds at the start of every turn. */
    ghost predicate Valid()
      reads this
    {
      && CursorOk(c, file, size) && Enough(c, size, held) && Covers(log, c.last, file) && WithinLimits(log)
      && (c.last == c.pos ==> c.lastPageOffset == c.pageOffset)
    }

    /** satisfy_cache_io: the gap before the current page goes through the hook. */
    method Satisfy(hook: Hook, hookOk: bool) returns (ok: bool)
      requires c.last <= c.pos <= size && Enough(c, size, held) && Covers(log, c.last, file) && WithinLimits(log)
      requires c.lastPageOffset < PAGE && c.pos - c.last + c.lastPageOffset <= MAX_IO_VECS * PAGE
      requires c.lastOffset + c.lastPageOffset == file + c.last && (c.last < c.pos ==> c.pageOffset == 0)
      modifies this
      ensures WithinLimits(log)
      ensures !ok ==> Covers(log, old(c.last), file) && held == 0
      ensures ok ==> Covers(log, c.pos, file) && Enough(c, size, held)
      ensures hookOk ==> ok
      ensures ok ==>
        c == if old(c.last == c.pos) then old(c)
        else old(c).(last := old(c.pos), lastPageOffset := 0, lastOffset := old(c.offset))
    {
      hide Covers, WithinLimits, PagesFor;
      if c.last == c.pos {
        return true;
      }
      var requestSize := c.pos - c.last;
      var reservePages := Min(MAX_IO_VECS, PagesFor(size - c.last - requestSize + c.lastPageOffset));
      GapFits(c, file, size, held);
      EnoughAfter(c, size, held, hook, useBuffer);
      if !hookOk && CanFail(hook, useBuffer) {
        held := 0;
        return false;
      }
      var piece := Hooked(hook, c.last, requestSize, c.lastOffset + c.lastPageOffset,
        PagesFor(c.lastPageOffset + requestSize), held);
      CoversMore(log, c.last, file, piece);
      LimitsMore(log, piece);
      log := log + [piece];
      held := HeldAfter(hook, useBuffer, held, reservePages);
      c := c.(last := c.pos, lastPageOffset := 0, lastOffset := c.offset);
      return true;
    }
  
    /** The current page is still part of the gap, or it was copied and the gap starts behind it. */
    ghost predicate PageDone(bytesInPage: nat)
      reads this
    {
      || Valid()
      || (&& c.pos < size && c.offset % PAGE == 0 && c.pageOffset < PAGE && c.offset + c.pageOffset == file + c.pos
          && c.last == c.pos + bytesInPage && c.lastOffset == c.offset + PAGE && c.lastPageOffset == 0
          && Covers(log, c.last, file) && WithinLimits(log) && Enough(c, size, held))
    }

    /** Go on to the next page. */
    method Advance(bytesInPage: nat)
      requires PageDone(bytesInPage) && bytesInPage == Min(PAGE - c.pageOffset, size - c.pos)
      requires bytesInPage < size - c.pos
      modifies this`c
      ensures c.last <= c.pos < size && c.lastPageOffset < PAGE && c.pageOffset == 0
      ensures c.pos - c.last + c.lastPageOffset < MAX_IO_VECS * PAGE ==> Valid()
      ensures c.pos - c.last + c.lastPageOffset <= MAX_IO_VECS * PAGE
      ensures Enough(c, size, held) && Covers(log, c.last, file)
      ensures c.offset % PAGE == 0 && c.offset == file + c.pos && c.lastOffset + c.lastPageOffset == file + c.last
      ensures c.lastOffset % PAGE == 0 && c.pos == old(c.pos) + bytesInPage && c.offset == old(c.offset) + PAGE
    {
      if c.last < c.pos { GapAligned(c, file, size); }
      c := c.(pos := c.pos + bytesInPage, pageOffset := 0, offset := c.offset + PAGE);
    }

    /** The page is in memory: copy, and start the next gap behind it. */
    method CopyPage(bytesInPage: nat)
      requires Valid() && c.last == c.pos && bytesInPage == Min(PAGE - c.pageOffset, size - c.pos)
      modifies this`c, this`log
      ensures WithinLimits(log) && Covers(log, c.pos + bytesInPage, file) && PageDone(bytesInPage)
      ensures c.pos == old(c.pos) && c.pageOffset == old(c.pageOffset)
      ensures log == old(log) + [Copied(old(c.pos), bytesInPage, file + old(c.pos))]
    {
      var piece := Copied(c.pos, bytesInPage, c.offset + c.pageOffset);
      CoversMore(log, c.last, file, piece);
      PagesMonotone(size - c.pos - bytesInPage, c.lastPageOffset + size - c.last);
      log := log + [piece];
      c := c.(last := c.pos + bytesInPage, lastOffset := c.offset + PAGE, lastPageOffset := 0);
    }

    /** The last call: all that is left goes through the hook. */
    method Finish(hook: Hook, hookOk: bool) returns (outcome: Outcome)
      requires Valid() && size - c.pos <= PAGE - c.pageOffset
      modifies this`log, this`held
      ensures WithinLimits(log)
      ensures outcome.Complete? || outcome.Failed?
      ensures outcome.Complete? ==>
        Covers(log, size, file) && log != [] && log[|log| - 1].Hooked? && log[|log| - 1].hook == hook
      ensures outcome.Failed? ==> Covers(log, c.last, file) && held == 0
      ensures outcome.Complete? ==> (held > 0 <==> hook == ReadFromFile && !useBuffer)
      ensures hookOk ==> outcome.Complete?
    {
      if c.last < c.pos { GapAligned(c, file, size); }
      PagesBound(c.lastPageOffset + size - c.last);
      if !hookOk && CanFail(hook, useBuffer) {
        held := 0;
        return Failed;
      }
      var piece := Hooked(hook, c.last, size - c.last, c.lastOffset + c.lastPageOffset,
        PagesFor(c.lastPageOffset + size - c.last), held);
      CoversMore(log, c.last, file, piece);
      log := log + [piece];
      held := HeldAfter(hook, useBuffer, held, 0);
      return Complete;
    }

    /** How many pages the request touches. */
    function Pages(): nat { PagesFor(file % PAGE + size) }

    /**
      cache_io.  Whatever the turns bring, the pieces cover the request from its
      start exactly once and in order, all of it if the call completes; no hook
      call exceeds the vector array or the reservation.  If the hooks succeed,
      the call completes with the turn that deals with its last page.  The
      reservation is given back, except by the calls that `Keeps` says.
    */
    method Run(turns: seq<Turn>) returns (outcome: Outcome)
      requires Valid() && c.pos == 0 && c.pageOffset == file % PAGE && log == []
      modifies this
      ensures WithinLimits(log)
      ensures outcome.Complete? ==> Covers(log, size, file)
      ensures !outcome.Complete? ==> exists to | 0 <= to < size :: Covers(log, to, file)
      ensures outcome.Failed? ==> held == 0 && !HooksSucceed(turns)
      ensures outcome.Waiting? ==> forall n: nat :: !IsLast(turns, n, Pages())
      ensures outcome.Complete? ==> exists n: nat :: IsLast(turns, n, Pages())
      ensures outcome.Complete? ==> forall n: nat | IsLast(turns, n, Pages()) ::
        held > 0 <==> Keeps(turns, n, doWrite, useBuffer, size)
    {
      hide Covers, WithinLimits, Enough, CursorOk, Choose, PagesFor;
      var hook := Choose(doWrite, size, false);
      var pagesProcessed := 0;
      FirstPage(c, file, size);
      for i := 0 to |turns|
        invariant Valid() && hook == Choose(doWrite, size, Reading(turns, i))
        invariant pagesProcessed == Done(turns, i) && AtPage(c, file, pagesProcessed)
      {
        if pagesProcessed % 32 == 0 {
          hook := Choose(doWrite, size, turns[i].lowMemory);
        }
        LastPage(c, file, size, pagesProcessed);
        var step := Step(turns[i], hook);
        match step
        case NextPage => pagesProcessed := pagesProcessed + 1;
        case SamePage =>
        case Ended(how) =>
          if how.Complete? {
            ChosenHook(doWrite, size, Reading(turns, i + 1));
            assert IsLast(turns, i, Pages());
            OnlyLast(turns, i, Pages());
          }
          return how;
      }
      LastPage(c, file, size, pagesProcessed);
      NotLast(turns, Pages());
      StillOpen(c, file, size);
      return Waiting;
    }

    /** One turn of the loop. */
    method Step(turn: Turn, hook: Hook) returns (step: StepResult)
      requires Valid()
      modifies this
      ensures WithinLimits(log)
      ensures !step.Ended? ==> Valid()
      ensures step.Ended? ==> step.how.Complete? || step.how.Failed?
      ensures step == SamePage ==> turn.lookup.Busy? && c.offset == old(c.offset)
      ensures step == NextPage ==> !turn.lookup.Busy? && c.offset == old(c.offset) + PAGE
      ensures step == NextPage || step == Ended(Complete) ==>
        (step.Ended? <==> size - old(c.pos) <= PAGE - old(c.pageOffset))
      ensures step == Ended(Complete) ==>
        && Covers(log, size, file) && !turn.lookup.Busy?
        && (held > 0 <==> hook == ReadFromFile && !useBuffer && !turn.lookup.Present?)
      ensures step == Ended(Failed) ==> held == 0 && !turn.hookOk && exists to | 0 <= to < size :: Covers(log, to, file)
    {
      hide Covers, WithinLimits, Enough;
      StillOpen(c, file, size);
      if !turn.lookup.Missing? {
        var ok := Satisfy(hook, turn.hookOk);
        if !ok {
          return Ended(Failed);
        }
        if turn.lookup.Busy? {
          return SamePage;
        }
      }
      var bytesInPage := Min(PAGE - c.pageOffset, size - c.pos);
      if turn.lookup.Present? {
        CopyPage(bytesInPage);
        if size - c.pos <= bytesInPage {
          held := 0;
          return Ended(Complete);
        }
      }
      if size - c.pos <= bytesInPage {
        var how := Finish(hook, turn.hookOk);
        return Ended(how);
      }
      step := GoOn(bytesInPage, hook, turn.hookOk);
    }

    /** The next page; a gap that fills the vector array is dealt with at once. */
    method GoOn(bytesInPage: nat, hook: Hook, hookOk: bool) returns (step: StepResult)
      requires PageDone(bytesInPage) && bytesInPage == Min(PAGE - c.pageOffset, size - c.pos)
      requires bytesInPage < size - c.pos
      requires WithinLimits(log)
      modifies this
      ensures WithinLimits(log)
      ensures step == NextPage || step == Ended(Failed)
      ensures step == NextPage ==> Valid() && c.offset == old(c.offset) + PAGE
      ensures hookOk ==> step == NextPage
      ensures step == Ended(Failed) ==> held == 0 && exists to | 0 <= to < size :: Covers(log, to, file)
    {
      hide Covers, WithinLimits, Enough;
      Advance(bytesInPage);
      if c.pos - c.last + c.lastPageOffset >= MAX_IO_VECS * PAGE {
        ghost var was := c.last;
        var ok := Satisfy(hook, hookOk);
        if !ok {
          assert was < size;
          return Ended(Failed);
        }
      }
      return NextPage;
    }
  }

  ghost predicate HooksSucceed(turns: seq<Turn>) { forall i | 0 <= i < |turns| :: turns[i].hookOk }

  lemma FirstPage(c: Cursor, file: nat, size: nat)
    requires CursorOk(c, file, size) && c.pos == 0 && c.pageOffset == file % PAGE
    ensures AtPage(c, file, 0)
  {
  }

  lemma OnlyLast(turns: seq<Turn>, n: nat, pages: nat)
    requires IsLast(turns, n, pages)
    ensures forall m: nat | IsLast(turns, m, pages) :: m == n
  {
    forall m: nat | IsLast(turns, m, pages) ensures m == n { OneLast(turns, m, n, pages); }
  }

  lemma NotLast(turns: seq<Turn>, pages: nat)
    requires Done(turns, |turns|) < pages
    ensures forall n: nat :: !IsLast(turns, n, pages)
  {
    forall n: nat ensures !IsLast(turns, n, pages) {
      if n < |turns| { DoneMore(turns, n + 1, |turns|); }
    }
  }

  /**
    Sixteen uncached pages are read without a buffer while memory is low: the call is over, and
    still has pages reserved.
  */
  method KeepsReservation() returns (io: CacheIo, outcome: Outcome)
    ensures fresh(io) && outcome.Complete? && io.held > 0
  {
    hide Covers, WithinLimits, Enough, CursorOk;
    io := new CacheIo(0, 16 * PAGE, false, false);
    CoversNothing(0);
    var turns := seq(16, _ => Turn(Missing, true, true));
    OneTurnAPage(turns, 15);
    assert IsLast(turns, 15, io.Pages()) && HooksSucceed(turns);
    outcome := io.Run(turns);
  }

  /** Without busy pages every turn is a page on; while memory is low, every reading says so. */
  lemma {:induction false} OneTurnAPage(turns: seq<Turn>, n: nat)
    requires n < |turns| && forall i | 0 <= i < |turns| :: !turns[i].lookup.Busy? && turns[i].lowMemory
    ensures Done(turns, n) == n && IsLast(turns, n, n + 1) && Reading(turns, n + 1)
  {
    if n > 0 { OneTurnAPage(turns, n - 1); }
  }

  lemma CoversNothing(file: nat)
    ensures Covers([], 0, file) && WithinLimits([])
  {
  }

  datatype StepResult = NextPage | SamePage | Ended(how: Outcome)

  lemma ChosenHook(doWrite: bool, size: nat, low: bool)
    ensures Choose(doWrite, size, low) == ReadFromFile <==> !doWrite && size >= BYPASS_IO_SIZE && low
  {
  }

  lemma StillOpen(c: Cursor, file: nat, size: nat)
    requires CursorOk(c, file, size)
    ensures c.last <= c.pos < size
  {
  }
}
