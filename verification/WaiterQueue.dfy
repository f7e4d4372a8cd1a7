/**
  The intrusive waiter list of the cache lock (cache/vm_cache_lock.cpp): nodes
  live on the blocked threads' stacks, each has a `next` link, and only the
  first node's `last` link is meaningful.  Enqueueing and dequeueing are O(1)
  and refine the FIFO sequence that the protocol in CacheLock works with.
*/
module WaiterQueue {

  class Waiter {
    var thread: nat
    var next: Waiter?
    var last: Waiter?

    constructor (thread: nat)
      ensures this.thread == thread && next == null && last == null
    {
      this.thread := thread;
      next := null;
      last := null;
    }
  }

  /** The threads of a chain of nodes, first to last. */
  ghost function Threads(nodes: seq<Waiter>): (s: seq<nat>)
    reads nodes
    ensures |s| == |nodes| && forall i | 0 <= i < |nodes| :: s[i] == nodes[i].thread
  {
    seq(|nodes|, i requires 0 <= i < |nodes| reads nodes => nodes[i].thread)
  }

  class Queue {
    var waiters: Waiter?
    ghost var nodes: seq<Waiter>

    /** `waiters` heads a null-terminated chain without repetition; its `last` is the final node. */
    ghost predicate Valid()
      reads this, nodes
    {
      && (waiters == null <==> nodes == [])
      && (nodes != [] ==> waiters == nodes[0] && waiters.last == nodes[|nodes| - 1])
      && (forall i, j | 0 <= i < j < |nodes| :: nodes[i] != nodes[j])
      && (nodes != [] ==> nodes[|nodes| - 1].next == null)
      && (forall i, j | 0 <= i < |nodes| && j == i + 1 < |nodes| :: nodes[i].next == nodes[j])
    }

    ghost function Contents(): seq<nat>
      reads this, nodes
    {
      Threads(nodes)
    }

    constructor ()
      ensures Valid() && Contents() == [] && nodes == []
    {
      waiters := null;
      nodes := [];
    }

    /** _LockInternal: link the caller's node behind the last one. */
    method Enqueue(waiter: Waiter)
      requires Valid() && waiter !in nodes
      modifies this, waiter, nodes
      ensures Valid() && nodes == old(nodes) + [waiter]
      ensures Contents() == old(Contents()) + [waiter.thread]
      ensures waiter.thread == old(waiter.thread)
    {
      waiter.next := null;
      if waiters != null {
        waiters.last.next := waiter;
      } else {
        waiters := waiter;
      }
      waiters.last := waiter;
      nodes := nodes + [waiter];
    }

    /** _UnlockEtc: unlink the first node; its successor inherits `last`. */
    method Dequeue() returns (waiter: Waiter?)
      requires Valid()
      modifies this, nodes
      ensures Valid()
      ensures old(nodes) == [] ==> waiter == null && nodes == []
      ensures old(nodes) != [] ==> waiter == old(nodes)[0] && nodes == old(nodes)[1..]
      ensures old(nodes) != [] ==> [waiter.thread] + Contents() == old(Contents())
    {
      waiter := waiters;
      if waiter != null {
        assert |nodes| > 1 ==> nodes[0].next == nodes[1];
        waiters := waiter.next;
        if waiters != null {
          waiters.last := waiter.last;
        }
        nodes := nodes[1..];
        assert forall i | 0 <= i < |nodes| :: nodes[i] == old(nodes)[i + 1];
      }
    }
  }
}
