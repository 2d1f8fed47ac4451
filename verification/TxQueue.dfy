/**
The transmit queue on the heap: packets threaded through `skb->prev`, with `txq_head`, `txq_tail`,
`txq_cnt` and `txq_dispatched`. Each method is one critical section of `txq_lock`, proved against the
steps of TxSpec; Free runs when nobody else is left.
*/
module TxQueue {
  import opened Common
  import opened TxSpec

  class SkBuff {
    var prev: SkBuff?

    constructor () { prev := null; }
  }

  class Queue {
    const thresh: int
    var head: SkBuff?
    var tail: SkBuff?
    var cnt: int
    var dispatched: bool
    var work: bool        // the kernel's queued mark of txq_task
    var callbacks: int
    ghost var nodes: seq<SkBuff>

    /** Acyclic from head to tail, both null together, and counted exactly. */
    ghost predicate Valid()
      reads this, nodes
    {
      && cnt == |nodes|
      && head == (if nodes == [] then null else nodes[0])
      && tail == (if nodes == [] then null else nodes[|nodes| - 1])
      && (forall i, j :: 0 <= i < j < |nodes| ==> nodes[i] != nodes[j])
      && (forall i :: 0 <= i < |nodes| ==> nodes[i].prev == After(nodes, i))
    }

    ghost function View(): Core<SkBuff>
      reads this
    {
      Core(nodes, dispatched, work)
    }

    constructor (threshold: int)
      ensures Valid() && View() == Core([], false, false) && callbacks == 0 && thresh == threshold
    {
      thresh := threshold;
      head, tail, cnt := null, null, 0;
      dispatched, work, callbacks, nodes := false, false, 0, [];
    }

    /** schedule_work: fails exactly when the item is already queued. */
    method ScheduleWork() returns (queued: bool)
      modifies this`work
      ensures queued == !old(work) && work
    {
      queued := !work;
      work := true;
    }

    /** The four assignments of wl_start that thread a packet in at the tail. */
    method Append(skb: SkBuff)
      requires Valid() && skb !in nodes && skb.prev == null
      modifies this`head, this`tail, this`cnt, this`nodes, if tail == null then {} else {tail}
      ensures Valid() && nodes == old(nodes) + [skb] && cnt == old(cnt) + 1
    {
      ghost var before := nodes;
      if head == null {
        head := skb;
      } else {
        tail.prev := skb;
      }
      tail := skb;
      cnt := cnt + 1;
      nodes := nodes + [skb];
      assert forall i :: 0 <= i < |before| - 1 ==> After(nodes, i) == After(before, i);
    }

    /** wl_start in passive mode. A dropped packet is freed by the caller's stand-in, PKTCFREE. */
    method Start(skb: SkBuff) returns (outcome: Outcome)
      requires Valid() && skb !in nodes
      modifies this, skb, if tail == null then {} else {tail}
      ensures Valid()
      ensures var (core, how) := Offered(old(View()), thresh, skb);
        && outcome == how
        && View() == (if how.Scheduled? then core.(dispatched := true) else core)
        && callbacks == old(callbacks) + (if how.Scheduled? then 1 else 0)
      ensures outcome.Dropped? <==> thresh > 0 && old(cnt) >= thresh
      ensures old(thresh > 0 ==> cnt <= thresh) ==> thresh > 0 ==> cnt <= thresh
    {
      skb.prev := null;
      if thresh > 0 && cnt >= thresh {
        return Dropped;
      }
      Append(skb);
      outcome := Joined;
      if !dispatched {
        var ok := ScheduleWork();
        if ok {
          callbacks := callbacks + 1;
          dispatched := true;
          outcome := Scheduled;
        } else {
          outcome := ScheduleFailed;
        }
      }
    }

    /** One locked stretch of wl_start_txqwork: take the first packet, or sign off when there is none. */
    method Take() returns (skb: SkBuff?)
      requires Valid()
      modifies this, if head == null then {} else {head}
      ensures Valid() && View() == Looked(old(View()))
      ensures old(nodes) == [] ==> skb == null && callbacks == old(callbacks) - 1
      ensures old(nodes) != [] ==> skb == old(nodes[0]) && skb.prev == null && callbacks == old(callbacks)
    {
      if head != null {
        skb := head;
        assert nodes[0].prev == After(nodes, 0);
        head := skb.prev;
        skb.prev := null;
        if head == null {
          tail := null;
        }
        cnt := cnt - 1;
        nodes := nodes[1..];
      } else {
        skb := null;
        dispatched := false;
        callbacks := callbacks - 1;
      }
    }

    /** wl_start_txqwork, undisturbed: sends everything queued, in order, signs off, and gives its count back. */
    method Work() returns (sent: seq<SkBuff>)
      requires Valid() && work
      modifies this, nodes
      ensures Valid() && sent == old(nodes) && nodes == [] && cnt == 0
      ensures !dispatched && !work && callbacks == old(callbacks) - 1
    {
      work := false;                       // the kernel clears the queued mark
      ghost var all := nodes;
      sent := [];
      while true
        invariant Valid() && |sent| <= |all| && sent == all[..|sent|] && nodes == all[|sent|..]
        invariant !work && callbacks == old(callbacks)
        decreases |all| - |sent|
      {
        var skb := Take();
        if skb == null { break; }
        sent := sent + [skb];
        assert sent == all[..|sent|];
      }
    }

    /** wl_txq_free: every packet left is released once, in order, and the queue is empty. */
    method Free() returns (freed: seq<SkBuff>)
      requires Valid()
      modifies this
      ensures Valid() && freed == old(nodes) && nodes == [] && cnt == 0
      ensures dispatched == old(dispatched) && work == old(work) && callbacks == old(callbacks)
    {
      freed := [];
      if head == null {
        assert tail == null;
        return;
      }
      ghost var all := nodes;
      while head != null
        invariant nodes == all
        invariant |freed| <= |all| && freed == all[..|freed|]
        invariant cnt == |all| - |freed|
        invariant head == if |freed| < |all| then all[|freed|] else null
        invariant dispatched == old(dispatched) && work == old(work) && callbacks == old(callbacks)
        decreases |all| - |freed|
      {
        var skb := head;
        assert all[|freed|].prev == After(all, |freed|);
        head := skb.prev;
        cnt := cnt - 1;
        freed := freed + [skb];
        assert freed == all[..|freed|];
      }
      tail := null;
      nodes := [];
    }
  }
}
