/**
The transmit queue of passive mode as an interleaving machine.

`wl_start` (the producers) and `wl_start_txqwork` (the single worker) share a queue under
`txq_lock`. A step is the stretch between two lock operations or atomics. The worker gives up
the lock around every send, so packets are offered while it is in the middle of its loop.
*/
module TxSpec {
  import opened Common

  /** What `txq_lock` protects, and the kernel's queued mark of `txq_task`. */
  datatype Core<P> = Core(queue: seq<P>, dispatched: bool, work: bool)

  /** How the critical section of `wl_start` ended. */
  datatype Outcome = Dropped | Joined | Scheduled | ScheduleFailed

  /** `wl_start` from TXQ_LOCK to the point where it either unlocks or has scheduled the worker. */
  function Offered<P>(c: Core<P>, thresh: int, skb: P): (r: (Core<P>, Outcome)) {
    if thresh > 0 && |c.queue| >= thresh then (c, Dropped)
    else
      var q := c.queue + [skb];
      if c.dispatched then (c.(queue := q), Joined)
      else if c.work then (c.(queue := q), ScheduleFailed)
      else (c.(queue := q, work := true), Scheduled)
  }

  /** The worker's loop test under the lock: the first packet is taken, or the worker signs off. */
  function Looked<P>(c: Core<P>): Core<P> {
    if c.queue == [] then c.(dispatched := false) else c.(queue := c.queue[1..])
  }

  datatype Worker<P> =
    | Idle                 // not running
    | AtLock               // running, about to take txq_lock
    | Holding(skb: P)      // a packet in hand, txq_lock released
    | Sending(skb: P)      // inside wl_start_int, holding the driver lock
    | Returning            // signed off, function not yet returned

  /** `scheduling` marks a producer inside txq_lock, after schedule_work and before atomic_inc. */
  datatype State<P> = State(
    thresh: int,
    core: Core<P>,
    worker: Worker<P>,
    scheduling: bool,
    offered: seq<P>,
    dropped: seq<P>,
    accepted: seq<P>,
    delivered: seq<P>,
    failed: bool)

  datatype Event<P> =
    | Offer(skb: P)    // wl_start up to unlock, or up to a successful schedule_work
    | Commit           // wl_start: atomic_inc, txq_dispatched = TRUE, unlock
    | Run              // the kernel starts the queued work item
    | Look             // the worker takes txq_lock and tests txq_head
    | SendBegin        // wl_start_int takes the driver lock
    | SendEnd          // wlc_sendpkt done, driver lock released
    | Return

  predicate Init<P>(s: State<P>) {
    && s.core.queue == [] && !s.core.dispatched && !s.core.work && s.worker.Idle? && !s.scheduling && !s.failed
    && s.offered == [] && s.dropped == [] && s.accepted == [] && s.delivered == []
  }

  /** Where each thread must be for its step; txq_lock is free unless a producer is scheduling. */
  predicate Enabled<P>(s: State<P>, e: Event<P>) {
    match e
    case Offer(_) => !s.scheduling
    case Commit => s.scheduling
    case Run => s.core.work && s.worker.Idle?
    case Look => s.worker.AtLock? && !s.scheduling
    case SendBegin => s.worker.Holding?
    case SendEnd => s.worker.Sending?
    case Return => s.worker.Returning?
  }

  function Apply<P>(s: State<P>, e: Event<P>): State<P>
    requires Enabled(s, e)
  {
    match e
    case Offer(skb) =>
      var (core, outcome) := Offered(s.core, s.thresh, skb);
      var s1 := s.(core := core, offered := s.offered + [skb]);
      if outcome.Dropped? then s1.(dropped := s.dropped + [skb])
      else s1.(accepted := s.accepted + [skb],
               scheduling := outcome.Scheduled?,
               failed := s.failed || outcome.ScheduleFailed?)
    case Commit => s.(core := s.core.(dispatched := true), scheduling := false)
    case Run => s.(core := s.core.(work := false), worker := AtLock)
    case Look =>
      s.(core := Looked(s.core),
         worker := if s.core.queue == [] then Returning else Holding(s.core.queue[0]))
    case SendBegin => s.(worker := Sending(s.worker.skb))
    case SendEnd => s.(worker := AtLock, delivered := s.delivered + [s.worker.skb])
    case Return => s.(worker := Idle)
  }

  /** What the step adds to `wl->callbacks`. */
  function Delta<P>(s: State<P>, e: Event<P>): int {
    match e
    case Commit => 1
    case Look => if s.core.queue == [] then -1 else 0
    case _ => 0
  }

  function InHand<P>(w: Worker<P>): seq<P> {
    match w case Holding(p) => [p] case Sending(p) => [p] case _ => []
  }

  predicate Live<P>(w: Worker<P>) { w.AtLock? || w.Holding? || w.Sending? }

  /** Worker items dispatched and not yet counted down. */
  function Outstanding<P>(s: State<P>): nat {
    (if s.core.work then 1 else 0) + (if Live(s.worker) then 1 else 0)
  }

  /** Producers between a successful schedule_work and its atomic_inc. */
  function Windows<P>(s: State<P>): nat { if s.scheduling then 1 else 0 }

  /** The control part: one worker item exactly while dispatched or being dispatched. */
  predicate Control<P>(s: State<P>) {
    && !s.failed
    && Outstanding(s) == (if s.core.dispatched || s.scheduling then 1 else 0)
    && !(s.core.dispatched && s.scheduling)
    && (s.core.queue != [] ==> s.core.dispatched || s.scheduling)
    && (s.thresh > 0 ==> |s.core.queue| <= s.thresh)
  }

  /** The books: every packet offered is accounted for, and accepted packets stay in order. */
  ghost predicate Books<P>(s: State<P>) {
    && s.accepted == s.delivered + InHand(s.worker) + s.core.queue
    && multiset(s.offered) == multiset(s.accepted) + multiset(s.dropped)
  }

  ghost predicate Inv<P>(s: State<P>) { Control(s) && Books(s) }

  lemma AppendBooks<P>(a: seq<P>, b: seq<P>, c: seq<P>, x: P)
    requires multiset(a) == multiset(b) + multiset(c)
    ensures multiset(a + [x]) == multiset(b + [x]) + multiset(c)
    ensures multiset(a + [x]) == multiset(b) + multiset(c + [x])
  {
  }

  lemma OfferKeepsBooks<P>(s: State<P>, skb: P)
    requires Books(s) && !s.scheduling
    ensures Books(Apply(s, Offer(skb)))
  {
    AppendBooks(s.offered, s.accepted, s.dropped, skb);
    Regroup(s.delivered + InHand(s.worker), s.core.queue, [skb]);
  }

  lemma LookKeepsBooks<P>(s: State<P>)
    requires Books(s) && s.worker.AtLock? && !s.scheduling
    ensures Books(Apply(s, Look))
  {
    if s.core.queue != [] {
      assert s.core.queue == [s.core.queue[0]] + s.core.queue[1..];
    }
  }

  lemma StepKeepsBooks<P>(s: State<P>, e: Event<P>)
    requires Books(s) && Enabled(s, e)
    ensures Books(Apply(s, e))
  {
    match e {
      case Offer(skb) => OfferKeepsBooks(s, skb);
      case Look => LookKeepsBooks(s);
      case SendEnd => assert s.delivered + [s.worker.skb] + [] == s.delivered + [s.worker.skb];
      case _ =>
    }
  }

  /** One step keeps the control part, and `callbacks` moves with the work outstanding. */
  lemma StepKeepsControl<P>(s: State<P>, e: Event<P>)
    requires Control(s) && Enabled(s, e)
    ensures Control(Apply(s, e))
    ensures Outstanding(Apply(s, e)) - Windows(Apply(s, e)) == Outstanding(s) - Windows(s) + Delta(s, e)
  {
  }

  lemma StepKeepsInv<P>(s: State<P>, e: Event<P>)
    requires Inv(s) && Enabled(s, e)
    ensures Inv(Apply(s, e))
    ensures Outstanding(Apply(s, e)) - Windows(Apply(s, e)) == Outstanding(s) - Windows(s) + Delta(s, e)
  {
    StepKeepsBooks(s, e);
    StepKeepsControl(s, e);
  }

  /** Runs of the machine. */
  predicate CanRun<P>(s: State<P>, es: seq<Event<P>>)
    decreases |es|
  {
    es == [] || (Enabled(s, es[0]) && CanRun(Apply(s, es[0]), es[1..]))
  }

  function Exec<P>(s: State<P>, es: seq<Event<P>>): State<P>
    requires CanRun(s, es)
    decreases |es|
  {
    if es == [] then s else Exec(Apply(s, es[0]), es[1..])
  }

  lemma {:induction false} RunKeepsInv<P>(s: State<P>, es: seq<Event<P>>)
    requires Inv(s) && CanRun(s, es)
    ensures Inv(Exec(s, es))
    decreases |es|
  {
    if es != [] {
      StepKeepsInv(s, es[0]);
      RunKeepsInv(Apply(s, es[0]), es[1..]);
    }
  }

  /**
  No lost wakeup and first-in first-out: whenever `txq_lock` is free a packet in the queue has a
  dispatched worker on its way, `schedule_work` would succeed if `wl_start` called it, and the accepted
  packets are the delivered ones, then the one in hand, then the queued ones, in that order.
  */
  ghost predicate AwakeAndOrdered<P>(s: State<P>) {
    && (!s.scheduling && s.core.queue != [] ==> s.core.dispatched && (s.core.work || Live(s.worker)))
    && (!s.scheduling && !s.core.dispatched ==> !s.core.work)
    && !s.failed
    && s.accepted == s.delivered + InHand(s.worker) + s.core.queue
    && (s.thresh > 0 ==> |s.core.queue| <= s.thresh)
    && |s.offered| == |s.accepted| + |s.dropped|
    && multiset(s.offered) == multiset(s.accepted) + multiset(s.dropped)
  }

  lemma InvGivesOrder<P>(s: State<P>)
    requires Inv(s)
    ensures AwakeAndOrdered(s)
  {
    assert |multiset(s.offered)| == |multiset(s.accepted)| + |multiset(s.dropped)|;
  }

  /** That holds in every reachable state of the queue and its worker alone. */
  lemma {:induction false} NoLostWakeupAndFifo<P>(s0: State<P>, es: seq<Event<P>>)
    requires Init(s0) && CanRun(s0, es)
    ensures AwakeAndOrdered(Exec(s0, es))
  {
    RunKeepsInv(s0, es);
    InvGivesOrder(Exec(s0, es));
  }

  function Offers<P>(es: seq<Event<P>>): seq<P> {
    if es == [] then [] else (if es[0].Offer? then [es[0].skb] else []) + Offers(es[1..])
  }

  /** Over every run the machine has been offered exactly what was offered. */
  lemma {:induction false} OffersAreRecorded<P>(s: State<P>, es: seq<Event<P>>)
    requires CanRun(s, es)
    ensures Exec(s, es).offered == s.offered + Offers(es)
    decreases |es|
  {
    if es != [] {
      OffersAreRecorded(Apply(s, es[0]), es[1..]);
      Regroup(s.offered, if es[0].Offer? then [es[0].skb] else [], Offers(es[1..]));
    }
  }

  /** A packet is dropped exactly if the threshold is positive and reached; any other one is accepted. */
  lemma DropsExactlyAtThreshold<P>(s: State<P>, skb: P)
    requires !s.scheduling
    ensures var s' := Apply(s, Offer(skb));
      if s.thresh > 0 && |s.core.queue| >= s.thresh
      then s'.dropped == s.dropped + [skb] && s'.accepted == s.accepted && s'.core == s.core
      else s'.dropped == s.dropped && s'.accepted == s.accepted + [skb] && s'.core.queue == s.core.queue + [skb]
  {
  }

  // ---------------------------------------------------------------- draining

  /** Steps other than a new packet; the send steps wait for the driver lock. */
  predicate WorkerSide<P>(e: Event<P>) { !e.Offer? }

  /** Worker-side steps left before the machine is at rest. */
  function Rank<P>(s: State<P>): nat {
    4 * |s.core.queue|
    + (if s.scheduling then 1 else 0)
    + (if s.core.work then 4 else 0)
    + (match s.worker case Idle => 0 case Returning => 1 case AtLock => 3 case Sending(_) => 4 case Holding(_) => 5)
  }

  /** Some worker-side step is enabled until the machine is at rest. */
  function NextWorkerStep<P>(s: State<P>): Event<P> {
    if s.scheduling then Commit
    else match s.worker
      case Idle => Run
      case AtLock => Look
      case Holding(_) => SendBegin
      case Sending(_) => SendEnd
      case Returning => Return
  }

  predicate AtRest<P>(s: State<P>) {
    s.core == Core([], false, false) && s.worker.Idle? && !s.scheduling
  }

  lemma EveryWorkerStepDescends<P>(s: State<P>, e: Event<P>)
    requires Inv(s) && Enabled(s, e) && WorkerSide(e)
    ensures Rank(Apply(s, e)) < Rank(s)
  {
  }

  lemma NeverStuck<P>(s: State<P>)
    requires Inv(s) && !AtRest(s)
    ensures WorkerSide(NextWorkerStep(s)) && Enabled(s, NextWorkerStep(s))
  {
  }

  /**
  Once no more packets are offered, every run of worker-side steps is at most Rank(s) long; if it
  cannot be prolonged, everything accepted has been delivered in order and the counter share is back to zero.
  */
  lemma {:induction false} DrainsCompletely<P(!new)>(s: State<P>, es: seq<Event<P>>)
    requires Inv(s) && CanRun(s, es) && forall i :: 0 <= i < |es| ==> WorkerSide(es[i])
    ensures |es| <= Rank(s)
    ensures var s' := Exec(s, es);
      (forall e :: WorkerSide(e) ==> !Enabled(s', e)) ==>
        AtRest(s') && s'.delivered == s.accepted && Outstanding(s') == 0 && Windows(s') == 0
    decreases |es|
  {
    if es == [] {
      if !AtRest(s) {
        NeverStuck(s);
      } else {
        assert s.accepted == s.delivered + [] + [] == s.delivered;
      }
    } else {
      StepKeepsInv(s, es[0]);
      EveryWorkerStepDescends(s, es[0]);
      DrainsCompletely(Apply(s, es[0]), es[1..]);
    }
  }
}
