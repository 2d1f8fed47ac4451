/**
The cfg80211 event queue: any number of producers in `wl_cfg80211_event` (list under `eq_lock`,
then `up`), one handler thread in `wl_event_handler` (`down`, stop test, dequeue, handler), and the
shutdown in `wl_deinit_cfg80211_priv` (signal, stop, flush).
*/
module EventQueue {
  import opened Common

  datatype Pc<E> =
    | Waiting          // in down_interruptible
    | Woken            // down returned 0, kthread_should_stop not yet tested
    | Taking           // about to call wl_deq_event
    | Handling(e: E)   // the handler of e is running
    | Dead             // left the loop

  /** `windows` counts producers between list_add_tail and up. */
  datatype State<E> = State(
    queue: seq<E>, sem: nat, windows: nat, pc: Pc<E>, signalled: bool, stopping: bool,
    enqueued: seq<E>, handled: seq<E>, discarded: seq<E>, failed: bool)

  datatype Event<E> =
    | Enqueue(e: E, memory: bool)
    | Up
    | Down | Interrupted | CheckStop | Dequeue | Finish
    | Signal | Stop | Flush

  predicate Init<E>(s: State<E>) {
    && |s.queue| == 0 && s.sem == 0 && s.windows == 0 && s.pc.Waiting? && !s.signalled && !s.stopping
    && |s.enqueued| == 0 && |s.handled| == 0 && |s.discarded| == 0 && !s.failed
  }

  predicate Enabled<E>(s: State<E>, e: Event<E>) {
    match e
    case Enqueue(_, _) => true
    case Up => s.windows > 0
    case Down => s.pc.Waiting? && s.sem > 0
    case Interrupted => s.pc.Waiting? && s.signalled
    case CheckStop => s.pc.Woken?
    case Dequeue => s.pc.Taking?
    case Finish => s.pc.Handling?
    case Signal => true
    case Stop => s.signalled
    case Flush => s.stopping && s.pc.Dead?   // kthread_stop returns once the thread is gone
  }

  function Apply<E>(s: State<E>, e: Event<E>): State<E>
    requires Enabled(s, e)
  {
    match e
    case Enqueue(x, memory) =>
      if memory then s.(queue := s.queue + [x], windows := s.windows + 1, enqueued := s.enqueued + [x]) else s
    case Up => s.(windows := s.windows - 1, sem := s.sem + 1)
    case Down => s.(sem := s.sem - 1, pc := Woken)
    case Interrupted => s.(pc := Dead)
    case CheckStop => s.(pc := if s.stopping then Dead else Taking)
    case Dequeue =>
      if |s.queue| == 0 then s.(failed := true)   // BUG()
      else s.(queue := s.queue[1..], pc := Handling(s.queue[0]))
    case Finish => s.(handled := s.handled + [s.pc.e], pc := Waiting)
    case Signal => s.(signalled := true)
    case Stop => s.(stopping := true)
    case Flush => s.(discarded := s.discarded + s.queue, queue := [])
  }

  function InHand<E>(pc: Pc<E>): seq<E> { match pc case Handling(e) => [e] case _ => [] }

  function Between<E>(pc: Pc<E>): nat { if pc.Woken? || pc.Taking? then 1 else 0 }

  predicate Control<E>(s: State<E>) {
    && !s.failed
    && (!s.pc.Dead? ==> |s.queue| == s.sem + s.windows + Between(s.pc))
    && (s.stopping ==> s.signalled)
    && (s.pc.Dead? ==> s.signalled)
    && (|s.discarded| > 0 ==> s.pc.Dead? && s.stopping)
  }

  ghost predicate Books<E>(s: State<E>) {
    s.enqueued == s.handled + InHand(s.pc) + s.discarded + s.queue
  }

  ghost predicate Inv<E>(s: State<E>) { Control(s) && Books(s) }

  lemma StepKeepsControl<E>(s: State<E>, e: Event<E>)
    requires Control(s) && Enabled(s, e)
    ensures Control(Apply(s, e))
  {
  }

  lemma DequeueKeepsBooks<E>(s: State<E>)
    requires Control(s) && Books(s) && s.pc.Taking?
    ensures Books(Apply(s, Dequeue))
  {
    assert s.queue == [s.queue[0]] + s.queue[1..];
    assert |s.discarded| == 0;
    Regroup(s.handled, [s.queue[0]], s.queue[1..]);
  }

  lemma StepKeepsBooks<E>(s: State<E>, e: Event<E>)
    requires Control(s) && Books(s) && Enabled(s, e)
    ensures Books(Apply(s, e))
  {
    match e {
      case Enqueue(x, memory) => Regroup(s.handled + InHand(s.pc) + s.discarded, s.queue, [x]);
      case Dequeue => DequeueKeepsBooks(s);
      case Finish => assert s.handled + [s.pc.e] + [] == s.handled + [s.pc.e];
      case Flush => Regroup(s.handled + InHand(s.pc), s.discarded, s.queue);
      case _ =>
    }
  }

  predicate CanRun<E>(s: State<E>, es: seq<Event<E>>)
    decreases |es|
  {
    |es| == 0 || (Enabled(s, es[0]) && CanRun(Apply(s, es[0]), es[1..]))
  }

  function Exec<E>(s: State<E>, es: seq<Event<E>>): State<E>
    requires CanRun(s, es)
    decreases |es|
  {
    if |es| == 0 then s else Exec(Apply(s, es[0]), es[1..])
  }

  lemma {:induction false} RunKeepsInv<E>(s: State<E>, es: seq<Event<E>>)
    requires Inv(s) && CanRun(s, es)
    ensures Inv(Exec(s, es))
    decreases |es|
  {
    if |es| > 0 {
      StepKeepsControl(s, es[0]);
      StepKeepsBooks(s, es[0]);
      RunKeepsInv(Apply(s, es[0]), es[1..]);
    }
  }

  /**
  In every interleaving: while the handler lives, the queue holds one event for each semaphore count,
  each producer that has not yet called up, and the handler itself between down and dequeue, so BUG()
  is never reached; the events accepted are the handled ones, the one in hand and the queued ones, in
  order; and events are discarded only after the handler has been stopped.
  */
  lemma {:induction false} QueueMatchesSemaphore<E>(s0: State<E>, es: seq<Event<E>>)
    requires Init(s0) && CanRun(s0, es)
    ensures var s := Exec(s0, es);
      && !s.failed
      && (!s.pc.Dead? ==> |s.queue| == s.sem + s.windows + (if s.pc.Woken? || s.pc.Taking? then 1 else 0))
      && (!s.pc.Dead? ==> s.enqueued == s.handled + InHand(s.pc) + s.queue)
      && (s.pc.Dead? ==> s.enqueued == s.handled + s.discarded + s.queue)
      && (|s.discarded| > 0 ==> s.stopping && s.pc.Dead?)
  {
    RunKeepsInv(s0, es);
    var s := Exec(s0, es);
    assert s.handled + InHand(s.pc) + [] == s.handled + InHand(s.pc);
    assert s.handled + [] == s.handled;
  }

  // ---------------------------------------------------------------- every accepted event is handled

  predicate Working<E>(e: Event<E>) { e.Up? || e.Down? || e.CheckStop? || e.Dequeue? || e.Finish? }

  function Rank<E>(s: State<E>): nat {
    5 * s.windows + 4 * s.sem + (match s.pc case Woken => 3 case Taking => 2 case Handling(_) => 1 case _ => 0)
  }

  /**
  With no new events and no shutdown, the machine works for at most Rank(s) steps, and when it can do
  no more it has handled every accepted event, in order.
  */
  lemma {:induction false} HandlesEverything<E(!new)>(s: State<E>, es: seq<Event<E>>)
    requires Inv(s) && !s.signalled && CanRun(s, es) && forall i :: 0 <= i < |es| ==> Working(es[i])
    ensures |es| <= Rank(s)
    ensures var s' := Exec(s, es);
      (forall e :: Working(e) ==> !Enabled(s', e)) ==> s'.pc.Waiting? && s'.handled == s.enqueued
    decreases |es|
  {
    if |es| == 0 {
      if !(s.pc.Waiting? && s.sem == 0 && s.windows == 0) {
        var next: Event<E> :=
          if s.windows > 0 then Up
          else match s.pc case Waiting => Down case Woken => CheckStop case Taking => Dequeue case _ => Finish;
        assert Working(next) && Enabled(s, next);
      } else {
        assert s.enqueued == s.handled + [] + s.discarded + s.queue == s.handled;
      }
    } else {
      StepKeepsControl(s, es[0]);
      StepKeepsBooks(s, es[0]);
      HandlesEverything(Apply(s, es[0]), es[1..]);
    }
  }

  // ---------------------------------------------------------------- shutting down

  /** What can still happen once the handler has been signalled and no more events come in. */
  predicate Ending<E>(e: Event<E>) {
    e.Up? || e.Down? || e.Interrupted? || e.CheckStop? || e.Dequeue? || e.Finish?
  }

  function EndingRank<E>(s: State<E>): nat {
    5 * s.windows + 4 * s.sem
    + (match s.pc case Woken => 4 case Taking => 3 case Handling(_) => 2 case Waiting => 1 case Dead => 0)
  }

  lemma EndingStepDescends<E>(s: State<E>, e: Event<E>)
    requires Inv(s) && s.signalled && Enabled(s, e) && Ending(e)
    ensures EndingRank(Apply(s, e)) < EndingRank(s) && Apply(s, e).signalled
  {
  }

  lemma EndingGoesOn<E>(s: State<E>) returns (e: Event<E>)
    requires Inv(s) && s.signalled && !s.pc.Dead?
    ensures Ending(e) && Enabled(s, e)
  {
    e := match s.pc case Waiting => Interrupted case Woken => CheckStop case Taking => Dequeue case _ => Finish;
  }

  /**
  Shutdown ends: once the handler has been signalled it takes a bounded number of steps, and when there is none
  left it is dead, so that kthread_stop returns.
  */
  lemma {:induction false} ShutdownEnds<E(!new)>(s: State<E>, es: seq<Event<E>>)
    requires Inv(s) && s.signalled && CanRun(s, es) && forall i :: 0 <= i < |es| ==> Ending(es[i])
    ensures |es| <= EndingRank(s) && Inv(Exec(s, es))
    ensures (forall e :: Ending(e) ==> !Enabled(Exec(s, es), e)) ==> Exec(s, es).pc.Dead?
    decreases |es|
  {
    if |es| == 0 {
      if !s.pc.Dead? {
        var _ := EndingGoesOn(s);
      }
    } else {
      StepKeepsControl(s, es[0]);
      StepKeepsBooks(s, es[0]);
      EndingStepDescends(s, es[0]);
      ShutdownEnds(Apply(s, es[0]), es[1..]);
    }
  }

  /** A thread that is told to stop before its stop test handles nothing any more. */
  lemma {:induction false} StoppedHandlesNoMore<E>(s: State<E>, es: seq<Event<E>>)
    requires s.stopping && CanRun(s, es) && (s.pc.Waiting? || s.pc.Woken? || s.pc.Dead?)
    ensures Exec(s, es).handled == s.handled
    decreases |es|
  {
    if |es| > 0 {
      StoppedHandlesNoMore(Apply(s, es[0]), es[1..]);
    }
  }

  /** After the flush nothing is queued, and every accepted event was handled or discarded, in order. */
  lemma FlushAccountsForAll<E>(s: State<E>)
    requires Inv(s) && s.stopping && s.pc.Dead?
    ensures var s' := Apply(s, Flush);
      s'.queue == [] && s'.enqueued == s'.handled + s'.discarded
  {
    StepKeepsBooks(s, Flush);
    var s' := Apply(s, Flush);
    assert s'.handled + [] == s'.handled && s'.handled + s'.discarded + [] == s'.handled + s'.discarded;
  }

  lemma {:induction false} Extend<E>(s: State<E>, es: seq<Event<E>>, e: Event<E>) returns (longer: seq<Event<E>>)
    requires CanRun(s, es) && Enabled(Exec(s, es), e)
    ensures longer == es + [e] && CanRun(s, longer) && Exec(s, longer) == Apply(Exec(s, es), e)
    decreases |es|
  {
    longer := es + [e];
    if |es| == 0 {
      assert longer[1..] == [];
    } else {
      var tail := Extend(Apply(s, es[0]), es[1..], e);
      assert longer[1..] == tail;
    }
  }

  /** The handler runs to its end, whatever it is doing when the stop comes. */
  lemma {:induction false} RunToTheEnd<E>(s: State<E>) returns (es: seq<Event<E>>)
    requires Inv(s) && s.signalled && s.stopping
    ensures CanRun(s, es) && Inv(Exec(s, es)) && Exec(s, es).pc.Dead? && Exec(s, es).stopping
    ensures Exec(s, es).enqueued == s.enqueued
    decreases EndingRank(s)
  {
    if s.pc.Dead? {
      es := [];
    } else {
      var e := EndingGoesOn(s);
      StepKeepsControl(s, e);
      StepKeepsBooks(s, e);
      EndingStepDescends(s, e);
      var rest := RunToTheEnd(Apply(s, e));
      es := [e] + rest;
      assert es[1..] == rest;
    }
  }

  /**
  wl_deinit_cfg80211_priv from any state: signal, stop, the handler's end, flush. Then nothing is queued and
  every event accepted so far was handled or discarded.
  */
  lemma DetachRun<E>(s: State<E>) returns (es: seq<Event<E>>)
    requires Inv(s)
    ensures CanRun(s, es)
    ensures var s' := Exec(s, es);
      && s'.pc.Dead? && s'.stopping && s'.queue == []
      && s'.enqueued == s.enqueued == s'.handled + s'.discarded
  {
    StepKeepsControl(s, Signal);
    StepKeepsBooks(s, Signal);
    var s1 := Apply(s, Signal);
    StepKeepsControl(s1, Stop);
    StepKeepsBooks(s1, Stop);
    var s2 := Apply(s1, Stop);
    var rest := RunToTheEnd(s2);
    FlushAccountsForAll(Exec(s2, rest));
    var toFlush := Extend(s2, rest, Flush);
    var fromStop := [Stop] + toFlush;
    assert fromStop[1..] == toFlush;
    es := [Signal] + fromStop;
    assert es[1..] == fromStop;
  }

  // ---------------------------------------------------------------- the code

  /**
  The functions themselves, each undisturbed; a ghost copy of the machine takes its step at every
  operation on the list, the semaphore and the thread's stop flag.
  */
  class EventList<E> {
    var queue: seq<E>
    var sem: nat          // the kernel's semaphore event_sync
    var stopping: bool    // kthread_should_stop
    ghost var machine: State<E>

    ghost predicate InStep()
      reads this
    {
      Inv(machine) && machine.queue == queue && machine.sem == sem && machine.stopping == stopping
    }

    constructor (ghost start: State<E>)
      requires Inv(start) && start.queue == [] && start.sem == 0 && !start.stopping
      ensures InStep() && machine == start
    {
      queue, sem, stopping, machine := [], 0, false, start;
    }

    ghost method Advance(e: Event<E>)
      requires Inv(machine) && Enabled(machine, e)
      modifies this`machine
      ensures Inv(machine) && machine == Apply(old(machine), e)
    {
      StepKeepsControl(machine, e);
      StepKeepsBooks(machine, e);
      machine := Apply(machine, e);
    }

    /** wl_enq_event; an error means nothing was queued. */
    method Enq(e: E, memory: bool) returns (ok: bool)
      requires InStep()
      modifies this`queue, this`machine
      ensures InStep() && ok == memory && machine == Apply(old(machine), Enqueue(e, memory))
    {
      if !memory {
        Advance(Enqueue(e, memory));
        return false;
      }
      queue := queue + [e];
      Advance(Enqueue(e, memory));
      ok := true;
    }

    /** wl_cfg80211_event: the handler is woken only if the event was queued. */
    method Notify(e: E, memory: bool)
      requires InStep()
      modifies this`queue, this`sem, this`machine
      ensures InStep() && machine.pc == old(machine.pc) && machine.windows == old(machine.windows)
      ensures memory ==> queue == old(queue) + [e] && sem == old(sem) + 1
      ensures !memory ==> queue == old(queue) && sem == old(sem)
    {
      var ok := Enq(e, memory);
      if ok {
        sem := sem + 1;
        Advance(Up);
      }
    }

    /** wl_deq_event, as the handler calls it: the machine's invariant says there is an event. */
    method Deq() returns (e: seq<E>)
      requires InStep() && machine.pc.Taking?
      modifies this`queue, this`machine
      ensures InStep() && machine == Apply(old(machine), Dequeue)
      ensures |e| == 1 && old(queue) == e + queue
    {
      e := [];
      if queue != [] {
        e := [queue[0]];
        queue := queue[1..];
      }
      Advance(Dequeue);
    }

    /** Once around the loop of wl_event_handler: the oldest event is handled, unless the thread is to stop. */
    method HandleNext() returns (e: seq<E>)
      requires InStep() && machine.pc.Waiting? && sem > 0
      modifies this`queue, this`sem, this`machine
      ensures InStep() && sem == old(sem) - 1
      ensures stopping ==> e == [] && queue == old(queue) && machine.pc.Dead?
      ensures !stopping ==> |e| == 1 && old(queue) == e + queue && machine.pc.Waiting?
      ensures machine.handled == old(machine.handled) + e
    {
      sem := sem - 1;
      Advance(Down);
      e := [];
      if stopping {
        Advance(CheckStop);
      } else {
        Advance(CheckStop);
        e := Deq();
        if e == [] {
          assert false;                    // BUG()
        }
        Advance(Finish);
      }
    }

    /** wl_flush_eq, after the thread is gone: frees every queued event, oldest first. */
    method FlushAll() returns (freed: seq<E>)
      requires InStep() && stopping && machine.pc.Dead?
      modifies this`queue, this`machine
      ensures InStep() && machine == Apply(old(machine), Flush)
      ensures freed == old(queue) && queue == []
    {
      freed := [];
      while queue != []
        invariant freed + queue == old(queue) && machine == old(machine)
        decreases |queue|
      {
        freed, queue := freed + [queue[0]], queue[1..];
      }
      Advance(Flush);
    }
  }
}
