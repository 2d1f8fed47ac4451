/**
The deferred-work engine of the driver: transmit worker, DPC, multicast work item, one-shot tasks
and any number of timers, all interleaved, all counting in `wl->callbacks`, and all going through
the driver lock (WL_LOCK).

The library runs only while some thread holds the driver lock (inside wlc_dpc, wlc_sendpkt, t->fn,
an ioctl, ...). From there it may arm and cancel timers and move the interrupt mask, one entry point
at a time. `owner` says who holds the lock and `busy` which entry point is in progress.
*/
module Engine {
  import opened Common
  import Tx = TxSpec
  import Dpc = DpcSpec
  import Timer = TimerSpec

  datatype Owner = Free | ByDpc | ByTimer(id: nat) | BySend | ByMulticast | ByUser

  datatype Busy = Quiet | OnTimer(id: nat) | OnMask

  /** The multicast item: Entered before its atomic_dec, InBody after it, McLocked under the driver lock. */
  datatype McPc = McIdle | McEntered | InBody | McLocked

  datatype World = World(
    callbacks: int,
    owner: Owner, busy: Busy,
    tx: Tx.State<nat>,
    dpc: Dpc.State,
    mcQueued: bool, mcPc: McPc, mcWindows: nat,
    taskLive: nat, taskWindows: nat,
    timers: seq<Timer.State>)

  datatype Event =
    | TxEv(tx: Tx.Event<nat>)
    | DpcEv(dpc: Dpc.Event)
    | TimerEv(id: nat, timer: Timer.Event)
    | NewTimer(t: Timer.State)
    | McRequest | McCount | McRun | McDec | McLock | McSkip | McUnlock
    | TaskSpawn(memory: bool) | TaskCount | TaskFinish
    | UserLock | UserUnlock

  predicate Passive(w: World) { w.dpc.passive }

  /** The driver as wl_attach leaves it, in either mode. */
  predicate Init(w: World) {
    && w.callbacks == 0 && w.owner.Free? && w.busy.Quiet?
    && Tx.Init(w.tx) && Dpc.Init(w.dpc)
    && !w.mcQueued && w.mcPc.McIdle? && w.mcWindows == 0
    && w.taskLive == 0 && w.taskWindows == 0
    && |w.timers| == 0
  }

  /** The lock holder is inside the library. */
  predicate InBlob(w: World) {
    match w.owner
    case Free => false
    case ByDpc => w.dpc.pc.InBlob?
    case ByTimer(id) => id < |w.timers| && w.timers[id].body.InFn?
    case _ => true
  }

  predicate TxMayStep(w: World, e: Tx.Event<nat>) {
    && Passive(w) && Tx.Enabled(w.tx, e)
    && (e.SendBegin? ==> w.owner.Free?)
    && (e.SendEnd? ==> w.busy.Quiet?)
  }

  predicate DpcMayStep(w: World, e: Dpc.Event) {
    && Dpc.Enabled(w.dpc, e)
    && (e.Lock? ==> w.owner.Free?)
    && (e.BlobReturn? ==> w.busy.Quiet?)
    && (Dpc.IsMaskStep(e) ==> InBlob(w) && if e.ResetOff? || e.Down? then w.busy.Quiet? else w.busy.OnMask?)
  }

  predicate TimerMayStep(w: World, id: nat, e: Timer.Event) {
    && id < |w.timers| && Timer.Enabled(w.timers[id], e)
    && (e.Lock? ==> w.owner.Free? && e.task == Passive(w))
    && (e.HandOver? ==> Passive(w))
    && (e.FnDone? ==> w.busy.Quiet?)
    && (Timer.IsOp(e) ==> InBlob(w) && if e.AddBegin? || e.DelBegin? then w.busy.Quiet? else w.busy == OnTimer(id))
  }

  /** Each thread's own position, and the lock. */
  predicate Enabled(w: World, e: Event) {
    match e
    case TxEv(te) => TxMayStep(w, te)
    case DpcEv(de) => DpcMayStep(w, de)
    case TimerEv(id, te) => TimerMayStep(w, id, te)
    case NewTimer(t) => Timer.Init(t)
    case McRequest => Passive(w)
    case McCount => w.mcWindows > 0
    case McRun => w.mcQueued && w.mcPc.McIdle?
    case McDec => w.mcPc.McEntered?
    case McLock => w.mcPc.InBody? && w.owner.Free?
    case McSkip => w.mcPc.InBody?
    case McUnlock => w.mcPc.McLocked? && w.busy.Quiet?
    case TaskSpawn(_) => true
    case TaskCount => w.taskWindows > 0
    case TaskFinish => w.taskLive > 0
    case UserLock => w.owner.Free?
    case UserUnlock => w.owner.ByUser? && w.busy.Quiet?
  }

  function ApplyTx(w: World, e: Tx.Event<nat>): World
    requires TxMayStep(w, e)
  {
    w.(tx := Tx.Apply(w.tx, e), callbacks := w.callbacks + Tx.Delta(w.tx, e),
       owner := if e.SendBegin? then BySend else if e.SendEnd? then Free else w.owner)
  }

  function ApplyDpc(w: World, e: Dpc.Event): World
    requires DpcMayStep(w, e)
  {
    var dpc := Dpc.Apply(w.dpc, e);
    w.(dpc := dpc, callbacks := w.callbacks + Dpc.Delta(w.dpc, e),
       owner := if e.Lock? then ByDpc else if e.Unlock? then Free else w.owner,
       busy := if Dpc.IsMaskStep(e) then if dpc.mask.NoMask? then Quiet else OnMask else w.busy)
  }

  function ApplyTimer(w: World, id: nat, e: Timer.Event): World
    requires TimerMayStep(w, id, e)
  {
    var t := Timer.Apply(w.timers[id], e);
    w.(timers := w.timers[id := t], callbacks := w.callbacks + Timer.Delta(w.timers[id], e),
       owner := if e.Lock? then ByTimer(id) else if e.Unlock? then Free else w.owner,
       busy := if Timer.IsOp(e) then if t.op.NoOp? then Quiet else OnTimer(id) else w.busy)
  }

  function Apply(w: World, e: Event): World
    requires Enabled(w, e)
  {
    match e
    case TxEv(te) => ApplyTx(w, te)
    case DpcEv(de) => ApplyDpc(w, de)
    case TimerEv(id, te) => ApplyTimer(w, id, te)
    case NewTimer(t) => w.(timers := w.timers + [t])
    case McRequest => if w.mcQueued then w else w.(mcQueued := true, mcWindows := w.mcWindows + 1)
    case McCount => w.(mcWindows := w.mcWindows - 1, callbacks := w.callbacks + 1)
    case McRun => w.(mcQueued := false, mcPc := McEntered)
    case McDec => w.(mcPc := InBody, callbacks := w.callbacks - 1)
    case McLock => w.(mcPc := McLocked, owner := ByMulticast)
    case McSkip => w.(mcPc := McIdle)
    case McUnlock => w.(mcPc := McIdle, owner := Free)
    case TaskSpawn(memory) =>
      if memory then w.(taskLive := w.taskLive + 1, taskWindows := w.taskWindows + 1) else w
    case TaskCount => w.(taskWindows := w.taskWindows - 1, callbacks := w.callbacks + 1)
    case TaskFinish => w.(taskLive := w.taskLive - 1, callbacks := w.callbacks - 1)
    case UserLock => w.(owner := ByUser)
    case UserUnlock => w.(owner := Free)
  }

  // ---------------------------------------------------------------- sums over the timers

  function OutstandingTo(ts: seq<Timer.State>, n: nat): int
    requires n <= |ts|
  {
    if n == 0 then 0 else OutstandingTo(ts, n - 1) + Timer.Outstanding(ts[n - 1])
  }

  function LeakedTo(ts: seq<Timer.State>, n: nat): int
    requires n <= |ts|
  {
    if n == 0 then 0 else LeakedTo(ts, n - 1) + ts[n - 1].leaked
  }

  function WindowsTo(ts: seq<Timer.State>, n: nat): int
    requires n <= |ts|
  {
    if n == 0 then 0 else WindowsTo(ts, n - 1) + Timer.Windows(ts[n - 1])
  }

  /** What the first n timers contribute to the counter. */
  function NetTo(ts: seq<Timer.State>, n: nat): int
    requires n <= |ts|
  {
    OutstandingTo(ts, n) + LeakedTo(ts, n) - WindowsTo(ts, n)
  }

  function NetOf(t: Timer.State): int { Timer.Outstanding(t) + t.leaked - Timer.Windows(t) }

  lemma {:induction false} NetUpdate(ts: seq<Timer.State>, n: nat, i: nat, t: Timer.State)
    requires i < |ts| && n <= |ts|
    ensures NetTo(ts[i := t], n) == NetTo(ts, n) + if i < n then NetOf(t) - NetOf(ts[i]) else 0
  {
    if n > 0 {
      NetUpdate(ts, n - 1, i, t);
    }
  }

  lemma {:induction false} NetPrefix(ts: seq<Timer.State>, t: Timer.State, n: nat)
    requires n <= |ts|
    ensures NetTo(ts + [t], n) == NetTo(ts, n)
  {
    if n > 0 {
      NetPrefix(ts, t, n - 1);
    }
  }

  // ---------------------------------------------------------------- what is outstanding

  /**
  Work the driver still has to count down: the dispatched transmit worker, the passive-mode DPC,
  the multicast item, one-shot tasks, and pending or in-flight timers with their tasks.
  */
  function Outstanding(w: World): int {
    Tx.Outstanding(w.tx) + Dpc.Outstanding(w.dpc) + OneIf(w.mcQueued) + OneIf(w.mcPc.McEntered?) + w.taskLive
    + OutstandingTo(w.timers, |w.timers|)
  }

  /** Threads between a successful schedule_work and the atomic_inc that accounts for it. */
  function Windows(w: World): int {
    Tx.Windows(w.tx) + Dpc.Windows(w.dpc) + w.mcWindows + w.taskWindows + WindowsTo(w.timers, |w.timers|)
  }

  /** Counts stranded by expiries whose task could not be allocated. */
  function Stranded(w: World): int { LeakedTo(w.timers, |w.timers|) }

  function NetOther(w: World): int {
    Tx.Outstanding(w.tx) - Tx.Windows(w.tx) + Dpc.Outstanding(w.dpc) - Dpc.Windows(w.dpc)
    + OneIf(w.mcQueued) + OneIf(w.mcPc.McEntered?) - w.mcWindows + w.taskLive - w.taskWindows
  }

  /** Nothing pending, in flight, being handed over or being cancelled on this timer. */
  predicate TimerQuiet(t: Timer.State) {
    && !t.pending && t.expired == 0 && t.tasks == 0 && t.tails == 0 && !t.byTask
    && (t.body.NoBody? || t.body.Leaving?) && !t.op.AddCounted? && !t.op.DelStopped?
  }

  lemma {:induction false} TimersSum(ts: seq<Timer.State>, n: nat)
    requires n <= |ts|
    ensures OutstandingTo(ts, n) >= 0 && (OutstandingTo(ts, n) == 0 <==> forall i :: 0 <= i < n ==> TimerQuiet(ts[i]))
    ensures WindowsTo(ts, n) >= 0 && (WindowsTo(ts, n) == 0 <==> forall i :: 0 <= i < n ==> ts[i].windows == 0)
  {
    if n > 0 {
      TimersSum(ts, n - 1);
    }
  }

  /** What it means that nothing is outstanding, and that no window is open, in terms of the threads themselves. */
  lemma NothingOutstandingMeans(w: World)
    ensures Outstanding(w) == 0 <==>
      && !w.tx.core.work && !w.tx.worker.AtLock? && !w.tx.worker.Holding? && !w.tx.worker.Sending?
      && (Passive(w) ==> !w.dpc.queued && (w.dpc.pc.Idle? || w.dpc.pc.Enabling? || w.dpc.pc.Leaving?))
      && !w.mcQueued && !w.mcPc.McEntered? && w.taskLive == 0
      && forall i :: 0 <= i < |w.timers| ==> TimerQuiet(w.timers[i])
    ensures Windows(w) == 0 <==>
      && !w.tx.scheduling && !w.dpc.isr.Counting? && w.mcWindows == 0 && w.taskWindows == 0
      && forall i :: 0 <= i < |w.timers| ==> w.timers[i].windows == 0
  {
    TimersSum(w.timers, |w.timers|);
  }

  // ---------------------------------------------------------------- invariants

  /** The lock holder is exactly the thread whose position says so, and the library is in at most one entry point. */
  ghost predicate Locking(w: World) {
    && (w.owner.ByDpc? <==> Dpc.HoldsLock(w.dpc.pc))
    && (w.owner.BySend? <==> w.tx.worker.Sending?)
    && (w.owner.ByMulticast? <==> w.mcPc.McLocked?)
    && (w.owner.ByTimer? ==> w.owner.id < |w.timers|)
    && (forall i :: 0 <= i < |w.timers| ==> (w.timers[i].body.NoBody? <==> w.owner != ByTimer(i)))
    && (w.busy.OnMask? <==> !w.dpc.mask.NoMask?)
    && (w.busy.OnTimer? ==> w.busy.id < |w.timers|)
    && (forall i :: 0 <= i < |w.timers| ==> (w.timers[i].op.NoOp? <==> w.busy != OnTimer(i)))
    && (!w.busy.Quiet? ==> InBlob(w))
  }

  ghost predicate Components(w: World) {
    && Tx.Inv(w.tx) && Dpc.Inv(w.dpc)
    && forall i :: 0 <= i < |w.timers| ==> Timer.Inv(w.timers[i])
  }

  predicate Ledger(w: World) { w.callbacks == NetOther(w) + NetTo(w.timers, |w.timers|) }

  ghost predicate Inv(w: World) { Locking(w) && Components(w) && Ledger(w) }

  /** The driver lock really excludes what the parts need it to exclude. */
  lemma LockGivesExclusive(w: World, e: Event)
    requires Locking(w) && Enabled(w, e)
    ensures e.DpcEv? ==> Dpc.Exclusive(w.dpc, e.dpc)
    ensures e.TimerEv? ==> Timer.Exclusive(w.timers[e.id], e.timer)
  {
  }

  lemma TimerBodyKeepsLocking(w: World, id: nat, e: Timer.Event)
    requires Locking(w) && TimerMayStep(w, id, e) && !Timer.IsOp(e)
    ensures Locking(ApplyTimer(w, id, e))
  {
  }

  lemma TimerOpKeepsLocking(w: World, id: nat, e: Timer.Event)
    requires Locking(w) && TimerMayStep(w, id, e) && Timer.IsOp(e)
    ensures Locking(ApplyTimer(w, id, e))
  {
  }

  lemma DpcStepKeepsLocking(w: World, e: Dpc.Event)
    requires Locking(w) && DpcMayStep(w, e)
    ensures Locking(ApplyDpc(w, e))
  {
  }

  lemma TxStepKeepsLocking(w: World, e: Tx.Event<nat>)
    requires Locking(w) && TxMayStep(w, e)
    ensures Locking(ApplyTx(w, e))
  {
  }

  lemma StepKeepsLocking(w: World, e: Event)
    requires Locking(w) && Enabled(w, e)
    ensures Locking(Apply(w, e))
  {
    match e {
      case TimerEv(id, te) =>
        if Timer.IsOp(te) { TimerOpKeepsLocking(w, id, te); } else { TimerBodyKeepsLocking(w, id, te); }
      case DpcEv(de) => DpcStepKeepsLocking(w, de);
      case TxEv(te) => TxStepKeepsLocking(w, te);
      case _ =>
    }
  }

  lemma {:induction false} TxStep(w: World, e: Tx.Event<nat>)
    requires Components(w) && Ledger(w) && TxMayStep(w, e)
    ensures Components(ApplyTx(w, e)) && Ledger(ApplyTx(w, e))
  {
    Tx.StepKeepsInv(w.tx, e);
  }

  lemma {:induction false} DpcStep(w: World, e: Dpc.Event)
    requires Locking(w) && Components(w) && Ledger(w) && DpcMayStep(w, e)
    ensures Components(ApplyDpc(w, e)) && Ledger(ApplyDpc(w, e))
  {
    LockGivesExclusive(w, DpcEv(e));
    Dpc.StepKeepsInv(w.dpc, e);
    Dpc.StepLedger(w.dpc, e);
  }

  lemma {:induction false} TimerStep(w: World, id: nat, e: Timer.Event)
    requires Locking(w) && Components(w) && Ledger(w) && TimerMayStep(w, id, e)
    ensures Components(ApplyTimer(w, id, e)) && Ledger(ApplyTimer(w, id, e))
  {
    LockGivesExclusive(w, TimerEv(id, e));
    Timer.StepKeepsInv(w.timers[id], e);
    Timer.StepLedger(w.timers[id], e);
    NetUpdate(w.timers, |w.timers|, id, Timer.Apply(w.timers[id], e));
  }

  lemma InitTimerIsQuiet(t: Timer.State)
    requires Timer.Init(t)
    ensures Timer.Inv(t) && NetOf(t) == 0
  {
  }

  lemma {:induction false} NewTimerStep(w: World, t: Timer.State)
    requires Components(w) && Ledger(w) && Timer.Inv(t) && NetOf(t) == 0
    ensures var w' := w.(timers := w.timers + [t]); Components(w') && Ledger(w')
  {
    NetPrefix(w.timers, t, |w.timers|);
  }

  /** The multicast item, one-shot tasks and users of the lock touch none of the other parts. */
  lemma {:induction false} SmallStep(w: World, e: Event)
    requires Inv(w) && Enabled(w, e) && !e.TxEv? && !e.DpcEv? && !e.TimerEv? && !e.NewTimer?
    ensures Ledger(Apply(w, e)) && Components(Apply(w, e))
  {
  }

  lemma {:induction false} OtherStep(w: World, e: Event)
    requires Inv(w) && Enabled(w, e) && !e.TxEv? && !e.DpcEv? && !e.TimerEv?
    ensures Ledger(Apply(w, e)) && Components(Apply(w, e))
  {
    if e.NewTimer? {
      InitTimerIsQuiet(e.t);
      NewTimerStep(w, e.t);
    } else {
      SmallStep(w, e);
    }
  }

  lemma {:induction false} StepKeepsInv(w: World, e: Event)
    requires Inv(w) && Enabled(w, e)
    ensures Inv(Apply(w, e))
  {
    StepKeepsLocking(w, e);
    match e {
      case TxEv(te) => TxStep(w, te);
      case DpcEv(de) => DpcStep(w, de);
      case TimerEv(id, te) => TimerStep(w, id, te);
      case _ => OtherStep(w, e);
    }
  }

  // ---------------------------------------------------------------- every run

  predicate CanRun(w: World, es: seq<Event>)
    decreases |es|
  {
    es == [] || (Enabled(w, es[0]) && CanRun(Apply(w, es[0]), es[1..]))
  }

  function Exec(w: World, es: seq<Event>): World
    requires CanRun(w, es)
    decreases |es|
  {
    if es == [] then w else Exec(Apply(w, es[0]), es[1..])
  }

  lemma {:induction false} RunKeepsInv(w: World, es: seq<Event>)
    requires Inv(w) && CanRun(w, es)
    ensures Inv(Exec(w, es))
    decreases |es|
  {
    if es != [] {
      StepKeepsInv(w, es[0]);
      RunKeepsInv(Apply(w, es[0]), es[1..]);
    }
  }

  lemma {:induction false} InitHasInv(w: World)
    requires Init(w)
    ensures Inv(w)
  {
  }

  lemma {:induction false} ReachableHasInv(w0: World, es: seq<Event>)
    requires Init(w0) && CanRun(w0, es)
    ensures Inv(Exec(w0, es))
  {
    InitHasInv(w0);
    RunKeepsInv(w0, es);
  }

  /**
  The counter accounts exactly for the outstanding work, in every interleaving: short of it by one
  for every thread between a successful schedule_work and its atomic_inc, and above it by one for
  every expiry lost to a failed allocation.
  */
  lemma {:induction false} CallbacksCountTheWork(w0: World, es: seq<Event>)
    requires Init(w0) && CanRun(w0, es)
    ensures var w := Exec(w0, es);
      && w.callbacks + Windows(w) == Outstanding(w) + Stranded(w)
      && (Windows(w) == 0 && Stranded(w) == 0 ==> (w.callbacks == 0 <==> Outstanding(w) == 0))
  {
    ReachableHasInv(w0, es);
  }

  /**
  In every interleaving at most one DPC is asked for, queued or running before its wl_intrson, with
  interrupts off throughout; while the interface is up interrupts are on, or a DPC is on its way, or
  wl_reset is about to restore them, and interrupts are on only while it is up; no ASSERT(0), no
  ASSERT(resched == FALSE) and no add_timer on a pending timer is ever reached.
  */
  lemma {:induction false} OneDpcAndNoAssertion(w0: World, es: seq<Event>)
    requires Init(w0) && CanRun(w0, es)
    ensures var w := Exec(w0, es);
      && Dpc.Live(w.dpc) <= 1
      && (Dpc.Live(w.dpc) == 1 ==> !w.dpc.intr)
      && (w.dpc.intr ==> w.dpc.up && !w.dpc.resched)
      && (w.dpc.up ==> w.dpc.intr || Dpc.Live(w.dpc) == 1 || (w.dpc.mask.Saved? && w.dpc.mask.saved))
      && !w.dpc.failed && !w.tx.failed
      && forall i :: 0 <= i < |w.timers| ==> !w.timers[i].failed
  {
    ReachableHasInv(w0, es);
  }

  /**
  The books of every timer, in every interleaving: each arming is matched by a call of fn, a
  cancellation, or the timer still being set; between entry points a timer that is not set is not
  pending, and a set timer is pending or has an expiry in flight that will still look at it, unless a task
  allocation failed.
  */
  lemma {:induction false} TimerBooks(w0: World, es: seq<Event>, id: nat)
    requires Init(w0) && CanRun(w0, es) && id < |Exec(w0, es).timers|
    ensures var w := Exec(w0, es); var t := w.timers[id];
      && t.armings == t.calls + t.cancels + (if t.armed then 1 else 0)
      && (w.busy != OnTimer(id) ==> (t.pending ==> t.armed))
      && (w.busy != OnTimer(id) && t.leaked == 0 ==> (t.armed ==> t.pending || Timer.WillCheck(t)))
  {
    ReachableHasInv(w0, es);
  }

  /** The transmit queue loses no wakeup and keeps its order in every interleaving of the whole driver. */
  lemma {:induction false} NoLostWakeupAndFifo(w0: World, es: seq<Event>)
    requires Init(w0) && CanRun(w0, es)
    ensures Tx.AwakeAndOrdered(Exec(w0, es).tx)
  {
    ReachableHasInv(w0, es);
    Tx.InvGivesOrder(Exec(w0, es).tx);
  }

  // ---------------------------------------------------------------- what waiting on the counter means

  /**
  wl_free leaves its loop at the first poll that finds the counter not positive. That is the case
  exactly when the open windows outnumber, or balance, the work and the stranded counts.
  */
  lemma {:induction false} PollEndsExactly(w0: World, es: seq<Event>)
    requires Init(w0) && CanRun(w0, es)
    ensures var w := Exec(w0, es);
      && (w.callbacks <= 0 <==> Windows(w) >= Outstanding(w) + Stranded(w))
      && Outstanding(w) >= 0 && Stranded(w) >= 0 && Windows(w) >= 0
  {
    ReachableHasInv(w0, es);
    var w := Exec(w0, es);
    TotalsAreNatural(w.timers, |w.timers|);
  }

  lemma {:induction false} TotalsAreNatural(ts: seq<Timer.State>, n: nat)
    requires n <= |ts|
    ensures OutstandingTo(ts, n) >= 0 && LeakedTo(ts, n) >= 0 && WindowsTo(ts, n) >= 0
  {
    if n > 0 {
      TotalsAreNatural(ts, n - 1);
    }
  }

  /** The window is real: the counter reads zero right after a multicast item has been queued. */
  lemma ZeroIsNotAlwaysIdle(w: World)
    requires Init(w) && Passive(w)
    ensures CanRun(w, [McRequest])
    ensures Exec(w, [McRequest]).callbacks == 0 && Exec(w, [McRequest]).mcQueued && Windows(Exec(w, [McRequest])) == 1
  {
    var w1 := Apply(w, McRequest);
    assert [McRequest][1..] == [];
    assert CanRun(w1, []) && Exec(w1, []) == w1;
  }

  lemma {:induction false} LeakedUpdate(ts: seq<Timer.State>, n: nat, i: nat, t: Timer.State)
    requires i < |ts| && n <= |ts|
    ensures LeakedTo(ts[i := t], n) == LeakedTo(ts, n) + if i < n then t.leaked - ts[i].leaked else 0
  {
    if n > 0 {
      LeakedUpdate(ts, n - 1, i, t);
    }
  }

  lemma {:induction false} LeakedPrefix(ts: seq<Timer.State>, t: Timer.State, n: nat)
    requires n <= |ts|
    ensures LeakedTo(ts + [t], n) == LeakedTo(ts, n)
  {
    if n > 0 {
      LeakedPrefix(ts, t, n - 1);
    }
  }

  /** An expiry dropped because its task could not be allocated. */
  predicate IsLoss(e: Event) { e.TimerEv? && e.timer == Timer.HandOver(false) }

  function Losses(es: seq<Event>): nat {
    if |es| == 0 then 0 else OneIf(IsLoss(es[0])) + Losses(es[1..])
  }

  lemma TimerLoss(t: Timer.State, e: Timer.Event)
    requires Timer.Enabled(t, e)
    ensures Timer.Apply(t, e).leaked == t.leaked + OneIf(e == Timer.HandOver(false))
  {
  }

  lemma {:induction false} StepCountsLoss(w: World, e: Event)
    requires Enabled(w, e)
    ensures Stranded(Apply(w, e)) == Stranded(w) + OneIf(IsLoss(e))
  {
    match e {
      case TimerEv(id, te) =>
        TimerLoss(w.timers[id], te);
        LeakedUpdate(w.timers, |w.timers|, id, Timer.Apply(w.timers[id], te));
      case NewTimer(t) => LeakedPrefix(w.timers, t, |w.timers|);
      case _ =>
    }
  }

  /** The stranded counts are exactly the expiries dropped for lack of memory; none is ever given back. */
  lemma {:induction false} StrandedAreLosses(w: World, es: seq<Event>)
    requires CanRun(w, es)
    ensures Stranded(Exec(w, es)) == Stranded(w) + Losses(es)
    decreases |es|
  {
    if |es| > 0 {
      StepCountsLoss(w, es[0]);
      StrandedAreLosses(Apply(w, es[0]), es[1..]);
    }
  }

  lemma {:induction false} AnyLoss(es: seq<Event>)
    ensures Losses(es) == 0 <==> forall i :: 0 <= i < |es| ==> !IsLoss(es[i])
  {
    if |es| > 0 {
      AnyLoss(es[1..]);
      assert forall i :: 0 < i < |es| ==> es[i] == es[1..][i - 1];
      assert forall i :: 0 <= i < |es| - 1 ==> es[1..][i] == es[i + 1];
    }
  }

  /**
  From any state on: the counter is not positive exactly when as many windows are open as work, earlier
  stranded counts and later losses together; with no window open, one loss keeps it positive for good.
  */
  lemma {:induction false} StrandedForGood(w: World, es: seq<Event>)
    requires Inv(w) && CanRun(w, es)
    ensures var w' := Exec(w, es);
      && Stranded(w') == Stranded(w) + Losses(es)
      && (w'.callbacks <= 0 <==> Windows(w') >= Outstanding(w') + Stranded(w) + Losses(es))
      && (Stranded(w) + Losses(es) > 0 && Windows(w') == 0 ==> w'.callbacks > 0)
  {
    StrandedAreLosses(w, es);
    RunKeepsInv(w, es);
    TotalsAreNatural(Exec(w, es).timers, |Exec(w, es).timers|);
  }

  // ---------------------------------------------------------------- wl_reset among everything else

  lemma OtherStepsKeepMask(w: World, e: Event)
    requires Locking(w) && Enabled(w, e) && w.dpc.mask.Saved? && !w.dpc.intr && e != DpcEv(Dpc.ResetRestore)
    ensures Apply(w, e).dpc.mask == w.dpc.mask && !Apply(w, e).dpc.intr
  {
    LockGivesExclusive(w, e);
  }

  /**
  wl_reset restores the mask it found, whatever the whole driver does between its wl_intrsoff and its
  wl_intrsrestore: interrupts stay off meanwhile, and then are as they were.
  */
  lemma {:induction false} ResetRestoresMask(w: World, es: seq<Event>)
    requires Locking(w) && w.dpc.mask.Saved? && !w.dpc.intr
    requires CanRun(w, es) && forall i :: 0 <= i < |es| ==> es[i] != DpcEv(Dpc.ResetRestore)
    ensures var w' := Exec(w, es);
      && w'.dpc.mask == w.dpc.mask && !w'.dpc.intr
      && (Enabled(w', DpcEv(Dpc.ResetRestore)) ==>
            Apply(w', DpcEv(Dpc.ResetRestore)).dpc.intr == w.dpc.mask.saved)
    decreases |es|
  {
    if |es| > 0 {
      OtherStepsKeepMask(w, es[0]);
      StepKeepsLocking(w, es[0]);
      ResetRestoresMask(Apply(w, es[0]), es[1..]);
    }
  }

  // ---------------------------------------------------------------- wl_dpc while the interface is down

  lemma DownStepStaysOut(w: World, e: Event)
    requires Enabled(w, e) && !w.dpc.up && !w.dpc.pc.InBlob? && e != DpcEv(Dpc.GoUp)
    ensures !Apply(w, e).dpc.up && !Apply(w, e).dpc.pc.InBlob?
  {
    match e {
      case DpcEv(de) => Dpc.DownStaysOut(w.dpc, de);
      case _ =>
    }
  }

  /** Once the interface is down and no DPC is inside the library, none enters it until the interface goes up. */
  lemma {:induction false} DownStaysOutOfLibrary(w: World, es: seq<Event>)
    requires CanRun(w, es) && !w.dpc.up && !w.dpc.pc.InBlob?
    requires forall i :: 0 <= i < |es| ==> es[i] != DpcEv(Dpc.GoUp)
    ensures !Exec(w, es).dpc.up && !Exec(w, es).dpc.pc.InBlob?
    decreases |es|
  {
    if |es| > 0 {
      DownStepStaysOut(w, es[0]);
      DownStaysOutOfLibrary(Apply(w, es[0]), es[1..]);
    }
  }

  // ---------------------------------------------------------------- what the machine lets happen

  /**
  Nothing that the kernel, the hardware or the network stack may do is left out, in any state: requests come at
  any time, interrupts whenever they are on, timers run out whenever they are pending, packets whenever
  txq_lock is free, users whenever the driver lock is.
  */
  lemma NoRequestIsExcluded(w: World, skb: nat, id: nat, memory: bool)
    requires id < |w.timers|
    ensures Enabled(w, TaskSpawn(memory)) && (Passive(w) ==> Enabled(w, McRequest))
    ensures Passive(w) && !w.tx.scheduling ==> Enabled(w, TxEv(Tx.Offer(skb)))
    ensures w.dpc.isr.Out? && w.dpc.intr ==> Enabled(w, DpcEv(Dpc.IsrClaim))
    ensures w.timers[id].pending ==> Enabled(w, TimerEv(id, Timer.Expire))
    ensures Passive(w) && w.timers[id].expired > 0 ==> Enabled(w, TimerEv(id, Timer.HandOver(memory)))
    ensures w.owner.Free? ==> Enabled(w, UserLock)
  {
  }

  /** Inside the library every entry point may be called, and wlc_dpc may return anything. */
  lemma NoEntryPointIsExcluded(w: World, id: nat, flag: bool)
    requires id < |w.timers| && InBlob(w) && w.busy.Quiet?
    ensures Enabled(w, TimerEv(id, Timer.AddBegin(flag))) && Enabled(w, TimerEv(id, Timer.DelBegin))
    ensures w.dpc.isr.Out? && w.dpc.mask.NoMask? ==> Enabled(w, DpcEv(Dpc.Down))
    ensures w.dpc.isr.Out? && w.dpc.mask.NoMask? && (flag ==> !w.dpc.up) ==> Enabled(w, DpcEv(Dpc.ResetOff(flag)))
    ensures w.dpc.pc.InBlob? && w.dpc.mask.NoMask? ==> Enabled(w, DpcEv(Dpc.BlobReturn(flag, !flag)))
  {
  }

  /** What a mask operation may end in. */
  lemma NoMaskEndIsExcluded(w: World)
    requires InBlob(w) && w.busy.OnMask?
    ensures w.dpc.mask.Restored? ==> Enabled(w, DpcEv(Dpc.ResetClear))
    ensures w.dpc.mask.Restored? && !w.dpc.mask.up ==> Enabled(w, DpcEv(Dpc.PairDone))
    ensures w.dpc.mask.Ready? && w.dpc.isr.Out? && Dpc.Live(w.dpc) == 0 ==> Enabled(w, DpcEv(Dpc.GoUp))
  {
  }

  /** wl_attach leaves such a state, in either mode. */
  lemma AttachState(tx: Tx.State<nat>, dpc: Dpc.State) returns (w: World)
    requires Tx.Init(tx) && Dpc.Init(dpc)
    ensures Init(w) && w.tx == tx && w.dpc == dpc
  {
    w := World(0, Free, Quiet, tx, dpc, false, McIdle, 0, 0, 0, []);
  }

  // ---------------------------------------------------------------- no request is forgotten

  predicate IsMcQueueing(w: World, e: Event) { e.McRequest? && !w.mcQueued }

  /** Multicast requests that found the item not queued, along a run. */
  function McAccepted(w: World, es: seq<Event>): nat
    requires CanRun(w, es)
    decreases |es|
  {
    if |es| == 0 then 0 else OneIf(IsMcQueueing(w, es[0])) + McAccepted(Apply(w, es[0]), es[1..])
  }

  function McRuns(es: seq<Event>): nat { if |es| == 0 then 0 else OneIf(es[0].McRun?) + McRuns(es[1..]) }

  function Spawned(es: seq<Event>): nat {
    if |es| == 0 then 0 else OneIf(es[0].TaskSpawn? && es[0].memory) + Spawned(es[1..])
  }

  function Finished(es: seq<Event>): nat {
    if |es| == 0 then 0 else OneIf(es[0].TaskFinish?) + Finished(es[1..])
  }

  /**
  Every multicast request that queued the item is followed by one run of it, and every task for which there
  was memory is run once: accepted requests are runs plus the queued one, tasks are finished or live.
  */
  lemma {:induction false} RequestsAreServed(w: World, es: seq<Event>)
    requires CanRun(w, es)
    ensures var w' := Exec(w, es);
      && McAccepted(w, es) + OneIf(w.mcQueued) == McRuns(es) + OneIf(w'.mcQueued)
      && Spawned(es) + w.taskLive == Finished(es) + w'.taskLive
    decreases |es|
  {
    if |es| > 0 {
      StepServes(w, es[0]);
      RequestsAreServed(Apply(w, es[0]), es[1..]);
    }
  }

  lemma StepServes(w: World, e: Event)
    requires Enabled(w, e)
    ensures var w' := Apply(w, e);
      && OneIf(IsMcQueueing(w, e)) + OneIf(w.mcQueued) == OneIf(e.McRun?) + OneIf(w'.mcQueued)
      && OneIf(e.TaskSpawn? && e.memory) + w.taskLive == OneIf(e.TaskFinish?) + w'.taskLive
  {
  }

  // ---------------------------------------------------------------- building runs

  lemma {:induction false} Extend(w: World, es: seq<Event>, e: Event) returns (longer: seq<Event>)
    requires CanRun(w, es) && Enabled(Exec(w, es), e)
    ensures longer == es + [e] && CanRun(w, longer) && Exec(w, longer) == Apply(Exec(w, es), e)
    decreases |es|
  {
    longer := es + [e];
    if |es| == 0 {
      assert longer[1..] == [];
    } else {
      var tail := Extend(Apply(w, es[0]), es[1..], e);
      assert longer[1..] == tail;
    }
  }
}
