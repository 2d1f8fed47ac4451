/**
What wl_down and wl_free rely on: once nothing new is asked for, the whole engine works itself off.
*/
module EngineDrain {
  import opened Common
  import opened Engine
  import Tx = TxSpec
  import Dpc = DpcSpec
  import Timer = TimerSpec

  // ---------------------------------------------------------------- the two modes

  /** Outside of passive mode there is no transmit worker and no timer task. */
  ghost predicate ModeOk(w: World) {
    !Passive(w) ==>
      && Tx.Outstanding(w.tx) == 0 && Tx.Windows(w.tx) == 0
      && forall i :: 0 <= i < |w.timers| ==> w.timers[i].tasks == 0
  }

  lemma StepKeepsMode(w: World, e: Event)
    requires ModeOk(w) && Enabled(w, e)
    ensures ModeOk(Apply(w, e))
  {
    match e {
      case TxEv(te) =>
      case DpcEv(de) => match de { case IsrSchedule => case _ => }
      case TimerEv(id, te) => TimerStepKeepsMode(w, id, te);
      case _ =>
    }
  }

  lemma TimerStepKeepsMode(w: World, id: nat, e: Timer.Event)
    requires ModeOk(w) && TimerMayStep(w, id, e)
    ensures ModeOk(ApplyTimer(w, id, e))
  {
    match e { case HandOver(_) => case Lock(_) => case _ => }
  }

  lemma {:induction false} ReachableModeOk(w: World, es: seq<Event>)
    requires ModeOk(w) && CanRun(w, es)
    ensures ModeOk(Exec(w, es))
    decreases |es|
  {
    if |es| > 0 {
      StepKeepsMode(w, es[0]);
      ReachableModeOk(Apply(w, es[0]), es[1..]);
    }
  }

  lemma InitModeOk(w: World)
    requires Init(w)
    ensures ModeOk(w)
  {
  }

  // ---------------------------------------------------------------- working off

  predicate DpcWorkOff(e: Dpc.Event) {
    !(e.IsrClaim? || e.ResetOff? || e.Down? || (e.BlobReturn? && e.again))
  }

  predicate TimerWorkOff(e: Timer.Event) { !(e.AddBegin? || e.DelBegin?) }

  /** Steps that ask for nothing new. */
  predicate WorkOff(e: Event) {
    match e
    case TxEv(te) => Tx.WorkerSide(te)
    case DpcEv(de) => DpcWorkOff(de)
    case TimerEv(_, te) => TimerWorkOff(te)
    case NewTimer(_) => false
    case McRequest => false
    case TaskSpawn(_) => false
    case UserLock => false
    case _ => true
  }

  /** No periodic timer is armed. */
  predicate NoRepeat(w: World) { forall i :: 0 <= i < |w.timers| ==> OneShot(w.timers[i]) }

  predicate OneShot(t: Timer.State) { t.armed ==> !t.periodic }

  // ---------------------------------------------------------------- ranks

  function IsrRank(i: Dpc.Isr): nat { match i case Out => 0 case Counting => 1 case Claimed => 11 }

  /** A DPC that will queue itself once more costs as much as that. */
  function PcRank(pc: Dpc.Pc, requeue: bool): nat {
    match pc
    case Idle => 0 case Leaving => 1 case Enabling => 2 case Ran => if requeue then 12 else 3
    case InBlob => 4 case Locked => 5 case Entered => 6
  }

  function MaskRank(m: Dpc.Mask): nat {
    match m case NoMask => 0 case Ready => 1 case Restored(_) => 2 case Saved(_, _) => 3
  }

  function DpcRank(s: Dpc.State): nat {
    9 * OneIf(s.queued) + IsrRank(s.isr) + PcRank(s.pc, s.up && s.resched) + MaskRank(s.mask)
  }

  function BodyRank(b: Timer.Body): nat {
    match b case NoBody => 0 case Leaving => 2 case Closing => 3 case InFn => 4 case Checking => 5 case Arming => 14
  }

  function OpRank(o: Timer.Op): nat {
    match o case NoOp => 0 case DelStopped => 1 case DelCleared => 2 case AddCounted => 10 case AddSet => 11
  }

  function TimerRank(t: Timer.State): nat {
    9 * OneIf(t.pending) + 8 * t.expired + t.windows + 6 * t.tasks + t.tails + BodyRank(t.body) + OpRank(t.op)
  }

  function TimersRank(ts: seq<Timer.State>, n: nat): nat
    requires n <= |ts|
  {
    if n == 0 then 0 else TimersRank(ts, n - 1) + TimerRank(ts[n - 1])
  }

  function SmallRank(w: World): nat {
    5 * OneIf(w.mcQueued) + (match w.mcPc case McIdle => 0 case McLocked => 2 case InBody => 3 case McEntered => 4)
    + w.mcWindows + w.taskLive + w.taskWindows + OneIf(w.owner.ByUser?)
  }

  function Rank(w: World): nat {
    Tx.Rank(w.tx) + DpcRank(w.dpc) + SmallRank(w) + TimersRank(w.timers, |w.timers|)
  }

  lemma {:induction false} TimersRankUpdate(ts: seq<Timer.State>, n: nat, i: nat, t: Timer.State)
    requires i < |ts| && n <= |ts|
    ensures TimersRank(ts[i := t], n) + (if i < n then TimerRank(ts[i]) else 0)
         == TimersRank(ts, n) + (if i < n then TimerRank(t) else 0)
  {
    if n > 0 {
      TimersRankUpdate(ts, n - 1, i, t);
    }
  }

  lemma DpcDescends(s: Dpc.State, e: Dpc.Event)
    requires Dpc.Enabled(s, e) && DpcWorkOff(e)
    ensures DpcRank(Dpc.Apply(s, e)) < DpcRank(s)
  {
    if Dpc.IsMaskStep(e) {
      MaskDescends(s, e);
    } else {
      PcDescends(s, e);
    }
  }

  lemma MaskDescends(s: Dpc.State, e: Dpc.Event)
    requires Dpc.Enabled(s, e) && DpcWorkOff(e) && Dpc.IsMaskStep(e)
    ensures DpcRank(Dpc.Apply(s, e)) < DpcRank(s)
  {
    match e { case ResetRestore => case ResetClear => case PairDone => case GoUp => case _ => }
  }

  lemma PcDescends(s: Dpc.State, e: Dpc.Event)
    requires Dpc.Enabled(s, e) && DpcWorkOff(e) && !Dpc.IsMaskStep(e)
    ensures DpcRank(Dpc.Apply(s, e)) < DpcRank(s)
  {
    match e { case IsrSchedule => case Begin => case Decide => case BlobReturn(_, _) => case _ => }
  }

  lemma TimerDescends(t: Timer.State, e: Timer.Event)
    requires Timer.Inv(t) && Timer.Enabled(t, e) && Timer.Exclusive(t, e) && TimerWorkOff(e) && OneShot(t)
    ensures TimerRank(Timer.Apply(t, e)) < TimerRank(t) && OneShot(Timer.Apply(t, e))
  {
    if Timer.IsBody(e) { BodyDescends(t, e); } else { ExpiryDescends(t, e); }
  }

  lemma BodyDescends(t: Timer.State, e: Timer.Event)
    requires Timer.Inv(t) && Timer.Enabled(t, e) && Timer.IsBody(e) && OneShot(t)
    ensures TimerRank(Timer.Apply(t, e)) < TimerRank(t) && OneShot(Timer.Apply(t, e))
  {
  }

  lemma ExpiryDescends(t: Timer.State, e: Timer.Event)
    requires Timer.Inv(t) && Timer.Enabled(t, e) && Timer.Exclusive(t, e)
    requires !Timer.IsBody(e) && TimerWorkOff(e) && OneShot(t)
    ensures TimerRank(Timer.Apply(t, e)) < TimerRank(t) && OneShot(Timer.Apply(t, e))
  {
  }

  lemma TimerStepDescends(w: World, id: nat, e: Timer.Event)
    requires Inv(w) && TimerMayStep(w, id, e) && TimerWorkOff(e) && NoRepeat(w)
    ensures Rank(ApplyTimer(w, id, e)) < Rank(w) && NoRepeat(ApplyTimer(w, id, e))
  {
    LockGivesExclusive(w, TimerEv(id, e));
    TimerDescends(w.timers[id], e);
    TimersRankUpdate(w.timers, |w.timers|, id, Timer.Apply(w.timers[id], e));
  }

  lemma TxStepDescends(w: World, e: Tx.Event<nat>)
    requires Inv(w) && TxMayStep(w, e) && Tx.WorkerSide(e)
    ensures Rank(ApplyTx(w, e)) < Rank(w)
  {
    Tx.EveryWorkerStepDescends(w.tx, e);
  }

  lemma DpcStepDescends(w: World, e: Dpc.Event)
    requires Inv(w) && DpcMayStep(w, e) && DpcWorkOff(e)
    ensures Rank(ApplyDpc(w, e)) < Rank(w)
  {
    DpcDescends(w.dpc, e);
  }

  lemma SmallStepDescends(w: World, e: Event)
    requires Enabled(w, e) && WorkOff(e) && !e.TxEv? && !e.DpcEv? && !e.TimerEv? && NoRepeat(w)
    ensures Rank(Apply(w, e)) < Rank(w) && NoRepeat(Apply(w, e))
  {
  }

  lemma EveryStepDescends(w: World, e: Event)
    requires Inv(w) && Enabled(w, e) && WorkOff(e) && NoRepeat(w)
    ensures Rank(Apply(w, e)) < Rank(w) && NoRepeat(Apply(w, e))
  {
    match e {
      case TxEv(te) => TxStepDescends(w, te);
      case DpcEv(de) => DpcStepDescends(w, de);
      case TimerEv(id, te) => TimerStepDescends(w, id, te);
      case _ => SmallStepDescends(w, e);
    }
  }

  // ---------------------------------------------------------------- when nothing moves any more

  ghost predicate Stuck(w: World) { forall e :: WorkOff(e) ==> !Enabled(w, e) }

  lemma IsrStep(w: World) returns (e: Event)
    requires !w.dpc.isr.Out?
    ensures WorkOff(e) && Enabled(w, e)
  {
    e := DpcEv(if w.dpc.isr.Claimed? then Dpc.IsrSchedule else Dpc.IsrCount);
  }

  /** Whatever entry point of the library is in progress can go on. */
  lemma BusyStep(w: World) returns (e: Event)
    requires Locking(w) && w.dpc.isr.Out? && !w.busy.Quiet?
    ensures WorkOff(e) && Enabled(w, e)
  {
    if w.busy.OnMask? {
      e := DpcEv(match w.dpc.mask
        case Saved(_, _) => Dpc.ResetRestore case Restored(_) => Dpc.ResetClear case _ => Dpc.GiveUp);
    } else {
      var id := w.busy.id;
      e := TimerEv(id, match w.timers[id].op
        case AddSet => Timer.AddCount case AddCounted => Timer.AddArm case DelCleared => Timer.DelKernel
        case _ => Timer.DelCount);
    }
  }

  function NextInDpc(pc: Dpc.Pc): Dpc.Event {
    match pc
    case Locked => Dpc.Begin
    case InBlob => Dpc.BlobReturn(false, false)
    case Ran => Dpc.Decide
    case Enabling => Dpc.Enable
    case _ => Dpc.Unlock
  }

  function NextInTimer(b: Timer.Body): Timer.Event {
    match b
    case Checking => Timer.Check
    case Arming => Timer.Arm
    case InFn => Timer.FnDone
    case Closing => Timer.Close
    case _ => Timer.Unlock
  }

  /** Whoever holds the driver lock can go on. */
  lemma OwnerStep(w: World) returns (e: Event)
    requires Locking(w) && ModeOk(w) && w.dpc.isr.Out? && w.busy.Quiet? && !w.owner.Free?
    ensures WorkOff(e) && Enabled(w, e)
  {
    match w.owner {
      case ByDpc => e := DpcEv(NextInDpc(w.dpc.pc));
      case ByTimer(id) => e := TimerEv(id, NextInTimer(w.timers[id].body));
      case BySend => e := TxEv(Tx.SendEnd);
      case ByMulticast => e := McUnlock;
      case _ => e := UserUnlock;
    }
  }

  lemma StuckUnlocked(w: World)
    requires Stuck(w) && Locking(w) && ModeOk(w)
    ensures w.dpc.isr.Out? && w.busy.Quiet? && w.owner.Free?
  {
    if !w.dpc.isr.Out? {
      var _ := IsrStep(w);
    } else if !w.busy.Quiet? {
      var _ := BusyStep(w);
    } else if !w.owner.Free? {
      var _ := OwnerStep(w);
    }
  }

  lemma TxStepEnabled(w: World) returns (e: Event)
    requires Inv(w) && Passive(w) && w.owner.Free? && w.busy.Quiet? && !Tx.AtRest(w.tx)
    ensures WorkOff(e) && Enabled(w, e)
  {
    Tx.NeverStuck(w.tx);
    e := TxEv(Tx.NextWorkerStep(w.tx));
  }

  lemma StuckTx(w: World)
    requires Stuck(w) && Inv(w) && ModeOk(w)
    ensures Tx.Outstanding(w.tx) == 0 && Tx.Windows(w.tx) == 0
  {
    StuckUnlocked(w);
    if Passive(w) && !Tx.AtRest(w.tx) {
      var _ := TxStepEnabled(w);
    }
  }

  lemma StuckDpc(w: World)
    requires Stuck(w) && Locking(w) && ModeOk(w)
    ensures Dpc.Outstanding(w.dpc) == 0 && Dpc.Windows(w.dpc) == 0 && Dpc.Live(w.dpc) == 0
  {
    StuckUnlocked(w);
    assert !Enabled(w, DpcEv(Dpc.Lock));
    assert !Enabled(w, DpcEv(Dpc.Run));
  }

  lemma StuckSmall(w: World)
    requires Stuck(w) && Locking(w) && ModeOk(w)
    ensures !w.mcQueued && w.mcPc.McIdle? && w.mcWindows == 0 && w.taskLive == 0 && w.taskWindows == 0
  {
    StuckUnlocked(w);
    assert !Enabled(w, McCount);
    assert !Enabled(w, McRun);
    assert !Enabled(w, McDec);
    assert !Enabled(w, McSkip);
    assert !Enabled(w, TaskCount);
    assert !Enabled(w, TaskFinish);
  }

  lemma StuckTimer(w: World, id: nat)
    requires Stuck(w) && Inv(w) && ModeOk(w) && id < |w.timers|
    ensures Timer.Outstanding(w.timers[id]) == 0 && Timer.Windows(w.timers[id]) == 0
    ensures w.timers[id].leaked == 0 ==> Settled(w.timers[id])
  {
    StuckUnlocked(w);
    assert !Enabled(w, TimerEv(id, Timer.Expire));
    assert !Enabled(w, TimerEv(id, Timer.HandOver(true)));
    assert !Enabled(w, TimerEv(id, Timer.CountTask));
    assert !Enabled(w, TimerEv(id, Timer.Lock(Passive(w))));
    assert !Enabled(w, TimerEv(id, Timer.TailDone));
  }

  lemma {:induction false} NoTimerWork(ts: seq<Timer.State>, n: nat)
    requires n <= |ts| && forall i :: 0 <= i < |ts| ==> Timer.Outstanding(ts[i]) == 0 && Timer.Windows(ts[i]) == 0
    ensures OutstandingTo(ts, n) == 0 && WindowsTo(ts, n) == 0
  {
    if n > 0 {
      NoTimerWork(ts, n - 1);
    }
  }

  /** Each arming of the timer has been answered by a call of fn or a cancellation. */
  predicate Settled(t: Timer.State) { !t.armed && t.armings == t.calls + t.cancels }

  /** No work, no open window, no lock held, no DPC, and every timer settled that has lost no expiry. */
  ghost predicate Idle(w: World) {
    && Outstanding(w) == 0 && Windows(w) == 0 && w.owner.Free? && Dpc.Live(w.dpc) == 0
    && forall i :: 0 <= i < |w.timers| && w.timers[i].leaked == 0 ==> Settled(w.timers[i])
  }

  lemma StuckIsIdle(w: World)
    requires Stuck(w) && Inv(w) && ModeOk(w)
    ensures Idle(w) && w.callbacks == Stranded(w)
  {
    StuckUnlocked(w);
    StuckTx(w);
    StuckDpc(w);
    StuckSmall(w);
    forall i | 0 <= i < |w.timers|
      ensures Timer.Outstanding(w.timers[i]) == 0 && Timer.Windows(w.timers[i]) == 0
      ensures w.timers[i].leaked == 0 ==> Settled(w.timers[i])
    {
      StuckTimer(w, i);
    }
    NoTimerWork(w.timers, |w.timers|);
  }

  lemma {:induction false} WorkOffRun(w: World, es: seq<Event>)
    requires Inv(w) && ModeOk(w) && NoRepeat(w) && CanRun(w, es)
    requires forall i :: 0 <= i < |es| ==> WorkOff(es[i])
    ensures |es| <= Rank(w) && Inv(Exec(w, es)) && ModeOk(Exec(w, es))
    decreases |es|
  {
    if |es| > 0 {
      StepKeepsInv(w, es[0]);
      StepKeepsMode(w, es[0]);
      EveryStepDescends(w, es[0]);
      WorkOffRun(Apply(w, es[0]), es[1..]);
    }
  }

  lemma NothingStrandedAtFirst(w: World)
    requires Init(w)
    ensures Stranded(w) == 0
  {
  }

  /**
  From any reachable state in which no periodic timer is armed: while nothing new is asked for (no packet,
  interrupt, multicast request, task, timer or user of the lock, and the DPC not asking to be run again) the
  engine takes at most Rank steps. When it can take none, nothing is outstanding, the lock is free, no DPC
  is live, every timer that lost no expiry has called fn or been cancelled for each time it was armed, and
  the counter is the number of expiries dropped for lack of memory since attach: so a poll of
  wl_free then ends the wait exactly if there was none.
  */
  lemma {:induction false} DrainsCompletely(w0: World, before: seq<Event>, es: seq<Event>)
    requires Init(w0) && CanRun(w0, before) && NoRepeat(Exec(w0, before))
    requires CanRun(Exec(w0, before), es) && forall i :: 0 <= i < |es| ==> WorkOff(es[i])
    ensures |es| <= Rank(Exec(w0, before))
    ensures var w := Exec(Exec(w0, before), es);
      Stuck(w) ==>
        && Idle(w) && w.callbacks == Losses(before) + Losses(es)
        && (w.callbacks <= 0 <==>
              (forall i :: 0 <= i < |before| ==> !IsLoss(before[i])) && (forall i :: 0 <= i < |es| ==> !IsLoss(es[i])))
  {
    ReachableHasInv(w0, before);
    InitModeOk(w0);
    ReachableModeOk(w0, before);
    var w1 := Exec(w0, before);
    WorkOffRun(w1, es);
    NothingStrandedAtFirst(w0);
    StrandedAreLosses(w0, before);
    StrandedAreLosses(w1, es);
    AnyLoss(before);
    AnyLoss(es);
    if Stuck(Exec(w1, es)) {
      StuckIsIdle(Exec(w1, es));
    }
  }
}
