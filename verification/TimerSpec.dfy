/**
One driver timer as an interleaving machine: `wl_add_timer`, `wl_del_timer`, the kernel expiry,
`wl_timer`, `wl_timer_task` and `_wl_timer`.

A timer counts in `wl->callbacks` from the moment it is armed until its expiry has been worked off
or it has been cancelled. In passive mode an expiry is handed to a one-shot task, which counts for
itself as well. The timer functions of the library run under the driver lock; an expiry may be in
flight while the timer is deleted and armed again.
*/
module TimerSpec {
  import opened Common

  /** Position of `_wl_timer` on this timer. */
  datatype Body =
    | NoBody
    | Checking   // driver lock taken, about to test set and timer_pending
    | Arming     // periodic: counted, add_timer still to come
    | InFn       // inside t->fn
    | Closing    // about to count down
    | Leaving    // counted down, about to release the driver lock

  /** Position of `wl_add_timer` or `wl_del_timer` on this timer. */
  datatype Op =
    | NoOp
    | AddSet       // set is TRUE, not yet counted
    | AddCounted   // counted, add_timer still to come
    | DelCleared   // set is FALSE, del_timer still to come
    | DelStopped   // del_timer succeeded, count-down still to come

  /** `armed` is the source's field `set`; armings, calls and cancels are the timer's books. */
  datatype State = State(
    armed: bool, periodic: bool, pending: bool,
    expired: nat,    // expiries inside wl_timer, before the task is scheduled or the lock is taken
    windows: nat,    // wl_timer after schedule_work and before atomic_inc
    tasks: nat,      // timer tasks queued or running, before taking the driver lock
    tails: nat,      // timer tasks after _wl_timer, last count-down still to come
    leaked: nat,     // expiries dropped because no task could be allocated
    body: Body,
    byTask: bool,    // `_wl_timer` was entered from wl_timer_task
    op: Op,
    armings: nat, calls: nat, cancels: nat, failed: bool)

  /** A timer as wl_init_timer leaves it. */
  predicate Init(s: State) {
    && !s.armed && !s.periodic && !s.pending && !s.byTask && !s.failed
    && s.body.NoBody? && s.op.NoOp?
    && s.expired == 0 && s.windows == 0 && s.tasks == 0 && s.tails == 0 && s.leaked == 0
    && s.armings == 0 && s.calls == 0 && s.cancels == 0
  }

  datatype Event =
    | Expire
    | HandOver(memory: bool) | CountTask
    | Lock(task: bool) | Check | Arm | FnDone | Close | Unlock | TailDone
    | AddBegin(repeat: bool) | AddCount | AddArm
    | DelBegin | DelKernel | DelCount

  predicate IsOp(e: Event) {
    e.AddBegin? || e.AddCount? || e.AddArm? || e.DelBegin? || e.DelKernel? || e.DelCount?
  }

  /** Steps of `_wl_timer` after it has taken the driver lock. */
  predicate IsBody(e: Event) { e.Check? || e.Arm? || e.FnDone? || e.Close? || e.Unlock? }

  /** Own position of each thread. */
  predicate Enabled(s: State, e: Event) {
    match e
    case Expire => s.pending
    case HandOver(_) => s.expired > 0
    case CountTask => s.windows > 0
    case Lock(task) => if task then s.tasks > 0 else s.expired > 0
    case Check => s.body.Checking?
    case Arm => s.body.Arming?
    case FnDone => s.body.InFn?
    case Close => s.body.Closing?
    case Unlock => s.body.Leaving?
    case TailDone => s.tails > 0
    case AddBegin(_) => true
    case AddCount => s.op.AddSet?
    case AddArm => s.op.AddCounted?
    case DelBegin => true
    case DelKernel => s.op.DelCleared?
    case DelCount => s.op.DelStopped?
  }

  function Apply(s: State, e: Event): State
    requires Enabled(s, e)
  {
    match e
    case Expire => s.(pending := false, expired := s.expired + 1)
    case HandOver(memory) =>
      if memory then s.(expired := s.expired - 1, tasks := s.tasks + 1, windows := s.windows + 1)
      else s.(expired := s.expired - 1, leaked := s.leaked + 1)
    case CountTask => s.(windows := s.windows - 1)
    case Lock(task) =>
      if task then s.(tasks := s.tasks - 1, body := Checking, byTask := true)
      else s.(expired := s.expired - 1, body := Checking, byTask := false)
    case Check =>
      if s.armed && !s.pending then
        if s.periodic then s.(body := Arming)
        else s.(armed := false, calls := s.calls + 1, body := InFn)
      else s.(body := Closing)
    case Arm =>
      s.(pending := true, armed := true, armings := s.armings + 1, calls := s.calls + 1,
         failed := s.failed || s.pending, body := InFn)
    case FnDone => s.(body := Closing)
    case Close => s.(body := Leaving)
    case Unlock => s.(body := NoBody, byTask := false, tails := if s.byTask then s.tails + 1 else s.tails)
    case TailDone => s.(tails := s.tails - 1)
    case AddBegin(repeat) =>
      if s.armed then s.(periodic := repeat)
      else s.(periodic := repeat, armed := true, armings := s.armings + 1, op := AddSet)
    case AddCount => s.(op := AddCounted)
    case AddArm => s.(pending := true, failed := s.failed || s.pending, op := NoOp)
    case DelBegin =>
      if s.armed then s.(armed := false, cancels := s.cancels + 1, op := DelCleared) else s
    case DelKernel => if s.pending then s.(pending := false, op := DelStopped) else s.(op := NoOp)
    case DelCount => s.(op := NoOp)
  }

  /** What the step adds to `wl->callbacks` for the timer itself. */
  function TimerDelta(s: State, e: Event): int {
    match e
    case Check => if s.armed && !s.pending && s.periodic then 1 else 0
    case Close => -1
    case AddCount => 1
    case DelCount => -1
    case _ => 0
  }

  /** What the step adds to `wl->callbacks` for a one-shot task carrying an expiry. */
  function TaskDelta(e: Event): int {
    match e case CountTask => 1 case TailDone => -1 case _ => 0
  }

  function Delta(s: State, e: Event): int { TimerDelta(s, e) + TaskDelta(e) }

  function OpShare(o: Op): nat { if o.AddCounted? || o.DelStopped? then 1 else 0 }

  function ArmingShare(b: Body): nat { if b.Arming? then 1 else 0 }

  function BodyShare(b: Body): nat { if b.NoBody? || b.Leaving? then 0 else 1 }

  /** Armed in the kernel, being armed, or being cancelled. */
  function ArmedShare(s: State): nat { OneIf(s.pending) + ArmingShare(s.body) + OpShare(s.op) }

  /** Expiries the kernel has delivered and `_wl_timer` has not yet counted down. */
  function InFlight(s: State): nat { s.expired + s.tasks + BodyShare(s.body) }

  /** One-shot tasks not yet counted down. */
  function TaskShare(s: State): nat { s.tasks + OneIf(s.byTask) + s.tails }

  function Outstanding(s: State): nat { ArmedShare(s) + InFlight(s) + TaskShare(s) }

  function Windows(s: State): nat { s.windows }

  /** What holding the driver lock excludes; proved of every step by the machine of the whole driver. */
  predicate Exclusive(s: State, e: Event) {
    && (e.Lock? ==> s.body.NoBody? && s.op.NoOp?)
    && (IsBody(e) ==> s.op.NoOp?)
    && (IsOp(e) ==> s.body.NoBody? || s.body.InFn?)
    && (e.AddBegin? || e.DelBegin? ==> s.op.NoOp?)
  }

  /** An expiry that will still test `set`. */
  predicate WillCheck(s: State) { s.expired > 0 || s.tasks > 0 || s.body.Checking? || s.body.Arming? }

  /** Set, with nothing pending and nothing in flight that could ever call fn or clear `set`. */
  predicate Stranded(s: State) { s.armed && !s.pending && !WillCheck(s) && s.op.NoOp? }

  predicate Inv(s: State) {
    && !s.failed
    && (s.body.NoBody? ==> !s.byTask)
    && s.armings == s.calls + s.cancels + OneIf(s.armed)
    && (s.pending ==> s.armed || s.op.DelCleared?)
    && (s.op.AddSet? || s.op.AddCounted? || s.body.Arming? ==> s.armed && !s.pending)
    && (s.op.DelCleared? ==> !s.armed)
    && (s.op.DelStopped? ==> !s.armed && !s.pending)
    && (s.leaked == 0 ==> !Stranded(s))
  }

  lemma StepKeepsInv(s: State, e: Event)
    requires Inv(s) && Enabled(s, e) && Exclusive(s, e)
    ensures Inv(Apply(s, e))
  {
  }

  lemma ExpiryLedger(s: State, e: Event)
    requires Inv(s) && Enabled(s, e) && Exclusive(s, e) && !IsOp(e) && !IsBody(e)
    ensures var s' := Apply(s, e);
      ArmedShare(s') + InFlight(s') + s'.leaked == ArmedShare(s) + InFlight(s) + s.leaked + TimerDelta(s, e)
  {
    match e { case Expire => case HandOver(_) => case Lock(_) => case _ => }
  }

  lemma BodyLedger(s: State, e: Event)
    requires Inv(s) && Enabled(s, e) && Exclusive(s, e) && IsBody(e)
    ensures var s' := Apply(s, e);
      ArmedShare(s') + InFlight(s') + s'.leaked == ArmedShare(s) + InFlight(s) + s.leaked + TimerDelta(s, e)
  {
  }

  lemma OpLedger(s: State, e: Event)
    requires Inv(s) && Enabled(s, e) && Exclusive(s, e) && IsOp(e)
    ensures var s' := Apply(s, e);
      ArmedShare(s') + InFlight(s') + s'.leaked == ArmedShare(s) + InFlight(s) + s.leaked + TimerDelta(s, e)
  {
  }

  /** The timer's own share: armed or being armed or cancelled, in flight, or leaked. */
  lemma TimerLedger(s: State, e: Event)
    requires Inv(s) && Enabled(s, e) && Exclusive(s, e)
    ensures var s' := Apply(s, e);
      ArmedShare(s') + InFlight(s') + s'.leaked == ArmedShare(s) + InFlight(s) + s.leaked + TimerDelta(s, e)
  {
    if IsOp(e) { OpLedger(s, e); } else if IsBody(e) { BodyLedger(s, e); } else { ExpiryLedger(s, e); }
  }

  lemma TaskLedger(s: State, e: Event)
    requires Inv(s) && Enabled(s, e) && Exclusive(s, e)
    ensures var s' := Apply(s, e);
      TaskShare(s') - s'.windows == TaskShare(s) - s.windows + TaskDelta(e)
  {
    if !IsOp(e) {
      match e { case Lock(_) => case Unlock => case HandOver(_) => case _ => }
    }
  }

  lemma StepLedger(s: State, e: Event)
    requires Inv(s) && Enabled(s, e) && Exclusive(s, e)
    ensures Outstanding(Apply(s, e)) + Apply(s, e).leaked - Windows(Apply(s, e))
         == Outstanding(s) + s.leaked - Windows(s) + Delta(s, e)
  {
    TimerLedger(s, e);
    TaskLedger(s, e);
  }

  // ---------------------------------------------------------------- the unchecked allocation in wl_timer

  /**
  `wl_timer` ignores a failed `wl_schedule_task`. No other step strands a timer, and this one does
  exactly when the expiry it drops is the last one and the timer has not been armed again.
  */
  lemma OnlyLossStrands(s: State, e: Event)
    requires Inv(s) && Enabled(s, e) && Exclusive(s, e) && !Stranded(s)
    ensures Stranded(Apply(s, e)) <==>
      e == HandOver(false) && s.armed && !s.pending && s.op.NoOp?
      && s.expired == 1 && s.tasks == 0 && !s.body.Checking? && !s.body.Arming?
  {
  }

  predicate CanRun(s: State, es: seq<Event>)
    decreases |es|
  {
    es == [] || (Enabled(s, es[0]) && Exclusive(s, es[0]) && CanRun(Apply(s, es[0]), es[1..]))
  }

  function Exec(s: State, es: seq<Event>): State
    requires CanRun(s, es)
    decreases |es|
  {
    if es == [] then s else Exec(Apply(s, es[0]), es[1..])
  }

  function TimerDeltas(s: State, es: seq<Event>): int
    requires CanRun(s, es)
    decreases |es|
  {
    if es == [] then 0 else TimerDelta(s, es[0]) + TimerDeltas(Apply(s, es[0]), es[1..])
  }

  /**
  Over every run, what the timer's code has added to the counter is its pending, in-flight and lost
  expiries; for a fresh timer that is all there is.
  */
  lemma {:induction false} TimerShareOverRun(s: State, es: seq<Event>)
    requires Inv(s) && CanRun(s, es)
    ensures var s' := Exec(s, es);
      && Inv(s')
      && ArmedShare(s') + InFlight(s') + s'.leaked == ArmedShare(s) + InFlight(s) + s.leaked + TimerDeltas(s, es)
      && (Init(s) ==> ArmedShare(s') + InFlight(s') + s'.leaked == TimerDeltas(s, es))
    decreases |es|
  {
    if es != [] {
      TimerLedger(s, es[0]);
      StepKeepsInv(s, es[0]);
      TimerShareOverRun(Apply(s, es[0]), es[1..]);
    }
  }

  /** A stranded timer stays dead, however often it is added again, until it is deleted. */
  lemma {:induction false} StrandedUntilDeleted(s: State, es: seq<Event>)
    requires Stranded(s) && CanRun(s, es) && forall i :: 0 <= i < |es| ==> !es[i].DelBegin?
    ensures Stranded(Exec(s, es)) && Exec(s, es).calls == s.calls
    decreases |es|
  {
    if es != [] {
      StrandedUntilDeleted(Apply(s, es[0]), es[1..]);
    }
  }

  lemma {:induction false} Extend(s: State, es: seq<Event>, e: Event) returns (longer: seq<Event>)
    requires CanRun(s, es) && Enabled(Exec(s, es), e) && Exclusive(Exec(s, es), e)
    ensures longer == es + [e] && CanRun(s, longer) && Exec(s, longer) == Apply(Exec(s, es), e)
    decreases |es|
  {
    longer := es + [e];
    if |es| == 0 {
      assert longer[1..] == [];
    } else {
      var tail := Extend(Apply(s, es[0]), es[1..], e);
      assert longer[1..] == tail;
    }
  }

  /** Such a run exists: add, expire, fail to allocate. */
  lemma AllocationFailureStrands(s: State) returns (es: seq<Event>)
    requires Init(s)
    ensures CanRun(s, es) && Stranded(Exec(s, es)) && Exec(s, es).calls == 0
  {
    es := Extend(s, [], AddBegin(false));
    es := Extend(s, es, AddCount);
    es := Extend(s, es, AddArm);
    es := Extend(s, es, Expire);
    es := Extend(s, es, HandOver(false));
  }
}
