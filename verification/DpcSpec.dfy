/**
Interrupt handler, deferred procedure call and interrupt mask as an interleaving machine.

`wl_isr` runs under `isr_lock` and asks for the DPC; `wl_dpc` runs under the driver lock and turns
interrupts back on when it is done; `wl_reset`, going up and going down change the mask from
whoever holds the driver lock. In passive mode the DPC is a work item counted in `callbacks`,
otherwise it is a tasklet and is not counted.

Assumed of the firmware library: `wlc_isr` asks for a DPC only with interrupts on and turns them
off when it does; `wlc_dpc` does not turn them on; going up passes through `wl_init` and ends only
with no DPC outstanding; apart from that the library moves the mask only in wl_intrsoff/wl_intrsrestore
pairs, one at a time. Assumed of the kernel: the queued mark clears before the function runs,
and one item never runs twice at once.
*/
module DpcSpec {
  import opened Common

  /** Position of the interrupt handler; it holds isr_lock except when Out. */
  datatype Isr =
    | Out
    | Claimed    // wlc_isr turned interrupts off and asked for a DPC
    | Counting   // schedule_work succeeded, atomic_inc still to come

  /** Position of the running DPC function. */
  datatype Pc =
    | Idle
    | Entered    // function started, driver lock not yet taken
    | Locked     // driver lock held, pub->up not yet tested
    | InBlob     // inside wlc_dpc
    | Ran        // about to test pub->up and resched
    | Enabling   // counted down, wl_intrson still to come
    | Leaving    // about to release the driver lock

  /**
  Position inside wl_reset, going up, or an off/restore pair of the library's own, run by whoever holds
  the driver lock.
  */
  datatype Mask =
    | NoMask
    | Saved(saved: bool, up: bool)   // after wl_intrsoff; `up` when this is part of going up
    | Restored(up: bool)             // after wl_intrsrestore; wl_reset will clear resched, a pair will not
    | Ready                          // wl_init done, interface about to be marked up

  datatype State = State(
    passive: bool, up: bool, intr: bool, resched: bool, queued: bool,
    isr: Isr, pc: Pc, mask: Mask, failed: bool)

  datatype Event =
    | IsrClaim | IsrSchedule | IsrCount
    | Run | Lock | Begin | BlobReturn(again: bool, stillUp: bool) | Decide | Enable | Unlock
    | ResetOff(goingUp: bool) | ResetRestore | ResetClear | PairDone | GoUp | GiveUp | Down

  predicate Init(s: State) {
    !s.up && !s.intr && !s.resched && !s.queued && s.isr.Out? && s.pc.Idle? && s.mask.NoMask? && !s.failed
  }

  /** Which steps are taken by code that runs inside the driver lock on behalf of the library. */
  predicate IsMaskStep(e: Event) {
    e.ResetOff? || e.ResetRestore? || e.ResetClear? || e.PairDone? || e.GoUp? || e.GiveUp? || e.Down?
  }

  /** DPCs asked for, queued, or running before their wl_intrson. */
  function Live(s: State): nat {
    OneIf(s.isr.Claimed?) + OneIf(s.queued)
    + OneIf(s.pc.Entered? || s.pc.Locked? || s.pc.InBlob? || s.pc.Ran? || s.pc.Enabling?)
  }

  /** Own position of each thread, plus isr_lock: mask changes wait while the handler is in. */
  predicate Enabled(s: State, e: Event) {
    match e
    case IsrClaim => s.isr.Out? && s.intr
    case IsrSchedule => s.isr.Claimed?
    case IsrCount => s.isr.Counting?
    case Run => s.queued && s.pc.Idle?
    case Lock => s.pc.Entered?
    case Begin => s.pc.Locked? && (s.up && s.resched ==> s.isr.Out?)
    case BlobReturn(_, _) => s.pc.InBlob? && s.mask.NoMask?
    case Decide => s.pc.Ran?
    case Enable => s.pc.Enabling? && s.isr.Out?
    case Unlock => s.pc.Leaving?
    case ResetOff(goingUp) => s.mask.NoMask? && s.isr.Out? && (goingUp ==> !s.up)
    case ResetRestore => s.mask.Saved? && s.isr.Out?
    case ResetClear => s.mask.Restored?
    case PairDone => s.mask.Restored? && !s.mask.up
    case GoUp => s.mask.Ready? && s.isr.Out? && Live(s) == 0
    case GiveUp => s.mask.Ready?
    case Down => s.mask.NoMask? && s.isr.Out?
  }

  function Apply(s: State, e: Event): State
    requires Enabled(s, e)
  {
    match e
    case IsrClaim => s.(intr := false, isr := Claimed, failed := s.failed || s.resched)
    case IsrSchedule =>
      if s.passive && s.queued then s.(isr := Out, failed := true)
      else s.(queued := true, isr := if s.passive then Counting else Out)
    case IsrCount => s.(isr := Out)
    case Run => s.(queued := false, pc := Entered)
    case Lock => s.(pc := Locked)
    case Begin => s.(pc := if s.up then InBlob else Ran)
    case BlobReturn(again, stillUp) => s.(pc := Ran, resched := again, up := s.up && stillUp)
    case Decide =>
      if !s.up then s.(pc := Leaving)
      else if s.resched then s.(pc := Leaving, queued := true, failed := s.failed || (s.passive && s.queued))
      else s.(pc := Enabling)
    case Enable => s.(pc := Leaving, intr := true)
    case Unlock => s.(pc := Idle)
    case ResetOff(goingUp) => s.(mask := Saved(s.intr, goingUp), intr := false)
    case ResetRestore => s.(intr := s.mask.saved, mask := Restored(s.mask.up))
    case ResetClear => s.(resched := false, mask := if s.mask.up then Ready else NoMask)
    case PairDone => s.(mask := NoMask)
    case GoUp => s.(up := true, intr := true, mask := NoMask)
    case GiveUp => s.(mask := NoMask)
    case Down => s.(up := false, intr := false)
  }

  /** What the step adds to `wl->callbacks`. */
  function Delta(s: State, e: Event): int {
    match e
    case IsrCount => 1
    case Decide => if s.passive && (!s.up || !s.resched) then -1 else 0
    case _ => 0
  }

  /** Passive-mode DPC items not yet counted down. */
  function Outstanding(s: State): nat {
    if s.passive then OneIf(s.queued) + OneIf(s.pc.Entered? || s.pc.Locked? || s.pc.InBlob? || s.pc.Ran?) else 0
  }

  function Windows(s: State): nat { OneIf(s.isr.Counting?) }

  predicate HoldsLock(pc: Pc) { pc.Locked? || pc.InBlob? || pc.Ran? || pc.Enabling? || pc.Leaving? }

  /**
  What holding the driver lock excludes. The machine of the whole driver proves this of every
  step it lets happen; nothing here takes it for granted.
  */
  predicate Exclusive(s: State, e: Event) {
    && (e.Lock? || (HoldsLock(s.pc) && !s.pc.InBlob?) ==> s.mask.NoMask?)
    && (IsMaskStep(e) ==> !HoldsLock(s.pc) || s.pc.InBlob?)
  }

  /**
  One DPC at a time with interrupts off throughout, no assertion of the code fails, and interrupts
  are never left off while the interface is up with nobody on the way to turn them on again.
  */
  predicate Inv(s: State) {
    && !s.failed
    && Live(s) <= 1
    && (Live(s) == 1 ==> !s.intr)
    && (!s.isr.Out? ==> !s.intr)
    && (s.isr.Counting? ==> s.passive)
    && (s.intr ==> !s.resched && s.up)
    && (s.mask.Saved? ==> !s.intr && (s.mask.saved ==> Live(s) == 0 && !s.resched && s.up))
    && (s.pc.Enabling? ==> s.up)
    && (s.mask.Ready? || s.pc.Enabling? ==> !s.resched)
    && (s.up ==> s.intr || Live(s) == 1 || (s.mask.Saved? && s.mask.saved))
  }

  lemma StepKeepsInv(s: State, e: Event)
    requires Inv(s) && Enabled(s, e) && Exclusive(s, e)
    ensures Inv(Apply(s, e))
  {
  }

  lemma StepLedger(s: State, e: Event)
    requires Inv(s) && Enabled(s, e)
    ensures Outstanding(Apply(s, e)) - Windows(Apply(s, e)) == Outstanding(s) - Windows(s) + Delta(s, e)
  {
  }

  /** wl_dpc stays out of the library while the interface is down. */
  lemma DownStaysOut(s: State, e: Event)
    requires Enabled(s, e) && !s.up && !s.pc.InBlob? && !e.GoUp?
    ensures !Apply(s, e).up && !Apply(s, e).pc.InBlob?
  {
  }
}
