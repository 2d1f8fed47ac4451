/**
The bodies of wl_isr, wl_dpc, wl_reset, wl_add_timer, wl_del_timer, wl_timer and _wl_timer, run without
interruption. A ghost copy of the interleaving machine takes one step at each point where the code can
be interrupted, so every step the machine is built of occurs in the code where the machine says, and the
counter moves by what the machine says.
*/
module DriverCode {
  import Dpc = DpcSpec
  import Timer = TimerSpec

  class Interrupts {
    const passive: bool
    var up: bool
    var intr: bool        // the device's interrupt mask
    var resched: bool
    var queued: bool      // wl_dpc_task or the tasklet is queued
    var callbacks: int
    ghost var machine: Dpc.State
    ghost var counted: int   // the machine's account of callbacks

    ghost predicate InStep()
      reads this
    {
      && Dpc.Inv(machine) && counted == callbacks
      && machine.passive == passive && machine.up == up && machine.intr == intr
      && machine.resched == resched && machine.queued == queued
    }

    /** Nobody is inside any of the functions. */
    ghost predicate AtRest()
      reads this
    {
      InStep() && machine.isr.Out? && machine.pc.Idle? && machine.mask.NoMask?
    }

    constructor (allPassive: bool)
      ensures AtRest() && passive == allPassive && !up && !intr && !resched && !queued && callbacks == 0
    {
      passive, up, intr, resched, queued, callbacks, counted := allPassive, false, false, false, false, 0, 0;
      machine := Dpc.State(allPassive, false, false, false, false, Dpc.Out, Dpc.Idle, Dpc.NoMask, false);
    }

    ghost method Advance(e: Dpc.Event)
      requires Dpc.Inv(machine) && Dpc.Enabled(machine, e) && Dpc.Exclusive(machine, e)
      modifies this`machine, this`counted
      ensures Dpc.Inv(machine) && machine == Dpc.Apply(old(machine), e)
      ensures counted == old(counted) + Dpc.Delta(old(machine), e)
    {
      Dpc.StepKeepsInv(machine, e);
      counted := counted + Dpc.Delta(machine, e);
      machine := Dpc.Apply(machine, e);
    }

    /** schedule_work or tasklet_schedule */
    method Schedule() returns (accepted: bool)
      modifies this`queued
      ensures queued && accepted == !old(queued)
    {
      accepted := !queued;
      queued := true;
    }

    /** wl_isr. wlc_isr asks for a DPC only with interrupts on, and turns them off; no ASSERT fails. */
    method Isr(ours: bool, wantdpc: bool)
      requires AtRest() && (ours && wantdpc ==> intr)
      modifies this
      ensures AtRest() && up == old(up) && resched == old(resched)
      ensures ours && wantdpc ==> !intr && queued && !old(queued)
      ensures ours && wantdpc ==> callbacks == old(callbacks) + if passive then 1 else 0
      ensures !(ours && wantdpc) ==> intr == old(intr) && queued == old(queued) && callbacks == old(callbacks)
    {
      if ours {
        if wantdpc {
          intr := false;
          Advance(Dpc.IsrClaim);
          assert !resched;                 // ASSERT(wl->resched == FALSE)
          var ok := Schedule();
          Advance(Dpc.IsrSchedule);
          if passive {
            if ok {
              callbacks := callbacks + 1;
              Advance(Dpc.IsrCount);
            } else {
              assert false;                // ASSERT(0)
            }
          }
        }
      }
    }

    /** The kernel clears the queued mark and calls wl_dpc, which takes the driver lock. */
    method DpcEnter()
      requires AtRest() && queued
      modifies this`queued, this`machine, this`counted
      ensures InStep() && machine.isr.Out? && machine.pc.Locked? && machine.mask.NoMask? && !queued && !intr
    {
      queued := false;
      Advance(Dpc.Run);
      Advance(Dpc.Lock);
    }

    /** wl_dpc runs wlc_dpc if the interface is up. */
    method DpcRun(again: bool, stillUp: bool)
      requires InStep() && machine.isr.Out? && machine.pc.Locked? && machine.mask.NoMask? && !queued && !intr
      modifies this`resched, this`up, this`machine, this`counted
      ensures InStep() && machine.isr.Out? && machine.pc.Ran? && machine.mask.NoMask?
      ensures up == (old(up) && stillUp) && resched == if old(up) then again else old(resched)
    {
      Advance(Dpc.Begin);
      if up {
        resched := again;
        up := stillUp;
        Advance(Dpc.BlobReturn(again, stillUp));
      }
    }

    /** wl_dpc, with `again` and `stillUp` as wlc_dpc leaves them. */
    method DpcFn(again: bool, stillUp: bool)
      requires AtRest() && queued
      modifies this
      ensures AtRest() && up == (old(up) && stillUp) && resched == if old(up) then again else old(resched)
      ensures !up ==> !queued && !intr && callbacks == old(callbacks) - if passive then 1 else 0
      ensures up && again ==> queued && !intr && resched && callbacks == old(callbacks)
      ensures up && !again ==> !queued && intr && !resched && callbacks == old(callbacks) - if passive then 1 else 0
    {
      DpcEnter();
      DpcRun(again, stillUp);
      if !up {
        if passive { callbacks := callbacks - 1; }
        Advance(Dpc.Decide);
      } else if resched {
        var ok := Schedule();
        assert ok;                         // ASSERT(0) otherwise
        Advance(Dpc.Decide);
      } else {
        if passive { callbacks := callbacks - 1; }
        Advance(Dpc.Decide);
        intr := true;
        Advance(Dpc.Enable);
      }
      Advance(Dpc.Unlock);
    }

    /** The body of wl_reset, by itself or as part of going up. */
    method ResetSteps(goingUp: bool)
      requires AtRest() && (goingUp ==> !up)
      modifies this`intr, this`resched, this`machine, this`counted
      ensures InStep() && machine.isr.Out? && machine.pc.Idle? && !resched && intr == old(intr)
      ensures if goingUp then machine.mask.Ready? else machine.mask.NoMask?
    {
      var macintmask := intr;
      intr := false;
      Advance(Dpc.ResetOff(goingUp));
      intr := macintmask;
      Advance(Dpc.ResetRestore);
      resched := false;
      Advance(Dpc.ResetClear);
    }

    /** The library goes up, through wl_init, with no DPC outstanding. */
    method BringUp()
      requires AtRest() && !up && !queued
      modifies this
      ensures AtRest() && up && intr && !resched && !queued && callbacks == old(callbacks)
    {
      ResetSteps(true);
      up, intr := true, true;
      Advance(Dpc.GoUp);
    }

    /** The library goes down. */
    method BringDown()
      requires AtRest()
      modifies this
      ensures AtRest() && !up && !intr && queued == old(queued) && callbacks == old(callbacks)
    {
      up, intr := false, false;
      Advance(Dpc.Down);
    }

    /** wl_reset */
    method Reset()
      requires AtRest()
      modifies this
      ensures AtRest() && !resched && intr == old(intr)
      ensures up == old(up) && queued == old(queued) && callbacks == old(callbacks)
    {
      ResetSteps(false);
    }
  }

  class TimerObj {
    const passive: bool
    var armed: bool        // `set` in the source
    var periodic: bool
    var pending: bool      // the kernel's timer_pending
    var callbacks: int
    ghost var machine: Timer.State
    ghost var counted: int

    ghost predicate InStep()
      reads this
    {
      && Timer.Inv(machine) && counted == callbacks
      && machine.armed == armed && machine.periodic == periodic && machine.pending == pending
      && machine.op.NoOp?
    }

    /** No entry point and no _wl_timer is in progress on this timer, or fn is calling back. */
    ghost predicate Callable()
      reads this
    {
      InStep() && (machine.body.NoBody? || machine.body.InFn?)
    }

    constructor (allPassive: bool)
      ensures Callable() && !armed && !pending && callbacks == 0 && machine.expired == 0 && machine.tasks == 0
      ensures passive == allPassive && machine.body.NoBody?
    {
      passive, armed, periodic, pending, callbacks, counted := allPassive, false, false, false, 0, 0;
      machine := Timer.State(false, false, false, 0, 0, 0, 0, 0, Timer.NoBody, false, Timer.NoOp, 0, 0, 0, false);
    }

    ghost method Advance(e: Timer.Event)
      requires Timer.Inv(machine) && Timer.Enabled(machine, e) && Timer.Exclusive(machine, e)
      modifies this`machine, this`counted
      ensures Timer.Inv(machine) && machine == Timer.Apply(old(machine), e)
      ensures counted == old(counted) + Timer.Delta(old(machine), e)
    {
      Timer.StepKeepsInv(machine, e);
      counted := counted + Timer.Delta(machine, e);
      machine := Timer.Apply(machine, e);
    }

    /** wl_add_timer: an armed timer only changes its period; the kernel timer is never added twice. */
    method Add(repeat: bool)
      requires Callable()
      modifies this
      ensures Callable() && armed && periodic == repeat
      ensures old(armed) ==> pending == old(pending) && callbacks == old(callbacks)
      ensures !old(armed) ==> pending && callbacks == old(callbacks) + 1
      ensures machine.calls == old(machine.calls) && machine.cancels == old(machine.cancels)
      ensures machine.expired == old(machine.expired) && machine.tasks == old(machine.tasks)
      ensures machine.body == old(machine.body)
    {
      periodic := repeat;
      if armed {
        Advance(Timer.AddBegin(repeat));
        return;
      }
      armed := true;
      Advance(Timer.AddBegin(repeat));
      callbacks := callbacks + 1;
      Advance(Timer.AddCount);
      assert !pending;
      pending := true;
      Advance(Timer.AddArm);
    }

    /** wl_del_timer: only a pending expiry gives its count back; one in flight keeps it. */
    method Del() returns (r: bool)
      requires Callable()
      modifies this
      ensures Callable() && r && !armed && !pending && periodic == old(periodic)
      ensures callbacks == old(callbacks) - if old(armed) && old(pending) then 1 else 0
      ensures machine.calls == old(machine.calls)
      ensures machine.cancels == old(machine.cancels) + if old(armed) then 1 else 0
      ensures machine.expired == old(machine.expired) && machine.tasks == old(machine.tasks)
      ensures machine.body == old(machine.body)
    {
      if armed {
        armed := false;
        Advance(Timer.DelBegin);
        var deactivated := pending;
        pending := false;
        Advance(Timer.DelKernel);
        if !deactivated {
          return true;
        }
        callbacks := callbacks - 1;
        Advance(Timer.DelCount);
      }
      r := true;
    }

    /** The kernel timer runs out and calls wl_timer; in passive mode it schedules a task if memory allows. */
    method Expiry(memory: bool)
      requires Callable() && pending
      modifies this
      ensures Callable() && !pending && armed == old(armed) && periodic == old(periodic)
      ensures !passive ==> callbacks == old(callbacks) && machine.expired == old(machine.expired) + 1
      ensures passive && memory ==> callbacks == old(callbacks) + 1 && machine.tasks == old(machine.tasks) + 1
      ensures passive && !memory ==> callbacks == old(callbacks) && machine.leaked == old(machine.leaked) + 1
      ensures passive ==> machine.expired == old(machine.expired)
      ensures !(passive && memory) ==> machine.tasks == old(machine.tasks)
      ensures machine.body == old(machine.body)
    {
      pending := false;
      Advance(Timer.Expire);
      if passive {
        Advance(Timer.HandOver(memory));
        if memory {
          callbacks := callbacks + 1;
          Advance(Timer.CountTask);
        }
      }
    }

    /** _wl_timer up to the call of fn, which happens exactly if the timer is still set and not pending again. */
    method FnBegin() returns (call: bool)
      requires Callable() && machine.body.NoBody? && if passive then machine.tasks > 0 else machine.expired > 0
      modifies this
      ensures InStep() && call == (old(armed) && !old(pending))
      ensures call ==> Callable() && machine.body.InFn? && machine.calls == old(machine.calls) + 1
      ensures call ==> armed == pending == periodic && callbacks == old(callbacks) + if periodic then 1 else 0
      ensures !call ==> armed == old(armed) && pending == old(pending) && callbacks == old(callbacks)
      ensures !call ==> machine.body.Closing? && machine.calls == old(machine.calls)
      ensures periodic == old(periodic) && machine.byTask == passive
    {
      Advance(Timer.Lock(passive));
      call := armed && !pending;
      Advance(Timer.Check);
      if call {
        if periodic {
          callbacks := callbacks + 1;
          assert !pending;
          pending := true;
          armed := true;
          Advance(Timer.Arm);
        } else {
          armed := false;
        }
      }
    }

    /** _wl_timer after fn, and the end of wl_timer_task: one count for the expiry, one for the task. */
    method FnEnd()
      requires InStep() && (machine.body.InFn? || machine.body.Closing?) && machine.byTask == passive
      modifies this
      ensures Callable() && machine.body.NoBody?
      ensures armed == old(armed) && pending == old(pending) && periodic == old(periodic)
      ensures callbacks == old(callbacks) - if passive then 2 else 1
    {
      if machine.body.InFn? {
        Advance(Timer.FnDone);
      }
      callbacks := callbacks - 1;
      Advance(Timer.Close);
      Advance(Timer.Unlock);
      if passive {
        callbacks := callbacks - 1;
        Advance(Timer.TailDone);
      }
    }
  }

  /**
  A one-shot timer from arming to the end of its expiry, in either mode: fn is called once and the
  counter is back where it was.
  */
  method OneShot(t: TimerObj) returns (called: bool)
    requires t.Callable() && t.machine.body.NoBody? && !t.armed
    requires t.machine.expired == 0 && t.machine.tasks == 0
    modifies t
    ensures t.Callable() && called && !t.armed && !t.pending && t.callbacks == old(t.callbacks)
  {
    t.Add(false);
    t.Expiry(true);
    called := t.FnBegin();
    t.FnEnd();
  }
}
