/**
What one failed allocation in wl_timer does to the driver: a concrete run of the whole engine from
attach to a stranded count, and from there to a poll of wl_free that ends although the count is lost.
*/
module EngineLoss {
  import opened Engine
  import Timer = TimerSpec

  /** One timer armed once, its expiry lost; nobody holds the driver lock; the counter reads one. */
  ghost predicate LostOne(w: World) {
    && Passive(w) && |w.timers| == 1 && w.timers[0].leaked == 1 && w.callbacks == 1
    && w.owner.Free? && w.busy.Quiet? && !w.mcQueued && w.mcPc.McIdle? && w.mcWindows == 0
  }

  /** Nothing but one timer. */
  ghost predicate OneTimer(w: World, callbacks: int) {
    && Passive(w) && |w.timers| == 1 && w.callbacks == callbacks
    && !w.mcQueued && w.mcPc.McIdle? && w.mcWindows == 0
    && w.timers[0].leaked == 0 && w.timers[0].expired == 0 && w.timers[0].body.NoBody?
  }

  /** Create a timer and take the driver lock. */
  lemma CreateOne(w0: World, t: Timer.State) returns (es: seq<Event>)
    requires Init(w0) && Passive(w0) && Timer.Init(t)
    ensures CanRun(w0, es)
    ensures var w := Exec(w0, es);
      OneTimer(w, 0) && w.owner.ByUser? && w.busy.Quiet? && !w.timers[0].armed && w.timers[0].op.NoOp?
  {
    es := Extend(w0, [], NewTimer(t));
    es := Extend(w0, es, UserLock);
  }

  lemma BeginAdd(w0: World, es: seq<Event>) returns (longer: seq<Event>)
    requires CanRun(w0, es)
    requires var w := Exec(w0, es);
      OneTimer(w, 0) && w.owner.ByUser? && w.busy.Quiet? && !w.timers[0].armed && w.timers[0].op.NoOp?
    ensures CanRun(w0, longer)
    ensures var w := Exec(w0, longer);
      OneTimer(w, 0) && w.owner.ByUser? && w.busy == OnTimer(0) && w.timers[0].armed && w.timers[0].op.AddSet?
  {
    longer := Extend(w0, es, TimerEv(0, Timer.AddBegin(false)));
  }

  /** Finish arming it and let go of the lock. */
  lemma FinishAdd(w0: World, es: seq<Event>) returns (longer: seq<Event>)
    requires CanRun(w0, es)
    requires var w := Exec(w0, es);
      OneTimer(w, 0) && w.owner.ByUser? && w.busy == OnTimer(0) && w.timers[0].armed && w.timers[0].op.AddSet?
    ensures CanRun(w0, longer)
    ensures var w := Exec(w0, longer);
      OneTimer(w, 1) && w.owner.Free? && w.busy.Quiet? && w.timers[0].pending
  {
    longer := Extend(w0, es, TimerEv(0, Timer.AddCount));
    longer := Extend(w0, longer, TimerEv(0, Timer.AddArm));
    longer := Extend(w0, longer, UserUnlock);
  }

  /** The loss happens in the whole engine: add, expire, fail to allocate the task. */
  lemma LossRun(w0: World, t: Timer.State) returns (es: seq<Event>)
    requires Init(w0) && Passive(w0) && Timer.Init(t)
    ensures CanRun(w0, es) && LostOne(Exec(w0, es)) && Stranded(Exec(w0, es)) == 1
  {
    es := CreateOne(w0, t);
    es := BeginAdd(w0, es);
    es := FinishAdd(w0, es);
    es := Extend(w0, es, TimerEv(0, Timer.Expire));
    es := Extend(w0, es, TimerEv(0, Timer.HandOver(false)));
    var w := Exec(w0, es);
    assert LeakedTo(w.timers, 0) == 0;
    assert LeakedTo(w.timers, 1) == 1;
  }

  /** A poll can end the wait all the same: a multicast item counts down before its request counts up. */
  lemma PollEndsDespiteLoss(w0: World, es: seq<Event>) returns (longer: seq<Event>)
    requires Init(w0) && CanRun(w0, es) && LostOne(Exec(w0, es))
    ensures CanRun(w0, longer)
    ensures var w := Exec(w0, longer); w.callbacks == 0 && Stranded(w) == Stranded(Exec(w0, es)) && w.mcWindows == 1
  {
    longer := Extend(w0, es, McRequest);
    longer := Extend(w0, longer, McRun);
    longer := Extend(w0, longer, McDec);
  }
}
