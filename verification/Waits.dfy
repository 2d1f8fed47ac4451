/**
Bounded waiting: the SPINWAIT macro, and the wait of wl_down for the callbacks counter. What the
condition evaluates to at its k-th evaluation is a parameter.
*/
module Waits {
  import opened Common

  const PERIOD: nat := 10   // SPINWAIT_POLL_PERIOD

  /** Unsigned 32-bit wrap-around. */
  function U32(n: int): u32 { n % 0x1_0000_0000 }

  /** The most delays SPINWAIT makes for a request of us microseconds. */
  function Limit(us: u32): nat { U32(us + 9) / 10 }

  /** Waiting as long as asked is possible exactly when the rounding up does not wrap. */
  lemma LimitCoversRequest(us: u32)
    ensures Limit(us) * PERIOD >= us <==> us <= 0xffff_fff6
    ensures us <= 0xffff_fff6 ==> us == 0 == Limit(us) || (Limit(us) - 1) * PERIOD < us
    ensures us > 0xffff_fff6 ==> Limit(us) == 0
  {
    if us <= 0xffff_fff6 {
      assert U32(us + 9) == us + 9;
    } else {
      assert U32(us + 9) == us + 9 - 0x1_0000_0000;
    }
  }

  /** n waiting steps were made: all of them with the condition still true, and no more than limit. */
  predicate Waited(busy: nat -> bool, limit: nat, n: nat) {
    n <= limit && (forall k :: 0 <= k < n ==> busy(k)) && (n < limit ==> !busy(n))
  }

  /** No other number of steps is possible: it is the first evaluation that is false, or the limit. */
  ghost predicate WaitedOnly(busy: nat -> bool, limit: nat, n: nat) {
    Waited(busy, limit, n) && forall m :: Waited(busy, limit, m) ==> m == n
  }

  lemma WaitedUnique(busy: nat -> bool, limit: nat, n: nat)
    requires Waited(busy, limit, n)
    ensures WaitedOnly(busy, limit, n)
  {
    forall m: nat | Waited(busy, limit, m) ensures m == n {
      assert m < n ==> busy(m);
      assert n < m ==> busy(n);
    }
  }

  method Spinwait(busy: nat -> bool, us: u32) returns (delays: nat)
    ensures WaitedOnly(busy, Limit(us), delays)
  {
    var countdown := U32(us + (PERIOD - 1));
    delays := 0;
    while busy(delays) && countdown >= PERIOD
      invariant 0 <= countdown && countdown + PERIOD * delays == U32(us + 9)
      invariant forall k :: 0 <= k < delays ==> busy(k)
    {
      delays := delays + 1;
      countdown := countdown - PERIOD;
    }
    WaitedUnique(busy, Limit(us), delays);
  }

  /** The passive-mode loop of wl_down: schedule and flush, at most 10000 times. */
  method FlushLoop(busy: nat -> bool) returns (i: nat)
    ensures WaitedOnly(busy, 10000, i)
  {
    i := 0;
    while busy(i) && i < 10000
      invariant i <= 10000 && forall k :: 0 <= k < i ==> busy(k)
    {
      i := i + 1;
    }
    WaitedUnique(busy, 10000, i);
  }

  /** The k-th value read is above the target, compared unsigned. */
  function Above(seen: nat -> u32, target: u32): nat -> bool { (k: nat) => seen(k) > target }

  /**
  The wait of wl_down. `first` and `seen` are what atomic_read returns, before the unlock and then at each
  evaluation; `returned` is ret_val, normally the result of wlc_down. Both modes give up after the same
  number of steps.
  */
  method WaitForCallbacks(first: u32, seen: nat -> u32, returned: u32, passive: bool) returns (steps: nat)
    ensures WaitedOnly(Above(seen, U32(first - returned)), 10000, steps)
    ensures returned <= first ==> forall k :: 0 <= k < 10000 && seen(k) + returned <= first ==> steps <= k
    ensures returned <= first && (forall k :: 0 <= k < 10000 ==> seen(k) + returned > first) ==> steps == 10000
  {
    WaitEndsAtTarget(first, seen, returned);
    var callbacks := U32(first - returned);
    var busy := Above(seen, callbacks);
    if passive {
      steps := FlushLoop(busy);
    } else {
      steps := Spinwait(busy, 100 * 1000);
    }
    assert forall k: nat :: 0 <= k < steps ==> busy(k);
  }

  /** Without a wrap, waiting goes on exactly while the counter has not dropped by what was returned. */
  lemma WaitEndsAtTarget(first: u32, seen: nat -> u32, returned: u32)
    ensures returned <= first ==>
      forall k: nat :: Above(seen, U32(first - returned))(k) <==> seen(k) + returned > first
  {
    assert returned <= first ==> U32(first - returned) == first - returned;
  }

  /**
  A wait that ends before the limit has seen the counter drop by what was returned if and only if the
  subtraction did not wrap. If it wrapped, the first read below the huge target ends the wait at once.
  */
  lemma EarlyEndMeansDropped(first: u32, seen: nat -> u32, returned: u32, steps: nat)
    requires Waited(Above(seen, U32(first - returned)), 10000, steps) && steps < 10000
    ensures seen(steps) + returned <= first <==> returned <= first
    ensures returned > first && seen(0) < 0x1_0000_0000 - (returned - first) ==> steps == 0
  {
    var target := U32(first - returned);
    if returned <= first {
      assert target == first - returned && !Above(seen, target)(steps);
    } else {
      assert target == 0x1_0000_0000 - (returned - first);
      assert steps > 0 ==> Above(seen, target)(0);
    }
  }

  function Three(k: nat): u32 { 3 }

  /** Such an input: with the counter staying at 3, returning 4 ends the wait at once, returning 3 does not end it. */
  lemma WrappedTargetEndsAtOnce()
    ensures WaitedOnly(Above(Three, U32(3 - 4)), 10000, 0)
    ensures WaitedOnly(Above(Three, U32(3 - 3)), 10000, 10000)
  {
    assert U32(3 - 4) == 0xffff_ffff && !Above(Three, U32(3 - 4))(0);
    WaitedUnique(Above(Three, U32(3 - 4)), 10000, 0);
    WaitedUnique(Above(Three, U32(3 - 3)), 10000, 10000);
  }
}
