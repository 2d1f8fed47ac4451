/**
Combining two 16-octet blocks of one memory into a third, octet by octet or four octets at a time, for
any operation on octets and any overlap of the blocks.
*/
module Blocks {

  /** What a store of b at `at` leaves of the memory m. */
  function Stored<T>(m: seq<T>, at: nat, b: seq<T>): (r: seq<T>)
    requires at + |b| <= |m|
    ensures |r| == |m|
  {
    m[..at] + b + m[at + |b|..]
  }

  predicate InBounds<T>(m: seq<T>, src1: nat, src2: nat, dst: nat) {
    src1 + 16 <= |m| && src2 + 16 <= |m| && dst + 16 <= |m|
  }

  /** Octet k of the two sources, combined. */
  function Both<T>(m: seq<T>, op: (T, T) -> T, src1: nat, src2: nat, k: nat): T
    requires src1 + k < |m| && src2 + k < |m|
  {
    op(m[src1 + k], m[src2 + k])
  }

  function Step<T>(m: seq<T>, op: (T, T) -> T, src1: nat, src2: nat, dst: nat, k: nat): (r: seq<T>)
    requires InBounds(m, src1, src2, dst) && k < 16
    ensures |r| == |m|
  {
    m[dst + k := Both(m, op, src1, src2, k)]
  }

  /** Octets k to 15, one at a time. */
  function ByOctet<T>(m: seq<T>, op: (T, T) -> T, src1: nat, src2: nat, dst: nat, k: nat): (r: seq<T>)
    requires InBounds(m, src1, src2, dst) && k <= 16
    ensures |r| == |m|
    decreases 16 - k
  {
    if k == 16 then m else ByOctet(Step(m, op, src1, src2, dst, k), op, src1, src2, dst, k + 1)
  }

  /** Four octets at once: all are read before any is written. */
  function FourAtOnce<T>(m: seq<T>, op: (T, T) -> T, src1: nat, src2: nat, dst: nat, off: nat): (r: seq<T>)
    requires InBounds(m, src1, src2, dst) && off <= 12
    ensures |r| == |m|
  {
    Stored(m, dst + off, [Both(m, op, src1, src2, off), Both(m, op, src1, src2, off + 1),
                          Both(m, op, src1, src2, off + 2), Both(m, op, src1, src2, off + 3)])
  }

  /** Octets off to 15, four at a time. */
  function ByWord<T>(m: seq<T>, op: (T, T) -> T, src1: nat, src2: nat, dst: nat, off: nat): (r: seq<T>)
    requires InBounds(m, src1, src2, dst) && off <= 16 && off % 4 == 0
    ensures |r| == |m|
    decreases 16 - off
  {
    if off == 16 then m else ByWord(FourAtOnce(m, op, src1, src2, dst, off), op, src1, src2, dst, off + 4)
  }

  /** The destination does not begin one to three octets behind the start of the source. */
  predicate Clear(src: nat, dst: nat) { !(src < dst < src + 4) }

  lemma EarlierWritesUnseen<T>(m: seq<T>, m': seq<T>, op: (T, T) -> T, src1: nat, src2: nat, dst: nat, off: nat, n: nat)
    requires InBounds(m, src1, src2, dst) && |m'| == |m| && off <= 12 && n < 4 && Clear(src1, dst) && Clear(src2, dst)
    requires forall i :: 0 <= i < |m| && !(dst + off <= i < dst + off + n) ==> m'[i] == m[i]
    ensures Both(m', op, src1, src2, off + n) == Both(m, op, src1, src2, off + n)
  {
  }

  lemma FourUpdates<T>(m: seq<T>, at: nat, b0: T, b1: T, b2: T, b3: T)
    requires at + 4 <= |m|
    ensures m[at := b0][at + 1 := b1][at + 2 := b2][at + 3 := b3] == Stored(m, at, [b0, b1, b2, b3])
  {
  }

  function FourSteps<T>(m: seq<T>, op: (T, T) -> T, src1: nat, src2: nat, dst: nat, off: nat): (r: seq<T>)
    requires InBounds(m, src1, src2, dst) && off <= 12
    ensures |r| == |m|
  {
    var m1 := Step(m, op, src1, src2, dst, off);
    var m2 := Step(m1, op, src1, src2, dst, off + 1);
    var m3 := Step(m2, op, src1, src2, dst, off + 2);
    Step(m3, op, src1, src2, dst, off + 3)
  }

  lemma FourOctets<T>(m: seq<T>, op: (T, T) -> T, src1: nat, src2: nat, dst: nat, off: nat)
    requires InBounds(m, src1, src2, dst) && off <= 12
    ensures ByOctet(m, op, src1, src2, dst, off)
         == ByOctet(FourSteps(m, op, src1, src2, dst, off), op, src1, src2, dst, off + 4)
  {
    var m1 := Step(m, op, src1, src2, dst, off);
    var m2 := Step(m1, op, src1, src2, dst, off + 1);
    var m3 := Step(m2, op, src1, src2, dst, off + 2);
    assert ByOctet(m, op, src1, src2, dst, off) == ByOctet(m2, op, src1, src2, dst, off + 2);
    assert ByOctet(m2, op, src1, src2, dst, off + 2) == ByOctet(m3, op, src1, src2, dst, off + 3);
  }

  /** A word step does what four octet steps do. */
  lemma WordIsFourSteps<T>(m: seq<T>, op: (T, T) -> T, src1: nat, src2: nat, dst: nat, off: nat)
    requires InBounds(m, src1, src2, dst) && off <= 12 && Clear(src1, dst) && Clear(src2, dst)
    ensures FourAtOnce(m, op, src1, src2, dst, off) == FourSteps(m, op, src1, src2, dst, off)
  {
    var d := dst + off;
    var b0, b1 := Both(m, op, src1, src2, off), Both(m, op, src1, src2, off + 1);
    var b2, b3 := Both(m, op, src1, src2, off + 2), Both(m, op, src1, src2, off + 3);
    var m1 := m[d := b0];
    EarlierWritesUnseen(m, m1, op, src1, src2, dst, off, 1);
    var m2 := m1[d + 1 := b1];
    EarlierWritesUnseen(m, m2, op, src1, src2, dst, off, 2);
    var m3 := m2[d + 2 := b2];
    EarlierWritesUnseen(m, m3, op, src1, src2, dst, off, 3);
    FourUpdates(m, d, b0, b1, b2, b3);
  }

  /** Both ways agree for every overlap in which the destination is clear of both sources. */
  lemma {:induction false} WordsAgreeWithOctets<T>(
    m: seq<T>, op: (T, T) -> T, src1: nat, src2: nat, dst: nat, off: nat)
    requires InBounds(m, src1, src2, dst) && Clear(src1, dst) && Clear(src2, dst) && off <= 16 && off % 4 == 0
    ensures ByWord(m, op, src1, src2, dst, off) == ByOctet(m, op, src1, src2, dst, off)
    decreases 16 - off
  {
    if off < 16 {
      WordIsFourSteps(m, op, src1, src2, dst, off);
      FourOctets(m, op, src1, src2, dst, off);
      WordsAgreeWithOctets(FourAtOnce(m, op, src1, src2, dst, off), op, src1, src2, dst, off + 4);
    }
  }

  /** A destination that is the source, or begins before it, or lies behind it. */
  predicate Unread(src: nat, dst: nat) { dst <= src || src + 16 <= dst }

  /** The 16 octets of dst become the combination of the original sources, and nothing else changes. */
  lemma {:induction false} Pointwise<T>(m: seq<T>, op: (T, T) -> T, src1: nat, src2: nat, dst: nat, k: nat, i: nat)
    requires InBounds(m, src1, src2, dst) && k <= 16 && i < |m| && Unread(src1, dst) && Unread(src2, dst)
    ensures ByOctet(m, op, src1, src2, dst, k)[i] ==
      if dst + k <= i < dst + 16 then Both(m, op, src1, src2, i - dst) else m[i]
    decreases 16 - k
  {
    if k < 16 {
      Pointwise(Step(m, op, src1, src2, dst, k), op, src1, src2, dst, k + 1, i);
    }
  }

  lemma {:induction false} DoneOctetStays<T>(m: seq<T>, op: (T, T) -> T, src1: nat, src2: nat, dst: nat, k: nat, i: nat)
    requires InBounds(m, src1, src2, dst) && k <= 16 && i < |m| && i < dst + k
    ensures ByOctet(m, op, src1, src2, dst, k)[i] == m[i]
    decreases 16 - k
  {
    if k < 16 {
      DoneOctetStays(Step(m, op, src1, src2, dst, k), op, src1, src2, dst, k + 1, i);
    }
  }

  lemma {:induction false} DoneWordStays<T>(
    m: seq<T>, op: (T, T) -> T, src1: nat, src2: nat, dst: nat, off: nat, i: nat)
    requires InBounds(m, src1, src2, dst) && off <= 16 && off % 4 == 0 && i < |m| && i < dst + off
    ensures ByWord(m, op, src1, src2, dst, off)[i] == m[i]
    decreases 16 - off
  {
    if off < 16 {
      DoneWordStays(FourAtOnce(m, op, src1, src2, dst, off), op, src1, src2, dst, off + 4, i);
    }
  }

  /**
  Where the two ways part: d octets into the destination, for a source d octets before it and no source
  nearer. The word reads the old first octet of the destination there, the octet loop the new one.
  */
  lemma OverlapAt<T>(m: seq<T>, op: (T, T) -> T, src1: nat, src2: nat, dst: nat, d: nat)
    requires InBounds(m, src1, src2, dst) && 1 <= d <= 3 && !(1 <= dst - src1 < d) && !(1 <= dst - src2 < d)
    ensures ByWord(m, op, src1, src2, dst, 0)[dst + d] == Both(m, op, src1, src2, d)
    ensures ByOctet(m, op, src1, src2, dst, 0)[dst + d]
         == Both(m[dst := Both(m, op, src1, src2, 0)], op, src1, src2, d)
  {
    FirstWord(m, op, src1, src2, dst, d);
    OctetReached(m, op, src1, src2, dst, 0, 1);
    OctetsBetween(Step(m, op, src1, src2, dst, 0), op, src1, src2, dst, d);
  }

  lemma FirstWord<T>(m: seq<T>, op: (T, T) -> T, src1: nat, src2: nat, dst: nat, d: nat)
    requires InBounds(m, src1, src2, dst) && d <= 3
    ensures ByWord(m, op, src1, src2, dst, 0)[dst + d] == Both(m, op, src1, src2, d)
  {
    DoneWordStays(FourAtOnce(m, op, src1, src2, dst, 0), op, src1, src2, dst, 4, dst + d);
  }

  lemma OctetReached<T>(m: seq<T>, op: (T, T) -> T, src1: nat, src2: nat, dst: nat, k: nat, l: nat)
    requires InBounds(m, src1, src2, dst) && k < 16 && l == k + 1
    ensures ByOctet(m, op, src1, src2, dst, k) == ByOctet(Step(m, op, src1, src2, dst, k), op, src1, src2, dst, l)
  {
  }

  /** Steps 1 to d - 1 do not write what step d reads. */
  lemma OctetsBetween<T>(m: seq<T>, op: (T, T) -> T, src1: nat, src2: nat, dst: nat, d: nat)
    requires InBounds(m, src1, src2, dst) && 1 <= d <= 3 && !(1 <= dst - src1 < d) && !(1 <= dst - src2 < d)
    ensures ByOctet(m, op, src1, src2, dst, 1)[dst + d] == Both(m, op, src1, src2, d)
  {
    if d == 1 {
      WrittenStays(m, op, src1, src2, dst, 1);
    } else {
      var m2 := Step(m, op, src1, src2, dst, 1);
      OctetReached(m, op, src1, src2, dst, 1, 2);
      if d == 2 {
        WrittenStays(m2, op, src1, src2, dst, 2);
      } else {
        OctetReached(m2, op, src1, src2, dst, 2, 3);
        WrittenStays(Step(m2, op, src1, src2, dst, 2), op, src1, src2, dst, 3);
      }
    }
  }

  lemma WrittenStays<T>(m: seq<T>, op: (T, T) -> T, src1: nat, src2: nat, dst: nat, k: nat)
    requires InBounds(m, src1, src2, dst) && k < 16
    ensures ByOctet(m, op, src1, src2, dst, k)[dst + k] == Both(m, op, src1, src2, k)
  {
    DoneOctetStays(Step(m, op, src1, src2, dst, k), op, src1, src2, dst, k + 1, dst + k);
  }

  // ---------------------------------------------------------------- a source combined with itself

  /** The memory with c in octets k to 15 of the destination. */
  function Filled<T>(m: seq<T>, c: T, dst: nat, k: nat): (r: seq<T>)
    requires dst + 16 <= |m| && k <= 16
    ensures |r| == |m|
    decreases 16 - k
  {
    if k == 16 then m else Filled(m[dst + k := c], c, dst, k + 1)
  }

  lemma {:induction false} SameSourceByOctet<T>(m: seq<T>, op: (T, T) -> T, c: T, src: nat, dst: nat, k: nat)
    requires InBounds(m, src, src, dst) && k <= 16 && forall x :: op(x, x) == c
    ensures ByOctet(m, op, src, src, dst, k) == Filled(m, c, dst, k)
    decreases 16 - k
  {
    if k < 16 {
      SameSourceByOctet(Step(m, op, src, src, dst, k), op, c, src, dst, k + 1);
    }
  }

  lemma FilledFour<T>(m: seq<T>, c: T, dst: nat, k: nat)
    requires dst + 16 <= |m| && k <= 12
    ensures Filled(m, c, dst, k) == Filled(Stored(m, dst + k, [c, c, c, c]), c, dst, k + 4)
  {
    var m2 := m[dst + k := c][dst + k + 1 := c];
    assert Filled(m, c, dst, k) == Filled(m2, c, dst, k + 2);
    var m4 := m2[dst + k + 2 := c][dst + k + 3 := c];
    assert Filled(m2, c, dst, k + 2) == Filled(m4, c, dst, k + 4);
    FourUpdates(m, dst + k, c, c, c, c);
  }

  lemma {:induction false} SameSourceByWord<T>(m: seq<T>, op: (T, T) -> T, c: T, src: nat, dst: nat, off: nat)
    requires InBounds(m, src, src, dst) && off <= 16 && off % 4 == 0 && forall x :: op(x, x) == c
    ensures ByWord(m, op, src, src, dst, off) == Filled(m, c, dst, off)
    decreases 16 - off
  {
    if off < 16 {
      FilledFour(m, c, dst, off);
      SameSourceByWord(FourAtOnce(m, op, src, src, dst, off), op, c, src, dst, off + 4);
    }
  }
}
