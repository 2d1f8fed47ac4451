/**
Definitions that several modules share.
*/
module Common {

  type byte = b: int | 0 <= b < 256

  type u32 = n: int | 0 <= n < 0x1_0000_0000

  /** A flag as a count. */
  function OneIf(b: bool): nat { if b then 1 else 0 }

  /** What position i of a linked list points to. */
  ghost function After(nodes: seq<object>, i: nat): object? {
    if i + 1 < |nodes| then nodes[i + 1] else null
  }

  lemma Regroup<T>(a: seq<T>, b: seq<T>, c: seq<T>)
    ensures (a + b) + c == a + (b + c)
  {
  }

  lemma ShiftedSlice<T>(a: seq<T>, b: seq<T>, from: nat, to: nat)
    requires from <= to <= |b|
    ensures (a + b)[|a| + from..|a| + to] == b[from..to]
  {
  }

  lemma ThreeParts<T>(a: seq<T>, b: seq<T>, c: seq<T>)
    ensures (a + b + c)[..|a|] == a && (a + b + c)[|a|..|a| + |b|] == b
  {
  }
}
