/**
Fetching scan results: wl_notify_scan_status doubles its buffer until the device's answer fits, and
wl_inform_bss walks the records in it, each of which names its own length.
*/
module ScanFetch {
  import opened Common

  const BASE: nat := 16384           // WL_SCAN_BUF_BASE
  const AP_MAX: nat := 256           // WL_AP_MAX
  const BSS_INFO_MAX: nat := 2048    // WL_BSS_INFO_MAX
  const BSS_INFO_VERSION: nat := 109 // WL_BSS_INFO_VERSION

  const E2BIG: int := 7
  const EINVAL: int := 22
  const EOPNOTSUPP: int := 95

  // ---------------------------------------------------------------- buffer sizes

  /** n *= 2 on a u32. */
  function Twice(n: u32): u32 {
    if n < 0x8000_0000 then 2 * n else 2 * n - 0x1_0000_0000
  }

  /** buflen at attempt k. */
  function Size(k: nat): u32 {
    if k == 0 then BASE else Twice(Size(k - 1))
  }

  function Pow2(k: nat): nat { if k == 0 then 1 else 2 * Pow2(k - 1) }

  lemma Pow2Plus4(k: nat)
    ensures Pow2(k + 4) == 16 * Pow2(k)
  {
    assert Pow2(k + 2) == 4 * Pow2(k);
    assert Pow2(k + 4) == 4 * Pow2(k + 2);
  }

  lemma Pow2At17(n: nat)
    requires n == 17
    ensures Pow2(n) == 0x2_0000
  {
    Pow2Plus4(n - 4);
    Pow2Plus4(n - 8);
    Pow2Plus4(n - 12);
    Pow2Plus4(n - 16);
    assert Pow2(n - 17) == 1;
  }

  lemma {:induction false} PowersTo17(k: nat)
    requires k <= 17
    ensures 1 <= Pow2(k) <= 0x2_0000
    decreases 17 - k
  {
    if k == 17 {
      Pow2At17(k);
    } else {
      PowersTo17(k + 1);
      assert Pow2(k + 1) == 2 * Pow2(k);
    }
  }

  lemma {:induction false} SizeDoubles(k: nat)
    requires k <= 17
    ensures Size(k) == BASE * Pow2(k) <= 0x8000_0000
  {
    PowersTo17(k);
    if k > 0 {
      SizeDoubles(k - 1);
    }
  }

  lemma LastSize(k: nat)
    requires k == 17
    ensures Size(k) == 0x8000_0000
  {
    SizeDoubles(k);
    Pow2At17(k);
  }

  lemma {:induction false} SizeWraps(k: nat)
    requires k >= 18
    ensures Size(k) == 0
  {
    if k == 18 {
      LastSize(k - 1);
    } else {
      SizeWraps(k - 1);
    }
  }

  /** Some buffer is large enough exactly when at most 2^31 octets are needed. */
  lemma SomeSizeFits(needed: nat)
    ensures (exists k :: Size(k) >= needed) <==> needed <= 0x8000_0000
  {
    LastSize(17);
    if k: nat :| Size(k) >= needed {
      if k <= 17 { SizeDoubles(k); } else { SizeWraps(k); }
    }
  }

  // ---------------------------------------------------------------- the fetch loop

  datatype End = Fetched(attempt: nat) | NoMemory(attempt: nat) | Fault(attempt: nat) | DeviceError(attempt: nat)

  /** Attempt k was made and the answer did not fit. */
  predicate TooSmall(k: nat, needed: nat, memory: nat -> bool, fault: nat -> int) {
    memory(k) && Size(k) > 0 && fault(k) == 0 && Size(k) < needed
  }

  /**
  What ends the loop, by kmalloc (`memory`), device errors other than -E2BIG (`fault`) and the size
  needed: the first attempt that is not merely too small. A buffer of length 0 is not null but cannot take the
  store of its own length, which faults.
  */
  predicate Ends(end: End, needed: nat, memory: nat -> bool, fault: nat -> int) {
    && (forall j :: 0 <= j < end.attempt ==> TooSmall(j, needed, memory, fault))
    && match end
       case Fetched(k) => memory(k) && Size(k) > 0 && fault(k) == 0 && Size(k) >= needed
       case NoMemory(k) => !memory(k)
       case Fault(k) => memory(k) && Size(k) == 0
       case DeviceError(k) => memory(k) && Size(k) > 0 && fault(k) != 0
  }

  /** The loop ends in this way, and no other end is possible. */
  ghost predicate EndsOnly(end: End, needed: nat, memory: nat -> bool, fault: nat -> int) {
    Ends(end, needed, memory, fault) && forall other :: Ends(other, needed, memory, fault) ==> other == end
  }

  lemma OneEnd(end: End, needed: nat, memory: nat -> bool, fault: nat -> int)
    requires Ends(end, needed, memory, fault)
    ensures EndsOnly(end, needed, memory, fault)
  {
    forall other | Ends(other, needed, memory, fault) ensures other == end {
      assert end.attempt < other.attempt ==> TooSmall(end.attempt, needed, memory, fault);
      assert other.attempt < end.attempt ==> TooSmall(other.attempt, needed, memory, fault);
    }
  }

  /** What that means, without TooSmall: every attempt before the last had memory and no error, and did not fit. */
  ghost predicate EndsPlainly(end: End, needed: nat, memory: nat -> bool, fault: nat -> int) {
    && (forall j :: 0 <= j < end.attempt ==> memory(j) && fault(j) == 0 && Size(j) < needed)
    && (end.NoMemory? <==> !memory(end.attempt))
    && (end.DeviceError? <==> memory(end.attempt) && Size(end.attempt) > 0 && fault(end.attempt) != 0)
    && (end.Fetched? ==> fault(end.attempt) == 0 && needed <= Size(end.attempt))
  }

  lemma EndIsPlain(end: End, needed: nat, memory: nat -> bool, fault: nat -> int)
    requires Ends(end, needed, memory, fault)
    ensures EndsPlainly(end, needed, memory, fault)
  {
    forall j | 0 <= j < end.attempt ensures memory(j) && fault(j) == 0 && Size(j) < needed {
      assert TooSmall(j, needed, memory, fault);
    }
  }

  /** WLC_SCAN_RESULTS into a buffer of this size. */
  function Ioctl(size: nat, needed: nat, fault: int): int {
    if fault != 0 then fault else if size < needed then -E2BIG else 0
  }

  function UpTo(n: nat): seq<nat> { seq(n, i => i) }

  /** Buffers allocated: none by an attempt without memory. */
  function TakenBy(end: End): nat { if end.NoMemory? then end.attempt else end.attempt + 1 }

  /**
  The loop of wl_notify_scan_status and what follows it up to scan_done_out, for every size needed. Buffers
  are named by attempt. Each one taken is freed exactly once, but for the last one of a fault. An attempt
  without memory leaves err as the previous answer left it, which is 0 when it was the first.
  */
  method Fetch(needed: nat, memory: nat -> bool, fault: nat -> int, informErr: int)
    returns (err: int, end: End, taken: seq<nat>, freed: seq<nat>)
    requires forall k :: fault(k) != -E2BIG
    ensures EndsOnly(end, needed, memory, fault) && end.attempt <= 18
    ensures end.attempt == 18 ==> needed > 0x8000_0000
    ensures taken == UpTo(TakenBy(end)) && freed == if end.Fault? then UpTo(end.attempt) else taken
    ensures match end
      case Fetched(_) => err == informErr
      case NoMemory(k) => err == if k == 0 then 0 else -E2BIG
      case Fault(k) => k == 18
      case DeviceError(_) => err == -EINVAL
  {
    err, taken, freed := 0, [], [];
    var buflen: u32, k: nat := BASE, 0;
    while true
      invariant k <= 18 && buflen == Size(k)
      invariant k == 18 ==> needed > 0x8000_0000
      invariant forall j :: 0 <= j < k ==> TooSmall(j, needed, memory, fault)
      invariant taken == freed == UpTo(k)
      invariant err == if k == 0 then 0 else -E2BIG
      decreases 18 - k
    {
      SizeIsPositive(k);
      if !memory(k) {
        end := NoMemory(k);
        OneEnd(end, needed, memory, fault);
        return;
      }
      taken := taken + [k];
      if buflen == 0 {
        end := Fault(k);                   // bss_list->buflen = buflen
        OneEnd(end, needed, memory, fault);
        return;
      }
      err := Ioctl(buflen, needed, fault(k));
      if err == 0 {
        break;
      } else if err == -E2BIG {
        freed := freed + [k];
        if k == 17 { LastSize(k); }
        assert TooSmall(k, needed, memory, fault);
        buflen := Twice(buflen);
        k := k + 1;
      } else {
        freed := freed + [k];
        err, end := -EINVAL, DeviceError(k);
        OneEnd(end, needed, memory, fault);
        return;
      }
    }
    err := informErr;
    freed := freed + [k];
    end := Fetched(k);
    OneEnd(end, needed, memory, fault);
  }

  lemma SizeIsPositive(k: nat)
    requires k <= 18
    ensures Size(k) == 0 <==> k == 18
  {
    if k <= 17 {
      SizeDoubles(k);
      PowersTo17(k);
    } else {
      SizeWraps(k);
    }
  }

  /** With memory and no device error the answer is fetched if 2^31 octets are enough, and otherwise a store faults. */
  lemma FetchedExactly(end: End, needed: nat, memory: nat -> bool, fault: nat -> int)
    requires Ends(end, needed, memory, fault) && forall k: nat :: memory(k) && fault(k) == 0
    ensures end.Fetched? <==> needed <= 0x8000_0000
    ensures end.Fault? <==> needed > 0x8000_0000
  {
    LastSize(17);
    SizeWraps(18);
    assert end.attempt > 18 ==> TooSmall(18, needed, memory, fault);
    assert end.attempt == 18 ==> TooSmall(17, needed, memory, fault);
    SizeIsPositive(end.attempt);
    if end.attempt <= 17 { SizeDoubles(end.attempt); }
  }

  /** With memory and no device error: the least 16384 * 2^k that is enough. */
  lemma FetchedIsLeast(end: End, needed: nat, memory: nat -> bool, fault: nat -> int)
    requires Ends(end, needed, memory, fault) && needed <= 0x8000_0000
    requires forall k: nat :: memory(k) && fault(k) == 0
    ensures end.Fetched? && end.attempt <= 17 && BASE * Pow2(end.attempt) >= needed
    ensures forall j :: 0 <= j < end.attempt ==> BASE * Pow2(j) < needed
  {
    FetchedExactly(end, needed, memory, fault);
    var k := end.attempt;
    LastSize(17);
    assert k > 17 ==> TooSmall(17, needed, memory, fault);
    SizeDoubles(k);
    forall j | 0 <= j < k ensures BASE * Pow2(j) < needed {
      assert TooSmall(j, needed, memory, fault);
      SizeDoubles(j);
    }
  }

  // ---------------------------------------------------------------- walking the records

  function Word(b: seq<byte>, at: nat): nat
    requires at + 4 <= |b|
  {
    var b0: int, b1: int, b2: int, b3: int := b[at], b[at + 1], b[at + 2], b[at + 3];
    b0 + 0x100 * b1 + 0x1_0000 * b2 + 0x100_0000 * b3
  }

  /** The octet at the lowest address is the least significant. */
  lemma WordIsLowFirst(b: seq<byte>, at: nat)
    requires at + 4 <= |b|
    ensures Word(b, at) % 256 == b[at] && Word(b, at) / 256 % 256 == b[at + 1]
    ensures Word(b, at) / 256 / 256 % 256 == b[at + 2] && Word(b, at) / 256 / 256 / 256 == b[at + 3]
  {
    var b0: int, b1: int, b2: int, b3: int := b[at], b[at + 1], b[at + 2], b[at + 3];
    LowDigit(b2, b3);
    LowDigit(b1, b2 + 256 * b3);
    LowDigit(b0, b1 + 256 * (b2 + 256 * b3));
  }

  lemma LowDigit(low: int, rest: int)
    requires 0 <= low < 256
    ensures (low + 256 * rest) % 256 == low && (low + 256 * rest) / 256 == rest
  {
  }

  lemma WordOfSlice(b: seq<byte>, from: nat, to: nat, at: nat)
    requires from <= to <= |b| && at + 4 <= to - from
    ensures Word(b[from..to], at) == Word(b, from + at)
  {
  }

  /** A record: version, its own length, the rest. */
  predicate IsRecord(r: seq<byte>) { |r| >= 8 && Word(r, 4) == |r| }

  predicate Records(rs: seq<seq<byte>>) { forall i :: 0 <= i < |rs| ==> IsRecord(rs[i]) }

  function Pack(rs: seq<seq<byte>>): seq<byte> {
    if |rs| == 0 then [] else rs[0] + Pack(rs[1..])
  }

  /** Sum of the first k lengths. */
  function Offset(rs: seq<seq<byte>>, k: nat): nat
    requires k <= |rs|
  {
    if k == 0 then 0 else |rs[0]| + Offset(rs[1..], k - 1)
  }

  lemma {:induction false} RecordAt(rs: seq<seq<byte>>, k: nat)
    requires Records(rs) && k < |rs|
    ensures Offset(rs, k) + |rs[k]| == Offset(rs, k + 1) <= |Pack(rs)|
    ensures Pack(rs)[Offset(rs, k)..Offset(rs, k + 1)] == rs[k]
  {
    if k > 0 {
      RecordAt(rs[1..], k - 1);
      var from, to := Offset(rs[1..], k - 1), Offset(rs[1..], k);
      assert Pack(rs)[|rs[0]| + from..|rs[0]| + to] == Pack(rs[1..])[from..to];
    } else {
      assert Offset(rs[1..], 0) == 0;
    }
  }

  lemma LengthAt(rs: seq<seq<byte>>, k: nat)
    requires Records(rs) && k < |rs|
    ensures Offset(rs, k) + 8 <= |Pack(rs)| && Word(Pack(rs), Offset(rs, k) + 4) == |rs[k]|
  {
    RecordAt(rs, k);
    var p, at := Pack(rs), Offset(rs, k);
    assert p[at..at + |rs[k]|] == rs[k];
    WordOfSlice(p, at, at + |rs[k]|, 4);
  }

  function Min(a: nat, b: nat): nat { if a < b then a else b }

  /** wl_inform_single_bss: an overlong record is refused, the rest is up to cfg80211. */
  predicate Accepted(rs: seq<seq<byte>>, cfg: nat -> int, k: nat)
    requires k < |rs|
  {
    |rs[k]| <= 2048 && cfg(k) == 0
  }

  /** Record k is the first that is overlong or that cfg80211 refuses. */
  predicate FirstRefused(rs: seq<seq<byte>>, cfg: nat -> int, k: nat)
    requires k < |rs|
  {
    !Accepted(rs, cfg, k) && forall j :: 0 <= j < k ==> Accepted(rs, cfg, j)
  }

  lemma OneFirstRefused(rs: seq<seq<byte>>, cfg: nat -> int, k: nat)
    requires k < |rs| && FirstRefused(rs, cfg, k)
    ensures forall j :: 0 <= j < |rs| && FirstRefused(rs, cfg, j) ==> j == k
  {
  }

  /**
  wl_inform_bss on packed records: with the right version it visits the first min(count, 256) of
  them in order, record k at the sum of the first k lengths, and stops at the first one refused.
  */
  method InformBss(version: nat, count: nat, area: seq<byte>, ghost rs: seq<seq<byte>>, cfg: nat -> int)
    returns (err: int, visited: seq<nat>)
    requires Records(rs) && area == Pack(rs) && Min(count, AP_MAX) <= |rs|
    ensures version != BSS_INFO_VERSION ==> err == -EOPNOTSUPP && visited == []
    ensures version == BSS_INFO_VERSION ==>
      && |visited| <= Min(count, AP_MAX)
      && (forall k :: 0 <= k < |visited| ==> visited[k] == Offset(rs, k))
      && (forall k :: 0 <= k < |visited| - 1 ==> Accepted(rs, cfg, k))
      && (err == 0 ==> |visited| == Min(count, AP_MAX))
    ensures version == 109 && (forall k :: 0 <= k < Min(count, 256) ==> Accepted(rs, cfg, k)) ==>
      err == 0 && |visited| == Min(count, 256)
    ensures version == 109 ==> forall k :: 0 <= k < Min(count, 256) && FirstRefused(rs, cfg, k) ==>
      |visited| == k + 1 && err == if |rs[k]| > 2048 then -7 else cfg(k)
  {
    err, visited := 0, [];
    if version != BSS_INFO_VERSION {
      return -EOPNOTSUPP, [];
    }
    var bi, i := 0, 0;
    while i < count && i < AP_MAX
      invariant i <= Min(count, AP_MAX) && |visited| == i && err == 0 && bi == Offset(rs, i)
      invariant forall k :: 0 <= k < i ==> visited[k] == Offset(rs, k)
      invariant forall k :: 0 <= k < i ==> Accepted(rs, cfg, k)
    {
      RecordAt(rs, i);
      LengthAt(rs, i);
      visited := visited + [bi];
      var length := Word(area, bi + 4);
      err := if length > BSS_INFO_MAX then -E2BIG else cfg(i);
      if err != 0 {
        OneFirstRefused(rs, cfg, i);
        return;
      }
      bi := bi + length;
      i := i + 1;
    }
  }
}
