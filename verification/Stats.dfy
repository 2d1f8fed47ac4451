/**
Double-buffered interface statistics: wl_linux_watchdog fills the half that is not published, field by
field, and then publishes it by moving stats_id; wl_get_stats copies the published half, its fields in
any order. Nothing locks them against each other.
*/
module Stats {

  const FIELDS: nat := 14   // the fields the watchdog writes

  type Snapshot = seq<int>

  datatype Writer = Resting | Writing(done: nat, snap: Snapshot)

  /**
  A reader fixes its half on entry. `start` is which published snapshot that was, `runs` counts the
  watchdog runs that overlap with it.
  */
  datatype Reader = Away | Reading(half: nat, copied: map<nat, int>, start: nat, runs: nat)

  datatype State = State(id: nat, halves: seq<Snapshot>, writer: Writer, reader: Reader, published: seq<Snapshot>)

  datatype Event = Begin(snap: Snapshot) | Write | Publish | Enter | Copy(field: nat)

  predicate Init(s: State) {
    && s.id == 0 && s.writer.Resting? && s.reader.Away?
    && |s.halves| == 2 && |s.halves[0]| == FIELDS && |s.halves[1]| == FIELDS
    && |s.published| == 1 && s.published[0] == s.halves[0]
  }

  predicate Enabled(s: State, e: Event) {
    match e
    case Begin(snap) => s.writer.Resting? && |snap| == FIELDS
    case Write => s.writer.Writing? && s.writer.done < FIELDS
    case Publish => s.writer.Writing? && s.writer.done == FIELDS
    case Enter => true
    case Copy(f) => s.reader.Reading? && f < FIELDS && f !in s.reader.copied
  }

  predicate Shaped(s: State) {
    && s.id < 2 && |s.halves| == 2 && |s.halves[0]| == FIELDS && |s.halves[1]| == FIELDS
    && (s.writer.Writing? ==> |s.writer.snap| == FIELDS && s.writer.done <= FIELDS)
    && (s.reader.Reading? ==> s.reader.half < 2)
    && |s.published| > 0
  }

  function Apply(s: State, e: Event): State
    requires Shaped(s) && Enabled(s, e)
  {
    match e
    case Begin(snap) =>
      s.(writer := Writing(0, snap),
         reader := if s.reader.Reading? then s.reader.(runs := s.reader.runs + 1) else Away)
    case Write =>
      var k := s.writer.done;
      s.(halves := s.halves[1 - s.id := s.halves[1 - s.id][k := s.writer.snap[k]]],
         writer := s.writer.(done := k + 1))
    case Publish => s.(id := 1 - s.id, writer := Resting, published := s.published + [s.writer.snap])
    case Enter =>
      s.(reader := Reading(s.id, map[], |s.published| - 1, if s.writer.Writing? then 1 else 0))
    case Copy(f) => s.(reader := s.reader.(copied := s.reader.copied[f := s.halves[s.reader.half][f]]))
  }

  /** All of the snapshot has been copied. */
  predicate Finished(s: State) { s.reader.Reading? && forall f :: 0 <= f < FIELDS ==> f in s.reader.copied }

  /** Everything copied so far comes from this snapshot. */
  predicate From(copied: map<nat, int>, snap: Snapshot) {
    forall f :: f in copied ==> f < |snap| && copied[f] == snap[f]
  }

  predicate WriterInv(s: State) {
    && Shaped(s)
    && s.halves[s.id] == s.published[|s.published| - 1]
    && (s.writer.Writing? ==> forall f :: 0 <= f < s.writer.done ==> s.halves[1 - s.id][f] == s.writer.snap[f])
  }

  predicate ReaderInv(s: State)
    requires Shaped(s)
  {
    s.reader.Reading? ==>
      && s.reader.start < |s.published|
      && (s.reader.runs == 0 ==> s.writer.Resting? && s.id == s.reader.half)
      && (s.reader.runs == 1 && s.writer.Writing? ==> s.id == s.reader.half)
      && (s.reader.runs <= 1 ==>
            && s.halves[s.reader.half] == s.published[s.reader.start]
            && From(s.reader.copied, s.published[s.reader.start]))
  }

  predicate Inv(s: State) { WriterInv(s) && ReaderInv(s) }

  lemma StepKeepsInv(s: State, e: Event)
    requires Inv(s) && Enabled(s, e)
    ensures Inv(Apply(s, e))
  {
    var s' := Apply(s, e);
    match e {
      case Write =>
        assert s'.halves[s.id] == s.halves[s.id];
      case Publish =>
        assert s.halves[1 - s.id] == s.writer.snap;
      case _ =>
    }
  }

  predicate CanRun(s: State, es: seq<Event>)
    decreases |es|
  {
    Shaped(s) && (|es| == 0 || (Enabled(s, es[0]) && CanRun(Apply(s, es[0]), es[1..])))
  }

  function Exec(s: State, es: seq<Event>): State
    requires CanRun(s, es)
    decreases |es|
  {
    if |es| == 0 then s else Exec(Apply(s, es[0]), es[1..])
  }

  lemma {:induction false} RunKeepsInv(s: State, es: seq<Event>)
    requires Inv(s) && CanRun(s, es)
    ensures Inv(Exec(s, es))
    decreases |es|
  {
    if |es| > 0 {
      StepKeepsInv(s, es[0]);
      RunKeepsInv(Apply(s, es[0]), es[1..]);
    }
  }

  /**
  Over every run: a reader overlapped by at most one watchdog run ends with one whole published
  snapshot, namely the one published when it entered.
  */
  lemma AtMostOneOverlapIsWhole(s: State, es: seq<Event>, f: nat)
    requires Init(s) && CanRun(s, es) && Finished(Exec(s, es)) && Exec(s, es).reader.runs <= 1
    requires f < FIELDS
    ensures var s' := Exec(s, es);
      && s'.reader.start < |s'.published| && f < |s'.published[s'.reader.start]|
      && f in s'.reader.copied && s'.reader.copied[f] == s'.published[s'.reader.start][f]
  {
    RunKeepsInv(s, es);
  }

  // ---------------------------------------------------------------- two overlaps

  lemma {:induction false} Join(s: State, a: seq<Event>, b: seq<Event>)
    requires CanRun(s, a) && CanRun(Exec(s, a), b)
    ensures CanRun(s, a + b) && Exec(s, a + b) == Exec(Exec(s, a), b)
    decreases |a|
  {
    if |a| == 0 {
      assert a + b == b;
    } else {
      Join(Apply(s, a[0]), a[1..], b);
      assert (a + b)[1..] == a[1..] + b;
    }
  }

  lemma One(s: State, e: Event)
    requires Shaped(s) && Enabled(s, e) && Shaped(Apply(s, e))
    ensures CanRun(s, [e]) && Exec(s, [e]) == Apply(s, e)
  {
    assert [e][1..] == [];
    assert Exec(Apply(s, e), []) == Apply(s, e);
  }

  /** The watchdog writes the rest of its snapshot undisturbed. */
  lemma {:induction false} WriteRest(s: State) returns (es: seq<Event>)
    requires Inv(s) && s.writer.Writing?
    ensures CanRun(s, es)
    ensures Exec(s, es) == s.(halves := s.halves[1 - s.id := s.writer.snap], writer := s.writer.(done := FIELDS))
    decreases FIELDS - s.writer.done
  {
    if s.writer.done == FIELDS {
      assert s.halves[1 - s.id] == s.writer.snap;
      assert s.halves[1 - s.id := s.writer.snap] == s.halves;
      es := [];
    } else {
      StepKeepsInv(s, Write);
      var rest := WriteRest(Apply(s, Write));
      es := [Write] + rest;
      assert es[1..] == rest;
      assert Apply(s, Write).halves[1 - s.id := s.writer.snap] == s.halves[1 - s.id := s.writer.snap];
    }
  }

  /** One undisturbed watchdog run from begin to publication. */
  lemma WholeRun(s: State, snap: Snapshot) returns (es: seq<Event>)
    requires Inv(s) && s.writer.Resting? && |snap| == FIELDS
    ensures CanRun(s, es) && Inv(Exec(s, es))
    ensures var s1 := Apply(s, Begin(snap));
      Exec(s, es) == s1.(id := 1 - s.id, halves := s.halves[1 - s.id := snap], writer := Resting,
                         published := s.published + [snap])
  {
    One(s, Begin(snap));
    var s1 := Apply(s, Begin(snap));
    StepKeepsInv(s, Begin(snap));
    var writes := WriteRest(s1);
    RunKeepsInv(s1, writes);
    var s2 := Exec(s1, writes);
    StepKeepsInv(s2, Publish);
    One(s2, Publish);
    Join(s1, writes, [Publish]);
    Join(s, [Begin(snap)], writes + [Publish]);
    es := [Begin(snap)] + (writes + [Publish]);
  }

  /** The reader copies fields lo and up in one go. */
  lemma {:induction false} CopyFrom(s: State, lo: nat) returns (es: seq<Event>)
    requires Inv(s) && s.reader.Reading? && lo <= FIELDS && forall f :: f in s.reader.copied ==> f < lo
    ensures CanRun(s, es) && Inv(Exec(s, es))
    ensures var s' := Exec(s, es);
      && s'.reader.Reading? && s' == s.(reader := s.reader.(copied := s'.reader.copied))
      && (forall f: nat :: f in s'.reader.copied <==> f in s.reader.copied || lo <= f < FIELDS)
      && (forall f :: f in s.reader.copied ==> s'.reader.copied[f] == s.reader.copied[f])
      && forall f :: lo <= f < FIELDS ==> s'.reader.copied[f] == s.halves[s.reader.half][f]
    decreases FIELDS - lo
  {
    if lo == FIELDS {
      es := [];
    } else {
      var s1 := Apply(s, Copy(lo));
      StepKeepsInv(s, Copy(lo));
      var rest := CopyFrom(s1, lo + 1);
      es := [Copy(lo)] + rest;
      assert es[1..] == rest;
    }
  }

  /** k whole watchdog runs, publishing the two snapshots by turns. */
  lemma {:induction false} Alternate(s: State, odd: Snapshot, even: Snapshot, k: nat) returns (es: seq<Event>)
    requires Inv(s) && s.writer.Resting? && s.reader.Reading? && |odd| == FIELDS && |even| == FIELDS
    ensures CanRun(s, es) && Inv(Exec(s, es))
    ensures var s' := Exec(s, es);
      && s'.writer.Resting? && s'.reader == s.reader.(runs := s.reader.runs + k)
      && s'.id == (if k % 2 == 0 then s.id else 1 - s.id)
      && s'.halves[1 - s.id] == (if k >= 1 then odd else s.halves[1 - s.id])
      && s'.halves[s.id] == (if k >= 2 then even else s.halves[s.id])
  {
    if k == 0 {
      es := [];
    } else {
      var front := Alternate(s, odd, even, k - 1);
      var s1 := Exec(s, front);
      var last := WholeRun(s1, if k % 2 == 1 then odd else even);
      Join(s, front, last);
      es := front + last;
    }
  }

  /** The reader enters and copies all fields but the first. */
  lemma AllButFirst(s: State) returns (es: seq<Event>)
    requires Inv(s) && s.writer.Resting?
    ensures CanRun(s, es) && Inv(Exec(s, es))
    ensures var s' := Exec(s, es);
      && s'.reader.Reading? && s'.reader.half == s.id && s'.reader.runs == 0 && s' == s.(reader := s'.reader)
      && (forall f: nat :: f in s'.reader.copied <==> 1 <= f < FIELDS)
      && forall f :: 1 <= f < FIELDS ==> s'.reader.copied[f] == s.halves[s.id][f]
  {
    One(s, Enter);
    StepKeepsInv(s, Enter);
    var copies := CopyFrom(Apply(s, Enter), 1);
    Join(s, [Enter], copies);
    es := [Enter] + copies;
  }

  /** The last of the overlapping runs begins, writes its first field if it may, and the reader copies that field. */
  lemma LastOverlap(s: State, snap: Snapshot, write: bool) returns (es: seq<Event>)
    requires Inv(s) && s.writer.Resting? && s.reader.Reading? && |snap| == FIELDS
    requires forall f: nat :: f in s.reader.copied <==> 1 <= f < FIELDS
    ensures CanRun(s, es)
    ensures var s' := Exec(s, es); var r := s'.reader;
      && r.Reading? && r.runs == s.reader.runs + 1 && Finished(s')
      && (forall f :: 1 <= f < FIELDS ==> r.copied[f] == s.reader.copied[f])
      && r.copied[0] == if write && s.reader.half == 1 - s.id then snap[0] else s.halves[s.reader.half][0]
  {
    StepKeepsInv(s, Begin(snap));
    var s1 := Apply(s, Begin(snap));
    One(s, Begin(snap));
    if write {
      StepKeepsInv(s1, Write);
      One(s1, Write);
      One(Apply(s1, Write), Copy(0));
      Join(s1, [Write], [Copy(0)]);
      Join(s, [Begin(snap)], [Write] + [Copy(0)]);
      es := [Begin(snap)] + ([Write] + [Copy(0)]);
    } else {
      One(s1, Copy(0));
      Join(s, [Begin(snap)], [Copy(0)]);
      es := [Begin(snap)] + [Copy(0)];
    }
  }

  /**
  More than one overlap is too many: from any state at rest and for every number of overlaps from two on, a
  reader that has all but the first field when the runs overtake it ends with the first field of a snapshot
  published later, and the old rest.
  */
  lemma OverlapsMix(s: State, odd: Snapshot, even: Snapshot, overlaps: nat) returns (es: seq<Event>)
    requires Inv(s) && s.writer.Resting? && |odd| == FIELDS && |even| == FIELDS && overlaps >= 2
    ensures CanRun(s, es)
    ensures var s' := Exec(s, es);
      && Finished(s') && s'.reader.runs == overlaps
      && s'.reader.copied[0] == even[0]
      && forall f :: 1 <= f < FIELDS ==> s'.reader.copied[f] == s.halves[s.id][f]
  {
    var copies := AllButFirst(s);
    var s1 := Exec(s, copies);
    var runs := Alternate(s1, odd, even, overlaps - 1);
    var s2 := Exec(s1, runs);
    var last := LastOverlap(s2, even, overlaps % 2 == 0);
    Join(s1, runs, last);
    Join(s, copies, runs + last);
    es := copies + (runs + last);
  }

  // ---------------------------------------------------------------- the two functions

  /** The code, undisturbed; a ghost copy of the machine takes its step at every store and every field copied. */
  class Iface {
    var statsId: nat
    const zero: array<int>
    const one: array<int>
    const stats: array<int>
    ghost var machine: State

    function Half(id: nat): array<int> { if id == 0 then zero else one }

    ghost predicate InStep()
      reads this, zero, one
    {
      && zero.Length == FIELDS && one.Length == FIELDS && stats.Length == FIELDS
      && zero != one && zero != stats && one != stats
      && Inv(machine) && machine.id == statsId
      && machine.halves[0] == zero[..] && machine.halves[1] == one[..]
    }

    constructor ()
      ensures InStep() && Init(machine) && fresh(zero) && fresh(one) && fresh(stats)
    {
      statsId := 0;
      zero := new int[FIELDS](_ => 0);
      one := new int[FIELDS](_ => 0);
      stats := new int[FIELDS](_ => 0);
      new;
      machine := State(0, [zero[..], one[..]], Resting, Away, [zero[..]]);
    }

    ghost method Advance(e: Event)
      requires Inv(machine) && Enabled(machine, e)
      modifies this`machine
      ensures Inv(machine) && machine == Apply(old(machine), e)
    {
      StepKeepsInv(machine, e);
      machine := Apply(machine, e);
    }

    /** One of the watchdog's assignments to stats_watchdog[id]. */
    method StoreField(f: nat, v: int)
      requires InStep() && machine.writer.Writing? && f == machine.writer.done < FIELDS && v == machine.writer.snap[f]
      modifies this`machine, Half(1 - statsId)
      ensures InStep() && machine == Apply(old(machine), Write)
    {
      var half := Half(1 - statsId);
      half[f] := v;
      Advance(Write);
    }

    /** wl_linux_watchdog for one interface: down, nothing; up, the fields one after the other, then stats_id. */
    method Watchdog(up: bool, counters: Snapshot)
      requires InStep() && machine.writer.Resting? && |counters| == FIELDS
      modifies this`statsId, this`machine, zero, one
      ensures InStep() && machine.writer.Resting?
      ensures up ==> machine.published == old(machine.published) + [counters] && Half(statsId)[..] == counters
      ensures up ==> statsId == 1 - old(statsId) && Half(1 - statsId)[..] == old(Half(statsId)[..])
      ensures !up ==> machine == old(machine) && zero[..] == old(zero[..]) && one[..] == old(one[..])
    {
      if up {
        Advance(Begin(counters));
        var f := 0;
        while f < FIELDS
          invariant f <= FIELDS && InStep() && statsId == old(statsId)
          invariant machine.writer == Writing(f, counters) && machine.published == old(machine.published)
          invariant Half(statsId)[..] == old(Half(statsId)[..])
        {
          StoreField(f, counters[f]);
          f := f + 1;
        }
        assert machine.halves[1 - statsId] == counters;
        statsId := 1 - statsId;
        Advance(Publish);
      }
    }

    /** wl_get_stats: the half is chosen once, then its fields are copied. */
    method GetStats()
      requires InStep()
      modifies this`machine, stats
      ensures InStep() && Finished(machine) && statsId == old(statsId)
      ensures machine.published == old(machine.published) && machine.reader.start == |machine.published| - 1
      ensures stats[..] == Half(statsId)[..] == old(Half(statsId)[..])
    {
      var half := Half(statsId);
      Advance(Enter);
      var f := 0;
      while f < FIELDS
        invariant f <= FIELDS && InStep() && machine.reader.Reading? && machine.reader.half == statsId
        invariant forall g: nat :: g in machine.reader.copied <==> g < f
        invariant machine.published == old(machine.published) && machine.reader.start == |machine.published| - 1
        invariant forall g :: 0 <= g < f ==> stats[g] == half[g]
      {
        stats[f] := half[f];
        Advance(Copy(f));
        f := f + 1;
      }
    }
  }
}
