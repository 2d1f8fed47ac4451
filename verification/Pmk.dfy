/**
The table of pairwise master key identifiers of wl_cfg80211_hybrid.c: an array of 16 entries and a
count, searched linearly by BSSID, as a bounded map that remembers insertion order.
*/
module Pmk {
  import Lists

  const MAX: nat := 16     // WL_NUM_PMKIDS_MAX

  /** Fixed-width octet strings, as the numbers they spell. */
  type Address = int
  type Pmkid = int

  datatype Entry = Entry(bssid: Address, pmkid: Pmkid)

  type Table = seq<Entry>

  datatype Op = Set(entry: Entry) | Del(bssid: Address) | Flush

  predicate UniqueKeys(t: Table) { forall i, j :: 0 <= i < j < |t| ==> t[i].bssid != t[j].bssid }

  /** Position of the first entry from i on with this key, or the count. */
  function Index(t: Table, key: Address, i: nat): (r: nat)
    requires i <= |t|
    ensures i <= r <= |t| && (r < |t| ==> t[r].bssid == key)
    ensures forall j :: i <= j < r ==> t[j].bssid != key
    decreases |t| - i
  {
    if i == |t| || t[i].bssid == key then i else Index(t, key, i + 1)
  }

  /** Overwrite in place, append, or refuse. */
  function SetEntry(t: Table, e: Entry): (Table, bool) {
    var i := Index(t, e.bssid, 0);
    if i < |t| then (t[i := e], true)
    else if |t| < MAX then (t + [e], true)
    else (t, false)
  }

  /** Take out the entry with this key, or refuse. */
  function Remove(t: Table, key: Address): (Table, bool) {
    var i := Index(t, key, 0);
    if i < |t| then (t[..i] + t[i + 1..], true) else (t, false)
  }

  /** The new table, and whether the operation was accepted. */
  function Step(t: Table, op: Op): (Table, bool) {
    match op
    case Set(e) => SetEntry(t, e)
    case Del(key) => Remove(t, key)
    case Flush => ([], true)
  }

  function Exec(ops: seq<Op>): Table {
    if |ops| == 0 then [] else Step(Exec(ops[..|ops| - 1]), ops[|ops| - 1]).0
  }

  // ---------------------------------------------------------------- as a bounded map

  /** The same operations on a map that refuses a 17th key. */
  function MapSet(m: map<Address, Pmkid>, e: Entry): (map<Address, Pmkid>, bool) {
    if e.bssid in m || |m| < MAX then (m[e.bssid := e.pmkid], true) else (m, false)
  }

  function MapRemove(m: map<Address, Pmkid>, key: Address): (map<Address, Pmkid>, bool) {
    if key in m then (m - {key}, true) else (m, false)
  }

  function MapStep(m: map<Address, Pmkid>, op: Op): (map<Address, Pmkid>, bool) {
    match op
    case Set(e) => MapSet(m, e)
    case Del(key) => MapRemove(m, key)
    case Flush => (map[], true)
  }

  function MapExec(ops: seq<Op>): map<Address, Pmkid> {
    if |ops| == 0 then map[] else MapStep(MapExec(ops[..|ops| - 1]), ops[|ops| - 1]).0
  }

  ghost predicate Holds(t: Table, k: Address) { exists i :: 0 <= i < |t| && t[i].bssid == k }

  ghost predicate SameEntries(t: Table, m: map<Address, Pmkid>) {
    && (forall i :: 0 <= i < |t| ==> t[i].bssid in m && m[t[i].bssid] == t[i].pmkid)
    && (forall k :: k in m ==> Holds(t, k))
  }

  ghost predicate Represents(t: Table, m: map<Address, Pmkid>) {
    UniqueKeys(t) && |t| == |m| <= MAX && SameEntries(t, m)
  }

  lemma Overwrite(t: Table, m: map<Address, Pmkid>, i: nat, e: Entry)
    requires Represents(t, m) && i < |t| && t[i].bssid == e.bssid
    ensures Represents(t[i := e], m[e.bssid := e.pmkid])
  {
    var t', m' := t[i := e], m[e.bssid := e.pmkid];
    assert m'.Keys == m.Keys;
    assert |m'| == |m'.Keys|;
    forall k | k in m' ensures Holds(t', k) {
      var j :| 0 <= j < |t| && t[j].bssid == k;
      assert t'[j].bssid == k;
    }
  }

  lemma Grows(m: map<Address, Pmkid>, k: Address, v: Pmkid)
    requires k !in m
    ensures |m[k := v]| == |m| + 1
  {
    assert m[k := v].Keys == m.Keys + {k};
    assert |m[k := v]| == |m[k := v].Keys|;
  }

  lemma Shrinks(m: map<Address, Pmkid>, k: Address)
    requires k in m
    ensures |m - {k}| == |m| - 1
  {
    assert (m - {k}).Keys == m.Keys - {k};
    assert |m - {k}| == |(m - {k}).Keys|;
  }

  lemma Append(t: Table, m: map<Address, Pmkid>, e: Entry)
    requires Represents(t, m) && |t| < MAX && e.bssid !in m
    ensures Represents(t + [e], m[e.bssid := e.pmkid])
  {
    var t', m' := t + [e], m[e.bssid := e.pmkid];
    Grows(m, e.bssid, e.pmkid);
    assert t'[|t|] == e;
    forall k | k in m' ensures Holds(t', k) {
      if k != e.bssid {
        var j :| 0 <= j < |t| && t[j].bssid == k;
        assert t'[j].bssid == k;
      }
    }
  }

  lemma Cut(t: Table, m: map<Address, Pmkid>, i: nat)
    requires Represents(t, m) && i < |t|
    ensures Represents(t[..i] + t[i + 1..], m - {t[i].bssid})
  {
    var t', m' := t[..i] + t[i + 1..], m - {t[i].bssid};
    Shrinks(m, t[i].bssid);
    CutKeepsUnique(t, i);
    assert forall j :: 0 <= j < |t'| ==> t'[j] == if j < i then t[j] else t[j + 1];
    forall k | k in m' ensures Holds(t', k) {
      var j :| 0 <= j < |t| && t[j].bssid == k;
      assert t'[if j < i then j else j - 1].bssid == k;
    }
  }

  lemma CutKeepsUnique(t: Table, i: nat)
    requires UniqueKeys(t) && i < |t|
    ensures UniqueKeys(t[..i] + t[i + 1..])
  {
    var t' := t[..i] + t[i + 1..];
    assert forall j :: 0 <= j < |t'| ==> t'[j] == if j < i then t[j] else t[j + 1];
  }

  lemma SetIsUpdate(t: Table, m: map<Address, Pmkid>, e: Entry)
    requires Represents(t, m)
    ensures SetEntry(t, e).1 == MapSet(m, e).1 && Represents(SetEntry(t, e).0, MapSet(m, e).0)
  {
    var i := Index(t, e.bssid, 0);
    if i < |t| {
      Overwrite(t, m, i, e);
    } else {
      assert !Holds(t, e.bssid);
      if |t| < MAX { Append(t, m, e); }
    }
  }

  lemma RemoveIsMinus(t: Table, m: map<Address, Pmkid>, key: Address)
    requires Represents(t, m)
    ensures Remove(t, key).1 == MapRemove(m, key).1 && Represents(Remove(t, key).0, MapRemove(m, key).0)
  {
    var i := Index(t, key, 0);
    if i < |t| {
      Cut(t, m, i);
    } else {
      assert !Holds(t, key);
    }
  }

  /** After every run of operations the table holds exactly the map, and each verdict is the map's. */
  lemma {:induction false} TableIsBoundedMap(ops: seq<Op>)
    ensures Represents(Exec(ops), MapExec(ops))
    ensures |ops| > 0 ==> var front, op := ops[..|ops| - 1], ops[|ops| - 1];
      Step(Exec(front), op).1 == MapStep(MapExec(front), op).1
  {
    if |ops| > 0 {
      var front, op := ops[..|ops| - 1], ops[|ops| - 1];
      TableIsBoundedMap(front);
      match op {
        case Set(e) => SetIsUpdate(Exec(front), MapExec(front), e);
        case Del(key) => RemoveIsMinus(Exec(front), MapExec(front), key);
        case Flush =>
      }
    }
  }

  // ---------------------------------------------------------------- insertion order

  function Keys(t: Table): seq<Address> { seq(|t|, i requires 0 <= i < |t| => t[i].bssid) }

  /** Overwriting keeps every key in its place and a new key goes last. */
  lemma SetKeepsOrder(t: Table, e: Entry)
    requires UniqueKeys(t)
    ensures e.bssid in Keys(t) || |t| >= MAX ==> Keys(SetEntry(t, e).0) == Keys(t)
    ensures e.bssid !in Keys(t) && |t| < MAX ==> Keys(SetEntry(t, e).0) == Keys(t) + [e.bssid]
  {
    var i := Index(t, e.bssid, 0);
    if i < |t| {
      assert Keys(t)[i] == e.bssid;
    }
  }

  /** Deleting closes the gap and leaves the rest in order. */
  lemma RemoveKeepsOrder(t: Table, key: Address)
    requires UniqueKeys(t)
    ensures Keys(Remove(t, key).0) == Lists.Without(Keys(t), key)
  {
    var i := Index(t, key, 0);
    if i < |t| {
      Lists.WithoutCuts(Keys(t), i);
      assert Keys(t)[i] == key;
    } else {
      Lists.WithoutAbsent(Keys(t), key);
    }
  }

  // ---------------------------------------------------------------- the array

  const EINVAL: int := 22

  /** wl_update_pmklist: the table goes to the device only when nothing failed before. */
  function Update(err: int, ioctl: int): int { if err == 0 then ioctl else err }

  class PmkList {
    const pmkid: array<Entry>
    var npmkid: nat

    ghost predicate Valid()
      reads this, pmkid
    {
      pmkid.Length == MAX && npmkid <= MAX && UniqueKeys(pmkid[..npmkid])
    }

    ghost function View(): Table
      reads this, pmkid
      requires Valid()
    {
      pmkid[..npmkid]
    }

    constructor ()
      ensures Valid() && View() == [] && fresh(pmkid)
    {
      pmkid := new Entry[MAX](_ => Entry(0, 0));
      npmkid := 0;
    }

    method Search(bssid: Address) returns (i: nat)
      requires Valid()
      ensures i == Index(View(), bssid, 0)
    {
      i := 0;
      while i < npmkid
        invariant i <= npmkid
        invariant Index(View(), bssid, 0) == Index(View(), bssid, i)
      {
        if bssid == pmkid[i].bssid {
          break;
        }
        i := i + 1;
      }
    }

    /** wl_cfg80211_set_pmksa; `ioctl` is what the device would answer. */
    method SetPmksa(entry: Entry, ioctl: int) returns (err: int)
      requires Valid()
      modifies this`npmkid, pmkid
      ensures Valid()
      ensures var (t, ok) := Step(old(View()), Set(entry));
        View() == t && err == if ok then ioctl else -EINVAL
      ensures forall i :: 0 <= i < |old(View())| && old(View())[i].bssid == entry.bssid ==>
        View() == old(View())[i := entry] && err == ioctl
      ensures (forall i :: 0 <= i < |old(View())| ==> old(View())[i].bssid != entry.bssid) ==>
        if |old(View())| < 16 then View() == old(View()) + [entry] && err == ioctl
        else View() == old(View()) && err == -22
    {
      err := 0;
      var i := Search(entry.bssid);
      if i < MAX {
        pmkid[i] := entry;
        if i == npmkid {
          npmkid := npmkid + 1;
        }
      } else {
        err := -EINVAL;
      }
      err := Update(err, ioctl);
    }

    /** The shifting loop of wl_cfg80211_del_pmksa: entry `at` goes, the rest move down. */
    method CloseGap(at: nat)
      requires at < npmkid <= pmkid.Length
      modifies pmkid
      ensures pmkid[..npmkid - 1] == old(pmkid[..at]) + old(pmkid[at + 1..npmkid])
    {
      var i := at;
      while i < npmkid - 1
        invariant at <= i <= npmkid - 1
        invariant pmkid[..i] == old(pmkid[..at]) + old(pmkid[at + 1..i + 1])
        invariant forall j :: i < j < npmkid ==> pmkid[j] == old(pmkid[j])
      {
        pmkid[i] := pmkid[i + 1];
        i := i + 1;
      }
    }

    /** wl_cfg80211_del_pmksa */
    method DelPmksa(bssid: Address, ioctl: int) returns (err: int)
      requires Valid()
      modifies this`npmkid, pmkid
      ensures Valid()
      ensures var (t, ok) := Step(old(View()), Del(bssid));
        View() == t && err == if ok then ioctl else -EINVAL
      ensures forall i :: 0 <= i < |old(View())| && old(View())[i].bssid == bssid ==>
        View() == old(View())[..i] + old(View())[i + 1..] && err == ioctl
      ensures (forall i :: 0 <= i < |old(View())| ==> old(View())[i].bssid != bssid) ==>
        View() == old(View()) && err == -22
    {
      err := 0;
      var i := Search(bssid);
      if npmkid > 0 && i < npmkid {
        ghost var was := View();
        CutKeepsUnique(was, i);
        pmkid[i] := Entry(0, 0);
        assert pmkid[..i] == was[..i] && pmkid[i + 1..npmkid] == was[i + 1..];
        CloseGap(i);
        npmkid := npmkid - 1;
        assert pmkid[..npmkid] == was[..i] + was[i + 1..] == Remove(was, bssid).0;
      } else {
        err := -EINVAL;
      }
      err := Update(err, ioctl);
    }

    /** wl_cfg80211_flush_pmksa */
    method FlushPmksa(ioctl: int) returns (err: int)
      requires Valid()
      modifies this`npmkid, pmkid
      ensures Valid() && View() == [] && err == ioctl
    {
      forall j | 0 <= j < MAX { pmkid[j] := Entry(0, 0); }
      npmkid := 0;
      err := Update(0, ioctl);
    }
  }
}
