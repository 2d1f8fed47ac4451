/**
The element buffer of wl_cfg80211_hybrid.c: 1024 octets and an offset, filled one element at a time
(wl_add_ie) or by whole streams (wl_mrg_ie), copied out by wl_cp_ie.
*/
module IeBuffer {
  import opened Common
  import opened Tlv

  const INFO_MAX: int := 1024      // WL_TLV_INFO_MAX

  datatype Item = Item(id: byte, data: seq<byte>)

  /** An element whose length fits its one-octet length field. */
  predicate Fits(i: Item) { |i.data| < 256 }

  predicate AllFit(items: seq<Item>) { forall i :: 0 <= i < |items| ==> Fits(items[i]) }

  function EncodeItem(i: Item): seq<byte>
    requires Fits(i)
  {
    [i.id, |i.data|] + i.data
  }

  function Encode(items: seq<Item>): seq<byte>
    requires AllFit(items)
  {
    if |items| == 0 then [] else Encode(items[..|items| - 1]) + EncodeItem(items[|items| - 1])
  }

  // ---------------------------------------------------------------- walking

  function ItemAt(buf: seq<byte>, at: nat): Item
    requires Complete(buf, at)
  {
    Item(buf[at], buf[at + 2..at + 2 + buf[at + 1]])
  }

  /** The elements one walk from `at` meets. */
  function Items(buf: seq<byte>, at: nat): seq<Item>
    decreases |buf| - at
  {
    if Complete(buf, at) then [ItemAt(buf, at)] + Items(buf, at + 2 + buf[at + 1]) else []
  }

  /** The walk from `at` uses up the buffer exactly. */
  predicate WellFormed(buf: seq<byte>, at: nat)
    decreases |buf| - at
  {
    at == |buf| || (Complete(buf, at) && WellFormed(buf, at + 2 + buf[at + 1]))
  }

  lemma {:induction false} ItemsAreElements(buf: seq<byte>, at: nat)
    ensures |Items(buf, at)| == |Elements(buf, at)|
    ensures forall k :: 0 <= k < |Items(buf, at)| ==>
      Complete(buf, Elements(buf, at)[k]) && Items(buf, at)[k] == ItemAt(buf, Elements(buf, at)[k])
    decreases |buf| - at
  {
    if Complete(buf, at) {
      ItemsAreElements(buf, at + 2 + buf[at + 1]);
    }
  }

  lemma SameItem(a: seq<byte>, b: seq<byte>, at: nat)
    requires Complete(a, at)
    ensures Complete(a + b, at) && ItemAt(a + b, at) == ItemAt(a, at) && (a + b)[at + 1] == a[at + 1]
  {
    assert (a + b)[at + 2..at + 2 + a[at + 1]] == a[at + 2..at + 2 + a[at + 1]];
  }

  lemma {:induction false} WalkThrough(a: seq<byte>, b: seq<byte>, at: nat)
    requires WellFormed(a, at)
    ensures Items(a + b, at) == Items(a, at) + Items(a + b, |a|)
    decreases |a| - at
  {
    if at < |a| {
      SameItem(a, b, at);
      var next := at + 2 + a[at + 1];
      WalkThrough(a, b, next);
      Regroup([ItemAt(a, at)], Items(a, next), Items(a + b, |a|));
    }
  }

  lemma {:induction false} WellFormedThrough(a: seq<byte>, b: seq<byte>, at: nat)
    requires WellFormed(a, at) && WellFormed(a + b, |a|)
    ensures WellFormed(a + b, at)
    decreases |a| - at
  {
    if at < |a| {
      SameItem(a, b, at);
      WellFormedThrough(a, b, at + 2 + a[at + 1]);
    }
  }

  lemma ShiftedItem(a: seq<byte>, b: seq<byte>, at: nat)
    ensures Complete(a + b, |a| + at) == Complete(b, at)
    ensures Complete(b, at) ==> ItemAt(a + b, |a| + at) == ItemAt(b, at) && (a + b)[|a| + at + 1] == b[at + 1]
  {
    if Complete(b, at) {
      assert (a + b)[|a| + at + 2..|a| + at + 2 + b[at + 1]] == b[at + 2..at + 2 + b[at + 1]];
    }
  }

  lemma {:induction false} WalkShifted(a: seq<byte>, b: seq<byte>, at: nat)
    ensures Items(a + b, |a| + at) == Items(b, at)
    decreases |b| - at
  {
    ShiftedItem(a, b, at);
    if Complete(b, at) {
      WalkShifted(a, b, at + 2 + b[at + 1]);
    }
  }

  lemma {:induction false} WellFormedShifted(a: seq<byte>, b: seq<byte>, at: nat)
    requires WellFormed(b, at)
    ensures WellFormed(a + b, |a| + at)
    decreases |b| - at
  {
    if at < |b| {
      ShiftedItem(a, b, at);
      WellFormedShifted(a, b, at + 2 + b[at + 1]);
    }
  }

  /** Appending any octets to a well-formed stream concatenates the parses. */
  lemma MergeConcatenates(a: seq<byte>, b: seq<byte>)
    requires WellFormed(a, 0)
    ensures Items(a + b, 0) == Items(a, 0) + Items(b, 0)
    ensures WellFormed(b, 0) ==> WellFormed(a + b, 0)
  {
    WalkThrough(a, b, 0);
    WalkShifted(a, b, 0);
    if WellFormed(b, 0) {
      WellFormedShifted(a, b, 0);
      WellFormedThrough(a, b, 0);
    }
  }

  lemma OneItem(i: Item)
    requires Fits(i)
    ensures Items(EncodeItem(i), 0) == [i] && WellFormed(EncodeItem(i), 0)
  {
    var e := EncodeItem(i);
    assert ItemAt(e, 0) == i;
    assert Items(e, |e|) == [];
  }

  /** Walking what was encoded gives back exactly the elements, in order. */
  lemma {:induction false} WalkInvertsEncode(items: seq<Item>)
    requires AllFit(items)
    ensures Items(Encode(items), 0) == items && WellFormed(Encode(items), 0)
  {
    if |items| > 0 {
      var front, last := items[..|items| - 1], items[|items| - 1];
      WalkInvertsEncode(front);
      OneItem(last);
      MergeConcatenates(Encode(front), EncodeItem(last));
      assert items == front + [last];
    }
  }

  lemma EncodeSnoc(items: seq<Item>, last: Item)
    requires AllFit(items) && Fits(last)
    ensures AllFit(items + [last]) && Encode(items + [last]) == Encode(items) + EncodeItem(last)
  {
    var all := items + [last];
    assert all[..|all| - 1] == items;
  }

  lemma {:induction false} EncodeConcat(a: seq<Item>, b: seq<Item>)
    requires AllFit(a) && AllFit(b)
    ensures AllFit(a + b) && Encode(a + b) == Encode(a) + Encode(b)
  {
    if |b| == 0 {
      assert a + b == a;
    } else {
      var front, last := b[..|b| - 1], b[|b| - 1];
      EncodeConcat(a, front);
      EncodeSnoc(a + front, last);
      assert a + front + [last] == a + b;
      Regroup(Encode(a), Encode(front), EncodeItem(last));
    }
  }

  lemma SliceAtItem(buf: seq<byte>, at: nat)
    requires Complete(buf, at)
    ensures buf[at..] == [] + EncodeItem(ItemAt(buf, at)) + buf[at + 2 + buf[at + 1]..]
  {
  }

  /** A well-formed stream is the encoding of what the walk meets. */
  lemma {:induction false} EncodeInvertsWalk(buf: seq<byte>, at: nat)
    requires at <= |buf| && WellFormed(buf, at)
    ensures AllFit(Items(buf, at)) && Encode(Items(buf, at)) == buf[at..]
    decreases |buf| - at
  {
    if at < |buf| {
      var next := at + 2 + buf[at + 1];
      EncodeInvertsWalk(buf, next);
      var first := ItemAt(buf, at);
      EncodeSnoc([], first);
      assert [] + [first] == [first];
      EncodeConcat([first], Items(buf, next));
      SliceAtItem(buf, at);
    }
  }

  // ---------------------------------------------------------------- runs of operations

  datatype Op = Reset | Add(item: Item) | Merge(stream: seq<byte>)

  predicate Callable(op: Op) {
    match op case Reset => true case Add(i) => Fits(i) case Merge(s) => |s| < 0x1_0000
  }

  /** The octets an operation wants to append. */
  function Appended(op: Op): seq<byte>
    requires Callable(op)
  {
    match op case Reset => [] case Add(i) => EncodeItem(i) case Merge(s) => s
  }

  /** New content, and whether the operation was accepted. */
  function Step(content: seq<byte>, op: Op): (seq<byte>, bool)
    requires Callable(op)
  {
    if op.Reset? then ([], true)
    else if |content| + |Appended(op)| > INFO_MAX then (content, false)
    else (content + Appended(op), true)
  }

  function Exec(ops: seq<Op>): seq<byte>
    requires forall i :: 0 <= i < |ops| ==> Callable(ops[i])
  {
    if |ops| == 0 then [] else Step(Exec(ops[..|ops| - 1]), ops[|ops| - 1]).0
  }

  /** The same operations on a list of elements with a budget, without any octets. */
  function Size(items: seq<Item>): nat {
    if |items| == 0 then 0 else Size(items[..|items| - 1]) + 2 + |items[|items| - 1].data|
  }

  function ItemsOf(op: Op): seq<Item> {
    match op case Reset => [] case Add(i) => [i] case Merge(s) => Items(s, 0)
  }

  function ItemStep(items: seq<Item>, op: Op): seq<Item> {
    if op.Reset? then []
    else if Size(items) + Size(ItemsOf(op)) > INFO_MAX then items
    else items + ItemsOf(op)
  }

  function ItemExec(ops: seq<Op>): seq<Item> {
    if |ops| == 0 then [] else ItemStep(ItemExec(ops[..|ops| - 1]), ops[|ops| - 1])
  }

  lemma {:induction false} SizeIsLength(items: seq<Item>)
    requires AllFit(items)
    ensures |Encode(items)| == Size(items)
  {
    if |items| > 0 {
      SizeIsLength(items[..|items| - 1]);
    }
  }

  lemma AppendedItems(op: Op)
    requires Callable(op) && (op.Merge? ==> WellFormed(op.stream, 0))
    ensures AllFit(ItemsOf(op))
    ensures Encode(ItemsOf(op)) == Appended(op)
  {
    match op {
      case Reset =>
      case Add(i) =>
        assert [i][..0] == [];
        assert Encode([i]) == EncodeItem(i);
      case Merge(s) =>
        EncodeInvertsWalk(s, 0);
        assert s[0..] == s;
    }
  }

  /**
  After any run of resets, appends and merges of well-formed streams, accepted or refused, the
  buffer is the encoding of the budgeted list, and walking it yields exactly that list.
  */
  lemma {:induction false} BufferRefinesList(ops: seq<Op>)
    requires forall i :: 0 <= i < |ops| ==> Callable(ops[i]) && (ops[i].Merge? ==> WellFormed(ops[i].stream, 0))
    ensures AllFit(ItemExec(ops))
    ensures Exec(ops) == Encode(ItemExec(ops)) && |Exec(ops)| <= INFO_MAX
    ensures Items(Exec(ops), 0) == ItemExec(ops)
  {
    if |ops| > 0 {
      var front, op := ops[..|ops| - 1], ops[|ops| - 1];
      BufferRefinesList(front);
      AppendedItems(op);
      SizeIsLength(ItemExec(front));
      SizeIsLength(ItemsOf(op));
      EncodeConcat(ItemExec(front), ItemsOf(op));
      WalkInvertsEncode(ItemExec(ops));
    }
  }

  function Flat(chunks: seq<seq<byte>>): seq<byte> {
    if |chunks| == 0 then [] else Flat(chunks[..|chunks| - 1]) + chunks[|chunks| - 1]
  }

  // ---------------------------------------------------------------- the buffer itself

  class Ie {
    const buf: array<byte>
    var offset: int
    ghost var chunks: seq<seq<byte>>   // accepted appends since the last reset

    ghost predicate Valid()
      reads this, buf
    {
      buf.Length == INFO_MAX && 0 <= offset <= INFO_MAX && buf[..offset] == Flat(chunks)
    }

    ghost function Content(): seq<byte>
      reads this, buf
      requires Valid()
    {
      buf[..offset]
    }

    constructor ()
      ensures Valid() && fresh(buf) && chunks == []
    {
      buf := new byte[INFO_MAX](_ => 0);
      offset, chunks := 0, [];
    }

    /** wl_rst_ie */
    method Rst()
      requires Valid()
      modifies this`offset, this`chunks
      ensures Valid() && chunks == [] && Content() == []
    {
      offset, chunks := 0, [];
    }

    /** memcpy(&ie->buf[at], src, |src|) */
    method Put(at: nat, src: seq<byte>)
      requires at + |src| <= buf.Length
      modifies buf
      ensures buf[..] == old(buf[..at]) + src + old(buf[at + |src|..])
    {
      forall i | 0 <= i < |src| { buf[at + i] := src[i]; }
    }

    /** wl_add_ie */
    method Add(t: byte, v: seq<byte>) returns (ok: bool)
      requires Valid() && |v| < 256
      modifies this`offset, this`chunks, buf
      ensures Valid() && (Content(), ok) == Step(old(Content()), Op.Add(Item(t, v)))
      ensures ok == (|old(Content())| + 2 + |v| <= 1024)
      ensures Content() == if ok then old(Content()) + ([t, |v|] + v) else old(Content())
      ensures chunks == if ok then old(chunks) + [[t, |v|] + v] else old(chunks)
    {
      var l := |v|;
      if offset + l + 2 > INFO_MAX {
        return false;
      }
      buf[offset] := t;
      buf[offset + 1] := l;
      Put(offset + 2, v);
      offset := offset + (l + 2);
      chunks := chunks + [[t, l] + v];
      assert chunks[..|chunks| - 1] == old(chunks);
      assert buf[..offset] == old(buf[..offset]) + ([t, l] + v);
      ok := true;
    }

    /** wl_mrg_ie */
    method Mrg(stream: seq<byte>) returns (ok: bool)
      requires Valid() && |stream| < 0x1_0000
      modifies this`offset, this`chunks, buf
      ensures Valid() && (Content(), ok) == Step(old(Content()), Merge(stream))
      ensures ok == (|old(Content())| + |stream| <= 1024)
      ensures Content() == if ok then old(Content()) + stream else old(Content())
      ensures chunks == if ok then old(chunks) + [stream] else old(chunks)
    {
      if offset + |stream| > INFO_MAX {
        return false;
      }
      Put(offset, stream);
      offset := offset + |stream|;
      chunks := chunks + [stream];
      assert chunks[..|chunks| - 1] == old(chunks);
      assert buf[..offset] == old(buf[..offset]) + stream;
      ok := true;
    }

    /** wl_cp_ie. The guard around the copy makes no difference: every accepted call copies the whole content. */
    method Cp(dst: array<byte>, dstSize: nat) returns (ok: bool)
      requires Valid() && dst != buf && dstSize <= dst.Length
      modifies dst
      ensures ok == (offset <= dstSize)
      ensures dst[..] == if ok then Content() + old(dst[offset..]) else old(dst[..])
    {
      if offset > dstSize {
        return false;
      }
      if offset > 0 && offset <= INFO_MAX {
        forall i | 0 <= i < offset { dst[i] := buf[i]; }
      }
      ok := true;
    }

    /** wl_get_ielen */
    method GetIelen() returns (n: int)
      requires Valid()
      ensures n == |Content()| && n <= INFO_MAX
    {
      n := offset;
    }
  }
}
