/**
The radiotap copy of wl_monitor for an A-MSDU: one pass over the chained buffers to size the new
packet, a second one to fill it. The radiotap header itself is opaque here.
*/
module Monitor {
  import opened Common

  const PHY_HDR_LEN: nat := 6   // D11_PHY_HDR_LEN

  class Skb {
    const data: seq<byte>
    var next: Skb?

    constructor (octets: seq<byte>, follower: Skb?)
      ensures data == octets && next == follower
    { data, next := octets, follower; }
  }

  /** `chain` is what follows p, in order, up to a null pointer. */
  ghost predicate Chained(p: Skb?, chain: seq<Skb>)
    reads chain
    decreases |chain|
  {
    if |chain| == 0 then p == null
    else p == chain[0] && Chained(chain[0].next, chain[1..])
  }

  ghost function Octets(chain: seq<Skb>): seq<byte> {
    if |chain| == 0 then [] else chain[0].data + Octets(chain[1..])
  }

  /** The 802.11 frame a monitor should see: no PHY header, then every chained buffer in order. */
  ghost function Frame(head: Skb, chain: seq<Skb>): seq<byte>
    requires |head.data| >= PHY_HDR_LEN
  {
    head.data[PHY_HDR_LEN..] + Octets(chain)
  }

  /** Octets in the first n buffers. */
  ghost function TotalLen(chain: seq<Skb>, n: nat): nat
    requires n <= |chain|
  {
    if n == 0 then 0 else TotalLen(chain, n - 1) + |chain[n - 1].data|
  }

  lemma {:induction false} TotalLenTail(chain: seq<Skb>, n: nat)
    requires 0 < n <= |chain|
    ensures TotalLen(chain, n) == |chain[0].data| + TotalLen(chain[1..], n - 1)
  {
    if n > 1 {
      TotalLenTail(chain, n - 1);
    }
  }

  lemma {:induction false} OctetsLen(chain: seq<Skb>)
    ensures |Octets(chain)| == TotalLen(chain, |chain|)
  {
    if |chain| > 0 {
      OctetsLen(chain[1..]);
      TotalLenTail(chain, |chain|);
    }
  }

  /** Nothing of the chain is lost: buffer i begins where the buffers before it end. */
  lemma {:induction false} OctetsAt(chain: seq<Skb>, i: nat)
    requires i < |chain|
    ensures TotalLen(chain, i) + |chain[i].data| <= |Octets(chain)|
    ensures Octets(chain)[TotalLen(chain, i)..TotalLen(chain, i) + |chain[i].data|] == chain[i].data
  {
    if i > 0 {
      OctetsAt(chain[1..], i - 1);
      TotalLenTail(chain, i);
      var before := TotalLen(chain[1..], i - 1);
      assert Octets(chain)[|chain[0].data|..] == Octets(chain[1..]);
      assert Octets(chain)[|chain[0].data| + before..|chain[0].data| + before + |chain[i].data|]
          == Octets(chain[1..])[before..before + |chain[i].data|];
    }
  }

  /**
  The packet at the monitor: header, head frame without its PHY header, and the buffers, each
  where the ones before it end; nothing else.
  */
  ghost predicate Shows(packet: seq<byte>, radiotap: seq<byte>, head: Skb, chain: seq<Skb>)
    requires |head.data| >= PHY_HDR_LEN
  {
    var body := |radiotap| + |head.data| - PHY_HDR_LEN;
    && |packet| == body + TotalLen(chain, |chain|)
    && packet[..|radiotap|] == radiotap
    && packet[|radiotap|..body] == head.data[6..]
    && (forall i :: 0 <= i < |chain| ==> ShowsBuffer(packet, body + TotalLen(chain, i), chain[i].data))
  }

  ghost predicate ShowsBuffer(packet: seq<byte>, at: nat, data: seq<byte>) {
    at + |data| <= |packet| && packet[at..at + |data|] == data
  }

  lemma BufferShows(front: seq<byte>, chain: seq<Skb>, i: nat)
    requires i < |chain|
    ensures ShowsBuffer(front + Octets(chain), |front| + TotalLen(chain, i), chain[i].data)
  {
    OctetsAt(chain, i);
    ShiftedSlice(front, Octets(chain), TotalLen(chain, i), TotalLen(chain, i) + |chain[i].data|);
  }

  lemma FrameShows(radiotap: seq<byte>, head: Skb, chain: seq<Skb>)
    requires |head.data| >= PHY_HDR_LEN
    ensures Shows(radiotap + Frame(head, chain), radiotap, head, chain)
  {
    OctetsLen(chain);
    var packet, front := radiotap + Frame(head, chain), radiotap + head.data[PHY_HDR_LEN..];
    Regroup(radiotap, head.data[PHY_HDR_LEN..], Octets(chain));
    ThreeParts(radiotap, head.data[PHY_HDR_LEN..], Octets(chain));
    forall i | 0 <= i < |chain| ensures ShowsBuffer(packet, |front| + TotalLen(chain, i), chain[i].data) {
      BufferShows(front, chain, i);
    }
  }

  /** The length pass. */
  method Length(rtapLen: nat, oskb: Skb, ghost chain: seq<Skb>) returns (len: int)
    requires |oskb.data| >= PHY_HDR_LEN && Chained(oskb.next, chain)
    ensures len == rtapLen + |Frame(oskb, chain)| == rtapLen + |oskb.data| - 6 + TotalLen(chain, |chain|)
  {
    OctetsLen(chain);
    len := rtapLen + (|oskb.data| - PHY_HDR_LEN);
    if oskb.next != null {
      var amsdu := oskb.next;
      var amsduLen := 0;
      ghost var rest := chain;
      while amsdu != null
        invariant Chained(amsdu, rest) && amsduLen + |Octets(rest)| == |Octets(chain)|
        decreases |rest|
      {
        amsduLen := amsduLen + |amsdu.data|;
        amsdu := amsdu.next;
        rest := rest[1..];
      }
      len := len + amsduLen;
    }
  }

  /** bcopy(src, dst + at, |src|) */
  method Bcopy(src: seq<byte>, dst: array<byte>, at: nat)
    requires at + |src| <= dst.Length
    modifies dst
    ensures dst[..] == old(dst[..at]) + src + old(dst[at + |src|..])
  {
    forall i | 0 <= i < |src| { dst[at + i] := src[i]; }
  }

  /** The copy pass, into a buffer of the length the first pass found: filled exactly, header untouched. */
  method Fill(rtapLen: nat, oskb: Skb, ghost chain: seq<Skb>, skb: array<byte>)
    requires |oskb.data| >= PHY_HDR_LEN && Chained(oskb.next, chain)
    requires skb.Length == rtapLen + |Frame(oskb, chain)|
    modifies skb
    ensures skb[..] == old(skb[..rtapLen]) + Frame(oskb, chain)
    ensures Shows(skb[..], old(skb[..rtapLen]), oskb, chain)
  {
    var pdata: nat := rtapLen;
    var body := oskb.data[PHY_HDR_LEN..];
    ghost var header := skb[..rtapLen];
    Bcopy(body, skb, pdata);
    if oskb.next != null {
      var amsdu := oskb.next;
      pdata := pdata + (|oskb.data| - PHY_HDR_LEN);
      ghost var rest := chain;
      while amsdu != null
        invariant Chained(amsdu, rest) && pdata + |Octets(rest)| == skb.Length
        invariant skb[..pdata] + Octets(rest) == header + Frame(oskb, chain)
        decreases |rest|
      {
        ghost var before := skb[..pdata];
        Bcopy(amsdu.data, skb, pdata);
        pdata := pdata + |amsdu.data|;
        assert skb[..pdata] == before + amsdu.data;
        Regroup(before, amsdu.data, Octets(rest[1..]));
        amsdu := amsdu.next;
        rest := rest[1..];
      }
      assert skb[..pdata] == skb[..] && Octets(rest) == [];
    }
    assert skb[..] == header + Frame(oskb, chain);
    FrameShows(header, oskb, chain);
  }

  /** Both passes: without memory nothing is delivered, otherwise a packet of exactly header and frame. */
  method Deliver(radiotap: seq<byte>, oskb: Skb, ghost chain: seq<Skb>, memory: bool) returns (skb: array?<byte>)
    requires |oskb.data| >= PHY_HDR_LEN && Chained(oskb.next, chain)
    ensures skb == null <==> !memory
    ensures skb != null ==> fresh(skb) && skb[..] == radiotap + Frame(oskb, chain)
    ensures skb != null ==> Shows(skb[..], radiotap, oskb, chain)
  {
    var len := Length(|radiotap|, oskb, chain);
    if !memory {
      return null;
    }
    skb := new byte[len](_ => 0);
    Bcopy(radiotap, skb, 0);
    Fill(|radiotap|, oskb, chain, skb);
    assert skb[..|radiotap|] == radiotap;
  }
}
