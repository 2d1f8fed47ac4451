/**
The word-level helpers of bcmendian.h and bcmutils.h: byte swaps, unaligned loads and stores, the
16-bit swap of a whole buffer, and the 128-bit exclusive or. Memory is an array of octets; a word
access takes the lowest octet first.
*/
module Words {
  import opened Blocks

  type octets = seq<bv8>

  // ---------------------------------------------------------------- swaps

  function Swap16(v: bv16): bv16 { ((v & 0x00ff) << 8) | ((v & 0xff00) >> 8) }

  function Swap32(v: bv32): bv32 {
    ((v & 0x0000_00ff) << 24) | ((v & 0x0000_ff00) << 8) | ((v & 0x00ff_0000) >> 8) | ((v & 0xff00_0000) >> 24)
  }

  function Swap32By16(v: bv32): bv32 { ((v & 0x0000_ffff) << 16) | ((v & 0xffff_0000) >> 16) }

  function Swap64(v: bv64): bv64 {
    ((v & 0x0000_0000_0000_00ff) << 56) | ((v & 0x0000_0000_0000_ff00) << 40)
    | ((v & 0x0000_0000_00ff_0000) << 24) | ((v & 0x0000_0000_ff00_0000) << 8)
    | ((v & 0x0000_00ff_0000_0000) >> 8) | ((v & 0x0000_ff00_0000_0000) >> 24)
    | ((v & 0x00ff_0000_0000_0000) >> 40) | ((v & 0xff00_0000_0000_0000) >> 56)
  }

  function Swap64By32(v: bv64): bv64 {
    ((v & 0x0000_0000_ffff_ffff) << 32) | ((v & 0xffff_ffff_0000_0000) >> 32)
  }

  /** Swap each 16-bit half on its own. */
  function Halves32(v: bv32): bv32 {
    (Swap16((v >> 16) as bv16) as bv32 << 16) | (Swap16((v & 0xffff) as bv16) as bv32)
  }

  /** Swap each 32-bit half on its own. */
  function Halves64(v: bv64): bv64 {
    (Swap32((v >> 32) as bv32) as bv64 << 32) | (Swap32((v & 0xffff_ffff) as bv32) as bv64)
  }

  lemma Swap32IsHalvesThenEach(v: bv32)
    ensures Swap32(v) == Halves32(Swap32By16(v))
  {
  }

  lemma Swap64IsHalvesThenEach(v: bv64)
    ensures Swap64(v) == Halves64(Swap64By32(v))
  {
  }

  lemma SwapsAreInvolutions(a: bv16, b: bv32, c: bv64)
    ensures Swap16(Swap16(a)) == a && Swap32(Swap32(b)) == b && Swap64(Swap64(c)) == c
    ensures Swap32By16(Swap32By16(b)) == b && Swap64By32(Swap64By32(c)) == c
  {
  }

  // ---------------------------------------------------------------- unaligned loads and stores

  function Le16(b0: bv8, b1: bv8): bv16 { (b0 as bv16) | (b1 as bv16 << 8) }

  function Be16(b0: bv8, b1: bv8): bv16 { (b0 as bv16 << 8) | (b1 as bv16) }

  function Le32(b0: bv8, b1: bv8, b2: bv8, b3: bv8): bv32 {
    (b0 as bv32) | (b1 as bv32 << 8) | (b2 as bv32 << 16) | (b3 as bv32 << 24)
  }

  function Be32(b0: bv8, b1: bv8, b2: bv8, b3: bv8): bv32 {
    (b0 as bv32 << 24) | (b1 as bv32 << 16) | (b2 as bv32 << 8) | (b3 as bv32)
  }

  function Ltoh16(b: octets): bv16
    requires |b| == 2
  {
    Le16(b[0], b[1])
  }

  function Ltoh32(b: octets): bv32
    requires |b| == 4
  {
    Le32(b[0], b[1], b[2], b[3])
  }

  function Ntoh16(b: octets): bv16
    requires |b| == 2
  {
    Be16(b[0], b[1])
  }

  function Ntoh32(b: octets): bv32
    requires |b| == 4
  {
    Be32(b[0], b[1], b[2], b[3])
  }

  function Low(v: bv16): bv8 { (v & 0xff) as bv8 }

  function High(v: bv16): bv8 { (v >> 8) as bv8 }

  /** Octet n of a word, counted from the low end. */
  function Octet(w: bv32, n: nat): bv8
    requires n < 4
  {
    if n == 0 then (w & 0xff) as bv8
    else if n == 1 then ((w >> 8) & 0xff) as bv8
    else if n == 2 then ((w >> 16) & 0xff) as bv8
    else (w >> 24) as bv8
  }

  function Htol16(v: bv16): octets { [Low(v), High(v)] }

  function Hton16(v: bv16): octets { [High(v), Low(v)] }

  function Htol32(w: bv32): octets { [Octet(w, 0), Octet(w, 1), Octet(w, 2), Octet(w, 3)] }

  function Hton32(w: bv32): octets { [Octet(w, 3), Octet(w, 2), Octet(w, 1), Octet(w, 0)] }

  lemma Rejoin16(v: bv16)
    ensures Le16(Low(v), High(v)) == v && Be16(High(v), Low(v)) == v
  {
  }

  lemma Rejoin32(w: bv32)
    ensures Le32(Octet(w, 0), Octet(w, 1), Octet(w, 2), Octet(w, 3)) == w
    ensures Be32(Octet(w, 3), Octet(w, 2), Octet(w, 1), Octet(w, 0)) == w
  {
  }

  lemma Split16(a: bv8, b: bv8)
    ensures Low(Le16(a, b)) == a && High(Le16(a, b)) == b && Low(Be16(b, a)) == a && High(Be16(b, a)) == b
  {
  }

  lemma Split32(a: bv8, b: bv8, c: bv8, d: bv8)
    ensures var w := Le32(a, b, c, d);
      Octet(w, 0) == a && Octet(w, 1) == b && Octet(w, 2) == c && Octet(w, 3) == d
    ensures Be32(d, c, b, a) == Le32(a, b, c, d)
  {
  }

  lemma SwapMoves16(v: bv16)
    ensures Low(Swap16(v)) == High(v) && High(Swap16(v)) == Low(v)
  {
  }

  lemma SwapMoves32(w: bv32)
    ensures Octet(Swap32(w), 0) == Octet(w, 3) && Octet(Swap32(w), 1) == Octet(w, 2)
    ensures Octet(Swap32(w), 2) == Octet(w, 1) && Octet(Swap32(w), 3) == Octet(w, 0)
  {
  }

  /** Which octet is which. */
  lemma ByteOrder()
    ensures Htol16(0x1234) == [0x34, 0x12] && Hton16(0x1234) == [0x12, 0x34]
    ensures Htol32(0x12345678) == [0x78, 0x56, 0x34, 0x12] && Hton32(0x12345678) == [0x12, 0x34, 0x56, 0x78]
    ensures Swap16(0x1234) == 0x3412 && Swap32(0x12345678) == 0x78563412 && Swap32By16(0x12345678) == 0x56781234
    ensures Swap64(0x0123456789abcdef) == 0xefcdab8967452301
    ensures Swap64By32(0x0123456789abcdef) == 0x89abcdef01234567
  {
  }

  /** Each load undoes its store. */
  lemma LoadOfStore(v: bv16, w: bv32)
    ensures Ltoh16(Htol16(v)) == v && Ntoh16(Hton16(v)) == v
    ensures Ltoh32(Htol32(w)) == w && Ntoh32(Hton32(w)) == w
  {
    Rejoin16(v);
    Rejoin32(w);
  }

  /** Each store undoes its load, so no two octet strings load as the same word. */
  lemma StoreOfLoad16(b: octets)
    requires |b| == 2
    ensures Htol16(Ltoh16(b)) == b && Hton16(Ntoh16(b)) == b
  {
    Split16(b[0], b[1]);
    Split16(b[1], b[0]);
  }

  lemma StoreOfLoad32(b: octets)
    requires |b| == 4
    ensures Htol32(Ltoh32(b)) == b && Hton32(Ntoh32(b)) == b
  {
    Split32(b[0], b[1], b[2], b[3]);
    Split32(b[3], b[2], b[1], b[0]);
  }

  /** The two byte orders differ exactly by a swap. */
  lemma OrdersDifferBySwap(v: bv16, w: bv32)
    ensures Hton16(v) == Htol16(Swap16(v)) && Hton32(w) == Htol32(Swap32(w))
  {
    SwapMoves16(v);
    SwapMoves32(w);
  }

  method Htol16UaStore(v: bv16, m: array<bv8>, at: nat)
    requires at + 2 <= m.Length
    modifies m
    ensures m[..] == Stored(old(m[..]), at, Htol16(v))
  {
    m[at] := Low(v);
    m[at + 1] := High(v);
  }

  method Htol32UaStore(v: bv32, m: array<bv8>, at: nat)
    requires at + 4 <= m.Length
    modifies m
    ensures m[..] == Stored(old(m[..]), at, Htol32(v))
  {
    m[at] := Octet(v, 0);
    m[at + 1] := Octet(v, 1);
    m[at + 2] := Octet(v, 2);
    m[at + 3] := Octet(v, 3);
  }

  method Hton16UaStore(v: bv16, m: array<bv8>, at: nat)
    requires at + 2 <= m.Length
    modifies m
    ensures m[..] == Stored(old(m[..]), at, Hton16(v))
  {
    m[at] := High(v);
    m[at + 1] := Low(v);
  }

  method Hton32UaStore(v: bv32, m: array<bv8>, at: nat)
    requires at + 4 <= m.Length
    modifies m
    ensures m[..] == Stored(old(m[..]), at, Hton32(v))
  {
    m[at] := Octet(v, 3);
    m[at + 1] := Octet(v, 2);
    m[at + 2] := Octet(v, 1);
    m[at + 3] := Octet(v, 0);
  }

  // ---------------------------------------------------------------- bcmswap16_buf

  /** The memory once the first wds 16-bit words from buf on have been swapped. */
  function Swapped(m: octets, buf: nat, wds: nat): (r: octets)
    requires buf + 2 * wds <= |m|
    ensures |r| == |m|
    ensures forall i :: 0 <= i < |m| ==> r[i] == SwappedAt(m, buf, wds, i)
  {
    seq(|m|, i requires 0 <= i < |m| => SwappedAt(m, buf, wds, i))
  }

  function SwappedAt(m: octets, buf: nat, wds: nat, i: nat): bv8
    requires buf + 2 * wds <= |m| && i < |m|
  {
    if buf <= i < buf + 2 * wds then
      if (i - buf) % 2 == 0 then m[i + 1] else m[i - 1]
    else m[i]
  }

  /** Swapping twice restores the memory. */
  lemma SwappedTwice(m: octets, buf: nat, wds: nat)
    requires buf + 2 * wds <= |m|
    ensures Swapped(Swapped(m, buf, wds), buf, wds) == m
  {
    var m' := Swapped(m, buf, wds);
    forall i | 0 <= i < |m| ensures SwappedAt(m', buf, wds, i) == m[i] {
      if buf <= i < buf + 2 * wds {
        var partner := if (i - buf) % 2 == 0 then i + 1 else i - 1;
        assert m'[partner] == SwappedAt(m, buf, wds, partner) == m[i];
      }
    }
  }

  lemma SwappedPair(m: octets, buf: nat, wds: nat, w: nat)
    requires buf + 2 * wds <= |m| && w < wds
    ensures var at := buf + 2 * w;
      Swapped(m, buf, wds)[at..at + 2] == [m[at + 1], m[at]]
  {
    var at := buf + 2 * w;
    assert (at - buf) % 2 == 0 && (at + 1 - buf) % 2 == 1;
    assert Swapped(m, buf, wds)[at] == SwappedAt(m, buf, wds, at);
    assert Swapped(m, buf, wds)[at + 1] == SwappedAt(m, buf, wds, at + 1);
  }

  lemma OtherOrder(a: bv8, b: bv8)
    ensures Le16(b, a) == Be16(a, b)
  {
  }

  /** Every word changes its byte order, and an octet outside of the words stays. */
  lemma SwappedWords(m: octets, buf: nat, wds: nat, w: nat, i: nat)
    requires buf + 2 * wds <= |m| && w < wds && i < |m| && !(buf <= i < buf + 2 * wds)
    ensures var at := buf + 2 * w;
      Ltoh16(Swapped(m, buf, wds)[at..at + 2]) == Ntoh16(m[at..at + 2])
    ensures Swapped(m, buf, wds)[i] == m[i]
  {
    var at := buf + 2 * w;
    SwappedPair(m, buf, wds, w);
    assert m[at..at + 2] == [m[at], m[at + 1]];
    OtherOrder(m[at], m[at + 1]);
  }

  lemma SwapNext(m: octets, buf: nat, wds: nat)
    requires buf + 2 * wds + 2 <= |m|
    ensures var p := buf + 2 * wds;
      Swapped(m, buf, wds + 1) == Swapped(m, buf, wds)[p := m[p + 1]][p + 1 := m[p]]
  {
    var p := buf + 2 * wds;
    assert (p - buf) % 2 == 0 && (p + 1 - buf) % 2 == 1;
  }

  method SwapWord(m: array<bv8>, at: nat)
    requires at + 2 <= m.Length
    modifies m
    ensures m[..] == old(m[..])[at := old(m[at + 1])][at + 1 := old(m[at])]
  {
    var v := Le16(m[at], m[at + 1]);
    Split16(m[at], m[at + 1]);
    SwapMoves16(v);
    Htol16UaStore(Swap16(v), m, at);
  }

  /** bcmswap16_buf: len / 2 words are swapped, so an odd last octet is left alone. */
  method Swap16Buf(m: array<bv8>, buf: nat, len: nat)
    requires buf + len <= m.Length
    modifies m
    ensures m[..] == Swapped(old(m[..]), buf, len / 2)
    ensures len % 2 == 1 ==> m[buf + len - 1] == old(m[buf + len - 1])
  {
    var wds, p := len / 2, buf;
    ghost var n: nat := 0;
    while wds > 0
      invariant 0 <= wds && n + wds == len / 2 && p == buf + 2 * n
      invariant m[..] == Swapped(old(m[..]), buf, n)
    {
      wds := wds - 1;
      SwapNext(old(m[..]), buf, n);
      assert m[..][p] == m[p] && m[..][p + 1] == m[p + 1];
      SwapWord(m, p);
      p := p + 2;
      n := n + 1;
    }
    assert len % 2 == 1 ==> m[..][buf + len - 1] == m[buf + len - 1];
  }

  // ---------------------------------------------------------------- xor_128bit_block

  function Xor8(a: bv8, b: bv8): bv8 { a ^ b }

  /** src1[j] ^ src2[j] on words, at octet distance off = 4 * j. */
  function XorWord(m: octets, src1: nat, src2: nat, off: nat): bv32
    requires src1 + off + 4 <= |m| && src2 + off + 4 <= |m|
  {
    Le32(m[src1 + off], m[src1 + off + 1], m[src1 + off + 2], m[src1 + off + 3])
    ^ Le32(m[src2 + off], m[src2 + off + 1], m[src2 + off + 2], m[src2 + off + 3])
  }

  lemma XorOfWords(a0: bv8, a1: bv8, a2: bv8, a3: bv8, b0: bv8, b1: bv8, b2: bv8, b3: bv8)
    ensures Le32(a0, a1, a2, a3) ^ Le32(b0, b1, b2, b3) == Le32(Xor8(a0, b0), Xor8(a1, b1), Xor8(a2, b2), Xor8(a3, b3))
  {
  }

  lemma XorOctets(a0: bv8, a1: bv8, a2: bv8, a3: bv8, b0: bv8, b1: bv8, b2: bv8, b3: bv8)
    ensures Htol32(Le32(a0, a1, a2, a3) ^ Le32(b0, b1, b2, b3))
         == [Xor8(a0, b0), Xor8(a1, b1), Xor8(a2, b2), Xor8(a3, b3)]
  {
    XorOfWords(a0, a1, a2, a3, b0, b1, b2, b3);
    Split32(Xor8(a0, b0), Xor8(a1, b1), Xor8(a2, b2), Xor8(a3, b3));
  }

  /** Storing the exclusive or of two words stores the four exclusive ors of their octets. */
  lemma XorWordIsFour(m: octets, src1: nat, src2: nat, dst: nat, off: nat)
    requires InBounds(m, src1, src2, dst) && off <= 12
    ensures Stored(m, dst + off, Htol32(XorWord(m, src1, src2, off))) == FourAtOnce(m, Xor8, src1, src2, dst, off)
  {
    var s, t := src1 + off, src2 + off;
    XorOctets(m[s], m[s + 1], m[s + 2], m[s + 3], m[t], m[t + 1], m[t + 2], m[t + 3]);
  }

  /** The block as the byte loop leaves it. */
  function XoredByOctet(m: octets, src1: nat, src2: nat, dst: nat): octets
    requires InBounds(m, src1, src2, dst)
  {
    ByOctet(m, Xor8, src1, src2, dst, 0)
  }

  /** The block as the four word assignments leave it. */
  function XoredByWord(m: octets, src1: nat, src2: nat, dst: nat): octets
    requires InBounds(m, src1, src2, dst)
  {
    ByWord(m, Xor8, src1, src2, dst, 0)
  }

  /** One source, or a destination that does not begin one to three octets behind either source. */
  predicate Harmless(src1: nat, src2: nat, dst: nat) {
    src1 == src2 || (Clear(src1, dst) && Clear(src2, dst))
  }

  lemma XorSelf(x: bv8)
    ensures Xor8(x, x) == 0
  {
  }

  lemma PathsAgree(m: octets, src1: nat, src2: nat, dst: nat)
    requires InBounds(m, src1, src2, dst) && Harmless(src1, src2, dst)
    ensures XoredByWord(m, src1, src2, dst) == XoredByOctet(m, src1, src2, dst)
  {
    if src1 == src2 {
      forall x ensures Xor8(x, x) == 0 {
        XorSelf(x);
      }
      SameSourceByOctet(m, Xor8, 0, src1, dst, 0);
      SameSourceByWord(m, Xor8, 0, src1, dst, 0);
    } else {
      WordsAgreeWithOctets(m, Xor8, src1, src2, dst, 0);
    }
  }

  /** Distance from the nearest source that the destination begins closely behind. */
  function Nearest(src1: nat, src2: nat, dst: nat): nat
    requires !Clear(src1, dst) || !Clear(src2, dst)
  {
    if Clear(src1, dst) then dst - src2
    else if Clear(src2, dst) || dst - src1 < dst - src2 then dst - src1
    else dst - src2
  }

  /** All zero, except for the octet that tells the paths apart. */
  function Telltale(n: nat, src1: nat, src2: nat, dst: nat): (m: octets)
    ensures |m| == n
  {
    var one := if src2 == dst then src1 else if src1 == dst then src2 else dst;
    seq(n, i => if i == one then 1 else 0)
  }

  lemma PathsDiffer(n: nat, src1: nat, src2: nat, dst: nat)
    requires src1 + 16 <= n && src2 + 16 <= n && dst + 16 <= n && !Harmless(src1, src2, dst)
    ensures var m := Telltale(n, src1, src2, dst);
      XoredByWord(m, src1, src2, dst) != XoredByOctet(m, src1, src2, dst)
  {
    var m, d := Telltale(n, src1, src2, dst), Nearest(src1, src2, dst);
    OverlapAt(m, Xor8, src1, src2, dst, d);
    ZeroAndOne();
  }

  lemma ZeroAndOne()
    ensures Xor8(0, 0) == 0 && Xor8(0, 1) == 1 && Xor8(1, 0) == 1 && Xor8(1, 1) == 0
  {
  }

  /** The exact condition, for any layout in a memory of any size. */
  lemma PathsAgreeExactly(n: nat, src1: nat, src2: nat, dst: nat)
    requires src1 + 16 <= n && src2 + 16 <= n && dst + 16 <= n
    ensures (forall m: octets :: |m| == n ==> XoredByWord(m, src1, src2, dst) == XoredByOctet(m, src1, src2, dst))
       <==> Harmless(src1, src2, dst)
  {
    if Harmless(src1, src2, dst) {
      forall m: octets | |m| == n ensures XoredByWord(m, src1, src2, dst) == XoredByOctet(m, src1, src2, dst) {
        PathsAgree(m, src1, src2, dst);
      }
    } else {
      PathsDiffer(n, src1, src2, dst);
    }
  }

  lemma AlignedIsClear(src: nat, dst: nat)
    requires src % 4 == 0 && dst % 4 == 0
    ensures Clear(src, dst)
  {
  }

  /** What either path is for: dst, which may be a source, becomes the exclusive or; nothing else changes. */
  lemma XoredIsPointwise(m: octets, src1: nat, src2: nat, dst: nat, i: nat)
    requires InBounds(m, src1, src2, dst) && i < |m| && Unread(src1, dst) && Unread(src2, dst)
    ensures XoredByOctet(m, src1, src2, dst)[i] ==
      if dst <= i < dst + 16 then m[src1 + i - dst] ^ m[src2 + i - dst] else m[i]
  {
    Pointwise(m, Xor8, src1, src2, dst, 0, i);
  }

  method StoreXorWord(m: array<bv8>, src1: nat, src2: nat, dst: nat, off: nat)
    requires InBounds(m[..], src1, src2, dst) && off <= 12
    modifies m
    ensures m[..] == FourAtOnce(old(m[..]), Xor8, src1, src2, dst, off)
  {
    XorWordIsFour(m[..], src1, src2, dst, off);
    var a := Le32(m[src1 + off], m[src1 + off + 1], m[src1 + off + 2], m[src1 + off + 3]);
    var b := Le32(m[src2 + off], m[src2 + off + 1], m[src2 + off + 2], m[src2 + off + 3]);
    Htol32UaStore(a ^ b, m, dst + off);
  }

  method WordPath(m: array<bv8>, src1: nat, src2: nat, dst: nat)
    requires InBounds(m[..], src1, src2, dst)
    modifies m
    ensures m[..] == XoredByWord(old(m[..]), src1, src2, dst)
  {
    StoreXorWord(m, src1, src2, dst, 0);
    ghost var m1 := m[..];
    StoreXorWord(m, src1, src2, dst, 4);
    StoreXorWord(m, src1, src2, dst, 8);
    ghost var m3 := m[..];
    StoreXorWord(m, src1, src2, dst, 12);
    assert ByWord(m1, Xor8, src1, src2, dst, 4) == ByWord(m3, Xor8, src1, src2, dst, 12);
    assert ByWord(m3, Xor8, src1, src2, dst, 12) == ByWord(m[..], Xor8, src1, src2, dst, 16) == m[..];
  }

  method BytePath(m: array<bv8>, src1: nat, src2: nat, dst: nat)
    requires InBounds(m[..], src1, src2, dst)
    modifies m
    ensures m[..] == XoredByOctet(old(m[..]), src1, src2, dst)
  {
    var k := 0;
    while k < 16
      invariant k <= 16
      invariant ByOctet(m[..], Xor8, src1, src2, dst, k) == ByOctet(old(m[..]), Xor8, src1, src2, dst, 0)
    {
      m[dst + k] := Xor8(m[src1 + k], m[src2 + k]);
      k := k + 1;
    }
  }

  /**
  xor_128bit_block at these addresses of an aligned memory. i386 takes the word path always, other
  machines when all operands are aligned, and then the result is the bytewise one whatever overlaps.
  */
  method Xor128bitBlock(m: array<bv8>, src1: nat, src2: nat, dst: nat, i386: bool)
    requires InBounds(m[..], src1, src2, dst)
    modifies m
    ensures m[..] ==
      if i386 then XoredByWord(old(m[..]), src1, src2, dst) else XoredByOctet(old(m[..]), src1, src2, dst)
    ensures Harmless(src1, src2, dst) ==> m[..] == XoredByOctet(old(m[..]), src1, src2, dst)
  {
    if i386 || (src1 % 4 == 0 && src2 % 4 == 0 && dst % 4 == 0) {
      if !i386 {
        AlignedIsClear(src1, dst);
        AlignedIsClear(src2, dst);
      }
      ghost var before := m[..];
      WordPath(m, src1, src2, dst);
      if Harmless(src1, src2, dst) {
        PathsAgree(before, src1, src2, dst);
      }
    } else {
      BytePath(m, src1, src2, dst);
    }
  }
}
