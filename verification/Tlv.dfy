/**
Information elements: one octet of id, one octet of length, then that many octets of data (section
9.4.2.1 of IEEE Std 802.11-2016). The standard walk, and the search of wl_iw.c that restarts the walk
after every mismatch.
*/
module Tlv {
  import opened Common

  datatype Option<T> = None | Some(value: T)

  const VENDOR_ID: byte := 221     // DOT11_MNG_WPA_ID
  const RSN_ID: byte := 48         // DOT11_MNG_RSN_ID
  const WPA_OUI: seq<byte> := [0x00, 0x50, 0xF2]

  /** bcm_valid_tlv at offset `at`: header and data lie inside the buffer. */
  predicate Complete(buf: seq<byte>, at: nat) {
    at + 2 <= |buf| && at + 2 + buf[at + 1] <= |buf|
  }

  /** bcm_parse_tlvs from offset `at`: the first complete element with this id. */
  function Find(buf: seq<byte>, at: nat, key: byte): Option<nat>
    decreases |buf| - at
  {
    if at + 2 > |buf| then None
    else if buf[at] == key && at + 2 + buf[at + 1] <= |buf| then Some(at)
    else Find(buf, at + 2 + buf[at + 1], key)
  }

  /** Offsets of the complete elements met by one walk from `at`. */
  function Elements(buf: seq<byte>, at: nat): seq<nat>
    decreases |buf| - at
  {
    if Complete(buf, at) then [at] + Elements(buf, at + 2 + buf[at + 1]) else []
  }

  predicate HasId(buf: seq<byte>, at: nat, key: byte) { Complete(buf, at) && buf[at] == key }

  /** Position k is the first of these offsets whose element has this id. */
  predicate FirstWithId(buf: seq<byte>, offsets: seq<nat>, k: nat, key: byte) {
    k < |offsets| && HasId(buf, offsets[k], key) && forall i :: 0 <= i < k ==> !HasId(buf, offsets[i], key)
  }

  /** r is the first of these offsets whose element has this id, or there is none. */
  ghost predicate IsFirst(buf: seq<byte>, offsets: seq<nat>, key: byte, r: Option<nat>) {
    match r
    case None => forall i :: 0 <= i < |offsets| ==> !HasId(buf, offsets[i], key)
    case Some(p) => exists k: nat :: FirstWithId(buf, offsets, k, key) && offsets[k] == p
  }

  lemma FirstAtHead(buf: seq<byte>, offsets: seq<nat>, key: byte)
    requires |offsets| > 0 && HasId(buf, offsets[0], key)
    ensures IsFirst(buf, offsets, key, Some(offsets[0]))
  {
    assert FirstWithId(buf, offsets, 0, key);
  }

  lemma FirstInTail(buf: seq<byte>, head: nat, tail: seq<nat>, key: byte, r: Option<nat>)
    requires !HasId(buf, head, key) && IsFirst(buf, tail, key, r)
    ensures IsFirst(buf, [head] + tail, key, r)
  {
    if r.Some? {
      var k: nat :| FirstWithId(buf, tail, k, key) && tail[k] == r.value;
      assert FirstWithId(buf, [head] + tail, k + 1, key);
    }
  }

  /** What bcm_parse_tlvs returns: the first element of the walk with this id, or none if there is none. */
  lemma {:induction false} FindIsFirst(buf: seq<byte>, at: nat, key: byte)
    ensures IsFirst(buf, Elements(buf, at), key, Find(buf, at, key))
    decreases |buf| - at
  {
    if Complete(buf, at) {
      var next := at + 2 + buf[at + 1];
      if buf[at] == key {
        FirstAtHead(buf, Elements(buf, at), key);
      } else {
        FindIsFirst(buf, next, key);
        FirstInTail(buf, at, Elements(buf, next), key, Find(buf, next, key));
      }
    } else if at + 2 <= |buf| {
      assert Find(buf, at + 2 + buf[at + 1], key) == None;
    }
  }

  /** bcm_parse_tlvs as the loop over elt and totlen. */
  method ParseTlvs(buf: seq<byte>, start: nat, buflen: int, key: byte) returns (r: Option<nat>)
    requires start + buflen == |buf|
    ensures r == Find(buf, start, key)
  {
    var elt, totlen := start, buflen;
    while totlen >= 2
      invariant start <= elt && totlen == |buf| - elt
      invariant Find(buf, start, key) == Find(buf, elt, key)
      decreases totlen
    {
      var len := buf[elt + 1];
      if buf[elt] == key && totlen >= len + 2 {
        return Some(elt);
      }
      elt, totlen := elt + len + 2, totlen - (len + 2);
    }
    r := None;
  }

  // ---------------------------------------------------------------- vendor elements

  /** A complete vendor element of at least minLen octets that begins with the OUI and this type. */
  predicate Vendor(buf: seq<byte>, at: nat, minLen: nat, ouiType: byte) {
    && Complete(buf, at) && buf[at] == VENDOR_ID
    && buf[at + 1] >= minLen && buf[at + 1] >= 4
    && buf[at + 2..at + 6] == WPA_OUI + [ouiType]
  }

  /** Octet by octet: 221, a length, 00 50 F2 and the type. */
  lemma VendorOctets(buf: seq<byte>, at: nat, minLen: nat, ouiType: byte)
    requires Complete(buf, at)
    ensures Vendor(buf, at, minLen, ouiType) <==>
      && buf[at] == 221 && buf[at + 1] >= minLen && buf[at + 1] >= 4
      && buf[at + 2] == 0x00 && buf[at + 3] == 0x50 && buf[at + 4] == 0xF2 && buf[at + 5] == ouiType
  {
    if buf[at + 1] >= 4 {
      assert buf[at + 2..at + 6] == [buf[at + 2], buf[at + 3], buf[at + 4], buf[at + 5]];
    }
  }

  /** No element is both a WPS and a WPA element. */
  lemma WpsIsNotWpa(buf: seq<byte>, at: nat)
    ensures !(Vendor(buf, at, 4, 4) && Vendor(buf, at, 6, 1))
  {
    if Complete(buf, at) {
      VendorOctets(buf, at, 4, 4);
      VendorOctets(buf, at, 6, 1);
    }
  }

  /** The first vendor element among those at these offsets. */
  function FirstVendor(buf: seq<byte>, offsets: seq<nat>, minLen: nat, ouiType: byte): Option<nat> {
    if |offsets| == 0 then None
    else if Vendor(buf, offsets[0], minLen, ouiType) then Some(offsets[0])
    else FirstVendor(buf, offsets[1..], minLen, ouiType)
  }

  /** Position k is the first of these offsets that holds such a vendor element. */
  predicate FirstMatch(buf: seq<byte>, offsets: seq<nat>, k: nat, minLen: nat, ouiType: byte) {
    && k < |offsets| && Vendor(buf, offsets[k], minLen, ouiType)
    && forall i :: 0 <= i < k ==> !Vendor(buf, offsets[i], minLen, ouiType)
  }

  lemma {:induction false} FirstVendorIsFirst(buf: seq<byte>, offsets: seq<nat>, minLen: nat, ouiType: byte)
    ensures match FirstVendor(buf, offsets, minLen, ouiType)
      case None => forall i :: 0 <= i < |offsets| ==> !Vendor(buf, offsets[i], minLen, ouiType)
      case Some(at) => exists k: nat :: FirstMatch(buf, offsets, k, minLen, ouiType) && offsets[k] == at
  {
    if |offsets| > 0 {
      var tail := offsets[1..];
      assert offsets == [offsets[0]] + tail;
      if Vendor(buf, offsets[0], minLen, ouiType) {
        assert FirstMatch(buf, offsets, 0, minLen, ouiType);
      } else {
        FirstVendorIsFirst(buf, tail, minLen, ouiType);
        match FirstVendor(buf, tail, minLen, ouiType) {
          case None =>
          case Some(at) =>
            var k: nat :| FirstMatch(buf, tail, k, minLen, ouiType) && tail[k] == at;
            assert FirstMatch(buf, offsets, k + 1, minLen, ouiType) && offsets[k + 1] == at;
        }
      }
    }
  }

  /** Skipping elements with another id changes nothing: the next candidate is what Find returns. */
  lemma {:induction false} FindSkips(buf: seq<byte>, at: nat, minLen: nat, ouiType: byte)
    ensures match Find(buf, at, VENDOR_ID)
      case None => FirstVendor(buf, Elements(buf, at), minLen, ouiType) == None
      case Some(p) =>
        && at <= p && Complete(buf, p) && buf[p] == VENDOR_ID
        && FirstVendor(buf, Elements(buf, at), minLen, ouiType) == FirstVendor(buf, Elements(buf, p), minLen, ouiType)
    decreases |buf| - at
  {
    if at + 2 <= |buf| {
      var next := at + 2 + buf[at + 1];
      if next <= |buf| {
        assert Elements(buf, at)[1..] == Elements(buf, next);
        if buf[at] != VENDOR_ID {
          FindSkips(buf, next, minLen, ouiType);
        }
      } else {
        assert Find(buf, next, VENDOR_ID) == None;
      }
    }
  }

  /** A mismatch at p resumes the search right behind it. */
  lemma MismatchResumes(buf: seq<byte>, p: nat, minLen: nat, ouiType: byte)
    requires Complete(buf, p) && !Vendor(buf, p, minLen, ouiType)
    ensures FirstVendor(buf, Elements(buf, p), minLen, ouiType)
         == FirstVendor(buf, Elements(buf, p + 2 + buf[p + 1]), minLen, ouiType)
  {
    assert Elements(buf, p)[1..] == Elements(buf, p + 2 + buf[p + 1]);
  }

  /** ie_is_wpa_ie (minLen 6, type 1) and ie_is_wps_ie (minLen 4, type 4). */
  method IeIsVendor(buf: seq<byte>, ie: nat, tlvs: nat, tlvsLen: int, minLen: nat, ouiType: byte)
    returns (found: bool, tlvs': nat, tlvsLen': int)
    requires Complete(buf, ie) && buf[ie] == VENDOR_ID && minLen >= 4
    requires tlvs <= ie && tlvs + tlvsLen == |buf|
    ensures found == Vendor(buf, ie, minLen, ouiType)
    ensures found ==> tlvs' == tlvs && tlvsLen' == tlvsLen
    ensures !found ==> tlvs' == ie + 2 + buf[ie + 1] && tlvs' + tlvsLen' == |buf| && 0 <= tlvsLen' < tlvsLen
  {
    tlvs', tlvsLen' := tlvs, tlvsLen;
    if buf[ie + 1] >= minLen && buf[ie + 2..ie + 6] == WPA_OUI + [ouiType] {
      return true, tlvs', tlvsLen';
    }
    var next := ie + buf[ie + 1] + 2;
    tlvsLen' := tlvsLen' - (next - tlvs);
    tlvs' := next;
    found := false;
  }

  /**
  The resume-after-mismatch loop terminates and returns exactly the first matching element of a
  single walk over the whole buffer.
  */
  method SearchVendor(buf: seq<byte>, minLen: nat, ouiType: byte) returns (r: Option<nat>)
    requires minLen >= 4
    ensures r == FirstVendor(buf, Elements(buf, 0), minLen, ouiType)
  {
    var ptr, ptrLen := 0, |buf|;
    var ie := ParseTlvs(buf, ptr, ptrLen, VENDOR_ID);
    while ie.Some?
      invariant 0 <= ptrLen && ptr + ptrLen == |buf| && ie == Find(buf, ptr, VENDOR_ID)
      invariant FirstVendor(buf, Elements(buf, 0), minLen, ouiType)
             == FirstVendor(buf, Elements(buf, ptr), minLen, ouiType)
      decreases ptrLen
    {
      FindSkips(buf, ptr, minLen, ouiType);
      var found;
      ghost var p := ie.value;
      found, ptr, ptrLen := IeIsVendor(buf, ie.value, ptr, ptrLen, minLen, ouiType);
      if found {
        return ie;
      }
      MismatchResumes(buf, p, minLen, ouiType);
      ie := ParseTlvs(buf, ptr, ptrLen, VENDOR_ID);
    }
    FindSkips(buf, ptr, minLen, ouiType);
    r := None;
  }

  function Listed(o: Option<nat>): seq<nat> { if o.Some? then [o.value] else [] }

  // ---------------------------------------------------------------- what a scan result reports

  /** The first RSN element of the walk. */
  function Rsn(buf: seq<byte>): (r: Option<nat>)
    ensures r.Some? ==> Complete(buf, r.value) && buf[r.value] == 48
  {
    FindIsFirst(buf, 0, RSN_ID);
    Find(buf, 0, RSN_ID)
  }

  /** The first vendor element of the walk with this length and type. */
  function VendorOf(buf: seq<byte>, minLen: nat, ouiType: byte): (r: Option<nat>)
    ensures r.Some? ==> Complete(buf, r.value) && buf[r.value] == 221 && buf[r.value + 1] >= minLen
  {
    FirstVendorIsFirst(buf, Elements(buf, 0), minLen, ouiType);
    FirstVendor(buf, Elements(buf, 0), minLen, ouiType)
  }

  /** What an element takes in the event stream: the kernel's event header, id and length, the data. */
  function EventSize(buf: seq<byte>, at: nat, header: nat): (size: nat)
    requires Complete(buf, at)
    ensures size <= header + 257
  {
    header + 2 + buf[at + 1]
  }

  /** IWE_STREAM_ADD_POINT: the event is added only if it fits, and otherwise the stream stays where it is. */
  function Added(buf: seq<byte>, ie: Option<nat>, header: nat, room: int): seq<nat>
    requires ie.Some? ==> Complete(buf, ie.value)
  {
    if ie.Some? && EventSize(buf, ie.value, header) < room then [ie.value] else []
  }

  function RoomAfter(buf: seq<byte>, ie: Option<nat>, header: nat, room: int): int
    requires ie.Some? ==> Complete(buf, ie.value)
  {
    if ie.Some? && EventSize(buf, ie.value, header) < room then room - EventSize(buf, ie.value, header) else room
  }

  /** What these events take together. */
  function TotalSize(buf: seq<byte>, events: seq<nat>, header: nat): nat
    requires forall i :: 0 <= i < |events| ==> Complete(buf, events[i])
  {
    if |events| == 0 then 0
    else
      var last := events[|events| - 1];
      assert Complete(buf, last);
      TotalSize(buf, events[..|events| - 1], header) + header + 2 + buf[last + 1]
  }

  lemma AddedFits(buf: seq<byte>, events: seq<nat>, ie: Option<nat>, header: nat, room: int, whole: int)
    requires forall i :: 0 <= i < |events| ==> Complete(buf, events[i])
    requires (ie.Some? ==> Complete(buf, ie.value)) && TotalSize(buf, events, header) + room == whole && room > 0
    ensures var added, left := events + Added(buf, ie, header, room), RoomAfter(buf, ie, header, room);
      && (forall i :: 0 <= i < |added| ==> Complete(buf, added[i]))
      && left > 0 && TotalSize(buf, added, header) + left == whole
  {
    var added := events + Added(buf, ie, header, room);
    if |added| > |events| {
      assert added[..|added| - 1] == events;
    } else {
      assert added == events;
    }
  }

  method StreamAdd(buf: seq<byte>, ie: Option<nat>, header: nat, room: int) returns (added: seq<nat>, left: int)
    requires ie.Some? ==> Complete(buf, ie.value)
    ensures added == Added(buf, ie, header, room) && left == RoomAfter(buf, ie, header, room)
    ensures ie.Some? ==> (added == [ie.value] <==> header + 2 + buf[ie.value + 1] < room)
    ensures ie.None? ==> added == []
  {
    added, left := [], room;
    if ie.Some? {
      var size := header + 2 + buf[ie.value + 1];
      if size < room {
        added, left := [ie.value], room - size;
      }
    }
  }

  /**
  wl_iw_handle_scanresults_ies: the first RSN, the first WPS and the first WPA element, in this order,
  each if there is one and it fits into what the ones before it left; all of them if room is ample.
  */
  method HandleScanResultsIes(buf: seq<byte>, header: nat, room: int) returns (events: seq<nat>)
    ensures var rsn, wps, wpa := Rsn(buf), VendorOf(buf, 4, 4), VendorOf(buf, 6, 1);
      var room1 := RoomAfter(buf, rsn, header, room);
      var room2 := RoomAfter(buf, wps, header, room1);
      events == Added(buf, rsn, header, room) + Added(buf, wps, header, room1) + Added(buf, wpa, header, room2)
    ensures forall i :: 0 <= i < |events| ==> Complete(buf, events[i])
    ensures room > 0 ==> TotalSize(buf, events, header) < room
    ensures room > 3 * (header + 257) ==>
      events == Listed(Rsn(buf)) + Listed(VendorOf(buf, 4, 4)) + Listed(VendorOf(buf, 6, 1))
  {
    events := [];
    if |buf| > 0 {
      var rsn := ParseTlvs(buf, 0, |buf|, RSN_ID);
      assert rsn == Rsn(buf);
      var first, room1 := StreamAdd(buf, rsn, header, room);
      var wps := SearchVendor(buf, 4, 4);
      assert wps == VendorOf(buf, 4, 4);
      var second, room2 := StreamAdd(buf, wps, header, room1);
      var wpa := SearchVendor(buf, 6, 1);
      assert wpa == VendorOf(buf, 6, 1);
      var third, _ := StreamAdd(buf, wpa, header, room2);
      if room > 0 {
        AddedFits(buf, [], rsn, header, room, room);
        assert [] + first == first;
        AddedFits(buf, first, wps, header, room1, room);
        AddedFits(buf, first + second, wpa, header, room2, room);
      }
      events := first + second + third;
    }
  }
}
