/**
The connection and scan code of the driver, updating wl_cfg80211_priv in place; every method is
proved equal to its step in CfgSpec. What the firmware answers is passed in.
*/
module Cfg {
  import opened CfgSpec

  /** What cfg80211 is told: a connect result with its address, a disconnection, an ad hoc network joined. */
  datatype Report = NoReport | ConnectResult(bssid: Addr, success: bool) | Disconnected | IbssJoined(bssid: Addr)

  /** cfg80211_scan_done with the request and its aborted flag. */
  datatype ScanReport = NoScan | ScanEnded(request: seq<Request>, aborted: bool)

  function ReportOf(request: seq<Request>, aborted: bool): ScanReport {
    if request == [] then NoScan else ScanEnded(request, aborted)
  }

  class Priv {
    var mode: Mode
    var connecting: bool        // WL_STATUS_CONNECTING
    var connected: bool         // WL_STATUS_CONNECTED
    var active: bool            // profile->active
    var profileBssid: Addr
    var bssid: Addr
    var scanRequest: seq<Request>
    ghost var books: Books

    ghost function View(): State
      reads this
    {
      State(mode, connecting, connected, active, profileBssid, bssid, scanRequest, books)
    }

    /** wl_init_cfg80211_priv */
    constructor ()
      ensures Init(View()) && bssid == ZERO_ADDR
    {
      mode, connecting, connected, active := Unset, false, false, false;
      profileBssid, bssid, scanRequest := ZERO_ADDR, ZERO_ADDR, [];
      books := Books(multiset{}, multiset{}, multiset{}, multiset{}, 0, 0, 0);
    }

    /** wl_cfg80211_change_iface: the mode is set before the two ioctls and stays when one of them fails. */
    method ChangeIface(t: IfType, infraErr: bool, apErr: bool) returns (err: Error)
      modifies this
      ensures View() == Apply(old(View()), CfgSpec.ChangeIface(t))
      ensures err.NotSupported? <==> t.MonitorOrWds?
      ensures err.Invalid? <==> t.OtherIf?
      ensures err.Fail? <==> (t.Adhoc? || t.Station?) && (infraErr || apErr)
      ensures err.None? <==> (t.Adhoc? || t.Station?) && !infraErr && !apErr
    {
      match t {
        case MonitorOrWds => return NotSupported;
        case Adhoc => mode := Ibss;
        case Station => mode := Bss;
        case OtherIf => return Invalid;
      }
      if infraErr {
        return Fail;
      }
      if apErr {
        return Fail;
      }
      err := None;
    }

    /** wl_cfg80211_scan: the request is recorded first and taken back when either ioctl fails. */
    method Scan(request: seq<Request>, passiveErr: bool, scanErr: bool) returns (err: Error)
      requires |request| <= 1
      modifies this`scanRequest, this`books
      ensures View() == Scanned(old(View()), request, passiveErr || scanErr)
      ensures err.None? <==> !passiveErr && !scanErr
    {
      books := books.(overwritten := books.overwritten + multiset(scanRequest),
                      requests := books.requests + multiset(request));
      scanRequest := request;
      if passiveErr || scanErr {
        books := books.(refused := books.refused + multiset(request));
        scanRequest := [];
        return Fail;
      }
      err := None;
    }

    method Connect(ssid: bool, setupErr: bool, target: Addr, joinErr: bool) returns (err: Error)
      modifies this`profileBssid, this`connecting, this`books
      ensures View() == Apply(old(View()), CfgSpec.Connect(ssid, setupErr, target, joinErr))
      ensures err.None? <==> AcceptsConnect(CfgSpec.Connect(ssid, setupErr, target, joinErr))
    {
      if !ssid {
        return InvalidSsid;
      }
      if setupErr {
        return Fail;
      }
      profileBssid := target;
      if joinErr {
        return Fail;
      }
      books := books.(accepted := books.accepted + 1, doubled := books.doubled + if connecting then 1 else 0);
      connecting := true;
      err := None;
    }

    /** wl_cfg80211_disconnect: the device is asked only while the profile is active; nothing changes here. */
    method Disconnect(ioctlErr: bool) returns (err: Error, asked: bool)
      ensures asked == active
      ensures err == if !active then NotActive else if ioctlErr then Fail else None
    {
      if active {
        asked := true;
        err := if ioctlErr then Fail else None;
      } else {
        return NotActive, false;
      }
    }

    /** The abort and completion of a scan share this: report the request once and forget it. */
    method ReportScan(aborted: bool) returns (reported: ScanReport)
      modifies this`scanRequest, this`books
      ensures View() == ScanDone(old(View())) && reported == ReportOf(old(scanRequest), aborted)
    {
      reported := NoScan;
      if scanRequest != [] {
        reported := ScanEnded(scanRequest, aborted);
        books := books.(done := books.done + multiset(scanRequest));
        scanRequest := [];
      }
    }

    /** wl_bss_connect_done: an outstanding scan is reported as aborted, whether or not a connect was in progress. */
    method BssConnectDone(addr: Addr, completed: bool) returns (report: Report, scan: ScanReport)
      modifies this
      ensures View() == ConnectDone(old(View()), addr, completed)
      ensures report == if old(connecting) then ConnectResult(bssid, completed) else NoReport
      ensures scan == ReportOf(old(scanRequest), true)
    {
      scan := ReportScan(true);
      report := NoReport;
      if connecting {
        connecting := false;
        if completed {
          bssid := addr;
          profileBssid := addr;
          connected := true;
        }
        report := ConnectResult(bssid, completed);
        books := books.(results := books.results + 1);
      }
    }

    /**
    wl_notify_connect_status. A disconnection is reported in infrastructure mode only, a join only if the
    channel could be read, and that is the only error.
    */
    method NotifyConnectStatus(kind: Kind, linkFlag: bool, noNetworks: bool, addr: Addr, chanErr: bool)
      returns (report: Report, scan: ScanReport, err: Error)
      modifies this
      ensures View() == Notified(old(View()), kind, linkFlag, noNetworks, addr, chanErr)
      ensures report.ConnectResult? <==>
        old(mode != Ibss && connecting) && ((kind.Link? && linkFlag) || (kind.SetSsid? && noNetworks))
      ensures report.ConnectResult? ==> !connecting && report.bssid == bssid && report.success == kind.Link?
      ensures report.Disconnected? <==>
        old(mode) != Ibss && ((kind.Link? && !linkFlag) || kind.DeauthInd? || kind.DisassocInd?)
      ensures report.IbssJoined? <==> old(mode) == Ibss && (kind.Join? || kind.Start?) && !chanErr
      ensures report.IbssJoined? ==> report.bssid == addr
      ensures scan == if old(mode) != Ibss && ((kind.Link? && linkFlag) || (kind.SetSsid? && noNetworks))
        then ReportOf(old(scanRequest), true) else NoScan
      ensures err == if old(mode) == Ibss && (kind.Join? || kind.Start?) && chanErr then Fail else None
    {
      report, scan, err := NoReport, NoScan, None;
      if mode != Ibss {
        if kind == Link && linkFlag {
          report, scan := BssConnectDone(addr, true);
          active := true;
        } else if kind == Link || kind == DeauthInd || kind == DisassocInd {
          report := Disconnected;
          connected := false;
          InitProf();
        } else if kind == SetSsid && noNetworks {
          report, scan := BssConnectDone(addr, false);
        }
      } else {
        if kind == Join || kind == Start {
          bssid := addr;
          if chanErr {
            return NoReport, NoScan, Fail;
          }
          report := IbssJoined(bssid);
          connected := true;
          active := true;
        } else if kind == Link || kind == DeauthInd || kind == DisassocInd {
          connected := false;
          InitProf();
        }
      }
    }

    /** wl_init_prof: the profile is zeroed. */
    method InitProf()
      modifies this`profileBssid, this`active
      ensures profileBssid == ZERO_ADDR && !active
    {
      profileBssid := ZERO_ADDR;
      active := false;
    }

    method RoamingDone(addr: Addr, iesErr: bool, bssErr: bool) returns (roamed: bool)
      modifies this`profileBssid, this`bssid, this`connected
      ensures roamed == (!iesErr && !bssErr)
      ensures !iesErr ==> profileBssid == addr && bssid == addr
      ensures iesErr ==> profileBssid == old(profileBssid) && bssid == old(bssid)
      ensures connected == (old(connected) || roamed)
    {
      if iesErr {
        return false;
      }
      profileBssid := addr;
      bssid := addr;
      if bssErr {
        return false;
      }
      connected := true;
      roamed := true;
    }

    /** wl_notify_roaming_status: an error of the roam is returned, but only after active has been set. */
    method NotifyRoamingStatus(success: bool, addr: Addr, iesErr: bool, bssErr: bool) returns (err: Error)
      modifies this
      ensures View() == Roamed(old(View()), success, addr, iesErr, bssErr)
      ensures err == if success && (iesErr || bssErr) then Fail else None
      ensures success ==> active
    {
      err := None;
      if success {
        var roamed := RoamingDone(addr, iesErr, bssErr);
        err := if roamed then None else Fail;
        active := true;
      }
    }

    /** The tail of wl_notify_scan_status, reached on every path through it: not aborted. */
    method ScanCompleted() returns (reported: ScanReport)
      modifies this`scanRequest, this`books
      ensures View() == ScanDone(old(View())) && reported == ReportOf(old(scanRequest), false)
    {
      reported := ReportScan(false);
    }

    /** wl_cfg80211_down: aborted. */
    method InterfaceDown() returns (reported: ScanReport)
      modifies this`scanRequest, this`books
      ensures View() == ScanDone(old(View())) && reported == ReportOf(old(scanRequest), true)
    {
      reported := ReportScan(true);
    }
  }
}
