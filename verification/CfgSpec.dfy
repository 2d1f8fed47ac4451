/**
The cfg80211 connection and scan machine. Each cfg80211 operation and each event handler is one
step. Results the hardware decides (ioctl errors, addresses in events) come with the step.
*/
module CfgSpec {

  type Addr = int        // an Ethernet address; ZERO_ADDR is the all-zero one
  const ZERO_ADDR: Addr := 0

  type Request = nat     // identity of a cfg80211 scan request

  datatype Mode = Unset | Bss | Ibss

  /** Monitor and WDS interfaces are refused with another error than the remaining types. */
  datatype IfType = Adhoc | Station | MonitorOrWds | OtherIf

  /** The events that wl_notify_connect_status tells apart. */
  datatype Kind = Link | DeauthInd | DisassocInd | SetSsid | Join | Start | OtherKind

  datatype Error = None | Fail | InvalidSsid | NotActive | NotSupported | Invalid

  /**
  Scan requests made, those reported done, those whose start failed, those overwritten by another
  scan; connects accepted, connect results reported, connects accepted while another was in progress.
  */
  datatype Books = Books(
    requests: multiset<Request>, done: multiset<Request>, refused: multiset<Request>, overwritten: multiset<Request>,
    accepted: nat, results: nat, doubled: nat)

  /** The fields of wl_cfg80211_priv that matter here, and the books. */
  datatype State = State(
    mode: Mode, connecting: bool, connected: bool, active: bool,
    profileBssid: Addr, bssid: Addr, scanRequest: seq<Request>, books: Books)

  predicate Init(s: State) {
    && s.mode.Unset? && !s.connecting && !s.connected && !s.active
    && s.profileBssid == ZERO_ADDR && |s.scanRequest| == 0
    && s.books.requests == multiset{} && s.books.done == multiset{}
    && s.books.refused == multiset{} && s.books.overwritten == multiset{}
    && s.books.accepted == 0 && s.books.results == 0 && s.books.doubled == 0
  }

  datatype Op =
    | ChangeIface(t: IfType)
    | Scan(request: seq<Request>, err: bool)                        // at most one request: the pointer may be null
    | Connect(ssid: bool, setupErr: bool, target: Addr, joinErr: bool)
    | Disconnect(err: bool)
    | ConnectStatus(kind: Kind, linkFlag: bool, noNetworks: bool, addr: Addr, chanErr: bool)
    | Roam(success: bool, addr: Addr, iesErr: bool, bssErr: bool)
    | ScanComplete
    | Down

  predicate WellFormed(op: Op) { op.Scan? ==> |op.request| <= 1 }

  /** cfg80211_scan_done on the outstanding request, if any. */
  function ScanDone(s: State): State {
    s.(books := s.books.(done := s.books.done + multiset(s.scanRequest)), scanRequest := [])
  }

  /** wl_bss_connect_done */
  function ConnectDone(s: State, addr: Addr, completed: bool): State {
    var s1 := ScanDone(s);
    if !s1.connecting then s1
    else
      var s2 := s1.(connecting := false, books := s1.books.(results := s1.books.results + 1));
      if completed then s2.(bssid := addr, profileBssid := addr, connected := true) else s2
  }

  /** Link loss: CONNECTED cleared and the whole profile zeroed. */
  function LinkLoss(s: State): State {
    s.(connected := false, profileBssid := ZERO_ADDR, active := false)
  }

  /** wl_notify_connect_status; in IBSS mode the link flag is not looked at. */
  function Notified(s: State, kind: Kind, linkFlag: bool, noNetworks: bool, addr: Addr, chanErr: bool): State {
    if !s.mode.Ibss? then
      if kind.Link? && linkFlag then ConnectDone(s, addr, true).(active := true)
      else if kind.Link? || kind.DeauthInd? || kind.DisassocInd? then LinkLoss(s)
      else if kind.SetSsid? && noNetworks then ConnectDone(s, addr, false)
      else s
    else
      if kind.Join? || kind.Start? then
        if chanErr then s.(bssid := addr) else s.(bssid := addr, connected := true, active := true)
      else if kind.Link? || kind.DeauthInd? || kind.DisassocInd? then LinkLoss(s)
      else s
  }

  /** wl_notify_roaming_status with wl_bss_roaming_done: `active` is set even when the latter fails. */
  function Roamed(s: State, success: bool, addr: Addr, iesErr: bool, bssErr: bool): State {
    if !success then s
    else if iesErr then s.(active := true)
    else if bssErr then s.(profileBssid := addr, bssid := addr, active := true)
    else s.(profileBssid := addr, bssid := addr, connected := true, active := true)
  }

  function Scanned(s: State, request: seq<Request>, err: bool): State {
    var books := s.books.(overwritten := s.books.overwritten + multiset(s.scanRequest),
                          requests := s.books.requests + multiset(request));
    if err then s.(scanRequest := [], books := books.(refused := books.refused + multiset(request)))
    else s.(scanRequest := request, books := books)
  }

  function Connecting(s: State, target: Addr, joinErr: bool): State {
    var s1 := s.(profileBssid := target);
    if joinErr then s1
    else s1.(connecting := true,
             books := s.books.(accepted := s.books.accepted + 1,
                               doubled := s.books.doubled + if s.connecting then 1 else 0))
  }

  function Apply(s: State, op: Op): State {
    match op
    case ChangeIface(t) => (match t case Adhoc => s.(mode := Ibss) case Station => s.(mode := Bss) case _ => s)
    case Scan(request, err) => Scanned(s, request, err)
    case Connect(ssid, setupErr, target, joinErr) => if !ssid || setupErr then s else Connecting(s, target, joinErr)
    case Disconnect(_) => s
    case ConnectStatus(kind, linkFlag, noNetworks, addr, chanErr) =>
      Notified(s, kind, linkFlag, noNetworks, addr, chanErr)
    case Roam(success, addr, iesErr, bssErr) => Roamed(s, success, addr, iesErr, bssErr)
    case ScanComplete => ScanDone(s)
    case Down => ScanDone(s)
  }

  predicate StepAt(ss: seq<State>, ops: seq<Op>, i: nat)
    requires i < |ops| && |ss| == |ops| + 1
  {
    ss[i + 1] == Apply(ss[i], ops[i])
  }

  /** ss are the states a driver goes through that starts fresh and performs these operations. */
  predicate IsRun(ss: seq<State>, ops: seq<Op>) {
    |ss| == |ops| + 1 && Init(ss[0]) && forall i :: 0 <= i < |ops| ==> StepAt(ss, ops, i)
  }

  predicate AllWellFormed(ops: seq<Op>) { forall i :: 0 <= i < |ops| ==> WellFormed(ops[i]) }

  predicate Inv(s: State) {
    && |s.scanRequest| <= 1
    && (s.connected ==> s.active)
    && s.books.requests == s.books.done + s.books.refused + s.books.overwritten + multiset(s.scanRequest)
    && s.books.accepted == s.books.results + s.books.doubled + (if s.connecting then 1 else 0)
  }

  lemma ScanDoneKeepsInv(s: State)
    requires Inv(s)
    ensures Inv(ScanDone(s)) && ScanDone(s).active == s.active
  {
  }

  lemma ConnectDoneKeepsInv(s: State, addr: Addr, completed: bool)
    requires Inv(s)
    ensures Inv(ConnectDone(s, addr, completed).(active := true))
    ensures !completed ==> Inv(ConnectDone(s, addr, completed))
  {
    ScanDoneKeepsInv(s);
  }

  lemma NotifiedKeepsInv(s: State, kind: Kind, linkFlag: bool, noNetworks: bool, addr: Addr, chanErr: bool)
    requires Inv(s)
    ensures Inv(Notified(s, kind, linkFlag, noNetworks, addr, chanErr))
  {
    if !s.mode.Ibss? {
      if kind.Link? && linkFlag {
        ConnectDoneKeepsInv(s, addr, true);
      } else if kind.SetSsid? && noNetworks {
        ConnectDoneKeepsInv(s, addr, false);
      }
    }
  }

  lemma ScannedKeepsInv(s: State, request: seq<Request>, err: bool)
    requires Inv(s) && |request| <= 1
    ensures Inv(Scanned(s, request, err))
  {
  }

  lemma ConnectingKeepsInv(s: State, target: Addr, joinErr: bool)
    requires Inv(s)
    ensures Inv(Connecting(s, target, joinErr))
  {
  }

  lemma StepKeepsInv(s: State, op: Op)
    requires Inv(s) && WellFormed(op)
    ensures Inv(Apply(s, op))
  {
    match op {
      case Scan(request, err) => ScannedKeepsInv(s, request, err);
      case Connect(_, _, target, joinErr) => ConnectingKeepsInv(s, target, joinErr);
      case ConnectStatus(kind, linkFlag, noNetworks, addr, chanErr) =>
        NotifiedKeepsInv(s, kind, linkFlag, noNetworks, addr, chanErr);
      case Roam(_, _, _, _) =>
      case _ => ScanDoneKeepsInv(s);
    }
  }

  lemma InitHasInv(s: State)
    requires Init(s)
    ensures Inv(s)
  {
  }

  lemma {:induction false} RunKeepsInv(ss: seq<State>, ops: seq<Op>, n: nat)
    requires IsRun(ss, ops) && AllWellFormed(ops) && n <= |ops|
    ensures Inv(ss[n])
  {
    if n == 0 {
      InitHasInv(ss[0]);
    } else {
      RunKeepsInv(ss, ops, n - 1);
      assert StepAt(ss, ops, n - 1);
      StepKeepsInv(ss[n - 1], ops[n - 1]);
    }
  }

  /** At every event boundary, in both modes: CONNECTED implies profile->active. */
  lemma ConnectedIsActive(ss: seq<State>, ops: seq<Op>, n: nat)
    requires IsRun(ss, ops) && AllWellFormed(ops) && n <= |ops|
    ensures ss[n].connected ==> ss[n].active
  {
    RunKeepsInv(ss, ops, n);
  }

  // ---------------------------------------------------------------- what one step does to the books

  predicate AcceptsConnect(op: Op) { op.Connect? && op.ssid && !op.setupErr && !op.joinErr }

  /** An event never touches the connect books or the request books. */
  lemma NotifiedFrame(s: State, kind: Kind, linkFlag: bool, noNetworks: bool, addr: Addr, chanErr: bool)
    ensures var books := Notified(s, kind, linkFlag, noNetworks, addr, chanErr).books;
      && books.accepted == s.books.accepted && books.doubled == s.books.doubled
      && books.requests == s.books.requests && books.overwritten == s.books.overwritten
  {
  }

  lemma ConnectBooksStep(s: State, op: Op)
    ensures Apply(s, op).books.accepted == s.books.accepted + if AcceptsConnect(op) then 1 else 0
    ensures Apply(s, op).books.doubled == s.books.doubled + if AcceptsConnect(op) && s.connecting then 1 else 0
  {
    if op.ConnectStatus? {
      NotifiedFrame(s, op.kind, op.linkFlag, op.noNetworks, op.addr, op.chanErr);
    }
  }

  lemma ScanBooksStep(s: State, op: Op)
    ensures Apply(s, op).books.requests == s.books.requests + if op.Scan? then multiset(op.request) else multiset{}
    ensures Apply(s, op).books.overwritten ==
      s.books.overwritten + if op.Scan? then multiset(s.scanRequest) else multiset{}
  {
    if op.ConnectStatus? {
      NotifiedFrame(s, op.kind, op.linkFlag, op.noNetworks, op.addr, op.chanErr);
    }
  }
}
