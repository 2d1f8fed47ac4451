/**
What runs of the cfg80211 machine mean, in terms of the operations alone: predicates on positions of a
run say when the interface is ad hoc, which connect is unanswered, which scan is outstanding, what
gains and what loses the association, and theorems tie the machine's state to them.
*/
module CfgRuns {
  import opened CfgSpec

  // ---------------------------------------------------------------- reading a run

  /** After n operations the interface is ad hoc: some operation made it so and none since made it a station. */
  predicate IsAdhoc(ops: seq<Op>, n: nat)
    requires n <= |ops|
  {
    exists c :: 0 <= c < n && ops[c] == ChangeIface(Adhoc) && forall j :: c < j < n ==> ops[j] != ChangeIface(Station)
  }

  predicate LinkUp(op: Op) { op.ConnectStatus? && op.kind.Link? && op.linkFlag }

  predicate NoNetworks(op: Op) { op.ConnectStatus? && op.kind.SetSsid? && op.noNetworks }

  predicate JoinOrStart(op: Op) { op.ConnectStatus? && (op.kind.Join? || op.kind.Start?) }

  /** In infrastructure mode a link-up or a failed search answers a connect. */
  predicate Answers(ops: seq<Op>, i: nat)
    requires i < |ops|
  {
    !IsAdhoc(ops, i) && (LinkUp(ops[i]) || NoNetworks(ops[i]))
  }

  /** After n operations some accepted connect has not been answered. */
  predicate Unanswered(ops: seq<Op>, n: nat)
    requires n <= |ops|
  {
    exists c :: 0 <= c < n && AcceptsConnect(ops[c]) && forall j :: c < j < n ==> !Answers(ops, j)
  }

  predicate StartsScan(op: Op) { op.Scan? && |op.request| > 0 && !op.err }

  /** Reports an outstanding scan, or replaces it. */
  predicate EndsScan(ops: seq<Op>, i: nat)
    requires i < |ops|
  {
    ops[i].ScanComplete? || ops[i].Down? || ops[i].Scan? || Answers(ops, i)
  }

  /** After n operations some started scan has been neither reported nor replaced. */
  predicate ScanOutstanding(ops: seq<Op>, n: nat)
    requires n <= |ops|
  {
    exists c :: 0 <= c < n && StartsScan(ops[c]) && forall j :: c < j < n ==> !EndsScan(ops, j)
  }

  /** Operation i gains the association: a clean roam, an ad hoc join, or a link-up that answers a connect. */
  predicate Gains(ops: seq<Op>, i: nat)
    requires i < |ops|
  {
    || (ops[i].Roam? && ops[i].success && !ops[i].iesErr && !ops[i].bssErr)
    || (IsAdhoc(ops, i) && JoinOrStart(ops[i]) && !ops[i].chanErr)
    || (!IsAdhoc(ops, i) && LinkUp(ops[i]) && Unanswered(ops, i))
  }

  /** Operation i loses it: deauthentication, disassociation, link-down, and in ad hoc mode link-up as well. */
  predicate Loses(ops: seq<Op>, i: nat)
    requires i < |ops|
  {
    && ops[i].ConnectStatus?
    && (ops[i].kind.DeauthInd? || ops[i].kind.DisassocInd?
        || (ops[i].kind.Link? && (!ops[i].linkFlag || IsAdhoc(ops, i))))
  }

  predicate Associated(ops: seq<Op>, n: nat)
    requires n <= |ops|
  {
    exists c :: 0 <= c < n && Gains(ops, c) && forall j :: c < j < n ==> !Loses(ops, j)
  }

  // ---------------------------------------------------------------- one more operation

  lemma AdhocStep(ops: seq<Op>, n: nat)
    requires n < |ops|
    ensures IsAdhoc(ops, n + 1) <==>
      ops[n] == ChangeIface(Adhoc) || (IsAdhoc(ops, n) && ops[n] != ChangeIface(Station))
  {
    if IsAdhoc(ops, n) && ops[n] != ChangeIface(Station) {
      var c :| 0 <= c < n && ops[c] == ChangeIface(Adhoc) && forall j :: c < j < n ==> ops[j] != ChangeIface(Station);
      assert forall j :: c < j < n + 1 ==> ops[j] != ChangeIface(Station);
    }
  }

  lemma UnansweredStep(ops: seq<Op>, n: nat)
    requires n < |ops|
    ensures Unanswered(ops, n + 1) <==> AcceptsConnect(ops[n]) || (Unanswered(ops, n) && !Answers(ops, n))
  {
    if Unanswered(ops, n) && !Answers(ops, n) {
      var c :| 0 <= c < n && AcceptsConnect(ops[c]) && forall j :: c < j < n ==> !Answers(ops, j);
      assert forall j :: c < j < n + 1 ==> !Answers(ops, j);
    }
  }

  lemma ScanOutstandingStep(ops: seq<Op>, n: nat)
    requires n < |ops|
    ensures ScanOutstanding(ops, n + 1) <==> StartsScan(ops[n]) || (ScanOutstanding(ops, n) && !EndsScan(ops, n))
  {
    if ScanOutstanding(ops, n) && !EndsScan(ops, n) {
      var c :| 0 <= c < n && StartsScan(ops[c]) && forall j :: c < j < n ==> !EndsScan(ops, j);
      assert forall j :: c < j < n + 1 ==> !EndsScan(ops, j);
    }
  }

  lemma AssociatedStep(ops: seq<Op>, n: nat)
    requires n < |ops|
    ensures Associated(ops, n + 1) <==> Gains(ops, n) || (Associated(ops, n) && !Loses(ops, n))
  {
    if Associated(ops, n) && !Loses(ops, n) {
      var c :| 0 <= c < n && Gains(ops, c) && forall j :: c < j < n ==> !Loses(ops, j);
      assert forall j :: c < j < n + 1 ==> !Loses(ops, j);
    }
  }

  /** The state says of mode, connecting, connected and scan request exactly what the run says. */
  predicate Reads(s: State, ops: seq<Op>, n: nat)
    requires n <= |ops|
  {
    && s.mode.Ibss? == IsAdhoc(ops, n)
    && s.connecting == Unanswered(ops, n)
    && (|s.scanRequest| > 0) == ScanOutstanding(ops, n)
    && s.connected == Associated(ops, n)
  }

  lemma StepReadsControl(s: State, ops: seq<Op>, n: nat)
    requires n < |ops| && Reads(s, ops, n)
    ensures Apply(s, ops[n]).mode.Ibss? == IsAdhoc(ops, n + 1)
    ensures Apply(s, ops[n]).connecting == Unanswered(ops, n + 1)
  {
    AdhocStep(ops, n);
    UnansweredStep(ops, n);
  }

  lemma StepReadsScan(s: State, ops: seq<Op>, n: nat)
    requires n < |ops| && Reads(s, ops, n)
    ensures (|Apply(s, ops[n]).scanRequest| > 0) == ScanOutstanding(ops, n + 1)
  {
    ScanOutstandingStep(ops, n);
  }

  lemma StepReadsConnected(s: State, ops: seq<Op>, n: nat)
    requires n < |ops| && Reads(s, ops, n)
    ensures Apply(s, ops[n]).connected == Associated(ops, n + 1)
  {
    AssociatedStep(ops, n);
  }

  lemma {:induction false} RunReads(ss: seq<State>, ops: seq<Op>, n: nat)
    requires IsRun(ss, ops) && n <= |ops|
    ensures Reads(ss[n], ops, n)
  {
    if n > 0 {
      RunReads(ss, ops, n - 1);
      assert StepAt(ss, ops, n - 1);
      StepReadsControl(ss[n - 1], ops, n - 1);
      StepReadsScan(ss[n - 1], ops, n - 1);
      StepReadsConnected(ss[n - 1], ops, n - 1);
    }
  }

  /**
  CONNECTED at any point of any run, in both modes and across mode changes: exactly if some operation
  gained the association and no later one lost it. CONNECTING: exactly if an accepted connect is unanswered.
  */
  lemma ConnectedMeansAssociated(ss: seq<State>, ops: seq<Op>, n: nat)
    requires IsRun(ss, ops) && n <= |ops|
    ensures ss[n].connected <==> Associated(ops, n)
    ensures ss[n].connecting <==> Unanswered(ops, n)
  {
    RunReads(ss, ops, n);
  }

  // ---------------------------------------------------------------- exactly-once completion

  function ConnectsAccepted(ops: seq<Op>, n: nat): nat
    requires n <= |ops|
  {
    if n == 0 then 0 else ConnectsAccepted(ops, n - 1) + if AcceptsConnect(ops[n - 1]) then 1 else 0
  }

  /** Connects accepted while an earlier one was unanswered. */
  function DoubledConnects(ops: seq<Op>, n: nat): nat
    requires n <= |ops|
  {
    if n == 0 then 0
    else DoubledConnects(ops, n - 1) + if AcceptsConnect(ops[n - 1]) && Unanswered(ops, n - 1) then 1 else 0
  }

  /** What operation i adds to the connect books. */
  predicate ConnectsBooked(ss: seq<State>, ops: seq<Op>, i: nat)
    requires i < |ops| && |ss| == |ops| + 1
  {
    var books, books' := ss[i].books, ss[i + 1].books;
    && books'.accepted == books.accepted + (if AcceptsConnect(ops[i]) then 1 else 0)
    && books'.doubled == books.doubled + (if AcceptsConnect(ops[i]) && Unanswered(ops, i) then 1 else 0)
  }

  lemma RunBooksConnects(ss: seq<State>, ops: seq<Op>, i: nat)
    requires IsRun(ss, ops) && i < |ops|
    ensures ConnectsBooked(ss, ops, i)
  {
    ConnectedMeansAssociated(ss, ops, i);
    assert StepAt(ss, ops, i);
    ConnectBooksStep(ss[i], ops[i]);
  }

  lemma {:induction false} ConnectTotals(ss: seq<State>, ops: seq<Op>, n: nat)
    requires |ss| == |ops| + 1 && ss[0].books.accepted == 0 && ss[0].books.doubled == 0
    requires n <= |ops| && forall i :: 0 <= i < |ops| ==> ConnectsBooked(ss, ops, i)
    ensures ss[n].books.accepted == ConnectsAccepted(ops, n) && ss[n].books.doubled == DoubledConnects(ops, n)
  {
    if n > 0 {
      ConnectTotals(ss, ops, n - 1);
      assert ConnectsBooked(ss, ops, n - 1);
    }
  }

  lemma ConnectBooksMatchRun(ss: seq<State>, ops: seq<Op>, n: nat)
    requires IsRun(ss, ops) && n <= |ops|
    ensures ss[n].books.accepted == ConnectsAccepted(ops, n) && ss[n].books.doubled == DoubledConnects(ops, n)
  {
    forall i | 0 <= i < |ops| ensures ConnectsBooked(ss, ops, i) {
      RunBooksConnects(ss, ops, i);
    }
    ConnectTotals(ss, ops, n);
  }

  /**
  Accepted connects match connect results, plus one if one is unanswered, exactly when no connect was
  accepted while an earlier one was unanswered.
  */
  lemma ConnectResultsExactlyOnce(ss: seq<State>, ops: seq<Op>, n: nat)
    requires IsRun(ss, ops) && AllWellFormed(ops) && n <= |ops|
    ensures ConnectsAccepted(ops, n) == ss[n].books.results + (if Unanswered(ops, n) then 1 else 0)
       <==> DoubledConnects(ops, n) == 0
  {
    RunKeepsInv(ss, ops, n);
    ConnectBooksMatchRun(ss, ops, n);
    ConnectedMeansAssociated(ss, ops, n);
  }

  /** Such a run: two connects in a row share one result, so the equation fails. */
  lemma TwoConnectsOneResult(s0: State, target: Addr) returns (ss: seq<State>, ops: seq<Op>)
    requires Init(s0)
    ensures IsRun(ss, ops) && AllWellFormed(ops) && ss[0] == s0 && |ops| == 3
    ensures ConnectsAccepted(ops, 3) == 2 && !Unanswered(ops, 3) && ss[3].books.results == 1
    ensures DoubledConnects(ops, 3) == 1
  {
    var connect, up := Connect(true, false, target, false), ConnectStatus(Link, true, false, target, false);
    ops := [connect, connect, up];
    var s1 := Apply(s0, connect);
    var s2 := Apply(s1, connect);
    ss := [s0, s1, s2, Apply(s2, up)];
    assert StepAt(ss, ops, 0) && StepAt(ss, ops, 1) && StepAt(ss, ops, 2);
    assert AcceptsConnect(ops[0]) && !Unanswered(ops, 0);
    UnansweredStep(ops, 0);
    assert Answers(ops, 2);
    UnansweredStep(ops, 2);
    assert ConnectsAccepted(ops, 1) == 1 && DoubledConnects(ops, 1) == 0;
    assert ConnectsAccepted(ops, 2) == 2 && DoubledConnects(ops, 2) == 1;
  }

  function ScansRequested(ops: seq<Op>, n: nat): multiset<Request>
    requires n <= |ops|
  {
    if n == 0 then multiset{}
    else ScansRequested(ops, n - 1) + RequestedBy(ops[n - 1])
  }

  /** Some scan was asked for while another one was outstanding. */
  predicate ScanOverwritten(ops: seq<Op>, n: nat)
    requires n <= |ops|
  {
    exists i :: 0 <= i < n && ops[i].Scan? && ScanOutstanding(ops, i)
  }

  lemma OverwrittenStep(ops: seq<Op>, n: nat)
    requires n < |ops|
    ensures ScanOverwritten(ops, n + 1) <==> ScanOverwritten(ops, n) || (ops[n].Scan? && ScanOutstanding(ops, n))
  {
  }

  function RequestedBy(op: Op): multiset<Request> { if op.Scan? then multiset(op.request) else multiset{} }

  /** What operation i adds to the scan books. */
  predicate ScansBooked(ss: seq<State>, ops: seq<Op>, i: nat)
    requires i < |ops| && |ss| == |ops| + 1
  {
    var books, books' := ss[i].books, ss[i + 1].books;
    && books'.requests == books.requests + RequestedBy(ops[i])
    && (|books'.overwritten| > 0 <==> |books.overwritten| > 0 || (ops[i].Scan? && ScanOutstanding(ops, i)))
  }

  lemma Overwriting(before: multiset<Request>, more: multiset<Request>)
    ensures |before + more| > 0 <==> |before| > 0 || |more| > 0
  {
    assert |before + more| == |before| + |more|;
  }

  lemma RunBooksScans(ss: seq<State>, ops: seq<Op>, i: nat)
    requires IsRun(ss, ops) && i < |ops|
    ensures ScansBooked(ss, ops, i)
  {
    RunReads(ss, ops, i);
    assert StepAt(ss, ops, i);
    ScanBooksStep(ss[i], ops[i]);
    Overwriting(ss[i].books.overwritten, multiset(ss[i].scanRequest));
  }

  lemma {:induction false} ScanTotals(ss: seq<State>, ops: seq<Op>, n: nat)
    requires |ss| == |ops| + 1 && ss[0].books.requests == multiset{} && |ss[0].books.overwritten| == 0
    requires n <= |ops| && forall i :: 0 <= i < |ops| ==> ScansBooked(ss, ops, i)
    ensures ss[n].books.requests == ScansRequested(ops, n)
    ensures |ss[n].books.overwritten| > 0 <==> ScanOverwritten(ops, n)
  {
    if n > 0 {
      ScanTotals(ss, ops, n - 1);
      assert ScansBooked(ss, ops, n - 1);
      OverwrittenStep(ops, n - 1);
    }
  }

  lemma ScanBooksMatchRun(ss: seq<State>, ops: seq<Op>, n: nat)
    requires IsRun(ss, ops) && n <= |ops|
    ensures ss[n].books.requests == ScansRequested(ops, n)
    ensures |ss[n].books.overwritten| > 0 <==> ScanOverwritten(ops, n)
  {
    forall i | 0 <= i < |ops| ensures ScansBooked(ss, ops, i) {
      RunBooksScans(ss, ops, i);
    }
    ScanTotals(ss, ops, n);
  }

  lemma RestIffEmpty(all: multiset<Request>, rest: multiset<Request>, extra: multiset<Request>)
    requires all == rest + extra
    ensures all == rest <==> |extra| == 0
  {
    assert |all| == |rest| + |extra|;
    if |extra| == 0 {
      assert extra == multiset{};
    }
  }

  /**
  Every scan request is completed once, refused once, or still outstanding, across scan completion,
  connect abort and interface down, exactly when no scan was asked for with another one outstanding.
  */
  lemma ScansExactlyOnce(ss: seq<State>, ops: seq<Op>, n: nat)
    requires IsRun(ss, ops) && AllWellFormed(ops) && n <= |ops|
    ensures ScansRequested(ops, n) == ss[n].books.done + ss[n].books.refused + multiset(ss[n].scanRequest)
       <==> !ScanOverwritten(ops, n)
    ensures |ss[n].scanRequest| > 0 <==> ScanOutstanding(ops, n)
  {
    RunKeepsInv(ss, ops, n);
    ScanBooksMatchRun(ss, ops, n);
    RunReads(ss, ops, n);
    var books := ss[n].books;
    var rest := books.done + books.refused + multiset(ss[n].scanRequest);
    assert books.requests == rest + books.overwritten;
    RestIffEmpty(books.requests, rest, books.overwritten);
  }

  /** Such a run: the first of two scans is never reported, so the equation fails. */
  lemma FirstOfTwoScansIsLost(s0: State, first: Request, second: Request) returns (ss: seq<State>, ops: seq<Op>)
    requires Init(s0)
    ensures IsRun(ss, ops) && AllWellFormed(ops) && ss[0] == s0 && |ops| == 3
    ensures ss[3].books.done == multiset{second} && ss[3].books.refused == multiset{} && |ss[3].scanRequest| == 0
    ensures ScansRequested(ops, 3) == multiset{first, second} && ScanOverwritten(ops, 3)
  {
    ops := [Scan([first], false), Scan([second], false), ScanComplete];
    var s1 := Apply(s0, ops[0]);
    var s2 := Apply(s1, ops[1]);
    ss := [s0, s1, s2, Apply(s2, ops[2])];
    assert StepAt(ss, ops, 0) && StepAt(ss, ops, 1) && StepAt(ss, ops, 2);
    TwoScansAsked(ops, first, second);
  }

  lemma TwoScansAsked(ops: seq<Op>, first: Request, second: Request)
    requires |ops| == 3 && ops[0] == Scan([first], false) && ops[1] == Scan([second], false) && ops[2] == ScanComplete
    ensures ScansRequested(ops, 3) == multiset{first, second} && ScanOverwritten(ops, 3)
  {
    assert StartsScan(ops[0]);
    assert ops[1].Scan? && ScanOutstanding(ops, 1);
    assert ScansRequested(ops, 1) == multiset{first};
    assert ScansRequested(ops, 2) == multiset{first, second};
  }

  // ---------------------------------------------------------------- which access point we are on

  /** Operation i takes over an address: a roam that got its elements, or a link-up that answers a connect. */
  predicate TakesOver(ops: seq<Op>, i: nat)
    requires i < |ops|
  {
    || (ops[i].Roam? && ops[i].success && !ops[i].iesErr)
    || (!IsAdhoc(ops, i) && LinkUp(ops[i]) && Unanswered(ops, i))
  }

  /** Operation i ends what was taken over: a connect that gets past its settings, a loss, an ad hoc join. */
  predicate LetsGo(ops: seq<Op>, i: nat)
    requires i < |ops|
  {
    || (ops[i].Connect? && ops[i].ssid && !ops[i].setupErr)
    || Loses(ops, i)
    || (IsAdhoc(ops, i) && JoinOrStart(ops[i]))
  }

  /** Operation i stores an address in `bssid`: one taken over, or an ad hoc network, even without its channel. */
  predicate SetsBssid(ops: seq<Op>, i: nat)
    requires i < |ops|
  {
    TakesOver(ops, i) || (IsAdhoc(ops, i) && JoinOrStart(ops[i]))
  }

  lemma StepSetsBssid(s: State, ops: seq<Op>, i: nat)
    requires i < |ops| && Reads(s, ops, i)
    ensures Apply(s, ops[i]).bssid == if SetsBssid(ops, i) then ops[i].addr else s.bssid
  {
    match ops[i] {
      case ConnectStatus(kind, _, _, _, _) =>
        match kind { case Link => case Join => case Start => case _ => }
      case Roam(_, _, _, _) =>
      case _ =>
    }
  }

  /** `bssid` is the address of the last operation that stored one, and unchanged if none did. */
  lemma {:induction false} BssidIsLastStored(ss: seq<State>, ops: seq<Op>, i: nat, n: nat)
    requires IsRun(ss, ops) && i <= n <= |ops| && forall j :: i < j < n ==> !SetsBssid(ops, j)
    ensures i < n && SetsBssid(ops, i) ==> ss[n].bssid == ops[i].addr
    ensures i < n && !SetsBssid(ops, i) ==> ss[n].bssid == ss[i].bssid
    decreases n
  {
    if i < n {
      RunReads(ss, ops, n - 1);
      assert StepAt(ss, ops, n - 1);
      StepSetsBssid(ss[n - 1], ops, n - 1);
      if i < n - 1 {
        BssidIsLastStored(ss, ops, i, n - 1);
      }
    }
  }

  /** Operation i stores an address in the profile: a target, one taken over, or zero when it is cleared. */
  predicate SetsProfile(ops: seq<Op>, i: nat)
    requires i < |ops|
  {
    TakesOver(ops, i) || Loses(ops, i) || (ops[i].Connect? && ops[i].ssid && !ops[i].setupErr)
  }

  function ProfileValue(ops: seq<Op>, i: nat): Addr
    requires i < |ops| && SetsProfile(ops, i)
  {
    if Loses(ops, i) then 0 else if ops[i].Connect? then ops[i].target else ops[i].addr
  }

  lemma StepSetsProfile(s: State, ops: seq<Op>, i: nat)
    requires i < |ops| && Reads(s, ops, i)
    ensures Apply(s, ops[i]).profileBssid == if SetsProfile(ops, i) then ProfileValue(ops, i) else s.profileBssid
  {
    match ops[i] {
      case ConnectStatus(kind, _, _, _, _) =>
        match kind { case Link => case Join => case Start => case _ => }
      case Roam(_, _, _, _) =>
      case _ =>
    }
  }

  /**
  The profile's BSSID is what the last operation that stored one left: the target of a connect, even one whose
  join failed, an address taken over, or zero after a loss.
  */
  lemma {:induction false} ProfileIsLastStored(ss: seq<State>, ops: seq<Op>, i: nat, n: nat)
    requires IsRun(ss, ops) && i <= n <= |ops| && forall j :: i < j < n ==> !SetsProfile(ops, j)
    ensures i < n && SetsProfile(ops, i) ==> ss[n].profileBssid == ProfileValue(ops, i)
    ensures i < n && !SetsProfile(ops, i) ==> ss[n].profileBssid == ss[i].profileBssid
    decreases n
  {
    if i < n {
      RunReads(ss, ops, n - 1);
      assert StepAt(ss, ops, n - 1);
      StepSetsProfile(ss[n - 1], ops, n - 1);
      if i < n - 1 {
        ProfileIsLastStored(ss, ops, i, n - 1);
      }
    }
  }

  /** From a reported success or a roam until the next one, connect or loss, both BSSIDs are its address. */
  lemma BssidsAgree(ss: seq<State>, ops: seq<Op>, i: nat, n: nat)
    requires IsRun(ss, ops) && i < n <= |ops| && TakesOver(ops, i)
    requires forall j :: i < j < n ==> !TakesOver(ops, j) && !LetsGo(ops, j)
    ensures ss[n].bssid == ops[i].addr && ss[n].profileBssid == ops[i].addr
  {
    forall j | i < j < n ensures !SetsBssid(ops, j) && !SetsProfile(ops, j) {
      assert !TakesOver(ops, j) && !LetsGo(ops, j);
    }
    BssidIsLastStored(ss, ops, i, n);
    ProfileIsLastStored(ss, ops, i, n);
  }

  // ---------------------------------------------------------------- the active profile

  /** Operation i activates the profile: a roam reported as a success, an ad hoc join, or any infrastructure link-up. */
  predicate Activates(ops: seq<Op>, i: nat)
    requires i < |ops|
  {
    || (ops[i].Roam? && ops[i].success)
    || (IsAdhoc(ops, i) && JoinOrStart(ops[i]) && !ops[i].chanErr)
    || (!IsAdhoc(ops, i) && LinkUp(ops[i]))
  }

  predicate ProfileActive(ops: seq<Op>, n: nat)
    requires n <= |ops|
  {
    exists c :: 0 <= c < n && Activates(ops, c) && forall j :: c < j < n ==> !Loses(ops, j)
  }

  lemma ProfileActiveStep(ops: seq<Op>, n: nat)
    requires n < |ops|
    ensures ProfileActive(ops, n + 1) <==> Activates(ops, n) || (ProfileActive(ops, n) && !Loses(ops, n))
  {
    if ProfileActive(ops, n) && !Loses(ops, n) {
      var c :| 0 <= c < n && Activates(ops, c) && forall j :: c < j < n ==> !Loses(ops, j);
      assert forall j :: c < j < n + 1 ==> !Loses(ops, j);
    }
  }

  lemma StepReadsActive(s: State, ops: seq<Op>, n: nat)
    requires n < |ops| && Reads(s, ops, n) && s.active == ProfileActive(ops, n)
    ensures Apply(s, ops[n]).active == ProfileActive(ops, n + 1)
  {
    ProfileActiveStep(ops, n);
  }

  /** profile->active at any point of any run: exactly if some operation activated it and no later one is a loss. */
  lemma {:induction false} ActiveMeansActivated(ss: seq<State>, ops: seq<Op>, n: nat)
    requires IsRun(ss, ops) && n <= |ops|
    ensures ss[n].active <==> ProfileActive(ops, n)
  {
    if n > 0 {
      ActiveMeansActivated(ss, ops, n - 1);
      RunReads(ss, ops, n - 1);
      assert StepAt(ss, ops, n - 1);
      StepReadsActive(ss[n - 1], ops, n - 1);
    }
  }

  // ---------------------------------------------------------------- link-up

  /**
  In every state and both modes: a link-up ends the connection exactly in ad hoc mode, where
  `~(flags & WLC_EVENT_MSG_LINK)` is taken for a test but is never zero.
  */
  lemma LinkUpDisconnectsExactlyInIbss(s: State, noNetworks: bool, addr: Addr, chanErr: bool)
    ensures var s' := Apply(s, ConnectStatus(Link, true, noNetworks, addr, chanErr));
      && (s.connected && !s'.connected <==> s.connected && s.mode.Ibss?)
      && (s'.connected <==> !s.mode.Ibss? && (s.connected || s.connecting))
  {
  }

  /** It happens: join an ad hoc network, then see its link come up. */
  lemma AdhocLinkUpRun(s0: State, addr: Addr) returns (ss: seq<State>, ops: seq<Op>)
    requires Init(s0)
    ensures IsRun(ss, ops) && ss[0] == s0 && |ops| == 3 && LinkUp(ops[2])
    ensures ss[2].connected && !ss[3].connected
  {
    var join, up := ConnectStatus(Join, false, false, addr, false), ConnectStatus(Link, true, false, addr, false);
    ops := [ChangeIface(Adhoc), join, up];
    var s1 := Apply(s0, ops[0]);
    var s2 := Apply(s1, join);
    ss := [s0, s1, s2, Apply(s2, up)];
    assert StepAt(ss, ops, 0) && StepAt(ss, ops, 1) && StepAt(ss, ops, 2);
  }
}
