/** Aggregating transport states: IceAgent::_update_state of src/ice/ice_agent.cpp and
    TransportController::_update_state of src/pc/transport_controller.cpp. */
module Aggregation {
  import opened Wrappers
  import opened IceChannel
  import Dtls = DtlsEndpoint

  // ------------------------------------------------------------ counting and order

  // The rules of the agent over its counts; None if no rule applies and the default is left standing.
  function AgentRule(count: multiset<TransportState>, total: nat): Option<TransportState> {
    if count[Failed] > 0 then Some(Failed)
    else if count[Disconnected] > 0 then Some(Disconnected)
    else if count[New] + count[Closed] == total then Some(New)
    else if count[New] + count[Checking] > 0 then Some(Checking)
    else if count[Completed] + count[Closed] == total then Some(Completed)
    else if count[Connected] + count[Completed] + count[Closed] == total then Some(Connected)
    else None
  }

  function Rank(s: TransportState): nat {
    match s
    case Closed => 0
    case Completed => 1
    case Connected => 2
    case New => 2
    case Checking => 3
    case Disconnected => 4
    case Failed => 5
  }

  /** s is no worse than t. A new transport and one that is up are incomparable: together they are checking. */
  predicate NoWorse(s: TransportState, t: TransportState) {
    s == t || s == Closed || (Rank(s) < Rank(t) && t != New)
  }

  predicate Bounds(ss: seq<TransportState>, t: TransportState) { forall i :: 0 <= i < |ss| ==> NoWorse(ss[i], t) }

  /** t is the worst of the states: the least state that none of them is worse than. */
  ghost predicate Worst(ss: seq<TransportState>, t: TransportState) {
    Bounds(ss, t) && forall u :: Bounds(ss, u) ==> NoWorse(t, u)
  }

  predicate AllClosed(ss: seq<TransportState>) { forall i :: 0 <= i < |ss| ==> ss[i] == Closed }

  /** The order is a partial order, so there is one worst state at most. */
  lemma NoWorseIsOrder(s: TransportState, t: TransportState, u: TransportState)
    ensures NoWorse(s, s)
    ensures NoWorse(s, t) && NoWorse(t, s) ==> s == t
    ensures NoWorse(s, t) && NoWorse(t, u) ==> NoWorse(s, u)
  {
  }

  lemma {:induction false} CountsAddUp(ss: seq<TransportState>)
    ensures var m := multiset(ss);
            m[New] + m[Checking] + m[Connected] + m[Completed] + m[Failed] + m[Disconnected] + m[Closed] == |ss|
  {
    if ss != [] {
      var pre := ss[..|ss| - 1];
      CountsAddUp(pre);
      assert ss == pre + [ss[|ss| - 1]];
      assert multiset(ss) == multiset(pre) + multiset{ss[|ss| - 1]};
      match ss[|ss| - 1] {
        case New | Checking | Connected | Completed | Failed | Disconnected | Closed =>
      }
    } else {
      assert multiset(ss) == multiset{};
    }
  }

  lemma Counted(ss: seq<TransportState>, i: nat)
    requires i < |ss|
    ensures multiset(ss)[ss[i]] > 0
  {
    assert ss[i] in multiset(ss);
  }

  // A state that is counted bounds every bound from below.
  lemma Lower(ss: seq<TransportState>, s: TransportState)
    ensures multiset(ss)[s] > 0 ==> forall u :: Bounds(ss, u) ==> NoWorse(s, u)
  {
    if multiset(ss)[s] > 0 {
      assert s in multiset(ss);
      var i :| 0 <= i < |ss| && ss[i] == s;
      assert forall u :: Bounds(ss, u) ==> NoWorse(ss[i], u);
    }
  }

  lemma AllLower(ss: seq<TransportState>)
    ensures forall s :: multiset(ss)[s] > 0 ==> forall u :: Bounds(ss, u) ==> NoWorse(s, u)
  {
    forall s
      ensures multiset(ss)[s] > 0 ==> forall u :: Bounds(ss, u) ==> NoWorse(s, u)
    {
      Lower(ss, s);
    }
  }

  lemma RuleBounds(ss: seq<TransportState>)
    ensures AgentRule(multiset(ss), |ss|).Some? && Bounds(ss, AgentRule(multiset(ss), |ss|).value)
  {
    CountsAddUp(ss);
    var r := AgentRule(multiset(ss), |ss|);
    forall i | 0 <= i < |ss|
      ensures NoWorse(ss[i], r.value)
    {
      Counted(ss, i);
    }
  }

  lemma RuleIsLeast(ss: seq<TransportState>, u: TransportState)
    requires !AllClosed(ss) && Bounds(ss, u)
    ensures AgentRule(multiset(ss), |ss|).Some? && NoWorse(AgentRule(multiset(ss), |ss|).value, u)
  {
    CountsAddUp(ss);
    var k :| 0 <= k < |ss| && ss[k] != Closed;
    Counted(ss, k);
    AllLower(ss);
    hide Bounds;
  }

  /** The counting rules compute the worst state (new if all transports are closed or there are none), and
      one of them always applies. */
  lemma RuleIsWorst(ss: seq<TransportState>)
    ensures var r := AgentRule(multiset(ss), |ss|);
            && r.Some?
            && (AllClosed(ss) ==> r.value == New)
            && (!AllClosed(ss) ==> Worst(ss, r.value))
  {
    CountsAddUp(ss);
    RuleBounds(ss);
    if AllClosed(ss) {
      OnlyClosed(ss);
    } else {
      forall u | Bounds(ss, u)
        ensures NoWorse(AgentRule(multiset(ss), |ss|).value, u)
      {
        RuleIsLeast(ss, u);
      }
    }
  }

  lemma {:induction false} OnlyClosed(ss: seq<TransportState>)
    requires AllClosed(ss)
    ensures multiset(ss)[Closed] == |ss|
  {
    if ss != [] {
      var pre := ss[..|ss| - 1];
      OnlyClosed(pre);
      assert ss == pre + [ss[|ss| - 1]];
    }
  }

  // ------------------------------------------------------------- peer connection

  datatype Transport = Transport(ice: TransportState, dtls: Dtls.DtlsState)
  datatype PcState = PcNew | PcConnecting | PcConnected | PcDisconnected | PcFailed | PcClosed

  function IceStates(ts: seq<Transport>): multiset<TransportState> {
    if ts == [] then multiset{} else IceStates(ts[..|ts| - 1]) + multiset{ts[|ts| - 1].ice}
  }

  function DtlsStates(ts: seq<Transport>): multiset<Dtls.DtlsState> {
    if ts == [] then multiset{} else DtlsStates(ts[..|ts| - 1]) + multiset{ts[|ts| - 1].dtls}
  }

  // The rules of the transport controller, over 2 * n parts.
  function PcRule(ice: multiset<TransportState>, dtls: multiset<Dtls.DtlsState>, n: nat): Option<PcState> {
    var connected := ice[Connected] + dtls[Dtls.Connected];
    var failed := ice[Failed] + dtls[Dtls.Failed];
    var closed := ice[Closed] + dtls[Dtls.Closed];
    var brandNew := ice[New] + dtls[Dtls.New];
    if failed > 0 then Some(PcFailed)
    else if ice[Disconnected] > 0 then Some(PcDisconnected)
    else if brandNew + closed == 2 * n then Some(PcNew)
    else if ice[Checking] + dtls[Dtls.Connecting] + brandNew > 0 then Some(PcConnecting)
    else if connected + ice[Completed] + closed == 2 * n then Some(PcConnected)
    else None
  }

  // The two parts of a transport, on the scale of the ICE states.
  function IcePart(s: TransportState): TransportState { if s == Completed then Connected else s }

  function DtlsPart(s: Dtls.DtlsState): TransportState {
    match s
    case New => New
    case Connecting => Checking
    case Connected => Connected
    case Closed => Closed
    case Failed => Failed
  }

  function Parts(ts: seq<Transport>): seq<TransportState> {
    if ts == [] then []
    else Parts(ts[..|ts| - 1]) + [IcePart(ts[|ts| - 1].ice), DtlsPart(ts[|ts| - 1].dtls)]
  }

  function PcOf(s: TransportState): PcState {
    match s
    case New => PcNew
    case Checking => PcConnecting
    case Connected => PcConnected
    case Completed => PcConnected
    case Disconnected => PcDisconnected
    case Failed => PcFailed
    case Closed => PcClosed
  }

  // How many parts on the ICE scale the counted states make.
  function FromIce(m: multiset<TransportState>, s: TransportState): nat {
    if s == Completed then 0 else if s == Connected then m[Connected] + m[Completed] else m[s]
  }

  function FromDtls(m: multiset<Dtls.DtlsState>, s: TransportState): nat {
    match s
    case New => m[Dtls.New]
    case Checking => m[Dtls.Connecting]
    case Connected => m[Dtls.Connected]
    case Closed => m[Dtls.Closed]
    case Failed => m[Dtls.Failed]
    case _ => 0
  }

  lemma FromIceSnoc(m: multiset<TransportState>, x: TransportState, s: TransportState)
    ensures FromIce(m + multiset{x}, s) == FromIce(m, s) + if IcePart(x) == s then 1 else 0
  {
  }

  lemma FromDtlsSnoc(m: multiset<Dtls.DtlsState>, x: Dtls.DtlsState, s: TransportState)
    ensures FromDtls(m + multiset{x}, s) == FromDtls(m, s) + if DtlsPart(x) == s then 1 else 0
  {
  }

  lemma TwoMore(ss: seq<TransportState>, a: TransportState, b: TransportState, s: TransportState)
    ensures multiset(ss + [a, b])[s] == multiset(ss)[s] + (if a == s then 1 else 0) + (if b == s then 1 else 0)
  {
  }

  lemma {:induction false} PartCount(ts: seq<Transport>, s: TransportState)
    ensures |Parts(ts)| == 2 * |ts|
    ensures multiset(Parts(ts))[s] == FromIce(IceStates(ts), s) + FromDtls(DtlsStates(ts), s)
  {
    if ts != [] {
      var pre, t := ts[..|ts| - 1], ts[|ts| - 1];
      PartCount(pre, s);
      FromIceSnoc(IceStates(pre), t.ice, s);
      FromDtlsSnoc(DtlsStates(pre), t.dtls, s);
      TwoMore(Parts(pre), IcePart(t.ice), DtlsPart(t.dtls), s);
      hide FromIce, FromDtls, IcePart, DtlsPart;
    }
  }

  lemma PartCounts(ts: seq<Transport>)
    ensures |Parts(ts)| == 2 * |ts|
    ensures PcRule(IceStates(ts), DtlsStates(ts), |ts|) ==
            var r := AgentRule(multiset(Parts(ts)), |Parts(ts)|);
            if r.Some? then Some(PcOf(r.value)) else None
  {
    hide Parts, IceStates, DtlsStates;
    PartCount(ts, New);
    PartCount(ts, Checking);
    PartCount(ts, Connected);
    PartCount(ts, Completed);
    PartCount(ts, Failed);
    PartCount(ts, Disconnected);
    PartCount(ts, Closed);
  }

  /** The peer connection's state is that of the worst part among all ICE and DTLS transports, and the
      default is never left standing. */
  lemma PcIsWorstPart(ts: seq<Transport>)
    ensures var r := PcRule(IceStates(ts), DtlsStates(ts), |ts|);
            && r.Some?
            && (AllClosed(Parts(ts)) ==> r.value == PcNew)
            && (!AllClosed(Parts(ts)) ==> exists w :: Worst(Parts(ts), w) && r.value == PcOf(w))
  {
    hide PcRule, AgentRule, Parts, Worst, AllClosed;
    PartCounts(ts);
    RuleIsWorst(Parts(ts));
  }

  predicate Up(t: Transport) {
    t.ice in {Connected, Completed, Closed} && t.dtls in {Dtls.Connected, Dtls.Closed}
  }

  predicate Shut(t: Transport) { t.ice == Closed && t.dtls == Dtls.Closed }

  lemma {:induction false} UpParts(ts: seq<Transport>)
    ensures (forall i :: 0 <= i < |ts| ==> Up(ts[i])) <==> Bounds(Parts(ts), Connected)
    ensures (forall i :: 0 <= i < |ts| ==> Shut(ts[i])) <==> AllClosed(Parts(ts))
  {
    if ts != [] {
      var pre, t := ts[..|ts| - 1], ts[|ts| - 1];
      UpParts(pre);
      var a, b := IcePart(t.ice), DtlsPart(t.dtls);
      EndsWith(Parts(pre), a, b);
      assert (forall i :: 0 <= i < |ts| ==> Up(ts[i])) <==> (forall i :: 0 <= i < |pre| ==> Up(pre[i])) && Up(t);
      assert (forall i :: 0 <= i < |ts| ==> Shut(ts[i])) <==> (forall i :: 0 <= i < |pre| ==> Shut(pre[i])) && Shut(t);
    }
  }

  lemma EndsWith(ss: seq<TransportState>, a: TransportState, b: TransportState)
    ensures Bounds(ss + [a, b], Connected) <==> Bounds(ss, Connected) && NoWorse(a, Connected) && NoWorse(b, Connected)
    ensures AllClosed(ss + [a, b]) <==> AllClosed(ss) && a == Closed && b == Closed
  {
    var all := ss + [a, b];
    assert all[|ss|] == a && all[|ss| + 1] == b;
    assert forall i :: 0 <= i < |ss| ==> all[i] == ss[i];
  }

  /** The peer connection is connected exactly when every ICE transport is connected, completed or closed,
      every DTLS transport is connected or closed, and not all of them are closed. */
  lemma PcConnectedExactly(ts: seq<Transport>)
    ensures PcRule(IceStates(ts), DtlsStates(ts), |ts|) == Some(PcConnected) <==>
            (forall i :: 0 <= i < |ts| ==> Up(ts[i])) && !(forall i :: 0 <= i < |ts| ==> Shut(ts[i]))
  {
    hide PcRule;
    UpParts(ts);
    PcIsWorstPart(ts);
    var ss := Parts(ts);
    if !AllClosed(ss) {
      var w :| Worst(ss, w) && PcRule(IceStates(ts), DtlsStates(ts), |ts|).value == PcOf(w);
      WeakerBound(ss, w, Connected);
      ClosedBound(ss);
      hide Bounds, AllClosed;
      assert PcOf(w) == PcConnected <==> Bounds(ss, Connected);
    }
  }

  lemma WeakerBound(ss: seq<TransportState>, s: TransportState, t: TransportState)
    ensures Bounds(ss, s) && NoWorse(s, t) ==> Bounds(ss, t)
  {
  }

  lemma ClosedBound(ss: seq<TransportState>)
    ensures Bounds(ss, Closed) ==> AllClosed(ss)
  {
  }

  // ------------------------------------------------------------------ signals

  datatype Agent = Agent(state: TransportState, signals: seq<TransportState>)

  function AgentUpdate(a: Agent, ss: seq<TransportState>): Agent {
    var rule := AgentRule(multiset(ss), |ss|);
    var next := if rule.Some? then rule.value else New;
    if next == a.state then a
    else if a.state == Checking && next == Completed then Agent(next, a.signals + [Connected, next])
    else Agent(next, a.signals + [next])
  }

  function AgentRun(updates: seq<seq<TransportState>>): Agent {
    if updates == [] then Agent(New, []) else AgentUpdate(AgentRun(updates[..|updates| - 1]), updates[|updates| - 1])
  }

  predicate MayFollow(s: TransportState, t: TransportState) { s != t && !(s == Checking && t == Completed) }

  predicate Orderly(ss: seq<TransportState>) {
    && (ss != [] ==> ss[0] != New)
    && forall i :: 0 < i < |ss| ==> MayFollow(ss[i - 1], ss[i])
  }

  lemma OrderlySnoc(ss: seq<TransportState>, t: TransportState)
    requires Orderly(ss) && MayFollow(Last(ss), t)
    ensures Orderly(ss + [t]) && Last(ss + [t]) == t
  {
  }

  /** After every run of updates: the last signal is the current state, no state is signalled twice in a row,
      and completed never directly follows checking. */
  lemma {:induction false} AgentSignals(updates: seq<seq<TransportState>>)
    ensures var a := AgentRun(updates); Orderly(a.signals) && Last(a.signals) == a.state
  {
    if updates != [] {
      var pre, ss := updates[..|updates| - 1], updates[|updates| - 1];
      AgentSignals(pre);
      var a := AgentRun(pre);
      var b := AgentUpdate(a, ss);
      hide Orderly, AgentRule;
      if b.state != a.state {
        if a.state == Checking && b.state == Completed {
          OrderlySnoc(a.signals, Connected);
          OrderlySnoc(a.signals + [Connected], Completed);
          assert b.signals == a.signals + [Connected] + [Completed];
        } else {
          OrderlySnoc(a.signals, b.state);
        }
      }
    }
  }

  /** And the state after every update is the worst of the channels' states. */
  lemma AgentStateIsWorst(a: Agent, ss: seq<TransportState>)
    ensures !AllClosed(ss) ==> Worst(ss, AgentUpdate(a, ss).state)
    ensures AllClosed(ss) ==> AgentUpdate(a, ss).state == New
  {
    RuleIsWorst(ss);
    hide AgentRule, Worst, AllClosed;
  }

  // ------------------------------------------------------------------ the objects

  class IceAgent {
    var state: TransportState
    var signals: seq<TransportState>

    function View(): Agent
      reads this
    {
      Agent(state, signals)
    }

    constructor ()
      ensures View() == AgentRun([])
    {
      state, signals := New, [];
    }

    static method CountStates(channels: seq<TransportState>) returns (count: map<TransportState, nat>)
      ensures forall s :: (if s in count then count[s] else 0) == multiset(channels)[s]
    {
      count := map[];
      for i := 0 to |channels|
        invariant forall s :: (if s in count then count[s] else 0) == multiset(channels[..i])[s]
      {
        var s := channels[i];
        count := count[s := (if s in count then count[s] else 0) + 1];
        assert channels[..i + 1] == channels[..i] + [s];
      }
      assert channels[..|channels|] == channels;
    }

    static function At(count: map<TransportState, nat>, s: TransportState): nat {
      if s in count then count[s] else 0
    }

    /** Recomputes the state from those of the channels: it becomes the worst of them. */
    method UpdateState(channels: seq<TransportState>)
      modifies this
      ensures View() == AgentUpdate(old(View()), channels)
      ensures !AllClosed(channels) ==> Worst(channels, state)
    {
      RuleIsWorst(channels);
      var next := New;
      var count := CountStates(channels);
      if At(count, Failed) > 0 {
        next := Failed;
      } else if At(count, Disconnected) > 0 {
        next := Disconnected;
      } else if At(count, New) + At(count, Closed) == |channels| {
        next := New;
      } else if At(count, New) + At(count, Checking) > 0 {
        next := Checking;
      } else if At(count, Completed) + At(count, Closed) == |channels| {
        next := Completed;
      } else if At(count, Connected) + At(count, Completed) + At(count, Closed) == |channels| {
        next := Connected;
      }
      if state != next {
        if state == Checking && next == Completed {
          signals := signals + [Connected];
        }
        state := next;
        signals := signals + [state];
      }
    }
  }

  class TransportController {
    var state: PcState
    var signals: seq<PcState>

    constructor ()
      ensures state == PcNew && signals == []
    {
      state, signals := PcNew, [];
    }

    static method CountStates(transports: seq<Transport>)
      returns (ice: multiset<TransportState>, dtls: multiset<Dtls.DtlsState>)
      ensures ice == IceStates(transports) && dtls == DtlsStates(transports)
    {
      ice, dtls := multiset{}, multiset{};
      for i := 0 to |transports|
        invariant ice == IceStates(transports[..i]) && dtls == DtlsStates(transports[..i])
      {
        ice := ice + multiset{transports[i].ice};
        dtls := dtls + multiset{transports[i].dtls};
        assert transports[..i + 1][..i] == transports[..i];
      }
      assert transports[..|transports|] == transports;
    }

    /** Recomputes the state of the peer connection and signals it if it changed. */
    method UpdateState(transports: seq<Transport>)
      modifies this
      ensures PcRule(IceStates(transports), DtlsStates(transports), |transports|) == Some(state)
      ensures signals == old(signals) + if state == old(state) then [] else [state]
    {
      hide IceStates, DtlsStates;
      PcIsWorstPart(transports);
      var ice, dtls := CountStates(transports);
      var total := 2 * |transports|;
      var next := PcNew;
      if ice[Failed] + dtls[Dtls.Failed] > 0 {
        next := PcFailed;
      } else if ice[Disconnected] > 0 {
        next := PcDisconnected;
      } else if ice[New] + dtls[Dtls.New] + ice[Closed] + dtls[Dtls.Closed] == total {
        next := PcNew;
      } else if ice[Checking] + dtls[Dtls.Connecting] + ice[New] + dtls[Dtls.New] > 0 {
        next := PcConnecting;
      } else if ice[Connected] + dtls[Dtls.Connected] + ice[Completed] + ice[Closed] + dtls[Dtls.Closed] == total {
        next := PcConnected;
      }
      if state != next {
        state := next;
        signals := signals + [next];
      }
    }
  }
}
