/** The ping scheduler: the two-set round robin and the two-level rate limit of
    src/ice/ice_controller.cpp, driven by the timer of src/ice/ice_transport_channel.cpp,
    as a transition system over every run. Ties are left open, so the results hold for
    any iteration order of the two sets. */
module IceScheduler {
  import opened Wrappers
  import opened IceSelection

  const WEAK_PING_INTERVAL := 48
  const STRONG_PING_INTERVAL := 480
  const STABLING_PING_INTERVAL := 900
  const STABLE_PING_INTERVAL := 2500
  const MIN_PINGS := 3
  const RTT_RATIO := 3
  const PING_INTERVAL_DIFF := 5

  datatype Ctl = Ctl(connections: seq<Id>, pinged: set<Id>, unpinged: set<Id>, selected: Option<Id>)

  // lastPing is the channel's _last_ping_sent_ms; clock is the latest time seen.
  datatype Sys = Sys(conns: Conns, ctl: Ctl, lastPing: int, clock: int)

  // ------------------------------------------------------------------ queries

  predicate Stable(c: Conn, now: int) {
    c.rttSamples > RTT_RATIO + 1 && !(c.pings != [] && now - c.pings[0] > 2 * c.rtt)
  }

  function PingInterval(c: Conn, now: int): int {
    if c.numPings < MIN_PINGS then WEAK_PING_INTERVAL
    else if !Stable(c, now) then STABLING_PING_INTERVAL
    else STABLE_PING_INTERVAL
  }

  predicate PastInterval(c: Conn, now: int) { now >= c.lastPingSent + PingInterval(c, now) }

  predicate WeakChannel(cs: Conns, selected: Option<Id>) {
    selected.Some? && selected.value in cs ==> !(Writable(cs[selected.value]) && cs[selected.value].receiving)
  }

  predicate Pingable(cs: Conns, selected: Option<Id>, id: Id, now: int) {
    id in cs && cs[id].credentialed && (WeakChannel(cs, selected) || PastInterval(cs[id], now))
  }

  predicate SelectedDue(cs: Conns, selected: Option<Id>, now: int) {
    selected.Some? && selected.value in cs && Writable(cs[selected.value]) && PastInterval(cs[selected.value], now)
  }

  // ------------------------------------------------------------ one selection

  // Nobody left in this round: everything pinged goes back to the unpinged set.
  function Refill(cs: Conns, ctl: Ctl, now: int): Ctl {
    if exists id :: id in ctl.unpinged && Pingable(cs, ctl.selected, id, now) then ctl
    else ctl.(unpinged := ctl.unpinged + ctl.pinged, pinged := {})
  }

  predicate LeastPingable(cs: Conns, selected: Option<Id>, among: set<Id>, now: int, id: Id) {
    && id in among && Pingable(cs, selected, id, now)
    && forall o :: o in among && Pingable(cs, selected, o, now) ==> cs[id].lastPingSent <= cs[o].lastPingSent
  }

  /** _find_next_pingable_connection: the pick and the controller it leaves. */
  predicate Find(cs: Conns, ctl: Ctl, now: int, pick: Option<Id>, after: Ctl) {
    if SelectedDue(cs, ctl.selected, now) then pick == ctl.selected && after == ctl
    else
      && after == Refill(cs, ctl, now)
      && match pick
         case None => forall id :: id in after.unpinged ==> !Pingable(cs, ctl.selected, id, now)
         case Some(id) => LeastPingable(cs, ctl.selected, after.unpinged, now, id)
  }

  predicate NeedsFastPings(cs: Conns, ctl: Ctl) {
    WeakChannel(cs, ctl.selected) || exists id :: id in ctl.connections && id in cs && cs[id].numPings < MIN_PINGS
  }

  function ChannelInterval(cs: Conns, ctl: Ctl): int {
    if NeedsFastPings(cs, ctl) then WEAK_PING_INTERVAL else STRONG_PING_INTERVAL
  }

  /** select_connection_to_ping(lastPingSent). */
  predicate Select(cs: Conns, ctl: Ctl, lastPingSent: int, now: int, pick: Option<Id>, after: Ctl) {
    if now >= lastPingSent + ChannelInterval(cs, ctl) then Find(cs, ctl, now, pick, after)
    else pick == None && after == ctl
  }

  function MarkPinged(ctl: Ctl, id: Id): Ctl {
    if id in ctl.pinged then ctl else ctl.(pinged := ctl.pinged + {id}, unpinged := ctl.unpinged - {id})
  }

  function Pinged(c: Conn, sent: int): Conn {
    c.(lastPingSent := sent, numPings := c.numPings + 1, pings := c.pings + [sent])
  }

  // -------------------------------------------------------------------- steps

  datatype Event =
    | Add(id: Id, c: Conn)
    | Destroy(id: Id)
    | Change(conns: Conns)                  // responses, requests, time-outs, credentials
    | Switch(order: seq<Id>, to: Option<Id>) // sort_and_switch_connection
    | Tick(now: int, sent: int, pick: Option<Id>, stale: Conn)

  function Remove(ids: seq<Id>, id: Id): seq<Id> {
    if ids == [] then [] else if ids[0] == id then ids[1..] else [ids[0]] + Remove(ids[1..], id)
  }

  // Pinging is the scheduler's own business; nothing else sets the ping fields.
  predicate SamePings(before: Conns, after: Conns) {
    && before.Keys == after.Keys
    && forall id :: id in before ==>
       after[id].lastPingSent == before[id].lastPingSent && after[id].numPings == before[id].numPings
  }

  ghost predicate Step(s: Sys, e: Event, t: Sys) {
    match e
    case Add(id, c) =>
      && id !in s.conns && c.lastPingSent == 0 && c.numPings == 0
      && t == s.(conns := s.conns[id := c],
                 ctl := s.ctl.(connections := s.ctl.connections + [id], unpinged := s.ctl.unpinged + {id}))
    case Destroy(id) =>   // the controller's own reference is not cleared
      && id in s.conns
      && t == s.(conns := s.conns - {id},
                 ctl := s.ctl.(connections := Remove(s.ctl.connections, id),
                               pinged := s.ctl.pinged - {id}, unpinged := s.ctl.unpinged - {id}))
    case Change(cs) => SamePings(s.conns, cs) && t == s.(conns := cs)
    case Switch(order, to) =>
      && multiset(order) == multiset(s.ctl.connections) && (to.Some? ==> to.value in s.conns)
      && t == s.(ctl := s.ctl.(connections := order, selected := if to.Some? then to else s.ctl.selected))
    case Tick(_, _, _, _) => exists after :: TickStep(s, e, after, t)
  }

  // The controller's selected connection has not been destroyed.
  predicate Readable(s: Sys) { s.ctl.selected.Some? ==> s.ctl.selected.value in s.conns }

  // What a check reads: through a reference that is stale, the memory of a destroyed connection, which may hold
  // anything.
  function Memory(s: Sys, stale: Conn): Conns {
    if Readable(s) then s.conns else s.conns[s.ctl.selected.value := stale]
  }

  /** _on_check_and_ping: select, ping, mark. A destroyed connection that is picked is pinged and marked like any
      other. */
  predicate TickStep(s: Sys, e: Event, after: Ctl, t: Sys)
    requires e.Tick?
  {
    && s.clock <= e.now <= e.sent
    && Select(Memory(s, e.stale), s.ctl, s.lastPing - PING_INTERVAL_DIFF, e.now, e.pick, after)
    && t == if e.pick.None? then s.(ctl := after, clock := e.now)
            else if e.pick.value in s.conns then PingSent(s, e.sent, e.pick.value, after)
            else Sys(s.conns, MarkPinged(after, e.pick.value), e.sent, e.sent)
  }

  predicate GateOpen(s: Sys, e: Event)
    requires e.Tick?
  {
    e.now >= s.lastPing - PING_INTERVAL_DIFF + ChannelInterval(Memory(s, e.stale), s.ctl)
  }

  // The check comes through, its reference is stale, and what it reads there is a writable connection that is due.
  predicate ReadsAsDue(s: Sys, e: Event) {
    e.Tick? && !Readable(s) && GateOpen(s, e) && Writable(e.stale) && PastInterval(e.stale, e.now)
  }

  function PingSent(s: Sys, sent: int, id: Id, after: Ctl): Sys
    requires id in s.conns
  {
    Sys(s.conns[id := Pinged(s.conns[id], sent)], MarkPinged(after, id), sent, sent)
  }

  function Init(): Sys { Sys(map[], Ctl([], {}, {}, None), 0, 0) }

  // ---------------------------------------------------------------- invariant

  ghost predicate OldestFirst(cs: Conns, ctl: Ctl) {
    forall u, p :: u in ctl.unpinged && p in ctl.pinged && u in cs && p in cs ==>
        cs[u].lastPingSent <= cs[p].lastPingSent
  }

  ghost predicate Partition(cs: Conns, ctl: Ctl) {
    && ctl.pinged !! ctl.unpinged && ctl.pinged + ctl.unpinged == cs.Keys
  }

  ghost predicate Inv(s: Sys) {
    && Partition(s.conns, s.ctl) && OldestFirst(s.conns, s.ctl)
    && multiset(s.ctl.connections) == multiset(s.conns.Keys)
    && 0 <= s.lastPing <= s.clock
    && forall id :: id in s.conns ==> 0 <= s.conns[id].lastPingSent <= s.lastPing
  }

  lemma {:induction false} RemoveOne(ids: seq<Id>, id: Id)
    ensures multiset(Remove(ids, id)) == multiset(ids) - multiset{id}
  {
    if ids != [] {
      assert ids == [ids[0]] + ids[1..];
      if ids[0] != id {
        RemoveOne(ids[1..], id);
      }
    }
  }

  lemma AddKeepsOrder(cs: Conns, ctl: Ctl, id: Id, c: Conn, after: Ctl)
    requires Partition(cs, ctl) && OldestFirst(cs, ctl) && id !in cs && c.lastPingSent == 0
    requires forall o :: o in cs ==> 0 <= cs[o].lastPingSent
    requires after.pinged == ctl.pinged && after.unpinged == ctl.unpinged + {id}
    ensures cs[id := c].Keys == cs.Keys + {id}
    ensures Partition(cs[id := c], after) && OldestFirst(cs[id := c], after)
  {
    assert cs[id := c].Keys == cs.Keys + {id};
  }

  lemma WithOneMore(ids: set<Id>, id: Id)
    requires id !in ids
    ensures multiset(ids + {id}) == multiset(ids) + multiset{id}
  {
  }

  lemma AddKeepsInv(s: Sys, e: Event, t: Sys)
    requires Inv(s) && e.Add? && Step(s, e, t)
    ensures Inv(t)
  {
    AddKeepsOrder(s.conns, s.ctl, e.id, e.c, t.ctl);
    WithOneMore(s.conns.Keys, e.id);
    hide OldestFirst, Partition;
  }

  lemma DestroyKeepsOrder(cs: Conns, ctl: Ctl, id: Id, after: Ctl)
    requires Partition(cs, ctl) && OldestFirst(cs, ctl) && id in cs
    requires after.pinged == ctl.pinged - {id} && after.unpinged == ctl.unpinged - {id}
    ensures (cs - {id}).Keys == cs.Keys - {id}
    ensures Partition(cs - {id}, after) && OldestFirst(cs - {id}, after)
  {
  }

  lemma WithoutOne(ids: set<Id>, id: Id)
    requires id in ids
    ensures multiset(ids) - multiset{id} == multiset(ids - {id})
  {
  }

  lemma DestroyKeepsInv(s: Sys, e: Event, t: Sys)
    requires Inv(s) && e.Destroy? && Step(s, e, t)
    ensures Inv(t)
  {
    RemoveOne(s.ctl.connections, e.id);
    DestroyKeepsOrder(s.conns, s.ctl, e.id, t.ctl);
    WithoutOne(s.conns.Keys, e.id);
    hide OldestFirst, Partition, Remove;
  }

  // Memory holds every registered connection.
  predicate Holds(mem: Conns, cs: Conns) { cs.Keys <= mem.Keys && forall id :: id in cs ==> mem[id] == cs[id] }

  lemma MemoryHolds(s: Sys, stale: Conn)
    ensures Holds(Memory(s, stale), s.conns)
  {
  }

  lemma FindKeepsOrder(mem: Conns, cs: Conns, ctl: Ctl, now: int, pick: Option<Id>, after: Ctl)
    requires Partition(cs, ctl) && OldestFirst(cs, ctl)
    requires Find(mem, ctl, now, pick, after)
    ensures Partition(cs, after) && OldestFirst(cs, after)
    ensures after.connections == ctl.connections && after.selected == ctl.selected
    ensures pick.Some? && pick.value !in cs ==> SelectedDue(mem, ctl.selected, now) && pick == ctl.selected
  {
  }

  lemma PingKeepsOrder(cs: Conns, ctl: Ctl, id: Id, sent: int)
    requires Partition(cs, ctl) && OldestFirst(cs, ctl) && id in cs
    requires forall o :: o in cs ==> cs[o].lastPingSent <= sent
    ensures var cs' := cs[id := Pinged(cs[id], sent)];
      cs'.Keys == cs.Keys && Partition(cs', MarkPinged(ctl, id)) && OldestFirst(cs', MarkPinged(ctl, id))
  {
    assert cs[id := Pinged(cs[id], sent)].Keys == cs.Keys;
  }

  // A check picks a registered connection, unless it reads a destroyed one as due.
  lemma PickIsRegistered(s: Sys, e: Event, after: Ctl, t: Sys)
    requires Inv(s) && e.Tick? && TickStep(s, e, after, t) && !ReadsAsDue(s, e)
    ensures e.pick.Some? ==> e.pick.value in s.conns
    ensures Partition(s.conns, after) && OldestFirst(s.conns, after) && after.connections == s.ctl.connections
  {
    if GateOpen(s, e) {
      FindKeepsOrder(Memory(s, e.stale), s.conns, s.ctl, e.now, e.pick, after);
    }
    hide Find, Partition, OldestFirst, PastInterval, ChannelInterval;
  }

  lemma TickKeepsInv(s: Sys, e: Event, t: Sys)
    requires Inv(s) && e.Tick? && Step(s, e, t) && !ReadsAsDue(s, e)
    ensures Inv(t) && t.lastPing >= s.lastPing
    ensures e.pick.Some? ==> e.pick.value in s.conns
  {
    var after :| TickStep(s, e, after, t);
    PickIsRegistered(s, e, after, t);
    if e.pick.Some? {
      PingKeepsOrder(s.conns, after, e.pick.value, e.sent);
    }
    hide Select, Step, Partition, OldestFirst, ReadsAsDue, Memory;
  }

  /** Every step keeps the two sets a partition of the connections, and every unpinged connection at least as
      overdue as every pinged one, unless it is a check that reads a destroyed connection as due. */
  lemma StepKeepsInv(s: Sys, e: Event, t: Sys)
    requires Inv(s) && Step(s, e, t) && !ReadsAsDue(s, e)
    ensures Inv(t)
  {
    match e
    case Add(_, _) => AddKeepsInv(s, e, t);
    case Destroy(_) => DestroyKeepsInv(s, e, t);
    case Change(_) =>
    case Switch(_, _) =>
    case Tick(_, _, _, _) => TickKeepsInv(s, e, t);
  }

  /** Such a check puts the destroyed connection among the pinged ones, and the partition is lost. */
  lemma StaleCheckBreaks(s: Sys, e: Event, t: Sys)
    requires Inv(s) && Step(s, e, t) && ReadsAsDue(s, e)
    ensures e.pick == s.ctl.selected && e.pick.Some? && e.pick.value !in t.conns && e.pick.value in t.ctl.pinged
    ensures !Partition(t.conns, t.ctl)
  {
    var after :| TickStep(s, e, after, t);
    hide ChannelInterval, PastInterval, Pingable;
    assert SelectedDue(Memory(s, e.stale), s.ctl.selected, e.now);
  }

  // --------------------------------------------------------------------- runs

  ghost predicate StepAt(ss: seq<Sys>, es: seq<Event>, i: nat)
    requires i < |es| && |ss| == |es| + 1
  {
    Step(ss[i], es[i], ss[i + 1])
  }

  ghost predicate Run(ss: seq<Sys>, es: seq<Event>) {
    && |ss| == |es| + 1 && ss[0] == Init()
    && forall i :: 0 <= i < |es| ==> StepAt(ss, es, i)
  }

  // No check among the first n events reads a destroyed connection as due.
  predicate SaneUpTo(ss: seq<Sys>, es: seq<Event>, n: nat)
    requires n <= |es| < |ss|
  {
    forall k :: 0 <= k < n ==> !ReadsAsDue(ss[k], es[k])
  }

  lemma {:induction false} PrefixKeepsInv(ss: seq<Sys>, es: seq<Event>, i: nat)
    requires Run(ss, es) && i < |ss| && SaneUpTo(ss, es, i)
    ensures Inv(ss[i])
  {
    if i == 0 {
      assert multiset(ss[0].ctl.connections) == multiset(ss[0].conns.Keys);
    } else {
      PrefixKeepsInv(ss, es, i - 1);
      assert StepAt(ss, es, i - 1);
      hide Step, Inv;
      StepKeepsInv(ss[i - 1], es[i - 1], ss[i]);
    }
  }

  /** Over every run: the invariant holds throughout exactly if no check reads a destroyed connection as writable and
      due. */
  lemma RunKeepsInvExactly(ss: seq<Sys>, es: seq<Event>)
    requires Run(ss, es)
    ensures (forall i :: 0 <= i < |ss| ==> Inv(ss[i])) <==> SaneUpTo(ss, es, |es|)
  {
    hide Inv, ReadsAsDue;
    if SaneUpTo(ss, es, |es|) {
      forall i | 0 <= i < |ss|
        ensures Inv(ss[i])
      {
        PrefixKeepsInv(ss, es, i);
      }
    } else {
      var k :| 0 <= k < |es| && ReadsAsDue(ss[k], es[k]);
      assert StepAt(ss, es, k);
      if Inv(ss[k]) {
        BrokenAfter(ss[k], es[k], ss[k + 1]);
      }
    }
  }

  lemma BrokenAfter(s: Sys, e: Event, t: Sys)
    requires Inv(s) && Step(s, e, t) && ReadsAsDue(s, e)
    ensures !Inv(t)
  {
    StaleCheckBreaks(s, e, t);
    hide Step, ReadsAsDue, Partition;
  }

  ghost predicate SaneRun(ss: seq<Sys>, es: seq<Event>) { Run(ss, es) && SaneUpTo(ss, es, |es|) }

  lemma RunKeepsInv(ss: seq<Sys>, es: seq<Event>, i: nat)
    requires SaneRun(ss, es) && i < |ss|
    ensures Inv(ss[i])
  {
    PrefixKeepsInv(ss, es, i);
  }

  // -------------------------------------------------------------- oldest first

  /** The two sets refine oldest-first: when the selected connection is not due, the pick has
      waited at least as long as any connection that may be pinged, in either set; and there
      is no pick only if nothing may be pinged. */
  lemma PickIsOldest(s: Sys, e: Event, t: Sys)
    requires Inv(s) && e.Tick? && Step(s, e, t)
    requires !SelectedDue(Memory(s, e.stale), s.ctl.selected, e.now)
    ensures var mem := Memory(s, e.stale);
      && (e.pick.Some? ==>
            && e.pick.value in s.conns && Pingable(mem, s.ctl.selected, e.pick.value, e.now)
            && forall id :: id in s.conns && Pingable(mem, s.ctl.selected, id, e.now) ==>
                 s.conns[e.pick.value].lastPingSent <= s.conns[id].lastPingSent)
      && (e.pick.None? && GateOpen(s, e) ==> forall id :: id in s.conns ==> !Pingable(mem, s.ctl.selected, id, e.now))
  {
    var after :| TickStep(s, e, after, t);
    MemoryHolds(s, e.stale);
    var mem := Memory(s, e.stale);
    hide Pingable, ChannelInterval, SelectedDue, Memory;
    if GateOpen(s, e) {
      assert Find(mem, s.ctl, e.now, e.pick, after);
      forall id | id in s.conns && id !in after.unpinged
        ensures id in s.ctl.pinged && after == s.ctl
      {
      }
    }
  }

  // ------------------------------------------------------------------- pacing

  /** The channel-level gate: a ping leaves at least 43 ms after the previous one, and at least
      475 ms when the channel is strong and every connection has had its first three pings. */
  lemma PingIsPaced(s: Sys, e: Event, t: Sys)
    requires e.Tick? && Step(s, e, t) && e.pick.Some?
    ensures e.sent >= s.lastPing + 43 && t.lastPing == e.sent
    ensures !NeedsFastPings(Memory(s, e.stale), s.ctl) ==> e.sent >= s.lastPing + 475
    ensures IsUp(s) && AllSettled(s) ==> e.sent >= s.lastPing + 475
  {
    var after :| TickStep(s, e, after, t);
    hide Find;
  }

  // The selected connection works in both directions.
  predicate IsUp(s: Sys) {
    && s.ctl.selected.Some? && s.ctl.selected.value in s.conns
    && s.conns[s.ctl.selected.value].writeState == 0 && s.conns[s.ctl.selected.value].receiving
  }

  // Every connection has had its first three pings.
  predicate AllSettled(s: Sys) { forall id :: id in s.conns ==> s.conns[id].numPings >= 3 }

  // The connection has waited its own time: 48 ms for its first three pings, then 2500 ms if it is stable, that is, if
  // it has more than four RTT samples and no ping unanswered for longer than twice the RTT, and 900 ms otherwise.
  predicate HasWaited(c: Conn, now: int) {
    now - c.lastPingSent >=
      if c.numPings < 3 then 48
      else if c.rttSamples > 4 && (c.pings == [] || now - c.pings[0] <= 2 * c.rtt) then 2500
      else 900
  }

  /** The connection-level gate: in a strong channel, and for the selected connection always, a
      ping goes out only after the connection's own 48, 900 or 2500 ms interval. */
  lemma PingRespectsInterval(s: Sys, e: Event, t: Sys)
    requires Inv(s) && e.Tick? && Step(s, e, t) && e.pick.Some?
    requires var mem := Memory(s, e.stale);
      !WeakChannel(mem, s.ctl.selected) || SelectedDue(mem, s.ctl.selected, e.now)
    ensures var mem := Memory(s, e.stale); e.pick.value in mem && HasWaited(mem[e.pick.value], e.now)
  {
    var after :| TickStep(s, e, after, t);
    hide NeedsFastPings;
  }

  // A registered connection that may be pinged: it has the peer's credentials and, unless the channel is not up, has
  // waited its own time.
  predicate Waiting(s: Sys, id: Id, now: int) {
    id in s.conns && s.conns[id].credentialed && (!IsUp(s) || HasWaited(s.conns[id], now))
  }

  lemma WaitingIsPicked(s: Sys, e: Event, t: Sys, id: Id)
    requires Inv(s) && e.Tick? && Step(s, e, t) && Readable(s) && Waiting(s, id, e.now) && GateOpen(s, e)
    ensures e.pick.Some? && e.pick.value in s.conns
  {
    var after :| TickStep(s, e, after, t);
    assert Pingable(s.conns, s.ctl.selected, id, e.now);
    hide Pingable, PastInterval, WeakChannel, HasWaited, GateOpen;
    if !SelectedDue(s.conns, s.ctl.selected, e.now) {
      PickIsOldest(s, e, t);
    } else {
      SelectedIsPicked(s, e, after, t);
    }
  }

  lemma SelectedIsPicked(s: Sys, e: Event, after: Ctl, t: Sys)
    requires e.Tick? && TickStep(s, e, after, t) && Readable(s) && GateOpen(s, e)
    requires SelectedDue(s.conns, s.ctl.selected, e.now)
    ensures e.pick == s.ctl.selected
  {
    hide SelectedDue, ChannelInterval;
  }

  lemma GateOpensFast(s: Sys, e: Event)
    requires Inv(s) && e.Tick? && Readable(s) && e.now >= s.lastPing + 43 && (!IsUp(s) || !AllSettled(s))
    ensures GateOpen(s, e)
  {
    if IsUp(s) {
      var id :| id in s.conns && s.conns[id].numPings < 3;
      assert id in multiset(s.ctl.connections);
    }
  }

  /** Pings do go out: 43 ms after the last one, in a channel that is not up or has a connection without its first three
      pings, if any connection is waiting; 475 ms after it in every channel. */
  lemma WaitingIsPinged(s: Sys, e: Event, t: Sys, id: Id)
    requires Inv(s) && e.Tick? && Step(s, e, t) && Readable(s) && Waiting(s, id, e.now)
    requires e.now >= s.lastPing + (if !IsUp(s) || !AllSettled(s) then 43 else 475)
    ensures e.pick.Some? && e.pick.value in s.conns
  {
    if !IsUp(s) || !AllSettled(s) {
      GateOpensFast(s, e);
    }
    assert GateOpen(s, e);
    hide Step, GateOpen, Waiting, Inv;
    WaitingIsPicked(s, e, t, id);
  }

  /** The selected connection is kept alive first: if it is writable and has waited its time, it is the one pinged. */
  lemma SelectedIsPinged(s: Sys, e: Event, t: Sys)
    requires Inv(s) && e.Tick? && Step(s, e, t)
    requires s.ctl.selected.Some? && s.ctl.selected.value in s.conns
    requires var c := s.conns[s.ctl.selected.value]; c.writeState == 0 && HasWaited(c, e.now)
    requires e.now >= s.lastPing + (if !IsUp(s) || !AllSettled(s) then 43 else 475)
    ensures e.pick == s.ctl.selected
  {
    var after :| TickStep(s, e, after, t);
    if !IsUp(s) || !AllSettled(s) {
      GateOpensFast(s, e);
    }
    assert GateOpen(s, e) && SelectedDue(s.conns, s.ctl.selected, e.now);
    hide Step, GateOpen, Inv, SelectedDue;
    SelectedIsPicked(s, e, after, t);
  }

  predicate IsPing(e: Event) { e.Tick? && e.pick.Some? }

  // The pings among events h, ..., i - 1.
  function Pings(es: seq<Event>, h: nat, i: nat): nat
    requires h <= i <= |es|
    decreases i
  {
    if h == i then 0 else Pings(es, h, i - 1) + (if IsPing(es[i - 1]) then 1 else 0)
  }

  lemma LastPingOnlyGrows(s: Sys, e: Event, t: Sys)
    requires Step(s, e, t)
    ensures t.lastPing >= s.lastPing && (!IsPing(e) ==> t.lastPing == s.lastPing)
  {
    if IsPing(e) {
      PingIsPaced(s, e, t);
    } else if e.Tick? {
      var after :| TickStep(s, e, after, t);
      hide Select;
    }
  }

  // After i events the channel's last ping is 43 ms later for each ping sent since event h.
  lemma {:induction false} PingsTakeTime(ss: seq<Sys>, es: seq<Event>, h: nat, i: nat)
    requires Run(ss, es) && h <= i <= |es|
    ensures ss[i].lastPing >= ss[h].lastPing + 43 * Pings(es, h, i)
    decreases i
  {
    if h < i {
      PingsTakeTime(ss, es, h, i - 1);
      assert StepAt(ss, es, i - 1);
      hide Step, Inv;
      LastPingOnlyGrows(ss[i - 1], es[i - 1], ss[i]);
      if IsPing(es[i - 1]) {
        PingIsPaced(ss[i - 1], es[i - 1], ss[i]);
      }
    }
  }

  /** In every run, pings sent within T milliseconds of one another number at most T / 43 + 1. */
  lemma PingRateBounded(ss: seq<Sys>, es: seq<Event>, i: nat, j: nat, T: nat)
    requires Run(ss, es) && i <= j < |es| && IsPing(es[i]) && IsPing(es[j])
    requires es[i].Tick? && es[j].Tick? && es[j].sent - es[i].sent <= T
    ensures Pings(es, i, j + 1) <= T / 43 + 1
  {
    hide *;
    PingMovesLast(ss, es, i);
    PingMovesLast(ss, es, j);
    PingsTakeTime(ss, es, i + 1, j + 1);
    PingsFront(es, i, j + 1);
    DivideBound(Pings(es, i + 1, j + 1), T);
  }

  lemma PingMovesLast(ss: seq<Sys>, es: seq<Event>, i: nat)
    requires Run(ss, es) && i < |es| && IsPing(es[i])
    ensures |ss| == |es| + 1 && ss[i + 1].lastPing == es[i].sent
  {
    assert StepAt(ss, es, i);
    hide Step, Inv;
    PingIsPaced(ss[i], es[i], ss[i + 1]);
  }

  lemma DivideBound(k: nat, T: nat)
    requires 43 * k <= T
    ensures k <= T / 43
  {
  }

  lemma {:induction false} PingsFront(es: seq<Event>, h: nat, i: nat)
    requires h < i <= |es|
    ensures Pings(es, h, i) == (if IsPing(es[h]) then 1 else 0) + Pings(es, h + 1, i)
    decreases i
  {
    if h + 1 < i {
      PingsFront(es, h, i - 1);
    }
  }

  // ----------------------------------------------------------------- fairness

  /** A stretch of a run in which the connections stay the same, the channel stays weak without a
      writable selected connection, and every connection has the peer's credentials. */
  ghost predicate WeakStretch(ss: seq<Sys>, es: seq<Event>, h: nat, n: nat)
    requires |ss| == |es| + 1 && h <= n <= |es|
  {
    && (forall i :: h <= i < n ==> es[i].Tick? || es[i].Change? || es[i].Switch?)
    && (forall i :: h <= i <= n ==> AllWaiting(ss[i]))
  }

  predicate AllWaiting(s: Sys) {
    && Readable(s) && WeakChannel(s.conns, s.ctl.selected)
    && (s.ctl.selected.Some? ==> !Writable(s.conns[s.ctl.selected.value]))
    && forall id :: id in s.conns ==> s.conns[id].credentialed
  }

  // The connections pinged after time T0.
  function Recent(cs: Conns, T0: int): set<Id> { set id | id in cs && cs[id].lastPingSent > T0 }

  // Some event among h, ..., n - 1 pings the connection.
  ghost predicate WasPinged(es: seq<Event>, h: nat, n: nat, id: Id)
    requires h <= n <= |es|
  {
    exists i :: h <= i < n && IsPing(es[i]) && es[i].pick == Some(id)
  }

  lemma TickEffect(s: Sys, e: Event, t: Sys)
    requires Inv(s) && e.Tick? && Step(s, e, t) && Readable(s)
    ensures e.pick.Some? ==>
            e.pick.value in s.conns && t.conns == s.conns[e.pick.value := Pinged(s.conns[e.pick.value], e.sent)]
    ensures e.pick.None? ==> t.conns == s.conns
  {
    TickKeepsInv(s, e, t);
    var after :| TickStep(s, e, after, t);
    hide Select;
  }

  // While c waits, a ping goes to a connection that had not been pinged since T0 either.
  lemma PickIsNotRecent(s: Sys, e: Event, t: Sys, T0: int, c: Id)
    requires Inv(s) && e.Tick? && Step(s, e, t) && AllWaiting(s) && e.pick.Some?
    requires c in s.conns && s.conns[c].lastPingSent <= T0
    ensures e.pick.value in s.conns && s.conns[e.pick.value].lastPingSent <= T0
  {
    TickEffect(s, e, t);
    assert !SelectedDue(s.conns, s.ctl.selected, e.now);
    assert Pingable(s.conns, s.ctl.selected, c, e.now);
    hide Step, SelectedDue, Pingable;
    PickIsOldest(s, e, t);
  }

  lemma RecentGrows(cs: Conns, id: Id, sent: int, T0: int)
    requires id in cs && cs[id].lastPingSent <= T0 < sent
    ensures var cs' := cs[id := Pinged(cs[id], sent)];
      cs'.Keys == cs.Keys && Recent(cs', T0) == Recent(cs, T0) + {id} && id !in Recent(cs, T0)
  {
    assert cs[id := Pinged(cs[id], sent)].Keys == cs.Keys;
  }

  lemma WeakPingAddsRecent(s: Sys, e: Event, t: Sys, T0: int, c: Id)
    requires Inv(s) && IsPing(e) && Step(s, e, t) && AllWaiting(s)
    requires c in s.conns && s.conns[c].lastPingSent <= T0 <= s.lastPing
    ensures t.conns.Keys == s.conns.Keys && |Recent(t.conns, T0)| == |Recent(s.conns, T0)| + 1
    ensures e.pick != Some(c) ==> t.conns[c].lastPingSent == s.conns[c].lastPingSent
  {
    TickEffect(s, e, t);
    PickIsNotRecent(s, e, t, T0, c);
    PingIsPaced(s, e, t);
    hide Step, Inv, AllWaiting, Recent;
    RecentGrows(s.conns, e.pick.value, e.sent, T0);
  }

  lemma OtherStepKeepsRecent(s: Sys, e: Event, t: Sys, T0: int)
    requires Inv(s) && Readable(s) && !IsPing(e) && Step(s, e, t) && (e.Tick? || e.Change? || e.Switch?)
    ensures t.conns.Keys == s.conns.Keys && Recent(t.conns, T0) == Recent(s.conns, T0)
    ensures forall c :: c in s.conns ==> t.conns[c].lastPingSent == s.conns[c].lastPingSent
  {
    if e.Tick? {
      TickEffect(s, e, t);
    }
  }

  lemma SpreadStep(s: Sys, e: Event, t: Sys, T0: int, c: Id)
    requires Inv(s) && Step(s, e, t) && AllWaiting(s) && (e.Tick? || e.Change? || e.Switch?)
    requires c in s.conns && s.conns[c].lastPingSent <= T0 <= s.lastPing
    requires IsPing(e) ==> e.pick != Some(c)
    ensures t.conns.Keys == s.conns.Keys && t.lastPing >= s.lastPing
    ensures t.conns[c].lastPingSent == s.conns[c].lastPingSent
    ensures |Recent(t.conns, T0)| == |Recent(s.conns, T0)| + (if IsPing(e) then 1 else 0)
  {
    assert Readable(s);
    hide Step, AllWaiting, Recent, Inv;
    LastPingOnlyGrows(s, e, t);
    if IsPing(e) {
      WeakPingAddsRecent(s, e, t, T0, c);
    } else {
      OtherStepKeepsRecent(s, e, t, T0);
    }
  }

  lemma StretchStep(ss: seq<Sys>, es: seq<Event>, h: nat, n: nat)
    requires SaneRun(ss, es) && h < n <= |es| && WeakStretch(ss, es, h, n)
    ensures WeakStretch(ss, es, h, n - 1)
    ensures Inv(ss[n - 1]) && Step(ss[n - 1], es[n - 1], ss[n]) && AllWaiting(ss[n - 1])
    ensures es[n - 1].Tick? || es[n - 1].Change? || es[n - 1].Switch?
  {
    RunKeepsInv(ss, es, n - 1);
    assert StepAt(ss, es, n - 1);
    hide Step, Inv;
  }

  // As long as c is not pinged, every ping since event h went to a different connection.
  lemma {:induction false} PingsAreSpread(ss: seq<Sys>, es: seq<Event>, h: nat, n: nat, c: Id)
    requires SaneRun(ss, es) && h <= n <= |es| && WeakStretch(ss, es, h, n)
    requires c in ss[h].conns && !WasPinged(es, h, n, c)
    ensures ss[n].conns.Keys == ss[h].conns.Keys && ss[n].lastPing >= ss[h].lastPing
    ensures ss[n].conns[c].lastPingSent == ss[h].conns[c].lastPingSent <= ss[h].lastPing
    ensures |Recent(ss[n].conns, ss[h].lastPing)| == Pings(es, h, n)
    decreases n
  {
    RunKeepsInv(ss, es, h);
    var T0 := ss[h].lastPing;
    if h == n {
      assert Recent(ss[h].conns, T0) == {};
    } else {
      StretchStep(ss, es, h, n);
      hide SaneRun, WeakStretch, Step, AllWaiting, Recent, Inv;
      PingsAreSpread(ss, es, h, n - 1, c);
      SpreadStep(ss[n - 1], es[n - 1], ss[n], T0, c);
    }
  }

  /** Fairness: in a weak channel with k connections, none of them writable and selected, any
      stretch with at least k pings pings every connection. */
  lemma EveryConnectionIsPinged(ss: seq<Sys>, es: seq<Event>, h: nat, n: nat, c: Id)
    requires SaneRun(ss, es) && h <= n <= |es| && WeakStretch(ss, es, h, n)
    requires c in ss[h].conns && Pings(es, h, n) >= |ss[h].conns|
    ensures WasPinged(es, h, n, c)
  {
    assert |ss[h].conns.Keys| == |ss[h].conns|;
    if !WasPinged(es, h, n, c) {
      RunKeepsInv(ss, es, h);
      PingsAreSpread(ss, es, h, n, c);
      var recent := Recent(ss[n].conns, ss[h].lastPing);
      assert c !in recent && recent <= ss[h].conns.Keys - {c};
      Smaller(recent, ss[h].conns.Keys - {c});
    }
  }

  lemma {:induction false} Smaller(a: set<Id>, b: set<Id>)
    requires a <= b
    ensures |a| <= |b|
    decreases a
  {
    if a != {} {
      var x :| x in a;
      Smaller(a - {x}, b - {x});
    }
  }
}
