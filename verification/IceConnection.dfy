/** Liveness of one ICE connection: ping, received_ping_response, update_state and update_receiving of
    src/ice/ice_connection.cpp over whole runs. A connection's life ends when it is destroyed. */
module IceConnection {
  import Sel = IceSelection
  import Sched = IceScheduler

  const WRITE_CONNECT_FAILS := 5
  const WRITE_CONNECT_TIMEOUT := 5000
  const WRITE_TIMEOUT := 15000
  const RECEIVE_TIMEOUT := 2500
  const MIN_RTT := 100
  const MAX_RTT := 60000
  const RTT_RATIO := 3

  datatype WriteState = Writable | Unreliable | Initial | TimedOut

  datatype Link = Link(
    write: WriteState, receiving: bool, rtt: int, samples: nat,
    lastPingSent: int, lastResponse: int, lastPingReceived: int, lastData: int,
    numPings: nat, pings: seq<int>,   // sending times of the pings since the last response
    alive: bool)

  const FRESH := Link(Initial, false, 3000, 0, 0, 0, 0, 0, 0, [], true)

  // Conversion to int.
  function Int32(x: int): int { (x + 0x8000_0000) % 0x1_0000_0000 - 0x8000_0000 }

  // The tolerance window: twice the RTT, clamped.
  function Window(rtt: int): int {
    if 2 * rtt < MIN_RTT then MIN_RTT else if 2 * rtt > MAX_RTT then MAX_RTT else 2 * rtt
  }

  predicate TooManyFailed(c: Link, maxPings: nat, window: int, now: int)
    requires maxPings > 0
  {
    |c.pings| >= maxPings && now > Int32(c.pings[maxPings - 1] + window)
  }

  // When the response to a ping is overdue, as the program computes it.
  function Deadline(sent: int, rtt: int): int { Int32(sent + Window(rtt)) }

  predicate TooLong(c: Link, limit: int, now: int) { c.pings != [] && now > c.pings[0] + limit }

  function Max(a: int, b: int): int { if a < b then b else a }

  function LastReceived(c: Link): int { Max(Max(c.lastPingReceived, c.lastResponse), c.lastData) }

  function UpdateReceiving(c: Link, now: int): Link {
    c.(receiving := c.lastPingSent < c.lastResponse ||
                    (LastReceived(c) > 0 && now < LastReceived(c) + RECEIVE_TIMEOUT))
  }

  function Degrade(c: Link, now: int): Link {
    if c.write == Writable && TooManyFailed(c, WRITE_CONNECT_FAILS, Window(c.rtt), now) &&
        TooLong(c, WRITE_CONNECT_TIMEOUT, now)
    then c.(write := Unreliable) else c
  }

  function UpdateState(c: Link, now: int): Link {
    var d := Degrade(c, now);
    if (d.write == Unreliable || d.write == Initial) && TooLong(d, WRITE_TIMEOUT, now)
    then d.(write := TimedOut, alive := false)
    else UpdateReceiving(d, now)
  }

  function Ping(c: Link, now: int): Link {
    c.(lastPingSent := now, pings := c.pings + [now], numPings := c.numPings + 1)
  }

  // rtc::GetNextMovingAverage, for the non-negative values that occur.
  function Average(prev: int, cur: int): int { (prev * RTT_RATIO + cur) / (RTT_RATIO + 1) }

  function Response(c: Link, rtt: int, now: int): Link {
    UpdateReceiving(
      c.(rtt := if c.samples > 0 then Average(c.rtt, rtt) else rtt, samples := c.samples + 1,
         lastResponse := now, pings := []), now).(write := Writable)
  }

  datatype Event =
    | PingSent(now: int)
    | Answer(now: int, rtt: int)
    | Update(now: int)
    | Arrived(now: int, data: bool)   // data, or a ping from the peer

  function Handle(c: Link, e: Event): Link {
    if !c.alive then c
    else match e
      case PingSent(now) => Ping(c, now)
      case Answer(now, rtt) => Response(c, rtt, now)
      case Update(now) => UpdateState(c, now)
      case Arrived(now, data) => if data then c.(lastData := now) else c.(lastPingReceived := now)
  }

  function Run(c: Link, es: seq<Event>): Link {
    if es == [] then c else Handle(Run(c, es[..|es| - 1]), es[|es| - 1])
  }

  predicate Clocked(es: seq<Event>) { forall i, j :: 0 <= i < j < |es| ==> es[i].now <= es[j].now }

  // ------------------------------------------------------ answered pings keep it up

  // Event i is a ping that no response before event n has answered.
  predicate Pending(es: seq<Event>, i: nat, n: nat)
    requires n <= |es|
  {
    i < n && es[i].PingSent? && forall k :: i < k < n ==> !es[k].Answer?
  }

  lemma PingsAfter(d: Link, e: Event)
    requires Handle(d, e).alive
    ensures d.alive
    ensures Handle(d, e).pings == if e.PingSent? then d.pings + [e.now] else if e.Answer? then [] else d.pings
  {
  }

  lemma {:induction false} PendingPing(c: Link, es: seq<Event>, m: nat, n: nat, p: nat)
    requires m <= n <= |es| && Run(c, es[..m]).pings == []
    requires Run(c, es[..n]).alive && p < |Run(c, es[..n]).pings|
    ensures exists i: nat :: Pending(es, i, n) && es[i].now == Run(c, es[..n]).pings[p]
    decreases n
  {
    hide Handle;
    assert m < n;
    assert es[..n][..n - 1] == es[..n - 1];
    var d := Run(c, es[..n - 1]);
    var e := es[n - 1];
    PingsAfter(d, e);
    if e.PingSent? && p == |d.pings| {
      assert Pending(es, n - 1, n);
    } else {
      PendingPing(c, es, m, n - 1, p);
      var i: nat :| Pending(es, i, n - 1) && es[i].now == d.pings[p];
      assert Pending(es, i, n);
    }
  }

  // If event j comes more than five seconds after ping i, a response has come in time before it.
  predicate InTime(es: seq<Event>, i: nat, j: nat)
    requires i < j < |es|
  {
    es[i].PingSent? && es[j].now > es[i].now + WRITE_CONNECT_TIMEOUT ==>
      exists k :: i < k < j && es[k].Answer? && es[k].now <= es[i].now + WRITE_CONNECT_TIMEOUT
  }

  /** Every ping from event m on is answered within five seconds. */
  predicate AnsweredInTime(es: seq<Event>, m: nat) {
    forall i, j :: m <= i < j < |es| ==> InTime(es, i, j)
  }

  lemma PendingIsRecent(es: seq<Event>, m: nat, n: nat, i: nat)
    requires m < n < |es| && es[m].Answer? && AnsweredInTime(es, m + 1) && Pending(es, i, n)
    ensures es[n].now <= es[i].now + WRITE_CONNECT_TIMEOUT
  {
    assert i > m;
    assert InTime(es, i, n);
  }

  lemma FirstPingIsRecent(c: Link, es: seq<Event>, m: nat, n: nat)
    requires m < n < |es| && es[m].Answer? && Run(c, es[..m]).alive && AnsweredInTime(es, m + 1)
    requires Run(c, es[..n]).alive
    ensures !TooLong(Run(c, es[..n]), WRITE_CONNECT_TIMEOUT, es[n].now)
  {
    hide AnsweredInTime;
    assert es[..m + 1][..m] == es[..m];
    if Run(c, es[..n]).pings != [] {
      PendingPing(c, es, m + 1, n, 0);
      var i: nat :| Pending(es, i, n) && es[i].now == Run(c, es[..n]).pings[0];
      PendingIsRecent(es, m, n, i);
    }
  }

  /** Once a response has made it writable, a connection whose every later ping is answered within 5000 ms
      is writable after every later event. */
  lemma {:induction false} StaysWritable(c: Link, es: seq<Event>, m: nat, n: nat)
    requires m < n <= |es| && es[m].Answer? && Run(c, es[..m]).alive
    requires AnsweredInTime(es, m + 1)
    ensures Run(c, es[..n]).write == Writable && Run(c, es[..n]).alive
    decreases n
  {
    hide AnsweredInTime;
    assert es[..n][..n - 1] == es[..n - 1];
    if n > m + 1 {
      StaysWritable(c, es, m, n - 1);
      FirstPingIsRecent(c, es, m, n - 1);
    }
  }

  // ----------------------------------------------------------------- silent runs

  predicate Silent(es: seq<Event>) { forall i :: 0 <= i < |es| ==> !es[i].Answer? }

  // Sending times of the pings among the events.
  function PingTimes(es: seq<Event>): seq<int> {
    if es == [] then []
    else PingTimes(es[..|es| - 1]) + (if es[|es| - 1].PingSent? then [es[|es| - 1].now] else [])
  }

  // Event j is an update that comes more than 15 seconds after the first ping.
  predicate UpdateAfterLimit(es: seq<Event>, j: nat) {
    && j < |es| && es[j].Update?
    && var ts := PingTimes(es[..j]);
       ts != [] && es[j].now > ts[0] + WRITE_TIMEOUT
  }

  // The same, with five pings sent and the fifth one's deadline over.
  predicate UpdateAfterFive(es: seq<Event>, j: nat, rtt: int) {
    && UpdateAfterLimit(es, j)
    && var ts := PingTimes(es[..j]);
       |ts| >= 5 && es[j].now > Deadline(ts[4], rtt)
  }

  ghost predicate TimedOutBy(es: seq<Event>) { exists j :: UpdateAfterLimit(es, j) }

  ghost predicate FailedBy(es: seq<Event>, rtt: int) { exists j :: UpdateAfterFive(es, j, rtt) }

  lemma LimitSnoc(es: seq<Event>, e: Event, j: nat)
    ensures j < |es| ==> (UpdateAfterLimit(es + [e], j) <==> UpdateAfterLimit(es, j))
    ensures UpdateAfterLimit(es + [e], |es|) <==>
            e.Update? && PingTimes(es) != [] && e.now > PingTimes(es)[0] + WRITE_TIMEOUT
  {
    var all := es + [e];
    if j < |es| {
      assert all[..j] == es[..j] && all[j] == es[j];
    }
    assert all[..|es|] == es;
  }

  lemma TimedOutSnoc(es: seq<Event>, e: Event)
    ensures TimedOutBy(es + [e]) <==>
            TimedOutBy(es) || (e.Update? && PingTimes(es) != [] && e.now > PingTimes(es)[0] + WRITE_TIMEOUT)
  {
    var all := es + [e];
    if TimedOutBy(es) {
      var j :| UpdateAfterLimit(es, j);
      LimitSnoc(es, e, j);
    }
    if TimedOutBy(all) {
      var j :| UpdateAfterLimit(all, j);
      LimitSnoc(es, e, j);
    }
    LimitSnoc(es, e, |es|);
  }

  /** A connection that never gets a response is destroyed exactly by the first update that comes more than
      15000 ms after its first ping. */
  lemma {:induction false} SilentInitialTimesOut(es: seq<Event>)
    requires Silent(es)
    ensures var d := Run(FRESH, es);
            && (!d.alive <==> TimedOutBy(es))
            && (!d.alive <==> d.write == TimedOut)
            && (d.alive ==> d.write == Initial && d.pings == PingTimes(es))
  {
    if es != [] {
      var pre, e := es[..|es| - 1], es[|es| - 1];
      assert es == pre + [e];
      SilentInitialTimesOut(pre);
      TimedOutSnoc(pre, e);
    }
  }

  lemma FiveSnoc(es: seq<Event>, e: Event, rtt: int, j: nat)
    ensures j < |es| ==> (UpdateAfterFive(es + [e], j, rtt) <==> UpdateAfterFive(es, j, rtt))
    ensures UpdateAfterFive(es + [e], |es|, rtt) <==>
            && e.Update? && |PingTimes(es)| >= 5
            && e.now > PingTimes(es)[0] + WRITE_TIMEOUT && e.now > Deadline(PingTimes(es)[4], rtt)
  {
    var all := es + [e];
    LimitSnoc(es, e, j);
    if j < |es| {
      assert all[..j] == es[..j] && all[j] == es[j];
    }
    assert all[..|es|] == es;
  }

  lemma FailedSnoc(es: seq<Event>, e: Event, rtt: int)
    ensures FailedBy(es + [e], rtt) <==>
            FailedBy(es, rtt) || (&& e.Update? && |PingTimes(es)| >= 5
                                  && e.now > PingTimes(es)[0] + WRITE_TIMEOUT &&
                                     e.now > Deadline(PingTimes(es)[4], rtt))
  {
    var all := es + [e];
    if FailedBy(es, rtt) {
      var j :| UpdateAfterFive(es, j, rtt);
      FiveSnoc(es, e, rtt, j);
    }
    if FailedBy(all, rtt) {
      var j :| UpdateAfterFive(all, j, rtt);
      FiveSnoc(es, e, rtt, j);
    }
    FiveSnoc(es, e, rtt, |es|);
  }

  // The fifth ping's deadline is over at the time of the last event.
  predicate FifthOver(es: seq<Event>, rtt: int) {
    && es != [] && |PingTimes(es)| >= 5
    && es[|es| - 1].now > Deadline(PingTimes(es)[4], rtt)
  }

  /** The deadline is the end of the window exactly if that is below 2^31; from there on it lies before the ping. */
  lemma DeadlineExactly(sent: int, rtt: int)
    requires sent >= 0
    ensures Deadline(sent, rtt) == sent + Window(rtt) <==> sent + Window(rtt) < 0x8000_0000
    ensures sent + Window(rtt) >= 0x8000_0000 ==> Deadline(sent, rtt) < sent
  {
  }

  lemma DeadStays(d: Link, e: Event)
    requires !d.alive
    ensures Handle(d, e) == d
  {
  }

  // One silent event on a connection that is still writable or unreliable.
  lemma SilentStep(d: Link, e: Event)
    requires d.alive && d.write in {Writable, Unreliable} && !e.Answer?
    requires d.write == Unreliable ==> |d.pings| >= 5 && e.now > Deadline(d.pings[4], d.rtt)
    ensures var after := Handle(d, e);
            && (!after.alive <==> && e.Update? && |d.pings| >= 5
                                  && e.now > d.pings[0] + WRITE_TIMEOUT && e.now > Deadline(d.pings[4], d.rtt))
            && (!after.alive <==> after.write == TimedOut)
            && (after.alive ==> after.write in {Writable, Unreliable})
            && after.pings == d.pings + (if e.PingSent? then [e.now] else []) && after.rtt == d.rtt
            && (after.write == Unreliable ==> |d.pings| >= 5 && e.now > Deadline(d.pings[4], d.rtt))
  {
    hide Int32;
  }

  /** A writable connection that stops getting responses is destroyed exactly by the first update past both
      the 15000 ms limit and the deadline of its fifth ping. Until then it is writable or unreliable. */
  lemma {:induction false} SilentWritableTimesOut(c: Link, es: seq<Event>)
    requires c.alive && c.write == Writable && c.pings == []
    requires Silent(es) && Clocked(es)
    ensures var d := Run(c, es);
            && (!d.alive <==> FailedBy(es, c.rtt))
            && (!d.alive <==> d.write == TimedOut)
            && (d.alive ==> && d.pings == PingTimes(es) && d.rtt == c.rtt && d.write in {Writable, Unreliable}
                            && (d.write == Unreliable ==> FifthOver(es, c.rtt)))
  {
    if es != [] {
      var pre, e := es[..|es| - 1], es[|es| - 1];
      assert es == pre + [e];
      hide Handle, FailedBy, Deadline;
      SilentWritableTimesOut(c, pre);
      FailedSnoc(pre, e, c.rtt);
      var d := Run(c, pre);
      if d.alive {
        SilentStep(d, e);
      } else {
        DeadStays(d, e);
      }
    }
  }

  // Event j is an update with five pings unanswered, more than five seconds after the first and past the deadline of
  // the fifth.
  predicate UpdateDegrades(es: seq<Event>, j: nat, rtt: int) {
    && j < |es| && es[j].Update?
    && var ts := PingTimes(es[..j]);
       |ts| >= 5 && es[j].now > ts[0] + 5000 && es[j].now > Deadline(ts[4], rtt)
  }

  ghost predicate DegradedBy(es: seq<Event>, rtt: int) { exists j: nat :: UpdateDegrades(es, j, rtt) }

  lemma DegradedSnoc(es: seq<Event>, e: Event, rtt: int)
    ensures DegradedBy(es + [e], rtt) <==>
            DegradedBy(es, rtt) || (&& e.Update? && |PingTimes(es)| >= 5 && e.now > PingTimes(es)[0] + 5000
                                    && e.now > Deadline(PingTimes(es)[4], rtt))
  {
    var all := es + [e];
    assert all[..|es|] == es;
    if DegradedBy(es, rtt) {
      var j: nat :| UpdateDegrades(es, j, rtt);
      assert all[..j] == es[..j] && UpdateDegrades(all, j, rtt);
    }
    if DegradedBy(all, rtt) {
      var j: nat :| UpdateDegrades(all, j, rtt);
      if j < |es| {
        assert all[..j] == es[..j] && UpdateDegrades(es, j, rtt);
      }
    }
    if e.Update? && |PingTimes(es)| >= 5 && e.now > PingTimes(es)[0] + 5000 && e.now > Deadline(PingTimes(es)[4], rtt) {
      assert UpdateDegrades(all, |es|, rtt);
    }
  }

  /** The window: twice the RTT, but not less than 100 ms and not more than a minute. */
  lemma WindowIsClamped(rtt: int)
    ensures 100 <= Window(rtt) <= 60_000
    ensures 50 <= rtt <= 30_000 ==> Window(rtt) == 2 * rtt
    ensures rtt < 50 ==> Window(rtt) == 100
    ensures rtt > 30_000 ==> Window(rtt) == 60_000
  {
  }

  // One silent event on a writable connection.
  lemma DegradeStep(d: Link, e: Event)
    requires d.alive && d.write == Writable && !e.Answer?
    ensures Handle(d, e).write != Writable <==>
      && e.Update? && |d.pings| >= 5 && e.now > d.pings[0] + 5000 && e.now > Deadline(d.pings[4], d.rtt)
  {
    hide Int32;
  }

  lemma NeverWritableAgain(d: Link, e: Event)
    requires d.write != Writable && !e.Answer?
    ensures Handle(d, e).write != Writable
  {
  }

  /** A writable connection that stops getting responses stops being writable exactly by the first update that finds
      five pings unanswered, more than 5000 ms after the first and past the deadline of the fifth. */
  lemma {:induction false} SilentWritableDegrades(c: Link, es: seq<Event>)
    requires c.alive && c.write == Writable && c.pings == []
    requires Silent(es) && Clocked(es)
    ensures Run(c, es).write != Writable <==> DegradedBy(es, c.rtt)
  {
    if es != [] {
      var pre, e := es[..|es| - 1], es[|es| - 1];
      assert es == pre + [e];
      hide Handle, DegradedBy, Deadline;
      SilentWritableDegrades(c, pre);
      SilentWritableTimesOut(c, pre);
      DegradedSnoc(pre, e, c.rtt);
      var d := Run(c, pre);
      if d.write == Writable {
        DegradeStep(d, e);
      } else {
        NeverWritableAgain(d, e);
      }
    }
  }

  // Pings are sent before what comes later, and not before time zero.
  lemma {:induction false} PingsBefore(es: seq<Event>, now: int)
    requires forall i :: 0 <= i < |es| ==> 0 <= es[i].now <= now
    ensures forall p :: 0 <= p < |PingTimes(es)| ==> 0 <= PingTimes(es)[p] <= now
  {
    if es != [] {
      PingsBefore(es[..|es| - 1], now);
    }
  }

  // Event j is an update more than 15 seconds after the first of at least five pings and, if the end of the fifth
  // one's window fits an int, past that.
  predicate UpdateDue(es: seq<Event>, j: nat, rtt: int) {
    && UpdateAfterLimit(es, j)
    && var ts := PingTimes(es[..j]);
       |ts| >= 5 && (ts[4] + Window(rtt) < 0x8000_0000 ==> es[j].now > ts[4] + Window(rtt))
  }

  lemma DueIsAfterFive(es: seq<Event>, j: nat, rtt: int)
    requires Clocked(es) && forall i :: 0 <= i < |es| ==> es[i].now >= 0
    ensures UpdateDue(es, j, rtt) <==> UpdateAfterFive(es, j, rtt)
  {
    if j < |es| {
      var ts := PingTimes(es[..j]);
      PingsBefore(es[..j], es[j].now);
      if |ts| >= 5 {
        DeadlineExactly(ts[4], rtt);
      }
      hide PingTimes, Deadline, Window;
    }
  }

  ghost predicate DueBy(es: seq<Event>, rtt: int) { exists j :: UpdateDue(es, j, rtt) }

  /** A writable connection that stops getting responses is destroyed exactly by the first update more than 15000 ms
      after its first ping, with five pings sent, that is past the window of the fifth one; but the window counts only
      while its end is below 2^31. From then on five pings and 15000 ms are enough, however long the window. */
  lemma SilentWritableExactly(c: Link, es: seq<Event>)
    requires c.alive && c.write == Writable && c.pings == []
    requires Silent(es) && Clocked(es) && forall i :: 0 <= i < |es| ==> es[i].now >= 0
    ensures !Run(c, es).alive <==> DueBy(es, c.rtt)
  {
    SilentWritableTimesOut(c, es);
    hide Run, UpdateDue, UpdateAfterFive, Silent, Clocked;
    if FailedBy(es, c.rtt) {
      var j :| UpdateAfterFive(es, j, c.rtt);
      DueIsAfterFive(es, j, c.rtt);
    }
    if DueBy(es, c.rtt) {
      var j :| UpdateDue(es, j, c.rtt);
      DueIsAfterFive(es, j, c.rtt);
    }
  }

  // ------------------------------------------------------------------- receiving

  // The times of the last ping sent, the last response, and the last sign of life; zero if there was none.
  function LastPing(es: seq<Event>): int {
    if es == [] then 0 else if es[|es| - 1].PingSent? then es[|es| - 1].now else LastPing(es[..|es| - 1])
  }

  function LastAnswer(es: seq<Event>): int {
    if es == [] then 0 else if es[|es| - 1].Answer? then es[|es| - 1].now else LastAnswer(es[..|es| - 1])
  }

  function LastHeard(es: seq<Event>): int {
    if es == [] then 0
    else if es[|es| - 1].Answer? || es[|es| - 1].Arrived? then es[|es| - 1].now
    else LastHeard(es[..|es| - 1])
  }

  lemma {:induction false} TimesAreKept(es: seq<Event>)
    requires Clocked(es) && (forall i :: 0 <= i < |es| ==> es[i].now >= 0) && Run(FRESH, es).alive
    ensures var d := Run(FRESH, es);
      && d.lastPingSent == LastPing(es) && d.lastResponse == LastAnswer(es) && LastReceived(d) == LastHeard(es)
      && 0 <= LastHeard(es) && forall i :: 0 <= i < |es| && i == |es| - 1 ==> LastHeard(es) <= es[i].now
  {
    if es != [] {
      var pre, e := es[..|es| - 1], es[|es| - 1];
      AliveBefore(Run(FRESH, pre), e);
      TimesAreKept(pre);
      assert pre != [] ==> pre[|pre| - 1].now <= e.now;
      hide Run, TooLong, TooManyFailed;
    }
  }

  lemma AliveBefore(d: Link, e: Event)
    requires Handle(d, e).alive
    ensures d.alive
  {
  }

  /** After an update the connection counts as receiving exactly if the last response is newer than the last ping, or a
      response, a ping of the peer or data came less than 2500 ms ago. */
  lemma ReceivingExactly(es: seq<Event>, now: int)
    requires Clocked(es) && (forall i :: 0 <= i < |es| ==> es[i].now >= 0) && Run(FRESH, es + [Update(now)]).alive
    ensures Run(FRESH, es + [Update(now)]).receiving <==>
      LastPing(es) < LastAnswer(es) || (LastHeard(es) > 0 && now < LastHeard(es) + 2500)
  {
    assert (es + [Update(now)])[..|es|] == es;
    AliveBefore(Run(FRESH, es), Update(now));
    TimesAreKept(es);
    hide TooLong, TooManyFailed, LastPing, LastAnswer, LastHeard;
  }

  /** The smoothed RTT: three parts old, one part new, rounded down. */
  lemma RttIsSmoothed(c: Link, now: int, measured: int)
    requires c.alive
    ensures var d := Handle(c, Answer(now, measured));
      && d.samples == c.samples + 1 && d.pings == [] && d.write == Writable
      && (c.samples == 0 ==> d.rtt == measured)
      && (c.samples > 0 ==> 4 * d.rtt <= 3 * c.rtt + measured < 4 * d.rtt + 4)
  {
  }

  // -------------------------------------------------------- as the controller sees it

  function WriteStateCode(w: WriteState): nat {
    match w
    case Writable => Sel.WRITABLE
    case Unreliable => Sel.WRITE_UNRELIABLE
    case Initial => Sel.WRITE_INIT
    case TimedOut => Sel.WRITE_TIMEOUT
  }

  /** The connection as sorting and scheduling look at it; priority and credentials do not depend on its liveness. */
  function Seen(c: Link, priority: nat, credentialed: bool): Sel.Conn {
    Sel.Conn(WriteStateCode(c.write), c.receiving, priority, c.rtt, c.samples, credentialed, c.lastPingSent,
        c.numPings, c.pings)
  }

  /** A ping here is the scheduler's ping there; everything else that happens to the connection is one of the changes
      the scheduler's runs allow: it leaves the ping times alone. */
  lemma SchedulerSees(c: Link, e: Event, priority: nat, credentialed: bool)
    requires c.alive
    ensures var before, after := Seen(c, priority, credentialed), Seen(Handle(c, e), priority, credentialed);
      if e.PingSent? then after == Sched.Pinged(before, e.now)
      else Sched.SamePings(map[0 := before], map[0 := after])
  {
  }

  /** Writable and able to send mean the same on both sides, and so does being active. */
  lemma SelectionSees(c: Link, priority: nat, credentialed: bool)
    ensures var s := Seen(c, priority, credentialed);
      && (Sel.Writable(s) <==> c.write == Writable)
      && (Sel.ReadyToSend(s) <==> c.write == Writable || c.write == Unreliable)
      && (s.writeState == Sel.WRITE_TIMEOUT <==> c.write == TimedOut)
  {
  }

  // ---------------------------------------------------------------- the object

  /** The object of src/ice/ice_connection.cpp, as far as its liveness goes. */
  class Connection {
    var write: WriteState
    var receiving: bool
    var rtt: int
    var samples: nat
    var lastPingSent: int
    var lastResponse: int
    var lastPingReceived: int
    var lastData: int
    var numPings: nat
    var pings: seq<int>
    var alive: bool

    ghost function Value(): Link
      reads this
    {
      Link(write, receiving, rtt, samples, lastPingSent, lastResponse, lastPingReceived, lastData, numPings, pings,
          alive)
    }

    constructor ()
      ensures Value() == FRESH
    {
      write, receiving, rtt, samples := Initial, false, 3000, 0;
      lastPingSent, lastResponse, lastPingReceived, lastData := 0, 0, 0, 0;
      numPings, pings, alive := 0, [], true;
    }

    method SendPing(now: int)
      requires alive
      modifies this
      ensures Value() == Handle(old(Value()), PingSent(now))
    {
      lastPingSent := now;
      pings := pings + [now];
      numPings := numPings + 1;
    }

    method RefreshReceiving(now: int)
      modifies this`receiving
      ensures Value() == UpdateReceiving(old(Value()), now)
    {
      if lastPingSent < lastResponse {
        receiving := true;
      } else {
        var last := Max(Max(lastPingReceived, lastResponse), lastData);
        receiving := last > 0 && now < last + RECEIVE_TIMEOUT;
      }
    }

    method ReceivedPingResponse(measured: int, now: int)
      requires alive
      modifies this
      ensures Value() == Handle(old(Value()), Answer(now, measured))
    {
      rtt := if samples > 0 then Average(rtt, measured) else measured;
      samples := samples + 1;
      lastResponse := now;
      pings := [];
      RefreshReceiving(now);
      write := Writable;
    }

    method TooManyPingsFailed(maxPings: nat, window: int, now: int) returns (b: bool)
      requires maxPings > 0
      ensures b == TooManyFailed(Value(), maxPings, window, now)
    {
      if |pings| < maxPings {
        return false;
      }
      var expected := Int32(pings[maxPings - 1] + window);
      b := now > expected;
    }

    method TooLongWithoutResponse(limit: int, now: int) returns (b: bool)
      ensures b == TooLong(Value(), limit, now)
    {
      b := pings != [] && now > pings[0] + limit;
    }

    method Refresh(now: int)
      requires alive
      modifies this
      ensures Value() == Handle(old(Value()), Update(now))
    {
      var window := 2 * rtt;
      if window < MIN_RTT {
        window := MIN_RTT;
      } else if window > MAX_RTT {
        window := MAX_RTT;
      }
      var failed := TooManyPingsFailed(WRITE_CONNECT_FAILS, window, now);
      var unanswered := TooLongWithoutResponse(WRITE_CONNECT_TIMEOUT, now);
      if write == Writable && failed && unanswered {
        write := Unreliable;
      }
      var over := TooLongWithoutResponse(WRITE_TIMEOUT, now);
      if (write == Unreliable || write == Initial) && over {
        write := TimedOut;
        alive := false;
        return;
      }
      RefreshReceiving(now);
    }
  }
}
