/** Messages crossing threads: any number of signaling workers push into the RtcServer queue and wake
    it through a pipe (src/server/rtc_server.cpp), and the RtcServer routes each message to one
    RtcWorker by the CRC of its stream name and wakes that one (src/server/rtc_worker.cpp). Pushing
    and notifying are separate steps, interleaved in any way; pipe writes succeed. */
module ThreadHandOff {
  import opened Wrappers

  datatype Msg = Msg(stream: string, body: nat)

  // _workers.size(), _options.worker_num and rtc::ComputeCrc32.
  datatype Config = Config(workers: nat, workerNum: int, crc: string -> nat)

  // _get_worker
  function GetWorker(cfg: Config, stream: string): (w: Option<nat>)
    ensures w.Some? ==> w.value < cfg.workers
  {
    if cfg.workers == 0 || cfg.workers != cfg.workerNum then None
    else Some(cfg.crc(stream) % cfg.workers)
  }

  // Everything below holds for any way of choosing a worker by stream name alone.
  type Router = string -> Option<nat>

  function RouterOf(cfg: Config): Router { stream => GetWorker(cfg, stream) }

  datatype Worker = Worker(queue: seq<Msg>, tokens: nat, taken: seq<Msg>)

  // Where the RtcServer thread is inside _process_rtc_msg.
  datatype Phase = Ready | Popped(m: Msg) | Handing(w: nat)

  // A message popped by the server, and whether it went on to a worker.
  datatype Decision = Decision(m: Msg, accepted: bool)

  /** `between` holds the signaling workers that have pushed but not yet notified. `pushed` and `log`
      are history. */
  datatype Hub = Hub(queue: seq<Msg>, tokens: nat, between: set<nat>, phase: Phase, workers: seq<Worker>,
                     pushed: seq<Msg>, log: seq<Decision>)

  datatype Event =
    | Push(p: nat, m: Msg)       // signaling worker p: push_msg
    | Notify(p: nat)             // signaling worker p: write to the pipe
    | Wake                       // server: read a token, pop_msg
    | Dispatch(certificate: bool)// server: certificate check, push to the worker
    | Pass                       // server: notify the worker
    | WorkerWake(w: nat)         // worker w: read a token, pop_msg

  datatype Outcome = Running(h: Hub) | NullMessage

  function Init(workers: nat): Hub {
    Hub([], 0, {}, Ready, seq(workers, _ => Worker([], 0, [])), [], [])
  }

  predicate Enabled(h: Hub, e: Event) {
    match e
    case Push(p, _) => p !in h.between
    case Notify(p) => p in h.between
    case Wake => h.phase.Ready? && h.tokens > 0
    case Dispatch(_) => h.phase.Popped?
    case Pass => h.phase.Handing? && h.phase.w < |h.workers|
    case WorkerWake(w) => w < |h.workers| && h.workers[w].tokens > 0
  }

  // The message popped is turned away,
  function TurnAway(h: Hub): Hub
    requires h.phase.Popped?
  {
    h.(phase := Ready, log := h.log + [Decision(h.phase.m, false)])
  }

  // or handed to worker w.
  function HandTo(h: Hub, w: nat): Hub
    requires h.phase.Popped? && w < |h.workers|
  {
    h.(phase := Handing(w), log := h.log + [Decision(h.phase.m, true)],
       workers := h.workers[w := h.workers[w].(queue := h.workers[w].queue + [h.phase.m])])
  }

  function Next(h: Hub, e: Event, route: Router): Outcome
    requires Enabled(h, e)
  {
    match e
    case Push(p, m) => Running(h.(queue := h.queue + [m], between := h.between + {p}, pushed := h.pushed + [m]))
    case Notify(p) => Running(h.(tokens := h.tokens + 1, between := h.between - {p}))
    case Wake =>
      if h.queue == [] then NullMessage
      else Running(h.(tokens := h.tokens - 1, queue := h.queue[1..], phase := Popped(h.queue[0])))
    case Dispatch(certificate) =>
      var to := route(h.phase.m.stream);
      if !certificate || to.None? || to.value >= |h.workers| then Running(TurnAway(h)) else Running(HandTo(h, to.value))
    case Pass =>
      var w := h.phase.w;
      Running(h.(phase := Ready, workers := h.workers[w := h.workers[w].(tokens := h.workers[w].tokens + 1)]))
    case WorkerWake(w) =>
      var k := h.workers[w].(tokens := h.workers[w].tokens - 1);
      Running(h.(workers := h.workers[w :=
        if k.queue == [] then k else k.(queue := k.queue[1..], taken := k.taken + [k.queue[0]])]))
  }

  function Exec(h: Hub, es: seq<Event>, route: Router): Outcome
    decreases |es|
  {
    if es == [] then Running(h)
    else if !Enabled(h, es[0]) then Exec(h, es[1..], route)
    else match Next(h, es[0], route)
      case NullMessage => NullMessage
      case Running(t) => Exec(t, es[1..], route)
  }

  // -------------------------------------------------------------------- filters

  function Accepted(log: seq<Decision>): seq<Msg> {
    if log == [] then []
    else Accepted(log[..|log| - 1]) + (if log[|log| - 1].accepted then [log[|log| - 1].m] else [])
  }

  function Messages(log: seq<Decision>): seq<Msg> {
    if log == [] then [] else Messages(log[..|log| - 1]) + [log[|log| - 1].m]
  }

  function ToWorker(ms: seq<Msg>, w: nat, route: Router): seq<Msg> {
    if ms == [] then []
    else ToWorker(ms[..|ms| - 1], w, route) + (if route(ms[|ms| - 1].stream) == Some(w) then [ms[|ms| - 1]] else [])
  }

  function OfStream(ms: seq<Msg>, name: string): seq<Msg> {
    if ms == [] then []
    else OfStream(ms[..|ms| - 1], name) + (if ms[|ms| - 1].stream == name then [ms[|ms| - 1]] else [])
  }

  lemma {:induction false} OfStreamAppend(a: seq<Msg>, b: seq<Msg>, name: string)
    ensures OfStream(a + b, name) == OfStream(a, name) + OfStream(b, name)
    decreases |b|
  {
    if b == [] {
      assert a + b == a;
    } else {
      var n := |b| - 1;
      OfStreamAppend(a, b[..n], name);
      assert (a + b)[..|a + b| - 1] == a + b[..n];
    }
  }

  lemma {:induction false} OneWorkerPerStream(ms: seq<Msg>, w: nat, name: string, route: Router)
    ensures OfStream(ToWorker(ms, w, route), name) == if route(name) == Some(w) then OfStream(ms, name) else []
    decreases |ms|
  {
    if ms != [] {
      var n := |ms| - 1;
      OneWorkerPerStream(ms[..n], w, name, route);
      var last := if route(ms[n].stream) == Some(w) then [ms[n]] else [];
      OfStreamAppend(ToWorker(ms[..n], w, route), last, name);
      OfStreamOne(ms[n], name);
    }
  }

  lemma OfStreamOne(m: Msg, name: string)
    ensures OfStream([m], name) == if m.stream == name then [m] else []
    ensures OfStream([], name) == []
  {
    assert [m][..0] == [];
  }

  // ------------------------------------------------------------------ invariant

  // The message the server has popped and not yet decided on.
  function Held(h: Hub): seq<Msg> { if h.phase.Popped? then [h.phase.m] else [] }

  predicate WorkerOk(h: Hub, w: nat, route: Router)
    requires w < |h.workers|
  {
    && |h.workers[w].queue| == h.workers[w].tokens + (if h.phase == Handing(w) then 1 else 0)
    && h.workers[w].taken + h.workers[w].queue == ToWorker(Accepted(h.log), w, route)
  }

  // Nothing pushed is lost: it has been decided on, is held, or is queued.
  predicate Accounted(h: Hub) { h.pushed == Messages(h.log) + Held(h) + h.queue }

  predicate Inv(h: Hub, route: Router) {
    && |h.queue| == h.tokens + |h.between|
    && Accounted(h)
    && (h.phase.Handing? ==> h.phase.w < |h.workers|)
    && forall w :: 0 <= w < |h.workers| ==> WorkerOk(h, w, route)
  }

  lemma SnocLog(log: seq<Decision>, d: Decision)
    ensures Accepted(log + [d]) == Accepted(log) + (if d.accepted then [d.m] else [])
    ensures Messages(log + [d]) == Messages(log) + [d.m]
  {
    assert (log + [d])[..|log|] == log;
  }

  lemma SnocToWorker(ms: seq<Msg>, m: Msg, w: nat, route: Router)
    ensures ToWorker(ms + [m], w, route) == ToWorker(ms, w, route) + (if route(m.stream) == Some(w) then [m] else [])
  {
    assert (ms + [m])[..|ms|] == ms;
  }

  lemma FrontAccounts(h: Hub, e: Event, route: Router)
    requires Accounted(h) && Enabled(h, e) && (e.Push? || e.Notify? || (e.Wake? && h.queue != []))
    ensures Next(h, e, route).Running? && Accounted(Next(h, e, route).h)
  {
    hide Messages;
    if e.Push? {
      QueueAppend(Messages(h.log) + Held(h), h.queue, e.m);
    } else if e.Wake? {
      HeadIsHeld(Messages(h.log), h.queue);
    }
  }

  lemma HeadIsHeld(log: seq<Msg>, queue: seq<Msg>)
    requires queue != []
    ensures log + [] + queue == log + [queue[0]] + queue[1..]
  {
  }

  lemma FrontStepKeepsInv(h: Hub, e: Event, route: Router)
    requires Inv(h, route) && Enabled(h, e) && (e.Push? || e.Notify? || e.Wake?)
    ensures Next(h, e, route).Running? && Inv(Next(h, e, route).h, route)
  {
    hide Accounted, ToWorker, Accepted;
    FrontAccounts(h, e, route);
    var t := Next(h, e, route).h;
    forall w | 0 <= w < |t.workers|
      ensures WorkerOk(t, w, route)
    {
      assert WorkerOk(h, w, route);
    }
  }

  lemma RefuseKeepsWorker(h: Hub, w: nat, route: Router)
    requires h.phase.Popped? && w < |h.workers| && WorkerOk(h, w, route)
    ensures WorkerOk(TurnAway(h), w, route)
  {
    hide ToWorker, Accepted;
    SnocLog(h.log, Decision(h.phase.m, false));
    assert Accepted(h.log) + [] == Accepted(h.log);
  }

  // A message turned away: the log grows, the workers see nothing.
  lemma RefuseKeepsInv(h: Hub, route: Router)
    requires Inv(h, route) && h.phase.Popped?
    ensures Inv(TurnAway(h), route)
  {
    var t := TurnAway(h);
    hide WorkerOk, Accounted;
    DecidedAccounts(h, t, false);
    forall w | 0 <= w < |t.workers|
      ensures WorkerOk(t, w, route)
    {
      RefuseKeepsWorker(h, w, route);
    }
  }

  // One more accepted message: it goes to the worker it is routed to.
  lemma AcceptedTo(log: seq<Decision>, m: Msg, w: nat, route: Router)
    ensures ToWorker(Accepted(log + [Decision(m, true)]), w, route) ==
            ToWorker(Accepted(log), w, route) + (if route(m.stream) == Some(w) then [m] else [])
  {
    hide ToWorker, Accepted;
    SnocLog(log, Decision(m, true));
    SnocToWorker(Accepted(log), m, w, route);
  }

  // A message handed on: the routed worker's queue grows by it, and only that one.
  lemma QueueGrows(k: Worker, m: Msg, log: seq<Decision>, to: nat, w: nat, route: Router)
    requires k.taken + k.queue == ToWorker(Accepted(log), w, route) && route(m.stream) == Some(to)
    ensures k.taken + (if w == to then k.queue + [m] else k.queue) ==
            ToWorker(Accepted(log + [Decision(m, true)]), w, route)
  {
    hide ToWorker, Accepted;
    AcceptedTo(log, m, w, route);
    QueueAppend(k.taken, k.queue, m);
  }

  lemma QueueAppend(taken: seq<Msg>, queue: seq<Msg>, m: Msg)
    ensures taken + (queue + [m]) == taken + queue + [m]
  {
  }

  lemma HandKeepsWorker(h: Hub, to: nat, w: nat, route: Router)
    requires h.phase.Popped? && w < |h.workers| && to < |h.workers| && route(h.phase.m.stream) == Some(to)
    requires WorkerOk(h, w, route)
    ensures WorkerOk(HandTo(h, to), w, route)
  {
    hide ToWorker, Accepted;
    QueueGrows(h.workers[w], h.phase.m, h.log, to, w, route);
  }

  lemma DecidedAccounts(h: Hub, t: Hub, accepted: bool)
    requires h.phase.Popped? && Accounted(h)
    requires !t.phase.Popped? && t.log == h.log + [Decision(h.phase.m, accepted)]
    requires t.pushed == h.pushed && t.queue == h.queue
    ensures Accounted(t)
  {
    hide Messages;
    SnocLog(h.log, Decision(h.phase.m, accepted));
    LogTakesOver(Messages(h.log), h.phase.m, h.queue);
  }

  lemma HandKeepsInv(h: Hub, to: nat, route: Router)
    requires Inv(h, route) && h.phase.Popped? && route(h.phase.m.stream) == Some(to) && to < |h.workers|
    ensures Inv(HandTo(h, to), route)
  {
    var t := HandTo(h, to);
    hide WorkerOk, Accounted;
    DecidedAccounts(h, t, true);
    forall w | 0 <= w < |t.workers|
      ensures WorkerOk(t, w, route)
    {
      HandKeepsWorker(h, to, w, route);
    }
  }

  lemma LogTakesOver(log: seq<Msg>, m: Msg, queue: seq<Msg>)
    ensures log + [m] + [] + queue == log + [m] + queue
  {
  }

  lemma BackStepKeepsInv(h: Hub, e: Event, route: Router)
    requires Inv(h, route) && Enabled(h, e) && (e.Pass? || e.WorkerWake?)
    ensures Next(h, e, route).Running? && Inv(Next(h, e, route).h, route)
  {
    var t := Next(h, e, route).h;
    forall w | 0 <= w < |t.workers|
      ensures WorkerOk(t, w, route)
    {
      assert WorkerOk(h, w, route);
      hide ToWorker, Accepted;
      if e == WorkerWake(w) && h.workers[w].queue != [] {
        var k := h.workers[w];
        assert k.taken + k.queue == k.taken + [k.queue[0]] + k.queue[1..];
      }
    }
  }

  lemma {:induction false} ExecKeepsInv(h: Hub, es: seq<Event>, route: Router)
    requires Inv(h, route)
    ensures Exec(h, es, route).Running? && Inv(Exec(h, es, route).h, route) &&
            |Exec(h, es, route).h.workers| == |h.workers|
    decreases |es|
  {
    if es == [] {
    } else if Enabled(h, es[0]) {
      var e := es[0];
      if e.Push? || e.Notify? || e.Wake? {
        FrontStepKeepsInv(h, e, route);
      } else if e.Dispatch? {
        RefuseKeepsInv(h, route);
        var to := route(h.phase.m.stream);
        if to.Some? && to.value < |h.workers| {
          HandKeepsInv(h, to.value, route);
        }
        hide Inv;
      } else {
        BackStepKeepsInv(h, e, route);
      }
      assert |Next(h, e, route).h.workers| == |h.workers|;
      hide Next, Inv;
      ExecKeepsInv(Next(h, e, route).h, es[1..], route);
    } else {
      hide Inv;
      ExecKeepsInv(h, es[1..], route);
    }
  }

  lemma InitInv(workers: nat, route: Router)
    ensures Inv(Init(workers), route)
  {
  }

  /** In every interleaving: the server's queue holds one message for each pipe token and for each
      producer between push and notify, so a wake-up never finds it empty; the same holds between
      the server and each worker. */
  lemma NoWakeWithoutMessage(es: seq<Event>, workers: nat, route: Router)
    ensures Exec(Init(workers), es, route).Running?
    ensures var h := Exec(Init(workers), es, route).h;
      && |h.queue| == h.tokens + |h.between|
      && (Enabled(h, Wake) ==> h.queue != [])
      && (forall w :: 0 <= w < |h.workers| ==>
            |h.workers[w].queue| == h.workers[w].tokens + (if h.phase == Handing(w) then 1 else 0))
  {
    InitInv(workers, route);
    ExecKeepsInv(Init(workers), es, route);
    var h := Exec(Init(workers), es, route).h;
    forall w | 0 <= w < |h.workers|
      ensures |h.workers[w].queue| == h.workers[w].tokens + (if h.phase == Handing(w) then 1 else 0)
    {
      assert WorkerOk(h, w, route);
    }
  }

  // Nothing of this stream was turned away.
  predicate NoneRefused(log: seq<Decision>, name: string) {
    forall i :: 0 <= i < |log| && log[i].m.stream == name ==> log[i].accepted
  }

  lemma {:induction false} AcceptedAll(log: seq<Decision>, name: string)
    requires NoneRefused(log, name)
    ensures OfStream(Accepted(log), name) == OfStream(Messages(log), name)
    decreases |log|
  {
    if log != [] {
      var n := |log| - 1;
      AcceptedAll(log[..n], name);
      OfStreamAppend(Accepted(log[..n]), if log[n].accepted then [log[n].m] else [], name);
      OfStreamAppend(Messages(log[..n]), [log[n].m], name);
      OfStreamOne(log[n].m, name);
    }
  }

  // ------------------------------------------------------------------- decisions

  // The answers of the certificate check, in the order the server got them.
  function Certificates(h: Hub, es: seq<Event>, route: Router): seq<bool>
    decreases |es|
  {
    if es == [] then []
    else if !Enabled(h, es[0]) then Certificates(h, es[1..], route)
    else match Next(h, es[0], route)
      case NullMessage => []
      case Running(t) => (if es[0].Dispatch? then [es[0].certificate] else []) + Certificates(t, es[1..], route)
  }

  predicate Routed(m: Msg, workers: nat, route: Router) {
    route(m.stream).Some? && route(m.stream).value < workers
  }

  // The log has grown by one decision for each answer: accepted exactly with a certificate and a worker to go to.
  predicate Decided(before: seq<Decision>, after: seq<Decision>, answers: seq<bool>, workers: nat, route: Router) {
    && |after| == |before| + |answers| && after[..|before|] == before
    && forall i :: 0 <= i < |answers| ==>
         (after[|before| + i].accepted <==> answers[i] && Routed(after[|before| + i].m, workers, route))
  }

  lemma OneDecided(h: Hub, e: Event, route: Router)
    requires Enabled(h, e) && Next(h, e, route).Running?
    ensures |Next(h, e, route).h.workers| == |h.workers|
    ensures Decided(h.log, Next(h, e, route).h.log, if e.Dispatch? then [e.certificate] else [], |h.workers|, route)
  {
  }

  lemma DecidedTwice(a: seq<Decision>, b: seq<Decision>, c: seq<Decision>, x: seq<bool>, y: seq<bool>, workers: nat,
      route: Router)
    requires Decided(a, b, x, workers, route) && Decided(b, c, y, workers, route)
    ensures Decided(a, c, x + y, workers, route)
  {
    assert c[..|a|] == c[..|b|][..|a|];
    forall i | 0 <= i < |x + y|
      ensures c[|a| + i].accepted <==> (x + y)[i] && Routed(c[|a| + i].m, workers, route)
    {
      if i < |x| {
        assert c[|a| + i] == c[..|b|][|a| + i] == b[|a| + i];
      } else {
        assert c[|a| + i] == c[|b| + (i - |x|)];
      }
    }
  }

  /** Over every run: each message the server pops is handed on exactly if the certificate check then succeeds and the
      message is routed to a worker there is. */
  lemma {:induction false} LogIsDecided(h: Hub, es: seq<Event>, route: Router)
    requires Exec(h, es, route).Running?
    ensures Decided(h.log, Exec(h, es, route).h.log, Certificates(h, es, route), |h.workers|, route)
    decreases |es|
  {
    if es == [] {
      assert h.log[..|h.log|] == h.log;
    } else if Enabled(h, es[0]) {
      OneDecided(h, es[0], route);
      hide Next, Decided;
      var t := Next(h, es[0], route).h;
      LogIsDecided(t, es[1..], route);
      DecidedTwice(h.log, t.log, Exec(t, es[1..], route).h.log, if es[0].Dispatch? then [es[0].certificate] else [],
                   Certificates(t, es[1..], route), |h.workers|, route);
    } else {
      hide Decided;
      LogIsDecided(h, es[1..], route);
    }
  }

  // The certificate check never fails.
  predicate AllCertified(es: seq<Event>) { forall i :: 0 <= i < |es| && es[i].Dispatch? ==> es[i].certificate }

  lemma {:induction false} AllAnswersYes(h: Hub, es: seq<Event>, route: Router)
    requires AllCertified(es)
    ensures forall i :: 0 <= i < |Certificates(h, es, route)| ==> Certificates(h, es, route)[i]
    decreases |es|
  {
    if es != [] {
      hide Next;
      if !Enabled(h, es[0]) {
        AllAnswersYes(h, es[1..], route);
      } else if Next(h, es[0], route).Running? {
        AllAnswersYes(Next(h, es[0], route).h, es[1..], route);
      }
    }
  }

  lemma CertifiedRefusesNone(es: seq<Event>, workers: nat, route: Router, name: string)
    requires AllCertified(es) && route(name).Some? && route(name).value < workers
    requires Exec(Init(workers), es, route).Running?
    ensures NoneRefused(Exec(Init(workers), es, route).h.log, name)
  {
    var start := Init(workers);
    LogIsDecided(start, es, route);
    AllAnswersYes(start, es, route);
    assert |start.workers| == workers && start.log == [];
    hide Exec, Certificates;
    var log := Exec(start, es, route).h.log;
    forall i | 0 <= i < |log| && log[i].m.stream == name
      ensures log[i].accepted
    {
      assert Certificates(start, es, route)[i] && log[i] == log[|start.log| + i];
    }
  }

  /** All messages of one stream go to one worker and stay in the order they were pushed: if the certificate check never
      fails, what that worker has taken, then what waits for it, then what the server still holds, is exactly the pushed
      sequence; in any case the worker has what was accepted; and no other worker sees any of it. */
  lemma StreamOrderKept(es: seq<Event>, workers: nat, route: Router, name: string, w: nat)
    requires w < workers
    ensures Exec(Init(workers), es, route).Running?
    ensures var h := Exec(Init(workers), es, route).h;
      && |h.workers| == workers
      && (route(name) != Some(w) ==> OfStream(h.workers[w].taken + h.workers[w].queue, name) == [])
      && (route(name) == Some(w) ==>
            OfStream(h.workers[w].taken + h.workers[w].queue, name) == OfStream(Accepted(h.log), name))
      && (route(name) == Some(w) && AllCertified(es) ==>
            OfStream(h.workers[w].taken, name) + OfStream(h.workers[w].queue, name) + OfStream(Held(h) + h.queue, name)
            == OfStream(h.pushed, name))
  {
    InitInv(workers, route);
    hide Inv, OfStream, NoneRefused, AllCertified, Accepted;
    ExecKeepsInv(Init(workers), es, route);
    if route(name) == Some(w) && AllCertified(es) {
      CertifiedRefusesNone(es, workers, route, name);
    }
    hide Exec;
    OrderFromInv(Exec(Init(workers), es, route).h, route, name, w);
  }

  /** The same for the routing the server does: with all its workers running, the worker a stream is hashed to gets
      all its messages in order, and no other worker gets any. */
  lemma StreamOrderByHash(es: seq<Event>, cfg: Config, name: string, other: nat)
    requires 0 < cfg.workers == cfg.workerNum && other < cfg.workers && AllCertified(es)
    ensures Exec(Init(cfg.workers), es, RouterOf(cfg)).Running?
    ensures var h := Exec(Init(cfg.workers), es, RouterOf(cfg)).h;
      var w := cfg.crc(name) % cfg.workers;
      && |h.workers| == cfg.workers
      && OfStream(h.workers[w].taken, name) + OfStream(h.workers[w].queue, name) + OfStream(Held(h) + h.queue, name)
         == OfStream(h.pushed, name)
      && (other != w ==> OfStream(h.workers[other].taken + h.workers[other].queue, name) == [])
  {
    hide Exec, OfStream, AllCertified;
    StreamOrderKept(es, cfg.workers, RouterOf(cfg), name, cfg.crc(name) % cfg.workers);
    StreamOrderKept(es, cfg.workers, RouterOf(cfg), name, other);
  }

  lemma OrderFromInv(h: Hub, route: Router, name: string, w: nat)
    requires Inv(h, route) && w < |h.workers|
    ensures OfStream(h.workers[w].taken + h.workers[w].queue, name) ==
            if route(name) == Some(w) then OfStream(Accepted(h.log), name) else []
    ensures route(name) == Some(w) && NoneRefused(h.log, name) ==>
      OfStream(h.workers[w].taken, name) + OfStream(h.workers[w].queue, name) + OfStream(Held(h) + h.queue, name)
      == OfStream(h.pushed, name)
  {
    assert WorkerOk(h, w, route);
    PushedParts(Messages(h.log), Held(h), h.queue);
    var taken, waiting := h.workers[w].taken, h.workers[w].queue;
    var accepted, rest := Accepted(h.log), Held(h) + h.queue;
    assert taken + waiting == ToWorker(accepted, w, route) && h.pushed == Messages(h.log) + rest;
    hide *;
    OneWorkerPerStream(accepted, w, name, route);
    OfStreamAppend(taken, waiting, name);
    if NoneRefused(h.log, name) {
      AcceptedAll(h.log, name);
      OfStreamAppend(Messages(h.log), rest, name);
    }
  }

  lemma PushedParts(a: seq<Msg>, b: seq<Msg>, c: seq<Msg>)
    ensures a + b + c == a + (b + c)
  {
  }

  // ---------------------------------------------------------------------- classes

  /** The queue and pipe of RtcServer as objects: push under the mutex, then a token. */
  class RtcServer {
    var queue: seq<Msg>
    var tokens: nat

    constructor ()
      ensures queue == [] && tokens == 0
    {
      queue, tokens := [], 0;
    }

    // The part of the hub that this object is.
    ghost predicate IsServerOf(h: Hub)
      reads this
    {
      queue == h.queue && tokens == h.tokens
    }

    /** The push step of any signaling worker. */
    method PushMsg(m: Msg)
      modifies `queue
      ensures queue == old(queue) + [m]
      ensures forall h, p, route :: old(IsServerOf(h)) && Enabled(h, Push(p, m)) ==>
                IsServerOf(Next(h, Push(p, m), route).h)
    {
      queue := queue + [m];
    }

    method PopMsg() returns (m: Option<Msg>)
      modifies `queue
      ensures m == None <==> old(queue) == []
      ensures m.Some? ==> old(queue) == [m.value] + queue
      ensures m.None? ==> queue == old(queue)
    {
      if queue == [] {
        return None;
      }
      m := Some(queue[0]);
      queue := queue[1..];
    }

    /** The notify step of any signaling worker. */
    method WriteToken()
      modifies `tokens
      ensures tokens == old(tokens) + 1
      ensures forall h, p, route :: old(IsServerOf(h)) && Enabled(h, Notify(p)) ==>
              IsServerOf(Next(h, Notify(p), route).h)
    {
      tokens := tokens + 1;
    }

    method SendRtcMsg(m: Msg)
      modifies this
      ensures queue == old(queue) + [m] && tokens == old(tokens) + 1
    {
      PushMsg(m);
      WriteToken();
    }

    /** The wake step of the server: a token is read, and the message popped is null exactly if the step says so. */
    method WakeUp() returns (m: Option<Msg>)
      requires tokens > 0
      modifies this
      ensures m == None ==>
                forall h, route :: old(IsServerOf(h)) && Enabled(h, Wake) ==> Next(h, Wake, route) == NullMessage
      ensures m.Some? ==>
                forall h, route :: old(IsServerOf(h)) && Enabled(h, Wake) ==>
                  && Next(h, Wake, route).Running? && IsServerOf(Next(h, Wake, route).h)
                  && Next(h, Wake, route).h.phase == Popped(m.value)
    {
      tokens := tokens - 1;
      m := PopMsg();
    }
  }
}
