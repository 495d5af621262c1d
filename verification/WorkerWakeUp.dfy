/** The queue of one RtcWorker with the pipe that wakes it (src/server/rtc_worker.cpp): the RtcServer thread produces
    and then writes a token, the worker reads a token and then consumes. Both work on the queue by the single memory
    accesses of SpscQueue, in any interleaving. */
module WorkerWakeUp {
  import opened Wrappers
  import Q = SpscQueue

  /** `sending`: send_rtc_msg has been called and has not notified yet. `woken`: a token has been read and pop_msg has
      not returned yet. `missed`: pop_msg has returned false at some time. */
  datatype Mailbox<T> = Mailbox(queue: Q.State<T>, tokens: nat, sending: bool, woken: bool, missed: bool)

  datatype Event<T> =
    | Send(t: T, a: Q.Addr)   // the server calls send_rtc_msg; the allocator returns a
    | ServerStep              // one access inside produce
    | Notify                  // produce has returned: a token is written
    | Wake                    // the worker reads a token and calls pop_msg
    | WorkerStep              // one access inside consume

  datatype Outcome<T> = Running(m: Mailbox<T>) | Fault

  function Init<T>(a: Q.Addr, dummy: T): Mailbox<T> { Mailbox(Q.Init(a, dummy), 0, false, false, false) }

  predicate Enabled<T>(m: Mailbox<T>, e: Event<T>) {
    match e
    case Send(t, a) => !m.sending && Q.Enabled(m.queue, Q.Produce(t, a))
    case ServerStep => m.sending && Q.Enabled(m.queue, Q.ProducerStep)
    case Notify => m.sending && m.queue.prod.Idle?
    case Wake => !m.woken && m.tokens > 0 && Q.Enabled(m.queue, Q.Consume)
    case WorkerStep => m.woken && Q.Enabled(m.queue, Q.ConsumerStep)
  }

  // What the event does to the queue, if anything.
  function OnQueue<T>(e: Event<T>): Option<Q.Event<T>> {
    match e
    case Send(t, a) => Some(Q.Produce(t, a))
    case ServerStep => Some(Q.ProducerStep)
    case Notify => None
    case Wake => Some(Q.Consume)
    case WorkerStep => Some(Q.ConsumerStep)
  }

  function Around<T>(m: Mailbox<T>, e: Event<T>, queue: Q.State<T>): Mailbox<T> {
    match e
    case Send(_, _) => m.(queue := queue, sending := true)
    case ServerStep => m.(queue := queue)
    case Notify => m.(tokens := m.tokens + 1, sending := false)
    case Wake => m.(queue := queue, tokens := if m.tokens > 0 then m.tokens - 1 else 0, woken := true)
    case WorkerStep =>
      m.(queue := queue, woken := !queue.cons.Waiting?, missed := m.missed || (m.queue.cons.Guard? &&
          queue.cons.Waiting?))
  }

  function Next<T>(m: Mailbox<T>, e: Event<T>): Outcome<T>
    requires Enabled(m, e)
  {
    match OnQueue(e)
    case None => Running(Around(m, e, m.queue))
    case Some(qe) =>
      match Q.Next(m.queue, qe)
      case Fault => Fault
      case Running(queue) => Running(Around(m, e, queue))
  }

  function Exec<T>(m: Mailbox<T>, es: seq<Event<T>>): Outcome<T>
    decreases |es|
  {
    if es == [] then Running(m)
    else if !Enabled(m, es[0]) then Exec(m, es[1..])
    else match Next(m, es[0])
      case Fault => Fault
      case Running(n) => Exec(n, es[1..])
  }

  // ---------------------------------------------------------------- invariant

  // The message being sent is in the queue, its token is not written yet.
  predicate Ahead<T>(m: Mailbox<T>) { m.sending && !Q.Pending(m.queue) && !Q.Unpublished(m.queue) }

  // The token has been read, its message is still in the queue.
  predicate Behind<T>(m: Mailbox<T>) { m.woken && !m.queue.cons.Moved? }

  /** The queue holds one message for each token, one that runs ahead of its token, and one that lags behind. */
  ghost predicate Balanced<T>(m: Mailbox<T>) {
    && (m.woken <==> !m.queue.cons.Waiting?) && (!m.sending ==> m.queue.prod.Idle?)
    && m.queue.li - m.queue.di == m.tokens + (if Ahead(m) then 1 else 0) + (if Behind(m) then 1 else 0)
    && !m.missed
  }

  ghost predicate Inv<T>(m: Mailbox<T>) { Q.Inv(m.queue) && Balanced(m) }

  // How a step moves the two ends of the queue, and which step of produce or consume comes next.
  lemma ProduceMoves<T>(s: Q.State<T>)
    requires !s.prod.Idle? && Q.ProducerNext(s).Running?
    ensures var t := Q.ProducerNext(s).s;
      && t.li == s.li + (if s.prod.NextRead? then 1 else 0) && t.di == s.di && t.cons == s.cons
      && ((Q.Pending(t) || Q.Unpublished(t)) <==> (Q.Pending(s) || Q.Unpublished(s)) && !s.prod.NextRead?)
  {
  }

  lemma ConsumeMoves<T>(s: Q.State<T>)
    requires !s.cons.Waiting? && Q.ConsumerNext(s).Running?
    ensures var t := Q.ConsumerNext(s).s;
      && t.di == s.di + (if s.cons.MoveTo? then 1 else 0) && t.li == s.li && t.prod == s.prod
      && (t.cons.Moved? <==> s.cons.MoveTo?)
      && (t.cons.Waiting? <==> s.cons.Moved? || (s.cons.Guard? && s.cons.d == s.last))
  {
  }

  // With a message in the queue, consume finds divider and last apart.
  lemma GuardFindsMessage<T>(s: Q.State<T>)
    requires Q.Inv(s) && s.cons.Guard? && s.di < s.li
    ensures s.cons.d != s.last
  {
    assert Q.Lo(s) <= s.di < s.li < |s.chain|;
    assert s.chain[s.di] != s.chain[s.li];
  }

  lemma ServerStepKeepsInv<T>(m: Mailbox<T>)
    requires Inv(m) && Enabled(m, ServerStep)
    ensures Next(m, ServerStep).Running? && Inv(Next(m, ServerStep).m)
  {
    Q.NextKeepsInv(m.queue, Q.ProducerStep);
    ProduceMoves(m.queue);
    hide Q.Inv, Q.ProducerNext;
  }

  lemma WorkerStepKeepsInv<T>(m: Mailbox<T>)
    requires Inv(m) && Enabled(m, WorkerStep)
    ensures Next(m, WorkerStep).Running? && Inv(Next(m, WorkerStep).m)
  {
    Q.NextKeepsInv(m.queue, Q.ConsumerStep);
    ConsumeMoves(m.queue);
    if m.queue.cons.Guard? {
      GuardFindsMessage(m.queue);
    }
    hide Q.Inv, Q.ConsumerNext;
  }

  lemma CallKeepsInv<T>(m: Mailbox<T>, e: Event<T>)
    requires Inv(m) && Enabled(m, e) && (e.Send? || e.Notify? || e.Wake?)
    ensures Next(m, e).Running? && Inv(Next(m, e).m)
  {
    if e.Send? {
      Q.NextKeepsInv(m.queue, Q.Produce(e.t, e.a));
    } else if e.Wake? {
      Q.NextKeepsInv(m.queue, Q.Consume);
    }
    hide Q.Inv;
  }

  lemma {:induction false} ExecKeepsInv<T>(m: Mailbox<T>, es: seq<Event<T>>)
    requires Inv(m)
    ensures Exec(m, es).Running? && Inv(Exec(m, es).m)
    decreases |es|
  {
    if es != [] {
      if Enabled(m, es[0]) {
        match es[0] {
          case ServerStep => ServerStepKeepsInv(m);
          case WorkerStep => WorkerStepKeepsInv(m);
          case _ => CallKeepsInv(m, es[0]);
        }
        hide Inv, Next;
        ExecKeepsInv(Next(m, es[0]).m, es[1..]);
      } else {
        hide Inv;
        ExecKeepsInv(m, es[1..]);
      }
    }
  }

  lemma InitInv<T>(a: Q.Addr, dummy: T)
    ensures Inv(Init(a, dummy))
  {
  }

  /** In every interleaving of the two threads' memory accesses and of the pipe: no freed node is touched, pop_msg never
      returns false to a worker that was woken, messages come out in the order they went in, and when both threads are
      between messages there is exactly one token for each message not taken yet, so none is left lying. */
  lemma WakeUpFindsMessage<T>(a: Q.Addr, dummy: T, es: seq<Event<T>>)
    ensures Exec(Init(a, dummy), es).Running?
    ensures var m := Exec(Init(a, dummy), es).m;
      && !m.missed && m.queue.returned <= m.queue.produced
      && (!m.sending && !m.woken ==> m.tokens == |m.queue.produced| - |m.queue.returned|)
  {
    InitInv(a, dummy);
    ExecKeepsInv(Init(a, dummy), es);
    QuietCounts(Exec(Init(a, dummy), es).m.queue);
    hide Exec, Q.Inv;
  }

  lemma QuietCounts<T>(s: Q.State<T>)
    requires Q.Inv(s)
    ensures s.returned <= s.produced
    ensures s.prod.Idle? && s.cons.Waiting? ==> s.li - s.di == |s.produced| - |s.returned|
  {
  }
}
