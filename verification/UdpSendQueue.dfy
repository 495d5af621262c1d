/** The send side of src/base/async_udp_socket.cpp: optimistic sending, a queue for what the kernel
    does not take, and WRITE interest. Datagrams are numbered in the order they are submitted; the
    kernel's answer to the k-th sock_send_to is `kernel(k)`, so statements hold for every pattern
    of accepting, blocking and failing. */
module UdpSendQueue {
  datatype Answer = Accepted | WouldBlock | Error

  type Kernel = nat -> Answer

  /** `queue` and `armed` are the socket's state; the rest is history: datagrams submitted, those sent
      and those dropped on error, in the order it happened, and the calls made to the kernel. */
  datatype Sock = Sock(queue: seq<nat>, armed: bool, submitted: nat, sent: seq<nat>, dropped: seq<nat>, calls: nat)

  const FRESH := Sock([], false, 0, [], [], 0)

  // _send_data_from_list: the socket afterwards and the value returned.
  function Drain(s: Sock, kernel: Kernel): (Sock, bool)
    decreases |s.queue|
  {
    if s.queue == [] then (s, true)
    else
      var p, t := s.queue[0], s.(calls := s.calls + 1);
      match kernel(s.calls)
      case Error => (t.(dropped := s.dropped + [p], queue := s.queue[1..]), false)
      case WouldBlock => (t, false)
      case Accepted => Drain(t.(sent := s.sent + [p], queue := s.queue[1..]), kernel)
  }

  // send_data, called when the socket is writable.
  function OnWritable(s: Sock, kernel: Kernel): Sock {
    var t := Drain(s, kernel).0;
    if t.queue == [] then t.(armed := false) else t
  }

  function Enqueue(s: Sock): Sock {
    s.(queue := s.queue + [s.submitted], submitted := s.submitted + 1, armed := true)
  }

  // send_to
  function SendTo(s: Sock, kernel: Kernel): Sock {
    var (t, emptied) := Drain(s, kernel);
    if !emptied then Enqueue(t)
    else
      var u := t.(calls := t.calls + 1);
      match kernel(t.calls)
      case Error => u.(dropped := u.dropped + [u.submitted], submitted := u.submitted + 1)
      case WouldBlock => Enqueue(u)
      case Accepted => u.(sent := u.sent + [u.submitted], submitted := u.submitted + 1)
  }

  datatype Event = Submit | Writable

  function Exec(es: seq<Event>, kernel: Kernel): Sock {
    if es == [] then FRESH
    else
      var s := Exec(es[..|es| - 1], kernel);
      match es[|es| - 1]
      case Submit => SendTo(s, kernel)
      case Writable => OnWritable(s, kernel)
  }

  // ------------------------------------------------------------------ invariant

  predicate Increasing(xs: seq<nat>) { forall i, j :: 0 <= i < j < |xs| ==> xs[i] < xs[j] }

  predicate Below(xs: seq<nat>, n: nat) { forall i :: 0 <= i < |xs| ==> xs[i] < n }

  predicate Apart(xs: seq<nat>, ys: seq<nat>) { forall i, j :: 0 <= i < |xs| && 0 <= j < |ys| ==> xs[i] != ys[j] }

  // The queue holds exactly the latest submissions, in order.
  predicate QueueIsTail(s: Sock) {
    && |s.queue| <= s.submitted
    && forall i :: 0 <= i < |s.queue| ==> s.queue[i] == s.submitted - |s.queue| + i
  }

  function Gone(s: Sock): int { s.submitted - |s.queue| }

  predicate Inv(s: Sock) {
    && QueueIsTail(s)
    && Increasing(s.sent) && Increasing(s.dropped) && Apart(s.sent, s.dropped)
    && Below(s.sent, Gone(s)) && Below(s.dropped, Gone(s))
    && (forall k :: 0 <= k < Gone(s) ==> k in s.sent || k in s.dropped)
    && |s.sent| + |s.dropped| == Gone(s)
    && (s.queue != [] ==> s.armed)
  }

  // Taking the head of the queue keeps everything, whichever list it goes to.
  lemma TakeHead(s: Sock, toSent: bool)
    requires Inv(s) && s.queue != []
    ensures var t := s.(queue := s.queue[1..], calls := s.calls + 1);
      Inv(if toSent then t.(sent := s.sent + [s.queue[0]]) else t.(dropped := s.dropped + [s.queue[0]]))
  {
    assert s.queue[0] == Gone(s);
    KeepMembers(s.sent, s.queue[0]);
    KeepMembers(s.dropped, s.queue[0]);
  }

  lemma KeepMembers(xs: seq<nat>, x: nat)
    ensures x in xs + [x] && forall k :: k in xs ==> k in xs + [x]
  {
    assert (xs + [x])[|xs|] == x;
  }

  lemma {:induction false} DrainKeepsInv(s: Sock, kernel: Kernel)
    requires Inv(s)
    ensures Inv(Drain(s, kernel).0) && Drain(s, kernel).0.submitted == s.submitted &&
            Drain(s, kernel).0.armed == s.armed
    ensures Drain(s, kernel).1 ==> Drain(s, kernel).0.queue == []
    decreases |s.queue|
  {
    if s.queue != [] {
      TakeHead(s, kernel(s.calls).Accepted?);
      if kernel(s.calls).Accepted? {
        hide Inv;
        DrainKeepsInv(s.(sent := s.sent + [s.queue[0]], queue := s.queue[1..], calls := s.calls + 1), kernel);
      }
    }
  }

  lemma EnqueueKeepsInv(s: Sock)
    requires Inv(s)
    ensures Inv(Enqueue(s))
  {
  }

  // With nothing queued, the new datagram may go straight to either list.
  lemma DirectKeepsInv(s: Sock, accepted: bool)
    requires Inv(s) && s.queue == []
    ensures var t := s.(submitted := s.submitted + 1);
      Inv(if accepted then t.(sent := s.sent + [s.submitted]) else t.(dropped := s.dropped + [s.submitted]))
  {
    KeepMembers(s.sent, s.submitted);
    KeepMembers(s.dropped, s.submitted);
  }

  lemma CallsDoNotMatter(s: Sock, n: nat)
    requires Inv(s)
    ensures Inv(s.(calls := n))
  {
  }

  lemma SendToKeepsInv(s: Sock, kernel: Kernel)
    requires Inv(s)
    ensures Inv(SendTo(s, kernel))
  {
    hide Drain, Inv, Enqueue;
    DrainKeepsInv(s, kernel);
    var (t, emptied) := Drain(s, kernel);
    var u := t.(calls := t.calls + 1);
    CallsDoNotMatter(t, t.calls + 1);
    EnqueueKeepsInv(t);
    EnqueueKeepsInv(u);
    if emptied {
      DirectKeepsInv(u, kernel(t.calls).Accepted?);
    }
  }

  lemma OnWritableKeepsInv(s: Sock, kernel: Kernel)
    requires Inv(s)
    ensures Inv(OnWritable(s, kernel))
  {
    DrainKeepsInv(s, kernel);
    hide Drain;
  }

  lemma {:induction false} ExecKeepsInv(es: seq<Event>, kernel: Kernel)
    ensures Inv(Exec(es, kernel))
  {
    if es != [] {
      var s := Exec(es[..|es| - 1], kernel);
      ExecKeepsInv(es[..|es| - 1], kernel);
      SendToKeepsInv(s, kernel);
      OnWritableKeepsInv(s, kernel);
      hide SendTo, OnWritable, Inv;
    }
  }

  /** For every kernel behaviour: each submitted datagram is sent, dropped on error or queued, and only one of these,
      as often as the kernel accepted and failed; datagrams leave in the order they were submitted and none passes a
      queued one (the queue is exactly the latest submissions); a non-empty queue has WRITE interest. */
  lemma DatagramsConservedInOrder(es: seq<Event>, kernel: Kernel)
    ensures var s := Exec(es, kernel);
      && Increasing(s.sent) && Increasing(s.dropped) && Apart(s.sent, s.dropped)
      && |s.sent| + |s.dropped| + |s.queue| == s.submitted
      && (forall k :: 0 <= k < s.submitted ==> k in s.sent || k in s.dropped || k in s.queue)
      && (forall i :: 0 <= i < |s.queue| ==> s.queue[i] == s.submitted - |s.queue| + i)
      && (forall i :: 0 <= i < |s.sent| ==> s.sent[i] < s.submitted - |s.queue|)
      && (forall i :: 0 <= i < |s.dropped| ==> s.dropped[i] < s.submitted - |s.queue|)
      && (s.queue != [] ==> s.armed) && Tallied(s, kernel)
  {
    ExecKeepsInv(es, kernel);
    SentAndDroppedAreTallied(es, kernel);
    var s := Exec(es, kernel);
    hide Tallied, Exec;
    forall k | Gone(s) <= k < s.submitted
      ensures k in s.queue
    {
      assert s.queue[k - Gone(s)] == k;
    }
  }

  // ------------------------------------------------------------- what the kernel said

  // How many of the first n calls got this answer.
  function Count(kernel: Kernel, n: nat, a: Answer): nat {
    if n == 0 then 0 else Count(kernel, n - 1, a) + (if kernel(n - 1) == a then 1 else 0)
  }

  // Every call that was accepted sent a datagram, every error dropped one, and "would block" did neither.
  predicate Tallied(s: Sock, kernel: Kernel) {
    |s.sent| == Count(kernel, s.calls, Accepted) && |s.dropped| == Count(kernel, s.calls, Error)
  }

  lemma {:induction false} DrainTallies(s: Sock, kernel: Kernel)
    requires Tallied(s, kernel)
    ensures Tallied(Drain(s, kernel).0, kernel) && Drain(s, kernel).0.calls >= s.calls
    decreases |s.queue|
  {
    if s.queue != [] && kernel(s.calls) == Accepted {
      var t := s.(calls := s.calls + 1, sent := s.sent + [s.queue[0]], queue := s.queue[1..]);
      DrainTallies(t, kernel);
    }
  }

  /** Over every run: as many datagrams are sent as the kernel accepted, and as many are dropped as it refused with an
      error; none is lost because it said "would block". */
  lemma {:induction false} SentAndDroppedAreTallied(es: seq<Event>, kernel: Kernel)
    ensures Tallied(Exec(es, kernel), kernel)
  {
    if es != [] {
      var s := Exec(es[..|es| - 1], kernel);
      SentAndDroppedAreTallied(es[..|es| - 1], kernel);
      DrainTallies(s, kernel);
      hide Drain;
    }
  }

  /** The queue is drained as far as the kernel lets it: either it is empty, and that is what the value returned says,
      or the last call was refused. */
  lemma {:induction false} DrainGoesOn(s: Sock, kernel: Kernel)
    ensures var (t, emptied) := Drain(s, kernel);
      && (emptied ==> t.queue == []) && t.calls >= s.calls
      && (!emptied ==> t.calls > s.calls && kernel(t.calls - 1) != Accepted)
    decreases |s.queue|
  {
    if s.queue != [] && kernel(s.calls) == Accepted {
      DrainGoesOn(s.(calls := s.calls + 1, sent := s.sent + [s.queue[0]], queue := s.queue[1..]), kernel);
    }
  }

  /** When the socket becomes writable: if datagrams are left, the kernel refused the last call and WRITE interest
      stays as it was; if none is, WRITE interest is given up. */
  lemma WritableDrains(s: Sock, kernel: Kernel)
    ensures var t := OnWritable(s, kernel);
      && (t.queue == [] ==> !t.armed)
      && (t.queue != [] ==> t.armed == s.armed && t.calls > s.calls && kernel(t.calls - 1) != Accepted)
  {
    DrainGoesOn(s, kernel);
    DrainKeepsArmed(s, kernel);
    hide Drain;
  }

  lemma {:induction false} DrainKeepsArmed(s: Sock, kernel: Kernel)
    ensures Drain(s, kernel).0.armed == s.armed && Drain(s, kernel).0.submitted == s.submitted
    decreases |s.queue|
  {
    if s.queue != [] && kernel(s.calls) == Accepted {
      DrainKeepsArmed(s.(calls := s.calls + 1, sent := s.sent + [s.queue[0]], queue := s.queue[1..]), kernel);
    }
  }

  /** A datagram submitted is sent at once, dropped, or queued, as the kernel answers: queued only if some call was
      refused. */
  lemma SubmitTries(s: Sock, kernel: Kernel)
    ensures var t := SendTo(s, kernel);
      && t.submitted == s.submitted + 1 && t.calls > s.calls
      && (t.queue != [] ==> kernel(t.calls - 1) != Accepted && t.armed)
      && (t.queue == [] ==> kernel(t.calls - 1) != WouldBlock)
  {
    DrainGoesOn(s, kernel);
    DrainKeepsArmed(s, kernel);
    hide Drain;
  }

  // ------------------------------------------------------------------------ class

  class AsyncUdpSocket {
    var queue: seq<nat>
    var armed: bool
    var submitted: nat
    var calls: nat
    ghost var sent: seq<nat>
    ghost var dropped: seq<nat>

    ghost function View(): Sock
      reads this
    {
      Sock(queue, armed, submitted, sent, dropped, calls)
    }

    constructor ()
      ensures View() == FRESH
    {
      queue, armed, submitted, calls, sent, dropped := [], false, 0, 0, [], [];
    }

    method SendDataFromList(kernel: Kernel) returns (emptied: bool)
      modifies `queue, `calls, `sent, `dropped
      ensures (View(), emptied) == Drain(old(View()), kernel)
    {
      while queue != []
        invariant Drain(View(), kernel) == Drain(old(View()), kernel)
        decreases |queue|
      {
        var packet := queue[0];
        var answer := kernel(calls);
        calls := calls + 1;
        if answer == Error {
          dropped := dropped + [packet];
          queue := queue[1..];
          return false;
        } else if answer == WouldBlock {
          return false;
        } else {
          sent := sent + [packet];
          queue := queue[1..];
        }
      }
      return true;
    }

    method SendData(kernel: Kernel)
      modifies this
      ensures View() == OnWritable(old(View()), kernel)
    {
      var _ := SendDataFromList(kernel);
      if queue == [] {
        armed := false;
      }
    }

    method AddUdpPacket(kernel: Kernel)
      modifies this
      ensures View() == SendTo(old(View()), kernel)
    {
      var packet := submitted;
      var emptied := SendDataFromList(kernel);
      submitted := submitted + 1;
      if emptied {
        var answer := kernel(calls);
        calls := calls + 1;
        if answer == Error {
          dropped := dropped + [packet];
          return;
        }
        if answer == Accepted {
          sent := sent + [packet];
          return;
        }
      }
      queue := queue + [packet];
      armed := true;
    }
  }
}
