/** The start race of src/pc/dtls_transport.cpp: the ClientHello, the answer's fingerprint and ICE
    becoming writable arrive in any order, any number of times, mixed with packets that are
    dropped. Certificate set, library calls succeeding. */
module DtlsStart {
  import opened Wrappers
  import opened Bytes
  import opened DtlsRecords
  import opened DtlsEndpoint

  // One negotiation: the peer's ClientHello and the digest in its answer.
  datatype Peer = Peer(hello: Data, alg: string, digest: Data)

  predicate PeerOk(p: Peer) { IsClientHello(p.hello) && WalkOk(p.hello) && p.alg != "" && p.digest != [] }

  datatype Arrival = Hello | Answer | Writable | Junk(b: Data)

  // Dropped in the new state because it is no ClientHello, and after the start because it is
  // not a run of complete DTLS records.
  predicate Dropped(b: Data) { !IsClientHello(b) && !(IsDtls(b) && WalkOk(b)) }

  predicate ArrivalsOk(es: seq<Arrival>) { forall i :: 0 <= i < |es| && es[i].Junk? ==> Dropped(es[i].b) }

  const GOOD := Ssl(true, true, false, true, true, true, true)

  function ToEvent(p: Peer, e: Arrival): Event {
    match e
    case Hello => Packet(p.hello)
    case Answer => Fingerprint(p.alg, p.digest)
    case Writable => IceWritable(true)
    case Junk(b) => Packet(b)
  }

  // The transport once its certificate is set, after these arrivals.
  function Run(p: Peer, cert: nat, es: seq<Arrival>, x: Exporter): Endpoint {
    if es == [] then SetLocalCertificate(INITIAL, Some(cert)).0
    else
      var n := |es| - 1;
      Handle(Run(p, cert, es[..n], x), ToEvent(p, es[n]), x, GOOD)
  }

  // ---------------------------------------------------------- what must come out

  predicate Has(es: seq<Arrival>, e: Arrival) { exists i :: 0 <= i < |es| && es[i] == e }

  // The handshake has begun: ICE is writable and something created the adapter.
  predicate Begun(es: seq<Arrival>) { Has(es, Writable) && (Has(es, Hello) || Has(es, Answer)) }

  // One injection for all ClientHellos up to the start, then one for each later one.
  function Injections(es: seq<Arrival>): nat {
    if es == [] || !Begun(es) then 0
    else
      var front, last := es[..|es| - 1], es[|es| - 1];
      if !Begun(front) then (if Has(es, Hello) then 1 else 0)
      else Injections(front) + (if last == Hello then 1 else 0)
  }

  function Expected(p: Peer, cert: nat, es: seq<Arrival>): Endpoint {
    var begun := Begun(es);
    var answered := Has(es, Answer);
    Endpoint(
      Has(es, Writable),
      if begun then Connecting else New,
      false, true, Some(cert),
      if Has(es, Hello) || answered then
        Some(Adapter(0, if begun then 1 else 0, if answered then Some(p.digest) else None,
                     seq(Injections(es), _ => p.hello)))
      else None,
      if Has(es, Hello) && !begun then p.hello else [],
      if answered then p.alg else "", if answered then p.digest else [],
      None, None,
      if Has(es, Hello) || answered then 1 else 0, [])
  }

  lemma HasSnoc(es: seq<Arrival>, e: Arrival, q: Arrival)
    ensures Has(es + [e], q) <==> Has(es, q) || e == q
  {
    var all := es + [e];
    if Has(es, q) {
      var i :| 0 <= i < |es| && es[i] == q;
      assert all[i] == q;
    }
    if e == q {
      assert all[|es|] == q;
    }
  }

  lemma SeqSnoc(b: Data, n: nat)
    ensures seq(n + 1, _ => b) == seq(n, _ => b) + [b]
  {
  }

  // How one more arrival changes what is expected.
  lemma ExpectedSnoc(es: seq<Arrival>, e: Arrival)
    ensures Has(es + [e], Hello) <==> Has(es, Hello) || e == Hello
    ensures Has(es + [e], Answer) <==> Has(es, Answer) || e == Answer
    ensures Has(es + [e], Writable) <==> Has(es, Writable) || e == Writable
    ensures Injections(es + [e]) ==
      if !Begun(es + [e]) then 0
      else if !Begun(es) then (if Has(es + [e], Hello) then 1 else 0)
      else Injections(es) + (if e == Hello then 1 else 0)
  {
    HasSnoc(es, e, Hello);
    HasSnoc(es, e, Answer);
    HasSnoc(es, e, Writable);
    var all := es + [e];
    assert all[..|all| - 1] == es && all[|all| - 1] == e;
  }

  // One arrival takes the expected state to the expected state.
  lemma StepIsExpected(p: Peer, cert: nat, es: seq<Arrival>, e: Arrival, x: Exporter)
    requires PeerOk(p) && (e.Junk? ==> Dropped(e.b))
    ensures Handle(Expected(p, cert, es), ToEvent(p, e), x, GOOD) == Expected(p, cert, es + [e])
  {
    ExpectedSnoc(es, e);
    SeqSnoc(p.hello, Injections(es));
    SeqSnoc(p.hello, 0);
    hide Has, WalkOk, IsClientHello, IsDtls, Injections;
    match e {
      case Hello => HelloStep(p, cert, es, x);
      case Answer => AnswerStep(p, cert, es, x);
      case Writable => WritableStep(p, cert, es, x);
      case Junk(b) =>
    }
  }

  lemma HelloStep(p: Peer, cert: nat, es: seq<Arrival>, x: Exporter)
    requires PeerOk(p)
    ensures OnPacket(Expected(p, cert, es), p.hello, x, GOOD) == Expected(p, cert, es + [Hello])
  {
    ExpectedSnoc(es, Hello);
    SeqSnoc(p.hello, Injections(es));
    SeqSnoc(p.hello, 0);
    assert IsDtls(p.hello) && p.hello != [];
    hide Has, WalkOk, IsClientHello, IsDtls, Injections;
  }

  lemma AnswerStep(p: Peer, cert: nat, es: seq<Arrival>, x: Exporter)
    requires PeerOk(p)
    ensures SetRemoteFingerprint(Expected(p, cert, es), p.alg, p.digest, x, GOOD).0 == Expected(p, cert, es + [Answer])
  {
    ExpectedSnoc(es, Answer);
    SeqSnoc(p.hello, 0);
    hide Has, WalkOk, IsClientHello, Injections;
  }

  lemma WritableStep(p: Peer, cert: nat, es: seq<Arrival>, x: Exporter)
    requires PeerOk(p)
    ensures OnIceWritable(Expected(p, cert, es), true, x, GOOD) == Expected(p, cert, es + [Writable])
  {
    ExpectedSnoc(es, Writable);
    SeqSnoc(p.hello, 0);
    assert p.hello != [];
    hide Has, WalkOk, IsClientHello, Injections;
  }

  /** The exact state after any arrivals, in any order. */
  lemma {:induction false} RunIsExpected(p: Peer, cert: nat, es: seq<Arrival>, x: Exporter)
    requires PeerOk(p) && ArrivalsOk(es)
    ensures Run(p, cert, es, x) == Expected(p, cert, es)
  {
    if es != [] {
      var n := |es| - 1;
      RunIsExpected(p, cert, es[..n], x);
      StepIsExpected(p, cert, es[..n], es[n], x);
      assert es == es[..n] + [es[n]];
    }
  }

  lemma {:induction false} HelloIsInjected(es: seq<Arrival>)
    requires Begun(es) && Has(es, Hello)
    ensures Injections(es) >= 1
  {
    var n := |es| - 1;
    assert es == es[..n] + [es[n]];
    HasSnoc(es[..n], es[n], Hello);
    if Begun(es[..n]) && Has(es[..n], Hello) {
      HelloIsInjected(es[..n]);
    }
  }

  // Nothing is injected twice: at most one injection per ClientHello received.
  function Hellos(es: seq<Arrival>): nat {
    if es == [] then 0 else Hellos(es[..|es| - 1]) + (if es[|es| - 1] == Hello then 1 else 0)
  }

  lemma {:induction false} InjectedAtMostOnceEach(es: seq<Arrival>)
    ensures Injections(es) <= Hellos(es)
    ensures Has(es, Hello) ==> Hellos(es) >= 1
  {
    if es != [] {
      var n := |es| - 1;
      assert es == es[..n] + [es[n]];
      HasSnoc(es[..n], es[n], Hello);
      InjectedAtMostOnceEach(es[..n]);
    }
  }

  /** Confluence: whatever the order, once the answer has arrived and ICE is writable the transport
      is connecting on one adapter, started exactly once, with the answer's digest and an empty
      cache, a ClientHello that arrived has been injected, and two orders end in states that
      differ at most in how many copies of the ClientHello the adapter was given. */
  lemma StartIsConfluent(p: Peer, cert: nat, es: seq<Arrival>, fs: seq<Arrival>, x: Exporter)
    requires PeerOk(p) && ArrivalsOk(es) && ArrivalsOk(fs)
    requires Has(es, Answer) && Has(es, Writable) && Has(fs, Answer) && Has(fs, Writable)
    ensures var v, w := Run(p, cert, es, x), Run(p, cert, fs, x);
      && v.state == Connecting && v.hello == [] && v.retired == []
      && v.adapter.Some? && v.adapter.value.starts == 1 && v.adapter.value.digest == Some(p.digest)
      && (Has(es, Hello) ==> 1 <= |v.adapter.value.injected| <= Hellos(es))
      && (forall i :: 0 <= i < |v.adapter.value.injected| ==> v.adapter.value.injected[i] == p.hello)
      && w.adapter.Some? && v == w.(adapter := Some(w.adapter.value.(injected := v.adapter.value.injected)))
  {
    RunIsExpected(p, cert, es, x);
    RunIsExpected(p, cert, fs, x);
    if Has(es, Hello) {
      HelloIsInjected(es);
    }
    InjectedAtMostOnceEach(es);
  }
}
