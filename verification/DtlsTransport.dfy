/** class DtlsTransport of src/pc/dtls_transport.cpp with its SRTP listener, updated in place by
    the event handlers and proved against the functions of DtlsEndpoint. */
module DtlsTransport {
  import opened Wrappers
  import opened Bytes
  import opened DtlsRecords
  import opened DtlsEndpoint

  // memcpy into a buffer that is being filled from the front.
  method CopyBytes(dst: array<Byte>, at: nat, src: Data)
    requires at + |src| <= dst.Length
    modifies dst
    ensures dst[..at + |src|] == old(dst[..at]) + src
  {
    forall i | 0 <= i < |src| {
      dst[at + i] := src[i];
    }
  }

  // A key and its salt, one after the other in one buffer.
  method Assemble(key: Data, salt: Data) returns (both: Data)
    ensures both == key + salt
  {
    var buffer := new Byte[|key| + |salt|];
    CopyBytes(buffer, 0, key);
    assert buffer[..|key|] == key;
    CopyBytes(buffer, |key|, salt);
    both := buffer[..|key| + |salt|];
  }

  /** The split of _extract_params: four pieces at a moving offset. The server sends with the
      server's key and receives with the client's. */
  method SplitMaterial(m: Material) returns (sendKey: Data, recvKey: Data)
    requires MaterialOk(m)
    ensures sendKey == ServerKey(m) && recvKey == ClientKey(m)
    ensures |sendKey| == |recvKey| == m.keyLen + m.saltLen
  {
    var offset := 0;
    var clientKey := m.bytes[offset..offset + m.keyLen];
    offset := offset + m.keyLen;
    var serverKey := m.bytes[offset..offset + m.keyLen];
    offset := offset + m.keyLen;
    var clientSalt := m.bytes[offset..offset + m.saltLen];
    offset := offset + m.saltLen;
    var serverSalt := m.bytes[offset..offset + m.saltLen];
    recvKey := Assemble(clientKey, clientSalt);
    sendKey := Assemble(serverKey, serverSalt);
  }

  /** No exported byte is lost or used twice. */
  lemma MaterialIsPartitioned(m: Material)
    requires MaterialOk(m)
    ensures |ClientKey(m)| == |ServerKey(m)| == m.keyLen + m.saltLen
    ensures ClientKey(m)[..m.keyLen] + ServerKey(m)[..m.keyLen] + ClientKey(m)[m.keyLen..] +
            ServerKey(m)[m.keyLen..] == m.bytes
  {
    var k, s := m.keyLen, m.saltLen;
    assert ClientKey(m)[..k] == m.bytes[..k] && ClientKey(m)[k..] == m.bytes[2 * k..2 * k + s];
    assert ServerKey(m)[..k] == m.bytes[k..2 * k] && ServerKey(m)[k..] == m.bytes[2 * k + s..];
    hide ClientKey, ServerKey;
  }

  class DtlsTransport {
    var ice: bool
    var state: DtlsState
    var writable: bool
    var active: bool
    var certificate: Option<nat>
    var adapter: Option<Adapter>
    var hello: Data
    var alg: string
    var fingerprint: Data
    var send: Option<Data>
    var recv: Option<Data>
    var nextId: nat
    var closedSignals: nat   // how often signal_closed was sent
    ghost var retired: seq<Adapter>

    ghost function View(): Endpoint
      reads this
    {
      Endpoint(ice, state, writable, active, certificate, adapter, hello, alg, fingerprint, send, recv, nextId, retired)
    }

    constructor ()
      ensures View() == INITIAL
    {
      ice, state, writable, active, certificate := false, New, false, false, None;
      adapter, hello, alg, fingerprint, send, recv := None, [], "", [], None, None;
      nextId, retired, closedSignals := 0, [], 0;
    }

    method SetRtpParams(sendKey: Data, recvKey: Data, o: Ssl)
      modifies `send, `recv
      ensures View() == DtlsEndpoint.SetRtpParams(old(View()), sendKey, recvKey, o)
    {
      send := Some(sendKey);
      if !o.setSend {
        ResetParams();
        return;
      }
      recv := Some(recvKey);
      if !o.setRecv {
        ResetParams();
      }
    }

    method ResetParams()
      modifies `send, `recv
      ensures send == None && recv == None
    {
      send, recv := None, None;
    }

    method SetupDtlsSrtp(x: Exporter, o: Ssl)
      modifies `send, `recv
      ensures View() == MaybeSetupSrtp(old(View()), x, o)
    {
      if (send.Some? && recv.Some?) || !writable {
        return;
      }
      if !active || state != Connected || adapter.None? {
        return;
      }
      var m := x(adapter.value.id);
      if m.None? || !MaterialOk(m.value) {
        return;
      }
      var sendKey, recvKey := SplitMaterial(m.value);
      SetRtpParams(sendKey, recvKey, o);
    }

    method SetDtlsState(st: DtlsState, x: Exporter, o: Ssl)
      modifies `state, `send, `recv
      ensures View() == SetState(old(View()), st, x, o)
    {
      if state == st {
        return;
      }
      state := st;
      if st != Connected {
        ResetParams();
      } else {
        SetupDtlsSrtp(x, o);
      }
    }

    method HandleDtlsPacket(data: Data) returns (ok: bool)
      requires adapter.Some?
      modifies `adapter
      ensures ok == WalkOk(data)
      ensures View() == if ok then Inject(old(View()), data) else old(View())
    {
      ok := CheckRecords(data);
      if ok {
        adapter := Some(adapter.value.(injected := adapter.value.injected + [data]));
      }
    }

    method MaybeStartDtls(x: Exporter, o: Ssl)
      modifies `state, `adapter, `hello, `send, `recv
      ensures View() == MaybeStart(old(View()), x, o)
    {
      hide WalkOk;
      if adapter.None? || !ice {
        return;
      }
      adapter := Some(adapter.value.(starts := adapter.value.starts + 1));
      if !o.start {
        SetDtlsState(Failed, x, o);
        return;
      }
      SetDtlsState(Connecting, x, o);
      if |hello| > 0 {
        var ok := HandleDtlsPacket(hello);
        if !ok {
          SetDtlsState(Failed, x, o);
        }
        hello := [];
      }
    }

    method SetupDtls(x: Exporter, o: Ssl) returns (ok: bool)
      modifies `state, `adapter, `hello, `send, `recv, `nextId
      ensures (View(), ok) == Setup(old(View()), x, o)
    {
      if !o.create {
        adapter := None;
        return false;
      }
      var a := Adapter(nextId, 0, None, []);
      adapter, nextId := Some(a), nextId + 1;
      if |fingerprint| > 0 {
        if !o.digest {
          return false;
        }
        adapter := Some(a.(digest := Some(fingerprint)));
      }
      if !o.suites {
        return false;
      }
      MaybeStartDtls(x, o);
      return true;
    }

    /** Says whether the packet is passed on with signal_read_packet. */
    method OnReadPacket(b: Data, x: Exporter, o: Ssl) returns (passedOn: bool)
      requires state == Connecting || state == Connected ==> adapter.Some?
      modifies `state, `adapter, `hello, `send, `recv, `nextId
      ensures View() == OnPacket(old(View()), b, x, o)
      ensures passedOn == HandsUp(old(View()), b)
    {
      passedOn := false;
      match state {
        case New =>
          if IsClientHello(b) {
            hello := b;
            if adapter.None? && certificate.Some? {
              var _ := SetupDtls(x, o);
            }
          }
        case Connecting | Connected =>
          if IsDtls(b) {
            var _ := HandleDtlsPacket(b);
          } else if state == Connected && IsRtp(b) {
            passedOn := true;
          }
        case _ =>
      }
    }

    method OnWritableState(channelWritable: bool, x: Exporter, o: Ssl)
      modifies `ice, `writable, `state, `adapter, `hello, `send, `recv
      ensures View() == OnIceWritable(old(View()), channelWritable, x, o)
    {
      ice := channelWritable;
      if !active {
        writable := channelWritable;
        return;
      }
      match state {
        case New => MaybeStartDtls(x, o);
        case Connected => writable := channelWritable;
        case _ =>
      }
    }

    method SetRemoteFingerprint(digestAlg: string, digest: Data, x: Exporter, o: Ssl) returns (ok: bool)
      modifies `active, `alg, `fingerprint, `state, `writable, `adapter, `hello, `send, `recv, `nextId, `retired
      ensures (View(), ok) == DtlsEndpoint.SetRemoteFingerprint(old(View()), digestAlg, digest, x, o)
    {
      hide SetState, DtlsEndpoint.Rebuild;
      if active && fingerprint == digest {
        return true;
      }
      if digestAlg == "" {
        active := false;
        return false;
      }
      if !active {
        return false;
      }
      var changed := |alg| > 0;
      fingerprint, alg := digest, digestAlg;
      if adapter.Some? && !changed {
        if !o.digest {
          SetDtlsState(Failed, x, o);
          return o.mismatch;
        }
        adapter := Some(adapter.value.(digest := Some(digest)));
        return true;
      }
      ok := Rebuild(x, o);
    }

    // Destroys the adapter if there is one, sets up a new one.
    method Rebuild(x: Exporter, o: Ssl) returns (ok: bool)
      modifies `state, `writable, `adapter, `hello, `send, `recv, `nextId, `retired
      ensures (View(), ok) == DtlsEndpoint.Rebuild(old(View()), x, o)
    {
      hide SetState, Setup;
      if adapter.Some? {
        retired := retired + [adapter.value];
        adapter := None;
        SetDtlsState(New, x, o);
        writable := false;
      }
      ok := SetupDtls(x, o);
      if !ok {
        SetDtlsState(Failed, x, o);
      }
    }

    // Writable or not, and the new state.
    method Enter(e: SslEvent, x: Exporter, o: Ssl)
      requires adapter.Some?
      modifies `writable, `state, `send, `recv
      ensures View() == OnSslEvent(old(View()), e, x, o)
    {
      hide SetState;
      writable := e == Open;
      SetDtlsState(if e == Open then Connected else if e == CloseError then Failed else Closed, x, o);
    }

    method OnDtlsEvent(sig: Signal, x: Exporter, o: Ssl)
      requires adapter.Some?
      modifies `writable, `state, `send, `recv, `closedSignals
      ensures View() == OnSslEvents(old(View()), EventsOf(sig), x, o)
      ensures closedSignals == old(closedSignals) +
              (if sig.read.Some? && LoopEnd(sig.read.value) in {EndOfData, Broken} then 1 else 0)
    {
      ThreeStages(View(), sig, x, o);
      hide OnSslEvent, EventsOf, OnSslEvents, LoopEnd;
      if sig.open {
        Enter(Open, x, o);
      }
      if sig.read.Some? {
        var end := DrainReads(sig.read.value);
        if end == EndOfData || end == Broken {
          Enter(if end == EndOfData then EndOfStream else ReadError, x, o);
          closedSignals := closedSignals + 1;
        }
      }
      if sig.close.Some? {
        Enter(if sig.close.value then CloseError else CloseOk, x, o);
      }
    }

    // Reading and dropping decrypted data until there is none.
    static method DrainReads(results: seq<ReadResult>) returns (end: ReadResult)
      ensures end == LoopEnd(results)
    {
      var i := 0;
      while i < |results| && results[i] == Success
        invariant i <= |results| && LoopEnd(results) == LoopEnd(results[i..])
        decreases |results| - i
      {
        assert results[i..][1..] == results[i + 1..];
        i := i + 1;
      }
      end := if i < |results| then results[i] else Block;
    }
  }

  // The three parts of a signal, one after the other.
  function Opened(v: Endpoint, sig: Signal, x: Exporter, o: Ssl): Endpoint {
    if sig.open then OnSslEvent(v, Open, x, o) else v
  }

  function Drained(v: Endpoint, sig: Signal, x: Exporter, o: Ssl): Endpoint {
    if sig.read.None? then v
    else match LoopEnd(sig.read.value)
      case EndOfData => OnSslEvent(v, EndOfStream, x, o)
      case Broken => OnSslEvent(v, ReadError, x, o)
      case _ => v
  }

  function Finished(v: Endpoint, sig: Signal, x: Exporter, o: Ssl): Endpoint {
    if sig.close.None? then v else OnSslEvent(v, if sig.close.value then CloseError else CloseOk, x, o)
  }

  lemma ThreeStages(v: Endpoint, sig: Signal, x: Exporter, o: Ssl)
    ensures OnSslEvents(v, EventsOf(sig), x, o) == Finished(Drained(Opened(v, sig, x, o), sig, x, o), sig, x, o)
  {
    hide OnSslEvent;
    var a := if sig.open then [Open] else [];
    var b := if sig.read.Some? then ReadEvents(sig.read.value) else [];
    var c := if sig.close.None? then [] else if sig.close.value then [CloseError] else [CloseOk];
    AtMostOne(v, a, b + c, x, o);
    AtMostOne(Opened(v, sig, x, o), b, c, x, o);
    AtMostOne(Drained(Opened(v, sig, x, o), sig, x, o), c, [], x, o);
    assert a + b + c == a + (b + c) && c + [] == c;
  }

  lemma AtMostOne(v: Endpoint, a: seq<SslEvent>, rest: seq<SslEvent>, x: Exporter, o: Ssl)
    requires |a| <= 1
    ensures OnSslEvents(v, a + rest, x, o) == OnSslEvents(if a == [] then v else OnSslEvent(v, a[0], x, o), rest, x, o)
  {
    hide OnSslEvent;
    if a == [] {
      assert a + rest == rest;
    } else {
      assert (a + rest)[1..] == rest;
    }
  }
}
