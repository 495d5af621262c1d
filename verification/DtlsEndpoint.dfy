/** DTLS start-up and SRTP keying: src/pc/dtls_transport.cpp with the listener of
    src/pc/dtls_srtp_transport.cpp and the sessions of src/pc/srtp_transport.cpp, as a state
    machine over its events. OpenSSL and libsrtp answer through the `Ssl` argument of each
    event, so a statement about all events covers every success and failure. */
module DtlsEndpoint {
  import opened Wrappers
  import opened Bytes
  import opened DtlsRecords

  datatype DtlsState = New | Connecting | Connected | Closed | Failed

  /** One SSLStreamAdapter: how often StartSSL was called on it, the peer digest it was given, and
      the datagrams injected into it. */
  datatype Adapter = Adapter(id: nat, starts: nat, digest: Option<Data>, injected: seq<Data>)

  datatype Endpoint = Endpoint(
    ice: bool,                 // IceTransportChannel::writable()
    state: DtlsState, writable: bool, active: bool, certificate: Option<nat>,
    adapter: Option<Adapter>, hello: Data, alg: string, fingerprint: Data,
    send: Option<Data>, recv: Option<Data>,   // keys of the two SRTP sessions
    nextId: nat, retired: seq<Adapter>)       // history: adapters destroyed so far

  // What the libraries answer while one event is handled. `mismatch` says why a digest was not taken: the
  // certificate was there already and does not match.
  datatype Ssl = Ssl(create: bool, digest: bool, mismatch: bool, suites: bool, start: bool, setSend: bool,
      setRecv: bool)

  // Lengths of key and salt, and the exported keying material.
  datatype Material = Material(keyLen: nat, saltLen: nat, bytes: Data)

  // What adapter `id` exports once connected; None if it negotiated no known suite or fails.
  type Exporter = nat -> Option<Material>

  // ------------------------------------------------------------------ SRTP keys

  predicate MaterialOk(m: Material) { |m.bytes| == 2 * (m.keyLen + m.saltLen) }

  // client key, server key, client salt, server salt.
  function ClientKey(m: Material): Data
    requires MaterialOk(m)
  {
    m.bytes[..m.keyLen] + m.bytes[2 * m.keyLen..2 * m.keyLen + m.saltLen]
  }

  function ServerKey(m: Material): Data
    requires MaterialOk(m)
  {
    m.bytes[m.keyLen..2 * m.keyLen] + m.bytes[2 * m.keyLen + m.saltLen..]
  }

  predicate SrtpActive(v: Endpoint) { v.send.Some? && v.recv.Some? }

  // set_rtp_params: both sessions or none.
  function SetRtpParams(v: Endpoint, sendKey: Data, recvKey: Data, o: Ssl): Endpoint {
    if o.setSend && o.setRecv then v.(send := Some(sendKey), recv := Some(recvKey))
    else v.(send := None, recv := None)
  }

  function MaybeSetupSrtp(v: Endpoint, x: Exporter, o: Ssl): Endpoint {
    if SrtpActive(v) || !v.writable then v
    else if !v.active || v.state != Connected || v.adapter.None? then v
    else match x(v.adapter.value.id)
      case None => v
      case Some(m) => if MaterialOk(m) then SetRtpParams(v, ServerKey(m), ClientKey(m), o) else v
  }

  // _on_dtls_state
  function OnDtlsState(v: Endpoint, x: Exporter, o: Ssl): Endpoint {
    if v.state != Connected then v.(send := None, recv := None) else MaybeSetupSrtp(v, x, o)
  }

  // ---------------------------------------------------------------- transport

  function SetState(v: Endpoint, st: DtlsState, x: Exporter, o: Ssl): Endpoint {
    if v.state == st then v else OnDtlsState(v.(state := st), x, o)
  }

  function Inject(v: Endpoint, b: Data): Endpoint
    requires v.adapter.Some?
  {
    v.(adapter := Some(v.adapter.value.(injected := v.adapter.value.injected + [b])))
  }

  // Replay of the cached ClientHello after the start.
  function Replay(v: Endpoint, x: Exporter, o: Ssl): Endpoint
    requires v.adapter.Some?
  {
    if v.hello == [] then v
    else if WalkOk(v.hello) then Inject(v, v.hello).(hello := [])
    else SetState(v, Failed, x, o).(hello := [])
  }

  function MaybeStart(v: Endpoint, x: Exporter, o: Ssl): Endpoint {
    if v.adapter.None? || !v.ice then v
    else
      var started := v.(adapter := Some(v.adapter.value.(starts := v.adapter.value.starts + 1)));
      if !o.start then SetState(started, Failed, x, o)
      else
        var w := SetState(started, Connecting, x, o);
        if w.adapter.Some? then Replay(w, x, o) else w
  }

  // _setup_dtls: the endpoint and the value returned.
  function Setup(v: Endpoint, x: Exporter, o: Ssl): (Endpoint, bool) {
    if !o.create then (v.(adapter := None), false)
    else
      var a := Adapter(v.nextId, 0, None, []);
      var w := v.(adapter := Some(a), nextId := v.nextId + 1);
      if v.fingerprint != [] && !o.digest then (w, false)
      else
        var d := if v.fingerprint != [] then w.(adapter := Some(a.(digest := Some(v.fingerprint)))) else w;
        if !o.suites then (d, false) else (MaybeStart(d, x, o), true)
  }

  function OnPacket(v: Endpoint, b: Data, x: Exporter, o: Ssl): Endpoint {
    match v.state
    case New =>
      if !IsClientHello(b) then v
      else
        var w := v.(hello := b);
        if w.adapter.None? && w.certificate.Some? then Setup(w, x, o).0 else w
    case Connecting | Connected =>
      if IsDtls(b) && WalkOk(b) && v.adapter.Some? then Inject(v, b) else v
    case _ => v
  }

  function OnIceWritable(v: Endpoint, ice: bool, x: Exporter, o: Ssl): Endpoint {
    var w := v.(ice := ice);
    if !w.active then w.(writable := ice)
    else match w.state
      case New => MaybeStart(w, x, o)
      case Connected => w.(writable := ice)
      case _ => w
  }

  function SetRemoteFingerprint(v: Endpoint, alg: string, value: Data, x: Exporter, o: Ssl): (Endpoint, bool) {
    if v.active && v.fingerprint == value then (v, true)
    else if alg == "" then (v.(active := false), false)
    else if !v.active then (v, false)
    else
      var changed := v.alg != "";
      var w := v.(fingerprint := value, alg := alg);
      if w.adapter.Some? && !changed then
        if !o.digest then (SetState(w, Failed, x, o), o.mismatch)
        else (w.(adapter := Some(w.adapter.value.(digest := Some(value)))), true)
      else Rebuild(w, x, o)
  }

  // A changed fingerprint: drop the adapter if there is one, then set up from scratch.
  function Rebuild(w: Endpoint, x: Exporter, o: Ssl): (Endpoint, bool) {
    var (r, ok) := Setup(if w.adapter.Some? then DropAdapter(w, x, o) else w, x, o);
    if ok then (r, true) else (SetState(r, Failed, x, o), false)
  }

  function DropAdapter(w: Endpoint, x: Exporter, o: Ssl): Endpoint
    requires w.adapter.Some?
  {
    SetState(w.(adapter := None, retired := w.retired + [w.adapter.value]), New, x, o).(writable := false)
  }

  function SetLocalCertificate(v: Endpoint, cert: Option<nat>): (Endpoint, bool) {
    if v.active then (v, cert == v.certificate)
    else if cert.Some? then (v.(certificate := cert, active := true), true)
    else (v, true)
  }

  datatype SslEvent = Open | EndOfStream | ReadError | CloseOk | CloseError

  // _on_dtls_event, for an adapter that exists.
  function OnSslEvent(v: Endpoint, e: SslEvent, x: Exporter, o: Ssl): Endpoint {
    if v.adapter.None? then v
    else match e
      case Open => SetState(v.(writable := true), Connected, x, o)
      case EndOfStream | ReadError | CloseOk => SetState(v.(writable := false), Closed, x, o)
      case CloseError => SetState(v.(writable := false), Failed, x, o)
  }

  // One signal of the adapter: bits for open, read and close, the read bit with what successive reads return.
  datatype ReadResult = Success | Block | EndOfData | Broken
  datatype Signal = Signal(open: bool, read: Option<seq<ReadResult>>, close: Option<bool>)

  // The read loop goes on for as long as reading succeeds.
  function LoopEnd(results: seq<ReadResult>): ReadResult {
    if results == [] then Block else if results[0] == Success then LoopEnd(results[1..]) else results[0]
  }

  function ReadEvents(results: seq<ReadResult>): seq<SslEvent> {
    match LoopEnd(results)
    case EndOfData => [EndOfStream]
    case Broken => [ReadError]
    case _ => []
  }

  // The events a signal stands for, in the order they are handled.
  function EventsOf(sig: Signal): seq<SslEvent> {
    (if sig.open then [Open] else [])
    + (if sig.read.Some? then ReadEvents(sig.read.value) else [])
    + (if sig.close.None? then [] else if sig.close.value then [CloseError] else [CloseOk])
  }

  function OnSslEvents(v: Endpoint, es: seq<SslEvent>, x: Exporter, o: Ssl): Endpoint
    decreases |es|
  {
    if es == [] then v else OnSslEvents(OnSslEvent(v, es[0], x, o), es[1..], x, o)
  }

  datatype Event =
    | Packet(b: Data)
    | IceWritable(ice: bool)
    | Fingerprint(alg: string, value: Data)
    | Certificate(cert: Option<nat>)
    | SslSignal(sig: Signal)

  function Handle(v: Endpoint, e: Event, x: Exporter, o: Ssl): Endpoint {
    match e
    case Packet(b) => OnPacket(v, b, x, o)
    case IceWritable(ice) => OnIceWritable(v, ice, x, o)
    case Fingerprint(alg, value) => SetRemoteFingerprint(v, alg, value, x, o).0
    case Certificate(cert) => SetLocalCertificate(v, cert).0
    case SslSignal(sig) => OnSslEvents(v, EventsOf(sig), x, o)
  }

  const INITIAL := Endpoint(false, New, false, false, None, None, [], "", [], None, None, 0, [])

  function Exec(es: seq<(Event, Ssl)>, x: Exporter): Endpoint {
    if es == [] then INITIAL
    else
      var n := |es| - 1;
      Handle(Exec(es[..n], x), es[n].0, x, es[n].1)
  }

  // ------------------------------------------------------------------ invariant

  predicate KeysFromAdapter(v: Endpoint, x: Exporter) {
    && v.state == Connected && v.adapter.Some?
    && x(v.adapter.value.id).Some?
    && var m := x(v.adapter.value.id).value;
       MaterialOk(m) && v.send == Some(ServerKey(m)) && v.recv == Some(ClientKey(m))
  }

  predicate KeysOk(v: Endpoint, x: Exporter) {
    && (v.send.Some? <==> v.recv.Some?)
    && (SrtpActive(v) ==> KeysFromAdapter(v, x))
  }

  predicate StartsOk(v: Endpoint) {
    && (v.adapter.Some? ==> v.adapter.value.starts <= (if v.state == New then 0 else 1))
    && (v.state == Connecting || v.state == Connected ==> v.adapter.Some?)
    && forall i :: 0 <= i < |v.retired| ==> v.retired[i].starts <= 1
  }

  predicate IdsOk(v: Endpoint) {
    && (v.adapter.Some? ==> v.adapter.value.id < v.nextId)
    && (forall i :: 0 <= i < |v.retired| ==> v.retired[i].id < v.nextId)
    && (v.adapter.Some? ==> forall i :: 0 <= i < |v.retired| ==> v.retired[i].id != v.adapter.value.id)
  }

  predicate Inv(v: Endpoint, x: Exporter) { KeysOk(v, x) && StartsOk(v) && IdsOk(v) }

  // Entering a state other than connected drops the keys; entering connected installs the
  // current adapter's, or none.
  lemma SetStateKeepsKeys(v: Endpoint, st: DtlsState, x: Exporter, o: Ssl)
    requires KeysOk(v, x)
    ensures var w := SetState(v, st, x, o);
      KeysOk(w, x) && w == v.(state := st, send := w.send, recv := w.recv) && (st != Connected ==> !SrtpActive(w))
  {
  }

  // An adapter that has not been started may be started, whatever the libraries answer.
  lemma MaybeStartKeepsInv(v: Endpoint, x: Exporter, o: Ssl)
    requires Inv(v, x) && !SrtpActive(v) && (v.adapter.Some? ==> v.adapter.value.starts == 0)
    ensures Inv(MaybeStart(v, x, o), x)
  {
    if v.adapter.Some? && v.ice {
      var started := v.(adapter := Some(v.adapter.value.(starts := 1)));
      var st := if o.start then Connecting else Failed;
      SetStateKeepsKeys(started, st, x, o);
      var w := SetState(started, st, x, o);
      if o.start {
        SetStateKeepsKeys(w, Failed, x, o);
      }
      hide SetState;
    }
  }

  lemma FreshAdapterKeepsInv(v: Endpoint, a: Adapter, x: Exporter)
    requires Inv(v, x) && v.adapter.None? && a.id == v.nextId && a.starts == 0
    ensures var w := v.(adapter := Some(a), nextId := v.nextId + 1); Inv(w, x) && !SrtpActive(w)
  {
  }

  lemma SetupKeepsInv(v: Endpoint, x: Exporter, o: Ssl)
    requires Inv(v, x) && v.adapter.None?
    ensures Inv(Setup(v, x, o).0, x)
  {
    hide MaybeStart, Inv;
    var a := Adapter(v.nextId, 0, None, []);
    var b := if v.fingerprint != [] then a.(digest := Some(v.fingerprint)) else a;
    FreshAdapterKeepsInv(v, a, x);
    FreshAdapterKeepsInv(v, b, x);
    MaybeStartKeepsInv(v.(adapter := Some(b), nextId := v.nextId + 1), x, o);
  }

  lemma FailKeepsInv(v: Endpoint, x: Exporter, o: Ssl)
    requires Inv(v, x)
    ensures Inv(SetState(v, Failed, x, o), x)
  {
    SetStateKeepsKeys(v, Failed, x, o);
    hide SetState;
  }

  // Destroying the adapter: back to new, not writable.
  lemma DropKeepsInv(w: Endpoint, x: Exporter, o: Ssl)
    requires Inv(w, x) && w.adapter.Some?
    ensures Inv(DropAdapter(w, x, o), x) && DropAdapter(w, x, o).adapter.None?
  {
  }

  lemma RebuildKeepsInv(w: Endpoint, x: Exporter, o: Ssl)
    requires Inv(w, x)
    ensures Inv(Rebuild(w, x, o).0, x)
  {
    if w.adapter.Some? {
      DropKeepsInv(w, x, o);
    }
    var u := if w.adapter.Some? then DropAdapter(w, x, o) else w;
    hide DropAdapter, Setup, SetState, Inv;
    SetupKeepsInv(u, x, o);
    FailKeepsInv(Setup(u, x, o).0, x, o);
  }

  lemma FingerprintKeepsInv(v: Endpoint, alg: string, value: Data, x: Exporter, o: Ssl)
    requires Inv(v, x)
    ensures Inv(SetRemoteFingerprint(v, alg, value, x, o).0, x)
  {
    hide Rebuild, SetState;
    var w := v.(fingerprint := value, alg := alg);
    FailKeepsInv(w, x, o);
    RebuildKeepsInv(w, x, o);
  }

  lemma PacketKeepsInv(v: Endpoint, b: Data, x: Exporter, o: Ssl)
    requires Inv(v, x)
    ensures Inv(OnPacket(v, b, x, o), x)
  {
    hide Setup, IsClientHello, WalkOk;
    if v.state == New && v.adapter.None? {
      SetupKeepsInv(v.(hello := b), x, o);
    }
  }

  lemma IceKeepsInv(v: Endpoint, ice: bool, x: Exporter, o: Ssl)
    requires Inv(v, x)
    ensures Inv(OnIceWritable(v, ice, x, o), x)
  {
    hide MaybeStart;
    if v.state == New {
      MaybeStartKeepsInv(v.(ice := ice), x, o);
    }
  }

  lemma SslKeepsInv(v: Endpoint, e: SslEvent, x: Exporter, o: Ssl)
    requires Inv(v, x)
    ensures Inv(OnSslEvent(v, e, x, o), x)
  {
    hide SetState;
    SetStateKeepsKeys(v.(writable := true), Connected, x, o);
    SetStateKeepsKeys(v.(writable := false), Closed, x, o);
    SetStateKeepsKeys(v.(writable := false), Failed, x, o);
  }

  lemma {:induction false} SslEventsKeepInv(v: Endpoint, es: seq<SslEvent>, x: Exporter, o: Ssl)
    requires Inv(v, x)
    ensures Inv(OnSslEvents(v, es, x, o), x)
    decreases |es|
  {
    if es != [] {
      SslKeepsInv(v, es[0], x, o);
      hide OnSslEvent, Inv;
      SslEventsKeepInv(OnSslEvent(v, es[0], x, o), es[1..], x, o);
    }
  }

  lemma HandleKeepsInv(v: Endpoint, e: Event, x: Exporter, o: Ssl)
    requires Inv(v, x)
    ensures Inv(Handle(v, e, x, o), x)
  {
    match e
    case Packet(b) => PacketKeepsInv(v, b, x, o);
    case IceWritable(ice) => IceKeepsInv(v, ice, x, o);
    case Fingerprint(alg, value) => FingerprintKeepsInv(v, alg, value, x, o);
    case Certificate(cert) =>
    case SslSignal(sig) => SslEventsKeepInv(v, EventsOf(sig), x, o);
  }

  lemma {:induction false} ExecKeepsInv(es: seq<(Event, Ssl)>, x: Exporter)
    ensures Inv(Exec(es, x), x)
  {
    if es != [] {
      var n := |es| - 1;
      ExecKeepsInv(es[..n], x);
      HandleKeepsInv(Exec(es[..n], x), es[n].0, x, es[n].1);
    }
  }

  /** After any events and any library answers: SRTP is active only while DTLS is connected, with
      both sessions keyed from the adapter in use (server keys to send, client keys to receive);
      the sessions exist together or not at all. */
  lemma SrtpOnlyWhileConnected(es: seq<(Event, Ssl)>, x: Exporter)
    ensures var v := Exec(es, x);
      && (v.send.Some? <==> v.recv.Some?)
      && (SrtpActive(v) ==> v.state == Connected && KeysFromAdapter(v, x))
  {
    ExecKeepsInv(es, x);
  }

  /** StartSSL is called at most once on every adapter ever created, across fingerprint changes. */
  lemma StartedAtMostOnce(es: seq<(Event, Ssl)>, x: Exporter)
    ensures var v := Exec(es, x);
      && (v.adapter.Some? ==> v.adapter.value.starts <= 1)
      && (forall i :: 0 <= i < |v.retired| ==> v.retired[i].starts <= 1)
      && (v.state == Connecting || v.state == Connected ==> v.adapter.Some?)
  {
    ExecKeepsInv(es, x);
  }

  // ------------------------------------------------------------------- receiving

  type Unprotect = (bool, Data, Data) -> Option<Data>  // is RTCP, key, packet

  // Section 4 of RFC 5761: payload types 64 to 95 are RTCP. What passes IsRtp is always one or the other.
  predicate IsRtcp(b: Data)
    requires |b| >= 2
  {
    64 <= (b[1] as int) % 0x80 < 96
  }

  /** RTCP is told by its packet type: 192 to 223, or the same without the highest bit. */
  lemma RtcpByType(b: Data)
    requires |b| >= 2
    ensures IsRtcp(b) <==> 192 <= b[1] as int <= 223 || 64 <= b[1] as int <= 95
  {
  }

  // What DtlsTransport passes on: RTP or RTCP, once connected.
  predicate HandsUp(v: Endpoint, b: Data) { v.state == Connected && !IsDtls(b) && IsRtp(b) }

  // _on_read_packet of both transports for RTP and RTCP: what is handed to the upper layer.
  function Deliver(v: Endpoint, b: Data, unprotect: Unprotect): Option<Data> {
    if !HandsUp(v, b) then None
    else if !SrtpActive(v) then None
    else unprotect(IsRtcp(b), v.recv.value, b)
  }

  // --------------------------------------------------------------- keys are installed

  // What the exporter gives for the adapter in use can be cut into keys.
  predicate Exports(v: Endpoint, x: Exporter) {
    v.adapter.Some? && x(v.adapter.value.id).Some? && MaterialOk(x(v.adapter.value.id).value)
  }

  /** When the handshake is done, both sessions get their keys exactly if the adapter exports well-formed material and
      libsrtp takes both. */
  lemma OpenInstallsKeysExactly(v: Endpoint, x: Exporter, o: Ssl)
    requires Inv(v, x) && v.active && v.state != Connected && v.adapter.Some?
    ensures var w := OnSslEvent(v, Open, x, o);
      && w.state == Connected && w.writable && w.adapter == v.adapter
      && (SrtpActive(w) <==> Exports(v, x) && o.setSend && o.setRecv)
      && (SrtpActive(w) ==> KeysFromAdapter(w, x))
  {
  }

  // The certificate is set, the exporter and libsrtp never fail, and no answer turns DTLS off.
  predicate AllWell(es: seq<(Event, Ssl)>) {
    forall i :: 0 <= i < |es| ==>
      es[i].1.setSend && es[i].1.setRecv && (es[i].0.Fingerprint? ==> es[i].0.alg != "")
  }

  ghost predicate AlwaysExports(x: Exporter) { forall id :: x(id).Some? && MaterialOk(x(id).value) }

  predicate Keyed(v: Endpoint) {
    && (v.certificate.Some? || v.adapter.Some? ==> v.active)
    && (v.state == Connected ==> SrtpActive(v))
  }

  lemma StartKeepsKeyed(v: Endpoint, x: Exporter, o: Ssl)
    requires Keyed(v) && v.state != Connected && !SrtpActive(v)
    ensures Keyed(MaybeStart(v, x, o)) && MaybeStart(v, x, o).state != Connected
  {
  }

  lemma SetupKeepsKeyed(v: Endpoint, x: Exporter, o: Ssl)
    requires Keyed(v) && v.active && v.state != Connected && !SrtpActive(v)
    ensures Keyed(Setup(v, x, o).0) && Setup(v, x, o).0.state != Connected
  {
    hide MaybeStart;
    var a := Adapter(v.nextId, 0, None, []);
    var w := v.(adapter := Some(a), nextId := v.nextId + 1);
    var d := if v.fingerprint != [] then w.(adapter := Some(a.(digest := Some(v.fingerprint)))) else w;
    StartKeepsKeyed(d, x, o);
  }

  lemma RebuildKeepsKeyed(w: Endpoint, x: Exporter, o: Ssl)
    requires Inv(w, x) && Keyed(w) && w.active
    ensures Keyed(Rebuild(w, x, o).0)
  {
    var u := if w.adapter.Some? then DropAdapter(w, x, o) else w;
    assert u.state != Connected && !SrtpActive(u) && Keyed(u) && u.active;
    hide Setup, DropAdapter;
    SetupKeepsKeyed(u, x, o);
  }

  lemma HandleKeepsKeyed(v: Endpoint, e: Event, x: Exporter, o: Ssl)
    requires Inv(v, x) && Keyed(v) && AlwaysExports(x) && o.setSend && o.setRecv && (e.Fingerprint? ==> e.alg != "")
    ensures Keyed(Handle(v, e, x, o))
  {
    match e
    case Packet(b) =>
      if v.state == New && IsClientHello(b) && v.adapter.None? && v.certificate.Some? {
        hide Setup, WalkOk;
        SetupKeepsKeyed(v.(hello := b), x, o);
      }
    case IceWritable(ice) =>
      if v.active && v.state == New {
        hide MaybeStart;
        StartKeepsKeyed(v.(ice := ice), x, o);
      }
    case Fingerprint(alg, value) =>
      if v.active && v.fingerprint != value {
        var w := v.(fingerprint := value, alg := alg);
        hide Rebuild;
        RebuildKeepsKeyed(w, x, o);
      }
    case Certificate(_) =>
    case SslSignal(sig) => SignalKeepsKeyed(v, EventsOf(sig), x, o);
  }

  lemma EventKeepsKeyed(v: Endpoint, e: SslEvent, x: Exporter, o: Ssl)
    requires Inv(v, x) && Keyed(v) && AlwaysExports(x) && o.setSend && o.setRecv
    ensures Keyed(OnSslEvent(v, e, x, o))
  {
    if e == Open && v.adapter.Some? && v.state != Connected {
      hide OnSslEvent, Inv;
      OpenInstallsKeysExactly(v, x, o);
      OpenKeepsRest(v, x, o);
    }
  }

  lemma OpenKeepsRest(v: Endpoint, x: Exporter, o: Ssl)
    ensures var w := OnSslEvent(v, Open, x, o);
      w.certificate == v.certificate && w.adapter == v.adapter && w.active == v.active
  {
  }

  lemma {:induction false} SignalKeepsKeyed(v: Endpoint, es: seq<SslEvent>, x: Exporter, o: Ssl)
    requires Inv(v, x) && Keyed(v) && AlwaysExports(x) && o.setSend && o.setRecv
    ensures Keyed(OnSslEvents(v, es, x, o))
    decreases |es|
  {
    if es != [] {
      hide OnSslEvent, Inv, AlwaysExports;
      SslKeepsInv(v, es[0], x, o);
      EventKeepsKeyed(v, es[0], x, o);
      SignalKeepsKeyed(OnSslEvent(v, es[0], x, o), es[1..], x, o);
    }
  }

  /** Over every run in which the libraries never fail and no answer turns DTLS off: SRTP is keyed whenever DTLS is
      connected. */
  lemma {:induction false} ConnectedIsKeyed(es: seq<(Event, Ssl)>, x: Exporter)
    requires AllWell(es) && AlwaysExports(x)
    ensures Keyed(Exec(es, x))
  {
    if es != [] {
      var n := |es| - 1;
      ConnectedIsKeyed(es[..n], x);
      ExecKeepsInv(es[..n], x);
      hide Handle, Inv, AlwaysExports;
      HandleKeepsKeyed(Exec(es[..n], x), es[n].0, x, es[n].1);
    }
  }

  /** And then every RTP or RTCP packet that comes while DTLS is connected is handed up as unprotected under the client
      key exported from the adapter in use, and nothing else is. */
  lemma DeliveredExactly(es: seq<(Event, Ssl)>, x: Exporter, b: Data, unprotect: Unprotect)
    requires AllWell(es) && AlwaysExports(x)
    ensures var v := Exec(es, x);
      && (HandsUp(v, b) ==> Exports(v, x))
      && Deliver(v, b, unprotect) ==
         if HandsUp(v, b) then unprotect(IsRtcp(b), ClientKey(x(v.adapter.value.id).value), b) else None
  {
    ConnectedIsKeyed(es, x);
    ExecKeepsInv(es, x);
    hide Exec;
  }

  // ------------------------------------------------------------- what events end in

  // Where a signal leaves the transport: the last of its parts decides.
  function StateAfter(st: DtlsState, sig: Signal): DtlsState {
    if sig.close.Some? then (if sig.close.value then Failed else Closed)
    else if sig.read.Some? && LoopEnd(sig.read.value) in {EndOfData, Broken} then Closed
    else if sig.open then Connected
    else st
  }

  lemma EventOutcome(v: Endpoint, e: SslEvent, x: Exporter, o: Ssl)
    requires Inv(v, x) && v.adapter.Some?
    ensures var w := OnSslEvent(v, e, x, o);
      && w.state == (if e == Open then Connected else if e == CloseError then Failed else Closed)
      && w.writable == (e == Open) && w.adapter == v.adapter && (w.state != Connected ==> !SrtpActive(w))
  {
  }

  lemma {:induction false} LastEventDecides(v: Endpoint, es: seq<SslEvent>, x: Exporter, o: Ssl)
    requires Inv(v, x) && v.adapter.Some? && es != []
    ensures var w, e := OnSslEvents(v, es, x, o), es[|es| - 1];
      && w.state == (if e == Open then Connected else if e == CloseError then Failed else Closed)
      && w.writable == (e == Open) && w.adapter == v.adapter && (w.state != Connected ==> !SrtpActive(w))
    decreases |es|
  {
    hide OnSslEvent, Inv, SrtpActive;
    SslKeepsInv(v, es[0], x, o);
    EventOutcome(v, es[0], x, o);
    if |es| == 1 {
      assert es[1..] == [];
    } else {
      assert es[1..][|es| - 2] == es[|es| - 1];
      LastEventDecides(OnSslEvent(v, es[0], x, o), es[1..], x, o);
    }
  }

  /** A signal of the adapter ends in the state its last part stands for: connected and writable, closed, or failed, and
      the last two without keys. */
  lemma SignalOutcome(v: Endpoint, sig: Signal, x: Exporter, o: Ssl)
    requires Inv(v, x) && v.adapter.Some?
    ensures var w := Handle(v, SslSignal(sig), x, o);
      && w.state == StateAfter(v.state, sig) && w.adapter == v.adapter
      && (EventsOf(sig) != [] ==> w.writable == (w.state == Connected))
      && (w.state != Connected ==> !SrtpActive(w))
  {
    var es := EventsOf(sig);
    if es != [] {
      LastEventDecides(v, es, x, o);
    }
    hide OnSslEvents, LoopEnd;
  }

  // Starting and setting up leave the answer's fingerprint alone.
  predicate SameAnswer(v: Endpoint, w: Endpoint) {
    w.fingerprint == v.fingerprint && w.alg == v.alg && w.active == v.active && w.ice == v.ice
  }

  lemma SetStateKeepsAnswer(v: Endpoint, st: DtlsState, x: Exporter, o: Ssl)
    ensures SameAnswer(v, SetState(v, st, x, o))
  {
  }

  lemma StartKeepsAnswer(v: Endpoint, x: Exporter, o: Ssl)
    ensures SameAnswer(v, MaybeStart(v, x, o))
  {
    if v.adapter.Some? && v.ice {
      var started := v.(adapter := Some(v.adapter.value.(starts := v.adapter.value.starts + 1)));
      hide SetState;
      SetStateKeepsAnswer(started, Failed, x, o);
      SetStateKeepsAnswer(started, Connecting, x, o);
      SetStateKeepsAnswer(SetState(started, Connecting, x, o), Failed, x, o);
    }
  }

  lemma SetupKeepsAnswer(v: Endpoint, x: Exporter, o: Ssl)
    ensures SameAnswer(v, Setup(v, x, o).0)
  {
    hide MaybeStart;
    var a := Adapter(v.nextId, 0, None, []);
    var w := v.(adapter := Some(a), nextId := v.nextId + 1);
    var d := if v.fingerprint != [] then w.(adapter := Some(a.(digest := Some(v.fingerprint)))) else w;
    StartKeepsAnswer(d, x, o);
  }

  lemma RebuildKeepsAnswer(w: Endpoint, x: Exporter, o: Ssl)
    ensures SameAnswer(w, Rebuild(w, x, o).0)
  {
    hide Setup, SetState;
    if w.adapter.Some? {
      SetStateKeepsAnswer(w.(adapter := None, retired := w.retired + [w.adapter.value]), New, x, o);
    }
    var u := if w.adapter.Some? then DropAdapter(w, x, o) else w;
    SetupKeepsAnswer(u, x, o);
    SetStateKeepsAnswer(Setup(u, x, o).0, Failed, x, o);
  }

  /** Once started, a datagram is injected into the adapter exactly if it is a DTLS packet made of complete records, and
      nothing else happens to it; before that it is kept exactly if it is a ClientHello. */
  lemma InjectedExactly(v: Endpoint, b: Data, x: Exporter, o: Ssl)
    requires Inv(v, x)
    ensures v.state == Connecting || v.state == Connected ==>
      && v.adapter.Some?
      && Handle(v, Packet(b), x, o) == if IsDtls(b) && CompleteRecords(b) then Inject(v, b) else v
    ensures v.state == New && !IsClientHello(b) ==> Handle(v, Packet(b), x, o) == v
    ensures v.state == Closed || v.state == Failed ==> Handle(v, Packet(b), x, o) == v
  {
    WalkIsExact(b);
    hide WalkOk, Setup;
  }

  /** Setting up succeeds exactly if the library creates the adapter, takes the digest if there is one, and the
      suites. */
  lemma SetupSucceedsExactly(v: Endpoint, x: Exporter, o: Ssl)
    ensures Setup(v, x, o).1 <==> o.create && (v.fingerprint == [] || o.digest) && o.suites
  {
    hide MaybeStart;
  }

  /** Starting: connecting if the library starts and the ClientHello kept so far, if any, is made of complete records,
      and failed otherwise; not at all while ICE is not writable. */
  lemma StartOutcome(v: Endpoint, x: Exporter, o: Ssl)
    requires v.state == New && v.adapter.Some?
    ensures var w := MaybeStart(v, x, o);
      if !v.ice then w == v
      else
        && w.state == (if o.start && (v.hello == [] || CompleteRecords(v.hello)) then Connecting else Failed)
        && w.adapter.Some? && w.adapter.value.starts == v.adapter.value.starts + 1
        && w.adapter.value.injected ==
           v.adapter.value.injected + (if o.start && v.hello != [] && CompleteRecords(v.hello) then [v.hello] else [])
  {
    WalkIsExact(v.hello);
    hide WalkOk, CompleteRecords;
  }

  /** A fingerprint that was set is set for good: giving it again changes nothing and succeeds. */
  lemma RepeatedFingerprintIsIgnored(v: Endpoint, alg: string, again: string, value: Data, x: Exporter, o: Ssl, o': Ssl)
    requires v.active && alg != ""
    ensures var w := SetRemoteFingerprint(v, alg, value, x, o).0;
      w.fingerprint == value && SetRemoteFingerprint(w, again, value, x, o') == (w, true)
  {
    hide Rebuild, SetState;
    var w := v.(fingerprint := value, alg := alg);
    RebuildKeepsAnswer(w, x, o);
    SetStateKeepsAnswer(w, Failed, x, o);
  }

  /** An answer without DTLS turns it off, and while it is off no fingerprint is taken. */
  lemma AnswerWithoutDtls(v: Endpoint, alg: string, value: Data, x: Exporter, o: Ssl)
    requires !v.active || v.fingerprint != value
    ensures alg == "" ==> SetRemoteFingerprint(v, alg, value, x, o) == (v.(active := false), false)
    ensures !v.active ==> SetRemoteFingerprint(v, alg, value, x, o) == (v, false)
  {
  }

  /** The first fingerprint goes to the adapter that is there, which stays. */
  lemma FirstFingerprintIsSet(v: Endpoint, alg: string, value: Data, x: Exporter, o: Ssl)
    requires v.active && v.adapter.Some? && alg != "" && v.alg == "" && v.fingerprint != value && o.digest
    ensures var (w, ok) := SetRemoteFingerprint(v, alg, value, x, o);
      ok && w == v.(alg := alg, fingerprint := value, adapter := Some(v.adapter.value.(digest := Some(value))))
  {
  }

  lemma DropOutcome(w: Endpoint, x: Exporter, o: Ssl)
    requires Inv(w, x) && w.adapter.Some?
    ensures DropAdapter(w, x, o) ==
      w.(adapter := None, retired := w.retired +
          [w.adapter.value], state := New, writable := false, send := None, recv := None)
  {
  }

  // Setting up with everything granted: a fresh adapter with the digest, started exactly if ICE is writable.
  lemma SetupOutcome(v: Endpoint, x: Exporter, o: Ssl)
    requires v.state == New && v.send.None? && v.recv.None? && v.fingerprint != []
    requires o.create && o.digest && o.suites && o.start
    ensures var (w, ok) := Setup(v, x, o);
      && ok && w.retired == v.retired && w.adapter.Some? && w.adapter.value.id == v.nextId
      && w.adapter.value.digest == Some(v.fingerprint) && w.adapter.value.starts == (if v.ice then 1 else 0)
      && w.send.None? && w.recv.None? && w.writable == v.writable
      && (!v.ice ==> w.state == New) && (v.ice ==> w.state == Connecting || w.state == Failed)
  {
    hide WalkOk;
  }

  /** A changed fingerprint retires the adapter with its keys and starts over with a new one that has the new digest,
      started at once if ICE is writable. */
  lemma ChangedFingerprintRebuilds(v: Endpoint, alg: string, value: Data, x: Exporter, o: Ssl)
    requires Inv(v, x) && v.active && v.adapter.Some?
    requires alg != "" && v.alg != "" && v.fingerprint != value && value != []
    requires o.create && o.digest && o.suites && o.start
    ensures var (w, ok) := SetRemoteFingerprint(v, alg, value, x, o);
      && ok && w.retired == v.retired + [v.adapter.value] && w.adapter.Some?
      && w.adapter.value.id == v.nextId && w.adapter.value.digest == Some(value)
      && w.adapter.value.starts == (if v.ice then 1 else 0) && !SrtpActive(w) && !w.writable
      && (!v.ice ==> w.state == New) && (v.ice ==> w.state == Connecting || w.state == Failed)
  {
    var w := v.(fingerprint := value, alg := alg);
    assert Inv(w, x);
    hide Inv, DropAdapter, Setup, SetState;
    DropOutcome(w, x, o);
    SetupOutcome(DropAdapter(w, x, o), x, o);
  }

  /** Once connected, the transport is writable exactly while ICE is. */
  lemma WritableFollowsIce(v: Endpoint, ice: bool, x: Exporter, o: Ssl)
    requires v.active && v.state == Connected
    ensures Handle(v, IceWritable(ice), x, o) == v.(ice := ice, writable := ice)
  {
  }

  /** Nothing reaches the upper layer that was not unprotected with the client key exported from
      the adapter in use. */
  lemma DeliveredOnlyUnprotected(es: seq<(Event, Ssl)>, x: Exporter, b: Data, unprotect: Unprotect)
    ensures var v := Exec(es, x);
      Deliver(v, b, unprotect).Some? ==>
        && v.state == Connected && IsRtp(b) && v.adapter.Some?
        && x(v.adapter.value.id).Some? && MaterialOk(x(v.adapter.value.id).value)
        && Deliver(v, b, unprotect) == unprotect(IsRtcp(b), ClientKey(x(v.adapter.value.id).value), b)
  {
    ExecKeepsInv(es, x);
  }
}
