/** The packet tests and the record walk of src/pc/dtls_transport.cpp (record layout:
    section 4.1 of RFC 6347). */
module DtlsRecords {
  import opened Bytes

  const RECORD_HEADER := 13
  const HANDSHAKE_VALUE := 17

  predicate IsDtls(b: Data) { |b| >= RECORD_HEADER && 19 < b[0] as int < 64 }

  predicate IsClientHello(b: Data) { IsDtls(b) && |b| > HANDSHAKE_VALUE && b[0] == 22 && b[13] == 1 }

  predicate IsRtp(b: Data) { |b| >= 12 && (b[0] as int) / 0x40 == 2 }

  // One record: a 13-byte header whose last two bytes give the length of what follows.
  predicate IsRecord(r: Data) { |r| >= RECORD_HEADER && |r| == RECORD_HEADER + Get16(r, 11) }

  function Flatten(rs: seq<Data>): Data {
    if rs == [] then [] else rs[0] + Flatten(rs[1..])
  }

  ghost predicate AreRecords(rs: seq<Data>, b: Data) {
    Flatten(rs) == b && forall i :: 0 <= i < |rs| ==> IsRecord(rs[i])
  }

  // A concatenation of complete records.
  ghost predicate CompleteRecords(b: Data) { exists rs :: AreRecords(rs, b) }

  // The walk as a function of what is left.
  predicate WalkOk(b: Data)
    decreases |b|
  {
    if b == [] then true
    else if |b| < RECORD_HEADER then false
    else
      var n := Get16(b, 11) + RECORD_HEADER;
      n <= |b| && WalkOk(b[n..])
  }

  lemma {:induction false} WalkSplits(b: Data)
    requires WalkOk(b)
    ensures CompleteRecords(b)
    decreases |b|
  {
    if b == [] {
      assert AreRecords([], b);
    } else {
      var n := Get16(b, 11) + RECORD_HEADER;
      WalkSplits(b[n..]);
      var rs :| AreRecords(rs, b[n..]);
      var all := [b[..n]] + rs;
      assert all[1..] == rs;
      assert Flatten(all) == b[..n] + b[n..] == b;
      assert AreRecords(all, b);
    }
  }

  lemma {:induction false} SplitWalks(rs: seq<Data>, b: Data)
    requires AreRecords(rs, b)
    ensures WalkOk(b)
    decreases |rs|
  {
    if rs != [] {
      assert IsRecord(rs[0]);
      var n := |rs[0]|;
      assert b[..n] == rs[0] && b[n..] == Flatten(rs[1..]);
      assert Get16(b, 11) == Get16(rs[0], 11);
      SplitWalks(rs[1..], b[n..]);
    }
  }

  lemma WalkIsExact(b: Data)
    ensures WalkOk(b) <==> CompleteRecords(b)
  {
    if WalkOk(b) {
      WalkSplits(b);
    }
    if CompleteRecords(b) {
      var rs :| AreRecords(rs, b);
      SplitWalks(rs, b);
    }
  }

  /** _handle_dtls_packet: accepts exactly the datagrams made of complete records, never reading
      past the buffer. */
  method CheckRecords(data: Data) returns (ok: bool)
    ensures ok == WalkOk(data)
    ensures ok <==> CompleteRecords(data)
  {
    WalkIsExact(data);
    var at, size := 0, |data|;
    while size > 0
      invariant 0 <= at && 0 <= size && at + size == |data|
      invariant WalkOk(data) == WalkOk(data[at..])
      decreases size
    {
      if size < RECORD_HEADER {
        return false;
      }
      var n := Get16(data, at + 11);
      assert Get16(data[at..], 11) == n;
      if n + RECORD_HEADER > size {
        return false;
      }
      assert data[at..][n + RECORD_HEADER..] == data[at + n + RECORD_HEADER..];
      at := at + RECORD_HEADER + n;
      size := size - (RECORD_HEADER + n);
    }
    assert data[at..] == [];
    return true;
  }

  /** The kinds of packet do not overlap: a datagram is never taken for DTLS and RTP both, and a ClientHello is DTLS. */
  lemma KindsAreDisjoint(b: Data)
    ensures !(IsDtls(b) && IsRtp(b)) && (IsClientHello(b) ==> IsDtls(b))
  {
  }

  /** How the first byte decides (section 5.1.2 of RFC 5764): 20 to 63 is DTLS, 128 to 191 is RTP or RTCP. */
  lemma FirstByteDecides(b: Data)
    requires |b| >= 13
    ensures IsDtls(b) <==> 20 <= b[0] as int <= 63
    ensures IsRtp(b) <==> 128 <= b[0] as int <= 191
  {
  }
}
