/** What src/ice/stun.cpp promises across building, writing, reading and validating. */
module StunRoundTrip {
  import opened Wrappers
  import opened Bytes
  import opened StunCodec

  // The attribute classes agree with the type map that read() uses.
  predicate ClassOk(a: Attr) {
    && (ValueTypeOf(a.typ).ByteStringValue? ==> a.ByteString?)
    && (ValueTypeOf(a.typ).Uint32Value? ==> a.Uint32?)
  }

  function BodySize(attrs: seq<Attr>): nat {
    if attrs == [] then 0 else BodySize(attrs[..|attrs| - 1]) + ATTR_HEADER_SIZE + Pad(TrueLength(attrs[|attrs| - 1]))
  }

  function Recognised(attrs: seq<Attr>): seq<Attr> {
    if attrs == [] then []
    else if ValueTypeOf(attrs[0].typ).Unknown? then Recognised(attrs[1..])
    else [attrs[0]] + Recognised(attrs[1..])
  }

  predicate Regular(attrs: seq<Attr>) { forall i :: 0 <= i < |attrs| ==> CanWrite(attrs[i]) && ClassOk(attrs[i]) }

  lemma WireSize(a: Attr)
    requires CanWrite(a) && TrueLength(a) < 0x1_0000
    ensures |Value(a)| == TrueLength(a) == AttrLength(a)
    ensures |Wire(a)| == ATTR_HEADER_SIZE + Pad(TrueLength(a))
    ensures Get16(Wire(a), 0) == a.typ && Get16(Wire(a), 2) == AttrLength(a)
    ensures Wire(a) == BE16(a.typ) + BE16(|Value(a)|) + Value(a) + Zeros(Pad(|Value(a)|) - |Value(a)|)
    ensures a.ByteString? ==> Value(a) == a.bytes
  {
  }

  lemma {:induction false} SmallParts(attrs: seq<Attr>, i: nat)
    requires i < |attrs|
    ensures ATTR_HEADER_SIZE + Pad(TrueLength(attrs[i])) <= BodySize(attrs)
  {
    if i < |attrs| - 1 {
      SmallParts(attrs[..|attrs| - 1], i);
    }
  }

  lemma AddFours(x: nat, k: nat)
    requires x % 4 == 0
    ensures (x + 4 * k) % 4 == 0
  {
  }

  lemma {:induction false} BodyIsAligned(attrs: seq<Attr>)
    ensures BodySize(attrs) % 4 == 0
  {
    if attrs != [] {
      var front, last := attrs[..|attrs| - 1], attrs[|attrs| - 1];
      BodyIsAligned(front);
      AddFours(BodySize(front), 1 + (TrueLength(last) + 3) / 4);
      assert Pad(TrueLength(last)) == 4 * ((TrueLength(last) + 3) / 4);
      hide Pad, TrueLength;
    }
  }

  lemma {:induction false} WireAllSize(attrs: seq<Attr>)
    requires Regular(attrs) && BodySize(attrs) < 0x1_0000
    ensures |WireAll(attrs)| == BodySize(attrs)
  {
    if attrs != [] {
      SmallParts(attrs, |attrs| - 1);
      WireSize(attrs[|attrs| - 1]);
      WireAllSize(attrs[..|attrs| - 1]);
    }
  }

  lemma {:induction false} WireAllFront(attrs: seq<Attr>)
    requires attrs != []
    ensures WireAll(attrs) == Wire(attrs[0]) + WireAll(attrs[1..])
  {
    hide Wire;
    var n := |attrs|;
    if n == 1 {
      assert WireAll(attrs[..0]) == [];
    } else {
      var front, last := attrs[..n - 1], attrs[n - 1];
      WireAllFront(front);
      assert front[1..] == attrs[1..][..n - 2];
      assert WireAll(attrs[1..]) == WireAll(front[1..]) + Wire(last);
    }
  }

  lemma {:induction false} BodySizeFront(attrs: seq<Attr>)
    requires attrs != []
    ensures BodySize(attrs) == ATTR_HEADER_SIZE + Pad(TrueLength(attrs[0])) + BodySize(attrs[1..])
  {
    var n := |attrs|;
    if n == 1 {
      assert BodySize(attrs[..0]) == 0;
    } else {
      BodySizeFront(attrs[..n - 1]);
      assert attrs[..n - 1][1..] == attrs[1..][..n - 2];
    }
  }

  // Where the pieces of a type-length-value block lie.
  lemma Pieces(b: Data, typ: U16, v: Data, z: Data, tail: Data)
    requires |v| < 0x1_0000 && b == BE16(typ) + BE16(|v|) + v + z + tail
    ensures |b| == 4 + |v| + |z| + |tail|
    ensures Get16(b, 0) == typ && Get16(b, 2) == |v|
    ensures b[4..][..|v|] == v
    ensures b[4..][|v|..][|z|..] == tail && b[4..][|v| + |z|..] == tail
  {
    assert b == BE16(typ) + (BE16(|v|) + (v + (z + tail)));
  }

  lemma ParseUnknown(b: Data, typ: U16, v: Data, tail: Data)
    requires Pad(|v|) < 0x1_0000 && ValueTypeOf(typ).Unknown?
    requires b == BE16(typ) + BE16(|v|) + v + Zeros(Pad(|v|) - |v|) + tail
    ensures ParseAttrs(b) == ParseAttrs(tail)
  {
    Pieces(b, typ, v, Zeros(Pad(|v|) - |v|), tail);
  }

  lemma ParseByteString(b: Data, typ: U16, v: Data, tail: Data)
    requires |v| < 0x1_0000 && ValueTypeOf(typ).ByteStringValue?
    requires b == BE16(typ) + BE16(|v|) + v + Zeros(Pad(|v|) - |v|) + tail
    ensures ParseAttrs(b) == Prepend(ByteString(typ, v), ParseAttrs(tail))
  {
    Pieces(b, typ, v, Zeros(Pad(|v|) - |v|), tail);
  }

  lemma ParseUint32(b: Data, typ: U16, n: U32, tail: Data)
    requires ValueTypeOf(typ).Uint32Value?
    requires b == BE16(typ) + BE16(4) + BE32(n) + [] + tail
    ensures ParseAttrs(b) == Prepend(Uint32(typ, n), ParseAttrs(tail))
  {
    Pieces(b, typ, BE32(n), [], tail);
    var rest := b[4..];
    assert Get32(rest, 0) == Get32(rest[..4], 0);
    assert rest[4..] == tail;
  }

  // One attribute: read() recovers it if its type is known and steps over it exactly if not.
  lemma ParseOne(a: Attr, tail: Data)
    requires CanWrite(a) && ClassOk(a) && ATTR_HEADER_SIZE + Pad(TrueLength(a)) < 0x1_0000
    ensures ParseAttrs(Wire(a) + tail) ==
            if ValueTypeOf(a.typ).Unknown? then ParseAttrs(tail) else Prepend(a, ParseAttrs(tail))
  {
    WireSize(a);
    hide ParseAttrs, Wire, Pad;
    match ValueTypeOf(a.typ)
    case Unknown => ParseUnknown(Wire(a) + tail, a.typ, Value(a), tail);
    case ByteStringValue => ParseByteString(Wire(a) + tail, a.typ, Value(a), tail);
    case Uint32Value =>
      assert Zeros(0) == [];
      ParseUint32(Wire(a) + tail, a.typ, a.v, tail);
  }

  lemma {:induction false} ParseAll(attrs: seq<Attr>)
    requires Regular(attrs) && BodySize(attrs) < 0x1_0000
    ensures ParseAttrs(WireAll(attrs)) == Some(Recognised(attrs))
  {
    if attrs != [] {
      WireAllFront(attrs);
      BodySizeFront(attrs);
      ParseOne(attrs[0], WireAll(attrs[1..]));
      ParseAll(attrs[1..]);
    }
  }

  lemma FindStep(b: Data, pre: Data, a: Attr, tail: Data)
    requires b == pre + Wire(a) + tail
    requires CanWrite(a) && TrueLength(a) < 0x1_0000 && a.typ != MESSAGE_INTEGRITY
    ensures FindIntegrity(b, |pre|) == FindIntegrity(b, |pre| + |Wire(a)|)
  {
    hide Wire, TrueLength, BE16, Zeros, Value, Get16, FindIntegrity, Pad;
    WireSize(a);
    GetInside(b, pre, Wire(a), tail);
    SkipOne(b, |pre|);
  }

  lemma SkipOne(b: Data, pos: nat)
    requires pos + ATTR_HEADER_SIZE <= |b| && Get16(b, pos) != MESSAGE_INTEGRITY
    ensures FindIntegrity(b, pos) == FindIntegrity(b, pos + ATTR_HEADER_SIZE + Pad(Get16(b, pos + 2)))
  {
  }

  lemma GetInside(b: Data, pre: Data, w: Data, tail: Data)
    requires b == pre + w + tail && |w| >= 4
    ensures Get16(b, |pre|) == Get16(w, 0) && Get16(b, |pre| + 2) == Get16(w, 2)
  {
  }

  // The scan of the validator lands on the end of any run of other attributes.
  lemma {:induction false} FindSkips(b: Data, pre: Data, attrs: seq<Attr>, tail: Data)
    requires b == pre + WireAll(attrs) + tail
    requires Regular(attrs) && BodySize(attrs) < 0x1_0000
    requires forall i :: 0 <= i < |attrs| ==> attrs[i].typ != MESSAGE_INTEGRITY
    ensures FindIntegrity(b, |pre|) == FindIntegrity(b, |pre| + |WireAll(attrs)|)
    decreases |attrs|
  {
    hide Wire, FindIntegrity;
    if attrs != [] {
      WireAllFront(attrs);
      BodySizeFront(attrs);
      SkipFirst(b, pre, Wire(attrs[0]), WireAll(attrs[1..]), tail);
      FindStep(b, pre, attrs[0], WireAll(attrs[1..]) + tail);
      FindSkips(b, pre + Wire(attrs[0]), attrs[1..], tail);
    }
  }

  lemma SkipFirst(b: Data, pre: Data, w: Data, rest: Data, tail: Data)
    requires b == pre + (w + rest) + tail
    ensures b == pre + w + (rest + tail) && b == (pre + w) + rest + tail
  {
  }

  // ----------------------------------------------------------- whole messages

  // A message under construction: 12-byte id, RTP bit clear, every attribute writable, and the
  // length field equal to the size of the attributes, which leaves room for `room` more bytes.
  predicate Ready(m: Msg, room: nat) {
    && |m.id| == 12 && !RtpBit(m.typ)
    && Regular(m.attrs)
    && m.length == BodySize(m.attrs) && BodySize(m.attrs) + room < 0x1_0000
  }

  lemma ReadyWithLess(m: Msg, room: nat, less: nat)
    requires Ready(m, room) && less <= room
    ensures Ready(m, less) && m.length + less < 0x1_0000
  {
  }

  lemma WireAllSnoc(attrs: seq<Attr>, a: Attr)
    ensures WireAll(attrs + [a]) == WireAll(attrs) + Wire(a)
    ensures BodySize(attrs + [a]) == BodySize(attrs) + ATTR_HEADER_SIZE + Pad(TrueLength(a))
  {
    hide Wire;
    assert (attrs + [a])[..|attrs|] == attrs;
  }

  /** add_attribute keeps the length field equal to the size of what write() will emit. */
  lemma AddAttrKeepsReady(m: Msg, a: Attr, room: nat)
    requires CanWrite(a) && ClassOk(a) && Ready(m, ATTR_HEADER_SIZE + Pad(TrueLength(a)) + room)
    ensures Ready(AddAttr(m, a), room) && Writable(AddAttr(m, a)) && AddAttr(m, a).length + room < 0x1_0000
    ensures |Encode(AddAttr(m, a))| == HEADER_SIZE + AddAttr(m, a).length
  {
    WireAllSnoc(m.attrs, a);
    WireAllSize(m.attrs + [a]);
    hide WireAll, Wrap16, Pad, TrueLength;
  }

  // The message up to an attribute of `extra` bytes that is added next.
  function Prefix(m: Msg, extra: nat): Data
    requires m.length + extra < 0x1_0000
  {
    Header(m.(length := m.length + extra)) + WireAll(m.attrs)
  }

  lemma AddedLength(m: Msg, a: Attr, size: nat)
    requires TrueLength(a) < 0x1_0000 && size == ATTR_HEADER_SIZE + Pad(TrueLength(a)) && m.length + size < 0x1_0000
    ensures AddAttr(m, a) == m.(length := m.length + size, attrs := m.attrs + [a])
  {
    hide Pad, TrueLength;
  }

  lemma EncodeAdded(m: Msg, a: Attr, size: nat)
    requires CanWrite(a) && size == ATTR_HEADER_SIZE + Pad(TrueLength(a)) && Ready(m, size)
    ensures |Wire(a)| == size && |Prefix(m, size)| == HEADER_SIZE + m.length
    ensures Encode(AddAttr(m, a)) == Prefix(m, size) + Wire(a)
    ensures var b := Encode(AddAttr(m, a)); |b| >= size && b[..|b| - size] == Prefix(m, size)
  {
    AddedLength(m, a, size);
    WireAllSnoc(m.attrs, a);
    WireAllSize(m.attrs);
    WireSize(a);
    var h := Header(m.(length := m.length + size));
    assert |h| == HEADER_SIZE && Header(AddAttr(m, a)) == h;
    AppendParts(h, WireAll(m.attrs), Wire(a));
    hide WireAll, Wire, Header, AddAttr, Regular;
  }

  // Overwriting the value of the attribute just added, as copy_bytes and set_value do.
  lemma ReplaceAdded(m: Msg, a: Attr, b: Attr)
    requires TrueLength(a) == TrueLength(b)
    ensures ReplaceLast(AddAttr(m, a), b) == AddAttr(m, b)
  {
    hide Wrap16, Pad, TrueLength;
    assert (m.attrs + [a])[..|m.attrs|] == m.attrs;
  }

  /** The HMAC covers the header, with its length field counting MESSAGE-INTEGRITY itself,
      and every attribute before it. */
  lemma IntegrityAdded(m: Msg, key: Data, hmac: Hmac)
    requires Ready(m, 24) && |hmac(key, Prefix(m, 24))| == MI_SIZE
    ensures AddMessageIntegrity(m, key, hmac) ==
            Some(AddAttr(m, ByteString(MESSAGE_INTEGRITY, hmac(key, Prefix(m, 24)))))
  {
    AddAttrKeepsReady(m, MI_PLACEHOLDER, 0);
    EncodeAdded(m, MI_PLACEHOLDER, 24);
    ReplaceAdded(m, MI_PLACEHOLDER, ByteString(MESSAGE_INTEGRITY, hmac(key, Prefix(m, 24))));
    hide Encode, AddAttr, ReplaceLast, Prefix;
  }

  lemma FingerprintAdded(m: Msg, crc: Crc)
    requires Ready(m, 8)
    ensures AddFingerprint(m, crc) ==
            Some(AddAttr(m, FingerprintOf(Prefix(m, 8), crc)))
  {
    var blank := Uint32(FINGERPRINT, 0);
    AddAttrKeepsReady(m, blank, 0);
    EncodeAdded(m, blank, 8);
    ReplaceAdded(m, blank, FingerprintOf(Prefix(m, 8), crc));
    hide Encode, AddAttr, ReplaceLast, Prefix, Xor32;
  }

  lemma HeaderFields(m: Msg, body: Data)
    requires |m.id| == 12
    ensures |Header(m)| == HEADER_SIZE
    ensures var b := Header(m) + body;
      Get16(b, 0) == m.typ && Get16(b, 2) == m.length && Get32(b, 4) == MAGIC_COOKIE &&
      b[8..20] == m.id && b[20..] == body
  {
    assert Header(m) == BE16(m.typ) + (BE16(m.length) + (BE32(MAGIC_COOKIE) + m.id));
    assert Get16(BE32(MAGIC_COOKIE), 0) == 0x2112 && Get16(BE32(MAGIC_COOKIE), 2) == 0xA442;
    var b := Header(m) + body;
    assert b[2..4] == BE16(m.length) && b[4..8] == BE32(MAGIC_COOKIE);
  }

  /** read() recovers type, length, id and exactly the recognised attributes, in order. */
  lemma ReadAfterWrite(m: Msg)
    requires Ready(m, 0)
    ensures Decode(Encode(m)) == Some(m.(attrs := Recognised(m.attrs)))
  {
    HeaderFields(m, WireAll(m.attrs));
    WireAllSize(m.attrs);
    ParseAll(m.attrs);
    hide Header, WireAll, ParseAttrs, Recognised, BodySize;
  }

  function FingerprintOf(prefix: Data, crc: Crc): Attr {
    Uint32(FINGERPRINT, Xor32(crc(prefix), FINGERPRINT_XOR))
  }

  // The eight bytes at the end of a fingerprinted message.
  lemma FingerprintTail(p: Data, v: U32)
    ensures var b := p + Wire(Uint32(FINGERPRINT, v));
      |b| == |p| + 8 && b[..|b| - 8] == p &&
      Get16(b, |b| - 8) == FINGERPRINT && Get16(b, |b| - 6) == 4 && Get32(b, |b| - 4) == v
  {
    var a := Uint32(FINGERPRINT, v);
    WireSize(a);
    var w := Wire(a);
    assert w[4..8] == BE32(v);
    hide Wire, BE32;
    var b := p + w;
    assert b[|p|..] == w;
    assert Get32(b, |b| - 4) == Get32(w[4..8], 0);
  }

  // What may stand before a FINGERPRINT.
  predicate Stem(p: Data) { |p| % 4 == 0 && |p| >= HEADER_SIZE && Get32(p, 4) == MAGIC_COOKIE }

  lemma FingerprintForced(b: Data, crc: Crc)
    requires FingerprintOk(b, crc)
    ensures Stem(b[..|b| - 8]) && b == b[..|b| - 8] + Wire(FingerprintOf(b[..|b| - 8], crc))
  {
    hide Xor32, Wire, Get16, Get32;
    var n, v := |b|, Get32(b, |b| - 4);
    Xor32Twice(v, FINGERPRINT_XOR);
    WireFromBytes(b, n - 8, v);
    StemOf(b, crc);
    hide Stem;
    assert b == b[..n - 8] + b[n - 8..n];
  }

  lemma StemOf(b: Data, crc: Crc)
    requires FingerprintOk(b, crc)
    ensures Stem(b[..|b| - 8])
  {
    hide Xor32, Get16, Get32;
    assert (|b| - 8) % 4 == 0;
    assert b == b[..|b| - 8] + b[|b| - 8..];
    GetInPrefix(b[..|b| - 8], b[|b| - 8..]);
  }

  lemma WireFromBytes(b: Data, i: nat, v: U32)
    requires i + 8 <= |b| && Get16(b, i) == FINGERPRINT && Get16(b, i + 2) == 4 && Get32(b, i + 4) == v
    ensures Wire(Uint32(FINGERPRINT, v)) == b[i..i + 8]
  {
    BytesOf16(b, i);
    BytesOf16(b, i + 2);
    BytesOf32(b, i + 4);
    hide BE16, BE32, Get16, Get32;
    assert Wire(Uint32(FINGERPRINT, v)) == b[i..i + 2] + b[i + 2..i + 4] + b[i + 4..i + 8] + [];
  }

  lemma FingerprintSuffices(p: Data, crc: Crc)
    requires Stem(p)
    ensures FingerprintOk(p + Wire(FingerprintOf(p, crc)), crc)
  {
    hide Xor32, Wire, Get16, Get32;
    FingerprintTail(p, FingerprintOf(p, crc).v);
    Xor32Twice(crc(p), FINGERPRINT_XOR);
    AddFours(|p|, 2);
    GetInPrefix(p, Wire(FingerprintOf(p, crc)));
  }

  lemma GetInPrefix(p: Data, w: Data)
    requires |p| >= 8
    ensures Get32(p + w, 4) == Get32(p, 4)
  {
  }

  /** The fast check accepts exactly the aligned byte strings of at least a header, with the magic
      cookie, that end in the FINGERPRINT attribute computed from everything before it. */
  lemma FingerprintOkExactly(b: Data, crc: Crc)
    ensures FingerprintOk(b, crc) <==> exists p :: Stem(p) && b == p + Wire(FingerprintOf(p, crc))
  {
    if FingerprintOk(b, crc) {
      FingerprintForced(b, crc);
      hide FingerprintOk, Stem, Wire;
    }
    forall p | Stem(p) && b == p + Wire(FingerprintOf(p, crc))
      ensures FingerprintOk(b, crc)
    {
      FingerprintSuffices(p, crc);
    }
  }

  // --------------------------------------------------------- message integrity

  // A message as the validator sees it: header, attributes, MESSAGE-INTEGRITY, anything after.
  function Signed(m: Msg, digest: Data, tail: Data): Data
    requires m.length + 24 + |tail| < 0x1_0000
  {
    Header(m.(length := m.length + 24 + |tail|)) + WireAll(m.attrs) + Wire(ByteString(MESSAGE_INTEGRITY, digest)) + tail
  }

  predicate Unsigned(attrs: seq<Attr>) {
    forall i :: 0 <= i < |attrs| ==> attrs[i].typ != MESSAGE_INTEGRITY
  }

  lemma FourParts(b: Data, h: Data, w: Data, mi: Data, tail: Data)
    requires b == h + w + mi + tail && |mi| == 24
    ensures b == h + (w + mi + tail) && b == h + w + (mi + tail)
    ensures var pos := |h| + |w|; b[pos + 4..pos + 24] == mi[4..24] && Get16(b, pos) == Get16(mi, 0)
  {
    var pos := |h| + |w|;
    assert b[pos..pos + 24] == mi;
    assert b[pos + 4..pos + 24] == b[pos..pos + 24][4..24];
  }

  // The scan finds the MESSAGE-INTEGRITY that was added, and its value is the digest.
  lemma IntegrityFound(m: Msg, digest: Data, tail: Data)
    requires Ready(m, 24 + |tail|) && Unsigned(m.attrs) && |digest| == MI_SIZE
    ensures var b := Signed(m, digest, tail);
      var pos := HEADER_SIZE + m.length;
      && |b| == pos + 24 + |tail| && FindIntegrity(b, HEADER_SIZE) == Some(pos)
      && b[pos + 4..pos + 24] == digest && Get16(b, 2) == m.length + 24 + |tail|
  {
    var mm := m.(length := m.length + 24 + |tail|);
    var h, w, mi := Header(mm), WireAll(m.attrs), Wire(ByteString(MESSAGE_INTEGRITY, digest));
    var b := h + w + mi + tail;
    assert b == Signed(m, digest, tail);
    WireAllSize(m.attrs);
    MiWire(digest);
    hide Header, WireAll, Wire, Regular, Signed, Get16;
    FourParts(b, h, w, mi, tail);
    HeaderFields(mm, w + mi + tail);
    FindSkips(b, h, m.attrs, mi + tail);
  }

  lemma MiWire(digest: Data)
    requires |digest| == MI_SIZE
    ensures var mi := Wire(ByteString(MESSAGE_INTEGRITY, digest));
      |mi| == 24 && mi[4..24] == digest && Get16(mi, 0) == MESSAGE_INTEGRITY
  {
    WireSize(ByteString(MESSAGE_INTEGRITY, digest));
  }

  lemma PatchedPrefix(b: Data, t: Data, len: Data, rest: Data, tail: Data)
    requires |t| == 2 && |len| == 2 && b == t + len + rest + tail
    ensures b[..2] == t && b[4..4 + |rest|] == rest && b[..4 + |rest|] == t + len + rest
  {
  }

  // What the validator hashes is what the sender hashed, whatever follows MESSAGE-INTEGRITY.
  lemma SignedBytesAgree(m: Msg, digest: Data, tail: Data)
    requires Ready(m, 24 + |tail|) && |digest| == MI_SIZE
    ensures var b := Signed(m, digest, tail);
      var pos := HEADER_SIZE + m.length;
      && |b| == pos + 24 + |tail|
      && b[..2] + BE16(pos + 24 - HEADER_SIZE) + b[4..pos] == Prefix(m, 24)
      && (tail == [] ==> b[..pos] == Prefix(m, 24))
  {
    hide Signed, Prefix, WireAll, Wire, Regular, BE16, BE32;
    WireAllSize(m.attrs);
    MiWire(digest);
    SignedRegrouped(m, digest, tail);
    var rest, mi := BE32(MAGIC_COOKIE) + m.id + WireAll(m.attrs), Wire(ByteString(MESSAGE_INTEGRITY, digest));
    assert HEADER_SIZE + m.length == 4 + |rest|;
    hide *;
    PatchedPrefix(Signed(m, digest, tail), BE16(m.typ), BE16(m.length + 24 + |tail|), rest, mi + tail);
  }

  lemma SignedRegrouped(m: Msg, digest: Data, tail: Data)
    requires m.length + 24 + |tail| < 0x1_0000
    ensures var rest := BE32(MAGIC_COOKIE) + m.id + WireAll(m.attrs);
      && Signed(m, digest, tail) ==
         BE16(m.typ) + BE16(m.length + 24 + |tail|) + rest + (Wire(ByteString(MESSAGE_INTEGRITY, digest)) + tail)
      && Prefix(m, 24) == BE16(m.typ) + BE16(m.length + 24) + rest
  {
    hide WireAll, Wire, BE16, BE32;
    var w, mi := WireAll(m.attrs), Wire(ByteString(MESSAGE_INTEGRITY, digest));
    Regroup(BE16(m.typ), BE16(m.length + 24 + |tail|), BE32(MAGIC_COOKIE), m.id, w, mi, tail);
    Regroup(BE16(m.typ), BE16(m.length + 24), BE32(MAGIC_COOKIE), m.id, w, [], []);
  }

  lemma Regroup(t: Data, len: Data, cookie: Data, id: Data, w: Data, mi: Data, tail: Data)
    ensures t + len + cookie + id + w + mi + tail == t + len + (cookie + id + w) + (mi + tail)
    ensures t + len + cookie + id + w == t + len + (cookie + id + w)
  {
  }

  lemma AlignedSum(x: nat, y: nat)
    requires x % 4 == 0 && y % 4 == 0
    ensures (HEADER_SIZE + x + 24 + y) % 4 == 0 && (HEADER_SIZE + x) % 4 == 0
  {
  }

  // The bytes a validator hashes: everything before MESSAGE-INTEGRITY, with a length that ends after it.
  function Hashed(b: Data, pos: nat): Data
    requires HEADER_SIZE <= pos <= |b| && pos + 24 - HEADER_SIZE < 0x1_0000
  {
    b[..2] + BE16(pos + 24 - HEADER_SIZE) + b[4..pos]
  }

  // If nothing follows MESSAGE-INTEGRITY, the length is right as it is.
  lemma LengthAsItIs(b: Data, pos: nat)
    requires HEADER_SIZE <= pos && |b| == pos + 24 && Get16(b, 2) + HEADER_SIZE == |b|
    ensures b[..pos] == Hashed(b, pos)
  {
    BytesOf16(b, 2);
    assert b[..pos] == b[..2] + b[2..4] + b[4..pos];
  }

  /** Of all byte strings the validation accepts exactly those that are as long as they say, have a first MESSAGE-
      INTEGRITY with twenty bytes of value, and carry there the HMAC of what stands before it. */
  lemma AcceptedExactly(b: Data, key: Data, hmac: Hmac)
    ensures CheckIntegrity(b, key, hmac) == Accepted <==>
      && |b| % 4 == 0 && |b| >= HEADER_SIZE && Get16(b, 2) + HEADER_SIZE == |b|
      && FindIntegrity(b, HEADER_SIZE).Some?
      && var pos := FindIntegrity(b, HEADER_SIZE).value;
         && pos + 24 <= |b| && |hmac(key, Hashed(b, pos))| == MI_SIZE
         && b[pos + 4..pos + 24] == hmac(key, Hashed(b, pos))
  {
    if |b| >= HEADER_SIZE && Get16(b, 2) + HEADER_SIZE == |b| {
      var found := FindIntegrity(b, HEADER_SIZE);
      hide FindIntegrity, BE16, Get16;
      if found.Some? && found.value + 24 == |b| {
        LengthAsItIs(b, found.value);
      }
    }
  }

  lemma ReadyIsAligned(m: Msg, room: nat)
    requires Ready(m, room)
    ensures m.length % 4 == 0 && m.length + room < 0x1_0000
  {
    BodyIsAligned(m.attrs);
  }

  /** A message with any twenty bytes as MESSAGE-INTEGRITY and any aligned bytes after it is accepted under a key
      exactly if the twenty bytes are the HMAC under that key of what the sender signs: nothing forged gets through.
      */
  lemma IntegrityAcceptedExactly(m: Msg, digest: Data, key: Data, hmac: Hmac, tail: Data)
    requires Ready(m, 24 + |tail|) && Unsigned(m.attrs) && |tail| % 4 == 0 && |digest| == MI_SIZE
    requires |hmac(key, Prefix(m, 24))| == MI_SIZE
    ensures CheckIntegrity(Signed(m, digest, tail), key, hmac) == Accepted <==> digest == hmac(key, Prefix(m, 24))
    ensures CheckIntegrity(Signed(m, digest, tail), key, hmac) != Overrun
  {
    hide *;
    ReadyIsAligned(m, 24 + |tail|);
    AlignedSum(m.length, |tail|);
    IntegrityFound(m, digest, tail);
    SignedBytesAgree(m, digest, tail);
    CheckDecides(Signed(m, digest, tail), HEADER_SIZE + m.length, key, hmac, digest, Prefix(m, 24));
  }

  lemma CheckDecides(b: Data, pos: nat, key: Data, hmac: Hmac, digest: Data, hashed: Data)
    requires |b| % 4 == 0 && HEADER_SIZE <= pos && pos + 24 <= |b| && Get16(b, 2) + HEADER_SIZE == |b|
    requires FindIntegrity(b, HEADER_SIZE) == Some(pos) && b[pos + 4..pos + 24] == digest
    requires b[..2] + BE16(pos + 24 - HEADER_SIZE) + b[4..pos] == hashed && |hmac(key, hashed)| == MI_SIZE
    ensures CheckIntegrity(b, key, hmac) == Accepted <==> digest == hmac(key, hashed)
    ensures CheckIntegrity(b, key, hmac) != Overrun
  {
    hide FindIntegrity, BE16, Get16, CheckIntegrity;
    AcceptedExactly(b, key, hmac);
    NoOverrun(b, pos, key, hmac);
  }

  lemma NoOverrun(b: Data, pos: nat, key: Data, hmac: Hmac)
    requires FindIntegrity(b, HEADER_SIZE) == Some(pos) && pos + 24 <= |b|
    ensures CheckIntegrity(b, key, hmac) != Overrun
  {
    hide FindIntegrity, BE16, Get16;
  }

  lemma IntegrityAccepted(m: Msg, key: Data, hmac: Hmac, tail: Data)
    requires Ready(m, 24 + |tail|) && Unsigned(m.attrs) && |tail| % 4 == 0
    requires |hmac(key, Prefix(m, 24))| == MI_SIZE
    ensures CheckIntegrity(Signed(m, hmac(key, Prefix(m, 24)), tail), key, hmac) == Accepted
  {
    assert m.length + 24 + |tail| < 0x1_0000;
    hide *;
    IntegrityAcceptedExactly(m, hmac(key, Prefix(m, 24)), key, hmac, tail);
  }

  // ----------------------------------------------- too short a MESSAGE-INTEGRITY

  lemma {:induction false} WireAllAppend(a: seq<Attr>, b: seq<Attr>)
    ensures WireAll(a + b) == WireAll(a) + WireAll(b) && BodySize(a + b) == BodySize(a) + BodySize(b)
    decreases |b|
  {
    hide Wire, Pad, TrueLength;
    if b == [] {
      assert a + b == a;
    } else {
      var n := |b| - 1;
      WireAllAppend(a, b[..n]);
      assert (a + b)[..|a + b| - 1] == a + b[..n];
      JoinWires(WireAll(a), WireAll(b[..n]), Wire(b[n]));
    }
  }

  lemma JoinWires(x: Data, y: Data, z: Data)
    ensures x + y + z == x + (y + z)
  {
  }

  lemma TypeFirst(attrs: seq<Attr>)
    requires attrs != []
    ensures |WireAll(attrs)| >= 4 && Get16(WireAll(attrs), 0) == attrs[0].typ
  {
    WireAllFront(attrs);
    hide WireAll;
  }

  lemma FoundHere(b: Data, pos: nat)
    requires pos + ATTR_HEADER_SIZE <= |b| && Get16(b, pos) == MESSAGE_INTEGRITY
    ensures FindIntegrity(b, pos) == Some(pos)
  {
  }

  lemma SplitAttrs(attrs: seq<Attr>, k: nat)
    requires Regular(attrs) && BodySize(attrs) < 0x1_0000 && k < |attrs|
    ensures WireAll(attrs) == WireAll(attrs[..k]) + WireAll(attrs[k..]) && Regular(attrs[..k])
    ensures BodySize(attrs) == BodySize(attrs[..k]) + BodySize(attrs[k..])
    ensures |WireAll(attrs[..k])| == BodySize(attrs[..k]) && |WireAll(attrs[k..])| == BodySize(attrs[k..]) >= 4
    ensures Get16(WireAll(attrs[k..]), 0) == attrs[k].typ
  {
    assert attrs == attrs[..k] + attrs[k..];
    WireAllAppend(attrs[..k], attrs[k..]);
    WireAllSize(attrs[..k]);
    WireAllSize(attrs[k..]);
    TypeFirst(attrs[k..]);
    hide WireAll, BodySize, CanWrite, ClassOk, Get16;
  }

  // The first MESSAGE-INTEGRITY of a written message, wherever it stands.
  lemma FirstIntegrity(m: Msg, k: nat)
    requires Ready(m, 0) && k < |m.attrs| && m.attrs[k].typ == MESSAGE_INTEGRITY && Unsigned(m.attrs[..k])
    ensures var b := Encode(m);
      && |b| == HEADER_SIZE + m.length && Get16(b, 2) == m.length && |b| % 4 == 0
      && FindIntegrity(b, HEADER_SIZE) == Some(|b| - BodySize(m.attrs[k..]))
  {
    hide Header, WireAll, Regular, BodySize, Get16, FindIntegrity;
    SplitAttrs(m.attrs, k);
    BodyIsAligned(m.attrs);
    HeaderFields(m, WireAll(m.attrs));
    AddFours(m.length, 5);
    var h, w, t := Header(m), WireAll(m.attrs[..k]), WireAll(m.attrs[k..]);
    JoinWires(h, w, t);
    FindSkips(Encode(m), h, m.attrs[..k], t);
    GetAfter(Encode(m), h + w, t);
    FoundHere(Encode(m), |h + w|);
  }

  lemma GetAfter(b: Data, pre: Data, t: Data)
    requires b == pre + t && |t| >= 4
    ensures Get16(b, |pre|) == Get16(t, 0)
  {
  }

  /** read accepts a message with MESSAGE-INTEGRITY of any length. Validating it compares twenty bytes all the same,
      and runs past the message exactly if fewer than 24 bytes are left where the first MESSAGE-INTEGRITY starts. */
  lemma OverrunExactly(m: Msg, k: nat, key: Data, hmac: Hmac)
    requires Ready(m, 0) && k < |m.attrs| && m.attrs[k].typ == MESSAGE_INTEGRITY && Unsigned(m.attrs[..k])
    requires forall d :: |hmac(key, d)| == MI_SIZE
    ensures Decode(Encode(m)).Some?
    ensures CheckIntegrity(Encode(m), key, hmac) == Overrun <==> BodySize(m.attrs[k..]) < 24
  {
    FirstIntegrity(m, k);
    ReadAfterWrite(m);
    hide Encode, Decode, BodySize, FindIntegrity, Regular;
  }

  // The attributes from k on, with the fingerprint.
  lemma TailWithFingerprint(m: Msg, k: nat, v: U32)
    requires k < |m.attrs|
    ensures var attrs := AddAttr(m, Uint32(FINGERPRINT, v)).attrs;
      && k < |attrs| && attrs[k] == m.attrs[k] && attrs[..k] == m.attrs[..k]
      && BodySize(attrs[k..]) == BodySize(m.attrs[k..]) + 8
  {
    var fp := Uint32(FINGERPRINT, v);
    assert (m.attrs + [fp])[k..] == m.attrs[k..] + [fp];
    assert (m.attrs[k..] + [fp])[..|m.attrs[k..]|] == m.attrs[k..];
  }

  /** The messages that get as far as being validated end in a valid FINGERPRINT. On these the comparison runs past the
      message exactly if fewer than 16 bytes stand between the start of MESSAGE-INTEGRITY and the FINGERPRINT. */
  lemma FingerprintedOverrunExactly(m: Msg, k: nat, key: Data, hmac: Hmac, crc: Crc)
    requires Ready(m, 8) && k < |m.attrs| && m.attrs[k].typ == MESSAGE_INTEGRITY && Unsigned(m.attrs[..k])
    requires forall d :: |hmac(key, d)| == MI_SIZE
    ensures AddFingerprint(m, crc).Some?
    ensures var b := Encode(AddFingerprint(m, crc).value);
      && FingerprintOk(b, crc) && Decode(b).Some?
      && (CheckIntegrity(b, key, hmac) == Overrun <==> BodySize(m.attrs[k..]) < 16)
  {
    assert m.length + 8 < 0x1_0000;
    hide AddAttr, AddFingerprint, Encode, Prefix, FingerprintOk, Decode, CheckIntegrity;
    hide Ready, Stem, Wire, Writable, Xor32, BodySize;
    FingerprintedForm(m, crc);
    var fp := FingerprintOf(Prefix(m, 8), crc);
    var sealed := AddAttr(m, fp);
    EncodeAdded(m, fp, 8);
    SealedStem(m);
    FingerprintSuffices(Prefix(m, 8), crc);
    TailWithFingerprint(m, k, fp.v);
    OverrunExactly(sealed, k, key, hmac);
  }

  // A binding response with an empty MESSAGE-INTEGRITY, before its FINGERPRINT is added.
  const EMPTY_INTEGRITY: Msg := Msg(0x0101, 4, Zeros(12), [ByteString(MESSAGE_INTEGRITY, [])])

  lemma EmptyIntegrityOverruns(key: Data, hmac: Hmac, crc: Crc)
    requires forall d :: |hmac(key, d)| == MI_SIZE
    ensures AddFingerprint(EMPTY_INTEGRITY, crc).Some?
    ensures var b := Encode(AddFingerprint(EMPTY_INTEGRITY, crc).value);
      FingerprintOk(b, crc) && Decode(b).Some? && CheckIntegrity(b, key, hmac) == Overrun
  {
    var m := EMPTY_INTEGRITY;
    assert m.attrs[..0] == [] && m.attrs[0..] == m.attrs;
    assert BodySize(m.attrs) == 4;
    assert Ready(m, 8);
    hide AddFingerprint, FingerprintOk, Encode, Decode, CheckIntegrity, Ready;
    FingerprintedOverrunExactly(m, 0, key, hmac, crc);
  }

  // ------------------------------------------------------------- main theorem

  /** For any HMAC and CRC32: add_message_integrity(key), add_fingerprint, write gives bytes that
      the fingerprint check accepts, from which read() recovers the type, the id and exactly the
      recognised attributes in order, and on which the integrity check with the same key succeeds. */
  lemma SealedMessageRoundTrips(m: Msg, key: Data, hmac: Hmac, crc: Crc)
    requires Ready(m, 32) && Unsigned(m.attrs)
    requires |hmac(key, Prefix(m, 24))| == MI_SIZE
    ensures AddMessageIntegrity(m, key, hmac).Some?
    ensures AddFingerprint(AddMessageIntegrity(m, key, hmac).value, crc).Some?
    ensures
      var sealed := AddFingerprint(AddMessageIntegrity(m, key, hmac).value, crc).value;
      var mi := ByteString(MESSAGE_INTEGRITY, hmac(key, Prefix(m, 24)));
      var b := Encode(sealed);
      && Writable(sealed)
      && FingerprintOk(b, crc)
      && Decode(b) == Some(Msg(m.typ, sealed.length, m.id, Recognised(m.attrs) + [mi]))
      && CheckIntegrity(b, key, hmac) == Accepted
  {
    var digest := hmac(key, Prefix(m, 24));
    var mi := ByteString(MESSAGE_INTEGRITY, digest);
    SignedForm(m, key, hmac);
    FingerprintedForm(AddAttr(m, mi), crc);
    hide AddAttr, AddMessageIntegrity, AddFingerprint, Encode, Prefix, Signed, FingerprintOk, Decode, CheckIntegrity;
    hide Recognised, Ready, Stem, Wire, Writable, Unsigned, Xor32;
    var m2 := AddAttr(m, mi);
    var fp := FingerprintOf(Prefix(m2, 8), crc);
    SealedBytes(m, digest, fp);
    SealedStem(m2);
    FingerprintSuffices(Prefix(m2, 8), crc);
    ReadAfterWrite(AddAttr(m2, fp));
    SealedAttributes(m, mi, fp);
    IntegrityAccepted(m, key, hmac, Wire(fp));
  }

  lemma SignedForm(m: Msg, key: Data, hmac: Hmac)
    requires Ready(m, 32) && |hmac(key, Prefix(m, 24))| == MI_SIZE
    ensures var m2 := AddAttr(m, ByteString(MESSAGE_INTEGRITY, hmac(key, Prefix(m, 24))));
      AddMessageIntegrity(m, key, hmac) == Some(m2) && Ready(m2, 8) && m2.length + 8 < 0x1_0000
  {
    ReadyWithLess(m, 32, 24);
    hide AddMessageIntegrity, AddAttr, Prefix, Writable, Ready;
    IntegrityAdded(m, key, hmac);
    AddAttrKeepsReady(m, ByteString(MESSAGE_INTEGRITY, hmac(key, Prefix(m, 24))), 8);
  }

  lemma FingerprintedForm(m: Msg, crc: Crc)
    requires Ready(m, 8)
    ensures var sealed := AddAttr(m, FingerprintOf(Prefix(m, 8), crc));
      AddFingerprint(m, crc) == Some(sealed) && Ready(sealed, 0) && Writable(sealed)
  {
    FingerprintAdded(m, crc);
    FingerprintKeepsReady(m, FingerprintOf(Prefix(m, 8), crc).v);
    hide *;
  }

  lemma FingerprintKeepsReady(m: Msg, v: U32)
    requires Ready(m, 8)
    ensures Ready(AddAttr(m, Uint32(FINGERPRINT, v)), 0) && Writable(AddAttr(m, Uint32(FINGERPRINT, v)))
  {
    hide Ready, AddAttr, Writable;
    AddAttrKeepsReady(m, Uint32(FINGERPRINT, v), 0);
  }

  lemma SealedBytes(m: Msg, digest: Data, fp: Attr)
    requires Ready(m, 32) && |digest| == MI_SIZE && fp.Uint32? && fp.typ == FINGERPRINT
    ensures var m2 := AddAttr(m, ByteString(MESSAGE_INTEGRITY, digest));
      && |Wire(fp)| == 8 && Ready(m2, 8)
      && Encode(AddAttr(m2, fp)) == Prefix(m2, 8) + Wire(fp) == Signed(m, digest, Wire(fp))
  {
    var mi := ByteString(MESSAGE_INTEGRITY, digest);
    var m2 := AddAttr(m, mi);
    AddedLength(m, mi, 24);
    var h := Header(m2.(length := m.length + 32));
    assert Header(m.(length := m.length + 32)) == h;
    ReadyWithLess(m, 32, 32);
    assert Pad(20) == 20 && Pad(4) == 4;
    hide AddAttr, Header, WireAll, Wire, Ready, Encode, Pad;
    AddAttrKeepsReady(m, mi, 8);
    EncodeAdded(m2, fp, 8);
    WireAllSnoc(m.attrs, mi);
    AppendParts(h, WireAll(m.attrs), Wire(mi));
  }

  lemma SealedStem(m: Msg)
    requires Ready(m, 8)
    ensures Stem(Prefix(m, 8))
  {
    HeaderFields(m.(length := m.length + 8), WireAll(m.attrs));
    WireAllSize(m.attrs);
    BodyIsAligned(m.attrs);
    AlignedSum(m.length, 0);
    hide WireAll, Header, Regular, BodySize;
  }

  lemma {:induction false} RecognisedSnoc(attrs: seq<Attr>, a: Attr)
    ensures Recognised(attrs + [a]) == Recognised(attrs) + (if ValueTypeOf(a.typ).Unknown? then [] else [a])
  {
    if attrs != [] {
      assert (attrs + [a])[1..] == attrs[1..] + [a];
      RecognisedSnoc(attrs[1..], a);
    }
  }

  lemma SealedAttributes(m: Msg, mi: Attr, fp: Attr)
    requires mi.typ == MESSAGE_INTEGRITY && fp.typ == FINGERPRINT
    ensures var s := AddAttr(AddAttr(m, mi), fp);
      s.typ == m.typ && s.id == m.id && Recognised(s.attrs) == Recognised(m.attrs) + [mi]
  {
    RecognisedSnoc(m.attrs, mi);
    RecognisedSnoc(m.attrs + [mi], fp);
    hide Recognised;
  }
}
