/** The STUN message format as src/ice/stun.cpp writes, reads and authenticates it, on
    values: sections 6, 15, 15.4 and 15.5 of RFC 5389. HMAC-SHA1 and CRC32 are
    parameters, so every statement holds for any such functions. */
module StunCodec {
  import opened Wrappers
  import opened Bytes

  const MAGIC_COOKIE: U32 := 0x2112_A442
  const FINGERPRINT_XOR: U32 := 0x5354_554e
  const HEADER_SIZE := 20
  const ATTR_HEADER_SIZE := 4
  const MI_SIZE := 20

  const USERNAME: U16 := 0x0006
  const MESSAGE_INTEGRITY: U16 := 0x0008
  const PRIORITY: U16 := 0x0024
  const FINGERPRINT: U16 := 0x8028

  type Hmac = (Data, Data) -> Data  // key, message
  type Crc = Data -> U32

  // The subclasses of StunAttribute that the server creates.
  datatype Attr =
    | ByteString(typ: U16, bytes: Data)
    | Uint32(typ: U16, v: U32)
    | Uint64(typ: U16, w: U64)
    | XorAddress(typ: U16, addr: Address)
    | ErrorCode(typ: U16, class_: Byte, number: Byte, reason: Data)

  datatype Address = IPv4(ip: U32, port: U16) | IPv6(port: U16) | Unspecified

  datatype Msg = Msg(typ: U16, length: U16, id: Data, attrs: seq<Attr>)

  datatype ValueType = Unknown | Uint32Value | ByteStringValue

  // get_attribute_value_type
  function ValueTypeOf(typ: U16): ValueType {
    if typ == USERNAME || typ == MESSAGE_INTEGRITY then ByteStringValue
    else if typ == PRIORITY then Uint32Value
    else Unknown
  }

  // The next multiple of four.
  function Pad(n: nat): (p: nat)
    ensures n <= p < n + 4
  {
    4 * ((n + 3) / 4)
  }

  // As the program computes it.
  lemma PadByRemainder(n: nat)
    ensures Pad(n) == if n % 4 != 0 then n + (4 - n % 4) else n
  {
  }

  // The length the attribute would need, before it is squeezed into 16 bits.
  function TrueLength(a: Attr): nat {
    match a
    case ByteString(_, b) => |b|
    case Uint32(_, _) => 4
    case Uint64(_, _) => 8
    case XorAddress(_, addr) => if addr.IPv4? then 8 else if addr.IPv6? then 20 else 0
    case ErrorCode(_, _, _, reason) => 4 + |reason|
  }

  function AttrLength(a: Attr): U16 { Wrap16(TrueLength(a)) }

  // Whether StunAttribute::write returns true: the XOR of an IPv6 address is not supported.
  predicate CanWrite(a: Attr) { a.XorAddress? ==> a.addr.IPv4? }

  function Value(a: Attr): Data {
    match a
    case ByteString(_, b) => b[..AttrLength(a)]
    case Uint32(_, v) => BE32(v)
    case Uint64(_, w) => BE64(w)
    case XorAddress(_, addr) =>
      if addr.IPv4? then
        [0, 1] + BE16(Xor16(addr.port, MAGIC_COOKIE / 0x1_0000)) + BE32(Xor32(addr.ip, MAGIC_COOKIE))
      else []
    case ErrorCode(_, c, n, reason) => BE32((c as int) * 0x100 + (n as int)) + reason
  }

  function Wire(a: Attr): Data {
    BE16(a.typ) + BE16(AttrLength(a)) + Value(a) + Zeros(Pad(AttrLength(a)) - AttrLength(a))
  }

  function WireAll(attrs: seq<Attr>): Data {
    if attrs == [] then [] else WireAll(attrs[..|attrs| - 1]) + Wire(attrs[|attrs| - 1])
  }

  function Header(m: Msg): Data {
    BE16(m.typ) + BE16(m.length) + BE32(MAGIC_COOKIE) + m.id
  }

  function Encode(m: Msg): Data { Header(m) + WireAll(m.attrs) }

  predicate Writable(m: Msg) { forall i :: 0 <= i < |m.attrs| ==> CanWrite(m.attrs[i]) }

  // ------------------------------------------------------- building a message

  function AddAttr(m: Msg, a: Attr): Msg {
    m.(length := Wrap16(m.length + Pad(AttrLength(a)) + ATTR_HEADER_SIZE), attrs := m.attrs + [a])
  }

  function ReplaceLast(m: Msg, a: Attr): Msg
    requires m.attrs != []
  {
    m.(attrs := m.attrs[..|m.attrs| - 1] + [a])
  }

  const MI_PLACEHOLDER: Attr := ByteString(MESSAGE_INTEGRITY, seq(MI_SIZE, _ => 0x30))

  // None stands for a false return.
  function AddMessageIntegrity(m: Msg, key: Data, hmac: Hmac): Option<Msg> {
    var m1 := AddAttr(m, MI_PLACEHOLDER);
    if !Writable(m1) then None
    else
      var buf := Encode(m1);
      assert |buf| >= |Wire(MI_PLACEHOLDER)|;
      var digest := hmac(key, buf[..|buf| - ATTR_HEADER_SIZE - MI_SIZE]);
      if |digest| != MI_SIZE then None else Some(ReplaceLast(m1, ByteString(MESSAGE_INTEGRITY, digest)))
  }

  function AddFingerprint(m: Msg, crc: Crc): Option<Msg> {
    var m1 := AddAttr(m, Uint32(FINGERPRINT, 0));
    if !Writable(m1) then None
    else
      var buf := Encode(m1);
      assert |buf| >= |Wire(Uint32(FINGERPRINT, 0))|;
      var c := crc(buf[..|buf| - ATTR_HEADER_SIZE - 4]);
      Some(ReplaceLast(m1, Uint32(FINGERPRINT, Xor32(c, FINGERPRINT_XOR))))
  }

  // ------------------------------------------------------------------ reading

  function ParseAttrs(b: Data): Option<seq<Attr>>
    decreases |b|
  {
    if b == [] then Some([])
    else if |b| < ATTR_HEADER_SIZE then None
    else
      var typ, len := Get16(b, 0), Get16(b, 2);
      var rest := b[4..];
      match ValueTypeOf(typ)
      case Unknown =>
        var skip := if Pad(len) == 0x1_0000 then 0 else Pad(len);   // attr_length is a uint16_t
        if skip > |rest| then None else ParseAttrs(rest[skip..])
      case ByteStringValue =>
        if len > |rest| then None
        else Prepend(ByteString(typ, rest[..len]), ParseAttrs(DropPadding(rest[len..], Pad(len) - len)))
      case Uint32Value =>
        if |rest| < 4 then None
        else Prepend(Uint32(typ, Get32(rest, 0)), ParseAttrs(rest[4..]))
  }

  // ByteBufferReader::Consume drops nothing when there is too little left.
  function DropPadding(b: Data, n: nat): (r: Data)
    ensures |r| <= |b|
  {
    if n <= |b| then b[n..] else b
  }

  function Prepend(a: Attr, rest: Option<seq<Attr>>): Option<seq<Attr>> {
    if rest.None? then None else Some([a] + rest.value)
  }

  // The attributes read before the first fault, if there is one.
  function AttrsBefore(b: Data): seq<Attr>
    decreases |b|
  {
    if |b| < ATTR_HEADER_SIZE then []
    else
      var typ, len := Get16(b, 0), Get16(b, 2);
      var rest := b[4..];
      match ValueTypeOf(typ)
      case Unknown =>
        var skip := if Pad(len) == 0x1_0000 then 0 else Pad(len);
        if skip > |rest| then [] else AttrsBefore(rest[skip..])
      case ByteStringValue =>
        if len > |rest| then []
        else [ByteString(typ, rest[..len])] + AttrsBefore(DropPadding(rest[len..], Pad(len) - len))
      case Uint32Value =>
        if |rest| < 4 then [] else [Uint32(typ, Get32(rest, 0))] + AttrsBefore(rest[4..])
  }

  // One attribute: what it adds to the list and what is left to read, or a fault.
  function OneAttr(b: Data): (r: Option<(seq<Attr>, Data)>)
    requires |b| >= ATTR_HEADER_SIZE
    ensures r.Some? ==> |r.value.1| < |b|
  {
    var typ, len := Get16(b, 0), Get16(b, 2);
    var rest := b[4..];
    match ValueTypeOf(typ)
    case Unknown =>
      var skip := if Pad(len) == 0x1_0000 then 0 else Pad(len);
      if skip > |rest| then None else Some(([], rest[skip..]))
    case ByteStringValue =>
      if len > |rest| then None
      else Some(([ByteString(typ, rest[..len])], DropPadding(rest[len..], Pad(len) - len)))
    case Uint32Value =>
      if |rest| < 4 then None else Some(([Uint32(typ, Get32(rest, 0))], rest[4..]))
  }

  lemma OneByOne(b: Data)
    requires |b| >= ATTR_HEADER_SIZE
    ensures OneAttr(b).None? ==> ParseAttrs(b).None? && AttrsBefore(b) == []
    ensures OneAttr(b).Some? ==>
      && (ParseAttrs(b).Some? <==> ParseAttrs(OneAttr(b).value.1).Some?)
      && AttrsBefore(b) == OneAttr(b).value.0 + AttrsBefore(OneAttr(b).value.1)
  {
    hide Get16, Get32, Pad;
  }

  // Bit 0x0800 of the type marks RTP.
  predicate RtpBit(typ: U16) { (typ / 0x800) % 2 == 1 }

  function Decode(b: Data): Option<Msg> {
    if |b| < 2 || RtpBit(Get16(b, 0)) then None
    else if |b| < HEADER_SIZE then None
    else
      var id := if Get32(b, 4) != MAGIC_COOKIE then b[4..20] else b[8..20];
      if |b| - HEADER_SIZE != Get16(b, 2) then None
      else
        var attrs := ParseAttrs(b[HEADER_SIZE..]);
        if attrs.None? then None else Some(Msg(Get16(b, 0), Get16(b, 2), id, attrs.value))
  }

  /** What read() leaves in the message, whether it succeeds or not: each field as far as reading got. */
  function ReadInto(m: Msg, b: Data): Msg {
    if |b| < 2 then m
    else
      var m1 := m.(typ := Get16(b, 0));
      if RtpBit(m1.typ) || |b| < 4 then m1
      else
        var m2 := m1.(length := Get16(b, 2));
        if |b| < HEADER_SIZE then m2
        else
          var m3 := m2.(id := if Get32(b, 4) != MAGIC_COOKIE then b[4..20] else b[8..20]);
          if |b| - HEADER_SIZE != m3.length then m3 else m3.(attrs := AttrsBefore(b[HEADER_SIZE..]))
  }

  lemma {:induction false} ParsedIsBefore(b: Data)
    ensures ParseAttrs(b).Some? ==> ParseAttrs(b).value == AttrsBefore(b)
    decreases |b|
  {
    if |b| >= ATTR_HEADER_SIZE {
      var len, rest := Get16(b, 2), b[4..];
      match ValueTypeOf(Get16(b, 0)) {
        case Unknown =>
          var skip := if Pad(len) == 0x1_0000 then 0 else Pad(len);
          if skip <= |rest| {
            ParsedIsBefore(rest[skip..]);
          }
        case ByteStringValue =>
          if len <= |rest| {
            ParsedIsBefore(DropPadding(rest[len..], Pad(len) - len));
          }
        case Uint32Value =>
          if |rest| >= 4 {
            ParsedIsBefore(rest[4..]);
          }
      }
    }
  }

  /** If reading succeeds, what it leaves is the message decoded, whatever was there before. */
  lemma ReadIntoDecodes(m: Msg, b: Data)
    ensures Decode(b).Some? ==> ReadInto(m, b) == Decode(b).value
  {
    if |b| >= HEADER_SIZE {
      ParsedIsBefore(b[HEADER_SIZE..]);
    }
    hide ParseAttrs, AttrsBefore, Get16, Get32;
  }

  predicate FingerprintOk(b: Data, crc: Crc) {
    && |b| % 4 == 0 && |b| >= HEADER_SIZE + 8
    && Get32(b, 4) == MAGIC_COOKIE
    && Get16(b, |b| - 8) == FINGERPRINT
    && Get16(b, |b| - 6) == 4
    && Xor32(Get32(b, |b| - 4), FINGERPRINT_XOR) == crc(b[..|b| - 8])
  }

  // The offset of the first MESSAGE-INTEGRITY attribute at or after pos.
  function FindIntegrity(b: Data, pos: nat): (r: Option<nat>)
    ensures r.Some? ==> pos <= r.value && r.value + ATTR_HEADER_SIZE <= |b|
    decreases |b| - pos
  {
    if pos + ATTR_HEADER_SIZE > |b| then None
    else if Get16(b, pos) == MESSAGE_INTEGRITY then Some(pos)
    else FindIntegrity(b, pos + ATTR_HEADER_SIZE + Pad(Get16(b, pos + 2)))
  }

  datatype Check = Accepted | Rejected | Overrun  // Overrun: the comparison runs past the message

  // _validate_message_integrity_of_type
  function CheckIntegrity(b: Data, key: Data, hmac: Hmac): Check {
    if |b| % 4 != 0 || |b| < HEADER_SIZE then Rejected
    else if Get16(b, 2) + HEADER_SIZE != |b| then Rejected
    else match FindIntegrity(b, HEADER_SIZE)
      case None => Rejected
      case Some(pos) =>
        var after := pos + ATTR_HEADER_SIZE + MI_SIZE;
        var signed :=
          if |b| > after then b[..2] + BE16(after - HEADER_SIZE) + b[4..pos] else b[..pos];
        var digest := hmac(key, signed);
        if |digest| != MI_SIZE then Rejected
        else if after > |b| then Overrun
        else if b[pos + ATTR_HEADER_SIZE..after] == digest then Accepted else Rejected
  }

  // What the comparison says then, if the memory after the message holds `beyond`.
  predicate AcceptsBeyond(b: Data, beyond: Data, key: Data, hmac: Hmac)
    requires CheckIntegrity(b, key, hmac) == Overrun && |beyond| >= MI_SIZE
  {
    var pos := FindIntegrity(b, HEADER_SIZE).value;
    (b + beyond)[pos + ATTR_HEADER_SIZE..pos + ATTR_HEADER_SIZE + MI_SIZE] == hmac(key, b[..pos])
  }

  // The answer of the validation.
  predicate Validates(b: Data, beyond: Data, key: Data, hmac: Hmac)
    requires |beyond| >= MI_SIZE
  {
    match CheckIntegrity(b, key, hmac)
    case Accepted => true
    case Rejected => false
    case Overrun => AcceptsBeyond(b, beyond, key, hmac)
  }

  datatype Integrity = NotSet | NoIntegrity | IntegrityOk | IntegrityBad

  predicate HasAttr(attrs: seq<Attr>, typ: U16) { exists a :: a in attrs && a.typ == typ }
}
