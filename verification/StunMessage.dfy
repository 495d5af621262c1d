/** class StunMessage of src/ice/stun.cpp: the buffers and the attribute list are updated in
    loops, and each method is proved against the functions of StunCodec. */
module StunMessage {
  import opened Wrappers
  import opened Bytes
  import opened StunCodec

  lemma Joined(a: seq<Attr>, b: seq<Attr>, c: seq<Attr>)
    ensures a + (b + c) == a + b + c
  {
  }

  lemma EncodeHoldsLast(m: Msg, a: Attr)
    ensures |Encode(AddAttr(m, a))| >= |Wire(a)| >= ATTR_HEADER_SIZE + |Value(a)|
  {
    assert |Wire(a)| >= ATTR_HEADER_SIZE + |Value(a)|;
    hide Wire;
  }

  method ValidateFingerprint(data: Data, crc: Crc) returns (ok: bool)
    ensures ok == FingerprintOk(data, crc)
  {
    if |data| % 4 != 0 || |data| < HEADER_SIZE + 8 {
      return false;
    }
    if Get32(data, 4) != MAGIC_COOKIE {
      return false;
    }
    var at := |data| - 8;
    if Get16(data, at) != FINGERPRINT || Get16(data, at + 2) != 4 {
      return false;
    }
    return Xor32(Get32(data, at + 4), FINGERPRINT_XOR) == crc(data[..at]);
  }

  // The scan of _validate_message_integrity_of_type.
  method LocateIntegrity(data: Data) returns (pos: Option<nat>)
    requires |data| >= HEADER_SIZE
    ensures pos == FindIntegrity(data, HEADER_SIZE)
  {
    var current := HEADER_SIZE;
    while current + ATTR_HEADER_SIZE <= |data|
      invariant FindIntegrity(data, HEADER_SIZE) == FindIntegrity(data, current)
      decreases |data| - current
    {
      var typ, len := Get16(data, current), Get16(data, current + 2);
      if typ == MESSAGE_INTEGRITY {
        return Some(current);
      }
      PadByRemainder(len);
      current := current + ATTR_HEADER_SIZE + len;
      if len % 4 != 0 {
        current := current + (4 - len % 4);
      }
    }
    return None;
  }

  /** `beyond` is what the memory after the message holds. */
  method ValidateIntegrity(data: Data, beyond: Data, key: Data, hmac: Hmac) returns (ok: bool)
    requires |beyond| >= MI_SIZE
    ensures ok == Validates(data, beyond, key, hmac)
    ensures CheckIntegrity(data, key, hmac) != Overrun ==> ok == (CheckIntegrity(data, key, hmac) == Accepted)
  {
    if |data| % 4 != 0 || |data| < HEADER_SIZE {
      return false;
    }
    if Get16(data, 2) + HEADER_SIZE != |data| {
      return false;
    }
    var found := LocateIntegrity(data);
    if found == None {
      return false;
    }
    var pos := found.value;
    var temp := data[..pos];
    if |data| > pos + ATTR_HEADER_SIZE + MI_SIZE {
      var extraPos := pos + ATTR_HEADER_SIZE + MI_SIZE;
      var extraSize := |data| - extraPos;
      var newLength := |data| - extraSize - HEADER_SIZE;
      var len := BE16(newLength);
      temp := temp[2 := len[0]][3 := len[1]];
      assert temp == data[..2] + len + data[4..pos];
    }
    var digest := hmac(key, temp);
    if |digest| != MI_SIZE {
      return false;
    }
    var memory := data + beyond;
    var value := memory[pos + ATTR_HEADER_SIZE..pos + ATTR_HEADER_SIZE + MI_SIZE];
    if pos + ATTR_HEADER_SIZE + MI_SIZE <= |data| {
      assert value == data[pos + ATTR_HEADER_SIZE..pos + ATTR_HEADER_SIZE + MI_SIZE];
    }
    return value == digest;
  }

  class StunMessage {
    var typ: U16
    var length: U16
    var id: Data
    var attrs: seq<Attr>
    var integrity: Integrity
    var password: Data
    var buffer: Data

    function View(): Msg
      reads this
    {
      Msg(typ, length, id, attrs)
    }

    constructor ()
      ensures View() == Msg(0, 0, seq(12, _ => 0x30), []) && integrity == NotSet
    {
      typ, length, id, attrs := 0, 0, seq(12, _ => 0x30), [];
      integrity, password, buffer := NotSet, [], [];
    }

    method AddAttribute(a: Attr)
      modifies `length, `attrs
      ensures View() == AddAttr(old(View()), a) && attrs == old(attrs) + [a]
    {
      var len: nat := AttrLength(a);
      PadByRemainder(len);
      if len % 4 != 0 {
        len := len + (4 - len % 4);
      }
      length := Wrap16(length + len + ATTR_HEADER_SIZE);
      attrs := attrs + [a];
    }

    /** Serializes; on false the bytes written so far are of no use. */
    method Write() returns (ok: bool, buf: Data)
      ensures ok == Writable(View())
      ensures ok ==> buf == Encode(View())
    {
      buf := BE16(typ);
      buf := buf + BE16(length);
      buf := buf + BE32(MAGIC_COOKIE);
      buf := buf + id;
      assert buf == Header(View());
      hide Header, WireAll;
      ok, buf := WriteAttributes(attrs, buf);
    }

    // The attribute loop of write().
    static method WriteAttributes(attrs: seq<Attr>, header: Data) returns (ok: bool, buf: Data)
      ensures ok == forall j :: 0 <= j < |attrs| ==> CanWrite(attrs[j])
      ensures ok ==> buf == header + WireAll(attrs)
    {
      hide Wire;
      buf := header;
      for i := 0 to |attrs|
        invariant forall j :: 0 <= j < i ==> CanWrite(attrs[j])
        invariant buf == header + WireAll(attrs[..i])
      {
        if !CanWrite(attrs[i]) {
          return false, buf;
        }
        assert attrs[..i + 1][..i] == attrs[..i];
        buf := buf + Wire(attrs[i]);
      }
      assert attrs[..|attrs|] == attrs;
      return true, buf;
    }

    method AddIntegrity(key: Data, hmac: Hmac) returns (ok: bool)
      modifies this
      ensures ok == AddMessageIntegrity(old(View()), key, hmac).Some?
      ensures ok ==> View() == AddMessageIntegrity(old(View()), key, hmac).value
      ensures ok ==> integrity == IntegrityOk && password == key
      ensures !ok ==> View() == AddAttr(old(View()), MI_PLACEHOLDER)
    {
      hide AddAttr, Encode, Wire, Writable;
      EncodeHoldsLast(View(), MI_PLACEHOLDER);
      AddAttribute(MI_PLACEHOLDER);
      var written, buf := Write();
      if !written {
        return false;
      }
      var digest := hmac(key, buf[..|buf| - ATTR_HEADER_SIZE - MI_SIZE]);
      if |digest| != MI_SIZE {
        return false;
      }
      attrs := attrs[..|attrs| - 1] + [ByteString(MESSAGE_INTEGRITY, digest)];
      password, integrity := key, IntegrityOk;
      return true;
    }

    method Fingerprint(crc: Crc) returns (ok: bool)
      modifies `length, `attrs
      ensures ok == AddFingerprint(old(View()), crc).Some?
      ensures ok ==> View() == AddFingerprint(old(View()), crc).value
      ensures !ok ==> View() == AddAttr(old(View()), Uint32(FINGERPRINT, 0))
    {
      hide AddAttr, Encode, Xor32, Wire, Writable, BE32;
      EncodeHoldsLast(View(), Uint32(FINGERPRINT, 0));
      AddAttribute(Uint32(FINGERPRINT, 0));
      var written, buf := Write();
      if !written {
        return false;
      }
      var c := crc(buf[..|buf| - ATTR_HEADER_SIZE - 4]);
      attrs := attrs[..|attrs| - 1] + [Uint32(FINGERPRINT, Xor32(c, FINGERPRINT_XOR))];
      return true;
    }

    /** Parses; on false the fields hold what was read before the fault. */
    method Read(data: Data) returns (ok: bool)
      modifies `typ, `length, `id, `attrs, `buffer
      ensures buffer == data
      ensures ok == Decode(data).Some?
      ensures View() == ReadInto(old(View()), data)
      ensures ok ==> View() == Decode(data).value
    {
      ReadIntoDecodes(View(), data);
      hide ParseAttrs, AttrsBefore, Get16, Get32, RtpBit;
      buffer := data;
      if |data| < 2 {
        return false;
      }
      typ := Get16(data, 0);
      if RtpBit(typ) || |data| < 4 {
        return false;
      }
      length := Get16(data, 2);
      if |data| < HEADER_SIZE {
        return false;
      }
      id := if Get32(data, 4) != MAGIC_COOKIE then data[4..8] + data[8..20] else data[8..20];
      assert data[4..8] + data[8..20] == data[4..20];
      if |data| - HEADER_SIZE != length {
        return false;
      }
      ok, attrs := ReadAttributes(data[HEADER_SIZE..]);
    }

    // One attribute, by its type.
    static method ReadAttribute(b: Data) returns (r: Option<(seq<Attr>, Data)>)
      requires |b| >= ATTR_HEADER_SIZE
      ensures r == OneAttr(b)
    {
      var typ, len := Get16(b, 0), Get16(b, 2);
      var rest := b[4..];
      match ValueTypeOf(typ) {
        case Unknown =>
          var skip := if Pad(len) == 0x1_0000 then 0 else Pad(len);
          if skip > |rest| {
            return None;
          }
          return Some(([], rest[skip..]));
        case ByteStringValue =>
          if len > |rest| {
            return None;
          }
          return Some(([ByteString(typ, rest[..len])], DropPadding(rest[len..], Pad(len) - len)));
        case Uint32Value =>
          if |rest| < 4 {
            return None;
          }
          return Some(([Uint32(typ, Get32(rest, 0))], rest[4..]));
      }
    }

    // The attribute loop of read().
    static method ReadAttributes(body: Data) returns (ok: bool, out: seq<Attr>)
      ensures ok == ParseAttrs(body).Some?
      ensures out == AttrsBefore(body)
    {
      var b := body;
      out := [];
      while |b| >= ATTR_HEADER_SIZE
        invariant ParseAttrs(body).Some? <==> ParseAttrs(b).Some?
        invariant AttrsBefore(body) == out + AttrsBefore(b)
        decreases |b|
      {
        OneByOne(b);
        hide OneAttr, ParseAttrs, AttrsBefore;
        var one := ReadAttribute(b);
        if one == None {
          return false, out;
        }
        Joined(out, one.value.0, AttrsBefore(one.value.1));
        out := out + one.value.0;
        b := one.value.1;
      }
      ok := b == [];
    }

    method HasByteString(t: U16) returns (found: bool)
      ensures found == HasAttr(attrs, t)
    {
      for i := 0 to |attrs|
        invariant forall j :: 0 <= j < i ==> attrs[j].typ != t
      {
        if attrs[i].typ == t {
          return true;
        }
      }
      return false;
    }

    method ValidateMessageIntegrity(beyond: Data, key: Data, hmac: Hmac) returns (status: Integrity)
      requires |beyond| >= MI_SIZE
      modifies `password, `integrity
      ensures status == integrity && password == key
      ensures status ==
        if !HasAttr(attrs, MESSAGE_INTEGRITY) then NoIntegrity
        else if Validates(buffer, beyond, key, hmac) then IntegrityOk
        else IntegrityBad
    {
      password := key;
      var present := HasByteString(MESSAGE_INTEGRITY);
      if present {
        var ok := ValidateIntegrity(buffer, beyond, key, hmac);
        integrity := if ok then IntegrityOk else IntegrityBad;
      } else {
        integrity := NoIntegrity;
      }
      status := integrity;
    }
  }
}
