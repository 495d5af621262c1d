/** Which byte strings read() of src/ice/stun.cpp accepts, and what stands in the ones it writes. */
module StunPieces {
  import opened Wrappers
  import opened Bytes
  import opened StunCodec

  /** The bytes of one attribute by its type. An unknown one is as long as its padded length, which wraps to nothing
      at 65536; a byte string may lack its padding at the very end; a number takes four bytes whatever length it
      declares. */
  predicate IsPiece(p: Data, last: bool) {
    && |p| >= ATTR_HEADER_SIZE
    && var len := Get16(p, 2);
       match ValueTypeOf(Get16(p, 0))
       case Unknown => |p| == ATTR_HEADER_SIZE + (if Pad(len) == 0x1_0000 then 0 else Pad(len))
       case ByteStringValue =>
         |p| == ATTR_HEADER_SIZE + Pad(len) || (last && |p| == ATTR_HEADER_SIZE + len)
       case Uint32Value => |p| == 8
  }

  function Flatten(ps: seq<Data>): Data { if ps == [] then [] else ps[0] + Flatten(ps[1..]) }

  predicate ArePieces(ps: seq<Data>, b: Data) {
    b == Flatten(ps) && forall i :: 0 <= i < |ps| ==> IsPiece(ps[i], i == |ps| - 1)
  }

  ghost predicate WholePieces(b: Data) { exists ps :: ArePieces(ps, b) }

  lemma SameFields(p: Data, rest: Data)
    requires |p| >= ATTR_HEADER_SIZE
    ensures Get16(p + rest, 0) == Get16(p, 0) && Get16(p + rest, 2) == Get16(p, 2)
  {
  }

  // The size of what reading one attribute takes off the front.
  lemma OneTakes(b: Data)
    requires |b| >= ATTR_HEADER_SIZE && OneAttr(b).Some?
    requires var rest := OneAttr(b).value.1; rest == [] || |rest| >= ATTR_HEADER_SIZE
    ensures var rest := OneAttr(b).value.1; var n := |b| - |rest|; var len := Get16(b, 2);
      && ATTR_HEADER_SIZE <= n <= |b| && rest == b[n..]
      && match ValueTypeOf(Get16(b, 0))
         case Unknown => n == ATTR_HEADER_SIZE + (if Pad(len) == 0x1_0000 then 0 else Pad(len))
         case ByteStringValue => n == ATTR_HEADER_SIZE + Pad(len) || (rest == [] && n == ATTR_HEADER_SIZE + len)
         case Uint32Value => n == 8
  {
    hide Get16, Get32;
  }

  // Reading one attribute takes one piece off the front.
  lemma OneIsPiece(b: Data)
    requires |b| >= ATTR_HEADER_SIZE && OneAttr(b).Some?
    requires var rest := OneAttr(b).value.1; rest == [] || |rest| >= ATTR_HEADER_SIZE
    ensures var rest := OneAttr(b).value.1; var p := b[..|b| - |rest|];
      |p| > 0 && b == p + rest && IsPiece(p, rest == [])
  {
    OneTakes(b);
    hide Get16, OneAttr, Pad;
    var rest := OneAttr(b).value.1;
    var p := b[..|b| - |rest|];
    assert b == p + rest;
    SameFields(p, rest);
  }

  lemma PieceIsOne(p: Data, rest: Data)
    requires IsPiece(p, rest == [])
    ensures OneAttr(p + rest).Some? && OneAttr(p + rest).value.1 == rest
  {
    var b := p + rest;
    assert Get16(b, 0) == Get16(p, 0) && Get16(b, 2) == Get16(p, 2);
    hide Get16, Get32;
    assert b[4..][|p| - 4..] == rest;
    var len := Get16(p, 2);
    if |p| == ATTR_HEADER_SIZE + Pad(len) && len <= |b[4..]| {
      assert b[4..][len..][Pad(len) - len..] == rest;
    }
  }

  lemma {:induction false} ParsedSplits(b: Data)
    requires ParseAttrs(b).Some?
    ensures WholePieces(b)
    decreases |b|
  {
    if b == [] {
      assert ArePieces([], b);
    } else {
      assert |b| >= ATTR_HEADER_SIZE;
      OneByOne(b);
      var rest := OneAttr(b).value.1;
      ParsedSplits(rest);
      var ps :| ArePieces(ps, rest);
      ShortNeverParses(rest);
      OneIsPiece(b);
      hide OneAttr, ParseAttrs, IsPiece;
      MorePieces(b[..|b| - |rest|], ps, rest);
    }
  }

  lemma ShortNeverParses(b: Data)
    requires ParseAttrs(b).Some?
    ensures b == [] || |b| >= ATTR_HEADER_SIZE
  {
  }

  lemma MorePieces(p: Data, ps: seq<Data>, rest: Data)
    requires ArePieces(ps, rest) && IsPiece(p, rest == [])
    ensures WholePieces(p + rest)
  {
    var all := [p] + ps;
    assert all[1..] == ps;
    if ps != [] {
      assert IsPiece(ps[0], 0 == |ps| - 1);
      assert rest == ps[0] + Flatten(ps[1..]);
    }
    assert rest == [] <==> ps == [];
    forall i | 0 <= i < |all|
      ensures IsPiece(all[i], i == |all| - 1)
    {
      if i > 0 {
        assert all[i] == ps[i - 1] && IsPiece(ps[i - 1], i - 1 == |ps| - 1);
      }
    }
    assert ArePieces(all, p + rest);
  }

  lemma {:induction false} SplitParses(ps: seq<Data>, b: Data)
    requires ArePieces(ps, b)
    ensures ParseAttrs(b).Some?
    decreases |ps|
  {
    if ps != [] {
      var p, rest := ps[0], Flatten(ps[1..]);
      assert IsPiece(ps[0], 0 == |ps| - 1);
      if |ps| > 1 {
        assert IsPiece(ps[1], 1 == |ps| - 1);
        assert rest == ps[1] + Flatten(ps[1..][1..]);
      }
      forall i | 0 <= i < |ps[1..]|
        ensures IsPiece(ps[1..][i], i == |ps[1..]| - 1)
      {
        assert IsPiece(ps[i + 1], i + 1 == |ps| - 1);
      }
      SplitParses(ps[1..], rest);
      PieceIsOne(p, rest);
      OneByOne(b);
      hide OneAttr, ParseAttrs;
    }
  }

  /** read() accepts exactly the byte strings with a header whose RTP bit is clear and whose length is right, followed
      by whole attributes; everything else is refused. */
  lemma DecodeExactly(b: Data)
    ensures Decode(b).Some? <==>
      && |b| >= HEADER_SIZE && !RtpBit(Get16(b, 0)) && |b| - HEADER_SIZE == Get16(b, 2)
      && WholePieces(b[HEADER_SIZE..])
  {
    if |b| >= HEADER_SIZE {
      var body := b[HEADER_SIZE..];
      if ParseAttrs(body).Some? {
        ParsedSplits(body);
      }
      if WholePieces(body) {
        var ps :| ArePieces(ps, body);
        SplitParses(ps, body);
      }
    }
    hide ParseAttrs, WholePieces, Get16, Get32;
  }

  /** The first eight bytes on the wire (section 6 of RFC 5389): type and length in network order, then the cookie. */
  lemma HeaderOnTheWire(m: Msg)
    requires |m.id| == 12
    ensures |Header(m)| == HEADER_SIZE && Header(m)[8..] == m.id
    ensures Header(m)[..8] == [(m.typ / 0x100) as Byte, (m.typ % 0x100) as Byte,
                               (m.length / 0x100) as Byte, (m.length % 0x100) as Byte, 0x21, 0x12, 0xa4, 0x42]
  {
    assert BE32(MAGIC_COOKIE) == [0x21, 0x12, 0xa4, 0x42];
  }

  lemma AddressLayout(p: U16, a: U32)
    ensures var v := [0, 1] + BE16(p) + BE32(a);
      |v| == 8 && v[..2] == [0, 1] && Get16(v, 2) == p && Get32(v, 4) == a
  {
    var v := [0, 1] + BE16(p) + BE32(a);
    assert v[2..4] == BE16(p) && v[4..8] == BE32(a);
    assert Get16(v, 2) == Get16(BE16(p), 0) && Get32(v, 4) == Get32(BE32(a), 0);
    hide BE16, BE32;
  }

  /** XOR-MAPPED-ADDRESS (section 15.2 of RFC 5389): family 1, and port and address come back when the cookie is taken
      off. */
  lemma MappedAddressComesBack(typ: U16, ip: U32, port: U16)
    ensures var v := Value(XorAddress(typ, IPv4(ip, port)));
      && |v| == 8 && v[..2] == [0, 1]
      && Xor16(Get16(v, 2), 0x2112) == port && Xor32(Get32(v, 4), MAGIC_COOKIE) == ip
  {
    hide Xor16, Xor32, BE16, BE32, Get16, Get32;
    AddressLayout(Xor16(port, 0x2112), Xor32(ip, MAGIC_COOKIE));
    Xor16Twice(port, 0x2112);
    Xor32Twice(ip, MAGIC_COOKIE);
  }

  /** What counts as no STUN message: bit 11 of the type, which marks RTP. */
  lemma RtpBitIsBit11(typ: U16)
    ensures RtpBit(typ) <==> Bit(typ, 11) == 1
  {
    ThreeUp(typ, 11);
    ThreeUp(typ / 8, 8);
    ThreeUp(typ / 8 / 8, 5);
    hide Bit;
    TwoUp(typ / 8 / 8 / 8);
    assert typ / 8 / 8 / 8 / 4 == typ / 2048;
  }

  lemma ThreeUp(x: nat, i: nat)
    requires i >= 3
    ensures Bit(x, i) == Bit(x / 8, i - 3)
  {
    assert Bit(x, i) == Bit(x / 2, i - 1) == Bit(x / 2 / 2, i - 2) == Bit(x / 2 / 2 / 2, i - 3);
    hide Bit;
    assert x / 2 / 2 / 2 == x / 8;
  }

  lemma TwoUp(x: nat)
    ensures Bit(x, 2) == x / 4 % 2
  {
    assert Bit(x, 2) == Bit(x / 2, 1) == Bit(x / 2 / 2, 0) == x / 2 / 2 % 2;
    hide Bit;
    assert x / 2 / 2 == x / 4;
  }

  /** The attributes read() recognises: USERNAME, MESSAGE-INTEGRITY and PRIORITY by their registered numbers. */
  lemma RecognisedTypes(typ: U16)
    ensures ValueTypeOf(typ).ByteStringValue? <==> typ == 0x0006 || typ == 0x0008
    ensures ValueTypeOf(typ).Uint32Value? <==> typ == 0x0024
  {
  }

  /** Numbers and errors as they stand on the wire: sixty-four bits in network order, and class, number and reason. */
  lemma ValuesOnTheWire(typ: U16, w: U64, c: Byte, n: Byte, reason: Data)
    ensures var v := Value(Uint64(typ, w)); |v| == 8 && Get32(v, 0) * 0x1_0000_0000 + Get32(v, 4) == w
    ensures Value(ErrorCode(typ, c, n, reason)) == [0, 0, c, n] + reason
  {
    var high, low := w / 0x1_0000_0000, w % 0x1_0000_0000;
    TwoWords(high, low);
    assert Value(Uint64(typ, w)) == BE32(high) + BE32(low);
    ErrorWord(c, n);
    hide BE32;
  }

  lemma TwoWords(high: U32, low: U32)
    ensures var v := BE32(high) + BE32(low); |v| == 8 && Get32(v, 0) == high && Get32(v, 4) == low
  {
    var v := BE32(high) + BE32(low);
    assert v[..4] == BE32(high) && v[4..] == BE32(low);
    assert Get32(v, 0) == Get32(BE32(high), 0) && Get32(v, 4) == Get32(BE32(low), 0);
    hide BE32;
  }

  lemma ErrorWord(c: Byte, n: Byte)
    ensures BE32((c as int) * 0x100 + (n as int)) == [0, 0, c, n]
  {
  }

  /** The last eight bytes of a fingerprinted message (section 15.5 of RFC 5389). */
  lemma FingerprintOnTheWire(v: U32)
    ensures Wire(Uint32(FINGERPRINT, Xor32(v, FINGERPRINT_XOR))) == [0x80, 0x28, 0, 4] + BE32(Xor32(v, 0x5354_554e))
  {
    hide Xor32;
  }
}
