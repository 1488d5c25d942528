/** WebSocket frames (section 5.2 of RFC 6455): reading masked client frames, writing unmasked server
    frames. */
module WsFrame {
  import opened Text

  type byte = x: int | 0 <= x < 256
  type bytes = seq<byte>

  const CONTINUATION := 0
  const TEXT := 1
  const BINARY := 2
  const CLOSE := 8
  const PING := 9
  const PONG := 10

  // ---------------------------------------------------------------- bytes

  function XorBits(a: nat, b: nat, bits: nat): nat {
    if bits == 0 then 0
    else (if a % 2 == b % 2 then 0 else 1) + 2 * XorBits(a / 2, b / 2, bits - 1)
  }

  function Power(base: nat, n: nat): (r: nat)
    ensures 0 < base ==> 0 < r
  {
    if n == 0 then 1 else base * Power(base, n - 1)
  }

  lemma {:induction false} XorFits(a: nat, b: nat, bits: nat)
    ensures XorBits(a, b, bits) < Power(2, bits)
  {
    if bits > 0 {
      XorFits(a / 2, b / 2, bits - 1);
    }
  }

  lemma {:induction false} XorUndone(a: nat, m: nat, bits: nat)
    requires a < Power(2, bits)
    ensures XorBits(XorBits(a, m, bits), m, bits) == a
  {
    if bits > 0 {
      XorUndone(a / 2, m / 2, bits - 1);
      var low, high := if a % 2 == m % 2 then 0 else 1, XorBits(a / 2, m / 2, bits - 1);
      assert XorBits(a, m, bits) == low + 2 * high;
      assert (low + 2 * high) % 2 == low && (low + 2 * high) / 2 == high;
    }
  }

  lemma TwoToTheEight()
    ensures Power(2, 8) == 256
  {
    assert Power(2, 4) == 16;
    assert Power(2, 8) == 2 * (2 * (2 * (2 * Power(2, 4))));
  }

  function Xor(a: byte, b: byte): (r: byte) {
    XorFits(a, b, 8);
    TwoToTheEight();
    XorBits(a, b, 8)
  }

  function Bit(n: nat, k: nat): nat {
    if k == 0 then n % 2 else Bit(n / 2, k - 1)
  }

  lemma {:induction false} XorBitsAt(a: nat, b: nat, bits: nat, k: nat)
    requires k < bits
    ensures Bit(XorBits(a, b, bits), k) == (Bit(a, k) + Bit(b, k)) % 2
  {
    var low, high := if a % 2 == b % 2 then 0 else 1, XorBits(a / 2, b / 2, bits - 1);
    assert (low + 2 * high) % 2 == low && (low + 2 * high) / 2 == high;
    if k > 0 {
      XorBitsAt(a / 2, b / 2, bits - 1, k - 1);
    }
  }

  /** A masked byte differs from the byte exactly in the bits the key has. */
  lemma MaskFlips(payload: bytes, key: bytes, i: nat, k: nat)
    requires |key| == 4 && i < |payload| && k < 8
    ensures Bit(Mask(payload, key)[i], k) == Bit(payload[i], k) <==> Bit(key[i % 4], k) == 0
  {
    XorBitsAt(payload[i], key[i % 4], 8, k);
    BitRange(payload[i], k);
    BitRange(key[i % 4], k);
  }

  lemma {:induction false} BitRange(n: nat, k: nat)
    ensures 0 <= Bit(n, k) <= 1
  {
    if k > 0 {
      BitRange(n / 2, k - 1);
    }
  }

  /** Masking and unmasking are the same transformation. */
  function Mask(payload: bytes, key: bytes): (r: bytes)
    requires |key| == 4
    ensures |r| == |payload|
    ensures forall i :: 0 <= i < |payload| ==> r[i] == Xor(payload[i], key[i % 4])
  {
    seq(|payload|, i requires 0 <= i < |payload| => Xor(payload[i], key[i % 4]))
  }

  lemma MaskTwice(payload: bytes, key: bytes)
    requires |key| == 4
    ensures Mask(Mask(payload, key), key) == payload
  {
    hide Xor;
    forall i | 0 <= i < |payload|
      ensures Xor(Xor(payload[i], key[i % 4]), key[i % 4]) == payload[i]
    {
      XorTwice(payload[i], key[i % 4]);
    }
  }

  lemma XorTwice(a: byte, m: byte)
    ensures Xor(Xor(a, m), m) == a
  {
    TwoToTheEight();
    XorUndone(a, m, 8);
  }

  /** The low `k` bytes of a number, most significant first. */
  function BigEndian(n: nat, k: nat): (r: bytes)
    ensures |r| == k
  {
    if k == 0 then [] else BigEndian(n / 256, k - 1) + [n % 256]
  }

  function Number(b: bytes): nat {
    if b == [] then 0 else 256 * Number(b[..|b| - 1]) + b[|b| - 1]
  }

  lemma {:induction false} NumberOfBigEndian(n: nat, k: nat)
    requires n < Power(256, k)
    ensures Number(BigEndian(n, k)) == n
  {
    if k > 0 {
      NumberOfBigEndian(n / 256, k - 1);
      assert BigEndian(n, k)[..k - 1] == BigEndian(n / 256, k - 1);
    }
  }

  lemma ByteWidths()
    ensures Power(256, 2) == 0x1_0000 && Power(256, 8) == 0x1_0000_0000_0000_0000
  {
    assert Power(256, 2) == 256 * (256 * Power(256, 0));
    assert Power(256, 4) == 256 * (256 * Power(256, 2));
    assert Power(256, 6) == 256 * (256 * Power(256, 4));
    assert Power(256, 8) == 256 * (256 * Power(256, 6));
  }

  /** The loop that reads a big-endian length. */
  method ReadNumber(b: bytes) returns (n: nat)
    ensures n == Number(b)
  {
    n := 0;
    for i := 0 to |b|
      invariant n == Number(b[..i])
    {
      assert b[..i + 1][..i] == b[..i];
      n := 256 * n + b[i];
    }
    assert b[..|b|] == b;
  }

  // ---------------------------------------------------------------- frames

  datatype Frame = Frame(fin: bool, opcode: nat, payload: bytes)

  /** What the front of a read buffer holds: `size` is how many bytes a complete frame takes. */
  datatype Parsed = NeedMore | BadHeader | TooBig | Complete(frame: Frame, size: nat)

  /** The seven-bit length, or how many bytes of extended length follow. */
  function ExtendedBytes(length7: nat): nat {
    if length7 == 126 then 2 else if length7 == 127 then 8 else 0
  }

  function Length(b: bytes, length7: nat, extended: nat): nat
    requires 2 + extended <= |b|
  {
    if extended == 0 then length7 else Number(b[2..2 + extended])
  }

  function ParseFrame(b: bytes, maxMessageBytes: nat): (r: Parsed)
    ensures r.Complete? ==> 6 <= r.size <= |b| && |r.frame.payload| <= maxMessageBytes && r.frame.opcode < 16
  {
    if |b| < 2 then NeedMore
    else if b[0] / 16 % 8 != 0 || b[1] < 128 then BadHeader
    else
      var extended := ExtendedBytes(b[1] % 128);
      if |b| < 2 + extended then NeedMore
      else
        var length := Length(b, b[1] % 128, extended);
        var start := 2 + extended + 4;
        if maxMessageBytes < length then TooBig
        else if |b| < start + length then NeedMore
        else
          var key := b[2 + extended..start];
          Complete(Frame(b[0] >= 128, b[0] % 16, Mask(b[start..start + length], key)), start + length)
  }

  /** The first two bytes as section 5.2 of RFC 6455 lays them out: a frame is refused at once exactly when a
      reserved bit is set or it is not masked, and its declared length decides whether it is too big. */
  lemma HeaderDecides(fin: bool, reserved: nat, opcode: nat, masked: bool, length7: nat, rest: bytes, max: nat)
    requires reserved < 8 && opcode < 16 && length7 < 128
    ensures var first := (if fin then 128 else 0) + 16 * reserved + opcode;
            var parsed := ParseFrame([first, (if masked then 128 else 0) + length7] + rest, max);
            && (parsed.BadHeader? <==> reserved != 0 || !masked)
            && (reserved == 0 && masked ==>
                  && (length7 < 126 ==> (parsed.TooBig? <==> max < length7))
                  && (length7 == 126 && |rest| >= 2 ==> (parsed.TooBig? <==> max < Number(rest[..2])))
                  && (length7 == 127 && |rest| >= 8 ==> (parsed.TooBig? <==> max < Number(rest[..8]))))
  {
    hide Number, Mask;
    var first := (if fin then 128 else 0) + 16 * reserved + opcode;
    var b := [first, (if masked then 128 else 0) + length7] + rest;
    assert first / 16 % 8 == reserved;
    assert |rest| >= 2 ==> b[2..4] == rest[..2];
    assert |rest| >= 8 ==> b[2..10] == rest[..8];
  }

  /** Whatever is decided about the front of a buffer stays decided when more bytes arrive. */
  lemma ParseFrameStable(b: bytes, more: bytes, maxMessageBytes: nat)
    requires !ParseFrame(b, maxMessageBytes).NeedMore?
    ensures ParseFrame(b + more, maxMessageBytes) == ParseFrame(b, maxMessageBytes)
  {
    hide Mask, Number;
    var all := b + more;
    var extended := ExtendedBytes(b[1] % 128);
    if 2 + extended <= |b| {
      assert all[2..2 + extended] == b[2..2 + extended];
      var length := Length(b, b[1] % 128, extended);
      var start := 2 + extended + 4;
      if start + length <= |b| {
        assert all[2 + extended..start] == b[2 + extended..start];
        assert all[start..start + length] == b[start..start + length];
      }
    }
  }

  // ---------------------------------------------------------------- writing

  /** Shortest form of the length, with the mask bit given. */
  function LengthField(size: nat, maskBit: nat): bytes
    requires maskBit in {0, 128}
  {
    if size <= 125 then [maskBit + size]
    else if size <= 65535 then [maskBit + 126] + BigEndian(size, 2)
    else [maskBit + 127] + BigEndian(size, 8)
  }

  /** `make_frame`: a final, unmasked frame. */
  function MakeFrame(opcode: nat, payload: bytes): (frame: bytes)
    requires opcode < 16
    ensures |payload| + 2 <= |frame| <= |payload| + 10
    ensures frame[0] == 128 + opcode
  {
    [128 + opcode] + LengthField(|payload|, 0) + payload
  }

  /** A client's frame under a masking key. */
  function MakeMasked(f: Frame, key: bytes): bytes
    requires f.opcode < 16 && |key| == 4
  {
    [(if f.fin then 128 else 0) + f.opcode] + LengthField(|f.payload|, 128) + key + Mask(f.payload, key)
  }

  /** Reading an unmasked frame as a client does. */
  function ReadServerFrame(b: bytes): Option<Frame> {
    if |b| < 2 || b[0] / 16 % 8 != 0 || b[1] >= 128 then None
    else
      var extended := ExtendedBytes(b[1]);
      if |b| < 2 + extended then None
      else
        var length := Length(b, b[1], extended);
        if |b| != 2 + extended + length then None
        else Some(Frame(b[0] >= 128, b[0] % 16, b[2 + extended..]))
  }

  /** What the length field says, whatever surrounds it. */
  lemma LengthFieldRead(first: byte, size: nat, maskBit: nat, tail: bytes)
    requires maskBit in {0, 128} && size < 0x1_0000_0000_0000_0000
    ensures var b := [first] + LengthField(size, maskBit) + tail;
            var extended := ExtendedBytes(b[1] - maskBit);
            && maskBit <= b[1] < maskBit + 128 && |LengthField(size, maskBit)| == 1 + extended
            && Length(b, b[1] - maskBit, extended) == size
  {
    hide Number, BigEndian;
    var b := [first] + LengthField(size, maskBit) + tail;
    ByteWidths();
    if size > 125 {
      var extended := if size <= 65535 then 2 else 8;
      NumberOfBigEndian(size, extended);
      assert b[2..2 + extended] == BigEndian(size, extended);
    }
  }

  /** A server frame decodes to its opcode and payload. */
  lemma ServerFrameRoundTrip(opcode: nat, payload: bytes)
    requires opcode < 16 && |payload| < 0x1_0000_0000_0000_0000
    ensures ReadServerFrame(MakeFrame(opcode, payload)) == Some(Frame(true, opcode, payload))
  {
    hide Length, LengthField;
    LengthFieldRead(128 + opcode, |payload|, 0, payload);
    var b := MakeFrame(opcode, payload);
    assert b[|b| - |payload|..] == payload;
  }

  /** A client frame in front of any bytes is read back whole, unmasked. */
  lemma ClientFrameRoundTrip(f: Frame, key: bytes, tail: bytes, maxMessageBytes: nat)
    requires f.opcode < 16 && |key| == 4
    requires |f.payload| <= maxMessageBytes && |f.payload| < 0x1_0000_0000_0000_0000
    ensures ParseFrame(MakeMasked(f, key) + tail, maxMessageBytes) == Complete(f, |MakeMasked(f, key)|)
  {
    hide Length, LengthField, Mask;
    var first := (if f.fin then 128 else 0) + f.opcode;
    var masked := Mask(f.payload, key);
    var field := LengthField(|f.payload|, 128);
    var b := MakeMasked(f, key) + tail;
    assert b == [first] + field + (key + masked + tail);
    LengthFieldRead(first, |f.payload|, 128, key + masked + tail);
    var start := 1 + |field| + 4;
    assert b[1 + |field|..start] == key;
    assert b[start..start + |masked|] == masked;
    MaskTwice(f.payload, key);
    FirstByte(f);
  }

  lemma FirstByte(f: Frame)
    requires f.opcode < 16
    ensures var first := (if f.fin then 128 else 0) + f.opcode;
            first / 16 % 8 == 0 && first % 16 == f.opcode && (first >= 128 <==> f.fin)
  {
  }
}
