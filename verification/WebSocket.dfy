/**
 The WebSocket framing of the streaming client (tools/stream_client.py), against the frame format of section 5.2 and the
 masking of section 5.3 of RFC 6455. The masking key and what the socket delivers are parameters.
 */
module WebSocket {
  import opened Common
  import opened Arith
  import opened Bits

  type Byte = b: int | 0 <= b < 256

  type Bytes = seq<Byte>

  // ----- Numbers as bytes

  function BigEndian(n: nat, k: nat): (s: Bytes)
    ensures |s| == k
  {
    if k == 0 then [] else BigEndian(n / 256, k - 1) + [n % 256]
  }

  function FromBig(s: Bytes): nat { if s == [] then 0 else 256 * FromBig(s[..|s| - 1]) + s[|s| - 1] }

  lemma {:induction false} BigStep(n: nat, k: nat, s: Bytes, b: Byte)
    ensures BigEndian(n, 0) == [] && BigEndian(n, k + 1) == BigEndian(n / 256, k) + [n % 256]
    ensures FromBig([]) == 0 && FromBig(s + [b]) == 256 * FromBig(s) + b
  {
    assert (s + [b])[..|s|] == s;
  }

  /** The most significant byte first, in two and in eight bytes. */
  lemma {:induction false} TwoAndEightBytes(n: nat)
    ensures n < 65536 ==> BigEndian(n, 2) == [n / 256, n % 256]
    ensures BigEndian(n, 8)
         == [n / 0x100_0000_0000_0000 % 256, n / 0x1_0000_0000_0000 % 256, n / 0x100_0000_0000 % 256,
             n / 0x1_0000_0000 % 256, n / 0x100_0000 % 256, n / 0x1_0000 % 256, n / 0x100 % 256, n % 256]
  {
    hide BigEndian;
    DivTwice(n, 0x100, 0x100);
    DivTwice(n, 0x1_0000, 0x100);
    DivTwice(n, 0x100_0000, 0x100);
    DivTwice(n, 0x1_0000_0000, 0x100);
    DivTwice(n, 0x100_0000_0000, 0x100);
    DivTwice(n, 0x1_0000_0000_0000, 0x100);
    BigStep(n, 7, [], 0);
    BigStep(n / 0x100, 6, [], 0);
    BigStep(n / 0x1_0000, 5, [], 0);
    BigStep(n / 0x100_0000, 4, [], 0);
    BigStep(n / 0x1_0000_0000, 3, [], 0);
    BigStep(n / 0x100_0000_0000, 2, [], 0);
    BigStep(n / 0x1_0000_0000_0000, 1, [], 0);
    BigStep(n / 0x100_0000_0000_0000, 0, [], 0);
    BigStep(n, 1, [], 0);
    BigStep(n / 0x100, 0, [], 0);
  }

  lemma {:induction false} FromTwoAndEight(s: Bytes)
    ensures |s| == 2 ==> FromBig(s) == 256 * (s[0] as int) + s[1] as int
    ensures |s| == 8 ==>
              FromBig(s) == 0x100_0000_0000_0000 * (s[0] as int) + 0x1_0000_0000_0000 * (s[1] as int)
                            + 0x100_0000_0000 * (s[2] as int) + 0x1_0000_0000 * (s[3] as int)
                            + 0x100_0000 * (s[4] as int) + 0x1_0000 * (s[5] as int) + 0x100 * (s[6] as int)
                            + s[7] as int
  {
    hide FromBig;
    for i := 0 to |s|
      invariant i >= 1 ==> FromBig(s[..1]) == s[0]
      invariant i >= 2 ==> FromBig(s[..2]) == 256 * FromBig(s[..1]) + s[1]
      invariant i >= 3 ==> FromBig(s[..3]) == 256 * FromBig(s[..2]) + s[2]
      invariant i >= 4 ==> FromBig(s[..4]) == 256 * FromBig(s[..3]) + s[3]
      invariant i >= 5 ==> FromBig(s[..5]) == 256 * FromBig(s[..4]) + s[4]
      invariant i >= 6 ==> FromBig(s[..6]) == 256 * FromBig(s[..5]) + s[5]
      invariant i >= 7 ==> FromBig(s[..7]) == 256 * FromBig(s[..6]) + s[6]
      invariant i >= 8 ==> FromBig(s[..8]) == 256 * FromBig(s[..7]) + s[7]
    {
      assert s[..i + 1] == s[..i] + [s[i]];
      BigStep(0, 0, s[..i], s[i]);
      assert s[..0] == [];
    }
    assert s[..|s|] == s;
  }

  lemma {:induction false} BigRoundTrip(n: nat, k: nat)
    requires n < Pow2(8 * k)
    ensures FromBig(BigEndian(n, k)) == n
  {
    hide Pow2;
    if k > 0 {
      EightMore(8 * (k - 1));
      QuotientBelow(n, Pow2(8 * (k - 1)));
      BigRoundTrip(n / 256, k - 1);
      assert BigEndian(n, k)[..k - 1] == BigEndian(n / 256, k - 1);
    } else {
      PowZero();
    }
  }

  lemma {:induction false} QuotientBelow(n: nat, p: nat)
    requires n < 256 * p
    ensures n / 256 < p
  {
  }

  lemma {:induction false} PowZero()
    ensures Pow2(0) == 1
  {
  }

  lemma {:induction false} EightMore(k: nat)
    ensures Pow2(k + 8) == 256 * Pow2(k)
  {
    hide Pow2;
    FourMore(k);
    FourMore(k + 4);
  }

  lemma {:induction false} Powers()
    ensures Pow2(8) == 256 && Pow2(16) == 65536 && Pow2(64) == 0x1_0000_0000_0000_0000 == 2 * LENGTH_LIMIT
  {
    hide Pow2;
    PowZero();
    EightMore(0);
    EightMore(8);
    EightMore(16);
    EightMore(24);
    EightMore(32);
    EightMore(40);
    EightMore(48);
    EightMore(56);
  }

  /** The most significant bit of a 64-bit length must be 0. */
  const LENGTH_LIMIT := 0x8000_0000_0000_0000

  function FromLittle(s: Bytes): nat { if s == [] then 0 else s[0] + 256 * FromLittle(s[1..]) }

  function ToLittle(n: nat, k: nat): (s: Bytes)
    ensures |s| == k
  {
    if k == 0 then [] else [n % 256] + ToLittle(n / 256, k - 1)
  }

  // ----- Masking

  function XorByte(a: Byte, b: Byte): (r: Byte) {
    XorBelow(a, b, 8);
    Powers();
    BitXor(a, b)
  }

  /** Section 5.3: octet `i` is xored with octet `i mod 4` of the key. */
  function Masked(s: Bytes, key: Bytes): (r: Bytes)
    requires |key| == 4
    ensures |r| == |s|
  {
    seq(|s|, i requires 0 <= i < |s| => XorByte(s[i], key[i % 4]))
  }

  lemma {:induction false} MaskTwice(s: Bytes, key: Bytes)
    requires |key| == 4
    ensures Masked(Masked(s, key), key) == s
  {
    forall i | 0 <= i < |s|
      ensures Masked(Masked(s, key), key)[i] == s[i]
    {
      XorTwice(s[i], key[i % 4]);
    }
  }

  function Repeated(key: Bytes, t: nat): (r: Bytes)
    ensures |r| == t * |key|
  {
    if t == 0 then [] else key + Repeated(key, t - 1)
  }

  lemma {:induction false} RepeatedAt(key: Bytes, t: nat, i: nat)
    requires |key| == 4 && i < 4 * t
    ensures Repeated(key, t)[i] == key[i % 4]
  {
    if i >= 4 {
      RepeatedAt(key, t - 1, i - 4);
      assert (i - 4) % 4 == i % 4;
    }
  }

  function XorBytes(a: Bytes, b: Bytes): (r: Bytes)
    requires |a| == |b|
    ensures |r| == |a|
  {
    seq(|a|, i requires 0 <= i < |a| => XorByte(a[i], b[i]))
  }

  /** Xor of two long integers is xor byte by byte, and fits the bytes it came from. */
  lemma {:induction false} XorAsIntegers(a: Bytes, b: Bytes)
    requires |a| == |b|
    ensures BitXor(FromLittle(a), FromLittle(b)) == FromLittle(XorBytes(a, b))
  {
    hide BitXor;
    if a == [] {
      XorSelf(0);
    } else {
      XorAsIntegers(a[1..], b[1..]);
      Powers();
      XorSplit(a[0], FromLittle(a[1..]), b[0], FromLittle(b[1..]), 8);
      assert XorBytes(a, b)[1..] == XorBytes(a[1..], b[1..]);
      hide Pow2;
    }
  }

  lemma {:induction false} LittleRoundTrip(s: Bytes)
    ensures ToLittle(FromLittle(s), |s|) == s && FromLittle(s) < Pow2(8 * |s|)
  {
    if s == [] {
      assert Pow2(0) == 1;
    } else {
      LittleRoundTrip(s[1..]);
      EightMore(8 * (|s| - 1));
      assert (s[0] + 256 * FromLittle(s[1..])) / 256 == FromLittle(s[1..]);
    }
  }

  /** The body as the client computes it: one xor of two integers as long as the payload. */
  function Body(payload: Bytes, key: Bytes): (r: Bytes)
    requires |key| == 4
    ensures |r| == |payload|
  {
    var n := |payload|;
    var m := Repeated(key, n / 4 + 1)[..n];
    if n == 0 then [] else ToLittle(BitXor(FromLittle(payload), FromLittle(m)), n)
  }

  /** It is the masking of section 5.3. */
  lemma {:induction false} BodyIsMasked(payload: Bytes, key: Bytes)
    requires |key| == 4
    ensures Body(payload, key) == Masked(payload, key)
  {
    hide BitXor, FromLittle, ToLittle;
    var n := |payload|;
    var m := Repeated(key, n / 4 + 1)[..n];
    forall i | 0 <= i < n
      ensures m[i] == key[i % 4]
    {
      RepeatedAt(key, n / 4 + 1, i);
    }
    assert XorBytes(payload, m) == Masked(payload, key);
    XorAsIntegers(payload, m);
    LittleRoundTrip(XorBytes(payload, m));
  }

  // ----- Sending

  /** The top bit set in a byte. */
  lemma {:induction false} OrTop(k: nat, o: nat)
    requires o < Pow2(k + 1)
    ensures BitOr(Pow2(k), o) == Pow2(k) + o % Pow2(k)
  {
    if k == 0 {
      assert Pow2(0) == 1 && Pow2(1) == 2;
    } else {
      var p := Pow2(k - 1);
      assert Pow2(k) == 2 * p;
      OrTop(k - 1, o / 2);
      hide BitOr, Pow2;
      OrEven(p, o);
      HalfMod(o, p);
    }
  }

  lemma {:induction false} OrEven(p: nat, o: nat)
    ensures BitOr(2 * p, o) == 2 * BitOr(p, o / 2) + o % 2
  {
  }

  lemma {:induction false} HalfMod(o: nat, p: nat)
    requires p > 0
    ensures o % (2 * p) == 2 * (o / 2 % p) + o % 2
  {
    var q, r := o / 2 / p, o / 2 % p;
    assert o / 2 == q * p + r;
    assert o == q * (2 * p) + (2 * r + o % 2) by {
      assert q * (2 * p) == 2 * (q * p);
    }
    DivModOf(q, 2 * p, 2 * r + o % 2);
  }

  lemma {:induction false} TopBit(o: nat)
    requires o < 256
    ensures BitOr(0x80, o) == 128 + o % 128
  {
    assert Pow2(7) == 128 && Pow2(8) == 256 by {
      Powers();
    }
    OrTop(7, o);
  }

  /** The length field: 7 bits, or 16 or 64 after an escape, the shortest that fits; `top` is the mask bit. */
  function LengthField(top: nat, n: nat): (r: Bytes)
    requires top <= 128
    ensures 1 <= |r| <= 9
  {
    if n < 126 then [top + n] else if n < 65536 then [top + 126] + BigEndian(n, 2) else [top + 127] + BigEndian(n, 8)
  }

  /** `0x80 | o`. */
  function WithTop(o: nat): (r: Byte)
    requires o < 256
    ensures r == 128 + o % 128
  {
    TopBit(o);
    BitOr(0x80, o)
  }

  /** The header as the client builds it. */
  function SentHeader(opcode: nat, n: nat): (r: Bytes)
    requires opcode < 256
    ensures 2 <= |r|
  {
    if n < 126 then [WithTop(opcode)] + [WithTop(n)]
    else if n < 65536 then [WithTop(opcode)] + ([WithTop(126)] + BigEndian(n, 2))
    else [WithTop(opcode)] + ([WithTop(127)] + BigEndian(n, 8))
  }

  lemma {:induction false} SentHeaderIs(opcode: nat, n: nat)
    requires opcode < 256
    ensures SentHeader(opcode, n) == [128 + opcode % 128] + LengthField(128, n)
  {
    hide WithTop, BigEndian;
    LowSeven(0, 126);
    LowSeven(0, 127);
    if n < 126 {
      LowSeven(0, n);
    }
  }

  function SentFrame(opcode: nat, payload: Bytes, key: Bytes): Bytes
    requires opcode < 256 && |key| == 4
  {
    SentHeader(opcode, |payload|) + key + Body(payload, key)
  }

  lemma {:induction false} FieldBytes(top: nat, n: nat)
    requires top <= 128
    ensures var f := LengthField(top, n);
            && (n < 126 ==> f == [top + n])
            && (126 <= n < 65536 ==> f == [top + 126, n / 256, n % 256])
            && (n >= 65536 ==>
                  f
                  == [top + 127, n / 0x100_0000_0000_0000 % 256, n / 0x1_0000_0000_0000 % 256,
                      n / 0x100_0000_0000 % 256, n / 0x1_0000_0000 % 256, n / 0x100_0000 % 256, n / 0x1_0000 % 256,
                      n / 0x100 % 256, n % 256])
  {
    hide BigEndian;
    TwoAndEightBytes(n);
  }

  lemma {:induction false} InOrder(s: Bytes, b: Byte, field: Bytes, key: Bytes, body: Bytes)
    requires s == [b] + field + key + body
    ensures var h := 1 + |field|;
            && |s| == h + |key| + |body| && s[0] == b && s[1..h] == field && s[h..h + |key|] == key
            && forall i | 0 <= i < |body| :: s[h + |key| + i] == body[i]
  {
  }

  lemma {:induction false} MaskedAt(s: Bytes, key: Bytes, i: nat)
    requires |key| == 4 && i < |s|
    ensures Masked(s, key)[i] == BitXor(s[i], key[i % 4])
  {
    hide BitXor;
  }

  /** Byte by byte, what the client sends: opcode, length with the mask bit, key, and the payload xored with the key. */
  lemma {:induction false} SentBytes(opcode: nat, payload: Bytes, key: Bytes)
    requires opcode < 256 && |key| == 4
    ensures var s, n := SentFrame(opcode, payload, key), |payload|;
            var h := if n < 126 then 2 else if n < 65536 then 4 else 10;
            && |s| == h + 4 + n && s[0] == 128 + opcode % 128
            && (n < 126 ==> s[1] == 128 + n)
            && (126 <= n < 65536 ==> s[1..4] == [254, n / 256, n % 256])
            && (n >= 65536 ==>
                  s[1..10]
                  == [255, n / 0x100_0000_0000_0000 % 256, n / 0x1_0000_0000_0000 % 256, n / 0x100_0000_0000 % 256,
                      n / 0x1_0000_0000 % 256, n / 0x100_0000 % 256, n / 0x1_0000 % 256, n / 0x100 % 256, n % 256])
            && s[h..h + 4] == key
            && forall i | 0 <= i < n :: s[h + 4 + i] == BitXor(payload[i], key[i % 4])
  {
    hide BigEndian, WithTop, Body, SentHeader, BitXor, Masked, LengthField;
    var s, n := SentFrame(opcode, payload, key), |payload|;
    SentHeaderIs(opcode, n);
    FieldBytes(128, n);
    BodyIsMasked(payload, key);
    var field := LengthField(128, n);
    InOrder(s, 128 + opcode % 128, field, key, Masked(payload, key));
    forall i | 0 <= i < n
      ensures s[1 + |field| + 4 + i] == BitXor(payload[i], key[i % 4])
    {
      MaskedAt(payload, key, i);
    }
  }

  // ----- Section 5.2

  datatype Frame = Frame(fin: bool, rsv: nat, opcode: nat, masked: bool, payload: Bytes)

  datatype Parse = Incomplete | Malformed | Parsed(frame: Frame, rest: Bytes)

  function LengthCode(s: Bytes): nat
    requires |s| >= 2
  {
    s[1] % 128
  }

  function HeaderSize(s: Bytes): nat
    requires |s| >= 2
  {
    if LengthCode(s) == 126 then 4 else if LengthCode(s) == 127 then 10 else 2
  }

  function PayloadLength(s: Bytes): nat
    requires |s| >= 2 && |s| >= HeaderSize(s)
  {
    if LengthCode(s) == 126 then FromBig(s[2..4]) else if LengthCode(s) == 127 then FromBig(s[2..10]) else LengthCode(s)
  }

  /** The length must use the fewest bytes, and its top bit must be 0. */
  predicate LengthIsLegal(code: nat, n: nat) {
    (code == 126 ==> n >= 126) && (code == 127 ==> 65536 <= n < LENGTH_LIMIT)
  }

  /** The first frame of `s`. */
  function Decode(s: Bytes): Parse {
    if |s| < 2 || |s| < HeaderSize(s) then Incomplete else
      var off, n, masked := HeaderSize(s), PayloadLength(s), s[1] >= 128;
      var at := if masked then off + 4 else off;
      if !LengthIsLegal(LengthCode(s), n) then Malformed
      else if |s| < at + n then Incomplete
      else
        var body := s[at..at + n];
        var payload := if masked then Masked(body, s[off..off + 4]) else body;
        Parsed(Frame(s[0] >= 128, s[0] / 16 % 8, s[0] % 16, masked, payload), s[at + n..])
  }

  /** A length in more bytes than it needs, or of 2^63 or more, makes a frame malformed. */
  lemma {:induction false} NotShortestIsMalformed(s: Bytes)
    requires (|s| >= 4 && s[1] % 128 == 126 && 256 * (s[2] as int) + s[3] as int < 126)
             || (|s| >= 10 && s[1] % 128 == 127
                 && (s[2] >= 128 || (forall i | 2 <= i < 8 :: s[i] == 0)))
    ensures Decode(s) == Malformed
  {
    hide FromBig;
    if s[1] % 128 == 126 {
      FromTwoAndEight(s[2..4]);
    } else {
      FromTwoAndEight(s[2..10]);
    }
  }

  /** A header built from its parts reads back, whatever follows. */
  lemma {:induction false} HeaderReads(b: Byte, top: nat, n: nat, tail: Bytes, s: Bytes)
    requires (top == 0 || top == 128) && n < 2 * LENGTH_LIMIT && s == [b] + LengthField(top, n) + tail
    ensures |s| >= 2 && s[0] == b && (s[1] >= 128 <==> top == 128)
    ensures HeaderSize(s) == 1 + |LengthField(top, n)| <= |s| && s[HeaderSize(s)..] == tail
    ensures PayloadLength(s) == n && (LengthIsLegal(LengthCode(s), n) <==> n < LENGTH_LIMIT)
  {
    hide FromBig, BigEndian, Pow2;
    if n < 126 {
      assert s[1] == top + n;
      LowSeven(top, n);
    } else if n < 65536 {
      assert s[1] == top + 126;
      LowSeven(top, 126);
      assert s[2..4] == BigEndian(n, 2);
      TwoBytes(n);
    } else {
      assert s[1] == top + 127;
      LowSeven(top, 127);
      assert s[2..10] == BigEndian(n, 8);
      EightBytes(n);
    }
  }

  lemma {:induction false} LowSeven(top: nat, c: nat)
    requires (top == 0 || top == 128) && c < 128
    ensures (top + c) % 128 == c
  {
  }

  lemma {:induction false} TwoBytes(n: nat)
    requires n < 65536
    ensures FromBig(BigEndian(n, 2)) == n
  {
    hide FromBig, BigEndian, Pow2;
    Powers();
    BigRoundTrip(n, 2);
  }

  lemma {:induction false} EightBytes(n: nat)
    requires n < 2 * LENGTH_LIMIT
    ensures FromBig(BigEndian(n, 8)) == n
  {
    hide FromBig, BigEndian, Pow2;
    Powers();
    BigRoundTrip(n, 8);
  }

  /**
   The frame that section 5.2 reads from what the client sends: final, masked, the opcode in four bits and any more of
   its bits among the reserved ones. A payload of 2^63 bytes or more is malformed.
   */
  lemma {:induction false} SentFrameDecodes(opcode: nat, payload: Bytes, key: Bytes, tail: Bytes)
    requires opcode < 256 && |key| == 4 && |payload| < 2 * LENGTH_LIMIT
    ensures Decode(SentFrame(opcode, payload, key) + tail)
            == if |payload| < LENGTH_LIMIT then Parsed(Frame(true, opcode % 128 / 16, opcode % 16, true, payload), tail)
              else Malformed
  {
    hide Body, Masked, HeaderSize, PayloadLength, LengthIsLegal, LengthCode, LengthField;
    var b, n, body := 128 + opcode % 128, |payload|, Body(payload, key);
    var rest := key + body + tail;
    var s := SentFrame(opcode, payload, key) + tail;
    SentFrameIs(opcode, payload, key, tail);
    hide SentFrame;
    HeaderReads(b, 128, n, rest, s);
    hide Decode;
    if n < LENGTH_LIMIT {
      Cut(s, HeaderSize(s), key, body, tail);
      DecodeMasked(s, key, body, tail);
      BodyIsMasked(payload, key);
      MaskTwice(payload, key);
      Nibbles(opcode);
    } else {
      DecodeTooLong(s);
    }
  }

  lemma {:induction false} SentFrameIs(opcode: nat, payload: Bytes, key: Bytes, tail: Bytes)
    requires opcode < 256 && |key| == 4
    ensures SentFrame(opcode, payload, key) + tail
            == [128 + opcode % 128] + LengthField(128, |payload|) + (key + Body(payload, key) + tail)
  {
    hide Body, LengthField, SentHeader;
    SentHeaderIs(opcode, |payload|);
  }

  lemma {:induction false} Nibbles(opcode: nat)
    ensures var b := 128 + opcode % 128;
            b / 16 % 8 == opcode % 128 / 16 && b % 16 == opcode % 16
  {
    NibblesOf(opcode / 128, opcode % 128 / 16, opcode % 128 % 16);
  }

  lemma {:induction false} NibblesOf(a: nat, r: nat, q: nat)
    requires r < 8 && q < 16
    ensures (128 + (16 * r + q)) / 16 % 8 == r && (128 + (16 * r + q)) % 16 == q && (128 * a + (16 * r + q)) % 16 == q
  {
    DivModOf(8 + r, 16, q);
    DivModOf(8 * a + r, 16, q);
    DivModOf(1, 8, r);
  }

  lemma {:induction false} DecodeMasked(s: Bytes, key: Bytes, body: Bytes, tail: Bytes)
    requires |s| >= 2 && |s| >= HeaderSize(s) && s[1] >= 128 && |key| == 4
    requires LengthIsLegal(LengthCode(s), PayloadLength(s)) && PayloadLength(s) == |body|
    requires var at := HeaderSize(s) + 4;
             |s| >= at + |body| && s[HeaderSize(s)..at] == key && s[at..at + |body|] == body && s[at + |body|..] == tail
    ensures Decode(s) == Parsed(Frame(s[0] >= 128, s[0] / 16 % 8, s[0] % 16, true, Masked(body, key)), tail)
  {
    hide Masked, LengthIsLegal, LengthCode, PayloadLength, HeaderSize;
  }

  lemma {:induction false} DecodeTooLong(s: Bytes)
    requires |s| >= 2 && |s| >= HeaderSize(s) && !LengthIsLegal(LengthCode(s), PayloadLength(s))
    ensures Decode(s) == Malformed
  {
  }

  lemma {:induction false} Cut(s: Bytes, off: nat, key: Bytes, body: Bytes, tail: Bytes)
    requires off <= |s| && s[off..] == key + body + tail
    ensures var at := off + |key|;
            && |s| >= at + |body| && s[off..at] == key && s[at..at + |body|] == body && s[at + |body|..] == tail
  {
    var r := s[off..];
    assert |s| == off + |r|;
    assert r[..|key|] == key && r[|key|..|key| + |body|] == body && r[|key| + |body|..] == tail;
    assert s[off..off + |key|] == r[..|key|];
    assert s[off + |key|..off + |key| + |body|] == r[|key|..|key| + |body|];
    assert s[off + |key| + |body|..] == r[|key| + |body|..];
  }

  // ----- Many frames

  /** All complete frames of `s`, and what is left. */
  function DecodeAll(s: Bytes): (r: (seq<Frame>, Bytes))
    decreases |s|
  {
    match Decode(s)
    case Parsed(f, rest) =>
      DecodeShrinks(s);
      var (fs, left) := DecodeAll(rest);
      ([f] + fs, left)
    case _ => ([], s)
  }

  lemma {:induction false} DecodeShrinks(s: Bytes)
    requires Decode(s).Parsed?
    ensures |Decode(s).rest| < |s|
  {
  }

  /** One call to `send`. */
  datatype Message = Message(opcode: nat, payload: Bytes, key: Bytes)
  {
    predicate Sendable() { opcode < 256 && |key| == 4 && |payload| < LENGTH_LIMIT }
  }

  function SentAll(ms: seq<Message>): Bytes
    requires forall i | 0 <= i < |ms| :: ms[i].Sendable()
  {
    if ms == [] then [] else
      assert ms[0].Sendable();
      SentFrame(ms[0].opcode, ms[0].payload, ms[0].key) + SentAll(ms[1..])
  }

  lemma {:induction false} SentNone(ms: seq<Message>)
    ensures SentAll(ms[..0]) == []
  {
  }

  lemma {:induction false} SentAppend(ms: seq<Message>, m: Message)
    requires (forall i | 0 <= i < |ms| :: ms[i].Sendable()) && m.Sendable()
    ensures SentAll(ms + [m]) == SentAll(ms) + SentFrame(m.opcode, m.payload, m.key)
  {
    hide SentFrame;
    if ms == [] {
      assert [m][1..] == [];
    } else {
      SentAppend(ms[1..], m);
      assert (ms + [m])[1..] == ms[1..] + [m];
    }
  }

  lemma {:induction false} SentOneMore(ms: seq<Message>, i: nat)
    requires (forall j | 0 <= j < |ms| :: ms[j].Sendable()) && i < |ms|
    ensures SentAll(ms[..i + 1]) == SentAll(ms[..i]) + SentFrame(ms[i].opcode, ms[i].payload, ms[i].key)
  {
    hide SentAll, SentFrame;
    assert ms[..i + 1] == ms[..i] + [ms[i]];
    SentAppend(ms[..i], ms[i]);
  }

  function FrameOf(m: Message): Frame { Frame(true, m.opcode % 128 / 16, m.opcode % 16, true, m.payload) }

  function FramesOf(ms: seq<Message>): seq<Frame> { if ms == [] then [] else [FrameOf(ms[0])] + FramesOf(ms[1..]) }

  /** Every sequence of messages reads back frame by frame. */
  lemma {:induction false} SentAllDecodes(ms: seq<Message>)
    requires forall i | 0 <= i < |ms| :: ms[i].Sendable()
    ensures DecodeAll(SentAll(ms)) == (FramesOf(ms), [])
  {
    hide Decode, SentFrame;
    if ms == [] {
      DecodeNothing();
    } else {
      SentAllDecodes(ms[1..]);
      var m := ms[0];
      assert m.Sendable();
      SentFrameDecodes(m.opcode, m.payload, m.key, SentAll(ms[1..]));
    }
  }

  lemma {:induction false} DecodeNothing()
    ensures Decode([]) == Incomplete
  {
  }

  // ----- Receiving

  /** The next message as the client takes it from its stream: it does not look at the mask bit or the reserved bits. */
  function Next(s: Bytes): Option<(nat, Bytes, Bytes)> {
    if |s| < 2 || |s| < HeaderSize(s) then None else
      var off, n := HeaderSize(s), PayloadLength(s);
      if |s| < off + n then None else Some((s[0] % 16, s[off..off + n], s[off + n..]))
  }

  /** On unmasked frames, which are all a server may send, that is what section 5.2 says. */
  lemma {:induction false} NextIsDecode(s: Bytes)
    requires |s| >= 2 ==> s[1] < 128
    ensures Decode(s).Parsed? ==> Next(s) == Some((Decode(s).frame.opcode, Decode(s).frame.payload, Decode(s).rest))
    ensures Decode(s) == Incomplete ==> Next(s) == None
  {
    hide HeaderSize, PayloadLength, LengthIsLegal, LengthCode;
  }

  function NextAll(s: Bytes): (r: (seq<(nat, Bytes)>, Bytes))
    decreases |s|
  {
    match Next(s)
    case Some((op, payload, rest)) =>
      NextShrinks(s);
      var (fs, left) := NextAll(rest);
      ([(op, payload)] + fs, left)
    case None => ([], s)
  }

  lemma {:induction false} NextShrinks(s: Bytes)
    requires Next(s).Some?
    ensures |Next(s).value.2| < |s|
  {
  }

  lemma {:induction false} NextAllStep(s: Bytes)
    ensures NextAll(s) ==
            match Next(s)
            case Some((op, payload, rest)) => ([(op, payload)] + NextAll(rest).0, NextAll(rest).1)
            case None => ([], s)
  {
    hide Next;
  }

  /** A frame as a server sends it. */
  function ServerFrame(op: nat, payload: Bytes): Bytes
    requires op < 16
  {
    [128 + op] + LengthField(0, |payload|) + payload
  }

  function ServerAll(fs: seq<(nat, Bytes)>): Bytes
    requires forall i | 0 <= i < |fs| :: fs[i].0 < 16 && |fs[i].1| < LENGTH_LIMIT
  {
    if fs == [] then [] else ServerFrame(fs[0].0, fs[0].1) + ServerAll(fs[1..])
  }

  lemma {:induction false} ServerFrameReads(op: nat, payload: Bytes, tail: Bytes)
    requires op < 16 && |payload| < LENGTH_LIMIT
    ensures Next(ServerFrame(op, payload) + tail) == Some((op, payload, tail))
    ensures Decode(ServerFrame(op, payload) + tail) == Parsed(Frame(true, 0, op, false, payload), tail)
  {
    hide HeaderSize, PayloadLength, LengthField, LengthIsLegal, LengthCode;
    var s := ServerFrame(op, payload) + tail;
    assert s == [128 + op] + LengthField(0, |payload|) + (payload + tail);
    HeaderReads(128 + op, 0, |payload|, payload + tail, s);
    assert s[HeaderSize(s)..] == [] + payload + tail;
    Cut(s, HeaderSize(s), [], payload, tail);
  }

  /** Every sequence of server frames is received, and a frame cut short stays in the buffer. */
  lemma {:induction false} ServerAllReads(fs: seq<(nat, Bytes)>, tail: Bytes)
    requires (forall i | 0 <= i < |fs| :: fs[i].0 < 16 && |fs[i].1| < LENGTH_LIMIT) && Next(tail) == None
    ensures NextAll(ServerAll(fs) + tail) == (fs, tail)
  {
    hide Next, ServerFrame, NextAll;
    if fs == [] {
      assert ServerAll(fs) + tail == tail;
      NextAllStep(tail);
    } else {
      ServerAllReads(fs[1..], tail);
      var rest := ServerAll(fs[1..]) + tail;
      assert ServerAll(fs) + tail == ServerFrame(fs[0].0, fs[0].1) + rest;
      ServerFrameReads(fs[0].0, fs[0].1, rest);
      NextAllStep(ServerFrame(fs[0].0, fs[0].1) + rest);
      assert fs == [fs[0]] + fs[1..];
    }
  }

  /** A connection: bytes received and not yet taken, what the socket will still deliver, and what was sent. */
  class Connection {
    var buf: Bytes
    var inbox: seq<Bytes>
    var sent: Bytes

    constructor (leftover: Bytes, deliveries: seq<Bytes>)
      requires forall i | 0 <= i < |deliveries| :: deliveries[i] != []
      ensures Valid() && Stream() == leftover + Flatten(deliveries) && sent == []
    {
      buf, inbox, sent := leftover, deliveries, [];
    }

    /** A delivery is never empty: an empty read means that the peer has closed. */
    ghost predicate Valid()
      reads this
    {
      forall i | 0 <= i < |inbox| :: inbox[i] != []
    }

    /** Everything not yet taken, wherever it is. */
    ghost function Stream(): Bytes
      reads this
    {
      buf + Flatten(inbox)
    }

    method Send(opcode: nat, payload: Bytes, key: Bytes) returns (ok: bool)
      requires |key| == 4 && Valid()
      modifies this`sent
      ensures ok <==> opcode < 256 && |payload| < 2 * LENGTH_LIMIT
      ensures sent == if ok then old(sent) + SentFrame(opcode, payload, key) else old(sent)
    {
      ok := opcode < 256 && |payload| < 2 * LENGTH_LIMIT;
      if ok {
        sent := sent + SentFrame(opcode, payload, key);
      }
    }

    /** Sends messages one after the other: a reader of everything sent gets exactly them, with nothing left over. */
    method SendAll(ms: seq<Message>)
      requires Valid() && sent == [] && forall i | 0 <= i < |ms| :: ms[i].Sendable()
      modifies this`sent
      ensures sent == SentAll(ms) && DecodeAll(sent) == (FramesOf(ms), [])
    {
      hide SentFrame, DecodeAll, SentAll;
      SentNone(ms);
      for i := 0 to |ms|
        invariant sent == SentAll(ms[..i])
      {
        assert ms[i].Sendable();
        SentOneMore(ms, i);
        var ok := Send(ms[i].opcode, ms[i].payload, ms[i].key);
      }
      assert ms[..|ms|] == ms;
      SentAllDecodes(ms);
    }

    /** Reads until `k` bytes are buffered. */
    method Need(k: nat) returns (ok: bool)
      requires Valid()
      modifies this`buf, this`inbox
      ensures Valid() && Stream() == old(Stream())
      ensures if ok then |buf| >= k else |buf| < k && inbox == []
    {
      while |buf| < k
        invariant Valid() && Stream() == old(Stream())
        decreases |inbox|
      {
        if inbox == [] {
          return false;
        }
        FlattenFirst(inbox);
        buf := buf + inbox[0];
        inbox := inbox[1..];
      }
      return true;
    }

    /** The next message of the stream, however it was delivered; on close nothing received is lost. */
    method Recv() returns (r: Option<(nat, Bytes)>)
      requires Valid()
      modifies this`buf, this`inbox
      ensures Valid()
      ensures match Next(old(Stream()))
              case Some((op, payload, rest)) => r == Some((op, payload)) && Stream() == rest
              case None => r == None && buf == old(Stream()) && inbox == []
    {
      hide Flatten, FromBig, Next, HeaderSize, PayloadLength, LengthCode;
      ghost var s := Stream();
      NextIs(s);
      var ok := Need(2);
      if !ok {
        NothingMore(this);
        return None;
      }
      StartsWith(buf, Flatten(inbox));
      var op, code := buf[0] % 16, buf[1] % 128;
      var ln, off := code, 2;
      if code == 126 {
        ok := Need(4);
        if !ok {
          NothingMore(this);
          return None;
        }
        ln, off := FromBig(buf[2..4]), 4;
      } else if code == 127 {
        ok := Need(10);
        if !ok {
          NothingMore(this);
          return None;
        }
        ln, off := FromBig(buf[2..10]), 10;
      }
      StartsWith(buf, Flatten(inbox));
      LengthIs(buf, Flatten(inbox));
      ok := Need(off + ln);
      if !ok {
        NothingMore(this);
        return None;
      }
      Taken(buf, Flatten(inbox), off + ln);
      var payload := buf[off..off + ln];
      buf := buf[off + ln..];
      return Some((op, payload));
    }

    /** Receives until the peer closes. */
    method ReceiveAll() returns (fs: seq<(nat, Bytes)>)
      requires Valid()
      modifies this`buf, this`inbox
      ensures (fs, buf) == NextAll(old(Stream())) && inbox == []
    {
      hide Next;
      fs := [];
      ghost var start := Stream();
      while true
        invariant Valid()
        invariant NextAll(start).0 == fs + NextAll(Stream()).0 && NextAll(start).1 == NextAll(Stream()).1
        decreases |Stream()|
      {
        ghost var s := Stream();
        if Next(s).Some? {
          NextShrinks(s);
        }
        var r := Recv();
        if r.None? {
          assert Stream() == buf + [] == s;
          assert NextAll(s) == ([], s);
          assert NextAll(start).0 == fs + [] == fs;
          return;
        }
        assert NextAll(s).0 == [r.value] + NextAll(Stream()).0;
        assert fs + ([r.value] + NextAll(Stream()).0) == fs + [r.value] + NextAll(Stream()).0;
        fs := fs + [r.value];
      }
    }
  }

  lemma {:induction false} NothingMore(c: Connection)
    requires c.inbox == []
    ensures c.Stream() == c.buf
  {
  }

  lemma {:induction false} NextIs(s: Bytes)
    ensures |s| < 2 ==> Next(s) == None
    ensures |s| >= 2 && |s| < HeaderSize(s) ==> Next(s) == None
    ensures |s| >= 2 && |s| >= HeaderSize(s) ==>
              var off, n := HeaderSize(s), PayloadLength(s);
              Next(s) == if |s| < off + n then None else Some((s[0] % 16, s[off..off + n], s[off + n..]))
  {
    hide HeaderSize, PayloadLength;
  }

  lemma {:induction false} StartsWith(buf: Bytes, more: Bytes)
    requires |buf| >= 2
    ensures (buf + more)[0] == buf[0]
    ensures HeaderSize(buf + more) == if buf[1] % 128 == 126 then 4 else if buf[1] % 128 == 127 then 10 else 2
  {
  }

  lemma {:induction false} LengthIs(buf: Bytes, more: Bytes)
    requires |buf| >= 2 && |buf| >= HeaderSize(buf + more)
    ensures PayloadLength(buf + more) == if buf[1] % 128 == 126 then FromBig(buf[2..4])
                                         else if buf[1] % 128 == 127 then FromBig(buf[2..10])
                                         else buf[1] % 128
  {
    hide FromBig;
    StartsWith(buf, more);
    if buf[1] % 128 == 126 {
      assert (buf + more)[2..4] == buf[2..4];
    } else if buf[1] % 128 == 127 {
      assert (buf + more)[2..10] == buf[2..10];
    }
  }

  lemma {:induction false} Taken(buf: Bytes, more: Bytes, k: nat)
    requires k <= |buf|
    ensures (buf + more)[k..] == buf[k..] + more && forall i | 0 <= i <= k :: (buf + more)[i..k] == buf[i..k]
  {
  }

  /** Whatever a server sends in whatever pieces, the client receives exactly its frames. */
  method ReceiveInPieces(fs: seq<(nat, Bytes)>, deliveries: seq<Bytes>, leftover: Bytes)
    returns (got: seq<(nat, Bytes)>)
    requires forall i | 0 <= i < |fs| :: fs[i].0 < 16 && |fs[i].1| < LENGTH_LIMIT
    requires leftover + Flatten(deliveries) == ServerAll(fs) && forall i | 0 <= i < |deliveries| :: deliveries[i] != []
    ensures got == fs
  {
    var c := new Connection(leftover, deliveries);
    got := c.ReceiveAll();
    assert Next([]) == None;
    assert ServerAll(fs) + [] == ServerAll(fs);
    ServerAllReads(fs, []);
  }
}
