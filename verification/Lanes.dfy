/** Machine integers and the vector instructions the integer kernels use. A vector is the list of its lanes. */
module Lanes {

  type Vec = seq<int>

  function At(v: Vec, i: int): (x: int)
    ensures 0 <= i < |v| ==> x == v[i]
  {
    if 0 <= i < |v| then v[i] else 0
  }

  /** Two's complement wrap-around to 16 and 32 bits. */
  function Wrap16(x: int): int { (x + 0x8000) % 0x1_0000 - 0x8000 }

  function Wrap32(x: int): int { (x + 0x8000_0000) % 0x1_0000_0000 - 0x8000_0000 }

  /** Signed saturation to 16 bits. */
  function Sat16(x: int): int { if x > 32767 then 32767 else if x < -32768 then -32768 else x }

  /** Wrapping keeps the value modulo the power of two; saturation takes the nearest value in range. */
  lemma {:induction false} WrapsAndSaturates(x: int, q: int)
    ensures -32768 <= Wrap16(x) <= 32767 && (Wrap16(x) - x) % 65536 == 0
    ensures -2147483648 <= Wrap32(x) <= 2147483647 && (Wrap32(x) - x) % 4294967296 == 0
    ensures -32768 <= Sat16(x) <= 32767
    ensures -32768 <= q <= 32767 ==> x <= Sat16(x) <= q || q <= Sat16(x) <= x
  {
  }

  predicate IsI16(x: int) { -0x8000 <= x < 0x8000 }

  predicate IsI32(x: int) { -0x8000_0000 <= x < 0x8000_0000 }

  predicate IsI8(x: int) { -128 <= x <= 127 }

  predicate AreI8(x: Vec) { forall i | 0 <= i < |x| :: IsI8(x[i]) }

  predicate AreU8(x: Vec) { forall i | 0 <= i < |x| :: 0 <= x[i] <= 255 }

  lemma {:induction false} SliceI8(x: Vec, lo: nat, hi: nat)
    requires AreI8(x) && lo <= hi <= |x|
    ensures AreI8(x[lo..hi])
  {
    forall i | 0 <= i < hi - lo
      ensures IsI8(x[lo..hi][i])
    {
      assert x[lo..hi][i] == x[lo + i];
    }
  }

  lemma {:induction false} WrapSmall(x: int)
    ensures IsI16(x) ==> Wrap16(x) == x && Sat16(x) == x
    ensures IsI32(x) ==> Wrap32(x) == x
  {
  }

  /** maddubs: unsigned bytes times signed bytes, neighbours added with saturation. */
  function MaddUBS(u: Vec, s: Vec): (r: Vec)
    requires |u| == |s| && |u| % 2 == 0
    ensures |r| == |u| / 2
  {
    seq(|u| / 2, l requires 0 <= l < |u| / 2 => Sat16(u[2 * l] * s[2 * l] + u[2 * l + 1] * s[2 * l + 1]))
  }

  /** Lane-wise 16-bit addition. */
  function Add16(a: Vec, b: Vec): (r: Vec)
    requires |a| == |b|
    ensures |r| == |a|
  {
    seq(|a|, l requires 0 <= l < |a| => Wrap16(a[l] + b[l]))
  }

  /** madd with ones: neighbouring 16-bit lanes added into 32 bits. */
  function MaddOnes(a: Vec): (r: Vec)
    requires |a| % 2 == 0
    ensures |r| == |a| / 2
  {
    seq(|a| / 2, l requires 0 <= l < |a| / 2 => a[2 * l] + a[2 * l + 1])
  }

  /** Lane-wise 32-bit addition. */
  function Add32(a: Vec, b: Vec): (r: Vec)
    requires |a| == |b|
    ensures |r| == |a|
  {
    seq(|a|, l requires 0 <= l < |a| => Wrap32(a[l] + b[l]))
  }

  /** dpbusd: unsigned bytes times signed bytes, four at a time, onto 32-bit lanes. */
  function DpBusd(acc: Vec, u: Vec, s: Vec): (r: Vec)
    requires |u| == |s| == 4 * |acc|
    ensures |r| == |acc|
  {
    seq(|acc|, l requires 0 <= l < |acc| =>
      Wrap32(acc[l] + u[4 * l] * s[4 * l] + u[4 * l + 1] * s[4 * l + 1] + u[4 * l + 2] * s[4 * l + 2]
             + u[4 * l + 3] * s[4 * l + 3]))
  }

  function Zeros(n: nat): (r: Vec)
    ensures |r| == n && forall i | 0 <= i < n :: r[i] == 0
  {
    seq(n, _ => 0)
  }

  /** All 32-bit lanes added up, wrapping at every step. */
  function HSum(v: Vec): int {
    if v == [] then 0 else Wrap32(HSum(v[..|v| - 1]) + v[|v| - 1])
  }

  /** Bytes shifted right as 16-bit words and masked to two bits: what srli_epi16 and and_si256 leave of each byte. */
  function ShiftMask(w: Vec, d: int): (r: Vec)
    requires |w| % 2 == 0 && d > 0
    ensures |r| == |w|
  {
    seq(|w|, i requires 0 <= i < |w| =>
      var word := w[i / 2 * 2] + 256 * w[i / 2 * 2 + 1];
      var shifted := word / d;
      (if i % 2 == 0 then shifted % 256 else shifted / 256 % 256) % 4)
  }

  /** Bits that cross over from the neighbouring byte are masked away. */
  lemma {:induction false} ShiftMaskBytes(w: Vec, d: int, i: nat)
    requires |w| % 2 == 0 && AreU8(w) && i < |w| && (d == 1 || d == 4 || d == 16 || d == 64)
    ensures ShiftMask(w, d)[i] == w[i] / d % 4
  {
    WordBytes(w[i / 2 * 2], w[i / 2 * 2 + 1], d);
  }

  lemma {:induction false} WordBytes(lo: int, hi: int, d: int)
    requires 0 <= lo <= 255 && 0 <= hi <= 255 && (d == 1 || d == 4 || d == 16 || d == 64)
    ensures (lo + 256 * hi) / d % 256 % 4 == lo / d % 4
    ensures (lo + 256 * hi) / d / 256 % 256 % 4 == hi / d % 4
  {
    var m := if d == 1 then 256 else if d == 4 then 64 else if d == 16 then 16 else 4;
    WordShift(lo, hi, d, m);
    LowBits(lo / d, hi, m);
    SmallByte(hi, d);
  }

  lemma {:induction false} SmallByte(hi: int, d: int)
    requires 0 <= hi <= 255 && (d == 1 || d == 4 || d == 16 || d == 64)
    ensures hi / d % 256 == hi / d
  {
  }

  lemma {:induction false} LowBits(q: int, hi: int, m: int)
    requires m == 4 || m == 16 || m == 64 || m == 256
    ensures (q + m * hi) % 256 % 4 == q % 4
  {
    var x := q + m * hi;
    AddFours(x % 256, x / 256 * 64);
    assert x == x % 256 + 4 * (x / 256 * 64);
    AddFours(q, m / 4 * hi);
    assert m * hi == 4 * (m / 4 * hi);
  }

  lemma {:induction false} AddFours(b: int, k: int)
    ensures (b + 4 * k) % 4 == b % 4
  {
  }

  lemma {:induction false} WordShift(lo: int, hi: int, d: int, m: int)
    requires 0 <= lo <= 255 && 0 <= hi <= 255
    requires (d == 1 && m == 256) || (d == 4 && m == 64) || (d == 16 && m == 16) || (d == 64 && m == 4)
    ensures (lo + 256 * hi) / d == lo / d + m * hi && 0 <= lo / d < m && (lo / d + m * hi) / 256 == hi / d
  {
    if d == 1 {
    } else if d == 4 {
    } else if d == 16 {
    } else {
    }
  }
}
