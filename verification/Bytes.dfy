/** Bytes, powers of two, and bit strings read low bit first. */
module Bytes {

  type byte = x: int | 0 <= x < 256

  function Pow2(n: nat): (r: nat)
    ensures r >= 1
  {
    if n == 0 then 1 else 2 * Pow2(n - 1)
  }

  lemma {:induction false} Pow2Monotone(a: nat, b: nat)
    requires a <= b
    ensures Pow2(a) <= Pow2(b)
    ensures a < b ==> 2 * Pow2(a) <= Pow2(b)
    decreases b
  {
    if a < b { Pow2Monotone(a, b - 1); }
  }

  /** Number of binary digits of `n`. */
  function BitLength(n: nat): nat {
    if n == 0 then 0 else 1 + BitLength(n / 2)
  }

  lemma {:induction false} BitLengthBounds(n: nat)
    ensures n < Pow2(BitLength(n))
    ensures n > 0 ==> BitLength(n) > 0 && Pow2(BitLength(n) - 1) <= n
  {
    if n > 0 { BitLengthBounds(n / 2); }
  }

  lemma {:induction false} BitLengthUnique(n: nat, w: nat)
    requires w > 0 && Pow2(w - 1) <= n < Pow2(w)
    ensures BitLength(n) == w
  {
    BitLengthBounds(n);
    var l := BitLength(n);
    if l < w { Pow2Monotone(l, w - 1); }
    if l > w { Pow2Monotone(w, l - 1); }
  }

  /** The number a bit string stands for, low bit first. */
  function Value(bits: seq<bool>): nat {
    if bits == [] then 0 else (if bits[0] then 1 else 0) + 2 * Value(bits[1..])
  }

  /** The low `w` bits of `v`, low bit first. */
  function CodeBits(v: nat, w: nat): (r: seq<bool>)
    ensures |r| == w
  {
    if w == 0 then [] else [v % 2 == 1] + CodeBits(v / 2, w - 1)
  }

  lemma {:induction false} ValueOfCodeBits(v: nat, w: nat)
    requires v < Pow2(w)
    ensures Value(CodeBits(v, w)) == v
  {
    if w > 0 {
      ValueOfCodeBits(v / 2, w - 1);
      assert CodeBits(v, w)[1..] == CodeBits(v / 2, w - 1);
    }
  }

  lemma {:induction false} CodeBitsOfValue(bits: seq<bool>)
    ensures Value(bits) < Pow2(|bits|)
    ensures CodeBits(Value(bits), |bits|) == bits
  {
    if bits != [] {
      CodeBitsOfValue(bits[1..]);
      assert Value(bits) / 2 == Value(bits[1..]);
    }
  }

  lemma {:induction false} ValueSnoc(bits: seq<bool>, b: bool)
    ensures Value(bits + [b]) == Value(bits) + (if b then Pow2(|bits|) else 0)
  {
    if bits != [] {
      ValueSnoc(bits[1..], b);
      assert (bits + [b])[1..] == bits[1..] + [b];
    }
  }

  /** Bit `k` of byte `b`: `(b >> k) & 1`. */
  predicate Bit(b: byte, k: nat) {
    b / Pow2(k) % 2 == 1
  }

  /** The payload as one bit string, low bit of the first byte first. */
  function BitsOf(payload: seq<byte>): (r: seq<bool>)
    ensures |r| == 8 * |payload|
  {
    if payload == [] then [] else CodeBits(payload[0], 8) + BitsOf(payload[1..])
  }

  lemma {:induction false} BitsOfAt(payload: seq<byte>, i: nat)
    requires i < 8 * |payload|
    ensures BitsOf(payload)[i] == Bit(payload[i / 8], i % 8)
  {
    if i < 8 {
      CodeBitsAt(payload[0], 8, i);
    } else {
      BitsOfAt(payload[1..], i - 8);
      assert (i - 8) / 8 == i / 8 - 1 && (i - 8) % 8 == i % 8;
    }
  }

  /** Bits packed into bytes low bit first, the last byte padded with zeros. */
  function PackBytes(bits: seq<bool>): (r: seq<byte>)
    decreases |bits|
  {
    if bits == [] then []
    else
      var head := if |bits| >= 8 then bits[..8] else bits;
      CodeBitsOfValue(head);
      Pow2Monotone(|head|, 8);
      assert Pow2(8) == 256;
      [Value(head)] + PackBytes(if |bits| >= 8 then bits[8..] else [])
  }

  lemma {:induction false} CodeBitsAt(v: nat, w: nat, k: nat)
    requires k < w
    ensures CodeBits(v, w)[k] == (v / Pow2(k) % 2 == 1)
  {
    if k > 0 {
      CodeBitsAt(v / 2, w - 1, k - 1);
      DivDiv(v, Pow2(k - 1));
    }
  }

  lemma DivDiv(v: nat, p: nat)
    requires p > 0
    ensures v / 2 / p == v / (2 * p)
  {
    var q := v / 2 / p;
    assert v / 2 == q * p + v / 2 % p;
    assert v == 2 * (q * p + v / 2 % p) + v % 2;
    assert v == q * (2 * p) + (2 * (v / 2 % p) + v % 2);
    DivUnique(v, 2 * p, q, 2 * (v / 2 % p) + v % 2);
  }

  lemma SmallMultiple(k: int, d: int)
    ensures -d < k * d < d ==> k == 0
  {
  }

  lemma DivUnique(v: int, d: nat, q: int, r: nat)
    requires r < d && v == q * d + r
    ensures v / d == q && v % d == r
  {
    SmallMultiple(v / d - q, d);
  }

  lemma {:induction false} CodeBitsPad(v: nat, w: nat, n: nat)
    requires v < Pow2(w) && w <= n
    ensures CodeBits(v, w) <= CodeBits(v, n)
  {
    if w > 0 { CodeBitsPad(v / 2, w - 1, n - 1); }
  }

  /** Unpacking returns the packed bits, followed only by padding. */
  lemma {:induction false} UnpackPacked(bits: seq<bool>)
    ensures bits <= BitsOf(PackBytes(bits))
    decreases |bits|
  {
    if bits != [] {
      var head := if |bits| >= 8 then bits[..8] else bits;
      var tail := if |bits| >= 8 then bits[8..] else [];
      assert bits == head + tail;
      CodeBitsOfValue(head);
      Pow2Monotone(|head|, 8);
      assert Pow2(8) == 256;
      UnpackPacked(tail);
      CodeBitsPad(Value(head), |head|, 8);
      assert PackBytes(bits)[1..] == PackBytes(tail);
    }
  }

  // ---- bytes at an offset

  /** The bytes `s` stand at offset `at`. */
  predicate At(d: seq<byte>, at: nat, s: seq<byte>) {
    at + |s| <= |d| && forall k | 0 <= k < |s| :: s[k] == d[at + k]
  }

  lemma AtAppend(d: seq<byte>, at: nat, a: seq<byte>, b: seq<byte>)
    ensures At(d, at, a + b) <==> At(d, at, a) && At(d, at + |a|, b)
  {
    var s := a + b;
    if At(d, at, s) {
      assert forall k | 0 <= k < |a| :: a[k] == s[k];
      assert forall k | 0 <= k < |b| :: b[k] == s[|a| + k];
    }
  }

  lemma AtSlice(d: seq<byte>, at: nat, s: seq<byte>)
    ensures At(d, at, s) <==> at + |s| <= |d| && d[at..at + |s|] == s
  {
    if at + |s| <= |d| {
      var slice := d[at..at + |s|];
      assert forall k | 0 <= k < |s| :: slice[k] == d[at + k];
    }
  }

  lemma AtOne(d: seq<byte>, at: nat, x: byte)
    ensures At(d, at, [x]) <==> at < |d| && d[at] == x
  {
    assert [x][0] == x;
  }

  lemma AtTwo(d: seq<byte>, at: nat, x: byte, y: byte)
    ensures At(d, at, [x, y]) <==> at + 2 <= |d| && d[at] == x && d[at + 1] == y
  {
    assert [x, y][0] == x && [x, y][1] == y;
  }

  // ---- little-endian words

  function Word16(d: seq<byte>, o: nat): (r: nat)
    requires o + 2 <= |d|
    ensures r < 0x1_0000
  {
    (d[o] as nat) + 0x100 * (d[o + 1] as nat)
  }

  function Word32(d: seq<byte>, o: nat): (r: nat)
    requires o + 4 <= |d|
    ensures r < 0x1_0000_0000
  {
    Word16(d, o) + 0x1_0000 * Word16(d, o + 2)
  }

  // ---- ranges

  /** `n` consecutive numbers from `from` on. */
  function Range(from: nat, n: nat): (r: seq<nat>)
    ensures |r| == n
  {
    if n == 0 then [] else Range(from, n - 1) + [from + n - 1]
  }

  lemma {:induction false} RangeAt(from: nat, n: nat, k: nat)
    requires k < n
    ensures Range(from, n)[k] == from + k
  {
    if k < n - 1 { RangeAt(from, n - 1, k); }
  }
}
