/**
 The page checksum: the bitwise reflected CRC-32 that ties a physical page to the probe's metadata.
 The algebra is stated with the relation `IsXor` so that whole registers stay atomic in proofs.
 */
module Crc32 {

  /** One bit of the checksum. */
  function BitStep(crc: bv32): bv32 {
    (if crc & 1 == 1 then 0xEDB8_8320 else 0) ^ (crc >> 1)
  }

  function Steps(crc: bv32, n: nat): bv32
    decreases n
  {
    if n == 0 then crc else Steps(BitStep(crc), n - 1)
  }

  /** A byte folded into the low end of the register. */
  function Mix(crc: bv32, b: bv8): bv32 {
    crc ^ (b as bv32)
  }

  function ByteStep(crc: bv32, b: bv8): bv32 {
    Steps(Mix(crc, b), 8)
  }

  /** The register after the bytes of `s`, started at `crc`. */
  function Run(crc: bv32, s: seq<bv8>): bv32
    decreases |s|
  {
    if s == [] then crc else Run(ByteStep(crc, s[0]), s[1..])
  }

  const INITIAL: bv32 := 0xFFFF_FFFF

  function Crc(s: seq<bv8>): bv32 {
    Complement(Run(INITIAL, s))
  }

  function Complement(x: bv32): bv32 { !x }

  lemma MaskedStep(crc: bv32)
    ensures (crc >> 1) ^ (0xEDB8_8320 & (0 - (crc & 1))) == BitStep(crc)
  {
    assert crc & 1 == 0 || crc & 1 == 1;
  }

  lemma RunStep(crc: bv32, s: seq<bv8>, k: nat)
    requires k < |s|
    ensures Run(crc, s[k..]) == Run(ByteStep(crc, s[k]), s[k + 1..])
  {
    assert s[k..][1..] == s[k + 1..];
  }

  method ByteLoop(start: bv32, byte: bv8) returns (crc: bv32)
    ensures crc == ByteStep(start, byte)
  {
    crc := Mix(start, byte);
    for bit := 0 to 8
      invariant Steps(crc, 8 - bit) == ByteStep(start, byte)
    {
      MaskedStep(crc);
      var mask: bv32 := 0 - (crc & 1);
      crc := (crc >> 1) ^ (0xEDB8_8320 & mask);
    }
  }

  method PageCrc32(bytes: seq<bv8>) returns (r: bv32)
    ensures r == Crc(bytes)
  {
    var crc: bv32 := INITIAL;
    assert bytes[0..] == bytes;
    for k := 0 to |bytes|
      invariant Run(crc, bytes[k..]) == Run(INITIAL, bytes)
    {
      RunStep(crc, bytes, k);
      crc := ByteLoop(crc, bytes[k]);
    }
    assert bytes[|bytes|..] == [];
    r := Complement(crc);
  }

  // ---- linearity

  ghost predicate IsXor(a: bv32, b: bv32, c: bv32) { c == a ^ b }

  lemma ShiftXor(a: bv32, b: bv32)
    ensures (a ^ b) >> 1 == (a >> 1) ^ (b >> 1)
  {
  }

  lemma LowXor(a: bv32, b: bv32)
    ensures (a ^ b) & 1 == (a & 1) ^ (b & 1)
    ensures (a & 1 == 0 || a & 1 == 1) && (b & 1 == 0 || b & 1 == 1)
  {
  }

  lemma CancelXor(p: bv32, q: bv32, k: bv32)
    ensures (k ^ p) ^ (k ^ q) == p ^ q && (k ^ p) ^ q == k ^ (p ^ q) && p ^ (k ^ q) == k ^ (p ^ q)
    ensures 0 ^ p == p
  {
  }

  lemma BitStepXor(a: bv32, b: bv32, c: bv32)
    requires IsXor(a, b, c)
    ensures IsXor(BitStep(a), BitStep(b), BitStep(c))
  {
    ShiftXor(a, b);
    LowXor(a, b);
    CancelXor(a >> 1, b >> 1, 0xEDB8_8320);
    CancelXor(a >> 1, b >> 1, 0);
  }

  lemma {:induction false} StepsXor(a: bv32, b: bv32, c: bv32, n: nat)
    requires IsXor(a, b, c)
    ensures IsXor(Steps(a, n), Steps(b, n), Steps(c, n))
    decreases n
  {
    if n > 0 {
      BitStepXor(a, b, c);
      StepsXor(BitStep(a), BitStep(b), BitStep(c), n - 1);
    }
  }

  lemma MixOfXor(a: bv32, x: bv8, b: bv32, y: bv8)
    ensures IsXor(Mix(a, x), Mix(b, y), Mix(a ^ b, x ^ y))
  {
  }

  lemma MixXor(a: bv32, x: bv8, b: bv32, y: bv8, c: bv32, z: bv8)
    requires IsXor(a, b, c) && z == x ^ y
    ensures IsXor(Mix(a, x), Mix(b, y), Mix(c, z))
  {
    MixOfXor(a, x, b, y);
    assert c == a ^ b;
  }

  lemma ByteStepXor(a: bv32, x: bv8, b: bv32, y: bv8, c: bv32, z: bv8)
    requires IsXor(a, b, c) && z == x ^ y
    ensures IsXor(ByteStep(a, x), ByteStep(b, y), ByteStep(c, z))
  {
    MixXor(a, x, b, y, c, z);
    StepsXor(Mix(a, x), Mix(b, y), Mix(c, z), 8);
  }

  /** `z` is the byte-wise exclusive or of `x` and `y`. */
  ghost predicate XorOf(x: seq<bv8>, y: seq<bv8>, z: seq<bv8>) {
    |x| == |y| == |z| && forall i | 0 <= i < |z| :: z[i] == x[i] ^ y[i]
  }

  lemma {:induction false} RunXor(a: bv32, x: seq<bv8>, b: bv32, y: seq<bv8>, c: bv32, z: seq<bv8>)
    requires IsXor(a, b, c) && XorOf(x, y, z)
    ensures IsXor(Run(a, x), Run(b, y), Run(c, z))
    decreases |z|
  {
    if z != [] {
      ByteStepXor(a, x[0], b, y[0], c, z[0]);
      RunXor(ByteStep(a, x[0]), x[1..], ByteStep(b, y[0]), y[1..], ByteStep(c, z[0]), z[1..]);
    }
  }

  // ---- injectivity

  lemma BitStepInjective(a: bv32, b: bv32)
    requires BitStep(a) == BitStep(b)
    ensures a == b
  {
  }

  lemma {:induction false} StepsInjective(a: bv32, b: bv32, n: nat)
    requires Steps(a, n) == Steps(b, n)
    ensures a == b
    decreases n
  {
    if n > 0 {
      StepsInjective(BitStep(a), BitStep(b), n - 1);
      BitStepInjective(a, b);
    }
  }

  lemma MixInjective(a: bv32, b: bv32, x: bv8)
    requires Mix(a, x) == Mix(b, x)
    ensures a == b
  {
  }

  /** The byte step is injective in the register. */
  lemma ByteStepInjective(a: bv32, b: bv32, x: bv8)
    requires ByteStep(a, x) == ByteStep(b, x)
    ensures a == b
  {
    StepsInjective(Mix(a, x), Mix(b, x), 8);
    MixInjective(a, b, x);
  }

  /** Equal bytes never bring two different registers together again. */
  lemma {:induction false} RunInjective(a: bv32, b: bv32, s: seq<bv8>)
    requires Run(a, s) == Run(b, s)
    ensures a == b
    decreases |s|
  {
    if s != [] {
      RunInjective(ByteStep(a, s[0]), ByteStep(b, s[0]), s[1..]);
      ByteStepInjective(a, b, s[0]);
    }
  }

  lemma {:induction false} RunConcat(crc: bv32, s: seq<bv8>, t: seq<bv8>)
    ensures Run(crc, s + t) == Run(Run(crc, s), t)
    decreases |s|
  {
    if s == [] {
      assert s + t == t;
    } else {
      assert (s + t)[1..] == s[1..] + t;
      RunConcat(ByteStep(crc, s[0]), s[1..], t);
    }
  }

  // ---- eight steps move a register with a clear low byte right by eight bits

  ghost predicate Doubles(x: bv32, y: bv32) {
    x == y << 1 && y & 0x8000_0000 == 0
  }

  lemma DoubleStep(x: bv32, y: bv32)
    requires Doubles(x, y)
    ensures BitStep(x) == y
  {
  }

  ghost predicate DoublesDown(xs: seq<bv32>) {
    forall i | 0 < i < |xs| :: Doubles(xs[i - 1], xs[i])
  }

  lemma {:induction false} StepsDown(xs: seq<bv32>)
    requires xs != [] && DoublesDown(xs)
    ensures Steps(xs[0], |xs| - 1) == xs[|xs| - 1]
  {
    if |xs| > 1 {
      assert Doubles(xs[0], xs[1]);
      DoubleStep(xs[0], xs[1]);
      forall i | 0 < i < |xs[1..]| ensures Doubles(xs[1..][i - 1], xs[1..][i]) {
        assert Doubles(xs[i + 1 - 1], xs[i + 1]);
      }
      StepsDown(xs[1..]);
    }
  }

  lemma ShiftsDouble(y: bv32)
    requires y & 0xFF00_0000 == 0
    ensures Doubles(y << 8, y << 7) && Doubles(y << 7, y << 6) && Doubles(y << 6, y << 5)
    ensures Doubles(y << 5, y << 4) && Doubles(y << 4, y << 3) && Doubles(y << 3, y << 2)
    ensures Doubles(y << 2, y << 1) && Doubles(y << 1, y)
  {
  }

  lemma StepsShift(y: bv32)
    requires y & 0xFF00_0000 == 0
    ensures Steps(y << 8, 8) == y
  {
    ShiftsDouble(y);
    StepsDown([y << 8, y << 7, y << 6, y << 5, y << 4, y << 3, y << 2, y << 1, y]);
  }

  // ---- four consecutive bytes

  lemma BackStep(r: bv32, d: bv8, y: bv32)
    requires ByteStep(r, d) == y && y & 0xFF00_0000 == 0
    ensures Mix(r, d) == y << 8
  {
    StepsShift(y);
    StepsInjective(Mix(r, d), y << 8, 8);
  }

  lemma MixSolve(r: bv32, d: bv8, x: bv32)
    requires Mix(r, d) == x
    ensures r == Mix(x, d)
  {
  }

  lemma NarrowBits(y: bv32, d: bv8)
    ensures Mix(0, d) & 0xFFFF_FF00 == 0
    ensures y & 0xFFFF_FF00 == 0 ==> Mix(y << 8, d) & 0xFFFF_0000 == 0
    ensures y & 0xFFFF_0000 == 0 ==> Mix(y << 8, d) & 0xFF00_0000 == 0
  {
  }

  lemma MixZero(d: bv8, y: bv32)
    requires Mix(0, d) == y << 8 && y & 0xFF00_0000 == 0
    ensures d == 0 && y == 0
  {
  }

  lemma Narrower(y: bv32)
    ensures y & 0xFFFF_FF00 == 0 ==> y & 0xFFFF_0000 == 0
    ensures y & 0xFFFF_0000 == 0 ==> y & 0xFF00_0000 == 0
  {
  }

  lemma FourBytesZero(d0: bv8, d1: bv8, d2: bv8, d3: bv8, r1: bv32, r2: bv32, r3: bv32)
    requires r1 == ByteStep(0, d0) && r2 == ByteStep(r1, d1) && r3 == ByteStep(r2, d2)
    requires ByteStep(r3, d3) == 0
    ensures d0 == 0 && d1 == 0 && d2 == 0 && d3 == 0
  {
    BackStep(r3, d3, 0);
    MixSolve(r3, d3, 0);
    NarrowBits(0, d3);
    Narrower(r3);
    BackStep(r2, d2, r3);
    MixSolve(r2, d2, r3 << 8);
    NarrowBits(r3, d2);
    Narrower(r2);
    BackStep(r1, d1, r2);
    MixSolve(r1, d1, r2 << 8);
    NarrowBits(r2, d1);
    BackStep(0, d0, r1);
    MixZero(d0, r1);
    MixZero(d1, r2);
    MixZero(d2, r3);
    MixZero(d3, 0);
  }

  function Zeros(n: nat): (r: seq<bv8>)
    ensures |r| == n && forall i | 0 <= i < n :: r[i] == 0
  {
    if n == 0 then [] else [0 as bv8] + Zeros(n - 1)
  }

  lemma ZeroStep()
    ensures ByteStep(0, 0) == 0
  {
  }

  lemma {:induction false} RunZeros(n: nat)
    ensures Run(0, Zeros(n)) == 0
  {
    if n > 0 {
      ZeroStep();
      RunZeros(n - 1);
      assert Zeros(n)[1..] == Zeros(n - 1);
    }
  }

  lemma Unroll4(crc: bv32, d: seq<bv8>)
    requires |d| == 4
    ensures Run(crc, d) == ByteStep(ByteStep(ByteStep(ByteStep(crc, d[0]), d[1]), d[2]), d[3])
  {
    assert d == [d[0]] + [d[1]] + [d[2]] + [d[3]];
    RunConcat(crc, [d[0]] + [d[1]] + [d[2]], [d[3]]);
    RunConcat(crc, [d[0]] + [d[1]], [d[2]]);
    RunConcat(crc, [d[0]], [d[1]]);
    forall c: bv32, i | 0 <= i < 4 ensures Run(c, [d[i]]) == ByteStep(c, d[i]) {
      assert [d[i]][1..] == [];
    }
  }

  /** No nonzero difference of at most four bytes leaves a zero register zero. */
  lemma {:induction false} ShortDifference(d: seq<bv8>)
    requires |d| <= 4 && Run(0, d) == 0
    ensures forall i | 0 <= i < |d| :: d[i] == 0
    decreases 4 - |d|
  {
    if |d| == 4 {
      Unroll4(0, d);
      var r1 := ByteStep(0, d[0]);
      var r2 := ByteStep(r1, d[1]);
      var r3 := ByteStep(r2, d[2]);
      FourBytesZero(d[0], d[1], d[2], d[3], r1, r2, r3);
      forall i | 0 <= i < |d| ensures d[i] == 0 { assert i == 0 || i == 1 || i == 2 || i == 3; }
    } else {
      var e := [0 as bv8] + d;
      ZeroStep();
      assert e[1..] == d;
      ShortDifference(e);
      forall i | 0 <= i < |d| ensures d[i] == 0 { assert e[i + 1] == d[i]; }
    }
  }

  lemma SelfXor(a: bv32)
    ensures IsXor(a, a, 0)
  {
  }

  lemma ByteXorZero(x: bv8, y: bv8)
    requires x ^ y == 0
    ensures x == y
  {
  }

  /** Two short strings that take one register to the same register are equal. */
  lemma ShortInjective(crc: bv32, x: seq<bv8>, y: seq<bv8>)
    requires |x| == |y| <= 4 && Run(crc, x) == Run(crc, y)
    ensures x == y
  {
    var d := seq(|x|, i requires 0 <= i < |x| => x[i] ^ y[i]);
    SelfXor(crc);
    RunXor(crc, x, crc, y, 0, d);
    SelfXor(Run(crc, x));
    ShortDifference(d);
    forall i | 0 <= i < |x| ensures x[i] == y[i] {
      assert d[i] == 0;
      ByteXorZero(x[i], y[i]);
    }
  }

  lemma ComplementInjective(a: bv32, b: bv32)
    requires Complement(a) == Complement(b)
    ensures a == b
  {
  }

  /** The strings agree outside the four bytes from `k`. */
  ghost predicate DifferWithin(p: seq<bv8>, q: seq<bv8>, k: nat) {
    |p| == |q| && forall i | 0 <= i < |p| && !(k <= i < k + 4) :: p[i] == q[i]
  }

  lemma WindowInjective(a: seq<bv8>, x: seq<bv8>, y: seq<bv8>, z: seq<bv8>)
    requires |x| == |y| <= 4 && Crc(a + x + z) == Crc(a + y + z)
    ensures x == y
  {
    ComplementInjective(Run(INITIAL, a + x + z), Run(INITIAL, a + y + z));
    RunConcat(INITIAL, a + x, z);
    RunConcat(INITIAL, a + y, z);
    RunInjective(Run(INITIAL, a + x), Run(INITIAL, a + y), z);
    RunConcat(INITIAL, a, x);
    RunConcat(INITIAL, a, y);
    ShortInjective(Run(INITIAL, a), x, y);
  }

  /** Every corruption confined to four consecutive bytes changes the checksum. */
  lemma BurstDetected(p: seq<bv8>, q: seq<bv8>, k: nat)
    requires DifferWithin(p, q, k) && p != q
    ensures Crc(p) != Crc(q)
  {
    var n := |p|;
    var lo := if k <= n then k else n;
    var hi := if k + 4 <= n then k + 4 else n;
    assert p == p[..lo] + p[lo..hi] + p[hi..];
    assert q == p[..lo] + q[lo..hi] + p[hi..];
    if Crc(p) == Crc(q) { WindowInjective(p[..lo], p[lo..hi], q[lo..hi], p[hi..]); }
  }

  // ---- the table-driven form of section 8 of RFC 1952

  function TableEntry(n: bv8): bv32 { Steps(n as bv32, 8) }

  function LowByte(x: bv32): bv8 { (x & 0xFF) as bv8 }

  function TableStep(crc: bv32, b: bv8): bv32 {
    TableEntry(LowByte(Mix(crc, b))) ^ (crc >> 8)
  }

  function TableRun(crc: bv32, s: seq<bv8>): bv32
    decreases |s|
  {
    if s == [] then crc else TableRun(TableStep(crc, s[0]), s[1..])
  }

  lemma SplitLow(x: bv32)
    ensures IsXor(LowByte(x) as bv32, (x >> 8) << 8, x)
  {
  }

  lemma MixHigh(crc: bv32, b: bv8)
    ensures Mix(crc, b) >> 8 == crc >> 8
  {
  }

  lemma SplitSteps(crc: bv32, b: bv8, n: nat)
    requires Steps((crc >> 8) << 8, n) == crc >> 8
    ensures IsXor(Steps(LowByte(Mix(crc, b)) as bv32, n), crc >> 8, Steps(Mix(crc, b), n))
  {
    var x := Mix(crc, b);
    MixHigh(crc, b);
    SplitLow(x);
    StepsXor(LowByte(x) as bv32, (crc >> 8) << 8, x, n);
  }

  lemma TableStepXor(crc: bv32, b: bv8)
    ensures IsXor(TableEntry(LowByte(Mix(crc, b))), crc >> 8, ByteStep(crc, b))
  {
    HighClear(crc);
    StepsShift(crc >> 8);
    SplitSteps(crc, b, 8);
  }

  lemma XorValue(a: bv32, b: bv32, c: bv32)
    requires IsXor(a, b, c)
    ensures c == a ^ b
  {
  }

  lemma TableStepCorrect(crc: bv32, b: bv8)
    ensures ByteStep(crc, b) == TableStep(crc, b)
  {
    TableStepXor(crc, b);
    XorValue(TableEntry(LowByte(Mix(crc, b))), crc >> 8, ByteStep(crc, b));
  }

  lemma HighClear(x: bv32)
    ensures (x >> 8) & 0xFF00_0000 == 0
  {
  }

  /** The bitwise checksum is the table-driven one. */
  lemma {:induction false} TableDriven(crc: bv32, s: seq<bv8>)
    ensures Run(crc, s) == TableRun(crc, s)
    decreases |s|
  {
    if s != [] {
      TableStepCorrect(crc, s[0]);
      TableDriven(TableStep(crc, s[0]), s[1..]);
    }
  }

  // ---- affinity

  ghost predicate IsXor3(a: bv32, b: bv32, c: bv32, d: bv32) { d == a ^ b ^ c }

  lemma AffineBits(a: bv32, b: bv32, c: bv32)
    ensures Complement(a ^ b) == Complement(a) ^ Complement(b ^ c) ^ Complement(c)
  {
  }

  lemma AffineRelation(a: bv32, b: bv32, c: bv32, ab: bv32, bc: bv32)
    requires IsXor(a, b, ab) && IsXor(b, c, bc)
    ensures IsXor3(Complement(a), Complement(bc), Complement(c), Complement(ab))
  {
    AffineBits(a, b, c);
    assert ab == a ^ b && bc == b ^ c;
  }

  /** The checksum is affine over exclusive or. */
  lemma CrcAffine(x: seq<bv8>, y: seq<bv8>, z: seq<bv8>)
    requires XorOf(x, y, z)
    ensures IsXor3(Crc(x), Crc(y), Crc(Zeros(|z|)), Crc(z))
  {
    var zeros := Zeros(|z|);
    InitialUnit();
    RunXor(INITIAL, x, 0, y, INITIAL, z);
    XorZeros(y);
    RunXor(0, y, INITIAL, zeros, INITIAL, y);
    AffineRelation(Run(INITIAL, x), Run(0, y), Run(INITIAL, zeros), Run(INITIAL, z), Run(INITIAL, y));
  }

  lemma InitialUnit()
    ensures IsXor(INITIAL, 0, INITIAL) && IsXor(0, INITIAL, INITIAL)
  {
  }

  lemma XorZeros(y: seq<bv8>)
    ensures XorOf(y, Zeros(|y|), y)
  {
    forall i | 0 <= i < |y| ensures y[i] == y[i] ^ Zeros(|y|)[i] { ZeroIsUnit(y[i]); }
  }

  lemma ZeroIsUnit(x: bv8)
    ensures x == x ^ 0
  {
  }

  lemma ComplementXor(a: bv32, b: bv32, c: bv32)
    requires IsXor(a, b, c)
    ensures IsXor(Complement(a), b, Complement(c))
  {
  }

  /** A fixed difference changes every checksum by one constant. */
  lemma FixedDifference(x: seq<bv8>, d: seq<bv8>, z: seq<bv8>)
    requires XorOf(x, d, z)
    ensures Crc(z) == Crc(x) ^ Run(0, d)
  {
    InitialUnit();
    RunXor(INITIAL, x, 0, d, INITIAL, z);
    ComplementXor(Run(INITIAL, x), Run(0, d), Run(INITIAL, z));
  }

  /** The check value the source pins at compile time. */
  lemma CheckValue()
    ensures Crc([0x31, 0x32, 0x33, 0x34, 0x35, 0x36, 0x37, 0x38, 0x39]) == 0xCBF4_3926
  {
    assert ByteStep(0xFFFFFFFF, 0x31) == 0x7C231048;
    assert ByteStep(0x7C231048, 0x32) == 0xB0ACBB32;
    assert ByteStep(0xB0ACBB32, 0x33) == 0x77B79C2D;
    assert ByteStep(0x77B79C2D, 0x34) == 0x641C1F5C;
    assert ByteStep(0x641C1F5C, 0x35) == 0x340AC5E3;
    assert ByteStep(0x340AC5E3, 0x36) == 0xF68D2C9E;
    assert ByteStep(0xF68D2C9E, 0x37) == 0xAFFC9660;
    assert ByteStep(0xAFFC9660, 0x38) == 0x651F2550;
    assert ByteStep(0x651F2550, 0x39) == 0x340BC6D9;
  }
}
