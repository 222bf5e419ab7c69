/**
 PE headers of a loaded kernel image: "equal to the packaged image except for the ImageBase the loader
 wrote", as the exporter decides it in C++ and as the validator decides it again in Python.
 */
module PeHeader {
  import opened Bytes
  import opened Wrappers

  type Header = seq<byte>

  // ---- little-endian fields

  function U64(s: Header, o: nat): (r: nat)
    requires o + 8 <= |s|
    ensures r < 0x1_0000_0000_0000_0000
  {
    Word32(s, o) + 0x1_0000_0000 * Word32(s, o + 4)
  }

  function Read16(s: Header, o: nat): Option<nat> {
    if o > |s| || |s| - o < 2 then None else Some(Word16(s, o))
  }

  function Read32(s: Header, o: nat): Option<nat> {
    if o > |s| || |s| - o < 4 then None else Some(Word32(s, o))
  }

  function Or(x: Option<nat>, default: nat): nat {
    if x.Some? then x.value else default
  }

  /** 32-bit unsigned addition. */
  function Add32(a: nat, b: nat): nat { (a + b) % 0x1_0000_0000 }

  // ---- the exporter

  /** Length of the header area, when the header is a well-formed PE32+ header of bounded length. */
  function PeHeaderSpan(s: Header): Option<nat> {
    var pe := Read32(s, 0x3C);
    if pe.None? || pe.value > |s| || |s| - pe.value < 24 || Or(Read32(s, pe.value), 0) != 0x4550 then None
    else
      var sections := Read16(s, Add32(pe.value, 6));
      var optionalSize := Read16(s, Add32(pe.value, 20));
      var optional := pe.value + 24;
      if sections.None? || optionalSize.None? || sections.value == 0 || optionalSize.value < 64 ||
         Or(Read16(s, optional), 0) != 0x20B then None
      else
        var sizeOfHeaders := Read32(s, optional + 60);
        var tableEnd := optional + optionalSize.value + sections.value * 40;
        if sizeOfHeaders.None? || sizeOfHeaders.value < 256 || sizeOfHeaders.value > 4096 ||
           sizeOfHeaders.value > |s| || tableEnd > sizeOfHeaders.value then None
        else Some(sizeOfHeaders.value)
  }

  /** The same condition, as one conjunction over the header's fields. */
  ghost predicate WellFormed(s: Header, pe: nat, n: nat) {
    && 64 <= |s| && pe == Word32(s, 0x3C) && pe + 128 <= n <= |s| && 256 <= n <= 4096
    && Word32(s, pe) == 0x4550 && Word16(s, pe + 24) == 0x20B
    && Word16(s, pe + 6) > 0 && Word16(s, pe + 20) >= 64
    && Word32(s, pe + 84) == n
    && pe + 24 + Word16(s, pe + 20) + Word16(s, pe + 6) * 40 <= n
  }

  lemma SpanSound(s: Header, n: nat)
    requires PeHeaderSpan(s) == Some(n)
    ensures |s| >= 64 && WellFormed(s, Word32(s, 0x3C), n)
  {
  }

  lemma SpanExact(s: Header, n: nat)
    ensures PeHeaderSpan(s) == Some(n) <==> |s| >= 64 && WellFormed(s, Word32(s, 0x3C), n)
  {
    if PeHeaderSpan(s) == Some(n) { SpanSound(s, n); }
  }

  datatype Comparison = Comparison(span: nat, imageBaseOffset: nat, liveImageBase: nat, localImageBase: nat)

  predicate InImageBase(i: int, offset: nat) { offset <= i < offset + 8 }

  /** The eight bytes accumulated low byte first. */
  method Read64(s: Header, o: nat) returns (r: Option<nat>)
    ensures r == if o + 8 <= |s| then Some(U64(s, o)) else None
  {
    if o > |s| || |s| - o < 8 { return None; }
    var value, unit := 0, 1;
    for index := 0 to 8
      invariant unit == Shift(index) && value == Partial(s, o, index)
    {
      // `value |= byte << (index * 8)`: the bits from there upward are still clear
      value := value + unit * (s[o + index] as int);
      unit := 256 * unit;
    }
    PartialWhole(s, o);
    return Some(value);
  }

  ghost function Shift(k: nat): nat { if k == 0 then 1 else 256 * Shift(k - 1) }

  ghost function Partial(s: Header, o: nat, k: nat): int
    requires o + k <= |s|
  {
    if k == 0 then 0 else Partial(s, o, k - 1) + Shift(k - 1) * (s[o + k - 1] as int)
  }

  lemma PartialWhole(s: Header, o: nat)
    requires o + 8 <= |s|
    ensures Partial(s, o, 8) == U64(s, o)
  {
    assert Shift(0) == 1 && Shift(1) == 0x100 && Shift(2) == 0x1_0000 && Shift(3) == 0x100_0000;
    assert Shift(4) == 0x1_0000_0000 && Shift(5) == 0x100_0000_0000;
    assert Shift(6) == 0x1_0000_0000_0000 && Shift(7) == 0x100_0000_0000_0000;
    assert Partial(s, o, 0) == 0;
    PartialStep(s, o, 1);
    PartialStep(s, o, 2);
    PartialStep(s, o, 3);
    PartialStep(s, o, 4);
    PartialStep(s, o, 5);
    PartialStep(s, o, 6);
    PartialStep(s, o, 7);
    PartialStep(s, o, 8);
  }

  lemma PartialStep(s: Header, o: nat, k: nat)
    requires 0 < k && o + k <= |s|
    ensures Partial(s, o, k) == Partial(s, o, k - 1) + Shift(k - 1) * (s[o + k - 1] as int)
  {
  }

  /** The live header is the local one except for an ImageBase that is the module's base. */
  ghost predicate SameButBase(live: Header, local: Header, base: nat, pe: nat, n: nat)
    requires pe + 56 <= n <= |live| && n <= |local|
  {
    && U64(live, pe + 48) == base
    && forall i | 0 <= i < n && !InImageBase(i, pe + 48) :: live[i] == local[i]
  }

  /** The comparison accepts, with header length `n`. */
  ghost predicate Accepted(live: Header, local: Header, base: nat, n: nat) {
    && PeHeaderSpan(live) == Some(n) && PeHeaderSpan(local) == Some(n)
    && |live| >= 64 && |local| >= 64 && Word32(live, 0x3C) == Word32(local, 0x3C)
    && Word32(local, 0x3C) + 56 <= n <= |live| && n <= |local|
    && SameButBase(live, local, base, Word32(local, 0x3C), n)
  }

  method CompareLoadedPeHeaders(live: Header, local: Header, base: nat) returns (r: Option<Comparison>)
    ensures r.None? ==> forall n: nat :: !Accepted(live, local, base, n)
    ensures r.Some? ==>
              && Accepted(live, local, base, r.value.span)
              && r.value.imageBaseOffset == Word32(local, 0x3C) + 48
              && r.value.liveImageBase == base
              && r.value.localImageBase == U64(local, Word32(local, 0x3C) + 48)
  {
    var liveSpan, localSpan := PeHeaderSpan(live), PeHeaderSpan(local);
    if liveSpan.None? || liveSpan != localSpan { return None; }
    var n := localSpan.value;
    SpanExact(live, n);
    SpanExact(local, n);
    var livePe, localPe := Read32(live, 0x3C), Read32(local, 0x3C);
    if livePe.None? || livePe != localPe { return None; }
    // the guard on the room for ImageBase cannot fire: a well-formed header has 128 bytes from `pe`
    assert localPe.value + 56 <= n;
    var offset := localPe.value + 24 + 24;
    var liveBase := Read64(live, offset);
    var localBase := Read64(local, offset);
    if liveBase.None? || localBase.None? || liveBase.value != base { return None; }
    for index := 0 to n
      invariant forall i | 0 <= i < index && !InImageBase(i, offset) :: live[i] == local[i]
    {
      var loaderByte := index >= offset && index < offset + 8;
      if !loaderByte && live[index] != local[index] { return None; }
    }
    return Some(Comparison(n, offset, liveBase.value, localBase.value));
  }

  // ---- what acceptance means

  /** `local` with the eight bytes at `offset` replaced. */
  function Patch(local: Header, offset: nat, bytes: seq<byte>): (r: Header)
    requires offset + 8 <= |local| && |bytes| == 8
    ensures |r| == |local|
  {
    local[..offset] + bytes + local[offset + 8..]
  }

  lemma Halves(a: nat, b: nat, c: nat, d: nat)
    requires a < 0x1_0000_0000 && c < 0x1_0000_0000 && a + 0x1_0000_0000 * b == c + 0x1_0000_0000 * d
    ensures a == c && b == d
  {
  }

  lemma U64Unique(x: Header, y: Header, o: nat, p: nat)
    requires o + 8 <= |x| && p + 8 <= |y| && U64(x, o) == U64(y, p)
    ensures x[o..o + 8] == y[p..p + 8]
  {
    Halves(Word32(x, o), Word32(x, o + 4), Word32(y, p), Word32(y, p + 4));
    U32Unique(x, y, o, p);
    U32Unique(x, y, o + 4, p + 4);
    assert x[o..o + 8] == x[o..o + 4] + x[o + 4..o + 4 + 4];
    assert y[p..p + 8] == y[p..p + 4] + y[p + 4..p + 4 + 4];
  }

  lemma U32Unique(x: Header, y: Header, o: nat, p: nat)
    requires o + 4 <= |x| && p + 4 <= |y| && Word32(x, o) == Word32(y, p)
    ensures x[o..o + 4] == y[p..p + 4]
  {
    U16Unique(x, y, o, p);
    U16Unique(x, y, o + 2, p + 2);
    assert x[o..o + 4] == [x[o], x[o + 1], x[o + 2], x[o + 3]];
    assert y[p..p + 4] == [y[p], y[p + 1], y[p + 2], y[p + 3]];
  }

  lemma U16Unique(x: Header, y: Header, o: nat, p: nat)
    requires o + 2 <= |x| && p + 2 <= |y| && Word16(x, o) == Word16(y, p)
    ensures x[o] == y[p] && x[o + 1] == y[p + 1]
  {
  }

  lemma U64Cong(x: Header, y: Header, o: nat, p: nat)
    requires o + 8 <= |x| && p + 8 <= |y| && x[o..o + 8] == y[p..p + 8]
    ensures U64(x, o) == U64(y, p)
  {
    var a, b := x[o..o + 8], y[p..p + 8];
    assert a[0] == x[o] && a[1] == x[o + 1] && a[2] == x[o + 2] && a[3] == x[o + 3];
    assert a[4] == x[o + 4] && a[5] == x[o + 5] && a[6] == x[o + 6] && a[7] == x[o + 7];
    assert b[0] == y[p] && b[1] == y[p + 1] && b[2] == y[p + 2] && b[3] == y[p + 3];
    assert b[4] == y[p + 4] && b[5] == y[p + 5] && b[6] == y[p + 6] && b[7] == y[p + 7];
  }

  /** An accepted header is the local one with its eight ImageBase bytes replaced by the module base. */
  lemma AcceptedIsPatched(live: Header, local: Header, base: nat, n: nat, bytes: seq<byte>)
    requires Accepted(live, local, base, n)
    requires |bytes| == 8 && U64(bytes, 0) == base
    ensures live[..n] == Patch(local[..n], Word32(local, 0x3C) + 48, bytes)
  {
    var o := Word32(local, 0x3C) + 48;
    U64Unique(live, bytes, o, 0);
    assert bytes[0..8] == bytes;
    assert live[..o] == local[..n][..o];
    assert live[o + 8..n] == local[..n][o + 8..];
    assert live[..n] == live[..o] + live[o..o + 8] + live[o + 8..n];
  }

  /** The headers agree below `n` outside the ImageBase bytes. */
  ghost predicate AgreeBut(x: Header, y: Header, pe: nat, n: nat) {
    && n <= |x| && n <= |y|
    && forall i | 0 <= i < n && !InImageBase(i, pe + 48) :: x[i] == y[i]
  }

  /** ImageBase lies apart from every other field the parsers look at, except possibly the offset field. */
  lemma FieldsAgree(x: Header, y: Header, pe: nat, n: nat)
    requires AgreeBut(x, y, pe, n) && pe + 88 <= n
    ensures Word32(x, pe) == Word32(y, pe)
    ensures Word16(x, pe + 4) == Word16(y, pe + 4) && Word16(x, pe + 6) == Word16(y, pe + 6)
    ensures Word32(x, pe + 8) == Word32(y, pe + 8) && Word16(x, pe + 20) == Word16(y, pe + 20)
    ensures Word16(x, pe + 24) == Word16(y, pe + 24)
    ensures Word32(x, pe + 80) == Word32(y, pe + 80) && Word32(x, pe + 84) == Word32(y, pe + 84)
  {
  }

  lemma WellFormedAgree(x: Header, y: Header, pe: nat, n: nat)
    requires WellFormed(x, pe, n) && AgreeBut(x, y, pe, n) && |y| >= 64 && Word32(y, 0x3C) == pe
    ensures WellFormed(y, pe, n)
  {
    FieldsAgree(x, y, pe, n);
  }

  lemma PatchAgrees(local: Header, offset: nat, bytes: seq<byte>)
    requires offset + 8 <= |local| && |bytes| == 8
    ensures var live := Patch(local, offset, bytes);
            && (forall i | 0 <= i < |local| && !InImageBase(i, offset) :: live[i] == local[i])
            && live[offset..offset + 8] == bytes
  {
  }

  lemma SpanAgrees(x: Header, y: Header, pe: nat, n: nat)
    requires WellFormed(x, pe, n) && AgreeBut(x, y, pe, n) && |y| >= 64 && Word32(y, 0x3C) == pe
    ensures PeHeaderSpan(y) == Some(n)
  {
    WellFormedAgree(x, y, pe, n);
    SpanExact(y, n);
  }

  /** Byte for byte within the span: the live header is the patched local one. */
  ghost predicate IsPatched(live: Header, local: Header, n: nat, bytes: seq<byte>)
    requires n <= |local| && |local| >= 64 && Word32(local, 0x3C) + 56 <= n && |bytes| == 8
  {
    n <= |live| && live[..n] == Patch(local[..n], Word32(local, 0x3C) + 48, bytes)
  }

  lemma PatchedAgrees(live: Header, local: Header, n: nat, bytes: seq<byte>)
    requires n <= |local| && |local| >= 64 && Word32(local, 0x3C) + 56 <= n && |bytes| == 8
    requires IsPatched(live, local, n, bytes)
    ensures var o := Word32(local, 0x3C) + 48;
            AgreeBut(local, live, Word32(local, 0x3C), n) && live[o..o + 8] == bytes
  {
    var o, cut := Word32(local, 0x3C) + 48, live[..n];
    PatchAgrees(local[..n], o, bytes);
    forall i | 0 <= i < n && !InImageBase(i, o) ensures local[i] == live[i] {
      assert cut[i] == local[..n][i];
    }
    assert live[o..o + 8] == cut[o..o + 8];
  }

  lemma PatchedIsAccepted(live: Header, local: Header, base: nat, n: nat, bytes: seq<byte>)
    requires PeHeaderSpan(local) == Some(n) && |bytes| == 8 && U64(bytes, 0) == base
    requires |local| >= 64 && Word32(local, 0x3C) + 128 <= n <= |local|
    requires IsPatched(live, local, n, bytes) && |live| >= 64 && Word32(live, 0x3C) == Word32(local, 0x3C)
    ensures Accepted(live, local, base, n)
  {
    var pe := Word32(local, 0x3C);
    SpanExact(local, n);
    PatchedAgrees(live, local, n, bytes);
    SpanAgrees(local, live, pe, n);
    assert bytes[0..8] == bytes;
    U64Cong(live, bytes, pe + 48, 0);
  }

  /**
   For every live header, whatever follows its span: it is accepted if and only if its span is the
   patched local one and the patch leaves the offset field at 0x3C unchanged.
   */
  lemma PatchedAccepted(live: Header, local: Header, base: nat, n: nat, bytes: seq<byte>)
    requires PeHeaderSpan(local) == Some(n) && |bytes| == 8 && U64(bytes, 0) == base
    ensures |local| >= 64 && Word32(local, 0x3C) + 128 <= n <= |local|
    ensures Accepted(live, local, base, n) <==>
            IsPatched(live, local, n, bytes) && |live| >= 64 && Word32(live, 0x3C) == Word32(local, 0x3C)
  {
    SpanExact(local, n);
    if Accepted(live, local, base, n) { AcceptedIsPatched(live, local, base, n, bytes); }
    if IsPatched(live, local, n, bytes) && |live| >= 64 && Word32(live, 0x3C) == Word32(local, 0x3C) {
      PatchedIsAccepted(live, local, base, n, bytes);
    }
  }

  /** So where ImageBase does not overlap the offset field, accepted means patched. */
  lemma PatchedApartAccepted(live: Header, local: Header, base: nat, n: nat, bytes: seq<byte>)
    requires PeHeaderSpan(local) == Some(n) && |bytes| == 8 && U64(bytes, 0) == base
    requires |local| >= 64 && (Word32(local, 0x3C) + 48 >= 0x40 || Word32(local, 0x3C) + 56 <= 0x3C)
    ensures Word32(local, 0x3C) + 128 <= n <= |local|
    ensures Accepted(live, local, base, n) <==> IsPatched(live, local, n, bytes)
  {
    PatchedAccepted(live, local, base, n, bytes);
    if IsPatched(live, local, n, bytes) {
      PatchedAgrees(live, local, n, bytes);
      assert Word32(live, 0x3C) == Word32(local, 0x3C);
    }
  }

  /** A header whose ImageBase, at 56, overlaps the offset field at 60. */
  function Overlapping(): Header {
    seq(256, i => if i == 0x3C then 8 else if i == 8 then 0x50 else if i == 9 then 0x45
                  else if i == 14 then 1 else if i == 28 then 64 else if i == 32 then 0x0B
                  else if i == 33 then 2 else if i == 93 then 1 else 0)
  }

  /** A kernel base, 0xFFFF_F800_0000_0000, as the loader writes it. */
  const KERNEL_BASE: seq<byte> := [0, 0, 0, 0, 0, 0xF8, 0xFF, 0xFF]

  /** There the loader's patch moves the header itself: loaded at a kernel base, it is rejected. */
  lemma OverlapRejected()
    ensures PeHeaderSpan(Overlapping()) == Some(256) && Word32(Overlapping(), 0x3C) + 48 == 56
    ensures U64(KERNEL_BASE, 0) == 0xFFFF_F800_0000_0000
    ensures !Accepted(Patch(Overlapping(), 56, KERNEL_BASE), Overlapping(), 0xFFFF_F800_0000_0000, 256)
  {
    var s := Overlapping();
    assert Word32(s, 0x3C) == 8 && Word32(s, 8) == 0x4550 && Word16(s, 14) == 1 && Word16(s, 28) == 64;
    assert Word16(s, 32) == 0x20B && Word32(s, 92) == 256;
    SpanExact(s, 256);
    assert Word32(Patch(s, 56, KERNEL_BASE), 0x3C) == 0xFFFF_F800;
  }

  /** A well-formed header has room for ImageBase: the comparison's own room check never fires. */
  lemma RoomForImageBase(s: Header, n: nat)
    requires PeHeaderSpan(s) == Some(n)
    ensures |s| >= 64 && Word32(s, 0x3C) <= n && n - Word32(s, 0x3C) >= 24 + 24 + 8
  {
    SpanExact(s, n);
  }

  /** Cutting a header to its span recomputes the same span. */
  lemma TruncationStable(s: Header, n: nat)
    requires PeHeaderSpan(s) == Some(n)
    ensures n <= |s| && PeHeaderSpan(s[..n]) == Some(n)
  {
    SpanExact(s, n);
    WellFormedAgree(s, s[..n], Word32(s, 0x3C), n);
    SpanExact(s[..n], n);
  }

  // ---- the validator

  datatype Parsed = Parsed(pe: nat, machine: nat, timestamp: nat, imageSize: nat, offset: nat, base: nat)

  function ParseHeader(v: Header): Option<Parsed> {
    if |v| < 64 || v[..2] != [0x4D, 0x5A] then None
    else
      var pe := Word32(v, 0x3C);
      if pe + 24 > |v| || v[pe..pe + 4] != [0x50, 0x45, 0, 0] then None
      else
        var sections := Word16(v, pe + 6);
        var optionalSize := Word16(v, pe + 20);
        var optional := pe + 24;
        if optionalSize < 68 || optional + optionalSize > |v| || Word16(v, optional) != 0x20B then None
        else if Word32(v, optional + 60) != |v| || optional + optionalSize + sections * 40 > |v| then None
        else Some(Parsed(pe, Word16(v, pe + 4), Word32(v, pe + 8), Word32(v, optional + 56), optional + 24,
                         U64(v, optional + 24)))
  }

  /** What the analysis record says about the module. */
  datatype Claim = Claim(imageBaseOffset: nat, liveImageBase: nat, localImageBase: nat, moduleBase: Option<nat>,
                         machine: nat, timestamp: nat, imageSize: nat)

  function Zeroed(v: Header, offset: nat): Header
    requires offset + 8 <= |v|
  {
    v[..offset] + [0, 0, 0, 0, 0, 0, 0, 0] + v[offset + 8..]
  }

  /** The validator's comparison of two captured headers. */
  predicate ValidatorAccepts(live: Header, local: Header, c: Claim) {
    && ParseHeader(live).Some? && ParseHeader(local).Some?
    && var a, b := ParseHeader(live).value, ParseHeader(local).value;
    && a.pe == b.pe && a.machine == b.machine && a.timestamp == b.timestamp
    && a.imageSize == b.imageSize && a.offset == b.offset
    && c.imageBaseOffset == a.offset && c.liveImageBase == a.base && c.localImageBase == b.base
    && (c.moduleBase.Some? ==> a.base == c.moduleBase.value)
    && a.machine == c.machine && a.timestamp == c.timestamp && a.imageSize == c.imageSize
    && Zeroed(live, a.offset) == Zeroed(local, a.offset)
  }

  lemma SignatureBytes(v: Header, pe: nat)
    requires pe + 4 <= |v|
    ensures v[pe..pe + 4] == [0x50, 0x45, 0, 0] <==> Word32(v, pe) == 0x4550
  {
    assert v[pe..pe + 4] == [v[pe], v[pe + 1], v[pe + 2], v[pe + 3]];
  }

  lemma ZeroedEqual(live: Header, local: Header, offset: nat)
    requires |live| == |local| && offset + 8 <= |live|
    ensures Zeroed(live, offset) == Zeroed(local, offset) <==>
            forall i | 0 <= i < |live| && !InImageBase(i, offset) :: live[i] == local[i]
  {
    var x, y := Zeroed(live, offset), Zeroed(local, offset);
    forall i | 0 <= i < |live| && !InImageBase(i, offset)
      ensures x[i] == live[i] && y[i] == local[i]
    {
    }
  }

  predicate StartsMz(v: Header) { |v| >= 2 && v[..2] == [0x4D, 0x5A] }

  /** A trimmed header the validator parses, in the exporter's terms. */
  lemma ParsedExact(v: Header)
    requires 256 <= |v| <= 4096
    ensures ParseHeader(v).Some? && Word16(v, ParseHeader(v).value.pe + 6) > 0 <==>
            StartsMz(v) && WellFormed(v, Word32(v, 0x3C), |v|) && Word16(v, Word32(v, 0x3C) + 20) >= 68
    ensures ParseHeader(v).Some? ==> ParseHeader(v).value.pe == Word32(v, 0x3C)
  {
    var pe := Word32(v, 0x3C);
    if pe + 24 <= |v| { SignatureBytes(v, pe); }
  }

  /** The claim repeats what the local header says of itself. */
  ghost predicate ClaimsLocal(c: Claim, local: Header, base: nat)
    requires |local| >= 256 && Word32(local, 0x3C) + 88 <= |local|
  {
    var pe := Word32(local, 0x3C);
    && c.moduleBase == Some(base)
    && c.machine == Word16(local, pe + 4) && c.timestamp == Word32(local, pe + 8)
    && c.imageSize == Word32(local, pe + 80)
    && c.imageBaseOffset == pe + 48 && c.liveImageBase == base && c.localImageBase == U64(local, pe + 48)
  }

  /**
   For headers trimmed to their span, started by MZ and with an optional header of at least 68 bytes,
   what the exporter accepts the validator accepts, under the exporter's own offset and base values.
   */
  lemma ExporterImpliesValidator(live: Header, local: Header, base: nat, n: nat, c: Claim)
    requires |live| == n && |local| == n && Accepted(live, local, base, n)
    requires StartsMz(local) && Word16(local, Word32(local, 0x3C) + 20) >= 68
    requires 256 <= n && Word32(local, 0x3C) + 88 <= n && ClaimsLocal(c, local, base)
    ensures ValidatorAccepts(live, local, c)
  {
    var pe := Word32(local, 0x3C);
    SpanExact(local, n);
    SpanExact(live, n);
    FieldsAgree(live, local, pe, n);
    assert live[..2] == local[..2];
    ParsedExact(live);
    ParsedExact(local);
    ZeroedEqual(live, local, pe + 48);
  }

  /** What the validator accepts, with a nonempty section table, the exporter accepts. */
  lemma ValidatorImpliesExporter(live: Header, local: Header, base: nat, n: nat, c: Claim)
    requires |live| == n && |local| == n && 256 <= n <= 4096
    requires ValidatorAccepts(live, local, c) && c.moduleBase == Some(base)
    requires Word16(local, ParseHeader(local).value.pe + 6) > 0
    ensures Accepted(live, local, base, n)
    ensures StartsMz(local) && Word16(local, Word32(local, 0x3C) + 20) >= 68 && ClaimsLocal(c, local, base)
  {
    var pe := ParseHeader(local).value.pe;
    ParsedExact(local);
    ZeroedEqual(live, local, pe + 48);
    FieldsAgree(live, local, pe, n);
    ParsedExact(live);
    SpanExact(local, n);
    SpanExact(live, n);
  }
}
