/** The decode loop of the disassembler, for any instruction decoder. */
module Disassembly {
  import opened Bytes

  const ADDRESSES := 0x1_0000_0000_0000_0000

  datatype Instruction = Instruction(address: nat, bytes: seq<byte>, fallback: bool)

  datatype Report = Report(requestedBytes: nat, readBytes: nat, instructions: seq<Instruction>,
                           fallbackBytes: nat, consumedBytes: nat, truncated: bool)

  datatype Result = Failed | Cancelled | Done(report: Report)

  /** Lengths the decoder answers at each offset; 0 when it cannot decode there. */
  type Decoder = nat -> nat

  ghost predicate DecoderOk(decode: Decoder, n: nat) {
    forall o: nat | o < n :: decode(o) <= n - o
  }

  /** 64-bit address arithmetic. */
  function AddressAt(base: nat, offset: nat): nat { (base + offset) % ADDRESSES }

  function Joined(ins: seq<Instruction>): seq<byte> {
    if ins == [] then [] else Joined(ins[..|ins| - 1]) + ins[|ins| - 1].bytes
  }

  function Fallbacks(ins: seq<Instruction>): nat {
    if ins == [] then 0 else Fallbacks(ins[..|ins| - 1]) + (if ins[|ins| - 1].fallback then 1 else 0)
  }

  /** `i` is what stands at `offset`: as long as the decoder says, or one byte where it says nothing. */
  ghost predicate Placed(i: Instruction, base: nat, offset: nat, decode: Decoder) {
    && i.address == AddressAt(base, offset)
    && (i.fallback <==> decode(offset) == 0)
    && |i.bytes| == if i.fallback then 1 else decode(offset)
  }

  /** Each instruction stands where the bytes before it end. */
  ghost predicate Contiguous(ins: seq<Instruction>, base: nat, decode: Decoder) {
    forall k | 0 <= k < |ins| :: PlacedAt(ins, k, base, decode)
  }

  ghost predicate PlacedAt(ins: seq<Instruction>, k: nat, base: nat, decode: Decoder)
    requires k < |ins|
  {
    Placed(ins[k], base, |Joined(ins[..k])|, decode)
  }

  /** What a complete decode of `data` at `base` promises. */
  ghost predicate Tiles(r: Report, data: seq<byte>, base: nat, cap: nat, decode: Decoder) {
    && |r.instructions| <= cap
    && r.consumedBytes <= |data| && Joined(r.instructions) == data[..r.consumedBytes]
    && Contiguous(r.instructions, base, decode)
    && r.fallbackBytes == Fallbacks(r.instructions)
    && (r.truncated <==> r.consumedBytes < |data|)
    && (r.truncated ==> |r.instructions| == cap)
    && r.readBytes == |data|
    && r.requestedBytes == if |data| <= 0xFFFF_FFFF then |data| else 0xFFFF_FFFF
  }

  lemma AddInstruction(ins: seq<Instruction>, i: Instruction, data: seq<byte>, base: nat, offset: nat, decode: Decoder)
    requires offset + |i.bytes| <= |data| && Joined(ins) == data[..offset] && Contiguous(ins, base, decode)
    requires i.bytes == data[offset..offset + |i.bytes|] && Placed(i, base, offset, decode)
    ensures Joined(ins + [i]) == data[..offset + |i.bytes|]
    ensures Contiguous(ins + [i], base, decode)
    ensures Fallbacks(ins + [i]) == Fallbacks(ins) + (if i.fallback then 1 else 0)
  {
    var more := ins + [i];
    assert more[..|more| - 1] == ins;
    assert data[..offset] + i.bytes == data[..offset + |i.bytes|];
    ContiguousMore(ins, i, base, decode);
  }

  lemma ContiguousMore(ins: seq<Instruction>, i: Instruction, base: nat, decode: Decoder)
    requires Contiguous(ins, base, decode) && Placed(i, base, |Joined(ins)|, decode)
    ensures Contiguous(ins + [i], base, decode)
  {
    var more := ins + [i];
    assert more[..|ins|] == ins;
    forall k | 0 <= k < |more| ensures PlacedAt(more, k, base, decode) {
      if k < |ins| {
        assert PlacedAt(ins, k, base, decode);
        assert more[..k] == ins[..k];
      }
    }
  }

  /**
   `initialized` is whether decoder and formatter could be set up; `stopped(k)` is whether the stop
   token is set when instruction `k` is about to be decoded.
   */
  method DecodeBytesDetailed(data: seq<byte>, base: nat, cap: nat, initialized: bool, decode: Decoder,
                             stopped: nat -> bool)
    returns (r: Result)
    requires DecoderOk(decode, |data|)
    ensures r.Failed? <==> base == 0 || data == [] || cap == 0 || !initialized
    ensures r.Done? ==> Tiles(r.report, data, base, cap, decode)
    ensures r.Done? ==> forall k | 0 <= k < |r.report.instructions| :: !stopped(k)
    ensures r.Cancelled? ==> exists k: nat | k < cap :: stopped(k)
  {
    if base == 0 || data == [] || cap == 0 { return Failed; }
    if !initialized { return Failed; }
    var instructions: seq<Instruction> := [];
    var fallbackBytes, offset := 0, 0;
    while offset < |data| && |instructions| < cap
      invariant offset <= |data| && |instructions| <= cap
      invariant Joined(instructions) == data[..offset] && Contiguous(instructions, base, decode)
      invariant forall k | 0 <= k < |instructions| :: !stopped(k)
      invariant fallbackBytes == Fallbacks(instructions)
      decreases |data| - offset
    {
      if stopped(|instructions|) { return Cancelled; }
      var length := decode(offset);
      if length == 0 {
        var invalid := Instruction(AddressAt(base, offset), [data[offset]], true);
        AddInstruction(instructions, invalid, data, base, offset, decode);
        instructions := instructions + [invalid];
        fallbackBytes := fallbackBytes + 1;
        offset := offset + 1;
        continue;
      }
      var decoded := Instruction(AddressAt(base, offset), data[offset..offset + length], false);
      AddInstruction(instructions, decoded, data, base, offset, decode);
      instructions := instructions + [decoded];
      offset := offset + length;
    }
    r := Done(Report(if |data| <= 0xFFFF_FFFF then |data| else 0xFFFF_FFFF, |data|, instructions,
                     fallbackBytes, offset, offset < |data|));
  }

  /** The part of the evidence snapshot's guard that concerns the disassembly. */
  predicate EvidenceReady(readBytes: seq<byte>, requested: nat, r: Report) {
    && readBytes != [] && requested != 0 && |readBytes| == requested
    && r.readBytes == |readBytes| && r.requestedBytes == requested
    && r.consumedBytes == |readBytes| && !r.truncated && r.instructions != []
  }

  /** Evidence always covers its whole requested range, instruction after instruction. */
  lemma EvidenceCoversRange(readBytes: seq<byte>, requested: nat, r: Report, base: nat, cap: nat,
                            decode: Decoder)
    requires Tiles(r, readBytes, base, cap, decode) && EvidenceReady(readBytes, requested, r)
    ensures Joined(r.instructions) == readBytes && |Joined(r.instructions)| == requested
    ensures r.instructions[0].address == base % ADDRESSES
  {
    assert PlacedAt(r.instructions, 0, base, decode);
    assert r.instructions[..0] == [];
    assert readBytes[..|readBytes|] == readBytes;
  }

  /** A decode is refused as evidence exactly when the instruction cap cut it short. */
  lemma CapDecidesEvidence(data: seq<byte>, r: Report, base: nat, cap: nat, decode: Decoder)
    requires data != [] && |data| <= 0xFFFF_FFFF && Tiles(r, data, base, cap, decode)
    ensures EvidenceReady(data, |data|, r) <==> !r.truncated
    ensures r.truncated ==> |r.instructions| == cap && |Joined(r.instructions)| < |data|
  {
    assert r.instructions == [] ==> |Joined(r.instructions)| == 0;
  }
}
