/**
 The GIF LZW validator. `ValidateGifLzw` is the decoder with its growing dictionary; `Decode` is
 what a bit string means without any dictionary, only from the codes seen since the last clear.
 */
module GifLzw {
  import opened Bytes

  /** Minimum code sizes the GIF reader lets through. */
  type MinSize = n: nat | 2 <= n <= 8 witness 2

  function Clear(m: MinSize): (r: nat)
    ensures 4 <= r <= 256
  {
    Pow2Monotone(2, m);
    Pow2Monotone(m, 8);
    assert Pow2(2) == 4 && Pow2(8) == 256;
    Pow2(m)
  }

  function End(m: MinSize): nat { Clear(m) + 1 }

  /** The first free dictionary code after `k` codes since the last clear. */
  function NextCode(m: MinSize, k: nat): nat {
    var n := End(m) + 1 + (if k == 0 then 0 else k - 1);
    if n < 4096 then n else 4096
  }

  /** Bits of the code read after `k` codes: enough for the first free code, at most twelve. */
  function Width(m: MinSize, k: nat): nat {
    if NextCode(m, k) < 4096 then BitLength(NextCode(m, k)) else 12
  }

  /** Code `c` may stand at position `i` after a clear. */
  predicate ValidCode(m: MinSize, c: nat, i: nat) {
    c < Clear(m) || (End(m) < c < 4096 && c - End(m) - 1 < i)
  }

  predicate ValidHistory(m: MinSize, hist: seq<nat>) {
    forall i | 0 <= i < |hist| :: ValidCode(m, hist[i], i)
  }

  /** First pixel of the string that code number `i` stands for. */
  function First(m: MinSize, hist: seq<nat>, i: nat): byte
    requires ValidHistory(m, hist) && i < |hist|
    decreases i
  {
    if hist[i] < Clear(m) then hist[i] else First(m, hist, hist[i] - End(m) - 1)
  }

  /**
   The string code number `i` stands for: a pixel, or, for code `End + 1 + t`, the string of code
   number `t` followed by the first pixel of code number `t + 1`.
   */
  function Expand(m: MinSize, hist: seq<nat>, i: nat): (r: seq<byte>)
    requires ValidHistory(m, hist) && i < |hist|
    ensures |r| >= 1 && r[0] == First(m, hist, i)
    decreases i
  {
    if hist[i] < Clear(m) then [hist[i]]
    else
      var t := hist[i] - End(m) - 1;
      Expand(m, hist, t) + [First(m, hist, t + 1)]
  }

  datatype Fault = NoLeadingClear | InvalidCode | TooManyPixels | NoEndCode | TooFewPixels

  datatype Outcome = Accepted(pixels: seq<byte>) | Rejected(fault: Fault)

  /** What the decoder makes of `bits` after the codes `hist` and the pixels `out`. */
  function Decode(m: MinSize, bits: seq<bool>, hist: seq<nat>, sawClear: bool,
                  out: seq<byte>, pixels: nat): Outcome
    requires ValidHistory(m, hist)
    decreases |bits|
  {
    var w := Width(m, |hist|);
    WidthBounds(m, |hist|);
    if |bits| < w then Rejected(NoEndCode)
    else
      var code := Value(bits[..w]);
      if code == Clear(m) then Decode(m, bits[w..], [], true, out, pixels)
      else if !sawClear then Rejected(NoLeadingClear)
      else if code == End(m) then
        if |out| == pixels then Accepted(out) else Rejected(TooFewPixels)
      else if !ValidCode(m, code, |hist|) then Rejected(InvalidCode)
      else
        var entry := Expand(m, hist + [code], |hist|);
        if |out| + |entry| > pixels then Rejected(TooManyPixels)
        else Decode(m, bits[w..], hist + [code], true, out + entry, pixels)
  }

  /** The next code of `bits` after `k` codes. */
  function Peek(m: MinSize, bits: seq<bool>, k: nat): nat
    requires |bits| >= Width(m, k)
  {
    Value(bits[..Width(m, k)])
  }

  lemma PeekAt(m: MinSize, bits: seq<bool>, from: nat, k: nat)
    requires from + Width(m, k) <= |bits|
    ensures Peek(m, bits[from..], k) == Value(bits[from..from + Width(m, k)])
    ensures bits[from..][Width(m, k)..] == bits[from + Width(m, k)..]
  {
    assert bits[from..][..Width(m, k)] == bits[from..from + Width(m, k)];
  }

  lemma PeekBounded(m: MinSize, bits: seq<bool>, k: nat)
    requires |bits| >= Width(m, k)
    ensures Peek(m, bits, k) < Pow2(Width(m, k)) <= 4096
  {
    CodeBitsOfValue(bits[..Width(m, k)]);
    WidthBounds(m, k);
  }

  lemma DecodeClear(m: MinSize, bits: seq<bool>, hist: seq<nat>, sawClear: bool, out: seq<byte>, pixels: nat)
    requires ValidHistory(m, hist) && |bits| >= Width(m, |hist|) && Peek(m, bits, |hist|) == Clear(m)
    ensures Decode(m, bits, hist, sawClear, out, pixels) ==
            Decode(m, bits[Width(m, |hist|)..], [], true, out, pixels)
  {
  }

  lemma DecodeUncleared(m: MinSize, bits: seq<bool>, hist: seq<nat>, out: seq<byte>, pixels: nat)
    requires ValidHistory(m, hist) && |bits| >= Width(m, |hist|) && Peek(m, bits, |hist|) != Clear(m)
    ensures Decode(m, bits, hist, false, out, pixels) == Rejected(NoLeadingClear)
  {
  }

  lemma DecodeEnd(m: MinSize, bits: seq<bool>, hist: seq<nat>, out: seq<byte>, pixels: nat)
    requires ValidHistory(m, hist) && |bits| >= Width(m, |hist|) && Peek(m, bits, |hist|) == End(m)
    ensures Decode(m, bits, hist, true, out, pixels) ==
            if |out| == pixels then Accepted(out) else Rejected(TooFewPixels)
  {
  }

  lemma DecodeInvalid(m: MinSize, bits: seq<bool>, hist: seq<nat>, out: seq<byte>, pixels: nat)
    requires ValidHistory(m, hist) && |bits| >= Width(m, |hist|)
    requires var code := Peek(m, bits, |hist|);
             code != Clear(m) && code != End(m) && !ValidCode(m, code, |hist|)
    ensures Decode(m, bits, hist, true, out, pixels) == Rejected(InvalidCode)
  {
  }

  lemma DecodeData(m: MinSize, bits: seq<bool>, hist: seq<nat>, out: seq<byte>, pixels: nat)
    requires ValidHistory(m, hist) && |bits| >= Width(m, |hist|)
    requires ValidCode(m, Peek(m, bits, |hist|), |hist|)
    ensures var hist' := hist + [Peek(m, bits, |hist|)];
            var entry := Expand(m, hist', |hist|);
            Decode(m, bits, hist, true, out, pixels) ==
            if |out| + |entry| > pixels then Rejected(TooManyPixels)
            else Decode(m, bits[Width(m, |hist|)..], hist', true, out + entry, pixels)
  {
  }

  lemma DecodeShort(m: MinSize, bits: seq<bool>, hist: seq<nat>, sawClear: bool,
                    out: seq<byte>, pixels: nat)
    requires ValidHistory(m, hist) && |bits| < Width(m, |hist|)
    ensures Decode(m, bits, hist, sawClear, out, pixels) == Rejected(NoEndCode)
  {
  }

  lemma WidthBounds(m: MinSize, k: nat)
    ensures m + 1 <= Width(m, k) <= 12
    ensures Pow2(Width(m, k) - 1) <= NextCode(m, k) <= Pow2(Width(m, k))
    ensures NextCode(m, k) < 4096 ==> NextCode(m, k) < Pow2(Width(m, k))
    ensures End(m) < Pow2(Width(m, k)) <= 4096
  {
    var n := NextCode(m, k);
    assert Pow2(12) == 4096 && Pow2(11) == 2048;
    if n < 4096 {
      BitLengthBounds(n);
      if BitLength(n) > 12 { Pow2Monotone(12, BitLength(n) - 1); }
      if BitLength(n) < m + 1 { Pow2Monotone(BitLength(n), m); }
      Pow2Monotone(BitLength(n), 12);
    }
  }

  lemma WidthStart(m: MinSize)
    ensures Width(m, 0) == m + 1 && Width(m, 1) == m + 1
  {
    WidthBounds(m, 0);
    assert Pow2(m + 1) == 2 * Clear(m);
    BitLengthUnique(NextCode(m, 0), m + 1);
  }

  /** The width grows exactly when the first free code no longer fits, and never past twelve bits. */
  lemma WidthStep(m: MinSize, k: nat)
    requires k > 0 && NextCode(m, k) < 4096
    ensures NextCode(m, k + 1) == NextCode(m, k) + 1
    ensures Width(m, k + 1) ==
            if NextCode(m, k + 1) == Pow2(Width(m, k)) && Width(m, k) < 12
            then Width(m, k) + 1 else Width(m, k)
  {
    var w, n := Width(m, k), NextCode(m, k + 1);
    WidthBounds(m, k);
    if n == 4096 {
      if w < 12 { assert Pow2(11) == 2048; Pow2Monotone(w, 11); }
    } else if n < Pow2(w) {
      BitLengthUnique(n, w);
    } else {
      assert Pow2(w + 1) == 2 * Pow2(w);
      BitLengthUnique(n, w + 1);
    }
  }

  /** Later codes do not change what earlier ones stand for. */
  lemma {:induction false} ExpandPrefix(m: MinSize, hist: seq<nat>, more: seq<nat>, i: nat)
    requires ValidHistory(m, hist) && ValidHistory(m, hist + more) && i < |hist|
    ensures First(m, hist + more, i) == First(m, hist, i)
    ensures Expand(m, hist + more, i) == Expand(m, hist, i)
    decreases i
  {
    if hist[i] >= Clear(m) {
      var t := hist[i] - End(m) - 1;
      ExpandPrefix(m, hist, more, t);
      if t + 1 < i { ExpandPrefix(m, hist, more, t + 1); }
    }
  }

  // ---- the decoder with its dictionary

  function Roots(m: MinSize): map<nat, seq<byte>> {
    map c: nat | c < Clear(m) :: [c]
  }

  /** Dictionary entry `End + 1 + t`. */
  function Entry(m: MinSize, hist: seq<nat>, t: nat): seq<byte>
    requires ValidHistory(m, hist) && t + 1 < |hist|
  {
    Expand(m, hist, t) + [First(m, hist, t + 1)]
  }

  /** The keys are exactly the roots and the codes below the first free one, with their meaning. */
  ghost predicate DictionaryFor(m: MinSize, hist: seq<nat>, dictionary: map<nat, seq<byte>>)
    requires ValidHistory(m, hist)
  {
    && (forall c | c in dictionary :: c < Clear(m) || End(m) < c < NextCode(m, |hist|))
    && (forall c: nat | c < Clear(m) :: c in dictionary && dictionary[c] == [c])
    && (forall c: nat | End(m) < c < NextCode(m, |hist|) ::
          c in dictionary && dictionary[c] == Entry(m, hist, c - End(m) - 1))
  }

  /** What a code of the table, or the one about to be entered, stands for if it comes next. */
  lemma NextMeans(m: MinSize, hist: seq<nat>, code: nat)
    requires ValidHistory(m, hist) && ValidCode(m, code, |hist|) && code > End(m)
    ensures ValidHistory(m, hist + [code])
    ensures var t := code - End(m) - 1;
            Expand(m, hist + [code], |hist|) ==
            if t + 1 < |hist| then Entry(m, hist, t) else Expand(m, hist, t) + Expand(m, hist, t)[..1]
  {
    var t := code - End(m) - 1;
    ExpandPrefix(m, hist, [code], t);
    if t + 1 < |hist| { ExpandPrefix(m, hist, [code], t + 1); }
    else { assert Expand(m, hist, t)[..1] == [First(m, hist, t)]; }
  }

  /** The dictionary, with the previous-string rule, gives every code its dictionary-free meaning. */
  lemma LookupMeaning(m: MinSize, hist: seq<nat>, dictionary: map<nat, seq<byte>>, code: nat)
    requires ValidHistory(m, hist) && DictionaryFor(m, hist, dictionary)
    requires code < 4096
    ensures ValidCode(m, code, |hist|) <==>
            code in dictionary || (code == NextCode(m, |hist|) && hist != [])
    ensures code in dictionary ==>
            dictionary[code] == Expand(m, hist + [code], |hist|)
    ensures code !in dictionary && ValidCode(m, code, |hist|) ==>
            var p := Expand(m, hist, |hist| - 1);
            p + p[..1] == Expand(m, hist + [code], |hist|)
  {
    if ValidCode(m, code, |hist|) && code > End(m) { NextMeans(m, hist, code); }
  }

  lemma EntriesKept(m: MinSize, hist: seq<nat>, code: nat)
    requires ValidHistory(m, hist) && ValidCode(m, code, |hist|)
    ensures ValidHistory(m, hist + [code])
    ensures forall t: nat | t + 1 < |hist| :: Entry(m, hist + [code], t) == Entry(m, hist, t)
  {
    forall t: nat | t + 1 < |hist|
      ensures Entry(m, hist + [code], t) == Entry(m, hist, t)
    {
      ExpandPrefix(m, hist, [code], t);
      ExpandPrefix(m, hist, [code], t + 1);
    }
  }

  /** No entry is due after the first code of a segment, nor once the table is full. */
  lemma DictionaryStays(m: MinSize, hist: seq<nat>, dictionary: map<nat, seq<byte>>, code: nat)
    requires ValidHistory(m, hist) && DictionaryFor(m, hist, dictionary)
    requires ValidCode(m, code, |hist|)
    requires hist == [] || NextCode(m, |hist|) == 4096
    ensures ValidHistory(m, hist + [code]) && DictionaryFor(m, hist + [code], dictionary)
  {
    EntriesKept(m, hist, code);
  }

  lemma NewEntry(m: MinSize, hist: seq<nat>, code: nat)
    requires ValidHistory(m, hist) && ValidCode(m, code, |hist|) && hist != []
    ensures ValidHistory(m, hist + [code])
    ensures Entry(m, hist + [code], |hist| - 1) ==
            Expand(m, hist, |hist| - 1) + Expand(m, hist + [code], |hist|)[..1]
  {
    ExpandPrefix(m, hist, [code], |hist| - 1);
    var e := Expand(m, hist + [code], |hist|);
    assert e[..1] == [e[0]];
  }

  lemma DictionaryGrows(m: MinSize, hist: seq<nat>, dictionary: map<nat, seq<byte>>, code: nat)
    requires ValidHistory(m, hist) && DictionaryFor(m, hist, dictionary)
    requires ValidCode(m, code, |hist|) && ValidHistory(m, hist + [code])
    requires hist != [] && NextCode(m, |hist|) < 4096
    ensures DictionaryFor(m, hist + [code],
              dictionary[NextCode(m, |hist|) := Entry(m, hist + [code], |hist| - 1)])
  {
    EntriesKept(m, hist, code);
    var hist' := hist + [code];
    var next := NextCode(m, |hist|);
    assert next == End(m) + |hist| && NextCode(m, |hist'|) == next + 1;
    var grown := dictionary[next := Entry(m, hist', |hist| - 1)];
    forall c: nat | End(m) < c < next + 1
      ensures c in grown && grown[c] == Entry(m, hist', c - End(m) - 1)
    {
      if c < next { assert dictionary[c] == Entry(m, hist, c - End(m) - 1); }
    }
  }

  /** One variable-width code, low bit first; `None` when the payload is exhausted. */
  datatype Read = None | Code(value: nat)

  method ReadCode(payload: seq<byte>, bitOffset: nat, codeSize: nat) returns (r: Read, offset: nat)
    requires bitOffset <= 8 * |payload|
    ensures bitOffset + codeSize > 8 * |payload| ==> r == None && offset == bitOffset
    ensures bitOffset + codeSize <= 8 * |payload| ==>
              && r == Code(Value(BitsOf(payload)[bitOffset..bitOffset + codeSize]))
              && offset == bitOffset + codeSize
  {
    offset := bitOffset;
    if bitOffset + codeSize > |payload| * 8 { return None, offset; }
    var value := 0;
    ghost var bits := BitsOf(payload);
    for bit := 0 to codeSize
      invariant value == Value(bits[bitOffset..bitOffset + bit])
    {
      var absolute := bitOffset + bit;
      ValueSnoc(bits[bitOffset..absolute], bits[absolute]);
      assert bits[bitOffset..absolute] + [bits[absolute]] == bits[bitOffset..absolute + 1];
      // `value |= x << bit`: every bit of `value` from `bit` upward is still clear
      BitsOfAt(payload, absolute);
      var b := payload[absolute / 8] / Pow2(absolute % 8) % 2;
      assert b * Pow2(bit) == if bits[absolute] then Pow2(bit) else 0;
      value := value + b * Pow2(bit);
    }
    offset := offset + codeSize;
    r := Code(value);
  }

  /** The decoder's variables are what the codes since the last clear call for. */
  ghost predicate Tracks(m: MinSize, hist: seq<nat>, dictionary: map<nat, seq<byte>>,
                         nextCode: nat, codeSize: nat, previous: seq<byte>)
  {
    && ValidHistory(m, hist) && DictionaryFor(m, hist, dictionary)
    && nextCode == NextCode(m, |hist|) && codeSize == Width(m, |hist|)
    && previous == if hist == [] then [] else Expand(m, hist, |hist| - 1)
  }

  lemma TracksStart(m: MinSize)
    ensures Tracks(m, [], Roots(m), Clear(m) + 2, (m as nat) + 1, [])
  {
    WidthStart(m);
  }

  datatype Lookup = Bad | Found(entry: seq<byte>)

  method LookUp(m: MinSize, dictionary: map<nat, seq<byte>>, nextCode: nat, previous: seq<byte>,
                code: nat, ghost hist: seq<nat>, ghost codeSize: nat)
    returns (r: Lookup)
    requires Tracks(m, hist, dictionary, nextCode, codeSize, previous) && code < 4096
    ensures r == if ValidCode(m, code, |hist|) then Found(Expand(m, hist + [code], |hist|)) else Bad
  {
    LookupMeaning(m, hist, dictionary, code);
    if code in dictionary {
      return Found(dictionary[code]);
    } else if code == nextCode && previous != [] {
      return Found(previous + previous[..1]);
    } else {
      return Bad;
    }
  }

  method Grow(m: MinSize, dictionary: map<nat, seq<byte>>, nextCode: nat, codeSize: nat,
              previous: seq<byte>, entry: seq<byte>, ghost hist: seq<nat>, ghost code: nat)
    returns (dictionary': map<nat, seq<byte>>, nextCode': nat, codeSize': nat)
    requires Tracks(m, hist, dictionary, nextCode, codeSize, previous)
    requires ValidCode(m, code, |hist|) && entry == Expand(m, hist + [code], |hist|)
    ensures Tracks(m, hist + [code], dictionary', nextCode', codeSize', entry)
  {
    dictionary', nextCode', codeSize' := dictionary, nextCode, codeSize;
    if previous != [] && nextCode < 4096 {
      NewEntry(m, hist, code);
      DictionaryGrows(m, hist, dictionary, code);
      WidthStep(m, |hist|);
      dictionary' := dictionary[nextCode := previous + entry[..1]];
      nextCode' := nextCode + 1;
      if nextCode' == Pow2(codeSize) && codeSize < 12 { codeSize' := codeSize + 1; }
    } else {
      DictionaryStays(m, hist, dictionary, code);
      WidthStart(m);
    }
  }

  datatype Verdict = Ok | Fail(fault: Fault)

  /** The part of the loop for a code that is neither clear nor end; `previous'` is what it emits. */
  method TakeCode(m: MinSize, dictionary: map<nat, seq<byte>>, nextCode: nat, codeSize: nat, previous: seq<byte>,
                  code: nat, outputCount: nat, pixels: nat,
                  ghost here: seq<bool>, ghost hist: seq<nat>, ghost out: seq<byte>)
    returns (v: Verdict, dictionary': map<nat, seq<byte>>, nextCode': nat, codeSize': nat, previous': seq<byte>)
    requires Tracks(m, hist, dictionary, nextCode, codeSize, previous) && outputCount == |out|
    requires |here| >= codeSize && code == Peek(m, here, |hist|) && code != Clear(m) && code != End(m)
    ensures v.Fail? ==> Decode(m, here, hist, true, out, pixels) == Rejected(v.fault)
    ensures v.Ok? ==>
              && Tracks(m, hist + [code], dictionary', nextCode', codeSize', previous')
              && outputCount + |previous'| <= pixels
              && Decode(m, here, hist, true, out, pixels) ==
                 Decode(m, here[codeSize..], hist + [code], true, out + previous', pixels)
  {
    dictionary', nextCode', codeSize', previous' := dictionary, nextCode, codeSize, previous;
    PeekBounded(m, here, |hist|);
    var found := LookUp(m, dictionary, nextCode, previous, code, hist, codeSize);
    if found.Bad? {
      DecodeInvalid(m, here, hist, out, pixels);
      return Fail(InvalidCode), dictionary', nextCode', codeSize', previous';
    }
    DecodeData(m, here, hist, out, pixels);
    previous' := found.entry;
    if outputCount + |previous'| > pixels {
      return Fail(TooManyPixels), dictionary', nextCode', codeSize', previous';
    }
    dictionary', nextCode', codeSize' := Grow(m, dictionary, nextCode, codeSize, previous, previous', hist, code);
    v := Ok;
  }

  /** The validator: accepts exactly what `Decode` accepts, and fails with the same fault. */
  method ValidateGifLzw(payload: seq<byte>, minimumCodeSize: MinSize, pixels: nat) returns (v: Verdict)
    ensures v == match Decode(minimumCodeSize, BitsOf(payload), [], false, [], pixels)
                 case Accepted(_) => Ok
                 case Rejected(fault) => Fail(fault)
  {
    var m := minimumCodeSize;
    var clearCode := Clear(m);
    var endCode := clearCode + 1;
    var dictionary := Roots(m);
    var nextCode := endCode + 1;
    var codeSize: nat := (m as nat) + 1;
    var bitOffset := 0;
    var previous: seq<byte> := [];   // empty for "no previous string"
    var outputCount := 0;
    var sawClear, sawEnd := false, false;
    ghost var bits := BitsOf(payload);
    ghost var hist: seq<nat> := [];
    ghost var out: seq<byte> := [];
    ghost var goal := Decode(m, bits, [], false, [], pixels);
    assert bits[0..] == bits;
    TracksStart(m);
    while true
      invariant bitOffset <= |bits|
      invariant Tracks(m, hist, dictionary, nextCode, codeSize, previous)
      invariant outputCount == |out| <= pixels
      invariant !sawClear ==> hist == []
      invariant !sawEnd && goal == Decode(m, bits[bitOffset..], hist, sawClear, out, pixels)
      decreases |bits| - bitOffset
    {
      WidthBounds(m, |hist|);
      ghost var here := bits[bitOffset..];
      var read, offset := ReadCode(payload, bitOffset, codeSize);
      if read.None? {
        DecodeShort(m, here, hist, sawClear, out, pixels);
        break;
      }
      var code := read.value;
      PeekAt(m, bits, bitOffset, |hist|);
      bitOffset := offset;
      if code == clearCode {
        DecodeClear(m, here, hist, sawClear, out, pixels);
        TracksStart(m);
        dictionary := Roots(m);
        nextCode := endCode + 1;
        codeSize := (m as nat) + 1;
        previous := [];
        sawClear := true;
        hist := [];
        continue;
      }
      if !sawClear {
        DecodeUncleared(m, here, hist, out, pixels);
        return Fail(NoLeadingClear);
      }
      if code == endCode {
        DecodeEnd(m, here, hist, out, pixels);
        sawEnd := true;
        break;
      }
      var taken: Verdict;
      taken, dictionary, nextCode, codeSize, previous :=
        TakeCode(m, dictionary, nextCode, codeSize, previous, code, outputCount, pixels, here, hist, out);
      if taken.Fail? { return taken; }
      outputCount := outputCount + |previous|;
      hist := hist + [code];
      out := out + previous;
    }
    if !sawEnd { return Fail(NoEndCode); }
    if outputCount != pixels { return Fail(TooFewPixels); }
    return Ok;
  }
}
