/**
 Which bit streams the LZW validator accepts, and that the greedy encoder of Appendix F of the
 GIF89a specification produces only such streams, whatever its clear-code policy.
 */
module GifStream {
  import opened Bytes
  import opened GifLzw

  // ---- code streams

  /** `codes` may follow the codes `hist`: clear codes anywhere, other codes valid where they stand. */
  predicate ValidStream(m: MinSize, hist: seq<nat>, codes: seq<nat>)
    decreases |codes|
  {
    codes == [] ||
    if codes[0] == Clear(m) then ValidStream(m, [], codes[1..])
    else ValidCode(m, codes[0], |hist|) && ValidStream(m, hist + [codes[0]], codes[1..])
  }

  /** The pixels `codes` stand for after the codes `hist`. */
  function Meaning(m: MinSize, hist: seq<nat>, codes: seq<nat>): seq<byte>
    requires ValidHistory(m, hist) && ValidStream(m, hist, codes)
    decreases |codes|
  {
    if codes == [] then []
    else if codes[0] == Clear(m) then Meaning(m, [], codes[1..])
    else
      var hist' := hist + [codes[0]];
      Expand(m, hist', |hist|) + Meaning(m, hist', codes[1..])
  }

  /** The bits of `codes` and the end code, each code in the width its position calls for. */
  function Packed(m: MinSize, hist: seq<nat>, codes: seq<nat>): seq<bool>
    decreases |codes|
  {
    var w := Width(m, |hist|);
    if codes == [] then CodeBits(End(m), w)
    else if codes[0] == Clear(m) then CodeBits(Clear(m), w) + Packed(m, [], codes[1..])
    else CodeBits(codes[0], w) + Packed(m, hist + [codes[0]], codes[1..])
  }

  lemma StreamCode(m: MinSize, hist: seq<nat>, code: nat, rest: seq<nat>)
    requires ValidHistory(m, hist) && ValidCode(m, code, |hist|)
    requires ValidStream(m, hist + [code], rest)
    ensures ValidStream(m, hist, [code] + rest)
    ensures Meaning(m, hist, [code] + rest) ==
            Expand(m, hist + [code], |hist|) + Meaning(m, hist + [code], rest)
    ensures Packed(m, hist, [code] + rest) ==
            CodeBits(code, Width(m, |hist|)) + Packed(m, hist + [code], rest)
  {
    assert ([code] + rest)[1..] == rest;
  }

  lemma StreamClear(m: MinSize, hist: seq<nat>, rest: seq<nat>)
    requires ValidHistory(m, hist) && ValidStream(m, [], rest)
    ensures ValidStream(m, hist, [Clear(m)] + rest)
    ensures Meaning(m, hist, [Clear(m)] + rest) == Meaning(m, [], rest)
    ensures Packed(m, hist, [Clear(m)] + rest) ==
            CodeBits(Clear(m), Width(m, |hist|)) + Packed(m, [], rest)
  {
    assert ([Clear(m)] + rest)[1..] == rest;
  }

  lemma ValidFits(m: MinSize, code: nat, k: nat)
    requires ValidCode(m, code, k)
    ensures code < Pow2(Width(m, k))
  {
    WidthBounds(m, k);
    assert Pow2(12) == 4096;
  }

  lemma FirstCode(code: nat, w: nat, rest: seq<bool>, bits: seq<bool>)
    requires code < Pow2(w) && CodeBits(code, w) + rest <= bits
    ensures |bits| >= w && Value(bits[..w]) == code && rest <= bits[w..]
  {
    ValueOfCodeBits(code, w);
    assert bits[..w] == CodeBits(code, w);
    assert bits[w..][..|rest|] == rest by {
      assert bits[..w + |rest|] == CodeBits(code, w) + rest;
    }
  }

  lemma PackedEnd(m: MinSize, hist: seq<nat>, bits: seq<bool>, out: seq<byte>)
    requires ValidHistory(m, hist) && CodeBits(End(m), Width(m, |hist|)) <= bits
    ensures Decode(m, bits, hist, true, out, |out|) == Accepted(out)
  {
    WidthBounds(m, |hist|);
    assert CodeBits(End(m), Width(m, |hist|)) + [] == CodeBits(End(m), Width(m, |hist|));
    FirstCode(End(m), Width(m, |hist|), [], bits);
    DecodeEnd(m, bits, hist, out, |out|);
  }

  lemma PackedClear(m: MinSize, hist: seq<nat>, rest: seq<bool>, bits: seq<bool>, out: seq<byte>, pixels: nat)
    requires ValidHistory(m, hist) && CodeBits(Clear(m), Width(m, |hist|)) + rest <= bits
    ensures |bits| >= Width(m, |hist|) && rest <= bits[Width(m, |hist|)..]
    ensures Decode(m, bits, hist, true, out, pixels) ==
            Decode(m, bits[Width(m, |hist|)..], [], true, out, pixels)
  {
    WidthBounds(m, |hist|);
    FirstCode(Clear(m), Width(m, |hist|), rest, bits);
    DecodeClear(m, bits, hist, true, out, pixels);
  }

  lemma PackedData(m: MinSize, hist: seq<nat>, code: nat, rest: seq<bool>, bits: seq<bool>, out: seq<byte>,
                   pixels: nat)
    requires ValidHistory(m, hist) && ValidCode(m, code, |hist|)
    requires CodeBits(code, Width(m, |hist|)) + rest <= bits
    requires |out| + |Expand(m, hist + [code], |hist|)| <= pixels
    ensures |bits| >= Width(m, |hist|) && rest <= bits[Width(m, |hist|)..]
    ensures Decode(m, bits, hist, true, out, pixels) ==
            Decode(m, bits[Width(m, |hist|)..], hist + [code], true,
                   out + Expand(m, hist + [code], |hist|), pixels)
  {
    ValidFits(m, code, |hist|);
    FirstCode(code, Width(m, |hist|), rest, bits);
    DecodeData(m, bits, hist, out, pixels);
  }

  /** A packed valid stream decodes to its meaning. */
  lemma {:induction false} PackedDecodes(m: MinSize, hist: seq<nat>, codes: seq<nat>,
                                         bits: seq<bool>, out: seq<byte>, pixels: nat)
    requires ValidHistory(m, hist) && ValidStream(m, hist, codes)
    requires Packed(m, hist, codes) <= bits
    requires |out| + |Meaning(m, hist, codes)| == pixels
    ensures Decode(m, bits, hist, true, out, pixels) == Accepted(out + Meaning(m, hist, codes))
    decreases |codes|
  {
    if codes == [] {
      PackedEnd(m, hist, bits, out);
      assert out + [] == out;
    } else {
      var w, code, rest := Width(m, |hist|), codes[0], codes[1..];
      if code == Clear(m) {
        PackedClear(m, hist, Packed(m, [], rest), bits, out, pixels);
        PackedDecodes(m, [], rest, bits[w..], out, pixels);
      } else {
        var hist' := hist + [code];
        var entry := Expand(m, hist', |hist|);
        PackedData(m, hist, code, Packed(m, hist', rest), bits, out, pixels);
        Associative(out, entry, Meaning(m, hist', rest));
        PackedDecodes(m, hist', rest, bits[w..], out + entry, pixels);
      }
    }
  }

  lemma Associative(a: seq<byte>, b: seq<byte>, c: seq<byte>)
    ensures a + b + c == a + (b + c)
  {
  }

  lemma HeadMoved(w: seq<byte>, s: seq<byte>)
    requires s != []
    ensures w + [s[0]] + s[1..] == w + s && [s[0]] + s[1..] == s
  {
  }

  lemma PrefixSplit(a: seq<bool>, w: nat, rest: seq<bool>)
    requires w <= |a| && rest <= a[w..]
    ensures a[..w] + rest <= a
  {
    assert a == a[..w] + a[w..];
  }

  lemma CodeThenRest(m: MinSize, bits: seq<bool>, k: nat, rest: seq<bool>)
    requires |bits| >= Width(m, k) && rest <= bits[Width(m, k)..]
    ensures CodeBits(Peek(m, bits, k), Width(m, k)) + rest <= bits
  {
    CodeBitsOfValue(bits[..Width(m, k)]);
    PrefixSplit(bits, Width(m, k), rest);
  }

  /** `codes` accounts for the acceptance of `bits` after `hist` and `out`. */
  ghost predicate Explains(m: MinSize, hist: seq<nat>, bits: seq<bool>, out: seq<byte>, pixels: nat, codes: seq<nat>)
    requires ValidHistory(m, hist)
  {
    && ValidStream(m, hist, codes) && Packed(m, hist, codes) <= bits
    && |out| + |Meaning(m, hist, codes)| == pixels
    && Decode(m, bits, hist, true, out, pixels) == Accepted(out + Meaning(m, hist, codes))
  }

  lemma ExplainClear(m: MinSize, hist: seq<nat>, bits: seq<bool>, out: seq<byte>, pixels: nat, rest: seq<nat>)
    requires ValidHistory(m, hist) && |bits| >= Width(m, |hist|) && Peek(m, bits, |hist|) == Clear(m)
    requires Explains(m, [], bits[Width(m, |hist|)..], out, pixels, rest)
    ensures Explains(m, hist, bits, out, pixels, [Clear(m)] + rest)
  {
    DecodeClear(m, bits, hist, true, out, pixels);
    StreamClear(m, hist, rest);
    CodeThenRest(m, bits, |hist|, Packed(m, [], rest));
  }

  lemma ExplainData(m: MinSize, hist: seq<nat>, bits: seq<bool>, out: seq<byte>, pixels: nat, code: nat,
                    rest: seq<nat>)
    requires ValidHistory(m, hist) && |bits| >= Width(m, |hist|) && Peek(m, bits, |hist|) == code
    requires ValidCode(m, code, |hist|) && ValidHistory(m, hist + [code])
    requires |out| + |Expand(m, hist + [code], |hist|)| <= pixels
    requires Explains(m, hist + [code], bits[Width(m, |hist|)..], out + Expand(m, hist + [code], |hist|), pixels, rest)
    ensures Explains(m, hist, bits, out, pixels, [code] + rest)
  {
    var entry := Expand(m, hist + [code], |hist|);
    DecodeData(m, bits, hist, out, pixels);
    StreamCode(m, hist, code, rest);
    CodeThenRest(m, bits, |hist|, Packed(m, hist + [code], rest));
    var tail := Meaning(m, hist + [code], rest);
    Associative(out, entry, tail);
  }

  /** Every accepted bit string begins with a packed valid stream, whose meaning was the output. */
  lemma {:induction false} AcceptedIsPacked(m: MinSize, hist: seq<nat>, bits: seq<bool>,
                                            out: seq<byte>, pixels: nat)
    returns (codes: seq<nat>)
    requires ValidHistory(m, hist)
    requires Decode(m, bits, hist, true, out, pixels).Accepted?
    ensures Explains(m, hist, bits, out, pixels, codes)
    decreases |bits|
  {
    var w := Width(m, |hist|);
    WidthBounds(m, |hist|);
    if |bits| < w { DecodeShort(m, bits, hist, true, out, pixels); }
    var code := Peek(m, bits, |hist|);
    if code == Clear(m) {
      DecodeClear(m, bits, hist, true, out, pixels);
      var rest := AcceptedIsPacked(m, [], bits[w..], out, pixels);
      ExplainClear(m, hist, bits, out, pixels, rest);
      codes := [Clear(m)] + rest;
    } else if code == End(m) {
      DecodeEnd(m, bits, hist, out, pixels);
      CodeBitsOfValue(bits[..w]);
      codes := [];
      assert out + [] == out;
    } else {
      if !ValidCode(m, code, |hist|) { DecodeInvalid(m, bits, hist, out, pixels); }
      DecodeData(m, bits, hist, out, pixels);
      var rest := AcceptedIsPacked(m, hist + [code], bits[w..], out + Expand(m, hist + [code], |hist|), pixels);
      ExplainData(m, hist, bits, out, pixels, code, rest);
      codes := [code] + rest;
    }
  }

  /** A stream whose first code is a clear code, decoded from the decoder's start. */
  lemma LeadingClear(m: MinSize, bits: seq<bool>, pixels: nat)
    requires |bits| >= m + 1 && Value(bits[..m + 1]) == Clear(m)
    ensures Decode(m, bits, [], false, [], pixels) == Decode(m, bits, [], true, [], pixels)
  {
    WidthStart(m);
    DecodeClear(m, bits, [], false, [], pixels);
    DecodeClear(m, bits, [], true, [], pixels);
  }

  ghost predicate Encodes(m: MinSize, codes: seq<nat>, bits: seq<bool>, picture: seq<byte>) {
    && codes != [] && codes[0] == Clear(m)
    && ValidStream(m, [], codes)
    && Packed(m, [], codes) <= bits
    && Meaning(m, [], codes) == picture
  }

  /** Exactly the payloads that begin with a packed, clear-led valid stream of `pixels` pixels pass. */
  lemma AcceptanceExact(m: MinSize, payload: seq<byte>, pixels: nat, picture: seq<byte>)
    ensures Decode(m, BitsOf(payload), [], false, [], pixels) == Accepted(picture) <==>
            |picture| == pixels && exists codes :: Encodes(m, codes, BitsOf(payload), picture)
  {
    var bits := BitsOf(payload);
    WidthStart(m);
    WidthBounds(m, 0);
    forall codes | Encodes(m, codes, bits, picture) && |picture| == pixels
      ensures Decode(m, bits, [], false, [], pixels) == Accepted(picture)
    {
      FirstCode(Clear(m), m + 1, Packed(m, [], codes[1..]), bits);
      LeadingClear(m, bits, pixels);
      PackedDecodes(m, [], codes, bits, [], pixels);
      assert [] + Meaning(m, [], codes) == picture;
    }
    if Decode(m, bits, [], false, [], pixels) == Accepted(picture) {
      if |bits| < m + 1 { DecodeShort(m, bits, [], false, [], pixels); }
      if Peek(m, bits, 0) != Clear(m) { DecodeUncleared(m, bits, [], [], pixels); }
      DecodeClear(m, bits, [], false, [], pixels);
      var rest := AcceptedIsPacked(m, [], bits[m + 1..], [], pixels);
      var codes := [Clear(m)] + rest;
      StreamClear(m, [], rest);
      CodeBitsOfValue(bits[..m + 1]);
      PrefixSplit(bits, m + 1, Packed(m, [], rest));
      assert [] + Meaning(m, [], rest) == Meaning(m, [], rest);
      assert Encodes(m, codes, bits, picture);
    }
  }

  // ---- the greedy encoder

  /** Encoder string table: from strings to codes. */
  type Table = map<seq<byte>, nat>

  function RootTable(m: MinSize): Table {
    map b: byte | b < Clear(m) :: [b] := b as nat
  }

  predicate Paints(m: MinSize, s: seq<byte>) {
    forall i | 0 <= i < |s| :: s[i] < Clear(m)
  }

  /** The table after emitting `w` before pixel `b`: the string `w + [b]` gets the next code, if any. */
  function Learn(m: MinSize, hist: seq<nat>, table: Table, w: seq<byte>, b: byte): Table {
    var next := End(m) + 1 + |hist|;
    if next < 4096 then table[w + [b] := next] else table
  }

  /**
   Codes for the pixels `w + s`, `w` being the match in progress. After each code the policy says
   whether to emit a clear code; a full table is kept as it is until the policy clears it.
   */
  function Greedy(m: MinSize, s: seq<byte>, hist: seq<nat>, table: Table, w: seq<byte>,
                  policy: seq<nat> -> bool): seq<nat>
    requires w in table
    requires forall b: byte | b < Clear(m) :: [b] in table
    requires Paints(m, s)
    decreases |s|
  {
    if s == [] then [table[w]]
    else if w + [s[0]] in table then Greedy(m, s[1..], hist, table, w + [s[0]], policy)
    else
      var code := table[w];
      var hist' := hist + [code];
      if policy(hist') then
        [code, Clear(m)] + Greedy(m, s[1..], [], RootTable(m), [s[0]], policy)
      else
        [code] + Greedy(m, s[1..], hist', Learn(m, hist, table, w, s[0]), [s[0]], policy)
  }

  function EncodeCodes(m: MinSize, s: seq<byte>, policy: seq<nat> -> bool): (codes: seq<nat>)
    requires Paints(m, s)
  {
    [Clear(m)] + if s == [] then [] else Greedy(m, s[1..], [], RootTable(m), [s[0]], policy)
  }

  /**
   The encoder's own bit writer. `free` is the code its table hands out next and `width` its running
   code width, which grows when the code handed out no longer fits; a clear code resets both.
   */
  function Emit(m: MinSize, codes: seq<nat>, free: nat, width: nat): seq<bool>
    decreases |codes|
  {
    if codes == [] then CodeBits(End(m), width)
    else if codes[0] == Clear(m) then CodeBits(Clear(m), width) + Emit(m, codes[1..], End(m) + 1, m + 1)
    else
      var grows := free < 4096 && free == Pow2(width) && width < 12;
      CodeBits(codes[0], width) +
      Emit(m, codes[1..], if free < 4096 then free + 1 else free, if grows then width + 1 else width)
  }

  /** The payload bytes of an encoded picture. */
  function Encode(m: MinSize, s: seq<byte>, policy: seq<nat> -> bool): seq<byte>
    requires Paints(m, s)
  {
    PackBytes(Emit(m, EncodeCodes(m, s, policy), End(m) + 1, m + 1))
  }

  lemma WidthAfter(m: MinSize, k: nat, free: nat)
    requires free == if End(m) + 1 + k < 4096 then End(m) + 1 + k else 4096
    ensures Width(m, k + 1) ==
            if free < 4096 && free == Pow2(Width(m, k)) && Width(m, k) < 12 then Width(m, k) + 1 else Width(m, k)
  {
    if k == 0 {
      WidthStart(m);
      assert Pow2(m + 1) == 2 * Clear(m);
    } else if NextCode(m, k) < 4096 {
      WidthStep(m, k);
      WidthBounds(m, k);
      assert Pow2(11) == 2048;
      if Width(m, k) < 12 { Pow2Monotone(Width(m, k), 11); }
    }
  }

  /** The encoder's running width is the one the decoder is at, so its bits are the packed codes. */
  lemma {:induction false} EmitIsPacked(m: MinSize, hist: seq<nat>, codes: seq<nat>, free: nat)
    requires free == if End(m) + 1 + |hist| < 4096 then End(m) + 1 + |hist| else 4096
    ensures Emit(m, codes, free, Width(m, |hist|)) == Packed(m, hist, codes)
    decreases |codes|
  {
    if codes != [] {
      WidthStart(m);
      if codes[0] == Clear(m) {
        EmitIsPacked(m, [], codes[1..], End(m) + 1);
      } else {
        WidthAfter(m, |hist|, free);
        EmitIsPacked(m, hist + [codes[0]], codes[1..], if free < 4096 then free + 1 else free);
      }
    }
  }

  /** Table entry `x`, with code `c`, is what the decoder will hold for `c` once `w` is emitted. */
  ghost predicate Agrees(m: MinSize, hist: seq<nat>, w: seq<byte>, x: seq<byte>, c: nat)
    requires ValidHistory(m, hist) && w != []
  {
    (c < Clear(m) && x == [c]) ||
    (End(m) < c < 4096 && c - End(m) - 1 < |hist| &&
     var t := c - End(m) - 1;
     x == Expand(m, hist, t) + [if t + 1 < |hist| then First(m, hist, t + 1) else w[0]])
  }

  ghost predicate TableFor(m: MinSize, hist: seq<nat>, table: Table, w: seq<byte>)
    requires ValidHistory(m, hist)
  {
    && w != [] && w in table
    && (forall b: byte | b < Clear(m) :: [b] in table)
    && (forall x | x in table :: Agrees(m, hist, w, x, table[x]))
  }

  /** The code emitted for `w` is valid where it stands, and stands for `w`. */
  lemma EmittedMeans(m: MinSize, hist: seq<nat>, w: seq<byte>, c: nat)
    requires ValidHistory(m, hist) && w != [] && Agrees(m, hist, w, w, c)
    ensures ValidCode(m, c, |hist|) && ValidHistory(m, hist + [c])
    ensures Expand(m, hist + [c], |hist|) == w
    ensures First(m, hist + [c], |hist|) == w[0]
  {
    if c > End(m) {
      var t := c - End(m) - 1;
      ExpandPrefix(m, hist, [c], t);
      if t + 1 < |hist| { ExpandPrefix(m, hist, [c], t + 1); }
    }
  }

  /** Emitting `w` and starting the next match at `b` keeps every old entry right. */
  lemma AgreesStep(m: MinSize, hist: seq<nat>, w: seq<byte>, c: nat, b: byte, x: seq<byte>, cx: nat)
    requires ValidHistory(m, hist) && w != [] && Agrees(m, hist, w, w, c) && Agrees(m, hist, w, x, cx)
    ensures ValidHistory(m, hist + [c])
    ensures Agrees(m, hist + [c], [b], x, cx)
  {
    EmittedMeans(m, hist, w, c);
    if cx > End(m) {
      var t := cx - End(m) - 1;
      ExpandPrefix(m, hist, [c], t);
      if t + 1 < |hist| { ExpandPrefix(m, hist, [c], t + 1); }
    }
  }

  lemma TableStep(m: MinSize, hist: seq<nat>, table: Table, w: seq<byte>, b: byte)
    requires ValidHistory(m, hist) && TableFor(m, hist, table, w) && b < Clear(m)
    requires w + [b] !in table
    ensures ValidHistory(m, hist + [table[w]])
    ensures TableFor(m, hist + [table[w]], Learn(m, hist, table, w, b), [b])
  {
    var c := table[w];
    EmittedMeans(m, hist, w, c);
    forall x | x in table ensures Agrees(m, hist + [c], [b], x, table[x]) {
      AgreesStep(m, hist, w, c, b, x, table[x]);
    }
  }

  lemma RootTableFor(m: MinSize, b: byte)
    requires b < Clear(m)
    ensures TableFor(m, [], RootTable(m), [b])
  {
  }

  /** A longer match has the same first pixel, so the pending entry does not change. */
  lemma TableExtend(m: MinSize, hist: seq<nat>, table: Table, w: seq<byte>, b: byte)
    requires ValidHistory(m, hist) && TableFor(m, hist, table, w) && w + [b] in table
    ensures TableFor(m, hist, table, w + [b])
  {
    forall x | x in table ensures Agrees(m, hist, w + [b], x, table[x]) {
      assert Agrees(m, hist, w, x, table[x]);
    }
  }

  /** `codes` is a valid continuation of `hist` that stands for `picture`. */
  ghost predicate Draws(m: MinSize, hist: seq<nat>, codes: seq<nat>, picture: seq<byte>)
    requires ValidHistory(m, hist)
  {
    ValidStream(m, hist, codes) && Meaning(m, hist, codes) == picture
  }

  lemma DrawsCode(m: MinSize, hist: seq<nat>, w: seq<byte>, c: nat, rest: seq<nat>, picture: seq<byte>)
    requires ValidHistory(m, hist) && w != [] && Agrees(m, hist, w, w, c)
    requires ValidHistory(m, hist + [c]) && Draws(m, hist + [c], rest, picture)
    ensures Draws(m, hist, [c] + rest, w + picture)
  {
    EmittedMeans(m, hist, w, c);
    StreamCode(m, hist, c, rest);
  }

  lemma DrawsClear(m: MinSize, hist: seq<nat>, rest: seq<nat>, picture: seq<byte>)
    requires ValidHistory(m, hist) && Draws(m, [], rest, picture)
    ensures Draws(m, hist, [Clear(m)] + rest, picture)
  {
    StreamClear(m, hist, rest);
  }

  lemma DrawsCleared(m: MinSize, hist: seq<nat>, w: seq<byte>, c: nat, rest: seq<nat>, s: seq<byte>)
    requires ValidHistory(m, hist) && w != [] && Agrees(m, hist, w, w, c) && s != []
    requires Draws(m, [], rest, [s[0]] + s[1..])
    ensures Draws(m, hist, [c, Clear(m)] + rest, w + s)
  {
    assert [s[0]] + s[1..] == s;
    EmittedMeans(m, hist, w, c);
    DrawsClear(m, hist + [c], rest, s);
    DrawsCode(m, hist, w, c, [Clear(m)] + rest, s);
    assert [c, Clear(m)] + rest == [c] + ([Clear(m)] + rest);
  }

  /** The greedy encoder emits a valid stream that stands for exactly the pixels it was given. */
  lemma {:induction false} GreedyMeaning(m: MinSize, s: seq<byte>, hist: seq<nat>, table: Table,
                                         w: seq<byte>, policy: seq<nat> -> bool)
    requires ValidHistory(m, hist) && TableFor(m, hist, table, w) && Paints(m, s)
    ensures Draws(m, hist, Greedy(m, s, hist, table, w, policy), w + s)
    decreases |s|
  {
    var code := table[w];
    assert Agrees(m, hist, w, w, code);
    assert ValidHistory(m, hist + [code]) by { EmittedMeans(m, hist, w, code); }
    if s == [] {
      DrawsCode(m, hist, w, code, [], []);
      assert [code] + [] == [code];
    } else if w + [s[0]] in table {
      TableExtend(m, hist, table, w, s[0]);
      GreedyMeaning(m, s[1..], hist, table, w + [s[0]], policy);
      HeadMoved(w, s);
    } else if policy(hist + [code]) {
      RootTableFor(m, s[0]);
      GreedyMeaning(m, s[1..], [], RootTable(m), [s[0]], policy);
      DrawsCleared(m, hist, w, code, Greedy(m, s[1..], [], RootTable(m), [s[0]], policy), s);
    } else {
      TableStep(m, hist, table, w, s[0]);
      var table' := Learn(m, hist, table, w, s[0]);
      GreedyMeaning(m, s[1..], hist + [code], table', [s[0]], policy);
      HeadMoved(w, s);
      DrawsCode(m, hist, w, code, Greedy(m, s[1..], hist + [code], table', [s[0]], policy), s);
    }
  }

  /**
   Round trip: every picture, encoded greedily under any clear policy and packed into bytes, passes
   the validator with exactly its pixel count, and decodes to itself.
   */
  lemma RoundTrip(m: MinSize, s: seq<byte>, policy: seq<nat> -> bool)
    requires Paints(m, s)
    ensures Decode(m, BitsOf(Encode(m, s, policy)), [], false, [], |s|) == Accepted(s)
  {
    var codes := EncodeCodes(m, s, policy);
    EncodeMeaning(m, s, policy);
    WidthStart(m);
    EmitIsPacked(m, [], codes, End(m) + 1);
    UnpackPacked(Packed(m, [], codes));
    assert Encodes(m, codes, BitsOf(Encode(m, s, policy)), s);
    AcceptanceExact(m, Encode(m, s, policy), |s|, s);
  }

  lemma EncodeMeaning(m: MinSize, s: seq<byte>, policy: seq<nat> -> bool)
    requires Paints(m, s)
    ensures var codes := EncodeCodes(m, s, policy);
            codes[0] == Clear(m) && Draws(m, [], codes, s)
  {
    var codes := EncodeCodes(m, s, policy);
    if s != [] {
      RootTableFor(m, s[0]);
      GreedyMeaning(m, s[1..], [], RootTable(m), [s[0]], policy);
      assert [s[0]] + s[1..] == s;
      assert codes[1..] == Greedy(m, s[1..], [], RootTable(m), [s[0]], policy);
    } else {
      assert codes[1..] == [];
    }
  }
}
