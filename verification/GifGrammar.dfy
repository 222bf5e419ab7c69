/**
 The GIF container as bytes: data sub-blocks, extensions, image descriptors and the block list up to
 the trailer (sections 15, 20, 23, 26 and 27 of the GIF89a specification). Every `Take` function reads
 a construct at an offset, and is exact: it finds the construct if and only if its bytes are there.
 */
module GifGrammar {
  import opened Bytes
  import opened Wrappers

  // ---- data sub-blocks

  predicate ChunksOk(chunks: seq<seq<byte>>) {
    forall i | 0 <= i < |chunks| :: 1 <= |chunks[i]| <= 255
  }

  /** Each chunk behind its length, closed by an empty sub-block. */
  function SubBlocks(chunks: seq<seq<byte>>): (r: seq<byte>)
    requires ChunksOk(chunks)
    ensures |r| >= 1
  {
    if chunks == [] then [0] else [|chunks[0]|] + chunks[0] + SubBlocks(chunks[1..])
  }

  function Joined(chunks: seq<seq<byte>>): seq<byte> {
    if chunks == [] then [] else chunks[0] + Joined(chunks[1..])
  }

  /** Something read, and the offset behind it. */
  datatype Found<T> = Found(value: T, next: nat)

  function TakeChunks(d: seq<byte>, at: nat): (r: Option<Found<seq<seq<byte>>>>)
    ensures r.Some? ==> ChunksOk(r.value.value) && at < r.value.next <= |d|
    decreases |d| - at
  {
    if at >= |d| then None
    else if d[at] == 0 then Some(Found([], at + 1))
    else if at + 1 + d[at] > |d| then None
    else
      var rest := TakeChunks(d, at + 1 + d[at]);
      if rest.None? then None
      else Some(Found([d[at + 1..at + 1 + d[at]]] + rest.value.value, rest.value.next))
  }

  /** A length byte, its chunk, and the sub-blocks that follow. */
  lemma ChunkAt(d: seq<byte>, at: nat, c: seq<byte>, rest: seq<byte>)
    requires 1 <= |c| <= 255
    ensures At(d, at, [|c|] + c + rest) <==>
            at < |d| && d[at] == |c| && At(d, at + 1, c) && At(d, at + 1 + |c|, rest)
  {
    AtAppend(d, at, [|c|] + c, rest);
    AtAppend(d, at, [|c|], c);
    AtOne(d, at, |c|);
  }

  lemma {:induction false} TakeChunksSound(d: seq<byte>, at: nat)
    requires TakeChunks(d, at).Some?
    ensures var found := TakeChunks(d, at).value;
            At(d, at, SubBlocks(found.value)) && found.next == at + |SubBlocks(found.value)|
    decreases |d| - at
  {
    if d[at] == 0 {
      AtOne(d, at, 0);
    } else {
      var next := at + 1 + (d[at] as nat);
      TakeChunksSound(d, next);
      var c, rest := d[at + 1..next], TakeChunks(d, next).value.value;
      ChunkAt(d, at, c, SubBlocks(rest));
      assert ([c] + rest)[1..] == rest;
    }
  }

  lemma {:induction false} TakeChunksComplete(chunks: seq<seq<byte>>, d: seq<byte>, at: nat)
    requires ChunksOk(chunks) && At(d, at, SubBlocks(chunks))
    ensures TakeChunks(d, at) == Some(Found(chunks, at + |SubBlocks(chunks)|))
    decreases |chunks|
  {
    if chunks == [] {
      AtOne(d, at, 0);
    } else {
      ChunkAt(d, at, chunks[0], SubBlocks(chunks[1..]));
      AtSlice(d, at + 1, chunks[0]);
      TakeChunksComplete(chunks[1..], d, at + 1 + |chunks[0]|);
      assert [chunks[0]] + chunks[1..] == chunks;
    }
  }

  // ---- blocks

  datatype Block =
    | Control(flags: byte, delay: nat, index: byte)
    | Extension(kind: byte, data: seq<seq<byte>>)
    | Image(left: nat, top: nat, width: nat, height: nat, flags: byte, palette: seq<byte>, minSize: byte,
            data: seq<seq<byte>>)

  predicate Short(v: nat) { v < 0x1_0000 }

  function U16(v: nat): (r: seq<byte>)
    requires Short(v)
    ensures |r| == 2
  {
    [v % 256, v / 256]
  }

  lemma U16At(d: seq<byte>, at: nat, v: nat)
    requires Short(v)
    ensures At(d, at, U16(v)) <==> at + 2 <= |d| && Word16(d, at) == v
  {
    AtTwo(d, at, v % 256, v / 256);
  }

  /** Bytes of the colour table that follows a packed flags byte. */
  function PaletteSize(flags: byte): nat {
    if flags >= 0x80 then 3 * Pow2(flags % 8 + 1) else 0
  }

  predicate Shaped(b: Block) {
    match b
    case Control(_, delay, _) => Short(delay)
    case Extension(kind, data) => kind != 0xF9 && ChunksOk(data)
    case Image(left, top, width, height, flags, palette, _, data) =>
      && Short(left) && Short(top) && Short(width) && Short(height)
      && |palette| == PaletteSize(flags) && ChunksOk(data)
  }

  function Descriptor(b: Block): (r: seq<byte>)
    requires b.Image? && Shaped(b)
    ensures |r| == 10
  {
    [0x2C] + U16(b.left) + U16(b.top) + U16(b.width) + U16(b.height) + [b.flags]
  }

  function BlockBytes(b: Block): (r: seq<byte>)
    requires Shaped(b)
    ensures |r| >= 3 && r[0] in {0x21, 0x2C}
  {
    match b
    case Control(flags, delay, index) => [0x21, 0xF9] + [4, flags] + U16(delay) + [index, 0]
    case Extension(kind, data) => [0x21, kind] + SubBlocks(data)
    case Image(_, _, _, _, _, palette, minSize, data) => Descriptor(b) + palette + [minSize] + SubBlocks(data)
  }

  function TakeImage(d: seq<byte>, at: nat): (r: Option<Found<Block>>)
    requires at < |d| && d[at] == 0x2C
    ensures r.Some? ==> r.value.value.Image? && Shaped(r.value.value) && at < r.value.next <= |d|
  {
    if at + 10 > |d| || at + 10 + PaletteSize(d[at + 9]) >= |d| then None
    else
      var p := at + 10 + PaletteSize(d[at + 9]);
      var data := TakeChunks(d, p + 1);
      if data.None? then None
      else
        var image := Image(Word16(d, at + 1), Word16(d, at + 3), Word16(d, at + 5), Word16(d, at + 7), d[at + 9],
                           d[at + 10..p], d[p], data.value.value);
        Some(Found(image, data.value.next))
  }

  function TakeBlock(d: seq<byte>, at: nat): (r: Option<Found<Block>>)
    ensures r.Some? ==> Shaped(r.value.value) && at < r.value.next <= |d|
  {
    if at + 2 > |d| then None
    else if d[at] == 0x2C then TakeImage(d, at)
    else if d[at] != 0x21 then None
    else if d[at + 1] != 0xF9 then
      var data := TakeChunks(d, at + 2);
      if data.None? then None else Some(Found(Extension(d[at + 1], data.value.value), data.value.next))
    else if at + 8 <= |d| && d[at + 2] == 4 && d[at + 7] == 0
    then Some(Found(Control(d[at + 3], Word16(d, at + 4), d[at + 6]), at + 8))
    else None
  }

  /** The fields of `b` are what is read at `at`. */
  predicate DescriptorFields(b: Block, d: seq<byte>, at: nat)
    requires b.Image?
  {
    && at + 10 <= |d| && d[at] == 0x2C && Word16(d, at + 1) == b.left && Word16(d, at + 3) == b.top
    && Word16(d, at + 5) == b.width && Word16(d, at + 7) == b.height && d[at + 9] == b.flags
  }

  lemma DescriptorAt(b: Block, d: seq<byte>, at: nat)
    requires b.Image? && Shaped(b)
    ensures At(d, at, Descriptor(b)) <==> DescriptorFields(b, d, at)
  {
    var (l, t, w, h) := (U16(b.left), U16(b.top), U16(b.width), U16(b.height));
    AtAppend(d, at, [0x2C] + l + t + w + h, [b.flags]);
    AtAppend(d, at, [0x2C] + l + t + w, h);
    AtAppend(d, at, [0x2C] + l + t, w);
    AtAppend(d, at, [0x2C] + l, t);
    AtAppend(d, at, [0x2C], l);
    AtOne(d, at, 0x2C);
    AtOne(d, at + 9, b.flags);
    U16At(d, at + 1, b.left);
    U16At(d, at + 3, b.top);
    U16At(d, at + 5, b.width);
    U16At(d, at + 7, b.height);
  }

  lemma ImageAt(b: Block, d: seq<byte>, at: nat)
    requires b.Image? && Shaped(b)
    ensures var p := at + 10 + |b.palette|;
            At(d, at, BlockBytes(b)) <==>
            && DescriptorFields(b, d, at) && p < |d| && d[at + 10..p] == b.palette && d[p] == b.minSize
            && At(d, p + 1, SubBlocks(b.data))
  {
    var head, p := Descriptor(b), at + 10 + |b.palette|;
    AtAppend(d, at, head + b.palette + [b.minSize], SubBlocks(b.data));
    AtAppend(d, at, head + b.palette, [b.minSize]);
    AtAppend(d, at, head, b.palette);
    AtSlice(d, at + 10, b.palette);
    AtOne(d, p, b.minSize);
    DescriptorAt(b, d, at);
  }

  lemma ImageFound(b: Block, next: nat, d: seq<byte>, at: nat)
    requires b.Image? && Shaped(b) && DescriptorFields(b, d, at)
    requires var p := at + 10 + |b.palette|;
             && p < |d| && d[at + 10..p] == b.palette && d[p] == b.minSize
             && TakeChunks(d, p + 1) == Some(Found(b.data, next))
    ensures At(d, at, BlockBytes(b)) && next == at + |BlockBytes(b)|
  {
    TakeChunksSound(d, at + 11 + |b.palette|);
    ImageAt(b, d, at);
  }

  lemma TakeImageSound(d: seq<byte>, at: nat)
    requires at < |d| && d[at] == 0x2C && TakeImage(d, at).Some?
    ensures var found := TakeImage(d, at).value;
            At(d, at, BlockBytes(found.value)) && found.next == at + |BlockBytes(found.value)|
  {
    var found := TakeImage(d, at).value;
    ImageFound(found.value, found.next, d, at);
  }

  lemma TakeImageIs(b: Block, next: nat, d: seq<byte>, at: nat)
    requires b.Image? && Shaped(b) && DescriptorFields(b, d, at) && next <= |d|
    requires var p := at + 10 + |b.palette|;
             && p < |d| && d[at + 10..p] == b.palette && d[p] == b.minSize
             && TakeChunks(d, p + 1) == Some(Found(b.data, next))
    ensures TakeImage(d, at) == Some(Found(b, next))
  {
  }

  lemma TakeImageComplete(b: Block, d: seq<byte>, at: nat)
    requires b.Image? && Shaped(b) && At(d, at, BlockBytes(b))
    ensures at < |d| && d[at] == 0x2C && TakeImage(d, at) == Some(Found(b, at + |BlockBytes(b)|))
  {
    ImageAt(b, d, at);
    TakeChunksComplete(b.data, d, at + 11 + |b.palette|);
    TakeImageIs(b, at + |BlockBytes(b)|, d, at);
  }

  lemma ExtensionAt(b: Block, d: seq<byte>, at: nat)
    requires b.Extension? && Shaped(b)
    ensures At(d, at, BlockBytes(b)) <==>
            at + 2 <= |d| && d[at] == 0x21 && d[at + 1] == b.kind && At(d, at + 2, SubBlocks(b.data))
  {
    AtAppend(d, at, [0x21, b.kind], SubBlocks(b.data));
    AtTwo(d, at, 0x21, b.kind);
  }

  lemma ControlAt(b: Block, d: seq<byte>, at: nat)
    requires b.Control? && Shaped(b)
    ensures |BlockBytes(b)| == 8
    ensures At(d, at, BlockBytes(b)) <==>
            && at + 8 <= |d| && d[at] == 0x21 && d[at + 1] == 0xF9 && d[at + 2] == 4 && d[at + 3] == b.flags
            && Word16(d, at + 4) == b.delay && d[at + 6] == b.index && d[at + 7] == 0
  {
    AtAppend(d, at, [0x21, 0xF9] + [4, b.flags] + U16(b.delay), [b.index, 0]);
    AtAppend(d, at, [0x21, 0xF9] + [4, b.flags], U16(b.delay));
    AtAppend(d, at, [0x21, 0xF9], [4, b.flags]);
    AtTwo(d, at, 0x21, 0xF9);
    AtTwo(d, at + 2, 4, b.flags);
    U16At(d, at + 4, b.delay);
    AtTwo(d, at + 6, b.index, 0);
  }

  lemma TakeBlockSound(d: seq<byte>, at: nat)
    requires TakeBlock(d, at).Some?
    ensures var found := TakeBlock(d, at).value;
            At(d, at, BlockBytes(found.value)) && found.next == at + |BlockBytes(found.value)|
  {
    var b := TakeBlock(d, at).value.value;
    match b {
      case Control(_, _, _) => ControlAt(b, d, at);
      case Extension(_, _) =>
        TakeChunksSound(d, at + 2);
        ExtensionAt(b, d, at);
      case Image(_, _, _, _, _, _, _, _) => TakeImageSound(d, at);
    }
  }

  lemma TakeBlockComplete(b: Block, d: seq<byte>, at: nat)
    requires Shaped(b) && At(d, at, BlockBytes(b))
    ensures TakeBlock(d, at) == Some(Found(b, at + |BlockBytes(b)|))
  {
    match b {
      case Control(_, _, _) => ControlAt(b, d, at);
      case Extension(_, data) =>
        ExtensionAt(b, d, at);
        TakeChunksComplete(data, d, at + 2);
      case Image(_, _, _, _, _, _, _, _) => TakeImageComplete(b, d, at);
    }
  }

  /** A block is found exactly where its bytes are, and the reader goes on right behind them. */
  lemma TakeBlockExact(b: Block, d: seq<byte>, at: nat, next: nat)
    ensures TakeBlock(d, at) == Some(Found(b, next)) <==>
            Shaped(b) && At(d, at, BlockBytes(b)) && next == at + |BlockBytes(b)|
  {
    if TakeBlock(d, at) == Some(Found(b, next)) { TakeBlockSound(d, at); }
    if Shaped(b) && At(d, at, BlockBytes(b)) { TakeBlockComplete(b, d, at); }
  }

  // ---- the block list

  const TRAILER: byte := 0x3B

  predicate AllShaped(blocks: seq<Block>) { forall i | 0 <= i < |blocks| :: Shaped(blocks[i]) }

  function BlocksBytes(blocks: seq<Block>): (r: seq<byte>)
    requires AllShaped(blocks)
    ensures r != []
  {
    if blocks == [] then [TRAILER] else BlockBytes(blocks[0]) + BlocksBytes(blocks[1..])
  }

  function TakeBlocks(d: seq<byte>, at: nat): (r: Option<seq<Block>>)
    ensures r.Some? ==> AllShaped(r.value)
    decreases |d| - at
  {
    if at + 1 == |d| && d[at] == TRAILER then Some([])
    else
      var b := TakeBlock(d, at);
      if b.None? then None
      else
        var rest := TakeBlocks(d, b.value.next);
        if rest.None? then None else Some([b.value.value] + rest.value)
  }

  /** `blocks` and the trailer are all there is from `at` on. */
  predicate Spells(d: seq<byte>, at: nat, blocks: seq<Block>) {
    AllShaped(blocks) && At(d, at, BlocksBytes(blocks)) && at + |BlocksBytes(blocks)| == |d|
  }

  lemma SpellsCons(d: seq<byte>, at: nat, b: Block, rest: seq<Block>)
    requires Shaped(b)
    ensures Spells(d, at, [b] + rest) <==> At(d, at, BlockBytes(b)) && Spells(d, at + |BlockBytes(b)|, rest)
  {
    var all := [b] + rest;
    assert all[1..] == rest;
    assert AllShaped(all) <==> AllShaped(rest) by {
      assert forall i | 0 <= i < |rest| :: rest[i] == all[i + 1];
    }
    if AllShaped(rest) { AtAppend(d, at, BlockBytes(b), BlocksBytes(rest)); }
  }

  lemma {:induction false} TakeBlocksSound(d: seq<byte>, at: nat)
    requires TakeBlocks(d, at).Some?
    ensures Spells(d, at, TakeBlocks(d, at).value)
    decreases |d| - at
  {
    if at + 1 == |d| && d[at] == TRAILER {
      AtOne(d, at, TRAILER);
    } else {
      var found := TakeBlock(d, at).value;
      TakeBlockSound(d, at);
      TakeBlocksSound(d, found.next);
      SpellsCons(d, at, found.value, TakeBlocks(d, found.next).value);
    }
  }

  lemma {:induction false} TakeBlocksComplete(d: seq<byte>, at: nat, blocks: seq<Block>)
    requires Spells(d, at, blocks)
    ensures TakeBlocks(d, at) == Some(blocks)
    decreases |blocks|
  {
    if blocks == [] {
      AtOne(d, at, TRAILER);
    } else {
      var b, rest := blocks[0], blocks[1..];
      assert [b] + rest == blocks;
      SpellsCons(d, at, b, rest);
      TakeBlockComplete(b, d, at);
      TakeBlocksComplete(d, at + |BlockBytes(b)|, rest);
    }
  }

  /** A file spells at most one block list; the reader finds it if and only if there is one. */
  lemma TakeBlocksExact(d: seq<byte>, at: nat, blocks: seq<Block>)
    ensures TakeBlocks(d, at) == Some(blocks) <==> Spells(d, at, blocks)
  {
    if TakeBlocks(d, at) == Some(blocks) { TakeBlocksSound(d, at); }
    if Spells(d, at, blocks) { TakeBlocksComplete(d, at, blocks); }
  }
}
