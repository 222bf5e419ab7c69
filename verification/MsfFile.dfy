/**
 MSF files in bytes: which bytes stand where when streams are laid out in given blocks, that the reader
 returns given streams exactly for the files in which they stand like that, and that such a file can be
 built for every placement in distinct blocks.
 */
module MsfFile {
  import opened Bytes
  import opened Wrappers
  import opened Msf
  import opened MsfLayout

  type Streams = seq<Option<seq<byte>>>

  /** Block size and count, the two superblock words nobody reads, and the blocks of every part. */
  datatype Layout = Layout(bs: nat, count: nat, freeMap: nat, reserved: nat, mapBlock: nat,
                           directoryBlocks: seq<nat>, lists: seq<seq<nat>>)

  // ---- bytes in blocks

  function Least(a: nat, b: nat): nat { if a <= b then a else b }

  /** The part of `bytes` that goes into block number `k`; the last one may be short. */
  function Chunk(bytes: seq<byte>, k: nat, bs: nat): seq<byte> {
    if k * bs <= |bytes| then bytes[k * bs..Least(k * bs + bs, |bytes|)] else []
  }

  /** Every chunk of `bytes` stands at its block. */
  ghost predicate Placed(data: seq<byte>, bs: nat, blocks: seq<nat>, bytes: seq<byte>) {
    bs > 0 && |blocks| == CeilDiv(|bytes|, bs) &&
    forall k | 0 <= k < |blocks| :: At(data, blocks[k] * bs, Chunk(bytes, k, bs))
  }

  lemma ChunkByte(bytes: seq<byte>, bs: nat, k: nat, r: nat)
    requires r < bs && k * bs + r < |bytes|
    ensures r < |Chunk(bytes, k, bs)| && Chunk(bytes, k, bs)[r] == bytes[k * bs + r]
  {
  }

  lemma PlacedByte(data: seq<byte>, bs: nat, blocks: seq<nat>, bytes: seq<byte>, k: nat, r: nat)
    requires Placed(data, bs, blocks, bytes) && InData(data, bs, blocks)
    requires k < |blocks| && r < bs && k * bs + r < |bytes|
    ensures k * bs + r < |blocks| * bs && Gather(data, bs, blocks)[k * bs + r] == bytes[k * bs + r]
  {
    assert At(data, blocks[k] * bs, Chunk(bytes, k, bs));
    ChunkByte(bytes, bs, k, r);
    GatherPlace(data, bs, blocks, k, r);
  }

  lemma PlacedGathers(data: seq<byte>, bs: nat, blocks: seq<nat>, bytes: seq<byte>)
    requires Placed(data, bs, blocks, bytes) && InData(data, bs, blocks)
    ensures bytes <= Gather(data, bs, blocks)
  {
    var all := Gather(data, bs, blocks);
    assert |bytes| <= |all| by { CeilCovers(|bytes|, bs); }
    forall j | 0 <= j < |bytes| ensures all[j] == bytes[j] { PlacedAt(data, bs, blocks, bytes, j); }
    assert all[..|bytes|] == bytes;
  }

  lemma PlacedAt(data: seq<byte>, bs: nat, blocks: seq<nat>, bytes: seq<byte>, j: nat)
    requires Placed(data, bs, blocks, bytes) && InData(data, bs, blocks) && j < |bytes|
    ensures j < |Gather(data, bs, blocks)| && Gather(data, bs, blocks)[j] == bytes[j]
  {
    var q, r := Place(j, |bytes|, bs);
    PlacedByte(data, bs, blocks, bytes, q, r);
  }

  /** Byte `j` of `size` bytes is byte `r` of block number `q`. */
  lemma Place(j: nat, size: nat, bs: nat) returns (q: nat, r: nat)
    requires bs > 0 && j < size
    ensures j == q * bs + r && r < bs && q < CeilDiv(size, bs)
  {
    CeilCovers(size, bs);
    QuotientBelow(j, bs, CeilDiv(size, bs));
    q, r := j / bs, j % bs;
  }

  lemma GatheredByte(data: seq<byte>, bs: nat, blocks: seq<nat>, bytes: seq<byte>, k: nat, r: nat)
    requires InData(data, bs, blocks) && bytes <= Gather(data, bs, blocks)
    requires k < |blocks| && r < bs && k * bs + r < |bytes|
    ensures blocks[k] * bs + r < |data| && data[blocks[k] * bs + r] == bytes[k * bs + r]
  {
    GatherPlace(data, bs, blocks, k, r);
    assert Gather(data, bs, blocks)[k * bs + r] == bytes[k * bs + r];
  }

  lemma GatheredChunk(data: seq<byte>, bs: nat, blocks: seq<nat>, bytes: seq<byte>, k: nat)
    requires InData(data, bs, blocks) && bytes <= Gather(data, bs, blocks) && k < |blocks|
    ensures At(data, blocks[k] * bs, Chunk(bytes, k, bs))
  {
    var c, o := Chunk(bytes, k, bs), blocks[k] * bs;
    assert o + bs <= |data|;
    forall r | 0 <= r < |c| ensures c[r] == data[o + r] { GatheredByte(data, bs, blocks, bytes, k, r); }
  }

  lemma GatheredPlaced(data: seq<byte>, bs: nat, blocks: seq<nat>, bytes: seq<byte>)
    requires bs > 0 && InData(data, bs, blocks) && |blocks| == CeilDiv(|bytes|, bs)
    requires bytes <= Gather(data, bs, blocks)
    ensures Placed(data, bs, blocks, bytes)
  {
    forall k | 0 <= k < |blocks| ensures At(data, blocks[k] * bs, Chunk(bytes, k, bs)) {
      GatheredChunk(data, bs, blocks, bytes, k);
    }
  }

  // ---- a file

  function DirectoryBytes(streams: Streams, l: Layout): seq<byte>
    requires AllWords(DirectoryWords(streams, l.lists))
  {
    EncodeWords(DirectoryWords(streams, l.lists))
  }

  function SuperWords(l: Layout, directorySize: nat): (r: seq<nat>)
    ensures |r| == 6
  {
    [l.bs, l.freeMap, l.count, directorySize, l.reserved, l.mapBlock]
  }

  /** The superblock's conditions, on its words alone. */
  ghost predicate SuperFits(l: Layout, size: nat) {
    && l.bs in BLOCK_SIZES && 0 < l.count && 0 < size <= l.count * l.bs && l.mapBlock < l.count
    && CeilDiv(size, l.bs) * 4 <= l.bs && AllWords(SuperWords(l, size))
  }

  /** The block map lists as many blocks as the directory needs. */
  ghost predicate MapFits(l: Layout, size: nat) {
    && l.bs > 0 && |l.directoryBlocks| == CeilDiv(size, l.bs)
    && Below(l.directoryBlocks, l.count) && AllWords(l.directoryBlocks)
  }

  /** Streams and layout respect the limits of the format. */
  ghost predicate Fits(streams: Streams, l: Layout) {
    && Described(streams, l.lists, l.bs, l.count)
    && SuperFits(l, |DirectoryBytes(streams, l)|) && MapFits(l, |DirectoryBytes(streams, l)|)
  }

  /** Signature, superblock words and block map stand where the layout says. */
  ghost predicate HeadStands(data: seq<byte>, l: Layout, size: nat)
    requires AllWords(SuperWords(l, size)) && AllWords(l.directoryBlocks)
  {
    && l.count * l.bs <= |data| && At(data, 0, SIGNATURE) && At(data, 32, EncodeWords(SuperWords(l, size)))
    && At(data, l.mapBlock * l.bs, EncodeWords(l.directoryBlocks))
  }

  ghost predicate StreamsPlaced(data: seq<byte>, streams: Streams, l: Layout) {
    |l.lists| == |streams| &&
    forall i | 0 <= i < |streams| && streams[i].Some? :: Placed(data, l.bs, l.lists[i], streams[i].value)
  }

  /** Signature, superblock words, block map, directory and streams all stand where the layout says. */
  ghost predicate Written(data: seq<byte>, streams: Streams, l: Layout) {
    && Fits(streams, l) && HeadStands(data, l, |DirectoryBytes(streams, l)|)
    && Placed(data, l.bs, l.directoryBlocks, DirectoryBytes(streams, l))
    && StreamsPlaced(data, streams, l)
  }

  lemma WordsStand(ws: seq<nat>, d: seq<byte>, o: nat)
    requires AllWords(ws) && At(d, o, EncodeWords(ws))
    ensures o + 4 * |ws| <= |d| && Words(d, o, |ws|) == ws
  {
    AtSlice(d, o, EncodeWords(ws));
    WordsOfEncoded(ws, d, o);
  }

  lemma WordsStandBack(d: seq<byte>, o: nat, n: nat)
    requires o + 4 * n <= |d|
    ensures AllWords(Words(d, o, n)) && At(d, o, EncodeWords(Words(d, o, n)))
  {
    EncodeOfWords(d, o, n);
    AtSlice(d, o, EncodeWords(Words(d, o, n)));
  }

  // ---- what is written reads back

  lemma CountFits(n: nat, bs: nat, count: nat)
    requires bs > 0 && count * bs <= n
    ensures count <= n / bs
  {
    if n / bs < count {
      assert n == n / bs * bs + n % bs;
      MulLe(n / bs + 1, count, bs);
    }
  }

  lemma SuperRead(data: seq<byte>, l: Layout, size: nat)
    requires AllWords(SuperWords(l, size)) && At(data, 32, EncodeWords(SuperWords(l, size)))
    ensures |data| >= 56 && SuperOf(data) == Super(l.bs, l.count, size, l.mapBlock)
  {
    var ws := SuperWords(l, size);
    WordsStand(ws, data, 32);
    WordsAt(data, 32, 6, 0);
    WordsAt(data, 32, 6, 2);
    WordsAt(data, 32, 6, 3);
    WordsAt(data, 32, 6, 5);
  }

  lemma SuperAccepted(data: seq<byte>, l: Layout, size: nat)
    requires SuperFits(l, size) && l.count * l.bs <= |data|
    requires At(data, 0, SIGNATURE) && At(data, 32, EncodeWords(SuperWords(l, size)))
    ensures SuperOk(data) && SuperOf(data) == Super(l.bs, l.count, size, l.mapBlock)
  {
    SuperRead(data, l, size);
    SignatureRead(data);
    CountFits(|data|, l.bs, l.count);
  }

  lemma SignatureRead(data: seq<byte>)
    requires |data| >= 32
    ensures At(data, 0, SIGNATURE) <==> data[..32] == SIGNATURE
  {
    AtSlice(data, 0, SIGNATURE);
    assert data[0..32] == data[..32];
  }

  lemma MapRead(data: seq<byte>, blocks: seq<nat>, o: nat)
    requires SuperOk(data) && AllWords(blocks) && At(data, o, EncodeWords(blocks))
    requires var s := SuperOf(data); o == s.blockMap * s.bs && |blocks| == CeilDiv(s.directorySize, s.bs)
    ensures DirectoryBlocks(data) == blocks
  {
    WordsStand(blocks, data, o);
    MapWords(data, o, |blocks|);
  }

  lemma MapWords(data: seq<byte>, o: nat, n: nat)
    requires SuperOk(data) && o + 4 * n <= |data|
    requires var s := SuperOf(data); o == s.blockMap * s.bs && n == CeilDiv(s.directorySize, s.bs)
    ensures DirectoryBlocks(data) == Words(data, o, n)
  {
  }

  lemma HeadRead(data: seq<byte>, l: Layout, size: nat)
    requires SuperFits(l, size) && MapFits(l, size) && HeadStands(data, l, size)
    ensures SuperOk(data) && SuperOf(data) == Super(l.bs, l.count, size, l.mapBlock)
    ensures DirectoryBlocks(data) == l.directoryBlocks
  {
    SuperAccepted(data, l, size);
    MapRead(data, l.directoryBlocks, l.mapBlock * l.bs);
  }

  lemma DirectoryRead(data: seq<byte>, streams: Streams, l: Layout)
    requires Written(data, streams, l)
    ensures SuperOk(data) && Below(DirectoryBlocks(data), SuperOf(data).count)
    ensures Directory(data) == DirectoryBytes(streams, l)
  {
    HeadRead(data, l, |DirectoryBytes(streams, l)|);
    BelowInData(data, l.directoryBlocks);
    var bytes := DirectoryBytes(streams, l);
    PlacedGathers(data, l.bs, l.directoryBlocks, bytes);
    assert Gather(data, l.bs, l.directoryBlocks)[..|bytes|] == bytes;
  }

  lemma WrittenIsLaidOut(data: seq<byte>, streams: Streams, l: Layout)
    requires Written(data, streams, l)
    ensures LaidOut(data, streams, l.lists)
  {
    HeadRead(data, l, |DirectoryBytes(streams, l)|);
    DirectoryRead(data, streams, l);
    forall i | 0 <= i < |streams| && streams[i].Some?
      ensures InData(data, l.bs, l.lists[i]) && streams[i].value <= Gather(data, l.bs, l.lists[i])
    {
      BelowInData(data, l.lists[i]);
      PlacedGathers(data, l.bs, l.lists[i], streams[i].value);
    }
  }

  /** Every file in which the streams stand, in whatever blocks, reads as exactly those streams. */
  lemma WrittenReads(data: seq<byte>, streams: Streams, l: Layout)
    requires Written(data, streams, l)
    ensures Reads(data, streams)
  {
    WrittenIsLaidOut(data, streams, l);
    LaidOutReads(data, streams, l.lists);
  }

  // ---- what is read was written

  function LayoutOf(data: seq<byte>, lists: seq<seq<nat>>): Layout
    requires SuperOk(data)
  {
    var s := SuperOf(data);
    Layout(s.bs, s.count, Word32(data, 36), Word32(data, 48), s.blockMap, DirectoryBlocks(data), lists)
  }

  lemma SuperStands(data: seq<byte>, l: Layout)
    requires SuperOk(data) && l == LayoutOf(data, l.lists)
    ensures var ws := SuperWords(l, SuperOf(data).directorySize);
            AllWords(ws) && At(data, 32, EncodeWords(ws)) && At(data, 0, SIGNATURE)
  {
    SignatureRead(data);
    WordsStandBack(data, 32, 6);
    var ws := Words(data, 32, 6);
    forall k | 0 <= k < 6 ensures ws[k] == Word32(data, 32 + 4 * k) { WordsAt(data, 32, 6, k); }
    assert ws[0] == Word32(data, 32) && ws[1] == Word32(data, 36) && ws[2] == Word32(data, 40);
    assert ws[3] == Word32(data, 44) && ws[4] == Word32(data, 48) && ws[5] == Word32(data, 52);
    assert ws == SuperWords(l, SuperOf(data).directorySize);
  }

  lemma CountInData(n: nat, bs: nat, count: nat)
    requires bs > 0 && count <= n / bs
    ensures count * bs <= n
  {
    MulLe(count, n / bs, bs);
  }

  lemma MapStands(data: seq<byte>, o: nat)
    requires SuperOk(data) && o == SuperOf(data).blockMap * SuperOf(data).bs
    ensures AllWords(DirectoryBlocks(data)) && At(data, o, EncodeWords(DirectoryBlocks(data)))
  {
    var n := CeilDiv(SuperOf(data).directorySize, SuperOf(data).bs);
    MapInData(data);
    MapWords(data, o, n);
    WordsStandBack(data, o, n);
  }

  lemma ReadSuperFits(data: seq<byte>, l: Layout, size: nat)
    requires SuperOk(data) && l == LayoutOf(data, l.lists) && size == SuperOf(data).directorySize
    ensures SuperFits(l, size)
  {
    SuperStands(data, l);
  }

  lemma ReadHeadStands(data: seq<byte>, l: Layout, size: nat, o: nat)
    requires AllWords(SuperWords(l, size)) && AllWords(l.directoryBlocks) && l.bs > 0 && l.count <= |data| / l.bs
    requires At(data, 0, SIGNATURE) && At(data, 32, EncodeWords(SuperWords(l, size)))
    requires o == l.mapBlock * l.bs && At(data, o, EncodeWords(l.directoryBlocks))
    ensures HeadStands(data, l, size)
  {
    CountInData(|data|, l.bs, l.count);
  }

  lemma ReadMapFits(data: seq<byte>, l: Layout, size: nat, o: nat)
    requires SuperOk(data) && l == LayoutOf(data, l.lists) && size == SuperOf(data).directorySize
    requires Below(DirectoryBlocks(data), SuperOf(data).count) && o == SuperOf(data).blockMap * SuperOf(data).bs
    ensures MapFits(l, size) && At(data, o, EncodeWords(l.directoryBlocks))
  {
    MapStands(data, o);
  }

  function MapOffset(l: Layout): (r: nat)
    ensures r == l.mapBlock * l.bs
  {
    l.mapBlock * l.bs
  }

  lemma HeadWritten(data: seq<byte>, l: Layout, size: nat)
    requires SuperOk(data) && l == LayoutOf(data, l.lists) && size == SuperOf(data).directorySize
    requires Below(DirectoryBlocks(data), SuperOf(data).count)
    ensures SuperFits(l, size) && MapFits(l, size) && HeadStands(data, l, size)
  {
    var o: nat := MapOffset(l);
    SuperStands(data, l);
    ReadSuperFits(data, l, size);
    ReadMapFits(data, l, size, o);
    ReadHeadStands(data, l, size, o);
  }

  lemma LaidOutDirectory(data: seq<byte>, streams: Streams, l: Layout)
    requires LaidOut(data, streams, l.lists) && l == LayoutOf(data, l.lists)
    ensures Placed(data, l.bs, l.directoryBlocks, DirectoryBytes(streams, l))
  {
    BelowInData(data, l.directoryBlocks);
    CeilCovers(SuperOf(data).directorySize, l.bs);
    GatheredPlaced(data, l.bs, l.directoryBlocks, Directory(data));
  }

  lemma LaidOutStreams(data: seq<byte>, streams: Streams, l: Layout)
    requires LaidOut(data, streams, l.lists) && l == LayoutOf(data, l.lists)
    ensures StreamsPlaced(data, streams, l)
  {
    forall i | 0 <= i < |streams| && streams[i].Some?
      ensures Placed(data, l.bs, l.lists[i], streams[i].value)
    {
      GatheredPlaced(data, l.bs, l.lists[i], streams[i].value);
    }
  }

  lemma LaidOutIsWritten(data: seq<byte>, streams: Streams, lists: seq<seq<nat>>)
    requires LaidOut(data, streams, lists)
    ensures Written(data, streams, LayoutOf(data, lists))
  {
    var l := LayoutOf(data, lists);
    HeadWritten(data, l, SuperOf(data).directorySize);
    LaidOutStreams(data, streams, l);
    LaidOutDirectory(data, streams, l);
  }

  /** The reader returns given streams exactly for the files in which they stand, in some layout. */
  lemma ReadsIffWritten(data: seq<byte>, streams: Streams)
    ensures Reads(data, streams) <==> exists l :: Written(data, streams, l)
  {
    if Reads(data, streams) {
      ReadsIffLaidOut(data, streams);
      var lists :| LaidOut(data, streams, lists);
      LaidOutIsWritten(data, streams, lists);
    }
    forall l | Written(data, streams, l) ensures Reads(data, streams) { WrittenReads(data, streams, l); }
  }

  // ---- every placement in distinct blocks can be written

  /** Bytes that go to the start of a block. */
  datatype Piece = Piece(block: nat, bytes: seq<byte>)

  /** `data` with `bytes` written over it at `at`. */
  function Overwrite(data: seq<byte>, at: nat, bytes: seq<byte>): (r: seq<byte>)
    requires at + |bytes| <= |data|
    ensures |r| == |data|
  {
    data[..at] + bytes + data[at + |bytes|..]
  }

  lemma OverwriteStands(data: seq<byte>, at: nat, bytes: seq<byte>, o: nat, s: seq<byte>)
    requires at + |bytes| <= |data|
    ensures At(Overwrite(data, at, bytes), at, bytes)
    ensures At(data, o, s) && (o + |s| <= at || at + |bytes| <= o) ==> At(Overwrite(data, at, bytes), o, s)
  {
  }

  /** Pieces that fit their blocks, which lie in a file of `count` blocks. */
  ghost predicate PiecesFit(pieces: seq<Piece>, bs: nat, count: nat) {
    forall k | 0 <= k < |pieces| :: pieces[k].block < count && |pieces[k].bytes| <= bs
  }

  ghost predicate BlocksApart(pieces: seq<Piece>) {
    forall j, k | 0 <= j < k < |pieces| :: pieces[j].block != pieces[k].block
  }

  lemma PieceInside(block: nat, length: nat, bs: nat, count: nat)
    requires block < count && length <= bs
    ensures block * bs + length <= count * bs
  {
    MulLe(block + 1, count, bs);
  }

  /** The file with the first `n` pieces written into it, one after the other. */
  function Image(pieces: seq<Piece>, bs: nat, count: nat, n: nat): (r: seq<byte>)
    requires PiecesFit(pieces, bs, count) && n <= |pieces|
    ensures |r| == count * bs
  {
    if n == 0 then seq(count * bs, _ => 0)
    else
      var p := pieces[n - 1];
      PieceInside(p.block, |p.bytes|, bs, count);
      Overwrite(Image(pieces, bs, count, n - 1), p.block * bs, p.bytes)
  }

  lemma BlocksAside(a: nat, b: nat, bs: nat)
    requires a != b
    ensures a * bs + bs <= b * bs || b * bs + bs <= a * bs
  {
    if a < b { MulLe(a + 1, b, bs); } else { MulLe(b + 1, a, bs); }
  }

  /** Written into distinct blocks, every piece stands. */
  lemma {:induction false} ImageStands(pieces: seq<Piece>, bs: nat, count: nat, n: nat, k: nat)
    requires PiecesFit(pieces, bs, count) && BlocksApart(pieces) && k < n <= |pieces|
    ensures At(Image(pieces, bs, count, n), pieces[k].block * bs, pieces[k].bytes)
    decreases n
  {
    var p, q := pieces[n - 1], pieces[k];
    var before := Image(pieces, bs, count, n - 1);
    PieceInside(p.block, |p.bytes|, bs, count);
    if k < n - 1 {
      ImageStands(pieces, bs, count, n - 1, k);
      BlocksAside(p.block, q.block, bs);
    }
    OverwriteStands(before, p.block * bs, p.bytes, q.block * bs, q.bytes);
  }

  /** `bytes` cut into pieces for `blocks`. */
  function Cut(blocks: seq<nat>, bytes: seq<byte>, bs: nat): (r: seq<Piece>)
    ensures |r| == |blocks| && forall k | 0 <= k < |r| :: r[k] == Piece(blocks[k], Chunk(bytes, k, bs))
  {
    seq(|blocks|, k requires 0 <= k < |blocks| => Piece(blocks[k], Chunk(bytes, k, bs)))
  }

  function BytesOf(stream: Option<seq<byte>>): seq<byte> { if stream.None? then [] else stream.value }

  /** The pieces of the first `n` streams. */
  function StreamPieces(streams: Streams, l: Layout, n: nat): seq<Piece>
    requires n <= |streams| == |l.lists|
  {
    if n == 0 then [] else StreamPieces(streams, l, n - 1) + Cut(l.lists[n - 1], BytesOf(streams[n - 1]), l.bs)
  }

  function SuperBytes(l: Layout, size: nat): (r: seq<byte>)
    requires AllWords(SuperWords(l, size))
    ensures |r| == 56
  {
    SIGNATURE + EncodeWords(SuperWords(l, size))
  }

  function FixedPieces(l: Layout, size: nat): (r: seq<Piece>)
    requires AllWords(SuperWords(l, size)) && AllWords(l.directoryBlocks)
    ensures |r| == 2
  {
    [Piece(0, SuperBytes(l, size)), Piece(l.mapBlock, EncodeWords(l.directoryBlocks))]
  }

  function Pieces(streams: Streams, l: Layout): seq<Piece>
    requires |streams| == |l.lists| && AllWords(DirectoryWords(streams, l.lists)) && AllWords(l.directoryBlocks)
    requires AllWords(SuperWords(l, |DirectoryBytes(streams, l)|))
  {
    var bytes := DirectoryBytes(streams, l);
    FixedPieces(l, |bytes|) + Cut(l.directoryBlocks, bytes, l.bs) + StreamPieces(streams, l, |streams|)
  }

  /** All blocks the layout uses: superblock, block map, directory, streams. */
  function AllBlocks(l: Layout): seq<nat> {
    [0, l.mapBlock] + l.directoryBlocks + Joined(l.lists, |l.lists|)
  }

  /** The streams can be written in this layout: it respects the format and no block is used twice. */
  ghost predicate Placeable(streams: Streams, l: Layout) {
    && Fits(streams, l) && NoDuplicates(AllBlocks(l))
  }

  function BlocksOf(pieces: seq<Piece>): (r: seq<nat>)
    ensures |r| == |pieces| && forall k | 0 <= k < |r| :: r[k] == pieces[k].block
  {
    seq(|pieces|, k requires 0 <= k < |pieces| => pieces[k].block)
  }

  lemma BlocksOfAppend(a: seq<Piece>, b: seq<Piece>)
    ensures BlocksOf(a + b) == BlocksOf(a) + BlocksOf(b)
  {
  }

  lemma {:induction false} StreamBlocks(streams: Streams, l: Layout, n: nat)
    requires n <= |streams| == |l.lists|
    ensures BlocksOf(StreamPieces(streams, l, n)) == Joined(l.lists, n)
    decreases n
  {
    if n > 0 {
      StreamBlocks(streams, l, n - 1);
      var cut := Cut(l.lists[n - 1], BytesOf(streams[n - 1]), l.bs);
      BlocksOfAppend(StreamPieces(streams, l, n - 1), cut);
      assert BlocksOf(cut) == l.lists[n - 1];
    }
  }

  lemma PieceBlocks(streams: Streams, l: Layout)
    requires Fits(streams, l)
    ensures BlocksOf(Pieces(streams, l)) == AllBlocks(l)
  {
    var bytes := DirectoryBytes(streams, l);
    var fixed, cut := FixedPieces(l, |bytes|), Cut(l.directoryBlocks, bytes, l.bs);
    BlocksOfAppend(fixed + cut, StreamPieces(streams, l, |streams|));
    BlocksOfAppend(fixed, cut);
    StreamBlocks(streams, l, |streams|);
    assert BlocksOf(fixed) == [0, l.mapBlock] && BlocksOf(cut) == l.directoryBlocks;
  }

  lemma CutFits(blocks: seq<nat>, bytes: seq<byte>, bs: nat, count: nat)
    requires Below(blocks, count)
    ensures PiecesFit(Cut(blocks, bytes, bs), bs, count)
  {
  }

  lemma FitAppend(a: seq<Piece>, b: seq<Piece>, bs: nat, count: nat)
    requires PiecesFit(a, bs, count) && PiecesFit(b, bs, count)
    ensures PiecesFit(a + b, bs, count)
  {
  }

  lemma {:induction false} StreamPiecesFit(streams: Streams, l: Layout, n: nat)
    requires n <= |streams| == |l.lists|
    requires forall i | 0 <= i < |l.lists| :: Below(l.lists[i], l.count)
    ensures PiecesFit(StreamPieces(streams, l, n), l.bs, l.count)
    decreases n
  {
    if n > 0 {
      StreamPiecesFit(streams, l, n - 1);
      CutFits(l.lists[n - 1], BytesOf(streams[n - 1]), l.bs, l.count);
      FitAppend(StreamPieces(streams, l, n - 1), Cut(l.lists[n - 1], BytesOf(streams[n - 1]), l.bs), l.bs, l.count);
    }
  }

  lemma FixedFit(l: Layout, size: nat)
    requires SuperFits(l, size) && MapFits(l, size)
    ensures PiecesFit(FixedPieces(l, size), l.bs, l.count)
  {
  }

  lemma AllFit(streams: Streams, l: Layout)
    requires Fits(streams, l)
    ensures PiecesFit(Pieces(streams, l), l.bs, l.count)
  {
    var bytes := DirectoryBytes(streams, l);
    var fixed, cut := FixedPieces(l, |bytes|), Cut(l.directoryBlocks, bytes, l.bs);
    FixedFit(l, |bytes|);
    CutFits(l.directoryBlocks, bytes, l.bs, l.count);
    StreamPiecesFit(streams, l, |streams|);
    FitAppend(fixed, cut, l.bs, l.count);
    FitAppend(fixed + cut, StreamPieces(streams, l, |streams|), l.bs, l.count);
  }

  /** The file that holds the streams in this layout, and zeros elsewhere. */
  function Build(streams: Streams, l: Layout): seq<byte>
    requires Fits(streams, l)
  {
    AllFit(streams, l);
    Image(Pieces(streams, l), l.bs, l.count, |Pieces(streams, l)|)
  }

  ghost predicate AllStand(data: seq<byte>, pieces: seq<Piece>, bs: nat) {
    forall k | 0 <= k < |pieces| :: At(data, pieces[k].block * bs, pieces[k].bytes)
  }

  lemma StandApart(data: seq<byte>, a: seq<Piece>, b: seq<Piece>, bs: nat)
    requires AllStand(data, a + b, bs)
    ensures AllStand(data, a, bs) && AllStand(data, b, bs)
  {
    var all := a + b;
    forall k | 0 <= k < |a| ensures At(data, a[k].block * bs, a[k].bytes) { assert all[k] == a[k]; }
    forall k | 0 <= k < |b| ensures At(data, b[k].block * bs, b[k].bytes) { assert all[|a| + k] == b[k]; }
  }

  lemma CutStands(data: seq<byte>, blocks: seq<nat>, bytes: seq<byte>, bs: nat)
    requires bs > 0 && |blocks| == CeilDiv(|bytes|, bs) && AllStand(data, Cut(blocks, bytes, bs), bs)
    ensures Placed(data, bs, blocks, bytes)
  {
    var cut := Cut(blocks, bytes, bs);
    forall k | 0 <= k < |blocks| ensures At(data, blocks[k] * bs, Chunk(bytes, k, bs)) {
      assert cut[k] == Piece(blocks[k], Chunk(bytes, k, bs));
    }
  }

  lemma {:induction false} StreamsStand(data: seq<byte>, streams: Streams, l: Layout, n: nat, i: nat)
    requires i < n <= |streams| == |l.lists| && AllStand(data, StreamPieces(streams, l, n), l.bs)
    ensures AllStand(data, Cut(l.lists[i], BytesOf(streams[i]), l.bs), l.bs)
    decreases n
  {
    StandApart(data, StreamPieces(streams, l, n - 1), Cut(l.lists[n - 1], BytesOf(streams[n - 1]), l.bs), l.bs);
    if i < n - 1 { StreamsStand(data, streams, l, n - 1, i); }
  }

  lemma StandingStreams(data: seq<byte>, streams: Streams, l: Layout)
    requires Fits(streams, l) && AllStand(data, StreamPieces(streams, l, |streams|), l.bs)
    ensures StreamsPlaced(data, streams, l)
  {
    forall i | 0 <= i < |streams| && streams[i].Some?
      ensures Placed(data, l.bs, l.lists[i], streams[i].value)
    {
      StreamsStand(data, streams, l, |streams|, i);
      CutStands(data, l.lists[i], streams[i].value, l.bs);
    }
  }

  lemma StandingHead(data: seq<byte>, l: Layout, size: nat)
    requires AllWords(SuperWords(l, size)) && AllWords(l.directoryBlocks) && |data| == l.count * l.bs
    requires AllStand(data, FixedPieces(l, size), l.bs)
    ensures HeadStands(data, l, size)
  {
    var fixed := FixedPieces(l, size);
    assert At(data, fixed[0].block * l.bs, fixed[0].bytes);
    assert At(data, fixed[1].block * l.bs, fixed[1].bytes);
    AtAppend(data, 0, SIGNATURE, EncodeWords(SuperWords(l, size)));
  }

  lemma AllBlocksApart(streams: Streams, l: Layout)
    requires Placeable(streams, l)
    ensures BlocksApart(Pieces(streams, l))
  {
    PieceBlocks(streams, l);
    var pieces := Pieces(streams, l);
    forall j, k | 0 <= j < k < |pieces| ensures pieces[j].block != pieces[k].block {
      assert BlocksOf(pieces)[j] != BlocksOf(pieces)[k];
    }
  }

  lemma BuildStands(streams: Streams, l: Layout)
    requires Placeable(streams, l)
    ensures |Build(streams, l)| == l.count * l.bs && AllStand(Build(streams, l), Pieces(streams, l), l.bs)
  {
    AllFit(streams, l);
    AllBlocksApart(streams, l);
    ImageAllStand(Pieces(streams, l), l.bs, l.count);
  }

  lemma ImageAllStand(pieces: seq<Piece>, bs: nat, count: nat)
    requires PiecesFit(pieces, bs, count) && BlocksApart(pieces)
    ensures AllStand(Image(pieces, bs, count, |pieces|), pieces, bs)
  {
    forall k | 0 <= k < |pieces|
      ensures At(Image(pieces, bs, count, |pieces|), pieces[k].block * bs, pieces[k].bytes)
    {
      ImageStands(pieces, bs, count, |pieces|, k);
    }
  }

  /** For every placement in distinct blocks the built file holds the streams, and reads as them. */
  lemma BuildReads(streams: Streams, l: Layout)
    requires Placeable(streams, l)
    ensures Written(Build(streams, l), streams, l)
    ensures Reads(Build(streams, l), streams)
  {
    var data, bytes := Build(streams, l), DirectoryBytes(streams, l);
    BuildStands(streams, l);
    var fixed, cut := FixedPieces(l, |bytes|), Cut(l.directoryBlocks, bytes, l.bs);
    StandApart(data, fixed + cut, StreamPieces(streams, l, |streams|), l.bs);
    StandApart(data, fixed, cut, l.bs);
    StandingHead(data, l, |bytes|);
    CutStands(data, l.directoryBlocks, bytes, l.bs);
    StandingStreams(data, streams, l);
    WrittenReads(data, streams, l);
  }

  // ---- a placement for all streams whose directory fits the block map

  lemma {:induction false} RangeJoin(from: nat, a: nat, b: nat)
    ensures Range(from, a) + Range(from + a, b) == Range(from, a + b)
    decreases b
  {
    if b == 0 {
      assert Range(from, a) + [] == Range(from, a);
    } else {
      RangeJoin(from, a, b - 1);
      assert Range(from, a) + (Range(from + a, b - 1) + [from + a + b - 1]) ==
             Range(from, a) + Range(from + a, b - 1) + [from + a + b - 1];
    }
  }

  lemma RangeGood(from: nat, n: nat, count: nat)
    requires from + n <= count
    ensures NoDuplicates(Range(from, n)) && Below(Range(from, n), count)
  {
    forall k | 0 <= k < n ensures Range(from, n)[k] == from + k { RangeAt(from, n, k); }
  }

  function Total(counts: seq<nat>, n: nat): nat
    requires n <= |counts|
  {
    if n == 0 then 0 else Total(counts, n - 1) + counts[n - 1]
  }

  predicate IsRun(runs: seq<seq<nat>>, counts: seq<nat>, from: nat, i: nat)
    requires i < |runs| == |counts|
  {
    runs[i] == Range(from + Total(counts, i), counts[i])
  }

  /** Runs of `counts` blocks, each right behind the one before it, from block `from` on. */
  ghost predicate AreRuns(runs: seq<seq<nat>>, counts: seq<nat>, from: nat) {
    |runs| == |counts| && forall i | 0 <= i < |runs| :: IsRun(runs, counts, from, i)
  }

  function Runs(counts: seq<nat>, from: nat): (r: seq<seq<nat>>)
    ensures AreRuns(r, counts, from)
  {
    seq(|counts|, i requires 0 <= i < |counts| => Range(from + Total(counts, i), counts[i]))
  }

  lemma {:induction false} RunsJoin(runs: seq<seq<nat>>, counts: seq<nat>, from: nat, n: nat)
    requires AreRuns(runs, counts, from) && n <= |counts|
    ensures Joined(runs, n) == Range(from, Total(counts, n))
    decreases n
  {
    if n > 0 {
      RunsJoin(runs, counts, from, n - 1);
      assert IsRun(runs, counts, from, n - 1);
      RangeJoin(from, Total(counts, n - 1), counts[n - 1]);
    }
  }

  lemma {:induction false} TotalGrows(counts: seq<nat>, i: nat, n: nat)
    requires i < n <= |counts|
    ensures Total(counts, i) + counts[i] <= Total(counts, n)
    decreases n
  {
    if i < n - 1 { TotalGrows(counts, i, n - 1); }
  }

  /** Superblock, block map, directory and streams lie in this order and without gaps. */
  ghost predicate Consecutive(l: Layout, counts: seq<nat>) {
    var d := |l.directoryBlocks|;
    && l.mapBlock == 1 && l.directoryBlocks == Range(2, d) && AreRuns(l.lists, counts, 2 + d)
    && l.count == 2 + d + Total(counts, |counts|)
  }

  lemma BlocksInOrder(d: nat, n: nat)
    ensures [0, 1] + Range(2, d) + Range(2 + d, n) == Range(0, 2 + d + n)
  {
    RangeJoin(0, 2, d);
    RangeJoin(0, 2 + d, n);
    assert Range(0, 1) == [0];
    assert Range(0, 2) == [0, 1];
  }

  lemma ConsecutiveBlocks(l: Layout, counts: seq<nat>)
    requires Consecutive(l, counts)
    ensures NoDuplicates(AllBlocks(l))
  {
    var d, n := |l.directoryBlocks|, Total(counts, |counts|);
    RunsJoin(l.lists, counts, 2 + d, |counts|);
    BlocksInOrder(d, n);
    RangeGood(0, 2 + d + n, 2 + d + n);
  }

  lemma ConsecutiveLists(l: Layout, counts: seq<nat>, i: nat)
    requires Consecutive(l, counts) && i < |counts|
    ensures NoDuplicates(l.lists[i]) && Below(l.lists[i], l.count) && |l.lists[i]| == counts[i]
  {
    var d := |l.directoryBlocks|;
    TotalGrows(counts, i, |counts|);
    assert IsRun(l.lists, counts, 2 + d, i);
    RangeGood(2 + d + Total(counts, i), counts[i], l.count);
  }

  function Counts(streams: Streams, bs: nat): (r: seq<nat>)
    requires bs > 0
    ensures |r| == |streams| && forall i | 0 <= i < |r| :: r[i] == BlockCount(SizeOf(streams[i]), bs)
  {
    seq(|streams|, i requires 0 <= i < |streams| => BlockCount(SizeOf(streams[i]), bs))
  }

  function DirectorySize(counts: seq<nat>): nat { 4 * (1 + |counts| + Total(counts, |counts|)) }

  /** The directory of the streams fits a block map of one block. */
  ghost predicate Storable(streams: Streams, bs: nat) {
    && bs in BLOCK_SIZES && 2 <= |streams| <= 1_000_000
    && (forall i | 0 <= i < |streams| && streams[i].Some? :: |streams[i].value| < NIL_SIZE)
    && CeilDiv(DirectorySize(Counts(streams, bs)), bs) * 4 <= bs
  }

  /** Such a directory is small, and so is every number in the file. */
  lemma NumbersAreWords(size: nat, bs: nat, d: nat)
    requires bs in BLOCK_SIZES && d == CeilDiv(size, bs) && d * 4 <= bs
    ensures size <= d * bs && size <= 0x4000_0000 && d <= 16384
  {
    CeilCovers(size, bs);
    assert bs <= 65536;
    MulLe(d, 16384, bs);
    MulLe(bs, 65536, 16384);
  }

  lemma ConsecutiveWords(streams: Streams, l: Layout, counts: seq<nat>)
    requires Consecutive(l, counts) && |counts| == |streams| <= 1_000_000 && l.count <= 0xFFFF_FFFF
    requires forall i | 0 <= i < |streams| :: SizeOf(streams[i]) <= NIL_SIZE
    ensures AllWords(DirectoryWords(streams, l.lists))
    ensures 4 * |DirectoryWords(streams, l.lists)| == DirectorySize(counts)
  {
    var ws, d := DirectoryWords(streams, l.lists), |l.directoryBlocks|;
    RunsJoin(l.lists, counts, 2 + d, |counts|);
    RangeGood(2 + d, Total(counts, |counts|), l.count);
    forall k | 0 <= k < |ws| ensures ws[k] <= 0xFFFF_FFFF {
      if 1 <= k < 1 + |streams| { SizesAt(streams, k - 1); }
    }
  }

  lemma HeadFits(l: Layout, size: nat)
    requires l.bs in BLOCK_SIZES && |l.directoryBlocks| == CeilDiv(size, l.bs) && 4 * |l.directoryBlocks| <= l.bs
    requires 0 < size <= |l.directoryBlocks| * l.bs && |l.directoryBlocks| <= l.count && l.mapBlock < l.count
    requires AllWords(SuperWords(l, size)) && Below(l.directoryBlocks, l.count)
    ensures SuperFits(l, size) && MapFits(l, size)
  {
    MulLe(|l.directoryBlocks|, l.count, l.bs);
    assert SuperWords(l, size)[2] == l.count;
  }

  lemma ConsecutiveDescribed(streams: Streams, l: Layout, counts: seq<nat>)
    requires Storable(streams, l.bs) && counts == Counts(streams, l.bs) && Consecutive(l, counts)
    requires AllWords(DirectoryWords(streams, l.lists))
    ensures Described(streams, l.lists, l.bs, l.count)
  {
    forall i | 0 <= i < |streams|
      ensures NoDuplicates(l.lists[i]) && Below(l.lists[i], l.count) && |l.lists[i]| == counts[i]
    {
      ConsecutiveLists(l, counts, i);
    }
  }

  /** Blocks right behind each other are a placement in distinct blocks. */
  lemma ConsecutivePlaceable(streams: Streams, l: Layout, counts: seq<nat>, size: nat)
    requires Storable(streams, l.bs) && counts == Counts(streams, l.bs) && Consecutive(l, counts)
    requires size == DirectorySize(counts) && |l.directoryBlocks| == CeilDiv(size, l.bs)
    requires l.freeMap == 1 && l.reserved == 0
    ensures Placeable(streams, l)
  {
    var d := |l.directoryBlocks|;
    NumbersAreWords(size, l.bs, d);
    ConsecutiveWords(streams, l, counts);
    ConsecutiveDescribed(streams, l, counts);
    RangeGood(2, d, l.count);
    HeadFits(l, size);
    ConsecutiveBlocks(l, counts);
  }

  /** Superblock, block map, directory and streams, one behind the other. */
  function LayoutFor(bs: nat, d: nat, counts: seq<nat>): Layout {
    Layout(bs, 2 + d + Total(counts, |counts|), 1, 0, 1, Range(2, d), Runs(counts, 2 + d))
  }

  lemma LayoutForConsecutive(bs: nat, d: nat, counts: seq<nat>)
    ensures var l := LayoutFor(bs, d, counts); |l.directoryBlocks| == d && Consecutive(l, counts)
  {
  }

  /** All streams whose directory fits the block map have a placement in distinct blocks, hence a file. */
  lemma StorableStreamsHaveFile(streams: Streams, bs: nat, d: nat)
    requires Storable(streams, bs) && d == CeilDiv(DirectorySize(Counts(streams, bs)), bs)
    ensures var l := LayoutFor(bs, d, Counts(streams, bs));
            Placeable(streams, l) && Reads(Build(streams, l), streams)
  {
    var counts := Counts(streams, bs);
    var l := LayoutFor(bs, d, counts);
    LayoutForConsecutive(bs, d, counts);
    ConsecutivePlaceable(streams, l, counts, DirectorySize(counts));
    BuildReads(streams, l);
  }
}
