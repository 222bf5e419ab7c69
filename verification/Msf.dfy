/**
 The MSF 7.0 container: logical streams rebuilt from scattered fixed-size blocks. The reader is
 tied to the directory's index formulas.
 */
module Msf {
  import opened Bytes
  import opened Wrappers

  const SIGNATURE: seq<byte> :=
    [0x4D, 0x69, 0x63, 0x72, 0x6F, 0x73, 0x6F, 0x66, 0x74, 0x20, 0x43, 0x2F, 0x43, 0x2B, 0x2B, 0x20,
     0x4D, 0x53, 0x46, 0x20, 0x37, 0x2E, 0x30, 0x30, 0x0D, 0x0A, 0x1A, 0x44, 0x53, 0x00, 0x00, 0x00]

  /** The powers of two from 512 to 65536. */
  const BLOCK_SIZES: set<nat> := {512, 1024, 2048, 4096, 8192, 16384, 32768, 65536}

  const NIL_SIZE := 0xFFFF_FFFF

  // ---- little-endian words

  function Words(d: seq<byte>, o: nat, n: nat): (r: seq<nat>)
    requires o + 4 * n <= |d|
    ensures |r| == n
    decreases n
  {
    if n == 0 then [] else [Word32(d, o)] + Words(d, o + 4, n - 1)
  }

  lemma {:induction false} WordsAt(d: seq<byte>, o: nat, n: nat, k: nat)
    requires o + 4 * n <= |d| && k < n
    ensures Words(d, o, n)[k] == Word32(d, o + 4 * k)
    decreases n
  {
    if k > 0 { WordsAt(d, o + 4, n - 1, k - 1); }
  }

  function CeilDiv(a: nat, b: nat): nat
    requires b > 0
  {
    (a + b - 1) / b
  }

  lemma CeilCovers(a: nat, b: nat)
    requires b > 0
    ensures a <= CeilDiv(a, b) * b < a + b
  {
    var q, r := (a + b - 1) / b, (a + b - 1) % b;
    assert a + b - 1 == q * b + r;
  }

  // ---- blocks

  /** Every block lies inside the data. */
  predicate InData(data: seq<byte>, bs: nat, blocks: seq<nat>) {
    forall k | 0 <= k < |blocks| :: blocks[k] * bs + bs <= |data|
  }

  /** The blocks' bytes, one block after the other. */
  function Gather(data: seq<byte>, bs: nat, blocks: seq<nat>): (r: seq<byte>)
    requires InData(data, bs, blocks)
    ensures |r| == |blocks| * bs
  {
    if blocks == [] then [] else
      Gather(data, bs, blocks[..|blocks| - 1]) + data[blocks[|blocks| - 1] * bs..blocks[|blocks| - 1] * bs + bs]
  }

  lemma {:induction false} GatherPlace(data: seq<byte>, bs: nat, blocks: seq<nat>, q: nat, r: nat)
    requires InData(data, bs, blocks) && q < |blocks| && r < bs
    ensures q * bs + r < |blocks| * bs && blocks[q] * bs + r < |data|
    ensures Gather(data, bs, blocks)[q * bs + r] == data[blocks[q] * bs + r]
  {
    var n := |blocks| - 1;
    var front := blocks[..n];
    assert |blocks| * bs == n * bs + bs;
    if q < n {
      GatherPlace(data, bs, front, q, r);
      assert front[q] == blocks[q];
    }
  }

  lemma QuotientBelow(j: nat, bs: nat, n: nat)
    requires bs > 0 && j < n * bs
    ensures j == j / bs * bs + j % bs && j / bs < n
  {
    if j / bs >= n { MulLe(n, j / bs, bs); }
  }

  lemma GatherAt(data: seq<byte>, bs: nat, blocks: seq<nat>, j: nat)
    requires bs > 0 && InData(data, bs, blocks) && j < |blocks| * bs
    ensures j / bs < |blocks|
    ensures blocks[j / bs] * bs + j % bs < |data|
    ensures Gather(data, bs, blocks)[j] == data[blocks[j / bs] * bs + j % bs]
  {
    QuotientBelow(j, bs, |blocks|);
    GatherPlace(data, bs, blocks, j / bs, j % bs);
  }

  lemma BlockInData(data: seq<byte>, bs: nat, count: nat, b: nat)
    requires bs > 0 && count <= |data| / bs && b < count
    ensures b * bs + bs <= |data|
  {
    assert |data| == |data| / bs * bs + |data| % bs;
    MulLe(b + 1, |data| / bs, bs);
  }

  lemma MulLe(a: nat, b: nat, c: nat)
    requires a <= b
    ensures a * c <= b * c
  {
  }

  // ---- the superblock

  datatype Super = Super(bs: nat, count: nat, directorySize: nat, blockMap: nat)

  function SuperOf(data: seq<byte>): Super
    requires |data| >= 56
  {
    Super(Word32(data, 32), Word32(data, 40), Word32(data, 44), Word32(data, 52))
  }

  predicate SuperOk(data: seq<byte>) {
    && |data| >= 56 && data[..32] == SIGNATURE
    && var s := SuperOf(data);
    && s.bs in BLOCK_SIZES
    && 0 < s.count <= |data| / s.bs
    && 0 < s.directorySize <= s.count * s.bs
    && s.blockMap < s.count
    && CeilDiv(s.directorySize, s.bs) * 4 <= s.bs
  }

  lemma MapInData(data: seq<byte>)
    requires SuperOk(data)
    ensures var s := SuperOf(data); s.blockMap * s.bs + CeilDiv(s.directorySize, s.bs) * 4 <= |data|
  {
    var s := SuperOf(data);
    BlockInData(data, s.bs, s.count, s.blockMap);
  }

  /** The block numbers of the directory, as the block map lists them. */
  function DirectoryBlocks(data: seq<byte>): (r: seq<nat>)
    requires SuperOk(data)
    ensures |r| == CeilDiv(SuperOf(data).directorySize, SuperOf(data).bs)
  {
    var s := SuperOf(data);
    MapInData(data);
    Words(data, s.blockMap * s.bs, CeilDiv(s.directorySize, s.bs))
  }

  predicate Below(blocks: seq<nat>, count: nat) {
    forall k | 0 <= k < |blocks| :: blocks[k] < count
  }

  lemma BelowInData(data: seq<byte>, blocks: seq<nat>)
    requires SuperOk(data) && Below(blocks, SuperOf(data).count)
    ensures InData(data, SuperOf(data).bs, blocks)
  {
    var s := SuperOf(data);
    forall k | 0 <= k < |blocks| ensures blocks[k] * s.bs + s.bs <= |data| {
      BlockInData(data, s.bs, s.count, blocks[k]);
    }
  }

  function Directory(data: seq<byte>): (r: seq<byte>)
    requires SuperOk(data) && Below(DirectoryBlocks(data), SuperOf(data).count)
    ensures |r| == SuperOf(data).directorySize
  {
    var s := SuperOf(data);
    BelowInData(data, DirectoryBlocks(data));
    CeilCovers(s.directorySize, s.bs);
    Gather(data, s.bs, DirectoryBlocks(data))[..s.directorySize]
  }

  // ---- the stream directory

  predicate SizesOk(dir: seq<byte>) {
    |dir| >= 4 && 2 <= Word32(dir, 0) <= 1_000_000 && 4 + 4 * Word32(dir, 0) <= |dir|
  }

  function StreamSize(dir: seq<byte>, i: nat): nat
    requires SizesOk(dir) && i < Word32(dir, 0)
  {
    Word32(dir, 4 + 4 * i)
  }

  /** Blocks listed for a stream; a nil stream lists none. */
  function BlockCount(size: nat, bs: nat): nat
    requires bs > 0
  {
    if size == NIL_SIZE then 0 else CeilDiv(size, bs)
  }

  /** Where the block list of stream `i` begins; for the last `i`, where all lists end. */
  function CursorAt(dir: seq<byte>, bs: nat, i: nat): nat
    requires bs > 0 && SizesOk(dir) && i <= Word32(dir, 0)
  {
    if i == 0 then 4 + 4 * Word32(dir, 0)
    else CursorAt(dir, bs, i - 1) + 4 * BlockCount(StreamSize(dir, i - 1), bs)
  }

  lemma {:induction false} CursorMonotone(dir: seq<byte>, bs: nat, i: nat, k: nat)
    requires bs > 0 && SizesOk(dir) && i <= k <= Word32(dir, 0)
    ensures CursorAt(dir, bs, i) <= CursorAt(dir, bs, k)
    decreases k
  {
    if i < k { CursorMonotone(dir, bs, i, k - 1); }
  }

  predicate NoDuplicates(s: seq<nat>) {
    forall j, k | 0 <= j < k < |s| :: s[j] != s[k]
  }

  /** A stream as the directory describes it: its size and its block numbers. */
  datatype Entry = Entry(size: nat, list: seq<nat>)

  /** The first `n` directory entries. */
  function Entries(dir: seq<byte>, bs: nat, n: nat): (r: seq<Entry>)
    requires bs > 0 && SizesOk(dir) && n <= Word32(dir, 0) && CursorAt(dir, bs, n) <= |dir|
    ensures |r| == n && forall k | 0 <= k < n :: |r[k].list| == BlockCount(r[k].size, bs)
  {
    if n == 0 then [] else
      var size := StreamSize(dir, n - 1);
      Entries(dir, bs, n - 1) + [Entry(size, Words(dir, CursorAt(dir, bs, n - 1), BlockCount(size, bs)))]
  }

  lemma {:induction false} EntriesPrefix(dir: seq<byte>, bs: nat, i: nat, n: nat)
    requires bs > 0 && SizesOk(dir) && i <= n <= Word32(dir, 0) && CursorAt(dir, bs, n) <= |dir|
    ensures CursorAt(dir, bs, i) <= |dir| && Entries(dir, bs, i) <= Entries(dir, bs, n)
    decreases n
  {
    if i < n { EntriesPrefix(dir, bs, i, n - 1); }
  }

  predicate AllDistinct(es: seq<Entry>) { forall k | 0 <= k < |es| :: NoDuplicates(es[k].list) }

  predicate AllBelow(es: seq<Entry>, count: nat) { forall k | 0 <= k < |es| :: Below(es[k].list, count) }

  predicate DirectoryOk(s: Super, dir: seq<byte>)
    requires s.bs > 0
  {
    && SizesOk(dir) && CursorAt(dir, s.bs, Word32(dir, 0)) == |dir|
    && var es := Entries(dir, s.bs, Word32(dir, 0));
    AllDistinct(es) && AllBelow(es, s.count)
  }

  /** The files the reader accepts. */
  predicate Accepts(data: seq<byte>) {
    && SuperOk(data) && Below(DirectoryBlocks(data), SuperOf(data).count)
    && DirectoryOk(SuperOf(data), Directory(data))
  }

  /** The bytes of a stream: its blocks in order, cut to its size. */
  function StreamBytes(data: seq<byte>, bs: nat, e: Entry): Option<seq<byte>>
    requires bs > 0 && InData(data, bs, e.list) && |e.list| == BlockCount(e.size, bs)
  {
    if e.size == NIL_SIZE then None else
      CeilCovers(e.size, bs);
      Some(Gather(data, bs, e.list)[..e.size])
  }

  /** Byte `j` of a stream is byte `j % bs` of its block number `j / bs`; the read is in bounds. */
  lemma StreamByte(data: seq<byte>, bs: nat, e: Entry, j: nat)
    requires bs > 0 && InData(data, bs, e.list) && |e.list| == BlockCount(e.size, bs)
    requires e.size != NIL_SIZE && j < e.size
    ensures StreamBytes(data, bs, e).Some? && |StreamBytes(data, bs, e).value| == e.size
    ensures j / bs < |e.list| && e.list[j / bs] * bs + j % bs < |data|
    ensures StreamBytes(data, bs, e).value[j] == data[e.list[j / bs] * bs + j % bs]
  {
    CeilCovers(e.size, bs);
    GatherAt(data, bs, e.list, j);
  }

  /** `out` are the streams of the entries `es`. */
  predicate StreamsOf(data: seq<byte>, bs: nat, es: seq<Entry>, out: seq<Option<seq<byte>>>) {
    bs > 0 && |out| == |es| &&
    forall i | 0 <= i < |es| ::
      InData(data, bs, es[i].list) && |es[i].list| == BlockCount(es[i].size, bs) &&
      out[i] == StreamBytes(data, bs, es[i])
  }

  // ---- the reader

  datatype Result<T> = Ok(value: T) | Invalid

  /** `directory.extend(data[offset:offset + block_size])` for every block; fails on a bad block. */
  method ReadBlocks(data: seq<byte>, s: Super, blocks: seq<nat>) returns (r: Result<seq<byte>>)
    requires SuperOk(data) && s == SuperOf(data)
    ensures r.Ok? <==> Below(blocks, s.count)
    ensures r.Ok? ==> InData(data, s.bs, blocks) && r.value == Gather(data, s.bs, blocks)
  {
    var bytes: seq<byte> := [];
    for k := 0 to |blocks|
      invariant Below(blocks[..k], s.count) && InData(data, s.bs, blocks[..k])
      invariant bytes == Gather(data, s.bs, blocks[..k])
    {
      var offset := blocks[k] * s.bs;
      if blocks[k] < s.count { BlockInData(data, s.bs, s.count, blocks[k]); }
      if blocks[k] >= s.count || offset > |data| - s.bs { return Invalid; }
      assert blocks[..k + 1][..k] == blocks[..k];
      bytes := bytes + data[offset..offset + s.bs];
    }
    assert blocks[..|blocks|] == blocks;
    r := Ok(bytes);
  }

  method HasDuplicates(blocks: seq<nat>) returns (r: bool)
    ensures r <==> !NoDuplicates(blocks)
  {
    var seen: set<nat> := {};
    for k := 0 to |blocks|
      invariant NoDuplicates(blocks[..k])
      invariant forall x :: x in seen <==> x in blocks[..k]
    {
      if blocks[k] in seen {
        var j :| 0 <= j < k && blocks[..k][j] == blocks[k];
        return true;
      }
      seen := seen + {blocks[k]};
      assert blocks[..k + 1] == blocks[..k] + [blocks[k]];
    }
    assert blocks[..|blocks|] == blocks;
    r := false;
  }

  lemma DuplicateRejects(dir: seq<byte>, bs: nat, i: nat, n: nat)
    requires bs > 0 && SizesOk(dir) && i < n <= Word32(dir, 0) && CursorAt(dir, bs, i + 1) <= |dir|
    requires !NoDuplicates(Entries(dir, bs, i + 1)[i].list)
    ensures CursorAt(dir, bs, n) == |dir| ==> !AllDistinct(Entries(dir, bs, n))
  {
    if CursorAt(dir, bs, n) == |dir| {
      EntriesPrefix(dir, bs, i + 1, n);
      assert Entries(dir, bs, n)[i] == Entries(dir, bs, i + 1)[i];
    }
  }

  /** The directory entries, whose lists must end exactly where the directory does. */
  method ReadEntries(s: Super, dir: seq<byte>) returns (r: Result<seq<Entry>>)
    requires s.bs > 0 && SizesOk(dir)
    ensures r.Ok? <==> CursorAt(dir, s.bs, Word32(dir, 0)) == |dir| && AllDistinct(Entries(dir, s.bs, Word32(dir, 0)))
    ensures r.Ok? ==> r.value == Entries(dir, s.bs, Word32(dir, 0))
  {
    var n := Word32(dir, 0);
    var es: seq<Entry> := [];
    var cursor := 4 + n * 4;
    for i := 0 to n
      invariant cursor == CursorAt(dir, s.bs, i) <= |dir|
      invariant es == Entries(dir, s.bs, i) && AllDistinct(es)
    {
      var size := StreamSize(dir, i);
      if size == NIL_SIZE {
        es := es + [Entry(size, [])];
        continue;
      }
      var count := CeilDiv(size, s.bs);
      var end := cursor + count * 4;
      CursorMonotone(dir, s.bs, i + 1, n);
      if end > |dir| { return Invalid; }
      var blocks := Words(dir, cursor, count);
      cursor := end;
      es := es + [Entry(size, blocks)];
      var duplicate := HasDuplicates(blocks);
      if duplicate {
        DuplicateRejects(dir, s.bs, i, n);
        return Invalid;
      }
    }
    if cursor != |dir| { return Invalid; }
    r := Ok(es);
  }

  method ReadStreams(data: seq<byte>, s: Super, es: seq<Entry>) returns (r: Result<seq<Option<seq<byte>>>>)
    requires SuperOk(data) && s == SuperOf(data)
    requires forall k | 0 <= k < |es| :: |es[k].list| == BlockCount(es[k].size, s.bs)
    ensures r.Ok? <==> AllBelow(es, s.count)
    ensures r.Ok? ==> StreamsOf(data, s.bs, es, r.value)
  {
    var streams: seq<Option<seq<byte>>> := [];
    for i := 0 to |es|
      invariant AllBelow(es[..i], s.count) && StreamsOf(data, s.bs, es[..i], streams)
    {
      if es[i].size == NIL_SIZE {
        streams := streams + [None];
      } else {
        var bytes := ReadBlocks(data, s, es[i].list);
        if bytes.Invalid? { return Invalid; }
        CeilCovers(es[i].size, s.bs);
        streams := streams + [Some(bytes.value[..es[i].size])];
      }
      assert es[..i + 1] == es[..i] + [es[i]];
    }
    assert es[..|es|] == es;
    r := Ok(streams);
  }

  /** Checks the superblock. */
  method ReadSuper(data: seq<byte>) returns (r: Result<Super>)
    ensures r.Ok? <==> SuperOk(data)
    ensures r.Ok? ==> r.value == SuperOf(data)
  {
    if |data| < 56 || data[..32] != SIGNATURE { return Invalid; }
    var s := SuperOf(data);
    if s.bs < 512 || s.bs > 65536 || s.bs !in BLOCK_SIZES { return Invalid; }
    if s.count == 0 || s.count > |data| / s.bs { return Invalid; }
    if s.directorySize == 0 || s.directorySize > s.count * s.bs { return Invalid; }
    if s.blockMap >= s.count { return Invalid; }
    if CeilDiv(s.directorySize, s.bs) * 4 > s.bs { return Invalid; }
    r := Ok(s);
  }

  /** The reader. */
  method ParseMsfStreams(data: seq<byte>) returns (r: Result<seq<Option<seq<byte>>>>)
    ensures r.Ok? <==> Accepts(data)
    ensures r.Ok? ==>
              var s, dir := SuperOf(data), Directory(data);
              StreamsOf(data, s.bs, Entries(dir, s.bs, Word32(dir, 0)), r.value)
  {
    var super := ReadSuper(data);
    if super.Invalid? { return Invalid; }
    var s := super.value;
    var directory := ReadBlocks(data, s, DirectoryBlocks(data));
    if directory.Invalid? { return Invalid; }
    CeilCovers(s.directorySize, s.bs);
    var dir := directory.value[..s.directorySize];
    assert dir == Directory(data);
    if |dir| < 4 { return Invalid; }
    var n := Word32(dir, 0);
    if n < 2 || n > 1_000_000 { return Invalid; }
    if 4 + n * 4 > |dir| { return Invalid; }
    var es := ReadEntries(s, dir);
    if es.Invalid? { return Invalid; }
    r := ReadStreams(data, s, es.value);
  }
}
