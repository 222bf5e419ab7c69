/** Streams laid out in blocks, and that the MSF reader gives back exactly those streams. */
module MsfLayout {
  import opened Bytes
  import opened Wrappers
  import opened Msf

  // ---- writing words

  function EncodeWord(v: nat): (r: seq<byte>)
    requires v <= 0xFFFF_FFFF
    ensures |r| == 4
  {
    [v % 256, v / 0x100 % 256, v / 0x1_0000 % 256, v / 0x100_0000]
  }

  lemma WordOfEncoded(v: nat, d: seq<byte>, o: nat)
    requires v <= 0xFFFF_FFFF && o + 4 <= |d| && d[o..o + 4] == EncodeWord(v)
    ensures Word32(d, o) == v
  {
    var e := d[o..o + 4];
    assert d[o] == e[0] && d[o + 1] == e[1] && d[o + 2] == e[2] && d[o + 3] == e[3];
    Quarters(v);
  }

  lemma Quarters(v: nat)
    ensures v % 256 + 0x100 * (v / 0x100 % 256) + 0x1_0000 * (v / 0x1_0000 % 256) + 0x100_0000 * (v / 0x100_0000) == v
  {
    var a := v / 0x100;
    assert v / 0x1_0000 == a / 0x100 && v / 0x100_0000 == a / 0x100 / 0x100;
  }

  predicate AllWords(ws: seq<nat>) { forall k | 0 <= k < |ws| :: ws[k] <= 0xFFFF_FFFF }

  function EncodeWords(ws: seq<nat>): (r: seq<byte>)
    requires AllWords(ws)
    ensures |r| == 4 * |ws|
  {
    if ws == [] then [] else EncodeWord(ws[0]) + EncodeWords(ws[1..])
  }

  lemma {:induction false} WordsOfEncoded(ws: seq<nat>, d: seq<byte>, o: nat)
    requires AllWords(ws) && o + 4 * |ws| <= |d| && d[o..o + 4 * |ws|] == EncodeWords(ws)
    ensures Words(d, o, |ws|) == ws
    decreases |ws|
  {
    if ws != [] {
      var e := d[o..o + 4 * |ws|];
      assert d[o..o + 4] == e[..4] == EncodeWord(ws[0]);
      WordOfEncoded(ws[0], d, o);
      assert d[o + 4..o + 4 + 4 * |ws[1..]|] == e[4..] == EncodeWords(ws[1..]);
      WordsOfEncoded(ws[1..], d, o + 4);
    }
  }

  // ---- the directory of a set of streams

  function SizeOf(stream: Option<seq<byte>>): nat {
    if stream.None? then NIL_SIZE else |stream.value|
  }

  function Sizes(streams: seq<Option<seq<byte>>>): (r: seq<nat>)
    ensures |r| == |streams|
  {
    if streams == [] then [] else [SizeOf(streams[0])] + Sizes(streams[1..])
  }

  lemma {:induction false} SizesAt(streams: seq<Option<seq<byte>>>, k: nat)
    requires k < |streams|
    ensures Sizes(streams)[k] == SizeOf(streams[k])
  {
    if k > 0 { SizesAt(streams[1..], k - 1); }
  }

  /** The first `n` block lists, one after the other. */
  function Joined(lists: seq<seq<nat>>, n: nat): seq<nat>
    requires n <= |lists|
  {
    if n == 0 then [] else Joined(lists, n - 1) + lists[n - 1]
  }

  lemma {:induction false} JoinedPrefix(lists: seq<seq<nat>>, i: nat, n: nat)
    requires i <= n <= |lists|
    ensures |Joined(lists, i)| <= |Joined(lists, n)| && Joined(lists, n)[..|Joined(lists, i)|] == Joined(lists, i)
    decreases n
  {
    if i < n { JoinedPrefix(lists, i, n - 1); }
  }

  function DirectoryHead(streams: seq<Option<seq<byte>>>): (r: seq<nat>)
    ensures |r| == 1 + |streams|
  {
    [|streams|] + Sizes(streams)
  }

  function DirectoryWords(streams: seq<Option<seq<byte>>>, lists: seq<seq<nat>>): seq<nat> {
    DirectoryHead(streams) + Joined(lists, |lists|)
  }

  /** Every stream has a list of as many blocks as its size calls for, and all numbers are words. */
  ghost predicate Shaped(streams: seq<Option<seq<byte>>>, lists: seq<seq<nat>>, bs: nat) {
    && bs > 0 && 2 <= |streams| <= 1_000_000 && |lists| == |streams|
    && (forall i | 0 <= i < |lists| :: |lists[i]| == BlockCount(SizeOf(streams[i]), bs))
    && AllWords(DirectoryWords(streams, lists))
  }

  /** Streams and block lists that fit each other, the block count and the limits of the format. */
  ghost predicate Described(streams: seq<Option<seq<byte>>>, lists: seq<seq<nat>>, bs: nat, count: nat) {
    && Shaped(streams, lists, bs)
    && (forall i | 0 <= i < |streams| :: streams[i].Some? ==> |streams[i].value| < NIL_SIZE)
    && (forall i | 0 <= i < |lists| :: NoDuplicates(lists[i]) && Below(lists[i], count))
  }

  lemma WordAt(ws: seq<nat>, k: nat)
    requires AllWords(ws) && k < |ws|
    ensures 4 * k + 4 <= |EncodeWords(ws)| && Word32(EncodeWords(ws), 4 * k) == ws[k]
  {
    var d := EncodeWords(ws);
    assert d[0..0 + 4 * |ws|] == d;
    WordsOfEncoded(ws, d, 0);
    WordsAt(d, 0, |ws|, k);
  }

  lemma DirectorySizes(streams: seq<Option<seq<byte>>>, lists: seq<seq<nat>>, bs: nat)
    requires Shaped(streams, lists, bs)
    ensures var dir := EncodeWords(DirectoryWords(streams, lists));
            SizesOk(dir) && Word32(dir, 0) == |streams| &&
            forall i | 0 <= i < |streams| :: StreamSize(dir, i) == SizeOf(streams[i])
  {
    var ws := DirectoryWords(streams, lists);
    WordAt(ws, 0);
    forall i | 0 <= i < |streams| ensures Word32(EncodeWords(ws), 4 + 4 * i) == SizeOf(streams[i]) {
      WordAt(ws, 1 + i);
      SizesAt(streams, i);
    }
  }

  lemma {:induction false} DirectoryCursor(streams: seq<Option<seq<byte>>>, lists: seq<seq<nat>>, bs: nat,
                                           dir: seq<byte>, n: nat)
    requires Shaped(streams, lists, bs) && n <= |streams|
    requires SizesOk(dir) && Word32(dir, 0) == |streams|
    requires forall i | 0 <= i < |streams| :: StreamSize(dir, i) == SizeOf(streams[i])
    ensures CursorAt(dir, bs, n) == 4 + 4 * |streams| + 4 * |Joined(lists, n)|
    decreases n
  {
    if n > 0 { DirectoryCursor(streams, lists, bs, dir, n - 1); }
  }

  /** The words of `list` are written at offset `o`. */
  ghost predicate Listed(dir: seq<byte>, o: nat, list: seq<nat>) {
    o + 4 * |list| <= |dir| && forall k | 0 <= k < |list| :: Word32(dir, o + 4 * k) == list[k]
  }

  ghost predicate SliceAt(ws: seq<nat>, o: nat, list: seq<nat>) {
    o + |list| <= |ws| && forall k | 0 <= k < |list| :: ws[o + k] == list[k]
  }

  lemma SubWords(ws: seq<nat>, o: nat, list: seq<nat>)
    requires AllWords(ws) && SliceAt(ws, o, list)
    ensures Listed(EncodeWords(ws), 4 * o, list)
  {
    var d := EncodeWords(ws);
    forall k | 0 <= k < |list| ensures Word32(d, 4 * o + 4 * k) == list[k] {
      WordAt(ws, o + k);
    }
  }

  lemma MiddlePart(a: seq<nat>, b: seq<nat>, c: seq<nat>, d: seq<nat>)
    ensures SliceAt(a + (b + c + d), |a| + |b|, c)
  {
  }

  lemma JoinedSlice(pre: seq<nat>, lists: seq<seq<nat>>, i: nat)
    requires i < |lists|
    ensures SliceAt(pre + Joined(lists, |lists|), |pre| + |Joined(lists, i)|, lists[i])
  {
    JoinedPrefix(lists, i + 1, |lists|);
    var all, front := Joined(lists, |lists|), Joined(lists, i);
    var rest := all[|front + lists[i]|..];
    assert all == front + lists[i] + rest;
    MiddlePart(pre, front, lists[i], rest);
    assert pre + all == pre + (front + lists[i] + rest);
  }

  lemma DirectoryList(streams: seq<Option<seq<byte>>>, lists: seq<seq<nat>>, i: nat, o: nat)
    requires |lists| == |streams| && i < |streams| && AllWords(DirectoryWords(streams, lists))
    requires o == 1 + |streams| + |Joined(lists, i)|
    ensures Listed(EncodeWords(DirectoryWords(streams, lists)), 4 * o, lists[i])
  {
    JoinedSlice(DirectoryHead(streams), lists, i);
    SubWords(DirectoryWords(streams, lists), o, lists[i]);
  }

  lemma DirectoryEntry(streams: seq<Option<seq<byte>>>, lists: seq<seq<nat>>, bs: nat, dir: seq<byte>, i: nat)
    requires Shaped(streams, lists, bs) && i < |streams| && SizesOk(dir) && Word32(dir, 0) == |streams|
    requires forall i | 0 <= i < |streams| :: StreamSize(dir, i) == SizeOf(streams[i])
    requires dir == EncodeWords(DirectoryWords(streams, lists))
    ensures CursorAt(dir, bs, i + 1) <= |dir|
    ensures Entries(dir, bs, i + 1)[i] == Entry(SizeOf(streams[i]), lists[i])
  {
    var o := 1 + |streams| + |Joined(lists, i)|;
    DirectoryList(streams, lists, i, o);
    DirectoryCursor(streams, lists, bs, dir, i);
    EntryIs(dir, bs, i, 4 * o, Entry(SizeOf(streams[i]), lists[i]));
  }

  lemma EntryIs(dir: seq<byte>, bs: nat, i: nat, o: nat, e: Entry)
    requires bs > 0 && SizesOk(dir) && i < Word32(dir, 0)
    requires StreamSize(dir, i) == e.size && |e.list| == BlockCount(e.size, bs)
    requires CursorAt(dir, bs, i) == o && Listed(dir, o, e.list)
    ensures CursorAt(dir, bs, i + 1) <= |dir| && Entries(dir, bs, i + 1)[i] == e
  {
    forall k | 0 <= k < |e.list| ensures Words(dir, o, |e.list|)[k] == e.list[k] { WordsAt(dir, o, |e.list|, k); }
  }

  lemma DirectoryEntries(streams: seq<Option<seq<byte>>>, lists: seq<seq<nat>>, bs: nat, dir: seq<byte>)
    requires Shaped(streams, lists, bs)
    requires dir == EncodeWords(DirectoryWords(streams, lists)) && SizesOk(dir) && Word32(dir, 0) == |streams|
    requires forall i | 0 <= i < |streams| :: StreamSize(dir, i) == SizeOf(streams[i])
    ensures CursorAt(dir, bs, |streams|) == |dir|
    ensures forall k | 0 <= k < |streams| ::
              Entries(dir, bs, |streams|)[k] == Entry(SizeOf(streams[k]), lists[k])
  {
    DirectoryCursor(streams, lists, bs, dir, |streams|);
    forall k | 0 <= k < |streams|
      ensures Entries(dir, bs, |streams|)[k] == Entry(SizeOf(streams[k]), lists[k])
    {
      DirectoryEntry(streams, lists, bs, dir, k);
      EntriesPrefix(dir, bs, k + 1, |streams|);
    }
  }

  // ---- a file that holds the streams

  /** The file's directory describes the streams, and their blocks, wherever they lie, hold them. */
  ghost predicate LaidOut(data: seq<byte>, streams: seq<Option<seq<byte>>>, lists: seq<seq<nat>>) {
    && SuperOk(data) && Below(DirectoryBlocks(data), SuperOf(data).count)
    && var s := SuperOf(data);
    && Described(streams, lists, s.bs, s.count)
    && Directory(data) == EncodeWords(DirectoryWords(streams, lists))
    && forall i | 0 <= i < |streams| && streams[i].Some? ::
         InData(data, s.bs, lists[i]) && streams[i].value <= Gather(data, s.bs, lists[i])
  }

  /** Every file with the streams laid out in it is accepted, and its streams are exactly those. */
  lemma LaidOutReads(data: seq<byte>, streams: seq<Option<seq<byte>>>, lists: seq<seq<nat>>)
    requires LaidOut(data, streams, lists)
    ensures Accepts(data)
    ensures var s, dir := SuperOf(data), Directory(data);
            StreamsOf(data, s.bs, Entries(dir, s.bs, Word32(dir, 0)), streams)
  {
    var s, dir := SuperOf(data), Directory(data);
    DirectorySizes(streams, lists, s.bs);
    DirectoryEntries(streams, lists, s.bs, dir);
    var es := Entries(dir, s.bs, |streams|);
    forall i | 0 <= i < |streams| ensures InData(data, s.bs, es[i].list) { BelowInData(data, lists[i]); }
    EntriesHold(data, s.bs, streams, lists, es);
  }

  lemma EntriesHold(data: seq<byte>, bs: nat, streams: seq<Option<seq<byte>>>, lists: seq<seq<nat>>,
                    es: seq<Entry>)
    requires bs > 0 && |streams| == |lists| == |es|
    requires forall i | 0 <= i < |es| ::
               es[i] == Entry(SizeOf(streams[i]), lists[i]) && InData(data, bs, es[i].list) &&
               |es[i].list| == BlockCount(es[i].size, bs)
    requires forall i | 0 <= i < |streams| && streams[i].Some? ::
               |streams[i].value| < NIL_SIZE && streams[i].value <= Gather(data, bs, lists[i])
    ensures StreamsOf(data, bs, es, streams)
  {
    forall i | 0 <= i < |es| ensures streams[i] == StreamBytes(data, bs, es[i]) {
      if streams[i].Some? { assert Gather(data, bs, lists[i])[..|streams[i].value|] == streams[i].value; }
    }
  }

  // ---- every accepted file is such a file

  lemma EncodeWordOf(d: seq<byte>, o: nat)
    requires o + 4 <= |d|
    ensures EncodeWord(Word32(d, o)) == [d[o], d[o + 1], d[o + 2], d[o + 3]]
  {
    var (a, b, c) := (d[o] as int, d[o + 1] as int, d[o + 2] as int);
    var v := Word32(d, o);
    assert v / 0x100 == b + 0x100 * c + 0x1_0000 * (d[o + 3] as int);
    assert v / 0x1_0000 == c + 0x100 * (d[o + 3] as int);
  }

  lemma {:induction false} EncodeOfWords(d: seq<byte>, o: nat, n: nat)
    requires o + 4 * n <= |d|
    ensures AllWords(Words(d, o, n)) && EncodeWords(Words(d, o, n)) == d[o..o + 4 * n]
    decreases n
  {
    if n > 0 {
      EncodeWordOf(d, o);
      EncodeOfWords(d, o + 4, n - 1);
      var ws := Words(d, o, n);
      assert ws[1..] == Words(d, o + 4, n - 1);
      assert d[o..o + 4 * n] == [d[o], d[o + 1], d[o + 2], d[o + 3]] + d[o + 4..o + 4 * n];
    }
  }

  lemma {:induction false} WordsJoin(d: seq<byte>, o: nat, a: nat, b: nat)
    requires o + 4 * (a + b) <= |d|
    ensures Words(d, o, a + b) == Words(d, o, a) + Words(d, o + 4 * a, b)
    decreases a
  {
    if a > 0 { WordsJoin(d, o + 4, a - 1, b); }
  }

  function ListsOf(es: seq<Entry>): (r: seq<seq<nat>>)
    ensures |r| == |es| && forall i | 0 <= i < |es| :: r[i] == es[i].list
  {
    seq(|es|, i requires 0 <= i < |es| => es[i].list)
  }

  lemma EntryRead(dir: seq<byte>, bs: nat, n: nat, k: nat)
    requires bs > 0 && SizesOk(dir) && k < n <= Word32(dir, 0) && CursorAt(dir, bs, n) <= |dir|
    ensures CursorAt(dir, bs, k + 1) <= |dir|
    ensures var size := StreamSize(dir, k);
            Entries(dir, bs, n)[k] == Entry(size, Words(dir, CursorAt(dir, bs, k), BlockCount(size, bs)))
  {
    EntriesPrefix(dir, bs, k + 1, n);
  }

  /** The words behind the sizes are the block lists, one after the other. */
  lemma {:induction false} ListWords(dir: seq<byte>, bs: nat, lists: seq<seq<nat>>, n: nat, k: nat)
    requires bs > 0 && SizesOk(dir) && n == Word32(dir, 0) && k <= n && CursorAt(dir, bs, n) <= |dir|
    requires lists == ListsOf(Entries(dir, bs, n))
    ensures CursorAt(dir, bs, k) == 4 + 4 * n + 4 * |Joined(lists, k)| <= |dir|
    ensures Words(dir, 4 + 4 * n, |Joined(lists, k)|) == Joined(lists, k)
    decreases k
  {
    if k > 0 {
      ListWords(dir, bs, lists, n, k - 1);
      EntryRead(dir, bs, n, k - 1);
      RunJoins(dir, 4 + 4 * n, Joined(lists, k - 1), lists[k - 1]);
    }
  }

  /** Words read right behind other words. */
  lemma RunJoins(dir: seq<byte>, o: nat, first: seq<nat>, second: seq<nat>)
    requires o + 4 * |first| + 4 * |second| <= |dir|
    requires Words(dir, o, |first|) == first && Words(dir, o + 4 * |first|, |second|) == second
    ensures Words(dir, o, |first + second|) == first + second
  {
    WordsJoin(dir, o, |first|, |second|);
  }

  lemma SizeWords(dir: seq<byte>, streams: seq<Option<seq<byte>>>)
    requires SizesOk(dir) && Word32(dir, 0) == |streams|
    requires forall i | 0 <= i < |streams| :: StreamSize(dir, i) == SizeOf(streams[i])
    ensures Words(dir, 0, 1 + |streams|) == DirectoryHead(streams)
  {
    WordsJoin(dir, 0, 1, |streams|);
    assert Words(dir, 0, 1) == [Word32(dir, 0)];
    forall i | 0 <= i < |streams| ensures Words(dir, 4, |streams|)[i] == Sizes(streams)[i] {
      WordsAt(dir, 4, |streams|, i);
      SizesAt(streams, i);
    }
  }

  lemma DirectoryIsWords(dir: seq<byte>, streams: seq<Option<seq<byte>>>, lists: seq<seq<nat>>, tail: seq<nat>)
    requires |lists| == |streams| && tail == Joined(lists, |streams|) && 4 * (1 + |streams| + |tail|) == |dir|
    requires Words(dir, 0, 1 + |streams|) == DirectoryHead(streams)
    requires Words(dir, 4 + 4 * |streams|, |tail|) == tail
    ensures AllWords(DirectoryWords(streams, lists)) && EncodeWords(DirectoryWords(streams, lists)) == dir
  {
    var head := DirectoryHead(streams);
    RunJoins(dir, 0, head, tail);
    EncodeOfWords(dir, 0, |head + tail|);
    assert dir[0..0 + 4 * |head + tail|] == dir;
  }

  lemma DirectoryIsEncoded(dir: seq<byte>, bs: nat, streams: seq<Option<seq<byte>>>, lists: seq<seq<nat>>)
    requires bs > 0 && SizesOk(dir) && CursorAt(dir, bs, Word32(dir, 0)) == |dir| && Word32(dir, 0) == |streams|
    requires lists == ListsOf(Entries(dir, bs, Word32(dir, 0)))
    requires forall i | 0 <= i < |streams| :: StreamSize(dir, i) == SizeOf(streams[i])
    ensures AllWords(DirectoryWords(streams, lists)) && EncodeWords(DirectoryWords(streams, lists)) == dir
  {
    ListWords(dir, bs, lists, |streams|, |streams|);
    SizeWords(dir, streams);
    DirectoryIsWords(dir, streams, lists, Joined(lists, |streams|));
  }

  lemma StreamSizes(data: seq<byte>, bs: nat, e: Entry, stream: Option<seq<byte>>)
    requires bs > 0 && InData(data, bs, e.list) && |e.list| == BlockCount(e.size, bs) && e.size <= NIL_SIZE
    requires stream == StreamBytes(data, bs, e)
    ensures SizeOf(stream) == e.size
    ensures stream.Some? ==> |stream.value| < NIL_SIZE && stream.value <= Gather(data, bs, e.list)
  {
    if stream.Some? { CeilCovers(e.size, bs); }
  }

  /** Conversely, every accepted file is one with its streams laid out in it. */
  lemma AcceptedIsLaidOut(data: seq<byte>, streams: seq<Option<seq<byte>>>)
    requires Accepts(data)
    requires var s, dir := SuperOf(data), Directory(data);
             StreamsOf(data, s.bs, Entries(dir, s.bs, Word32(dir, 0)), streams)
    ensures var s, dir := SuperOf(data), Directory(data);
            LaidOut(data, streams, ListsOf(Entries(dir, s.bs, Word32(dir, 0))))
  {
    var s, dir := SuperOf(data), Directory(data);
    var es := Entries(dir, s.bs, Word32(dir, 0));
    var lists := ListsOf(es);
    forall i | 0 <= i < |streams|
      ensures StreamSize(dir, i) == SizeOf(streams[i]) == es[i].size
      ensures streams[i].Some? ==> |streams[i].value| < NIL_SIZE && streams[i].value <= Gather(data, s.bs, lists[i])
    {
      EntryRead(dir, s.bs, Word32(dir, 0), i);
      StreamSizes(data, s.bs, es[i], streams[i]);
    }
    DirectoryIsEncoded(dir, s.bs, streams, lists);
  }

  /** The reader accepts the file and returns `streams`. */
  ghost predicate Reads(data: seq<byte>, streams: seq<Option<seq<byte>>>) {
    && Accepts(data)
    && var s, dir := SuperOf(data), Directory(data);
    StreamsOf(data, s.bs, Entries(dir, s.bs, Word32(dir, 0)), streams)
  }

  /** A file reads as `streams` exactly when they are laid out in it, in whatever blocks. */
  lemma ReadsIffLaidOut(data: seq<byte>, streams: seq<Option<seq<byte>>>)
    ensures Reads(data, streams) <==> exists lists :: LaidOut(data, streams, lists)
  {
    if Reads(data, streams) { AcceptedIsLaidOut(data, streams); }
    forall lists | LaidOut(data, streams, lists) ensures Reads(data, streams) { LaidOutReads(data, streams, lists); }
  }
}
