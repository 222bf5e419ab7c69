/**
 The GIF container validator: it accepts exactly the files that spell a bounded, timed animation
 whose every frame decodes to as many pixels as its rectangle holds.
 */
module GifFile {
  import opened Bytes
  import opened Wrappers
  import opened GifGrammar
  import GifLzw
  import GifStream

  const MIN_WIDTH := 320
  const MIN_HEIGHT := 180
  const MAX_WIDTH := 7680
  const MAX_HEIGHT := 4320
  const MIN_FRAMES := 20
  const MAX_FRAMES := 100_000
  const MIN_DURATION := 20_000
  const MAX_DURATION := 8 * 60 * 60 * 1_000

  // ---- what a file must be

  /** The data of a frame, joined from its sub-blocks, decodes to exactly `pixels` pixels. */
  predicate FrameOk(minSize: nat, chunks: seq<seq<byte>>, pixels: nat) {
    && 2 <= minSize <= 8 && Joined(chunks) != []
    && GifLzw.Decode(minSize, BitsOf(Joined(chunks)), [], false, [], pixels).Accepted?
  }

  predicate OnScreen(from: nat, extent: nat, bound: nat) { 0 < extent && from + extent <= bound }

  /** Frames are not empty, lie on the screen and decode; other blocks are free. */
  predicate Good(b: Block, width: nat, height: nat) {
    b.Image? ==>
      && OnScreen(b.left, b.width, width) && OnScreen(b.top, b.height, height)
      && FrameOk(b.minSize, b.data, b.width * b.height)
  }

  predicate AllGood(blocks: seq<Block>, width: nat, height: nat) {
    forall i | 0 <= i < |blocks| :: Good(blocks[i], width, height)
  }

  /** Frames so far, their milliseconds, and the delay waiting for the next frame. */
  datatype Tally = Tally(frames: nat, duration: nat, pending: nat)

  function Counted(t: Tally, b: Block): Tally {
    match b
    case Control(_, delay, _) => t.(pending := delay * 10)
    case Extension(_, _) => t
    case Image(_, _, _, _, _, _, _, _) => Tally(t.frames + 1, t.duration + t.pending, 0)
  }

  function TallyOf(blocks: seq<Block>): Tally {
    if blocks == [] then Tally(0, 0, 0) else Counted(TallyOf(blocks[..|blocks| - 1]), blocks[|blocks| - 1])
  }

  lemma {:induction false} TallyGrows(blocks: seq<Block>, n: nat)
    requires n <= |blocks|
    ensures TallyOf(blocks[..n]).frames <= TallyOf(blocks).frames
    ensures TallyOf(blocks[..n]).duration <= TallyOf(blocks).duration
    decreases |blocks| - n
  {
    if n < |blocks| {
      assert blocks[..n + 1][..n] == blocks[..n];
      TallyGrows(blocks, n + 1);
    } else {
      assert blocks[..n] == blocks;
    }
  }

  predicate WithinMaxima(t: Tally) { t.frames <= MAX_FRAMES && t.duration <= MAX_DURATION }

  predicate TallyOk(t: Tally) { WithinMaxima(t) && MIN_FRAMES <= t.frames && MIN_DURATION <= t.duration }

  predicate ScreenOk(width: nat, height: nat) {
    MIN_WIDTH <= width <= MAX_WIDTH && MIN_HEIGHT <= height <= MAX_HEIGHT
  }

  datatype Gif = Gif(newer: bool, width: nat, height: nat, flags: byte, background: byte, aspect: byte,
                     palette: seq<byte>, blocks: seq<Block>)

  predicate Formed(g: Gif) {
    ScreenOk(g.width, g.height) && |g.palette| == PaletteSize(g.flags) && AllShaped(g.blocks)
  }

  predicate WellFormed(g: Gif) {
    Formed(g) && AllGood(g.blocks, g.width, g.height) && TallyOk(TallyOf(g.blocks))
  }

  /** `GIF89a` or `GIF87a`. */
  function Signature(newer: bool): (r: seq<byte>)
    ensures |r| == 6
  {
    [0x47, 0x49, 0x46, 0x38, if newer then 0x39 else 0x37, 0x61]
  }

  function Header(g: Gif): (r: seq<byte>)
    requires ScreenOk(g.width, g.height)
    ensures |r| == 13
  {
    Signature(g.newer) + U16(g.width) + U16(g.height) + [g.flags, g.background] + [g.aspect]
  }

  function FileBytes(g: Gif): seq<byte>
    requires Formed(g)
  {
    Header(g) + g.palette + BlocksBytes(g.blocks)
  }

  datatype Summary = Summary(width: nat, height: nat, frames: nat, duration: nat)

  function SummaryOf(g: Gif): Summary {
    Summary(g.width, g.height, TallyOf(g.blocks).frames, TallyOf(g.blocks).duration)
  }

  // ---- reading a file

  predicate HeaderOk(data: seq<byte>) {
    && |data| >= 14 && (data[..6] == Signature(true) || data[..6] == Signature(false))
    && ScreenOk(Word16(data, 6), Word16(data, 8))
    && 13 + PaletteSize(data[10]) <= |data|
  }

  /** The animation a file spells, whether or not its frames are good. */
  function Take(data: seq<byte>): Option<Gif> {
    if !HeaderOk(data) then None
    else
      var start := 13 + PaletteSize(data[10]);
      var blocks := TakeBlocks(data, start);
      if blocks.None? then None
      else Some(Gif(data[..6] == Signature(true), Word16(data, 6), Word16(data, 8), data[10], data[11], data[12],
                    data[13..start], blocks.value))
  }

  /** The blocks of a file that is accepted. */
  predicate Passes(blocks: Option<seq<Block>>, width: nat, height: nat) {
    blocks.Some? && AllGood(blocks.value, width, height) && TallyOk(TallyOf(blocks.value))
  }

  function Summarize(data: seq<byte>): Option<Summary> {
    if !HeaderOk(data) then None
    else
      var width, height := Word16(data, 6), Word16(data, 8);
      var blocks := TakeBlocks(data, 13 + PaletteSize(data[10]));
      if !Passes(blocks, width, height) then None
      else Some(Summary(width, height, TallyOf(blocks.value).frames, TallyOf(blocks.value).duration))
  }

  predicate HeaderFields(g: Gif, data: seq<byte>) {
    && |data| >= 13 && data[..6] == Signature(g.newer) && Word16(data, 6) == g.width && Word16(data, 8) == g.height
    && data[10] == g.flags && data[11] == g.background && data[12] == g.aspect
  }

  lemma HeaderAt(g: Gif, data: seq<byte>)
    requires ScreenOk(g.width, g.height)
    ensures At(data, 0, Header(g)) <==> HeaderFields(g, data)
  {
    var s, w, h := Signature(g.newer), U16(g.width), U16(g.height);
    AtAppend(data, 0, s + w + h + [g.flags, g.background], [g.aspect]);
    AtAppend(data, 0, s + w + h, [g.flags, g.background]);
    AtAppend(data, 0, s + w, h);
    AtAppend(data, 0, s, w);
    AtSlice(data, 0, s);
    U16At(data, 6, g.width);
    U16At(data, 8, g.height);
    AtTwo(data, 10, g.flags, g.background);
    AtOne(data, 12, g.aspect);
  }

  lemma WholeIs(data: seq<byte>, s: seq<byte>)
    ensures s == data <==> At(data, 0, s) && |s| == |data|
  {
    AtSlice(data, 0, s);
    if |s| == |data| { assert data[0..|s|] == data; }
  }

  lemma FileFields(g: Gif, data: seq<byte>)
    requires Formed(g)
    ensures var start := 13 + |g.palette|;
            FileBytes(g) == data <==>
            HeaderFields(g, data) && start <= |data| && data[13..start] == g.palette && Spells(data, start, g.blocks)
  {
    AtAppend(data, 0, Header(g) + g.palette, BlocksBytes(g.blocks));
    AtAppend(data, 0, Header(g), g.palette);
    AtSlice(data, 13, g.palette);
    HeaderAt(g, data);
    WholeIs(data, FileBytes(g));
  }

  lemma TakeSound(data: seq<byte>)
    requires Take(data).Some?
    ensures Formed(Take(data).value) && FileBytes(Take(data).value) == data
  {
    var g := Take(data).value;
    TakeBlocksExact(data, 13 + |g.palette|, g.blocks);
    FileFields(g, data);
  }

  lemma SignaturesDiffer()
    ensures Signature(true) != Signature(false)
  {
    assert Signature(true)[4] != Signature(false)[4];
  }

  lemma TakeReads(g: Gif, data: seq<byte>, start: nat)
    requires Formed(g) && HeaderFields(g, data) && start == 13 + |g.palette| < |data|
    requires data[13..start] == g.palette && TakeBlocks(data, start) == Some(g.blocks)
    ensures Take(data) == Some(g)
  {
    SignaturesDiffer();
  }

  lemma TakeComplete(g: Gif)
    requires Formed(g)
    ensures Take(FileBytes(g)) == Some(g)
  {
    var data, start := FileBytes(g), 13 + |g.palette|;
    FileFields(g, data);
    TakeBlocksExact(data, start, g.blocks);
    TakeReads(g, data, start);
  }

  /** A file is accepted, with its summary, if and only if it spells a well-formed animation. */
  lemma AcceptedIffAnimation(data: seq<byte>, s: Summary)
    ensures Summarize(data) == Some(s) <==> exists g: Gif :: WellFormed(g) && FileBytes(g) == data && SummaryOf(g) == s
  {
    if Summarize(data) == Some(s) {
      TakeSound(data);
      assert WellFormed(Take(data).value);
    }
    forall g: Gif | WellFormed(g) && FileBytes(g) == data ensures Summarize(data) == Some(SummaryOf(g)) {
      TakeComplete(g);
    }
  }

  /** No two animations have the same file. */
  lemma FileDeterminesAnimation(g: Gif, h: Gif)
    requires Formed(g) && Formed(h) && FileBytes(g) == FileBytes(h)
    ensures g == h
  {
    TakeComplete(g);
    TakeComplete(h);
  }

  /** However its greedy encoding is cut into sub-blocks, a painted frame on the screen is good. */
  lemma EncodedFrameGood(b: Block, s: seq<byte>, policy: seq<nat> -> bool, width: nat, height: nat)
    requires b.Image? && OnScreen(b.left, b.width, width) && OnScreen(b.top, b.height, height)
    requires 2 <= b.minSize <= 8 && GifStream.Paints(b.minSize, s) && |s| == b.width * b.height
    requires Joined(b.data) == GifStream.Encode(b.minSize, s, policy)
    ensures Good(b, width, height)
  {
    GifStream.RoundTrip(b.minSize, s, policy);
    NothingDecodes(b.minSize, |s|);
  }

  /** `b` is a frame that holds the greedy encoding of some picture; other blocks are free. */
  ghost predicate Painted(b: Block, width: nat, height: nat) {
    b.Image? ==>
      && OnScreen(b.left, b.width, width) && OnScreen(b.top, b.height, height) && 2 <= b.minSize <= 8
      && exists s: seq<byte>, policy: seq<nat> -> bool ::
           && GifStream.Paints(b.minSize, s) && |s| == b.width * b.height
           && Joined(b.data) == GifStream.Encode(b.minSize, s, policy)
  }

  /** Every animation of greedily encoded pictures within the limits is accepted, with its own summary. */
  lemma PaintedAnimationAccepted(g: Gif)
    requires Formed(g) && TallyOk(TallyOf(g.blocks))
    requires forall i | 0 <= i < |g.blocks| :: Painted(g.blocks[i], g.width, g.height)
    ensures Summarize(FileBytes(g)) == Some(SummaryOf(g))
  {
    forall i | 0 <= i < |g.blocks| ensures Good(g.blocks[i], g.width, g.height) {
      var b := g.blocks[i];
      assert Painted(b, g.width, g.height);
      if b.Image? {
        var s, policy :| GifStream.Paints(b.minSize, s) && |s| == b.width * b.height &&
                         Joined(b.data) == GifStream.Encode(b.minSize, s, policy);
        EncodedFrameGood(b, s, policy, g.width, g.height);
      }
    }
    AcceptedIffAnimation(FileBytes(g), SummaryOf(g));
  }

  lemma NothingDecodes(m: GifLzw.MinSize, pixels: nat)
    ensures GifLzw.Decode(m, BitsOf([]), [], false, [], pixels).Rejected?
  {
    GifLzw.WidthBounds(m, 0);
    GifLzw.DecodeShort(m, BitsOf([]), [], false, [], pixels);
  }

  // ---- the reader

  /** The bytes of the sub-blocks from `at` on are what they are from `next` on, with `size` more in front. */
  lemma ChunksStep(data: seq<byte>, at: nat)
    requires at < |data| && data[at] != 0 && at + 1 + data[at] <= |data|
    ensures var next := at + 1 + data[at];
            var all, rest := TakeChunks(data, at), TakeChunks(data, next);
            if rest.None? then all.None?
            else
              && all.Some? && all.value.next == rest.value.next
              && Joined(all.value.value) == data[at + 1..next] + Joined(rest.value.value)
  {
    var rest := TakeChunks(data, at + 1 + data[at]);
    if rest.Some? { assert TakeChunks(data, at).value.value[1..] == rest.value.value; }
  }

  method ConsumeSubBlocks(data: seq<byte>, start: nat) returns (r: Option<(nat, nat)>)
    requires start <= |data|
    ensures match TakeChunks(data, start)
            case None => r == None
            case Some(found) => r == Some((found.next, |Joined(found.value)|))
  {
    var offset, payloadBytes := start, 0;
    ghost var goal := TakeChunks(data, start);
    while true
      invariant start <= offset <= |data|
      invariant match TakeChunks(data, offset)
                case None => goal == None
                case Some(found) =>
                  && goal.Some? && goal.value.next == found.next
                  && |Joined(goal.value.value)| == payloadBytes + |Joined(found.value)|
      decreases |data| - offset
    {
      if offset >= |data| { return None; }
      var size := data[offset] as nat;
      if size == 0 {
        return Some((offset + 1, payloadBytes));
      }
      if offset + 1 + size > |data| { return None; }
      ChunksStep(data, offset);
      payloadBytes := payloadBytes + size;
      offset := offset + 1 + size;
    }
  }

  /** `goal` is `compressed` followed by the sub-blocks from `at` on. */
  ghost predicate Joins(goal: seq<byte>, compressed: seq<byte>, data: seq<byte>, at: nat) {
    at < |data| && TakeChunks(data, at).Some? && goal == compressed + Joined(TakeChunks(data, at).value.value)
  }

  lemma JoinStep(goal: seq<byte>, compressed: seq<byte>, data: seq<byte>, at: nat)
    requires Joins(goal, compressed, data, at) && data[at] != 0
    ensures var next := at + 1 + data[at];
            next <= |data| && Joins(goal, compressed + data[at + 1..next], data, next)
  {
    ChunksStep(data, at);
    var next := at + 1 + data[at];
    Regroup(compressed, data[at + 1..next], Joined(TakeChunks(data, next).value.value));
  }

  lemma JoinStart(data: seq<byte>, at: nat)
    requires TakeChunks(data, at).Some?
    ensures Joins(Joined(TakeChunks(data, at).value.value), [], data, at)
  {
    var all := Joined(TakeChunks(data, at).value.value);
    assert [] + all == all;
  }

  lemma JoinEnd(goal: seq<byte>, compressed: seq<byte>, data: seq<byte>, at: nat)
    requires Joins(goal, compressed, data, at) && data[at] == 0
    ensures goal == compressed
  {
    assert compressed + [] == compressed;
  }

  lemma Regroup(a: seq<byte>, b: seq<byte>, c: seq<byte>)
    ensures a + (b + c) == a + b + c
  {
  }

  method JoinSubBlocks(data: seq<byte>, start: nat) returns (compressed: seq<byte>)
    requires start <= |data| && TakeChunks(data, start).Some?
    ensures compressed == Joined(TakeChunks(data, start).value.value)
  {
    compressed := [];
    var cursor := start;
    ghost var goal := Joined(TakeChunks(data, start).value.value);
    JoinStart(data, start);
    while data[cursor] != 0
      invariant Joins(goal, compressed, data, cursor)
      decreases |data| - cursor
    {
      JoinStep(goal, compressed, data, cursor);
      var size := data[cursor] as nat;
      cursor := cursor + 1;
      compressed := compressed + data[cursor..cursor + size];
      cursor := cursor + size;
    }
    JoinEnd(goal, compressed, data, cursor);
  }

  method ReadExtension(data: seq<byte>, cursor: nat, tally: Tally) returns (r: Option<Found<Tally>>)
    requires cursor < |data| && data[cursor] == 0x21
    ensures match TakeBlock(data, cursor)
            case None => r == None
            case Some(found) => !found.value.Image? && r == Some(Found(Counted(tally, found.value), found.next))
  {
    var at := cursor + 1;
    if at >= |data| { return None; }
    var kind := data[at];
    at := at + 1;
    if kind == 0xF9 {
      if at + 6 > |data| || data[at] != 4 || data[at + 5] != 0 { return None; }
      return Some(Found(tally.(pending := Word16(data, at + 2) * 10), at + 6));
    }
    var rest := ConsumeSubBlocks(data, at);
    if rest.None? { return None; }
    return Some(Found(tally, rest.value.0));
  }

  /** Sub-blocks whose joined bytes the LZW validator accepts. */
  method ReadFrameData(data: seq<byte>, at: nat, minSize: byte, pixels: nat) returns (r: Option<nat>)
    requires at <= |data|
    ensures var chunks := TakeChunks(data, at);
            if chunks.None? then r == None
            else
              && (r.Some? <==> FrameOk(minSize, chunks.value.value, pixels))
              && (r.Some? ==> r.value == chunks.value.next)
  {
    if !(2 <= minSize <= 8) { return None; }
    var rest := ConsumeSubBlocks(data, at);
    if rest.None? || rest.value.1 == 0 { return None; }
    var compressed := JoinSubBlocks(data, at);
    var verdict := GifLzw.ValidateGifLzw(compressed, minSize, pixels);
    if verdict.Fail? { return None; }
    return Some(rest.value.0);
  }

  /** A frame as its descriptor, at `at`, gives it: its place on the screen and where its data begin. */
  datatype Frame = Frame(left: nat, top: nat, width: nat, height: nat, start: nat)

  predicate FrameAt(data: seq<byte>, at: nat, f: Frame) {
    && at + 10 <= f.start < |data| && f.start == at + 10 + PaletteSize(data[at + 9])
    && f == Frame(Word16(data, at + 1), Word16(data, at + 3), Word16(data, at + 5), Word16(data, at + 7), f.start)
  }

  method ReadDescriptor(data: seq<byte>, cursor: nat, width: nat, height: nat) returns (r: Option<Frame>)
    requires cursor < |data| && data[cursor] == 0x2C
    ensures r.Some? ==>
              && FrameAt(data, cursor, r.value)
              && OnScreen(r.value.left, r.value.width, width) && OnScreen(r.value.top, r.value.height, height)
    ensures r.None? ==>
              forall f | FrameAt(data, cursor, f) ::
                !OnScreen(f.left, f.width, width) || !OnScreen(f.top, f.height, height)
  {
    var at := cursor + 1;
    if at + 9 > |data| { return None; }
    var left, top, frameWidth, frameHeight :=
      Word16(data, at), Word16(data, at + 2), Word16(data, at + 4), Word16(data, at + 6);
    var flags := data[at + 8];
    at := at + 9;
    if frameWidth == 0 || frameHeight == 0 || left + frameWidth > width || top + frameHeight > height { return None; }
    at := at + PaletteSize(flags);
    if at >= |data| { return None; }
    return Some(Frame(left, top, frameWidth, frameHeight, at));
  }

  lemma FrameTaken(data: seq<byte>, at: nat, f: Frame)
    requires at < |data| && data[at] == 0x2C && FrameAt(data, at, f)
    ensures var chunks, b := TakeChunks(data, f.start + 1), TakeBlock(data, at);
            if chunks.None? then b.None?
            else
              && b.Some? && b.value.next == chunks.value.next && b.value.value.Image?
              && var i := b.value.value;
              && i.left == f.left && i.top == f.top && i.width == f.width && i.height == f.height
              && i.minSize == data[f.start] && i.data == chunks.value.value
  {
    assert TakeBlock(data, at) == TakeImage(data, at);
  }

  lemma NoFrameNoBlock(data: seq<byte>, at: nat)
    requires at < |data| && data[at] == 0x2C && TakeBlock(data, at).Some?
    ensures var b := TakeBlock(data, at).value.value;
            b.Image? && FrameAt(data, at, Frame(b.left, b.top, b.width, b.height, at + 10 + |b.palette|))
  {
  }

  lemma GoodFrame(b: Block, width: nat, height: nat, pixels: nat)
    requires b.Image? && pixels == b.width * b.height
    requires OnScreen(b.left, b.width, width) && OnScreen(b.top, b.height, height)
    ensures Good(b, width, height) <==> FrameOk(b.minSize, b.data, pixels)
  {
  }

  method ReadFrame(data: seq<byte>, cursor: nat, f: Frame, width: nat, height: nat) returns (r: Option<nat>)
    requires cursor < |data| && data[cursor] == 0x2C && FrameAt(data, cursor, f)
    requires OnScreen(f.left, f.width, width) && OnScreen(f.top, f.height, height)
    ensures var b := TakeBlock(data, cursor);
            && (r.Some? <==> b.Some? && Good(b.value.value, width, height))
            && (r.Some? ==> b.value.value.Image? && r.value == b.value.next)
  {
    var pixels := f.width * f.height;
    r := ReadFrameData(data, f.start + 1, data[f.start], pixels);
    FrameTaken(data, cursor, f);
    if TakeBlock(data, cursor).Some? { GoodFrame(TakeBlock(data, cursor).value.value, width, height, pixels); }
  }

  method ReadImage(data: seq<byte>, cursor: nat, width: nat, height: nat) returns (r: Option<nat>)
    requires cursor < |data| && data[cursor] == 0x2C
    ensures var b := TakeBlock(data, cursor);
            && (r.Some? <==> b.Some? && Good(b.value.value, width, height))
            && (r.Some? ==> b.value.value.Image? && r.value == b.value.next)
  {
    var frame := ReadDescriptor(data, cursor, width, height);
    if frame.None? {
      if TakeBlock(data, cursor).Some? { NoFrameNoBlock(data, cursor); }
      return None;
    }
    r := ReadFrame(data, cursor, frame.value, width, height);
  }

  /** `blocks` is `done` followed by whatever is spelled from `at` on. */
  ghost predicate Continues(blocks: Option<seq<Block>>, done: seq<Block>, data: seq<byte>, at: nat) {
    var rest := TakeBlocks(data, at);
    blocks == if rest.None? then None else Some(done + rest.value)
  }

  lemma ContinuesStep(blocks: Option<seq<Block>>, done: seq<Block>, data: seq<byte>, at: nat)
    requires at < |data| && data[at] != TRAILER && Continues(blocks, done, data, at) && TakeBlock(data, at).Some?
    ensures var found := TakeBlock(data, at).value;
            Continues(blocks, done + [found.value], data, found.next)
  {
    var found := TakeBlock(data, at).value;
    var rest := TakeBlocks(data, found.next);
    if rest.Some? { assert done + ([found.value] + rest.value) == done + [found.value] + rest.value; }
  }

  lemma DoneStep(done: seq<Block>, b: Block, width: nat, height: nat)
    ensures TallyOf(done + [b]) == Counted(TallyOf(done), b)
    ensures AllGood(done + [b], width, height) <==> AllGood(done, width, height) && Good(b, width, height)
  {
    var all := done + [b];
    assert all[..|all| - 1] == done && all[|done|] == b;
    assert forall i | 0 <= i < |done| :: all[i] == done[i];
  }

  /** What is wrong with the blocks so far stays wrong. */
  lemma Hopeless(blocks: Option<seq<Block>>, done: seq<Block>, data: seq<byte>, at: nat, width: nat, height: nat)
    requires Continues(blocks, done, data, at)
    requires !AllGood(done, width, height) || !WithinMaxima(TallyOf(done))
    ensures !Passes(blocks, width, height)
  {
    if blocks.Some? {
      var all := blocks.value;
      assert all[..|done|] == done;
      TallyGrows(all, |done|);
      if AllGood(all, width, height) {
        forall i | 0 <= i < |done| ensures Good(done[i], width, height) { assert done[i] == all[i]; }
      }
    }
  }

  lemma Refused(blocks: Option<seq<Block>>, done: seq<Block>, data: seq<byte>, at: nat, width: nat, height: nat)
    requires at < |data| && data[at] != TRAILER && Continues(blocks, done, data, at)
    requires var b := TakeBlock(data, at); b.None? || !Good(b.value.value, width, height)
    ensures !Passes(blocks, width, height)
  {
    if TakeBlock(data, at).Some? {
      var found := TakeBlock(data, at).value;
      ContinuesStep(blocks, done, data, at);
      DoneStep(done, found.value, width, height);
      Hopeless(blocks, done + [found.value], data, found.next, width, height);
    }
  }

  /** The block loop: the tally of the blocks from `start` on, if they pass. */
  method ReadBlocks(data: seq<byte>, start: nat, width: nat, height: nat) returns (r: Option<Tally>)
    requires start <= |data|
    ensures var blocks := TakeBlocks(data, start);
            r == if Passes(blocks, width, height) then Some(TallyOf(blocks.value)) else None
  {
    var cursor, tally := start, Tally(0, 0, 0);
    ghost var blocks := TakeBlocks(data, start);
    ghost var done: seq<Block> := [];
    assert blocks.Some? ==> [] + blocks.value == blocks.value;
    while cursor < |data| && data[cursor] != TRAILER
      invariant cursor <= |data| && Continues(blocks, done, data, cursor)
      invariant AllGood(done, width, height) && tally == TallyOf(done) && WithinMaxima(tally)
      decreases |data| - cursor
    {
      ghost var b := TakeBlock(data, cursor);
      var read: Option<Found<Tally>> := None;
      if data[cursor] == 0x21 {
        read := ReadExtension(data, cursor, tally);
      } else if data[cursor] == 0x2C {
        var next := ReadImage(data, cursor, width, height);
        if next.Some? {
          read := Some(Found(Tally(tally.frames + 1, tally.duration + tally.pending, 0), next.value));
        }
      }
      if read.None? {
        Refused(blocks, done, data, cursor, width, height);
        return None;
      }
      ContinuesStep(blocks, done, data, cursor);
      DoneStep(done, b.value.value, width, height);
      done := done + [b.value.value];
      cursor, tally := read.value.next, read.value.value;
      if tally.frames > MAX_FRAMES || tally.duration > MAX_DURATION {
        Hopeless(blocks, done, data, cursor, width, height);
        return None;
      }
    }
    if cursor + 1 != |data| {
      TrailerOnly(data, cursor);
      return None;
    }
    assert done + [] == done;
    if tally.frames < MIN_FRAMES || tally.duration < MIN_DURATION { return None; }
    return Some(tally);
  }

  lemma TrailerOnly(data: seq<byte>, at: nat)
    requires at <= |data| && (at < |data| ==> data[at] == TRAILER) && at + 1 != |data|
    ensures TakeBlocks(data, at) == None
  {
  }

  method CheckHeader(data: seq<byte>) returns (ok: bool)
    ensures ok <==> HeaderOk(data)
  {
    if |data| < 14 || !(data[..6] == Signature(true) || data[..6] == Signature(false)) { return false; }
    var width, height := Word16(data, 6), Word16(data, 8);
    if !(MIN_WIDTH <= width <= MAX_WIDTH && MIN_HEIGHT <= height <= MAX_HEIGHT) { return false; }
    ok := 13 + PaletteSize(data[10]) <= |data|;
  }

  /** The container validator. */
  method ParseGif(data: seq<byte>) returns (r: Option<Summary>)
    ensures r == Summarize(data)
  {
    var ok := CheckHeader(data);
    if !ok { return None; }
    var width, height := Word16(data, 6), Word16(data, 8);
    var tally := ReadBlocks(data, 13 + PaletteSize(data[10]), width, height);
    if tally.None? { return None; }
    return Some(Summary(width, height, tally.value.frames, tally.value.duration));
  }
}
