/** The words on the wire, as numbers: what a frame of each command looks like, whoever writes or reads it,
    and what a reader makes of frames that no writer of this repository produces. */
module WireFormat {
  import opened Words
  import opened Commands
  import opened ChangedTypes
  import opened Session
  import opened Replies

  /** Two's complement. */
  function Bits(v: Int32): Word {
    if v < 0 then v + 0x1_0000_0000 else v
  }

  /** Index of a handle in the table; without one, 0xfffffffe where the cached buffer is meant and
      0xffffffff for null. */
  function Index(h: bool, base: nat, none: Word): Word
    requires base < 0x8000_0000
  {
    if h then base else none
  }

  // ----- commands -----

  lemma SelectLayout(id: Word64, base: nat)
    ensures Frame(SelectDisplay(id), base) == [0x0000_0002, id % 0x1_0000_0000, id / 0x1_0000_0000]
    ensures Frame(SelectLayer(id), base) == [0x0001_0002, id % 0x1_0000_0000, id / 0x1_0000_0000]
  {
  }

  lemma QueryLayout(base: nat)
    ensures Frame(Ask(ValidateDisplay), base) == [0x0203_0000]
    ensures Frame(Ask(AcceptDisplayChanges), base) == [0x0204_0000]
    ensures Frame(Ask(PresentDisplay), base) == [0x0205_0000]
    ensures Frame(Ask(PresentOrValidateDisplay), base) == [0x0206_0000]
  {
  }

  /** Slot, buffer and fence; a fence behind a buffer has the next index. */
  function ThreeWords(slot: Word, buffer: Option<Handle>, fence: Int32, base: nat): (ws: seq<Word>)
    requires base < 0x7fff_ffff
    ensures |ws| == 3
  {
    [slot, Index(buffer.Some?, base, 0xffff_fffe),
     Index(fence >= 0, if buffer.Some? then base + 1 else base, 0xffff_ffff)]
  }

  lemma BufferLayout(slot: Word, buffer: Option<Handle>, fence: Int32, base: nat)
    requires base < 0x7fff_ffff
    ensures Frame(SetBuffer(LayerBuffer, slot, buffer, fence), base)
            == [0x0301_0003] + ThreeWords(slot, buffer, fence, base)
    ensures Frame(SetBuffer(OutputBuffer, slot, buffer, fence), base)
            == [0x0202_0003] + ThreeWords(slot, buffer, fence, base)
  {
    hide SlotWords, ThreeWords;
    SlotLayout(slot, buffer, fence, base);
  }

  lemma StreamLayout(stream: Option<Handle>, base: nat)
    requires base < 0x8000_0000
    ensures Frame(SetSidebandStream(stream), base) == [0x0406_0001, Index(stream.Some?, base, 0xffff_ffff)]
  {
  }

  /** A client target has dataspace and damage behind them. */
  lemma TargetLayout(dataspace: Int32, damage: seq<Rect>, slot: Word, buffer: Option<Handle>, fence: Int32, base: nat)
    requires base < 0x7fff_ffff
    ensures var kept := if |damage| <= 16382 then damage else [];
            Frame(SetBuffer(ClientTarget(dataspace, damage), slot, buffer, fence), base)
            == [0x0201_0004 + 4 * |kept|] + ThreeWords(slot, buffer, fence, base)
               + [Bits(dataspace)] + RegionWords(kept)
  {
    hide RegionWords, SlotWords, ThreeWords, TargetWords;
    var kept := if |damage| <= 16382 then damage else [];
    DamageLayout(dataspace, damage);
    SlotLayout(slot, buffer, fence, base);
  }

  lemma SlotLayout(slot: Word, buffer: Option<Handle>, fence: Int32, base: nat)
    requires base < 0x7fff_ffff
    ensures SlotWords(slot, buffer, fence, base) == ThreeWords(slot, buffer, fence, base)
  {
  }

  lemma DamageLayout(dataspace: Int32, damage: seq<Rect>)
    ensures TargetWords(ClientTarget(dataspace, damage))
            == [Bits(dataspace)] + RegionWords(if |damage| <= 16382 then damage else [])
  {
    hide RegionWords;
  }

  /** Left, top, right and bottom of each rectangle, one after the other. */
  lemma {:induction false} RegionLayout(rs: seq<Rect>, i: nat)
    requires i < |rs|
    ensures var ws := RegionWords(rs);
            && ws[4 * i] == Bits(rs[i].left) && ws[4 * i + 1] == Bits(rs[i].top)
            && ws[4 * i + 2] == Bits(rs[i].right) && ws[4 * i + 3] == Bits(rs[i].bottom)
    decreases |rs|
  {
    if i < |rs| - 1 {
      hide RectWords;
      RegionLayout(rs[..|rs| - 1], i);
    }
  }

  lemma RegionFrameLayout(rs: seq<Rect>, base: nat)
    ensures var kept := if |rs| <= 16383 then rs else [];
            && Frame(Set(Region(SurfaceDamage, rs)), base) == [0x0302_0000 + 4 * |kept|] + RegionWords(kept)
            && Frame(Set(Region(VisibleRegion, rs)), base) == [0x0409_0000 + 4 * |kept|] + RegionWords(kept)
  {
    hide RegionWords;
  }

  lemma SignedLayout(v: Int32, base: nat)
    ensures Frame(Set(Signed(BlendMode, v)), base) == [0x0400_0001, Bits(v)]
    ensures Frame(Set(Signed(CompositionType, v)), base) == [0x0402_0001, Bits(v)]
    ensures Frame(Set(Signed(Dataspace, v)), base) == [0x0403_0001, Bits(v)]
    ensures Frame(Set(Signed(Transform, v)), base) == [0x0408_0001, Bits(v)]
  {
  }

  lemma PlainLayout(w: Word, f: FRect, base: nat)
    ensures Frame(Set(PlaneAlpha(w)), base) == [0x0405_0001, w] && Frame(Set(ZOrder(w)), base) == [0x040a_0001, w]
    ensures Frame(Set(SourceCrop(f)), base) == [0x0407_0004, f.left, f.top, f.right, f.bottom]
  {
  }

  /** Red is the lowest byte. */
  lemma ColorLayout(c: Color, base: nat)
    ensures Frame(Set(LayerColor(c)), base)
            == [0x0401_0001, c.r + c.g * 0x100 + c.b * 0x1_0000 + c.a * 0x100_0000]
  {
  }

  lemma GeometryLayout(x: Int32, y: Int32, r: Rect, m: Matrix, base: nat)
    ensures Frame(Set(CursorPosition(x, y)), base) == [0x0300_0002, Bits(x), Bits(y)]
    ensures Frame(Set(DisplayFrame(r)), base) == [0x0404_0004, Bits(r.left), Bits(r.top), Bits(r.right), Bits(r.bottom)]
    ensures Frame(Set(ColorTransform(m, x)), base) == [0x0200_0011] + m + [Bits(x)]
  {
  }

  // ----- answers -----

  /** An error is its location and its number. */
  lemma ErrorLayout(loc: Word)
    ensures ErrorFrame(loc, BAD_DISPLAY) == [0x0100_0002, loc, 2] && ErrorFrame(loc, BAD_LAYER) == [0x0100_0002, loc, 3]
    ensures ErrorFrame(loc, BAD_PARAMETER) == [0x0100_0002, loc, 4]
    ensures ErrorFrame(loc, NO_RESOURCES) == [0x0100_0002, loc, 6]
    ensures ErrorFrame(loc, NOT_VALIDATED) == [0x0100_0002, loc, 7]
    ensures ErrorFrame(loc, HalError(UNSUPPORTED)) == [0x0100_0002, loc, 8]
  {
  }

  lemma EchoLayout(d: Word64)
    ensures ReplyWords(DisplayEcho(d)) == [0x0000_0002, d % 0x1_0000_0000, d / 0x1_0000_0000]
  {
    SelectLayout(d, 0);
  }

  /** A changed type is its layer, low half first, and its number. */
  lemma {:induction false} ChangeLayout(list: seq<Change>, i: nat)
    requires i < |list|
    ensures var ws := EntryWords(list);
            && ws[3 * i] == list[i].layer % 0x1_0000_0000 && ws[3 * i + 1] == list[i].layer / 0x1_0000_0000
            && ws[3 * i + 2] == Bits(list[i].kind)
    decreases |list|
  {
    EntryWordsMore(list);
    if i < |list| - 1 {
      hide EntryWords;
      ChangeLayout(list[..|list| - 1], i);
    }
  }

  /** A frame has 21845 of them, only the last one may have fewer. */
  lemma ChunkLayout(list: seq<Change>, n: nat)
    requires list != [] && n == if |list| <= 21845 then |list| else 21845
    ensures ChangedFrames(list) == [0x0101_0000 + 3 * n] + EntryWords(list[..n]) + ChangedFrames(list[n..])
  {
    hide EntryWords, Header, ChangedFrames, ChunkSize;
    ChunkOf(list, n);
    FrameOfChunk(list, n);
    ChunkHeader(n);
  }

  lemma ChunkOf(list: seq<Change>, n: nat)
    requires n == if |list| <= 21845 then |list| else 21845
    ensures n == ChunkSize(list)
  {
  }

  lemma FrameOfChunk(list: seq<Change>, n: nat)
    requires list != [] && n == ChunkSize(list)
    ensures ChangedFrames(list) == [Header(CHANGED, 3 * n)] + EntryWords(list[..n]) + ChangedFrames(list[n..])
  {
    hide EntryWords, Header, ChunkSize;
  }

  lemma ChunkHeader(n: nat)
    requires n <= 21845
    ensures Header(CHANGED, 3 * n) == 0x0101_0000 + 3 * n
  {
  }

  // ----- frames of any client -----

  /** Which lengths the handlers accept. A frame that is not accepted executes nothing. */
  lemma AcceptedLengths(op: Opcode, p: seq<Word>, hs: seq<Handle>)
    requires InFrame(op, |p|)
    ensures Decode(op, p, hs).Some? <==>
            match op
            case SELECT_DISPLAY => |p| == 2
            case SELECT_LAYER => |p| == 2
            case SET_COLOR_TRANSFORM => |p| == 17
            case SET_CLIENT_TARGET => |p| >= 4 && |p| % 4 == 0
            case SET_OUTPUT_BUFFER => |p| == 3
            case VALIDATE_DISPLAY => |p| == 0
            case ACCEPT_DISPLAY_CHANGES => |p| == 0
            case PRESENT_DISPLAY => |p| == 0
            case PRESENT_OR_VALIDATE_DISPLAY => |p| == 0
            case SET_LAYER_CURSOR_POSITION => |p| == 2
            case SET_LAYER_BUFFER => |p| == 3
            case SET_LAYER_SURFACE_DAMAGE => |p| % 4 == 0
            case SET_LAYER_VISIBLE_REGION => |p| % 4 == 0
            case SET_LAYER_PER_FRAME_METADATA => true
            case SET_LAYER_DISPLAY_FRAME => |p| == 4
            case SET_LAYER_SOURCE_CROP => |p| == 4
            case SET_LAYER_FLOAT_COLOR => |p| == 4
            case SET_LAYER_COLOR_TRANSFORM => |p| == 16
            case SET_LAYER_PER_FRAME_METADATA_BLOBS => false
            case Unknown(_) => false
            case _ => |p| == 1
  {
    hide ReadRegion, ReadRect, ReadColor, ReadHandle, ReadFence, ClientTargetLengthAccepted;
    ClientTargetLengthCheck(|p|);
  }

  /** The commands of later interfaces are answered by an error alone. */
  lemma LaterCommands(op: Opcode, p: seq<Word>, hs: seq<Handle>)
    requires InFrame(op, |p|)
    ensures Decode(op, p, hs) == Some(Unsupported) <==>
            || (op == SET_LAYER_FLOAT_COLOR && |p| == 4) || (op == SET_LAYER_COLOR_TRANSFORM && |p| == 16)
            || op == SET_LAYER_PER_FRAME_METADATA
  {
    hide ReadRegion, ReadRect, ReadColor, ReadHandle, ReadFence, ClientTargetLengthAccepted;
  }

  /** Any word as a handle or a fence: 0xfffffffe means the cached buffer, an index of the table its handle,
      everything else null; a fence is a handle of exactly one descriptor. */
  lemma AnyHandle(w: Word, hs: seq<Handle>)
    requires |hs| <= 0x8000_0000
    ensures ReadHandle(w, hs) == if w == 0xffff_fffe then Cached else Given(if w < |hs| then Some(hs[w]) else None)
    ensures ReadFence(w, hs) == if w < |hs| && |hs[w].fds| == 1 then hs[w].fds[0] else -1
  {
  }
}
