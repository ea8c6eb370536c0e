/** The command language of the composer's message queue: what a client asks
    CommandWriterBase to write, the words each command becomes, and what
    CommandReader makes of the words of one frame. */
module Commands {
  import opened Words

  const MAX_LENGTH := 0xffff  // kMaxLength, the largest 16-bit frame length

  /** A native_handle_t: file descriptors and plain integers. */
  datatype Handle = Handle(fds: seq<Int32>, numInts: nat)

  datatype Rect = Rect(left: Int32, top: Int32, right: Int32, bottom: Int32)

  // floats are opaque 32-bit patterns
  datatype FRect = FRect(left: Word, top: Word, right: Word, bottom: Word)
  datatype Color = Color(r: Byte, g: Byte, b: Byte, a: Byte)
  type Matrix = m: seq<Word> | |m| == 16 witness seq(16, _ => 0)

  datatype SignedProperty = BlendMode | CompositionType | Dataspace | Transform
  datatype RegionProperty = SurfaceDamage | VisibleRegion
  datatype Query = ValidateDisplay | PresentOrValidateDisplay | AcceptDisplayChanges | PresentDisplay

  /** HAL setters that carry no buffer. */
  datatype Setting =
    | ColorTransform(matrix: Matrix, hint: Int32)
    | CursorPosition(x: Int32, y: Int32)
    | Region(region: RegionProperty, rects: seq<Rect>)
    | Signed(property: SignedProperty, value: Int32)
    | LayerColor(color: Color)
    | DisplayFrame(frame: Rect)
    | PlaneAlpha(alpha: Word)
    | SourceCrop(crop: FRect)
    | ZOrder(z: Word)

  datatype BufferTarget =
    | ClientTarget(dataspace: Int32, damage: seq<Rect>)
    | OutputBuffer
    | LayerBuffer

  /** Commands over a type of buffer reference: an optional handle when written,
      a `Source` when read, an imported buffer when passed to the HAL. */
  datatype Command<+B> =
    | SelectDisplay(display: Word64)
    | SelectLayer(layer: Word64)
    | Set(setting: Setting)
    | SetBuffer(target: BufferTarget, slot: Word, buffer: B, fence: Int32)
    | SetSidebandStream(stream: B)
    | Ask(query: Query)

  type Written = Command<Option<Handle>>

  /** readHandle's two results: take the cached buffer, or use this handle. */
  datatype Source = Cached | Given(handle: Option<Handle>)

  /** What one accepted frame asks for. The three Unsupported commands only answer an error. */
  datatype Request = Unsupported | Do(command: Command<Source>)

  // ----- opcodes -----

  datatype Opcode =
    | SELECT_DISPLAY | SELECT_LAYER
    | SET_COLOR_TRANSFORM | SET_CLIENT_TARGET | SET_OUTPUT_BUFFER
    | VALIDATE_DISPLAY | ACCEPT_DISPLAY_CHANGES | PRESENT_DISPLAY | PRESENT_OR_VALIDATE_DISPLAY
    | SET_LAYER_CURSOR_POSITION | SET_LAYER_BUFFER | SET_LAYER_SURFACE_DAMAGE
    | SET_LAYER_PER_FRAME_METADATA | SET_LAYER_PER_FRAME_METADATA_BLOBS
    | SET_LAYER_BLEND_MODE | SET_LAYER_COLOR | SET_LAYER_COMPOSITION_TYPE | SET_LAYER_DATASPACE
    | SET_LAYER_DISPLAY_FRAME | SET_LAYER_PLANE_ALPHA | SET_LAYER_SIDEBAND_STREAM
    | SET_LAYER_SOURCE_CROP | SET_LAYER_TRANSFORM | SET_LAYER_VISIBLE_REGION | SET_LAYER_Z_ORDER
    | SET_LAYER_FLOAT_COLOR | SET_LAYER_COLOR_TRANSFORM
    | Unknown(code: int)

  /** Opcode numbers of IComposerClient.hal, before the shift by 16. */
  function Code(op: Opcode): int {
    match op
    case SELECT_DISPLAY => 0x000
    case SELECT_LAYER => 0x001
    case SET_COLOR_TRANSFORM => 0x200
    case SET_CLIENT_TARGET => 0x201
    case SET_OUTPUT_BUFFER => 0x202
    case VALIDATE_DISPLAY => 0x203
    case ACCEPT_DISPLAY_CHANGES => 0x204
    case PRESENT_DISPLAY => 0x205
    case PRESENT_OR_VALIDATE_DISPLAY => 0x206
    case SET_LAYER_CURSOR_POSITION => 0x300
    case SET_LAYER_BUFFER => 0x301
    case SET_LAYER_SURFACE_DAMAGE => 0x302
    case SET_LAYER_PER_FRAME_METADATA => 0x303
    case SET_LAYER_PER_FRAME_METADATA_BLOBS => 0x304
    case SET_LAYER_BLEND_MODE => 0x400
    case SET_LAYER_COLOR => 0x401
    case SET_LAYER_COMPOSITION_TYPE => 0x402
    case SET_LAYER_DATASPACE => 0x403
    case SET_LAYER_DISPLAY_FRAME => 0x404
    case SET_LAYER_PLANE_ALPHA => 0x405
    case SET_LAYER_SIDEBAND_STREAM => 0x406
    case SET_LAYER_SOURCE_CROP => 0x407
    case SET_LAYER_TRANSFORM => 0x408
    case SET_LAYER_VISIBLE_REGION => 0x409
    case SET_LAYER_Z_ORDER => 0x40a
    case SET_LAYER_FLOAT_COLOR => 0x40c
    case SET_LAYER_COLOR_TRANSFORM => 0x40d
    case Unknown(code) => code
  }

  /** The switch of parseCommand. */
  function OpcodeOf(code: int): (op: Opcode)
    ensures Code(op) == code
  {
    if code == 0x000 then SELECT_DISPLAY
    else if code == 0x001 then SELECT_LAYER
    else if code == 0x200 then SET_COLOR_TRANSFORM
    else if code == 0x201 then SET_CLIENT_TARGET
    else if code == 0x202 then SET_OUTPUT_BUFFER
    else if code == 0x203 then VALIDATE_DISPLAY
    else if code == 0x204 then ACCEPT_DISPLAY_CHANGES
    else if code == 0x205 then PRESENT_DISPLAY
    else if code == 0x206 then PRESENT_OR_VALIDATE_DISPLAY
    else if code == 0x300 then SET_LAYER_CURSOR_POSITION
    else if code == 0x301 then SET_LAYER_BUFFER
    else if code == 0x302 then SET_LAYER_SURFACE_DAMAGE
    else if code == 0x303 then SET_LAYER_PER_FRAME_METADATA
    else if code == 0x304 then SET_LAYER_PER_FRAME_METADATA_BLOBS
    else if code == 0x400 then SET_LAYER_BLEND_MODE
    else if code == 0x401 then SET_LAYER_COLOR
    else if code == 0x402 then SET_LAYER_COMPOSITION_TYPE
    else if code == 0x403 then SET_LAYER_DATASPACE
    else if code == 0x404 then SET_LAYER_DISPLAY_FRAME
    else if code == 0x405 then SET_LAYER_PLANE_ALPHA
    else if code == 0x406 then SET_LAYER_SIDEBAND_STREAM
    else if code == 0x407 then SET_LAYER_SOURCE_CROP
    else if code == 0x408 then SET_LAYER_TRANSFORM
    else if code == 0x409 then SET_LAYER_VISIBLE_REGION
    else if code == 0x40a then SET_LAYER_Z_ORDER
    else if code == 0x40c then SET_LAYER_FLOAT_COLOR
    else if code == 0x40d then SET_LAYER_COLOR_TRANSFORM
    else Unknown(code)
  }

  /** The opcode under which a command is written. */
  function OpcodeFor<B>(c: Command<B>): (op: Opcode)
    ensures OpcodeOf(Code(op)) == op && 0 <= Code(op) < TWO16
    ensures op != SET_LAYER_PER_FRAME_METADATA
  {
    match c
    case SelectDisplay(_) => SELECT_DISPLAY
    case SelectLayer(_) => SELECT_LAYER
    case Set(s) =>
      (match s
       case ColorTransform(_, _) => SET_COLOR_TRANSFORM
       case CursorPosition(_, _) => SET_LAYER_CURSOR_POSITION
       case Region(SurfaceDamage, _) => SET_LAYER_SURFACE_DAMAGE
       case Region(VisibleRegion, _) => SET_LAYER_VISIBLE_REGION
       case Signed(BlendMode, _) => SET_LAYER_BLEND_MODE
       case Signed(CompositionType, _) => SET_LAYER_COMPOSITION_TYPE
       case Signed(Dataspace, _) => SET_LAYER_DATASPACE
       case Signed(Transform, _) => SET_LAYER_TRANSFORM
       case LayerColor(_) => SET_LAYER_COLOR
       case DisplayFrame(_) => SET_LAYER_DISPLAY_FRAME
       case PlaneAlpha(_) => SET_LAYER_PLANE_ALPHA
       case SourceCrop(_) => SET_LAYER_SOURCE_CROP
       case ZOrder(_) => SET_LAYER_Z_ORDER)
    case SetBuffer(t, _, _, _) =>
      (match t
       case ClientTarget(_, _) => SET_CLIENT_TARGET
       case OutputBuffer => SET_OUTPUT_BUFFER
       case LayerBuffer => SET_LAYER_BUFFER)
    case SetSidebandStream(_) => SET_LAYER_SIDEBAND_STREAM
    case Ask(q) =>
      (match q
       case ValidateDisplay => VALIDATE_DISPLAY
       case PresentOrValidateDisplay => PRESENT_OR_VALIDATE_DISPLAY
       case AcceptDisplayChanges => ACCEPT_DISPLAY_CHANGES
       case PresentDisplay => PRESENT_DISPLAY)
  }

  // ----- words of one command -----

  const EMPTY: Int32 := -1   // HandleIndex.EMPTY
  const CACHED: Int32 := -2  // HandleIndex.CACHED

  function RectWords(r: Rect): (ws: seq<Word>)
    ensures |ws| == 4
  {
    [FromSigned(r.left), FromSigned(r.top), FromSigned(r.right), FromSigned(r.bottom)]
  }

  function RegionWords(rs: seq<Rect>): (ws: seq<Word>)
    ensures |ws| == 4 * |rs|
  {
    if rs == [] then [] else RegionWords(rs[..|rs| - 1]) + RectWords(rs[|rs| - 1])
  }

  function ColorWord(c: Color): Word {
    c.r + c.g * 0x100 + c.b * 0x1_0000 + c.a * 0x100_0000
  }

  /** writeHandle: the index of the handle in the table, or a reserved value. */
  function HandleWord(h: Option<Handle>, useCache: bool, base: nat): Word {
    if h.Some? then Wrap(base) else FromSigned(if useCache then CACHED else EMPTY)
  }

  /** writeFence: a nonnegative descriptor travels in a one-descriptor handle. */
  function FenceHandle(fence: Int32): Option<Handle> {
    if fence >= 0 then Some(Handle([fence], 0)) else None
  }

  function Listed(h: Option<Handle>): seq<Handle> {
    if h.Some? then [h.value] else []
  }

  /** Handles a command appends to the handle table, in the order they are written. */
  function HandlesOf(c: Written): seq<Handle> {
    match c
    case SetBuffer(_, _, buffer, fence) => Listed(buffer) + Listed(FenceHandle(fence))
    case SetSidebandStream(stream) => Listed(stream)
    case _ => []
  }

  /** Regions that do not fit a frame are written as no rectangle at all. */
  function Clipped(rs: seq<Rect>, reserved: nat): (r: seq<Rect>)
    requires reserved <= 4
    ensures reserved + 4 * |r| <= MAX_LENGTH
    ensures if reserved + 4 * |rs| <= MAX_LENGTH then r == rs else r == []
  {
    if |rs| <= (MAX_LENGTH - reserved) / 4 then rs else []
  }

  function SettingWords(s: Setting): seq<Word> {
    match s
    case ColorTransform(m, hint) => m + [FromSigned(hint)]
    case CursorPosition(x, y) => [FromSigned(x), FromSigned(y)]
    case Region(_, rs) => RegionWords(Clipped(rs, 0))
    case Signed(_, v) => [FromSigned(v)]
    case LayerColor(c) => [ColorWord(c)]
    case DisplayFrame(f) => RectWords(f)
    case PlaneAlpha(a) => [a]
    case SourceCrop(f) => [f.left, f.top, f.right, f.bottom]
    case ZOrder(z) => [z]
  }

  function TargetWords(t: BufferTarget): seq<Word> {
    match t
    case ClientTarget(dataspace, damage) => [FromSigned(dataspace)] + RegionWords(Clipped(damage, 4))
    case _ => []
  }

  function SlotWords(slot: Word, buffer: Option<Handle>, fence: Int32, base: nat): (ws: seq<Word>)
    ensures |ws| == 3
  {
    [slot, HandleWord(buffer, true, base), HandleWord(FenceHandle(fence), false, base + |Listed(buffer)|)]
  }

  /** The payload of a command whose first handle gets index `base`. */
  function Payload(c: Written, base: nat): (ws: seq<Word>)
    ensures |ws| <= MAX_LENGTH
    ensures |HandlesOf(c)| > 0 ==> 1 + |ws| >= 2 * |HandlesOf(c)|
  {
    match c
    case SelectDisplay(d) => [Low(d), High(d)]
    case SelectLayer(l) => [Low(l), High(l)]
    case Set(s) => SettingWords(s)
    case SetBuffer(t, slot, buffer, fence) =>
      SlotWords(slot, buffer, fence, base) + TargetWords(t)
    case SetSidebandStream(stream) => [HandleWord(stream, false, base)]
    case Ask(_) => []
  }

  function Header(op: Opcode, length: nat): Word
    requires 0 <= Code(op) < TWO16 && length <= MAX_LENGTH
  {
    Code(op) * TWO16 + length
  }

  function Frame(c: Written, base: nat): (ws: seq<Word>) {
    [Header(OpcodeFor(c), |Payload(c, base)|)] + Payload(c, base)
  }

  // ----- reading one frame -----

  function HeaderCode(w: Word): int {
    w / TWO16
  }

  function HeaderLength(w: Word): (n: nat)
    ensures n <= MAX_LENGTH
  {
    w % TWO16
  }

  function ReadRect(p: seq<Word>): Rect
    requires |p| == 4
  {
    Rect(ToSigned(p[0]), ToSigned(p[1]), ToSigned(p[2]), ToSigned(p[3]))
  }

  function ReadRegion(p: seq<Word>): seq<Rect>
    requires |p| % 4 == 0
  {
    if p == [] then [] else ReadRegion(p[..|p| - 4]) + [ReadRect(p[|p| - 4..])]
  }

  // each `>> 8` drops one byte
  function ReadColor(w: Word): Color {
    var gba := w / 0x100;
    var ba := gba / 0x100;
    Color(w % 0x100, gba % 0x100, ba % 0x100, ba / 0x100)
  }

  /** readHandle: an index outside the table reads as a null handle. */
  function ReadHandle(w: Word, hs: seq<Handle>): Source {
    var index := ToSigned(w);
    if index == CACHED then Cached
    else if 0 <= index < |hs| then Given(Some(hs[index]))
    else Given(None)
  }

  /** readHandle without the cache flag. */
  function ReadPlainHandle(w: Word, hs: seq<Handle>): Option<Handle> {
    if ReadHandle(w, hs).Given? then ReadHandle(w, hs).handle else None
  }

  /** readFence: the descriptor that is duplicated, -1 if there is none. */
  function ReadFence(w: Word, hs: seq<Handle>): Int32 {
    var h := ReadPlainHandle(w, hs);
    if h.Some? && |h.value.fds| == 1 then h.value.fds[0] else -1
  }

  /** (length - 4) % 4 != 0 in C++ arithmetic, where the remainder has the dividend's sign. */
  predicate ClientTargetLengthAccepted(length: nat) {
    var r := if length >= 4 then (length - 4) % 4 else -((4 - length) % 4);
    r == 0
  }

  function ReadSetBuffer(t: BufferTarget, p: seq<Word>, hs: seq<Handle>): Request
    requires |p| >= 3
  {
    Do(SetBuffer(t, p[0], ReadHandle(p[1], hs), ReadFence(p[2], hs)))
  }

  /** The request of a frame, or None when its handler rejects the length (or the opcode). */
  function Decode(op: Opcode, p: seq<Word>, hs: seq<Handle>): Option<Request>
    requires InFrame(op, |p|)
  {
    var n := |p|;
    match op
    case SELECT_DISPLAY => if n == 2 then Some(Do(SelectDisplay(Join(p[0], p[1])))) else None
    case SELECT_LAYER => if n == 2 then Some(Do(SelectLayer(Join(p[0], p[1])))) else None
    case SET_COLOR_TRANSFORM =>
      if n == 17 then Some(Do(Set(ColorTransform(p[..16], ToSigned(p[16]))))) else None
    case SET_CLIENT_TARGET =>
      if ClientTargetLengthAccepted(n)
      then Some(ReadSetBuffer(ClientTarget(ToSigned(p[3]), ReadRegion(p[4..])), p, hs)) else None
    case SET_OUTPUT_BUFFER => if n == 3 then Some(ReadSetBuffer(OutputBuffer, p, hs)) else None
    case SET_LAYER_BUFFER => if n == 3 then Some(ReadSetBuffer(LayerBuffer, p, hs)) else None
    case VALIDATE_DISPLAY => if n == 0 then Some(Do(Ask(ValidateDisplay))) else None
    case PRESENT_OR_VALIDATE_DISPLAY => if n == 0 then Some(Do(Ask(PresentOrValidateDisplay))) else None
    case ACCEPT_DISPLAY_CHANGES => if n == 0 then Some(Do(Ask(AcceptDisplayChanges))) else None
    case PRESENT_DISPLAY => if n == 0 then Some(Do(Ask(PresentDisplay))) else None
    case SET_LAYER_SIDEBAND_STREAM =>
      if n == 1 then Some(Do(SetSidebandStream(Given(ReadPlainHandle(p[0], hs))))) else None
    case SET_LAYER_COLOR_TRANSFORM => if n == 16 then Some(Unsupported) else None
    case SET_LAYER_FLOAT_COLOR => if n == 4 then Some(Unsupported) else None
    case SET_LAYER_PER_FRAME_METADATA => Some(Unsupported)
    case _ =>
      var s := DecodeSetting(op, p);
      if s.Some? then Some(Do(Set(s.value))) else None
  }

  function DecodeSetting(op: Opcode, p: seq<Word>): Option<Setting> {
    var n := |p|;
    match op
    case SET_LAYER_CURSOR_POSITION =>
      if n == 2 then Some(CursorPosition(ToSigned(p[0]), ToSigned(p[1]))) else None
    case SET_LAYER_SURFACE_DAMAGE =>
      if n % 4 == 0 then Some(Region(SurfaceDamage, ReadRegion(p))) else None
    case SET_LAYER_VISIBLE_REGION =>
      if n % 4 == 0 then Some(Region(VisibleRegion, ReadRegion(p))) else None
    case SET_LAYER_DISPLAY_FRAME => if n == 4 then Some(DisplayFrame(ReadRect(p))) else None
    case SET_LAYER_SOURCE_CROP => if n == 4 then Some(SourceCrop(FRect(p[0], p[1], p[2], p[3]))) else None
    case _ => if n == 1 then DecodeWord(op, p[0]) else None
  }

  /** The settings of a single word. */
  function DecodeWord(op: Opcode, w: Word): Option<Setting> {
    match op
    case SET_LAYER_BLEND_MODE => Some(Signed(BlendMode, ToSigned(w)))
    case SET_LAYER_COMPOSITION_TYPE => Some(Signed(CompositionType, ToSigned(w)))
    case SET_LAYER_DATASPACE => Some(Signed(Dataspace, ToSigned(w)))
    case SET_LAYER_TRANSFORM => Some(Signed(Transform, ToSigned(w)))
    case SET_LAYER_COLOR => Some(LayerColor(ReadColor(w)))
    case SET_LAYER_PLANE_ALPHA => Some(PlaneAlpha(w))
    case SET_LAYER_Z_ORDER => Some(ZOrder(w))
    case _ => None
  }

  /** The handlers whose reads are tied to the frame length. The metadata-blob handler reads
      sizes out of the payload, and a client target of length 0 passes its length check but
      reads four words and then a region of 2^64 - 1 rectangles. */
  predicate InFrame(op: Opcode, length: nat) {
    op != SET_LAYER_PER_FRAME_METADATA_BLOBS && !(op == SET_CLIENT_TARGET && length == 0)
  }

  /** Exactly one length slips through the client target's check without its four words. */
  lemma ClientTargetLengthCheck(length: nat)
    ensures (ClientTargetLengthAccepted(length) && length < 4) <==> length == 0
    ensures length >= 4 ==> (ClientTargetLengthAccepted(length) <==> length % 4 == 0)
  {
  }

  // ----- one frame round trips -----

  /** What a written command reads back as. */
  function Delivered(c: Written): Command<Source> {
    match c
    case SelectDisplay(d) => SelectDisplay(d)
    case SelectLayer(l) => SelectLayer(l)
    case Set(Region(r, rs)) => Set(Region(r, Clipped(rs, 0)))
    case Set(s) => Set(s)
    case SetBuffer(t, slot, buffer, fence) =>
      SetBuffer(if t.ClientTarget? then t.(damage := Clipped(t.damage, 4)) else t, slot,
                if buffer.Some? then Given(buffer) else Cached, if fence >= 0 then fence else -1)
    case SetSidebandStream(stream) => SetSidebandStream(Given(stream))
    case Ask(q) => Ask(q)
  }

  lemma {:induction false} RegionRoundTrip(rs: seq<Rect>)
    ensures ReadRegion(RegionWords(rs)) == rs
  {
    hide ReadRegion, RegionWords;
    if rs == [] {
      NoRegion();
    } else {
      var n := |rs| - 1;
      RegionRoundTrip(rs[..n]);
      assert rs == rs[..n] + [rs[n]];
      RectRoundTrip(rs[n]);
      RegionWordsMore(rs);
      ReadRegionMore(RegionWords(rs[..n]), RectWords(rs[n]));
    }
  }

  lemma NoRegion()
    ensures RegionWords([]) == [] && ReadRegion([]) == []
  {
  }

  lemma RegionWordsMore(rs: seq<Rect>)
    requires rs != []
    ensures RegionWords(rs) == RegionWords(rs[..|rs| - 1]) + RectWords(rs[|rs| - 1])
  {
  }

  lemma RectRoundTrip(r: Rect)
    ensures ReadRect(RectWords(r)) == r
  {
  }

  lemma ReadRegionMore(ws: seq<Word>, more: seq<Word>)
    requires |ws| % 4 == 0 && |more| == 4
    ensures ReadRegion(ws + more) == ReadRegion(ws) + [ReadRect(more)]
  {
    hide ReadRect;
    var all := ws + more;
    assert all[..|all| - 4] == ws && all[|all| - 4..] == more;
    assert ReadRegion(all) == ReadRegion(all[..|all| - 4]) + [ReadRect(all[|all| - 4..])];
  }

  /** One byte packed below the others comes off again. */
  lemma LowByte(low: nat, rest: nat)
    requires low < 0x100
    ensures (low + rest * 0x100) % 0x100 == low && (low + rest * 0x100) / 0x100 == rest
  {
  }

  lemma ColorRoundTrip(c: Color)
    ensures ReadColor(ColorWord(c)) == c
  {
    var ba := c.b + c.a * 0x100;
    var gba := c.g + ba * 0x100;
    assert ColorWord(c) == c.r + gba * 0x100;
    LowByte(c.r, gba);
    LowByte(c.g, ba);
    LowByte(c.b, c.a);
  }

  lemma HandleRoundTrip(h: Option<Handle>, useCache: bool, base: nat, hs: seq<Handle>)
    requires |hs| <= TWO31
    requires base + |Listed(h)| <= |hs| && hs[base..base + |Listed(h)|] == Listed(h)
    ensures ReadHandle(HandleWord(h, useCache, base), hs)
         == if h.None? && useCache then Cached else Given(h)
  {
    if h.Some? {
      assert hs[base] == hs[base..base + 1][0];
    }
  }

  lemma RegionSettingRoundTrip(r: RegionProperty, rs: seq<Rect>)
    ensures DecodeSetting(OpcodeFor<Option<Handle>>(Set(Region(r, rs))), RegionWords(Clipped(rs, 0)))
         == Some(Region(r, Clipped(rs, 0)))
  {
    hide ReadRegion, RegionWords, Clipped;
    RegionRoundTrip(Clipped(rs, 0));
  }

  lemma ColorSettingRoundTrip(c: Color)
    ensures DecodeSetting(OpcodeFor<Option<Handle>>(Set(LayerColor(c))), [ColorWord(c)]) == Some(LayerColor(c))
  {
    ColorRoundTrip(c);
  }

  lemma SettingRoundTrip(s: Setting)
    requires !s.ColorTransform? && !s.Region? && !s.LayerColor?
    ensures DecodeSetting(OpcodeFor<Option<Handle>>(Set(s)), SettingWords(s)) == Some(s)
  {
    hide ReadRegion, RegionWords, Clipped, ReadColor, ColorWord;
  }

  lemma BufferWordsRoundTrip(t: BufferTarget, c: Written, base: nat, hs: seq<Handle>)
    requires c.SetBuffer? && |hs| <= TWO31
    requires base + |HandlesOf(c)| <= |hs| && hs[base..base + |HandlesOf(c)|] == HandlesOf(c)
    ensures ReadSetBuffer(t, Payload(c, base), hs)
         == Do(SetBuffer(t, c.slot, if c.buffer.Some? then Given(c.buffer) else Cached,
                         if c.fence >= 0 then c.fence else -1))
  {
    hide ReadHandle, HandleWord, TargetWords, FenceHandle, ReadFence;
    var mid := base + |Listed(c.buffer)|;
    var f := FenceHandle(c.fence);
    TableSplit(hs, base, Listed(c.buffer), Listed(f));
    HandleRoundTrip(c.buffer, true, base, hs);
    HandleRoundTrip(f, false, mid, hs);
    FenceRoundTrip(c.fence, mid, hs);
  }

  lemma TableSplit<T>(s: seq<T>, at: nat, a: seq<T>, b: seq<T>)
    requires at + |a + b| <= |s| && s[at..at + |a + b|] == a + b
    ensures s[at..at + |a|] == a && s[at + |a|..at + |a| + |b|] == b
  {
    assert s[at..at + |a|] == s[at..at + |a + b|][..|a|];
    assert s[at + |a|..at + |a| + |b|] == s[at..at + |a + b|][|a|..];
  }

  lemma FenceRoundTrip(fence: Int32, base: nat, hs: seq<Handle>)
    requires |hs| <= TWO31
    requires var h := Listed(FenceHandle(fence)); base + |h| <= |hs| && hs[base..base + |h|] == h
    ensures ReadFence(HandleWord(FenceHandle(fence), false, base), hs) == if fence >= 0 then fence else -1
  {
    hide ReadHandle, HandleWord;
    HandleRoundTrip(FenceHandle(fence), false, base, hs);
  }

  lemma ClientTargetRoundTrip(dataspace: Int32, damage: seq<Rect>, ws: seq<Word>)
    requires |ws| == 3
    ensures var p := ws + TargetWords(ClientTarget(dataspace, damage));
            && |p| >= 4 && ClientTargetLengthAccepted(|p|)
            && ToSigned(p[3]) == dataspace && ReadRegion(p[4..]) == Clipped(damage, 4)
  {
    hide RegionWords, ReadRegion, Clipped, ClientTargetLengthAccepted;
    var p := ws + TargetWords(ClientTarget(dataspace, damage));
    assert p[3] == FromSigned(dataspace);
    assert p[4..] == RegionWords(Clipped(damage, 4));
    RegionRoundTrip(Clipped(damage, 4));
    ClientTargetLengthCheck(|p|);
  }

  lemma BufferRoundTrip(c: Written, base: nat, hs: seq<Handle>)
    requires c.SetBuffer? && |hs| <= TWO31
    requires base + |HandlesOf(c)| <= |hs| && hs[base..base + |HandlesOf(c)|] == HandlesOf(c)
    ensures InFrame(OpcodeFor(c), |Payload(c, base)|)
    ensures Decode(OpcodeFor(c), Payload(c, base), hs) == Some(Do(Delivered(c)))
  {
    hide SlotWords, RegionWords, ReadSetBuffer, ReadRegion;
    if c.target.ClientTarget? {
      ClientTargetRoundTrip(c.target.dataspace, c.target.damage, SlotWords(c.slot, c.buffer, c.fence, base));
    }
    BufferWordsRoundTrip(Delivered(c).target, c, base, hs);
  }

  lemma WrittenInFrame(c: Written, base: nat)
    ensures InFrame(OpcodeFor(c), |Payload(c, base)|)
  {
    hide HandleWord, RegionWords, Clipped, ColorWord, SlotWords;
  }

  /** The handler of a written frame reads back the command, given a table that holds its handles. */
  lemma FrameRoundTrip(c: Written, base: nat, hs: seq<Handle>)
    requires |hs| <= TWO31
    requires base + |HandlesOf(c)| <= |hs| && hs[base..base + |HandlesOf(c)|] == HandlesOf(c)
    ensures InFrame(OpcodeFor(c), |Payload(c, base)|)
    ensures Decode(OpcodeFor(c), Payload(c, base), hs) == Some(Do(Delivered(c)))
  {
    hide InFrame, ReadHandle, HandleWord, RegionWords, ReadRegion, Clipped, ColorWord, ReadColor, SlotWords,
         TargetWords;
    WrittenInFrame(c, base);
    match c
    case SetBuffer(_, _, _, _) => BufferRoundTrip(c, base, hs);
    case SetSidebandStream(stream) => HandleRoundTrip(stream, false, base, hs);
    case Set(ColorTransform(m, _)) => assert Payload(c, base)[..16] == m;
    case Set(Region(r, rs)) => RegionSettingRoundTrip(r, rs);
    case Set(LayerColor(color)) => ColorSettingRoundTrip(color);
    case Set(s) => SettingRoundTrip(s);
    case SelectDisplay(d) => JoinSplit(d);
    case SelectLayer(l) => JoinSplit(l);
    case Ask(_) =>
  }

  lemma HeaderRoundTrip(op: Opcode, length: nat)
    requires 0 <= Code(op) < TWO16 && length <= MAX_LENGTH && OpcodeOf(Code(op)) == op
    ensures OpcodeOf(HeaderCode(Header(op, length))) == op
    ensures HeaderLength(Header(op, length)) == length
  {
  }
}
