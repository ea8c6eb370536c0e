/** A whole command buffer as a pure function of its words: framing, the requests of the
    longest accepted prefix of frames, and the round trip of everything a client writes. */
module Stream {
  import opened Words
  import opened Commands

  /** A request with the word offset of its header. */
  datatype Item = Item(loc: nat, request: Request)

  /** Why parsing stopped. OffFrame: a handler would read outside its frame. */
  datatype Ending = Consumed | Truncated | Rejected | OffFrame

  /** `fatal`: a LOG_FATAL branch of endCommand is reached. */
  datatype Trace = Trace(items: seq<Item>, end: nat, ending: Ending, fatal: bool)

  // ----- what the client writes -----

  function Encode(cmds: seq<Written>, base: nat): seq<Word> {
    if cmds == [] then []
    else Frame(cmds[0], base) + Encode(cmds[1..], base + |HandlesOf(cmds[0])|)
  }

  function Table(cmds: seq<Written>): seq<Handle> {
    if cmds == [] then [] else HandlesOf(cmds[0]) + Table(cmds[1..])
  }

  /** The requests that should arrive, at the offsets at which they were written. */
  function Located(cmds: seq<Written>, base: nat, pos: nat): seq<Item> {
    if cmds == [] then []
    else [Item(pos, Do(Delivered(cmds[0])))]
         + Located(cmds[1..], base + |HandlesOf(cmds[0])|, pos + |Frame(cmds[0], base)|)
  }

  lemma {:induction false} EncodeAppend(cmds: seq<Written>, c: Written, base: nat)
    ensures Encode(cmds + [c], base) == Encode(cmds, base) + Frame(c, base + |Table(cmds)|)
    ensures Table(cmds + [c]) == Table(cmds) + HandlesOf(c)
  {
    hide Frame, HandlesOf;
    if cmds == [] {
      assert cmds + [c] == [c];
      EncodeOne(c, base);
    } else {
      var rest := base + |HandlesOf(cmds[0])|;
      EncodeAppend(cmds[1..], c, rest);
      AppendStep(cmds, c, base);
      Assoc(Frame(cmds[0], base), Encode(cmds[1..], rest), Frame(c, base + |Table(cmds)|));
      Assoc(HandlesOf(cmds[0]), Table(cmds[1..]), HandlesOf(c));
    }
  }

  lemma EncodeOne(c: Written, base: nat)
    ensures Encode([c], base) == Frame(c, base) && Table([c]) == HandlesOf(c)
  {
    hide Frame, HandlesOf;
    var none := [c][1..];
    assert none == [];
    assert Encode(none, base + |HandlesOf(c)|) == [] && Table(none) == [];
  }

  lemma Assoc<T>(a: seq<T>, b: seq<T>, c: seq<T>)
    ensures a + (b + c) == (a + b) + c
  {
  }

  lemma AppendStep(cmds: seq<Written>, c: Written, base: nat)
    requires cmds != []
    ensures Encode(cmds + [c], base)
         == Frame(cmds[0], base) + Encode(cmds[1..] + [c], base + |HandlesOf(cmds[0])|)
    ensures Table(cmds + [c]) == HandlesOf(cmds[0]) + Table(cmds[1..] + [c])
  {
    hide Frame, HandlesOf;
    var all := cmds + [c];
    assert all[0] == cmds[0] && all[1..] == cmds[1..] + [c];
  }

  /** A handle costs at least two words, so indices into the table never reach 2^31
      in a buffer of fewer than 2^32 words. */
  lemma {:induction false} TwoWordsPerHandle(cmds: seq<Written>, base: nat)
    ensures 2 * |Table(cmds)| <= |Encode(cmds, base)|
  {
    hide Payload, HandlesOf;
    if cmds != [] {
      TwoWordsPerHandle(cmds[1..], base + |HandlesOf(cmds[0])|);
    }
  }

  // ----- what the reader makes of any words -----

  /** The reader's length check compares a uint32_t sum, which can wrap. */
  predicate FitsCheck(pos: nat, length: nat, size: nat) {
    Wrap(pos + 1 + length) <= size
  }

  /** The check is right exactly when the sum stays below 2^32. */
  lemma LengthCheck(pos: nat, length: nat, size: nat)
    requires pos < size < TWO32 && length <= MAX_LENGTH
    ensures (FitsCheck(pos, length, size) == (pos + 1 + length <= size)) <==> pos + 1 + length < TWO32
  {
  }

  predicate OddMetadata(op: Opcode, length: nat) {
    op == SET_LAYER_PER_FRAME_METADATA && length % 2 == 1
  }

  /** One turn of the parse loop: go on behind an accepted frame, or stop. */
  datatype Turn = Accept(request: Request, next: nat, odd: bool) | Stop(trace: Trace)

  function ReadFrame(words: seq<Word>, hs: seq<Handle>, pos: nat): (turn: Turn)
    requires pos < |words|
    ensures turn.Accept? ==> turn.next == pos + 1 + HeaderLength(words[pos]) <= |words|
    ensures turn.Stop? ==> turn.trace.items == [] && pos <= turn.trace.end <= |words|
  {
    var op := OpcodeOf(HeaderCode(words[pos]));
    var n := HeaderLength(words[pos]);
    if !FitsCheck(pos, n, |words|) then Stop(Trace([], pos, Truncated, false))
    else if pos + 1 + n > |words| || !InFrame(op, n) then Stop(Trace([], pos, OffFrame, false))
    else
      var request := Decode(op, words[pos + 1..pos + 1 + n], hs);
      if request.None? then Stop(Trace([], pos + 1 + n, Rejected, n > 0))
      else Accept(request.value, pos + 1 + n, OddMetadata(op, n))
  }

  function Parse(words: seq<Word>, hs: seq<Handle>, pos: nat): (t: Trace)
    requires pos <= |words|
    ensures pos <= t.end <= |words|
    decreases |words| - pos
  {
    if pos == |words| then Trace([], pos, Consumed, false)
    else
      match ReadFrame(words, hs, pos)
      case Stop(t) => t
      case Accept(request, next, odd) =>
        var t := Parse(words, hs, next);
        Trace([Item(pos, request)] + t.items, t.end, t.ending, t.fatal || odd)
  }

  /** Every stream a client can write parses completely, to the same commands in the same order,
      without reaching a LOG_FATAL branch. */
  lemma StreamRoundTrip(cmds: seq<Written>)
    requires |Encode(cmds, 0)| < TWO32
    ensures Parse(Encode(cmds, 0), Table(cmds), 0)
         == Trace(Located(cmds, 0, 0), |Encode(cmds, 0)|, Consumed, false)
  {
    TwoWordsPerHandle(cmds, 0);
    SuffixRoundTrip(cmds, 0, Encode(cmds, 0), Table(cmds), 0);
  }

  lemma FrameArrives(c: Written, base: nat, words: seq<Word>, hs: seq<Handle>, pos: nat)
    requires |words| < TWO32 && |hs| <= TWO31
    requires pos + |Frame(c, base)| <= |words| && words[pos..pos + |Frame(c, base)|] == Frame(c, base)
    requires base + |HandlesOf(c)| <= |hs| && hs[base..base + |HandlesOf(c)|] == HandlesOf(c)
    ensures ReadFrame(words, hs, pos) == Accept(Do(Delivered(c)), pos + |Frame(c, base)|, false)
  {
    hide Payload, Decode, HandlesOf, Code, OpcodeOf, OpcodeFor, Delivered;
    var payload := Payload(c, base);
    assert words[pos] == Frame(c, base)[0];
    assert words[pos + 1..pos + 1 + |payload|] == Frame(c, base)[1..] == payload;
    HeaderRoundTrip(OpcodeFor(c), |payload|);
    FrameRoundTrip(c, base, hs);
  }

  lemma {:induction false} SuffixRoundTrip(cmds: seq<Written>, base: nat, words: seq<Word>, hs: seq<Handle>, pos: nat)
    requires |words| < TWO32 && |hs| <= TWO31
    requires pos <= |words| && words[pos..] == Encode(cmds, base)
    requires base <= |hs| && hs[base..] == Table(cmds)
    ensures Parse(words, hs, pos) == Trace(Located(cmds, base, pos), |words|, Consumed, false)
    decreases |cmds|
  {
    hide Frame, HandlesOf, ReadFrame, Delivered;
    if cmds != [] {
      var c, next, rest := cmds[0], pos + |Frame(cmds[0], base)|, base + |HandlesOf(cmds[0])|;
      Split(words, pos, Frame(c, base), Encode(cmds[1..], rest));
      Split(hs, base, HandlesOf(c), Table(cmds[1..]));
      FrameArrives(c, base, words, hs, pos);
      SuffixRoundTrip(cmds[1..], rest, words, hs, next);
    }
  }

  lemma Split<T>(s: seq<T>, pos: nat, a: seq<T>, b: seq<T>)
    requires pos <= |s| && s[pos..] == a + b
    ensures pos + |a| <= |s| && s[pos..pos + |a|] == a && s[pos + |a|..] == b
  {
    assert s[pos..pos + |a|] == s[pos..][..|a|];
    assert s[pos + |a|..] == s[pos..][|a|..];
  }

  // ----- framing alone -----

  /** Walking headers only: the offsets of the frames that lie inside the buffer. */
  function FrameStarts(words: seq<Word>, pos: nat): (starts: seq<nat>)
    requires pos <= |words|
    ensures forall i :: 0 <= i < |starts| ==> pos <= starts[i] && FrameInside(words, starts[i])
    ensures forall i, j :: 0 <= i < j < |starts| ==> starts[i] < starts[j]
    decreases |words| - pos
  {
    if pos == |words| || !FrameInside(words, pos) then []
    else [pos] + FrameStarts(words, FrameEnd(words, pos))
  }

  predicate FrameInside(words: seq<Word>, pos: nat) {
    pos < |words| && FrameEnd(words, pos) <= |words|
  }

  function FrameEnd(words: seq<Word>, pos: nat): nat
    requires pos < |words|
  {
    pos + 1 + HeaderLength(words[pos])
  }

  /** The request is the decoding of exactly the frame that starts at its location. */
  predicate DecodesItsFrame(item: Item, words: seq<Word>, hs: seq<Handle>) {
    && FrameInside(words, item.loc)
    && var op := OpcodeOf(HeaderCode(words[item.loc]));
       && InFrame(op, HeaderLength(words[item.loc]))
       && Decode(op, words[item.loc + 1..FrameEnd(words, item.loc)], hs) == Some(item.request)
  }

  /** The handler of the frame at `pos` rejects it. */
  predicate Rejects(words: seq<Word>, hs: seq<Handle>, pos: nat) {
    && FrameInside(words, pos)
    && var op := OpcodeOf(HeaderCode(words[pos]));
       && InFrame(op, HeaderLength(words[pos]))
       && Decode(op, words[pos + 1..FrameEnd(words, pos)], hs) == None
  }

  /** The frame at `pos` leaves the buffer, or its handler may read outside it. */
  predicate LeavesFrame(words: seq<Word>, pos: nat)
    requires pos < |words|
  {
    !FrameInside(words, pos) || !InFrame(OpcodeOf(HeaderCode(words[pos])), HeaderLength(words[pos]))
  }

  /** Nothing but the frames matters: the requests are the decodings of the longest accepted prefix of
      frames, in order. Parsing ends behind the last word, behind the first rejected frame, or in front
      of one that leaves the buffer or its own bounds. */
  lemma {:induction false} ItemsAreFramePrefix(words: seq<Word>, hs: seq<Handle>, pos: nat)
    requires pos <= |words|
    ensures var t := Parse(words, hs, pos);
            var starts := FrameStarts(words, pos);
            && |t.items| <= |starts|
            && (forall i :: 0 <= i < |t.items| ==>
                  t.items[i].loc == starts[i] && DecodesItsFrame(t.items[i], words, hs))
            && match t.ending
               case Consumed => |t.items| == |starts| && t.end == |words|
               case Rejected =>
                 && |t.items| < |starts| && Rejects(words, hs, starts[|t.items|])
                 && t.end == FrameEnd(words, starts[|t.items|])
               case Truncated =>
                 && t.end < |words|
                 && (|words| < TWO32 ==> |t.items| == |starts| && !FrameInside(words, t.end))
               case OffFrame =>
                 && t.end < |words| && LeavesFrame(words, t.end)
                 && if FrameInside(words, t.end) then |t.items| < |starts| && t.end == starts[|t.items|]
                    else |t.items| == |starts|
    decreases |words| - pos
  {
    hide ReadFrame, DecodesItsFrame, FrameInside, FrameEnd, Rejects, LeavesFrame;
    if pos < |words| {
      TurnSemantics(words, hs, pos);
      if ReadFrame(words, hs, pos).Accept? {
        ItemsAreFramePrefix(words, hs, FrameEnd(words, pos));
      }
    }
  }

  lemma TurnSemantics(words: seq<Word>, hs: seq<Handle>, pos: nat)
    requires pos < |words|
    ensures match ReadFrame(words, hs, pos)
            case Accept(request, next, _) =>
              FrameInside(words, pos) && next == FrameEnd(words, pos) && DecodesItsFrame(Item(pos, request), words, hs)
            case Stop(t) =>
              match t.ending
              case Consumed => false
              case Rejected => Rejects(words, hs, pos) && FrameInside(words, pos) && t.end == FrameEnd(words, pos)
              case Truncated => t.end == pos && (|words| < TWO32 ==> !FrameInside(words, pos))
              case OffFrame => t.end == pos && LeavesFrame(words, pos)
  {
    hide Decode, OpcodeOf;
  }

  ghost predicate Increasing(items: seq<Item>) {
    forall i, j :: 0 <= i < j < |items| ==> items[i].loc < items[j].loc
  }

  /** The locations of the requests are strictly increasing header offsets. */
  lemma LocationsIncrease(words: seq<Word>, hs: seq<Handle>)
    ensures Increasing(Parse(words, hs, 0).items)
  {
    ItemsAreFramePrefix(words, hs, 0);
  }
}
