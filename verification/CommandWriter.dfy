/** CommandWriterBase: a growable array of words filled frame by frame. */
module CommandWriter {
  import opened Words
  import opened Commands
  import opened Stream

  /** growData's new capacity; the shift by one drops the top bit. */
  function NewCapacity(capacity: Word, needed: Word): (c: Word)
    ensures needed <= c
  {
    var doubled := Wrap(2 * capacity);
    if doubled < needed then needed else doubled
  }

  /** Growth doubles the buffer for every request exactly while the capacity is below 2^31. */
  lemma DoublingStopsAtTwo31(capacity: Word)
    requires capacity < TWO32 - 1
    ensures (forall needed: Word :: capacity < needed ==> NewCapacity(capacity, needed) >= 2 * capacity)
            <==> capacity < TWO31
  {
    if capacity >= TWO31 {
      assert NewCapacity(capacity, capacity + 1) < 2 * capacity;
    }
  }

  /** The length a set* function declares to beginCommand before it writes anything. */
  function DeclaredLength(c: Written): (n: nat) {
    match c
    case SelectDisplay(_) => 2
    case SelectLayer(_) => 2
    case Set(s) =>
      (match s
       case ColorTransform(_, _) => 17
       case CursorPosition(_, _) => 2
       case Region(_, rs) => if |rs| <= MAX_LENGTH / 4 then |rs| * 4 else 0
       case DisplayFrame(_) => 4
       case SourceCrop(_) => 4
       case _ => 1)
    case SetBuffer(ClientTarget(_, damage), _, _, _) =>
      4 + if |damage| <= (MAX_LENGTH - 4) / 4 then |damage| * 4 else 0
    case SetBuffer(_, _, _, _) => 3
    case SetSidebandStream(_) => 1
    case Ask(_) => 0
  }

  lemma DeclaredLengthIsWritten(c: Written, base: nat)
    ensures |Payload(c, base)| == DeclaredLength(c)
  {
  }

  /** What endCommand leaves of the words: cut at the frame's end, or padded with zeros up to it. */
  function Closed(ws: seq<Word>, end: nat): seq<Word> {
    if end == 0 then ws
    else if end <= |ws| then ws[..end]
    else ws + seq(end - |ws|, _ => 0)
  }

  lemma Grows(capacity: Word, needed: Word)
    requires capacity < needed
    ensures capacity < NewCapacity(capacity, needed)
    ensures capacity < TWO31 ==> NewCapacity(capacity, needed) >= 2 * capacity
  {
  }

  lemma ClosedExactly(ws: seq<Word>)
    ensures Closed(ws, |ws|) == ws
  {
  }

  class Writer {
    var data: array<Word>       // mData; its length is mDataMaxSize
    var written: nat            // mDataWritten
    var commandEnd: nat         // mCommandEnd, 0 outside a command
    var handles: seq<Handle>    // mDataHandles
    var fatal: bool             // a LOG_FATAL branch was reached
    ghost var content: seq<Word>  // the words written so far
    ghost var initial: nat      // capacity at construction
    ghost var grownFrom: nat    // capacity before the latest growth
    ghost var copied: nat       // words copied by all growths so far

    ghost predicate Valid()
      reads this, data
    {
      && written <= data.Length < TWO32 && content == data[..written]
      && commandEnd <= data.Length
      && initial <= data.Length && grownFrom <= data.Length
      && (grownFrom < TWO31 ==> copied <= data.Length - initial)
    }

    ghost predicate Idle()
      reads this, data
      ensures Idle() ==> |content| == written < TWO32
    {
      Valid() && commandEnd == 0 && !fatal
    }

    constructor (initialMaxSize: Word)
      ensures Idle() && content == [] && handles == [] && fresh(data)
    {
      data := new Word[initialMaxSize](_ => 0);
      written, commandEnd, handles, fatal := 0, 0, [], false;
      content := [];
      initial, grownFrom, copied := initialMaxSize, 0, 0;
    }

    method CopyOut(capacity: Word) returns (newData: array<Word>)
      requires Valid() && written <= capacity
      ensures fresh(newData) && newData.Length == capacity && newData[..written] == content
    {
      newData := new Word[capacity](_ => 0);
      var i := 0;
      while i < written
        invariant i <= written && newData[..i] == content[..i]
      {
        newData[i] := data[i];
        i := i + 1;
      }
    }

    /** Makes room for `grow` more words; `aborted` is LOG_ALWAYS_FATAL. */
    method GrowData(grow: Word) returns (aborted: bool)
      requires Valid()
      modifies this`data, this`grownFrom, this`copied
      ensures Valid() && (data == old(data) || fresh(data))
      ensures aborted <==> written + grow >= TWO32
      ensures !aborted ==> written + grow <= data.Length
      ensures content == old(content)
      ensures copied == old(copied) + if data == old(data) then 0 else written
    {
      hide NewCapacity;
      var newWritten: Word := Wrap(written + grow);
      if newWritten < written {
        return true;
      }
      if newWritten <= data.Length {
        return false;
      }
      Grows(data.Length, newWritten);
      var newData := CopyOut(NewCapacity(data.Length, newWritten));
      grownFrom, copied := data.Length, copied + written;
      data := newData;
      return false;
    }

    method BeginCommand(op: Opcode, length: nat) returns (aborted: bool)
      requires Valid() && 0 <= Code(op) < TWO16 && length <= MAX_LENGTH
      modifies this`data, this`written, this`content, this`commandEnd, this`fatal, this`grownFrom, this`copied, data
      ensures Valid() && (data == old(data) || fresh(data))
      ensures fatal == (old(fatal) || old(commandEnd) != 0)
      ensures aborted <==> old(written) + 1 + length >= TWO32
      ensures aborted ==> content == old(content) && commandEnd == old(commandEnd)
      ensures !aborted ==> content == old(content) + [Header(op, length)]
      ensures !aborted ==> commandEnd == written + length
      ensures copied == old(copied) + if data == old(data) then 0 else old(written)
    {
      if commandEnd != 0 {
        fatal := true;
      }
      aborted := GrowData(1 + length);
      if aborted {
        return;
      }
      Write(Header(op, length));
      commandEnd := written + length;
    }

    /** Closes the frame; only a frame of exactly the declared length does so silently. */
    method EndCommand()
      requires Valid()
      modifies this`written, this`content, this`commandEnd, this`fatal, data
      ensures Valid() && commandEnd == 0
      ensures content == Closed(old(content), old(commandEnd))
      ensures fatal == (old(fatal) || old(commandEnd) == 0 || old(written) != old(commandEnd))
    {
      if commandEnd == 0 {
        fatal := true;
      } else if written > commandEnd {
        fatal := true;
        written := commandEnd;
        content := content[..commandEnd];
      } else if written < commandEnd {
        fatal := true;
        while written < commandEnd
          invariant old(written) <= written <= commandEnd && Valid()
          invariant content == old(content) + seq(written - old(written), _ => 0)
          modifies this`written, this`content, data
        {
          Write(0);
        }
      }
      commandEnd := 0;
    }

    // ----- primitives -----

    method Write(val: Word)
      requires Valid() && written < data.Length
      modifies this`written, this`content, data
      ensures Valid() && content == old(content) + [val]
    {
      data[written] := val;
      written := written + 1;
      content := content + [val];
    }

    method WriteSigned(val: Int32)
      requires Valid() && written < data.Length
      modifies this`written, this`content, data
      ensures Valid() && content == old(content) + [FromSigned(val)]
    {
      Write(FromSigned(val));
    }

    method Write64(val: Word64)
      requires Valid() && written + 2 <= data.Length
      modifies this`written, this`content, data
      ensures Valid() && content == old(content) + [Low(val), High(val)]
    {
      Write(Low(val));
      Write(High(val));
    }

    method WriteRect(rect: Rect)
      requires Valid() && written + 4 <= data.Length
      modifies this`written, this`content, data
      ensures Valid() && content == old(content) + RectWords(rect)
    {
      WriteSigned(rect.left);
      WriteSigned(rect.top);
      WriteSigned(rect.right);
      WriteSigned(rect.bottom);
    }

    method WriteFRect(rect: FRect)
      requires Valid() && written + 4 <= data.Length
      modifies this`written, this`content, data
      ensures Valid() && content == old(content) + [rect.left, rect.top, rect.right, rect.bottom]
    {
      Write(rect.left);
      Write(rect.top);
      Write(rect.right);
      Write(rect.bottom);
    }

    method WriteRegion(region: seq<Rect>)
      requires Valid() && written + 4 * |region| <= data.Length
      modifies this`written, this`content, data
      ensures Valid() && content == old(content) + RegionWords(region)
    {
      var i := 0;
      while i < |region|
        invariant i <= |region| && Valid() && written == old(written) + 4 * i
        invariant content == old(content) + RegionWords(region[..i])
      {
        assert region[..i + 1][..i] == region[..i];
        WriteRect(region[i]);
        i := i + 1;
      }
      assert region[..i] == region;
    }

    method WriteMatrix(matrix: Matrix)
      requires Valid() && written + 16 <= data.Length
      modifies this`written, this`content, data
      ensures Valid() && content == old(content) + matrix
    {
      var i := 0;
      while i < 16
        invariant i <= 16 && Valid() && written == old(written) + i
        invariant content == old(content) + matrix[..i]
      {
        Write(matrix[i]);
        i := i + 1;
      }
      assert matrix[..i] == matrix;
    }

    /** The handle goes into the table, its index into the stream. */
    method WriteHandle(handle: Option<Handle>, useCache: bool)
      requires Valid() && written < data.Length
      modifies this`written, this`content, this`handles, data
      ensures Valid() && content == old(content) + [HandleWord(handle, useCache, |old(handles)|)]
      ensures handles == old(handles) + Listed(handle)
    {
      if handle.None? {
        WriteSigned(if useCache then CACHED else EMPTY);
        return;
      }
      handles := handles + [handle.value];
      Write(Wrap(|handles| - 1));
    }

    method WriteFence(fence: Int32)
      requires Valid() && written < data.Length
      modifies this`written, this`content, this`handles, data
      ensures Valid() && content == old(content) + [HandleWord(FenceHandle(fence), false, |old(handles)|)]
      ensures handles == old(handles) + Listed(FenceHandle(fence))
    {
      var handle := None;
      if fence >= 0 {
        handle := Some(Handle([fence], 0));
      }
      WriteHandle(handle, false);
    }

    // ----- payloads -----

    method WriteSetting(s: Setting)
      requires Valid() && written + |SettingWords(s)| <= data.Length
      modifies this`written, this`content, data
      ensures Valid() && content == old(content) + SettingWords(s)
    {
      hide RegionWords, RectWords, ColorWord, Clipped;
      match s
      case ColorTransform(matrix, hint) =>
        WriteMatrix(matrix);
        WriteSigned(hint);
      case CursorPosition(x, y) =>
        WriteSigned(x);
        WriteSigned(y);
      case Region(_, rects) =>
        NoRegion();
        if |rects| <= MAX_LENGTH / 4 {
          WriteRegion(rects);
        }
      case Signed(_, value) => WriteSigned(value);
      case LayerColor(color) => Write(ColorWord(color));
      case DisplayFrame(frame) => WriteRect(frame);
      case PlaneAlpha(alpha) => Write(alpha);
      case SourceCrop(crop) => WriteFRect(crop);
      case ZOrder(z) => Write(z);
    }

    method WriteTarget(t: BufferTarget)
      requires Valid() && written + |TargetWords(t)| <= data.Length
      modifies this`written, this`content, data
      ensures Valid() && content == old(content) + TargetWords(t)
    {
      hide RegionWords, RectWords, Clipped;
      if t.ClientTarget? {
        Assoc(content, [FromSigned(t.dataspace)], RegionWords(Clipped(t.damage, 4)));
        NoRegion();
        WriteSigned(t.dataspace);
        if |t.damage| <= (MAX_LENGTH - 4) / 4 {
          WriteRegion(t.damage);
        }
      }
    }

    method WriteSlot(slot: Word, buffer: Option<Handle>, fence: Int32)
      requires Valid() && written + 3 <= data.Length
      modifies this`written, this`content, this`handles, data
      ensures Valid() && content == old(content) + SlotWords(slot, buffer, fence, |old(handles)|)
      ensures handles == old(handles) + (Listed(buffer) + Listed(FenceHandle(fence)))
    {
      hide HandleWord, FenceHandle, Listed;
      Write(slot);
      WriteHandle(buffer, true);
      WriteFence(fence);
    }

    method WriteBuffer(c: Written)
      requires Valid() && c.SetBuffer? && written + |Payload(c, |handles|)| <= data.Length
      modifies this`written, this`content, this`handles, data
      ensures Valid() && content == old(content) + Payload(c, |old(handles)|)
      ensures handles == old(handles) + HandlesOf(c)
    {
      hide TargetWords, Listed, FenceHandle, HandleWord;
      WriteSlot(c.slot, c.buffer, c.fence);
      WriteTarget(c.target);
      Assoc(old(content), SlotWords(c.slot, c.buffer, c.fence, |old(handles)|), TargetWords(c.target));
    }

    method WritePayload(c: Written)
      requires Valid() && written + |Payload(c, |handles|)| <= data.Length
      modifies this`written, this`content, this`handles, data
      ensures Valid() && content == old(content) + Payload(c, |old(handles)|)
      ensures handles == old(handles) + HandlesOf(c)
    {
      match c
      case SelectDisplay(display) => Write64(display);
      case SelectLayer(layer) => Write64(layer);
      case Set(s) => WriteSetting(s);
      case SetBuffer(_, _, _, _) => WriteBuffer(c);
      case SetSidebandStream(stream) => WriteHandle(stream, false);
      case Ask(_) =>
    }

    /** Any select* or set* function: one frame behind everything written before, no LOG_FATAL. */
    method WriteCommand(c: Written) returns (aborted: bool)
      requires Idle()
      modifies this, data
      ensures data == old(data) || fresh(data)
      ensures aborted <==> |old(content)| + |Frame(c, |old(handles)|)| >= TWO32
      ensures aborted ==> Valid() && content == old(content) && handles == old(handles)
      ensures !aborted ==> Idle() && content == old(content) + Frame(c, |old(handles)|)
      ensures !aborted ==> handles == old(handles) + HandlesOf(c)
      ensures initial == old(initial)
      ensures copied == old(copied) + if data == old(data) then 0 else |old(content)|
    {
      hide Payload, HandlesOf, DeclaredLength, Code, OpcodeOf, OpcodeFor, Header, Closed;
      DeclaredLengthIsWritten(c, |handles|);
      Assoc(content, [Header(OpcodeFor(c), |Payload(c, |handles|)|)], Payload(c, |handles|));
      aborted := BeginCommand(OpcodeFor(c), DeclaredLength(c));
      if !aborted {
        WritePayload(c);
        ClosedExactly(content);
        EndCommand();
      }
    }

    /** A fresh writer holds exactly the encoding of the commands it was given. */
    method WriteAll(cmds: seq<Written>) returns (aborted: bool)
      requires Idle() && content == [] && handles == []
      modifies this, data
      ensures aborted <==> |Encode(cmds, 0)| >= TWO32
      ensures !aborted ==> Idle() && content == Encode(cmds, 0) && handles == Table(cmds)
      ensures initial == old(initial)
      ensures !aborted && data.Length < TWO31 ==> copied <= data.Length - initial
    {
      hide Frame, HandlesOf, Encode, Table, Idle, Valid;
      EncodeNothing();
      for i := 0 to |cmds|
        invariant Idle() && initial == old(initial)
        invariant data == old(data) || fresh(data)
        invariant content == Encode(cmds[..i], 0) && handles == Table(cmds[..i])
      {
        EncodeNext(cmds, i);
        aborted := WriteCommand(cmds[i]);
        if aborted {
          EncodePrefix(cmds, i + 1, 0);
          return;
        }
      }
      assert cmds[..|cmds|] == cmds;
      IdleIsValid(this);
      CopiesBounded(this);
      aborted := false;
    }
  }

  lemma IdleIsValid(w: Writer)
    requires w.Idle()
    ensures w.Valid()
  {
  }

  lemma CopiesBounded(w: Writer)
    requires w.Valid()
    ensures w.data.Length < TWO31 ==> w.copied <= w.data.Length - w.initial
  {
  }

  lemma EncodeNothing()
    ensures Encode([], 0) == [] && Table([]) == []
  {
  }

  lemma EncodeNext(cmds: seq<Written>, i: nat)
    requires i < |cmds|
    ensures Encode(cmds[..i + 1], 0) == Encode(cmds[..i], 0) + Frame(cmds[i], |Table(cmds[..i])|)
    ensures Table(cmds[..i + 1]) == Table(cmds[..i]) + HandlesOf(cmds[i])
  {
    hide Encode, Table, Frame, HandlesOf;
    EncodeAppend(cmds[..i], cmds[i], 0);
    assert cmds[..i + 1] == cmds[..i] + [cmds[i]];
  }

  lemma {:induction false} EncodePrefix(cmds: seq<Written>, n: nat, base: nat)
    requires n <= |cmds|
    ensures |Encode(cmds[..n], base)| <= |Encode(cmds, base)|
  {
    hide Frame, HandlesOf;
    if n > 0 {
      assert cmds[..n][0] == cmds[0] && cmds[..n][1..] == cmds[1..][..n - 1];
      EncodePrefix(cmds[1..], n - 1, base + |HandlesOf(cmds[0])|);
    }
  }
}
