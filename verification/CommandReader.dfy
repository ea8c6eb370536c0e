/** CommandReaderBase and ComposerClient::CommandReader: a cursor over the words of a command
    buffer that reads one frame at a time and executes it. */
module CommandReader {
  import opened Words
  import opened Commands
  import opened Stream
  import opened Session
  import opened CommandWriter
  import HalCalls

  class Reader {
    const env: Env
    var data: array<Word>     // mData
    var size: nat             // mDataSize
    var read: nat             // mDataRead
    var commandBegin: nat     // mCommandBegin
    var commandEnd: nat       // mCommandEnd, 0 outside a command
    var handles: seq<Handle>  // mDataHandles
    var state: State          // mDisplay, mLayer and the client the reader drives
    var fatal: bool           // a LOG_FATAL branch was reached

    predicate Valid()
      reads this
    {
      read <= size <= data.Length < TWO32 && commandEnd <= size
    }

    /** The words of the current buffer. */
    function Content(): seq<Word>
      reads this, data
      requires Valid()
    {
      data[..size]
    }

    constructor (env: Env, state: State)
      ensures Valid() && size == 0 && this.env == env && this.state == state && !fatal && commandEnd == 0
      ensures fresh(data)
    {
      this.env, this.state := env, state;
      data := new Word[0];
      size, read, commandBegin, commandEnd, handles, fatal := 0, 0, 0, 0, [], false;
    }

    /** Takes `commandLength` words out of a queue that can hold `quantumCount`. */
    method ReadQueue(queue: seq<Word>, quantumCount: Word, commandLength: Word, commandHandles: seq<Handle>)
      returns (ok: bool)
      requires Valid()
      modifies this, data
      ensures Valid() && state == old(state) && fatal == old(fatal)
      ensures data == old(data) || fresh(data)
      ensures ok <==> commandLength <= |queue| && (commandLength <= quantumCount || commandLength <= old(data.Length))
      ensures ok ==> Content() == queue[..commandLength] && handles == commandHandles
      ensures ok ==> read == 0 && commandBegin == 0 && commandEnd == 0
    {
      if data.Length < quantumCount {
        data := new Word[quantumCount](_ => 0);
      }
      if commandLength > data.Length || |queue| < commandLength {
        return false;
      }
      for i := 0 to commandLength
        invariant data[..i] == queue[..i]
        modifies data
      {
        data[i] := queue[i];
      }
      size, read, commandBegin, commandEnd := commandLength, 0, 0, 0;
      handles := commandHandles;
      ok := true;
    }

    // ----- read primitives -----

    method Read() returns (val: Word)
      requires Valid() && read < size
      modifies this`read
      ensures Valid() && read == old(read) + 1 && val == Content()[old(read)]
    {
      val := data[read];
      read := read + 1;
    }

    method ReadSigned() returns (val: Int32)
      requires Valid() && read < size
      modifies this`read
      ensures Valid() && read == old(read) + 1 && val == ToSigned(Content()[old(read)])
    {
      var w := Read();
      val := ToSigned(w);
    }

    method Read64() returns (val: Word64)
      requires Valid() && read + 2 <= size
      modifies this`read
      ensures Valid() && read == old(read) + 2 && val == Join(Content()[old(read)], Content()[old(read) + 1])
    {
      var lo := Read();
      var hi := Read();
      val := Join(lo, hi);
    }

    method ReadRectangle() returns (rect: Rect)
      requires Valid() && read + 4 <= size
      modifies this`read
      ensures Valid() && read == old(read) + 4 && rect == ReadRect(Content()[old(read)..read])
    {
      var left := ReadSigned();
      var top := ReadSigned();
      var right := ReadSigned();
      var bottom := ReadSigned();
      rect := Rect(left, top, right, bottom);
    }

    method ReadRectangles(count: nat) returns (region: seq<Rect>)
      requires Valid() && read + 4 * count <= size
      modifies this`read
      ensures Valid() && read == old(read) + 4 * count && region == ReadRegion(Content()[old(read)..read])
    {
      region := [];
      var left := count;
      assert ReadRegion(Content()[read..read]) == [];
      hide ReadRegion, ReadRect;
      while left > 0
        invariant 0 <= left <= count && Valid() && read == old(read) + 4 * (count - left)
        invariant region == ReadRegion(Content()[old(read)..read])
      {
        ghost var at := read;
        var rect := ReadRectangle();
        RegionStep(Content(), old(read), at);
        region := region + [rect];
        left := left - 1;
      }
    }

    method ReadBufferHandle() returns (source: Source)
      requires Valid() && read < size
      modifies this`read
      ensures Valid() && read == old(read) + 1 && source == ReadHandle(Content()[old(read)], handles)
    {
      var index := ReadSigned();
      if index == EMPTY {
        source := Given(None);
      } else if index == CACHED {
        source := Cached;
      } else if 0 <= index < |handles| {
        source := Given(Some(handles[index]));
      } else {
        source := Given(None);
      }
    }

    method ReadFenceFd() returns (fd: Int32)
      requires Valid() && read < size
      modifies this`read
      ensures Valid() && read == old(read) + 1 && fd == ReadFence(Content()[old(read)], handles)
    {
      var source := ReadBufferHandle();
      if source.Cached? || source.handle.None? || |source.handle.value.fds| == 0 {
        return -1;
      }
      if |source.handle.value.fds| != 1 {
        return -1;
      }
      return source.handle.value.fds[0];
    }

    /** Reads and ignores `count` words. */
    method Skip(count: nat)
      requires Valid() && read + count <= size
      modifies this`read
      ensures Valid() && read == old(read) + count
    {
      for i := 0 to count
        invariant Valid() && read == old(read) + i
      {
        var _ := Read();
      }
    }

    method ReadMatrix() returns (matrix: Matrix)
      requires Valid() && read + 16 <= size
      modifies this`read
      ensures Valid() && read == old(read) + 16 && matrix == Content()[old(read)..read]
    {
      var m := new Word[16](_ => 0);
      for i := 0 to 16
        invariant Valid() && read == old(read) + i
        invariant forall k :: 0 <= k < i ==> m[k] == Content()[old(read) + k]
        modifies m, this`read
      {
        m[i] := Read();
      }
      matrix := m[..];
      assert matrix == Content()[old(read)..read];
    }

    // ----- framing -----

    /** False, with the cursor back on the header, if the length check fails. */
    method BeginCommand() returns (ok: bool, op: Opcode, length: nat)
      requires Valid() && read < size && commandEnd == 0
      modifies this`read, this`commandEnd
      ensures Valid() && length == HeaderLength(Content()[old(read)])
      ensures op == OpcodeOf(HeaderCode(Content()[old(read)]))
      ensures ok <==> FitsCheck(old(read), length, size)
      ensures !ok ==> read == old(read) && commandEnd == 0
      ensures ok ==> read == old(read) + 1 && commandEnd == Wrap(read + length)
    {
      var val := Read();
      op, length := OpcodeOf(HeaderCode(val)), HeaderLength(val);
      if Wrap(read + length) > size {
        read := read - 1;
        return false, op, length;
      }
      commandEnd := Wrap(read + length);
      ok := true;
    }

    method EndCommand()
      requires Valid()
      modifies this`read, this`commandBegin, this`commandEnd, this`fatal
      ensures Valid() && commandEnd == 0 && commandBegin == old(commandEnd)
      ensures fatal == (old(fatal) || old(commandEnd) == 0 || old(read) != old(commandEnd))
      ensures read == if old(commandEnd) == 0 then old(read) else old(commandEnd)
    {
      if commandEnd == 0 {
        fatal := true;
      } else if read != commandEnd {
        fatal := true;
        read := commandEnd;
      }
      commandBegin := commandEnd;
      commandEnd := 0;
    }

    // ----- handlers -----

    method ImportBuffer(h: Option<Handle>) returns (err: Error, b: Slot)
      modifies this`state
      ensures (state, err, b) == Import(env, old(state), h)
    {
      if h.None? || (h.value.fds == [] && h.value.numInts == 0) {
        return NONE, None;
      }
      var ok := env.mapper(state.tried);
      state := state.(tried := state.tried + 1);
      if !ok {
        return NO_RESOURCES, None;
      }
      b := Some(state.imported);
      state := state.(imported := state.imported + 1);
      err := NONE;
    }

    method LookupBuffer(k: Key, source: Source) returns (err: Error, b: Slot)
      modifies this`state
      ensures (state, err, b) == Lookup(env, old(state), k, source)
    {
      if source.Cached? {
        err := Check(state.displays, k);
        b := if err == NONE then At(state.displays, k) else None;
      } else {
        err, b := ImportBuffer(source.handle);
      }
    }

    method UpdateBuffer(k: Key, source: Source, b: Slot) returns (err: Error)
      modifies this`state
      ensures (state, err) == Update(old(state), k, source, b)
    {
      if source.Cached? {
        return NONE;
      }
      err := Check(state.displays, k);
      if err == NONE {
        var replaced := At(state.displays, k);
        assert state.freed + [] == state.freed;
        if replaced.Some? {
          state := state.(freed := state.freed + [replaced.value]);
        }
        state := state.(displays := Store(state.displays, k, b));
      }
    }

    method CallHal(c: Command<Slot>) returns (a: Answer)
      modifies this`state
      ensures state == Invoke(old(state), c) && a == Answered(env, state)
    {
      state := state.(calls := state.calls + [Call(state.display, state.layer, c)]);
      a := env.hal(state.calls);
    }

    method SetError(err: Error)
      modifies this`state
      ensures state == Report(old(state), commandBegin, err)
    {
      if err != NONE {
        state := state.(replies := state.replies + [ErrorAt(commandBegin, err)]);
      }
    }

    method HandleBuffer(t: BufferTarget, slot: Word, source: Source, fence: Int32)
      modifies this`state
      ensures state == ExecBuffer(env, old(state), commandBegin, t, slot, source, fence)
    {
      hide Import, Check, At, Store;
      var k := KeyFor(state, t, slot);
      var closeFence := true;
      var err, b := LookupBuffer(k, source);
      if err == NONE {
        var answer := CallHal(SetBuffer(t, slot, b, fence));
        err := answer.error;
        var updateErr := UpdateBuffer(k, source, b);
        if err == NONE {
          closeFence := false;
          err := updateErr;
        }
      }
      if closeFence {
        state := state.(closed := state.closed + [fence]);
      }
      SetError(err);
    }

    method HandleSideband(source: Source)
      modifies this`state
      ensures state == ExecSideband(env, old(state), commandBegin, source)
    {
      hide Import, Check, At, Store;
      var k := SidebandKey(state.display, state.layer);
      var err, b := LookupBuffer(k, source);
      if err == NONE {
        var answer := CallHal(SetSidebandStream(b));
        err := answer.error;
        var updateErr := UpdateBuffer(k, source, b);
        if err == NONE {
          err := updateErr;
        }
      }
      SetError(err);
    }

    method Reply(q: Query, content: seq<Word>)
      modifies this`state
      ensures state == old(state).(replies := old(state.replies) + [Result(q, content)])
    {
      state := state.(replies := state.replies + [Result(q, content)]);
    }

    method HandleQuery(q: Query)
      modifies this`state
      ensures state == ExecQuery(env, old(state), commandBegin, q)
    {
      var call := if q.PresentOrValidateDisplay? then PresentDisplay else q;
      var answer := CallHal(Ask(call));
      if answer.error == NONE {
        if q != AcceptDisplayChanges {
          Reply(call, answer.content);
        }
        return;
      }
      if q.PresentOrValidateDisplay? {
        answer := CallHal(Ask(ValidateDisplay));
        if answer.error == NONE {
          Reply(ValidateDisplay, answer.content);
          return;
        }
      }
      SetError(answer.error);
    }

    /** The part of a handler behind the reading of its arguments. */
    method Execute(request: Request)
      modifies this`state
      ensures state == Exec(env, old(state), Item(commandBegin, request))
    {
      hide ExecBuffer, ExecSideband, ExecQuery;
      match request
      case Unsupported => SetError(HalError(UNSUPPORTED));
      case Do(SelectDisplay(d)) =>
        state := state.(display := d, replies := state.replies + [DisplayEcho(d)]);
      case Do(SelectLayer(l)) => state := state.(layer := l);
      case Do(Set(setting)) =>
        var answer := CallHal(Set(setting));
        SetError(answer.error);
      case Do(SetBuffer(t, slot, source, fence)) => HandleBuffer(t, slot, source, fence);
      case Do(SetSidebandStream(source)) => HandleSideband(source);
      case Do(Ask(q)) => HandleQuery(q);
    }

    // ----- parsing -----

    method ReadRegionSetting(op: Opcode, property: RegionProperty, length: nat) returns (s: Option<Setting>)
      requires Valid() && read + length <= size
      requires op == if property.SurfaceDamage? then SET_LAYER_SURFACE_DAMAGE else SET_LAYER_VISIBLE_REGION
      modifies this`read
      ensures Valid() && s == DecodeSetting(op, Content()[old(read)..old(read) + length])
      ensures read == old(read) + if s.Some? then length else 0
    {
      hide ReadRegion;
      if length % 4 != 0 {
        return None;
      }
      var region := ReadRectangles(length / 4);
      s := Some(Region(property, region));
    }

    method ReadGeometry(op: Opcode, length: nat) returns (s: Option<Setting>)
      requires Valid() && read + length <= size
      requires op == SET_LAYER_CURSOR_POSITION || op == SET_LAYER_DISPLAY_FRAME || op == SET_LAYER_SOURCE_CROP
      modifies this`read
      ensures Valid() && s == DecodeSetting(op, Content()[old(read)..old(read) + length])
      ensures read == old(read) + if s.Some? then length else 0
    {
      if length != if op == SET_LAYER_CURSOR_POSITION then 2 else 4 {
        return None;
      }
      if op == SET_LAYER_CURSOR_POSITION {
        var x := ReadSigned();
        var y := ReadSigned();
        s := Some(CursorPosition(x, y));
      } else if op == SET_LAYER_DISPLAY_FRAME {
        var frame := ReadRectangle();
        s := Some(DisplayFrame(frame));
      } else {
        var left := Read();
        var top := Read();
        var right := Read();
        var bottom := Read();
        s := Some(SourceCrop(FRect(left, top, right, bottom)));
      }
    }

    /** The settings of a single word; other opcodes are rejected. */
    method ReadWordSetting(op: Opcode, length: nat) returns (s: Option<Setting>)
      requires Valid() && read + length <= size
      requires op != SET_LAYER_SURFACE_DAMAGE && op != SET_LAYER_VISIBLE_REGION
      requires op != SET_LAYER_CURSOR_POSITION && op != SET_LAYER_DISPLAY_FRAME && op != SET_LAYER_SOURCE_CROP
      modifies this`read
      ensures Valid() && s == DecodeSetting(op, Content()[old(read)..old(read) + length])
      ensures read == old(read) + if s.Some? then length else 0
    {
      hide DecodeWord;
      WordSettings(op);
      if length != 1 || DecodeWord(op, 0).None? {
        return None;
      }
      var w := Read();
      s := DecodeWord(op, w);
    }

    method ReadSetting(op: Opcode, length: nat) returns (s: Option<Setting>)
      requires Valid() && read + length <= size
      modifies this`read
      ensures Valid() && s == DecodeSetting(op, Content()[old(read)..old(read) + length])
      ensures read == old(read) + if s.Some? then length else 0
    {
      hide DecodeSetting;
      if op == SET_LAYER_SURFACE_DAMAGE {
        s := ReadRegionSetting(op, SurfaceDamage, length);
      } else if op == SET_LAYER_VISIBLE_REGION {
        s := ReadRegionSetting(op, VisibleRegion, length);
      } else if op == SET_LAYER_CURSOR_POSITION || op == SET_LAYER_DISPLAY_FRAME || op == SET_LAYER_SOURCE_CROP {
        s := ReadGeometry(op, length);
      } else {
        s := ReadWordSetting(op, length);
      }
    }

    /** `offFrame`: the handler would go on to read words that are not its own; the model stops. */
    method ReadBufferCommand(op: Opcode, length: nat) returns (request: Option<Request>, offFrame: bool)
      requires Valid() && read + length <= size
      requires op == SET_CLIENT_TARGET || op == SET_OUTPUT_BUFFER || op == SET_LAYER_BUFFER
      modifies this`read
      ensures Valid() && offFrame == !InFrame(op, length)
      ensures request == if offFrame then None else Decode(op, Content()[old(read)..old(read) + length], handles)
      ensures read == old(read) + if request.Some? then length else 0
    {
      offFrame := op == SET_CLIENT_TARGET && length == 0;
      request := None;
      if !offFrame {
        hide Decode;
        request := ReadBufferFrame(op, length);
      }
    }

    method ReadBufferFrame(op: Opcode, length: nat) returns (request: Option<Request>)
      requires Valid() && read + length <= size && InFrame(op, length)
      requires op == SET_CLIENT_TARGET || op == SET_OUTPUT_BUFFER || op == SET_LAYER_BUFFER
      modifies this`read
      ensures Valid() && request == Decode(op, Content()[old(read)..old(read) + length], handles)
      ensures read == old(read) + if request.Some? then length else 0
    {
      hide Decode, ReadRegion, ReadHandle, ReadFence, ClientTargetLengthAccepted;
      ClientTargetLengthCheck(length);
      ghost var at, words := read, Content();
      ghost var p := words[at..at + length];
      BufferDecodes(op, p, handles);
      if (if op == SET_CLIENT_TARGET then !ClientTargetLengthAccepted(length) else length != 3) {
        return None;
      }
      assert p[0] == words[at] && p[1] == words[at + 1] && p[2] == words[at + 2];
      var slot, source, fence := ReadSlot();
      var target := if op == SET_OUTPUT_BUFFER then OutputBuffer else LayerBuffer;
      if op == SET_CLIENT_TARGET {
        target := ReadTarget(length - 3);
        assert p[3] == words[at + 3] && p[4..] == words[at + 4..at + length];
      }
      request := Some(Do(SetBuffer(target, slot, source, fence)));
      assert Content() == words;
      assert request.value == ReadSetBuffer(target, p, handles);
    }

    /** The three words that all buffer commands start with. */
    method ReadSlot() returns (slot: Word, source: Source, fence: Int32)
      requires Valid() && read + 3 <= size
      modifies this`read
      ensures Valid() && read == old(read) + 3 && slot == Content()[old(read)]
      ensures source == ReadHandle(Content()[old(read) + 1], handles)
      ensures fence == ReadFence(Content()[old(read) + 2], handles)
    {
      hide ReadHandle, ReadFence;
      slot := Read();
      source := ReadBufferHandle();
      fence := ReadFenceFd();
    }

    /** Dataspace and damage of a client target. */
    method ReadTarget(length: nat) returns (target: BufferTarget)
      requires Valid() && 0 < length && (length - 1) % 4 == 0 && read + length <= size
      modifies this`read
      ensures Valid() && read == old(read) + length
      ensures target == ClientTarget(ToSigned(Content()[old(read)]),
                                     ReadRegion(Content()[old(read) + 1..old(read) + length]))
    {
      hide ReadRegion;
      var dataspace := ReadSigned();
      var damage := ReadRectangles((length - 1) / 4);
      target := ClientTarget(dataspace, damage);
    }

    method ReadSelect(op: Opcode, length: nat) returns (request: Option<Request>)
      requires Valid() && read + length <= size && (op == SELECT_DISPLAY || op == SELECT_LAYER)
      modifies this`read
      ensures Valid() && request == Decode(op, Content()[old(read)..old(read) + length], handles)
      ensures read == old(read) + if request.None? then 0 else length
    {
      if length != 2 {
        return None;
      }
      var selected := Read64();
      request := Some(Do(if op == SELECT_DISPLAY then SelectDisplay(selected) else SelectLayer(selected)));
    }

    method ReadColorTransform(length: nat) returns (request: Option<Request>)
      requires Valid() && read + length <= size
      modifies this`read
      ensures Valid() && read == old(read) + if request.None? then 0 else length
      ensures request == Decode(SET_COLOR_TRANSFORM, Content()[old(read)..old(read) + length], handles)
    {
      if length != 17 {
        return None;
      }
      var matrix := ReadMatrix();
      var hint := ReadSigned();
      assert Content()[old(read)..old(read) + 17][..16] == matrix;
      request := Some(Do(Set(ColorTransform(matrix, hint))));
    }

    method ReadSideband(length: nat) returns (request: Option<Request>)
      requires Valid() && read + length <= size
      modifies this`read
      ensures Valid() && read == old(read) + if request.None? then 0 else length
      ensures request == Decode(SET_LAYER_SIDEBAND_STREAM, Content()[old(read)..old(read) + length], handles)
    {
      hide ReadHandle;
      if length != 1 {
        return None;
      }
      var source := ReadBufferHandle();
      request := Some(Do(SetSidebandStream(Given(if source.Given? then source.handle else None))));
    }

    /** Pairs of words; a last odd one is left for endCommand to complain about. */
    method ReadMetadata(length: nat) returns (request: Option<Request>)
      requires Valid() && read + length <= size
      modifies this`read
      ensures Valid() && read == old(read) + if length % 2 == 1 then length - 1 else length
      ensures request == Some(Unsupported)
      ensures request == Decode(SET_LAYER_PER_FRAME_METADATA, Content()[old(read)..old(read) + length], handles)
    {
      Skip(length / 2 * 2);
      request := Some(Unsupported);
    }

    /** The request of the frame under the cursor, or None if its handler rejects the length. */
    method ReadRequest(op: Opcode, length: nat) returns (request: Option<Request>, offFrame: bool)
      requires Valid() && read + length <= size
      modifies this`read
      ensures Valid() && offFrame == !InFrame(op, length)
      ensures request == if offFrame then None else Decode(op, Content()[old(read)..old(read) + length], handles)
      ensures read == old(read) + if request.None? then 0 else if OddMetadata(op, length) then length - 1 else length
    {
      hide Decode;
      request, offFrame := None, false;
      if op == SELECT_DISPLAY || op == SELECT_LAYER {
        request := ReadSelect(op, length);
      } else if op == SET_COLOR_TRANSFORM {
        request := ReadColorTransform(length);
      } else if op == SET_CLIENT_TARGET || op == SET_OUTPUT_BUFFER || op == SET_LAYER_BUFFER {
        request, offFrame := ReadBufferCommand(op, length);
      } else if op == SET_LAYER_SIDEBAND_STREAM {
        request := ReadSideband(length);
      } else if op == SET_LAYER_PER_FRAME_METADATA {
        request := ReadMetadata(length);
      } else if op == SET_LAYER_PER_FRAME_METADATA_BLOBS {
        offFrame := true;
      } else {
        request := ReadPlainRequest(op, length);
      }
    }

    predicate IsPlain(op: Opcode) {
      && !op.SELECT_DISPLAY? && !op.SELECT_LAYER? && !op.SET_COLOR_TRANSFORM? && !op.SET_CLIENT_TARGET?
      && !op.SET_OUTPUT_BUFFER? && !op.SET_LAYER_BUFFER? && !op.SET_LAYER_SIDEBAND_STREAM?
      && !op.SET_LAYER_PER_FRAME_METADATA? && !op.SET_LAYER_PER_FRAME_METADATA_BLOBS?
    }

    /** Queries, settings and the remaining commands whose words are only skipped. */
    method ReadPlainRequest(op: Opcode, length: nat) returns (request: Option<Request>)
      requires Valid() && read + length <= size && IsPlain(op)
      modifies this`read
      ensures Valid() && request == Decode(op, Content()[old(read)..old(read) + length], handles)
      ensures read == old(read) + if request.None? then 0 else length
    {
      hide DecodeSetting;
      request := None;
      if op == SET_LAYER_COLOR_TRANSFORM || op == SET_LAYER_FLOAT_COLOR {
        if length == if op == SET_LAYER_COLOR_TRANSFORM then 16 else 4 {
          Skip(length);
          request := Some(Unsupported);
        }
      } else if op == VALIDATE_DISPLAY {
        request := if length == 0 then Some(Do(Ask(ValidateDisplay))) else None;
      } else if op == PRESENT_OR_VALIDATE_DISPLAY {
        request := if length == 0 then Some(Do(Ask(PresentOrValidateDisplay))) else None;
      } else if op == ACCEPT_DISPLAY_CHANGES {
        request := if length == 0 then Some(Do(Ask(AcceptDisplayChanges))) else None;
      } else if op == PRESENT_DISPLAY {
        request := if length == 0 then Some(Do(Ask(PresentDisplay))) else None;
      } else {
        var s := ReadSetting(op, length);
        if s.Some? {
          request := Some(Do(Set(s.value)));
        }
      }
    }

    /** parseCommand: read the arguments of the frame, then act on them. */
    method ParseCommand(op: Opcode, length: nat) returns (parsed: bool, offFrame: bool)
      requires Valid() && read + length <= size
      modifies this`read, this`state
      ensures Valid() && offFrame == !InFrame(op, length)
      ensures var request := if offFrame then None else Decode(op, Content()[old(read)..old(read) + length], handles);
              && parsed == request.Some?
              && state == (if parsed then Exec(env, old(state), Item(commandBegin, request.value)) else old(state))
      ensures read == old(read) + if !parsed then 0 else if OddMetadata(op, length) then length - 1 else length
    {
      hide Decode, Exec;
      var request;
      request, offFrame := ReadRequest(op, length);
      parsed := request.Some?;
      if parsed {
        Execute(request.value);
      }
    }

    /** One turn of the parse loop. `offFrame`: the handler would read outside its frame; the
        model stops there. */
    method ParseOne() returns (more: bool, offFrame: bool)
      requires Valid() && read < size && commandBegin == read && commandEnd == 0
      modifies this`read, this`commandBegin, this`commandEnd, this`state, this`fatal
      ensures Valid()
      ensures match ReadFrame(Content(), handles, old(read))
              case Accept(request, next, odd) =>
                && more && !offFrame && read == next
                && state == Exec(env, old(state), Item(old(read), request)) && fatal == (old(fatal) || odd)
              case Stop(t) =>
                && !more && offFrame == t.ending.OffFrame? && read == t.end
                && state == old(state) && fatal == (old(fatal) || t.fatal)
      ensures more ==> commandBegin == read && commandEnd == 0
    {
      hide Exec, Decode, OpcodeOf, InFrame, ReadFrame;
      TurnCases(Content(), handles, read);
      var ok, op, length := BeginCommand();
      if !ok {
        return false, false;
      }
      offFrame := read + length > size;
      more := false;
      if !offFrame {
        more, offFrame := ParseFrame(op, length);
      }
      if offFrame {
        read := read - 1;
      }
    }

    /** parseCommand and endCommand, behind the header. A rejected frame with words is fatal, and so is
        one whose handler leaves a word. */
    method ParseFrame(op: Opcode, length: nat) returns (more: bool, offFrame: bool)
      requires Valid() && 0 < read && read + length <= size && commandEnd == read + length
      modifies this`read, this`commandBegin, this`commandEnd, this`state, this`fatal
      ensures Valid() && offFrame == !InFrame(op, length)
      ensures offFrame ==> !more && read == old(read) && state == old(state) && fatal == old(fatal)
      ensures !offFrame ==> read == commandBegin == old(read) + length && commandEnd == 0
      ensures !offFrame ==>
                var request := Decode(op, Content()[old(read)..old(read) + length], handles);
                && more == request.Some?
                && state == (if more then Exec(env, old(state), Item(old(commandBegin), request.value)) else old(state))
                && fatal == (old(fatal) || (if more then OddMetadata(op, length) else length > 0))
    {
      hide Exec, Decode, InFrame;
      more, offFrame := ParseCommand(op, length);
      if !offFrame {
        EndCommand();
      }
    }

    /** The parse loop executes exactly the requests of the pure parse and stops where it does;
        NONE means that every word was consumed. */
    method ParseAll() returns (result: Error, offFrame: bool)
      requires Valid() && read == 0 && commandBegin == 0 && commandEnd == 0 && !fatal
      modifies this`read, this`commandBegin, this`commandEnd, this`state, this`fatal
      ensures Valid()
      ensures var t := Parse(Content(), handles, 0);
              && state == ExecAll(env, old(state), t.items)
              && fatal == t.fatal && offFrame == t.ending.OffFrame? && read == t.end
              && result == if t.end == size then NONE else BAD_PARAMETER
    {
      hide Exec, ExecAll, ReadFrame;
      ghost var words := Content();
      ghost var whole := Parse(words, handles, 0);
      ghost var done := [];
      ExecNone(env, state);
      offFrame := false;
      var more := true;
      while more && read < size
        invariant Valid() && Content() == words && (more ==> commandEnd == 0 && commandBegin == read && !offFrame)
        invariant more ==> Continues(whole, done, Parse(words, handles, read), fatal)
        invariant !more ==> Continues(whole, done, Trace([], read, whole.ending, false), fatal)
                            && offFrame == whole.ending.OffFrame?
        invariant state == ExecAll(env, old(state), done)
        decreases more, size - read
      {
        ghost var turn := ReadFrame(words, handles, read);
        ghost var loc := read;
        more, offFrame := ParseOne();
        if more {
          ExecOneMore(env, old(state), done, Item(loc, turn.request));
          done := done + [Item(loc, turn.request)];
        }
      }
      assert whole.items == done;
      result := if read >= size then NONE else BAD_PARAMETER;
    }
  }

  /** The cases of one turn. */
  lemma TurnCases(words: seq<Word>, hs: seq<Handle>, pos: nat)
    requires pos < |words|
    ensures var op, n := OpcodeOf(HeaderCode(words[pos])), HeaderLength(words[pos]);
            var turn := ReadFrame(words, hs, pos);
            if !FitsCheck(pos, n, |words|) then turn == Stop(Trace([], pos, Truncated, false))
            else if pos + 1 + n > |words| || !InFrame(op, n) then turn == Stop(Trace([], pos, OffFrame, false))
            else
              var request := Decode(op, words[pos + 1..pos + 1 + n], hs);
              turn == if request.None? then Stop(Trace([], pos + 1 + n, Rejected, n > 0))
                      else Accept(request.value, pos + 1 + n, OddMetadata(op, n))
  {
    hide Decode, OpcodeOf;
  }

  lemma BufferDecodes(op: Opcode, p: seq<Word>, hs: seq<Handle>)
    requires op == SET_CLIENT_TARGET || op == SET_OUTPUT_BUFFER || op == SET_LAYER_BUFFER
    requires InFrame(op, |p|)
    ensures Decode(op, p, hs) ==
            if op == SET_CLIENT_TARGET then
              ClientTargetLengthCheck(|p|);
              (if !ClientTargetLengthAccepted(|p|) then None
               else Some(ReadSetBuffer(ClientTarget(ToSigned(p[3]), ReadRegion(p[4..])), p, hs)))
            else if |p| != 3 then None
            else Some(ReadSetBuffer(if op == SET_OUTPUT_BUFFER then OutputBuffer else LayerBuffer, p, hs))
  {
    hide ReadRegion, ReadHandle, ReadFence;
  }

  /** Which opcodes are settings of a word does not depend on the word. */
  lemma WordSettings(op: Opcode)
    ensures forall w :: DecodeWord(op, w).Some? <==> DecodeWord(op, 0).Some?
  {
  }

  /** `rest` is what remains of the trace behind `done`. */
  ghost predicate Continues(whole: Trace, done: seq<Item>, rest: Trace, fatal: bool) {
    && whole.items == done + rest.items && whole.end == rest.end && whole.ending == rest.ending
    && whole.fatal == (fatal || rest.fatal)
  }

  lemma ExecNone(env: Env, s: State)
    ensures ExecAll(env, s, []) == s
  {
  }

  lemma ExecOneMore(env: Env, s: State, done: seq<Item>, item: Item)
    ensures ExecAll(env, s, done + [item]) == Exec(env, ExecAll(env, s, done), item)
  {
    hide Exec;
    assert (done + [item])[..|done|] == done;
  }

  lemma RegionStep(words: seq<Word>, start: nat, at: nat)
    requires start <= at <= |words| - 4 && (at - start) % 4 == 0
    ensures ReadRegion(words[start..at + 4]) == ReadRegion(words[start..at]) + [ReadRect(words[at..at + 4])]
  {
    var p := words[start..at + 4];
    assert p[..|p| - 4] == words[start..at] && p[|p| - 4..] == words[at..at + 4];
  }

  /** End to end: whatever commands a client writes, the service executes the same commands, in the
      same order and with the same arguments, reports NONE, and reaches no LOG_FATAL branch on
      either side; the HAL gets exactly the calls those commands say. Writing aborts exactly when the
      stream needs 2^32 words or more. */
  method Transmit(env: Env, state: State, cmds: seq<Written>, initialMaxSize: Word)
    returns (aborted: bool, result: Error, w: Writer, r: Reader)
    ensures aborted <==> |Encode(cmds, 0)| >= TWO32
    ensures !aborted ==> result == NONE && !r.fatal && !w.fatal
    ensures !aborted ==> r.state == ExecAll(env, state, Located(cmds, 0, 0))
    ensures !aborted ==> HalCalls.ViewOf(r.state) == HalCalls.NextAll(env, HalCalls.ViewOf(state), cmds)
  {
    hide Encode, Table, Located, Parse, ExecAll, HalCalls.ViewOf, HalCalls.NextAll;
    w := new Writer(initialMaxSize);
    r := new Reader(env, state);
    result := NONE;
    aborted := w.WriteAll(cmds);
    if aborted {
      return;
    }
    var words := w.data[..w.written];
    var ok := r.ReadQueue(words, w.data.Length, w.written, w.handles);
    StreamRoundTrip(cmds);
    assert words[..w.written] == words;
    var offFrame;
    result, offFrame := r.ParseAll();
    HalCalls.StreamCalls(env, state, cmds);
  }
}
