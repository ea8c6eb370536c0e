/** The client's side of the composer: the buffer slot cache, the calls made to the HAL and
    the replies, as a state transformed by the requests of a stream and by the layer and slot
    calls of the client. The HAL and the mapper are arbitrary functions of what came before. */
module Session {
  import opened Words
  import opened Commands
  import opened Stream

  type Buffer = nat  // an imported buffer_handle_t; every successful import is a new one
  type Slot = Option<Buffer>  // BufferCacheEntry

  datatype LayerBuffers = LayerBuffers(buffers: seq<Slot>, sideband: Slot)
  datatype DisplayData = DisplayData(
    clientTargets: seq<Slot>, outputBuffers: seq<Slot>, layers: map<Word64, LayerBuffers>)
  type Displays = map<Word64, DisplayData>

  /** A call into the HAL; its buffer is an imported one (the slot is not passed on). */
  datatype Call = Call(display: Word64, layer: Word64, command: Command<Slot>)
  datatype Answer = Answer(error: Error, content: seq<Word>)
  datatype Reply =
    | DisplayEcho(display: Word64)
    | ErrorAt(loc: nat, error: Error)
    | Result(query: Query, content: seq<Word>)

  /** The HAL answers from the history of calls; the mapper from the number of imports tried. */
  datatype Env = Env(hal: seq<Call> -> Answer, mapper: nat -> bool)

  datatype State = State(
    display: Word64, layer: Word64, displays: Displays,
    tried: nat, imported: nat, freed: seq<Buffer>,
    calls: seq<Call>, replies: seq<Reply>, closed: seq<Int32>)

  // ----- the slot cache -----

  datatype Key =
    | TargetKey(display: Word64, slot: nat)
    | OutputKey(display: Word64, slot: nat)
    | BufferKey(display: Word64, layer: Word64, slot: nat)
    | SidebandKey(display: Word64, layer: Word64)

  /** lookupBufferCacheEntryLocked: does the entry exist? */
  function Check(ds: Displays, k: Key): Error {
    if k.display !in ds then BAD_DISPLAY
    else
      var d := ds[k.display];
      match k
      case TargetKey(_, slot) => if slot < |d.clientTargets| then NONE else BAD_PARAMETER
      case OutputKey(_, slot) => if slot < |d.outputBuffers| then NONE else BAD_PARAMETER
      case BufferKey(_, layer, slot) =>
        if layer !in d.layers then BAD_LAYER
        else if slot < |d.layers[layer].buffers| then NONE else BAD_PARAMETER
      case SidebandKey(_, layer) => if layer !in d.layers then BAD_LAYER else NONE
  }

  function At(ds: Displays, k: Key): Slot
    requires Check(ds, k) == NONE
  {
    var d := ds[k.display];
    match k
    case TargetKey(_, slot) => d.clientTargets[slot]
    case OutputKey(_, slot) => d.outputBuffers[slot]
    case BufferKey(_, layer, slot) => d.layers[layer].buffers[slot]
    case SidebandKey(_, layer) => d.layers[layer].sideband
  }

  function Store(ds: Displays, k: Key, h: Slot): Displays
    requires Check(ds, k) == NONE
  {
    var d := ds[k.display];
    ds[k.display :=
      match k
      case TargetKey(_, slot) => d.(clientTargets := d.clientTargets[slot := h])
      case OutputKey(_, slot) => d.(outputBuffers := d.outputBuffers[slot := h])
      case BufferKey(_, layer, slot) =>
        var ly := d.layers[layer];
        d.(layers := d.layers[layer := ly.(buffers := ly.buffers[slot := h])])
      case SidebandKey(_, layer) =>
        d.(layers := d.layers[layer := d.layers[layer].(sideband := h)])]
  }

  /** The nested vectors and maps behave as one flat map from keys to buffers. */
  lemma StoreIsMapUpdate(ds: Displays, k: Key, h: Slot, other: Key)
    requires Check(ds, k) == NONE
    ensures Check(Store(ds, k, h), other) == Check(ds, other)
    ensures Check(ds, other) == NONE ==>
              At(Store(ds, k, h), other) == if other == k then h else At(ds, other)
  {
  }

  // ----- requests -----

  function KeyFor(s: State, t: BufferTarget, slot: nat): Key {
    match t
    case ClientTarget(_, _) => TargetKey(s.display, slot)
    case OutputBuffer => OutputKey(s.display, slot)
    case LayerBuffer => BufferKey(s.display, s.layer, slot)
  }

  /** HandleImporter::importBuffer: null and empty handles become null without the mapper. */
  function Import(env: Env, s: State, h: Option<Handle>): (State, Error, Slot) {
    if h.None? || (h.value.fds == [] && h.value.numInts == 0) then (s, NONE, None)
    else if env.mapper(s.tried) then (s.(tried := s.tried + 1, imported := s.imported + 1), NONE, Some(s.imported))
    else (s.(tried := s.tried + 1), NO_RESOURCES, None)
  }

  /** lookupBuffer */
  function Lookup(env: Env, s: State, k: Key, source: Source): (State, Error, Slot) {
    match source
    case Cached => (s, Check(s.displays, k), if Check(s.displays, k) == NONE then At(s.displays, k) else None)
    case Given(h) => Import(env, s, h)
  }

  function Freeing(h: Slot): seq<Buffer> {
    if h.Some? then [h.value] else []
  }

  /** updateBuffer, with the assignment of a BufferCacheEntry: the replaced buffer is freed. */
  function Update(s: State, k: Key, source: Source, h: Slot): (State, Error) {
    if source.Cached? then (s, NONE)
    else if Check(s.displays, k) != NONE then (s, Check(s.displays, k))
    else (s.(displays := Store(s.displays, k, h), freed := s.freed + Freeing(At(s.displays, k))), NONE)
  }

  function Invoke(s: State, c: Command<Slot>): State {
    s.(calls := s.calls + [Call(s.display, s.layer, c)])
  }

  function Answered(env: Env, s: State): Answer {
    env.hal(s.calls)
  }

  function Report(s: State, loc: nat, e: Error): State {
    if e == NONE then s else s.(replies := s.replies + [ErrorAt(loc, e)])
  }

  /** SET_CLIENT_TARGET, SET_OUTPUT_BUFFER and SET_LAYER_BUFFER behind the reading of arguments. */
  function ExecBuffer(env: Env, s: State, loc: nat, t: BufferTarget, slot: Word, source: Source, fence: Int32): State {
    var k := KeyFor(s, t, slot);
    var (s1, looked, h) := Lookup(env, s, k, source);
    if looked != NONE then Report(s1.(closed := s1.closed + [fence]), loc, looked)
    else
      var s2 := Invoke(s1, SetBuffer(t, slot, h, fence));
      var err := Answered(env, s2).error;
      var (s3, updated) := Update(s2, k, source, h);
      if err == NONE then Report(s3, loc, updated)
      else Report(s3.(closed := s3.closed + [fence]), loc, err)
  }

  function ExecSideband(env: Env, s: State, loc: nat, source: Source): State {
    var k := SidebandKey(s.display, s.layer);
    var (s1, looked, h) := Lookup(env, s, k, source);
    if looked != NONE then Report(s1, loc, looked)
    else
      var s2 := Invoke(s1, SetSidebandStream(h));
      var err := Answered(env, s2).error;
      var (s3, updated) := Update(s2, k, source, h);
      Report(s3, loc, if err == NONE then updated else err)
  }

  /** A call without buffers; queries that succeed reply with their content. */
  function ExecQuery(env: Env, s: State, loc: nat, q: Query): State {
    match q
    case PresentOrValidateDisplay =>
      var s1 := Invoke(s, Ask(PresentDisplay));
      if Answered(env, s1).error == NONE
      then s1.(replies := s1.replies + [Result(PresentDisplay, Answered(env, s1).content)])
      else
        var s2 := Invoke(s1, Ask(ValidateDisplay));
        if Answered(env, s2).error == NONE
        then s2.(replies := s2.replies + [Result(ValidateDisplay, Answered(env, s2).content)])
        else Report(s2, loc, Answered(env, s2).error)
    case _ =>
      var s1 := Invoke(s, Ask(q));
      if Answered(env, s1).error == NONE && q != AcceptDisplayChanges
      then s1.(replies := s1.replies + [Result(q, Answered(env, s1).content)])
      else Report(s1, loc, Answered(env, s1).error)
  }

  /** The effect of one accepted frame whose header is at word `loc`. */
  function Exec(env: Env, s: State, item: Item): State {
    var loc := item.loc;
    match item.request
    case Unsupported => Report(s, loc, HalError(UNSUPPORTED))
    case Do(SelectDisplay(d)) => s.(display := d, replies := s.replies + [DisplayEcho(d)])
    case Do(SelectLayer(l)) => s.(layer := l)
    case Do(Set(setting)) =>
      var s1 := Invoke(s, Set(setting));
      Report(s1, loc, Answered(env, s1).error)
    case Do(SetBuffer(t, slot, source, fence)) => ExecBuffer(env, s, loc, t, slot, source, fence)
    case Do(SetSidebandStream(source)) => ExecSideband(env, s, loc, source)
    case Do(Ask(q)) => ExecQuery(env, s, loc, q)
  }

  const UNSUPPORTED: OtherCode := 8  // Error::UNSUPPORTED of the 2.1 interface

  function ExecAll(env: Env, s: State, items: seq<Item>): State {
    if items == [] then s else Exec(env, ExecAll(env, s, items[..|items| - 1]), items[|items| - 1])
  }
}
