/** What reaches the HAL: the calls, replies and closed descriptors of each command, written out over the
    nested slot vectors, and the calls of everything a client writes. */
module HalCalls {
  import opened Words
  import opened Commands
  import opened Stream
  import opened Session

  // ----- the entry a command addresses -----

  datatype Entry = Missing(error: Error) | Holding(buffer: Slot)

  /** The entry of a buffer command for a display and a layer. */
  function EntryOf(ds: Displays, display: Word64, layer: Word64, t: BufferTarget, slot: nat): Entry {
    if display !in ds then Missing(BAD_DISPLAY)
    else
      var d := ds[display];
      match t
      case ClientTarget(_, _) => InVector(d.clientTargets, slot)
      case OutputBuffer => InVector(d.outputBuffers, slot)
      case LayerBuffer => if layer in d.layers then InVector(d.layers[layer].buffers, slot) else Missing(BAD_LAYER)
  }

  function InVector(v: seq<Slot>, slot: nat): Entry {
    if slot < |v| then Holding(v[slot]) else Missing(BAD_PARAMETER)
  }

  function StreamOf(ds: Displays, display: Word64, layer: Word64): Entry {
    if display !in ds then Missing(BAD_DISPLAY)
    else if layer !in ds[display].layers then Missing(BAD_LAYER)
    else Holding(ds[display].layers[layer].sideband)
  }

  /** A buffer command uses the vector of its kind, of the selected display and layer, at its own slot. */
  lemma Addressed(s: State, t: BufferTarget, slot: nat)
    ensures var k := KeyFor(s, t, slot);
            EntryOf(s.displays, s.display, s.layer, t, slot)
            == if Check(s.displays, k) == NONE then Holding(At(s.displays, k)) else Missing(Check(s.displays, k))
  {
  }

  lemma StreamAddressed(s: State)
    ensures var k := SidebandKey(s.display, s.layer);
            StreamOf(s.displays, s.display, s.layer)
            == if Check(s.displays, k) == NONE then Holding(At(s.displays, k)) else Missing(Check(s.displays, k))
  {
  }

  /** Do two buffer commands, each with its own selection, use the same entry? */
  predicate SameEntry(t: BufferTarget, display: Word64, layer: Word64, slot: nat,
                      t': BufferTarget, display': Word64, layer': Word64, slot': nat) {
    && display == display' && slot == slot'
    && ((t.ClientTarget? && t'.ClientTarget?) || (t.OutputBuffer? && t'.OutputBuffer?)
        || (t.LayerBuffer? && t'.LayerBuffer? && layer == layer'))
  }

  /** A null handle, and one with nothing in it, are passed on as null. */
  predicate Blank(h: Option<Handle>) {
    h.None? || (h.value.fds == [] && h.value.numInts == 0)
  }

  /** The buffer a command refers to: the newest import, null, or what its entry holds. */
  function Passed(s: State, t: BufferTarget, slot: nat, source: Source): Slot {
    match source
    case Given(h) => if Blank(h) then None else Some(s.imported)
    case Cached =>
      var entry := EntryOf(s.displays, s.display, s.layer, t, slot);
      if entry.Holding? then entry.buffer else None
  }

  /** setError, unless all went well. */
  function Errors(loc: nat, e: Error): seq<Reply> {
    if e == NONE then [] else [ErrorAt(loc, e)]
  }

  // ----- what each command does -----

  /** A setter is one call for the selected display and layer, and its error the only reply. */
  lemma SettingCall(env: Env, s: State, loc: nat, x: Setting)
    ensures var calls := s.calls + [Call(s.display, s.layer, Set(x))];
            Exec(env, s, Item(loc, Do(Set(x))))
            == s.(calls := calls, replies := s.replies + Errors(loc, env.hal(calls).error))
  {
  }

  /** So is a query; what it answers is replied, but for acceptDisplayChanges, which answers nothing. */
  lemma QueryCall(env: Env, s: State, loc: nat, q: Query)
    requires !q.PresentOrValidateDisplay?
    ensures var calls := s.calls + [Call(s.display, s.layer, Ask(q))];
            var answer := env.hal(calls);
            Exec(env, s, Item(loc, Do(Ask(q))))
            == s.(calls := calls,
                  replies := s.replies + if answer.error != NONE then [ErrorAt(loc, answer.error)]
                                         else if q.AcceptDisplayChanges? then [] else [Result(q, answer.content)])
  {
  }

  /** Selecting calls nothing. */
  lemma SelectCalls(env: Env, s: State, loc: nat, id: Word64)
    ensures Exec(env, s, Item(loc, Do(SelectDisplay(id))))
            == s.(display := id, replies := s.replies + [DisplayEcho(id)])
    ensures Exec(env, s, Item(loc, Do(SelectLayer(id)))) == s.(layer := id)
    ensures Exec(env, s, Item(loc, Unsupported)) == s.(replies := s.replies + [ErrorAt(loc, HalError(8))])
  {
  }

  /** A buffer that a command brings along is passed to the HAL as the newest import, or as null if there
      is nothing to import, and is in the command's entry afterwards, if there is one. Without a call only
      if the mapper refuses. The fence is closed unless the call succeeds. */
  lemma BroughtBuffer(env: Env, s: State, loc: nat, t: BufferTarget, slot: Word, h: Option<Handle>, fence: Int32)
    ensures var after := Exec(env, s, Item(loc, Do(SetBuffer(t, slot, Given(h), fence))));
            if !Blank(h) && !env.mapper(s.tried) then
              after == s.(tried := s.tried + 1, closed := s.closed + [fence],
                          replies := s.replies + [ErrorAt(loc, NO_RESOURCES)])
            else
              var b := if Blank(h) then None else Some(s.imported);
              var calls := s.calls + [Call(s.display, s.layer, SetBuffer(t, slot, b, fence))];
              var e := env.hal(calls).error;
              var entry := EntryOf(s.displays, s.display, s.layer, t, slot);
              && after.calls == calls
              && after.closed == s.closed + (if e == NONE then [] else [fence])
              && after.replies == s.replies + Errors(loc, if e != NONE then e
                                                          else if entry.Missing? then entry.error else NONE)
              && EntryOf(after.displays, s.display, s.layer, t, slot)
                 == (if entry.Missing? then entry else Holding(b))
              && after.freed == s.freed + (if entry.Holding? then Replaced(entry.buffer) else [])
              && after.tried == s.tried + (if Blank(h) then 0 else 1)
              && after.imported == s.imported + (if Blank(h) then 0 else 1)
              && after.display == s.display && after.layer == s.layer
  {
    hide Check, At, Store, EntryOf;
    var after := Exec(env, s, Item(loc, Do(SetBuffer(t, slot, Given(h), fence))));
    var k := KeyFor(s, t, slot);
    Addressed(s, t, slot);
    Addressed(after, t, slot);
    if Check(s.displays, k) == NONE {
      StoreIsMapUpdate(s.displays, k, if Blank(h) then None else Some(s.imported), k);
    }
  }

  function Replaced(b: Slot): seq<Buffer> {
    if b.None? then [] else [b.value]
  }

  /** A CACHED command passes the HAL what its entry holds, and changes no entry. Without a call only if
      there is no such entry. */
  lemma CachedBuffer(env: Env, s: State, loc: nat, t: BufferTarget, slot: Word, fence: Int32)
    ensures var entry := EntryOf(s.displays, s.display, s.layer, t, slot);
            var after := Exec(env, s, Item(loc, Do(SetBuffer(t, slot, Cached, fence))));
            if entry.Missing? then
              after == s.(closed := s.closed + [fence], replies := s.replies + [ErrorAt(loc, entry.error)])
            else
              var calls := s.calls + [Call(s.display, s.layer, SetBuffer(t, slot, entry.buffer, fence))];
              var e := env.hal(calls).error;
              after == s.(calls := calls, closed := s.closed + (if e == NONE then [] else [fence]),
                          replies := s.replies + Errors(loc, e))
  {
    hide Check, At, Store, EntryOf;
    Addressed(s, t, slot);
  }

  /** A sideband stream likewise; no fence is involved. */
  lemma BroughtStream(env: Env, s: State, loc: nat, h: Option<Handle>)
    ensures var after := Exec(env, s, Item(loc, Do(SetSidebandStream(Given(h)))));
            if !Blank(h) && !env.mapper(s.tried) then
              after == s.(tried := s.tried + 1, replies := s.replies + [ErrorAt(loc, NO_RESOURCES)])
            else
              var b := if Blank(h) then None else Some(s.imported);
              var calls := s.calls + [Call(s.display, s.layer, SetSidebandStream(b))];
              var e := env.hal(calls).error;
              var entry := StreamOf(s.displays, s.display, s.layer);
              && after.calls == calls && after.closed == s.closed
              && after.replies == s.replies + Errors(loc, if e != NONE then e
                                                          else if entry.Missing? then entry.error else NONE)
              && StreamOf(after.displays, s.display, s.layer) == (if entry.Missing? then entry else Holding(b))
              && after.freed == s.freed + (if entry.Holding? then Replaced(entry.buffer) else [])
              && after.tried == s.tried + (if Blank(h) then 0 else 1)
              && after.imported == s.imported + (if Blank(h) then 0 else 1)
              && after.display == s.display && after.layer == s.layer
  {
    hide Check, At, Store, StreamOf;
    var after := Exec(env, s, Item(loc, Do(SetSidebandStream(Given(h)))));
    var k := SidebandKey(s.display, s.layer);
    StreamAddressed(s);
    StreamAddressed(after);
    if Check(s.displays, k) == NONE {
      StoreIsMapUpdate(s.displays, k, if Blank(h) then None else Some(s.imported), k);
    }
  }

  lemma CachedStream(env: Env, s: State, loc: nat)
    ensures var entry := StreamOf(s.displays, s.display, s.layer);
            var after := Exec(env, s, Item(loc, Do(SetSidebandStream(Cached))));
            if entry.Missing? then after == s.(replies := s.replies + [ErrorAt(loc, entry.error)])
            else
              var calls := s.calls + [Call(s.display, s.layer, SetSidebandStream(entry.buffer))];
              after == s.(calls := calls, replies := s.replies + Errors(loc, env.hal(calls).error))
  {
    hide Check, At, Store, StreamOf;
    StreamAddressed(s);
  }

  /** A buffer command leaves what every other entry holds: those of another display, layer, kind or slot. */
  lemma OtherEntries(env: Env, s: State, loc: nat, t: BufferTarget, slot: Word, source: Source, fence: Int32,
                     display: Word64, layer: Word64, t': BufferTarget, slot': nat)
    requires !SameEntry(t, s.display, s.layer, slot, t', display, layer, slot')
    ensures var after := Exec(env, s, Item(loc, Do(SetBuffer(t, slot, source, fence))));
            && EntryOf(after.displays, display, layer, t', slot') == EntryOf(s.displays, display, layer, t', slot')
            && StreamOf(after.displays, display, layer) == StreamOf(s.displays, display, layer)
  {
    hide Check, At, Store, EntryOf, StreamOf;
    var after := Exec(env, s, Item(loc, Do(SetBuffer(t, slot, source, fence))));
    var k := KeyFor(s, t, slot);
    var there, then' := s.(display := display, layer := layer), after.(display := display, layer := layer);
    Addressed(there, t', slot');
    Addressed(then', t', slot');
    StreamAddressed(there);
    StreamAddressed(then');
    if Check(s.displays, k) == NONE && source.Given? {
      var b := if Blank(source.handle) then None else Some(s.imported);
      StoreIsMapUpdate(s.displays, k, b, KeyFor(there, t', slot'));
      StoreIsMapUpdate(s.displays, k, b, SidebandKey(display, layer));
    }
  }

  lemma StreamKeepsEntries(env: Env, s: State, loc: nat, source: Source, display: Word64, layer: Word64,
                           t: BufferTarget, slot: nat)
    ensures var after := Exec(env, s, Item(loc, Do(SetSidebandStream(source))));
            && EntryOf(after.displays, display, layer, t, slot) == EntryOf(s.displays, display, layer, t, slot)
            && (display != s.display || layer != s.layer ==>
                  StreamOf(after.displays, display, layer) == StreamOf(s.displays, display, layer))
  {
    hide Check, At, Store, EntryOf, StreamOf;
    var after := Exec(env, s, Item(loc, Do(SetSidebandStream(source))));
    var k := SidebandKey(s.display, s.layer);
    var there, then' := s.(display := display, layer := layer), after.(display := display, layer := layer);
    Addressed(there, t, slot);
    Addressed(then', t, slot);
    StreamAddressed(there);
    StreamAddressed(then');
    if Check(s.displays, k) == NONE && source.Given? {
      var b := if Blank(source.handle) then None else Some(s.imported);
      StoreIsMapUpdate(s.displays, k, b, KeyFor(there, t, slot));
      StoreIsMapUpdate(s.displays, k, b, SidebandKey(display, layer));
    }
  }

  // ----- a whole stream -----

  /** What decides about the calls of the commands to come: the two selections, how many buffers the
      mapper was given and has imported, and what each entry holds. */
  datatype View = View(
    display: Word64, layer: Word64, tried: nat, imported: nat, slots: imap<Key, Slot>, calls: seq<Call>)

  ghost function ViewOf(s: State): View {
    View(s.display, s.layer, s.tried, s.imported,
         imap k: Key | Check(s.displays, k) == NONE :: At(s.displays, k), s.calls)
  }

  ghost function Called(v: View, c: Command<Slot>): View {
    v.(calls := v.calls + [Call(v.display, v.layer, c)])
  }

  /** A buffer is put into its entry, if there is one. */
  ghost function Kept(v: View, place: Key, b: Slot): View {
    if place in v.slots then v.(slots := v.slots[place := b]) else v
  }

  /** A buffer that came along is imported, passed on and kept; one the mapper refuses is dropped. */
  ghost function Brought(env: Env, v: View, place: Key, h: Option<Handle>, c: Slot -> Command<Slot>): View {
    if Blank(h) then Kept(Called(v, c(None)), place, None)
    else if !env.mapper(v.tried) then v.(tried := v.tried + 1)
    else
      Kept(Called(v.(tried := v.tried + 1, imported := v.imported + 1), c(Some(v.imported))), place, Some(v.imported))
  }

  /** 16-bit frame lengths limit a region to this many rectangles; longer ones arrive empty. */
  function Fitting(rects: seq<Rect>, limit: nat): seq<Rect> {
    if |rects| <= limit then rects else []
  }

  /** A client target's entry is one of its display, a layer's one of its layer. */
  function Place(v: View, t: BufferTarget, slot: Word): Key {
    match t
    case ClientTarget(_, _) => TargetKey(v.display, slot)
    case OutputBuffer => OutputKey(v.display, slot)
    case LayerBuffer => BufferKey(v.display, v.layer, slot)
  }

  /** One command as its client wrote it. A buffer left out is the one its entry holds. */
  ghost function Next(env: Env, v: View, c: Written): View {
    match c
    case SelectDisplay(d) => v.(display := d)
    case SelectLayer(l) => v.(layer := l)
    case Set(Region(r, rects)) => Called(v, Set(Region(r, Fitting(rects, 16383))))
    case Set(x) => Called(v, Set(x))
    case Ask(PresentOrValidateDisplay) =>
      var presented := Called(v, Ask(PresentDisplay));
      if env.hal(presented.calls).error == NONE then presented else Called(presented, Ask(ValidateDisplay))
    case Ask(q) => Called(v, Ask(q))
    case SetSidebandStream(stream) =>
      Brought(env, v, SidebandKey(v.display, v.layer), stream, b => SetSidebandStream(b))
    case SetBuffer(t, slot, buffer, fence) =>
      var target := if t.ClientTarget? then t.(damage := Fitting(t.damage, 16382)) else t;
      var sent := if fence < 0 then -1 else fence;
      var place := Place(v, t, slot);
      if buffer.Some? then Brought(env, v, place, buffer, b => SetBuffer(target, slot, b, sent))
      else if place in v.slots then Called(v, SetBuffer(target, slot, v.slots[place], sent))
      else v
  }

  ghost function NextAll(env: Env, v: View, cmds: seq<Written>): View {
    if cmds == [] then v else Next(env, NextAll(env, v, cmds[..|cmds| - 1]), cmds[|cmds| - 1])
  }

  /** Executing the delivery of a command does what the command says. */
  lemma ExecIsNext(env: Env, s: State, loc: nat, c: Written)
    ensures ViewOf(Exec(env, s, Item(loc, Do(Delivered(c))))) == Next(env, ViewOf(s), c)
  {
    hide Check, At, Store, ExecBuffer, ExecSideband;
    if c.SetBuffer? {
      if c.buffer.None? {
        CachedIsNext(env, s, loc, c.target, c.slot, c.fence);
      } else {
        BroughtIsNext(env, s, loc, c.target, c.slot, c.buffer.value, c.fence);
      }
    } else if c.SetSidebandStream? {
      StreamIsNext(env, s, loc, c.stream);
    }
  }

  lemma StoredView(s: State, k: Key, b: Slot)
    requires Check(s.displays, k) == NONE
    ensures ViewOf(s.(displays := Store(s.displays, k, b))).slots == ViewOf(s).slots[k := b]
  {
    hide Check, At, Store;
    forall other: Key { StoreIsMapUpdate(s.displays, k, b, other); }
  }

  lemma CachedIsNext(env: Env, s: State, loc: nat, t: BufferTarget, slot: Word, fence: Int32)
    ensures var c := SetBuffer(t, slot, None, fence);
            ViewOf(Exec(env, s, Item(loc, Do(Delivered(c))))) == Next(env, ViewOf(s), c)
  {
    hide Check, At, Store;
  }

  lemma BroughtIsNext(env: Env, s: State, loc: nat, t: BufferTarget, slot: Word, h: Handle, fence: Int32)
    ensures var c := SetBuffer(t, slot, Some(h), fence);
            ViewOf(Exec(env, s, Item(loc, Do(Delivered(c))))) == Next(env, ViewOf(s), c)
  {
    hide Check, At, Store, ViewOf, ExecBuffer;
    var target := if t.ClientTarget? then t.(damage := Clipped(t.damage, 4)) else t;
    BroughtView(env, s, loc, target, slot, Some(h), if fence >= 0 then fence else -1);
    SelectionSeen(s);
  }

  lemma SelectionSeen(s: State)
    ensures ViewOf(s).display == s.display && ViewOf(s).layer == s.layer
  {
  }

  lemma BroughtView(env: Env, s: State, loc: nat, t: BufferTarget, slot: Word, h: Option<Handle>, fence: Int32)
    ensures ViewOf(ExecBuffer(env, s, loc, t, slot, Given(h), fence))
            == Brought(env, ViewOf(s), KeyFor(s, t, slot), h, b => SetBuffer(t, slot, b, fence))
  {
    hide Check, At, Store, KeyFor, Update, ViewOf, Kept, Called;
    var k := KeyFor(s, t, slot);
    ImportView(env, s, h);
    var (s1, looked, b) := Import(env, s, h);
    var after := ExecBuffer(env, s, loc, t, slot, Given(h), fence);
    if looked == NONE {
      var s2 := Invoke(s1, SetBuffer(t, slot, b, fence));
      InvokeView(s1, SetBuffer(t, slot, b, fence));
      UpdateView(s2, k, h, b);
      SameView(Update(s2, k, Given(h), b).0, after);
    } else {
      SameView(s1, after);
    }
  }

  lemma ImportView(env: Env, s: State, h: Option<Handle>)
    ensures var after := Import(env, s, h).0;
            ViewOf(after) == ViewOf(s).(tried := after.tried, imported := after.imported)
    ensures ViewOf(s).tried == s.tried && ViewOf(s).imported == s.imported
  {
  }

  lemma InvokeView(s: State, c: Command<Slot>)
    ensures ViewOf(Invoke(s, c)) == Called(ViewOf(s), c)
  {
  }

  lemma UpdateView(s: State, k: Key, h: Option<Handle>, b: Slot)
    ensures ViewOf(Update(s, k, Given(h), b).0) == Kept(ViewOf(s), k, b)
  {
    hide Check, At, Store;
    if Check(s.displays, k) == NONE {
      StoredView(s, k, b);
    }
  }

  /** Replies, freed buffers and closed descriptors are not seen. */
  lemma SameView(s: State, after: State)
    requires after == s.(replies := after.replies, closed := after.closed, freed := after.freed)
    ensures ViewOf(after) == ViewOf(s)
  {
  }

  lemma StreamIsNext(env: Env, s: State, loc: nat, stream: Option<Handle>)
    ensures var c := SetSidebandStream(stream);
            ViewOf(Exec(env, s, Item(loc, Do(Delivered(c))))) == Next(env, ViewOf(s), c)
  {
    hide Check, At, Store, Update, ViewOf, Kept, Called;
    var k := SidebandKey(s.display, s.layer);
    SelectionSeen(s);
    ImportView(env, s, stream);
    var (s1, looked, b) := Import(env, s, stream);
    var after := ExecSideband(env, s, loc, Given(stream));
    if looked == NONE {
      var s2 := Invoke(s1, SetSidebandStream(b));
      InvokeView(s1, SetSidebandStream(b));
      UpdateView(s2, k, stream, b);
      SameView(Update(s2, k, Given(stream), b).0, after);
    } else {
      SameView(s1, after);
    }
  }

  lemma {:induction false} LocatedRequests(cmds: seq<Written>, base: nat, pos: nat)
    ensures |Located(cmds, base, pos)| == |cmds|
    ensures forall i :: 0 <= i < |cmds| ==> Located(cmds, base, pos)[i].request == Do(Delivered(cmds[i]))
  {
    hide Delivered, Frame, HandlesOf;
    if cmds != [] {
      LocatedRequests(cmds[1..], base + |HandlesOf(cmds[0])|, pos + |Frame(cmds[0], base)|);
    }
  }

  lemma {:induction false} ExecAllIsNextAll(env: Env, s: State, cmds: seq<Written>, items: seq<Item>)
    requires |items| == |cmds| && forall i :: 0 <= i < |cmds| ==> items[i].request == Do(Delivered(cmds[i]))
    ensures ViewOf(ExecAll(env, s, items)) == NextAll(env, ViewOf(s), cmds)
  {
    hide Delivered, Exec, Next, ViewOf;
    if cmds != [] {
      var n := |cmds| - 1;
      ExecAllIsNextAll(env, s, cmds[..n], items[..n]);
      ExecIsNext(env, ExecAll(env, s, items[..n]), items[n].loc, cmds[n]);
    }
  }

  /** The calls of a written stream are those its commands say, one command after the other. */
  lemma StreamCalls(env: Env, s: State, cmds: seq<Written>)
    ensures ViewOf(ExecAll(env, s, Located(cmds, 0, 0))) == NextAll(env, ViewOf(s), cmds)
  {
    hide Located, ExecAll, NextAll, ViewOf;
    LocatedRequests(cmds, 0, 0);
    ExecAllIsNextAll(env, s, cmds, Located(cmds, 0, 0));
  }
}
