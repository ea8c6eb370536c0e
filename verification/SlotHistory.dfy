/** The slot cache over whole runs of a client: what a slot holds, given everything that happened. */
module SlotHistory {
  import opened Words
  import opened Commands
  import opened Stream
  import opened Session
  import opened HalCalls
  import opened SessionProofs
  import opened SlotConservation

  /** What a command puts under a key, by the selection it comes with. */
  function PutUnder(env: Env, s: State, item: Item, k: Key): Option<Slot> {
    match item.request
    case Do(SetBuffer(t, slot, Given(h), _)) =>
      var own := match t
        case ClientTarget(_, _) => TargetKey(s.display, slot)
        case OutputBuffer => OutputKey(s.display, slot)
        case LayerBuffer => BufferKey(s.display, s.layer, slot);
      if k == own then Along(env, s, h) else None
    case Do(SetSidebandStream(Given(h))) => if k == SidebandKey(s.display, s.layer) then Along(env, s, h) else None
    case _ => None
  }

  /** The buffer that came along, null if there is none; nothing if the mapper refuses it. */
  function Along(env: Env, s: State, h: Option<Handle>): Option<Slot> {
    if h.None? || (h.value.fds == [] && h.value.numInts == 0) then Some(None)
    else if env.mapper(s.tried) then Some(Some(s.imported))
    else None
  }

  /** What the last command that put something under a key put there, or null if there was none since
      the entry came into being. */
  function LastStored(env: Env, s: State, events: seq<Event>, k: Key): Slot {
    if events == [] then (if Check(s.displays, k) == NONE then At(s.displays, k) else None)
    else
      var n := |events| - 1;
      var before := Run(env, s, events[..n]);
      if Check(before.displays, k) != NONE then None
      else
        match events[n]
        case Arrived(item) =>
          (match PutUnder(env, before, item, k)
           case Some(b) => b
           case None => LastStored(env, s, events[..n], k))
        case _ => LastStored(env, s, events[..n], k)
  }

  /** The display and the layer that the commands of a run have selected last. */
  function Selected(s: State, events: seq<Event>): (Word64, Word64) {
    if events == [] then (s.display, s.layer)
    else
      var (d, l) := Selected(s, events[..|events| - 1]);
      match events[|events| - 1]
      case Arrived(Item(_, Do(SelectDisplay(id)))) => (id, l)
      case Arrived(Item(_, Do(SelectLayer(id)))) => (d, id)
      case _ => (d, l)
  }

  lemma {:induction false} SelectionOfRun(env: Env, s: State, events: seq<Event>)
    ensures (Run(env, s, events).display, Run(env, s, events).layer) == Selected(s, events)
  {
    hide Exec;
    if events != [] {
      var n := |events| - 1;
      SelectionOfRun(env, s, events[..n]);
      if events[n].Arrived? {
        CallsOfCommand(env, Run(env, s, events[..n]), events[n].item);
      }
    }
  }

  /** A command changes the one entry it puts something in, and creates or removes none. */
  lemma CommandEntry(env: Env, s: State, item: Item, k: Key)
    ensures var after := Exec(env, s, item).displays;
            && Check(after, k) == Check(s.displays, k)
            && (Check(after, k) == NONE ==>
                  At(after, k) == match PutUnder(env, s, item, k)
                    case Some(b) => b
                    case None => At(s.displays, k))
  {
    hide Exec, Stored, PutUnder, Check, At, Store;
    ExecDisplays(env, s, item);
    StoredIsValid(env, s, item);
    if Check(s.displays, k) == NONE {
      StoredIsPut(env, s, item, k);
    }
    if Stored(env, s, item).Some? {
      var (key, b) := Stored(env, s, item).value;
      StoreIsMapUpdate(s.displays, key, b, k);
    }
  }

  lemma StoredIsPut(env: Env, s: State, item: Item, k: Key)
    requires Check(s.displays, k) == NONE
    ensures PutUnder(env, s, item, k)
            == match Stored(env, s, item)
               case Some((key, b)) => if key == k then Some(b) else None
               case None => None
  {
    hide Check;
  }

  /** A call of the client leaves an entry alone, removes it, or creates it as null. */
  lemma CallEntry(env: Env, s: State, e: Event, k: Key)
    requires !e.Arrived?
    ensures var after := Step(env, s, e).displays;
            Check(after, k) == NONE ==>
              At(after, k) == if Check(s.displays, k) == NONE then At(s.displays, k) else None
  {
    hide Drops, Check, At, Entries;
    var keys := StepDrops(env, s, e);
    DropsEntry(s.displays, Step(env, s, e).displays, keys, k);
  }

  /** Which entries there are after a call: as many as the call asked for, none of a layer that is gone.
      Those that stay hold what they held, new ones are null. */
  lemma EntriesAfterCall(env: Env, s: State, display: Word64, layer: Word64, slots: Word, slot: nat)
    requires display in s.displays
    ensures var ds := Step(env, s, LayerAdded(display, layer, slots)).displays;
            && EntryOf(ds, display, layer, LayerBuffer, slot)
               == Sized(EntryOf(s.displays, display, layer, LayerBuffer, slot), slot, slots)
            && (StreamOf(s.displays, display, layer).Missing? ==> StreamOf(ds, display, layer) == Holding(None))
    ensures var ds := Step(env, s, LayerRemoved(display, layer)).displays;
            && EntryOf(ds, display, layer, LayerBuffer, slot) == Missing(BAD_LAYER)
            && StreamOf(ds, display, layer) == Missing(BAD_LAYER)
    ensures var ds, t := Step(env, s, TargetsResized(display, slots)).displays, ClientTarget(0, []);
            EntryOf(ds, display, layer, t, slot) == Sized(EntryOf(s.displays, display, layer, t, slot), slot, slots)
    ensures Step(env, s, DisplayAdded(display)).displays == s.displays
  {
  }

  lemma NewDisplayIsEmpty(env: Env, s: State, display: Word64, layer: Word64, t: BufferTarget, slot: nat)
    requires display !in s.displays
    ensures var ds := Step(env, s, DisplayAdded(display)).displays;
            EntryOf(ds, display, layer, t, slot) == Missing(if t.LayerBuffer? then BAD_LAYER else BAD_PARAMETER)
  {
  }

  /** An entry after its vector was given another size. */
  function Sized(entry: Entry, slot: nat, size: nat): Entry {
    if slot >= size then Missing(BAD_PARAMETER) else if entry.Missing? then Holding(None) else entry
  }

  lemma DropsEntry(before: Displays, after: Displays, keys: seq<Key>, k: Key)
    requires Drops(before, after, keys)
    ensures Check(after, k) == NONE ==> At(after, k) == if Check(before, k) == NONE then At(before, k) else None
  {
    hide Check, At;
    if Check(before, k) == NONE && k in keys {
      var i :| 0 <= i < |keys| && keys[i] == k;
    }
  }

  /** After any run a slot that exists holds what was last stored in it, or null. */
  lemma {:induction false} SlotsHoldLastStored(env: Env, s: State, events: seq<Event>, k: Key)
    requires Check(Run(env, s, events).displays, k) == NONE
    ensures At(Run(env, s, events).displays, k) == LastStored(env, s, events, k)
  {
    hide Exec, PutUnder, Check, At;
    if events != [] {
      var n := |events| - 1;
      var before := Run(env, s, events[..n]);
      if Check(before.displays, k) == NONE {
        SlotsHoldLastStored(env, s, events[..n], k);
      }
      if events[n].Arrived? {
        CommandEntry(env, before, events[n].item, k);
      } else {
        CallEntry(env, before, events[n], k);
      }
    }
  }

  /** After any run, of a client without displays at first for one, a CACHED buffer command passes the HAL
      the buffer last put in that slot of the display and layer last selected, null if none, and changes
      nothing; if the slot does not exist the HAL is not called, the fence is closed and the error is
      reported. */
  lemma CachedPassesLastStored(env: Env, s: State, events: seq<Event>, loc: nat, t: BufferTarget, slot: Word,
                               fence: Int32)
    ensures var before := Run(env, s, events);
            var (d, l) := Selected(s, events);
            var k := match t
              case ClientTarget(_, _) => TargetKey(d, slot)
              case OutputBuffer => OutputKey(d, slot)
              case LayerBuffer => BufferKey(d, l, slot);
            var entry := EntryOf(before.displays, d, l, t, slot);
            var after := Exec(env, before, Item(loc, Do(SetBuffer(t, slot, Cached, fence))));
            && after.displays == before.displays && after.freed == before.freed && after.imported == before.imported
            && if entry.Holding? then
                 after.calls == before.calls + [Call(d, l, SetBuffer(t, slot, LastStored(env, s, events, k), fence))]
               else
                 && after.calls == before.calls && after.closed == before.closed + [fence]
                 && after.replies == before.replies + [ErrorAt(loc, entry.error)]
  {
    hide Check, At, Run, LastStored, Exec, EntryOf, Selected;
    var before := Run(env, s, events);
    var k := KeyFor(before, t, slot);
    SelectionOfRun(env, s, events);
    Addressed(before, t, slot);
    CachedBuffer(env, before, loc, t, slot, fence);
    if Check(before.displays, k) == NONE {
      SlotsHoldLastStored(env, s, events, k);
    }
  }

  /** A client that has just connected. */
  function Fresh(): State {
    State(0, 0, map[], 0, 0, [], [], [], [])
  }

  /** A display with one client target slot, and a command for a second one: its buffer is imported, is
      in no slot, and is never freed. */
  lemma SlotPastTheVector(env: Env)
    requires env.mapper(0)
    ensures var command := Item(0, Do(SetBuffer(ClientTarget(0, []), 1, Given(Some(Handle([5], 0))), -1)));
            var run := [DisplayAdded(0), TargetsResized(0, 1), Arrived(command)];
            var s := Run(env, Fresh(), run);
            && s.imported == 1 && s.freed == [] && AllLeaked(env, Fresh(), run) == {0}
            && forall k: Key :: Check(s.displays, k) == NONE ==> At(s.displays, k) == None
  {
    var command := Item(0, Do(SetBuffer(ClientTarget(0, []), 1, Given(Some(Handle([5], 0))), -1)));
    var run := [DisplayAdded(0), TargetsResized(0, 1), Arrived(command)];
    OneTarget(env, run);
    var before := Run(env, Fresh(), run[..2]);
    ExecLedger(env, before, command);
  }

  lemma OneTarget(env: Env, run: seq<Event>)
    requires |run| == 3 && run[0] == DisplayAdded(0) && run[1] == TargetsResized(0, 1)
    ensures var before := Run(env, Fresh(), run[..2]);
            && before == Fresh().(displays := map[0 := DisplayData([None], [], map[])])
            && AllLeaked(env, Fresh(), run[..2]) == {}
  {
    hide Exec, Check, At;
    assert run[..2][..1] == run[..1] && run[..1][..0] == [];
    assert Run(env, Fresh(), run[..1]) == Fresh().(displays := map[0 := DisplayData([], [], map[])]);
    assert Resized([], 1) == [None];
    assert AllLeaked(env, Fresh(), run[..1]) == {};
  }
}
