/** Imported buffers over whole runs of a client: each is held by exactly one slot, or was freed
    exactly once, or belongs to a command that addressed a slot that does not exist. */
module SlotConservation {
  import opened Words
  import opened Commands
  import opened Stream
  import opened Session
  import opened SessionProofs

  /** A command of a stream, or a call on the client interface that the HAL answered NONE. */
  datatype Event =
    | Arrived(item: Item)
    | DisplayAdded(display: Word64)                                 // onHotplug
    | LayerAdded(display: Word64, layer: Word64, slots: Word)       // createLayer
    | LayerRemoved(display: Word64, layer: Word64)                  // destroyLayer
    | TargetsResized(display: Word64, slots: Word)                  // setClientTargetSlotCount

  /** std::vector::resize: new entries are null, the entries cut off are destroyed. */
  function Resized(v: seq<Slot>, n: nat): seq<Slot> {
    if n <= |v| then v[..n] else v + seq(n - |v|, _ => None)
  }

  function CutOff(v: seq<Slot>, n: nat): seq<Slot> {
    if n <= |v| then v[n..] else []
  }

  /** The buffers freed by destroying the entries. */
  function Freed(v: seq<Slot>): seq<Buffer> {
    if v == [] then [] else Freed(v[..|v| - 1]) + Freeing(v[|v| - 1])
  }

  const NO_BUFFERS := LayerBuffers([], None)

  /** A layer of a display after createLayer, which resizes the buffers of the layer it had before. */
  function WithSlots(ds: Displays, d: Word64, l: Word64, n: nat): Displays
    requires d in ds
  {
    var prior := if l in ds[d].layers then ds[d].layers[l] else NO_BUFFERS;
    ds[d := ds[d].(layers := ds[d].layers[l := prior.(buffers := Resized(prior.buffers, n))])]
  }

  function Step(env: Env, s: State, e: Event): State {
    match e
    case Arrived(item) => Exec(env, s, item)
    case DisplayAdded(d) =>
      if d in s.displays then s else s.(displays := s.displays[d := DisplayData([], [], map[])])
    case LayerAdded(d, l, n) =>
      if d !in s.displays then s
      else
        var ls := s.displays[d].layers;
        var prior := if l in ls then ls[l] else NO_BUFFERS;
        s.(displays := WithSlots(s.displays, d, l, n),
           freed := s.freed + Freed(CutOff(prior.buffers, n)))
    case LayerRemoved(d, l) =>
      if d !in s.displays || l !in s.displays[d].layers then s
      else
        var ls := s.displays[d].layers;
        s.(displays := s.displays[d := s.displays[d].(layers := ls - {l})],
           freed := s.freed + Freed(ls[l].buffers + [ls[l].sideband]))
    case TargetsResized(d, n) =>
      if d !in s.displays then s
      else
        var v := s.displays[d].clientTargets;
        s.(displays := s.displays[d := s.displays[d].(clientTargets := Resized(v, n))],
           freed := s.freed + Freed(CutOff(v, n)))
  }

  /** The leak: a buffer was imported, but its slot does not exist, so nobody will free it. */
  function Leaked(env: Env, s: State, e: Event): set<Buffer> {
    if !e.Arrived? then {}
    else
      match Reference(s, e.item)
      case Some((k, Given(h))) =>
        var (_, _, b) := Import(env, s, h);
        if b.Some? && Check(s.displays, k) != NONE then {b.value} else {}
      case _ => {}
  }

  function Run(env: Env, s: State, events: seq<Event>): State {
    if events == [] then s else Step(env, Run(env, s, events[..|events| - 1]), events[|events| - 1])
  }

  function AllLeaked(env: Env, s: State, events: seq<Event>): set<Buffer> {
    if events == [] then {}
    else
      var n := |events| - 1;
      AllLeaked(env, s, events[..n]) + Leaked(env, Run(env, s, events[..n]), events[n])
  }

  /** `owner` is the inverse of the slot cache: the key that holds each live buffer. */
  ghost predicate Holds(ds: Displays, owner: map<Buffer, Key>) {
    && (forall b :: b in owner ==> Check(ds, owner[b]) == NONE && At(ds, owner[b]) == Some(b))
    && (forall k: Key :: Check(ds, k) == NONE && At(ds, k).Some? ==>
          At(ds, k).value in owner && owner[At(ds, k).value] == k)
  }

  ghost predicate NoRepeats(bs: seq<Buffer>) {
    forall i, j :: 0 <= i < j < |bs| ==> bs[i] != bs[j]
  }

  /** Every buffer imported so far is exactly one of: held by one slot, leaked, freed once. */
  ghost predicate Ledger(imported: nat, freed: seq<Buffer>, leaked: set<Buffer>, owner: map<Buffer, Key>) {
    && NoRepeats(freed) && leaked !! owner.Keys
    && (forall b :: b in freed ==> b < imported && b !in owner && b !in leaked)
    && (forall b :: b in owner ==> b < imported)
    && (forall b :: b in leaked ==> b < imported)
    && (forall b :: 0 <= b < imported ==> b in freed || b in owner || b in leaked)
  }

  ghost predicate Conserved(s: State, leaked: set<Buffer>, owner: map<Buffer, Key>) {
    Holds(s.displays, owner) && Ledger(s.imported, s.freed, leaked, owner)
  }

  // ----- storing -----

  /** Replacing an entry by null or by the newest import. */
  lemma StoreKeepsHolds(ds: Displays, owner: map<Buffer, Key>, k: Key, b: Slot) returns (owner': map<Buffer, Key>)
    requires Holds(ds, owner) && Check(ds, k) == NONE
    requires b.Some? ==> b.value !in owner
    ensures Holds(Store(ds, k, b), owner')
    ensures owner'.Keys == (if At(ds, k).Some? then owner.Keys - {At(ds, k).value} else owner.Keys)
                           + (if b.Some? then {b.value} else {})
  {
    hide Check, At, Store;
    var kept := if At(ds, k).Some? then owner - {At(ds, k).value} else owner;
    owner' := if b.Some? then kept[b.value := k] else kept;
    forall k': Key
      ensures Check(Store(ds, k, b), k') == Check(ds, k')
      ensures Check(ds, k') == NONE ==> At(Store(ds, k, b), k') == if k' == k then b else At(ds, k')
    {
      StoreIsMapUpdate(ds, k, b, k');
    }
  }

  lemma ExecLedger(env: Env, s: State, item: Item)
    ensures var after := Exec(env, s, item);
            match Reference(s, item)
            case Some((k, Given(h))) =>
              var (_, err, b) := Import(env, s, h);
              && after.imported == s.imported + (if b.Some? then 1 else 0)
              && (b.Some? ==> err == NONE && b.value == s.imported)
              && (if err == NONE && Check(s.displays, k) == NONE
                  then after.displays == Store(s.displays, k, b) && after.freed == s.freed + Freeing(At(s.displays, k))
                  else after.displays == s.displays && after.freed == s.freed)
            case _ => after.displays == s.displays && after.imported == s.imported && after.freed == s.freed
  {
    hide Check, At, Store;
  }

  /** The ledger when an entry takes a new import or null, and frees what it held. */
  lemma LedgerStores(imported: nat, freed: seq<Buffer>, leaked: set<Buffer>, owner: map<Buffer, Key>,
                     replaced: Slot, b: Slot, owner': map<Buffer, Key>)
    requires Ledger(imported, freed, leaked, owner)
    requires b.Some? ==> b.value == imported
    requires replaced.Some? ==> replaced.value in owner
    requires owner'.Keys == (if replaced.Some? then owner.Keys - {replaced.value} else owner.Keys)
                            + (if b.Some? then {b.value} else {})
    ensures Ledger(imported + if b.Some? then 1 else 0, freed + Freeing(replaced), leaked, owner')
  {
  }

  lemma LedgerLeaks(imported: nat, freed: seq<Buffer>, leaked: set<Buffer>, owner: map<Buffer, Key>)
    requires Ledger(imported, freed, leaked, owner)
    ensures Ledger(imported + 1, freed, leaked + {imported}, owner)
  {
  }

  lemma ArrivedConserves(env: Env, s: State, item: Item, leaked: set<Buffer>, owner: map<Buffer, Key>)
    returns (owner': map<Buffer, Key>)
    requires Conserved(s, leaked, owner)
    ensures Conserved(Exec(env, s, item), leaked + Leaked(env, s, Arrived(item)), owner')
  {
    hide Exec, Check, At, Store, Holds, Ledger;
    ExecLedger(env, s, item);
    owner' := owner;
    assert leaked + {} == leaked;
    match Reference(s, item)
    case Some((k, Given(h))) =>
      var (_, err, b) := Import(env, s, h);
      if err == NONE && Check(s.displays, k) == NONE {
        OwnerAt(s.displays, owner, k);
        owner' := NewOwner(s, owner, leaked, k, b);
        LedgerStores(s.imported, s.freed, leaked, owner, At(s.displays, k), b, owner');
      } else if b.Some? {
        LedgerLeaks(s.imported, s.freed, leaked, owner);
      }
    case _ =>
  }

  lemma NewOwner(s: State, owner: map<Buffer, Key>, leaked: set<Buffer>, k: Key, b: Slot)
    returns (owner': map<Buffer, Key>)
    requires Conserved(s, leaked, owner) && Check(s.displays, k) == NONE && (b.Some? ==> b.value == s.imported)
    ensures Holds(Store(s.displays, k, b), owner')
    ensures owner'.Keys == (if At(s.displays, k).Some? then owner.Keys - {At(s.displays, k).value} else owner.Keys)
                           + (if b.Some? then {b.value} else {})
  {
    hide Check, At, Store, Holds;
    owner' := StoreKeepsHolds(s.displays, owner, k, b);
  }

  lemma OwnerAt(ds: Displays, owner: map<Buffer, Key>, k: Key)
    requires Holds(ds, owner) && Check(ds, k) == NONE
    ensures At(ds, k).Some? ==> At(ds, k).value in owner
  {
    hide Check, At;
  }

  /** An import gives a buffer that was never seen before: in no slot, not freed, not leaked. It fails
      exactly when there is something to import and the mapper refuses. */
  lemma ImportIsNew(env: Env, s: State, h: Option<Handle>, leaked: set<Buffer>, owner: map<Buffer, Key>)
    requires Conserved(s, leaked, owner)
    ensures var (after, err, b) := Import(env, s, h);
            && (b.Some? ==> b.value !in owner && b.value !in s.freed && b.value !in leaked)
            && (forall k: Key :: b.Some? && Check(s.displays, k) == NONE ==> At(s.displays, k) != b)
            && (err != NONE <==> h.Some? && (h.value.fds != [] || h.value.numInts != 0) && !env.mapper(s.tried))
            && (err != NONE ==> b == None) && after.displays == s.displays && after.freed == s.freed
  {
    hide Check, At;
  }

  // ----- dropping entries -----

  /** `after` lost exactly the entries under `keys`; entries that are new are null. */
  ghost predicate Drops(before: Displays, after: Displays, keys: seq<Key>) {
    && (forall i :: 0 <= i < |keys| ==> Check(before, keys[i]) == NONE && Check(after, keys[i]) != NONE)
    && (forall i, j :: 0 <= i < j < |keys| ==> keys[i] != keys[j])
    && (forall k: Key :: Check(before, k) == NONE && k !in keys ==>
          Check(after, k) == NONE && At(after, k) == At(before, k))
    && (forall k: Key :: Check(after, k) == NONE && Check(before, k) != NONE ==> At(after, k) == None)
  }

  ghost predicate Entries(ds: Displays, keys: seq<Key>, v: seq<Slot>) {
    |v| == |keys| && forall i :: 0 <= i < |keys| ==> Check(ds, keys[i]) == NONE && v[i] == At(ds, keys[i])
  }

  /** The freed buffers of distinct entries are distinct, and are the ones those entries own. */
  lemma {:induction false} FreedEntries(ds: Displays, owner: map<Buffer, Key>, keys: seq<Key>, v: seq<Slot>)
    requires Holds(ds, owner) && Entries(ds, keys, v)
    requires forall i, j :: 0 <= i < j < |keys| ==> keys[i] != keys[j]
    ensures NoRepeats(Freed(v))
    ensures forall b :: b in Freed(v) <==> b in owner && owner[b] in keys
  {
    hide Check, At;
    if v != [] {
      var n := |v| - 1;
      FreedEntries(ds, owner, keys[..n], v[..n]);
      assert keys == keys[..n] + [keys[n]];
      assert v[n].Some? ==> v[n].value in owner && owner[v[n].value] == keys[n];
    }
  }

  lemma DropConserves(s: State, after: State, keys: seq<Key>, v: seq<Slot>, leaked: set<Buffer>,
                      owner: map<Buffer, Key>)
    returns (owner': map<Buffer, Key>)
    requires Conserved(s, leaked, owner)
    requires Drops(s.displays, after.displays, keys) && Entries(s.displays, keys, v)
    requires after.imported == s.imported && after.freed == s.freed + Freed(v)
    ensures Conserved(after, leaked, owner')
  {
    hide Check, At, Freed;
    FreedEntries(s.displays, owner, keys, v);
    owner' := map b | b in owner && owner[b] !in keys :: owner[b];
    LedgerDrops(s.imported, s.freed, Freed(v), leaked, owner, owner');
  }

  lemma LedgerDrops(imported: nat, freed: seq<Buffer>, more: seq<Buffer>, leaked: set<Buffer>,
                    owner: map<Buffer, Key>, owner': map<Buffer, Key>)
    requires Ledger(imported, freed, leaked, owner) && NoRepeats(more)
    requires owner'.Keys <= owner.Keys && forall b :: b in more <==> b in owner && b !in owner'
    ensures Ledger(imported, freed + more, leaked, owner')
  {
    var all := freed + more;
    assert forall b :: b in all <==> b in freed || b in more;
    forall i, j | 0 <= i < j < |all| ensures all[i] != all[j] {
      if i < |freed| <= j {
        assert all[i] in freed && all[j] == more[j - |freed|] && more[j - |freed|] in more;
      }
    }
  }

  // ----- client calls -----

  lemma BuffersResized(ds: Displays, d: Word64, l: Word64, n: nat, v: seq<Slot>, keys: seq<Key>)
    requires d in ds && v == (if l in ds[d].layers then ds[d].layers[l].buffers else [])
    requires keys == seq(|CutOff(v, n)|, i requires i >= 0 => BufferKey(d, l, n + i))
    ensures Entries(ds, keys, CutOff(v, n))
    ensures Drops(ds, WithSlots(ds, d, l, n), keys)
  {
    hide Check, At, WithSlots;
    forall k: Key ensures k in keys <==> k.BufferKey? && k.display == d && k.layer == l && n <= k.slot < |v| {
      if k.BufferKey? && k.display == d && k.layer == l && n <= k.slot < |v| {
        assert keys[k.slot - n] == k;
      }
      BufferCut(ds, d, l, n, v, k);
    }
    forall k: Key { BufferCut(ds, d, l, n, v, k); }
  }

  lemma BufferCut(ds: Displays, d: Word64, l: Word64, n: nat, v: seq<Slot>, k: Key)
    requires d in ds && v == (if l in ds[d].layers then ds[d].layers[l].buffers else [])
    ensures var after := WithSlots(ds, d, l, n);
            if k.BufferKey? && k.display == d && k.layer == l && n <= k.slot < |v|
            then Check(ds, k) == NONE && Check(after, k) != NONE && CutOff(v, n)[k.slot - n] == At(ds, k)
            else if Check(ds, k) == NONE then Check(after, k) == NONE && At(after, k) == At(ds, k)
            else Check(after, k) == NONE ==> At(after, k) == None
  {
  }

  lemma TargetsCut(ds: Displays, d: Word64, n: nat, keys: seq<Key>)
    requires d in ds && keys == seq(|CutOff(ds[d].clientTargets, n)|, i requires i >= 0 => TargetKey(d, n + i))
    ensures Entries(ds, keys, CutOff(ds[d].clientTargets, n))
    ensures Drops(ds, ds[d := ds[d].(clientTargets := Resized(ds[d].clientTargets, n))], keys)
  {
    hide Check, At;
    forall k: Key ensures k in keys <==> k.TargetKey? && k.display == d && n <= k.slot < |ds[d].clientTargets| {
      if k.TargetKey? && k.display == d && n <= k.slot < |ds[d].clientTargets| {
        assert keys[k.slot - n] == k;
      }
      TargetCut(ds, d, n, k);
    }
    forall k: Key { TargetCut(ds, d, n, k); }
  }

  lemma TargetCut(ds: Displays, d: Word64, n: nat, k: Key)
    requires d in ds
    ensures var after := ds[d := ds[d].(clientTargets := Resized(ds[d].clientTargets, n))];
            var targets := ds[d].clientTargets;
            if k.TargetKey? && k.display == d && n <= k.slot < |targets|
            then Check(ds, k) == NONE && Check(after, k) != NONE && CutOff(targets, n)[k.slot - n] == At(ds, k)
            else if k.TargetKey? && k.display == d && |targets| <= k.slot < n
            then Check(ds, k) != NONE && Check(after, k) == NONE && At(after, k) == None
            else Check(after, k) == Check(ds, k) && (Check(ds, k) == NONE ==> At(after, k) == At(ds, k))
  {
  }

  lemma LayerDropped(ds: Displays, d: Word64, l: Word64, keys: seq<Key>)
    requires d in ds && l in ds[d].layers
    requires keys == seq(|ds[d].layers[l].buffers|, i requires i >= 0 => BufferKey(d, l, i)) + [SidebandKey(d, l)]
    ensures Entries(ds, keys, ds[d].layers[l].buffers + [ds[d].layers[l].sideband])
    ensures Drops(ds, ds[d := ds[d].(layers := ds[d].layers - {l})], keys)
  {
    var n := |ds[d].layers[l].buffers|;
    assert keys[n] == SidebandKey(d, l);
    forall k: Key | k.BufferKey? && k.display == d && k.layer == l && k.slot < n ensures k in keys {
      assert keys[k.slot] == k;
    }
  }

  /** A call of the client drops the entries under some keys and frees exactly what they hold. */
  lemma StepDrops(env: Env, s: State, e: Event) returns (keys: seq<Key>)
    requires !e.Arrived?
    ensures Drops(s.displays, Step(env, s, e).displays, keys)
    ensures exists v :: Entries(s.displays, keys, v) && Step(env, s, e).freed == s.freed + Freed(v)
    ensures Step(env, s, e).imported == s.imported
  {
    hide Drops, Check, At, Entries;
    keys := [];
    var v := [];
    NothingDropped(s.displays);
    assert s.freed + [] == s.freed;
    if e.DisplayAdded? {
      if e.display !in s.displays {
        DisplayAddedDrops(s.displays, e.display);
      }
    } else if e.LayerAdded? {
      if e.display in s.displays {
        var ls := s.displays[e.display].layers;
        var buffers := if e.layer in ls then ls[e.layer].buffers else [];
        v := CutOff(buffers, e.slots);
        keys := seq(|v|, i requires i >= 0 => BufferKey(e.display, e.layer, e.slots + i));
        BuffersResized(s.displays, e.display, e.layer, e.slots, buffers, keys);
      }
    } else if e.LayerRemoved? {
      if e.display in s.displays && e.layer in s.displays[e.display].layers {
        var ly := s.displays[e.display].layers[e.layer];
        v := ly.buffers + [ly.sideband];
        keys := seq(|ly.buffers|, i requires i >= 0 => BufferKey(e.display, e.layer, i))
                + [SidebandKey(e.display, e.layer)];
        LayerDropped(s.displays, e.display, e.layer, keys);
      }
    } else if e.display in s.displays {
      v := CutOff(s.displays[e.display].clientTargets, e.slots);
      keys := seq(|v|, i requires i >= 0 => TargetKey(e.display, e.slots + i));
      TargetsCut(s.displays, e.display, e.slots, keys);
    }
    assert Entries(s.displays, keys, v) && Step(env, s, e).freed == s.freed + Freed(v);
  }

  lemma NothingDropped(ds: Displays)
    ensures Drops(ds, ds, []) && Entries(ds, [], []) && Freed([]) == []
  {
  }

  lemma StepConserves(env: Env, s: State, e: Event, leaked: set<Buffer>, owner: map<Buffer, Key>)
    returns (owner': map<Buffer, Key>)
    requires Conserved(s, leaked, owner)
    ensures Conserved(Step(env, s, e), leaked + Leaked(env, s, e), owner')
  {
    hide Holds, Ledger, Drops, Exec, Check, At, Entries, Freed;
    if e.Arrived? {
      owner' := ArrivedConserves(env, s, e.item, leaked, owner);
    } else {
      var keys := StepDrops(env, s, e);
      var v :| Entries(s.displays, keys, v) && Step(env, s, e).freed == s.freed + Freed(v);
      assert leaked + Leaked(env, s, e) == leaked;
      owner' := DropConserves(s, Step(env, s, e), keys, v, leaked, owner);
    }
  }

  lemma DisplayAddedDrops(ds: Displays, d: Word64)
    requires d !in ds
    ensures Drops(ds, ds[d := DisplayData([], [], map[])], [])
  {
  }

  /** A buffer that a command brings along ends up in a slot exactly when the slot it addresses
      exists; otherwise it is in no slot and is not freed. */
  lemma LostExactlyWhenSlotMissing(env: Env, s: State, item: Item, leaked: set<Buffer>, owner: map<Buffer, Key>,
                                   k: Key, h: Option<Handle>)
    requires Conserved(s, leaked, owner) && Reference(s, item) == Some((k, Given(h)))
    requires Import(env, s, h).2.Some?
    ensures var after, b := Exec(env, s, item), Import(env, s, h).2;
            && (Check(s.displays, k) == NONE <==>
                  exists key: Key :: Check(after.displays, key) == NONE && At(after.displays, key) == b)
            && b.value !in after.freed
  {
    hide Exec;
    var after, b := Exec(env, s, item), Import(env, s, h).2;
    ExecLedger(env, s, item);
    var owner' := ArrivedConserves(env, s, item, leaked, owner);
    if Check(s.displays, k) == NONE {
      StoreIsMapUpdate(s.displays, k, b, k);
    }
  }

  /** Over any run from a client without displays: an owner map shows that every buffer imported so
      far is in one slot, or freed once, or leaked by a command that addressed no slot. */
  lemma {:induction false} RunConserves(env: Env, s: State, events: seq<Event>) returns (owner: map<Buffer, Key>)
    requires s.displays == map[] && s.imported == 0 && s.freed == []
    ensures Conserved(Run(env, s, events), AllLeaked(env, s, events), owner)
  {
    hide Step, Leaked;
    if events == [] {
      owner := map[];
    } else {
      var n := |events| - 1;
      owner := RunConserves(env, s, events[..n]);
      owner := StepConserves(env, Run(env, s, events[..n]), events[n], AllLeaked(env, s, events[..n]), owner);
    }
  }
}
