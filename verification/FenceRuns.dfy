/** Fences over whole runs of a display: what every call of its client does to them, and that
    descriptors stay accounted for. */
module FenceRuns {
  import opened Words
  import opened Fences
  import Planner

  datatype Event =
    | Created(id: nat)
    | Destroyed(id: nat)
    | Typed(id: nat, sfType: Planner.Composition)
    | BufferSet(id: nat, arrival: Arrival)
    | TargetSet(arrival: Arrival)
    | Presented(ids: seq<nat>, useTarget: bool, allocates: bool)
    | Synced(outFence: bool, failing: set<nat>)
    | FencesTaken(visited: set<nat>)

  /** A display with its layers by the names its client has for them, the fences of the last commit,
      and the descriptors that are not the display's. */
  datatype View = View(layers: map<nat, LayerView>, client: LayerView, frame: set<int>, loose: set<int>)

  /** Every descriptor there is. */
  ghost function Fds(v: View): set<int> {
    v.loose + v.frame + One(v.client.acquire) + One(v.client.release)
    + (set id | id in v.layers && v.layers[id].acquire >= 0 :: v.layers[id].acquire)
    + Released(v, v.layers.Keys)
  }

  lemma LooseIsSeen(v: View)
    ensures v.loose <= Fds(v)
  {
  }

  /** The release fences of some layers. */
  ghost function Released(v: View, ids: set<nat>): set<int> {
    set id | id in ids && id in v.layers && v.layers[id].release >= 0 :: v.layers[id].release
  }

  /** The acquire fences of the presented layers that have a buffer. */
  ghost function Acquired(v: View, ids: seq<nat>, useTarget: bool): set<int> {
    (set id | id in ids && id in v.layers && v.layers[id].buffer.Some? && v.layers[id].acquire >= 0 ::
       v.layers[id].acquire)
    + if useTarget && v.client.buffer.Some? then One(v.client.acquire) else {}
  }

  ghost predicate AnyBuffer(v: View, ids: seq<nat>, useTarget: bool) {
    (useTarget && v.client.buffer.Some?) || exists id | id in ids :: id in v.layers && v.layers[id].buffer.Some?
  }

  /** What an event makes of a display. Fences that appear are new descriptors; `out` is the out fence
      of the commit, -1 when there is none. */
  ghost predicate Effect(v: View, e: Event, out: int, w: View) {
    && (out >= 0 <==> e.Synced? && e.outFence) && out !in Fds(v)
    && match e
       case Created(id) => w == if id in v.layers then v else v.(layers := v.layers[id := NEW_LAYER])
       case Destroyed(id) => w == v.(layers := v.layers - {id})
       case Typed(id, sfType) =>
         w == if id in v.layers then v.(layers := v.layers[id := v.layers[id].(sfType := sfType)]) else v
       case BufferSet(id, a) =>
         if id in v.layers then
           && id in w.layers && w == v.(layers := v.layers[id := w.layers[id]])
           && Taken(v.layers[id], w.layers[id], false, a, Fds(v))
         else w == v
       case TargetSet(a) => w == v.(client := w.client) && Taken(v.client, w.client, true, a, Fds(v))
       case Presented(ids, useTarget, allocates) => PresentedEffect(v, ids, useTarget, allocates, w)
       case Synced(outFence, failing) => SyncedEffect(v, outFence, failing, out, Fds(v), w)
       case FencesTaken(visited) => w == DrainedView(v, visited)
  }

  /** The presented layers give up their acquire fences. If anything is committed, those of layers with a
      buffer replace the fences of the frame before. */
  ghost predicate PresentedEffect(v: View, ids: seq<nat>, useTarget: bool, allocates: bool, w: View) {
    && w.layers == (map id | id in v.layers :: if id in ids then v.layers[id].(acquire := -1) else v.layers[id])
    && w.client == (if useTarget then v.client.(acquire := -1) else v.client)
    && w.frame == (if allocates && AnyBuffer(v, ids, useTarget) then Acquired(v, ids, useTarget) else v.frame)
    && w.loose == v.loose
  }

  /** Every layer has a copy of the out fence in place of its release fence, where it could be made. */
  ghost predicate SyncedEffect(v: View, outFence: bool, failing: set<nat>, out: int, open: set<int>, w: View) {
    && w == v.(layers := w.layers, loose := v.loose + One(out)) && w.layers.Keys == v.layers.Keys
    && forall id | id in v.layers ::
         && w.layers[id] == v.layers[id].(release := w.layers[id].release)
         && (w.layers[id].release >= 0 <==> outFence && id !in failing)
         && w.layers[id].release !in open
  }

  /** The caller has the release fences of the visited layers. */
  ghost function DrainedView(v: View, visited: set<nat>): View {
    v.(layers := map id | id in v.layers :: if id in visited then v.layers[id].(release := -1) else v.layers[id],
       loose := v.loose + Released(v, visited))
  }

  /** The views between the events of a run, and the out fences. */
  ghost predicate Trace(events: seq<Event>, views: seq<View>, outs: seq<int>) {
    && |views| == |events| + 1 && |outs| == |events|
    && forall k :: 0 <= k < |events| ==> Effect(views[k], events[k], outs[k], views[k + 1])
  }

  /** The out fences, and the release fences handed out. */
  ghost function Owed(events: seq<Event>, views: seq<View>, outs: seq<int>): set<int>
    requires Trace(events, views, outs)
  {
    if events == [] then {}
    else
      var n := |events| - 1;
      Owed(events[..n], views[..n + 1], outs[..n]) + One(outs[n])
      + if events[n].FencesTaken? then Released(views[n], events[n].visited) else {}
  }

  /** What is not the display's after a run: what was not before, and what it owes. */
  lemma {:induction false} LooseOfRun(events: seq<Event>, views: seq<View>, outs: seq<int>)
    requires Trace(events, views, outs)
    ensures views[|events|].loose == views[0].loose + Owed(events, views, outs)
  {
    if events != [] {
      var n := |events| - 1;
      LooseOfRun(events[..n], views[..n + 1], outs[..n]);
      LooseOfStep(views[n], events[n], outs[n], views[n + 1]);
    }
  }

  lemma LooseOfStep(v: View, e: Event, out: int, w: View)
    requires Effect(v, e, out, w)
    ensures w.loose == v.loose + One(out) + if e.FencesTaken? then Released(v, e.visited) else {}
  {
    hide Fds, Released, Acquired, AnyBuffer, Taken;
  }

  // ----- names -----

  ghost function ByName(layers: map<nat, LayerFences>, looks: map<LayerFences, LayerView>): map<nat, LayerView>
    requires layers.Values <= looks.Keys
  {
    assert forall id :: id in layers ==> layers[id] in layers.Values;
    map id | id in layers :: looks[layers[id]]
  }

  ghost predicate Injective(layers: map<nat, LayerFences>) {
    forall i, j :: i in layers && j in layers && layers[i] == layers[j] ==> i == j
  }

  lemma NamedUpdate(layers: map<nat, LayerFences>, looks: map<LayerFences, LayerView>, id: nat, look: LayerView)
    requires layers.Values <= looks.Keys && Injective(layers) && id in layers
    ensures layers[id] in looks && id in ByName(layers, looks) && ByName(layers, looks)[id] == looks[layers[id]]
    ensures ByName(layers, looks[layers[id] := look]) == ByName(layers, looks)[id := look]
  {
    assert layers[id] in layers.Values;
  }

  lemma NamedMore(layers: map<nat, LayerFences>, looks: map<LayerFences, LayerView>, id: nat, layer: LayerFences,
                  look: LayerView)
    requires layers.Values <= looks.Keys && id !in layers && layer !in looks
    ensures layers[id := layer].Values == layers.Values + {layer}
    ensures ByName(layers[id := layer], looks[layer := look]) == ByName(layers, looks)[id := look]
  {
    ValuesGrow(layers, id, layer);
    assert forall i :: i in layers ==> layers[i] in layers.Values;
  }

  lemma NamedLess(layers: map<nat, LayerFences>, looks: map<LayerFences, LayerView>, id: nat)
    requires layers.Values <= looks.Keys && Injective(layers) && id in layers
    ensures (layers - {id}).Values == layers.Values - {layers[id]} && Injective(layers - {id})
    ensures ByName(layers - {id}, looks - {layers[id]}) == ByName(layers, looks) - {id}
  {
    ValuesShrink(layers, id);
    assert forall i :: i in layers ==> layers[i] in layers.Values;
  }

  lemma ValuesGrow(layers: map<nat, LayerFences>, id: nat, layer: LayerFences)
    requires id !in layers
    ensures layers[id := layer].Values == layers.Values + {layer}
  {
    var more := layers[id := layer];
    assert more[id] == layer;
    assert forall i :: i in layers ==> more[i] == layers[i];
  }

  lemma ValuesShrink(layers: map<nat, LayerFences>, id: nat)
    requires id in layers && Injective(layers)
    ensures (layers - {id}).Values == layers.Values - {layers[id]}
  {
    assert forall i :: i in layers && i != id ==> (layers - {id})[i] == layers[i];
  }

  /** The layers with these ids, without the unknown ones, and the client layer if it is used. */
  function Selected(layers: map<nat, LayerFences>, client: LayerFences, ids: seq<nat>, useTarget: bool)
    : (list: seq<LayerFences>)
  {
    if ids == [] then (if useTarget then [client] else [])
    else (if ids[0] in layers then [layers[ids[0]]] else []) + Selected(layers, client, ids[1..], useTarget)
  }

  lemma {:induction false} SelectedMeans(layers: map<nat, LayerFences>, client: LayerFences, ids: seq<nat>,
                                         useTarget: bool)
    requires Injective(layers) && client !in layers.Values
    ensures var list := Selected(layers, client, ids, useTarget);
            && (forall l | l in list :: l in layers.Values || l == client)
            && (forall id | id in layers :: layers[id] in list <==> id in ids)
            && (client in list <==> useTarget)
  {
    assert forall id :: id in layers ==> layers[id] in layers.Values;
    if ids != [] {
      SelectedMeans(layers, client, ids[1..], useTarget);
    }
  }

  function Named(layers: map<nat, LayerFences>, ids: set<nat>): (named: set<LayerFences>)
    ensures named <= layers.Values
  {
    assert forall id :: id in layers ==> layers[id] in layers.Values;
    set id | id in ids && id in layers :: layers[id]
  }

  lemma NamedMeans(layers: map<nat, LayerFences>, ids: set<nat>)
    requires Injective(layers)
    ensures forall id | id in layers :: layers[id] in Named(layers, ids) <==> id in ids
  {
  }

  lemma PresentedByName(layers: map<nat, LayerFences>, was: map<LayerFences, LayerView>, client: LayerFences,
                        list: seq<LayerFences>, ids: seq<nat>, useTarget: bool, allocates: bool, v: View, w: View)
    requires Injective(layers) && was.Keys == layers.Values + {client} && client !in layers.Values
    requires (forall l | l in list :: l in layers.Values || l == client) && (client in list <==> useTarget)
    requires forall id | id in layers :: layers[id] in list <==> id in ids
    requires v.layers == ByName(layers, was) && v.client == was[client] && w.loose == v.loose
    requires w.layers == ByName(layers, Emptied(was, list)) && w.client == Emptied(was, list)[client]
    requires w.frame == if allocates && exists l | l in list :: was[l].buffer.Some? then Carried(list, was) else v.frame
    ensures PresentedEffect(v, ids, useTarget, allocates, w)
  {
    hide Carried, Acquired, AnyBuffer;
    CarriedByName(layers, was, client, list, ids, useTarget, v);
    assert forall id :: id in layers ==> layers[id] in layers.Values;
  }

  lemma CarriedByName(layers: map<nat, LayerFences>, was: map<LayerFences, LayerView>, client: LayerFences,
                      list: seq<LayerFences>, ids: seq<nat>, useTarget: bool, v: View)
    requires Injective(layers) && was.Keys == layers.Values + {client} && client !in layers.Values
    requires (forall l | l in list :: l in layers.Values || l == client) && (client in list <==> useTarget)
    requires forall id | id in layers :: layers[id] in list <==> id in ids
    requires v.layers == ByName(layers, was) && v.client == was[client]
    ensures Carried(list, was) == Acquired(v, ids, useTarget)
    ensures (exists l | l in list :: was[l].buffer.Some?) <==> AnyBuffer(v, ids, useTarget)
  {
    assert forall id :: id in layers ==> layers[id] in layers.Values;
    assert forall l | l in layers.Values :: exists id :: id in layers && layers[id] == l;
  }

  lemma SyncedByName(layers: map<nat, LayerFences>, was: map<LayerFences, LayerView>, client: LayerFences,
                     failing: set<nat>, outFence: bool, out: int, open: set<int>, v: View, w: View,
                     now: map<LayerFences, LayerView>)
    requires Injective(layers) && was.Keys == layers.Values + {client} && client !in layers.Values
    requires v.layers == ByName(layers, was) && v.client == was[client]
    requires Signalled(was, now, layers.Values, outFence, Named(layers, failing), open)
    requires w == View(ByName(layers, now), now[client], v.frame, v.loose + One(out))
    ensures SyncedEffect(v, outFence, failing, out, open, w)
  {
    NamedMeans(layers, failing);
    assert forall id :: id in layers ==> layers[id] in layers.Values;
  }

  lemma DrainedByName(layers: map<nat, LayerFences>, was: map<LayerFences, LayerView>, client: LayerFences,
                      visited: set<nat>, fences: map<LayerFences, int>, v: View)
    requires Injective(layers) && was.Keys == layers.Values + {client} && client !in layers.Values
    requires v.layers == ByName(layers, was) && v.client == was[client]
    requires fences.Keys == Named(layers, visited) && forall l | l in fences :: fences[l] == was[l].release
    ensures var now := Drained(was, Named(layers, visited));
            View(ByName(layers, now), now[client], v.frame, v.loose + Handed(fences)) == DrainedView(v, visited)
  {
    hide Handed, Released;
    NamedMeans(layers, visited);
    HandedByName(layers, was, visited, fences, v);
    assert forall id :: id in layers ==> layers[id] in layers.Values;
  }

  lemma HandedByName(layers: map<nat, LayerFences>, was: map<LayerFences, LayerView>, visited: set<nat>,
                     fences: map<LayerFences, int>, v: View)
    requires layers.Values <= was.Keys && v.layers == ByName(layers, was)
    requires fences.Keys == Named(layers, visited) && forall l | l in fences :: fences[l] == was[l].release
    ensures Handed(fences) == Released(v, visited)
  {
    assert forall id | id in visited && id in layers :: layers[id] in fences;
  }

  /** A display and mLayers, by which its client names layers. */
  class Client {
    const display: DisplayFences
    var layers: map<nat, LayerFences>

    ghost predicate Valid()
      reads this, display, display.fds, display.Owners()
    {
      display.Valid() && layers.Values == display.layers && Injective(layers)
    }

    ghost function Footprint(): set<object>
      reads this, display
    {
      {this, display, display.fds, display.client} + display.layers + display.Owners()
    }

    ghost function Seen(): View
      requires layers.Values == display.layers
      reads this, display, display.layers, display.client, display.Owners()
    {
      View(ByName(layers, display.Looks()), display.Looks()[display.client], Held(display.frame), display.loose)
    }

    constructor (display: DisplayFences)
      requires display.Valid() && display.layers == {}
      ensures Valid() && this.display == display && layers == map[]
    {
      this.display := display;
      layers := map[];
    }

    method Create(id: nat)
      requires Valid() && id !in layers
      modifies this, display
      ensures Valid() && fresh(Footprint() - old(Footprint()))
      ensures Seen() == old(Seen()).(layers := old(Seen()).layers[id := NEW_LAYER])
    {
      hide Balanced, OwnersOf, Apart, Held, DisplayFences.Looks;
      var layer := display.CreateLayer();
      NamedMore(layers, old(display.Looks()), id, layer, NEW_LAYER);
      layers := layers[id := layer];
    }

    method Destroy(id: nat)
      requires Valid() && id in layers
      modifies Footprint()
      ensures Valid() && fresh(Footprint() - old(Footprint()))
      ensures Seen() == old(Seen()).(layers := old(Seen()).layers - {id})
    {
      hide Balanced, OwnersOf, Apart, Held, DisplayFences.Looks, ByName, Injective;
      Contains(display.layers + {display.client});
      NamedLess(layers, display.Looks(), id);
      assert layers[id] in layers.Values;
      display.DestroyLayer(layers[id]);
      ghost var now, held := display.Looks(), Held(display.frame);
      layers := layers - {id};
      assert display.Looks() == now && Held(display.frame) == held;
    }

    method SetType(id: nat, sfType: Planner.Composition)
      requires Valid() && id in layers
      modifies Footprint()
      ensures Valid() && fresh(Footprint() - old(Footprint()))
      ensures var v := old(Seen());
              id in v.layers && Seen() == v.(layers := v.layers[id := v.layers[id].(sfType := sfType)])
    {
      hide Balanced, OwnersOf, Apart, Held, DisplayFences.Looks;
      assert layers[id] in layers.Values;
      NamedUpdate(layers, display.Looks(), id, old(Look(layers[id])).(sfType := sfType));
      display.LooksAt();
      display.SetType(layers[id], sfType);
    }

    method SetBuffer(id: nat, a: Arrival)
      requires Valid() && id in layers
      modifies Footprint()
      ensures Valid() && fresh(Footprint() - old(Footprint()))
      ensures var v, w := old(Seen()), Seen();
              && id in v.layers && id in w.layers && w == v.(layers := v.layers[id := w.layers[id]])
              && Taken(v.layers[id], w.layers[id], false, a, old(display.fds.open))
    {
      hide Balanced, OwnersOf, Apart, Held, DisplayFences.Looks, Taken;
      assert layers[id] in layers.Values;
      Contains(display.layers + {display.client});
      display.LooksAt();
      var _ := display.SetBuffer(layers[id], a);
      NamedUpdate(layers, old(display.Looks()), id, Look(layers[id]));
    }

    method SetTarget(a: Arrival)
      requires Valid()
      modifies Footprint()
      ensures Valid() && fresh(Footprint() - old(Footprint()))
      ensures var v, w := old(Seen()), Seen();
              w == v.(client := w.client) && Taken(v.client, w.client, true, a, old(display.fds.open))
    {
      hide Balanced, OwnersOf, Apart, Held, DisplayFences.Looks, Taken;
      Contains(display.layers + {display.client});
      display.LooksAt();
      var _ := display.SetBuffer(display.client, a);
    }

    method Present(ids: seq<nat>, useTarget: bool, allocates: bool)
      requires Valid()
      modifies Footprint()
      ensures Valid() && fresh(Footprint() - old(Footprint()))
      ensures PresentedEffect(old(Seen()), ids, useTarget, allocates, Seen())
    {
      hide Balanced, OwnersOf, Apart, Held, DisplayFences.Looks, PresentedEffect, Carried, Emptied;
      ghost var v, was := Seen(), display.Looks();
      SelectedMeans(layers, display.client, ids, useTarget);
      var list := Selected(layers, display.client, ids, useTarget);
      display.LooksAt();
      display.Present(list, allocates);
      PresentedByName(layers, was, display.client, list, ids, useTarget, allocates, v, Seen());
    }

    /** The out fence of a commit and a copy of it for every layer. */
    method Sync(outFence: bool, failing: set<nat>) returns (out: int)
      requires Valid()
      modifies Footprint()
      ensures Valid() && fresh(Footprint() - old(Footprint()))
      ensures (out >= 0 <==> outFence) && out !in old(display.fds.open)
      ensures SyncedEffect(old(Seen()), outFence, failing, out, old(display.fds.open), Seen())
    {
      hide Balanced, OwnersOf, Apart, Held, DisplayFences.Looks, SyncedEffect, Signalled;
      ghost var v, was, open := Seen(), display.Looks(), display.fds.open;
      LooseAreOpen(display.fds, display.Owners(), display.loose);
      out := -1;
      if outFence { out := display.OutFence(); }
      ghost var later := display.fds.open;
      display.SyncFence(out, Named(layers, failing));
      SignalledSince(was, display.Looks(), display.layers, outFence, Named(layers, failing), open, later);
      SyncedByName(layers, was, display.client, failing, outFence, out, open, v, Seen(), display.Looks());
    }

    method TakeFences(visited: set<nat>)
      requires Valid()
      modifies Footprint()
      ensures Valid() && fresh(Footprint() - old(Footprint()))
      ensures Seen() == old(DrainedView(Seen(), visited))
    {
      hide Balanced, OwnersOf, Apart, Held, DisplayFences.Looks, DrainedView, Drained, Handed;
      ghost var v, was := Seen(), display.Looks();
      var fences := display.TakeReleaseFences(Named(layers, visited));
      DrainedByName(layers, was, display.client, visited, fences, v);
    }

    lemma SeenLoose()
      requires layers.Values == display.layers
      ensures Seen().loose == display.loose
    {
    }

    /** The descriptors of a display are the open ones. */
    lemma SeenIsOpen()
      requires Valid()
      ensures Fds(Seen()) == display.fds.open
    {
      hide Fds, Seen, Apart, OwnersOf;
      SeenLoose();
      LooseIsSeen(Seen());
      forall d | d in Fds(Seen()) ensures d in display.fds.open {
        SeenIsOwned(d);
      }
      forall d | d in display.fds.open && d !in display.loose ensures d in Fds(Seen()) {
        var u :| u in display.Owners() && u.fd == d;
        OwnedIsSeen(u);
      }
    }

    lemma SeenIsOwned(d: int)
      requires Valid() && d in Fds(Seen())
      ensures d in display.fds.open
    {
      hide Apart, Balanced, OwnersOf, Injective;
      OwnedAreOpen(display.fds, display.Owners(), display.loose);
      Contains(display.layers + {display.client});
      assert forall id :: id in layers ==> layers[id] in layers.Values;
    }

    lemma OwnedIsSeen(u: UniqueFd)
      requires Valid() && u in display.Owners() && u.fd >= 0
      ensures u.fd in Fds(Seen())
    {
      hide Apart, Balanced, Injective;
      if u !in display.frame {
        var l :| l in display.layers + {display.client} && (l.acquire == u || l.release == u);
        if l != display.client {
          var id :| id in layers && layers[id] == l;
          assert Seen().layers[id] == Look(l);
        }
      }
    }

    method Handle(e: Event) returns (out: int)
      requires Valid()
      modifies Footprint()
      ensures Valid() && fresh(Footprint() - old(Footprint()))
      ensures Effect(old(Seen()), e, out, Seen())
    {
      hide Balanced, OwnersOf, Apart, Held, DisplayFences.Looks, Fds, Taken, PresentedEffect, SyncedEffect, DrainedView;
      SeenIsOpen();
      LooseAreOpen(display.fds, display.Owners(), display.loose);
      out := -1;
      match e
      case Created(id) =>
        if id !in layers { Create(id); }
      case Destroyed(id) =>
        if id in layers { Destroy(id); }
      case Typed(id, sfType) =>
        if id in layers { SetType(id, sfType); }
      case BufferSet(id, a) =>
        if id in layers { SetBuffer(id, a); }
      case TargetSet(a) => SetTarget(a);
      case Presented(ids, useTarget, allocates) => Present(ids, useTarget, allocates);
      case Synced(outFence, failing) => out := Sync(outFence, failing);
      case FencesTaken(visited) => TakeFences(visited);
    }

    /** Over any run every event has its effect; afterwards each descriptor ever made is exactly one of:
        loose, with one owner, or closed, and nothing was closed twice. */
    method Run(events: seq<Event>) returns (ghost views: seq<View>, outs: seq<int>)
      requires Valid()
      modifies Footprint()
      ensures Valid() && Trace(events, views, outs) && views[0] == old(Seen()) && views[|events|] == Seen()
      ensures display.loose == old(display.loose) + Owed(events, views, outs)
      ensures display.fds.open == Fds(Seen()) && forall d :: Accounted(display, d)
    {
      hide Balanced, OwnersOf, Apart, Accounted, Seen, Fds, Effect;
      SeenLoose();
      views, outs := [Seen()], [];
      for k := 0 to |events|
        invariant Valid() && fresh(Footprint() - old(Footprint()))
        invariant Trace(events[..k], views, outs) && views[0] == old(Seen()) && views[k] == Seen()
      {
        var out := Handle(events[k]);
        assert events[..k + 1] == events[..k] + [events[k]];
        views, outs := views + [Seen()], outs + [out];
      }
      assert events[..|events|] == events;
      LooseOfRun(events, views, outs);
      SeenLoose();
      SeenIsOpen();
      AllAccounted(display);
    }
  }

  lemma AllAccounted(d: DisplayFences)
    requires d.Valid()
    ensures forall fence :: Accounted(d, fence)
  {
    hide Balanced, OwnersOf, Apart, Accounted;
    forall fence ensures Accounted(d, fence) {
      FencesConserved(d, fence);
    }
  }
}
