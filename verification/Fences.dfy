/** Fence descriptors: UniqueFd, the fences of a layer, and the commands that hand them over. */
module Fences {
  import opened Words
  import Planner

  /** The process' descriptors. A descriptor is an identity: numbers are not reused here. */
  class Descriptors {
    var open: set<int>
    var next: nat
    var closed: seq<int>   // in the order they were closed

    constructor ()
      ensures Valid() && open == {}
    {
      open, next, closed := {}, 0, [];
    }

    /** Every descriptor ever made is open or was closed, once. */
    ghost predicate Valid()
      reads this
    {
      && (forall d :: 0 <= d < next <==> d in open || d in closed)
      && (forall d :: d in open ==> d !in closed)
      && (forall i, j :: 0 <= i < j < |closed| ==> closed[i] != closed[j])
    }

    /** dup() */
    method Dup(fd: int, works: bool, ghost owners: set<UniqueFd>, ghost loose: set<int>) returns (copy: int)
      requires Balanced(this, owners, loose)
      modifies this
      ensures copy >= 0 <==> fd in old(open) && works
      ensures copy < 0 ==> copy == -1
      ensures copy >= 0 ==> copy >= old(next)
      ensures copy !in old(open) && open == old(open) + One(copy) && closed == old(closed) && next >= old(next)
      ensures Balanced(this, owners, loose + One(copy))
    {
      if fd !in open || !works {
        return -1;
      }
      copy := next;
      open, next := open + {next}, next + 1;
    }

    /** A descriptor the kernel makes, such as the out fence of a commit. */
    method Open(ghost owners: set<UniqueFd>, ghost loose: set<int>) returns (fd: int)
      requires Balanced(this, owners, loose)
      modifies this
      ensures fd >= 0 && fd !in old(open) && open == old(open) + {fd} && closed == old(closed) && next >= old(next)
      ensures Balanced(this, owners, loose + {fd})
    {
      fd := next;
      open, next := open + {next}, next + 1;
    }

    /** close(), of nothing or of a descriptor that is open: never of one already closed. */
    method Close(fd: int, ghost owners: set<UniqueFd>, ghost loose: set<int>)
      requires Balanced(this, owners, loose) && (fd >= 0 ==> fd in loose)
      modifies this
      ensures Balanced(this, owners, loose - One(fd))
      ensures open == old(open) - One(fd) && next == old(next)
      ensures closed == old(closed) + if fd >= 0 then [fd] else []
    {
      if fd >= 0 {
        open, closed := open - {fd}, closed + [fd];
      }
    }
  }

  /** No descriptor at all is -1. */
  function One(fd: int): set<int> {
    if fd >= 0 then {fd} else {}
  }

  /** Each open descriptor is loose or has one owner, never both, and each owner's is open. */
  ghost predicate Balanced(fds: Descriptors, owners: set<UniqueFd>, loose: set<int>)
    reads fds, owners
  {
    && fds.Valid()
    && (forall u | u in owners :: u.fds == fds && (u.fd >= 0 ==> u.fd in fds.open && u.fd !in loose))
    && (forall u, v | u in owners && v in owners :: u.fd == v.fd && u.fd >= 0 ==> u == v)
    && loose <= fds.open
    && (forall d :: d in fds.open ==> d in loose || exists u | u in owners :: u.fd == d)
  }

  lemma OwnedIsOpen(fds: Descriptors, owners: set<UniqueFd>, loose: set<int>, u: UniqueFd)
    requires Balanced(fds, owners, loose) && u in owners
    ensures u.fd >= 0 ==> u.fd in fds.open && u.fd !in loose
    ensures forall d :: d in fds.open ==> d >= 0
  {
  }

  lemma OwnedAreOpen(fds: Descriptors, owners: set<UniqueFd>, loose: set<int>)
    requires Balanced(fds, owners, loose)
    ensures loose <= fds.open && forall u | u in owners :: u.fd >= 0 ==> u.fd in fds.open
  {
  }

  lemma LooseAreOpen(fds: Descriptors, owners: set<UniqueFd>, loose: set<int>)
    requires Balanced(fds, owners, loose)
    ensures loose <= fds.open && forall d :: d in fds.open ==> 0 <= d < fds.next
  {
  }

  class UniqueFd {
    const fds: Descriptors
    var fd: int

    constructor (fds: Descriptors, fd: int, ghost owners: set<UniqueFd>, ghost loose: set<int>)
      requires Balanced(fds, owners, loose) && (fd >= 0 ==> fd in loose)
      ensures this.fds == fds && this.fd == fd && this !in owners
      ensures Balanced(fds, owners + {this}, loose - One(fd))
    {
      this.fds, this.fd := fds, fd;
      new;
      assert forall d :: d in fds.open ==> d in loose || exists u | u in owners :: u.fd == d && u in owners + {this};
      assert this in owners + {this};
    }

    method Release(ghost owners: set<UniqueFd>, ghost loose: set<int>) returns (oldFd: int)
      requires Balanced(fds, owners, loose) && this in owners
      modifies this
      ensures oldFd == old(fd) && fd == -1
      ensures Balanced(fds, owners, loose + One(oldFd))
    {
      oldFd := fd;
      fd := -1;
    }

    method Set(fd: int, ghost owners: set<UniqueFd>, ghost loose: set<int>)
      requires Balanced(fds, owners, loose) && this in owners && (fd >= 0 ==> fd in loose)
      modifies this, fds
      ensures this.fd == fd && Balanced(fds, owners, loose - One(fd))
      ensures fds.open == old(fds.open) - old(One(this.fd)) && fds.next == old(fds.next)
      ensures fds.closed == old(fds.closed) + if old(this.fd) >= 0 then [old(this.fd)] else []
    {
      hide Balanced;
      OwnedIsOpen(fds, owners, loose, this);
      var was := Release(owners, loose);
      fds.Close(was, owners, loose + One(was));
      assert loose + One(was) - One(was) == loose;
      Adopt(fd, owners, loose);
    }

    method Adopt(fd: int, ghost owners: set<UniqueFd>, ghost loose: set<int>)
      requires Balanced(fds, owners, loose) && this in owners && this.fd == -1 && (fd >= 0 ==> fd in loose)
      modifies this
      ensures this.fd == fd && Balanced(fds, owners, loose - One(fd))
    {
      this.fd := fd;
      assert forall d :: d in fds.open && d in loose && d != fd ==> d in loose - One(fd);
    }

    /** The move constructor. */
    constructor Move(rhs: UniqueFd, ghost owners: set<UniqueFd>, ghost loose: set<int>)
      requires Balanced(rhs.fds, owners, loose) && rhs in owners
      modifies rhs
      ensures fds == rhs.fds && fd == old(rhs.fd) && rhs.fd == -1 && this !in owners
      ensures Balanced(fds, owners + {this}, loose)
    {
      fds, fd := rhs.fds, rhs.fd;
      new;
      rhs.fd := -1;
      assert forall u | u in owners :: u in owners + {this};
      assert this in owners + {this};
    }

    /** Move assignment closes what was held; moving to itself changes nothing. */
    method Assign(rhs: UniqueFd, ghost owners: set<UniqueFd>, ghost loose: set<int>)
      requires Balanced(fds, owners, loose) && this in owners && rhs in owners && rhs.fds == fds
      modifies this, rhs, fds
      ensures Balanced(fds, owners, loose)
      ensures fd == old(rhs.fd) && (rhs != this ==> rhs.fd == -1)
      ensures fds.open == old(fds.open) - if rhs != this then old(One(fd)) else {}
    {
      hide Balanced;
      OwnedIsOpen(fds, owners, loose, rhs);
      var was := rhs.Release(owners, loose);
      Set(was, owners, loose + One(was));
      assert loose + One(was) - One(was) == loose;
    }

    method Destroy(ghost owners: set<UniqueFd>, ghost loose: set<int>)
      requires Balanced(fds, owners, loose) && this in owners
      modifies this, fds
      ensures Balanced(fds, owners - {this}, loose)
      ensures fds.open == old(fds.open) - One(old(fd)) && fds.next == old(fds.next)
    {
      var was := Release(owners, loose);
      fds.Close(was, owners, loose + One(was));
    }
  }

  /** A layer as its client knows it; -1 is no fence. */
  datatype LayerView = LayerView(sfType: Planner.Composition, buffer: Option<nat>, acquire: int, release: int)

  const NEW_LAYER := LayerView(Planner.Invalid, None, -1, -1)

  ghost function Look(l: LayerFences): LayerView
    reads l, l.acquire, l.release
  {
    LayerView(l.sfType, l.handle, l.acquire.fd, l.release.fd)
  }

  /** The part of HwcLayer that owns fences, and what decides about them. */
  class LayerFences {
    const fds: Descriptors
    const acquire: UniqueFd
    const release: UniqueFd
    var handle: Option<nat>
    var sfType: Planner.Composition

    constructor (fds: Descriptors, ghost owners: set<UniqueFd>, ghost loose: set<int>)
      requires Balanced(fds, owners, loose)
      ensures this.fds == fds && Look(this) == NEW_LAYER
      ensures fresh(acquire) && fresh(release) && acquire != release && acquire.fds == release.fds == fds
      ensures acquire !in owners && release !in owners
      ensures Balanced(fds, owners + {acquire, release}, loose)
    {
      this.fds := fds;
      handle, sfType := None, Planner.Invalid;
      var a := new UniqueFd(fds, -1, owners, loose);
      var r := new UniqueFd(fds, -1, owners + {a}, loose);
      assert owners + {a} + {r} == owners + {a, r};
      acquire, release := a, r;
    }

    ghost predicate Mine(owners: set<UniqueFd>) {
      acquire in owners && release in owners && acquire.fds == fds && release.fds == fds && acquire != release
    }

    method SetBuffer(buffer: Option<nat>, ghost owners: set<UniqueFd>, ghost loose: set<int>)
      requires Balanced(fds, owners, loose)
      modifies this`handle
      ensures handle == buffer && Balanced(fds, owners, loose)
    {
      handle := buffer;
    }

    method SetCompositionType(sfType: Planner.Composition, ghost owners: set<UniqueFd>, ghost loose: set<int>)
      requires Balanced(fds, owners, loose)
      modifies this`sfType
      ensures this.sfType == sfType && Balanced(fds, owners, loose)
    {
      this.sfType := sfType;
    }

    /** Takes a copy of the fence, and closes the one it had. */
    method SetAcquireFence(fence: int, works: bool, ghost owners: set<UniqueFd>, ghost loose: set<int>)
      requires Balanced(fds, owners, loose) && Mine(owners)
      modifies acquire, fds
      ensures Balanced(fds, owners, loose)
      ensures acquire.fd >= 0 <==> fence in old(fds.open) && works
      ensures acquire.fd >= 0 ==> acquire.fd >= old(fds.next)
      ensures fds.closed == old(fds.closed) + if old(acquire.fd) >= 0 then [old(acquire.fd)] else []
    {
      var copy := fds.Dup(fence, works, owners, loose);
      acquire.Set(copy, owners, loose + One(copy));
      assert loose + One(copy) - One(copy) == loose;
    }

    method SetReleaseFence(fence: int, works: bool, ghost owners: set<UniqueFd>, ghost loose: set<int>)
      requires Balanced(fds, owners, loose) && Mine(owners)
      modifies release, fds
      ensures Balanced(fds, owners, loose) && fds.next >= old(fds.next)
      ensures release.fd >= 0 <==> fence in old(fds.open) && works
      ensures release.fd >= 0 ==> release.fd >= old(fds.next)
    {
      var copy := fds.Dup(fence, works, owners, loose);
      release.Set(copy, owners, loose + One(copy));
      assert loose + One(copy) - One(copy) == loose;
    }

    /** Hands the release fence out: the caller has it from now on. */
    method TakeReleaseFence(ghost owners: set<UniqueFd>, ghost loose: set<int>) returns (fence: int)
      requires Balanced(fds, owners, loose) && Mine(owners)
      modifies release
      ensures fence == old(release.fd) && release.fd == -1
      ensures Balanced(fds, owners, loose + One(fence))
    {
      fence := release.Release(owners, loose);
    }

    /** Consumes the fence, whatever the composition type is. */
    method SetLayerBuffer(buffer: Option<nat>, fence: int, works: bool, ghost owners: set<UniqueFd>,
                          ghost loose: set<int>)
      returns (error: Error)
      requires Balanced(fds, owners, loose) && Mine(owners) && (fence >= 0 ==> fence in loose)
      modifies this, acquire, fds
      ensures error == NONE && Balanced(fds, owners, loose - One(fence)) && sfType == old(sfType)
      ensures if sfType.Client? || sfType.Sideband? || sfType.SolidColor?
              then handle == old(handle) && acquire.fd == old(acquire.fd)
              else handle == buffer && (acquire.fd >= 0 <==> fence >= 0 && works)
                   && (acquire.fd >= 0 ==> acquire.fd >= old(fds.next))
      ensures fence >= 0 ==> fence !in fds.open
    {
      hide Balanced;
      var af := new UniqueFd(fds, fence, owners, loose);
      if !(sfType.Client? || sfType.Sideband? || sfType.SolidColor?) {
        SetBuffer(buffer, owners + {af}, loose - One(fence));
        OwnedIsOpen(fds, owners + {af}, loose - One(fence), af);
        SetAcquireFence(af.fd, works, owners + {af}, loose - One(fence));
      }
      af.Destroy(owners + {af}, loose - One(fence));
      assert owners + {af} - {af} == owners;
      error := NONE;
    }

    /** HwcDisplay::setClientTarget on the client layer: takes the buffer whatever the type. */
    method SetClientTarget(target: Option<nat>, fence: int, works: bool, ghost owners: set<UniqueFd>,
                           ghost loose: set<int>)
      returns (error: Error)
      requires Balanced(fds, owners, loose) && Mine(owners) && (fence >= 0 ==> fence in loose)
      modifies this, acquire, fds
      ensures error == NONE && Balanced(fds, owners, loose - One(fence)) && sfType == old(sfType)
      ensures handle == target && (acquire.fd >= 0 <==> fence >= 0 && works)
      ensures acquire.fd >= 0 ==> acquire.fd >= old(fds.next)
      ensures fence >= 0 ==> fence !in fds.open
    {
      hide Balanced;
      var af := new UniqueFd(fds, fence, owners, loose);
      SetBuffer(target, owners + {af}, loose - One(fence));
      OwnedIsOpen(fds, owners + {af}, loose - One(fence), af);
      SetAcquireFence(af.fd, works, owners + {af}, loose - One(fence));
      af.Destroy(owners + {af}, loose - One(fence));
      assert owners + {af} - {af} == owners;
      error := NONE;
    }

    /** Moves the acquire fence into the layer to commit. */
    method PopulateDrmLayer(drmFence: UniqueFd, ghost owners: set<UniqueFd>, ghost loose: set<int>)
      requires Balanced(fds, owners, loose) && Mine(owners)
      requires drmFence in owners && drmFence != acquire && drmFence.fds == fds
      modifies acquire, drmFence, fds
      ensures Balanced(fds, owners, loose)
      ensures acquire.fd == -1 && drmFence.fd == old(acquire.fd)
    {
      var fence := acquire.Release(owners, loose);
      drmFence.Set(fence, owners, loose + One(fence));
      assert loose + One(fence) - One(fence) == loose;
    }
  }

  /** What a buffer command brings, and how its steps go. */
  datatype Arrival = Arrival(
    buffer: Option<nat>, fence: Option<seq<int>>, dupWorks: bool, keepWorks: bool, lookup: Error, update: Error)

  /** The fence in the stream can be copied: its handle holds one descriptor, which is open. */
  predicate Readable(fence: Option<seq<int>>, open: set<int>) {
    fence.Some? && |fence.value| == 1 && fence.value[0] in open
  }

  /** What a buffer command makes of its layer. A layer that uses buffers gets the buffer and, in place
      of the acquire fence it had, a new copy of the one in the stream. */
  predicate Taken(before: LayerView, after: LayerView, isTarget: bool, a: Arrival, open: set<int>) {
    if a.lookup == NONE && (isTarget || before.sfType !in {Planner.Client, Planner.Sideband, Planner.SolidColor}) then
      && after == before.(buffer := a.buffer, acquire := after.acquire)
      && (after.acquire >= 0 <==> Readable(a.fence, open) && a.dupWorks && a.keepWorks)
      && after.acquire !in open
    else
      after == before
  }

  /** readFence: what the handle in the stream holds, copied. None stands for no handle at all; a
      handle with another number of descriptors than one gives no fence. */
  method ReadFence(fds: Descriptors, handle: Option<seq<int>>, works: bool, ghost owners: set<UniqueFd>,
                   ghost loose: set<int>)
    returns (fence: int)
    requires Balanced(fds, owners, loose)
    modifies fds
    ensures fence >= 0 <==> Readable(handle, old(fds.open)) && works
    ensures fence < 0 ==> fence == -1
    ensures fence !in old(fds.open) && fds.open == old(fds.open) + One(fence) && fds.next >= old(fds.next)
    ensures Balanced(fds, owners, loose + One(fence))
  {
    if handle.None? || |handle.value| == 0 {
      return -1;
    }
    if |handle.value| != 1 {
      return -1;
    }
    fence := fds.Dup(handle.value[0], works, owners, loose);
  }

  /** SET_LAYER_BUFFER and SET_CLIENT_TARGET: the fence they read ends up with the layer or closed, on
      every path. The client target is the buffer of a layer of its own. */
  method ParseSetBuffer(layer: LayerFences, clientTarget: bool, a: Arrival,
                        ghost owners: set<UniqueFd>, ghost loose: set<int>)
    returns (error: Error)
    requires Balanced(layer.fds, owners, loose) && layer.Mine(owners)
    modifies layer, layer.acquire, layer.fds
    ensures Balanced(layer.fds, owners, loose)
    ensures error == if a.lookup == NONE then a.update else a.lookup
    ensures Taken(old(Look(layer)), Look(layer), clientTarget, a, old(layer.fds.open))
  {
    hide Balanced;
    LooseAreOpen(layer.fds, owners, loose);
    var fence := ReadFence(layer.fds, a.fence, a.dupWorks, owners, loose);
    var closeFence := true;
    error := a.lookup;
    if error == NONE {
      if clientTarget {
        error := layer.SetClientTarget(a.buffer, fence, a.keepWorks, owners, loose + One(fence));
      } else {
        error := layer.SetLayerBuffer(a.buffer, fence, a.keepWorks, owners, loose + One(fence));
      }
      if error == NONE {
        closeFence := false;
        error := a.update;
      }
    }
    if closeFence {
      layer.fds.Close(fence, owners, loose + One(fence));
    }
    assert loose + One(fence) - One(fence) == loose;
  }

  /** The fence owners of one display: its client layer, its layers, and the layers it last committed. */
  class DisplayFences {
    const fds: Descriptors
    const client: LayerFences
    var layers: set<LayerFences>
    var frame: set<UniqueFd>
    ghost var loose: set<int>   // what is not the display's: the stream's descriptors, and fences handed out

    /** Every UniqueFd the display holds. */
    ghost function Owners(): set<UniqueFd>
      reads this
    {
      OwnersOf(layers + {client}) + frame
    }

    /** What is known of each layer. */
    ghost function Looks(): (looks: map<LayerFences, LayerView>)
      reads this, layers, client, OwnersOf(layers + {client})
      ensures looks.Keys == layers + {client}
    {
      Contains(layers + {client});
      map l | l in layers + {client} :: Look(l)
    }

    /** No two of them are the same. */
    ghost predicate Shape()
      reads this
    {
      client !in layers && Apart(fds, layers + {client}, frame)
    }

    /** Each open descriptor is loose or owned by exactly one UniqueFd of the display. */
    ghost predicate Valid()
      reads this, fds, Owners()
    {
      Shape() && Balanced(fds, Owners(), loose)
    }

    constructor (fds: Descriptors)
      requires Balanced(fds, {}, fds.open)
      ensures Valid() && this.fds == fds && layers == {} && frame == {} && loose == fds.open
      ensures Looks() == map[client := NEW_LAYER]
      ensures fresh(client) && fresh(Owners())
    {
      this.fds := fds;
      client := new LayerFences(fds, {}, fds.open);
      layers, frame, loose := {}, {}, fds.open;
      new;
      OwnersOne(client);
      assert {} + {client} == {client};
      assert {} + {client.acquire, client.release} == Owners();
    }

    method NewLayer() returns (layer: LayerFences)
      requires Valid()
      ensures fresh(layer) && fresh(layer.acquire) && fresh(layer.release) && Look(layer) == NEW_LAYER
      ensures Balanced(fds, Owners() + {layer.acquire, layer.release}, loose)
      ensures layer !in layers + {client} && Apart(fds, layers + {client} + {layer}, frame)
      ensures OwnersOf(layers + {client} + {layer}) == OwnersOf(layers + {client}) + {layer.acquire, layer.release}
    {
      hide Balanced, OwnersOf, Apart;
      layer := new LayerFences(fds, Owners(), loose);
      ApartGrows(fds, layers + {client}, frame, layer);
      OwnersGrow(layers + {client}, layer);
    }

    method CreateLayer() returns (layer: LayerFences)
      requires Valid()
      modifies this
      ensures Valid() && fresh(layer) && layers == old(layers) + {layer} && frame == old(frame) && loose == old(loose)
      ensures Looks() == old(Looks())[layer := NEW_LAYER]
      ensures fresh(Owners() - old(Owners()))
    {
      hide Balanced, OwnersOf, Apart;
      layer := NewLayer();
      AddLayer(layer);
    }

    method AddLayer(layer: LayerFences)
      requires client !in layers && layer !in layers + {client} && Apart(fds, layers + {client} + {layer}, frame)
      requires OwnersOf(layers + {client} + {layer}) == OwnersOf(layers + {client}) + {layer.acquire, layer.release}
      requires Balanced(fds, Owners() + {layer.acquire, layer.release}, loose)
      modifies this`layers
      ensures Valid() && layers == old(layers) + {layer} && Owners() == old(Owners()) + {layer.acquire, layer.release}
    {
      hide Balanced, OwnersOf, Apart;
      assert layers + {client} + {layer} == layers + {layer} + {client};
      ghost var before := Owners();
      layers := layers + {layer};
      assert Owners() == before + {layer.acquire, layer.release};
    }

    /** Closes what the layer still has. */
    method DestroyLayer(layer: LayerFences)
      requires Valid() && layer in layers
      modifies this, layer.acquire, layer.release, fds
      ensures Valid() && layers == old(layers) - {layer} && frame == old(frame) && loose == old(loose)
      ensures Owners() == old(Owners()) - {layer.acquire, layer.release}
      ensures fds.open == old(fds.open - One(layer.acquire.fd) - One(layer.release.fd))
      ensures Looks() == old(Looks()) - {layer} && Held(frame) == old(Held(frame))
    {
      hide Balanced, OwnersOf, Looks, Held;
      ghost var before := Owners();
      OwnersShrink(layers + {client}, layer);
      CloseFences(layer);
      layers := layers - {layer};
      assert layers + {client} == old(layers) + {client} - {layer};
      assert Owners() == before - {layer.release} - {layer.acquire};
      LookRemoved(layer);
      HeldSame();
    }

    method CloseFences(layer: LayerFences)
      requires Valid() && layer in layers
      modifies layer.acquire, layer.release, fds
      ensures Balanced(fds, Owners() - {layer.release} - {layer.acquire}, loose)
      ensures fds.open == old(fds.open - One(layer.acquire.fd) - One(layer.release.fd))
      ensures forall l | l in layers + {client} && l != layer :: Look(l) == old(Look(l))
      ensures forall u | u in frame :: u.fd == old(u.fd)
    {
      hide Balanced, OwnersOf, Apart;
      Contains(layers + {client});
      FrameApart(fds, layers + {client}, frame);
      OneAmong(fds, layers + {client}, frame, layer);
      layer.release.Destroy(Owners(), loose);
      layer.acquire.Destroy(Owners() - {layer.release}, loose);
    }

    twostate lemma LookRemoved(layer: LayerFences)
      requires layers == old(layers) - {layer} && layer != client
      requires forall l | l in layers + {client} :: Look(l) == old(Look(l))
      ensures Looks() == old(Looks()) - {layer}
    {
    }

    twostate lemma HeldSame()
      requires frame == old(frame) && forall u | u in frame :: u.fd == old(u.fd)
      ensures Held(frame) == old(Held(frame))
    {
    }

    /** SET_LAYER_BUFFER on a layer of the display, SET_CLIENT_TARGET on its client layer. */
    method SetBuffer(layer: LayerFences, a: Arrival) returns (error: Error)
      requires Valid() && layer in layers + {client}
      modifies layer, layer.acquire, fds
      ensures Valid() && Owners() == old(Owners())
      ensures error == if a.lookup == NONE then a.update else a.lookup
      ensures Taken(old(Look(layer)), Look(layer), layer == client, a, old(fds.open))
      ensures Looks() == old(Looks())[layer := Look(layer)] && Held(frame) == old(Held(frame))
    {
      hide Balanced, OwnersOf, Apart, Taken;
      Contains(layers + {client});
      OneAmong(fds, layers + {client}, frame, layer);
      FrameApart(fds, layers + {client}, frame);
      error := ParseSetBuffer(layer, layer == client, a, Owners(), loose);
    }

    method SetType(layer: LayerFences, sfType: Planner.Composition)
      requires Valid() && layer in layers
      modifies layer`sfType
      ensures Valid() && Owners() == old(Owners())
      ensures Looks() == old(Looks())[layer := old(Look(layer)).(sfType := sfType)] && Held(frame) == old(Held(frame))
    {
      hide Balanced, OwnersOf, Apart;
      Contains(layers + {client});
      OneAmong(fds, layers + {client}, frame, layer);
      layer.SetCompositionType(sfType, Owners(), loose);
    }

    /** The commit's out fence, which the display keeps as a plain number. */
    method OutFence() returns (fence: int)
      requires Valid()
      modifies this`loose, fds
      ensures Valid() && Owners() == old(Owners()) && loose == old(loose) + {fence}
      ensures fence >= 0 && fence !in old(fds.open) && fds.open == old(fds.open) + {fence} && fds.next >= old(fds.next)
      ensures Looks() == old(Looks()) && Held(frame) == old(Held(frame))
    {
      hide OwnersOf, Balanced, Apart;
      Contains(layers + {client});
      fence := fds.Open(Owners(), loose);
      Owe(loose + {fence});
    }

    ghost method Owe(loose: set<int>)
      requires Shape() && Balanced(fds, Owners(), loose)
      modifies this`loose
      ensures Valid() && this.loose == loose && Owners() == old(Owners())
    {
      this.loose := loose;
    }

    /** syncFence: every layer gets a copy of the frame's fence, where it can be made. */
    method SyncFence(fence: int, failing: set<LayerFences>)
      requires Valid() && (fence >= 0 ==> fence in loose)
      modifies Owners(), fds
      ensures Valid() && Owners() == old(Owners()) && Held(frame) == old(Held(frame))
      ensures Signalled(old(Looks()), Looks(), layers, fence >= 0, failing, old(fds.open))
    {
      hide OwnersOf, Balanced, Apart, Looks, Held, Signalled;
      Contains(layers + {client});
      LooseAreOpen(fds, Owners(), loose);
      ghost var was, open, next := Looks(), fds.open, fds.next;
      assert forall d :: d in open ==> 0 <= d < next;
      NoneSignalled(was, fence >= 0, failing, open);
      var rest := layers;
      assert layers - rest == {};
      while rest != {}
        invariant rest <= layers && Balanced(fds, Owners(), loose) && fds.next >= next
        invariant Held(frame) == old(Held(frame))
        invariant Signalled(was, Looks(), layers - rest, fence >= 0, failing, open)
        decreases rest
      {
        var layer :| layer in rest;
        ghost var now := Looks();
        SetReleaseFence(layer, fence, layer !in failing);
        SignalledMore(was, now, layers - rest, layer, layer.release.fd, fence >= 0, failing, open);
        OneMore(layers, rest, layer);
        rest := rest - {layer};
      }
      assert layers - rest == layers;
    }

    method SetReleaseFence(layer: LayerFences, fence: int, works: bool)
      requires Valid() && layer in layers && (fence >= 0 ==> fence in loose)
      modifies layer.release, fds
      ensures Valid() && Owners() == old(Owners()) && Held(frame) == old(Held(frame)) && fds.next >= old(fds.next)
      ensures Looks() == old(Looks())[layer := old(Looks())[layer].(release := layer.release.fd)]
      ensures layer.release.fd >= 0 <==> fence >= 0 && works
      ensures layer.release.fd >= 0 ==> layer.release.fd >= old(fds.next)
    {
      hide OwnersOf, Balanced, Apart, Looks;
      Contains(layers + {client});
      OneAmong(fds, layers + {client}, frame, layer);
      FrameApart(fds, layers + {client}, frame);
      LooseAreOpen(fds, Owners(), loose);
      LooksAt();
      layer.SetReleaseFence(fence, works, Owners(), loose);
      LookChanged(layer);
    }

    /** getReleaseFences: hands the caller the release fences of the layers it visits. These are all
        layers, or the first ones when the caller's arrays are too small. */
    method TakeReleaseFences(visited: set<LayerFences>) returns (fences: map<LayerFences, int>)
      requires Valid() && visited <= layers
      modifies this`loose, Owners()
      ensures Valid() && Owners() == old(Owners()) && Held(frame) == old(Held(frame))
      ensures fences.Keys == visited && forall l | l in visited :: fences[l] == old(Looks())[l].release
      ensures Looks() == Drained(old(Looks()), visited)
      ensures loose == old(loose) + Handed(fences)
    {
      hide OwnersOf, Balanced, Handed, Apart, Held, Looks, Drained;
      Contains(layers + {client});
      ghost var was := Looks();
      fences := map[];
      HandedNone();
      NoneDrained(was);
      var rest := visited;
      assert visited - rest == {};
      while rest != {}
        invariant rest <= visited && Balanced(fds, Owners(), loose) && Held(frame) == old(Held(frame))
        invariant fences.Keys == visited - rest && forall l | l in visited - rest :: fences[l] == was[l].release
        invariant Looks() == Drained(was, visited - rest)
        invariant loose == old(loose) + Handed(fences)
        decreases rest
      {
        var layer :| layer in rest;
        DrainedMore(was, visited - rest, layer);
        OneMore(visited, rest, layer);
        var fence := TakeReleaseFence(layer);
        HandedMore(fences, layer, fence);
        fences := fences[layer := fence];
        rest := rest - {layer};
      }
      assert visited - rest == visited;
    }

    method TakeReleaseFence(layer: LayerFences) returns (fence: int)
      requires Valid() && layer in layers
      modifies this`loose, layer.release
      ensures Valid() && Owners() == old(Owners()) && Held(frame) == old(Held(frame))
      ensures fence == old(Looks())[layer].release && loose == old(loose) + One(fence)
      ensures Looks() == old(Looks())[layer := old(Looks())[layer].(release := -1)]
    {
      hide OwnersOf, Balanced, Apart, Looks;
      Contains(layers + {client});
      OneAmong(fds, layers + {client}, frame, layer);
      FrameApart(fds, layers + {client}, frame);
      LooksAt();
      fence := layer.TakeReleaseFence(Owners(), loose);
      loose := loose + One(fence);
      LookChanged(layer);
    }

    /** Destroys the layers of a composition. */
    method DestroyFrame(drop: set<UniqueFd>)
      requires Balanced(fds, Owners() + drop, loose) && Owners() !! drop
      modifies drop, fds
      ensures Balanced(fds, Owners(), loose)
    {
      var rest := drop;
      while rest != {}
        invariant rest <= drop && Balanced(fds, Owners() + rest, loose)
        decreases rest
      {
        var fence :| fence in rest;
        assert fence.fds == fds;
        fence.Destroy(Owners() + rest, loose);
        assert Owners() + rest - {fence} == Owners() + (rest - {fence});
        rest := rest - {fence};
      }
      assert Owners() + {} == Owners();
    }

    /** presentDisplay: the acquire fences of the presented layers move into the frame; those of layers
        without a buffer, and of the frame before, are closed. A frame that is empty or was never
        committed is dropped. */
    method Present(sorted: seq<LayerFences>, allocates: bool)
      requires Valid() && forall k :: 0 <= k < |sorted| ==> sorted[k] in layers + {client}
      modifies this`frame, Owners(), fds
      ensures Valid() && layers == old(layers) && loose == old(loose) && fresh(Owners() - old(Owners()))
      ensures Looks() == Emptied(old(Looks()), sorted)
      ensures if allocates && exists l | l in sorted :: l.handle.Some?
              then fresh(frame) && frame != {} && Held(frame) == Carried(sorted, old(Looks()))
              else frame == old(frame) && Held(frame) == old(Held(frame))
    {
      hide OwnersOf, Balanced, Apart, Carried, Looks, Held;
      ghost var was := Looks();
      assert forall l | l in sorted :: was[l] == Look(l) by { LooksAt(); }
      assert sorted[..|sorted|] == sorted;
      FrameApart(fds, layers + {client}, frame);
      var drm := PopulateAll(sorted);
      if drm == {} || !allocates {
        DropFrame(drm);
      } else {
        Activate(drm);
      }
    }

    twostate lemma LookChanged(layer: LayerFences)
      requires layers + {client} == old(layers + {client})
      requires forall l | l in layers + {client} && l != layer :: Look(l) == old(Look(l))
      ensures layer in layers + {client} ==> Looks() == old(Looks())[layer := Look(layer)]
      ensures Look(layer) == old(Look(layer)) ==> Looks() == old(Looks())
    {
    }

    lemma LooksAt()
      ensures forall l | l in layers + {client} :: Looks()[l] == Look(l)
    {
    }

    /** A composition that is not committed is destroyed. */
    method DropFrame(drm: set<UniqueFd>)
      requires Shape() && Owners() !! drm && Balanced(fds, Owners() + drm, loose)
      modifies drm, fds
      ensures Valid() && Held(frame) == old(Held(frame)) && Looks() == old(Looks())
    {
      hide OwnersOf, Balanced, Apart, Looks;
      Contains(layers + {client});
      DestroyFrame(drm);
      LookChanged(client);
    }

    /** The new composition becomes active, the one before is destroyed. */
    method Activate(drm: set<UniqueFd>)
      requires Shape() && Owners() !! drm && Balanced(fds, Owners() + drm, loose)
      modifies this`frame, frame, fds
      ensures Valid() && frame == drm && Held(frame) == old(Held(drm)) && Looks() == old(Looks())
    {
      hide OwnersOf, Balanced, Apart, Looks;
      Contains(layers + {client});
      FrameApart(fds, layers + {client}, frame);
      var before := frame;
      Swap(drm);
      DestroyFrame(before);
      assert Held(drm) == old(Held(drm));
      LookChanged(client);
    }

    /** The first k layers have given up their fences to the composition, `was` is what they had. */
    ghost predicate Loaded(sorted: seq<LayerFences>, k: nat, drm: set<UniqueFd>, was: map<LayerFences, LayerView>)
      requires k <= |sorted| && forall l | l in sorted :: l in was
      reads this, layers, client, drm, OwnersOf(layers + {client})
    {
      && (drm == {} <==> forall l | l in sorted[..k] :: was[l].buffer.None?)
      && Held(drm) == Carried(sorted[..k], was)
      && Looks() == Emptied(was, sorted[..k])
    }

    method PopulateAll(sorted: seq<LayerFences>) returns (drm: set<UniqueFd>)
      requires Valid() && forall k :: 0 <= k < |sorted| ==> sorted[k] in layers + {client}
      modifies OwnersOf(layers + {client}), fds
      ensures fresh(drm) && Owners() !! drm && Balanced(fds, Owners() + drm, loose)
      ensures Loaded(sorted, |sorted|, drm, old(Looks())) && Held(frame) == old(Held(frame))
    {
      hide OwnersOf, Balanced, Carried, Apart, Loaded, Held, Looks;
      Contains(layers + {client});
      drm := {};
      ghost var was := Looks();
      NothingLoaded(this, sorted);
      assert Owners() + drm == Owners();
      for k := 0 to |sorted|
        invariant fresh(drm) && Owners() !! drm && Balanced(fds, Owners() + drm, loose)
        invariant Loaded(sorted, k, drm, was) && Held(frame) == old(Held(frame))
      {
        drm := PopulateNext(sorted, k, drm, was);
      }
    }

    method PopulateNext(sorted: seq<LayerFences>, k: nat, drm: set<UniqueFd>, ghost was: map<LayerFences, LayerView>)
      returns (more: set<UniqueFd>)
      requires Shape() && Owners() !! drm && Balanced(fds, Owners() + drm, loose)
      requires k < |sorted| && (forall l | l in sorted :: l in was) && was.Keys == layers + {client}
      requires Loaded(sorted, k, drm, was)
      modifies sorted[k].acquire, fds
      ensures fresh(more - drm) && Owners() !! more && Balanced(fds, Owners() + more, loose)
      ensures Loaded(sorted, k + 1, more, was) && Held(frame) == old(Held(frame))
    {
      hide OwnersOf, Balanced, Carried, Apart, Held, Looks, Emptied;
      assert sorted[..k + 1] == sorted[..k] + [sorted[k]];
      CarriedStep(sorted, k, was);
      EmptiedStep(sorted, k, was);
      more := Populate(sorted[k], drm);
    }

    /** One DrmHwcLayer: it joins the composition unless its buffer cannot be imported. */
    method Populate(layer: LayerFences, drm: set<UniqueFd>) returns (more: set<UniqueFd>)
      requires Shape() && layer in layers + {client} && Owners() !! drm && Balanced(fds, Owners() + drm, loose)
      modifies layer.acquire, fds
      ensures fresh(more - drm) && Owners() !! more && Balanced(fds, Owners() + more, loose)
      ensures var look := old(Looks())[layer];
              && (more == {} <==> drm == {} && look.buffer.None?)
              && Held(more) == old(Held(drm)) + (if look.buffer.Some? then One(look.acquire) else {})
              && Looks() == old(Looks())[layer := look.(acquire := -1)]
      ensures Held(frame) == old(Held(frame))
    {
      hide Balanced, OwnersOf, Apart, Looks;
      Contains(layers + {client});
      LooksAt();
      var drmFence := TakeAcquireFence(layer, drm);
      LookChanged(layer);
      if layer.handle.None? {
        Discard(drmFence, drm);
        return drm;
      }
      more := drm + {drmFence};
      HeldMore(drm, drmFence);
      assert Owners() + drm + {drmFence} == Owners() + more;
    }

    /** The DrmHwcLayer of a buffer that cannot be imported. */
    method Discard(drmFence: UniqueFd, ghost drm: set<UniqueFd>)
      requires Shape() && drmFence !in Owners() + drm && drmFence.fds == fds
               && Balanced(fds, Owners() + drm + {drmFence}, loose)
      modifies drmFence, fds
      ensures Balanced(fds, Owners() + drm, loose)
      ensures Looks() == old(Looks()) && Held(drm) == old(Held(drm)) && Held(frame) == old(Held(frame))
    {
      hide Balanced, OwnersOf, Apart, Looks;
      Contains(layers + {client});
      ghost var all := Owners() + drm + {drmFence};
      drmFence.Destroy(all, loose);
      assert all - {drmFence} == Owners() + drm;
      LookChanged(client);
    }

    /** populateDrmLayer on a new DrmHwcLayer. */
    method TakeAcquireFence(layer: LayerFences, ghost drm: set<UniqueFd>) returns (drmFence: UniqueFd)
      requires Shape() && layer in layers + {client} && Owners() !! drm && Balanced(fds, Owners() + drm, loose)
      modifies layer.acquire, fds
      ensures fresh(drmFence) && drmFence !in Owners() + drm && drmFence.fds == fds
      ensures Balanced(fds, Owners() + drm + {drmFence}, loose)
      ensures drmFence.fd == old(layer.acquire.fd) && Look(layer) == old(Look(layer)).(acquire := -1)
      ensures forall l | l in layers + {client} && l != layer :: Look(l) == old(Look(l))
      ensures Held(frame) == old(Held(frame)) && Held(drm) == old(Held(drm))
    {
      hide Balanced, OwnersOf, Apart;
      Contains(layers + {client});
      OneAmong(fds, layers + {client}, frame, layer);
      FrameApart(fds, layers + {client}, frame);
      drmFence := new UniqueFd(fds, -1, Owners() + drm, loose);
      layer.PopulateDrmLayer(drmFence, Owners() + drm + {drmFence}, loose);
      assert layer.acquire in Owners() && layer.acquire !in drm;
    }

    /** mActiveComposition.swap(composition) */
    method Swap(drm: set<UniqueFd>)
      requires Shape() && Owners() !! drm && Balanced(fds, Owners() + drm, loose)
      modifies this`frame
      ensures Shape() && frame == drm && Owners() !! old(frame)
      ensures Balanced(fds, Owners() + old(frame), loose)
    {
      hide OwnersOf;
      Contains(layers + {client});
      FrameApart(fds, layers + {client}, frame);
      frame := drm;
    }
  }

  /** A descriptor is loose, or owned by exactly one holder, or was closed exactly once. */
  ghost predicate Accounted(d: DisplayFences, fence: int)
    reads d, d.fds, d.Owners()
  {
    && ((fence in d.loose) != (exists u | u in d.Owners() :: u.fd == fence && fence >= 0) <==> fence in d.fds.open)
    && (fence in d.fds.closed <==> 0 <= fence < d.fds.next && fence !in d.fds.open)
    && (forall u, v | u in d.Owners() && v in d.Owners() :: u.fd == v.fd == fence && fence >= 0 ==> u == v)
    && (forall i, j :: 0 <= i < j < |d.fds.closed| && d.fds.closed[i] == fence ==> d.fds.closed[j] != fence)
  }

  lemma FencesConserved(d: DisplayFences, fence: int)
    requires d.Valid()
    ensures Accounted(d, fence)
  {
  }

  ghost predicate Apart(fds: Descriptors, layers: set<LayerFences>, frame: set<UniqueFd>) {
    && (forall l | l in layers :: l.fds == l.acquire.fds == l.release.fds == fds)
    && (forall l | l in layers :: l.acquire !in frame && l.release !in frame)
    && (forall l, m | l in layers && m in layers ::
          l.acquire != m.release && (l != m ==> l.acquire != m.acquire && l.release != m.release))
  }

  lemma ApartGrows(fds: Descriptors, layers: set<LayerFences>, frame: set<UniqueFd>, layer: LayerFences)
    requires Apart(fds, layers, frame)
    requires layer.fds == layer.acquire.fds == layer.release.fds == fds && layer.acquire != layer.release
    requires {layer.acquire, layer.release} !! (OwnersOf(layers) + frame)
    ensures Apart(fds, layers + {layer}, frame)
  {
    Contains(layers);
  }

  ghost function OwnersOf(layers: set<LayerFences>): set<UniqueFd> {
    (set l | l in layers :: l.acquire) + (set l | l in layers :: l.release)
  }

  lemma OwnersOne(layer: LayerFences)
    ensures OwnersOf({layer}) == {layer.acquire, layer.release}
  {
  }

  lemma Contains(layers: set<LayerFences>)
    ensures forall l | l in layers :: l.acquire in OwnersOf(layers) && l.release in OwnersOf(layers)
  {
  }

  lemma OneAmong(fds: Descriptors, layers: set<LayerFences>, frame: set<UniqueFd>, layer: LayerFences)
    requires Apart(fds, layers, frame) && layer in layers
    ensures layer.fds == layer.acquire.fds == layer.release.fds == fds && layer.acquire != layer.release
    ensures forall l | l in layers :: l != layer ==> l.acquire != layer.acquire && l.release != layer.release
    ensures forall l | l in layers :: l.acquire != layer.release && l.release != layer.acquire
  {
  }

  lemma FrameApart(fds: Descriptors, layers: set<LayerFences>, frame: set<UniqueFd>)
    requires Apart(fds, layers, frame)
    ensures OwnersOf(layers) !! frame
  {
  }

  lemma OwnersGrow(layers: set<LayerFences>, layer: LayerFences)
    ensures OwnersOf(layers + {layer}) == OwnersOf(layers) + {layer.acquire, layer.release}
  {
  }

  lemma OwnersShrink(layers: set<LayerFences>, layer: LayerFences)
    requires layer in layers
    requires forall l, m | l in layers && m in layers ::
               l.acquire != m.release && (l != m ==> l.acquire != m.acquire && l.release != m.release)
    ensures OwnersOf(layers - {layer}) == OwnersOf(layers) - {layer.acquire, layer.release}
  {
    OwnersGrow(layers - {layer}, layer);
    assert layers - {layer} + {layer} == layers;
  }

  /** The descriptors some fences hold. */
  ghost function Held(us: set<UniqueFd>): set<int>
    reads us
  {
    set u | u in us && u.fd >= 0 :: u.fd
  }

  lemma HeldMore(us: set<UniqueFd>, u: UniqueFd)
    ensures Held(us + {u}) == Held(us) + One(u.fd)
  {
    assert u in us + {u};
  }

  /** The acquire fences of the layers that have a buffer. */
  ghost function Carried(ls: seq<LayerFences>, was: map<LayerFences, LayerView>): set<int>
    requires forall l | l in ls :: l in was
  {
    set l | l in ls && was[l].buffer.Some? && was[l].acquire >= 0 :: was[l].acquire
  }

  lemma CarriedStep(ls: seq<LayerFences>, k: nat, was: map<LayerFences, LayerView>)
    requires k < |ls| && forall l | l in ls :: l in was
    ensures Carried(ls[..k + 1], was) ==
            Carried(ls[..k], was) + if was[ls[k]].buffer.Some? then One(was[ls[k]].acquire) else {}
    ensures ls[k] in ls[..k] && was[ls[k]].buffer.Some? ==> One(was[ls[k]].acquire) <= Carried(ls[..k], was)
  {
    assert ls[..k + 1] == ls[..k] + [ls[k]];
    assert forall l | l in ls[..k + 1] :: l in ls[..k] || l == ls[k];
  }

  lemma NothingLoaded(d: DisplayFences, sorted: seq<LayerFences>)
    requires forall l | l in sorted :: l in d.layers + {d.client}
    ensures d.Loaded(sorted, 0, {}, d.Looks())
  {
    assert sorted[..0] == [];
  }

  /** The layers have given up their acquire fences. */
  ghost function Emptied(was: map<LayerFences, LayerView>, ls: seq<LayerFences>): map<LayerFences, LayerView> {
    map l | l in was :: if l in ls then was[l].(acquire := -1) else was[l]
  }

  lemma EmptiedStep(ls: seq<LayerFences>, k: nat, was: map<LayerFences, LayerView>)
    requires k < |ls| && ls[k] in was
    ensures ls[k] in Emptied(was, ls[..k])
    ensures var look := Emptied(was, ls[..k])[ls[k]];
            && look.buffer == was[ls[k]].buffer
            && look.acquire == (if ls[k] in ls[..k] then -1 else was[ls[k]].acquire)
            && Emptied(was, ls[..k + 1]) == Emptied(was, ls[..k])[ls[k] := look.(acquire := -1)]
  {
    assert ls[..k + 1] == ls[..k] + [ls[k]];
  }

  /** The layers have handed out their release fences. */
  ghost function Drained(was: map<LayerFences, LayerView>, ls: set<LayerFences>): map<LayerFences, LayerView> {
    map l | l in was :: if l in ls then was[l].(release := -1) else was[l]
  }

  lemma OneMore<T>(all: set<T>, rest: set<T>, x: T)
    requires x in rest && rest <= all
    ensures all - rest + {x} == all - (rest - {x})
  {
  }

  lemma NoneDrained(was: map<LayerFences, LayerView>)
    ensures Drained(was, {}) == was
  {
  }

  lemma DrainedMore(was: map<LayerFences, LayerView>, ls: set<LayerFences>, layer: LayerFences)
    requires layer in was && layer !in ls
    ensures layer in Drained(was, ls) && Drained(was, ls)[layer] == was[layer]
    ensures Drained(was, ls + {layer}) == Drained(was, ls)[layer := was[layer].(release := -1)]
  {
  }

  /** The layers have a new copy of the frame's fence in place of the release fence they had, or none. */
  ghost predicate Signalled(was: map<LayerFences, LayerView>, now: map<LayerFences, LayerView>, ls: set<LayerFences>,
                            hasFence: bool, failing: set<LayerFences>, open: set<int>) {
    was.Keys == now.Keys
    && forall l | l in was ::
      if l in ls then
        && now[l] == was[l].(release := now[l].release) && now[l].release !in open
        && (now[l].release >= 0 <==> hasFence && l !in failing)
      else now[l] == was[l]
  }

  lemma NoneSignalled(was: map<LayerFences, LayerView>, hasFence: bool, failing: set<LayerFences>, open: set<int>)
    ensures Signalled(was, was, {}, hasFence, failing, open)
  {
  }

  lemma SignalledMore(was: map<LayerFences, LayerView>, now: map<LayerFences, LayerView>, ls: set<LayerFences>,
                      layer: LayerFences, fd: int, hasFence: bool, failing: set<LayerFences>, open: set<int>)
    requires Signalled(was, now, ls, hasFence, failing, open) && layer in was && layer !in ls
    requires fd !in open && (fd >= 0 <==> hasFence && layer !in failing)
    ensures Signalled(was, now[layer := now[layer].(release := fd)], ls + {layer}, hasFence, failing, open)
  {
  }

  lemma SignalledSince(was: map<LayerFences, LayerView>, now: map<LayerFences, LayerView>, ls: set<LayerFences>,
                       hasFence: bool, failing: set<LayerFences>, before: set<int>, open: set<int>)
    requires Signalled(was, now, ls, hasFence, failing, open) && before <= open
    ensures Signalled(was, now, ls, hasFence, failing, before)
  {
  }

  /** What the caller of getReleaseFences has to close. */
  ghost function Handed(fences: map<LayerFences, int>): set<int> {
    set l | l in fences && fences[l] >= 0 :: fences[l]
  }

  lemma HandedNone()
    ensures Handed(map[]) == {}
  {
  }

  lemma HandedMore(fences: map<LayerFences, int>, layer: LayerFences, fence: int)
    requires layer !in fences
    ensures Handed(fences[layer := fence]) == Handed(fences) + One(fence)
  {
    var more := fences[layer := fence];
    assert forall l | l in fences :: more[l] == fences[l];
    assert more[layer] == fence;
  }
}
