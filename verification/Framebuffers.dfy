/** Framebuffer ownership: DrmHwcBuffer, the layers of a composition, and the composition swap. */
module Framebuffers {
  import opened Words

  /** A layer to present: its buffer handle, and whether the kernel makes a framebuffer of it. */
  datatype Layer = Layer(handle: Option<nat>, works: bool)

  /** The framebuffers in a list of ids, where 0 stands for none. */
  function Nonzero(ids: seq<nat>): (s: set<nat>)
    ensures forall x :: x in s <==> x != 0 && x in ids
  {
    set x | x in ids && x != 0
  }

  /** No framebuffer appears twice. */
  ghost predicate Exclusive(ids: seq<nat>) {
    forall i, j :: 0 <= i < j < |ids| && ids[i] == ids[j] ==> ids[i] == 0
  }

  /** The importer, and the framebuffer table of its DRM file. Ids are identities, not reused here. */
  class Importer {
    var live: set<nat>
    var next: nat
    var removed: seq<nat>             // in order of removal
    ghost var committed: set<nat>     // the framebuffers of the last frame that was committed
    ghost var early: set<nat>         // those removed while they were in it

    constructor ()
      ensures Valid() && live == {} && committed == {} && early == {}
    {
      live, next, removed, committed, early := {}, 1, [], {}, {};
    }

    /** Every framebuffer created is live or was removed, once. */
    ghost predicate Valid()
      reads this
    {
      && next > 0
      && (forall x :: 0 < x < next <==> x in live || x in removed)
      && (forall x :: x in live ==> x !in removed)
      && (forall i, j :: 0 <= i < j < |removed| ==> removed[i] != removed[j])
      && (forall x :: x in committed ==> 0 < x < next)
    }

    /** drmModeAddFB2 */
    method AddFb2(works: bool) returns (fd: int)
      requires Valid()
      modifies this`live, this`next
      ensures Valid()
      ensures if works then fd == old(next) && fd > 0 && live == old(live) + {fd} && next == fd + 1
              else fd == -1 && live == old(live) && next == old(next)
    {
      if !works {
        return -1;
      }
      fd := next;
      live, next := live + {next}, next + 1;
    }

    /** drmModeRmFB fails on a framebuffer that is not there. */
    method RmFb(id: nat) returns (ret: int)
      requires Valid()
      modifies this`live, this`removed, this`early
      ensures Valid()
      ensures ret == if id in old(live) then 0 else -1
      ensures live == old(live) - {id}
      ensures removed == if id in old(live) then old(removed) + [id] else old(removed)
      ensures early == old(early) + ({id} * old(live) * committed)
    {
      if id !in live {
        return -1;
      }
      early := early + ({id} * committed);
      live, removed := live - {id}, removed + [id];
      ret := 0;
    }

    /** drmModeAtomicCommit, repeated while it says EBUSY. */
    method AtomicCommit(ids: seq<nat>, succeeds: bool)
      requires Valid() && Nonzero(ids) <= live
      modifies this`committed
      ensures Valid() && committed == if succeeds then Nonzero(ids) else old(committed)
    {
      if succeeds {
        committed := Nonzero(ids);
      }
    }

    /** Only a null handle is an error to the caller: a failed framebuffer is reported as 1. */
    method ImportBuffer(handle: Option<nat>, works: bool) returns (ret: int, fbId: nat)
      requires Valid()
      modifies this`live, this`next
      ensures Valid()
      ensures ret < 0 <==> handle.None?
      ensures if handle.Some? && works then
                ret == 0 && fbId == old(next) > 0 && live == old(live) + {fbId} && next == fbId + 1
              else ret == (if handle.None? then -1 else 1) && fbId == 0 && live == old(live) && next == old(next)
    {
      fbId := 0;
      if handle.None? {
        return -1, 0;
      }
      var fd := AddFb2(works);
      if fd > 0 {
        fbId := fd;
      }
      ret := if fd <= 0 then 1 else 0;
    }

    method ReleaseBuffer(fbId: nat)
      requires Valid() && (fbId == 0 || fbId in live)
      modifies this`live, this`removed, this`early
      ensures Valid() && live == old(live) - {fbId}
      ensures removed == old(removed) + if fbId == 0 then [] else [fbId]
      ensures early == old(early) + ({fbId} * committed)
    {
      if fbId != 0 {
        var ret := RmFb(fbId);
        assert ret == 0;
      }
    }
  }

  /** Owns the framebuffer of its bo while it has an importer. */
  class DrmHwcBuffer {
    var fbId: nat            // mBo.mFbId
    var importer: Importer?

    constructor ()
      ensures importer == null && fbId == 0
    {
      fbId, importer := 0, null;
    }

    constructor Move(rhs: DrmHwcBuffer)
      modifies rhs`importer
      ensures fbId == old(rhs.fbId) && importer == old(rhs.importer)
      ensures rhs.importer == null
    {
      fbId, importer := rhs.fbId, rhs.importer;
      new;
      rhs.importer := null;
    }

    /** What this buffer has to remove. */
    ghost function Owned(): set<nat>
      reads this
    {
      if importer == null || fbId == 0 then {} else {fbId}
    }

    /** Removes the framebuffer. Also what the destructor does. */
    method Clear()
      requires importer != null ==> importer.Valid() && Owned() <= importer.live
      modifies this`importer, importer
      ensures importer == null && fbId == old(fbId)
      ensures var i := old(importer);
              i != null ==>
                && i.Valid() && i.next == old(i.next) && i.committed == old(i.committed)
                && i.live == old(i.live) - old(Owned())
                && i.early == old(i.early) + (old(Owned()) * i.committed)
    {
      if importer != null {
        importer.ReleaseBuffer(fbId);
        importer := null;
      }
    }

    /** Move assignment releases what was held first; assigning to itself keeps nothing. */
    method Assign(rhs: DrmHwcBuffer)
      requires importer != null ==> importer.Valid() && Owned() <= importer.live
      modifies this, rhs`importer, importer
      ensures if rhs == this then importer == null
              else importer == old(rhs.importer) && fbId == old(rhs.fbId) && rhs.importer == null
      ensures var i := old(importer);
              i != null ==> i.Valid() && i.next == old(i.next) && i.live == old(i.live) - old(Owned())
    {
      Clear();
      importer := rhs.importer;
      rhs.importer := null;
      fbId := rhs.fbId;
    }

    method ImportBuffer(handle: Option<nat>, importer: Importer, works: bool) returns (ret: int)
      requires importer.Valid() && this.importer == null
      modifies this, importer`live, importer`next
      ensures importer.Valid()
      ensures ret == if handle.None? then -1 else 0
      ensures handle.None? ==>
                this.importer == null && importer.live == old(importer.live) && importer.next == old(importer.next)
      ensures handle.Some? ==>
                && this.importer == importer
                && fbId == (if works then old(importer.next) else 0)
                && importer.live == old(importer.live) + Owned()
                && importer.next == old(importer.next) + |Owned()|
    {
      var r, id := importer.ImportBuffer(handle, works);
      if r < 0 {
        return -1;
      }
      this.importer := importer;
      fbId := id;
      ret := 0;
    }
  }

  /** A list of distinct buffers that all own through one importer. */
  ghost predicate Holds(buffers: seq<DrmHwcBuffer>, importer: Importer)
    reads buffers
  {
    && (forall i :: 0 <= i < |buffers| ==> buffers[i].importer == importer)
    && (forall i, j :: 0 <= i < j < |buffers| ==> buffers[i] != buffers[j])
  }

  ghost function Ids(buffers: seq<DrmHwcBuffer>): (ids: seq<nat>)
    reads buffers
    ensures |ids| == |buffers| && forall i :: 0 <= i < |buffers| ==> ids[i] == buffers[i].fbId
  {
    seq(|buffers|, i requires 0 <= i < |buffers| reads buffers => buffers[i].fbId)
  }

  lemma NonzeroAppend(ids: seq<nat>, id: nat)
    ensures Nonzero(ids + [id]) == Nonzero(ids) + if id == 0 then {} else {id}
  {
  }

  lemma NonzeroDrop(ids: seq<nat>, n: nat)
    requires Exclusive(ids) && n < |ids|
    ensures ids[n] == 0 || ids[n] in Nonzero(ids[n..])
    ensures Nonzero(ids[n + 1..]) == Nonzero(ids[n..]) - {ids[n]}
  {
    assert ids[n..] == [ids[n]] + ids[n + 1..];
  }

  /** The destructor of a composition releases each of its buffers. */
  method Destroy(buffers: seq<DrmHwcBuffer>, importer: Importer)
    requires importer.Valid() && Holds(buffers, importer)
    requires Exclusive(Ids(buffers)) && Nonzero(Ids(buffers)) <= importer.live
    modifies buffers, importer
    ensures importer.Valid() && importer.next == old(importer.next) && importer.committed == old(importer.committed)
    ensures importer.live == old(importer.live) - old(Nonzero(Ids(buffers)))
    ensures importer.early == old(importer.early) + old(Nonzero(Ids(buffers))) * importer.committed
  {
    ghost var ids := Ids(buffers);
    for n := 0 to |buffers|
      invariant importer.Valid() && importer.next == old(importer.next) && importer.committed == old(importer.committed)
      invariant forall i :: n <= i < |buffers| ==> buffers[i].importer == importer
      invariant forall i :: 0 <= i < |buffers| ==> buffers[i].fbId == ids[i]
      invariant Nonzero(ids[n..]) <= importer.live
      invariant importer.live == old(importer.live) - (Nonzero(ids) - Nonzero(ids[n..]))
      invariant importer.early == old(importer.early) + (Nonzero(ids) - Nonzero(ids[n..])) * importer.committed
    {
      NonzeroDrop(ids, n);
      buffers[n].Clear();
    }
  }

  /** The part of a display that owns framebuffers: the layers of mActiveComposition. */
  class DisplayBuffers {
    const importer: Importer
    var active: seq<DrmHwcBuffer>
    ghost var stale: bool    // the active layers were swapped in although their commit failed

    constructor ()
      ensures Valid() && fresh(importer) && active == [] && importer.live == importer.committed == importer.early == {}
      ensures !stale
    {
      importer := new Importer();
      active, stale := [], false;
    }

    /** The live framebuffers are exactly those the active composition owns. The last committed frame
        is among them, unless the active one was never committed: then none of it is left. */
    ghost predicate Valid()
      reads this, active, importer
    {
      && importer.Valid() && Holds(active, importer)
      && Exclusive(Ids(active)) && importer.live == Nonzero(Ids(active))
      && (if stale then importer.committed !! importer.live else importer.committed <= importer.live)
    }

    /** One DrmHwcLayer: its buffer, moved into the list, or null when the import is an error. */
    method ImportLayer(layer: Layer) returns (buffer: DrmHwcBuffer?)
      requires importer.Valid()
      modifies importer`live, importer`next
      ensures importer.Valid()
      ensures buffer == null <==> layer.handle.None?
      ensures buffer == null ==> importer.live == old(importer.live) && importer.next == old(importer.next)
      ensures buffer != null ==>
                && fresh(buffer) && buffer.importer == importer
                && buffer.fbId == (if layer.works then old(importer.next) else 0)
                && importer.next == old(importer.next) + (if layer.works then 1 else 0)
                && importer.live == old(importer.live) + (if layer.works then {buffer.fbId} else {})
    {
      var drmLayer := new DrmHwcBuffer();
      var ret := drmLayer.ImportBuffer(layer.handle, importer, layer.works);
      if ret != 0 {
        return null;
      }
      buffer := new DrmHwcBuffer.Move(drmLayer);
    }

    /** Imports the sorted layers: one buffer for each that has a handle. */
    method Import(layers: seq<Layer>) returns (buffers: seq<DrmHwcBuffer>)
      requires importer.Valid()
      modifies importer`live, importer`next
      ensures importer.Valid() && importer.next >= old(importer.next)
      ensures fresh(buffers) && Holds(buffers, importer)
              && Imported(layers, Ids(buffers), old(importer.next), importer.next)
      ensures importer.live == old(importer.live) + Nonzero(Ids(buffers))
    {
      hide Imported, Nonzero;
      buffers := [];
      ghost var ids := [];
      NothingImported(importer.next);
      for k := 0 to |layers|
        invariant importer.Valid() && importer.next >= old(importer.next)
        invariant fresh(buffers) && Holds(buffers, importer) && ids == Ids(buffers)
        invariant Imported(layers[..k], ids, old(importer.next), importer.next)
        invariant importer.live == old(importer.live) + Nonzero(ids)
      {
        ghost var next := importer.next;
        assert layers[..k + 1] == layers[..k] + [layers[k]];
        var buffer := ImportLayer(layers[k]);
        if buffer != null {
          ImportOne(layers[..k], layers[k], ids, old(importer.next), next, buffer.fbId);
          NonzeroAppend(ids, buffer.fbId);
          buffers, ids := buffers + [buffer], ids + [buffer.fbId];
        } else {
          ImportNone(layers[..k], layers[k], ids, old(importer.next), next);
        }
      }
      assert layers[..|layers|] == layers;
    }

    /** compositionLayers and applyFrame: commits the layers and swaps them in. The layers before them
        are released, and so are these when the commit request could not be allocated. */
    method Apply(buffers: seq<DrmHwcBuffer>, planes: nat, allocates: bool, succeeds: bool)
      requires importer.Valid() && Holds(active, importer) && Holds(buffers, importer)
      requires forall i, j :: 0 <= i < |active| && 0 <= j < |buffers| ==> active[i] != buffers[j]
      requires Exclusive(Ids(active)) && Exclusive(Ids(buffers))
      requires Nonzero(Ids(active)) !! Nonzero(Ids(buffers)) && Nonzero(Ids(buffers)) !! importer.committed
      requires importer.live == Nonzero(Ids(active)) + Nonzero(Ids(buffers))
      modifies this`active, this`stale, active, buffers, importer
      ensures importer.Valid() && importer.next == old(importer.next) && Holds(active, importer)
      ensures active == if allocates then buffers else old(active)
      ensures Ids(active) == old(Ids(if allocates then buffers else active))
      ensures importer.live == Nonzero(Ids(active))
      ensures importer.committed ==
              if allocates && succeeds then Nonzero(Ids(active)[..Min(planes, |active|)]) else old(importer.committed)
      ensures importer.early == old(importer.early) +
              if allocates && !succeeds then old(Nonzero(Ids(active))) * old(importer.committed) else {}
      ensures stale == if allocates then !succeeds else old(stale)
    {
      if !allocates {
        Destroy(buffers, importer);
        return;
      }
      var ids := seq(Min(planes, |buffers|),
                     i requires 0 <= i < Min(planes, |buffers|) reads buffers => buffers[i].fbId);
      assert ids == Ids(buffers)[..Min(planes, |buffers|)];
      importer.AtomicCommit(ids, succeeds);
      var composition := active;
      active, stale := buffers, !succeeds;
      Destroy(composition, importer);
    }

    /** presentDisplay from the sorted layers on. */
    method Present(f: Frame)
      requires Valid()
      modifies this, active, importer
      ensures Valid() && fresh(set b | b in active && b !in old(active))
      ensures !Reaches(f) ==>
                && active == old(active) && importer.live == old(importer.live) && stale == old(stale)
                && importer.committed == old(importer.committed) && importer.early == old(importer.early)
      ensures Reaches(f) ==>
                && stale == !f.succeeds
                && Imported(f.layers, Ids(active), old(importer.next), importer.next)
                && importer.committed ==
                   (if f.succeeds then Nonzero(Ids(active)[..Min(f.planes, |active|)]) else old(importer.committed))
                && importer.early ==
                   old(importer.early) + if f.succeeds || old(stale) then {} else old(importer.committed)
    {
      var buffers := Import(f.layers);
      if |buffers| > 0 {
        Apply(buffers, f.planes, f.allocates, f.succeeds);
      }
    }

    /** Over any run of presents: a framebuffer of the last committed frame is removed before the next
        commit exactly when a commit fails while such a frame is shown. */
    method PresentAll(frames: seq<Frame>)
      requires Valid() && !stale && importer.committed == {} && importer.early == {}
      modifies this, active, importer
      ensures Valid()
      ensures importer.early != {} <==> TornDown(frames)
      ensures !TornDown(frames) ==> (Shown(frames) <==> importer.committed * importer.live != {})
    {
      assert frames[..0] == [];
      for k := 0 to |frames|
        invariant Valid() && fresh(set b | b in active && b !in old(active)) && After(frames[..k])
      {
        hide After;
        assert frames[..k + 1] == frames[..k] + [frames[k]];
        PresentNext(frames[k], frames[..k]);
      }
      assert frames[..|frames|] == frames;
    }

    /** What a run of presents leaves behind. */
    ghost predicate After(frames: seq<Frame>)
      reads this, importer
    {
      && (Shown(frames) <==> !stale && importer.committed != {})
      && (importer.early != {} <==> TornDown(frames))
    }

    method PresentNext(f: Frame, ghost before: seq<Frame>)
      requires Valid() && After(before)
      modifies this, active, importer
      ensures Valid() && fresh(set b | b in active && b !in old(active)) && After(before + [f])
    {
      hide Shown, TornDown;
      TornDownStep(before, f);
      Present(f);
      if Reaches(f) {
        VisibleIds(f, Ids(active));
      }
    }
  }

  /** Every framebuffer ever created is owned by exactly one layer of the active composition, or was
      removed exactly once. */
  lemma FramebuffersConserved(d: DisplayBuffers, id: nat)
    requires d.Valid() && 0 < id < d.importer.next
    ensures (id in Ids(d.active)) != (id in d.importer.removed)
    ensures forall i, j :: 0 <= i < j < |d.active| && d.active[i].fbId == id ==> d.active[j].fbId != id
    ensures forall i, j :: 0 <= i < j < |d.importer.removed| ==> d.importer.removed[i] != d.importer.removed[j]
  {
    assert Exclusive(Ids(d.active));
  }

  /** The commit succeeds and puts some framebuffer on a plane. */
  predicate Shows(f: Frame) {
    Reaches(f) && f.succeeds && exists i :: 0 <= i < Min(f.planes, |Kept(f.layers)|) && Kept(f.layers)[i].works
  }

  predicate Fails(f: Frame) {
    Reaches(f) && !f.succeeds
  }

  /** After these presents a committed framebuffer is still there. */
  predicate Shown(frames: seq<Frame>) {
    if frames == [] then false
    else
      var f := frames[|frames| - 1];
      if Reaches(f) then Shows(f) else Shown(frames[..|frames| - 1])
  }

  predicate TornDown(frames: seq<Frame>) {
    exists k :: 0 <= k < |frames| && Fails(frames[k]) && Shown(frames[..k])
  }

  lemma TornDownStep(frames: seq<Frame>, f: Frame)
    ensures TornDown(frames + [f]) <==> TornDown(frames) || (Fails(f) && Shown(frames))
    ensures Shown(frames + [f]) <==> if Reaches(f) then Shows(f) else Shown(frames)
  {
    var all := frames + [f];
    assert all[..|frames|] == frames;
    assert forall k :: 0 <= k < |frames| ==> all[..k] == frames[..k] && all[k] == frames[k];
    assert TornDown(frames) ==> TornDown(all) by {
      if k :| 0 <= k < |frames| && Fails(frames[k]) && Shown(frames[..k]) {
        assert Fails(all[k]) && Shown(all[..k]);
      }
    }
    assert Fails(f) && Shown(frames) ==> Fails(all[|frames|]) && Shown(all[..|frames|]);
  }

  /** What is shown is the last frame that reached the commit. */
  lemma {:induction false} ShownMeans(frames: seq<Frame>)
    ensures Shown(frames) <==>
            exists i :: 0 <= i < |frames| && Shows(frames[i]) && forall j :: i < j < |frames| ==> !Reaches(frames[j])
  {
    if frames != [] {
      var n := |frames| - 1;
      ShownMeans(frames[..n]);
      if !Reaches(frames[n]) {
        assert forall i :: 0 <= i < n ==> frames[..n][i] == frames[i];
      }
    }
  }

  /** A failed commit right after a good frame takes that frame's framebuffer away. */
  lemma FailedCommitTearsDown(handle: nat)
    ensures var layers := [Layer(Some(handle), true)];
            TornDown([Frame(layers, 1, true, true), Frame(layers, 1, true, false)])
  {
    var layer := Layer(Some(handle), true);
    var good := Frame([layer], 1, true, true);
    var bad := Frame([layer], 1, true, false);
    assert Kept([layer]) == [layer];
    assert Kept(good.layers)[0].works;
    assert [good, bad][..1] == [good];
    assert Fails([good, bad][1]) && Shown([good, bad][..1]);
  }

  lemma VisibleIds(f: Frame, ids: seq<nat>)
    requires Reaches(f) && |ids| == |Kept(f.layers)|
    requires forall i :: 0 <= i < |ids| ==> (ids[i] == 0 <==> !Kept(f.layers)[i].works)
    ensures f.succeeds ==> (Shows(f) <==> Nonzero(ids[..Min(f.planes, |ids|)]) != {})
  {
    var shown := ids[..Min(f.planes, |ids|)];
    if f.succeeds && Shows(f) {
      var i :| 0 <= i < |shown| && Kept(f.layers)[i].works;
      assert shown[i] in Nonzero(shown);
    }
  }

  function Min(a: nat, b: nat): nat {
    if a < b then a else b
  }

  /** What one present is given: the layers and planes, and how the two DRM calls go. */
  datatype Frame = Frame(layers: seq<Layer>, planes: nat, allocates: bool, succeeds: bool)

  /** The layers that reach the composition: a null handle is skipped, a failed framebuffer is not. */
  function Kept(layers: seq<Layer>): (kept: seq<Layer>)
    ensures |kept| <= |layers|
  {
    if layers == [] then []
    else
      var last := layers[|layers| - 1];
      Kept(layers[..|layers| - 1]) + if last.handle.None? then [] else [last]
  }

  /** The frame gets as far as the commit. */
  predicate Reaches(f: Frame) {
    f.allocates && Kept(f.layers) != []
  }

  /** Each kept layer has an id of its own, made between the two counts, or 0 if that failed. */
  ghost predicate Imported(layers: seq<Layer>, ids: seq<nat>, low: nat, high: nat) {
    && |ids| == |Kept(layers)|
    && (forall i :: 0 <= i < |ids| ==> (ids[i] == 0 <==> !Kept(layers)[i].works))
    && (forall i :: 0 <= i < |ids| && ids[i] != 0 ==> low <= ids[i] < high)
    && Exclusive(ids)
  }

  lemma NothingImported(next: nat)
    ensures Imported([], [], next, next) && Nonzero([]) == {}
  {
  }

  lemma ImportOne(layers: seq<Layer>, layer: Layer, ids: seq<nat>, low: nat, high: nat, id: nat)
    requires Imported(layers, ids, low, high) && layer.handle.Some? && 0 < low <= high
    requires id == if layer.works then high else 0
    ensures Imported(layers + [layer], ids + [id], low, high + if id == 0 then 0 else 1)
  {
    assert (layers + [layer])[..|layers|] == layers;
  }

  lemma ImportNone(layers: seq<Layer>, layer: Layer, ids: seq<nat>, low: nat, high: nat)
    requires Imported(layers, ids, low, high) && layer.handle.None?
    ensures Imported(layers + [layer], ids, low, high)
  {
    assert (layers + [layer])[..|layers|] == layers;
  }
}
