/** PrimeCache: GEM handles of imported buffers, kept per stamp, limited per layer. */
module PrimeCache {
  type Stamp = nat
  type Buffer = nat

  /** The DRM file's handle table. A handle is an identity: numbers are not reused here. */
  class Kernel {
    var open: map<nat, Buffer>  // the buffer behind each open handle
    var next: nat
    var closed: seq<nat>        // handles in the order they were closed

    constructor ()
      ensures Valid() && open == map[] && closed == []
    {
      open, next, closed := map[], 1, [];
    }

    /** Every handle ever opened is open, or was closed once. */
    ghost predicate Valid()
      reads this
    {
      && next > 0
      && (forall h :: h in open ==> 0 < h < next && h !in closed)
      && (forall h :: 0 < h < next ==> h in open || h in closed)
      && (forall i, j :: 0 <= i < j < |closed| ==> closed[i] != closed[j])
      && (forall i :: 0 <= i < |closed| ==> 0 < closed[i] < next)
      && (forall g, h :: g in open && h in open && open[g] == open[h] ==> g == h)
    }

    /** What an import of the buffer gives: its open handle, or the next new one. */
    ghost predicate Gives(buffer: Buffer, handle: nat)
      reads this
    {
      if handle in open then open[handle] == buffer
      else handle == next && forall h :: h in open ==> open[h] != buffer
    }

    /** drmPrimeFDToHandle: an open handle of the buffer if there is one, a new one otherwise. */
    method PrimeFdToHandle(buffer: Buffer, works: bool) returns (ret: int, handle: nat)
      requires Valid()
      modifies this
      ensures Valid() && closed == old(closed)
      ensures ret == (if works then 0 else -1)
      ensures ret != 0 ==> open == old(open) && next == old(next) && handle == 0
      ensures ret == 0 ==> handle in open && open[handle] == buffer && old(Gives(buffer, handle))
      ensures ret == 0 ==> next == if handle in old(open) then old(next) else old(next) + 1
      ensures ret == 0 ==> open == if handle in old(open) then old(open) else old(open)[handle := buffer]
    {
      if !works {
        return -1, 0;
      }
      ret := 0;
      if h :| h in open && open[h] == buffer {
        handle := h;
      } else {
        handle := next;
        open, next := open[next := buffer], next + 1;
      }
    }

    /** DRM_IOCTL_GEM_CLOSE fails on a handle that is not open. */
    method GemClose(handle: nat) returns (ret: int)
      requires Valid()
      modifies this
      ensures Valid() && next == old(next)
      ensures ret == if handle in old(open) then 0 else -1
      ensures open == old(open) - {handle}
      ensures closed == if handle in old(open) then old(closed) + [handle] else old(closed)
    {
      if handle !in open {
        assert open == open - {handle};
        return -1;
      }
      open := open - {handle};
      closed := closed + [handle];
      ret := 0;
    }
  }

  datatype CacheInfo = CacheInfo(layerIndex: int, handle: nat)

  /** The stamps cached for a layer. */
  function Entries(cache: map<Stamp, CacheInfo>, layer: int): set<Stamp> {
    set s | s in cache && cache[s].layerIndex == layer
  }

  /** The sizes of the selection at the draws of rand() % selection.size(), down to an empty one. */
  function Draws(entries: nat, limit: int): seq<nat> {
    if entries < limit then [] else if entries == 0 then [0] else [entries] + Draws(entries - 1, limit)
  }

  /** The eviction loop never divides by zero, whatever is cached, exactly when the limit is positive. */
  lemma {:induction false} DrawsAreDefined(entries: nat, limit: int)
    ensures 0 !in Draws(entries, limit) <==> limit >= 1
  {
    if entries > 0 && entries >= limit {
      DrawsAreDefined(entries - 1, limit);
    }
  }

  ghost predicate CountsAgree(cache: map<Stamp, CacheInfo>, stat: map<int, int>) {
    forall i :: |Entries(cache, i)| == if i in stat then stat[i] else 0
  }

  /** `small` is what is left of `big`, where only entries of one layer may be missing. */
  ghost predicate Evicted(big: map<Stamp, CacheInfo>, small: map<Stamp, CacheInfo>, layer: int) {
    && (forall s :: s in small ==> s in big && small[s] == big[s])
    && (forall s :: s in big && big[s].layerIndex != layer ==> s in small)
  }

  /** Each entry holds an open handle of its buffer, and each open handle is in one entry or pending. */
  ghost predicate Links(cache: map<Stamp, CacheInfo>, stampOf: map<nat, Stamp>, open: map<nat, Buffer>,
                        bufferOf: Stamp -> Buffer, pending: nat) {
    && (forall s :: s in cache ==>
          var h := cache[s].handle;
          h != pending && h in open && open[h] == bufferOf(s) && h in stampOf && stampOf[h] == s)
    && (forall h :: h in open && h != pending ==>
          h in stampOf && stampOf[h] in cache && cache[stampOf[h]].handle == h)
  }

  lemma LinksDrop(cache: map<Stamp, CacheInfo>, stampOf: map<nat, Stamp>, open: map<nat, Buffer>,
                  bufferOf: Stamp -> Buffer, pending: nat, stamp: Stamp)
    requires Links(cache, stampOf, open, bufferOf, pending) && stamp in cache
    ensures cache[stamp].handle in open && cache[stamp].handle != pending
    ensures Links(cache - {stamp}, stampOf, open - {cache[stamp].handle}, bufferOf, pending)
  {
  }

  lemma LinksEnter(cache: map<Stamp, CacheInfo>, stampOf: map<nat, Stamp>, open: map<nat, Buffer>,
                   bufferOf: Stamp -> Buffer, stamp: Stamp, info: CacheInfo)
    requires Links(cache, stampOf, open, bufferOf, info.handle) && stamp !in cache
    requires 0 !in open && info.handle in open && open[info.handle] == bufferOf(stamp)
    ensures Links(cache[stamp := info], stampOf[info.handle := stamp], open, bufferOf, 0)
  {
  }

  lemma LinksNew(cache: map<Stamp, CacheInfo>, stampOf: map<nat, Stamp>, open: map<nat, Buffer>,
                 bufferOf: Stamp -> Buffer, handle: nat, stamp: Stamp)
    requires Links(cache, stampOf, open, bufferOf, 0) && stamp !in cache && 0 !in open && handle != 0 && handle !in open
    ensures Links(cache, stampOf, open[handle := bufferOf(stamp)], bufferOf, handle)
  {
  }

  lemma NotOpen(cache: map<Stamp, CacheInfo>, stampOf: map<nat, Stamp>, open: map<nat, Buffer>,
                bufferOf: Stamp -> Buffer, stamp: Stamp)
    requires Links(cache, stampOf, open, bufferOf, 0) && stamp !in cache && 0 !in open
    requires forall s, t :: bufferOf(s) == bufferOf(t) ==> s == t
    ensures forall h :: h in open ==> open[h] != bufferOf(stamp)
  {
    assert forall h :: h in open ==> open[h] == bufferOf(stampOf[h]);
  }

  class PrimeCache {
    const kernel: Kernel
    ghost const bufferOf: Stamp -> Buffer
    var cache: map<Stamp, CacheInfo>    // mCache
    var stat: map<int, int>             // mStat
    var limit: int                      // mCachePerLayerLimit
    ghost var stampOf: map<nat, Stamp>  // inverse of the cache
    ghost var pending: nat              // a handle just imported and not yet cached, or 0

    constructor (kernel: Kernel, ghost bufferOf: Stamp -> Buffer)
      requires kernel.Valid() && kernel.open == map[]
      requires forall s, t :: bufferOf(s) == bufferOf(t) ==> s == t
      ensures Valid() && Bounded() && limit == 0 && cache == map[] && this.kernel == kernel && this.bufferOf == bufferOf
    {
      this.kernel, this.bufferOf := kernel, bufferOf;
      cache, stat, limit, stampOf, pending := map[], map[], 0, map[], 0;
    }

    /** The open handles are exactly the cached ones, one per entry (and the pending one). */
    ghost predicate Linked()
      reads this, kernel
    {
      && kernel.Valid()
      && (forall s, t :: bufferOf(s) == bufferOf(t) ==> s == t)
      && Links(cache, stampOf, kernel.open, bufferOf, pending)
    }

    /** What holds between calls. */
    ghost predicate Valid()
      reads this, kernel
    {
      Linked() && CountsAgree(cache, stat) && pending == 0
    }

    /** No layer has more entries than the limit. */
    ghost predicate Bounded()
      reads this
    {
      forall i :: |Entries(cache, i)| <= limit
    }

    method DestroyHandle(handle: nat) returns (ret: int)
      requires kernel.Valid()
      modifies kernel
      ensures kernel.Valid() && kernel.next == old(kernel.next)
      ensures ret == if handle in old(kernel.open) then 0 else -1
      ensures kernel.open == old(kernel.open) - {handle}
      ensures kernel.closed == if handle in old(kernel.open) then old(kernel.closed) + [handle] else old(kernel.closed)
    {
      ret := kernel.GemClose(handle);
    }

    /** Closes and forgets one entry. The close always succeeds: no handle is closed twice. */
    method Drop(stamp: Stamp) returns (ret: int)
      requires Linked() && stamp in cache
      modifies this`cache, kernel
      ensures Linked() && ret == 0 && cache == old(cache) - {stamp} && kernel.next == old(kernel.next)
      ensures pending in old(kernel.open) ==>
                pending in kernel.open && kernel.open[pending] == old(kernel.open[pending])
    {
      hide Links;
      LinksDrop(cache, stampOf, kernel.open, bufferOf, pending, stamp);
      ret := DestroyHandle(cache[stamp].handle);
      cache := cache - {stamp};
    }

    /** The entries of a layer, in some order. */
    method Select(layerIndex: int) returns (selection: seq<Stamp>)
      ensures Lists(selection, Entries(cache, layerIndex))
    {
      selection := [];
      var rest := cache.Keys;
      while rest != {}
        invariant rest <= cache.Keys
        invariant Lists(selection, Entries(cache, layerIndex) - rest)
        decreases rest
      {
        var s :| s in rest;
        ListsStep(selection, Entries(cache, layerIndex) - rest, s);
        if cache[s].layerIndex == layerIndex {
          selection := selection + [s];
          assert Entries(cache, layerIndex) - (rest - {s}) == Entries(cache, layerIndex) - rest + {s};
        } else {
          assert Entries(cache, layerIndex) - (rest - {s}) == Entries(cache, layerIndex) - rest;
        }
        rest := rest - {s};
      }
      assert Entries(cache, layerIndex) - {} == Entries(cache, layerIndex);
    }

    /** The pending handle survives. */
    twostate predicate KeepsPending()
      reads this, kernel
    {
      && kernel.next == old(kernel.next) && pending == old(pending)
      && (pending in old(kernel.open) ==> pending in kernel.open && kernel.open[pending] == old(kernel.open[pending]))
    }

    /** mStat is updated. */
    method SetStat(stat: map<int, int>)
      requires Linked()
      modifies this`stat
      ensures Linked() && this.stat == stat
    {
      this.stat := stat;
    }

    /** Evicts one entry of the layer, drawn at random. */
    method EvictOne(layerIndex: int, selection: seq<Stamp>) returns (rest: seq<Stamp>)
      requires Linked() && CountsAgree(cache, stat) && layerIndex in stat
      requires Lists(selection, Entries(cache, layerIndex)) && |selection| > 0
      modifies this`cache, this`stat, kernel
      ensures Linked() && CountsAgree(cache, stat) && KeepsPending()
      ensures Lists(rest, Entries(cache, layerIndex))
      ensures Evicted(old(cache), cache, layerIndex)
      ensures stat == old(stat)[layerIndex := old(stat)[layerIndex] - 1]
    {
      hide Entries, CountsAgree, Linked, Lists, Evicted;
      var idx :| 0 <= idx < |selection|;
      var toDel := selection[idx];
      ListsMember(selection, Entries(cache, layerIndex), idx);
      DropAgrees(cache, stat, toDel, layerIndex);
      ListsRemove(selection, Entries(cache, layerIndex), idx);
      var _ := Drop(toDel);
      SetStat(stat[layerIndex := stat[layerIndex] - 1]);
      rest := selection[..idx] + selection[idx + 1..];
    }

    /** Evicts entries of a layer until there is room for one more. */
    method OptimizeLayer(layerIndex: int)
      requires Linked() && CountsAgree(cache, stat) && limit >= 1
      modifies this`cache, this`stat, kernel
      ensures Linked() && CountsAgree(cache, stat) && KeepsPending()
      ensures Evicted(old(cache), cache, layerIndex)
      ensures var n := |Entries(old(cache), layerIndex)|;
              |Entries(cache, layerIndex)| == if n >= limit then limit - 1 else n
      ensures stat.Keys == old(stat).Keys + {layerIndex}
    {
      hide Linked;
      if layerIndex !in stat {
        SetStat(stat[layerIndex := 0]);
      }
      if stat[layerIndex] >= limit {
        var selection := Select(layerIndex);
        while stat[layerIndex] >= limit
          invariant Linked() && CountsAgree(cache, stat) && KeepsPending()
          invariant Evicted(old(cache), cache, layerIndex)
          invariant layerIndex in stat && stat[layerIndex] >= limit - 1 && stat.Keys == old(stat).Keys + {layerIndex}
          invariant Lists(selection, Entries(cache, layerIndex))
          decreases stat[layerIndex]
        {
          selection := EvictOne(layerIndex, selection);
        }
      }
    }

    /** optimizeCache(): what a lowered limit asks for. */
    method OptimizeAll()
      requires Valid() && limit >= 1
      modifies this`cache, this`stat, kernel
      ensures Valid() && Bounded() && kernel.next == old(kernel.next)
      ensures forall s :: s in cache ==> s in old(cache) && cache[s] == old(cache)[s]
      ensures forall s :: s in old(cache) && |Entries(old(cache), old(cache)[s].layerIndex)| <= limit ==> s in cache
      ensures forall i :: |Entries(cache, i)| == var n := |Entries(old(cache), i)|; if n > limit then limit - 1 else n
      ensures stat.Keys == old(stat).Keys
    {
      hide Linked, Entries, CountsAgree;
      var layers := stat.Keys;
      while layers != {}
        invariant layers <= stat.Keys == old(stat).Keys
        invariant Linked() && CountsAgree(cache, stat) && pending == 0 && kernel.next == old(kernel.next)
        invariant forall i :: i in stat && i !in layers ==> Trimmed(old(cache), cache, i, limit)
        invariant forall i :: i in layers ==> Entries(cache, i) == Entries(old(cache), i)
        invariant forall s :: s in cache ==> s in old(cache) && cache[s] == old(cache)[s]
        invariant forall s :: s in old(cache) && |Entries(old(cache), old(cache)[s].layerIndex)| <= limit ==> s in cache
        decreases layers
      {
        var i := AnyOf(layers);
        ghost var before := cache;
        CountOf(cache, stat, i);
        if stat[i] > limit {
          OptimizeLayer(i);
          forall j | j != i ensures Entries(cache, j) == Entries(before, j) {
            OthersStay(before, cache, i, j);
          }
        }
        layers := layers - {i};
      }
      forall i
        ensures |Entries(cache, i)| == var n := |Entries(old(cache), i)|; if n > limit then limit - 1 else n
      {
        CountOf(cache, stat, i);
        CountOf(old(cache), old(stat), i);
        assert i in stat ==> Trimmed(old(cache), cache, i, limit);
      }
    }

    /** Makes room, then enters the handle just imported. */
    method AddEntry(stamp: Stamp, info: CacheInfo)
      requires Linked() && CountsAgree(cache, stat) && limit >= 1
      requires stamp !in cache && info.handle == pending != 0
      requires pending in kernel.open && kernel.open[pending] == bufferOf(stamp)
      modifies this`cache, this`stat, this`stampOf, this`pending, kernel
      ensures Valid() && kernel.next == old(kernel.next)
      ensures stamp in cache && cache[stamp] == info && info.handle in kernel.open
      ensures kernel.open[info.handle] == bufferOf(stamp)
      ensures Evicted(old(cache), cache - {stamp}, info.layerIndex)
      ensures var n := |Entries(old(cache), info.layerIndex)|;
              |Entries(cache, info.layerIndex)| == if n >= limit then limit else n + 1
    {
      hide Linked, Entries, CountsAgree, Evicted;
      OptimizeLayer(info.layerIndex);
      assert stamp !in cache by { EvictedKeys(old(cache), cache, info.layerIndex, stamp); }
      ghost var kept := cache;
      AddAgrees(cache, stat, stamp, info);
      Enter(stamp, info);
      SetStat(stat[info.layerIndex := stat[info.layerIndex] + 1]);
      assert cache - {stamp} == kept;
    }

    /** mCache takes the entry, and with it the pending handle. */
    method Enter(stamp: Stamp, info: CacheInfo)
      requires Linked() && stamp !in cache && info.handle == pending != 0
      requires pending in kernel.open && kernel.open[pending] == bufferOf(stamp)
      modifies this`cache, this`stampOf, this`pending
      ensures Linked() && pending == 0 && cache == old(cache)[stamp := info]
    {
      hide Links;
      LinksEnter(cache, stampOf, kernel.open, bufferOf, stamp, info);
      cache := cache[stamp := info];
      stampOf := stampOf[pending := stamp];
      pending := 0;
    }

    /** The handle of the buffer with this stamp: cached, or imported and cached. It is the handle an
        import into the DRM file would have given. 0 stands for a failed import. */
    method FindEntry(stamp: Stamp, buffer: Buffer, works: bool, index: int) returns (handle: nat)
      requires Valid() && Bounded() && limit >= 1 && buffer == bufferOf(stamp)
      modifies this`cache, this`stat, this`stampOf, this`pending, kernel
      ensures Valid() && Bounded()
      ensures handle == 0 <==> stamp !in old(cache) && !works
      ensures handle != 0 ==>
                && old(kernel.Gives(buffer, handle))
                && handle in kernel.open && kernel.open[handle] == buffer
                && stamp in cache && cache[stamp].handle == handle
      ensures handle == 0 || stamp in old(cache) ==>
                cache == old(cache) && stat == old(stat) && kernel.open == old(kernel.open)
      ensures stamp !in old(cache) && works ==>
                && cache[stamp] == CacheInfo(index, handle)
                && Evicted(old(cache), cache - {stamp}, index)
                && |Entries(cache, index)| == if |Entries(old(cache), index)| == limit then limit
                                              else |Entries(old(cache), index)| + 1
    {
      hide Entries, CountsAgree, Evicted;
      if stamp in cache {
        handle := cache[stamp].handle;
        assert kernel.open[handle] == buffer;
        return;
      }
      handle := Import(stamp, buffer, works);
      if handle != 0 {
        ghost var before := cache;
        AddEntry(stamp, CacheInfo(index, handle));
        forall i ensures |Entries(cache, i)| <= limit {
          if i != index {
            OthersStay(before, cache - {stamp}, index, i);
            WithoutStamp(cache, stamp, i);
          }
        }
      }
    }

    method Import(stamp: Stamp, buffer: Buffer, works: bool) returns (handle: nat)
      requires Linked() && pending == 0 && stamp !in cache && buffer == bufferOf(stamp)
      modifies this`pending, kernel
      ensures Linked() && pending == handle
      ensures if works then old(kernel.Gives(buffer, handle)) else handle == 0
      ensures works ==> handle == old(kernel.next) && handle in kernel.open && kernel.open[handle] == buffer
      ensures !works ==> kernel.open == old(kernel.open)
    {
      hide Links;
      NotOpen(cache, stampOf, kernel.open, bufferOf, stamp);
      LinksNew(cache, stampOf, kernel.open, bufferOf, kernel.next, stamp);
      var ret;
      ret, handle := kernel.PrimeFdToHandle(buffer, works);
      pending := handle;
    }

    /** Forgets a destroyed layer. */
    method EraseLayerCache(layerIndex: int)
      requires Valid()
      modifies this`cache, this`stat, kernel
      ensures Valid() && kernel.next == old(kernel.next)
      ensures cache == old(cache) - Entries(old(cache), layerIndex)
      ensures stat == old(stat) - {layerIndex}
    {
      hide Linked, CountsAgree, Entries, Evicted;
      var rest := cache.Keys;
      NoneEvicted(cache, layerIndex);
      while rest != {}
        invariant rest <= cache.Keys
        invariant Linked() && pending == 0 && kernel.next == old(kernel.next) && stat == old(stat)
        invariant Evicted(old(cache), cache, layerIndex)
        invariant forall s :: s in cache && s !in rest ==> cache[s].layerIndex != layerIndex
        decreases rest
      {
        var s :| s in rest;
        if cache[s].layerIndex == layerIndex {
          EvictAnother(old(cache), cache, s, layerIndex);
          var _ := Drop(s);
        }
        rest := rest - {s};
      }
      EvictedAll(old(cache), cache, layerIndex);
      EraseAgrees(cache, stat, old(cache), layerIndex);
      SetStat(stat - {layerIndex});
    }

    /** Closes everything. */
    method Clear()
      requires Valid()
      modifies this`cache, this`stat, kernel
      ensures Valid() && cache == map[] && stat == map[] && kernel.open == map[]
      ensures kernel.next == old(kernel.next)
    {
      hide CountsAgree, Entries;
      while cache != map[]
        invariant Linked() && pending == 0 && kernel.next == old(kernel.next)
        decreases cache.Keys
      {
        var s :| s in cache;
        var _ := Drop(s);
      }
      SetStat(map[]);
      NoEntries();
      assert kernel.open.Keys == {};
    }

    method SetCachePerLayerLimit(limit: int)
      requires Valid()
      modifies this`limit
      ensures Valid() && this.limit == limit
      ensures old(Bounded()) && limit >= old(this.limit) ==> Bounded()
    {
      this.limit := limit;
    }
  }

  /** A layer above the limit was left with room for one more, others were left alone. */
  ghost predicate Trimmed(before: map<Stamp, CacheInfo>, after: map<Stamp, CacheInfo>, i: int, limit: int) {
    var n := |Entries(before, i)|;
    |Entries(after, i)| == if n > limit then limit - 1 else n
  }

  method AnyOf<T>(layers: set<T>) returns (layer: T)
    requires layers != {}
    ensures layer in layers
  {
    layer :| layer in layers;
  }

  /** Every handle ever opened is cached, or was closed, never both and closed only once. */
  lemma HandlesConserved(c: PrimeCache)
    requires c.Valid()
    ensures c.kernel.open.Keys == set s | s in c.cache :: c.cache[s].handle
    ensures forall h :: 0 < h < c.kernel.next <==> h in c.kernel.open || h in c.kernel.closed
    ensures forall h :: h in c.kernel.open ==> h !in c.kernel.closed
    ensures forall s, t :: s in c.cache && t in c.cache && s != t ==> c.cache[s].handle != c.cache[t].handle
    ensures forall i, j :: 0 <= i < j < |c.kernel.closed| ==> c.kernel.closed[i] != c.kernel.closed[j]
  {
  }

  /** Dropping an entry and counting it out keeps the statistics right. */
  lemma DropAgrees(cache: map<Stamp, CacheInfo>, stat: map<int, int>, stamp: Stamp, layer: int)
    requires CountsAgree(cache, stat) && stamp in Entries(cache, layer) && layer in stat
    ensures CountsAgree(cache - {stamp}, stat[layer := stat[layer] - 1])
    ensures Entries(cache - {stamp}, layer) == Entries(cache, layer) - {stamp}
    ensures Evicted(cache, cache - {stamp}, layer) && stamp in cache
  {
    forall i
      ensures Entries(cache - {stamp}, i) == if i == layer then Entries(cache, i) - {stamp} else Entries(cache, i)
    {
    }
  }

  lemma EvictedKeys(big: map<Stamp, CacheInfo>, small: map<Stamp, CacheInfo>, layer: int, stamp: Stamp)
    requires Evicted(big, small, layer)
    ensures stamp in small ==> stamp in big
  {
  }

  lemma NoneEvicted(cache: map<Stamp, CacheInfo>, layer: int)
    ensures Evicted(cache, cache, layer)
  {
  }

  lemma EvictAnother(big: map<Stamp, CacheInfo>, small: map<Stamp, CacheInfo>, stamp: Stamp, layer: int)
    requires Evicted(big, small, layer) && stamp in small && small[stamp].layerIndex == layer
    ensures Evicted(big, small - {stamp}, layer)
  {
  }

  lemma EvictedAll(big: map<Stamp, CacheInfo>, small: map<Stamp, CacheInfo>, layer: int)
    requires Evicted(big, small, layer)
    requires forall s :: s in small ==> small[s].layerIndex != layer
    ensures small == big - Entries(big, layer)
  {
  }

  lemma CountOf(cache: map<Stamp, CacheInfo>, stat: map<int, int>, i: int)
    requires CountsAgree(cache, stat)
    ensures |Entries(cache, i)| == if i in stat then stat[i] else 0
  {
  }

  lemma AddAgrees(cache: map<Stamp, CacheInfo>, stat: map<int, int>, stamp: Stamp, info: CacheInfo)
    requires CountsAgree(cache, stat) && stamp !in cache && info.layerIndex in stat
    ensures CountsAgree(cache[stamp := info], stat[info.layerIndex := stat[info.layerIndex] + 1])
    ensures |Entries(cache[stamp := info], info.layerIndex)| == |Entries(cache, info.layerIndex)| + 1
  {
    forall i ensures |Entries(cache[stamp := info], i)| == |Entries(cache, i)| + if i == info.layerIndex then 1 else 0 {
      AddToLayer(cache, stamp, info, i);
    }
  }

  lemma AddToLayer(cache: map<Stamp, CacheInfo>, stamp: Stamp, info: CacheInfo, i: int)
    requires stamp !in cache
    ensures |Entries(cache[stamp := info], i)| == |Entries(cache, i)| + if i == info.layerIndex then 1 else 0
  {
    if i == info.layerIndex {
      assert Entries(cache[stamp := info], i) == Entries(cache, i) + {stamp};
    } else {
      assert Entries(cache[stamp := info], i) == Entries(cache, i);
    }
  }

  lemma EraseAgrees(cache: map<Stamp, CacheInfo>, stat: map<int, int>, before: map<Stamp, CacheInfo>, layer: int)
    requires CountsAgree(before, stat) && cache == before - Entries(before, layer)
    ensures CountsAgree(cache, stat - {layer})
  {
    forall i ensures Entries(cache, i) == if i == layer then {} else Entries(before, i) {
    }
  }

  lemma WithoutStamp(cache: map<Stamp, CacheInfo>, stamp: Stamp, i: int)
    requires stamp in cache && cache[stamp].layerIndex != i
    ensures Entries(cache - {stamp}, i) == Entries(cache, i)
  {
  }

  lemma OthersStay(big: map<Stamp, CacheInfo>, small: map<Stamp, CacheInfo>, layer: int, i: int)
    requires Evicted(big, small, layer) && i != layer
    ensures Entries(small, i) == Entries(big, i)
  {
  }

  lemma NoEntries()
    ensures CountsAgree(map[], map[])
  {
    forall i ensures Entries(map[], i) == {} {
    }
  }

  ghost predicate Lists(list: seq<Stamp>, s: set<Stamp>) {
    |list| == |s| && (forall x :: x in list <==> x in s)
    && forall i, j :: 0 <= i < j < |list| ==> list[i] != list[j]
  }

  lemma ListsStep(list: seq<Stamp>, s: set<Stamp>, x: Stamp)
    requires Lists(list, s) && x !in s
    ensures Lists(list + [x], s + {x})
  {
  }

  lemma ListsMember(list: seq<Stamp>, s: set<Stamp>, i: nat)
    requires Lists(list, s) && i < |list|
    ensures list[i] in s
  {
  }

  lemma ListsRemove(list: seq<Stamp>, s: set<Stamp>, i: nat)
    requires Lists(list, s) && i < |list|
    ensures Lists(list[..i] + list[i + 1..], s - {list[i]})
  {
    var r := list[..i] + list[i + 1..];
    forall x ensures x in r <==> x in s && x != list[i] {
      if x in s && x != list[i] {
        var k :| 0 <= k < |list| && list[k] == x;
        assert r[if k < i then k else k - 1] == x;
      }
    }
  }
}
