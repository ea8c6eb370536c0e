/** HotPlug: which connectors are connected, which display each one drives, and the cache limit. */
module HotPlug {
  import opened PrimeCache

  const NUM_DISPLAYS: nat := 3
  const HWC_DISPLAY_PRIMARY: nat := 0

  datatype Status = Connected | Disconnected | Undefined

  /** What one pass over sysfs reads for a connector, and whether HwcDisplay::init() would succeed. */
  datatype Reading = Reading(status: Status, works: bool)

  datatype Connector = Connector(isConnected: bool, isReInit: bool, displayType: nat)

  /** mConnectDisplays, the keys of mDisplays, and mInitDisplays. */
  datatype Connections = Connections(connectors: seq<Connector>, displays: set<nat>, init: bool)

  const UNSEEN := Connector(false, false, 0)

  const START := Connections([UNSEEN, UNSEEN, UNSEEN], {}, false)

  function Count(connectors: seq<Connector>): nat {
    if connectors == [] then 0
    else Count(connectors[1..]) + if connectors[0].isConnected then 1 else 0
  }

  function SetConnected(c: Connections, d: nat, on: bool): Connections
    requires d < |c.connectors|
  {
    c.(connectors := c.connectors[d := c.connectors[d].(isConnected := on)])
  }

  /** A connector seen for the first time gets the next free id. */
  function Create(c: Connections, d: nat): Connections
    requires d < |c.connectors|
  {
    Connections(c.connectors[d := Connector(true, true, |c.displays|)], c.displays + {|c.displays|}, true)
  }

  /** What a reading does to one connector. */
  function Serve(c: Connections, d: nat, r: Reading): Connections
    requires d < |c.connectors|
  {
    var k := c.connectors[d];
    if r.status.Disconnected? && k.isConnected && k.displayType != HWC_DISPLAY_PRIMARY then SetConnected(c, d, false)
    else if r.status.Connected? && !k.isConnected && k.isReInit then SetConnected(c, d, true)
    else if r.status.Connected? && !k.isConnected && r.works then Create(c, d)
    else c
  }

  /** One pass, up to connector n. */
  function Pass(c: Connections, poll: seq<Reading>, n: nat): (after: Connections)
    requires n <= |poll| == |c.connectors|
    ensures |after.connectors| == |c.connectors|
  {
    if n == 0 then c else Serve(Pass(c, poll, n - 1), n - 1, poll[n - 1])
  }

  const UNREADABLE := Reading(Undefined, false)

  type Poll = p: seq<Reading> | |p| == NUM_DISPLAYS witness [UNREADABLE, UNREADABLE, UNREADABLE]

  function Passes(polls: seq<Poll>): (c: Connections)
    ensures |c.connectors| == NUM_DISPLAYS
  {
    if polls == [] then START
    else Pass(Passes(polls[..|polls| - 1]), polls[|polls| - 1], NUM_DISPLAYS)
  }

  /** Display ids are dense, each display belongs to one connector, and the primary one is connected. */
  ghost predicate Consistent(c: Connections) {
    && |c.connectors| == NUM_DISPLAYS
    && c.init == (c.displays != {})
    && Dense(c.displays)
    && (forall d :: 0 <= d < NUM_DISPLAYS && c.connectors[d].isConnected ==> c.connectors[d].isReInit)
    && (forall d :: 0 <= d < NUM_DISPLAYS && c.connectors[d].isReInit ==> c.connectors[d].displayType in c.displays)
    && (forall d, e :: 0 <= d < e < NUM_DISPLAYS && c.connectors[d].isReInit && c.connectors[e].isReInit ==>
          c.connectors[d].displayType != c.connectors[e].displayType)
    && (forall t :: t in c.displays ==> Drives(c, 0, t) || Drives(c, 1, t) || Drives(c, 2, t))
    && (forall d :: 0 <= d < NUM_DISPLAYS && Drives(c, d, HWC_DISPLAY_PRIMARY) ==> c.connectors[d].isConnected)
  }

  ghost predicate Dense(displays: set<nat>) {
    forall t :: t in displays <==> 0 <= t < |displays|
  }

  lemma DenseGrows(displays: set<nat>)
    requires Dense(displays)
    ensures |displays| !in displays && Dense(displays + {|displays|})
    ensures displays != {} ==> 0 in displays
  {
  }

  predicate Drives(c: Connections, d: nat, display: nat) {
    d < |c.connectors| && c.connectors[d].isReInit && c.connectors[d].displayType == display
  }

  lemma {:induction false} CountUpdate(cs: seq<Connector>, d: nat, k: Connector)
    requires d < |cs|
    ensures Count(cs[d := k]) - (if k.isConnected then 1 else 0) == Count(cs) - (if cs[d].isConnected then 1 else 0)
  {
    if d > 0 {
      assert cs[d := k][1..] == cs[1..][d - 1 := k];
      CountUpdate(cs[1..], d - 1, k);
    } else {
      assert cs[d := k][1..] == cs[1..];
    }
  }

  lemma {:induction false} CountPositive(cs: seq<Connector>, d: nat)
    requires d < |cs| && cs[d].isConnected
    ensures Count(cs) > 0
  {
    if d > 0 {
      CountPositive(cs[1..], d - 1);
    }
  }

  /** A display once created keeps its id and its connector. */
  ghost predicate Extends(c: Connections, after: Connections) {
    && |c.connectors| == |after.connectors|
    && c.displays <= after.displays && (c.init ==> after.init)
    && forall d :: 0 <= d < |c.connectors| && c.connectors[d].isReInit ==>
         && after.connectors[d].isReInit && after.connectors[d].displayType == c.connectors[d].displayType
         && (c.connectors[d].isConnected && c.connectors[d].displayType == HWC_DISPLAY_PRIMARY ==>
             after.connectors[d].isConnected)
  }

  lemma SetConnectedKeeps(c: Connections, d: nat, on: bool)
    requires Consistent(c) && d < NUM_DISPLAYS && c.connectors[d].isReInit
    requires on || c.connectors[d].displayType != HWC_DISPLAY_PRIMARY
    ensures Consistent(SetConnected(c, d, on)) && Extends(c, SetConnected(c, d, on))
  {
  }

  lemma CreateKeeps(c: Connections, d: nat)
    requires Consistent(c) && d < NUM_DISPLAYS && !c.connectors[d].isReInit
    ensures Consistent(Create(c, d)) && Extends(c, Create(c, d))
  {
    hide Dense;
    DenseGrows(c.displays);
    var after := Create(c, d);
    assert forall e, t :: 0 <= e < NUM_DISPLAYS && t in c.displays ==> (Drives(after, e, t) <==> Drives(c, e, t));
    assert Drives(after, d, |c.displays|);
  }

  lemma ServeKeeps(c: Connections, d: nat, r: Reading)
    requires |c.connectors| == NUM_DISPLAYS && Consistent(c) && d < NUM_DISPLAYS
    ensures Consistent(Serve(c, d, r)) && Extends(c, Serve(c, d, r))
  {
    hide Extends;
    var k := c.connectors[d];
    if r.status.Disconnected? && k.isConnected && k.displayType != HWC_DISPLAY_PRIMARY {
      SetConnectedKeeps(c, d, false);
    } else if r.status.Connected? && !k.isConnected && k.isReInit {
      SetConnectedKeeps(c, d, true);
    } else if r.status.Connected? && !k.isConnected && r.works {
      CreateKeeps(c, d);
    } else {
      ExtendsSelf(c);
    }
  }

  lemma ExtendsSelf(c: Connections)
    ensures Extends(c, c)
  {
  }

  lemma ExtendsOn(c: Connections, d: Connections, e: Connections)
    requires Extends(c, d) && Extends(d, e)
    ensures Extends(c, e)
  {
  }

  lemma {:induction false} PassKeeps(c: Connections, poll: seq<Reading>, n: nat)
    requires Consistent(c) && n <= |poll| == NUM_DISPLAYS == |c.connectors|
    ensures Consistent(Pass(c, poll, n)) && Extends(c, Pass(c, poll, n))
  {
    hide Consistent, Extends, Serve;
    if n == 0 {
      ExtendsSelf(c);
    } else {
      PassKeeps(c, poll, n - 1);
      ServeKeeps(Pass(c, poll, n - 1), n - 1, poll[n - 1]);
      ExtendsOn(c, Pass(c, poll, n - 1), Pass(c, poll, n));
    }
  }

  /** After a pass each connector is as its own reading says: connected if it is and can be, kept if it
      cannot be read or drives the primary display, disconnected otherwise. */
  lemma {:induction false} ConnectorAfterPass(c: Connections, poll: seq<Reading>, n: nat, d: nat)
    requires n <= |poll| == |c.connectors| && d < |poll|
    ensures var before, after, r := c.connectors[d], Pass(c, poll, n).connectors[d], poll[d];
            if d >= n then after == before
            else
              && (after.isConnected <==>
                    match r.status
                    case Connected => before.isConnected || before.isReInit || r.works
                    case Disconnected => before.isConnected && before.displayType == HWC_DISPLAY_PRIMARY
                    case Undefined => before.isConnected)
              && (before.isReInit ==> after.isReInit && after.displayType == before.displayType)
              && (after.isReInit ==> before.isReInit || after.isConnected)
    decreases n
  {
    if n > 0 {
      ConnectorAfterPass(c, poll, n - 1, d);
    }
  }

  /** A connector that is served keeps its id, or gets the next one; the others keep theirs. */
  lemma ServeGives(c: Connections, d: nat, r: Reading)
    requires |c.connectors| == NUM_DISPLAYS && Consistent(c) && d < NUM_DISPLAYS
    ensures var after := Serve(c, d, r);
            && |after.displays| >= |c.displays|
            && (forall e :: 0 <= e < NUM_DISPLAYS && e != d ==> after.connectors[e] == c.connectors[e])
            && (if c.connectors[d].isReInit then after.connectors[d].displayType == c.connectors[d].displayType
                else after.connectors[d].isReInit ==> after.connectors[d].displayType == |c.displays|)
            && (c.connectors[d].isReInit ==> after.connectors[d].isReInit)
  {
    hide Drives;
    DenseGrows(c.displays);
  }

  lemma IdsBelow(c: Connections)
    requires Consistent(c)
    ensures forall d :: 0 <= d < NUM_DISPLAYS && c.connectors[d].isReInit ==> c.connectors[d].displayType < |c.displays|
  {
  }

  /** Connectors seen for the first time in one pass get their ids in the order of the connectors, behind
      those of the displays there were. */
  lemma {:induction false} NewIdsInOrder(c: Connections, poll: seq<Reading>, n: nat, d: nat, e: nat)
    requires |c.connectors| == NUM_DISPLAYS && Consistent(c)
    requires n <= |poll| == NUM_DISPLAYS && d < NUM_DISPLAYS && e < NUM_DISPLAYS
    requires !c.connectors[e].isReInit && Pass(c, poll, n).connectors[e].isReInit
    ensures Pass(c, poll, n).connectors[e].displayType >= |c.displays|
    ensures d < e && Pass(c, poll, n).connectors[d].isReInit ==>
              Pass(c, poll, n).connectors[d].displayType < Pass(c, poll, n).connectors[e].displayType
    decreases n
  {
    hide Consistent, Serve, Extends;
    assert n > 0;
    var before := Pass(c, poll, n - 1);
    PassKeeps(c, poll, n - 1);
    IdsBelow(before);
    NeverFewer(c, poll, n - 1);
    ServeGives(before, n - 1, poll[n - 1]);
    if before.connectors[e].isReInit {
      NewIdsInOrder(c, poll, n - 1, d, e);
      NotServedYet(c, poll, n - 1, e);
    }
  }

  /** Connectors that a pass has not come to are as before. */
  lemma {:induction false} NotServedYet(c: Connections, poll: seq<Reading>, n: nat, e: nat)
    requires n <= |poll| == |c.connectors| && e < |poll|
    ensures n <= e ==> Pass(c, poll, n).connectors[e] == c.connectors[e]
  {
    ConnectorAfterPass(c, poll, n, e);
  }

  lemma {:induction false} NeverFewer(c: Connections, poll: seq<Reading>, n: nat)
    requires |c.connectors| == NUM_DISPLAYS && Consistent(c) && n <= |poll| == NUM_DISPLAYS
    ensures |Pass(c, poll, n).displays| >= |c.displays|
  {
    hide Consistent, Serve, Extends;
    if n > 0 {
      NeverFewer(c, poll, n - 1);
      PassKeeps(c, poll, n - 1);
      ServeGives(Pass(c, poll, n - 1), n - 1, poll[n - 1]);
    }
  }

  /** Over every run: ids stay dense, and once any display exists the primary one is connected, so the
      limit of three entries per connected connector is at least three. */
  lemma {:induction false} RunsAreConsistent(polls: seq<Poll>)
    ensures Consistent(Passes(polls))
    ensures Passes(polls).init ==> Count(Passes(polls).connectors) > 0
  {
    if polls != [] {
      RunsAreConsistent(polls[..|polls| - 1]);
      PassKeeps(Passes(polls[..|polls| - 1]), polls[|polls| - 1], NUM_DISPLAYS);
    }
    PrimaryCounts(Passes(polls));
  }

  lemma PrimaryCounts(c: Connections)
    requires Consistent(c)
    ensures c.init ==> Count(c.connectors) > 0
  {
    if c.init {
      var t :| t in c.displays;
      assert HWC_DISPLAY_PRIMARY in c.displays;
      var d := if Drives(c, 0, HWC_DISPLAY_PRIMARY) then 0 else if Drives(c, 1, HWC_DISPLAY_PRIMARY) then 1 else 2;
      CountPositive(c.connectors, d);
    }
  }

  /** A later poll never renames a display, removes one, or disconnects the primary. */
  lemma {:induction false} RunsExtend(polls: seq<Poll>, n: nat)
    requires n <= |polls|
    ensures Extends(Passes(polls[..n]), Passes(polls))
  {
    if n == |polls| {
      assert polls[..n] == polls;
    } else {
      var before := polls[..|polls| - 1];
      assert before[..n] == polls[..n];
      RunsExtend(before, n);
      RunsAreConsistent(before);
      PassKeeps(Passes(before), polls[|polls| - 1], NUM_DISPLAYS);
    }
  }

  /** A poll brings up the first display exactly when some connector is connected and comes up. */
  predicate Starts(poll: seq<Reading>, n: nat)
    requires n <= |poll|
  {
    exists d :: 0 <= d < n && poll[d].status.Connected? && poll[d].works
  }

  lemma {:induction false} PassStarts(c: Connections, poll: seq<Reading>, n: nat)
    requires Consistent(c) && n <= |poll| == NUM_DISPLAYS && !c.init
    ensures Pass(c, poll, n).init <==> Starts(poll, n)
    ensures !Starts(poll, n) ==> Pass(c, poll, n) == c
  {
    if n > 0 {
      PassStarts(c, poll, n - 1);
      PassKeeps(c, poll, n - 1);
      var before := Pass(c, poll, n - 1);
      assert Starts(poll, n) <==> Starts(poll, n - 1) || (poll[n - 1].status.Connected? && poll[n - 1].works);
      if !before.init {
        assert !before.connectors[n - 1].isReInit;
      }
    }
  }

  /** What reaches the cache: a uevent, an import for a layer, a layer's end, the camera path. */
  datatype Event =
    | Uevent(poll: Poll)
    | Find(stamp: Stamp, buffer: Buffer, works: bool, index: int)
    | LayerDestroyed(index: int)
    | CameraStarts

  class HotPlug {
    const cache: PrimeCache
    var connectors: seq<Connector>
    var displays: set<nat>
    var initDisplays: bool

    constructor (cache: PrimeCache)
      requires cache.Valid() && cache.Bounded() && cache.limit == 0
      ensures Valid() && View() == START && this.cache == cache
    {
      this.cache := cache;
      connectors := [UNSEEN, UNSEEN, UNSEEN];
      displays, initDisplays := {}, false;
      RunsAreConsistent([]);
      assert Count([UNSEEN, UNSEEN, UNSEEN]) == Count([UNSEEN, UNSEEN]) == Count([UNSEEN]) == 0;
    }

    ghost function View(): Connections
      reads this
    {
      Connections(connectors, displays, initDisplays)
    }

    /** The limit is three entries per connected connector, and no layer has more. */
    ghost predicate Valid()
      reads this, cache, cache.kernel
    {
      && |connectors| == NUM_DISPLAYS && Consistent(View())
      && cache.Valid() && cache.Bounded()
      && cache.limit == 3 * Count(connectors)
    }

    /** Creates the display of a connector seen for the first time, under the next free id. */
    method LoadDisplayConfiguration(d: nat, works: bool) returns (ok: bool)
      requires |connectors| == NUM_DISPLAYS && Consistent(View()) && d < NUM_DISPLAYS
      modifies this
      ensures ok == (old(connectors[d].isReInit) || works)
      ensures !ok || old(connectors[d].isReInit) ==> View() == old(View())
      ensures ok && !old(connectors[d].isReInit) ==>
                View() == Create(old(View()), d).(connectors := connectors)
                && connectors == old(connectors)[d := Connector(old(connectors[d].isConnected), true, |old(displays)|)]
    {
      if !connectors[d].isReInit {
        var type_ := |displays|;
        displays := displays + {type_};
        if !works {
          displays := displays - {type_};
          return false;
        }
        connectors := connectors[d := connectors[d].(displayType := type_)];
        connectors := connectors[d := connectors[d].(isReInit := true)];
        initDisplays := true;
      } else {
        assert connectors[d].displayType in displays;
      }
      ok := true;
    }

    method Disconnect(d: nat)
      requires Valid() && d < NUM_DISPLAYS && connectors[d].isConnected
      requires connectors[d].displayType != HWC_DISPLAY_PRIMARY
      modifies this, cache`limit, cache`cache, cache`stat, cache.kernel
      ensures Valid() && View() == SetConnected(old(View()), d, false)
    {
      hide Consistent, Count, PrimeCache.Valid, PrimeCache.Bounded, Extends, Drives;
      ConnectedWasInit(View(), d);
      SetConnectedKeeps(View(), d, false);
      PrimaryCounts(SetConnected(View(), d, false));
      CountUpdate(connectors, d, connectors[d].(isConnected := false));
      connectors := connectors[d := connectors[d].(isConnected := false)];
      cache.SetCachePerLayerLimit(cache.limit - 3);
      cache.OptimizeAll();
    }

    method Connect(d: nat, works: bool)
      requires Valid() && d < NUM_DISPLAYS && !connectors[d].isConnected
      modifies this, cache`limit, cache`cache, cache`stat, cache.kernel
      ensures Valid() && View() == Serve(old(View()), d, Reading(Connected, works))
    {
      hide Consistent, Count, PrimeCache.Linked, CountsAgree, Entries, Extends, Drives;
      ghost var before := View();
      ServeKeeps(before, d, Reading(Connected, works));
      var ok := LoadDisplayConfiguration(d, works);
      if !ok {
        return;
      }
      connectors := connectors[d := connectors[d].(isConnected := true)];
      assert connectors == before.connectors[d := connectors[d]];
      CountUpdate(before.connectors, d, connectors[d]);
      cache.SetCachePerLayerLimit(cache.limit + 3);
    }

    method HookConnector(d: nat, r: Reading)
      requires Valid() && d < NUM_DISPLAYS
      modifies this, cache`limit, cache`cache, cache`stat, cache.kernel
      ensures Valid() && View() == Serve(old(View()), d, r)
    {
      hide Consistent, Count, PrimeCache.Linked, CountsAgree, Entries;
      if r.status.Disconnected? && connectors[d].isConnected {
        if connectors[d].displayType == HWC_DISPLAY_PRIMARY {
          return;
        }
        Disconnect(d);
      } else if r.status.Connected? && !connectors[d].isConnected {
        Connect(d, r.works);
      }
    }

    /** hookEventHotPlug */
    method HookEventHotPlug(poll: Poll)
      requires Valid()
      modifies this, cache`limit, cache`cache, cache`stat, cache.kernel
      ensures Valid() && View() == Pass(old(View()), poll, NUM_DISPLAYS)
    {
      hide Serve, Consistent, PrimeCache.Valid, PrimeCache.Bounded;
      for d := 0 to NUM_DISPLAYS
        invariant Valid() && View() == Pass(old(View()), poll, d)
      {
        HookConnector(d, poll[d]);
      }
    }

    /** Polls until a display comes up: that is at the first poll that starts one. */
    method InitDisplays(polls: seq<Poll>) returns (used: nat)
      requires Valid() && View() == START
      modifies this, cache`limit, cache`cache, cache`stat, cache.kernel
      ensures Valid() && used <= |polls|
      ensures View() == Passes(polls[..used])
      ensures forall k :: 0 <= k < used ==> (Starts(polls[k], NUM_DISPLAYS) <==> k == used - 1 && initDisplays)
      ensures initDisplays ==> cache.limit >= 3
      ensures !initDisplays ==> used == |polls|
    {
      hide Consistent, PrimeCache.Valid, PrimeCache.Bounded, Pass;
      used := 0;
      while !initDisplays && used < |polls|
        invariant Valid() && used <= |polls| && View() == Passes(polls[..used])
        invariant forall k :: 0 <= k < used ==> (Starts(polls[k], NUM_DISPLAYS) <==> k == used - 1 && initDisplays)
        decreases |polls| - used
      {
        PassStarts(View(), polls[used], NUM_DISPLAYS);
        HookEventHotPlug(polls[used]);
        assert polls[..used + 1][..used] == polls[..used];
        used := used + 1;
      }
      PrimaryCounts(View());
    }

    method Handle(e: Event) returns (handle: nat)
      requires Valid() && initDisplays && Known(e)
      modifies this, cache, cache.kernel
      ensures Valid() && initDisplays
      ensures View() == Told(old(View()), e)
      ensures e.Find? && e.works ==> handle != 0
      ensures handle != 0 ==>
                && e.Find? && handle in cache.kernel.open
                && cache.kernel.open[handle] == e.buffer && old(cache.kernel.Gives(e.buffer, handle))
                && e.stamp in cache.cache && cache.cache[e.stamp].handle == handle
      ensures e.Find? && handle == 0 ==> e.stamp !in old(cache.cache) && cache.cache == old(cache.cache)
      ensures e.Find? && e.stamp in old(cache.cache) ==> cache.cache == old(cache.cache)
      ensures e.LayerDestroyed? ==> cache.cache == old(cache.cache) - Entries(old(cache.cache), e.index)
      ensures e.CameraStarts? ==> cache.cache == map[]
    {
      hide Consistent, PrimeCache.Linked, CountsAgree, Entries, Evicted;
      PrimaryCounts(View());
      handle := 0;
      match e
      case Uevent(poll) =>
        PassExtends(View(), poll);
        HookEventHotPlug(poll);
      case Find(stamp, buffer, works, index) =>
        handle := cache.FindEntry(stamp, buffer, works, index);
      case LayerDestroyed(index) =>
        cache.EraseLayerCache(index);
        StillBounded(old(cache.cache), cache.cache, cache.limit);
      case CameraStarts =>
        cache.Clear();
        StillBounded(old(cache.cache), cache.cache, cache.limit);
    }

    ghost predicate Known(e: Event) {
      e.Find? ==> e.buffer == cache.bufferOf(e.stamp)
    }

    /** Any run of the driver's events once a display is up: connections follow the uevents, the limit
        stays positive and respected, so no draw is ever undefined, and an import gives a handle unless
        it fails on a stamp that is not cached. */
    method Run(events: seq<Event>) returns (handles: seq<nat>)
      requires Valid() && initDisplays && forall k :: 0 <= k < |events| ==> Known(events[k])
      modifies this, cache, cache.kernel
      ensures Valid() && initDisplays && cache.limit >= 3
      ensures View() == After(old(View()), events)
      ensures |handles| == |events|
      ensures forall k :: 0 <= k < |events| && events[k].Find? && events[k].works ==> handles[k] != 0
      ensures forall k :: 0 <= k < |events| && !events[k].Find? ==> handles[k] == 0
    {
      hide Pass, Consistent, Count, PrimeCache.Valid, PrimeCache.Bounded;
      handles := [];
      for k := 0 to |events|
        invariant Valid() && initDisplays && |handles| == k
        invariant View() == After(old(View()), events[..k])
        invariant forall i :: 0 <= i < k && events[i].Find? && events[i].works ==> handles[i] != 0
        invariant forall i :: 0 <= i < k && !events[i].Find? ==> handles[i] == 0
      {
        assert events[..k + 1][..k] == events[..k];
        var handle := Handle(events[k]);
        handles := handles + [handle];
      }
      assert events[..|events|] == events;
      PrimaryCounts(View());
    }
  }

  /** What an event does to the connections. */
  function Told(c: Connections, e: Event): (after: Connections)
    requires |c.connectors| == NUM_DISPLAYS
    ensures |after.connectors| == NUM_DISPLAYS
  {
    if e.Uevent? then Pass(c, e.poll, NUM_DISPLAYS) else c
  }

  function After(c: Connections, events: seq<Event>): (after: Connections)
    requires |c.connectors| == NUM_DISPLAYS
    ensures |after.connectors| == NUM_DISPLAYS
  {
    if events == [] then c else Told(After(c, events[..|events| - 1]), events[|events| - 1])
  }

  lemma PassExtends(c: Connections, poll: Poll)
    requires |c.connectors| == NUM_DISPLAYS && Consistent(c)
    ensures c.init ==> Pass(c, poll, NUM_DISPLAYS).init
  {
    PassKeeps(c, poll, NUM_DISPLAYS);
  }

  lemma StillBounded(cache: map<Stamp, CacheInfo>, after: map<Stamp, CacheInfo>, limit: int)
    requires forall i :: |Entries(cache, i)| <= limit
    requires forall s :: s in after ==> s in cache && after[s] == cache[s]
    ensures forall i :: |Entries(after, i)| <= limit
  {
    forall i ensures |Entries(after, i)| <= |Entries(cache, i)| {
      Smaller(Entries(after, i), Entries(cache, i));
    }
  }

  lemma {:induction false} Smaller(s: set<Stamp>, t: set<Stamp>)
    requires s <= t
    ensures |s| <= |t|
  {
    if s != {} {
      var x :| x in s;
      Smaller(s - {x}, t - {x});
    }
  }

  lemma ConnectedWasInit(c: Connections, d: nat)
    requires Consistent(c) && d < |c.connectors| && c.connectors[d].isConnected
    ensures c.connectors[d].isReInit && c.init
  {
  }
}
