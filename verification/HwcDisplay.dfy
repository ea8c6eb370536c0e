/** HwcDisplay: the objects the planner works on - layers, the z-sorted map, the validated flag -
    and the calls around a plan: validate, report, accept, present. */
module HwcDisplay {
  import opened Words
  import opened Planner
  import opened ZOrder

  /** An element of mLayers. */
  datatype Named = Named(id: nat, layer: HwcLayer)

  ghost function Objects(ls: seq<Named>): set<HwcLayer> {
    set l | l in ls :: l.layer
  }

  /** Entries of distinct layers of a display. */
  ghost predicate ListedIn(ls: seq<Named>, es: seq<Entry>) {
    && |es| < TWO32
    && (forall i :: 0 <= i < |es| ==> es[i].layer in Objects(ls))
    && (forall i, j :: 0 <= i < j < |es| ==> es[i].layer != es[j].layer)
  }

  /** Distinct z values below 2^31, said of the keys they become. */
  ghost predicate ClearZ(es: seq<Entry>) {
    DistinctKeys(es) && forall i :: 0 <= i < |es| ==> es[i].key >= 0
  }

  /** A layer as getChangedCompositionTypes sees it. */
  datatype Report = Report(id: nat, requested: Composition, validated: Composition)

  function ChangedOf(rs: seq<Report>): seq<(nat, Composition)> {
    if rs == [] then []
    else
      var r := rs[|rs| - 1];
      ChangedOf(rs[..|rs| - 1]) + if r.requested != r.validated then [(r.id, r.validated)] else []
  }

  function Ids(changed: seq<(nat, Composition)>): seq<nat> {
    seq(|changed|, i requires 0 <= i < |changed| => changed[i].0)
  }

  function NewTypes(changed: seq<(nat, Composition)>): seq<Composition> {
    seq(|changed|, i requires 0 <= i < |changed| => changed[i].1)
  }

  /** The first `limit` elements of `a` are those of `b`, as far as there are any. */
  ghost predicate StartsWith<T>(a: seq<T>, b: seq<T>, limit: nat) {
    limit <= |a| && forall k :: 0 <= k < limit && k < |b| ==> a[k] == b[k]
  }

  lemma StartsWithNothing<T>(a: array?<T>, limit: nat)
    ensures a != null && limit <= a.Length ==> StartsWith(a[..], [], limit)
  {
  }

  class Display {
    const supportedFormats: set<int>
    const clientLayer: HwcLayer     // mClientLayer, the client target
    var layers: seq<Named>          // mLayers, in id order
    var sorted: seq<Entry>          // mLayersSortedByZ
    var planes: nat                 // mPlanes.size()
    var interlaced: bool
    var maxDevicePlanes: nat
    var colorTransform: int
    var layerIndex: nat
    var validated: bool             // mValidated

    ghost predicate Valid()
      reads this
    {
      && |layers| < TWO32 && maxDevicePlanes == MaxDevicePlanes(planes, interlaced)
      && (forall i, j :: 0 <= i < j < |layers| ==> layers[i].id < layers[j].id && layers[i].layer != layers[j].layer)
      && (forall i :: 0 <= i < |layers| ==> layers[i].id < layerIndex && layers[i].layer != clientLayer)
    }

    constructor (supportedFormats: set<int>, planes: nat, interlaced: bool)
      ensures Valid() && layers == [] && !validated && this.planes == planes && this.interlaced == interlaced
      ensures fresh(clientLayer)
    {
      this.supportedFormats, this.planes, this.interlaced := supportedFormats, planes, interlaced;
      maxDevicePlanes := MaxDevicePlanes(planes, interlaced);
      clientLayer := new HwcLayer();
      layers, sorted, colorTransform, layerIndex, validated := [], [], 0, 2, false;
    }

    function InfoOf(l: HwcLayer): Info
      reads this`colorTransform
      reads l`sfType, l`format, l`transformed, l`displayFrame, l`sourceCrop, l`skipComposition
    {
      Info(l.sfType,
           colorTransform == 0 && l.format.Some? && l.format.value in supportedFormats
           && !l.transformed && l.CheckLayer(),
           l.skipComposition)
    }

    ghost function Infos(es: seq<Entry>): (infos: seq<Info>)
      reads this`colorTransform
      reads Layers(es)`sfType, Layers(es)`format, Layers(es)`transformed
      reads Layers(es)`displayFrame, Layers(es)`sourceCrop, Layers(es)`skipComposition
      ensures |infos| == |es| && forall i :: 0 <= i < |es| ==> infos[i] == InfoOf(es[i].layer)
    {
      if es == [] then [] else Infos(es[..|es| - 1]) + [InfoOf(es[|es| - 1].layer)]
    }

    static ghost function Entries(ls: seq<Named>): (es: seq<Entry>)
      reads Objects(ls)`zorder
      ensures |es| == |ls| && forall i :: 0 <= i < |ls| ==> es[i] == Entry(ToSigned(ls[i].layer.zorder), ls[i].layer)
    {
      if ls == [] then []
      else Entries(ls[..|ls| - 1]) + [Entry(ToSigned(ls[|ls| - 1].layer.zorder), ls[|ls| - 1].layer)]
    }

    /** layerSupported */
    method LayerSupported(layer: HwcLayer, devicePlanes: Word) returns (supported: bool)
      ensures supported == Supported(InfoOf(layer), devicePlanes, maxDevicePlanes)
    {
      if colorTransform != 0 || layer.format.None? {
        return false;
      }
      var formatSupported := layer.format.value in supportedFormats;
      supported := devicePlanes < maxDevicePlanes && layer.sfType == Device && !layer.transformed
                   && layer.CheckLayer() && formatSupported;
    }

    method CreateLayer() returns (id: nat)
      requires Valid() && |layers| + 1 < TWO32
      modifies this`layers, this`layerIndex
      ensures Valid() && id == old(layerIndex) && layerIndex == id + 1 && |layers| == |old(layers)| + 1
      ensures layers[..|layers| - 1] == old(layers) && layers[|layers| - 1].id == id
              && fresh(layers[|layers| - 1].layer)
      ensures var l := layers[|layers| - 1].layer;
              l.sfType == l.validatedType == Invalid && l.zorder == 0 && l.format == None
    {
      var layer := new HwcLayer();
      id := layerIndex;
      layers := layers + [Named(id, layer)];
      layerIndex := layerIndex + 1;
    }

    /** The z-sorted map holds distinct layers of this display. */
    ghost predicate Listed()
      reads this`layers, this`sorted
    {
      ListedIn(layers, sorted)
    }

    /** Emplaces the layers, in id order, into an empty map. */
    static method SortLayers(ls: seq<Named>) returns (es: seq<Entry>)
      ensures es == SortByKey(Entries(ls))
    {
      hide Emplace;
      ghost var all := Entries(ls);
      es := [];
      for i := 0 to |ls|
        invariant es == SortByKey(all[..i])
      {
        assert all[..i + 1][..i] == all[..i];
        es := Emplace(es, Entry(ToSigned(ls[i].layer.zorder), ls[i].layer));
      }
      assert all[..|ls|] == all;
    }

    method RebuildSorted()
      requires Valid()
      modifies this`sorted
      ensures sorted == SortByKey(Entries(layers)) && Listed()
    {
      hide SortByKey, Entries, ListedIn, Objects;
      sorted := SortLayers(layers);
      RebuiltIsListed(this);
    }

    /** Validated types of the entries, in z order. */
    static ghost function Validated(es: seq<Entry>): (types: seq<Composition>)
      reads Layers(es)`validatedType
      ensures |types| == |es| && forall i :: 0 <= i < |es| ==> types[i] == es[i].layer.validatedType
    {
      if es == [] then [] else Validated(es[..|es| - 1]) + [es[|es| - 1].layer.validatedType]
    }

    /** The layers of the map have the types of the plan for them. */
    ghost predicate Planned()
      reads this, Layers(sorted)
    {
      Validated(sorted) == Plan(Infos(sorted), planes, maxDevicePlanes).types
    }

    /** The z values of the layers. */
    ghost function ZOf(): (z: map<HwcLayer, int>)
      reads this`layers, Objects(layers)`zorder
      ensures z.Keys == Objects(layers) && forall l | l in Objects(layers) :: z[l] == l.zorder
    {
      map l | l in Objects(layers) :: l.zorder
    }

    /** One turn of the planning loop: the switch over the requested type. */
    method PlanLayer(layer: HwcLayer, devices: Word, last: bool, changes: int)
      returns (devices': nat, last': bool, changes': int)
      modifies layer`validatedType
      ensures forall types :: Assign(Pass(types, devices, last, changes), old(InfoOf(layer)), maxDevicePlanes)
                == Pass(types + [layer.validatedType], devices', last', changes')
      ensures devices' <= devices + 1
    {
      devices', last', changes' := devices, last, changes;
      match layer.sfType
      case Device =>
        var supported := LayerSupported(layer, devices);
        if supported && last {
          layer.validatedType := Device;
          devices' := devices + 1;
        } else {
          layer.validatedType := Client;
          last', changes' := false, changes + 1;
        }
      case Sideband =>
        layer.validatedType := Client;
        last', changes' := false, changes + 1;
      case Cursor =>
        layer.validatedType := Client;
        last', changes' := false, changes + 1;
      case SolidColor =>
        if layer.skipComposition && last {
          layer.validatedType := SolidColor;
        } else {
          layer.validatedType := Client;
          last', changes' := false, changes + 1;
        }
      case Client =>
        layer.validatedType := Client;
        last' := false;
      case _ =>
        layer.validatedType := layer.sfType;
    }

    /** The planning loop over the z-sorted map. */
    method PlanLayers() returns (devices: nat, last: bool, changes: int)
      requires Listed()
      modifies Layers(sorted)`validatedType
      ensures Greedy(old(Infos(sorted)), maxDevicePlanes) == Pass(Validated(sorted), devices, last, changes)
      ensures devices <= |sorted|
    {
      hide Objects, Assign, InfoOf, Greedy;
      ghost var infos := Infos(sorted);
      ghost var types := [];
      devices, last, changes := 0, true, 0;
      GreedyNothing(infos, maxDevicePlanes);
      for i := 0 to |sorted|
        invariant forall k :: 0 <= k < |sorted| ==> InfoOf(sorted[k].layer) == infos[k]
        invariant |types| == i && forall k :: 0 <= k < i ==> sorted[k].layer.validatedType == types[k]
        invariant Greedy(infos[..i], maxDevicePlanes) == Pass(types, devices, last, changes)
        invariant devices <= i
      {
        GreedyStep(infos, i, maxDevicePlanes);
        devices, last, changes := PlanLayer(sorted[i].layer, devices, last, changes);
        types := types + [sorted[i].layer.validatedType];
      }
      assert infos[..|sorted|] == infos && types == Validated(sorted);
    }

    /** The final promotion of the top layer. */
    method PromoteTop(devices: nat, last: bool, changes: int) returns (changes': int)
      requires Listed()
      modifies Layers(sorted)`validatedType
      ensures var p := Pass(old(Validated(sorted)), devices, last, changes);
              if Promotes(Infos(sorted), p, planes, maxDevicePlanes)
              then Validated(sorted) == old(Validated(sorted))[|sorted| - 1 := Device] && changes' == changes - 1
              else Validated(sorted) == old(Validated(sorted)) && changes' == changes
    {
      hide InfoOf, Eligible;
      changes' := changes;
      if |sorted| == planes && |sorted| > 0 {
        var layer := sorted[|sorted| - 1].layer;
        var supported := LayerSupported(layer, Wrap(devices as int - 1));
        if supported && !last && devices == planes - 1 {
          layer.validatedType := Device;
          changes' := changes - 1;
          assert Validated(sorted) == old(Validated(sorted))[|sorted| - 1 := Device];
        }
      }
    }

    /** Loop and promotion over the z-sorted map. */
    method PlanSorted() returns (numTypes: int)
      requires Listed()
      modifies Layers(sorted)`validatedType
      ensures var p := Plan(Infos(sorted), planes, maxDevicePlanes);
              Validated(sorted) == p.types && numTypes == p.changes
    {
      hide Greedy, InfoOf, Infos, Validated, Promotes, Objects;
      ghost var infos := Infos(sorted);
      var devices, last;
      devices, last, numTypes := PlanLayers();
      numTypes := PromoteTop(devices, last, numTypes);
      assert Infos(sorted) == infos;
    }

    /** A plane can show the layer: a buffer of a supported format, no colour or other transform, and a frame
        of more than one pixel each way, of the size of the crop without its fraction. */
    ghost predicate FitsPlane(l: HwcLayer)
      reads this`colorTransform
      reads l`format, l`transformed, l`displayFrame, l`sourceCrop
    {
      var f, c := l.displayFrame, l.sourceCrop;
      && colorTransform == 0 && l.format.Some? && l.format.value in supportedFormats && !l.transformed
      && f.right - f.left > 1 && f.bottom - f.top > 1
      && (f.right - f.left) as real <= c.right - c.left < (f.right - f.left) as real + 1.0
      && (f.bottom - f.top) as real <= c.bottom - c.top < (f.bottom - f.top) as real + 1.0
    }

    /** A plane is left for the i-th layer from below: no layer below it is left to the client, and one plane
        more is free than the client target needs; the last one is given to the top layer when the layers
        are as many as the planes and all others have one. */
    ghost predicate PlaneFree(i: nat)
      requires i < |sorted|
      reads this, Layers(sorted)`validatedType
    {
      var below := Validated(sorted[..i]);
      var most := if planes > 1 && !interlaced then planes - 1 else 0;
      && (forall k :: 0 <= k < i ==> below[k] != Client)
      && (Count(below, Device) < most
          || (0 < i == most && |sorted| == planes && forall k :: 0 <= k < i ==> below[k] == Device))
    }

    /** Exactly the layers that ask for a plane, fit one and find one left have one. Of the others, a solid
        colour may be skipped above no client layer, and a type that is not of this interface is kept. */
    ghost predicate EntryRight(i: nat)
      requires i < |sorted|
      reads this, Layers(sorted)
    {
      var l, t := sorted[i].layer, sorted[i].layer.validatedType;
      && (t == Device <==> l.sfType == Device && FitsPlane(l) && PlaneFree(i))
      && (t != Device ==>
            t == if l.sfType.Invalid? || l.sfType.Other? then l.sfType
                 else if l.sfType == SolidColor && l.skipComposition
                         && (forall k :: 0 <= k < i ==> sorted[k].layer.validatedType != Client) then SolidColor
                 else Client)
    }

    ghost predicate TypedRight()
      reads this, Layers(sorted)
    {
      forall i :: 0 <= i < |sorted| ==> EntryRight(i)
    }

    /** validateDisplay gives every layer of the z-sorted map the type of the plan. */
    method ValidateDisplay() returns (numTypes: int, numRequests: nat)
      requires Valid()
      modifies this`sorted, this`validated, Objects(layers)`validatedType
      ensures Valid() && Listed() && validated && sorted == SortByKey(old(Entries(layers))) && numRequests == 0
      ensures var p := Plan(Infos(sorted), planes, maxDevicePlanes);
              Validated(sorted) == p.types && numTypes == p.changes
      ensures TypedRight()
      ensures forall l :: l in Objects(layers) && l !in Layers(sorted) ==> l.validatedType == old(l.validatedType)
    {
      hide SortByKey, Entries, Plan, InfoOf, Infos, Validated, ListedIn, TypedRight;
      numRequests := 0;
      RebuildSorted();
      ListedLayers(layers, sorted);
      numTypes := PlanSorted();
      validated := true;
      PlannedIsRight(this);
    }

    /** acceptDisplayChanges: every request becomes the validated type. */
    method AcceptDisplayChanges()
      requires Valid()
      modifies Objects(layers)`sfType
      ensures forall l | l in Objects(layers) :: !l.TypeChanged()
      ensures Listed() ==> Infos(sorted) == Accept(old(Infos(sorted)), Validated(sorted))
    {
      for i := 0 to |layers|
        invariant forall k :: 0 <= k < i ==> layers[k].layer.sfType == layers[k].layer.validatedType
      {
        layers[i].layer.sfType := layers[i].layer.validatedType;
      }
    }

    /** Validate and accept: the requests become the plan. */
    method ValidateAndAccept() returns (ghost first: seq<Composition>)
      requires Valid()
      modifies this`sorted, this`validated, Objects(layers)`validatedType, Objects(layers)`sfType
      ensures Valid() && Listed() && sorted == SortByKey(old(Entries(layers)))
              && Entries(layers) == old(Entries(layers))
      ensures first == Validated(sorted) == Plan(old(Infos(SortByKey(Entries(layers)))), planes, maxDevicePlanes).types
      ensures Infos(sorted) == Accept(old(Infos(SortByKey(Entries(layers)))), first)
      ensures forall l | l in Objects(layers) :: !l.TypeChanged()
    {
      hide SortByKey, Entries, Plan, InfoOf, Infos, Validated, Accept, Objects, ListedIn;
      ghost var infos := Infos(SortByKey(Entries(layers)));
      var _, _ := ValidateDisplay();
      assert Infos(sorted) == infos;
      AcceptDisplayChanges();
      first := Validated(sorted);
    }

    /** Validating again what was just accepted gives the same types and reports nothing. */
    method Revalidate(ghost infos: seq<Info>, ghost first: seq<Composition>) returns (numTypes: int)
      requires Valid() && Listed() && sorted == SortByKey(Entries(layers)) && |infos| < TWO32
      requires first == Plan(infos, planes, maxDevicePlanes).types && Infos(sorted) == Accept(infos, first)
      requires forall l | l in Objects(layers) :: !l.TypeChanged()
      modifies this`sorted, this`validated, Objects(layers)`validatedType
      ensures Valid() && validated && numTypes == 0 && Validated(sorted) == first
      ensures forall l | l in Objects(layers) :: !l.TypeChanged()
    {
      hide SortByKey, Entries, Plan, InfoOf, Infos, Validated, Accept, ListedIn;
      ghost var now := Infos(sorted);
      ghost var es := sorted;
      PlanIsIdempotent(infos, planes, maxDevicePlanes);
      var requests;
      numTypes, requests := ValidateDisplay();
      assert sorted == es && Infos(sorted) == now;
      AsRequested(this, infos, first);
    }

    /** Validate, accept, validate again: the second plan is the first, nothing is reported as
        changed, and no layer differs from its request. */
    method Settle() returns (numTypes: int, ghost first: seq<Composition>)
      requires Valid()
      modifies this`sorted, this`validated, Objects(layers)`validatedType, Objects(layers)`sfType
      ensures Valid() && validated && numTypes == 0 && Validated(sorted) == first
      ensures first == Plan(old(Infos(SortByKey(Entries(layers)))), planes, maxDevicePlanes).types
      ensures forall l | l in Objects(layers) :: !l.TypeChanged()
    {
      hide SortByKey, Entries, Plan, InfoOf, Infos, Validated, Accept, ListedIn, Objects;
      ghost var infos := Infos(SortByKey(Entries(layers)));
      first := ValidateAndAccept();
      FewEntries(this);
      numTypes := Revalidate(infos, first);
    }

    // ----- reporting -----

    static ghost function Reports(ls: seq<Named>): (rs: seq<Report>)
      reads Objects(ls)
      ensures |rs| == |ls|
      ensures forall i :: 0 <= i < |ls| ==> rs[i] == Report(ls[i].id, ls[i].layer.sfType, ls[i].layer.validatedType)
    {
      if ls == [] then []
      else
        var l := ls[|ls| - 1];
        Reports(ls[..|ls| - 1]) + [Report(l.id, l.layer.sfType, l.layer.validatedType)]
    }

    /** The layers whose type changed, in id order, with their new types. */
    ghost function Changed(): seq<(nat, Composition)>
      reads this`layers, Objects(layers)
    {
      ChangedOf(Reports(layers))
    }

    /** getChangedCompositionTypes: without arrays it counts, with arrays it fills them. */
    method GetChangedCompositionTypes(numElements: nat, ids: array?<nat>, types: array?<Composition>) returns (num: nat)
      requires Valid()
      requires ids != null ==> numElements <= ids.Length
      requires types != null ==> numElements <= types.Length
      modifies ids, types
      ensures num == if ids == null && types == null then |Changed()| else numElements
      ensures ids != null ==> StartsWith(ids[..], Ids(Changed()), numElements)
      ensures types != null ==> StartsWith(types[..], NewTypes(Changed()), numElements)
    {
      hide ChangedOf, StartsWith;
      ghost var rs := Reports(layers);
      ghost var done: seq<(nat, Composition)> := [];
      ChangedNothing(rs);
      assert Ids(done) == [] && NewTypes(done) == [];
      StartsWithNothing(ids, numElements);
      StartsWithNothing(types, numElements);
      var numChanges := 0;
      for i := 0 to |layers|
        invariant done == ChangedOf(rs[..i]) && numChanges == |done|
        invariant ids != null ==> StartsWith(ids[..], Ids(done), numElements)
        invariant types != null ==> StartsWith(types[..], NewTypes(done), numElements)
        modifies ids, types
      {
        hide Reports, Valid;
        ChangedStep(rs, i);
        var layer := layers[i].layer;
        if layer.TypeChanged() {
          ghost var change := (layers[i].id, layer.validatedType);
          assert Ids(done + [change]) == Ids(done) + [change.0];
          assert NewTypes(done + [change]) == NewTypes(done) + [change.1];
          Put(ids, Ids(done), numChanges, numElements, layers[i].id);
          Put(types, NewTypes(done), numChanges, numElements, layer.validatedType);
          numChanges := numChanges + 1;
          done := done + [change];
        }
      }
      assert rs[..|layers|] == rs && Reports(layers) == rs;
      num := if ids == null && types == null then numChanges else numElements;
    }

    /** Stores into an array that the caller may have left out or made too small. */
    static method Put<T>(a: array?<T>, ghost done: seq<T>, k: nat, limit: nat, v: T)
      requires a != null ==> limit <= a.Length && StartsWith(a[..], done, limit)
      requires k == |done|
      modifies a
      ensures a != null ==> StartsWith(a[..], done + [v], limit)
    {
      if a != null && k < limit {
        a[k] := v;
      }
    }

    /** The two calls: count, then fill arrays of that size. */
    method ReportChanges() returns (ids: seq<nat>, types: seq<Composition>)
      requires Valid()
      ensures |ids| == |types| == |Changed()|
      ensures forall k :: 0 <= k < |ids| ==> Changed()[k] == (ids[k], types[k])
    {
      hide Reports, ChangedOf;
      ghost var rs := Reports(layers);
      var count := GetChangedCompositionTypes(0, null, null);
      assert Reports(layers) == rs;
      var idArray, typeArray := new nat[count], new Composition[count](_ => Invalid);
      var _ := GetChangedCompositionTypes(count, idArray, typeArray);
      assert Reports(layers) == rs;
      ids, types := idArray[..], typeArray[..];
    }

    /** With distinct z values the planner's count is the number of changed layers. */
    method ValidateAndCount() returns (numTypes: int)
      requires Valid()
      modifies this`sorted, this`validated, Objects(layers)`validatedType
      ensures Valid() && validated && Listed() && Planned()
      ensures sorted == SortByKey(old(Entries(layers))) && Entries(layers) == old(Entries(layers))
      ensures numTypes == Plan(Infos(sorted), planes, maxDevicePlanes).changes
      ensures DistinctKeys(old(Entries(layers))) ==> numTypes == |Changed()|
    {
      hide Plan, Infos, Validated, Entries, SortByKey, Reports, ChangedOf, DistinctKeys, InfoOf, ListedIn, Objects;
      ghost var es := Entries(layers);
      var requestsCount;
      numTypes, requestsCount := ValidateDisplay();
      assert Entries(layers) == es;
      if DistinctKeys(es) {
        ReportedCount(this);
      }
    }

    /** HwcHal::validateDisplay plans, and returns exactly the changed layers in id order; with distinct
        z values they are as many as the planner counted. */
    method HalValidate() returns (ids: seq<nat>, types: seq<Composition>, ghost numTypes: int)
      requires Valid()
      modifies this`sorted, this`validated, Objects(layers)`validatedType
      ensures Valid() && validated && Listed() && Planned() && sorted == SortByKey(old(Entries(layers)))
      ensures numTypes == Plan(Infos(sorted), planes, maxDevicePlanes).changes
      ensures |ids| == |types| == |Changed()|
      ensures forall k :: 0 <= k < |ids| ==> Changed()[k] == (ids[k], types[k])
      ensures DistinctKeys(old(Entries(layers))) ==> |ids| == numTypes
    {
      hide Plan, Infos, Entries, Validated, SortByKey, Reports, ChangedOf, DistinctKeys, InfoOf, ListedIn, Objects;
      var typesCount := ValidateAndCount();
      numTypes := typesCount;
      ghost var rs, infos, planned := Reports(layers), Infos(sorted), Validated(sorted);
      ids, types := ReportChanges();
      assert Reports(layers) == rs && Infos(sorted) == infos && Validated(sorted) == planned;
    }

    // ----- presenting -----

    /** What is shown: the layers of the z-sorted map with their validated types. */
    static ghost function Items(es: seq<Entry>): (items: seq<(HwcLayer, Composition)>)
      reads Layers(es)`validatedType
      ensures |items| == |es| && forall i :: 0 <= i < |es| ==> items[i] == (es[i].layer, es[i].layer.validatedType)
    {
      if es == [] then [] else Items(es[..|es| - 1]) + [(es[|es| - 1].layer, es[|es| - 1].layer.validatedType)]
    }

    /** getSortedLayersByZOrder: the device layers bottom up, then the client target if it is used;
        without a valid plan, nothing if some layer is neither on a plane nor client-composed. */
    method GetSortedLayersByZOrder() returns (list: seq<HwcLayer>)
      requires Valid() && (validated ==> Listed())
      modifies this`sorted, clientLayer`zorder
      ensures Listed() && sorted == if validated then old(sorted) else SortByKey(old(Entries(layers)))
      ensures list == if validated || AllShown(Items(sorted)) then PlaneList(Items(sorted), clientLayer) else []
      ensures OfType(Items(sorted), Client) != [] && list != [] ==> IsTopClient(sorted, clientLayer.zorder)
    {
      hide SortByKey, Entries, Items, OfType, IsTopClient;
      ghost var es := Entries(layers);
      if !validated {
        RebuildSorted();
        assert Entries(layers) == es;
      }
      list := ListPlanes();
    }

    method ListPlanes() returns (list: seq<HwcLayer>)
      requires Listed() && clientLayer !in Layers(sorted)
      modifies clientLayer`zorder
      ensures list == if validated || AllShown(Items(sorted)) then PlaneList(Items(sorted), clientLayer) else []
      ensures OfType(Items(sorted), Client) != [] && list != [] ==> IsTopClient(sorted, clientLayer.zorder)
    {
      ghost var items := Items(sorted);
      hide OfType, AllShown, ListedIn, Items, Layers, TopSoFar;
      ListNothing(items);
      NoTopYet(sorted);
      var useClientLayer, clientZOrder: Word := false, 0;
      list := [];
      for i := 0 to |sorted|
        invariant list == OfType(items[..i], Device)
        invariant useClientLayer <==> OfType(items[..i], Client) != []
        invariant TopSoFar(sorted, i, useClientLayer, clientZOrder)
        invariant !validated ==> AllShown(items[..i])
      {
        OfTypeStep(items, i);
        AllShownStep(items, i);
        TopStep(sorted, i, useClientLayer, clientZOrder);
        var layer := sorted[i].layer;
        if layer.validatedType == Device {
          list := list + [layer];
        } else if layer.validatedType == Client {
          useClientLayer := true;
          clientZOrder := if clientZOrder < layer.zorder then layer.zorder else clientZOrder;
        } else if !validated {
          NotAllShown(items, i);
          assert Items(sorted) == items;
          return [];
        }
      }
      assert items[..|sorted|] == items;
      if useClientLayer {
        TopFound(sorted, clientZOrder);
        clientLayer.zorder := clientZOrder;
        list := list + [clientLayer];
      }
      assert Items(sorted) == items && list == PlaneList(items, clientLayer);
    }

    /** presentDisplay up to the import of the layers. What it presents is in z order exactly when the
        validated types are layered, and fits the planes when they are showable: they may stem from
        another z order when nothing was validated. */
    method PresentDisplay() returns (error: Error, list: seq<HwcLayer>)
      requires Valid() && (validated ==> Listed())
      modifies this`sorted, this`validated, clientLayer`zorder
      ensures layers == [] ==> error == NONE && list == [] && validated == old(validated) && sorted == old(sorted)
      ensures layers != [] ==>
                && !validated && Listed()
                && sorted == (if old(validated) then old(sorted) else SortByKey(old(Entries(layers))))
                && list == (if old(validated) || AllShown(Items(sorted))
                            then PlaneList(Items(sorted), clientLayer) else [])
                && (error == NONE <==> list != [])
                && (!old(validated) ==> (error == NONE <==> AllShown(Items(sorted))))
                && (Layered(Validated(sorted)) <==>
                      OfType(Items(sorted), Device) + OfType(Items(sorted), Client) == Shown(Items(sorted)))
                && (Showable(Validated(sorted), planes) ==> |list| <= planes)
    {
      hide SortByKey, Entries, Items, OfType, AllShown, IsTopClient, Layered, Shown, Validated, Showable, ListedIn,
           Objects;
      if layers == [] {
        return NONE, [];
      }
      ghost var es := Entries(layers);
      list := GetSortedLayersByZOrder();
      ghost var items, types := Items(sorted), Validated(sorted);
      if !validated {
        SortedNotEmpty(es);
        AllShownNotEmpty(items, clientLayer);
      }
      PresentedInOrder(this);
      PresentedFits(this);
      validated := false;
      assert Items(sorted) == items && Validated(sorted) == types;
      error := if list == [] then NOT_VALIDATED else NONE;
    }

    /** Presenting a plan: the list fits the planes and shows the layers in the order of the map. */
    method PresentPlanned() returns (list: seq<HwcLayer>)
      requires Valid() && validated && Listed() && Planned() && planes > 0
      modifies this`sorted, this`validated, clientLayer`zorder
      ensures sorted == old(sorted) && Validated(sorted) == old(Validated(sorted))
              && Infos(sorted) == old(Infos(sorted))
      ensures list == PlaneList(Items(sorted), clientLayer) && |list| <= planes
      ensures OfType(Items(sorted), Device) + OfType(Items(sorted), Client) == Shown(Items(sorted))
    {
      hide Plan, Infos, Validated, SortByKey, Entries, InfoOf, OfType, Items, ListedIn, Objects, Shown, Showable,
        Layered, AllShown, PlaneList;
      PlanShowable(this);
      ghost var infos, types := Infos(sorted), Validated(sorted);
      var error;
      error, list := PresentDisplay();
      assert Infos(sorted) == infos && Validated(sorted) == types;
      if layers == [] {
        NothingShown(this);
      }
    }

    /** From a plan to the planes: the list fits the planes, and what it shows - with the client target
        painted from its layers - are the shown layers in z order: all of them, if z values are distinct
        and below 2^31. */
    method ValidateAndList() returns (list: seq<HwcLayer>)
      requires Valid() && planes > 0
      modifies this`sorted, this`validated, Objects(layers)`validatedType, clientLayer`zorder
      ensures Listed() && Planned() && sorted == SortByKey(old(Entries(layers)))
      ensures list == PlaneList(Items(sorted), clientLayer) && |list| <= planes
      ensures OfType(Items(sorted), Device) + OfType(Items(sorted), Client) == Shown(Items(sorted))
      ensures Entries(layers) == old(Entries(layers))
      ensures ClearZ(Entries(layers)) ==>
                && Ascending(Shown(Items(sorted)), ZOf())
                && forall l | l in Objects(layers) :: l in Shown(Items(sorted)) <==> IsShown(l.validatedType)
    {
      hide Plan, Infos, Validated, SortByKey, Entries, InfoOf, OfType, Items, ListedIn, Objects, Shown, Ascending,
        ClearZ, PlaneList;
      ghost var es := Entries(layers);
      var _, _ := ValidateDisplay();
      list := PresentPlanned();
      SameEntries(this, es);
      if ClearZ(es) {
        EverythingShown(this);
      }
    }

    /** The import loop of presentDisplay and the plane loop of applyFrame over a list: layers without a
        buffer are left out, each other one with a framebuffer gets a plane of its own, in list order. */
    method CommitFrame(list: seq<HwcLayer>, framebuffer: HwcLayer -> Option<nat>)
      returns (kept: seq<HwcLayer>, plane: seq<(nat, nat)>)
      ensures |plane| <= planes
      ensures forall p :: 0 <= p < |plane| ==> plane[p].1 == p && plane[p].0 < |kept| && kept[plane[p].0] in list
      ensures forall p, q :: 0 <= p < q < |plane| ==> plane[p].0 < plane[q].0
      ensures kept == WithBuffer(list, framebuffer)
      ensures |list| <= planes ==>
                forall l | l in list && framebuffer(l).Some? && framebuffer(l).value != 0 ::
                  exists p :: 0 <= p < |plane| && kept[plane[p].0] == l
    {
      hide WithBuffer, HasPlane;
      kept := [];
      var fbIds := [];
      NoneWithBuffer(list, framebuffer);
      for i := 0 to |list|
        invariant kept == WithBuffer(list[..i], framebuffer) && |kept| == |fbIds|
        invariant forall k :: 0 <= k < |kept| ==> framebuffer(kept[k]) == Some(fbIds[k])
      {
        OneMoreWithBuffer(list, i, framebuffer);
        if framebuffer(list[i]).Some? {
          kept, fbIds := kept + [list[i]], fbIds + [framebuffer(list[i]).value];
        }
      }
      assert list[..|list|] == list;
      plane := AssignPlanes(fbIds);
      if |list| <= planes {
        AllPlaced(list, framebuffer, kept, fbIds, plane);
      }
    }

    /** No layer is dropped at commit: the display is validated, its plan is listed, and every listed
        layer with a framebuffer gets a plane. */
    method ValidateAndCommit(framebuffer: HwcLayer -> Option<nat>)
      returns (list: seq<HwcLayer>, kept: seq<HwcLayer>, plane: seq<(nat, nat)>)
      requires Valid() && planes > 0
      modifies this`sorted, this`validated, Objects(layers)`validatedType, clientLayer`zorder
      ensures Listed() && Planned() && sorted == SortByKey(old(Entries(layers)))
      ensures Entries(layers) == old(Entries(layers))
      ensures list == PlaneList(Items(sorted), clientLayer) && |list| <= planes && |plane| <= planes
      ensures OfType(Items(sorted), Device) + OfType(Items(sorted), Client) == Shown(Items(sorted))
      ensures ClearZ(Entries(layers)) ==>
                && Ascending(Shown(Items(sorted)), ZOf())
                && forall l | l in Objects(layers) :: l in Shown(Items(sorted)) <==> IsShown(l.validatedType)
      ensures kept == WithBuffer(list, framebuffer)
      ensures forall p :: 0 <= p < |plane| ==> plane[p].1 == p && plane[p].0 < |kept|
      ensures forall p, q :: 0 <= p < q < |plane| ==> plane[p].0 < plane[q].0
      ensures forall l | l in list && framebuffer(l).Some? && framebuffer(l).value != 0 ::
                exists p :: 0 <= p < |plane| && kept[plane[p].0] == l
    {
      hide Items, OfType, Shown, ClearZ, Ascending, ZOf, WithBuffer, ListedIn, Plan, Infos, InfoOf, Validated, Entries,
        SortByKey, PlaneList;
      list := ValidateAndList();
      ghost var items, z, es := Items(sorted), ZOf(), Entries(layers);
      ghost var infos, types := Infos(sorted), Validated(sorted);
      kept, plane := CommitFrame(list, framebuffer);
      assert Items(sorted) == items && ZOf() == z && Entries(layers) == es;
      assert Infos(sorted) == infos && Validated(sorted) == types;
    }

    /** The plane loop of applyFrame: layer and plane of every layer with a framebuffer (zpos is the
        plane's index); a layer without one is skipped. */
    method AssignPlanes(fbIds: seq<nat>) returns (plane: seq<(nat, nat)>)
      ensures |plane| <= planes
      ensures forall p :: 0 <= p < |plane| ==>
                plane[p].1 == p && plane[p].0 < |fbIds| && fbIds[plane[p].0] != 0
      ensures forall p, q :: 0 <= p < q < |plane| ==> plane[p].0 < plane[q].0
      ensures |fbIds| <= planes ==>
                forall i :: 0 <= i < |fbIds| && fbIds[i] != 0 ==> HasPlane(plane, i)
    {
      hide HasPlane;
      plane := [];
      var i, j := 0, 0;
      while i < |fbIds| && i < planes
        invariant 0 <= i <= |fbIds| && i <= planes && j == |plane| <= i
        invariant Placed(fbIds, i, plane)
      {
        hide Placed;
        PlacedStep(fbIds, i, plane);
        if fbIds[i] != 0 {
          plane := plane + [(i, j)];
          j := j + 1;
        }
        i := i + 1;
      }
    }
  }

  /** The first i layers have their planes. */
  ghost predicate Placed(fbIds: seq<nat>, i: nat, plane: seq<(nat, nat)>)
    requires i <= |fbIds|
  {
    && (forall p :: 0 <= p < |plane| ==> plane[p].1 == p && plane[p].0 < i && fbIds[plane[p].0] != 0)
    && (forall p, q :: 0 <= p < q < |plane| ==> plane[p].0 < plane[q].0)
    && (forall k :: 0 <= k < i && fbIds[k] != 0 ==> HasPlane(plane, k))
  }

  ghost predicate HasPlane(plane: seq<(nat, nat)>, k: nat) {
    exists p :: 0 <= p < |plane| && plane[p].0 == k
  }

  lemma HasPlaneStill(plane: seq<(nat, nat)>, one: (nat, nat), k: nat)
    ensures HasPlane(plane + [one], k) <==> HasPlane(plane, k) || one.0 == k
  {
    var more := plane + [one];
    assert more[|plane|] == one;
    if p :| 0 <= p < |plane| && plane[p].0 == k {
      assert more[p].0 == k;
    }
  }

  lemma PlacedStep(fbIds: seq<nat>, i: nat, plane: seq<(nat, nat)>)
    requires i < |fbIds| && Placed(fbIds, i, plane)
    ensures Placed(fbIds, i + 1, if fbIds[i] != 0 then plane + [(i, |plane|)] else plane)
  {
    hide HasPlane;
    if fbIds[i] != 0 {
      PlacedMore(fbIds, i, plane, plane + [(i, |plane|)]);
    }
  }

  lemma PlacedMore(fbIds: seq<nat>, i: nat, plane: seq<(nat, nat)>, more: seq<(nat, nat)>)
    requires i < |fbIds| && fbIds[i] != 0 && Placed(fbIds, i, plane) && more == plane + [(i, |plane|)]
    ensures Placed(fbIds, i + 1, more)
  {
    hide HasPlane;
    forall k | 0 <= k < i + 1 && fbIds[k] != 0 ensures HasPlane(more, k) {
      HasPlaneStill(plane, (i, |plane|), k);
    }
    assert forall p :: 0 <= p < |more| ==> more[p] == if p < |plane| then plane[p] else (i, |plane|);
  }

  // ----- reports and pictures -----

  predicate AllShown<T>(items: seq<(T, Composition)>) {
    items == [] || (AllShown(items[..|items| - 1])
                    && (items[|items| - 1].1.Device? || items[|items| - 1].1.Client?))
  }

  lemma GreedyNothing(infos: seq<Info>, maxDevice: nat)
    ensures Greedy(infos[..0], maxDevice) == Pass([], 0, true, 0)
  {
  }

  lemma GreedyStep(infos: seq<Info>, i: nat, maxDevice: nat)
    requires i < |infos|
    ensures Greedy(infos[..i + 1], maxDevice) == Assign(Greedy(infos[..i], maxDevice), infos[i], maxDevice)
  {
    hide Assign;
    assert infos[..i + 1][..i] == infos[..i];
  }

  lemma ListNothing<T>(items: seq<(T, Composition)>)
    ensures OfType(items[..0], Device) == OfType(items[..0], Client) == [] && AllShown(items[..0])
  {
  }

  lemma AllShownStep<T>(items: seq<(T, Composition)>, i: nat)
    requires i < |items|
    ensures AllShown(items[..i + 1]) <==> AllShown(items[..i]) && (items[i].1.Device? || items[i].1.Client?)
  {
    assert items[..i + 1][..i] == items[..i];
  }

  lemma OfTypeStep<T>(items: seq<(T, Composition)>, i: nat)
    requires i < |items|
    ensures OfType(items[..i + 1], Device) ==
            OfType(items[..i], Device) + if items[i].1.Device? then [items[i].0] else []
    ensures OfType(items[..i + 1], Client) ==
            OfType(items[..i], Client) + if items[i].1.Client? then [items[i].0] else []
  {
    assert items[..i + 1][..i] == items[..i];
  }

  lemma {:induction false} NotAllShown<T>(items: seq<(T, Composition)>, i: nat)
    requires i < |items| && !items[i].1.Device? && !items[i].1.Client?
    ensures !AllShown(items)
  {
    if i < |items| - 1 {
      NotAllShown(items[..|items| - 1], i);
    }
  }

  function CountIn<T>(s: seq<T>, p: set<T>): nat {
    if s == [] then 0 else CountIn(s[..|s| - 1], p) + if s[|s| - 1] in p then 1 else 0
  }

  function Elements<T>(s: seq<T>): set<T> {
    set x | x in s
  }

  ghost predicate NoRepeats<T>(s: seq<T>) {
    forall i, j :: 0 <= i < j < |s| ==> s[i] != s[j]
  }

  lemma {:induction false} CountInSet<T>(s: seq<T>, p: set<T>)
    requires NoRepeats(s)
    ensures CountIn(s, p) == |p * Elements(s)|
  {
    if s != [] {
      var n := |s| - 1;
      CountInSet(s[..n], p);
      assert s == s[..n] + [s[n]];
      assert s[n] !in s[..n];
      if s[n] in p {
        assert p * Elements(s) == p * Elements(s[..n]) + {s[n]};
      } else {
        assert p * Elements(s) == p * Elements(s[..n]);
      }
    } else {
      assert p * Elements(s) == {};
    }
  }

  lemma {:induction false} DifferencesCount<T>(infos: seq<Info>, types: seq<Composition>, s: seq<T>, p: set<T>)
    requires |infos| == |types| == |s|
    requires forall i :: 0 <= i < |s| ==> (s[i] in p <==> infos[i].requested != types[i])
    ensures Differences(infos, types) == CountIn(s, p)
  {
    if s != [] {
      var n := |s| - 1;
      DifferencesCount(infos[..n], types[..n], s[..n], p);
    }
  }

  lemma {:induction false} ChangedCount<T>(rs: seq<Report>, s: seq<T>, p: set<T>)
    requires |s| == |rs| && forall i :: 0 <= i < |s| ==> (s[i] in p <==> rs[i].requested != rs[i].validated)
    ensures |ChangedOf(rs)| == CountIn(s, p)
  {
    if s != [] {
      ChangedCount(rs[..|s| - 1], s[..|s| - 1], p);
    }
  }

  lemma ChangedNothing(rs: seq<Report>)
    ensures ChangedOf(rs[..0]) == []
  {
  }

  lemma ChangedStep(rs: seq<Report>, i: nat)
    requires i < |rs|
    ensures ChangedOf(rs[..i + 1]) == ChangedOf(rs[..i])
              + if rs[i].requested != rs[i].validated then [(rs[i].id, rs[i].validated)] else []
  {
    assert rs[..i + 1][..i] == rs[..i];
  }

  ghost function NamedLayers(ls: seq<Named>): seq<HwcLayer> {
    seq(|ls|, i requires 0 <= i < |ls| => ls[i].layer)
  }

  ghost function EntryLayers(es: seq<Entry>): seq<HwcLayer> {
    seq(|es|, i requires 0 <= i < |es| => es[i].layer)
  }

  /** Counting the changed layers in id order and in z order gives the same. */
  lemma SameCount<T>(all: seq<T>, rs: seq<Report>, listed: seq<T>, infos: seq<Info>, types: seq<Composition>,
                     changed: set<T>)
    requires Elements(all) == Elements(listed) && NoRepeats(all) && NoRepeats(listed)
    requires |all| == |rs| && forall i :: 0 <= i < |all| ==> (all[i] in changed <==> rs[i].requested != rs[i].validated)
    requires |listed| == |infos| == |types|
    requires forall i :: 0 <= i < |listed| ==> (listed[i] in changed <==> infos[i].requested != types[i])
    ensures |ChangedOf(rs)| == Differences(infos, types)
  {
    hide Elements, NoRepeats, ChangedOf, Differences, CountIn;
    ChangedCount(rs, all, changed);
    CountInSet(all, changed);
    DifferencesCount(infos, types, listed, changed);
    CountInSet(listed, changed);
  }

  /** With distinct z values the planner's count is the number of changed layers. */
  lemma ReportedCount(d: Display)
    requires d.Valid() && d.Listed() && d.sorted == SortByKey(Display.Entries(d.layers))
    requires DistinctKeys(Display.Entries(d.layers))
    requires Display.Validated(d.sorted) == Plan(d.Infos(d.sorted), d.planes, d.maxDevicePlanes).types
    ensures |d.Changed()| == Plan(d.Infos(d.sorted), d.planes, d.maxDevicePlanes).changes
  {
    hide SortByKey, Plan, DistinctKeys, Elements, NoRepeats, ChangedOf, Differences, Display.Entries,
      Display.Validated, Display.Reports, Display.Infos;
    var all, listed := NamedLayers(d.layers), EntryLayers(d.sorted);
    var changed := set l: HwcLayer | l in all + listed && l.TypeChanged();
    PlanReports(d.Infos(d.sorted), d.planes, d.maxDevicePlanes);
    SameElements(d, all, listed);
    SameCount(all, Display.Reports(d.layers), listed, d.Infos(d.sorted), Display.Validated(d.sorted), changed);
  }

  lemma SameElements(d: Display, all: seq<HwcLayer>, listed: seq<HwcLayer>)
    requires d.Valid() && d.Listed() && d.sorted == SortByKey(Display.Entries(d.layers))
    requires DistinctKeys(Display.Entries(d.layers))
    requires |all| == |d.layers| && forall i :: 0 <= i < |all| ==> all[i] == d.layers[i].layer
    requires |listed| == |d.sorted| && forall i :: 0 <= i < |listed| ==> listed[i] == d.sorted[i].layer
    ensures Elements(all) == Elements(listed) && NoRepeats(all) && NoRepeats(listed)
  {
    hide SortByKey;
    var es := Display.Entries(d.layers);
    NoneLostIffDistinct(es);
    forall i | 0 <= i < |all| ensures all[i] in listed {
      assert es[i] in d.sorted;
      var k :| 0 <= k < |d.sorted| && d.sorted[k] == es[i];
      assert listed[k] == all[i];
    }
    forall k | 0 <= k < |listed| ensures listed[k] in all {
      var l :| l in d.layers && l.layer == d.sorted[k].layer;
      var i :| 0 <= i < |d.layers| && d.layers[i] == l;
      assert all[i] == listed[k];
    }
  }

  lemma PlanShowable(d: Display)
    requires d.Valid() && d.Listed() && d.planes > 0 && d.Planned()
    ensures Showable(Display.Validated(d.sorted), d.planes)
    ensures Layered(Display.Validated(d.sorted))
  {
    hide Plan;
    PlanIsAdmissible(d.Infos(d.sorted), d.planes, d.interlaced);
  }

  lemma PresentedFits(d: Display)
    ensures Showable(Display.Validated(d.sorted), d.planes) ==>
              |PlaneList(Display.Items(d.sorted), d.clientLayer)| <= d.planes
  {
    hide Showable;
    var items := Display.Items(d.sorted);
    assert TypesOf(items) == Display.Validated(d.sorted);
    if Showable(Display.Validated(d.sorted), d.planes) {
      PlaneListFits(items, d.clientLayer, d.planes);
    }
  }

  lemma NothingShown(d: Display)
    requires d.Listed() && d.layers == []
    ensures PlaneList(Display.Items(d.sorted), d.clientLayer) == []
    ensures OfType(Display.Items(d.sorted), Device) + OfType(Display.Items(d.sorted), Client) ==
            Shown(Display.Items(d.sorted))
  {
    assert forall i :: 0 <= i < |d.sorted| ==> d.sorted[i].layer !in Objects([]);
  }

  /** The client layer is not one of the layers whose z decides. */
  lemma SameEntries(d: Display, es: seq<Entry>)
    requires |es| == |d.layers|
    requires forall i :: 0 <= i < |es| ==>
               es[i] == Entry(ToSigned(d.layers[i].layer.zorder), d.layers[i].layer)
    ensures Display.Entries(d.layers) == es
  {
  }

  /** Clear keys are distinct z values below 2^31. */
  lemma ClearZMeans(d: Display)
    ensures ClearZ(Display.Entries(d.layers)) <==>
              && (forall i, j :: 0 <= i < j < |d.layers| ==> d.layers[i].layer.zorder != d.layers[j].layer.zorder)
              && (forall i :: 0 <= i < |d.layers| ==> d.layers[i].layer.zorder < TWO31)
  {
    var es := Display.Entries(d.layers);
    assert forall i :: 0 <= i < |es| ==> (es[i].key >= 0 <==> d.layers[i].layer.zorder < TWO31);
    assert forall i, j :: 0 <= i < j < |es| ==>
           (es[i].key != es[j].key <==> d.layers[i].layer.zorder != d.layers[j].layer.zorder);
  }

  /** With distinct z values the map lists every layer of the display... */
  lemma AllListed(d: Display)
    requires d.sorted == SortByKey(Display.Entries(d.layers)) && DistinctKeys(Display.Entries(d.layers))
    ensures forall l | l in Objects(d.layers) :: l in Layers(d.sorted)
  {
    hide SortByKey, DistinctKeys;
    var es := Display.Entries(d.layers);
    NoneLostIffDistinct(es);
    forall l | l in Objects(d.layers) ensures l in Layers(d.sorted) {
      var n :| n in d.layers && n.layer == l;
      var i :| 0 <= i < |d.layers| && d.layers[i] == n;
      assert es[i] in d.sorted && es[i].layer == l;
    }
  }

  /** ...and below 2^31 it lists them in z order. */
  lemma AllInZOrder(d: Display)
    requires d.sorted == SortByKey(Display.Entries(d.layers)) && ClearZ(Display.Entries(d.layers))
    ensures Ascending(EntryLayers(d.sorted), d.ZOf())
  {
    hide SortByKey, Objects, Display.Entries, DistinctKeys;
    var xs := EntryLayers(d.sorted);
    SortedLayers(d.layers);
    SortedEntries(Display.Entries(d.layers));
    forall i, j | 0 <= i < j < |xs| ensures xs[i].zorder < xs[j].zorder {
      assert d.sorted[i] in d.sorted && d.sorted[j] in d.sorted;
      KeyBelowTwo31(xs[i].zorder);
      KeyBelowTwo31(xs[j].zorder);
      KeyOrderIsZOrder(xs[i].zorder, xs[j].zorder);
    }
  }

  lemma KeyBelowTwo31(z: Word)
    ensures ToSigned(z) >= 0 <==> z < TWO31
  {
  }

  /** So every layer that is not passed over is shown, in z order. */
  lemma EverythingShown(d: Display)
    requires d.Valid() && d.sorted == SortByKey(Display.Entries(d.layers)) && ClearZ(Display.Entries(d.layers))
    ensures var shown := Shown(Display.Items(d.sorted));
            && Ascending(shown, d.ZOf())
            && forall l | l in Objects(d.layers) :: l in shown <==> IsShown(l.validatedType)
  {
    hide SortByKey, Ascending, Shown;
    var items, xs := Display.Items(d.sorted), EntryLayers(d.sorted);
    AllListed(d);
    AllInZOrder(d);
    ShownInOrder(items, xs, d.ZOf());
    forall l | l in Objects(d.layers) ensures l in Shown(items) <==> IsShown(l.validatedType) {
      var e :| e in d.sorted && e.layer == l;
      var i :| 0 <= i < |d.sorted| && d.sorted[i] == e;
      assert items[i].0 == l;
    }
  }

  /** For any associative blending the planes show the picture of the shown layers painted in z order. */
  lemma SamePictureShown<I(!new)>(d: Display, over: (I, I) -> I, clear: I, base: I, image: HwcLayer -> I)
    requires Associative(over) && (forall a :: over(a, clear) == a)
    requires Layered(Display.Validated(d.sorted))
    ensures var items := Display.Items(d.sorted);
            var onPlanes := Painted(over, base, Images(image, OfType(items, Device)));
            var target := Painted(over, clear, Images(image, OfType(items, Client)));
            over(onPlanes, target) == Painted(over, base, Images(image, Shown(items)))
  {
    var items := Display.Items(d.sorted);
    assert TypesOf(items) == Display.Validated(d.sorted);
    SamePicture(over, clear, base, image, items);
  }

  lemma NoneWithBuffer(list: seq<HwcLayer>, framebuffer: HwcLayer -> Option<nat>)
    ensures WithBuffer(list[..0], framebuffer) == [] && list[..|list|] == list
  {
  }

  lemma OneMoreWithBuffer(list: seq<HwcLayer>, i: nat, framebuffer: HwcLayer -> Option<nat>)
    requires i < |list|
    ensures WithBuffer(list[..i + 1], framebuffer) ==
            WithBuffer(list[..i], framebuffer) + if framebuffer(list[i]).Some? then [list[i]] else []
  {
    assert list[..i + 1][..i] == list[..i];
  }

  lemma AllPlaced(list: seq<HwcLayer>, framebuffer: HwcLayer -> Option<nat>, kept: seq<HwcLayer>, fbIds: seq<nat>,
                  plane: seq<(nat, nat)>)
    requires kept == WithBuffer(list, framebuffer) && |kept| == |fbIds|
    requires forall k :: 0 <= k < |kept| ==> framebuffer(kept[k]) == Some(fbIds[k])
    requires forall p :: 0 <= p < |plane| ==> plane[p].0 < |fbIds|
    requires forall i :: 0 <= i < |fbIds| && fbIds[i] != 0 ==> HasPlane(plane, i)
    ensures forall l | l in list && framebuffer(l).Some? && framebuffer(l).value != 0 ::
              exists p :: 0 <= p < |plane| && kept[plane[p].0] == l
  {
    hide WithBuffer;
    forall l | l in list && framebuffer(l).Some? && framebuffer(l).value != 0
      ensures exists p :: 0 <= p < |plane| && kept[plane[p].0] == l
    {
      var k :| 0 <= k < |kept| && kept[k] == l;
      assert HasPlane(plane, k);
      var p :| 0 <= p < |plane| && plane[p].0 == k;
    }
  }

  lemma ListedLayers(ls: seq<Named>, es: seq<Entry>)
    requires ListedIn(ls, es)
    ensures Layers(es) <= Objects(ls)
  {
  }

  lemma FewEntries(d: Display)
    requires d.Listed()
    ensures |d.sorted| < TWO32
  {
  }

  /** The layers whose buffer can be imported. */
  function WithBuffer(list: seq<HwcLayer>, framebuffer: HwcLayer -> Option<nat>): (kept: seq<HwcLayer>)
    ensures forall l | l in list :: l in kept <==> framebuffer(l).Some?
    ensures |kept| <= |list| && forall l | l in kept :: l in list
  {
    if list == [] then []
    else
      var n := |list| - 1;
      WithBuffer(list[..n], framebuffer) + if framebuffer(list[n]).Some? then [list[n]] else []
  }

  lemma PresentedInOrder(d: Display)
    requires d.Listed()
    ensures var items := Display.Items(d.sorted);
            Layered(Display.Validated(d.sorted)) <==> OfType(items, Device) + OfType(items, Client) == Shown(items)
  {
    var items := Display.Items(d.sorted);
    assert TypesOf(items) == Display.Validated(d.sorted);
    PaintersOrder(items);
  }

  /** A device layer below a client layer is validated, then the client swaps their z values and
      presents: the device layer is shown below the client target although it is above it now. */
  lemma SwappedAfterValidation(a: HwcLayer, b: HwcLayer, target: HwcLayer)
    requires a != b
    ensures SortByKey([Entry(0, a), Entry(1, b)]) == [Entry(0, a), Entry(1, b)]
    ensures Plan([Info(Device, true, false), Info(Client, false, false)], 2, 1).types == [Device, Client]
    ensures SortByKey([Entry(1, a), Entry(0, b)]) == [Entry(0, b), Entry(1, a)]
    ensures var items := [(b, Client), (a, Device)];
            && AllShown(items) && PlaneList(items, target) == [a, target]
            && Shown(items) == [b, a] && !Layered(TypesOf(items))
  {
    hide SortByKey, Plan, OfType, Shown, AllShown, PlaneList, Layered;
    SortTwo(Entry(0, a), Entry(1, b));
    SortTwo(Entry(1, a), Entry(0, b));
    DeviceBelowClient();
    ClientBelowDevice(b, a, target);
  }

  lemma DeviceBelowClient()
    ensures Plan([Info(Device, true, false), Info(Client, false, false)], 2, 1).types == [Device, Client]
  {
    var ls := [Info(Device, true, false), Info(Client, false, false)];
    assert ls[..1] == [ls[0]] && [ls[0]][..0] == [];
    assert Greedy([ls[0]], 1) == Pass([Device], 1, true, 0);
  }

  lemma ClientBelowDevice<T>(low: T, high: T, target: T)
    ensures var items := [(low, Client), (high, Device)];
            && AllShown(items) && PlaneList(items, target) == [high, target]
            && Shown(items) == [low, high] && !Layered(TypesOf(items))
  {
    var items := [(low, Client), (high, Device)];
    var first := [(low, Client)];
    assert items[..1] == first && first[..0] == [];
    assert OfType(first, Device) == [] && OfType(first, Client) == [low] && Shown(first) == [low] && AllShown(first);
    assert OfType(items, Device) == [high] && OfType(items, Client) == [low];
    var types := TypesOf(items);
    assert types[0].Client? && types[1].Device?;
  }

  lemma SortTwo(x: Entry, y: Entry)
    requires x.key != y.key
    ensures SortByKey([x, y]) == if x.key < y.key then [x, y] else [y, x]
  {
    assert [x, y][..1] == [x] && [x][..0] == [];
    assert SortByKey([x]) == [x];
    var p := Position([x], y.key);
    assert p == if x.key < y.key then 1 else 0;
  }

  lemma SortedNotEmpty(es: seq<Entry>)
    requires es != []
    ensures SortByKey(es) != []
  {
    hide SortByKey;
    SortedKeys(es, es[0].key);
    assert HasKey(es, es[0].key);
  }

  lemma AllShownNotEmpty<T>(items: seq<(T, Composition)>, target: T)
    requires items != []
    ensures AllShown(items) ==> PlaneList(items, target) != []
  {
  }

  lemma RebuiltIsListed(d: Display)
    requires d.Valid() && d.sorted == SortByKey(Display.Entries(d.layers))
    ensures d.Listed()
  {
    hide SortByKey, Display.Entries, Objects;
    SortedLayers(d.layers);
    SortedEntries(Display.Entries(d.layers));
  }

  lemma AsRequested(d: Display, infos: seq<Info>, types: seq<Composition>)
    requires |infos| == |types| && d.Infos(d.sorted) == Accept(infos, types) && Display.Validated(d.sorted) == types
    ensures forall l :: l in Layers(d.sorted) ==> !l.TypeChanged()
  {
    forall l | l in Layers(d.sorted) ensures !l.TypeChanged() {
      var e :| e in d.sorted && e.layer == l;
      var i :| 0 <= i < |d.sorted| && d.sorted[i] == e;
      assert Accept(infos, types)[i] == d.InfoOf(l);
    }
  }

  lemma EntryOfLayer(ls: seq<Named>, e: Entry)
    requires e in Display.Entries(ls)
    ensures e.layer in Objects(ls) && e.key == ToSigned(e.layer.zorder)
  {
    var all := Display.Entries(ls);
    var k :| 0 <= k < |all| && all[k] == e;
    assert ls[k] in ls;
  }

  /** The entries of the z-sorted map are distinct layers of the display. */
  lemma SortedLayers(ls: seq<Named>)
    ensures var es := SortByKey(Display.Entries(ls));
            && (forall i :: 0 <= i < |es| ==> es[i].layer in Objects(ls) && es[i].key == ToSigned(es[i].layer.zorder))
            && (forall i, j :: 0 <= i < j < |es| ==> es[i].layer != es[j].layer)
  {
    hide SortByKey, Display.Entries, Objects;
    var all := Display.Entries(ls);
    var es := SortByKey(all);
    SortedEntries(all);
    forall i | 0 <= i < |es| ensures es[i].layer in Objects(ls) && es[i].key == ToSigned(es[i].layer.zorder) {
      assert es[i] in es;
      EntryOfLayer(ls, es[i]);
    }
  }

  /** z is the highest z of the client-composed entries. */
  ghost predicate IsTopClient(es: seq<Entry>, z: Word)
    reads Layers(es)`validatedType, Layers(es)`zorder
  {
    && (forall i :: 0 <= i < |es| && es[i].layer.validatedType.Client? ==> es[i].layer.zorder <= z)
    && (exists i :: 0 <= i < |es| && es[i].layer.validatedType.Client? && es[i].layer.zorder == z)
  }

  /** The loop's variables after the first k entries. */
  ghost predicate TopSoFar(es: seq<Entry>, k: nat, use: bool, z: Word)
    requires k <= |es|
    reads Layers(es)`validatedType, Layers(es)`zorder
  {
    && (forall i :: 0 <= i < k && es[i].layer.validatedType.Client? ==> use && es[i].layer.zorder <= z)
    && if use then exists i :: 0 <= i < k && es[i].layer.validatedType.Client? && es[i].layer.zorder == z else z == 0
  }

  lemma NoTopYet(es: seq<Entry>)
    ensures TopSoFar(es, 0, false, 0)
  {
  }

  lemma TopStep(es: seq<Entry>, k: nat, use: bool, z: Word)
    requires k < |es| && TopSoFar(es, k, use, z)
    ensures var l := es[k].layer;
            if l.validatedType.Client? then TopSoFar(es, k + 1, true, if z < l.zorder then l.zorder else z)
            else TopSoFar(es, k + 1, use, z)
  {
    var l := es[k].layer;
    if use {
      var i :| 0 <= i < k && es[i].layer.validatedType.Client? && es[i].layer.zorder == z;
      assert l.validatedType.Client? && !(z < l.zorder) ==> es[i].layer.zorder == z;
    }
  }

  lemma TopFound(es: seq<Entry>, z: Word)
    requires TopSoFar(es, |es|, true, z)
    ensures IsTopClient(es, z)
  {
  }

  lemma {:induction false} ChangedOfMeans(rs: seq<Report>, c: (nat, Composition))
    ensures c in ChangedOf(rs) <==>
            exists i :: 0 <= i < |rs| && rs[i].id == c.0 && rs[i].validated == c.1 && rs[i].requested != c.1
  {
    if rs != [] {
      var n := |rs| - 1;
      ChangedOfMeans(rs[..n], c);
      assert forall i :: 0 <= i < n ==> rs[..n][i] == rs[i];
    }
  }

  lemma {:induction false} ChangedInOrder(rs: seq<Report>)
    requires forall i, j :: 0 <= i < j < |rs| ==> rs[i].id < rs[j].id
    ensures forall i, j :: 0 <= i < j < |ChangedOf(rs)| ==> ChangedOf(rs)[i].0 < ChangedOf(rs)[j].0
  {
    if rs != [] {
      var n := |rs| - 1;
      ChangedInOrder(rs[..n]);
      forall c | c in ChangedOf(rs[..n]) ensures c.0 < rs[n].id {
        ChangedOfMeans(rs[..n], c);
        var i :| 0 <= i < n && rs[..n][i].id == c.0;
      }
    }
  }

  /** What is reported are the layers whose type is another than the one they asked for, each with the type
      it has now, in the order of their ids. */
  lemma ChangedMeans(d: Display, id: nat, t: Composition)
    requires d.Valid()
    ensures (id, t) in d.Changed() <==>
            exists i :: 0 <= i < |d.layers| && d.layers[i].id == id
                        && d.layers[i].layer.validatedType == t && d.layers[i].layer.sfType != t
    ensures forall i, j :: 0 <= i < j < |d.Changed()| ==> d.Changed()[i].0 < d.Changed()[j].0
  {
    hide ChangedOf;
    var rs := Display.Reports(d.layers);
    ChangedOfMeans(rs, (id, t));
    ChangedInOrder(rs);
    if i :| 0 <= i < |d.layers| && d.layers[i].id == id && d.layers[i].layer.validatedType == t
            && d.layers[i].layer.sfType != t {
      assert rs[i].id == id && rs[i].validated == t;
    }
  }

  /** What the planner calls a capable layer is one that fits a plane. */
  lemma CapableFits(d: Display, l: HwcLayer)
    ensures d.InfoOf(l).requested == l.sfType && d.InfoOf(l).skip == l.skipComposition
    ensures d.InfoOf(l).capable <==> d.FitsPlane(l)
  {
    TruncateMeans(l.sourceCrop.right - l.sourceCrop.left);
    TruncateMeans(l.sourceCrop.bottom - l.sourceCrop.top);
  }

  lemma PlannedIsRight(d: Display)
    requires d.Valid() && d.Listed() && d.Planned()
    ensures d.TypedRight()
  {
    hide Display.Planned, Display.EntryRight, ListedIn;
    SortedFits(d);
    forall i | 0 <= i < |d.sorted| ensures d.EntryRight(i) {
      PlannedEntry(d, i);
    }
  }

  lemma PlannedEntry(d: Display, i: nat)
    requires d.Valid() && d.Planned() && i < |d.sorted| < TWO32
    ensures d.EntryRight(i)
  {
    hide Plan, Display.InfoOf, Display.FitsPlane, Display.PlaneFree, PlaneLeft, MaxDevicePlanes;
    CapableFits(d, d.sorted[i].layer);
    TypeMeans(d.Infos(d.sorted), d.planes, d.interlaced, i);
    FreeMeans(d, i);
    ClientBelow(d.sorted, i);
  }

  lemma ClientBelow(es: seq<Entry>, i: nat)
    requires i < |es|
    ensures Client in Display.Validated(es)[..i] <==> exists k :: 0 <= k < i && es[k].layer.validatedType == Client
  {
    var below := Display.Validated(es)[..i];
    assert forall k :: 0 <= k < i ==> below[k] == es[k].layer.validatedType;
  }

  lemma SortedFits(d: Display)
    requires d.Listed()
    ensures |d.sorted| < TWO32
  {
  }

  lemma FreeMeans(d: Display, i: nat)
    requires i < |d.sorted|
    ensures d.PlaneFree(i) <==>
            PlaneLeft(Display.Validated(d.sorted), i, d.planes,
                      if d.planes > 1 && !d.interlaced then d.planes - 1 else 0)
  {
    var types := Display.Validated(d.sorted);
    assert Display.Validated(d.sorted[..i]) == types[..i];
    AllCounted(types[..i]);
  }

  ghost function Layers(es: seq<Entry>): set<HwcLayer> {
    set e | e in es :: e.layer
  }
}
