/** The plane planner of HwcDisplay::validateDisplay as a function of what it looks at, and the
    reasons why its plans are right. Layers are listed in ascending z order. */
module Planner {
  import opened Words

  /** Numbers a client may send that name no type of the interface. */
  type Foreign = x: Int32 | x < 0 || x > 5 witness 6

  datatype Composition = Invalid | Client | Device | SolidColor | Cursor | Sideband | Other(code: Foreign)

  /** A layer as the planner sees it: the requested type, whether everything but the number of
      free planes allows a plane, and isSkipComposition. */
  datatype Info = Info(requested: Composition, capable: bool, skip: bool)

  predicate Eligible(l: Info) {
    l.requested.Device? && l.capable
  }

  /** Layers that can stay off both the planes and the client target. */
  predicate PassThrough(l: Info) {
    l.requested.Invalid? || l.requested.Other? || (l.requested.SolidColor? && l.skip)
  }

  /** calcMaxDevicePlanes: one plane is kept for the client target. */
  function MaxDevicePlanes(planes: nat, interlaced: bool): nat {
    if planes > 1 && !interlaced then planes - 1 else 0
  }

  /** layerSupported, whose counter is a uint32_t. */
  predicate Supported(l: Info, devicePlanes: Word, maxDevice: nat) {
    devicePlanes < maxDevice && Eligible(l)
  }

  /** The planner's variables: assigned types, num_device_planes, lastDeviceLayer, *num_types. */
  datatype Pass = Pass(types: seq<Composition>, devices: nat, last: bool, changes: int)

  function Assign(p: Pass, l: Info, maxDevice: nat): Pass {
    match l.requested
    case Device =>
      if Supported(l, Wrap(p.devices), maxDevice) && p.last
      then Pass(p.types + [Device], p.devices + 1, p.last, p.changes)
      else Pass(p.types + [Client], p.devices, false, p.changes + 1)
    case Sideband => Pass(p.types + [Client], p.devices, false, p.changes + 1)
    case Cursor => Pass(p.types + [Client], p.devices, false, p.changes + 1)
    case SolidColor =>
      if l.skip && p.last then p.(types := p.types + [SolidColor])
      else Pass(p.types + [Client], p.devices, false, p.changes + 1)
    case Client => Pass(p.types + [Client], p.devices, false, p.changes)
    case _ => p.(types := p.types + [l.requested])
  }

  /** The loop of validateDisplay. */
  function Greedy(ls: seq<Info>, maxDevice: nat): (p: Pass)
    ensures |p.types| == |ls|
  {
    if ls == [] then Pass([], 0, true, 0)
    else Assign(Greedy(ls[..|ls| - 1], maxDevice), ls[|ls| - 1], maxDevice)
  }

  /** The final promotion: all layers on planes if there are exactly as many. */
  predicate Promotes(ls: seq<Info>, p: Pass, planes: nat, maxDevice: nat) {
    && |ls| == planes && |ls| > 0
    && Supported(ls[|ls| - 1], Wrap(p.devices - 1), maxDevice) && !p.last && p.devices == planes - 1
  }

  function Plan(ls: seq<Info>, planes: nat, maxDevice: nat): (p: Pass)
    ensures |p.types| == |ls|
  {
    var p := Greedy(ls, maxDevice);
    if Promotes(ls, p, planes, maxDevice)
    then p.(types := p.types[|ls| - 1 := Device], changes := p.changes - 1)
    else p
  }

  // ----- what a plan is measured by -----

  function Count(types: seq<Composition>, t: Composition): (n: nat)
    ensures n <= |types|
    ensures n > 0 <==> t in types
  {
    if types == [] then 0
    else Count(types[..|types| - 1], t) + if types[|types| - 1] == t then 1 else 0
  }

  /** The layers whose requested and validated types differ. */
  function Differences(ls: seq<Info>, types: seq<Composition>): nat
    requires |ls| == |types|
  {
    if ls == [] then 0
    else
      var n := |ls| - 1;
      Differences(ls[..n], types[..n]) + if ls[n].requested != types[n] then 1 else 0
  }

  /** No Device layer above a Client layer. */
  ghost predicate Layered(types: seq<Composition>) {
    forall i, j :: 0 <= i < j < |types| && types[i].Client? ==> !types[j].Device?
  }

  /** Types that the planes can show: layered, with a plane for each device layer and for the target. */
  ghost predicate Showable(types: seq<Composition>, planes: nat) {
    Layered(types) && Count(types, Device) + (if Client in types then 1 else 0) <= planes
  }

  /** An assignment the hardware can show correctly. */
  ghost predicate Admissible(ls: seq<Info>, types: seq<Composition>, planes: nat) {
    && |types| == |ls|
    && (forall i :: 0 <= i < |ls| && types[i].Device? ==> Eligible(ls[i]))
    && (forall i :: 0 <= i < |ls| && !types[i].Device? && !types[i].Client? ==> PassThrough(ls[i]))
    && Showable(types, planes)
  }

  /** The layers, bottom up, that could be on planes if there were enough: the eligible ones below
      the first layer that must be composed by the client (`open`: there is no such layer). */
  datatype Prefix = Prefix(eligible: nat, open: bool)

  function EligiblePrefix(ls: seq<Info>): Prefix {
    if ls == [] then Prefix(0, true)
    else
      var p, l := EligiblePrefix(ls[..|ls| - 1]), ls[|ls| - 1];
      if !p.open || PassThrough(l) then p
      else if Eligible(l) then p.(eligible := p.eligible + 1)
      else p.(open := false)
  }

  function Min(a: nat, b: nat): nat {
    if a < b then a else b
  }

  // ----- the loop -----

  /** The loop gives planes to the eligible prefix as far as planes go... */
  ghost predicate Fills(ls: seq<Info>, p: Pass, maxDevice: nat) {
    && |p.types| == |ls|
    && p.devices == Count(p.types, Device) == Min(EligiblePrefix(ls).eligible, maxDevice)
    && (p.last <==> EligiblePrefix(ls).open && EligiblePrefix(ls).eligible <= maxDevice)
  }

  /** ...and every type it gives is one the layer can have. */
  ghost predicate Shaped(ls: seq<Info>, p: Pass) {
    && |p.types| == |ls| && p.changes == Differences(ls, p.types)
    && (p.last <==> Client !in p.types)
    && Layered(p.types)
    && (forall i :: 0 <= i < |ls| && p.types[i].Device? ==> Eligible(ls[i]))
    && (forall i :: 0 <= i < |ls| && !p.types[i].Device? && !p.types[i].Client? ==> PassThrough(ls[i]))
  }

  lemma {:induction false} GreedyResult(ls: seq<Info>, maxDevice: nat)
    requires |ls| < TWO32
    ensures Fills(ls, Greedy(ls, maxDevice), maxDevice) && Shaped(ls, Greedy(ls, maxDevice))
  {
    if ls != [] {
      var p := Greedy(ls[..|ls| - 1], maxDevice);
      GreedyResult(ls[..|ls| - 1], maxDevice);
      AssignFills(ls, p, maxDevice);
      AssignShaped(ls, p, maxDevice);
    }
  }

  /** The switch of the loop, in terms of what the layer allows. */
  lemma AssignMeans(p: Pass, l: Info, maxDevice: nat)
    requires p.devices < TWO32
    ensures var q, plane := Assign(p, l, maxDevice), Eligible(l) && p.last && p.devices < maxDevice;
            && |q.types| == |p.types| + 1 && q.types[..|p.types|] == p.types
            && (q.types[|p.types|].Device? <==> plane)
            && q.devices == p.devices + (if plane then 1 else 0)
            && q.last == (p.last && (plane || PassThrough(l)))
    ensures !(Eligible(l) && PassThrough(l))
  {
  }

  lemma AssignType(p: Pass, l: Info, maxDevice: nat)
    ensures var q := Assign(p, l, maxDevice);
            && |q.types| == |p.types| + 1 && q.types[..|p.types|] == p.types
            && var t := q.types[|p.types|];
               && (t.Device? ==> Eligible(l) && p.last)
               && (!t.Device? && !t.Client? ==> PassThrough(l))
               && (q.last <==> p.last && !t.Client?)
               && q.changes == p.changes + if l.requested != t then 1 else 0
  {
  }

  lemma AssignFills(ls: seq<Info>, p: Pass, maxDevice: nat)
    requires 0 < |ls| < TWO32 && Fills(ls[..|ls| - 1], p, maxDevice)
    ensures Fills(ls, Assign(p, ls[|ls| - 1], maxDevice), maxDevice)
  {
    hide Assign, Eligible, PassThrough;
    AssignMeans(p, ls[|ls| - 1], maxDevice);
  }

  lemma AssignShaped(ls: seq<Info>, p: Pass, maxDevice: nat)
    requires 0 < |ls| && Shaped(ls[..|ls| - 1], p)
    ensures Shaped(ls, Assign(p, ls[|ls| - 1], maxDevice))
  {
    hide Assign, Eligible, PassThrough;
    var n := |ls| - 1;
    var q := Assign(p, ls[n], maxDevice);
    AssignType(p, ls[n], maxDevice);
    assert q.types == p.types + [q.types[n]];
    assert forall i :: 0 <= i < n ==> ls[i] == ls[..n][i];
  }

  /** When the promotion fires, all layers but the top one are on planes, the top one is eligible and
      was counted as changed: the count never drops below zero. */
  lemma PromotionMeans(ls: seq<Info>, planes: nat, maxDevice: nat)
    requires |ls| < TWO32 && Promotes(ls, Greedy(ls, maxDevice), planes, maxDevice)
    ensures var p, n := Greedy(ls, maxDevice), |ls| - 1;
            && (forall i :: 0 <= i < n ==> p.types[i].Device? && Eligible(ls[i]))
            && p.types[n].Client? && Eligible(ls[n])
            && Greedy(ls[..n], maxDevice).last && Greedy(ls[..n], maxDevice).devices == n == maxDevice
            && p.changes == 1
  {
    hide Assign, PassThrough, EligiblePrefix, Count, Differences, Layered;
    var n := |ls| - 1;
    var before := Greedy(ls[..n], maxDevice);
    GreedyResult(ls, maxDevice);
    GreedyResult(ls[..n], maxDevice);
    AssignMeans(before, ls[n], maxDevice);
    AssignType(before, ls[n], maxDevice);
    AllCounted(before.types);
    NoDifferences(ls[..n], before.types);
    assert forall i :: 0 <= i < n ==> ls[i] == ls[..n][i];
  }

  lemma {:induction false} AllCounted(types: seq<Composition>)
    ensures Count(types, Device) == |types| <==> forall i :: 0 <= i < |types| ==> types[i].Device?
  {
    if types != [] {
      AllCounted(types[..|types| - 1]);
    }
  }

  lemma {:induction false} NoDifferences(ls: seq<Info>, types: seq<Composition>)
    requires |ls| == |types|
    ensures Differences(ls, types) == 0 <==> forall i :: 0 <= i < |ls| ==> ls[i].requested == types[i]
  {
    if ls != [] {
      NoDifferences(ls[..|ls| - 1], types[..|ls| - 1]);
    }
  }

  // ----- the type of each layer -----

  /** A plane is left for layer i: none below it was left to the client, and either fewer planes are taken
      than may be, or the layers are as many as the planes and all below have one. */
  ghost predicate PlaneLeft(types: seq<Composition>, i: nat, planes: nat, maxDevice: nat)
    requires i < |types|
  {
    && Client !in types[..i]
    && (Count(types[..i], Device) < maxDevice
        || (|types| == planes == i + 1 && maxDevice == i > 0 && Count(types[..i], Device) == i))
  }

  /** The type of a layer that has no plane. */
  function WithoutPlane(l: Info, clientBelow: bool): Composition {
    if l.requested.Invalid? || l.requested.Other? then l.requested
    else if l.requested.SolidColor? && l.skip && !clientBelow then SolidColor
    else Client
  }

  lemma {:induction false} GreedyType(ls: seq<Info>, maxDevice: nat, i: nat)
    requires i < |ls| < TWO32
    ensures var types := Greedy(ls, maxDevice).types;
            types[i] == if Eligible(ls[i]) && Client !in types[..i] && Count(types[..i], Device) < maxDevice then Device
                        else WithoutPlane(ls[i], Client in types[..i])
    decreases |ls|
  {
    hide Assign, Eligible, PassThrough, WithoutPlane, EligiblePrefix, Count, Layered, Differences;
    var n := |ls| - 1;
    var before := Greedy(ls[..n], maxDevice);
    GreedyResult(ls[..n], maxDevice);
    AssignGives(before, ls[n], maxDevice);
    assert Greedy(ls, maxDevice).types[..i] == before.types[..i];
    if i < n {
      GreedyType(ls[..n], maxDevice, i);
    } else {
      assert before.types[..i] == before.types;
    }
  }

  lemma AssignGives(p: Pass, l: Info, maxDevice: nat)
    requires p.devices < TWO32
    ensures Assign(p, l, maxDevice).types
            == p.types + [if Eligible(l) && p.last && p.devices < maxDevice then Device else WithoutPlane(l, !p.last)]
  {
  }

  /** A layer gets a plane exactly if it asks for one and can have one while one is left for it. */
  lemma TypeMeans(ls: seq<Info>, planes: nat, interlaced: bool, i: nat)
    requires i < |ls| < TWO32
    ensures var maxDevice := if planes > 1 && !interlaced then planes - 1 else 0;
            var types := Plan(ls, planes, MaxDevicePlanes(planes, interlaced)).types;
            types[i] == if ls[i].requested.Device? && ls[i].capable && PlaneLeft(types, i, planes, maxDevice)
                        then Device else WithoutPlane(ls[i], Client in types[..i])
  {
    hide Greedy, Count, WithoutPlane;
    var maxDevice := MaxDevicePlanes(planes, interlaced);
    var p := Greedy(ls, maxDevice);
    var types := Plan(ls, planes, maxDevice).types;
    GreedyType(ls, maxDevice, i);
    GreedyResult(ls, maxDevice);
    assert types[..i] == p.types[..i];
    if Promotes(ls, p, planes, maxDevice) {
      PromotionMeans(ls, planes, maxDevice);
      AllCounted(types[..i]);
    } else if |ls| == planes == i + 1 && maxDevice == i > 0 && Count(types[..i], Device) == i {
      NotPromoted(ls, planes, i);
    }
  }

  /** When the layers below the top one have all the planes but one, the top one is promoted if it can be. */
  lemma NotPromoted(ls: seq<Info>, planes: nat, i: nat)
    requires |ls| == planes == i + 1 && 0 < i && planes < TWO32
    requires Count(Greedy(ls, i).types[..i], Device) == i && !Promotes(ls, Greedy(ls, i), planes, i)
    ensures !Eligible(ls[i])
  {
    hide Assign, Eligible, PassThrough;
    var before := Greedy(ls[..i], i);
    GreedyResult(ls[..i], i);
    AssignType(before, ls[i], i);
    AssignMeans(before, ls[i], i);
    assert Greedy(ls, i).types[..i] == before.types;
  }

  // ----- main results -----

  /** The planner reports exactly the number of changed layers. */
  lemma PlanReports(ls: seq<Info>, planes: nat, maxDevice: nat)
    requires |ls| < TWO32
    ensures var p := Plan(ls, planes, maxDevice);
            p.changes == Differences(ls, p.types)
  {
    GreedyResult(ls, maxDevice);
    if Promotes(ls, Greedy(ls, maxDevice), planes, maxDevice) {
      PromotedIsAdmissible(ls, planes, maxDevice);
    }
  }

  /** A plan is admissible for the hardware whenever there is a plane at all. */
  lemma PlanIsAdmissible(ls: seq<Info>, planes: nat, interlaced: bool)
    requires 0 < planes && |ls| < TWO32
    ensures Admissible(ls, Plan(ls, planes, MaxDevicePlanes(planes, interlaced)).types, planes)
  {
    var maxDevice := MaxDevicePlanes(planes, interlaced);
    GreedyResult(ls, maxDevice);
    if Promotes(ls, Greedy(ls, maxDevice), planes, maxDevice) {
      PromotedIsAdmissible(ls, planes, maxDevice);
    }
  }

  lemma PromotedIsAdmissible(ls: seq<Info>, planes: nat, maxDevice: nat)
    requires |ls| < TWO32 && Promotes(ls, Greedy(ls, maxDevice), planes, maxDevice)
    ensures var p := Plan(ls, planes, maxDevice);
            Admissible(ls, p.types, planes) && p.changes == Differences(ls, p.types)
  {
    hide Greedy;
    PromotionMeans(ls, planes, maxDevice);
    var types := Plan(ls, planes, maxDevice).types;
    assert forall i :: 0 <= i < |ls| ==> types[i].Device?;
    AllCounted(types);
    NoDifferences(ls, types);
  }

  function AllOnPlanes(ls: seq<Info>): (types: seq<Composition>)
    ensures |types| == |ls|
  {
    if ls == [] then []
    else
      var l := ls[|ls| - 1];
      AllOnPlanes(ls[..|ls| - 1]) + [if Eligible(l) then Device else l.requested]
  }

  lemma PassThroughType(l: Info)
    ensures PassThrough(l) ==> !l.requested.Device? && !l.requested.Client?
    ensures Eligible(l) ==> !PassThrough(l)
  {
  }

  lemma {:induction false} OpenTypes(ls: seq<Info>)
    requires EligiblePrefix(ls).open
    ensures forall i :: 0 <= i < |ls| ==>
              if AllOnPlanes(ls)[i].Device? then Eligible(ls[i]) else PassThrough(ls[i]) && !AllOnPlanes(ls)[i].Client?
  {
    if ls != [] {
      var n := |ls| - 1;
      PassThroughType(ls[n]);
      hide Eligible, PassThrough;
      OpenTypes(ls[..n]);
      assert AllOnPlanes(ls)[..n] == AllOnPlanes(ls[..n]);
      assert forall i :: 0 <= i < n ==> ls[i] == ls[..n][i] && AllOnPlanes(ls)[i] == AllOnPlanes(ls)[..n][i];
    }
  }

  lemma {:induction false} OpenCount(ls: seq<Info>)
    requires EligiblePrefix(ls).open
    ensures Count(AllOnPlanes(ls), Device) == EligiblePrefix(ls).eligible
  {
    if ls != [] {
      OpenCount(ls[..|ls| - 1]);
      PassThroughType(ls[|ls| - 1]);
      hide Eligible, PassThrough;
      assert AllOnPlanes(ls)[..|ls| - 1] == AllOnPlanes(ls[..|ls| - 1]);
    }
  }

  lemma AdmissiblePrefix(ls: seq<Info>, types: seq<Composition>, planes: nat)
    requires ls != [] && Admissible(ls, types, planes)
    ensures Admissible(ls[..|ls| - 1], types[..|ls| - 1], planes)
  {
    hide Eligible, PassThrough;
    var n := |ls| - 1;
    assert forall i :: 0 <= i < n ==> ls[i] == ls[..n][i] && types[i] == types[..n][i];
  }

  /** An admissible assignment has its planes in the eligible prefix, and all of it if no layer
      is composed by the client. */
  lemma {:induction false} DevicesInPrefix(ls: seq<Info>, types: seq<Composition>, planes: nat)
    requires Admissible(ls, types, planes)
    ensures Count(types, Device) <= EligiblePrefix(ls).eligible
    ensures Client !in types ==> EligiblePrefix(ls) == Prefix(Count(types, Device), true)
  {
    if ls != [] {
      var n := |ls| - 1;
      AdmissiblePrefix(ls, types, planes);
      DevicesInPrefix(ls[..n], types[..n], planes);
      LastAdmitted(ls, types, planes);
    }
  }

  lemma LastAdmitted(ls: seq<Info>, types: seq<Composition>, planes: nat)
    requires ls != [] && Admissible(ls, types, planes)
    ensures var n := |ls| - 1;
            && (types[n].Device? ==> Eligible(ls[n]) && Client !in types[..n])
            && (!types[n].Device? && !types[n].Client? ==> PassThrough(ls[n]))
  {
    hide Eligible, PassThrough;
  }

  /** Every layer that could be on a plane fits, but the planner sees pass-through layers as well
      and so does not notice that they are as many as the planes. */
  ghost predicate Overlooked(ls: seq<Info>, planes: nat) {
    EligiblePrefix(ls) == Prefix(planes, true) && |ls| != planes
  }

  lemma PlanAtLeastGreedy(ls: seq<Info>, planes: nat, maxDevice: nat)
    requires |ls| < TWO32
    ensures var p := Plan(ls, planes, maxDevice);
            Count(p.types, Device) ==
              if Promotes(ls, Greedy(ls, maxDevice), planes, maxDevice) then planes else Greedy(ls, maxDevice).devices
  {
    GreedyResult(ls, maxDevice);
    if Promotes(ls, Greedy(ls, maxDevice), planes, maxDevice) {
      PromotionMeans(ls, planes, maxDevice);
      AllCounted(Plan(ls, planes, maxDevice).types);
    }
  }

  lemma Outdone(ls: seq<Info>, planes: nat)
    requires planes >= 2 && |ls| < TWO32 && Overlooked(ls, planes)
    ensures Admissible(ls, AllOnPlanes(ls), planes)
    ensures Count(AllOnPlanes(ls), Device) > Count(Plan(ls, planes, planes - 1).types, Device)
  {
    OpenTypes(ls);
    OpenCount(ls);
    GreedyResult(ls, planes - 1);
    PlanAtLeastGreedy(ls, planes, planes - 1);
  }

  lemma NotOutdone(ls: seq<Info>, types: seq<Composition>, planes: nat)
    requires planes >= 2 && |ls| < TWO32 && !Overlooked(ls, planes) && Admissible(ls, types, planes)
    ensures Count(types, Device) <= Count(Plan(ls, planes, planes - 1).types, Device)
  {
    hide Plan, Greedy, Count, EligiblePrefix, Eligible, PassThrough, Layered;
    DevicesInPrefix(ls, types, planes);
    GreedyResult(ls, planes - 1);
    PlanAtLeastGreedy(ls, planes, planes - 1);
    AllCounted(types);
  }

  /** With at least two planes and a progressive mode, no admissible assignment puts more layers on
      planes than the plan does, exactly when the layers are not overlooked. */
  lemma PlanIsOptimal(ls: seq<Info>, planes: nat)
    requires planes >= 2 && |ls| < TWO32
    ensures (forall types :: Admissible(ls, types, planes) ==>
               Count(types, Device) <= Count(Plan(ls, planes, planes - 1).types, Device))
            <==> !Overlooked(ls, planes)
  {
    if Overlooked(ls, planes) {
      Outdone(ls, planes);
    } else {
      forall types | Admissible(ls, types, planes)
        ensures Count(types, Device) <= Count(Plan(ls, planes, planes - 1).types, Device)
      {
        NotOutdone(ls, types, planes);
      }
    }
  }

  /** Layers that all ask for Device, Client, Cursor or Sideband are never overlooked. */
  lemma WithoutPassThroughOptimal(ls: seq<Info>, planes: nat)
    requires forall i :: 0 <= i < |ls| ==> !PassThrough(ls[i])
    ensures !Overlooked(ls, planes)
  {
    if EligiblePrefix(ls).open {
      OpenTypes(ls);
      OpenCount(ls);
      AllCounted(AllOnPlanes(ls));
    }
  }

  // ----- accepting a plan -----

  /** acceptDisplayChanges: the validated types become the requested ones. */
  function Accept(ls: seq<Info>, types: seq<Composition>): (r: seq<Info>)
    requires |ls| == |types|
    ensures |r| == |ls|
  {
    seq(|ls|, i requires 0 <= i < |ls| => ls[i].(requested := types[i]))
  }

  lemma AcceptPrefix(ls: seq<Info>, types: seq<Composition>, n: nat)
    requires |ls| == |types| && n <= |ls|
    ensures Accept(ls, types)[..n] == Accept(ls[..n], types[..n])
  {
  }

  /** The switch repeats itself on the type it assigned. */
  lemma AssignAccepted(p: Pass, l: Info, maxDevice: nat)
    ensures var q := Assign(p, l, maxDevice);
            && |q.types| == |p.types| + 1 && q.types[..|p.types|] == p.types
            && Assign(p.(changes := 0), l.(requested := q.types[|p.types|]), maxDevice) == q.(changes := 0)
  {
  }

  /** The loop repeats itself on the types it assigned. */
  lemma {:induction false} GreedyAccepted(ls: seq<Info>, maxDevice: nat)
    ensures var p := Greedy(ls, maxDevice);
            Greedy(Accept(ls, p.types), maxDevice) == p.(changes := 0)
  {
    hide Assign;
    if ls != [] {
      var n := |ls| - 1;
      var p := Greedy(ls, maxDevice);
      GreedyAccepted(ls[..n], maxDevice);
      AcceptPrefix(ls, p.types, n);
      AssignAccepted(Greedy(ls[..n], maxDevice), ls[n], maxDevice);
    }
  }

  /** Validate, accept, validate: the second plan equals the first and reports no change. */
  lemma PlanIsIdempotent(ls: seq<Info>, planes: nat, maxDevice: nat)
    requires |ls| < TWO32
    ensures var p := Plan(ls, planes, maxDevice);
            var again := Plan(Accept(ls, p.types), planes, maxDevice);
            again.types == p.types && again.changes == 0
  {
    var g := Greedy(ls, maxDevice);
    GreedyResult(ls, maxDevice);
    if Promotes(ls, g, planes, maxDevice) {
      var n := |ls| - 1;
      var types := Plan(ls, planes, maxDevice).types;
      PromotionMeans(ls, planes, maxDevice);
      GreedyAccepted(ls[..n], maxDevice);
      AcceptPrefix(ls, types, n);
      assert types[..n] == g.types[..n] == Greedy(ls[..n], maxDevice).types;
      assert Greedy(Accept(ls, types), maxDevice) == Pass(g.types, n, false, 1);
    } else {
      GreedyAccepted(ls, maxDevice);
    }
  }

  // ----- painter's order -----

  /** The layers whose validated type is `t`, bottom up. */
  function OfType<T>(items: seq<(T, Composition)>, t: Composition): seq<T> {
    if items == [] then []
    else
      var n := |items| - 1;
      OfType(items[..n], t) + if items[n].1 == t then [items[n].0] else []
  }

  /** The layers that are shown at all, bottom up. */
  function Shown<T>(items: seq<(T, Composition)>): seq<T> {
    if items == [] then []
    else
      var n := |items| - 1;
      Shown(items[..n]) + if IsShown(items[n].1) then [items[n].0] else []
  }

  function TypesOf<T>(items: seq<(T, Composition)>): seq<Composition> {
    seq(|items|, i requires 0 <= i < |items| => items[i].1)
  }

  ghost predicate Distinct<T>(items: seq<(T, Composition)>) {
    forall i, j :: 0 <= i < j < |items| ==> items[i].0 != items[j].0
  }

  lemma {:induction false} OfTypeMembers<T>(items: seq<(T, Composition)>, t: Composition, x: T)
    ensures x in OfType(items, t) <==> (x, t) in items
  {
    if items != [] {
      OfTypeMembers(items[..|items| - 1], t, x);
    }
  }

  /** What getSortedLayersByZOrder puts on planes - device layers, then the client target standing
      for its layers - is what is shown in z order, exactly when no device layer is above a
      client layer. */
  lemma {:induction false} PaintersOrder<T>(items: seq<(T, Composition)>)
    requires Distinct(items)
    ensures Layered(TypesOf(items)) <==> OfType(items, Device) + OfType(items, Client) == Shown(items)
  {
    if items != [] {
      var n := |items| - 1;
      var (x, t) := items[n];
      var d, c, s := OfType(items[..n], Device), OfType(items[..n], Client), Shown(items[..n]);
      PaintersOrder(items[..n]);
      LayeredPrefix(items);
      if t.Device? && c != [] {
        DeviceOnTop(items);
      } else if t.Device? {
        assert d + [] == d && (d + [x]) + [] == d + [x];
        Snoc(d, s, x);
      } else if t.Client? {
        assert OfType(items, Device) == d && OfType(items, Client) == c + [x] && Shown(items) == s + [x];
        assert d + (c + [x]) == (d + c) + [x];
        Snoc(d + c, s, x);
      } else {
        assert OfType(items, Device) == d && OfType(items, Client) == c && Shown(items) == s;
      }
    }
  }

  lemma Snoc<T>(a: seq<T>, b: seq<T>, x: T)
    ensures a + [x] == b + [x] <==> a == b
  {
    assert (a + [x])[..|a|] == a && (b + [x])[..|b|] == b;
  }

  lemma DeviceOnTop<T>(items: seq<(T, Composition)>)
    requires items != [] && Distinct(items) && items[|items| - 1].1.Device?
    requires OfType(items[..|items| - 1], Client) != []
    ensures OfType(items, Device) + OfType(items, Client) != Shown(items)
  {
    var n := |items| - 1;
    var c := OfType(items, Client);
    var top := c[|c| - 1];
    OfTypeMembers(items[..n], Client, top);
    var i :| 0 <= i < n && items[..n][i] == (top, Client);
    assert items[i].0 != items[n].0;
    var shown, split := Shown(items), OfType(items, Device) + c;
    assert shown[|shown| - 1] == items[n].0 && split[|split| - 1] == top;
  }

  lemma LayeredPrefix<T>(items: seq<(T, Composition)>)
    requires items != []
    ensures var n := |items| - 1;
            Layered(TypesOf(items)) <==>
              Layered(TypesOf(items[..n])) && (items[n].1.Device? ==> OfType(items[..n], Client) == [])
  {
    var n := |items| - 1;
    var types, c := TypesOf(items), OfType(items[..n], Client);
    assert types[..n] == TypesOf(items[..n]) && types == types[..n] + [items[n].1];
    LayeredAppend(types[..n], items[n].1);
    if c != [] {
      OfTypeMembers(items[..n], Client, c[0]);
      var i :| 0 <= i < n && items[..n][i] == (c[0], Client);
      assert types[..n][i].Client?;
    }
    if Client in types[..n] {
      var i :| 0 <= i < n && types[..n][i] == Client;
      OfTypeMembers(items[..n], Client, items[i].0);
      assert items[..n][i] == (items[i].0, Client);
    }
  }

  lemma LayeredAppend(types: seq<Composition>, t: Composition)
    ensures Layered(types + [t]) <==> Layered(types) && (t.Device? ==> Client !in types)
  {
    var all := types + [t];
    assert forall i :: 0 <= i < |types| ==> all[i] == types[i];
    assert all[|types|] == t;
  }

  /** The layers that go to the planes; `target` stands for the client-composed layers. */
  function PlaneList<T>(items: seq<(T, Composition)>, target: T): seq<T> {
    OfType(items, Device) + if OfType(items, Client) == [] then [] else [target]
  }

  lemma {:induction false} OfTypeCount<T>(items: seq<(T, Composition)>, t: Composition)
    ensures |OfType(items, t)| == Count(TypesOf(items), t)
  {
    if items != [] {
      OfTypeCount(items[..|items| - 1], t);
      assert TypesOf(items)[..|items| - 1] == TypesOf(items[..|items| - 1]);
    }
  }

  /** The plane list of showable types is never longer than the number of planes. */
  lemma PlaneListFits<T>(items: seq<(T, Composition)>, target: T, planes: nat)
    requires Showable(TypesOf(items), planes)
    ensures |PlaneList(items, target)| <= planes
  {
    OfTypeCount(items, Device);
    OfTypeCount(items, Client);
  }

  // ----- the picture -----

  ghost predicate Associative<I(!new)>(over: (I, I) -> I) {
    forall a, b, c :: over(over(a, b), c) == over(a, over(b, c))
  }

  /** Painting images bottom up onto `base`. */
  function Painted<I>(over: (I, I) -> I, base: I, images: seq<I>): I {
    if images == [] then base
    else over(Painted(over, base, images[..|images| - 1]), images[|images| - 1])
  }

  lemma {:induction false} PaintedConcat<I>(over: (I, I) -> I, base: I, a: seq<I>, b: seq<I>)
    ensures Painted(over, base, a + b) == Painted(over, Painted(over, base, a), b)
  {
    if b == [] {
      assert a + b == a;
    } else {
      assert (a + b)[..|a + b| - 1] == a + b[..|b| - 1];
      PaintedConcat(over, base, a, b[..|b| - 1]);
    }
  }

  lemma {:induction false} PaintedOnto<I(!new)>(over: (I, I) -> I, clear: I, base: I, images: seq<I>)
    requires Associative(over) && forall a :: over(a, clear) == a
    ensures over(base, Painted(over, clear, images)) == Painted(over, base, images)
  {
    if images != [] {
      var n := |images| - 1;
      PaintedOnto(over, clear, base, images[..n]);
      assert over(over(base, Painted(over, clear, images[..n])), images[n])
          == over(base, over(Painted(over, clear, images[..n]), images[n]));
    }
  }

  /** Layered types show their layers in z order, whatever the layers are. */
  lemma {:induction false} LayeredShows<T>(items: seq<(T, Composition)>)
    requires Layered(TypesOf(items))
    ensures OfType(items, Device) + OfType(items, Client) == Shown(items)
  {
    if items != [] {
      var n := |items| - 1;
      var (x, t) := items[n];
      LayeredPrefix(items);
      LayeredShows(items[..n]);
      var d, c := OfType(items[..n], Device), OfType(items[..n], Client);
      if t.Device? {
        assert d + [x] + [] == d + [] + [x];
      } else if t.Client? {
        assert d + (c + [x]) == (d + c) + [x];
      }
    }
  }

  function Images<T, I>(image: T -> I, layers: seq<T>): seq<I> {
    if layers == [] then []
    else Images(image, layers[..|layers| - 1]) + [image(layers[|layers| - 1])]
  }

  lemma {:induction false} ImagesConcat<T, I>(image: T -> I, a: seq<T>, b: seq<T>)
    ensures Images(image, a + b) == Images(image, a) + Images(image, b)
  {
    if b == [] {
      assert a + b == a;
    } else {
      var n := |b| - 1;
      ImagesConcat(image, a, b[..n]);
      assert (a + b)[..|a + b| - 1] == a + b[..n];
      assert Images(image, a) + (Images(image, b[..n]) + [image(b[n])])
          == (Images(image, a) + Images(image, b[..n])) + [image(b[n])];
    }
  }

  /** For any associative blending, painting the client layers into the client target first and then
      showing planes and target gives the picture of painting all shown layers in z order. Layers may
      look alike. */
  lemma SamePicture<T, I(!new)>(over: (I, I) -> I, clear: I, base: I, image: T -> I, items: seq<(T, Composition)>)
    requires Associative(over) && (forall a :: over(a, clear) == a)
    requires Layered(TypesOf(items))
    ensures over(Painted(over, base, Images(image, OfType(items, Device))),
                 Painted(over, clear, Images(image, OfType(items, Client))))
         == Painted(over, base, Images(image, Shown(items)))
  {
    var devices, clients := Images(image, OfType(items, Device)), Images(image, OfType(items, Client));
    LayeredShows(items);
    ImagesConcat(image, OfType(items, Device), OfType(items, Client));
    PaintedConcat(over, base, devices, clients);
    PaintedOnto(over, clear, Painted(over, base, devices), clients);
  }

  // ----- z order -----

  /** Ranks strictly increase along the list. */
  ghost predicate Ascending<T>(xs: seq<T>, rank: map<T, int>) {
    && (forall x :: x in xs ==> x in rank)
    && (forall i, j :: 0 <= i < j < |xs| ==> rank[xs[i]] < rank[xs[j]])
  }

  /** What is shown are the device and client layers, each once and in the order listed. */
  lemma {:induction false} ShownInOrder<T>(items: seq<(T, Composition)>, xs: seq<T>, rank: map<T, int>)
    requires |xs| == |items| && (forall i :: 0 <= i < |items| ==> items[i].0 == xs[i]) && Ascending(xs, rank)
    ensures Ascending(Shown(items), rank)
    ensures forall x :: x in Shown(items) <==> exists i :: 0 <= i < |items| && items[i].0 == x && IsShown(items[i].1)
    ensures forall x :: x in Shown(items) ==> x in xs
  {
    if items != [] {
      var n := |items| - 1;
      ShownInOrder(items[..n], xs[..n], rank);
      var before, s := Shown(items[..n]), Shown(items);
      forall x ensures x in s <==> exists i :: 0 <= i < |items| && items[i].0 == x && IsShown(items[i].1) {
        if x in s && x in before {
          var i :| 0 <= i < n && items[..n][i].0 == x && IsShown(items[..n][i].1);
          assert items[i].0 == x && IsShown(items[i].1);
        } else if x in s {
          assert items[n].0 == x && IsShown(items[n].1);
        }
        if i :| 0 <= i < |items| && items[i].0 == x && IsShown(items[i].1) {
          if i < n {
            assert items[..n][i].0 == x && IsShown(items[..n][i].1);
          }
        }
      }
      forall i, j | 0 <= i < j < |s| ensures rank[s[i]] < rank[s[j]] {
        if j == |before| {
          assert before[i] in before;
          var k :| 0 <= k < n && xs[k] == before[i];
          assert xs[n] == s[j];
        }
      }
    }
  }

  predicate IsShown(t: Composition) {
    t.Device? || t.Client?
  }

  // ----- an overlooked list -----

  const SKIPPED := Info(SolidColor, false, true)
  const CAPABLE := Info(Device, true, false)

  /** A skipped solid colour and two layers that could both have a plane: two planes, one is left idle. */
  lemma OverlookedInstance()
    ensures var ls := [SKIPPED, CAPABLE, CAPABLE];
            && Overlooked(ls, 2)
            && Plan(ls, 2, 1).types == [SolidColor, Device, Client]
            && Admissible(ls, [SolidColor, Device, Device], 2)
  {
    hide Plan, Admissible;
    InstanceEligible();
    InstancePlan();
    InstanceBetter();
  }

  lemma InstanceEligible()
    ensures EligiblePrefix([SKIPPED, CAPABLE, CAPABLE]) == Prefix(2, true)
  {
    assert [SKIPPED, CAPABLE, CAPABLE][..2] == [SKIPPED, CAPABLE];
    assert [SKIPPED, CAPABLE][..1] == [SKIPPED];
    assert EligiblePrefix([SKIPPED]) == Prefix(0, true);
    assert EligiblePrefix([SKIPPED, CAPABLE]) == Prefix(1, true);
  }

  lemma InstancePlan()
    ensures Plan([SKIPPED, CAPABLE, CAPABLE], 2, 1).types == [SolidColor, Device, Client]
  {
    assert [SKIPPED, CAPABLE, CAPABLE][..2] == [SKIPPED, CAPABLE];
    assert [SKIPPED, CAPABLE][..1] == [SKIPPED] && [SKIPPED][..0] == [];
    assert Greedy([SKIPPED], 1) == Pass([SolidColor], 0, true, 0);
    assert Greedy([SKIPPED, CAPABLE], 1) == Pass([SolidColor, Device], 1, true, 0);
  }

  lemma InstanceBetter()
    ensures Admissible([SKIPPED, CAPABLE, CAPABLE], [SolidColor, Device, Device], 2)
  {
    var types := [SolidColor, Device, Device];
    assert types[..2] == [SolidColor, Device] && [SolidColor, Device][..1] == [SolidColor] && [SolidColor][..0] == [];
    assert Count([SolidColor], Device) == 0 && Count([SolidColor, Device], Device) == 1;
  }
}
