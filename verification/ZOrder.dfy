/** A layer, and the std::map<int, HwcLayer*> that sorts layers by z. */
module ZOrder {
  import opened Words
  import opened Planner
  import Commands

  datatype Crop = Crop(left: real, top: real, right: real, bottom: real)

  /** The conversion of a float to int. */
  function Truncate(x: real): int {
    if x >= 0.0 then x.Floor else -((-x).Floor)
  }

  /** Less than one is lost, and never away from zero. */
  lemma TruncateMeans(x: real)
    ensures var n := Truncate(x) as real;
            if x >= 0.0 then 0.0 <= n <= x < n + 1.0 else n - 1.0 < x <= n <= 0.0
  {
  }

  class HwcLayer {
    var sfType: Composition         // requested by the client
    var validatedType: Composition  // decided by validateDisplay
    var zorder: Word
    var format: Option<int>         // pixel format of the buffer, None without a buffer
    var transformed: bool           // mTransform != Transform::None
    var displayFrame: Commands.Rect
    var sourceCrop: Crop
    var skipComposition: bool

    constructor ()
      ensures sfType == validatedType == Invalid && zorder == 0 && format == None
    {
      sfType, validatedType, zorder, format, transformed := Invalid, Invalid, 0, None, false;
      displayFrame, sourceCrop, skipComposition := Commands.Rect(0, 0, 0, 0), Crop(0.0, 0.0, 0.0, 0.0), false;
    }

    /** Shown unscaled and more than one pixel wide and high. */
    predicate CheckLayer()
      reads this`displayFrame, this`sourceCrop
    {
      var dispW, dispH := displayFrame.right - displayFrame.left, displayFrame.bottom - displayFrame.top;
      var srcW := Truncate(sourceCrop.right - sourceCrop.left);
      var srcH := Truncate(sourceCrop.bottom - sourceCrop.top);
      dispW > 1 && dispH > 1 && srcW > 1 && srcH > 1 && srcW == dispW && srcH == dispH
    }

    predicate TypeChanged()
      reads this`sfType, this`validatedType
    {
      sfType != validatedType
    }
  }

  // ----- std::map<int, HwcLayer*> -----

  datatype Entry = Entry(key: Int32, layer: HwcLayer)

  ghost predicate Sorted(es: seq<Entry>) {
    forall i, j :: 0 <= i < j < |es| ==> es[i].key < es[j].key
  }

  ghost predicate HasKey(es: seq<Entry>, k: Int32) {
    exists i :: 0 <= i < |es| && es[i].key == k
  }

  /** Where key `k` is or belongs. */
  function Position(es: seq<Entry>, k: Int32): (p: nat)
    requires Sorted(es)
    ensures p <= |es|
    ensures forall i :: 0 <= i < p ==> es[i].key < k
    ensures forall i :: p <= i < |es| ==> k <= es[i].key
  {
    if es == [] || es[|es| - 1].key < k then |es| else Position(es[..|es| - 1], k)
  }

  /** emplace: a key that is present keeps its layer. */
  function Emplace(es: seq<Entry>, e: Entry): (r: seq<Entry>)
    requires Sorted(es)
    ensures Sorted(r)
  {
    var p := Position(es, e.key);
    if p < |es| && es[p].key == e.key then es else es[..p] + [e] + es[p..]
  }

  lemma EmplaceMeans(es: seq<Entry>, e: Entry)
    requires Sorted(es)
    ensures |Emplace(es, e)| == |es| + if HasKey(es, e.key) then 0 else 1
    ensures forall x | x in Emplace(es, e) :: x in es || x == e
    ensures forall x | x in es :: x in Emplace(es, e)
    ensures !HasKey(es, e.key) ==> e in Emplace(es, e)
  {
    var p, r := Position(es, e.key), Emplace(es, e);
    assert es == es[..p] + es[p..];
    if r != es {
      assert r[p] == e;
    }
  }

  lemma EmplaceKeys(es: seq<Entry>, e: Entry, k: Int32)
    requires Sorted(es)
    ensures HasKey(Emplace(es, e), k) <==> HasKey(es, k) || k == e.key
  {
    var p := Position(es, e.key);
    if Emplace(es, e) != es {
      InsertedKeys(es, e, p, k);
    }
  }

  lemma InsertedKeys(es: seq<Entry>, e: Entry, p: nat, k: Int32)
    requires p <= |es|
    ensures HasKey(es[..p] + [e] + es[p..], k) <==> HasKey(es, k) || k == e.key
  {
    var r := es[..p] + [e] + es[p..];
    assert r[p] == e;
    if HasKey(es, k) {
      var i :| 0 <= i < |es| && es[i].key == k;
      assert r[if i < p then i else i + 1] == es[i];
    }
    if HasKey(r, k) && k != e.key {
      var i :| 0 <= i < |r| && r[i].key == k;
      assert es[if i < p then i else i - 1] == r[i];
    }
  }

  /** The z-sorted map built from the layers in id order. */
  function SortByKey(es: seq<Entry>): (r: seq<Entry>)
    ensures Sorted(r)
  {
    if es == [] then [] else Emplace(SortByKey(es[..|es| - 1]), es[|es| - 1])
  }

  ghost predicate DistinctKeys(es: seq<Entry>) {
    forall i, j :: 0 <= i < j < |es| ==> es[i].key != es[j].key
  }

  lemma {:induction false} SortedEntries(es: seq<Entry>)
    ensures |SortByKey(es)| <= |es|
    ensures forall x | x in SortByKey(es) :: x in es
  {
    hide Emplace;
    if es != [] {
      SortedEntries(es[..|es| - 1]);
      EmplaceMeans(SortByKey(es[..|es| - 1]), es[|es| - 1]);
    }
  }

  lemma {:induction false} SortedKeys(es: seq<Entry>, k: Int32)
    ensures HasKey(SortByKey(es), k) <==> HasKey(es, k)
  {
    hide Emplace;
    if es != [] {
      var n := |es| - 1;
      SortedKeys(es[..n], k);
      EmplaceKeys(SortByKey(es[..n]), es[n], k);
      assert HasKey(es, k) <==> HasKey(es[..n], k) || es[n].key == k by {
        assert forall i :: 0 <= i < n ==> es[..n][i] == es[i];
      }
    }
  }

  /** No layer is lost in the map exactly when no two layers have the same z. */
  lemma {:induction false} NoneLostIffDistinct(es: seq<Entry>)
    ensures |SortByKey(es)| == |es| <==> DistinctKeys(es)
    ensures DistinctKeys(es) ==> forall x | x in es :: x in SortByKey(es)
  {
    hide Emplace;
    if es != [] {
      var n := |es| - 1;
      NoneLostIffDistinct(es[..n]);
      SortedEntries(es[..n]);
      SortedKeys(es[..n], es[n].key);
      EmplaceMeans(SortByKey(es[..n]), es[n]);
      DistinctAppend(es);
      assert es == es[..n] + [es[n]];
    }
  }

  lemma DistinctAppend(es: seq<Entry>)
    requires es != []
    ensures DistinctKeys(es) <==> DistinctKeys(es[..|es| - 1]) && !HasKey(es[..|es| - 1], es[|es| - 1].key)
  {
    var n := |es| - 1;
    assert forall i :: 0 <= i < n ==> es[..n][i] == es[i];
  }

  /** Keys are z values converted to int: their order is the z order of two layers exactly when both
      or neither are below 2^31. */
  lemma KeyOrderIsZOrder(a: Word, b: Word)
    requires a != b
    ensures (ToSigned(a) < ToSigned(b) <==> a < b) <==> (a < TWO31 <==> b < TWO31)
  {
  }
}
