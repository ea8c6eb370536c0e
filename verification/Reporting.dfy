/** parseValidateDisplay, its answer: what a validation changed, as the client reads it. */
module Reporting {
  import opened Words
  import opened ChangedTypes
  import opened CommandWriter
  import opened HwcDisplay
  import opened Planner
  import opened ZOrder
  import Replies

  /** The number of a type in the interface. */
  function TypeCode(c: Composition): Int32 {
    match c
    case Invalid => 0
    case Client => 1
    case Device => 2
    case SolidColor => 3
    case Cursor => 4
    case Sideband => 5
    case Other(code) => code
  }

  /** The type a client takes such a number for. */
  function TypeOf(code: Int32): Composition {
    if code < 0 || code > 5 then Other(code)
    else [Invalid, Client, Device, SolidColor, Cursor, Sideband][code]
  }

  /** No two types share a number. */
  lemma TypeRoundTrip(c: Composition, code: Int32)
    ensures TypeOf(TypeCode(c)) == c && TypeCode(TypeOf(code)) == code
  {
  }

  /** The entries of the frames as layers with their new types. */
  function AsRead(list: seq<Change>): (changed: seq<(nat, Composition)>)
    ensures |changed| == |list|
    ensures forall k :: 0 <= k < |list| ==> changed[k] == (list[k].layer, TypeOf(list[k].kind))
  {
    seq(|list|, k requires 0 <= k < |list| => (list[k].layer, TypeOf(list[k].kind)))
  }

  lemma ReadAsWritten(changed: seq<(nat, Composition)>)
    requires Indexed(changed)
    ensures AsRead(AsWritten(changed)) == changed
  {
    forall k | 0 <= k < |changed| ensures AsRead(AsWritten(changed))[k] == changed[k] {
      TypeRoundTrip(changed[k].1, 0);
    }
  }

  function AsWritten(changed: seq<(nat, Composition)>): (list: seq<Change>)
    requires forall k :: 0 <= k < |changed| ==> changed[k].0 < TWO32
    ensures |list| == |changed|
    ensures forall k :: 0 <= k < |changed| ==> list[k] == Change(changed[k].0, TypeCode(changed[k].1))
  {
    seq(|changed|, k requires 0 <= k < |changed| => Change(changed[k].0, TypeCode(changed[k].1)))
  }

  /** Layers the display named, as a 32-bit index does. */
  ghost predicate Indexed(changed: seq<(nat, Composition)>) {
    forall k :: 0 <= k < |changed| ==> changed[k].0 < TWO32
  }

  lemma {:induction false} ChangedAreIndexed(rs: seq<Report>)
    requires forall k :: 0 <= k < |rs| ==> rs[k].id < TWO32
    ensures Indexed(ChangedOf(rs))
  {
    if rs != [] {
      ChangedAreIndexed(rs[..|rs| - 1]);
    }
  }

  lemma DisplayIndexes(d: Display)
    requires d.Valid() && d.layerIndex <= TWO32
    ensures Indexed(d.Changed())
  {
    ChangedAreIndexed(Display.Reports(d.layers));
  }

  /** Behind `before` stand frames that read back to the changes, and none of them is an error. */
  ghost predicate Told(before: seq<Word>, after: seq<Word>, changed: seq<(nat, Composition)>) {
    && before <= after && AsRead(Collect(after[|before|..])) == changed
    && Replies.NoErrors(after[|before|..])
  }

  lemma FramesTell(before: seq<Word>, list: seq<Change>, changed: seq<(nat, Composition)>)
    requires Indexed(changed) && list == AsWritten(changed)
    ensures Told(before, before + ChangedFrames(list), changed)
  {
    hide ChangedFrames, Collect, Replies.NoErrors;
    FramesConcatenateBack(list);
    ReadAsWritten(changed);
    Replies.ChangedFramesAreFramed(list);
    assert (before + ChangedFrames(list))[|before|..] == ChangedFrames(list);
  }

  /** HwcHal::validateDisplay, with the types as the numbers they are handed over as. */
  method Validate(d: Display) returns (ids: seq<Word64>, codes: seq<Int32>)
    requires d.Valid() && d.layerIndex <= TWO32
    modifies d`sorted, d`validated, Objects(d.layers)`validatedType
    ensures d.Valid() && d.validated && d.Listed() && d.Planned()
    ensures d.sorted == SortByKey(old(Display.Entries(d.layers)))
    ensures Indexed(d.Changed()) && Zip(ids, codes) == AsWritten(d.Changed())
  {
    hide SortByKey, Display.Entries, Plan, Display.Infos, Display.Validated, Display.Changed, Display.Listed,
         Display.Planned;
    var layers, types, _ := d.HalValidate();
    DisplayIndexes(d);
    assert forall k :: 0 <= k < |layers| ==> layers[k] == d.Changed()[k].0;
    ids := layers;
    codes := seq(|types|, k requires 0 <= k < |types| => TypeCode(types[k]));
  }

  /** parseValidateDisplay up to the display requests: the client reads exactly the layers whose type the
      plan changed, in id order, with the types they have from now on. */
  method ReportValidation(d: Display, w: Writer) returns (aborted: bool)
    requires d.Valid() && d.layerIndex <= TWO32 && w.Idle()
    modifies d`sorted, d`validated, Objects(d.layers)`validatedType, w, w.data
    ensures d.Valid() && d.validated && d.Listed() && d.Planned()
    ensures d.sorted == SortByKey(old(Display.Entries(d.layers)))
    ensures Indexed(d.Changed())
    ensures !aborted ==> w.Idle() && Told(old(w.content), w.content, d.Changed())
    ensures aborted <==> |old(w.content)| + |ChangedFrames(AsWritten(d.Changed()))| >= TWO32
  {
    hide SortByKey, Display.Entries, Plan, Told, Zip, AsWritten, ChangedFrames, Writer.Valid, ChangedOf, ListedIn,
         Display.Infos, Display.Validated;
    var ids, codes := Validate(d);
    ghost var changed, infos, planned := d.Changed(), d.Infos(d.sorted), Display.Validated(d.sorted);
    FramesTell(w.content, AsWritten(changed), changed);
    aborted := SetChangedCompositionTypes(w, ids, codes);
    assert d.Changed() == changed && d.Infos(d.sorted) == infos && Display.Validated(d.sorted) == planned;
  }
}
