/** setChangedCompositionTypes: a list of any length, cut into frames that fit 16-bit lengths. */
module ChangedTypes {
  import opened Words
  import opened Commands
  import opened CommandWriter
  import opened Stream

  /** A layer and the composition type it was changed to. */
  datatype Change = Change(layer: Word64, kind: Int32)

  const CHANGED := Unknown(0x101)         // SET_CHANGED_COMPOSITION_TYPES
  const PER_FRAME: nat := MAX_LENGTH / 3  // entries of three words each

  function Zip(layers: seq<Word64>, types: seq<Int32>): (list: seq<Change>)
    ensures |list| == if |layers| < |types| then |layers| else |types|
  {
    seq(if |layers| < |types| then |layers| else |types|,
        i requires 0 <= i < |layers| && i < |types| => Change(layers[i], types[i]))
  }

  function EntryWords(list: seq<Change>): (ws: seq<Word>)
    ensures |ws| == 3 * |list|
  {
    if list == [] then []
    else
      var last := list[|list| - 1];
      EntryWords(list[..|list| - 1]) + [Low(last.layer), High(last.layer), FromSigned(last.kind)]
  }

  function ChunkSize(list: seq<Change>): (n: nat)
    ensures 3 * n <= MAX_LENGTH && n <= |list| && (list != [] ==> n > 0)
  {
    if |list| < PER_FRAME then |list| else PER_FRAME
  }

  function ChangedFrames(list: seq<Change>): seq<Word> {
    if list == [] then []
    else
      var n := ChunkSize(list);
      [Header(CHANGED, 3 * n)] + EntryWords(list[..n]) + ChangedFrames(list[n..])
  }

  // ----- an independent reader -----

  function ReadEntries(ws: seq<Word>): seq<Change>
    requires |ws| % 3 == 0
  {
    if ws == [] then []
    else
      var n := |ws| - 3;
      ReadEntries(ws[..n]) + [Change(Join(ws[n], ws[n + 1]), ToSigned(ws[n + 2]))]
  }

  /** Walks the frames and collects the entries of every SET_CHANGED_COMPOSITION_TYPES frame. */
  function Collect(ws: seq<Word>): seq<Change> {
    if ws == [] then []
    else
      var n := HeaderLength(ws[0]);
      if 1 + n > |ws| then []
      else
        (if HeaderCode(ws[0]) == Code(CHANGED) && n % 3 == 0 then ReadEntries(ws[1..1 + n]) else [])
        + Collect(ws[1 + n..])
  }

  lemma {:induction false} EntriesRoundTrip(list: seq<Change>)
    ensures ReadEntries(EntryWords(list)) == list
  {
    hide EntryWords, ReadEntries;
    NoEntries();
    if list != [] {
      var n := |list| - 1;
      var last := list[n];
      EntriesRoundTrip(list[..n]);
      assert list == list[..n] + [last];
      EntryWordsMore(list);
      JoinSplit(last.layer);
      ReadEntriesMore(EntryWords(list[..n]), Low(last.layer), High(last.layer), FromSigned(last.kind));
    }
  }

  lemma NoEntries()
    ensures EntryWords([]) == [] && ReadEntries([]) == []
  {
  }

  lemma EntryWordsMore(list: seq<Change>)
    requires list != []
    ensures var last := list[|list| - 1];
            EntryWords(list) ==
            EntryWords(list[..|list| - 1]) + [Low(last.layer), High(last.layer), FromSigned(last.kind)]
  {
  }

  lemma ReadEntriesMore(ws: seq<Word>, lo: Word, hi: Word, kind: Word)
    requires |ws| % 3 == 0
    ensures ReadEntries(ws + [lo, hi, kind]) == ReadEntries(ws) + [Change(Join(lo, hi), ToSigned(kind))]
  {
    hide Join, ToSigned;
    var all := ws + [lo, hi, kind];
    assert all[..|all| - 3] == ws;
  }

  /** However long the list, the frames read back to exactly the list, in order. */
  lemma {:induction false} FramesConcatenateBack(list: seq<Change>)
    ensures Collect(ChangedFrames(list)) == list
    decreases |list|
  {
    hide EntryWords, ReadEntries, Header;
    if list != [] {
      var n := ChunkSize(list);
      FramesConcatenateBack(list[n..]);
      CollectChunk(list, n);
    }
  }

  lemma CollectChunk(list: seq<Change>, n: nat)
    requires list != [] && n == ChunkSize(list)
    ensures Collect(ChangedFrames(list)) == list[..n] + Collect(ChangedFrames(list[n..]))
  {
    hide EntryWords, ReadEntries, Collect, Header;
    EntriesRoundTrip(list[..n]);
    CollectFrame(EntryWords(list[..n]), ChangedFrames(list[n..]));
  }

  lemma CollectFrame(payload: seq<Word>, rest: seq<Word>)
    requires |payload| % 3 == 0 && |payload| <= MAX_LENGTH
    ensures Collect([Header(CHANGED, |payload|)] + payload + rest) == ReadEntries(payload) + Collect(rest)
  {
    hide ReadEntries;
    var ws := [Header(CHANGED, |payload|)] + payload + rest;
    assert ws[1..1 + |payload|] == payload && ws[1 + |payload|..] == rest;
  }

  function Chunk(list: seq<Change>, at: nat, n: nat): (ws: seq<Word>)
    requires at + n <= |list| && 3 * n <= MAX_LENGTH
    ensures |ws| == 1 + 3 * n
  {
    [Header(CHANGED, 3 * n)] + EntryWords(list[at..at + n])
  }

  /** `content` lacks exactly the frames of list[at..]. */
  ghost predicate Lacks(content: seq<Word>, start: seq<Word>, list: seq<Change>, at: nat) {
    at <= |list| && content + ChangedFrames(list[at..]) == start + ChangedFrames(list)
  }

  lemma LacksAll(start: seq<Word>, list: seq<Change>)
    ensures Lacks(start, start, list, 0)
  {
    assert list[0..] == list;
  }

  lemma LacksNothing(content: seq<Word>, start: seq<Word>, list: seq<Change>)
    requires Lacks(content, start, list, |list|)
    ensures content == start + ChangedFrames(list)
  {
    assert ChangedFrames(list[|list|..]) == [];
  }

  lemma FramesFrom(list: seq<Change>, at: nat, n: nat)
    requires at < |list| && n == ChunkSize(list[at..])
    ensures at + n <= |list| && ChangedFrames(list[at..]) == Chunk(list, at, n) + ChangedFrames(list[at + n..])
  {
    hide EntryWords;
    assert list[at..][..n] == list[at..at + n] && list[at..][n..] == list[at + n..];
  }

  lemma NextChunk(content: seq<Word>, start: seq<Word>, list: seq<Change>, at: nat, n: nat)
    requires Lacks(content, start, list, at) && at < |list|
    requires n == if |list| - at < PER_FRAME then |list| - at else PER_FRAME
    ensures at + n <= |list| && 0 < n && 3 * n <= MAX_LENGTH
    ensures Lacks(content + Chunk(list, at, n), start, list, at + n)
    ensures |content| + 1 + 3 * n <= |start| + |ChangedFrames(list)|
  {
    hide EntryWords, ChangedFrames, Chunk;
    FramesFrom(list, at, n);
    Assoc(content, Chunk(list, at, n), ChangedFrames(list[at + n..]));
  }

  method WriteEntries(w: Writer, layers: seq<Word64>, types: seq<Int32>, at: nat, count: nat)
    requires w.Valid() && at + count <= |layers| && at + count <= |types|
    requires w.written + 3 * count <= w.data.Length
    modifies w`written, w`content, w.data
    ensures w.Valid() && w.content == old(w.content) + EntryWords(Zip(layers, types)[at..at + count])
  {
    hide EntryWords;
    ghost var list := Zip(layers, types);
    NoEntries();
    assert list[at..at] == [];
    for i := 0 to count
      invariant w.Valid() && w.written == old(w.written) + 3 * i
      invariant w.content == old(w.content) + EntryWords(list[at..at + i])
    {
      EntryStep(list, at, i);
      WriteEntry(w, layers[at + i], types[at + i]);
    }
  }

  method WriteEntry(w: Writer, layer: Word64, kind: Int32)
    requires w.Valid() && w.written + 3 <= w.data.Length
    modifies w`written, w`content, w.data
    ensures w.Valid() && w.content == old(w.content) + [Low(layer), High(layer), FromSigned(kind)]
  {
    w.Write64(layer);
    w.WriteSigned(kind);
  }

  /** One frame: header, `count` entries, end of command. */
  method WriteChunk(w: Writer, layers: seq<Word64>, types: seq<Int32>, at: nat, count: nat) returns (aborted: bool)
    requires w.Idle() && at + count <= |layers| && at + count <= |types| && 3 * count <= MAX_LENGTH
    modifies w, w.data
    ensures w.data == old(w.data) || fresh(w.data)
    ensures w.handles == old(w.handles)
    ensures aborted <==> |old(w.content)| + 1 + 3 * count >= TWO32
    ensures !aborted ==> w.Idle()
    ensures !aborted ==> w.content == old(w.content) + Chunk(Zip(layers, types), at, count)
  {
    hide EntryWords, Header;
    aborted := w.BeginCommand(CHANGED, 3 * count);
    if !aborted {
      WriteEntries(w, layers, types, at, count);
      w.EndCommand();
    }
  }

  lemma EntryStep(list: seq<Change>, at: nat, i: nat)
    requires at + i < |list|
    ensures EntryWords(list[at..at + i + 1]) == EntryWords(list[at..at + i])
              + [Low(list[at + i].layer), High(list[at + i].layer), FromSigned(list[at + i].kind)]
  {
    assert list[at..at + i + 1][..i] == list[at..at + i];
  }

  /** The chunking loop of setChangedCompositionTypes. */
  method SetChangedCompositionTypes(w: Writer, layers: seq<Word64>, types: seq<Int32>) returns (aborted: bool)
    requires w.Idle()
    modifies w, w.data
    ensures w.data == old(w.data) || fresh(w.data)
    ensures !aborted ==> w.Idle() && w.content == old(w.content) + ChangedFrames(Zip(layers, types))
    ensures aborted <==> |old(w.content)| + |ChangedFrames(Zip(layers, types))| >= TWO32
    ensures w.handles == old(w.handles)
  {
    ghost var list := Zip(layers, types);
    hide Zip, Lacks, Chunk, ChangedFrames, Writer.Idle, Writer.Valid;
    var totalLayers := if |layers| < |types| then |layers| else |types|;
    var currentLayer := 0;
    LacksAll(w.content, list);
    while currentLayer < totalLayers
      invariant currentLayer <= totalLayers == |list|
      invariant w.Idle() && (w.data == old(w.data) || fresh(w.data)) && w.handles == old(w.handles)
      invariant Lacks(w.content, old(w.content), list, currentLayer)
    {
      var count := if totalLayers - currentLayer < PER_FRAME then totalLayers - currentLayer else PER_FRAME;
      NextChunk(w.content, old(w.content), list, currentLayer, count);
      aborted := WriteChunk(w, layers, types, currentLayer, count);
      if aborted {
        return;
      }
      currentLayer := currentLayer + count;
    }
    LacksNothing(w.content, old(w.content), list);
    aborted := false;
  }
}
