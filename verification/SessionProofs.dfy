/** What one command does: what it imports, calls, stores, replies and closes; and what the replies of
    a whole stream say about where errors happened. */
module SessionProofs {
  import opened Words
  import opened Commands
  import opened Stream
  import opened Session
  import opened HalCalls

  // ----- the slot cache -----

  /** The slot a command uses and how it refers to its buffer. */
  function Reference(s: State, item: Item): Option<(Key, Source)> {
    match item.request
    case Do(SetBuffer(t, slot, source, _)) => Some((KeyFor(s, t, slot), source))
    case Do(SetSidebandStream(source)) => Some((SidebandKey(s.display, s.layer), source))
    case _ => None
  }

  /** What a command puts into a slot: a buffer it brings along, once imported. */
  function Stored(env: Env, s: State, item: Item): Option<(Key, Slot)> {
    match Reference(s, item)
    case Some((k, Given(h))) =>
      var (_, err, b) := Import(env, s, h);
      if err == NONE && Check(s.displays, k) == NONE then Some((k, b)) else None
    case _ => None
  }

  lemma ExecDisplays(env: Env, s: State, item: Item)
    ensures Exec(env, s, item).displays
         == match Stored(env, s, item)
            case Some((k, b)) => Store(s.displays, k, b)
            case None => s.displays
  {
    hide Check, At, Store;
  }

  lemma StoredIsValid(env: Env, s: State, item: Item)
    ensures Stored(env, s, item).Some? ==> Check(s.displays, Stored(env, s, item).value.0) == NONE
  {
  }

  // ----- fences -----

  /** The descriptor of a buffer command has exactly one owner afterwards: the HAL, if the command's
      call was answered NONE, or nobody, because it was closed once. That call has the command's buffer. */
  lemma FenceDisposedOnce(env: Env, s: State, loc: nat, t: BufferTarget, slot: Word, source: Source, fence: Int32)
    ensures var after := Exec(env, s, Item(loc, Do(SetBuffer(t, slot, source, fence))));
            var taken := after.calls != s.calls && env.hal(after.calls).error == NONE;
            && after.closed == s.closed + (if taken then [] else [fence])
            && (taken ==>
                  var b := Passed(s, t, slot, source);
                  after.calls == s.calls + [Call(s.display, s.layer, SetBuffer(t, slot, b, fence))])
  {
    hide Exec, EntryOf;
    if source.Cached? {
      CachedBuffer(env, s, loc, t, slot, fence);
    } else {
      BroughtBuffer(env, s, loc, t, slot, source.handle, fence);
    }
  }

  // ----- calls -----

  /** `after` adds at most two calls, all for the display and layer that `s` has selected. */
  predicate Calls(s: State, after: State) {
    && |s.calls| <= |after.calls| <= |s.calls| + 2 && after.calls[..|s.calls|] == s.calls
    && (forall i :: |s.calls| <= i < |after.calls| ==>
          after.calls[i].display == s.display && after.calls[i].layer == s.layer)
  }

  /** A command calls for what was selected when it came; only the two select commands change that. */
  lemma CallsOfCommand(env: Env, s: State, item: Item)
    ensures var after := Exec(env, s, item);
            && Calls(s, after)
            && (match item.request
                case Do(SelectDisplay(d)) => after.display == d && after.layer == s.layer && after.calls == s.calls
                case Do(SelectLayer(l)) => after.display == s.display && after.layer == l && after.calls == s.calls
                case Do(Set(x)) =>
                  && after.display == s.display && after.layer == s.layer
                  && after.calls == s.calls + [Call(s.display, s.layer, Set(x))]
                case Do(Ask(q)) =>
                  && after.display == s.display && after.layer == s.layer
                  && (q.PresentOrValidateDisplay? || after.calls == s.calls + [Call(s.display, s.layer, Ask(q))])
                case _ => after.display == s.display && after.layer == s.layer)
  {
    hide Check, At, Store, ExecBuffer, ExecSideband, ExecQuery;
    if item.request.Do? {
      var c := item.request.command;
      if c.SetBuffer? {
        BufferCalls(env, s, item.loc, c.target, c.slot, c.buffer, c.fence);
      } else if c.SetSidebandStream? {
        SidebandCalls(env, s, item.loc, c.stream);
      } else if c.Ask? {
        QueryCalls(env, s, item.loc, c.query);
      }
    }
  }

  lemma BufferCalls(env: Env, s: State, loc: nat, t: BufferTarget, slot: Word, source: Source, fence: Int32)
    ensures var after := ExecBuffer(env, s, loc, t, slot, source, fence);
            Calls(s, after) && after.display == s.display && after.layer == s.layer
  {
    hide Check, At, Store;
  }

  lemma SidebandCalls(env: Env, s: State, loc: nat, source: Source)
    ensures var after := ExecSideband(env, s, loc, source);
            Calls(s, after) && after.display == s.display && after.layer == s.layer
  {
    hide Check, At, Store;
  }

  lemma QueryCalls(env: Env, s: State, loc: nat, q: Query)
    ensures var after := ExecQuery(env, s, loc, q);
            && Calls(s, after) && after.display == s.display && after.layer == s.layer
            && (q.PresentOrValidateDisplay? || after.calls == s.calls + [Call(s.display, s.layer, Ask(q))])
  {
  }

  /** A sideband stream reaches the HAL unless its lookup fails: a stream that came along as the newest
      import, null as null, a cached one as what the layer holds. No fence is involved. */
  lemma SidebandCall(env: Env, s: State, loc: nat, source: Source)
    ensures var k := SidebandKey(s.display, s.layer);
            var after := Exec(env, s, Item(loc, Do(SetSidebandStream(source))));
            && after.closed == s.closed
            && (after.calls == s.calls ==> after.displays == s.displays && after.freed == s.freed
                                           && exists e :: e != NONE && after.replies == s.replies + [ErrorAt(loc, e)])
            && (after.calls != s.calls ==>
                  exists b :: after.calls == s.calls + [Call(s.display, s.layer, SetSidebandStream(b))]
                              && (source.Cached? ==> Check(s.displays, k) == NONE && b == At(s.displays, k))
                              && (source.Given? && b.Some? ==>
                                    b.value == s.imported && after.imported == s.imported + 1)
                              && (source.Given? && b.None? ==> after.imported == s.imported))
  {
    hide Check, At, Store;
    var (s1, looked, b) := Lookup(env, s, SidebandKey(s.display, s.layer), source);
    if looked == NONE {
      var call := Call(s.display, s.layer, SetSidebandStream(b));
      assert (s.calls + [call])[|s.calls|] == call;
      assert Exec(env, s, Item(loc, Do(SetSidebandStream(source)))).calls == s.calls + [call];
    }
  }

  /** Present-or-validate validates exactly when presenting was answered by an error; the last answer is
      what is replied: its content under the call that gave it, or its error. */
  lemma PresentOrValidateCalls(env: Env, s: State, loc: nat)
    ensures var present := Call(s.display, s.layer, Ask(PresentDisplay));
            var validate := Call(s.display, s.layer, Ask(ValidateDisplay));
            var after := Exec(env, s, Item(loc, Do(Ask(PresentOrValidateDisplay))));
            var presented := env.hal(s.calls + [present]).error == NONE;
            && after.calls == s.calls + [present] + (if presented then [] else [validate])
            && var answer := env.hal(after.calls);
               after.replies == s.replies + [
                 if answer.error != NONE then ErrorAt(loc, answer.error)
                 else Result(if presented then PresentDisplay else ValidateDisplay, answer.content)]
  {
  }

  // ----- errors -----

  /** A command replies at most once, and an error carries the command's own location. */
  lemma OneReplyPerCommand(env: Env, s: State, item: Item)
    ensures var after := Exec(env, s, item).replies;
            && (after == s.replies || (|after| == |s.replies| + 1 && after[..|s.replies|] == s.replies))
            && (after != s.replies && after[|s.replies|].ErrorAt? ==> after[|s.replies|].loc == item.loc)
            && (after != s.replies && after[|s.replies|].Result? ==>
                  exists calls :: after[|s.replies|].content == env.hal(calls).content)
  {
    hide Check, At, Store, ExecBuffer, ExecSideband, ExecQuery;
    match item.request
    case Do(SetBuffer(t, slot, source, fence)) => BufferReplies(env, s, item.loc, t, slot, source, fence);
    case Do(SetSidebandStream(source)) => SidebandReplies(env, s, item.loc, source);
    case Do(Ask(q)) => QueryReplies(env, s, item.loc, q);
    case _ =>
  }

  lemma BufferReplies(env: Env, s: State, loc: nat, t: BufferTarget, slot: Word, source: Source, fence: Int32)
    ensures var after := ExecBuffer(env, s, loc, t, slot, source, fence).replies;
            after == s.replies || exists e :: after == s.replies + [ErrorAt(loc, e)]
  {
    hide Check, At, Store;
  }

  lemma SidebandReplies(env: Env, s: State, loc: nat, source: Source)
    ensures var after := ExecSideband(env, s, loc, source).replies;
            after == s.replies || exists e :: after == s.replies + [ErrorAt(loc, e)]
  {
    hide Check, At, Store;
  }

  lemma QueryReplies(env: Env, s: State, loc: nat, q: Query)
    ensures var after := ExecQuery(env, s, loc, q).replies;
            || after == s.replies
            || (exists e :: after == s.replies + [ErrorAt(loc, e)])
            || (exists p, calls :: after == s.replies + [Result(p, env.hal(calls).content)])
  {
  }

  /** Every error names one of the items, and the locations strictly increase. */
  ghost predicate ErrorsNameItems(replies: seq<Reply>, items: seq<Item>) {
    && (forall i :: 0 <= i < |replies| && replies[i].ErrorAt? ==> Names(replies[i].loc, items))
    && (forall i, j :: 0 <= i < j < |replies| && replies[i].ErrorAt? && replies[j].ErrorAt? ==>
          replies[i].loc < replies[j].loc)
  }

  ghost predicate Names(loc: nat, items: seq<Item>) {
    exists m :: 0 <= m < |items| && items[m].loc == loc
  }

  lemma {:induction false} ErrorsFollowItems(env: Env, s: State, items: seq<Item>)
    requires s.replies == [] && Increasing(items)
    ensures ErrorsNameItems(ExecAll(env, s, items).replies, items)
  {
    hide Exec;
    if items != [] {
      var n := |items| - 1;
      var before := ExecAll(env, s, items[..n]);
      ErrorsFollowItems(env, s, items[..n]);
      OneReplyPerCommand(env, before, items[n]);
      MoreReplies(before.replies, ExecAll(env, s, items).replies, items);
    }
  }

  lemma MoreReplies(before: seq<Reply>, after: seq<Reply>, items: seq<Item>)
    requires items != [] && Increasing(items) && ErrorsNameItems(before, items[..|items| - 1])
    requires after == before || (|after| == |before| + 1 && after[..|before|] == before)
    requires after != before && after[|before|].ErrorAt? ==> after[|before|].loc == items[|items| - 1].loc
    ensures ErrorsNameItems(after, items)
  {
    forall i | 0 <= i < |before| && before[i].ErrorAt?
      ensures Names(before[i].loc, items) && before[i].loc < items[|items| - 1].loc
    {
      var m :| 0 <= m < |items| - 1 && items[..|items| - 1][m].loc == before[i].loc;
      assert items[m].loc == before[i].loc;
    }
    assert forall i :: 0 <= i < |before| ==> after[i] == before[i];
  }

  /** The errors of a parsed stream carry header offsets of its commands, in stream order. */
  lemma ErrorLocations(env: Env, s: State, words: seq<Word>, hs: seq<Handle>)
    requires s.replies == []
    ensures var items := Parse(words, hs, 0).items;
            ErrorsNameItems(ExecAll(env, s, items).replies, items)
  {
    hide Parse;
    LocationsIncrease(words, hs);
    ErrorsFollowItems(env, s, Parse(words, hs, 0).items);
  }
}
