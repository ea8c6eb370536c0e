/** The words of the replies: what the service writes for them, and what a client reads back. */
module Replies {
  import opened Words
  import opened Commands
  import opened Stream
  import opened CommandWriter
  import opened Session
  import opened SessionProofs
  import opened ChangedTypes

  const SET_ERROR := Unknown(0x100)

  /** Error numbers of the 2.1 interface. */
  function ErrorCode(e: Error): Int32 {
    match e
    case NONE => 0
    case BAD_DISPLAY => 2
    case BAD_LAYER => 3
    case BAD_PARAMETER => 4
    case NO_RESOURCES => 6
    case NOT_VALIDATED => 7
    case HalError(code) => code
  }

  /** The error a client takes such a number for. */
  function ErrorOf(code: Int32): Error {
    if code == 0 then NONE
    else if code == 2 then BAD_DISPLAY
    else if code == 3 then BAD_LAYER
    else if code == 4 then BAD_PARAMETER
    else if code == 6 then NO_RESOURCES
    else if code == 7 then NOT_VALIDATED
    else HalError(code)
  }

  /** No two errors share a number. */
  lemma ErrorCodeRoundTrip(e: Error)
    ensures ErrorOf(ErrorCode(e)) == e
  {
  }

  function ErrorFrame(loc: Word, e: Error): seq<Word> {
    [Header(SET_ERROR, 2), loc, FromSigned(ErrorCode(e))]
  }

  /** The frames of a result are whatever the HAL's answer is written as. */
  function ReplyWords(r: Reply): seq<Word>
    requires r.ErrorAt? ==> r.loc < TWO32
  {
    match r
    case DisplayEcho(d) => Frame(SelectDisplay(d), 0)
    case ErrorAt(loc, e) => ErrorFrame(loc, e)
    case Result(_, content) => content
  }

  function Output(replies: seq<Reply>): seq<Word>
    requires forall i :: 0 <= i < |replies| && replies[i].ErrorAt? ==> replies[i].loc < TWO32
  {
    if replies == [] then [] else ReplyWords(replies[0]) + Output(replies[1..])
  }

  /** setError */
  method WriteError(w: Writer, loc: Word, e: Error) returns (aborted: bool)
    requires w.Idle()
    modifies w, w.data
    ensures w.data == old(w.data) || fresh(w.data)
    ensures aborted <==> |old(w.content)| + 3 >= TWO32
    ensures !aborted ==> w.Idle() && w.content == old(w.content) + ErrorFrame(loc, e)
    ensures w.handles == old(w.handles)
  {
    hide Header;
    aborted := w.BeginCommand(SET_ERROR, 2);
    if !aborted {
      w.Write(loc);
      w.WriteSigned(ErrorCode(e));
      w.EndCommand();
    }
  }

  // ----- what a client reads -----

  /** Walks the frames and collects location and error of every SET_ERROR frame. */
  function Errors(ws: seq<Word>): seq<(Word, Error)> {
    if ws == [] then []
    else
      var n := HeaderLength(ws[0]);
      if 1 + n > |ws| then []
      else
        (if HeaderCode(ws[0]) == Code(SET_ERROR) && n == 2 then [(ws[1], ErrorOf(ToSigned(ws[2])))] else [])
        + Errors(ws[1 + n..])
  }

  /** Whole frames, none of them SET_ERROR. */
  predicate NoErrors(ws: seq<Word>) {
    ws == [] ||
    var n := HeaderLength(ws[0]);
    1 + n <= |ws| && HeaderCode(ws[0]) != Code(SET_ERROR) && NoErrors(ws[1 + n..])
  }

  /** The HAL's answers are written as whole frames other than SET_ERROR. */
  ghost predicate AnswersFramed(env: Env) {
    forall calls :: NoErrors(env.hal(calls).content)
  }

  /** The errors among the replies, as they should arrive. */
  function Reported(replies: seq<Reply>): seq<(nat, Error)> {
    if replies == [] then []
    else
      (if replies[0].ErrorAt? then [(replies[0].loc, replies[0].error)] else []) + Reported(replies[1..])
  }

  lemma {:induction false} ErrorsSkip(ws: seq<Word>, rest: seq<Word>)
    requires NoErrors(ws)
    ensures Errors(ws + rest) == Errors(rest)
    decreases |ws|
  {
    if ws == [] {
      assert ws + rest == rest;
    } else {
      hide Errors, NoErrors, HeaderLength;
      SkipFrame(ws, rest);
      ErrorsSkip(ws[1 + HeaderLength(ws[0])..], rest);
    }
  }

  lemma ErrorsBehind(ws: seq<Word>)
    requires ws != [] && 1 + HeaderLength(ws[0]) <= |ws| && HeaderCode(ws[0]) != Code(SET_ERROR)
    ensures Errors(ws) == Errors(ws[1 + HeaderLength(ws[0])..])
  {
    hide HeaderLength, HeaderCode;
  }

  /** One whole frame other than SET_ERROR is passed over. */
  lemma SkipFrame(ws: seq<Word>, rest: seq<Word>)
    requires ws != [] && NoErrors(ws)
    ensures 1 + HeaderLength(ws[0]) <= |ws| && NoErrors(ws[1 + HeaderLength(ws[0])..])
    ensures Errors(ws + rest) == Errors(ws[1 + HeaderLength(ws[0])..] + rest)
  {
    hide Errors;
    var n := HeaderLength(ws[0]);
    assert (ws + rest)[0] == ws[0] && (ws + rest)[1 + n..] == ws[1 + n..] + rest;
    ErrorsBehind(ws + rest);
  }

  lemma ErrorArrives(loc: Word, e: Error, rest: seq<Word>)
    ensures Errors(ErrorFrame(loc, e) + rest) == [(loc, e)] + Errors(rest)
  {
    ErrorCodeRoundTrip(e);
    var ws := ErrorFrame(loc, e) + rest;
    assert ws[0] == Header(SET_ERROR, 2) && ws[1] == loc && ws[2] == FromSigned(ErrorCode(e));
    assert ws[3..] == rest;
  }

  lemma EchoIsNoError(d: Word64)
    ensures NoErrors(Frame(SelectDisplay(d), 0))
  {
    var ws := Frame(SelectDisplay(d), 0);
    assert ws[3..] == [];
  }

  /** A frame of another command, in front of whole frames that are no errors. */
  lemma OtherFrame(code: int, payload: seq<Word>, rest: seq<Word>)
    requires 0 <= code < TWO16 && code != Code(SET_ERROR) && |payload| <= MAX_LENGTH && NoErrors(rest)
    ensures NoErrors([Header(Unknown(code), |payload|)] + payload + rest)
  {
    var ws := [Header(Unknown(code), |payload|)] + payload + rest;
    assert ws[1 + |payload|..] == rest;
  }

  /** The frames in which validateDisplay reports changed types are whole and none is SET_ERROR. */
  lemma {:induction false} ChangedFramesAreFramed(list: seq<Change>)
    ensures NoErrors(ChangedFrames(list))
    decreases |list|
  {
    hide EntryWords, Header, NoErrors;
    if list == [] {
      NothingWrong();
    } else {
      var n := ChunkSize(list);
      ChangedFramesAreFramed(list[n..]);
      OtherFrame(0x101, EntryWords(list[..n]), ChangedFrames(list[n..]));
    }
  }

  lemma NothingWrong()
    ensures NoErrors([])
  {
  }

  /** The output of any replies reads back to exactly their errors, in order. */
  lemma {:induction false} ErrorsReadBack(replies: seq<Reply>)
    requires forall i :: 0 <= i < |replies| && replies[i].ErrorAt? ==> replies[i].loc < TWO32
    requires ResultsAreFramed(replies)
    ensures |Errors(Output(replies))| == |Reported(replies)|
    ensures forall i :: 0 <= i < |Reported(replies)| ==>
              Errors(Output(replies))[i].0 == Reported(replies)[i].0
              && Errors(Output(replies))[i].1 == Reported(replies)[i].1
  {
    hide Errors, NoErrors, ErrorFrame, Frame;
    if replies == [] {
      NothingRead();
    } else {
      ErrorsReadBack(replies[1..]);
      var rest := Output(replies[1..]);
      match replies[0]
      case ErrorAt(loc, e) => ErrorArrives(loc, e, rest);
      case DisplayEcho(d) =>
        EchoIsNoError(d);
        ErrorsSkip(Frame(SelectDisplay(d), 0), rest);
      case Result(_, content) => ErrorsSkip(content, rest);
    }
  }

  lemma NothingRead()
    ensures Errors([]) == []
  {
  }

  ghost predicate Mentions(replies: seq<Reply>, loc: nat) {
    exists k :: 0 <= k < |replies| && replies[k].ErrorAt? && replies[k].loc == loc
  }

  /** Reported errors of sorted replies are sorted and name items. */
  lemma {:induction false} ReportedNames(replies: seq<Reply>, items: seq<Item>)
    requires ErrorsNameItems(replies, items)
    ensures forall i :: 0 <= i < |Reported(replies)| ==> Names(Reported(replies)[i].0, items)
    ensures forall i :: 0 <= i < |Reported(replies)| ==> Mentions(replies, Reported(replies)[i].0)
    ensures forall i, j :: 0 <= i < j < |Reported(replies)| ==> Reported(replies)[i].0 < Reported(replies)[j].0
  {
    hide Names;
    if replies != [] {
      var tail := replies[1..];
      var rs := Reported(tail);
      assert forall i :: 0 <= i < |tail| ==> tail[i] == replies[i + 1];
      ReportedNames(tail, items);
      forall i | 0 <= i < |rs|
        ensures Mentions(replies, rs[i].0) && (replies[0].ErrorAt? ==> replies[0].loc < rs[i].0)
      {
        assert Mentions(tail, rs[i].0);
        var k :| 0 <= k < |tail| && tail[k].ErrorAt? && tail[k].loc == rs[i].0;
        assert replies[k + 1] == tail[k];
      }
      if replies[0].ErrorAt? {
        assert Mentions(replies, replies[0].loc);
      }
    }
  }

  predicate ResultsAreFramed(replies: seq<Reply>) {
    forall i :: 0 <= i < |replies| && replies[i].Result? ==> NoErrors(replies[i].content)
  }

  lemma {:induction false} ResultsFramed(env: Env, s: State, items: seq<Item>)
    requires s.replies == [] && AnswersFramed(env)
    ensures ResultsAreFramed(ExecAll(env, s, items).replies)
  {
    hide Exec, AnswersFramed, ResultsAreFramed;
    if items == [] {
      NothingFramed();
    } else {
      var n := |items| - 1;
      ResultsFramed(env, s, items[..n]);
      OneReplyPerCommand(env, ExecAll(env, s, items[..n]), items[n]);
      OneMoreFramed(env, ExecAll(env, s, items[..n]).replies, ExecAll(env, s, items).replies);
    }
  }

  lemma NothingFramed()
    ensures ResultsAreFramed([])
  {
  }

  lemma OneMoreFramed(env: Env, before: seq<Reply>, after: seq<Reply>)
    requires AnswersFramed(env) && ResultsAreFramed(before)
    requires after == before || (|after| == |before| + 1 && after[..|before|] == before)
    requires after != before && after[|before|].Result? ==>
             exists calls :: after[|before|].content == env.hal(calls).content
    ensures ResultsAreFramed(after)
  {
    forall i | 0 <= i < |after| && after[i].Result? ensures NoErrors(after[i].content) {
      if i < |before| {
        assert after[i] == before[i];
      } else {
        var calls :| after[i].content == env.hal(calls).content;
        assert NoErrors(env.hal(calls).content);
      }
    }
  }

  /** The SET_ERROR frames a client finds in the output of a parsed stream carry the offsets of headers
      of its commands, strictly increasing. */
  lemma ErrorsInOutput(env: Env, s: State, words: seq<Word>, hs: seq<Handle>)
    requires s.replies == [] && |words| < TWO32 && AnswersFramed(env)
    ensures var items := Parse(words, hs, 0).items;
            var replies := ExecAll(env, s, items).replies;
            && (forall i :: 0 <= i < |replies| && replies[i].ErrorAt? ==> replies[i].loc < TWO32)
            && var errors := Errors(Output(replies));
               && (forall i :: 0 <= i < |errors| ==> Names(errors[i].0, items))
               && (forall i, j :: 0 <= i < j < |errors| ==> errors[i].0 < errors[j].0)
  {
    hide Parse, ExecAll, Errors, Output, NoErrors, Reported;
    var items := Parse(words, hs, 0).items;
    var replies := ExecAll(env, s, items).replies;
    ErrorLocations(env, s, words, hs);
    ResultsFramed(env, s, items);
    LocationsInside(words, hs);
    forall i | 0 <= i < |replies| && replies[i].ErrorAt? ensures replies[i].loc < TWO32 {
      var m :| 0 <= m < |items| && items[m].loc == replies[i].loc;
    }
    ErrorsReadBack(replies);
    ReportedNames(replies, items);
  }

  lemma LocationsInside(words: seq<Word>, hs: seq<Handle>)
    ensures forall m :: 0 <= m < |Parse(words, hs, 0).items| ==> Parse(words, hs, 0).items[m].loc < |words|
  {
    ItemsAreFramePrefix(words, hs, 0);
  }
}
