/** Splitting a long reply into chat messages of at most 2000 characters. A chunk
    that would cut a line is shortened to end before its last newline, provided that
    newline lies beyond index 1500 and more text follows; the newline then opens the
    next chunk. Sending a chunk is modelled by appending it to the result. */
module SendSplit {
  import Text

  const Limit := 2000
  const MinCut := 1500

  function Concat(chunks: seq<string>): string {
    if |chunks| == 0 then "" else chunks[0] + Concat(chunks[1..])
  }

  lemma {:induction false} ConcatAppend(chunks: seq<string>, c: string)
    ensures Concat(chunks + [c]) == Concat(chunks) + c
    decreases |chunks|
  {
    if |chunks| == 0 {
      assert [c][1..] == [];
    } else {
      assert (chunks + [c])[1..] == chunks[1..] + [c];
      ConcatAppend(chunks[1..], c);
    }
  }

  /** One round of the loop: the chunk sent now and the text left for later. */
  function Cut(rest: string): (r: (string, string))
    requires rest != ""
    ensures r.0 + r.1 == rest
    ensures 0 < |r.0| <= Limit
    ensures r.1 != "" ==> MinCut < |r.0|
    ensures r.1 != "" && |r.0| < Limit ==>
      Limit < |rest| && r.1[0] == '\n' && '\n' !in rest[|r.0| + 1..Limit]
    ensures |r.0| < Limit ==> r.1 == "" || r.1[0] == '\n'
    ensures |rest| <= Limit ==> r == (rest, "")
    ensures Limit < |rest| && (exists k :: MinCut < k < Limit && rest[k] == '\n') ==>
      MinCut < |r.0| < Limit && rest[|r.0|] == '\n' && forall k :: |r.0| < k < Limit ==> rest[k] != '\n'
    ensures Limit < |rest| && (forall k :: MinCut < k < Limit ==> rest[k] != '\n') ==> |r.0| == Limit
  {
    var chunk := rest[..if |rest| < Limit then |rest| else Limit];
    var after := rest[|chunk|..];
    assert rest == chunk + after;
    assert |rest| <= Limit ==> chunk == rest;
    if after == "" then (chunk, after)
    else
      var lastNl := Text.RFind(chunk, '\n');
      assert forall k :: 0 <= k < |chunk| ==> chunk[k] == rest[k];
      if lastNl.Some? && lastNl.value > MinCut then
        var k := lastNl.value;
        assert chunk == chunk[..k] + chunk[k..];
        (chunk[..k], chunk[k..] + after)
      else (chunk, after)
  }

  /** What holds after every round: the chunks sent so far and the text left make up
      the input, every chunk but the last is longer than the cut threshold, and a
      short chunk is followed by a newline. */
  predicate Sent(chunks: seq<string>, rest: string, text: string) {
    && Concat(chunks) + rest == text
    && (forall i :: 0 <= i < |chunks| ==> 0 < |chunks[i]| <= Limit)
    && (forall i :: 0 <= i < |chunks| - 1 ==> MinCut < |chunks[i]|)
    && (|chunks| > 0 && rest != "" ==> MinCut < |chunks[|chunks| - 1]|)
    && (forall i :: 0 < i < |chunks| && |chunks[i - 1]| < Limit ==> chunks[i][0] == '\n')
    && (|chunks| > 0 && |chunks[|chunks| - 1]| < Limit && rest != "" ==> rest[0] == '\n')
    && (text == "" <==> chunks == [] && rest == "")
  }

  /** One round of `Cut` keeps `Sent`. */
  lemma CutKeepsSent(chunks: seq<string>, rest: string, text: string)
    requires rest != "" && Sent(chunks, rest, text)
    ensures Sent(chunks + [Cut(rest).0], Cut(rest).1, text)
  {
    CutKeepsConcat(chunks, rest, text);
    CutKeepsLengths(chunks, rest, text);
    CutKeepsNewlines(chunks, rest, text);
    CutKeepsTail(chunks, rest);
  }

  lemma CutKeepsConcat(chunks: seq<string>, rest: string, text: string)
    requires rest != "" && Concat(chunks) + rest == text
    ensures Concat(chunks + [Cut(rest).0]) + Cut(rest).1 == text
    ensures text != ""
  {
    ConcatAppend(chunks, Cut(rest).0);
  }

  lemma CutKeepsTail(chunks: seq<string>, rest: string)
    requires rest != ""
    ensures Cut(rest).1 != "" ==> MinCut < |(chunks + [Cut(rest).0])[|chunks|]|
    ensures |(chunks + [Cut(rest).0])[|chunks|]| < Limit && Cut(rest).1 != "" ==> Cut(rest).1[0] == '\n'
  {
  }

  lemma CutKeepsLengths(chunks: seq<string>, rest: string, text: string)
    requires rest != "" && Sent(chunks, rest, text)
    ensures forall i :: 0 <= i < |chunks| + 1 ==> 0 < |(chunks + [Cut(rest).0])[i]| <= Limit
    ensures forall i :: 0 <= i < |chunks| ==> MinCut < |(chunks + [Cut(rest).0])[i]|
  {
    var chunks' := chunks + [Cut(rest).0];
    assert forall i :: 0 <= i < |chunks| ==> chunks'[i] == chunks[i];
  }

  lemma CutKeepsNewlines(chunks: seq<string>, rest: string, text: string)
    requires rest != "" && Sent(chunks, rest, text)
    ensures forall i :: 0 < i < |chunks| + 1 && |(chunks + [Cut(rest).0])[i - 1]| < Limit ==>
      (chunks + [Cut(rest).0])[i][0] == '\n'
  {
    var chunks' := chunks + [Cut(rest).0];
    assert forall i :: 0 <= i < |chunks| ==> chunks'[i] == chunks[i];
  }

  /** The chunks of `text`, cut one after the other. */
  function Chunks(text: string): seq<string>
    decreases |text|
  {
    if text == "" then [] else [Cut(text).0] + Chunks(Cut(text).1)
  }

  lemma ChunksStep(chunks: seq<string>, rest: string)
    requires rest != ""
    ensures chunks + Chunks(rest) == (chunks + [Cut(rest).0]) + Chunks(Cut(rest).1)
  {
  }

  /** The messages `_send_split` sends for `text`, in order. */
  method Split(text: string) returns (chunks: seq<string>)
    ensures chunks == Chunks(text)
    ensures Concat(chunks) == text
    ensures text == "" <==> chunks == []
    ensures forall i :: 0 <= i < |chunks| ==> 0 < |chunks[i]| <= Limit
    ensures forall i :: 0 <= i < |chunks| - 1 ==> MinCut < |chunks[i]|
    ensures forall i :: 0 < i < |chunks| && |chunks[i - 1]| < Limit ==> chunks[i][0] == '\n'
  {
    chunks := [];
    var rest := text;
    while rest != ""
      invariant Sent(chunks, rest, text)
      invariant chunks + Chunks(rest) == Chunks(text)
      decreases |rest|
    {
      CutKeepsSent(chunks, rest, text);
      ChunksStep(chunks, rest);
      var (chunk, after) := Cut(rest);
      chunks := chunks + [chunk];
      rest := after;
    }
  }
}
