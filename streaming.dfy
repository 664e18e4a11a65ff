/** StreamingHandler of src/utility.py: turns the answer chain's chunks, or a canned
    reply, into the sequence of Server-Sent-Events frames sent to the browser. */
module Streaming {
  import opened Wrappers

  /** One `data: {...}` event. Token is {"token": t, "done": false}; Done is the
      terminal {"token": "", "done": true, "full_answer": a}; Error is the terminal
      {"error": m, "done": true}. */
  datatype Frame = Token(token: string) | Done(fullAnswer: string) | Error(error: string)
  {
    /** The frame carries "done": true. */
    predicate IsTerminal() {
      !Token?
    }
  }

  /** One chunk from the retrieval chain's stream; `answer` is its "answer" entry, if any. */
  datatype Chunk = Chunk(answer: Option<string>)

  /** What the retrieval chain's stream does: it yields these chunks, then either ends
      or raises an exception whose text is `failure`. */
  datatype RagSource = RagSource(chunks: seq<Chunk>, failure: Option<string>)

  const StreamingErrorPrefix := "Streaming error: "

  /** The "answer" entries of the chunks that have one, in order. */
  function Answers(chunks: seq<Chunk>): seq<string> {
    if chunks == [] then []
    else
      var last := chunks[|chunks| - 1];
      Answers(chunks[..|chunks| - 1]) + (if last.answer.Some? then [last.answer.value] else [])
  }

  /** The concatenation of the parts, in order. */
  function Concat(parts: seq<string>): string {
    if parts == [] then "" else Concat(parts[..|parts| - 1]) + parts[|parts| - 1]
  }

  /** One token frame per part. */
  function TokenFrames(parts: seq<string>): (frames: seq<Frame>)
    ensures |frames| == |parts|
    ensures forall i :: 0 <= i < |parts| ==> frames[i] == Token(parts[i])
  {
    seq(|parts|, i requires 0 <= i < |parts| => Token(parts[i]))
  }

  /** The frames stream_rag_response yields for a source. */
  function RagFrames(src: RagSource): seq<Frame> {
    var parts := Answers(src.chunks);
    TokenFrames(parts)
      + [match src.failure
         case Some(e) => Error(StreamingErrorPrefix + e)
         case None => Done(Concat(parts))]
  }

  /** The frames stream_simple_response yields for a reply: one per character, then done. */
  function SimpleFrames(response: string): seq<Frame> {
    TokenFrames(seq(|response|, i requires 0 <= i < |response| => [response[i]])) + [Done(response)]
  }

  /** The text of the token frames, in order. */
  function TokensOf(frames: seq<Frame>): string {
    if frames == [] then ""
    else
      var last := frames[|frames| - 1];
      TokensOf(frames[..|frames| - 1]) + (if last.Token? then last.token else "")
  }

  /** The stream ends in exactly one terminal frame: every frame before the last is a token. */
  predicate WellTerminated(frames: seq<Frame>) {
    && |frames| > 0
    && frames[|frames| - 1].IsTerminal()
    && forall i :: 0 <= i < |frames| - 1 ==> frames[i].Token?
  }

  /** StreamingHandler.stream_rag_response: relays every chunk that carries an answer
      as a token, accumulating the full answer, and ends with the done frame; a failure
      of the source ends the stream with a single error frame instead. */
  method StreamRagResponse(src: RagSource) returns (frames: seq<Frame>)
    ensures frames == RagFrames(src)
  {
    frames := [];
    var fullAnswer := "";
    var i := 0;
    while i < |src.chunks|
      invariant 0 <= i <= |src.chunks|
      invariant frames == TokenFrames(Answers(src.chunks[..i]))
      invariant fullAnswer == Concat(Answers(src.chunks[..i]))
    {
      var chunk := src.chunks[i];
      ghost var before := Answers(src.chunks[..i]);
      assert src.chunks[..i + 1][..i] == src.chunks[..i];
      if chunk.answer.Some? {
        var token := chunk.answer.value;
        assert Answers(src.chunks[..i + 1]) == before + [token];
        assert (before + [token])[..|before|] == before;
        fullAnswer := fullAnswer + token;
        frames := frames + [Token(token)];
      } else {
        assert Answers(src.chunks[..i + 1]) == before;
      }
      i := i + 1;
    }
    assert src.chunks[..i] == src.chunks;
    match src.failure {
      case Some(e) =>
        frames := frames + [Error(StreamingErrorPrefix + e)];
      case None =>
        frames := frames + [Done(fullAnswer)];
    }
  }

  /** StreamingHandler.stream_simple_response: one token frame per character of the
      reply, then the done frame carrying the whole reply. */
  method StreamSimpleResponse(response: string) returns (frames: seq<Frame>)
    ensures frames == SimpleFrames(response)
  {
    frames := [];
    for i := 0 to |response|
      invariant |frames| == i
      invariant forall j :: 0 <= j < i ==> frames[j] == Token([response[j]])
    {
      frames := frames + [Token([response[i]])];
    }
    frames := frames + [Done(response)];
  }

  lemma {:induction false} TokensOfTokenFrames(parts: seq<string>)
    ensures TokensOf(TokenFrames(parts)) == Concat(parts)
  {
    if parts != [] {
      var n := |parts| - 1;
      assert TokenFrames(parts)[..n] == TokenFrames(parts[..n]);
      TokensOfTokenFrames(parts[..n]);
    }
  }

  lemma {:induction false} TokensOfTerminal(frames: seq<Frame>, f: Frame)
    requires f.IsTerminal()
    ensures TokensOf(frames + [f]) == TokensOf(frames)
  {
    assert (frames + [f])[..|frames|] == frames;
  }

  lemma {:induction false} ConcatChars(s: string)
    ensures Concat(seq(|s|, i requires 0 <= i < |s| => [s[i]])) == s
  {
    if s != [] {
      var n := |s| - 1;
      var chars := seq(|s|, i requires 0 <= i < |s| => [s[i]]);
      assert chars[..n] == seq(|s[..n]|, i requires 0 <= i < |s[..n]| => [s[..n][i]]);
      ConcatChars(s[..n]);
      assert s == s[..n] + [s[n]];
    }
  }

  /** A retrieval stream ends in exactly one terminal frame; its tokens are the chunks'
      answers in order; it ends in done, carrying the concatenation of the tokens, when
      the source is exhausted normally, and in one "Streaming error: ..." frame, with
      no done frame, when the source fails. */
  lemma RagFramesContract(src: RagSource)
    ensures WellTerminated(RagFrames(src))
    ensures RagFrames(src)[..|RagFrames(src)| - 1] == TokenFrames(Answers(src.chunks))
    ensures TokensOf(RagFrames(src)) == Concat(Answers(src.chunks))
    ensures src.failure.None? ==> RagFrames(src)[|RagFrames(src)| - 1] == Done(TokensOf(RagFrames(src)))
    ensures src.failure.Some? ==>
      RagFrames(src)[|RagFrames(src)| - 1] == Error(StreamingErrorPrefix + src.failure.value)
    ensures forall i :: 0 <= i < |RagFrames(src)| ==> !RagFrames(src)[i].Done? || src.failure.None?
  {
    var parts := Answers(src.chunks);
    var frames := RagFrames(src);
    assert frames[..|frames| - 1] == TokenFrames(parts);
    TokensOfTokenFrames(parts);
    TokensOfTerminal(TokenFrames(parts), frames[|frames| - 1]);
  }

  /** A canned-reply stream has one token frame per character, the i-th carrying the
      i-th character, then exactly one terminal done frame with the whole reply, which
      is also what the tokens spell. */
  lemma SimpleFramesContract(response: string)
    ensures |SimpleFrames(response)| == |response| + 1
    ensures forall i :: 0 <= i < |response| ==> SimpleFrames(response)[i] == Token([response[i]])
    ensures SimpleFrames(response)[|response|] == Done(response)
    ensures WellTerminated(SimpleFrames(response))
    ensures TokensOf(SimpleFrames(response)) == response
  {
    var chars := seq(|response|, i requires 0 <= i < |response| => [response[i]]);
    TokensOfTokenFrames(chars);
    ConcatChars(response);
    TokensOfTerminal(TokenFrames(chars), Done(response));
  }
}
