/** The POST /get chat endpoint of app.py: classify the question, stream either a
    retrieval answer or a canned reply, and commit the turn to the session's memory
    once the stream has been relayed in full. */
module ChatEndpoint {
  import opened Text
  import opened QueryClassifier
  import opened Streaming
  import opened Sessions

  /** The text of the error frame the endpoint sends when anything raises. */
  const GenericErrorMessage := "An error occurred"

  /** The Server-Sent-Events prefix of every frame on the wire. */
  const DataPrefix := "data: "

  /** How the response generator's run ends. Completes: every frame is relayed and the
      turn is committed. RaisesAfter(k): an exception is raised once k frames have been
      relayed, before the commit; the generic error frame is sent. ClosedAfter(k): the
      client goes away once k frames have been relayed; the generator is closed, which
      the endpoint's `except Exception` does not catch, so nothing more is sent. */
  datatype Interruption = Completes | RaisesAfter(relayed: nat) | ClosedAfter(relayed: nat)

  /** Python's `s.replace("data: ", "")`: every non-overlapping occurrence, scanning
      from the left, is removed. */
  function StripDataMarkers(s: string): (r: string)
    ensures |r| <= |s|
    decreases |s|
  {
    if |s| >= |DataPrefix| && s[..|DataPrefix|] == DataPrefix then StripDataMarkers(s[|DataPrefix|..])
    else if s == [] then []
    else [s[0]] + StripDataMarkers(s[1..])
  }

  /** A text without the marker survives the replace unchanged. */
  lemma {:induction false} StripDataMarkersIdentity(s: string)
    requires !Contains(s, DataPrefix)
    ensures StripDataMarkers(s) == s
  {
    if s != [] {
      assert !OccursAt(s, DataPrefix, 0);
      forall j | OccursAt(s[1..], DataPrefix, j)
        ensures OccursAt(s, DataPrefix, j + 1)
      {
        assert s[j + 1..j + 1 + |DataPrefix|] == s[1..][j..j + |DataPrefix|];
      }
      StripDataMarkersIdentity(s[1..]);
    }
  }

  /** The full answer the endpoint keeps from the frames it relays, as written: the
      `full_answer` of the last terminal frame that has one, read back from the wire
      after every "data: " in the frame was removed; "" when there is none. */
  function RecordedAnswerAsWritten(frames: seq<Frame>): string {
    if frames == [] then ""
    else
      var last := frames[|frames| - 1];
      if last.Done? then StripDataMarkers(last.fullAnswer) else RecordedAnswerAsWritten(frames[..|frames| - 1])
  }

  /** The full answer the endpoint keeps from the frames it relays: the `full_answer` of
      the last terminal frame that has one; "" when there is none. */
  function RecordedAnswer(frames: seq<Frame>): string {
    if frames == [] then ""
    else
      var last := frames[|frames| - 1];
      if last.Done? then last.fullAnswer else RecordedAnswer(frames[..|frames| - 1])
  }

  /** Token frames carry no full answer. */
  lemma {:induction false} RecordedAnswerOfTokens(parts: seq<string>)
    ensures RecordedAnswer(TokenFrames(parts)) == ""
    ensures RecordedAnswerAsWritten(TokenFrames(parts)) == ""
  {
    if parts != [] {
      var n := |parts| - 1;
      assert TokenFrames(parts)[..n] == TokenFrames(parts[..n]);
      RecordedAnswerOfTokens(parts[..n]);
    }
  }

  /** From a retrieval stream the endpoint keeps exactly the text the user was shown
      token by token when the stream ends in done, and "" when it ends in an error. */
  lemma RecordedAnswerOfRag(src: RagSource)
    ensures src.failure.None? ==> RecordedAnswer(RagFrames(src)) == TokensOf(RagFrames(src))
    ensures src.failure.Some? ==> RecordedAnswer(RagFrames(src)) == ""
  {
    var frames := RagFrames(src);
    RagFramesContract(src);
    assert frames[..|frames| - 1] == TokenFrames(Answers(src.chunks));
    RecordedAnswerOfTokens(Answers(src.chunks));
  }

  /** As written, the kept answer is the shown answer with every "data: " removed; the
      two agree whenever the answer does not contain "data: ". */
  lemma RecordedAnswerAsWrittenOfRag(src: RagSource)
    ensures src.failure.None? ==>
      RecordedAnswerAsWritten(RagFrames(src)) == StripDataMarkers(TokensOf(RagFrames(src)))
    ensures src.failure.None? && !Contains(TokensOf(RagFrames(src)), DataPrefix) ==>
      RecordedAnswerAsWritten(RagFrames(src)) == RecordedAnswer(RagFrames(src))
    ensures src.failure.Some? ==> RecordedAnswerAsWritten(RagFrames(src)) == ""
  {
    var frames := RagFrames(src);
    RagFramesContract(src);
    RecordedAnswerOfRag(src);
    assert frames[..|frames| - 1] == TokenFrames(Answers(src.chunks));
    RecordedAnswerOfTokens(Answers(src.chunks));
    if src.failure.None? && !Contains(TokensOf(frames), DataPrefix) {
      StripDataMarkersIdentity(TokensOf(frames));
    }
  }

  /** An answer that is exactly "data: ", shown to the user in full, is kept as "". */
  lemma {:induction false} DataMarkerLost(answer: string, frames: seq<Frame>)
    requires answer == DataPrefix
    requires frames == [Token(answer), Done(answer)]
    ensures TokensOf(frames) == answer
    ensures RecordedAnswer(frames) == answer
    ensures RecordedAnswerAsWritten(frames) == ""
  {
    assert frames[..1] == [Token(answer)];
    assert [Token(answer)][..0] == [];
    assert TokensOf([Token(answer)]) == answer;
    assert answer[..|DataPrefix|] == DataPrefix;
    assert answer[|DataPrefix|..] == [];
  }

  /** The frames of the chosen path: the retrieval stream of `src`, or the canned
      `reply` character by character. */
  function PathFrames(retrieval: bool, src: RagSource, reply: string): seq<Frame> {
    if retrieval then RagFrames(src) else SimpleFrames(reply)
  }

  /** The answer a completed turn commits on that path: the answer kept from the
      retrieval stream, or the canned reply itself. */
  function PathAnswer(retrieval: bool, src: RagSource, reply: string): string {
    if retrieval then RecordedAnswer(RagFrames(src)) else reply
  }

  /** The frames the classifier's choice of path produces for a question, before
      relaying. */
  function InnerFrames(msg: string, prior: seq<Message>, answerer: (string, seq<Message>) -> RagSource): seq<Frame> {
    PathFrames(NeedsRetrieval(msg).needsRetrieval, answerer(msg, prior), SimpleResponse(msg))
  }

  /** The answer a completed turn for a question commits. */
  function TurnAnswer(msg: string, prior: seq<Message>, answerer: (string, seq<Message>) -> RagSource): string {
    PathAnswer(NeedsRetrieval(msg).needsRetrieval, answerer(msg, prior), SimpleResponse(msg))
  }

  /** The last frame of a non-empty stream. */
  function Last(frames: seq<Frame>): Frame
    requires frames != []
  {
    frames[|frames| - 1]
  }

  /** How many of n frames are relayed before an interruption after k. */
  function Relayed(k: nat, n: nat): (r: nat)
    ensures r <= n && r <= k
    ensures r == k || r == n
  {
    if k < n then k else n
  }

  /** The frames the client receives. */
  function ResponseFrames(inner: seq<Frame>, interruption: Interruption): seq<Frame> {
    match interruption
    case Completes => inner
    case RaisesAfter(k) => inner[..Relayed(k, |inner|)] + [Error(GenericErrorMessage)]
    case ClosedAfter(k) => inner[..Relayed(k, |inner|)]
  }

  /** The session's history after the request. */
  function HistoryAfter(prior: seq<Message>, msg: string, answer: string, interruption: Interruption): seq<Message> {
    if interruption.Completes? then Commit(prior, msg, answer) else prior
  }

  /** Whatever the turn does, a store whose histories are all paired and within the
      window stays so: the session's history becomes the committed window or is left
      as it was (an unknown session gets the empty history). */
  lemma {:induction false} HistoryAfterBounded(m: map<string, seq<Message>>, id: string, msg: string,
                                              answer: string, interruption: Interruption)
    requires AllBounded(m)
    ensures AllBounded(m[id := HistoryAfter(if id in m then m[id] else [], msg, answer, interruption)])
  {
    var prior := if id in m then m[id] else [];
    assert Paired(prior) && |prior| <= MaxMessages;
    if interruption.Completes? {
      CommitShape(prior, msg, answer);
      CommitPaired(prior, msg, answer);
    }
    BoundedUpdate(m, id, HistoryAfter(prior, msg, answer, interruption));
  }

  /** The relaying loop of the response generator: passes the frames on one by one,
      keeping the full answer from the terminal frames of a retrieval stream (the
      canned reply is known before streaming), until the run ends as `interruption`
      says. `completes` tells whether the commit that follows is reached. */
  method Relay(inner: seq<Frame>, retrieval: bool, reply: string, interruption: Interruption)
    returns (frames: seq<Frame>, fullAnswer: string, completes: bool)
    ensures frames == ResponseFrames(inner, interruption)
    ensures completes <==> interruption.Completes?
    ensures completes ==> fullAnswer == if retrieval then RecordedAnswer(inner) else reply
  {
    fullAnswer := if retrieval then "" else reply;
    frames := [];
    var i := 0;
    while i < |inner|
      invariant 0 <= i <= |inner|
      invariant frames == inner[..i]
      invariant fullAnswer == if retrieval then RecordedAnswer(inner[..i]) else reply
      invariant !interruption.Completes? ==> interruption.relayed >= i
    {
      if interruption == ClosedAfter(i) {
        return frames, fullAnswer, false;
      }
      if interruption == RaisesAfter(i) {
        frames := frames + [Error(GenericErrorMessage)];
        return frames, fullAnswer, false;
      }
      var frame := inner[i];
      frames := frames + [frame];
      assert inner[..i + 1][..i] == inner[..i];
      if retrieval && frame.IsTerminal() {
        if frame.Done? {
          fullAnswer := frame.fullAnswer;
        }
      }
      i := i + 1;
    }
    assert inner[..i] == inner;
    match interruption {
      case RaisesAfter(_) =>
        frames := frames + [Error(GenericErrorMessage)];
        completes := false;
      case ClosedAfter(_) =>
        completes := false;
      case Completes =>
        completes := true;
    }
  }

  /** Classifies the question and streams the matching kind of response: the retrieval
      stream, or the canned reply, which is also returned. */
  method Respond(msg: string, prior: seq<Message>, answerer: (string, seq<Message>) -> RagSource)
    returns (inner: seq<Frame>, retrieval: bool, reply: string)
    ensures inner == InnerFrames(msg, prior, answerer)
    ensures retrieval == NeedsRetrieval(msg).needsRetrieval
    ensures (if retrieval then RecordedAnswer(inner) else reply) == TurnAnswer(msg, prior, answerer)
  {
    retrieval := NeedsRetrieval(msg).needsRetrieval;
    reply := "";
    if retrieval {
      inner := StreamRagResponse(answerer(msg, prior));
    } else {
      reply := SimpleResponse(msg);
      inner := StreamSimpleResponse(reply);
    }
  }

  /** The chat endpoint together with its response generator. `answerer` stands for the
      retrieval chain, which receives the question and the history as it was before
      the turn. */
  method Chat(store: SessionStore, msg: string, sessionId: string,
              answerer: (string, seq<Message>) -> RagSource, interruption: Interruption)
    returns (frames: seq<Frame>)
    modifies store
    ensures frames == ResponseFrames(InnerFrames(msg, old(store.HistoryOf(sessionId)), answerer), interruption)
    ensures store.histories == old(store.histories)[sessionId := HistoryAfter(
              old(store.HistoryOf(sessionId)), msg,
              TurnAnswer(msg, old(store.HistoryOf(sessionId)), answerer), interruption)]
  {
    var prior := store.GetChatHistory(sessionId);
    var inner, retrieval, reply := Respond(msg, prior, answerer);
    var fullAnswer, completes;
    frames, fullAnswer, completes := Relay(inner, retrieval, reply, interruption);
    if completes {
      store.RecordTurn(sessionId, msg, fullAnswer);
      UpdateOverrides(old(store.histories), sessionId, prior, Commit(prior, msg, fullAnswer));
    }
  }

  /** A completed turn sends one well-terminated stream and commits the question and
      the answer as the last two messages of a window of at most ten. The committed
      answer is exactly what the user was shown token by token, except when the
      retrieval stream failed: then the user saw the streaming error and the turn is
      committed with an empty answer. */
  lemma CompletedTurn(retrieval: bool, src: RagSource, reply: string, prior: seq<Message>, msg: string)
    ensures WellTerminated(ResponseFrames(PathFrames(retrieval, src, reply), Completes))
    ensures
      var h := HistoryAfter(prior, msg, PathAnswer(retrieval, src, reply), Completes);
      && 2 <= |h| <= MaxMessages
      && h[|h| - 2..] == [HumanMessage(msg), AIMessage(PathAnswer(retrieval, src, reply))]
    ensures !retrieval || src.failure.None? ==>
      PathAnswer(retrieval, src, reply) == TokensOf(PathFrames(retrieval, src, reply))
    ensures !retrieval ==> PathAnswer(retrieval, src, reply) == reply
    ensures retrieval && src.failure.Some? ==>
      && PathAnswer(retrieval, src, reply) == ""
      && Last(PathFrames(retrieval, src, reply)) == Error(StreamingErrorPrefix + src.failure.value)
  {
    CommitShape(prior, msg, PathAnswer(retrieval, src, reply));
    if retrieval {
      RagFramesContract(src);
      RecordedAnswerOfRag(src);
    } else {
      SimpleFramesContract(reply);
    }
  }

  /** A turn that does not complete leaves the history as it was. An exception ends
      the response with the generic error frame: the only terminal frame when it
      strikes before the inner stream's own end, a second one after it otherwise. A
      closed connection just cuts the stream short, without any terminal frame when it
      happens before the end. */
  lemma InterruptedTurn(inner: seq<Frame>, prior: seq<Message>, msg: string, answer: string,
                        interruption: Interruption)
    requires WellTerminated(inner)
    requires !interruption.Completes?
    ensures HistoryAfter(prior, msg, answer, interruption) == prior
    ensures interruption.RaisesAfter? ==>
      && Last(ResponseFrames(inner, interruption)) == Error(GenericErrorMessage)
      && (interruption.relayed < |inner| ==> WellTerminated(ResponseFrames(inner, interruption)))
      && (interruption.relayed >= |inner| ==> ResponseFrames(inner, interruption) == inner + [Error(GenericErrorMessage)])
    ensures interruption.ClosedAfter? ==>
      && ResponseFrames(inner, interruption) <= inner
      && (interruption.relayed < |inner| ==>
            forall i :: 0 <= i < |ResponseFrames(inner, interruption)| ==> !ResponseFrames(inner, interruption)[i].IsTerminal())
  {
  }
}
