/** The per-session conversation memory of app.py: a dictionary from session id to the
    list of chat messages, trimmed to a window of the most recent messages after
    every completed turn. */
module Sessions {

  /** One entry of a session's history: what the user asked, or what the bot replied. */
  datatype Message = HumanMessage(content: string) | AIMessage(content: string)

  /** The window the chat endpoint keeps: five question/answer pairs. */
  const MaxMessages: nat := 10

  /** Python's normalisation of a slice start `start` on a list of length n. */
  function SliceStart(n: nat, start: int): (k: nat)
    ensures k <= n
  {
    if start < 0 then (if n + start < 0 then 0 else n + start)
    else if start > n then n
    else start
  }

  /** `history.messages[-max_messages:]`, Python slice semantics. */
  function TailSlice(s: seq<Message>, m: int): seq<Message> {
    s[SliceStart(|s|, -m)..]
  }

  /** What manage_memory_window does to a history as written: slice only when the
      history is longer than the bound. */
  function WindowAsWritten(s: seq<Message>, m: int): seq<Message> {
    if |s| > m then TailSlice(s, m) else s
  }

  /** The last n messages of s (all of s when it is shorter). */
  function KeepLast(s: seq<Message>, n: nat): (r: seq<Message>)
    ensures |r| == if |s| <= n then |s| else n
    ensures r == s[|s| - |r|..]
  {
    if |s| <= n then s else s[|s| - n..]
  }

  /** The history kept after a turn that asked `msg` and was answered `answer`. */
  function Commit(prior: seq<Message>, msg: string, answer: string): seq<Message> {
    KeepLast(prior + [HumanMessage(msg), AIMessage(answer)], MaxMessages)
  }

  /** The history alternates user and bot messages, starting with the user and ending
      with the bot. */
  ghost predicate Paired(h: seq<Message>) {
    && |h| % 2 == 0
    && forall i :: 0 <= i < |h| ==> (h[i].HumanMessage? <==> i % 2 == 0)
  }

  /** For every bound of at least one, the slice as written keeps exactly the last
      `m` messages. */
  lemma WindowAsWrittenAgrees(s: seq<Message>, m: int)
    requires m >= 1
    ensures WindowAsWritten(s, m) == KeepLast(s, m)
  {
  }

  /** With a bound of zero the slice `[-0:]` is `[0:]`: the whole non-empty history is
      kept instead of none of it. */
  lemma WindowAsWrittenZero(s: seq<Message>)
    requires s != []
    ensures WindowAsWritten(s, 0) == s
    ensures KeepLast(s, 0) == []
  {
  }

  /** Dropping an even number of leading messages keeps the pairing. */
  lemma {:induction false} PairedSuffix(h: seq<Message>, d: nat)
    requires Paired(h) && d <= |h| && d % 2 == 0
    ensures Paired(h[d..])
  {
    var t := h[d..];
    forall i | 0 <= i < |t|
      ensures t[i].HumanMessage? <==> i % 2 == 0
    {
      assert t[i] == h[d + i];
      assert (d + i) % 2 == i % 2;
    }
  }

  /** A committed turn leaves at most ten messages and at least the turn itself, ends
      with the question and its answer, in that order, and drops nothing while the
      window has room. */
  lemma {:induction false} CommitShape(prior: seq<Message>, msg: string, answer: string)
    ensures 2 <= |Commit(prior, msg, answer)| <= MaxMessages
    ensures Commit(prior, msg, answer)[|Commit(prior, msg, answer)| - 2..]
         == [HumanMessage(msg), AIMessage(answer)]
    ensures |prior| + 2 <= MaxMessages ==> Commit(prior, msg, answer) == prior + [HumanMessage(msg), AIMessage(answer)]
  {
    var s := prior + [HumanMessage(msg), AIMessage(answer)];
    var r := Commit(prior, msg, answer);
    assert r[|r| - 2..] == s[|s| - 2..];
  }

  /** Appending a question and its answer to a paired history keeps it paired. */
  lemma {:induction false} PairedAppend(prior: seq<Message>, msg: string, answer: string)
    requires Paired(prior)
    ensures Paired(prior + [HumanMessage(msg), AIMessage(answer)])
  {
    var s := prior + [HumanMessage(msg), AIMessage(answer)];
    forall i | 0 <= i < |s|
      ensures s[i].HumanMessage? <==> i % 2 == 0
    {
      if i >= |prior| {
        assert i == |prior| || i == |prior| + 1;
      } else {
        assert s[i] == prior[i];
      }
    }
  }

  /** A committed turn keeps a paired history paired. */
  lemma {:induction false} CommitPaired(prior: seq<Message>, msg: string, answer: string)
    requires Paired(prior)
    ensures Paired(Commit(prior, msg, answer))
  {
    var s := prior + [HumanMessage(msg), AIMessage(answer)];
    PairedAppend(prior, msg, answer);
    PairedSuffix(s, |s| - |KeepLast(s, MaxMessages)|);
  }

  /** Trimming before appending is the same as trimming after: the window never loses
      a message it would have kept anyway. */
  lemma {:induction false} KeepLastAppend(s: seq<Message>, t: seq<Message>, n: nat)
    ensures KeepLast(KeepLast(s, n) + t, n) == KeepLast(s + t, n)
  {
    if |s| > n {
      var q := s[|s| - n..];
      assert s + t == s[..|s| - n] + (q + t);
    }
  }

  /** One completed question/answer exchange. */
  datatype Turn = Turn(question: string, answer: string)

  /** The messages a series of turns adds, in order. */
  function Messages(turns: seq<Turn>): seq<Message> {
    if turns == [] then []
    else
      var last := turns[|turns| - 1];
      Messages(turns[..|turns| - 1]) + [HumanMessage(last.question), AIMessage(last.answer)]
  }

  /** The history after committing each turn in order. */
  function Replay(h: seq<Message>, turns: seq<Turn>): seq<Message> {
    if turns == [] then h
    else
      var last := turns[|turns| - 1];
      Commit(Replay(h, turns[..|turns| - 1]), last.question, last.answer)
  }

  /** After any number of completed turns the history is exactly the last ten messages
      of the whole conversation, and stays paired. */
  lemma {:induction false} ReplayKeepsWindow(h: seq<Message>, turns: seq<Turn>)
    requires |h| <= MaxMessages
    ensures Replay(h, turns) == KeepLast(h + Messages(turns), MaxMessages)
    ensures Paired(h) ==> Paired(Replay(h, turns))
  {
    if turns != [] {
      var n := |turns| - 1;
      var last := turns[n];
      var pair := [HumanMessage(last.question), AIMessage(last.answer)];
      ReplayKeepsWindow(h, turns[..n]);
      KeepLastAppend(h + Messages(turns[..n]), pair, MaxMessages);
      assert h + Messages(turns) == (h + Messages(turns[..n])) + pair;
      if Paired(h) {
        CommitPaired(Replay(h, turns[..n]), last.question, last.answer);
      }
    }
  }

  /** Every history in the map is paired and within the window. */
  ghost predicate AllBounded(m: map<string, seq<Message>>) {
    forall id :: id in m ==> Paired(m[id]) && |m[id]| <= MaxMessages
  }

  lemma BoundedUpdate(m: map<string, seq<Message>>, id: string, h: seq<Message>)
    requires AllBounded(m) && Paired(h) && |h| <= MaxMessages
    ensures AllBounded(m[id := h])
  {
  }

  /** A second update of the same session overrides the first. */
  lemma UpdateOverrides(m: map<string, seq<Message>>, id: string, a: seq<Message>, b: seq<Message>)
    ensures m[id := a][id := b] == m[id := b]
  {
  }

  /** The module-level chat_histories dictionary and the functions that act on it. */
  class SessionStore {
    var histories: map<string, seq<Message>>

    /** Every stored history is paired and within the window. */
    ghost predicate Bounded()
      reads this
    {
      AllBounded(histories)
    }

    /** The history of a session, empty when the session is unknown. */
    function HistoryOf(id: string): (h: seq<Message>)
      reads this
      ensures id in histories ==> h == histories[id]
      ensures id !in histories ==> h == []
    {
      if id in histories then histories[id] else []
    }

    /** The store starts empty (histories reset on server restart). */
    constructor()
      ensures histories == map[]
      ensures Bounded()
    {
      histories := map[];
    }

    /** get_chat_history: returns the session's history, first creating an empty one
        for an unknown session. */
    method GetChatHistory(id: string) returns (history: seq<Message>)
      modifies this
      ensures history == old(HistoryOf(id))
      ensures histories == old(histories)[id := history]
      ensures old(Bounded()) ==> Bounded()
    {
      if id !in histories {
        histories := histories[id := []];
      }
      history := histories[id];
    }

    /** history.add_user_message on a session's history. */
    method AddUserMessage(id: string, content: string)
      requires id in histories
      modifies this
      ensures histories == old(histories)[id := old(histories[id]) + [HumanMessage(content)]]
    {
      histories := histories[id := histories[id] + [HumanMessage(content)]];
    }

    /** history.add_ai_message on a session's history. */
    method AddAiMessage(id: string, content: string)
      requires id in histories
      modifies this
      ensures histories == old(histories)[id := old(histories[id]) + [AIMessage(content)]]
    {
      histories := histories[id := histories[id] + [AIMessage(content)]];
    }

    /** manage_memory_window: keeps only the last `maxMessages` messages of a known
        session; unknown sessions and other sessions are untouched. */
    method ManageMemoryWindow(id: string, maxMessages: nat)
      modifies this
      ensures id in old(histories) ==> histories == old(histories)[id := KeepLast(old(histories[id]), maxMessages)]
      ensures id !in old(histories) ==> histories == old(histories)
    {
      if id in histories {
        var history := histories[id];
        if |history| > maxMessages {
          histories := histories[id := history[|history| - maxMessages..]];
        }
      }
    }

    /** chat_histories.clear(), done by the index page. */
    method Clear()
      modifies this
      ensures histories == map[]
      ensures Bounded()
    {
      histories := map[];
    }

    /** The commit at the end of a completed chat turn: the question, then the answer,
        then the window of ten. */
    method RecordTurn(id: string, msg: string, answer: string)
      requires id in histories
      modifies this
      ensures histories == old(histories)[id := Commit(old(histories[id]), msg, answer)]
      ensures old(Bounded()) ==> Bounded()
    {
      ghost var prior := histories[id];
      AddUserMessage(id, msg);
      AddAiMessage(id, answer);
      assert histories[id] == prior + [HumanMessage(msg), AIMessage(answer)];
      ManageMemoryWindow(id, MaxMessages);
      if old(Bounded()) {
        CommitShape(prior, msg, answer);
        CommitPaired(prior, msg, answer);
        BoundedUpdate(old(histories), id, Commit(prior, msg, answer));
      }
    }
  }
}
