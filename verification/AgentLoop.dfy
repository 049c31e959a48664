/** The tool-use loop of mono/swarm/sdk/loop.py.

    The LLM's replies and the tools' results are the environment. `sent` records the
    history handed to the LLM at every call, so that the contract of the loop can say what
    the providers rely on: a closed history, in which the tool calls of each assistant
    message are answered one by one before anything else follows. */
module AgentLoop {
  import opened Text
  import opened Wrappers

  // A call without a function name or an id makes the source raise a KeyError.
  datatype ToolCall = ToolCall(id: Option<string>, name: Option<string>)

  datatype Message =
    | System(content: string)
    | User(content: string)
    | Assistant(content: string, calls: seq<ToolCall>)
    | Tool(id: string, content: string)

  /** What llm_complete returns, or that it raises. */
  datatype Reply = Failure | NoChoices | Choice(message: Message, truncated: bool)

  datatype Ending =
    | OutOfTurns        // max_turns calls were made
    | EmptyReply        // a reply without choices
    | Answered          // an assistant message without tool calls
    | Completed         // complete_task was accepted
    | LlmFailed         // llm_complete raised
    | Malformed         // a call without a name or an id raised
    | Unserialisable    // a tool returned what json.dumps cannot write

  // ---------- Closed histories ----------

  /** The messages from i on begin with one answer per call, same ids, same order. */
  ghost predicate AnsweredFrom(ms: seq<Message>, i: nat, calls: seq<ToolCall>) {
    && i + |calls| <= |ms|
    && forall p | i <= p < i + |calls| :: ms[p].Tool? && calls[p - i].id == Some(ms[p].id)
  }

  ghost predicate ClosedFrom(ms: seq<Message>, i: nat)
    requires i <= |ms|
    decreases |ms| - i
  {
    if i == |ms| then true
    else if ms[i].Tool? then false
    else if ms[i].Assistant? && ms[i].calls != [] then
      AnsweredFrom(ms, i + 1, ms[i].calls) && ClosedFrom(ms, i + 1 + |ms[i].calls|)
    else ClosedFrom(ms, i + 1)
  }

  /** Every tool call is answered directly after its message, and nothing else is a tool message. */
  ghost predicate Closed(ms: seq<Message>) {
    ClosedFrom(ms, 0)
  }

  /** A closed history followed by a message with tool calls of which only the first have answers. */
  ghost predicate OpenTail(ms: seq<Message>, start: nat, answered: nat) {
    && start < |ms| && Closed(ms[..start])
    && ms[start].Assistant? && answered <= |ms[start].calls| && |ms| == start + 1 + answered
    && AnsweredFrom(ms, start + 1, ms[start].calls[..answered])
  }

  /** Appending a closed piece keeps a history closed. */
  lemma {:induction false} ClosedAppend(a: seq<Message>, b: seq<Message>, i: nat)
    requires i <= |a| && ClosedFrom(a, i) && Closed(b)
    ensures ClosedFrom(a + b, i)
    decreases |a| - i
  {
    var ms := a + b;
    if i == |a| {
      ClosedShift(a, b, 0);
    } else if a[i].Assistant? && a[i].calls != [] {
      assert ms[i] == a[i];
      assert AnsweredFrom(ms, i + 1, ms[i].calls);
      ClosedAppend(a, b, i + 1 + |a[i].calls|);
    } else {
      assert ms[i] == a[i];
      ClosedAppend(a, b, i + 1);
    }
  }

  lemma {:induction false} ClosedShift(a: seq<Message>, b: seq<Message>, j: nat)
    requires j <= |b| && ClosedFrom(b, j)
    ensures ClosedFrom(a + b, |a| + j)
    decreases |b| - j
  {
    var ms := a + b;
    if j < |b| {
      assert ms[|a| + j] == b[j];
      if b[j].Assistant? && b[j].calls != [] {
        assert AnsweredFrom(ms, |a| + j + 1, b[j].calls);
        ClosedShift(a, b, j + 1 + |b[j].calls|);
      } else {
        ClosedShift(a, b, j + 1);
      }
    }
  }

  lemma PlainIsClosed(m: Message)
    requires !m.Tool? && (m.Assistant? ==> m.calls == [])
    ensures Closed([m])
  {
    assert ClosedFrom([m], 1);
  }

  lemma AppendPlain(ms: seq<Message>, m: Message)
    requires Closed(ms) && !m.Tool? && (m.Assistant? ==> m.calls == [])
    ensures Closed(ms + [m])
  {
    PlainIsClosed(m);
    ClosedAppend(ms, [m], 0);
  }

  /** A message whose calls have all been answered closes the history again. */
  lemma FullTail(ms: seq<Message>, start: nat)
    requires start < |ms| && ms[start].Assistant? && OpenTail(ms, start, |ms[start].calls|)
    ensures Closed(ms)
  {
    var tail := ms[start..];
    var calls := ms[start].calls;
    assert calls[..|calls|] == calls;
    assert tail[0] == ms[start];
    assert AnsweredFrom(tail, 1, calls);
    assert ClosedFrom(tail, 1 + |calls|);
    assert Closed(tail);
    ClosedAppend(ms[..start], tail, 0);
    assert ms[..start] + tail == ms;
  }

  /** Closed histories are what the name says: read back, each call has its own answer. */
  lemma {:induction false} ClosedMeansAnswered(ms: seq<Message>, i: nat, j: nat)
    requires i <= j < |ms| && ClosedFrom(ms, i)
    requires ms[j].Assistant?
    ensures AnsweredFrom(ms, j + 1, ms[j].calls)
    decreases j - i
  {
    if i < j {
      var next := if ms[i].Assistant? && ms[i].calls != [] then i + 1 + |ms[i].calls| else i + 1;
      ClosedMeansAnswered(ms, next, j);
    }
  }

  ghost predicate Calls(ms: seq<Message>, a: nat, j: nat)
    requires a < j < |ms| && ms[j].Tool?
  {
    && ms[a].Assistant? && j - a - 1 < |ms[a].calls|
    && ms[a].calls[j - a - 1].id == Some(ms[j].id)
  }

  /** And no tool message is without its call. */
  lemma {:induction false} ClosedMeansCalled(ms: seq<Message>, i: nat, j: nat)
    requires i <= j < |ms| && ClosedFrom(ms, i)
    requires ms[j].Tool?
    ensures exists a | i <= a < j :: Calls(ms, a, j)
    decreases j - i
  {
    if ms[i].Assistant? && ms[i].calls != [] && j < i + 1 + |ms[i].calls| {
      assert Calls(ms, i, j);
    } else {
      var next := if ms[i].Assistant? && ms[i].calls != [] then i + 1 + |ms[i].calls| else i + 1;
      ClosedMeansCalled(ms, next, j);
    }
  }

  /** Which call of message `start` ended the run, and what became of it. */
  ghost predicate AcceptedAt(ms: seq<Message>, start: nat, answered: nat) {
    && OpenTail(ms, start, answered) && 0 < answered
    && ms[start].calls[answered - 1].name == Some("complete_task")
    && !Rejects(ms[|ms| - 1].content)
  }

  ghost predicate MalformedAt(ms: seq<Message>, start: nat, answered: nat) {
    && OpenTail(ms, start, answered) && answered < |ms[start].calls|
    && (ms[start].calls[answered].name.None? || ms[start].calls[answered].id.None?)
  }

  /** A call that was run, but has no answer. */
  ghost predicate UnansweredAt(ms: seq<Message>, start: nat, answered: nat) {
    OpenTail(ms, start, answered) && answered < |ms[start].calls| && ms[start].calls[answered].name.Some?
  }

  /** A history cut short inside a message is closed only if that was its last call. */
  lemma TailClosedIff(ms: seq<Message>, start: nat, answered: nat)
    requires OpenTail(ms, start, answered)
    ensures Closed(ms) <==> answered == |ms[start].calls|
  {
    if answered == |ms[start].calls| {
      FullTail(ms, start);
    } else if Closed(ms) {
      ClosedMeansAnswered(ms, 0, start);
      assert false;
    }
  }

  // ---------- The loop ----------

  predicate Rejects(result: string)
    ensures Rejects(result) <==> exists i: nat :: OccursAt(result, "WARNING", i)
  {
    Contains(result, "WARNING")
  }

  /** Every history sent was closed, each a proper prefix of the next and all of them of ms. */
  ghost predicate Recorded(sent: seq<seq<Message>>, ms: seq<Message>) {
    && (forall k | 0 <= k < |sent| :: Closed(sent[k]) && sent[k] <= ms)
    && (forall j, k | 0 <= j < k < |sent| :: sent[j] <= sent[k] && |sent[j]| < |sent[k]|)
  }

  /** Every history sent is shorter than ms. */
  ghost predicate Shorter(sent: seq<seq<Message>>, ms: seq<Message>) {
    forall k | 0 <= k < |sent| :: |sent[k]| < |ms|
  }

  lemma RecordedGrows(sent: seq<seq<Message>>, ms: seq<Message>, longer: seq<Message>)
    requires Recorded(sent, ms) && ms <= longer
    ensures Recorded(sent, longer) && (ms != longer ==> Shorter(sent, longer))
  {
  }

  lemma RecordedSent(sent: seq<seq<Message>>, ms: seq<Message>)
    requires Recorded(sent, ms) && Closed(ms) && Shorter(sent, ms)
    ensures Recorded(sent + [ms], ms)
  {
  }

  /** What the history left behind by a run looks like, by the way it ended. */
  ghost predicate Stops(ms: seq<Message>, ending: Ending) {
    match ending
    case OutOfTurns => Closed(ms)
    case EmptyReply => Closed(ms)
    case Answered => Closed(ms) && ms != [] && ms[|ms| - 1].Assistant? && ms[|ms| - 1].calls == []
    case Completed => exists start: nat, answered: nat :: AcceptedAt(ms, start, answered)
    case LlmFailed => Closed(ms)
    case Malformed => exists start: nat, answered: nat :: MalformedAt(ms, start, answered)
    case Unserialisable => exists start: nat, answered: nat :: UnansweredAt(ms, start, answered)
  }

  lemma StopsAt(ms: seq<Message>, start: nat, answered: nat, ending: Ending)
    requires ending.Completed? || ending.Malformed? || ending.Unserialisable?
    requires ending.Completed? ==> AcceptedAt(ms, start, answered)
    requires ending.Malformed? ==> MalformedAt(ms, start, answered)
    requires ending.Unserialisable? ==> UnansweredAt(ms, start, answered)
    ensures Stops(ms, ending)
  {
    hide AcceptedAt, MalformedAt, UnansweredAt;
  }

  function Opening(systemPrompt: string, initialMessage: string): seq<Message> {
    [System(systemPrompt)] + if initialMessage != "" then [User(initialMessage)] else []
  }

  lemma OpeningIsClosed(systemPrompt: string, initialMessage: string)
    ensures Closed(Opening(systemPrompt, initialMessage))
  {
    PlainIsClosed(System(systemPrompt));
    if initialMessage != "" {
      AppendPlain([System(systemPrompt)], User(initialMessage));
    }
  }

  /** The message answers this call with what its tool returned. */
  predicate AnswerOf(m: Message, call: ToolCall, run: ToolRun) {
    m.Tool? && call.id == Some(m.id) && call.name == Some(run.0) && run.1 == Some(m.content)
  }

  const TRUNCATED := "Your previous response was truncated before you could finish."
  const CRITIQUE := "You are approaching the maximum number of tool calls."

  // ---------- What a run does with the replies ----------

  // A tool that was run, by name, with the text of what it returned, if that has one.
  type ToolRun = (string, Option<string>)

  /** Behind the history stand the reply as it came and the answers to its first n calls,
      each with the result of its own tool, the first of which is ran[from]. */
  ghost predicate Answers(history: seq<Message>, messages: seq<Message>, m: Message, n: nat,
      ran: seq<ToolRun>, from: nat)
    requires m.Assistant?
  {
    && history + [m] <= messages && n <= |m.calls| && |history| + 1 + n <= |messages| && from + n <= |ran|
    && forall i | 0 <= i < n :: AnswerOf(messages[|history| + 1 + i], m.calls[i], ran[from + i])
  }

  /** The first n calls have not completed the task. */
  ghost predicate GoesOn(history: seq<Message>, messages: seq<Message>, m: Message, n: nat)
    requires m.Assistant?
  {
    && n <= |m.calls| && |history| + 1 + n <= |messages|
    && forall i | 0 <= i < n :: m.calls[i].name == Some("complete_task") ==>
         messages[|history| + 1 + i].Tool? && Rejects(messages[|history| + 1 + i].content)
  }

  /** A turn after which the loop goes on: all calls are answered, and at most one nudge follows. */
  ghost predicate IsTurn(history: seq<Message>, messages: seq<Message>, m: Message, truncated: bool,
      penultimate: bool, ran: seq<ToolRun>, from: nat)
    requires m.Assistant?
  {
    var n := |m.calls|;
    && Answers(history, messages, m, n, ran, from) && GoesOn(history, messages, m, n)
    && (n == 0 ==> truncated)
    && messages[|history| + 1 + n..] ==
         if n == 0 then [User(TRUNCATED)] else if penultimate then [User(CRITIQUE)] else []
  }

  /** A turn that ends the run at its call number n, or without a call. */
  ghost predicate IsLastTurn(history: seq<Message>, messages: seq<Message>, m: Message, truncated: bool,
      n: nat, ran: seq<ToolRun>, from: nat, ending: Ending)
    requires m.Assistant?
  {
    && Answers(history, messages, m, n, ran, from) && |messages| == |history| + 1 + n
    && match ending {
      case Answered => m.calls == [] && !truncated && |ran| == from
      case Completed =>
        && n > 0 && GoesOn(history, messages, m, n - 1) && |ran| == from + n
        && m.calls[n - 1].name == Some("complete_task") && !Rejects(messages[|messages| - 1].content)
      case Malformed =>
        && n < |m.calls| && GoesOn(history, messages, m, n)
        && if m.calls[n].name.None? then |ran| == from + n
           else m.calls[n].id.None? && |ran| == from + n + 1 && Some(ran[from + n].0) == m.calls[n].name
      case Unserialisable =>
        && n < |m.calls| && GoesOn(history, messages, m, n)
        && |ran| == from + n + 1 && Some(ran[from + n].0) == m.calls[n].name && ran[from + n].1.None?
      case _ => false
    }
  }

  /** The number of calls in the replies. */
  ghost function CallCount(replies: seq<Reply>): nat {
    if replies == [] then 0 else
    var last := replies[|replies| - 1];
    CallCount(replies[..|replies| - 1]) + if last.Choice? && last.message.Assistant? then |last.message.calls| else 0
  }

  /** From each history to the next the loop took the turn of the reply between them. */
  ghost predicate AreTurns(histories: seq<seq<Message>>, replies: seq<Reply>, maxTurns: int, ran: seq<ToolRun>) {
    && |histories| == |replies| + 1
    && forall k | 0 <= k < |replies| ::
      && replies[k].Choice? && replies[k].message.Assistant?
      && IsTurn(histories[k], histories[k + 1], replies[k].message, replies[k].truncated, k == maxTurns - 2,
                ran, CallCount(replies[..k]))
  }

  /** How the last reply ended the run. */
  ghost predicate IsEnd(history: seq<Message>, messages: seq<Message>, reply: Reply, ran: seq<ToolRun>, from: nat,
      ending: Ending)
  {
    match reply
    case Failure => ending == LlmFailed && messages == history && |ran| == from
    case NoChoices => ending == EmptyReply && messages == history && |ran| == from
    case Choice(m, truncated) =>
      m.Assistant? && exists n: nat :: IsLastTurn(history, messages, m, truncated, n, ran, from, ending)
  }

  lemma TurnsStay(histories: seq<seq<Message>>, replies: seq<Reply>, maxTurns: int,
      ran: seq<ToolRun>, more: seq<ToolRun>)
    requires AreTurns(histories, replies, maxTurns, ran) && ran <= more
    ensures AreTurns(histories, replies, maxTurns, more)
  {
    hide AnswerOf, Rejects;
  }

  lemma OneMoreTurn(histories: seq<seq<Message>>, replies: seq<Reply>, maxTurns: int, ran: seq<ToolRun>,
      messages: seq<Message>, reply: Reply)
    requires AreTurns(histories, replies, maxTurns, ran) && reply.Choice? && reply.message.Assistant?
    requires IsTurn(histories[|histories| - 1], messages, reply.message, reply.truncated,
      |replies| == maxTurns - 2, ran, CallCount(replies))
    ensures AreTurns(histories + [messages], replies + [reply], maxTurns, ran)
    ensures CallCount(replies + [reply]) == CallCount(replies) + |reply.message.calls|
  {
    hide IsTurn;
    var all := replies + [reply];
    assert all[..|replies|] == replies;
    assert forall k | 0 <= k < |replies| :: all[..k] == replies[..k];
  }

  lemma NoTurnEnds(history: seq<Message>, reply: Reply, ran: seq<ToolRun>)
    ensures reply.Failure? ==> IsEnd(history, history, reply, ran, |ran|, LlmFailed)
    ensures reply.NoChoices? ==> IsEnd(history, history, reply, ran, |ran|, EmptyReply)
  {
  }

  lemma TurnEnds(history: seq<Message>, messages: seq<Message>, reply: Reply, ran: seq<ToolRun>, from: nat,
      ending: Ending)
    requires reply.Choice? && reply.message.Assistant? && Stops(messages, ending)
    requires exists n: nat :: IsLastTurn(history, messages, reply.message, reply.truncated, n, ran, from, ending)
    ensures IsEnd(history, messages, reply, ran, from, ending) && !ending.OutOfTurns?
    ensures !Closed(messages) ==> ending.Completed? || ending.Malformed? || ending.Unserialisable?
  {
    hide Closed, Answers, GoesOn;
  }

  lemma ClosedStops(messages: seq<Message>, ending: Ending)
    requires ending.OutOfTurns? || ending.LlmFailed? || ending.EmptyReply?
    ensures Stops(messages, ending) <==> Closed(messages)
  {
    hide Closed;
  }

  lemma NoAnswers(history: seq<Message>, m: Message, ran: seq<ToolRun>)
    requires m.Assistant?
    ensures Answers(history, history + [m], m, 0, ran, |ran|) && GoesOn(history, history + [m], m, 0)
  {
  }

  lemma StillAnswered(history: seq<Message>, messages: seq<Message>, m: Message, n: nat,
      ran: seq<ToolRun>, more: seq<ToolRun>, from: nat)
    requires m.Assistant? && Answers(history, messages, m, n, ran, from) && ran <= more
    ensures Answers(history, messages, m, n, more, from)
  {
    hide AnswerOf;
  }

  /** The answer of the tool that ran last. */
  lemma OneMoreAnswer(history: seq<Message>, messages: seq<Message>, m: Message, n: nat, ran: seq<ToolRun>, from: nat)
    requires m.Assistant? && Answers(history, messages, m, n, ran, from) && GoesOn(history, messages, m, n)
    requires n < |m.calls| && |messages| == |history| + 1 + n && |ran| == from + n + 1
    requires m.calls[n].id.Some? && m.calls[n].name == Some(ran[from + n].0) && ran[from + n].1.Some?
    ensures var last := Tool(m.calls[n].id.value, ran[from + n].1.value);
      var all := messages + [last];
      && Answers(history, all, m, n + 1, ran, from) && all[|all| - 1] == last && GoesOn(history, all, m, n)
      && (GoesOn(history, all, m, n + 1) || (m.calls[n].name == Some("complete_task") && !Rejects(last.content)))
  {
    hide Rejects;
    var last := Tool(m.calls[n].id.value, ran[from + n].1.value);
    var all := messages + [last];
    forall i | 0 <= i < n + 1 ensures AnswerOf(all[|history| + 1 + i], m.calls[i], ran[from + i]) {
      assert i < n ==> all[|history| + 1 + i] == messages[|history| + 1 + i];
    }
  }

  /** A message whose first calls have answers is an unfinished end of the history. */
  lemma AnswersAreOpen(history: seq<Message>, messages: seq<Message>, m: Message, n: nat, ran: seq<ToolRun>, from: nat)
    requires m.Assistant? && Closed(history) && Answers(history, messages, m, n, ran, from)
    requires |messages| == |history| + 1 + n
    ensures OpenTail(messages, |history|, n) && messages[|history|] == m
  {
    hide Closed;
    assert messages[..|history|] == history;
    assert messages[|history|] == (history + [m])[|history|] == m;
    forall p | |history| + 1 <= p < |history| + 1 + n
      ensures messages[p].Tool? && m.calls[..n][p - |history| - 1].id == Some(messages[p].id)
    {
      assert AnswerOf(messages[|history| + 1 + (p - |history| - 1)], m.calls[p - |history| - 1],
                      ran[from + (p - |history| - 1)]);
    }
  }

  lemma LastTurnStops(history: seq<Message>, messages: seq<Message>, m: Message, n: nat, ran: seq<ToolRun>, from: nat,
      ending: Ending)
    requires m.Assistant? && Closed(history) && IsLastTurn(history, messages, m, false, n, ran, from, ending)
    requires ending in {Completed, Malformed, Unserialisable}
    ensures Stops(messages, ending)
    ensures ending.Unserialisable? ==> ran != [] && ran[|ran| - 1].1.None?
  {
    hide Closed, Rejects, Answers, GoesOn, AnsweredFrom;
    AnswersAreOpen(history, messages, m, n, ran, from);
    StopsAt(messages, |history|, n, ending);
  }

  class Agent {
    var sent: seq<seq<Message>>
    var replies: seq<Reply>
    var ran: seq<ToolRun>

    constructor ()
      ensures sent == [] && replies == [] && ran == []
    {
      sent, replies, ran := [], [], [];
    }

    /** tool_executor and json.dumps: any text, an error text for an exception of the tool,
        or no text for a result that cannot be serialised. */
    method ExecuteTool(name: string) returns (result: Option<string>)
      modifies this`ran
      ensures ran == old(ran) + [(name, result)]
    {
      var text: string, serialisable: bool := *, *;
      result := if serialisable then Some(text) else None;
      ran := ran + [(name, result)];
    }

    /** llm_complete: any assistant message at all, or none, or an exception. */
    method LlmComplete(messages: seq<Message>) returns (r: Reply)
      modifies this`sent, this`replies
      ensures sent == old(sent) + [messages] && replies == old(replies) + [r]
      ensures r.Choice? ==> r.message.Assistant?
    {
      sent := sent + [messages];
      var content: string, calls: seq<ToolCall>, truncated: bool := *, *, *;
      if {
        case true => r := Failure;
        case true => r := NoChoices;
        case true => r := Choice(Assistant(content, calls), truncated);
      }
      replies := replies + [r];
    }

    /** Executes the calls of the message in turn, and puts what each tool returned into its
        own answer. A call without an id is run, but its answer is lost, like that of a tool
        whose result has no text. */
    method ExecuteCalls(history: seq<Message>, message: Message)
      returns (messages: seq<Message>, stop: Option<Ending>, ghost answered: nat)
      requires message.Assistant?
      modifies this`ran
      ensures old(ran) <= ran && |messages| == |history| + 1 + answered
      ensures Answers(history, messages, message, answered, ran, |old(ran)|)
      ensures stop.None? ==> answered == |message.calls| && |ran| == |old(ran)| + answered
      ensures stop.None? ==> GoesOn(history, messages, message, answered)
      ensures stop.Some? ==> stop.value in {Completed, Malformed, Unserialisable}
      ensures stop.Some? ==> IsLastTurn(history, messages, message, false, answered, ran, |old(ran)|, stop.value)
    {
      messages, stop, answered := history + [message], None, 0;
      hide Rejects, Answers, GoesOn;
      NoAnswers(history, message, ran);
      for k := 0 to |message.calls|
        invariant answered == k && stop.None?
        invariant |messages| == |history| + 1 + k
        invariant |ran| == |old(ran)| + k && old(ran) <= ran
        invariant Answers(history, messages, message, k, ran, |old(ran)|)
        invariant GoesOn(history, messages, message, k)
      {
        var call := message.calls[k];
        if call.name.None? {
          return messages, Some(Malformed), answered;
        }
        ghost var before := ran;
        var result := ExecuteTool(call.name.value);
        StillAnswered(history, messages, message, k, before, ran, |old(ran)|);
        if result.None? {
          return messages, Some(Unserialisable), answered;
        }
        if call.id.None? {
          return messages, Some(Malformed), answered;
        }
        OneMoreAnswer(history, messages, message, k, ran, |old(ran)|);
        messages := messages + [Tool(call.id.value, result.value)];
        answered := k + 1;
        if call.name.value == "complete_task" && !Rejects(result.value) {
          return messages, Some(Completed), answered;
        }
      }
    }

    /** What follows a reply with a message: one turn of the loop after the call. */
    method Respond(history: seq<Message>, message: Message, truncated: bool, penultimate: bool)
      returns (messages: seq<Message>, stop: Option<Ending>)
      requires Closed(history) && message.Assistant?
      modifies this`ran
      ensures history + [message] <= messages
      ensures old(ran) <= ran && (stop.None? ==> |ran| == |old(ran)| + |message.calls|)
      ensures stop.None? ==> IsTurn(history, messages, message, truncated, penultimate, ran, |old(ran)|)
      ensures stop.Some? ==> exists n: nat ::
        IsLastTurn(history, messages, message, truncated, n, ran, |old(ran)|, stop.value)
      ensures stop.None? ==> Closed(messages) && (message.calls != [] || truncated)
      ensures stop.Some? ==> stop.value in {Answered, Completed, Malformed, Unserialisable}
      ensures stop.Some? ==> Stops(messages, stop.value)
      ensures stop == Some(Unserialisable) ==> ran != [] && ran[|ran| - 1].1.None?
      ensures message.calls == [] && !truncated ==> stop == Some(Answered)
    {
      hide Closed, AnsweredFrom, Rejects;
      var before := history + [message];
      assert before[..|before| - 1] == history;
      messages, stop := before, None;
      if message.calls == [] {
        AppendPlain(history, message);
        if !truncated {
          assert IsLastTurn(history, messages, message, truncated, 0, ran, |ran|, Answered);
          return messages, Some(Answered);
        }
        AppendPlain(messages, User(TRUNCATED));
        messages := messages + [User(TRUNCATED)];
        return;
      }
      ghost var answered;
      messages, stop, answered := ExecuteCalls(history, message);
      if stop.Some? {
        LastTurnStops(history, messages, message, answered, ran, |old(ran)|, stop.value);
        assert IsLastTurn(history, messages, message, truncated, answered, ran, |old(ran)|, stop.value);
        return;
      }
      AnswersAreOpen(history, messages, message, answered, ran, |old(ran)|);
      FullTail(messages, |history|);
      if penultimate {
        AppendPlain(messages, User(CRITIQUE));
        messages := messages + [User(CRITIQUE)];
      }
    }

    /** One turn: the call, and what follows its reply. */
    method TakeTurn(history: seq<Message>, turn: nat, maxTurns: int)
      returns (messages: seq<Message>, stop: Option<Ending>)
      requires Closed(history) && Recorded(sent, history) && Shorter(sent, history)
      requires |sent| == |replies| == turn && |ran| == CallCount(replies)
      requires AreTurns(sent + [history], replies, maxTurns, ran)
      modifies this
      ensures sent == old(sent) + [history] && |replies| == |sent| && history <= messages
      ensures Recorded(sent, messages)
      ensures stop.None? ==> Closed(messages) && Shorter(sent, messages) && |ran| == CallCount(replies)
      ensures stop.None? ==> AreTurns(sent + [messages], replies, maxTurns, ran)
      ensures stop.Some? ==>
        && Stops(messages, stop.value) && !stop.value.OutOfTurns?
        && (!Closed(messages) ==> stop.value.Completed? || stop.value.Malformed? || stop.value.Unserialisable?)
        && (stop.value.Unserialisable? ==> ran != [] && ran[|ran| - 1].1.None?)
        && AreTurns(sent, replies[..turn], maxTurns, ran)
        && IsEnd(history, messages, replies[turn], ran, CallCount(replies[..turn]), stop.value)
    {
      hide *;
      ghost var said, before := replies, ran;
      RecordedSent(sent, history);
      var response := LlmComplete(history);
      assert replies[..turn] == said;
      NoTurnEnds(history, response, ran);
      match response
      case Failure =>
        ClosedStops(history, LlmFailed);
        return history, Some(LlmFailed);
      case NoChoices =>
        ClosedStops(history, EmptyReply);
        return history, Some(EmptyReply);
      case Choice(message, truncated) =>
        messages, stop := Respond(history, message, truncated, turn == maxTurns - 2);
        RecordedGrows(sent, history, messages);
        TurnsStay(sent, said, maxTurns, before, ran);
        if stop.Some? {
          TurnEnds(history, messages, response, ran, |before|, stop.value);
        } else {
          OneMoreTurn(sent, said, maxTurns, ran, messages, response);
        }
    }

    /** The loop. Every history sent is closed and extends the one before; there are at most
        maxTurns calls; and the history that is left is closed unless complete_task was
        accepted, a malformed call raised, or the result of a tool could not be serialised, and
        then only its last message is unfinished. */
    method Run(systemPrompt: string, initialMessage: string, maxTurns: int)
      returns (messages: seq<Message>, ending: Ending)
      requires sent == [] && replies == [] && ran == []
      modifies this
      ensures |sent| <= if maxTurns > 0 then maxTurns else 0
      ensures ending.OutOfTurns? ==> |sent| == if maxTurns > 0 then maxTurns else 0
      ensures Recorded(sent, messages)
      ensures messages != [] && messages[0] == System(systemPrompt)
      ensures sent != [] ==>
        sent[0] == [System(systemPrompt)] + if initialMessage != "" then [User(initialMessage)] else []
      ensures Stops(messages, ending)
      ensures !Closed(messages) ==> ending.Completed? || ending.Malformed? || ending.Unserialisable?
      ensures ending.Unserialisable? ==> ran != [] && ran[|ran| - 1].1.None?
      ensures |replies| == |sent|
      ensures ending.OutOfTurns? ==> AreTurns(sent + [messages], replies, maxTurns, ran) && |ran| == CallCount(replies)
      ensures !ending.OutOfTurns? ==>
        var n := |replies| - 1;
        && n >= 0 && AreTurns(sent, replies[..n], maxTurns, ran)
        && IsEnd(sent[n], messages, replies[n], ran, CallCount(replies[..n]), ending)
    {
      messages := Opening(systemPrompt, initialMessage);
      OpeningIsClosed(systemPrompt, initialMessage);
      assert Recorded(sent, messages) && Shorter(sent, messages) && sent + [messages] == [messages];
      assert AreTurns([messages], [], maxTurns, ran) && CallCount([]) == 0;
      assert messages != [] && messages[0] == System(systemPrompt);
      assert messages == [System(systemPrompt)] + if initialMessage != "" then [User(initialMessage)] else [];
      hide *;
      for turn := 0 to (if maxTurns > 0 then maxTurns else 0)
        invariant |sent| == |replies| == turn && |ran| == CallCount(replies)
        invariant messages != [] && messages[0] == System(systemPrompt)
        invariant (sent + [messages])[0] == Opening(systemPrompt, initialMessage)
        invariant Closed(messages) && Recorded(sent, messages) && Shorter(sent, messages)
        invariant AreTurns(sent + [messages], replies, maxTurns, ran)
      {
        var stop;
        messages, stop := TakeTurn(messages, turn, maxTurns);
        if stop.Some? {
          return messages, stop.value;
        }
      }
      ending := OutOfTurns;
      ClosedStops(messages, ending);
    }
  }
}
