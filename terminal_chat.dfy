/**
 * The terminal chat client (nvidia_chat_client.py): a history that starts
 * with a greeting, a `while True` loop that appends the user's line and then
 * the assistant's reply, the exit words, and the classification of the
 * exception that ends the session.
 */
module TerminalChat {
  import opened Wrappers
  import opened Text
  import opened Chat
  import StreamlitChat

  const Greeting := "Olá! Eu sou um assistente de IA. Qual é a sua primeira pergunta sobre tecnologia?"

  /** The exit test `user_input.lower() in ["sair", "exit"]` ("quit" is not an exit word here). */
  predicate IsExit(input: string): (b: bool)
    ensures b <==> Lower(input) == "sair" || Lower(input) == "exit"
  {
    Lower(input) in ["sair", "exit"]
  }

  lemma QuitDoesNotExit()
    ensures !IsExit("quit") && !IsExit("QUIT")
  {
    assert Lower("QUIT") == "quit";
  }

  /** How the `except Exception as e` handler reports an error. */
  datatype ErrorKind = Unauthorized | ModelNotFound | Unexpected(detail: string)

  /** "401" is tested first, then "404"; anything else is unexpected and printed as is. */
  function Classify(error: string): (k: ErrorKind)
    ensures k == Unauthorized <==> Contains(error, "401")
    ensures k == ModelNotFound <==> !Contains(error, "401") && Contains(error, "404")
    ensures k.Unexpected? <==> !Contains(error, "401") && !Contains(error, "404")
    ensures k.Unexpected? ==> k.detail == error
  {
    if Contains(error, "401") then Unauthorized
    else if Contains(error, "404") then ModelNotFound
    else Unexpected(error)
  }

  /** The two clients rank the codes in opposite orders: for an error text
      carrying both, the web page reports 404 and the terminal reports 401. */
  lemma OppositePriorities(error: string)
    requires Contains(error, "401") && Contains(error, "404")
    ensures StreamlitChat.ErrorMessage(error) == StreamlitChat.ModelNotFound
    ensures Classify(error) == Unauthorized
  {
  }

  /** How the loop ended: by an exit word, or by an exception with its text. */
  datatype Ending = Exited | Failed(error: string)

  /** The history and ending reached from `history` when the user types `inputs`
      and the model answers as `api` does. Once the lines run out, `input()` raises
      `EOFError`, whose text `eof` depends on the runtime (empty after Ctrl-D at a
      terminal, "EOF when reading a line" when standard input is not a terminal). */
  function Converse(history: seq<Message>, inputs: seq<string>, eof: string, api: Api): (r: (seq<Message>, Ending))
    ensures |history| <= |r.0| <= |history| + 2 * |inputs|
    ensures r.0[..|history|] == history
    decreases |inputs|
  {
    if inputs == [] then (history, Failed(eof))
    else if IsExit(inputs[0]) then (history, Exited)
    else
      var asked := history + [Message(User, inputs[0])];
      match api(asked)
      case Failure(error) => (asked, Failed(error))
      case Reply(text) => Converse(asked + [Message(Assistant, text)], inputs[1..], eof, api)
  }

  /** The whole script: the `while True` loop over the lines typed, starting
      from the greeting, and the error report of the `except` handler. */
  method RunSession(inputs: seq<string>, eof: string, api: Api) returns (messages: seq<Message>, ending: Ending, report: Option<ErrorKind>)
    ensures (messages, ending) == Converse([Message(Assistant, Greeting)], inputs, eof, api)
    ensures report == if ending.Failed? then Some(Classify(ending.error)) else None
  {
    report := None;
    messages := [Message(Assistant, Greeting)];
    var next := 0;
    while true
      invariant 0 <= next <= |inputs|
      invariant Converse(messages, inputs[next..], eof, api) == Converse([Message(Assistant, Greeting)], inputs, eof, api)
      decreases |inputs| - next
    {
      if next == |inputs| {
        ending := Failed(eof);
        report := Some(Classify(eof));
        return;
      }
      var userInput := inputs[next];
      assert inputs[next..][0] == userInput && inputs[next..][1..] == inputs[next + 1..];
      next := next + 1;
      if IsExit(userInput) {
        ending := Exited;
        return;
      }
      messages := messages + [Message(User, userInput)];
      var outcome := api(messages);
      if outcome.Failure? {
        ending := Failed(outcome.error);
        report := Some(Classify(outcome.error));
        return;
      }
      messages := messages + [Message(Assistant, outcome.text)];
    }
  }

  /** Turn `j` of a session from `history`: the `j`-th line typed was appended
      as a user message, and the reply the model gave to the history up to and
      including it was appended right after. */
  predicate TurnAt(history: seq<Message>, inputs: seq<string>, msgs: seq<Message>, api: Api, j: nat) {
    && j < |inputs|
    && |history| + 2 * j + 1 < |msgs|
    && msgs[|history| + 2 * j] == Message(User, inputs[j])
    && api(msgs[..|history| + 2 * j + 1]) == Reply(msgs[|history| + 2 * j + 1].content)
    && msgs[|history| + 2 * j + 1].role == Assistant
  }

  /** The first `k` lines typed were ordinary lines, each completing a turn,
      and the history from before the session is kept as a prefix. */
  predicate Completed(history: seq<Message>, inputs: seq<string>, msgs: seq<Message>, api: Api, k: nat) {
    && k <= |inputs|
    && |history| + 2 * k <= |msgs|
    && msgs[..|history|] == history
    && forall j :: 0 <= j < k ==> !IsExit(inputs[j]) && TurnAt(history, inputs, msgs, api, j)
  }

  /** What happened at line `k`, after `k` completed turns: an exit word that
      adds nothing, the end of input, or an API failure that leaves the line's
      user message in place. */
  predicate Stopped(history: seq<Message>, inputs: seq<string>, eof: string, msgs: seq<Message>, ending: Ending, api: Api, k: nat) {
    && (ending == Exited ==> k < |inputs| && IsExit(inputs[k]) && |msgs| == |history| + 2 * k)
    && (ending.Failed? && k == |inputs| ==> ending.error == eof && |msgs| == |history| + 2 * k)
    && (ending.Failed? && k < |inputs| ==>
          && !IsExit(inputs[k])
          && |msgs| == |history| + 2 * k + 1
          && msgs[|msgs| - 1] == Message(User, inputs[k])
          && api(msgs) == Failure(ending.error))
  }

  /** A completed first turn followed by `k` completed turns is `k + 1` completed turns. */
  lemma ShiftCompleted(history: seq<Message>, inputs: seq<string>, msgs: seq<Message>, api: Api, text: string, k: nat)
    requires inputs != [] && !IsExit(inputs[0])
    requires api(history + [Message(User, inputs[0])]) == Reply(text)
    requires Completed(history + [Message(User, inputs[0]), Message(Assistant, text)], inputs[1..], msgs, api, k)
    ensures Completed(history, inputs, msgs, api, k + 1)
  {
    var next := history + [Message(User, inputs[0]), Message(Assistant, text)];
    assert msgs[..|history|] == history by {
      assert msgs[..|history|] == msgs[..|next|][..|history|];
    }
    assert TurnAt(history, inputs, msgs, api, 0) by {
      assert msgs[..|history| + 1] == msgs[..|next|][..|history| + 1] == history + [Message(User, inputs[0])];
      assert msgs[|history|] == msgs[..|next|][|history|] == Message(User, inputs[0]);
      assert msgs[|history| + 1] == msgs[..|next|][|history| + 1] == Message(Assistant, text);
    }
    forall j | 1 <= j < k + 1
      ensures !IsExit(inputs[j]) && TurnAt(history, inputs, msgs, api, j)
    {
      assert inputs[1..][j - 1] == inputs[j];
      assert TurnAt(next, inputs[1..], msgs, api, j - 1);
    }
  }

  /** How a session from `history` changes it, in closed form: nothing is ever
      removed, the first `k` lines (none an exit word) each add a user message
      and the model's reply to the history so far, and then an exit word adds
      nothing, input runs out, or the API fails and the user message stays. */
  lemma {:induction false} ConverseTurns(history: seq<Message>, inputs: seq<string>, eof: string, api: Api,
                                         msgs: seq<Message>, ending: Ending)
    requires (msgs, ending) == Converse(history, inputs, eof, api)
    ensures exists k: nat :: Completed(history, inputs, msgs, api, k) && Stopped(history, inputs, eof, msgs, ending, api, k)
    decreases |inputs|
  {
    if inputs == [] {
      assert msgs == history && ending == Failed(eof);
      assert Completed(history, inputs, msgs, api, 0) && Stopped(history, inputs, eof, msgs, ending, api, 0);
    } else if IsExit(inputs[0]) {
      assert msgs == history && ending == Exited;
      assert Completed(history, inputs, msgs, api, 0) && Stopped(history, inputs, eof, msgs, ending, api, 0);
    } else {
      var asked := history + [Message(User, inputs[0])];
      match api(asked)
      case Failure(error) =>
        assert msgs[..|history|] == history;
        assert Completed(history, inputs, msgs, api, 0) && Stopped(history, inputs, eof, msgs, ending, api, 0);
      case Reply(text) =>
        var next := asked + [Message(Assistant, text)];
        assert next == history + [Message(User, inputs[0]), Message(Assistant, text)];
        ConverseTurns(next, inputs[1..], eof, api, msgs, ending);
        var k': nat :| Completed(next, inputs[1..], msgs, api, k') && Stopped(next, inputs[1..], eof, msgs, ending, api, k');
        ShiftCompleted(history, inputs, msgs, api, text, k');
        if k' < |inputs[1..]| {
          assert inputs[1..][k'] == inputs[k' + 1];
        }
        assert Completed(history, inputs, msgs, api, k' + 1) && Stopped(history, inputs, eof, msgs, ending, api, k' + 1);
    }
  }

  /** Roles keep alternating: a session that exits or runs out of input leaves a
      conversation, and one whose API call fails leaves a conversation followed by
      the unanswered user message. */
  lemma {:induction false} ConverseShape(history: seq<Message>, inputs: seq<string>, eof: string, api: Api, greeting: string)
    requires IsConversation(history, greeting)
    ensures var (msgs, ending) := Converse(history, inputs, eof, api);
      && (ending == Exited ==> |msgs| % 2 == 1)
      && (|msgs| % 2 == 1 ==> IsConversation(msgs, greeting))
      && (|msgs| % 2 == 0 ==>
            && ending.Failed?
            && IsConversation(msgs[..|msgs| - 1], greeting)
            && msgs[|msgs| - 1].role == User)
    decreases |inputs|
  {
    if inputs != [] && !IsExit(inputs[0]) {
      var asked := history + [Message(User, inputs[0])];
      match api(asked)
      case Failure(error) =>
        assert asked[..|asked| - 1] == history;
      case Reply(text) =>
        ConversationExtend(history, greeting, inputs[0], text);
        ConverseShape(asked + [Message(Assistant, text)], inputs[1..], eof, api, greeting);
    }
  }
}
