/**
 * The Streamlit chat page (streamlit_chat_app.py): the message list kept in
 * the session state across reruns, the per-prompt append / pop discipline,
 * and the choice of the error message shown when the API call fails.
 */
module StreamlitChat {
  import opened Wrappers
  import opened Text
  import opened Chat

  const LlmModel := "meta/llama3-8b-instruct"
  const Greeting := "Olá! Este chat agora tem o visual verde Matrix. Pergunte-me qualquer coisa!"
  const ClientMissing := "O cliente da API não foi inicializado corretamente."
  const ModelNotFound := "Erro 404: Modelo '" + LlmModel + "' não encontrado. Verifique o nome exato no painel da NVIDIA."
  const InvalidKey := "Erro 401: Chave de API inválida ou expirada."
  const GenericPrefix := "Erro ao chamar a API: "

  /** The message shown for a failed API call whose exception reads `error`:
      "404" is tested first, then "401", else the generic message embedding the error. */
  function ErrorMessage(error: string): (r: string)
    ensures r == ModelNotFound <==> Contains(error, "404")
    ensures r == InvalidKey <==> !Contains(error, "404") && Contains(error, "401")
    ensures !Contains(error, "404") && !Contains(error, "401") ==> r == GenericPrefix + error
  {
    assert ModelNotFound[5] == '4' && InvalidKey[5] == '4' && GenericPrefix[5] == 'a';
    assert ModelNotFound[6] == '0' && InvalidKey[6] == '0';
    assert ModelNotFound[7] == '4' && InvalidKey[7] == '1';
    assert (GenericPrefix + error)[5] == 'a';
    if Contains(error, "404") then ModelNotFound
    else if Contains(error, "401") then InvalidKey
    else GenericPrefix + error
  }

  /** `st.session_state` as far as the chat is concerned. */
  class Session {
    /** Whether the key "messages" is present in the session state. */
    var initialised: bool
    /** `st.session_state.messages`, meaningful once `initialised`. */
    var messages: seq<Message>

    /** Once created, the history is the greeting followed by completed turns. */
    ghost predicate Valid()
      reads this
    {
      initialised ==> IsConversation(messages, Greeting)
    }

    /** A fresh browser session: nothing stored yet. */
    constructor ()
      ensures Valid() && !initialised && messages == []
    {
      initialised := false;
      messages := [];
    }

    /** The history is created, holding the greeting alone, only if absent. */
    method InitHistory()
      requires Valid()
      modifies this
      ensures Valid() && initialised
      ensures old(initialised) ==> messages == old(messages)
      ensures !old(initialised) ==> messages == [Message(Assistant, Greeting)]
    {
      if !initialised {
        initialised := true;
        messages := [Message(Assistant, Greeting)];
      }
    }

    /** One submitted prompt (`""` stands for no submission, which is falsy for the
        walrus test). Without a client the run stops before touching the history.
        Otherwise the user message is appended and the whole history is sent; a
        reply is appended after it, while a failure pops the user message again.
        Returns the text passed to `st.error`, if any. */
    method HandlePrompt(prompt: string, clientReady: bool, api: Api) returns (shown: Option<string>)
      requires Valid() && initialised
      modifies this`messages
      ensures Valid()
      ensures prompt == "" ==> messages == old(messages) && shown == None
      ensures prompt != "" && !clientReady ==> messages == old(messages) && shown == Some(ClientMissing)
      ensures prompt != "" && clientReady ==>
        match api(old(messages) + [Message(User, prompt)])
        case Reply(text) =>
          messages == old(messages) + [Message(User, prompt), Message(Assistant, text)] && shown == None
        case Failure(error) =>
          messages == old(messages) && shown == Some(ErrorMessage(error))
    {
      shown := None;
      if prompt == "" {
        return;
      }
      if !clientReady {
        shown := Some(ClientMissing);
        return;
      }
      messages := messages + [Message(User, prompt)];
      var outcome := api(messages);
      match outcome
      case Reply(text) =>
        messages := messages + [Message(Assistant, text)];
        ConversationExtend(old(messages), Greeting, prompt, text);
      case Failure(error) =>
        shown := Some(ErrorMessage(error));
        messages := messages[..|messages| - 1];
        assert messages == old(messages);
    }

    /** One run of the script: create the history if needed, then handle the prompt. */
    method Rerun(prompt: string, clientReady: bool, api: Api) returns (shown: Option<string>)
      requires Valid()
      modifies this
      ensures Valid() && initialised
      ensures var before := if old(initialised) then old(messages) else [Message(Assistant, Greeting)];
        && (prompt == "" ==> messages == before && shown == None)
        && (prompt != "" && !clientReady ==> messages == before && shown == Some(ClientMissing))
        && (prompt != "" && clientReady ==>
              match api(before + [Message(User, prompt)])
              case Reply(text) =>
                messages == before + [Message(User, prompt), Message(Assistant, text)] && shown == None
              case Failure(error) => messages == before && shown == Some(ErrorMessage(error)))
    {
      InitHistory();
      shown := HandlePrompt(prompt, clientReady, api);
    }
  }
}
