/**
 * Chat history records shared by the two chat clients: the list of
 * `{"role": ..., "content": ...}` dictionaries sent to the chat-completion API,
 * and the outcome of one API call.
 */
module Chat {

  datatype Role = User | Assistant

  /** One `{"role": role, "content": content}` entry of the history. */
  datatype Message = Message(role: Role, content: string)

  /** What one `client.chat.completions.create(...)` call produced: the reply
      text, or the text `str(e)` of the exception it raised. */
  datatype Outcome = Reply(text: string) | Failure(error: string)

  /** The remote model, seen as an oracle from the history it is sent to its outcome. */
  type Api = seq<Message> -> Outcome

  /** A history made of the assistant's greeting followed by completed
      turns, each a user message and then an assistant message. */
  predicate IsConversation(msgs: seq<Message>, greeting: string) {
    && |msgs| % 2 == 1
    && msgs[0] == Message(Assistant, greeting)
    && forall k :: 1 <= k < |msgs| ==> msgs[k].role == (if k % 2 == 1 then User else Assistant)
  }

  /** A completed turn keeps a history a conversation. */
  lemma ConversationExtend(msgs: seq<Message>, greeting: string, prompt: string, reply: string)
    requires IsConversation(msgs, greeting)
    ensures IsConversation(msgs + [Message(User, prompt), Message(Assistant, reply)], greeting)
  {
  }
}
