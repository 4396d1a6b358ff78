/** The AI chat page, `src/pages/tools/AIChatPage.tsx`: the list of
    conversations, the one on screen, sending a message and the simulated
    answer, and deleting a conversation. Identifiers come from the clock in
    the application and are parameters here; the one-and-a-half-second delay
    before the answer is the gap between `Send` and `Respond`. */
module AIChat {
  import opened Optional
  import opened Strings
  import opened Seqs

  datatype Role = User | Assistant

  datatype Message = Message(id: string, role: Role, content: string)

  datatype Conversation = Conversation(id: string, title: string, messages: seq<Message>)

  const Greeting: string := "Halo! Saya adalah AI Assistant. Ada yang bisa saya bantu tentang web development?"

  const NewTitle: string := "Chat baru"

  /** A fresh conversation: the greeting of the assistant and nothing else.
      The conversation and its greeting take their ids from two separate
      clock readings, which may differ. */
  function Fresh(id: string, greetingId: string): (c: Conversation)
    ensures c.id == id && |c.messages| == 1
    ensures c.messages[0].role == Assistant && c.messages[0].id == greetingId
  {
    Conversation(id, NewTitle, [Message(greetingId, Assistant, Greeting)])
  }

  /** The simulated answer to `question`. */
  function ReplyText(question: string): string {
    "Terima kasih atas pertanyaannya. Untuk \"" + question
    + "\", saya sarankan melihat dokumentasi resmi atau artikel terkait di blog kami."
  }

  /** `list.map(conv => conv.id === c.id ? c : conv)`. */
  function ReplaceById(list: seq<Conversation>, c: Conversation): (r: seq<Conversation>)
    ensures |r| == |list|
  {
    seq(|list|, i requires 0 <= i < |list| => if list[i].id == c.id then c else list[i])
  }

  /** Only the entries with the id of `c` change, and they become `c`. */
  lemma ReplaceByIdChangesOnlyMatch(list: seq<Conversation>, c: Conversation)
    ensures var r := ReplaceById(list, c);
      |r| == |list|
      && (forall i :: 0 <= i < |list| && list[i].id != c.id ==> r[i] == list[i])
      && (forall i :: 0 <= i < |list| && list[i].id == c.id ==> r[i] == c)
      && (forall i :: 0 <= i < |list| ==> r[i].id == list[i].id)
  {
  }

  /** `list.filter(conv => conv.id !== id)`. */
  function RemoveById(list: seq<Conversation>, id: string): (r: seq<Conversation>)
    ensures |r| <= |list|
    ensures forall i :: 0 <= i < |r| ==> r[i].id != id && r[i] in list
    ensures forall i :: 0 <= i < |list| && list[i].id != id ==> list[i] in r
    decreases |list|
  {
    if list == [] then []
    else
      var rest := RemoveById(list[1..], id);
      assert forall i :: 0 <= i < |list| - 1 ==> list[1..][i] == list[i + 1];
      if list[0].id != id then [list[0]] + rest else rest
  }

  lemma {:induction false} RemoveByIdIsSubsequence(list: seq<Conversation>, id: string)
    ensures IsSubsequence(RemoveById(list, id), list)
    decreases |list|
  {
    if list != [] {
      RemoveByIdIsSubsequence(list[1..], id);
      var rest := RemoveById(list[1..], id);
      if list[0].id != id {
        assert ([list[0]] + rest)[1..] == rest;
      } else if rest != [] {
        assert IsSubsequence(rest, list[1..]);
      }
    }
  }

  /** `list.find(conv => conv.id !== id)`. */
  function FindOther(list: seq<Conversation>, id: string): (r: Option<Conversation>)
    ensures r.Some? ==> r.value in list && r.value.id != id
    ensures r.None? <==> forall i :: 0 <= i < |list| ==> list[i].id == id
    decreases |list|
  {
    if list == [] then None
    else if list[0].id != id then Some(list[0])
    else
      var r := FindOther(list[1..], id);
      assert forall i :: 0 <= i < |list| - 1 ==> list[1..][i] == list[i + 1];
      r
  }

  /** The conversation found is the first of those that remain after the
      delete, and there is none exactly when none remain. */
  lemma {:induction false} FindOtherIsFirstRemaining(list: seq<Conversation>, id: string)
    ensures var rest := RemoveById(list, id);
      FindOther(list, id) == if rest == [] then None else Some(rest[0])
    decreases |list|
  {
    if list != [] && list[0].id == id {
      FindOtherIsFirstRemaining(list[1..], id);
    }
  }

  /** What the answer timer captured when the message was sent: the
      conversation with the user's message, the question, and the list of
      conversations as it was then. */
  datatype Pending = Pending(updated: Conversation, question: string, list: seq<Conversation>)

  /** The chat page's state. */
  class ChatPage {
    var conversations: seq<Conversation>
    var current: Option<Conversation>
    var input: string
    var isLoading: bool

    constructor ()
      ensures conversations == [] && current == None && input == "" && !isLoading
    {
      conversations := [];
      current := None;
      input := "";
      isLoading := false;
    }

    /** The mount effect: an empty list gets one demo conversation whose id
        and greeting id are both "1", and it is put on screen. */
    method Mount()
      modifies this
      ensures old(conversations) == [] ==>
        conversations == [Fresh("1", "1")] && current == Some(Fresh("1", "1"))
      ensures old(conversations) != [] ==>
        conversations == old(conversations) && current == old(current)
      ensures input == old(input) && isLoading == old(isLoading)
    {
      if |conversations| == 0 {
        var demo := Fresh("1", "1");
        conversations := [demo];
        current := Some(demo);
      }
    }

    /** `handleNewConversation`, `id` and `greetingId` being the two clock
        readings it takes. */
    method NewConversation(id: string, greetingId: string)
      modifies this
      ensures conversations == [Fresh(id, greetingId)] + old(conversations)
      ensures current == Some(Fresh(id, greetingId))
      ensures input == ""
      ensures isLoading == old(isLoading)
    {
      var c := Fresh(id, greetingId);
      conversations := [c] + conversations;
      current := Some(c);
      input := "";
    }

    /** The synchronous half of `handleSendMessage`: nothing happens for a
        blank input or without a conversation on screen; otherwise the
        user's message, as typed, is added to the conversation on screen and
        the input is cleared. */
    method Send(messageId: string) returns (pending: Option<Pending>)
      modifies this
      ensures IsBlank(old(input)) || old(current).None? ==>
        pending == None && conversations == old(conversations) && current == old(current)
        && input == old(input) && isLoading == old(isLoading)
      ensures !IsBlank(old(input)) && old(current).Some? ==>
        var c := old(current).value;
        var u := c.(messages := c.messages + [Message(messageId, User, old(input))]);
        && pending == Some(Pending(u, old(input), old(conversations)))
        && current == Some(u)
        && conversations == old(conversations)
        && input == "" && isLoading
    {
      if IsBlank(input) || current.None? {
        TrimEmptyIffBlank(input);
        return None;
      }
      TrimEmptyIffBlank(input);
      var c := current.value;
      var u := c.(messages := c.messages + [Message(messageId, User, input)]);
      pending := Some(Pending(u, input, conversations));
      current := Some(u);
      input := "";
      isLoading := true;
    }

    /** The answer timer: the assistant's reply follows the user's message,
        and the list captured at sending time gets the updated
        conversation in place of the one with its id. */
    method Respond(p: Pending, replyId: string)
      modifies this
      ensures current == Some(p.updated.(messages := p.updated.messages + [Message(replyId, Assistant, ReplyText(p.question))]))
      ensures conversations == ReplaceById(p.list, current.value)
      ensures input == old(input) && !isLoading
    {
      var answered := p.updated.(messages := p.updated.messages + [Message(replyId, Assistant, ReplyText(p.question))]);
      current := Some(answered);
      conversations := ReplaceById(p.list, answered);
      isLoading := false;
    }

    /** `handleDeleteConversation(id)`. */
    method Delete(id: string)
      modifies this
      ensures conversations == RemoveById(old(conversations), id)
      ensures old(current).Some? && old(current).value.id == id ==>
        current == FindOther(old(conversations), id)
      ensures !(old(current).Some? && old(current).value.id == id) ==> current == old(current)
      ensures input == old(input) && isLoading == old(isLoading)
    {
      var before := conversations;
      conversations := RemoveById(conversations, id);
      if current.Some? && current.value.id == id {
        current := FindOther(before, id);
      }
    }
  }

  /** Sending and answering add exactly two messages to the conversation,
      the user's and then the assistant's, after those it had. */
  lemma SendThenRespond(c: Conversation, question: string, messageId: string, replyId: string)
    ensures var u := c.(messages := c.messages + [Message(messageId, User, question)]);
      var a := u.(messages := u.messages + [Message(replyId, Assistant, ReplyText(question))]);
      && |a.messages| == |c.messages| + 2
      && a.messages[..|c.messages|] == c.messages
      && a.messages[|c.messages|] == Message(messageId, User, question)
      && a.messages[|c.messages| + 1].role == Assistant
      && a.id == c.id && a.title == c.title
  {
    var u := c.(messages := c.messages + [Message(messageId, User, question)]);
    var a := u.(messages := u.messages + [Message(replyId, Assistant, ReplyText(question))]);
    assert a.messages[..|c.messages|] == c.messages;
  }
}
