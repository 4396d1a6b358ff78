/** The admin chat panel, `src/modules/dashboard/components/AdminChatPanel.tsx`:
    searching the conversations by the user's names, the tabs, the messages
    that arrive on the realtime channel, and the guarded send. The database
    writes are not performed here: `StartSend` and `FinishSend` return the
    writes the panel asks for, and whether each one succeeded is a parameter. */
module AdminChat {
  import opened Optional
  import opened Strings
  import opened Seqs

  datatype Profile = Profile(username: Option<string>, fullName: Option<string>)

  datatype ChatConversation = ChatConversation(
    id: string,
    userId: string,
    lastMessage: Option<string>,
    profiles: seq<Profile>)

  datatype Role = Admin | UserRole

  datatype ChatMessage = ChatMessage(id: string, content: string, role: Role, userId: Option<string>)

  /** A write the panel sends to the database. */
  datatype Write =
    | InsertMessage(conversationId: string, content: string, role: Role, userId: string)
    | UpdateLastMessage(conversationId: string, lastMessage: string)

  /** `conv.profiles[0]?.username?.toLowerCase() || ''`. */
  function UsernameOf(conv: ChatConversation): string {
    if conv.profiles == [] then "" else Lower(conv.profiles[0].username.GetOr(""))
  }

  /** `conv.profiles[0]?.full_name?.toLowerCase() || ''`. */
  function FullNameOf(conv: ChatConversation): string {
    if conv.profiles == [] then "" else Lower(conv.profiles[0].fullName.GetOr(""))
  }

  /** The search predicate for a term that is not blank. The term itself is
      lowercased but not trimmed. */
  predicate Matches(conv: ChatConversation, term: string) {
    Contains(UsernameOf(conv), Lower(term)) || Contains(FullNameOf(conv), Lower(term))
  }

  /** The test of the search `filter`. */
  function MatchesTerm(term: string): ChatConversation -> bool {
    (conv: ChatConversation) => Matches(conv, term)
  }

  /** The conversations that match `term`, in their order. */
  function Matching(convs: seq<ChatConversation>, term: string): (r: seq<ChatConversation>)
    ensures |r| <= |convs|
  {
    Filter(MatchesTerm(term), convs)
  }

  /** Exactly the matching conversations are kept. */
  lemma MatchingMembers(convs: seq<ChatConversation>, term: string)
    ensures forall c :: c in Matching(convs, term) <==> c in convs && Matches(c, term)
  {
  }

  lemma MatchingIsSubsequence(convs: seq<ChatConversation>, term: string)
    ensures IsSubsequence(Matching(convs, term), convs)
  {
    FilterIsSubsequence(MatchesTerm(term), convs);
  }

  /** The search effect. */
  function SearchFiltered(convs: seq<ChatConversation>, term: string): (r: seq<ChatConversation>)
    ensures IsBlank(term) ==> r == convs
    ensures |r| <= |convs|
  {
    TrimEmptyIffBlank(term);
    if Trim(term) == "" then convs else Matching(convs, term)
  }

  /** A blank term shows every conversation; otherwise exactly the matching
      ones are kept, in their order. */
  lemma SearchFilteredKeeps(convs: seq<ChatConversation>, term: string)
    ensures IsBlank(term) ==> SearchFiltered(convs, term) == convs
    ensures var r := SearchFiltered(convs, term);
      && IsSubsequence(r, convs)
      && (!IsBlank(term) ==> forall c :: c in r <==> c in convs && Matches(c, term))
  {
    TrimEmptyIffBlank(term);
    if IsBlank(term) {
      SubsequenceOfItself(convs);
    } else {
      MatchingIsSubsequence(convs, term);
      MatchingMembers(convs, term);
    }
  }

  /** A conversation without names never matches a term that is not blank. */
  lemma NamelessNeverMatches(conv: ChatConversation, term: string)
    requires conv.profiles == [] || (conv.profiles[0].username.GetOr("") == "" && conv.profiles[0].fullName.GetOr("") == "")
    requires !IsBlank(term)
    ensures !Matches(conv, term)
  {
    assert term != [];
    assert |Lower(term)| > 0;
    assert UsernameOf(conv) == [] && FullNameOf(conv) == [];
  }

  /** The tab effect: every tab, 'all' or another, shows the whole list. */
  function TabFiltered(convs: seq<ChatConversation>, tab: string): (r: seq<ChatConversation>)
    ensures r == convs
  {
    if tab == "all" then convs else convs
  }

  /** `getInitials`. */
  function Initials(name: Option<string>): (r: string)
    ensures |r| == 1 && !('a' <= r[0] <= 'z')
    ensures name.None? || name.value == "" ==> r == "U"
    ensures name.Some? && name.value != "" ==> Lower(r) == Lower([name.value[0]])
  {
    if name.None? || name.value == "" then "U" else [UpperChar(name.value[0])]
  }

  /** What the send handler holds on to between its two writes: the
      conversation and the trimmed message, as they were when it started. */
  datatype SendRequest = SendRequest(conversationId: string, content: string)

  /** The panel's state. */
  class Panel {
    var conversations: seq<ChatConversation>
    var filtered: seq<ChatConversation>
    var searchTerm: string
    var activeTab: string
    var selected: Option<ChatConversation>
    var chatMessages: seq<ChatMessage>
    var newMessage: string
    var isSending: bool

    constructor ()
      ensures conversations == [] && filtered == [] && searchTerm == "" && activeTab == "all"
      ensures selected == None && chatMessages == [] && newMessage == "" && !isSending
    {
      conversations := [];
      filtered := [];
      searchTerm := "";
      activeTab := "all";
      selected := None;
      chatMessages := [];
      newMessage := "";
      isSending := false;
    }

    /** The conversations arrive: the fetch stores them in both lists, then
        the search effect and the tab effect run in that order, and the tab
        effect has the last word. */
    method Loaded(data: seq<ChatConversation>)
      modifies this
      ensures conversations == data && filtered == data
      ensures searchTerm == old(searchTerm) && activeTab == old(activeTab)
      ensures selected == old(selected) && chatMessages == old(chatMessages)
      ensures newMessage == old(newMessage) && isSending == old(isSending)
    {
      conversations := data;
      filtered := data;
      filtered := SearchFiltered(conversations, searchTerm);
      filtered := TabFiltered(conversations, activeTab);
    }

    /** Typing in the search box runs only the search effect. */
    method SetSearchTerm(term: string)
      modifies this
      ensures searchTerm == term && filtered == SearchFiltered(conversations, term)
      ensures conversations == old(conversations) && activeTab == old(activeTab)
      ensures selected == old(selected) && chatMessages == old(chatMessages)
      ensures newMessage == old(newMessage) && isSending == old(isSending)
    {
      var r := SearchFiltered(conversations, term);
      searchTerm := term;
      filtered := r;
    }

    /** Choosing a tab runs only the tab effect. */
    method SetTab(tab: string)
      modifies this
      ensures activeTab == tab && filtered == conversations
      ensures conversations == old(conversations) && searchTerm == old(searchTerm)
      ensures selected == old(selected) && chatMessages == old(chatMessages)
      ensures newMessage == old(newMessage) && isSending == old(isSending)
    {
      activeTab := tab;
      filtered := TabFiltered(conversations, tab);
    }

    /** A click on a conversation in the list selects it. */
    method Select(conv: ChatConversation)
      modifies this
      ensures selected == Some(conv)
      ensures conversations == old(conversations) && filtered == old(filtered)
      ensures searchTerm == old(searchTerm) && activeTab == old(activeTab)
      ensures chatMessages == old(chatMessages)
      ensures newMessage == old(newMessage) && isSending == old(isSending)
    {
      selected := Some(conv);
    }

    /** The rows read for the selected conversation replace the messages
        shown; a failed read does not call this. */
    method MessagesLoaded(rows: seq<ChatMessage>)
      modifies this
      ensures chatMessages == rows
      ensures conversations == old(conversations) && filtered == old(filtered)
      ensures searchTerm == old(searchTerm) && activeTab == old(activeTab)
      ensures selected == old(selected)
      ensures newMessage == old(newMessage) && isSending == old(isSending)
    {
      chatMessages := rows;
    }

    /** Typing into the message box. */
    method SetNewMessage(text: string)
      modifies this
      ensures newMessage == text
      ensures conversations == old(conversations) && filtered == old(filtered)
      ensures searchTerm == old(searchTerm) && activeTab == old(activeTab)
      ensures selected == old(selected) && chatMessages == old(chatMessages)
      ensures isSending == old(isSending)
    {
      newMessage := text;
    }

    /** An INSERT on the selected conversation's channel: the row goes at the
        end, with no check for a message already shown. */
    method ReceiveInsert(m: ChatMessage)
      modifies this
      ensures chatMessages == old(chatMessages) + [m]
      ensures |chatMessages| == |old(chatMessages)| + 1
      ensures chatMessages[..|old(chatMessages)|] == old(chatMessages)
      ensures conversations == old(conversations) && filtered == old(filtered)
      ensures selected == old(selected) && newMessage == old(newMessage) && isSending == old(isSending)
    {
      chatMessages := chatMessages + [m];
      assert chatMessages[..|old(chatMessages)|] == old(chatMessages);
    }

    /** The start of `handleSendMessage`, `user` being the signed-in user's
        id: without a selected conversation, with a blank message or without
        a user nothing happens; otherwise the panel is sending and the
        message row, with the trimmed text, is to be inserted. */
    method StartSend(user: Option<string>) returns (insert: Option<Write>, request: Option<SendRequest>)
      modifies this
      ensures selected.None? || IsBlank(newMessage) || user.None? ==>
        insert == None && request == None && isSending == old(isSending)
      ensures !(selected.None? || IsBlank(newMessage) || user.None?) ==>
        && insert == Some(InsertMessage(selected.value.id, Trim(newMessage), Admin, user.value))
        && request == Some(SendRequest(selected.value.id, Trim(newMessage)))
        && isSending
      ensures insert.Some? ==> insert.value.content != ""
      ensures conversations == old(conversations) && filtered == old(filtered)
      ensures selected == old(selected) && chatMessages == old(chatMessages)
      ensures newMessage == old(newMessage) && searchTerm == old(searchTerm)
    {
      TrimEmptyIffBlank(newMessage);
      if selected.None? || Trim(newMessage) == "" || user.None? {
        return None, None;
      }
      isSending := true;
      insert := Some(InsertMessage(selected.value.id, Trim(newMessage), Admin, user.value));
      request := Some(SendRequest(selected.value.id, Trim(newMessage)));
    }

    /** The rest of `handleSendMessage`: the conversation's last message is
        updated only after the insert succeeded, the input is cleared only
        after both writes succeeded, and the panel stops sending either way.
        The shown messages are left to the realtime channel. */
    method FinishSend(request: SendRequest, insertOk: bool, updateOk: bool) returns (update: Option<Write>)
      modifies this
      ensures insertOk ==> update == Some(UpdateLastMessage(request.conversationId, request.content))
      ensures !insertOk ==> update == None
      ensures newMessage == (if insertOk && updateOk then "" else old(newMessage))
      ensures !isSending
      ensures conversations == old(conversations) && filtered == old(filtered)
      ensures selected == old(selected) && chatMessages == old(chatMessages)
      ensures searchTerm == old(searchTerm)
    {
      update := None;
      if insertOk {
        update := Some(UpdateLastMessage(request.conversationId, request.content));
        if updateOk {
          newMessage := "";
        }
      }
      isSending := false;
    }
  }

  /** The message stored and the conversation's last message are the same
      trimmed text. */
  lemma StoredTextsAgree(selectedId: string, message: string, user: string)
    requires !IsBlank(message)
    ensures var ins := InsertMessage(selectedId, Trim(message), Admin, user);
      var upd := UpdateLastMessage(selectedId, Trim(message));
      ins.content == upd.lastMessage && IsTrimmed(ins.content) && ins.content != ""
  {
    TrimIsTrimmed(message);
    TrimEmptyIffBlank(message);
  }
}
