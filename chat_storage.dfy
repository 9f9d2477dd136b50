/** The per-step chat histories kept in the browser under one storage key. */
module ChatStorage {
  import opened Text

  datatype Role = User | Assistant

  datatype ChatMessage = ChatMessage(id: string, role: Role, content: string, timestamp: int)

  /** The record saved for one step. */
  datatype StepChat = StepChat(stepId: string, messages: seq<ChatMessage>)

  /** What reading the storage key yields: nothing (or an empty text), text that does not parse, or the chats. */
  datatype Stored = NothingStored | Unparsable | Parsed(chats: map<string, StepChat>)

  /** `getChatKey`: the three ids joined by ':'. */
  function ChatKey(courseId: string, itemId: string, stepId: string): (key: string)
    ensures |key| == |courseId| + |itemId| + |stepId| + 2
    ensures StartsWith(key, courseId) && key[|courseId|] == ':'
    ensures key == Join([courseId, itemId, stepId], ":")
  {
    assert [courseId, itemId, stepId][1..] == [itemId, stepId];
    assert [itemId, stepId][1..] == [stepId];
    assert Join([itemId, stepId], ":") == itemId + ":" + stepId;
    courseId + ":" + itemId + ":" + stepId
  }

  /** Ids without ':' are recovered by splitting their key on ':', so such keys never collide. */
  lemma ChatKeyParts(courseId: string, itemId: string, stepId: string)
    requires !Contains(courseId, ":") && !Contains(itemId, ":") && !Contains(stepId, ":")
    ensures Split(ChatKey(courseId, itemId, stepId), ":") == [courseId, itemId, stepId]
  {
    SplitJoin([courseId, itemId, stepId], ":");
  }

  /** Distinct id triples without ':' have distinct keys. */
  lemma ChatKeyInjective(c1: string, i1: string, s1: string, c2: string, i2: string, s2: string)
    requires !Contains(c1, ":") && !Contains(i1, ":") && !Contains(s1, ":")
    requires !Contains(c2, ":") && !Contains(i2, ":") && !Contains(s2, ":")
    requires ChatKey(c1, i1, s1) == ChatKey(c2, i2, s2)
    ensures c1 == c2 && i1 == i2 && s1 == s2
  {
    ChatKeyParts(c1, i1, s1);
    ChatKeyParts(c2, i2, s2);
  }

  /** The storage a page sees: whether it runs in a browser, and what is stored. */
  class ChatStore {
    const inBrowser: bool
    var stored: Stored

    constructor(inBrowser: bool, stored: Stored)
      ensures this.inBrowser == inBrowser && this.stored == stored
    {
      this.inBrowser := inBrowser;
      this.stored := stored;
    }

    /** `getAllChats`: the stored chats, or none on the server or when nothing parses. */
    function AllChats(): (chats: map<string, StepChat>)
      reads this
      ensures !inBrowser ==> chats == map[]
      ensures inBrowser && stored.Parsed? ==> chats == stored.chats
      ensures !stored.Parsed? ==> chats == map[]
    {
      if inBrowser && stored.Parsed? then stored.chats else map[]
    }

    /** `getStepChat`: the messages saved for the step, or none. */
    function StepMessages(courseId: string, itemId: string, stepId: string): (messages: seq<ChatMessage>)
      reads this
      ensures ChatKey(courseId, itemId, stepId) !in AllChats() ==> messages == []
      ensures ChatKey(courseId, itemId, stepId) in AllChats()
              ==> messages == AllChats()[ChatKey(courseId, itemId, stepId)].messages
    {
      var key := ChatKey(courseId, itemId, stepId);
      if key in AllChats() then AllChats()[key].messages else []
    }

    /** `saveStepChat`: in a browser, writes back every chat read plus this step's; on the server, nothing. */
    method SaveStepChat(courseId: string, itemId: string, stepId: string, messages: seq<ChatMessage>)
      modifies this
      ensures !inBrowser ==> stored == old(stored)
      ensures inBrowser ==> stored == Parsed(old(AllChats())[ChatKey(courseId, itemId, stepId) := StepChat(stepId, messages)])
      ensures inBrowser ==> StepMessages(courseId, itemId, stepId) == messages
      ensures forall k :: k != ChatKey(courseId, itemId, stepId) ==>
                (k in AllChats() <==> k in old(AllChats())) &&
                (k in AllChats() ==> AllChats()[k] == old(AllChats())[k])
    {
      if !inBrowser {
        return;
      }
      var chats := AllChats();
      var key := ChatKey(courseId, itemId, stepId);
      chats := chats[key := StepChat(stepId, messages)];
      stored := Parsed(chats);
    }

    /** `clearStepChat`: in a browser, writes back every chat read except this step's; on the server, nothing. */
    method ClearStepChat(courseId: string, itemId: string, stepId: string)
      modifies this
      ensures !inBrowser ==> stored == old(stored)
      ensures inBrowser ==> stored == Parsed(old(AllChats()) - {ChatKey(courseId, itemId, stepId)})
      ensures StepMessages(courseId, itemId, stepId) == []
      ensures forall k :: k != ChatKey(courseId, itemId, stepId) ==>
                (k in AllChats() <==> k in old(AllChats())) &&
                (k in AllChats() ==> AllChats()[k] == old(AllChats())[k])
    {
      if !inBrowser {
        return;
      }
      var chats := AllChats();
      var key := ChatKey(courseId, itemId, stepId);
      chats := chats - {key};
      stored := Parsed(chats);
    }
  }
}
