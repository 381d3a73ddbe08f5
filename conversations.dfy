/**
 * The conversation store of the assistant's main component: the list of
 * conversations shown in the sidebar, the id of the active one, and the
 * message thread on screen, with the handlers that change them.  The clock
 * (`Date.now()`, `new Date()`) and the random pick of a canned reply are
 * parameters; the reply timer is the explicit step DeliverReply.
 */
module Conversations {
  import opened Wrappers
  import opened Decimal
  import MessageSegmenter

  datatype Role = User | Assistant

  /** A conversation of the sidebar; an `isActive` the source leaves out is false. */
  datatype Conversation = Conversation(id: string, title: string, lastMessage: string, timestamp: int, isActive: bool)

  datatype Message = Message(id: string, content: string, role: Role, timestamp: int)

  const NewChatTitle: string := "New Chat"
  const NewChatPreview: string := "Start a new conversation..."
  const NewChatGreeting: string := "Hello! I'm your AI coding assistant. How can I help you today?"

  /** The canned replies; the source picks one uniformly at random. */
  const Responses: seq<string> := [
    "I understand your question. Let me help you with that...",
    "That's a great question! Here's how you can approach it...",
    "I can help you solve this problem. Let me break it down..."
  ]

  /** An id made from a clock reading, as `Date.now().toString()`. */
  function IdOf(ms: int): string
  {
    IntToString(ms)
  }

  // ---------------------------------------------------------------------
  // The conversation list and its invariant
  // ---------------------------------------------------------------------

  /** Some conversation of the list has id `x`. */
  predicate Listed(cs: seq<Conversation>, x: string)
  {
    exists i :: 0 <= i < |cs| && cs[i].id == x
  }

  predicate UniqueIds(cs: seq<Conversation>)
  {
    forall i, j :: 0 <= i < j < |cs| ==> cs[i].id != cs[j].id
  }

  /** Exactly one conversation is active, and it has id `active`. */
  predicate SingleActive(cs: seq<Conversation>, active: string)
  {
    exists k :: 0 <= k < |cs| && cs[k].id == active && forall i :: 0 <= i < |cs| ==> (cs[i].isActive <==> i == k)
  }

  predicate NoneActive(cs: seq<Conversation>)
  {
    forall i :: 0 <= i < |cs| ==> !cs[i].isActive
  }

  /** The store's invariant: ids are unique, and the conversation with the active id is the only active one. */
  predicate Invariant(cs: seq<Conversation>, active: string)
  {
    UniqueIds(cs) && SingleActive(cs, active)
  }

  /** What the sidebar shows of a conversation besides its highlight. */
  function Display(c: Conversation): (string, string, string, int)
  {
    (c.id, c.title, c.lastMessage, c.timestamp)
  }

  function Displays(cs: seq<Conversation>): seq<(string, string, string, int)>
  {
    seq(|cs|, i requires 0 <= i < |cs| => Display(cs[i]))
  }

  /** Every conversation with `isActive` set to false. */
  function Deactivated(cs: seq<Conversation>): seq<Conversation>
  {
    seq(|cs|, i requires 0 <= i < |cs| => cs[i].(isActive := false))
  }

  /** The list after `handleNewChat`: the new conversation, then every earlier one deactivated. */
  function WithNewChat(cs: seq<Conversation>, now: int): seq<Conversation>
  {
    [Conversation(IdOf(now), NewChatTitle, NewChatPreview, now, true)] + Deactivated(cs)
  }

  /** The list after `handleSelectConversation(x)`: active exactly where the id is `x`. */
  function Selected(cs: seq<Conversation>, x: string): seq<Conversation>
  {
    seq(|cs|, i requires 0 <= i < |cs| => cs[i].(isActive := cs[i].id == x))
  }

  /**
   * A new chat goes in front, titled "New Chat" with the placeholder preview
   * and active; the earlier conversations follow in their order, unchanged
   * but for being inactive.
   */
  lemma NewChatShape(cs: seq<Conversation>, now: int)
    ensures var r := WithNewChat(cs, now);
            && |r| == |cs| + 1
            && r[0] == Conversation(IdOf(now), NewChatTitle, NewChatPreview, now, true)
            && Displays(r[1..]) == Displays(cs)
            && NoneActive(r[1..])
  {
    var r := WithNewChat(cs, now);
    assert r[1..] == Deactivated(cs);
  }

  /** A new chat with a fresh id keeps the invariant, with the new id active, whatever was active before. */
  lemma NewChatKeepsInvariant(cs: seq<Conversation>, now: int)
    requires UniqueIds(cs) && !Listed(cs, IdOf(now))
    ensures Invariant(WithNewChat(cs, now), IdOf(now))
  {
    var r := WithNewChat(cs, now);
    forall i, j | 0 <= i < j < |r| ensures r[i].id != r[j].id {
      if i == 0 {
        assert r[j].id == cs[j - 1].id;
      } else {
        assert r[i].id == cs[i - 1].id && r[j].id == cs[j - 1].id;
      }
    }
    assert r[0].id == IdOf(now);
    assert forall i :: 0 <= i < |r| ==> (r[i].isActive <==> i == 0);
  }

  /** Selecting changes only the highlight: ids, titles, previews, timestamps and order stay. */
  lemma SelectKeepsDisplay(cs: seq<Conversation>, x: string)
    ensures |Selected(cs, x)| == |cs|
    ensures Displays(Selected(cs, x)) == Displays(cs)
    ensures forall i :: 0 <= i < |cs| ==> (Selected(cs, x)[i].isActive <==> cs[i].id == x)
  {
  }

  /** Selecting a listed conversation, ids being unique, makes it the only active one. */
  lemma SelectKeepsInvariant(cs: seq<Conversation>, x: string)
    requires UniqueIds(cs) && Listed(cs, x)
    ensures Invariant(Selected(cs, x), x)
  {
    var k :| 0 <= k < |cs| && cs[k].id == x;
    var r := Selected(cs, x);
    assert r[k].id == x;
    assert forall i :: 0 <= i < |r| ==> (r[i].isActive <==> i == k);
  }

  /** Selecting the active conversation again changes nothing. */
  lemma ReselectIsNoOp(cs: seq<Conversation>, active: string)
    requires Invariant(cs, active)
    ensures Selected(cs, active) == cs
  {
    var k :| 0 <= k < |cs| && cs[k].id == active && forall i :: 0 <= i < |cs| ==> (cs[i].isActive <==> i == k);
    var r := Selected(cs, active);
    forall i | 0 <= i < |cs| ensures r[i] == cs[i] {
      assert cs[i].id == active <==> i == k;
    }
  }

  /**
   * Selecting an id that no conversation has leaves none active: the list
   * is then the deactivated list, which differs from the old one whenever
   * something was active.
   */
  lemma SelectUnlisted(cs: seq<Conversation>, x: string)
    requires !Listed(cs, x)
    ensures Selected(cs, x) == Deactivated(cs)
    ensures NoneActive(Selected(cs, x))
    ensures (exists i :: 0 <= i < |cs| && cs[i].isActive) ==> Selected(cs, x) != cs
  {
    if exists i :: 0 <= i < |cs| && cs[i].isActive {
      var i :| 0 <= i < |cs| && cs[i].isActive;
      assert !Selected(cs, x)[i].isActive;
    }
  }

  // ---------------------------------------------------------------------
  // The seed state
  // ---------------------------------------------------------------------

  const SeedTitles: seq<string> := [
    "React Hooks Best Practices", "TypeScript Generic Functions", "API Error Handling",
    "Database Query Optimization", "CSS Grid vs Flexbox"
  ]

  const SeedPreviews: seq<string> := [
    "Here's how to optimize your useEffect...", "You can create reusable generic functions...",
    "For robust error handling, consider...", "To improve query performance...",
    "Grid is better for 2D layouts while..."
  ]

  /** How long before mount each seed conversation's last message was: 1 hour, 2 hours, 1, 2 and 3 days. */
  const SeedAges: seq<int> := [3600000, 7200000, 86400000, 172800000, 259200000]

  /** The conversations the component starts with, `now` being the clock at mount. */
  function SeedConversations(now: int): seq<Conversation>
  {
    seq(5, i requires 0 <= i < 5 =>
      Conversation(IdOf(i + 1), SeedTitles[i], SeedPreviews[i], now - SeedAges[i], i == 0))
  }

  // The third seed message, built from its sentences, its code lines and the two fenced
  // blocks they form.
  const SeedIntroA: string := "I'd be happy to help you debug "
  const SeedIntroB: string := "the infinite useEffect issue! "
  const SeedIntroC: string := "This is a common problem. "
  const SeedIntroD: string := "Here are the most likely causes "
  const SeedIntroE: string := "and solutions:\n\n"
  const SeedCross: string := "// \U{274C} "
  const SeedTick: string := "// \U{2705} "
  const SeedHook: string := "useEffect(() => {\n"
  const SeedFetch: string := "  fetchData();\n"
  const SeedUpdate: string := "  updateUser();\n"
  const SeedMissingA: string := "Common mistake - "
  const SeedMissingB: string := "missing dependency array\n"
  const SeedEveryA: string := "}); // This runs "
  const SeedEveryB: string := "on every render!\n"
  const SeedObjectA: string := "Another mistake - "
  const SeedObjectB: string := "object/array in dependency\n"
  const SeedStateA: string := "const [user, setUser] = "
  const SeedStateB: string := "useState({});\n"
  const SeedUserDepA: string := "}, [user]); // Object "
  const SeedUserDepB: string := "reference changes every render\n"
  const SeedCorrect: string := "Correct approaches\n"
  const SeedOnceA: string := "}, []); // Empty array = "
  const SeedOnceB: string := "run once on mount\n"
  const SeedIdDepA: string := "}, [userId]); // Only run "
  const SeedIdDepB: string := "when userId changes\n"
  const SeedPropsA: string := "For objects, "
  const SeedPropsB: string := "use specific properties\n"
  const SeedFieldsA: string := "}, [user.id, user.name]);"
  const SeedFieldsB: string := " // Track specific properties\n"
  const SeedOutroA: string := "\n\nCould you share your "
  const SeedOutroB: string := "specific useEffect code? "
  const SeedOutroC: string := "I can provide a more "
  const SeedOutroD: string := "targeted solution."

  const SeedBlank: string := "\n"

  const SeedReplyIntro: string :=
    SeedIntroA + SeedIntroB + SeedIntroC + SeedIntroD + SeedIntroE

  /** The code block, as four sections separated by blank lines. */
  const SeedMissingDeps: string :=
    SeedCross + SeedMissingA + SeedMissingB
    + SeedHook + SeedFetch + SeedEveryA + SeedEveryB

  const SeedObjectDep: string :=
    SeedCross + SeedObjectA + SeedObjectB
    + SeedStateA + SeedStateB
    + SeedHook + SeedUpdate + SeedUserDepA + SeedUserDepB

  const SeedCorrectDeps: string :=
    SeedTick + SeedCorrect
    + SeedHook + SeedFetch + SeedOnceA + SeedOnceB
    + SeedBlank
    + SeedHook + SeedFetch + SeedIdDepA + SeedIdDepB

  const SeedPropertyDeps: string :=
    SeedTick + SeedPropsA + SeedPropsB
    + SeedHook + SeedUpdate + SeedFieldsA + SeedFieldsB

  const SeedReplyCode: string :=
    SeedMissingDeps + SeedBlank + SeedObjectDep + SeedBlank + SeedCorrectDeps + SeedBlank + SeedPropertyDeps

  const SeedReplyOutro: string :=
    SeedOutroA + SeedOutroB + SeedOutroC + SeedOutroD

  /** The third seed message: an introduction, a `javascript` block, and a closing question. */
  const SeedReply: string := MessageSegmenter.Block(SeedReplyIntro, "javascript", SeedReplyCode, SeedReplyOutro)

  const SeedGreeting: string :=
    "Hello! I'm your AI coding assistant. I can help you with programming questions, code reviews, "
    + "debugging, architecture decisions, and more. What would you like to work on today?"

  const SeedQuestion: string :=
    "I'm working on a React component and I'm having trouble with useEffect. It seems to be running "
    + "infinitely. Can you help me debug this?"

  /** The thread the component starts with. */
  function SeedMessages(now: int): seq<Message>
  {
    [ Message("1", SeedGreeting, Assistant, now - 3600000),
      Message("2", SeedQuestion, User, now - 3500000),
      Message("3", SeedReply, Assistant, now - 3400000) ]
  }

  /** The seed list has unique ids and exactly one active conversation, "1", the seed's active id. */
  lemma SeedInvariant(now: int)
    ensures Invariant(SeedConversations(now), "1")
  {
    var cs := SeedConversations(now);
    forall i, j | 0 <= i < j < |cs| ensures cs[i].id != cs[j].id {
      IntToStringInjective(i + 1, j + 1);
    }
    assert cs[0].id == "1";
  }

  lemma NoBacktickInIntroA() ensures '`' !in SeedIntroA {}
  lemma NoBacktickInIntroB() ensures '`' !in SeedIntroB {}
  lemma NoBacktickInIntroC() ensures '`' !in SeedIntroC {}
  lemma NoBacktickInIntroD() ensures '`' !in SeedIntroD {}
  lemma NoBacktickInIntroE() ensures '`' !in SeedIntroE {}
  lemma NoBacktickInCross() ensures '`' !in SeedCross {}
  lemma NoBacktickInTick() ensures '`' !in SeedTick {}
  lemma NoBacktickInHook() ensures '`' !in SeedHook {}
  lemma NoBacktickInFetch() ensures '`' !in SeedFetch {}
  lemma NoBacktickInUpdate() ensures '`' !in SeedUpdate {}
  lemma NoBacktickInMissingA() ensures '`' !in SeedMissingA {}
  lemma NoBacktickInMissingB() ensures '`' !in SeedMissingB {}
  lemma NoBacktickInEveryA() ensures '`' !in SeedEveryA {}
  lemma NoBacktickInEveryB() ensures '`' !in SeedEveryB {}
  lemma NoBacktickInObjectA() ensures '`' !in SeedObjectA {}
  lemma NoBacktickInObjectB() ensures '`' !in SeedObjectB {}
  lemma NoBacktickInStateA() ensures '`' !in SeedStateA {}
  lemma NoBacktickInStateB() ensures '`' !in SeedStateB {}
  lemma NoBacktickInUserDepA() ensures '`' !in SeedUserDepA {}
  lemma NoBacktickInUserDepB() ensures '`' !in SeedUserDepB {}
  lemma NoBacktickInCorrect() ensures '`' !in SeedCorrect {}
  lemma NoBacktickInOnceA() ensures '`' !in SeedOnceA {}
  lemma NoBacktickInOnceB() ensures '`' !in SeedOnceB {}
  lemma NoBacktickInIdDepA() ensures '`' !in SeedIdDepA {}
  lemma NoBacktickInIdDepB() ensures '`' !in SeedIdDepB {}
  lemma NoBacktickInPropsA() ensures '`' !in SeedPropsA {}
  lemma NoBacktickInPropsB() ensures '`' !in SeedPropsB {}
  lemma NoBacktickInFieldsA() ensures '`' !in SeedFieldsA {}
  lemma NoBacktickInFieldsB() ensures '`' !in SeedFieldsB {}
  lemma NoBacktickInOutroA() ensures '`' !in SeedOutroA {}
  lemma NoBacktickInOutroB() ensures '`' !in SeedOutroB {}
  lemma NoBacktickInOutroC() ensures '`' !in SeedOutroC {}
  lemma NoBacktickInOutroD() ensures '`' !in SeedOutroD {}
  lemma NoBacktickInBlank() ensures '`' !in SeedBlank {}

  lemma NoBacktickInIntro() ensures '`' !in SeedReplyIntro
  {
    NoBacktickInIntroA(); NoBacktickInIntroB(); NoBacktickInIntroC(); NoBacktickInIntroD(); NoBacktickInIntroE();
  }

  lemma NoBacktickInMissingDeps() ensures '`' !in SeedMissingDeps
  {
    NoBacktickInCross(); NoBacktickInMissingA(); NoBacktickInMissingB();
    NoBacktickInHook(); NoBacktickInFetch(); NoBacktickInEveryA(); NoBacktickInEveryB();
  }

  lemma NoBacktickInObjectDep() ensures '`' !in SeedObjectDep
  {
    NoBacktickInCross(); NoBacktickInObjectA(); NoBacktickInObjectB(); NoBacktickInStateA(); NoBacktickInStateB();
    NoBacktickInHook(); NoBacktickInUpdate(); NoBacktickInUserDepA(); NoBacktickInUserDepB();
  }

  lemma NoBacktickInCorrectDeps() ensures '`' !in SeedCorrectDeps
  {
    NoBacktickInTick(); NoBacktickInCorrect(); NoBacktickInHook(); NoBacktickInFetch();
    NoBacktickInOnceA(); NoBacktickInOnceB(); NoBacktickInBlank(); NoBacktickInIdDepA(); NoBacktickInIdDepB();
  }

  lemma NoBacktickInPropertyDeps() ensures '`' !in SeedPropertyDeps
  {
    NoBacktickInTick(); NoBacktickInPropsA(); NoBacktickInPropsB();
    NoBacktickInHook(); NoBacktickInUpdate(); NoBacktickInFieldsA(); NoBacktickInFieldsB();
  }

  lemma NoBacktickInCode() ensures '`' !in SeedReplyCode
  {
    NoBacktickInMissingDeps(); NoBacktickInObjectDep(); NoBacktickInCorrectDeps(); NoBacktickInPropertyDeps();
    NoBacktickInBlank();
  }

  lemma NoBacktickInOutro() ensures '`' !in SeedReplyOutro
  {
    NoBacktickInOutroA(); NoBacktickInOutroB(); NoBacktickInOutroC(); NoBacktickInOutroD();
  }

  lemma JavascriptIsTag() ensures MessageSegmenter.IsTag("javascript") {}

  lemma SeedReplyPartsNonEmpty() ensures SeedReplyIntro != "" && SeedReplyOutro != ""
  {
    assert |SeedReplyIntro| >= |SeedIntroA| > 0;
    assert |SeedReplyOutro| >= |SeedOutroA| > 0;
  }

  /** The third seed message renders as text, then a `javascript` code part, then text. */
  lemma SeedReplySegments()
    ensures MessageSegmenter.Segment(SeedReply)
         == [ MessageSegmenter.Text(SeedReplyIntro),
              MessageSegmenter.Code(Some("javascript"), SeedReplyCode),
              MessageSegmenter.Text(SeedReplyOutro) ]
  {
    NoBacktickInIntro();
    NoBacktickInCode();
    NoBacktickInOutro();
    JavascriptIsTag();
    SeedReplyPartsNonEmpty();
    MessageSegmenter.BlockBetweenTexts(SeedReplyIntro, "javascript", SeedReplyCode, SeedReplyOutro);
  }

  // ---------------------------------------------------------------------
  // The component's state and its handlers
  // ---------------------------------------------------------------------

  /**
   * The three state cells of the component.  `pendingReplies` counts the
   * reply timers started by SendMessage that have not fired yet.
   */
  class Store {
    var conversations: seq<Conversation>
    var activeConversationId: string
    var messages: seq<Message>
    ghost var pendingReplies: nat

    /** The list has unique ids and exactly the active id's conversation is active. */
    ghost predicate Valid()
      reads this
    {
      Invariant(conversations, activeConversationId)
    }

    /** The state at mount, `now` being the clock then. */
    constructor (now: int)
      ensures conversations == SeedConversations(now)
      ensures activeConversationId == "1"
      ensures messages == SeedMessages(now)
      ensures pendingReplies == 0
      ensures Valid()
    {
      conversations := SeedConversations(now);
      activeConversationId := "1";
      messages := SeedMessages(now);
      pendingReplies := 0;
      SeedInvariant(now);
    }

    /**
     * `handleNewChat`: a new active conversation in front, the others
     * deactivated, and the thread replaced by the greeting.  The invariant
     * survives when the clock gives an id not yet in the list.
     */
    method NewChat(now: int)
      modifies this
      ensures conversations == WithNewChat(old(conversations), now)
      ensures activeConversationId == IdOf(now)
      ensures messages == [Message(IdOf(now), NewChatGreeting, Assistant, now)]
      ensures pendingReplies == old(pendingReplies)
      ensures old(Valid()) && !Listed(old(conversations), IdOf(now)) ==> Valid()
    {
      if Invariant(conversations, activeConversationId) && !Listed(conversations, IdOf(now)) {
        NewChatKeepsInvariant(conversations, now);
      }
      conversations := WithNewChat(conversations, now);
      activeConversationId := IdOf(now);
      messages := [Message(IdOf(now), NewChatGreeting, Assistant, now)];
    }

    /**
     * `handleSelectConversation(x)`: the highlight moves to `x` and the
     * active id becomes `x`; an id not in the list leaves nothing active.
     */
    method SelectConversation(x: string)
      modifies this
      ensures conversations == Selected(old(conversations), x)
      ensures activeConversationId == x
      ensures messages == old(messages) && pendingReplies == old(pendingReplies)
      ensures old(Valid()) && Listed(old(conversations), x) ==> Valid()
      ensures !Listed(old(conversations), x) ==> NoneActive(conversations)
    {
      if UniqueIds(conversations) && Listed(conversations, x) {
        SelectKeepsInvariant(conversations, x);
      }
      if !Listed(conversations, x) {
        SelectUnlisted(conversations, x);
      }
      conversations := Selected(conversations, x);
      activeConversationId := x;
    }

    /** `handleSendMessage(content)`: the user's message goes at the end, verbatim, and a reply timer starts. */
    method SendMessage(content: string, now: int)
      modifies this
      ensures messages == old(messages) + [Message(IdOf(now), content, User, now)]
      ensures conversations == old(conversations) && activeConversationId == old(activeConversationId)
      ensures pendingReplies == old(pendingReplies) + 1
      ensures old(Valid()) ==> Valid()
    {
      messages := messages + [Message(IdOf(now), content, User, now)];
      pendingReplies := pendingReplies + 1;
    }

    /**
     * The reply timer firing: canned reply `i` goes at the end of whatever
     * thread is on screen then, with an id one past the clock.
     */
    method DeliverReply(i: nat, now: int)
      requires i < |Responses|
      requires pendingReplies > 0
      modifies this
      ensures messages == old(messages) + [Message(IdOf(now + 1), Responses[i], Assistant, now)]
      ensures conversations == old(conversations) && activeConversationId == old(activeConversationId)
      ensures pendingReplies == old(pendingReplies) - 1
      ensures old(Valid()) ==> Valid()
    {
      messages := messages + [Message(IdOf(now + 1), Responses[i], Assistant, now)];
      pendingReplies := pendingReplies - 1;
    }
  }

  /**
   * A reply whose timer fires after a new chat was opened lands in the new
   * chat's thread, after the greeting: the timer appends to the thread on
   * screen, not to the one the message was sent from.
   */
  method ReplyAfterNewChat(store: Store, content: string, sendTime: int, chatTime: int, fireTime: int, i: nat)
    requires i < |Responses|
    modifies store
    ensures store.messages == [Message(IdOf(chatTime), NewChatGreeting, Assistant, chatTime),
                               Message(IdOf(fireTime + 1), Responses[i], Assistant, fireTime)]
    ensures store.pendingReplies == old(store.pendingReplies)
  {
    store.SendMessage(content, sendTime);
    store.NewChat(chatTime);
    store.DeliverReply(i, fireTime);
  }
}
