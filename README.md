# AI Coding Assistant — a verified model of the chat front end

This project models the logic of the assistant's React front end. Each part is stated as Dafny and proved.

- **Message segmenter** (`message_segmenter.dfy`). A chat bubble's raw text is cut into plain-text parts and fenced code parts, using the global regular expression ```` ```(\w+)?\n([\s\S]*?)``` ````.
  - The expression is written out as an explicit scanner: `MatchAt` is the pattern at one position, and `FindMatch` is one `exec` (the leftmost match).
  - The list of parts is the function `Segment`.
  - `SegmentPositions` states where each part sits in the message: no match starts inside a text part, and each code part is the part of a match that starts where it sits. A segmentation that left a later match inside a text would break it.
  - The source's `while (exec …)` loop is the method `RenderMessageContent`. It uses `Exec` (the leftmost-match loop), `TryMatchAt` (the pattern at one position) and the scans it composes, `ScanWord` and `ScanFence`. `Exec`, `ScanWord` and `ScanFence` each hold a loop, and each of the four is proved equal to its specification function.
- **Conversation store** (`conversations.dfy`). The main component's three state cells are the fields of the class `Store`:
  - the conversation list;
  - the active id;
  - the thread on screen.

  Its handlers are methods: new chat, select, send, and the reply timer's body as `DeliverReply`. The values the handlers compute are functions (`WithNewChat`, `Selected`). The invariant "ids are unique and exactly the conversation with the active id is active" is proved for the seed state and kept by the handlers.
- **Input box** (`chat_area.dfy`). The class `ChatInput` holds the `input` and `isTyping` cells of the chat area. `handleSend` refuses a blank message, and `handleKeyPress` sends on Enter without Shift. JavaScript's `trim` is modelled with its exact whitespace set. `Send` wires the box to the store.
- **Relative time** (`relative_time.dfy`). The sidebar's "Just now" / "Nh ago" / "Nd ago" / date label, on integer milliseconds.
- **Decimal strings** (`decimal.dfy`). `String(n)` for the numbers in labels and in ids made from the clock, proved injective.

Two points where the code is more precise than a prose reading of it, and where the model follows the code:

- **Trailing newline.** A code body keeps the newline before its closing marker, as the lazy `[\s\S]*?` captures it. For example, ```` "```js\nconst x=1\n```" ```` has the body `"const x=1\n"`.
- **Unlisted id.** Selecting an id that is not in the list does not leave the list unchanged: every conversation becomes inactive (`SelectUnlisted`).

## Model

| member | source | states |
|---|---|---|
| MessageSegmenter.RenderMessageContent | ai-coding-assistant/src/components/MessageBubble.tsx:24-68 | the loop over `exec` yields exactly the parts `Segment(content)` |
| MessageSegmenter.Exec | ai-coding-assistant/src/components/MessageBubble.tsx:31 | one `exec` from `lastIndex` returns `FindMatch(s, from)`, the leftmost match at or after it |
| MessageSegmenter.TryMatchAt | ai-coding-assistant/src/components/MessageBubble.tsx:26 | the matcher at one position: three backticks, the maximal word run, a newline, then the nearest closing marker, or no match |
| MessageSegmenter.ScanWord | ai-coding-assistant/src/components/MessageBubble.tsx:26 | the greedy `(\w+)?` stops at the end of the run of word characters |
| MessageSegmenter.ScanFence | ai-coding-assistant/src/components/MessageBubble.tsx:26 | the lazy body stops at the first marker after the opening line, or there is none |
| MessageSegmenter.MatchAtComplete | ai-coding-assistant/src/components/MessageBubble.tsx:26 | at a given position the pattern has at most one match |
| MessageSegmenter.FindMatchLeftmost | ai-coding-assistant/src/components/MessageBubble.tsx:26-31 | no match starts before the one found, and when none is found there is no match at all from that point |
| MessageSegmenter.Reconstruct | ai-coding-assistant/src/components/MessageBubble.tsx:31-65 | the text parts and the code parts with their fences put back spell the message exactly, so the parts are in order and neither overlap nor leave gaps |
| MessageSegmenter.SegmentWellFormed | ai-coding-assistant/src/components/MessageBubble.tsx:33-67 | no text part is empty and no two text parts are adjacent; every tag is a word-character run; every body ends at the first closing marker; the empty message gives one empty text part |
| MessageSegmenter.CodeOfWellFormed | ai-coding-assistant/src/components/MessageBubble.tsx:49 | a code body holds neither a closing marker nor one straddling its end (the lazy quantifier) |
| MessageSegmenter.LabelOfMatch | ai-coding-assistant/src/components/MessageBubble.tsx:46 | the label of a code part is its captured tag, or "code" when the fence has none |
| MessageSegmenter.CodeOfSource | ai-coding-assistant/src/components/MessageBubble.tsx:55 | a match covers exactly the marker, tag, newline, body and marker, which is how far `lastIndex` moves |
| MessageSegmenter.OneTextIffNoMatch | ai-coding-assistant/src/components/MessageBubble.tsx:59-67 | the result is the single text part `content` exactly when the pattern matches nowhere |
| MessageSegmenter.NoBacktickIsOneText | ai-coding-assistant/src/components/MessageBubble.tsx:67 | a message without backticks is one text part |
| MessageSegmenter.LoneFenceIsText | ai-coding-assistant/src/components/MessageBubble.tsx:59-65 | a message whose only marker is unterminated is one text part |
| MessageSegmenter.UnclosedFenceOpensNothing | ai-coding-assistant/src/components/MessageBubble.tsx:26-56 | with any number of other markers, a marker that no later marker closes opens no code part: no code part starts at it |
| MessageSegmenter.SegmentPositions | ai-coding-assistant/src/components/MessageBubble.tsx:31-65 | with `o` the length of the text the earlier parts stand for, no match of the pattern starts inside a text part at `o`, and a code part at `o` is the part of a match that starts at `o`, so each text really is a stretch the loop skipped and each code part a match `exec` found |
| MessageSegmenter.OneBlock | ai-coding-assistant/src/components/MessageBubble.tsx:31-65 | one fenced block among backtick-free texts gives the text before (if any), the code part with its tag (if any) and body, then the text after (if any) |
| MessageSegmenter.BlockBetweenTexts | ai-coding-assistant/src/components/MessageBubble.tsx:33-65 | a tagged block between two non-empty texts gives exactly those three parts |
| MessageSegmenter.WholeBlock | ai-coding-assistant/src/components/MessageBubble.tsx:42-56 | a message that is one untagged block gives one code part without a language, and no text part |
| MessageSegmenter.ExamplePlain | ai-coding-assistant/src/components/MessageBubble.tsx:67 | "plain text" is one text part |
| MessageSegmenter.ExampleTagged | ai-coding-assistant/src/components/MessageBubble.tsx:31-65 | a `js` block between two texts: three parts, the body keeping its final newline |
| MessageSegmenter.ExampleUntagged | ai-coding-assistant/src/components/MessageBubble.tsx:46-49 | an untagged block: one code part without a language |
| MessageSegmenter.ExampleEmptyBody | ai-coding-assistant/src/components/MessageBubble.tsx:26 | "```\n```" is one code part with an empty body |
| MessageSegmenter.ExampleUnterminated | ai-coding-assistant/src/components/MessageBubble.tsx:59-65 | an opening fence that is never closed stays text |
| MessageSegmenter.ExampleTwoBlocks | ai-coding-assistant/src/components/MessageBubble.tsx:31-56 | "```\na```\n```\nb```" gives two code parts with the newline between them as text: the second block is found, not left in a text |
| MessageSegmenter.ExampleNoNewline | ai-coding-assistant/src/components/MessageBubble.tsx:26 | a tag not followed by a newline opens no block |
| Conversations.Store.constructor | ai-coding-assistant/src/components/AICodingAssistant.tsx:25-111 | the mount state: the five seed conversations, active id "1", the three seed messages, and the invariant |
| Conversations.SeedInvariant | ai-coding-assistant/src/components/AICodingAssistant.tsx:25-59 | the seed list has unique ids, and "1", the seed's active id, is its only active conversation |
| Conversations.SeedReplySegments | ai-coding-assistant/src/components/AICodingAssistant.tsx:76-110 | the third seed message renders as text, a `javascript` code part, then text |
| Conversations.Store.NewChat | ai-coding-assistant/src/components/AICodingAssistant.tsx:113-132 | the list becomes `WithNewChat`, the active id is the new id, the thread is the one greeting, and the invariant is kept when the id is fresh |
| Conversations.NewChatShape | ai-coding-assistant/src/components/AICodingAssistant.tsx:114-122 | the list grows by one: "New Chat" with the placeholder preview, active, in front; the earlier conversations keep their order and fields but are inactive |
| Conversations.NewChatKeepsInvariant | ai-coding-assistant/src/components/AICodingAssistant.tsx:114-123 | with an id not yet listed, the new list has unique ids and exactly the new id active |
| Conversations.Store.SelectConversation | ai-coding-assistant/src/components/AICodingAssistant.tsx:134-141 | the list becomes `Selected`, the active id becomes `x`, the thread stays, the invariant is kept for a listed `x`, and nothing is active for an unlisted one |
| Conversations.SelectKeepsDisplay | ai-coding-assistant/src/components/AICodingAssistant.tsx:135-140 | selecting changes only the highlight: ids, titles, previews, timestamps and order stay, and each is active exactly when its id is `x` |
| Conversations.SelectKeepsInvariant | ai-coding-assistant/src/components/AICodingAssistant.tsx:135-141 | selecting a listed id, with unique ids, makes it the only active conversation |
| Conversations.ReselectIsNoOp | ai-coding-assistant/src/components/AICodingAssistant.tsx:135-141 | selecting the active conversation again changes nothing |
| Conversations.SelectUnlisted | ai-coding-assistant/src/components/AICodingAssistant.tsx:135-141 | an unlisted id deactivates every conversation, which changes the list whenever one was active |
| Conversations.Store.SendMessage | ai-coding-assistant/src/components/AICodingAssistant.tsx:145-153 | one user message with the content verbatim is appended; the list and the active id stay; one reply is pending |
| Conversations.Store.DeliverReply | ai-coding-assistant/src/components/AICodingAssistant.tsx:156-170 | one assistant message with canned reply `i` and id one past the clock is appended to the thread on screen; the list and the active id stay |
| Conversations.ReplyAfterNewChat | ai-coding-assistant/src/components/AICodingAssistant.tsx:145-171 | a reply whose timer fires after a new chat lands in the new chat's thread, after the greeting |
| Decimal.IntToString | ai-coding-assistant/src/components/AICodingAssistant.tsx:115 | `toString()` of a clock reading: never empty, a minus sign exactly for a negative value, and the remaining characters are decimal digits whose value is the magnitude, with no leading zero ("0" alone for zero) |
| Decimal.IntToStringInjective | ai-coding-assistant/src/components/AICodingAssistant.tsx:115 | distinct clock readings give distinct ids |
| Decimal.NatToString | ai-coding-assistant/src/components/AppSidebar.tsx:20 | a count prints as at least one decimal digit, without leading zeros |
| Decimal.NatToStringRoundTrip | ai-coding-assistant/src/components/AppSidebar.tsx:20-21 | reading the printed digits back gives the count |
| ChatArea.ChatInput.constructor | ai-coding-assistant/src/components/ChatArea.tsx:16-17 | the box starts empty and not typing |
| ChatArea.ChatInput.Change | ai-coding-assistant/src/components/ChatArea.tsx:124 | typing sets the input and nothing else |
| ChatArea.ChatInput.HandleSend | ai-coding-assistant/src/components/ChatArea.tsx:29-38 | a blank input sends nothing and changes nothing; any other input is sent untrimmed, the box empties and `isTyping` is set |
| ChatArea.ChatInput.HandleKeyPress | ai-coding-assistant/src/components/ChatArea.tsx:40-45 | Enter without Shift prevents the default and runs `handleSend`; any other key does nothing |
| ChatArea.Send | ai-coding-assistant/src/components/ChatArea.tsx:29-34 | a send reaches the store exactly when the input is not blank, appending it as typed, emptying the box, setting `isTyping` and scheduling one reply; a refused send changes neither the thread, the box nor the pending replies; the list and the active id stay |
| ChatArea.Trim | ai-coding-assistant/src/components/ChatArea.tsx:30 | `trim` leaves an empty string or one with non-blank ends |
| ChatArea.TrimIsMiddle | ai-coding-assistant/src/components/ChatArea.tsx:30 | `trim` removes only whitespace at the ends and keeps the middle |
| ChatArea.BlankIffAllWhitespace | ai-coding-assistant/src/components/ChatArea.tsx:30 | `!input.trim()` holds exactly when the input is empty or all whitespace |
| ChatArea.TrimExample | ai-coding-assistant/src/components/ChatArea.tsx:30 | `" a b\n".trim()` is `"a b"` |
| ChatArea.SendDisabled | ai-coding-assistant/src/components/ChatArea.tsx:141 | the send button is disabled exactly when the input is empty or all whitespace |
| ChatArea.SendDisabledExamples | ai-coding-assistant/src/components/ChatArea.tsx:141 | the button is disabled for blanks and enabled by one visible character; it uses the same test as the `handleSend` guard |
| RelativeTime.ElapsedHoursIsFloor | ai-coding-assistant/src/components/AppSidebar.tsx:17 | the hour count is the floor of the difference, also when it is negative |
| RelativeTime.Classify | ai-coding-assistant/src/components/AppSidebar.tsx:17-22 | the four labels are chosen by disjoint, exhaustive millisecond ranges, and the hour and day counts bracket the elapsed time |
| RelativeTime.HoursBelow | ai-coding-assistant/src/components/AppSidebar.tsx:19-21 | fewer than n whole hours passed exactly when the difference is below n hours |
| RelativeTime.DaysBounds | ai-coding-assistant/src/components/AppSidebar.tsx:21 | between 24 and 167 hours, the day count is 1 to 6 and brackets the elapsed time |
| RelativeTime.ClassifiedDays | ai-coding-assistant/src/components/AppSidebar.tsx:21 | within a week the day count is `Math.floor(diffInHours / 24)` |
| RelativeTime.FormatTime | ai-coding-assistant/src/components/AppSidebar.tsx:15-23 | the text for each bucket of whole elapsed hours: "Just now" below one, "<h>h ago" below 24, "<d>d ago" with d = h / 24 in 1..6 below 168, else the locale date of the timestamp |
| RelativeTime.FutureIsJustNow | ai-coding-assistant/src/components/AppSidebar.tsx:19 | a future timestamp, or one under an hour old, reads "Just now" |
| RelativeTime.RenderInjective | ai-coding-assistant/src/components/AppSidebar.tsx:19-21 | a property of the label format: different relative ages never read the same |

## Left out

- Markup, CSS classes and icons are not modelled. This includes the sidebar's open flag, its toggle and close handlers, and the mobile overlay, all of which are presentation only.
- DOM effects are not modelled: scrolling to the newest message, resizing the text area, and copying a message to the clipboard (with its `copied` flag). These are browser calls.
- The clock, the random reply and locale formatting are parameters:
  - `Date.now()` and `new Date()` are integer milliseconds passed in;
  - `Math.random()` is the reply index `i`;
  - `toLocaleDateString` is the parameter `localeDate`;
  - `toLocaleTimeString` is not modelled.
- The reply timer is not modelled as a timer. Its body is the step `DeliverReply`, and the ghost counter `pendingReplies` counts the replies still due. The 1000 ms delay and the order in which several timers would fire are not modelled.
- MessageSegmenter.LoneFenceIsText: covers a message with a single marker only; with other markers present, UnclosedFenceOpensNothing states that an unclosed marker opens no code part.
- MessageSegmenter.UnclosedFenceOpensNothing: states that no code part starts at the marker, not which text part holds its characters; SegmentPositions and Reconstruct together place them.
- ChatArea.ChatInput.HandleSend: does not model the 1500 ms timer that clears `isTyping`, because it is a UI timer with no effect on the store.
- Conversations.Store.NewChat: reads the clock once. The source reads it separately for the conversation id, its timestamp, the greeting's id and the greeting's timestamp; with one reading they coincide.
- Conversations.Store.SendMessage: reads the clock once. The source reads `Date.now()` for the message id and `new Date()` for its timestamp separately.
- Conversations.Store.DeliverReply: reads the clock once. The source reads `Date.now() + 1` for the reply id and `new Date()` for its timestamp separately.
- Conversations.Store.constructor: reads the clock once. The source reads it once per seed conversation and seed message.
- Conversations.Store.NewChat: keeps the invariant only for an id that is not yet in the list. The source relies on `Date.now()` advancing and does not check.
- Conversations.Store.SelectConversation: keeps the invariant only for a listed id, which is what the sidebar passes; an unlisted id leaves nothing active, as the code does.
- RelativeTime.ElapsedHoursIsFloor: models `Math.floor` on the quotient of two doubles as exact integer floor division. The two agree for all realistic timestamps.
- The optional `isActive` of a conversation is a boolean; a missing field is `false`, as the sidebar treats it.
- Decimal.IntToString: models `toString` for safe integers only. From 1e21 up JavaScript prints numbers in exponent form, and beyond 2^53 a double loses integer precision; clock readings in milliseconds are far below both.
- Characters are Dafny `char`s, not UTF-16 code units. No part of the model depends on the difference.
- The Flask back end is not part of this model. The front end never calls it, and it is I/O around a machine-learning library.
