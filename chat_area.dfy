/**
 * The message box of the chat area: the text being typed, the "assistant is
 * typing" flag, and the guard that refuses to send a message that is empty
 * or only whitespace.  The send button is disabled by the same test.
 */
module ChatArea {
  import opened Wrappers
  import Conversations

  /**
   * The characters JavaScript's `String.prototype.trim` removes: the
   * WhiteSpace code points (tab, vertical tab, form feed, space, no-break
   * space, byte order mark and the space separators) and the line
   * terminators.
   */
  predicate IsWhitespace(c: char)
  {
    c == '\U{0009}' || c == '\U{000B}' || c == '\U{000C}' || c == ' ' || c == '\U{00A0}' || c == '\U{FEFF}'
    || c == '\U{1680}' || ('\U{2000}' <= c <= '\U{200A}') || c == '\U{202F}' || c == '\U{205F}' || c == '\U{3000}'
    || c == '\n' || c == '\r' || c == '\U{2028}' || c == '\U{2029}'
  }

  predicate AllWhitespace(s: string)
  {
    forall i :: 0 <= i < |s| ==> IsWhitespace(s[i])
  }

  /** Every character of `s` from `i` up to `j` is whitespace. */
  predicate BlankBetween(s: string, i: nat, j: nat)
    requires i <= j <= |s|
  {
    forall p :: i <= p < j ==> IsWhitespace(s[p])
  }

  /** Where the text of `s` starts when scanning from `i`: past whitespace only, at a non-blank or the end. */
  function TrimStartIndex(s: string, i: nat): (k: nat)
    requires i <= |s|
    ensures i <= k <= |s| && BlankBetween(s, i, k)
    ensures k == |s| || !IsWhitespace(s[k])
    decreases |s| - i
  {
    if i == |s| || !IsWhitespace(s[i]) then i else TrimStartIndex(s, i + 1)
  }

  /** Where the text of `s` before `j` ends, not going below `lo`: before whitespace only, after a non-blank or at `lo`. */
  function TrimEndIndex(s: string, lo: nat, j: nat): (e: nat)
    requires lo <= j <= |s|
    ensures lo <= e <= j && BlankBetween(s, e, j)
    ensures e == lo || !IsWhitespace(s[e - 1])
    decreases j
  {
    if j == lo || !IsWhitespace(s[j - 1]) then j else TrimEndIndex(s, lo, j - 1)
  }

  /** `s.trim()`: the slice of `s` left after removing whitespace at both ends. */
  function Trim(s: string): (t: string)
    ensures t == "" || (!IsWhitespace(t[0]) && !IsWhitespace(t[|t| - 1]))
  {
    var k := TrimStartIndex(s, 0);
    s[k..TrimEndIndex(s, k, |s|)]
  }

  /** What is removed at each end is whitespace, and what stays is the middle of `s`. */
  lemma TrimIsMiddle(s: string)
    ensures exists k: nat, e: nat ::
              && k <= e <= |s| && Trim(s) == s[k..e]
              && AllWhitespace(s[..k]) && AllWhitespace(s[e..])
  {
    var k := TrimStartIndex(s, 0);
    var e := TrimEndIndex(s, k, |s|);
    assert AllWhitespace(s[..k]) by {
      forall p | 0 <= p < k ensures IsWhitespace(s[..k][p]) {
        assert s[..k][p] == s[p];
      }
    }
    assert AllWhitespace(s[e..]) by {
      forall p | 0 <= p < |s| - e ensures IsWhitespace(s[e..][p]) {
        assert s[e..][p] == s[e + p];
      }
    }
  }

  /** `!s.trim()` holds exactly when `s` is empty or all whitespace. */
  lemma BlankIffAllWhitespace(s: string)
    ensures Trim(s) == "" <==> AllWhitespace(s)
  {
    var k := TrimStartIndex(s, 0);
    var e := TrimEndIndex(s, k, |s|);
    if Trim(s) == "" {
      // Nothing is kept, so the end scan stops where the start scan did and both blank runs meet.
      assert e == k;
      assert forall p :: 0 <= p < |s| ==> (p < k || k <= p) && IsWhitespace(s[p]);
    } else {
      assert k < |s| && !IsWhitespace(s[k]);
    }
  }

  /** The send button's `disabled` test, which is also `handleSend`'s guard. */
  predicate SendDisabled(input: string): (r: bool)
    ensures r <==> AllWhitespace(input)
  {
    BlankIffAllWhitespace(input);
    Trim(input) == ""
  }

  /** Worked example: blanks at both ends are dropped, inner ones kept. */
  lemma TrimExample()
    ensures Trim(" a b\n") == "a b"
  {
    var a := " a b\n";
    assert TrimStartIndex(a, 0) == TrimStartIndex(a, 1) == 1;
    assert TrimEndIndex(a, 1, 5) == TrimEndIndex(a, 1, 4) == 4;
    assert a[1..4] == "a b";
  }

  /** Worked example: a line of blanks disables sending, one visible character enables it. */
  lemma SendDisabledExamples()
    ensures SendDisabled(" \n\t")
    ensures !SendDisabled(" x ")
  {
    BlankIffAllWhitespace(" \n\t");
    BlankIffAllWhitespace(" x ");
    assert !IsWhitespace(" x "[1]);
  }

  /** The input box's two state cells. */
  class ChatInput {
    var input: string
    var isTyping: bool

    constructor ()
      ensures input == "" && !isTyping
    {
      input := "";
      isTyping := false;
    }

    /** The textarea's `onChange`: the input becomes the new value. */
    method Change(value: string)
      modifies this
      ensures input == value && isTyping == old(isTyping)
    {
      input := value;
    }

    /**
     * `handleSend`: a blank input is refused and nothing changes; otherwise
     * the input, untrimmed, is what `onSendMessage` receives, and the box
     * empties and shows the assistant typing.
     */
    method HandleSend() returns (sent: Option<string>)
      modifies this
      ensures sent.None? <==> AllWhitespace(old(input))
      ensures sent.None? ==> input == old(input) && isTyping == old(isTyping)
      ensures sent.Some? ==> sent.value == old(input) && input == "" && isTyping
    {
      BlankIffAllWhitespace(input);
      if SendDisabled(input) {
        return None;
      }
      sent := Some(input);
      input := "";
      isTyping := true;
    }

    /** `handleKeyPress`: Enter without Shift is taken over (its default prevented) and sends; any other key does nothing. */
    method HandleKeyPress(key: string, shiftKey: bool) returns (prevented: bool, sent: Option<string>)
      modifies this
      ensures prevented <==> key == "Enter" && !shiftKey
      ensures !prevented ==> sent.None? && input == old(input) && isTyping == old(isTyping)
      ensures prevented ==> (sent.None? <==> AllWhitespace(old(input)))
      ensures prevented && sent.None? ==> input == old(input) && isTyping == old(isTyping)
      ensures prevented && sent.Some? ==> sent.value == old(input) && input == "" && isTyping
    {
      prevented := key == "Enter" && !shiftKey;
      sent := None;
      if prevented {
        sent := HandleSend();
      }
    }
  }

  /**
   * The chat area wired to the store: a send from the box reaches
   * `handleSendMessage` unless the box refuses it, so a blank message never
   * enters the thread, and any other input enters it exactly as typed.
   */
  method Send(box: ChatInput, store: Conversations.Store, now: int) returns (sent: bool)
    modifies box, store
    ensures sent <==> !AllWhitespace(old(box.input))
    ensures sent ==> store.messages
                     == old(store.messages) + [Conversations.Message(Conversations.IdOf(now), old(box.input), Conversations.User, now)]
    ensures !sent ==> store.messages == old(store.messages) && box.input == old(box.input)
    ensures sent ==> box.input == "" && box.isTyping && store.pendingReplies == old(store.pendingReplies) + 1
    ensures !sent ==> box.isTyping == old(box.isTyping) && store.pendingReplies == old(store.pendingReplies)
    ensures store.conversations == old(store.conversations)
    ensures store.activeConversationId == old(store.activeConversationId)
  {
    var content := box.HandleSend();
    sent := content.Some?;
    if content.Some? {
      store.SendMessage(content.value, now);
    }
  }
}
