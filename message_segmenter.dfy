/**
 * The message segmenter of the chat bubble: a message's raw text is cut into
 * an ordered list of plain-text parts and fenced code parts.  The source finds
 * the fences with the global regular expression  ```(\w+)?\n([\s\S]*?)```
 * and loops over its matches; here the expression is written out as an
 * explicit scanner (MatchAt, FindMatch), the list it yields as a function
 * (Segment), and the source's loop as a method proved equal to that function.
 */
module MessageSegmenter {
  import opened Wrappers

  /** The opening and closing marker of a code fence. */
  const Fence: string := "```"

  /** The label shown above a code part whose fence has no tag. */
  const DefaultLabel: string := "code"

  /** A part of a rendered message. */
  datatype Seg = Text(s: string) | Code(lang: Option<string>, body: string)

  /** `\w` of a JavaScript regular expression without the `u` flag. */
  predicate IsWordChar(c: char)
  {
    ('A' <= c <= 'Z') || ('a' <= c <= 'z') || ('0' <= c <= '9') || c == '_'
  }

  /** A fence marker starts at position `p` of `s`. */
  predicate FenceAt(s: string, p: int)
  {
    0 <= p && p + 3 <= |s| && s[p] == '`' && s[p + 1] == '`' && s[p + 2] == '`'
  }

  /**
   * The positions of one match of the fence pattern: the opening marker at
   * `start`, the tag in [start + 3, tagEnd), the newline at `tagEnd`, the
   * body in [tagEnd + 1, bodyEnd) and the closing marker at `bodyEnd`.
   */
  datatype Match = Match(start: nat, tagEnd: nat, bodyEnd: nat)
  {
    /** The first position after the closing marker. */
    function End(): nat { bodyEnd + 3 }
  }

  /**
   * `m` is a match of  ```(\w+)?\n([\s\S]*?)```  that starts at `p`: the
   * marker, a run of word characters, a newline, and a body that runs up to
   * the FIRST following marker (the quantifier is lazy).
   */
  predicate IsMatchAt(s: string, p: int, m: Match)
  {
    && m.start == p
    && FenceAt(s, p)
    && p + 3 <= m.tagEnd < |s|
    && (forall i :: p + 3 <= i < m.tagEnd ==> IsWordChar(s[i]))
    && s[m.tagEnd] == '\n'
    && m.tagEnd + 1 <= m.bodyEnd
    && FenceAt(s, m.bodyEnd)
    && (forall k :: m.tagEnd + 1 <= k < m.bodyEnd ==> !FenceAt(s, k))
  }

  /** The end of the longest run of word characters starting at `q`. */
  function WordRunEnd(s: string, q: nat): (e: nat)
    requires q <= |s|
    ensures q <= e <= |s|
    ensures forall i :: q <= i < e ==> IsWordChar(s[i])
    ensures e == |s| || !IsWordChar(s[e])
    decreases |s| - q
  {
    if q < |s| && IsWordChar(s[q]) then WordRunEnd(s, q + 1) else q
  }

  /** The first fence marker at or after `q`, if there is one. */
  function FirstFenceFrom(s: string, q: nat): (r: Option<nat>)
    requires q <= |s|
    ensures r.Some? ==> q <= r.value && FenceAt(s, r.value)
    ensures r.Some? ==> forall k :: q <= k < r.value ==> !FenceAt(s, k)
    ensures r.None? ==> forall k :: q <= k ==> !FenceAt(s, k)
    decreases |s| - q
  {
    if |s| < q + 3 then None
    else if FenceAt(s, q) then Some(q)
    else FirstFenceFrom(s, q + 1)
  }

  /**
   * The match of the pattern at position `p`, if any.  The greedy `(\w+)?`
   * can only be followed by the newline when it takes the whole run of word
   * characters, so backtracking into the tag never finds another match: the
   * match at `p` is unique.
   */
  function MatchAt(s: string, p: nat): (r: Option<Match>)
    requires p <= |s|
    ensures r.Some? ==> IsMatchAt(s, p, r.value)
  {
    if !FenceAt(s, p) then None
    else
      var e := WordRunEnd(s, p + 3);
      if e < |s| && s[e] == '\n' then
        match FirstFenceFrom(s, e + 1)
        case None => None
        case Some(k) => Some(Match(p, e, k))
      else None
  }

  /** What one `exec` of the global expression returns when its search starts at `from`: the leftmost match. */
  function FindMatch(s: string, from: nat): (r: Option<Match>)
    requires from <= |s|
    ensures r.Some? ==> from <= r.value.start && IsMatchAt(s, r.value.start, r.value)
    decreases |s| - from
  {
    match MatchAt(s, from)
    case Some(m) => Some(m)
    case None => if from == |s| then None else FindMatch(s, from + 1)
  }

  /**
   * The pattern has at most one match at a position: a match at `p` is the
   * one MatchAt finds.
   */
  lemma MatchAtComplete(s: string, p: nat, m: Match)
    requires p <= |s| && IsMatchAt(s, p, m)
    ensures MatchAt(s, p) == Some(m)
  {
  }

  /** FindMatch is the leftmost match at or after `from`, and finds one whenever there is one. */
  lemma {:induction false} FindMatchLeftmost(s: string, from: nat)
    requires from <= |s|
    ensures FindMatch(s, from).Some? ==>
              forall p, m :: from <= p < FindMatch(s, from).value.start ==> !IsMatchAt(s, p, m)
    ensures FindMatch(s, from).None? ==> forall p, m :: from <= p ==> !IsMatchAt(s, p, m)
    decreases |s| - from
  {
    if MatchAt(s, from).None? {
      forall m | IsMatchAt(s, from, m) ensures false {
        MatchAtComplete(s, from, m);
      }
      if from < |s| {
        FindMatchLeftmost(s, from + 1);
      }
    }
  }

  /** The code part of a match: the captured tag, when there is one, and the captured body. */
  function CodeOf(s: string, m: Match): Seg
    requires IsMatchAt(s, m.start, m)
  {
    Code(if m.tagEnd == m.start + 3 then None else Some(s[m.start + 3..m.tagEnd]),
         s[m.tagEnd + 1..m.bodyEnd])
  }

  /** The captured groups of a match, as the loop reads them off. */
  lemma CodeOfFields(s: string, m: Match)
    requires IsMatchAt(s, m.start, m)
    ensures CodeOf(s, m).lang == (if m.tagEnd == m.start + 3 then None else Some(s[m.start + 3..m.tagEnd]))
    ensures CodeOf(s, m).body == s[m.tagEnd + 1..m.bodyEnd]
  {
  }

  /** The parts of `s[from..]`: text before each match when there is any, the match's code part, and the text after the last match. */
  function PartsFrom(s: string, from: nat): seq<Seg>
    requires from <= |s|
    decreases |s| - from
  {
    match FindMatch(s, from)
    case None => if from < |s| then [Text(s[from..])] else []
    case Some(m) =>
      (if from < m.start then [Text(s[from..m.start])] else [])
      + [CodeOf(s, m)]
      + PartsFrom(s, m.End())
  }

  /** The parts of a message; a message that yields none is shown as one text part. */
  function Segment(content: string): seq<Seg>
  {
    var parts := PartsFrom(content, 0);
    if |parts| > 0 then parts else [Text(content)]
  }

  /** The label above a code part. */
  function Label(lang: Option<string>): string
  {
    lang.GetOr(DefaultLabel)
  }

  /** A match's label is its captured tag, or "code" when the fence has none. */
  lemma LabelOfMatch(s: string, m: Match)
    requires IsMatchAt(s, m.start, m)
    ensures m.tagEnd == m.start + 3 ==> Label(CodeOf(s, m).lang) == DefaultLabel
    ensures m.tagEnd > m.start + 3 ==>
              Label(CodeOf(s, m).lang) == s[m.start + 3..m.tagEnd] && IsTag(Label(CodeOf(s, m).lang))
  {
    CodeOfFields(s, m);
  }

  /** One step of PartsFrom: the parts up to and including the match found from `from`. */
  lemma PartsFromMatch(s: string, from: nat, m: Match)
    requires from <= |s| && FindMatch(s, from) == Some(m)
    ensures m.End() <= |s|
    ensures PartsFrom(s, from)
         == (if from < m.start then [Text(s[from..m.start])] else []) + [CodeOf(s, m)] + PartsFrom(s, m.End())
  {
  }

  /** The last step of PartsFrom: no match remains, so what is left is one text part, if anything. */
  lemma PartsFromNoMatch(s: string, from: nat)
    requires from <= |s| && FindMatch(s, from).None?
    ensures PartsFrom(s, from) == if from < |s| then [Text(s[from..])] else []
  {
  }

  /** The loop's bookkeeping: moving one step's parts from the pending side to the done side. */
  lemma Regroup<T>(done: seq<T>, lead: seq<T>, x: T, rest: seq<T>)
    ensures done + lead + [x] + rest == done + (lead + [x] + rest)
  {
  }


  // ---------------------------------------------------------------------
  // Properties of the parts
  // ---------------------------------------------------------------------

  /** The text a part stands for in the message: a text part itself, a code part together with its fence. */
  function SourceOf(seg: Seg): string
  {
    match seg
    case Text(t) => t
    case Code(lang, body) => Fence + lang.GetOr("") + "\n" + body + Fence
  }

  /** The texts of the parts, in order. */
  function Concat(parts: seq<Seg>): string
  {
    if parts == [] then "" else SourceOf(parts[0]) + Concat(parts[1..])
  }

  lemma {:induction false} ConcatAppend(a: seq<Seg>, b: seq<Seg>)
    ensures Concat(a + b) == Concat(a) + Concat(b)
    decreases |a|
  {
    if a == [] {
      assert a + b == b;
    } else {
      assert (a + b)[1..] == a[1..] + b;
      ConcatAppend(a[1..], b);
    }
  }

  /** A code part stands for exactly the characters its match covers. */
  lemma CodeOfSource(s: string, m: Match)
    requires IsMatchAt(s, m.start, m)
    ensures SourceOf(CodeOf(s, m)) == s[m.start..m.End()]
  {
    CodeOfFields(s, m);
    var c := CodeOf(s, m);
    assert c.lang.GetOr("") == s[m.start + 3..m.tagEnd];
    FenceSlice(s, m.start);
    FenceSlice(s, m.bodyEnd);
    assert s[m.tagEnd..m.tagEnd + 1] == "\n";
    FramedSlice(s, m.start, m.tagEnd, m.bodyEnd, c.lang.GetOr(""), c.body);
  }

  /** A slice made of a fence, a tag, a newline, a body and a fence, in that order. */
  lemma FramedSlice(s: string, a: nat, t: nat, b: nat, tag: string, body: string)
    requires a + 3 <= t < b && b + 3 <= |s|
    requires s[a..a + 3] == Fence && s[a + 3..t] == tag && s[t..t + 1] == "\n"
    requires s[t + 1..b] == body && s[b..b + 3] == Fence
    ensures s[a..b + 3] == Fence + tag + "\n" + body + Fence
  {
    SliceSplit5(s, a, a + 3, t, t + 1, b, b + 3);
  }

  lemma FenceSlice(s: string, p: int)
    requires FenceAt(s, p)
    ensures s[p..p + 3] == Fence
  {
  }

  /** A slice cut in five at four positions. */
  lemma SliceSplit5<T>(s: seq<T>, i0: nat, i1: nat, i2: nat, i3: nat, i4: nat, i5: nat)
    requires i0 <= i1 <= i2 <= i3 <= i4 <= i5 <= |s|
    ensures s[i0..i5] == s[i0..i1] + s[i1..i2] + s[i2..i3] + s[i3..i4] + s[i4..i5]
  {
    SliceCut(s, i0, i4, i5);
    SliceCut(s, i0, i3, i4);
    SliceCut(s, i0, i2, i3);
    SliceCut(s, i0, i1, i2);
  }

  lemma SliceCut<T>(s: seq<T>, a: nat, b: nat, c: nat)
    requires a <= b <= c <= |s|
    ensures s[a..c] == s[a..b] + s[b..c]
  {
  }

  lemma {:induction false} PartsFromReconstruct(s: string, from: nat)
    requires from <= |s|
    ensures Concat(PartsFrom(s, from)) == s[from..]
    decreases |s| - from
  {
    match FindMatch(s, from)
    case None =>
      PartsFromNoMatch(s, from);
    case Some(m) =>
      PartsFromMatch(s, from, m);
      PartsFromReconstruct(s, m.End());
      ReconstructStep(s, from, m, PartsFrom(s, m.End()));
  }

  /** One step of the reconstruction: the text before a match, the match, and what follows. */
  lemma ReconstructStep(s: string, from: nat, m: Match, rest: seq<Seg>)
    requires from <= m.start && IsMatchAt(s, m.start, m) && m.End() <= |s|
    requires Concat(rest) == s[m.End()..]
    ensures Concat((if from < m.start then [Text(s[from..m.start])] else []) + [CodeOf(s, m)] + rest) == s[from..]
  {
    LeadSource(s, from, m.start);
    CodeOfSource(s, m);
    ConcatThree(if from < m.start then [Text(s[from..m.start])] else [], CodeOf(s, m), rest);
    SliceSplit(s, from, m.start, m.End());
  }

  lemma LeadSource(s: string, from: nat, to: nat)
    requires from <= to <= |s|
    ensures Concat(if from < to then [Text(s[from..to])] else []) == s[from..to]
  {
    if from < to {
      assert Concat([Text(s[from..to])]) == s[from..to] + Concat([]);
    }
  }

  lemma ConcatThree(a: seq<Seg>, x: Seg, b: seq<Seg>)
    ensures Concat(a + [x] + b) == Concat(a) + SourceOf(x) + Concat(b)
  {
    ConcatAppend(a + [x], b);
    ConcatAppend(a, [x]);
    assert Concat([x]) == SourceOf(x);
  }

  /** A suffix cut in three at two positions. */
  lemma SliceSplit<T>(s: seq<T>, a: nat, b: nat, c: nat)
    requires a <= b <= c <= |s|
    ensures s[a..] == s[a..b] + s[b..c] + s[c..]
  {
  }

  /**
   * Reconstruction: the parts, each code part with its fence put back, spell
   * the message exactly, so the parts are in order, do not overlap and leave
   * nothing out.
   */
  lemma Reconstruct(content: string)
    ensures Concat(Segment(content)) == content
  {
    PartsFromReconstruct(content, 0);
  }

  /** A non-empty run of word characters: what the tag group captures. */
  predicate IsTag(t: string)
  {
    |t| > 0 && forall i :: 0 <= i < |t| ==> IsWordChar(t[i])
  }

  /**
   * The closing fence after `body` is the first marker after the opening
   * line: no marker starts inside `body`, nor straddles its end.
   */
  predicate ClosesAtFirstFence(body: string)
  {
    forall j :: 0 <= j < |body| ==> !FenceAt(body + Fence, j)
  }

  /** A text part is not empty; a code part has a word-character tag if any, and a lazily matched body. */
  predicate WellFormedPart(seg: Seg)
  {
    match seg
    case Text(t) => t != ""
    case Code(lang, body) => (lang.Some? ==> IsTag(lang.value)) && ClosesAtFirstFence(body)
  }

  /** Every part is well formed and no two text parts are adjacent. */
  predicate WellFormed(parts: seq<Seg>)
  {
    && (forall i :: 0 <= i < |parts| ==> WellFormedPart(parts[i]))
    && (forall i :: 0 < i < |parts| ==> parts[i - 1].Code? || parts[i].Code?)
  }

  lemma CodeOfWellFormed(s: string, m: Match)
    requires IsMatchAt(s, m.start, m)
    ensures WellFormedPart(CodeOf(s, m))
  {
    var body := s[m.tagEnd + 1..m.bodyEnd];
    assert body + Fence == s[m.tagEnd + 1..m.End()];
    forall j | 0 <= j < |body| ensures !FenceAt(body + Fence, j) {
      assert !FenceAt(s, m.tagEnd + 1 + j);
    }
  }

  lemma {:induction false} PartsFromWellFormed(s: string, from: nat)
    requires from <= |s|
    ensures WellFormed(PartsFrom(s, from))
    decreases |s| - from
  {
    match FindMatch(s, from)
    case None =>
      PartsFromNoMatch(s, from);
    case Some(m) =>
      PartsFromMatch(s, from, m);
      PartsFromWellFormed(s, m.End());
      CodeOfWellFormed(s, m);
  }

  /**
   * A message with any characters yields well-formed parts: no empty text
   * part, even for a fence at the start, adjacent fences or a fence at the
   * end; the empty message yields one empty text part.
   */
  lemma SegmentWellFormed(content: string)
    ensures content == "" ==> Segment(content) == [Text("")]
    ensures content != "" ==> WellFormed(Segment(content))
  {
    PartsFromReconstruct(content, 0);
    PartsFromWellFormed(content, 0);
  }

  /** The message is one text part exactly when the pattern matches nowhere in it. */
  lemma OneTextIffNoMatch(content: string)
    ensures (forall p, m :: !IsMatchAt(content, p, m)) <==> Segment(content) == [Text(content)]
  {
    FindMatchLeftmost(content, 0);
    match FindMatch(content, 0)
    case None =>
      PartsFromNoMatch(content, 0);
    case Some(m) =>
      PartsFromMatch(content, 0, m);
      var lead := if 0 < m.start then [Text(content[..m.start])] else [];
      assert Segment(content)[|lead|] == CodeOf(content, m);
  }

  /** A message without backticks is one text part. */
  lemma NoBacktickIsOneText(content: string)
    requires '`' !in content
    ensures Segment(content) == [Text(content)]
  {
    assert forall p, m :: !IsMatchAt(content, p, m) by {
      forall p, m ensures !IsMatchAt(content, p, m) {
        if 0 <= p < |content| {
          assert content[p] != '`';
        }
      }
    }
    OneTextIffNoMatch(content);
  }

  /** An unterminated fence: when the message holds a single marker, its characters stay in one text part. */
  lemma LoneFenceIsText(content: string, p: int)
    requires FenceAt(content, p)
    requires forall q :: FenceAt(content, q) ==> q == p
    ensures Segment(content) == [Text(content)]
  {
    assert forall q, m :: !IsMatchAt(content, q, m) by {
      forall q, m ensures !IsMatchAt(content, q, m) {
        if q == p && m.start == p && p + 3 <= m.tagEnd && m.tagEnd + 1 <= m.bodyEnd {
          assert m.bodyEnd != p;
        }
      }
    }
    OneTextIffNoMatch(content);
  }

  // ---------------------------------------------------------------------
  // Where each part sits in the message
  // ---------------------------------------------------------------------

  /**
   * Part `seg` sits at position `o` of `s`: no match of the pattern starts
   * inside a text part, and a code part is the part of a match that starts
   * at `o`.
   */
  ghost predicate PartAt(s: string, o: nat, seg: Seg)
  {
    match seg
    case Text(t) => o + |t| <= |s| && forall p, m :: o <= p < o + |t| ==> !IsMatchAt(s, p, m)
    case Code(_, _) => exists m :: IsMatchAt(s, o, m) && seg == CodeOf(s, m)
  }

  /** Where part `i` starts: the length of the text the parts before it stand for. */
  function Offset(parts: seq<Seg>, i: nat): nat
    requires i <= |parts|
  {
    |Concat(parts[..i])|
  }

  /** Laid out one after another from position `o`, every part passes `ok` where it starts. */
  ghost predicate LaidOut(ok: (nat, Seg) -> bool, o: nat, parts: seq<Seg>)
    decreases |parts|
  {
    parts == [] || (ok(o, parts[0]) && LaidOut(ok, o + |SourceOf(parts[0])|, parts[1..]))
  }

  lemma LaidOutCons(ok: (nat, Seg) -> bool, o: nat, x: Seg, rest: seq<Seg>)
    requires ok(o, x) && LaidOut(ok, o + |SourceOf(x)|, rest)
    ensures LaidOut(ok, o, [x] + rest)
  {
    assert ([x] + rest)[0] == x && ([x] + rest)[1..] == rest;
  }

  lemma OffsetCons(parts: seq<Seg>, i: nat)
    requires 0 < i <= |parts|
    ensures Offset(parts, i) == |SourceOf(parts[0])| + Offset(parts[1..], i - 1)
  {
    assert parts[..i][0] == parts[0] && parts[..i][1..] == parts[1..][..i - 1];
  }

  /** LaidOut, part by part: part `i` passes `ok` at its offset. */
  lemma {:induction false} LaidOutIndexed(ok: (nat, Seg) -> bool, o: nat, parts: seq<Seg>, i: nat)
    requires LaidOut(ok, o, parts) && i < |parts|
    ensures ok(o + Offset(parts, i), parts[i])
    decreases i
  {
    if i == 0 {
      assert parts[..0] == [];
    } else {
      LaidOutIndexed(ok, o + |SourceOf(parts[0])|, parts[1..], i - 1);
      OffsetCons(parts, i);
      assert parts[1..][i - 1] == parts[i];
    }
  }

  /** PartAt as the test of LaidOut. */
  ghost function PartOf(s: string): (nat, Seg) -> bool
  {
    (o: nat, seg: Seg) => PartAt(s, o, seg)
  }

  /** A match's code part sits at the match's start and stands for the characters up to its end. */
  lemma CodeAt(s: string, m: Match)
    requires IsMatchAt(s, m.start, m)
    ensures m.start + |SourceOf(CodeOf(s, m))| == m.End() <= |s|
    ensures PartOf(s)(m.start, CodeOf(s, m))
  {
    CodeOfSource(s, m);
    assert PartAt(s, m.start, CodeOf(s, m));
  }

  /** A stretch of `s` from `o` where the search finds no match is a text part there. */
  lemma TextAt(s: string, o: nat, q: nat)
    requires o <= q <= |s|
    requires FindMatch(s, o).None? || q <= FindMatch(s, o).value.start
    ensures PartOf(s)(o, Text(s[o..q]))
  {
    FindMatchLeftmost(s, o);
    assert PartAt(s, o, Text(s[o..q]));
  }

  lemma LaidOutText(s: string, o: nat, q: nat, rest: seq<Seg>)
    requires o <= q <= |s| && LaidOut(PartOf(s), q, rest)
    requires FindMatch(s, o).None? || q <= FindMatch(s, o).value.start
    ensures LaidOut(PartOf(s), o, [Text(s[o..q])] + rest)
  {
    TextAt(s, o, q);
    LaidOutCons(PartOf(s), o, Text(s[o..q]), rest);
  }

  lemma LaidOutCode(s: string, m: Match, rest: seq<Seg>)
    requires IsMatchAt(s, m.start, m) && LaidOut(PartOf(s), m.End(), rest)
    ensures LaidOut(PartOf(s), m.start, [CodeOf(s, m)] + rest)
  {
    CodeAt(s, m);
    LaidOutCons(PartOf(s), m.start, CodeOf(s, m), rest);
  }

  /** The text before a match, followed by the match's code part. */
  lemma LaidOutLead(s: string, from: nat, m: Match, rest: seq<Seg>)
    requires from <= |s| && FindMatch(s, from) == Some(m) && from < m.start
    requires LaidOut(PartOf(s), m.start, [CodeOf(s, m)] + rest)
    ensures LaidOut(PartOf(s), from, [Text(s[from..m.start])] + [CodeOf(s, m)] + rest)
  {
    LaidOutText(s, from, m.start, [CodeOf(s, m)] + rest);
    assert [Text(s[from..m.start])] + [CodeOf(s, m)] + rest == [Text(s[from..m.start])] + ([CodeOf(s, m)] + rest);
  }

  /** The parts PartsFrom finds sit where they come from. */
  lemma {:induction false} PartsFromLaidOut(s: string, from: nat)
    requires from <= |s|
    ensures LaidOut(PartOf(s), from, PartsFrom(s, from))
    decreases |s| - from
  {
    match FindMatch(s, from)
    case None =>
      PartsFromNoMatch(s, from);
      if from < |s| {
        assert s[from..|s|] == s[from..];
        LaidOutText(s, from, |s|, []);
        assert [Text(s[from..])] + [] == [Text(s[from..])];
      }
    case Some(m) =>
      var rest := PartsFrom(s, m.End());
      PartsFromMatch(s, from, m);
      PartsFromLaidOut(s, m.End());
      LaidOutCode(s, m, rest);
      if from < m.start {
        LaidOutLead(s, from, m, rest);
      } else {
        assert [] + [CodeOf(s, m)] + rest == [CodeOf(s, m)] + rest;
      }
  }

  /**
   * Where each part of a message sits: with `o` the length of the text the
   * parts before it stand for, no match of the pattern starts inside a text
   * part, so no match is left in a text part, and a code part is the part of
   * a match that starts at `o`.
   */
  lemma SegmentPositions(content: string)
    ensures forall i :: 0 <= i < |Segment(content)| ==> PartAt(content, Offset(Segment(content), i), Segment(content)[i])
  {
    PartsFromLaidOut(content, 0);
    if PartsFrom(content, 0) == [] {
      PartsFromReconstruct(content, 0);
      assert Segment(content)[..0] == [];
    } else {
      forall i | 0 <= i < |Segment(content)| ensures PartAt(content, Offset(Segment(content), i), Segment(content)[i]) {
        LaidOutIndexed(PartOf(content), 0, Segment(content), i);
      }
    }
  }

  /**
   * An unclosed marker, one with no marker starting four or more characters
   * after it, opens no code part: no code part of the message starts there.
   */
  lemma UnclosedFenceOpensNothing(content: string, p: nat)
    requires FenceAt(content, p)
    requires forall k :: p + 4 <= k ==> !FenceAt(content, k)
    ensures forall i :: 0 <= i < |Segment(content)| && Segment(content)[i].Code? ==> Offset(Segment(content), i) != p
  {
    SegmentPositions(content);
  }

  /** A message made of one fenced block between two texts. */
  function Block(pre: string, tag: string, body: string, post: string): string
  {
    pre + (Fence + (tag + ("\n" + (body + (Fence + post)))))
  }

  lemma BlockLayout(pre: string, tag: string, body: string, post: string)
    requires '`' !in body
    requires forall i :: 0 <= i < |tag| ==> IsWordChar(tag[i])
    ensures var s, a := Block(pre, tag, body, post), |pre|;
            IsMatchAt(s, a, Match(a, a + 3 + |tag|, a + 4 + |tag| + |body|))
    ensures var s, a := Block(pre, tag, body, post), |pre|;
            && s[..a] == pre
            && s[a + 3..a + 3 + |tag|] == tag
            && s[a + 4 + |tag|..a + 4 + |tag| + |body|] == body
            && s[a + 7 + |tag| + |body|..] == post
  {
    var rest := Fence + (tag + ("\n" + (body + (Fence + post))));
    PrefixThen(pre, rest);
    LayoutAfter(pre + rest, |pre|, tag, body, post);
  }

  /** The match read off a suffix of `s` that is one fenced block followed by `post`. */
  lemma LayoutAfter(s: string, a: nat, tag: string, body: string, post: string)
    requires a <= |s| && s[a..] == Fence + (tag + ("\n" + (body + (Fence + post))))
    requires '`' !in body
    requires forall i :: 0 <= i < |tag| ==> IsWordChar(tag[i])
    ensures IsMatchAt(s, a, Match(a, a + 3 + |tag|, a + 4 + |tag| + |body|))
    ensures s[a + 3..a + 3 + |tag|] == tag
    ensures s[a + 4 + |tag|..a + 4 + |tag| + |body|] == body
    ensures s[a + 7 + |tag| + |body|..] == post
  {
    LayoutSlices(s, a, tag, body, post);
    MatchFromSlices(s, a, tag, body);
  }

  /** The pieces of a suffix made of a fenced block and then `post`, at their positions in `s`. */
  lemma LayoutSlices(s: string, a: nat, tag: string, body: string, post: string)
    requires a <= |s| && s[a..] == Fence + (tag + ("\n" + (body + (Fence + post))))
    ensures FenceAt(s, a)
    ensures s[a + 3..a + 3 + |tag|] == tag
    ensures a + 3 + |tag| < |s| && s[a + 3 + |tag|] == '\n'
    ensures s[a + 4 + |tag|..a + 4 + |tag| + |body|] == body
    ensures FenceAt(s, a + 4 + |tag| + |body|)
    ensures s[a + 7 + |tag| + |body|..] == post
  {
    LayoutHead(s, a, tag, body + (Fence + post));
    LayoutTail(s, a + 4 + |tag|, body, post);
  }

  /** An opening marker, a tag and a newline at `a`, followed by `rest`. */
  lemma LayoutHead(s: string, a: nat, tag: string, rest: string)
    requires a <= |s| && s[a..] == Fence + (tag + ("\n" + rest))
    ensures FenceAt(s, a)
    ensures s[a + 3..a + 3 + |tag|] == tag
    ensures a + 3 + |tag| < |s| && s[a + 3 + |tag|] == '\n'
    ensures s[a + 4 + |tag|..] == rest
  {
    var t := a + 3 + |tag|;
    FenceThen(s, a, tag + ("\n" + rest));
    PieceThen(s, a + 3, tag, "\n" + rest);
    PieceThen(s, t, "\n", rest);
    assert s[t] == s[t..t + 1][0];
  }

  /** A body and a closing marker at `b`, followed by `post`. */
  lemma LayoutTail(s: string, b: nat, body: string, post: string)
    requires b <= |s| && s[b..] == body + (Fence + post)
    ensures s[b..b + |body|] == body
    ensures FenceAt(s, b + |body|)
    ensures s[b + |body| + 3..] == post
  {
    PieceThen(s, b, body, Fence + post);
    FenceThen(s, b + |body|, post);
  }

  /** The match condition from the pieces' positions. */
  lemma MatchFromSlices(s: string, a: nat, tag: string, body: string)
    requires FenceAt(s, a) && FenceAt(s, a + 4 + |tag| + |body|)
    requires s[a + 3..a + 3 + |tag|] == tag
    requires s[a + 3 + |tag|] == '\n'
    requires s[a + 4 + |tag|..a + 4 + |tag| + |body|] == body
    requires '`' !in body
    requires forall i :: 0 <= i < |tag| ==> IsWordChar(tag[i])
    ensures IsMatchAt(s, a, Match(a, a + 3 + |tag|, a + 4 + |tag| + |body|))
  {
    WordsWithin(s, a + 3, tag);
    NoFenceWithin(s, a + 4 + |tag|, body);
  }

  lemma PrefixThen(x: string, y: string)
    ensures (x + y)[..|x|] == x && (x + y)[|x|..] == y
  {
  }

  /** Where the rest of `s` from `p` is a marker and then `rest`. */
  lemma FenceThen(s: string, p: nat, rest: string)
    requires p <= |s| && s[p..] == Fence + rest
    ensures FenceAt(s, p) && s[p + 3..] == rest
  {
    assert s[p] == s[p..][0] && s[p + 1] == s[p..][1] && s[p + 2] == s[p..][2];
  }

  /** Where the rest of `s` from `p` is `x` and then `rest`. */
  lemma PieceThen(s: string, p: nat, x: string, rest: string)
    requires p <= |s| && s[p..] == x + rest
    ensures p + |x| <= |s| && s[p..p + |x|] == x && s[p + |x|..] == rest
  {
  }

  /** A slice without backticks holds no marker. */
  lemma NoFenceWithin(s: string, p: nat, x: string)
    requires p + |x| <= |s| && s[p..p + |x|] == x && '`' !in x
    ensures forall k :: p <= k < p + |x| ==> !FenceAt(s, k)
  {
    forall k | p <= k < p + |x| ensures s[k] != '`' {
      assert s[k] == x[k - p];
    }
  }

  /** A slice of word characters. */
  lemma WordsWithin(s: string, p: nat, x: string)
    requires p + |x| <= |s| && s[p..p + |x|] == x
    requires forall i :: 0 <= i < |x| ==> IsWordChar(x[i])
    ensures forall i :: p <= i < p + |x| ==> IsWordChar(s[i])
  {
    forall i | p <= i < p + |x| ensures IsWordChar(s[i]) {
      assert s[i] == x[i - p];
    }
  }

  /** Where no backtick occurs the pattern cannot match. */
  lemma NoMatchWithoutBacktick(s: string, lo: nat, hi: nat)
    requires lo <= hi <= |s|
    requires '`' !in s[lo..hi]
    ensures forall p, m :: lo <= p < hi ==> !IsMatchAt(s, p, m)
  {
    forall p, m | lo <= p < hi ensures !IsMatchAt(s, p, m) {
      assert s[p] == s[lo..hi][p - lo];
    }
  }

  /**
   * A message with one fenced block and no other backticks yields the text
   * before the fence (if any), the code part, and the text after it (if any).
   */
  lemma OneBlock(pre: string, tag: string, body: string, post: string)
    requires '`' !in pre && '`' !in body && '`' !in post
    requires forall i :: 0 <= i < |tag| ==> IsWordChar(tag[i])
    ensures Segment(Block(pre, tag, body, post))
         == (if pre == "" then [] else [Text(pre)])
            + [Code(if tag == "" then None else Some(tag), body)]
            + (if post == "" then [] else [Text(post)])
  {
    BlockLayout(pre, tag, body, post);
    SegmentOfLayout(Block(pre, tag, body, post), pre, tag, body, post);
  }

  /** OneBlock for any message laid out as `pre`, a fenced block, and `post`. */
  lemma SegmentOfLayout(s: string, pre: string, tag: string, body: string, post: string)
    requires '`' !in pre && '`' !in post
    requires var a := |pre|;
             && IsMatchAt(s, a, Match(a, a + 3 + |tag|, a + 4 + |tag| + |body|))
             && s[..a] == pre
             && s[a + 3..a + 3 + |tag|] == tag
             && s[a + 4 + |tag|..a + 4 + |tag| + |body|] == body
             && s[a + 7 + |tag| + |body|..] == post
    ensures Segment(s)
         == (if pre == "" then [] else [Text(pre)])
            + [Code(if tag == "" then None else Some(tag), body)]
            + (if post == "" then [] else [Text(post)])
  {
    var a := |pre|;
    var m := Match(a, a + 3 + |tag|, a + 4 + |tag| + |body|);
    OnlyMatch(s, m);
    SegmentOfOnlyMatch(s, m);
    CodeOfLayout(s, m, tag, body);
    PartsOfLayout(s, m, pre, CodeOf(s, m), post);
  }

  /** The code part of a match whose tag and body are known. */
  lemma CodeOfLayout(s: string, m: Match, tag: string, body: string)
    requires IsMatchAt(s, m.start, m) && m.tagEnd == m.start + 3 + |tag|
    requires s[m.start + 3..m.tagEnd] == tag && s[m.tagEnd + 1..m.bodyEnd] == body
    ensures CodeOf(s, m) == Code(if tag == "" then None else Some(tag), body)
  {
    CodeOfFields(s, m);
  }

  /** The three-part form of a single match, in terms of the text around it. */
  lemma PartsOfLayout(s: string, m: Match, pre: string, code: Seg, post: string)
    requires m.start <= m.End() <= |s| && s[..m.start] == pre && s[m.End()..] == post
    ensures (if 0 < m.start then [Text(s[..m.start])] else []) + [code]
            + (if m.End() < |s| then [Text(s[m.End()..])] else [])
         == (if pre == "" then [] else [Text(pre)]) + [code] + (if post == "" then [] else [Text(post)])
  {
  }

  /** A match with no backtick before or after it is the first match, and nothing follows it. */
  lemma OnlyMatch(s: string, m: Match)
    requires m.start <= |s| && IsMatchAt(s, m.start, m)
    requires '`' !in s[..m.start] && '`' !in s[m.End()..]
    ensures FindMatch(s, 0) == Some(m)
    ensures FindMatch(s, m.End()).None?
  {
    FirstMatchIs(s, m);
    assert s[m.End()..] == s[m.End()..|s|];
    NoMatchWithoutBacktick(s, m.End(), |s|);
    FindMatchLeftmost(s, m.End());
  }

  /** A match with no backtick before it is the first match. */
  lemma FirstMatchIs(s: string, m: Match)
    requires m.start <= |s| && IsMatchAt(s, m.start, m)
    requires '`' !in s[..m.start]
    ensures FindMatch(s, 0) == Some(m)
  {
    assert s[..m.start] == s[0..m.start];
    NoMatchWithoutBacktick(s, 0, m.start);
    FindMatchLeftmost(s, 0);
    var f := FindMatch(s, 0);
    if f.Some? && f.value.start == m.start {
      MatchAtComplete(s, m.start, m);
      MatchAtComplete(s, m.start, f.value);
    }
  }

  /** The parts of a message with exactly one match. */
  lemma SegmentOfOnlyMatch(s: string, m: Match)
    requires FindMatch(s, 0) == Some(m) && FindMatch(s, m.End()).None?
    ensures m.End() <= |s|
    ensures Segment(s)
         == (if 0 < m.start then [Text(s[..m.start])] else [])
            + [CodeOf(s, m)]
            + (if m.End() < |s| then [Text(s[m.End()..])] else [])
  {
    PartsFromMatch(s, 0, m);
    PartsFromNoMatch(s, m.End());
    assert s[0..m.start] == s[..m.start];
  }

  /** A tagged block with text on both sides renders as exactly those three parts. */
  lemma BlockBetweenTexts(pre: string, tag: string, body: string, post: string)
    requires '`' !in pre && '`' !in body && '`' !in post
    requires IsTag(tag) && pre != "" && post != ""
    ensures Segment(Block(pre, tag, body, post)) == [Text(pre), Code(Some(tag), body), Text(post)]
  {
    OneBlock(pre, tag, body, post);
  }

  /** An untagged block that is the whole message is one code part without a language. */
  lemma WholeBlock(body: string)
    requires '`' !in body
    ensures Segment(Block("", "", body, "")) == [Code(None, body)]
  {
    OneBlock("", "", body, "");
  }

  /** Worked example: text without fences is one text part. */
  lemma ExamplePlain()
    ensures Segment("plain text") == [Text("plain text")]
  {
    NoBacktickIsOneText("plain text");
  }

  /** Worked example: a tagged block between two texts. */
  lemma ExampleTagged()
    ensures Segment("a\n```js\nconst x=1\n```\nb") == [Text("a\n"), Code(Some("js"), "const x=1\n"), Text("\nb")]
  {
    assert Block("a\n", "js", "const x=1\n", "\nb") == "a\n```js\nconst x=1\n```\nb";
    assert IsTag("js");
    BlockBetweenTexts("a\n", "js", "const x=1\n", "\nb");
  }

  /** Worked example: an untagged block is the whole message. */
  lemma ExampleUntagged()
    ensures Segment("```\nno lang\n```") == [Code(None, "no lang\n")]
  {
    assert Block("", "", "no lang\n", "") == "```\nno lang\n```";
    WholeBlock("no lang\n");
  }

  /** Worked example: the body may be empty. */
  lemma ExampleEmptyBody()
    ensures Segment("```\n```") == [Code(None, "")]
  {
    assert Block("", "", "", "") == "```\n```";
    WholeBlock("");
  }

  /** Worked example: an unterminated fence stays in the text. */
  lemma ExampleUnterminated()
    ensures Segment("see ```js\nlet y") == [Text("see ```js\nlet y")]
  {
    LoneFenceIsText("see ```js\nlet y", 4);
  }

  /** The message of ExampleTwoBlocks: two untagged blocks with a newline between them. */
  const TwoBlocks: string := "```\na```\n```\nb```"

  lemma TwoBlocksFirst()
    ensures FindMatch(TwoBlocks, 0) == Some(Match(0, 3, 5))
    ensures CodeOf(TwoBlocks, Match(0, 3, 5)) == Code(None, "a")
  {
    assert IsMatchAt(TwoBlocks, 0, Match(0, 3, 5));
    MatchAtComplete(TwoBlocks, 0, Match(0, 3, 5));
    assert TwoBlocks[4..5] == "a";
  }

  lemma TwoBlocksSecond()
    ensures FindMatch(TwoBlocks, 8) == Some(Match(9, 12, 14))
    ensures CodeOf(TwoBlocks, Match(9, 12, 14)) == Code(None, "b")
    ensures FindMatch(TwoBlocks, 17).None?
  {
    assert IsMatchAt(TwoBlocks, 9, Match(9, 12, 14));
    MatchAtComplete(TwoBlocks, 9, Match(9, 12, 14));
    assert !FenceAt(TwoBlocks, 8);
    assert TwoBlocks[13..14] == "b";
  }

  /** Worked example: two blocks with a newline between them give both code parts and the newline as text. */
  lemma ExampleTwoBlocks()
    ensures Segment("```\na```\n```\nb```") == [Code(None, "a"), Text("\n"), Code(None, "b")]
  {
    TwoBlocksFirst();
    TwoBlocksSecond();
    PartsFromMatch(TwoBlocks, 0, Match(0, 3, 5));
    PartsFromMatch(TwoBlocks, 8, Match(9, 12, 14));
    PartsFromNoMatch(TwoBlocks, 17);
    assert TwoBlocks[8..9] == "\n";
  }

  /** Worked example: a tag not followed by a newline is no opening marker. */
  lemma ExampleNoNewline()
    ensures Segment("```js let y```") == [Text("```js let y```")]
  {
    var t := "```js let y```";
    assert forall p, m :: !IsMatchAt(t, p, m) by {
      forall p, m ensures !IsMatchAt(t, p, m) {
        if FenceAt(t, p) && p == m.start {
          assert p == 0 || p == 11;
          if p == 0 {
            assert WordRunEnd(t, 3) == 5;
          }
        }
      }
    }
    OneTextIffNoMatch(t);
  }

  // ---------------------------------------------------------------------
  // The source's loop
  // ---------------------------------------------------------------------

  /** The expression's matcher tried at one position: the tag run, the newline, then the nearest closing marker. */
  method TryMatchAt(s: string, p: nat) returns (r: Option<Match>)
    requires p <= |s|
    ensures r == MatchAt(s, p)
  {
    if !(p + 3 <= |s| && s[p] == '`' && s[p + 1] == '`' && s[p + 2] == '`') {
      return None;
    }
    var e := ScanWord(s, p + 3);
    if e == |s| || s[e] != '\n' {
      return None;
    }
    var k := ScanFence(s, e + 1);
    if k.None? {
      return None;
    }
    return Some(Match(p, e, k.value));
  }

  /** The greedy `\w+` run from `q`: the method counterpart of WordRunEnd. */
  method ScanWord(s: string, q: nat) returns (e: nat)
    requires q <= |s|
    ensures e == WordRunEnd(s, q)
  {
    e := q;
    while e < |s| && IsWordChar(s[e])
      invariant q <= e <= |s|
      invariant WordRunEnd(s, e) == WordRunEnd(s, q)
      decreases |s| - e
    {
      e := e + 1;
    }
  }

  /** The lazy `[\s\S]*?` followed by the closing marker: the method counterpart of FirstFenceFrom. */
  method ScanFence(s: string, q: nat) returns (r: Option<nat>)
    requires q <= |s|
    ensures r == FirstFenceFrom(s, q)
  {
    var k := q;
    while k + 3 <= |s| && !(s[k] == '`' && s[k + 1] == '`' && s[k + 2] == '`')
      invariant q <= k <= |s|
      invariant FirstFenceFrom(s, k) == FirstFenceFrom(s, q)
      decreases |s| - k
    {
      k := k + 1;
    }
    r := if k + 3 <= |s| then Some(k) else None;
  }

  /** One `exec` of the global expression with its `lastIndex` at `from`. */
  method Exec(s: string, from: nat) returns (r: Option<Match>)
    requires from <= |s|
    ensures r == FindMatch(s, from)
  {
    var p := from;
    while true
      invariant from <= p <= |s|
      invariant FindMatch(s, p) == FindMatch(s, from)
      decreases |s| - p
    {
      r := TryMatchAt(s, p);
      if r.Some? || p == |s| {
        return;
      }
      p := p + 1;
    }
  }

  /** One round of the loop: the parts found so far, the text before the next match, and its code part. */
  lemma PartsStep(s: string, from: nat, m: Match, done: seq<Seg>, all: seq<Seg>)
    requires from <= |s| && FindMatch(s, from) == Some(m) && done + PartsFrom(s, from) == all
    ensures m.End() <= |s|
    ensures done + (if from < m.start then [Text(s[from..m.start])] else []) + [CodeOf(s, m)] + PartsFrom(s, m.End()) == all
  {
    PartsFromMatch(s, from, m);
    Regroup(done, if from < m.start then [Text(s[from..m.start])] else [], CodeOf(s, m), PartsFrom(s, m.End()));
  }

  /** The loop of `renderMessageContent`, without the markup around each part. */
  method RenderMessageContent(content: string) returns (parts: seq<Seg>)
    ensures parts == Segment(content)
  {
    parts := [];
    var lastIndex: nat := 0;
    var found := Exec(content, lastIndex);
    ghost var all := PartsFrom(content, 0);
    while found.Some?
      invariant lastIndex <= |content|
      invariant found == FindMatch(content, lastIndex)
      invariant parts + PartsFrom(content, lastIndex) == all
      decreases |content| - lastIndex
    {
      var m := found.value;
      ghost var before := parts;
      ghost var lead := if lastIndex < m.start then [Text(content[lastIndex..m.start])] else [];
      PartsStep(content, lastIndex, m, parts, all);
      if m.start > lastIndex {
        parts := parts + [Text(content[lastIndex..m.start])];
      }
      assert parts == before + lead;
      var tag := if m.tagEnd == m.start + 3 then None else Some(content[m.start + 3..m.tagEnd]);
      var body := content[m.tagEnd + 1..m.bodyEnd];
      CodeOfFields(content, m);
      parts := parts + [Code(tag, body)];
      lastIndex := m.End();
      found := Exec(content, lastIndex);
    }
    PartsFromNoMatch(content, lastIndex);
    if lastIndex < |content| {
      parts := parts + [Text(content[lastIndex..])];
    }
    if |parts| == 0 {
      parts := [Text(content)];
    }
  }
}
