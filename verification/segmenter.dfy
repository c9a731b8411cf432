/** The incremental sentence segmenter that runs inside the chat handler of
    `src/pages/index.tsx`: after every chunk of the language model's reply it
    strips a leading `[tag]`, cuts at most one sentence off the front of the
    buffer, and hands `tag + " " + sentence` to the speech scheduler.

    Characters are Dafny `char`s, that is Unicode scalar values. JavaScript
    strings are sequences of UTF-16 code units, so the two agree on every
    character of the Basic Multilingual Plane; a character outside it is one
    `char` here but two code units there. */
module Segmenter {
  import opened Common

  // ---------------------------------------------------------------------------
  // Character classes
  // ---------------------------------------------------------------------------

  /** The ECMAScript line terminators: exactly the characters that `.` in a
      regular expression without the `s` flag refuses to match. */
  predicate IsLineTerminator(c: char)
  {
    c == '\n' || c == '\r' || c == '\U{2028}' || c == '\U{2029}'
  }

  /** The ECMAScript white space and line terminators: the class `\s`, which is
      also what `String.prototype.trimStart` removes. */
  predicate IsWhitespace(c: char)
  {
    || IsLineTerminator(c)
    || c == '\t' || c == '\U{000B}' || c == '\U{000C}' || c == ' '
    || c == '\U{00A0}' || c == '\U{1680}' || ('\U{2000}' <= c <= '\U{200A}')
    || c == '\U{202F}' || c == '\U{205F}' || c == '\U{3000}' || c == '\U{FEFF}'
  }

  /** Characters that end a sentence outright: `。` `．` `！` `？` and newline.
      The ASCII `.` `!` `?` are deliberately absent, as in the source. */
  const HardTerminators: set<char> :=
    {'\U{3002}', '\U{FF0E}', '\U{FF01}', '\U{FF1F}', '\n'}

  /** Characters that end a long clause: the ideographic comma `、` and `,`. */
  const SoftTerminators: set<char> := {'\U{3001}', ','}

  /** A clause must have at least this many characters before a soft terminator. */
  const SoftMinimum: nat := 10

  /** The brackets that, together with white space, make a sentence unpronounceable. */
  const Brackets: set<char> := {
    '[', '(', '{',
    '\U{300C}', // 「
    '\U{FF3B}', // ［
    '\U{FF08}', // （
    '\U{3010}', // 【
    '\U{300E}', // 『
    '\U{3008}', // 〈
    '\U{300A}', // 《
    '\U{3014}', // 〔
    '\U{FF5B}', // ｛
    '\U{00AB}', // «
    '\U{2039}', // ‹
    '\U{3018}', // 〘
    '\U{301A}', // 〚
    '\U{301B}', // 〛
    '\U{3019}', // 〙
    '\U{203A}', // ›
    '\U{00BB}', // »
    '\U{3015}', // 〕
    '\U{300B}', // 》
    '\U{3009}', // 〉
    '\U{300F}', // 』
    '\U{3011}', // 】
    '\U{FF09}', // ）
    '\U{FF3D}', // ］
    '\U{300D}', // 」
    '}', ')', ']'
  }

  predicate AllWhitespace(s: string)
  {
    forall k :: 0 <= k < |s| ==> IsWhitespace(s[k])
  }

  // ---------------------------------------------------------------------------
  // Leading tag: /^\[(.*?)\]/
  // ---------------------------------------------------------------------------

  /** `s[0..j]` is a candidate match of `^\[.*\]`: it opens with `[`, closes with
      the `]` at index `j`, and has no line terminator in between. */
  predicate TagCloses(s: string, j: int)
  {
    && 1 <= j < |s|
    && s[0] == '['
    && s[j] == ']'
    && forall k :: 1 <= k < j ==> !IsLineTerminator(s[k])
  }

  /** Index of the `]` closing the leading tag. The lazy `.*?` picks the
      shortest candidate. */
  function TagEnd(s: string): (r: Option<nat>)
    ensures r.Some? ==> TagCloses(s, r.value)
    ensures r.Some? ==> forall j :: 1 <= j < r.value ==> !TagCloses(s, j)
    ensures r.None? ==> forall j :: !TagCloses(s, j)
  {
    if |s| > 0 && s[0] == '[' then ScanTagClose(s, 1) else None
  }

  function ScanTagClose(s: string, k: nat): (r: Option<nat>)
    requires 1 <= k <= |s| && s[0] == '['
    requires forall i :: 1 <= i < k ==> s[i] != ']' && !IsLineTerminator(s[i])
    ensures r.Some? ==> TagCloses(s, r.value)
    ensures r.Some? ==> forall j :: 1 <= j < r.value ==> !TagCloses(s, j)
    ensures r.None? ==> forall j :: !TagCloses(s, j)
    decreases |s| - k
  {
    if k == |s| then None
    else if s[k] == ']' then Some(k)
    else if IsLineTerminator(s[k]) then None
    else ScanTagClose(s, k + 1)
  }

  /** A well-formed tag: `[`, then neither `]` nor a line terminator, then `]`. */
  predicate IsTag(t: string)
  {
    && |t| >= 2
    && t[0] == '['
    && t[|t| - 1] == ']'
    && forall k :: 1 <= k < |t| - 1 ==> t[k] != ']' && !IsLineTerminator(t[k])
  }

  // ---------------------------------------------------------------------------
  // Sentence boundary: /^(.+[。．！？\n]|.{10,}[、,])/
  // ---------------------------------------------------------------------------

  /** No line terminator occurs among the first `i` characters of `s`. */
  predicate LineClean(s: string, i: int)
    requires 0 <= i <= |s|
  {
    forall k :: 0 <= k < i ==> !IsLineTerminator(s[k])
  }

  /** `s[0..i]` matches `.+[。．！？\n]`. */
  predicate HardBoundary(s: string, i: int)
  {
    1 <= i < |s| && s[i] in HardTerminators && LineClean(s, i)
  }

  /** `s[0..i]` matches `.{10,}[、,]`. */
  predicate SoftBoundary(s: string, i: int)
  {
    SoftMinimum <= i < |s| && s[i] in SoftTerminators && LineClean(s, i)
  }

  /** The boundary the regular expression settles on: the first alternative wins
      whenever it can match, and each greedy alternative takes its longest match. */
  ghost predicate ChosenBoundary(s: string, i: int)
  {
    || (HardBoundary(s, i) && forall j :: HardBoundary(s, j) ==> j <= i)
    || (&& (forall j :: !HardBoundary(s, j))
        && SoftBoundary(s, i)
        && forall j :: SoftBoundary(s, j) ==> j <= i)
  }

  /** Index of the first line terminator of `s`, or `|s|` when there is none. */
  function LineLength(s: string): (n: nat)
    ensures n <= |s|
    ensures LineClean(s, n)
    ensures n < |s| ==> IsLineTerminator(s[n])
  {
    if |s| == 0 || IsLineTerminator(s[0]) then 0 else 1 + LineLength(s[1..])
  }

  /** The last index in `[lo, hi]` holding a character of `cs`. */
  function LastIn(s: string, cs: set<char>, lo: nat, hi: int): (r: Option<nat>)
    requires hi < |s|
    ensures r.Some? ==> lo <= r.value <= hi && s[r.value] in cs
    ensures r.Some? ==> forall j :: r.value < j <= hi ==> s[j] !in cs
    ensures r.None? ==> forall j :: lo <= j <= hi ==> s[j] !in cs
    decreases hi + 1 - lo
  {
    if hi < lo then None
    else if s[hi] in cs then Some(hi)
    else LastIn(s, cs, lo, hi - 1)
  }

  /** Within the first line (the terminator of that line included), a boundary
      is exactly a position in range holding the right character. */
  lemma BoundariesWithinFirstLine(s: string, hi: int)
    requires |s| > 0
    requires hi == if LineLength(s) < |s| then LineLength(s) else |s| - 1
    ensures forall j :: HardBoundary(s, j) <==> 1 <= j <= hi && s[j] in HardTerminators
    ensures forall j :: SoftBoundary(s, j) <==> SoftMinimum <= j <= hi && s[j] in SoftTerminators
  {
    var n := LineLength(s);
    forall j | n < j < |s|
      ensures !LineClean(s, j)
    {
      assert IsLineTerminator(s[n]);
    }
    forall j | 0 <= j <= n
      ensures LineClean(s, j)
    {
      assert LineClean(s, n);
    }
  }

  /** Index of the last character of the sentence the regular expression cuts. */
  function SentenceEnd(s: string): (r: Option<nat>)
    ensures r.Some? ==> ChosenBoundary(s, r.value)
    ensures r.None? ==> forall j :: !HardBoundary(s, j) && !SoftBoundary(s, j)
  {
    if |s| == 0 then None
    else
      var hi := if LineLength(s) < |s| then LineLength(s) else |s| - 1;
      BoundariesWithinFirstLine(s, hi);
      match LastIn(s, HardTerminators, 1, hi)
      case Some(i) => Some(i)
      case None => LastIn(s, SoftTerminators, SoftMinimum, hi)
  }

  /** The chosen boundary, when there is one, is unique. */
  lemma ChosenBoundaryUnique(s: string, i: int, j: int)
    requires ChosenBoundary(s, i) && ChosenBoundary(s, j)
    ensures i == j
  {
  }

  // ---------------------------------------------------------------------------
  // Cutting and trimming
  // ---------------------------------------------------------------------------

  /** The first position at or after `k` that does not hold white space. */
  function SkipWhitespace(s: string, k: nat): (j: nat)
    requires k <= |s|
    ensures k <= j <= |s|
    ensures forall m :: k <= m < j ==> IsWhitespace(s[m])
    ensures j == |s| || !IsWhitespace(s[j])
    decreases |s| - k
  {
    if k < |s| && IsWhitespace(s[k]) then SkipWhitespace(s, k + 1) else k
  }

  /** `String.prototype.trimStart`: drops the leading white space, nothing else. */
  function TrimStart(s: string): (r: string)
    ensures |r| <= |s| && r == s[|s| - |r|..]
    ensures AllWhitespace(s[..|s| - |r|])
    ensures r == [] || !IsWhitespace(r[0])
  {
    s[SkipWhitespace(s, 0)..]
  }

  /** One sentence cut off the front of the buffer, and what remains. */
  datatype Cut = Cut(sentence: string, rest: string)

  /** The match of the sentence regular expression, removed and followed by
      `trimStart` of the remainder. */
  function ExtractSentence(s: string): (r: Option<Cut>)
    ensures r.None? ==> forall j :: !HardBoundary(s, j) && !SoftBoundary(s, j)
    ensures r.Some? ==> var c := r.value;
      && ChosenBoundary(s, |c.sentence| - 1)
      && |c.sentence| + |c.rest| <= |s|
      && s[..|c.sentence|] == c.sentence
      && s[|s| - |c.rest|..] == c.rest
      && AllWhitespace(s[|c.sentence|..|s| - |c.rest|])
      && (c.rest == [] || !IsWhitespace(c.rest[0]))
  {
    match SentenceEnd(s)
    case None => None
    case Some(i) =>
      var j := SkipWhitespace(s, i + 1);
      Some(Cut(s[..i + 1], s[j..]))
  }

  /** The remainder after a cut is exactly `trimStart` of the text after the sentence. */
  lemma ExtractSentenceTrims(s: string)
    requires ExtractSentence(s).Some?
    ensures var c := ExtractSentence(s).value; c.rest == TrimStart(s[|c.sentence|..])
  {
    var c := ExtractSentence(s).value;
    var n := |c.sentence|;
    var after := s[n..];
    var k := SkipWhitespace(s, n);
    assert c.rest == s[k..];
    var k' := SkipWhitespace(after, 0);
    SkipAfter(s, n, k, k');
  }

  /** Skipping white space in `s[n..]` from its start lands where skipping in
      `s` from `n` does. */
  lemma SkipAfter(s: string, n: nat, k: nat, k': nat)
    requires n <= |s| && k == SkipWhitespace(s, n) && k' == SkipWhitespace(s[n..], 0)
    ensures s[n..][k'..] == s[k..]
  {
    var after := s[n..];
    forall m | 0 <= m < k - n ensures IsWhitespace(after[m]) {
      assert after[m] == s[n + m];
    }
    assert k - n == |after| || after[k - n] == s[k];
    SkipUnique(after, 0, k - n);
  }

  /** `SkipWhitespace` stops at the only place it can: the end of the white
      space run. */
  lemma {:induction false} SkipUnique(s: string, k: nat, j: nat)
    requires k <= j <= |s|
    requires forall m :: k <= m < j ==> IsWhitespace(s[m])
    requires j == |s| || !IsWhitespace(s[j])
    ensures SkipWhitespace(s, k) == j
    decreases j - k
  {
    if k < j {
      SkipUnique(s, k + 1, j);
    }
  }

  /** The skip test: `sentence.replace(/^[\s<brackets>]+$/g, "")` is empty
      exactly when every character is white space or a listed bracket. */
  predicate Unpronounceable(sentence: string)
  {
    forall k :: 0 <= k < |sentence| ==> IsWhitespace(sentence[k]) || sentence[k] in Brackets
  }

  /** The anchored character class matches a concatenation exactly when it
      matches both parts. */
  lemma UnpronounceableConcat(a: string, b: string)
    ensures Unpronounceable(a + b) <==> Unpronounceable(a) && Unpronounceable(b)
  {
    if Unpronounceable(a + b) {
      forall k | 0 <= k < |a| ensures IsWhitespace(a[k]) || a[k] in Brackets {
        assert a[k] == (a + b)[k];
      }
      forall k | 0 <= k < |b| ensures IsWhitespace(b[k]) || b[k] in Brackets {
        assert b[k] == (a + b)[|a| + k];
      }
    }
    if Unpronounceable(a) && Unpronounceable(b) {
      forall k | 0 <= k < |a + b| ensures IsWhitespace((a + b)[k]) || (a + b)[k] in Brackets {
        if k < |a| {
          assert (a + b)[k] == a[k];
        } else {
          assert (a + b)[k] == b[k - |a|];
        }
      }
    }
  }

  /** No terminator but newline is white space or a bracket, so only a sentence
      that ends at a newline can be skipped. */
  lemma SkippedSentenceEndsAtNewline(s: string)
    requires ExtractSentence(s).Some?
    requires Unpronounceable(ExtractSentence(s).value.sentence)
    ensures var t := ExtractSentence(s).value.sentence; t[|t| - 1] == '\n'
  {
    var t := ExtractSentence(s).value.sentence;
    var i := |t| - 1;
    assert ChosenBoundary(s, i);
    assert HardBoundary(s, i) || SoftBoundary(s, i);
    assert t[i] == s[i];
    TerminatorSkippable(t[i]);
  }

  /** Among the terminators only the newline is white space or a bracket. */
  lemma TerminatorSkippable(c: char)
    requires c in HardTerminators || c in SoftTerminators
    requires IsWhitespace(c) || c in Brackets
    ensures c == '\n'
  {
  }

  // ---------------------------------------------------------------------------
  // One chunk arrives
  // ---------------------------------------------------------------------------

  /** The loop's variables: `receivedMessage`, `tag`, `sentences`, `aiTextLog`. */
  datatype SegState = SegState(buffer: string, tag: string, sentences: seq<string>, log: string)

  const Initial: SegState := SegState("", "", [], "")

  /** The state after one chunk, and the utterance handed to the speaker, if any. */
  datatype StepResult = StepResult(state: SegState, spoken: Option<string>)

  /** The tag in force once a leading tag, if any, has been taken off `b`. */
  function TagAfter(tag: string, b: string): (t: string)
    ensures TagEnd(b).None? ==> t == tag
    ensures TagEnd(b).Some? ==> IsTag(t) && |t| <= |b| && b[..|t|] == t
  {
    match TagEnd(b)
    case Some(j) =>
      LeadingTagIsTag(b, j);
      b[..j + 1]
    case None => tag
  }

  /** The text up to the `]` closing the leading tag is a well-formed tag. */
  lemma LeadingTagIsTag(b: string, j: nat)
    requires TagEnd(b) == Some(j)
    ensures IsTag(b[..j + 1])
  {
    var t := b[..j + 1];
    forall k | 1 <= k < |t| - 1
      ensures t[k] != ']' && !IsLineTerminator(t[k])
    {
      assert t[k] == b[k];
      if b[k] == ']' {
        assert TagCloses(b, k);
      }
    }
  }

  /** `b` with its leading tag, if any, removed. */
  function AfterTag(b: string): (rest: string)
    ensures |rest| <= |b| && rest == b[|b| - |rest|..]
  {
    match TagEnd(b)
    case Some(j) => b[j + 1..]
    case None => b
  }

  /** A leading tag becomes the current tag (the shortest `[`…`]` on the first
      line, which the lazy `.*?` selects); without one the previous tag stays. */
  lemma TagRule(tag: string, b: string)
    ensures forall j :: TagCloses(b, j) && (forall k :: 1 <= k < j ==> !TagCloses(b, k)) ==>
      TagAfter(tag, b) == b[..j + 1] && AfterTag(b) == b[j + 1..]
    ensures (forall j :: !TagCloses(b, j)) ==> TagAfter(tag, b) == tag && AfterTag(b) == b
  {
    match TagEnd(b)
    case None =>
    case Some(j) =>
      forall j' | TagCloses(b, j') && (forall k :: 1 <= k < j' ==> !TagCloses(b, k))
        ensures j' == j
      {
      }
  }

  /** The tag in force is the previous one, or a well-formed tag that, followed
      by the stripped buffer, rebuilds the buffer. */
  lemma TagShape(tag: string, b: string)
    ensures TagAfter(tag, b) == tag || (IsTag(TagAfter(tag, b)) && b == TagAfter(tag, b) + AfterTag(b))
  {
    match TagEnd(b)
    case None =>
    case Some(j) =>
      assert b == b[..j + 1] + b[j + 1..];
  }

  /** One iteration of the read loop for a chunk `chunk`. */
  function Step(st: SegState, chunk: string): (r: StepResult)
    // at most one sentence is cut, and earlier ones are kept
    ensures r.state.sentences == st.sentences
         || (|r.state.sentences| == |st.sentences| + 1 && r.state.sentences[..|st.sentences|] == st.sentences)
    // something is spoken exactly when a pronounceable sentence was cut
    ensures r.spoken.Some? <==>
      |r.state.sentences| > |st.sentences| && !Unpronounceable(r.state.sentences[|st.sentences|])
    // and it is that sentence behind the tag in force
    ensures r.spoken.Some? ==> r.spoken.value == r.state.tag + " " + r.state.sentences[|st.sentences|]
    // the log grows by exactly what is spoken
    ensures r.state.log == st.log + r.spoken.GetOr("")
    // the tag is kept or replaced by a tag opening the grown buffer; it is never cleared
    ensures r.state.tag == st.tag
         || (IsTag(r.state.tag) && StartsWith(st.buffer + chunk, r.state.tag))
    // and it is replaced exactly when the grown buffer opens with a tag, by the shortest one
    ensures r.state.tag == TagAfter(st.tag, st.buffer + chunk)
  {
    var b := st.buffer + chunk;
    TagShape(st.tag, b);
    var tag := TagAfter(st.tag, b);
    var text := AfterTag(b);
    match ExtractSentence(text)
    case None => StepResult(SegState(text, tag, st.sentences, st.log), None)
    case Some(c) =>
      var sentences := st.sentences + [c.sentence];
      assert sentences[|st.sentences|] == c.sentence;
      assert sentences[..|st.sentences|] == st.sentences;
      if Unpronounceable(c.sentence) then
        StepResult(SegState(c.rest, tag, sentences, st.log), None)
      else
        var spoken := tag + " " + c.sentence;
        StepResult(SegState(c.rest, tag, sentences, st.log + spoken), Some(spoken))
  }

  /** Without a boundary in the tag-stripped buffer the step only grows the
      buffer: nothing is cut and nothing is spoken. */
  lemma StepWithoutBoundary(st: SegState, chunk: string)
    ensures var r := Step(st, chunk);
      var b := AfterTag(st.buffer + chunk);
      |r.state.sentences| == |st.sentences| <==> forall j :: !HardBoundary(b, j) && !SoftBoundary(b, j)
    ensures var r := Step(st, chunk);
      |r.state.sentences| == |st.sentences| ==>
        r.state.buffer == AfterTag(st.buffer + chunk) && r.spoken.None?
  {
    StepUnfold(st, chunk);
    var b := AfterTag(st.buffer + chunk);
    match ExtractSentence(b)
    case None =>
    case Some(c) =>
      var i := |c.sentence| - 1;
      assert ChosenBoundary(b, i);
      assert HardBoundary(b, i) || SoftBoundary(b, i);
      assert |Step(st, chunk).state.sentences| == |st.sentences| + 1;
  }

  /** When a sentence is cut, it is the one the boundary rule chooses, and the
      tag-stripped buffer splits into that sentence, white space that is thrown
      away, and the new buffer, which starts with no white space. */
  lemma StepCutsChosenSentence(st: SegState, chunk: string)
    requires |Step(st, chunk).state.sentences| > |st.sentences|
    ensures var r := Step(st, chunk);
      var b := AfterTag(st.buffer + chunk);
      var t := r.state.sentences[|st.sentences|];
      var n := r.state.buffer;
      && ChosenBoundary(b, |t| - 1)
      && |t| + |n| <= |b|
      && b == t + b[|t|..|b| - |n|] + n
      && AllWhitespace(b[|t|..|b| - |n|])
      && (n == [] || !IsWhitespace(n[0]))
  {
    StepCutIsExtracted(st, chunk);
    CutDecomposes(AfterTag(st.buffer + chunk));
  }

  /** A step that cuts a sentence cuts what `ExtractSentence` returns. */
  lemma StepCutIsExtracted(st: SegState, chunk: string)
    requires |Step(st, chunk).state.sentences| > |st.sentences|
    ensures var e := ExtractSentence(AfterTag(st.buffer + chunk));
      && e.Some?
      && Step(st, chunk).state.sentences[|st.sentences|] == e.value.sentence
      && Step(st, chunk).state.buffer == e.value.rest
  {
    StepUnfold(st, chunk);
  }

  /** A cut splits the buffer into the sentence, discarded white space and the rest. */
  lemma CutDecomposes(b: string)
    requires ExtractSentence(b).Some?
    ensures var c := ExtractSentence(b).value;
      && ChosenBoundary(b, |c.sentence| - 1)
      && |c.sentence| + |c.rest| <= |b|
      && b == c.sentence + b[|c.sentence|..|b| - |c.rest|] + c.rest
      && AllWhitespace(b[|c.sentence|..|b| - |c.rest|])
      && (c.rest == [] || !IsWhitespace(c.rest[0]))
  {
    var c := ExtractSentence(b).value;
    ThreeWaySplit(b, c.sentence, c.rest);
  }

  /** A string with a known prefix and a known, non-overlapping suffix is the
      prefix, the middle and the suffix. */
  lemma ThreeWaySplit(b: string, t: string, n: string)
    requires |t| + |n| <= |b| && b[..|t|] == t && b[|b| - |n|..] == n
    ensures b == t + b[|t|..|b| - |n|] + n
  {
    assert b == b[..|t|] + b[|t|..|b| - |n|] + b[|b| - |n|..];
  }

  /** `Step` in terms of the boundary search on the tag-stripped buffer. */
  lemma StepUnfold(st: SegState, chunk: string)
    ensures var r := Step(st, chunk);
      match ExtractSentence(AfterTag(st.buffer + chunk))
      case None => r.state.buffer == AfterTag(st.buffer + chunk) && r.state.sentences == st.sentences
      case Some(c) => r.state.buffer == c.rest && r.state.sentences == st.sentences + [c.sentence]
  {
  }

  // ---------------------------------------------------------------------------
  // A whole stream
  // ---------------------------------------------------------------------------

  /** The loop state after a sequence of chunks, and every utterance spoken on the way. */
  datatype RunResult = RunResult(state: SegState, spoken: seq<string>)

  /** The read loop over a whole stream: the chunks fold through `Step` in
      order, and no chunk yields more than one utterance. */
  function Run(st: SegState, chunks: seq<string>): (r: RunResult)
    ensures |r.spoken| <= |chunks|
  {
    if |chunks| == 0 then RunResult(st, [])
    else
      var prev := Run(st, chunks[..|chunks| - 1]);
      var step := Step(prev.state, chunks[|chunks| - 1]);
      RunResult(step.state, prev.spoken + (if step.spoken.Some? then [step.spoken.value] else []))
  }

  /** `aiTextLog` is the in-order concatenation of the spoken utterances. */
  lemma {:induction false} RunLogIsSpokenText(st: SegState, chunks: seq<string>)
    ensures Run(st, chunks).state.log == st.log + Concat(Run(st, chunks).spoken)
  {
    if |chunks| > 0 {
      var prev := Run(st, chunks[..|chunks| - 1]);
      RunLogIsSpokenText(st, chunks[..|chunks| - 1]);
      var step := Step(prev.state, chunks[|chunks| - 1]);
      if step.spoken.Some? {
        ConcatSnoc(prev.spoken, step.spoken.value);
      } else {
        assert prev.spoken + [] == prev.spoken;
      }
    }
  }

  /** Each chunk yields at most one cut sentence, and spoken utterances are a
      subset of the cut sentences: no more are spoken than chunks arrived. */
  lemma {:induction false} RunAtMostOnePerChunk(st: SegState, chunks: seq<string>)
    ensures var r := Run(st, chunks);
      && |st.sentences| <= |r.state.sentences| <= |st.sentences| + |chunks|
      && r.state.sentences[..|st.sentences|] == st.sentences
      && |r.spoken| <= |r.state.sentences| - |st.sentences|
  {
    if |chunks| > 0 {
      var init := chunks[..|chunks| - 1];
      RunAtMostOnePerChunk(st, init);
      var prev := Run(st, init);
      StepSentencesGrow(prev.state, chunks[|chunks| - 1]);
      var step := Step(prev.state, chunks[|chunks| - 1]);
      PrefixOfPrefix(step.state.sentences, prev.state.sentences, st.sentences);
    }
  }

  /** One chunk keeps the sentences cut so far, adds at most one, and speaks
      only when it added one. */
  lemma StepSentencesGrow(st: SegState, chunk: string)
    ensures var r := Step(st, chunk);
      && |st.sentences| <= |r.state.sentences| <= |st.sentences| + 1
      && r.state.sentences[..|st.sentences|] == st.sentences
      && (r.spoken.Some? ==> |r.state.sentences| == |st.sentences| + 1)
  {
  }

  /** A prefix of a prefix is a prefix. */
  lemma PrefixOfPrefix<T>(a: seq<T>, b: seq<T>, c: seq<T>)
    requires |c| <= |b| <= |a| && a[..|b|] == b && b[..|c|] == c
    ensures a[..|c|] == c
  {
    assert forall k :: 0 <= k < |c| ==> a[k] == b[k] == c[k];
  }

  /** Once set, the tag is never cleared: it is the initial one or a tag
      that opened the buffer at some step. */
  lemma {:induction false} RunTagPersists(st: SegState, chunks: seq<string>)
    ensures var t := Run(st, chunks).state.tag; t == st.tag || IsTag(t)
    ensures st.tag != "" ==> Run(st, chunks).state.tag != ""
  {
    if |chunks| > 0 {
      RunTagPersists(st, chunks[..|chunks| - 1]);
    }
  }

  /** A tag set after any prefix of the stream is still set at its end: no
      later chunk clears it, though a later leading tag may replace it. */
  lemma {:induction false} RunTagNeverCleared(st: SegState, chunks: seq<string>, k: nat)
    requires k <= |chunks|
    requires Run(st, chunks[..k]).state.tag != ""
    ensures Run(st, chunks).state.tag != ""
    decreases |chunks|
  {
    if k < |chunks| {
      var init := chunks[..|chunks| - 1];
      assert init[..k] == chunks[..k];
      RunTagNeverCleared(st, init, k);
      var prev := Run(st, init).state;
      assert Run(st, chunks).state == Step(prev, chunks[|chunks| - 1]).state;
    } else {
      assert chunks[..k] == chunks;
    }
  }

  /** An utterance as the loop builds it: a tag (or the empty tag), a space,
      and a sentence that is not only white space and brackets. */
  ghost predicate Utterance(u: string)
  {
    exists t, s :: (t == "" || IsTag(t)) && !Unpronounceable(s) && u == t + " " + s
  }

  /** A step from a well-formed tag speaks a well-formed utterance. */
  lemma StepSpokenShape(st: SegState, chunk: string)
    requires st.tag == "" || IsTag(st.tag)
    ensures Step(st, chunk).spoken.Some? ==> Utterance(Step(st, chunk).spoken.value)
  {
    var r := Step(st, chunk);
    if r.spoken.Some? {
      var t := r.state.tag;
      var s := r.state.sentences[|st.sentences|];
      assert r.spoken.value == t + " " + s;
      assert t == "" || IsTag(t);
    }
  }

  /** Every element of `us` is a well-formed utterance. */
  ghost predicate AllUtterances(us: seq<string>)
  {
    forall k :: 0 <= k < |us| ==> Utterance(us[k])
  }

  /** Appending what one step speaks keeps every utterance well formed. */
  lemma AppendUtterance(us: seq<string>, o: Option<string>)
    requires AllUtterances(us) && (o.Some? ==> Utterance(o.value))
    ensures AllUtterances(us + (if o.Some? then [o.value] else []))
  {
    var vs := us + (if o.Some? then [o.value] else []);
    forall k | 0 <= k < |vs| ensures Utterance(vs[k]) {
      if k < |us| {
        assert vs[k] == us[k];
      }
    }
  }

  /** Every spoken utterance of a stream is well formed. */
  lemma {:induction false} RunSpokenShape(st: SegState, chunks: seq<string>)
    requires st.tag == "" || IsTag(st.tag)
    ensures AllUtterances(Run(st, chunks).spoken)
  {
    if |chunks| > 0 {
      var init := chunks[..|chunks| - 1];
      var prev := Run(st, init);
      RunSpokenShape(st, init);
      RunTagPersists(st, init);
      var step := Step(prev.state, chunks[|chunks| - 1]);
      StepSpokenShape(prev.state, chunks[|chunks| - 1]);
      AppendUtterance(prev.spoken, step.spoken);
    }
  }
}
