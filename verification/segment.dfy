/**
 * The rendering loop's split of a message into an optional "thought" and the
 * visible answer, driven by the `<think>` ... `</think>` markers a reasoning
 * model puts around its chain of thought.
 */
module ThinkSegment {
  import opened Wrappers
  import opened PyStr

  const Open: string := "<think>"
  const Close: string := "</think>"

  /** A message as displayed: the collapsible thought (if any) and the answer. */
  datatype Segmented = Segmented(thought: Option<string>, answer: string)

  /**
   * The split once both markers have been found, `openAt` and `closeAt` being
   * their indices: the thought is the stripped text from the end of `<think>`
   * up to `</think>` (Python's slice, so empty when the bounds cross), and the
   * answer is the stripped text from `answerSkip` characters past the start of
   * `</think>`.
   */
  function SplitAt(content: string, openAt: int, closeAt: int, answerSkip: nat): (r: Segmented)
    requires IsAt(content, Open, openAt) && IsAt(content, Close, closeAt) && answerSkip <= |Close|
    ensures r.thought.Some? && NoEdgeSpace(r.thought.value) && NoEdgeSpace(r.answer)
  {
    var startIdx := openAt + |Open|;
    var endIdx := closeAt;
    Segmented(Some(Strip(Slice(content, startIdx, endIdx))), Strip(content[endIdx + answerSkip..]))
  }

  /**
   * The split exactly as the app performs it. The answer starts at the first
   * closing marker plus the length of the OPENING marker, so it keeps the
   * closing marker's final `>`.
   */
  function Segment(content: string): (r: Segmented)
    ensures !(Occurs(content, Open) && Occurs(content, Close)) ==> r == Segmented(None, content)
    ensures Occurs(content, Open) && Occurs(content, Close) ==>
      && r.thought.Some?
      && NoEdgeSpace(r.thought.value)
      && NoEdgeSpace(r.answer)
      && |r.answer| > 0 && r.answer[0] == '>'
  {
    if Contains(content, Open) && Contains(content, Close) then
      var endIdx := Find(content, Close);
      AnswerKeepsBracket(content, endIdx);
      SplitAt(content, Find(content, Open), endIdx, |Open|)
    else
      Segmented(None, content)
  }

  /** What remains after `j + |Open|` starts with `>` and is then only right-trimmed by `strip()`. */
  lemma AnswerKeepsBracket(content: string, j: int)
    requires IsAt(content, Close, j)
    ensures Strip(content[j + |Open|..]) == ['>'] + TrimEnd(content[j + |Close|..])
  {
    assert content[j..j + |Close|][|Open|] == '>';
    assert content[j + |Open|..] == ['>'] + content[j + |Close|..];
    StripKeepsLead('>', content[j + |Close|..]);
  }

  /** The two markers never overlap: the closing one lies before the opening one or after its end. */
  lemma MarkersDisjoint(content: string, i: int, j: int)
    requires IsAt(content, Open, i) && IsAt(content, Close, j)
    ensures j < i || i + |Open| <= j
  {
    assert content[j] == '<' && content[j + 1] == '/' by {
      assert content[j..j + |Close|] == Close;
    }
  }

  /**
   * With `i` and `j` the first indices of the two markers: the thought is the
   * stripped text strictly between them (empty when the closing marker does
   * not come after the opening one), and the answer is `>` followed by the
   * right-trimmed text after the closing marker.
   */
  lemma SegmentSlices(content: string, i: int, j: int)
    requires FirstAt(content, Open, i) && FirstAt(content, Close, j)
    ensures j < i ==> Segment(content).thought == Some([])
    ensures i < j ==> i + |Open| <= j && Segment(content).thought == Some(Strip(content[i + |Open|..j]))
    ensures Segment(content).answer == ['>'] + TrimEnd(content[j + |Close|..])
  {
    FindIsFirst(content, Open, i);
    FindIsFirst(content, Close, j);
    assert Segment(content) == SplitAt(content, i, j, |Open|);
    SplitThought(content, i, j, |Open|);
    AnswerKeepsBracket(content, j);
  }

  /** The thought of `SplitAt`, case by case on the order of the markers. */
  lemma SplitThought(content: string, i: int, j: int, answerSkip: nat)
    requires IsAt(content, Open, i) && IsAt(content, Close, j) && answerSkip <= |Close|
    ensures j < i ==> SplitAt(content, i, j, answerSkip).thought == Some([])
    ensures i < j ==>
      i + |Open| <= j && SplitAt(content, i, j, answerSkip).thought == Some(Strip(content[i + |Open|..j]))
  {
    MarkersDisjoint(content, i, j);
    StripEmptyIff([]);
  }

  /** The thought comes out empty exactly when the markers are out of order or enclose only whitespace. */
  lemma ThoughtEmptyIff(content: string, i: int, j: int)
    requires FirstAt(content, Open, i) && FirstAt(content, Close, j)
    ensures Segment(content).thought == Some([]) <==> (j < i || SpaceBetween(content, i + |Open|, j))
  {
    SegmentSlices(content, i, j);
    if i < j {
      StripSliceEmptyIff(content, i + |Open|, j);
    }
  }

  /** A text with no `<` cannot contain the closing marker. */
  lemma NoAngleNoClose(t: string)
    requires forall k :: 0 <= k < |t| ==> t[k] != '<'
    ensures !Occurs(t, Close)
  {
    forall k | 0 <= k && k + |Close| <= |t|
      ensures !IsAt(t, Close, k)
    {
      assert t[k..k + |Close|][0] == t[k];
    }
  }

  /** In `Open + t + Close + a`, with no closing marker inside `t`, the markers are first found where they were put. */
  lemma WellFormedMarkers(t: string, a: string)
    requires !Occurs(t, Close)
    ensures FirstAt(Open + t + Close + a, Open, 0)
    ensures FirstAt(Open + t + Close + a, Close, |Open| + |t|)
    ensures (Open + t + Close + a)[|Open|..|Open| + |t|] == t
    ensures (Open + t + Close + a)[|Open| + |t| + |Close|..] == a
  {
    var c := Open + t + Close + a;
    var p := |Open| + |t|;
    assert c[0..|Open|] == Open;
    assert c[p..p + |Close|] == Close;
    forall m | 0 <= m < p
      ensures !IsAt(c, Close, m)
    {
      if m + |Close| <= |c| {
        var w := c[m..m + |Close|];
        if m == 0 {
          assert w[1] == c[1] == Open[1];
        } else if m < |Open| {
          assert w[0] == c[m] == Open[m];
        } else if m + |Close| <= p {
          assert t[m - |Open|..m - |Open| + |Close|] == w;
          assert !IsAt(t, Close, m - |Open|);
        } else {
          assert w[p - m] == c[p] == Close[0];
        }
      }
    }
  }

  /**
   * The app on a well-formed reply `<think>t</think>a`: the thought is
   * `t` stripped, and the answer is NOT `a` stripped but `>` followed by `a`
   * right-trimmed.
   */
  lemma SegmentWellFormed(t: string, a: string)
    requires !Occurs(t, Close)
    ensures Segment(Open + t + Close + a) == Segmented(Some(Strip(t)), ['>'] + TrimEnd(a))
  {
    var c := Open + t + Close + a;
    var p := |Open| + |t|;
    WellFormedMarkers(t, a);
    SegmentSlices(c, 0, p);
    if |t| == 0 {
      StripEmptyIff(t);
    }
  }

  /** The marker-free reply `"  plain text  "` is shown as it is, its surrounding spaces kept. */
  lemma PlainTextUnchanged()
    ensures Segment("  plain text  ") == Segmented(None, "  plain text  ")
  {
    NoAngleNoClose("  plain text  ");
  }

  /** The worked example: the thought is trimmed, and the answer keeps the stray `>`. */
  lemma SegmentExample()
    ensures Segment("<think> reasoning here </think> final answer")
         == Segmented(Some("reasoning here"), "> final answer")
  {
    ExampleFacts();
    SegmentWellFormed(" reasoning here ", " final answer");
  }

  lemma ExampleFacts()
    ensures Open + " reasoning here " + Close + " final answer" == "<think> reasoning here </think> final answer"
    ensures !Occurs(" reasoning here ", Close)
    ensures Strip(" reasoning here ") == "reasoning here"
    ensures ['>'] + TrimEnd(" final answer") == "> final answer"
  {
    ExampleText();
    NoAngleNoClose(" reasoning here ");
    ExampleThought();
    ExampleAnswer();
  }

  lemma ExampleText()
    ensures Open + " reasoning here " + Close + " final answer" == "<think> reasoning here </think> final answer"
  {
    var s := Open + " reasoning here " + Close + " final answer";
    var l := "<think> reasoning here </think> final answer";
    assert |s| == |l|;
    forall k | 0 <= k < |s|
      ensures s[k] == l[k]
    {
    }
  }

  lemma ExampleAnswer()
    ensures ['>'] + TrimEnd(" final answer") == "> final answer"
  {
    assert TrimEnd(" final answer") == " final answer";
  }

  lemma ExampleThought()
    ensures Strip(" reasoning here ") == "reasoning here"
  {
    var t := " reasoning here ";
    assert t[1..15] == "reasoning here";
    assert StripsTo(t, 1, "reasoning here");
    StripUnique(t, 1, "reasoning here");
  }

  // ---------------------------------------------------------------------------
  // The split as evidently intended
  // ---------------------------------------------------------------------------

  /** The same split with the answer starting right after the closing marker. */
  function SegmentIntended(content: string): (r: Segmented)
    ensures !(Occurs(content, Open) && Occurs(content, Close)) ==> r == Segmented(None, content)
    ensures Occurs(content, Open) && Occurs(content, Close) ==>
      r.thought == Segment(content).thought && NoEdgeSpace(r.answer)
  {
    if Contains(content, Open) && Contains(content, Close) then
      SplitAt(content, Find(content, Open), Find(content, Close), |Close|)
    else
      Segmented(None, content)
  }

  /** The intended split recovers both parts of a well-formed reply `<think>t</think>a`, each stripped. */
  lemma IntendedRoundTrip(t: string, a: string)
    requires !Occurs(t, Close)
    ensures SegmentIntended(Open + t + Close + a) == Segmented(Some(Strip(t)), Strip(a))
  {
    var c := Open + t + Close + a;
    var p := |Open| + |t|;
    WellFormedMarkers(t, a);
    SegmentWellFormed(t, a);
    FindIsFirst(c, Open, 0);
    FindIsFirst(c, Close, p);
    assert SegmentIntended(c) == SplitAt(c, 0, p, |Close|);
  }

  /** Whenever both markers are present, the app's answer differs from the intended one. */
  lemma QuirkAlwaysVisible(content: string)
    requires Occurs(content, Open) && Occurs(content, Close)
    ensures Segment(content).answer != SegmentIntended(content).answer
  {
    var j := Find(content, Close);
    AnswersAt(content);
    AnswerKeepsBracket(content, j);
    StripNoLongerThanTrimEnd(content[j + |Close|..]);
  }

  /** Where the two splits start their answers: after the first `</think>`, 7 and 8 characters in. */
  lemma AnswersAt(content: string)
    requires Occurs(content, Open) && Occurs(content, Close)
    ensures Find(content, Close) >= 0
    ensures Segment(content).answer == Strip(content[Find(content, Close) + |Open|..])
    ensures SegmentIntended(content).answer == Strip(content[Find(content, Close) + |Close|..])
  {
  }
}
