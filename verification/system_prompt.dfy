/**
 * The system directive: the chatbot's capability labels, joined by ", ",
 * between a fixed opening and a fixed closing sentence.
 */
module SystemPrompt {
  import opened PyStr

  /** The hard-coded capability list; the sidebar's multiselect result is never used. */
  const Capabilities: seq<string> := [
    "General Conversation",
    "Python Expert",
    "Debugging Assistant",
    "Code Documentation",
    "Solution Design",
    "Information Retrieval"
  ]

  const Preamble: string := "You are a versatile AI chatbot with the following capabilities: "
  const Closing: string := ". Engage in generating code, debugging, and providing information based on the user's request."
  const Separator: string := ", "

  /** The labels framed by `pre` and `post`: where each piece of `pre + Join(sep, items) + post` lies. */
  lemma FramedJoin(pre: string, sep: string, items: seq<string>, post: string)
    ensures var r := pre + Join(sep, items) + post;
      && r[..|pre|] == pre
      && r[|r| - |post|..] == post
      && (forall k {:trigger Offset(sep, items, k)} :: 0 <= k < |items| ==> IsAt(r, items[k], |pre| + Offset(sep, items, k)))
      && (forall k {:trigger Offset(sep, items, k)} :: 0 <= k < |items| - 1 ==> IsAt(r, sep, |pre| + Offset(sep, items, k) + |items[k]|))
  {
    var joined := Join(sep, items);
    var r := pre + joined + post;
    assert r[..|pre|] == pre;
    assert r[|r| - |post|..] == post;
    FramedItems(pre, sep, items, post);
    FramedSeparators(pre, sep, items, post);
  }

  lemma FramedItems(pre: string, sep: string, items: seq<string>, post: string)
    ensures forall k {:trigger Offset(sep, items, k)} :: 0 <= k < |items| ==>
      IsAt(pre + Join(sep, items) + post, items[k], |pre| + Offset(sep, items, k))
  {
    forall k | 0 <= k < |items|
      ensures IsAt(pre + Join(sep, items) + post, items[k], |pre| + Offset(sep, items, k))
    {
      JoinPlaces(sep, items, k);
      IsAtShift(pre, Join(sep, items), post, items[k], Offset(sep, items, k));
    }
  }

  lemma FramedSeparators(pre: string, sep: string, items: seq<string>, post: string)
    ensures forall k {:trigger Offset(sep, items, k)} :: 0 <= k < |items| - 1 ==>
      IsAt(pre + Join(sep, items) + post, sep, |pre| + Offset(sep, items, k) + |items[k]|)
  {
    forall k | 0 <= k < |items| - 1
      ensures IsAt(pre + Join(sep, items) + post, sep, |pre| + Offset(sep, items, k) + |items[k]|)
    {
      JoinPlaces(sep, items, k);
      IsAtShift(pre, Join(sep, items), post, sep, Offset(sep, items, k) + |items[k]|);
    }
  }

  /**
   * `build_system_prompt`: the result opens with the preamble and ends with
   * the closing sentence; in between, the labels appear in their given order,
   * each followed by ", " except the last, and nothing else.
   */
  function BuildSystemPrompt(labels: seq<string>): (r: string)
    ensures |r| >= |Preamble| + |Closing|
    ensures r[..|Preamble|] == Preamble
    ensures r[|r| - |Closing|..] == Closing
    ensures |labels| == 0 ==> r == Preamble + Closing
    ensures |labels| > 0 ==>
      |r| == |Preamble| + Offset(Separator, labels, |labels| - 1) + |labels[|labels| - 1]| + |Closing|
    ensures forall k {:trigger Offset(Separator, labels, k)} :: 0 <= k < |labels| ==>
      IsAt(r, labels[k], |Preamble| + Offset(Separator, labels, k))
    ensures forall k {:trigger Offset(Separator, labels, k)} :: 0 <= k < |labels| - 1 ==>
      IsAt(r, Separator, |Preamble| + Offset(Separator, labels, k) + |labels[k]|)
  {
    FramedJoin(Preamble, Separator, labels, Closing);
    Preamble + Join(Separator, labels) + Closing
  }

  /** The directive the app actually sends: built from the full hard-coded list. */
  const SystemText: string := BuildSystemPrompt(Capabilities)

  /**
   * With the hard-coded list, all six capability labels appear in the
   * directive, in list order, each at the position ", "-joining puts it.
   */
  lemma SystemTextListsCapabilities()
    ensures |SystemText| == 274
    ensures IsAt(SystemText, "General Conversation", 64)
    ensures IsAt(SystemText, "Python Expert", 86)
    ensures IsAt(SystemText, "Debugging Assistant", 101)
    ensures IsAt(SystemText, "Code Documentation", 122)
    ensures IsAt(SystemText, "Solution Design", 142)
    ensures IsAt(SystemText, "Information Retrieval", 159)
  {
    CapabilityOffsets();
    var c := Capabilities;
    assert IsAt(SystemText, c[0], |Preamble| + Offset(Separator, c, 0));
    assert IsAt(SystemText, c[1], |Preamble| + Offset(Separator, c, 1));
    assert IsAt(SystemText, c[2], |Preamble| + Offset(Separator, c, 2));
    assert IsAt(SystemText, c[3], |Preamble| + Offset(Separator, c, 3));
    assert IsAt(SystemText, c[4], |Preamble| + Offset(Separator, c, 4));
    assert IsAt(SystemText, c[5], |Preamble| + Offset(Separator, c, 5));
  }

  /** The offsets ", "-joining gives the six labels, and the lengths around them. */
  lemma CapabilityOffsets()
    ensures |Preamble| == 64 && |Closing| == 94 && |Capabilities| == 6 && |Capabilities[5]| == 21
    ensures Offset(Separator, Capabilities, 0) == 0
    ensures Offset(Separator, Capabilities, 1) == 22
    ensures Offset(Separator, Capabilities, 2) == 37
    ensures Offset(Separator, Capabilities, 3) == 58
    ensures Offset(Separator, Capabilities, 4) == 78
    ensures Offset(Separator, Capabilities, 5) == 95
  {
    var c := Capabilities;
    assert Offset(Separator, c[5..], 0) == 0;
    assert Offset(Separator, c[4..], 1) == 17;
    assert Offset(Separator, c[3..], 2) == 37;
    assert Offset(Separator, c[2..], 3) == 58;
    assert Offset(Separator, c[1..], 4) == 73;
  }
}
