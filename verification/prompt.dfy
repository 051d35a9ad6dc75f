/**
 * The prompt `analyze_transcript` sends to the language model: a fixed
 * instruction text, the transcript verbatim, and a short tail. Python
 * reads the source's CRLF line ends inside the triple-quoted literal as
 * plain newlines, so the template holds `\n` only.
 */
module Prompt {
  import opened Wrappers
  import opened Text
  import Parser

  /** The indentation the template's lines carry inside the function body. */
  const Indent: string := "        "

  /** The instruction text up to the list of sentiments it allows. */
  const Opening: string :=
    "\n"
    + Indent + "Analyze this customer service transcript and provide:\n"
    + Indent + "1. A concise 2-3 sentence summary\n"
    + Indent + "2. The customer's sentiment "

  /** The sentiments the instructions allow, in the parser's priority order. */
  const Choices: string := "(" + Parser.Positive + ", " + Parser.Neutral + ", or " + Parser.Negative + ")"

  /** The rest of the instructions, up to where the transcript goes. */
  const Closing: string :=
    "\n"
    + Indent + "\n"
    + Indent + "Format your response exactly as:\n"
    + Indent + "SUMMARY: [summary here]\n"
    + Indent + "SENTIMENT: [sentiment here]\n"
    + Indent + "\n"
    + Indent + "Only use \"positive\", \"neutral\", or \"negative\" for the sentiment.\n"
    + Indent + "\n"
    + Indent + "Transcript:\n"
    + Indent

  /** Everything before the transcript. */
  const Preamble: string := Opening + Choices + Closing

  /** Everything after the transcript. */
  const Postamble: string := "\n" + Indent

  /**
   * The f-string with `{transcript}` filled in: the preamble, then the
   * transcript character for character at index `|Preamble|`, then the tail.
   */
  function BuildPrompt(transcript: string): (p: string)
    ensures |p| == |Preamble| + |transcript| + |Postamble|
    ensures StartsWith(p, Preamble)
    ensures OccursAt(p, transcript, |Preamble|)
    ensures p[|Preamble| + |transcript|..] == Postamble
  {
    var p := Preamble + transcript + Postamble;
    assert p[..|Preamble|] == Preamble;
    assert p[|Preamble|..|Preamble| + |transcript|] == transcript;
    p
  }

  /**
   * Reads the transcript back out of a prompt: None when the text does not
   * have the template's shape, and otherwise the transcript that rebuilds it.
   */
  function TranscriptOf(p: string): (r: Option<string>)
    ensures r.Some? ==> BuildPrompt(r.value) == p
  {
    var lo, hi := |Preamble|, |p| - |Postamble|;
    if lo <= hi && p[..lo] == Preamble && p[hi..] == Postamble then
      var t := p[lo..hi];
      assert p == p[..lo] + t + p[hi..];
      Some(t)
    else
      None
  }

  /** The transcript can be read back from the prompt built around it. */
  lemma {:induction false} TranscriptRoundTrip(transcript: string)
    ensures TranscriptOf(BuildPrompt(transcript)) == Some(transcript)
  {
    var p := BuildPrompt(transcript);
    assert p[..|Preamble|] == Preamble;
    assert p[|Preamble|..|p| - |Postamble|] == transcript;
  }

  /** Different transcripts give different prompts. */
  lemma {:induction false} BuildPromptInjective(t1: string, t2: string)
    requires BuildPrompt(t1) == BuildPrompt(t2)
    ensures t1 == t2
  {
    TranscriptRoundTrip(t1);
    TranscriptRoundTrip(t2);
  }

  /** The prompt holds the transcript verbatim. */
  lemma {:induction false} PromptEmbedsTranscript(transcript: string)
    ensures Contains(BuildPrompt(transcript), transcript)
  {
    ContainsAt(BuildPrompt(transcript), transcript, |Preamble|);
  }

  /** The instructions name every sentiment keyword the parser looks for. */
  lemma {:induction false} PromptNamesEveryKeyword(transcript: string)
    ensures forall k :: 0 <= k < |Parser.Keywords| ==>
      Contains(BuildPrompt(transcript), Parser.Keywords[k])
  {
    var p := BuildPrompt(transcript);
    assert p[..|Preamble|] == Preamble;
    assert p[|Opening|..|Opening| + |Choices|] == Choices;
    ContainsAt(p, Choices, |Opening|);
    var n, g := |Parser.Positive|, |Parser.Neutral|;
    assert Choices[1..1 + n] == Parser.Positive;
    assert Choices[3 + n..3 + n + g] == Parser.Neutral;
    assert Choices[8 + n + g..|Choices| - 1] == Parser.Negative;
    ContainsAt(Choices, Parser.Positive, 1);
    ContainsAt(Choices, Parser.Neutral, 3 + n);
    ContainsAt(Choices, Parser.Negative, 8 + n + g);
    ContainsTransitive(p, Choices, Parser.Positive);
    ContainsTransitive(p, Choices, Parser.Neutral);
    ContainsTransitive(p, Choices, Parser.Negative);
  }
}
