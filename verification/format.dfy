/**
 * The reply format the prompt asks for, `SUMMARY: <summary>` on one line
 * and `SENTIMENT: <sentiment>` on the next, and the parser's reading of it.
 */
module ReplyFormat {
  import opened Wrappers
  import opened Text
  import opened Parser
  import opened ParserProperties

  /** The tags as the prompt writes them, upper case. */
  const SummaryTag: string := "SUMMARY:"
  const SentimentTag: string := "SENTIMENT:"

  /** A reply laid out exactly as the prompt requests. */
  function FormatReply(summary: string, sentiment: string): string {
    SummaryTag + " " + summary + "\n" + SentimentTag + " " + sentiment
  }

  /** The upper-case tags lower-case to the ones the parser looks for. */
  lemma TagsLowerToLabels()
    ensures Lower(SummaryTag) == SummaryLabel
    ensures Lower(SentimentTag) == SentimentLabel
  {
    var s, t := Lower(SummaryTag), Lower(SentimentTag);
    assert s[0] == 's' && s[1] == 'u' && s[2] == 'm' && s[3] == 'm';
    assert s[4] == 'a' && s[5] == 'r' && s[6] == 'y' && s[7] == ':';
    assert t[0] == 's' && t[1] == 'e' && t[2] == 'n' && t[3] == 't' && t[4] == 'i';
    assert t[5] == 'm' && t[6] == 'e' && t[7] == 'n' && t[8] == 't' && t[9] == ':';
  }

  /** `tag` followed by a space and `v` carries `Lower(tag)` as its label. */
  lemma {:induction false} TaggedLine(tag: string, v: string)
    requires |tag| > 0 && !IsSpace(tag[0]) && tag[|tag| - 1] == ':'
    ensures HasLabel(tag + [' '] + v, Lower(tag))
    ensures Lead(tag + [' '] + v) == 0
  {
    var line := tag + [' '] + v;
    LowerConcat(tag, [' '] + v);
    assert line == tag + ([' '] + v);
    LowerKeepsSpace(tag[0]);
    LowerKeepsSpace(tag[|tag| - 1]);
    TrimKeepsPrefix(Lower(tag), Lower([' '] + v));
    assert line[0] == tag[0];
  }

  /** The summary line of a formatted reply is read back as its summary. */
  lemma {:induction false} SummaryLineRead(summary: string)
    requires Trim(summary) == summary
    ensures IsSummaryLine(SummaryTag + [' '] + summary)
    ensures KindOf(SummaryTag + [' '] + summary) == SummaryLine(summary)
  {
    var line := SummaryTag + [' '] + summary;
    TagsLowerToLabels();
    TaggedLine(SummaryTag, summary);
    assert AfterTag(line, SummaryLabel) == [' '] + summary;
    TrimSpaceThen(summary);
  }

  /**
   * A reply in the requested format is read back exactly: its summary,
   * even an empty one, and its sentiment keyword.
   */
  lemma {:induction false} FormatRoundTrip(summary: string, sentiment: string)
    requires '\n' !in summary && Trim(summary) == summary
    requires sentiment in Keywords
    ensures ParseResponse(FormatReply(summary, sentiment)) == Analysis(Some(summary), sentiment)
  {
    FormatLines(summary, sentiment);
    SummaryLineRead(summary);
    SentimentLineRead(sentiment);
    TwoLineReply(FormatReply(summary, sentiment),
      [SummaryTag + [' '] + summary, SentimentTag + [' '] + sentiment]);
  }

  /** A reply of a summary line followed by a sentiment line naming a keyword. */
  lemma {:induction false} TwoLineReply(reply: string, lines: seq<string>)
    requires lines == SplitLines(reply) && |lines| == 2
    requires KindOf(lines[0]).SummaryLine?
    requires KindOf(lines[1]).SentimentLine? && KindOf(lines[1]).keyword.Some?
    ensures ParseResponse(reply) == Analysis(Some(KindOf(lines[0]).value), KindOf(lines[1]).keyword.value)
  {
    assert IsSummaryLine(lines[0]) && NamesKeyword(lines[1]);
    forall j | 0 < j < |lines|
      ensures !IsSummaryLine(lines[j])
    {
      assert j == 1;
    }
    SummaryIsLastSummaryLine(reply, lines, 0);
    SentimentFromLastKeywordLine(reply, lines, 1);
  }

  /** A formatted reply splits into its two lines. */
  lemma {:induction false} FormatLines(summary: string, sentiment: string)
    requires '\n' !in summary && sentiment in Keywords
    ensures SplitLines(FormatReply(summary, sentiment)) ==
      [SummaryTag + [' '] + summary, SentimentTag + [' '] + sentiment]
  {
    var l1, l2 := SummaryTag + [' '] + summary, SentimentTag + [' '] + sentiment;
    var lines := [l1, l2];
    assert Keywords[0] == Positive && Keywords[1] == Neutral && Keywords[2] == Negative;
    assert '\n' !in SummaryTag && '\n' !in SentimentTag && '\n' !in sentiment;
    assert Join(lines[1..]) == l2;
    assert Join(lines) == FormatReply(summary, sentiment);
    SplitJoin(lines);
  }

  /** The sentiment line of a formatted reply is read back as its keyword. */
  lemma {:induction false} SentimentLineRead(sentiment: string)
    requires sentiment in Keywords
    ensures IsSentimentLine(SentimentTag + [' '] + sentiment)
    ensures KindOf(SentimentTag + [' '] + sentiment) == SentimentLine(Some(sentiment))
  {
    var line := SentimentTag + [' '] + sentiment;
    TagsLowerToLabels();
    TaggedLine(SentimentTag, sentiment);
    var t := Trim(Lower(line));
    assert t[..|SentimentLabel|] == SentimentLabel;
    assert t[..|SentimentLabel|][1] == t[1];
    assert !StartsWith(t, SummaryLabel) by {
      assert |SummaryLabel| <= |t| ==> t[..|SummaryLabel|][1] == t[1];
    }
    assert AfterTag(line, SentimentLabel) == [' '] + sentiment;
    KeywordReadsAsItself(sentiment);
    TrimSpaceThen(sentiment);
  }

  /** A keyword is trimmed, lower case, and classified as itself. */
  lemma KeywordReadsAsItself(w: string)
    requires w in Keywords
    ensures Trim(w) == w && Lower(w) == w && Classify(w) == Some(w)
  {
    assert Keywords[0] == Positive && Keywords[1] == Neutral && Keywords[2] == Negative;
    LowerKeyword(w);
    TrimUnpadded(w);
    ClassifyKeyword(w);
  }

  lemma ClassifyKeyword(w: string)
    requires w in Keywords
    ensures Classify(w) == Some(w)
  {
    assert Keywords[0] == Positive && Keywords[1] == Neutral && Keywords[2] == Negative;
    assert StartsWith(w, w);
    if w == Neutral {
      MissingCharNotContained(Neutral, Positive, 'p');
    } else if w == Negative {
      MissingCharNotContained(Negative, Positive, 'p');
      MissingCharNotContained(Negative, Neutral, 'u');
    }
  }

  /** Text made only of lower-case letters is its own lower-casing. */
  lemma {:induction false} LowerKeyword(w: string)
    requires forall i :: 0 <= i < |w| ==> 'a' <= w[i] <= 'z'
    ensures Lower(w) == w
  {
  }
}
