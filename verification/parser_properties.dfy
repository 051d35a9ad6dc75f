/**
 * What the parser promises about a whole reply: where the summary comes
 * from, how the labelled lines and the whole-text search decide the
 * sentiment, and that case does not matter.
 */
module ParserProperties {
  import opened Wrappers
  import opened Text
  import opened Parser

  // ---------------------------------------------------------------------
  // Summary

  /**
   * The summary is absent exactly when no line is a summary line, whatever
   * the sentiment: the summary has no fallback.
   */
  lemma {:induction false} SummaryAbsentIffNoSummaryLine(response: string, lines: seq<string>)
    requires lines == SplitLines(response)
    ensures ParseResponse(response).summary.None? <==>
      forall i :: 0 <= i < |lines| ==> !IsSummaryLine(lines[i])
  {
    assert ParseResponse(response).summary == ScanKinds(Kinds(lines)).summary;
    NoSummaryLine(lines);
  }

  lemma {:induction false} NoSummaryLine(lines: seq<string>)
    ensures ScanKinds(Kinds(lines)).summary.None? <==>
      forall i :: 0 <= i < |lines| ==> !IsSummaryLine(lines[i])
  {
    var ks := Kinds(lines);
    forall i | 0 <= i < |lines|
      ensures ks[i].SummaryLine? <==> IsSummaryLine(lines[i])
    {
      assert ks[i] == KindOf(lines[i]);
    }
    ScanSummaryNone(ks);
  }

  /** The summary is the trimmed text after the tag of the last summary line. */
  lemma {:induction false} SummaryIsLastSummaryLine(response: string, lines: seq<string>, i: int)
    requires lines == SplitLines(response)
    requires 0 <= i < |lines| && IsSummaryLine(lines[i])
    requires forall j :: i < j < |lines| ==> !IsSummaryLine(lines[j])
    ensures ParseResponse(response).summary == Some(Trim(AfterTag(lines[i], SummaryLabel)))
  {
    var ks := Kinds(lines);
    ScanKeepsLast(ks, i);
  }

  // ---------------------------------------------------------------------
  // Sentiment

  /**
   * When some sentiment line names a keyword, the last such line decides
   * the sentiment: the first keyword, in priority order, of its lower-cased
   * text after the tag. Earlier lines and the rest of the reply play no part.
   */
  lemma {:induction false} SentimentFromLastKeywordLine(response: string, lines: seq<string>, i: int)
    requires lines == SplitLines(response)
    requires 0 <= i < |lines| && NamesKeyword(lines[i])
    requires forall j :: i < j < |lines| ==> !NamesKeyword(lines[j])
    ensures Some(ParseResponse(response).sentiment) ==
      Classify(Lower(Trim(AfterTag(lines[i], SentimentLabel))))
  {
    var ks := Kinds(lines);
    ScanKeepsLast(ks, i);
  }

  /**
   * When no sentiment line names a keyword, the whole lower-cased reply is
   * searched: the result is its first keyword in priority order, and
   * `unknown` when it holds none.
   */
  lemma {:induction false} FallbackSearchesWholeReply(response: string, lines: seq<string>)
    requires lines == SplitLines(response)
    requires forall i :: 0 <= i < |lines| ==> !NamesKeyword(lines[i])
    ensures forall k :: 0 <= k < |Keywords| ==>
      (ParseResponse(response).sentiment == Keywords[k] <==>
        Contains(Lower(response), Keywords[k]) && NoneBefore(Lower(response), k))
    ensures ParseResponse(response).sentiment == Unknown <==>
      NoneBefore(Lower(response), |Keywords|)
  {
    var ks := Kinds(lines);
    forall i | 0 <= i < |ks|
      ensures !Decisive(ks[i])
    {
      assert ks[i] == KindOf(lines[i]);
    }
    ScanSentimentNone(ks);
    assert ParseResponse(response).sentiment == Fallback(response);
  }

  /** The keyword a sentiment line names occurs in the lower-cased line. */
  lemma {:induction false} KeywordInLine(line: string)
    requires NamesKeyword(line)
    ensures Contains(Lower(line), KindOf(line).keyword.value)
  {
    TagsEndInColon();
    LabelValue(line, SentimentLabel);
    var value := Trim(AfterColon(line));
    var keyword := KindOf(line).keyword.value;
    assert Contains(Lower(value), keyword);
    TrimmedValueOfLine(line);
    ContainsLower(line, value);
    ContainsTransitive(Lower(line), Lower(value), keyword);
  }

  /** The keyword a sentiment line names occurs in the lower-cased reply. */
  lemma {:induction false} KeywordLineInReply(response: string, lines: seq<string>, i: int)
    requires lines == SplitLines(response)
    requires 0 <= i < |lines| && NamesKeyword(lines[i])
    ensures Contains(Lower(response), KindOf(lines[i]).keyword.value)
  {
    var line := lines[i];
    KeywordInLine(line);
    LineOfText(response, i);
    ContainsLower(response, line);
    ContainsTransitive(Lower(response), Lower(line), KindOf(line).keyword.value);
  }

  /**
   * The sentiment is `unknown` exactly when no keyword occurs anywhere in
   * the lower-cased reply; any other sentiment occurs in it.
   */
  lemma {:induction false} SentimentOccursInReply(response: string)
    ensures ParseResponse(response).sentiment == Unknown <==>
      NoneBefore(Lower(response), |Keywords|)
    ensures ParseResponse(response).sentiment != Unknown ==>
      Contains(Lower(response), ParseResponse(response).sentiment)
  {
    var lines := SplitLines(response);
    var ks := Kinds(lines);
    var st := ScanKinds(ks);
    LabelsDistinct();
    if st.sentiment.Some? {
      var j :| 0 <= j < |ks| && ks[j] == SentimentLine(st.sentiment);
      KeywordLineInReply(response, lines, j);
      assert st.sentiment.value in Keywords;
    } else {
      ScanSentimentNone(ks);
      FallbackSearchesWholeReply(response, lines);
    }
  }

  // ---------------------------------------------------------------------
  // Case does not matter

  /** Two classified lines that differ at most in the case of a summary. */
  predicate SameUpToCase(a: LineKind, b: LineKind) {
    || (a.SummaryLine? && b.SummaryLine? && Lower(a.value) == Lower(b.value))
    || (a.SentimentLine? && b.SentimentLine? && a.keyword == b.keyword)
    || (a.OtherLine? && b.OtherLine?)
  }

  /** Lines equal up to case are classified alike. */
  lemma {:induction false} LineIgnoresCase(l1: string, l2: string)
    requires Lower(l1) == Lower(l2)
    ensures SameUpToCase(KindOf(l1), KindOf(l2))
  {
    TagsEndInColon();
    if IsSummaryLine(l1) {
      LabelValue(l1, SummaryLabel);
      LabelValue(l2, SummaryLabel);
      ValueIgnoresCase(l1, l2);
    } else if IsSentimentLine(l1) {
      LabelValue(l1, SentimentLabel);
      LabelValue(l2, SentimentLabel);
      ValueIgnoresCase(l1, l2);
      LowerIdempotent(Trim(AfterColon(l1)));
      LowerIdempotent(Trim(AfterColon(l2)));
    }
  }

  lemma {:induction false} ValueIgnoresCase(l1: string, l2: string)
    requires Lower(l1) == Lower(l2) && ':' in l1 && ':' in l2
    ensures Lower(Trim(AfterColon(l1))) == Lower(Trim(AfterColon(l2)))
  {
    AfterColonLower(l1);
    AfterColonLower(l2);
    TrimLower(AfterColon(l1));
    TrimLower(AfterColon(l2));
  }

  lemma {:induction false} ScanIgnoresCase(ks1: seq<LineKind>, ks2: seq<LineKind>)
    requires |ks1| == |ks2|
    requires forall i :: 0 <= i < |ks1| ==> SameUpToCase(ks1[i], ks2[i])
    ensures ScanKinds(ks1).sentiment == ScanKinds(ks2).sentiment
    ensures ScanKinds(ks1).summary.None? <==> ScanKinds(ks2).summary.None?
    ensures ScanKinds(ks1).summary.Some? ==>
      Lower(ScanKinds(ks1).summary.value) == Lower(ScanKinds(ks2).summary.value)
    decreases |ks1|
  {
    if |ks1| > 0 {
      var n := |ks1| - 1;
      ScanIgnoresCase(ks1[..n], ks2[..n]);
      assert SameUpToCase(ks1[n], ks2[n]);
    }
  }

  /**
   * Replies equal up to case get the same sentiment, and summaries that
   * are both present or both absent and equal up to case: `SUMMARY:`,
   * `Summary:` and `summary:` behave alike, as do `Negative` and `negative`.
   */
  lemma {:induction false} ParseIgnoresCase(r1: string, r2: string)
    requires Lower(r1) == Lower(r2)
    ensures ParseResponse(r1).sentiment == ParseResponse(r2).sentiment
    ensures ParseResponse(r1).summary.None? <==> ParseResponse(r2).summary.None?
    ensures ParseResponse(r1).summary.Some? ==>
      Lower(ParseResponse(r1).summary.value) == Lower(ParseResponse(r2).summary.value)
  {
    var lines1, lines2 := SplitLines(r1), SplitLines(r2);
    SplitLinesLower(r1);
    SplitLinesLower(r2);
    assert LowerAll(lines1) == LowerAll(lines2);
    var ks1, ks2 := Kinds(lines1), Kinds(lines2);
    forall i | 0 <= i < |ks1|
      ensures SameUpToCase(ks1[i], ks2[i])
    {
      assert LowerAll(lines1)[i] == LowerAll(lines2)[i];
      LineIgnoresCase(lines1[i], lines2[i]);
    }
    ScanIgnoresCase(ks1, ks2);
  }
}
