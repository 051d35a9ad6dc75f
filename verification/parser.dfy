/**
 * The response parser of `analyze_transcript`: it turns the model's free-text
 * reply into an optional summary and a sentiment label, first by scanning
 * labelled lines and then, for the sentiment only, by searching the whole
 * reply.
 */
module Parser {
  import opened Wrappers
  import opened Text

  const Positive: string := "positive"
  const Neutral: string := "neutral"
  const Negative: string := "negative"

  /** The sentiment keywords, highest priority first. */
  const Keywords: seq<string> := [Positive, Neutral, Negative]

  /** The label given when no keyword appears anywhere. */
  const Unknown: string := "unknown"

  const SummaryLabel: string := "summary:"
  const SentimentLabel: string := "sentiment:"

  /** Both tags end in their only colon. */
  lemma TagsEndInColon()
    ensures SummaryLabel[|SummaryLabel| - 1] == ':' && ':' !in SummaryLabel[..|SummaryLabel| - 1]
    ensures SentimentLabel[|SentimentLabel| - 1] == ':' && ':' !in SentimentLabel[..|SentimentLabel| - 1]
  {
  }

  /** The four labels differ from one another. */
  lemma LabelsDistinct()
    ensures forall k :: 0 <= k < |Keywords| ==> Keywords[k] != Unknown
    ensures forall j, k :: 0 <= j < k < |Keywords| ==> Keywords[j] != Keywords[k]
  {
    assert Keywords[0] == Positive && Keywords[1] == Neutral && Keywords[2] == Negative;
    assert Positive[0] != Negative[0] && Neutral[0] != Unknown[0] && Negative[0] != Unknown[0];
  }

  /** The four labels a parsed sentiment can take. */
  predicate IsLabel(s: string) {
    s in Keywords || s == Unknown
  }

  /** `text` contains none of the keywords ranked above `k`. */
  predicate NoneBefore(text: string, k: int)
    requires 0 <= k <= |Keywords|
  {
    forall j :: 0 <= j < k ==> !Contains(text, Keywords[j])
  }

  /**
   * The `if "positive" in t ... elif "neutral" ... elif "negative"` chain:
   * the result is the first keyword of the priority table that `text`
   * contains, or None when it contains none of them.
   */
  function Classify(text: string): (r: Option<string>)
    ensures forall k :: 0 <= k < |Keywords| ==>
      (r == Some(Keywords[k]) <==> Contains(text, Keywords[k]) && NoneBefore(text, k))
    ensures r.None? <==> NoneBefore(text, |Keywords|)
    ensures r.Some? ==> r.value in Keywords
  {
    assert Positive[0] != Negative[0] && |Neutral| < |Positive|;
    assert Keywords[0] == Positive && Keywords[1] == Neutral && Keywords[2] == Negative;
    if Contains(text, Positive) then Some(Positive)
    else if Contains(text, Neutral) then Some(Neutral)
    else if Contains(text, Negative) then Some(Negative)
    else None
  }

  // ---------------------------------------------------------------------
  // One line of the reply

  /** The trimmed, lower-cased line starts with `tag`; `label` is reserved in Dafny. */
  predicate HasLabel(line: string, tag: string) {
    StartsWith(Trim(Lower(line)), tag)
  }

  predicate IsSummaryLine(line: string) {
    HasLabel(line, SummaryLabel)
  }

  /** Applies only to a line that is not a summary line (the `elif`). */
  predicate IsSentimentLine(line: string) {
    !IsSummaryLine(line) && HasLabel(line, SentimentLabel)
  }

  /**
   * A labelled line's first colon is the one that ends its tag: leading
   * whitespace and the tag's letters hold none.
   */
  lemma {:induction false} LabelColon(line: string, tag: string)
    requires |tag| > 0 && tag[|tag| - 1] == ':'
    requires ':' !in tag[..|tag| - 1]
    requires HasLabel(line, tag)
    ensures ':' in line
    ensures ColonIndex(line) == Lead(line) + |tag| - 1
  {
    LabelLetters(line, tag);
    FirstColonEndsTag(line, tag, Lead(line));
  }

  /**
   * If `tag`, whose only colon is its last character, sits at index `a`
   * of `line` up to case and only whitespace comes before it, the first
   * colon of `line` is the one that ends the tag.
   */
  lemma {:induction false} FirstColonEndsTag(line: string, tag: string, a: nat)
    requires |tag| > 0 && tag[|tag| - 1] == ':'
    requires ':' !in tag[..|tag| - 1]
    requires ColonsAt(line, tag, a) && AllSpace(line[..a])
    ensures ':' in line
    ensures ColonIndex(line) == a + |tag| - 1
  {
    var c := a + |tag| - 1;
    forall k | 0 <= k < c
      ensures line[k] != ':'
    {
      if k < a {
        assert line[..a][k] == line[k];
      } else {
        var j := k - a;
        assert tag[..|tag| - 1][j] == tag[j];
        assert line[a + j] == ':' <==> tag[j] == ':';
      }
    }
    assert line[a + (|tag| - 1)] == ':' <==> tag[|tag| - 1] == ':';
    ColonIndexUnique(line, c);
  }

  /** A labelled line's value is what follows its tag. */
  lemma {:induction false} LabelValue(line: string, tag: string)
    requires |tag| > 0 && tag[|tag| - 1] == ':'
    requires ':' !in tag[..|tag| - 1]
    requires HasLabel(line, tag)
    ensures ':' in line
    ensures Lead(line) + |tag| <= |line|
    ensures AfterColon(line) == line[Lead(line) + |tag|..]
  {
    LabelColon(line, tag);
  }

  /** `tag` fits in `line` at index `a`, with colons exactly where `tag` has them. */
  predicate ColonsAt(line: string, tag: string, a: nat) {
    && a + |tag| <= |line|
    && forall k {:trigger tag[k]} :: 0 <= k < |tag| ==> (line[a + k] == ':' <==> tag[k] == ':')
  }

  /** The characters of a labelled line's tag, up to case. */
  lemma {:induction false} LabelLetters(line: string, tag: string)
    requires HasLabel(line, tag)
    ensures ColonsAt(line, tag, Lead(line))
  {
    TrimStartsWith(Lower(line), tag);
    LeadLower(line);
    forall k | 0 <= k < |tag|
      ensures line[Lead(line) + k] == ':' <==> tag[k] == ':'
    {
      LabelLetterAt(line, tag, k);
    }
  }

  lemma {:induction false} LabelLetterAt(line: string, tag: string, k: int)
    requires HasLabel(line, tag) && 0 <= k < |tag|
    ensures Lead(line) + k < |line|
    ensures line[Lead(line) + k] == ':' <==> tag[k] == ':'
  {
    var low := Lower(line);
    TrimStartsWithAt(low, tag, k);
    LeadLower(line);
    var i := Lead(line) + k;
    assert low[i] == LowerChar(line[i]);
    LowerKeepsSpace(line[i]);
  }

  /** What follows the tag of a labelled line. */
  function AfterTag(line: string, tag: string): string
    requires HasLabel(line, tag)
  {
    LabelLetters(line, tag);
    line[Lead(line) + |tag|..]
  }

  /** A line whose text after the `sentiment:` tag names a keyword. */
  predicate NamesKeyword(line: string) {
    Decisive(KindOf(line))
  }

  /** How the loop over lines treats one line. */
  datatype LineKind =
    | SummaryLine(value: string)
    | SentimentLine(keyword: Option<string>)
    | OtherLine

  /**
   * One line classified as the loop body does. A summary line's value is
   * the trimmed text after its tag; a sentiment line carries the keyword
   * its lower-cased, trimmed text after the tag names, if any. A line that
   * is a summary line is never a sentiment line.
   */
  function KindOf(line: string): (k: LineKind)
    ensures k.SummaryLine? <==> IsSummaryLine(line)
    ensures k.SentimentLine? <==> IsSentimentLine(line)
    ensures k.SummaryLine? ==> k.value == Trim(AfterTag(line, SummaryLabel))
    ensures k.SentimentLine? ==>
      k.keyword == Classify(Lower(Trim(AfterTag(line, SentimentLabel))))
  {
    if IsSummaryLine(line) then
      TagsEndInColon();
      LabelValue(line, SummaryLabel);
      SummaryLine(Trim(AfterColon(line)))
    else if HasLabel(line, SentimentLabel) then
      TagsEndInColon();
      LabelValue(line, SentimentLabel);
      SentimentLine(Classify(Lower(Trim(AfterColon(line)))))
    else
      OtherLine
  }

  /** `line.split('\n')` classified line by line. */
  function Kinds(lines: seq<string>): (ks: seq<LineKind>)
    ensures |ks| == |lines|
    ensures forall i :: 0 <= i < |lines| ==> ks[i] == KindOf(lines[i])
  {
    seq(|lines|, i requires 0 <= i < |lines| => KindOf(lines[i]))
  }

  /** A sentiment line that names a keyword, and so sets the sentiment. */
  predicate Decisive(k: LineKind) {
    k.SentimentLine? && k.keyword.Some?
  }

  // ---------------------------------------------------------------------
  // The line scan

  /** What the scan has found so far; None is Python's `None`. */
  datatype Scan = Scan(summary: Option<string>, sentiment: Option<string>)

  /**
   * One iteration of the loop: a summary line sets the summary, a sentiment
   * line naming a keyword sets the sentiment, every other line (a sentiment
   * line naming none included) changes nothing.
   */
  function Step(st: Scan, k: LineKind): (r: Scan)
    ensures k.SummaryLine? ==> r == Scan(Some(k.value), st.sentiment)
    ensures Decisive(k) ==> r == Scan(st.summary, k.keyword)
    ensures !k.SummaryLine? && !Decisive(k) ==> r == st
    ensures r.summary != st.summary ==> k.SummaryLine?
    ensures r.sentiment != st.sentiment ==> Decisive(k)
  {
    match k
    case SummaryLine(v) => st.(summary := Some(v))
    case SentimentLine(Some(w)) => st.(sentiment := Some(w))
    case _ => st
  }

  /** The loop over all lines, from a state with nothing found. */
  function ScanKinds(ks: seq<LineKind>): (r: Scan)
    ensures r.sentiment.Some? ==> exists i :: 0 <= i < |ks| && ks[i] == SentimentLine(r.sentiment)
  {
    if |ks| == 0 then Scan(None, None)
    else Step(ScanKinds(ks[..|ks| - 1]), ks[|ks| - 1])
  }

  /** The state after `earlier` lines and then `later` lines. */
  function Merge(earlier: Scan, later: Scan): Scan {
    Scan(if later.summary.Some? then later.summary else earlier.summary,
         if later.sentiment.Some? then later.sentiment else earlier.sentiment)
  }

  /** Scanning `a + b` keeps what `b` found and falls back to `a` for the rest. */
  lemma {:induction false} ScanConcat(a: seq<LineKind>, b: seq<LineKind>)
    ensures ScanKinds(a + b) == Merge(ScanKinds(a), ScanKinds(b))
    decreases |b|
  {
    if |b| == 0 {
      assert a + b == a;
    } else {
      var init := b[..|b| - 1];
      assert (a + b)[..|a + b| - 1] == a + init;
      assert (a + b)[|a + b| - 1] == b[|b| - 1];
      ScanConcat(a, init);
    }
  }

  /** The scan finds a summary exactly when some line is a summary line. */
  lemma {:induction false} ScanSummaryNone(ks: seq<LineKind>)
    ensures ScanKinds(ks).summary.None? <==> forall i :: 0 <= i < |ks| ==> !ks[i].SummaryLine?
    decreases |ks|
  {
    if |ks| > 0 {
      var init := ks[..|ks| - 1];
      ScanSummaryNone(init);
      assert forall i :: 0 <= i < |init| ==> init[i] == ks[i];
    }
  }

  /** The scan finds a sentiment exactly when some line is decisive. */
  lemma {:induction false} ScanSentimentNone(ks: seq<LineKind>)
    ensures ScanKinds(ks).sentiment.None? <==> forall i :: 0 <= i < |ks| ==> !Decisive(ks[i])
    decreases |ks|
  {
    if |ks| > 0 {
      var init := ks[..|ks| - 1];
      ScanSentimentNone(init);
      assert forall i :: 0 <= i < |init| ==> init[i] == ks[i];
    }
  }

  /**
   * The scan keeps the value of the last summary line and the keyword of
   * the last decisive sentiment line.
   */
  lemma {:induction false} ScanKeepsLast(ks: seq<LineKind>, i: int)
    requires 0 <= i < |ks|
    ensures ks[i].SummaryLine? && (forall j :: i < j < |ks| ==> !ks[j].SummaryLine?)
      ==> ScanKinds(ks).summary == Some(ks[i].value)
    ensures Decisive(ks[i]) && (forall j :: i < j < |ks| ==> !Decisive(ks[j]))
      ==> ScanKinds(ks).sentiment == ks[i].keyword
  {
    var a, b := ks[..i + 1], ks[i + 1..];
    assert ks == a + b;
    ScanConcat(a, b);
    assert a[..|a| - 1] == ks[..i];
    assert a[|a| - 1] == ks[i];
    assert ScanKinds(a) == Step(ScanKinds(ks[..i]), ks[i]);
    ScanSummaryNone(b);
    ScanSentimentNone(b);
    assert forall j :: 0 <= j < |b| ==> b[j] == ks[i + 1 + j];
  }

  /**
   * Later lines override earlier ones: after `a + b`, each field holds what
   * `b` set when `b` sets it, and what `a` set otherwise.
   */
  lemma {:induction false} LaterLinesOverride(a: seq<LineKind>, b: seq<LineKind>)
    ensures (exists i :: 0 <= i < |b| && Decisive(b[i]))
      ==> ScanKinds(a + b).sentiment == ScanKinds(b).sentiment
    ensures (forall i :: 0 <= i < |b| ==> !Decisive(b[i]))
      ==> ScanKinds(a + b).sentiment == ScanKinds(a).sentiment
    ensures (exists i :: 0 <= i < |b| && b[i].SummaryLine?)
      ==> ScanKinds(a + b).summary == ScanKinds(b).summary
    ensures (forall i :: 0 <= i < |b| ==> !b[i].SummaryLine?)
      ==> ScanKinds(a + b).summary == ScanKinds(a).summary
  {
    ScanConcat(a, b);
    ScanSummaryNone(b);
    ScanSentimentNone(b);
  }

  // ---------------------------------------------------------------------
  // The whole parser

  /** What `analyze_transcript` returns: Python's `(summary, sentiment)`. */
  datatype Analysis = Analysis(summary: Option<string>, sentiment: string)

  /** Keyword search over the whole reply, `unknown` when none is found. */
  function Fallback(response: string): (s: string)
    ensures IsLabel(s)
    ensures forall k :: 0 <= k < |Keywords| ==>
      (s == Keywords[k] <==> Contains(Lower(response), Keywords[k]) && NoneBefore(Lower(response), k))
    ensures s == Unknown <==> NoneBefore(Lower(response), |Keywords|)
  {
    LabelsDistinct();
    match Classify(Lower(response))
    case Some(k) => k
    case None => Unknown
  }

  /**
   * The parser: scan the lines, then search the whole reply for a
   * sentiment only if no labelled line named one.
   */
  function ParseResponse(response: string): (a: Analysis)
    ensures IsLabel(a.sentiment)
  {
    var st := ScanKinds(Kinds(SplitLines(response)));
    var sentiment :=
      match st.sentiment
      case Some(k) => k
      case None => Fallback(response);
    Analysis(st.summary, sentiment)
  }
}
