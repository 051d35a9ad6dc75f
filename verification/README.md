# Customer call analysis: a Dafny model of the reply parser and the `/analyze` handler

The application takes a customer-service call transcript. It builds a prompt around the transcript and sends it to a language model. It then reads a summary and a sentiment label out of the model's free-text reply. Finally, the `/analyze` endpoint answers with the result and appends a row to a CSV log. This project models the three pieces of `app.py` that hold the logic.

- **The reply parser** (`analyze_transcript`, app.py:57-87) is a pure function from the reply text to an optional summary and a sentiment label. It splits the reply on `\n`. A line is a summary line when its lower-cased, stripped form starts with `summary:`. Otherwise it is a sentiment line when that form starts with `sentiment:`. The value of either is the stripped text after the line's first colon. A sentiment value names the first of `positive`, `neutral`, `negative` it contains, in that order. The last summary line, and the last sentiment line naming a keyword, win. When no sentiment line names a keyword, the whole lower-cased reply is searched in the same order, and `unknown` is the result when none occurs. Files: `text.dfy` holds the Python string operations, `parser.dfy` the parser, and `parser_properties.dfy` what it promises about whole replies.
- **The prompt** (app.py:26-39) is a fixed instruction text with the transcript inserted verbatim (`prompt.dfy`). `format.dfy` shows that a reply written in the format the prompt asks for is parsed back exactly.
- **`analyze_transcript` and the `/analyze` handler** (app.py:19-90, 113-132) are in `handler.dfy`:
  - The handler rejects an empty transcript before any analysis.
  - It turns an analysis without a summary into an error whose text is the analysis's second component.
  - Otherwise it returns the transcript, summary and sentiment and appends exactly one row to the log.
  - The log is a sequence of rows. The language model is a function parameter from prompt to reply. A handler run on its own takes the analysis as a parameter. In a run of several requests each request gets its own analysis, because the model samples its replies and the same transcript may be analysed differently twice.

Modelling choices:

- Python's `str.lower()` is modelled as ASCII lower-casing.
- `str.strip()` removes space, tab, `\r` and `\n`.
- `p in s` is substring containment.
- `s.split(':', 1)[1]` is the text after the first colon. It is total on every line the parser applies it to: a tagged line always has a colon, and it is the one ending the tag (`Parser.LabelValue`).
- `Option.None` stands for Python's `None`.
- The prompt literal sits in a file with CRLF line ends. Python reads those as `\n` inside the string, so the template holds `\n` only.

Two behaviours of the code that a reader might not expect, both modelled as written:

- A line `SUMMARY:` with nothing after it gives the empty summary, and the handler accepts it and logs an empty summary (`ReplyFormat.FormatRoundTrip` covers the empty summary).
- A reply without a summary line is answered with `{"error": <sentiment>}`, so the error text is one of the four sentiment labels (`Handler.MissingSummaryIsAnError`).

## Model

| member | source | states |
|---|---|---|
| Text.Trim | app.py:63-67 | `strip()`: the result is the slice of the input that starts right after its leading whitespace and is followed by whitespace only; it neither starts nor ends with whitespace |
| Text.Lower | app.py:63 | `lower()`: same length; every ASCII upper-case letter becomes its lower-case partner, every other character stays, and the result holds no upper-case ASCII letter |
| Text.StartsWithAgrees | app.py:64-66 | `startswith()` (the predicate `Text.StartsWith`) holds exactly when the prefix is no longer than the text and agrees with it at every index of the prefix; when it fails, the prefix is longer or differs at some index |
| Text.StartsWithIff | app.py:64-66 | `s.startswith(p)` holds exactly when `s` is `p` followed by some text |
| Text.AfterColon | app.py:65 | `split(':', 1)[1]`: the input is the colon-free text before the first colon, the colon, then the result |
| Text.SplitLines | app.py:61 | `split('\n')`: at least one piece, and no piece holds a newline |
| Text.JoinSplit | app.py:61 | joining the pieces of `split('\n')` with newlines gives back the text |
| Text.SplitJoin | app.py:61 | splitting newline-joined, newline-free lines gives back exactly those lines |
| Text.ContainsIff | app.py:69-83 | Python's `in` holds exactly when the pattern occurs at some index of the text |
| Text.ContainsLower | app.py:78-82 | a substring of a text stays a substring once both are lower-cased |
| Text.TrimLower | app.py:63-67 | stripping and lower-casing commute |
| Text.SplitLinesLower | app.py:61-63 | splitting the lower-cased reply gives the lower-cased lines |
| Parser.Classify | app.py:69-74 | the keyword chosen is `Keywords[k]` exactly when the text contains it and none of higher priority; nothing is chosen exactly when the text holds none of the three |
| Parser.LabelValue | app.py:63-67 | on a line whose stripped, lower-cased form starts with the tag, the first colon is the tag's own, so the value is exactly what follows the tag |
| Parser.KindOf | app.py:62-74 | a line is a summary line exactly when its stripped lower-cased form starts with `summary:`; it is a sentiment line exactly when that form starts with `sentiment:` and it is not a summary line; the summary value is the stripped text after the tag; the sentiment keyword is the classification of the lower-cased stripped text after the tag |
| Parser.Step | app.py:62-74 | one loop iteration: a summary line replaces the summary and keeps the sentiment; a sentiment line naming a keyword replaces the sentiment and keeps the summary; any other line changes nothing; a field changes only on a line of its own kind |
| Parser.ScanKinds | app.py:57-74 | a sentiment the line loop finds was set by some sentiment line naming it |
| Parser.ScanConcat | app.py:62-74 | the loop over `a + b` keeps whatever `b` set and falls back to what `a` set |
| Parser.ScanSummaryNone | app.py:57-65 | the loop leaves the summary unset exactly when no line is a summary line |
| Parser.ScanSentimentNone | app.py:58-74 | the loop leaves the sentiment unset exactly when no sentiment line names a keyword |
| Parser.ScanKeepsLast | app.py:62-74 | the loop ends with the value of the last summary line and the keyword of the last sentiment line naming one |
| Parser.LaterLinesOverride | app.py:62-74 | later lines that set a field override earlier ones; later lines that set nothing (a sentiment line without a keyword included) leave the earlier value |
| Parser.Fallback | app.py:77-85 | the whole-reply search gives `Keywords[k]` exactly when the lower-cased reply contains it and none of higher priority, and `unknown` exactly when it contains none |
| Parser.ParseResponse | app.py:57-87 | the sentiment is always one of `positive`, `neutral`, `negative`, `unknown` |
| ParserProperties.SummaryAbsentIffNoSummaryLine | app.py:57-65 | the summary is absent exactly when no line is a summary line, whatever the sentiment |
| ParserProperties.SummaryIsLastSummaryLine | app.py:62-65 | the summary is the stripped text after the tag of the last summary line |
| ParserProperties.SentimentFromLastKeywordLine | app.py:62-74 | when a sentiment line names a keyword, the last such line alone decides the sentiment |
| ParserProperties.FallbackSearchesWholeReply | app.py:77-85 | when no sentiment line names a keyword, the sentiment is the highest-priority keyword in the lower-cased reply, or `unknown` when it holds none |
| ParserProperties.KeywordLineInReply | app.py:66-74 | the keyword a sentiment line names occurs in the lower-cased reply |
| ParserProperties.SentimentOccursInReply | app.py:69-85 | the sentiment is `unknown` exactly when no keyword occurs anywhere in the lower-cased reply; any other sentiment occurs in it |
| ParserProperties.LineIgnoresCase | app.py:63-67 | lines that differ only in case are classified alike, with summaries equal up to case and the same keyword |
| ParserProperties.ParseIgnoresCase | app.py:63-82 | replies that differ only in case get the same sentiment, and summaries that are both absent or equal up to case |
| Prompt.BuildPrompt | app.py:26-39 | the prompt is the fixed preamble, then the transcript starting right after the preamble, then the fixed tail |
| Prompt.TranscriptOf | app.py:26-39 | reading a transcript back out of a prompt gives one that rebuilds that very prompt |
| Prompt.TranscriptRoundTrip | app.py:26-39 | the transcript is read back from the prompt built around it |
| Prompt.BuildPromptInjective | app.py:26-39 | different transcripts give different prompts |
| Prompt.PromptEmbedsTranscript | app.py:37-38 | the prompt contains the transcript verbatim |
| Prompt.PromptNamesEveryKeyword | app.py:29 | the instructions name each of the three keywords the parser looks for |
| ReplyFormat.SummaryLineRead | app.py:64-65 | `SUMMARY: v` with an already-stripped `v` is a summary line whose value is `v` |
| ReplyFormat.SentimentLineRead | app.py:66-74 | `SENTIMENT: w` with a keyword `w` is a sentiment line naming `w` |
| ReplyFormat.FormatRoundTrip | app.py:31-87 | a reply in the format the prompt requests is parsed back to its summary, even an empty one, and its keyword |
| Handler.AnalyzeTranscript | app.py:19-90 | without a client: no summary and the fixed "client not initialized" text; a failed model call gives no summary and the failure text after the fixed prefix; a reply is parsed |
| Handler.ErrorsAreNotLabels | app.py:19-90 | the second component is a sentiment label exactly when the model replied, and a summary only ever comes with a label |
| Handler.Handle | app.py:114-132 | the answer is an error exactly when the log is unchanged, and exactly when the transcript is empty or the analysis has no summary; an empty transcript gets "No transcript provided"; an analysis without a summary gets its second component as the error text; otherwise it returns the transcript with the analysis's summary and sentiment and appends exactly that one row |
| Handler.Analyze | app.py:114-132 | the application's answer: an empty transcript gets "No transcript provided", a missing client "Error: Groq client not initialized", a failed model call the failure text after "Error analyzing transcript: ", all with the log unchanged; a reply without a summary line gets its parsed sentiment as the error; any other reply is answered with the transcript, summary and sentiment, and exactly that row is appended |
| Handler.MissingClientIsAnError | app.py:21-22 | without a client a non-empty transcript gets "Error: Groq client not initialized" and an unchanged log, whatever the model would reply |
| Handler.FailedCallIsAnError | app.py:89-90 | a failed model call gets the prefixed failure text, which is never a sentiment label, and an unchanged log |
| Handler.EmptyTranscriptSkipsAnalysis | app.py:117-118 | an empty transcript is answered with "No transcript provided" and an unchanged log, whatever the analysis would have done |
| Handler.MissingSummaryIsAnError | app.py:120-123 | a reply without a summary line gives an error whose text is the parsed sentiment label, and nothing is logged |
| Handler.LoggedSentimentIsLabel | app.py:120-132 | a successful answer carries one of the four sentiment labels |
| Handler.Serve | app.py:113-132 | over a run of requests, each with its own analysis, answer `i` is "No transcript provided" when transcript `i` is empty, the second component of request `i`'s analysis when that analysis has no summary, and otherwise transcript `i` with that analysis's summary and sentiment; it is an error exactly in the first two cases |
| Handler.ServeAppendsRows | app.py:96-107 | after a run of requests the log is the old log followed by one row per successful answer, in request order |

## Left out

- The Groq client and the `chat.completions.create` call (app.py:13-17, 42-55) are not modelled. The model call is the parameter `complete`, which returns either a reply or a failure with its message. A client that failed to initialise is the flag `clientReady`.
- The request's model name, `temperature` and `max_tokens` (app.py:50-52) are left out. They only configure the remote call. Because `temperature` is not zero the replies are sampled, so `Handler.Serve` gives every request an analysis of its own rather than one function shared by all requests. Within a single request, `complete` is one function, which is enough because `analyze_transcript` calls the model once.
- Exceptions (app.py:89-90): any exception is the failure outcome of `complete`, and its `str(e)` is the failure's message. A reply whose content is `None` raises inside the parser in Python. It is covered by the same failure outcome, since the reply parameter is always a string.
- The CSV file (app.py:92-107) is modelled only as appending one (transcript, summary, sentiment) row. Its header-on-first-write, quoting and encoding are file-system and library behaviour. A failure while writing it is not modelled.
- Flask routing, `render_template`, `jsonify` and `load_dotenv` (app.py:3-10, 109-111, 134-135) are left out. `request.form.get('transcript', '')` is the handler's string parameter, and an absent field is the empty string.
- Concurrent requests appending to the same file are left out. `Handler.Serve` handles requests one after another.
- Parser.ScanKinds: its own contract says only that a sentiment it finds came from some line. Which line wins is stated by Parser.ScanKeepsLast and Parser.LaterLinesOverride.
- Parser.ParseResponse: its own contract says only that the sentiment is one of the four labels. The rest of what it returns is stated by the ParserProperties lemmas in the table.
- Text.SplitLines: its own contract says only that the pieces hold no newline. That they are exactly the text's lines is stated by Text.JoinSplit and Text.SplitJoin.
- Text.Lower: lower-cases ASCII `A`–`Z` only. Python's `str.lower()` also maps other letters, some into several characters, so the model is exact only for ASCII replies.
- Text.Trim: removes only space, tab, `\r` and `\n`. Python's `str.strip()` also removes `\v`, `\f`, `\x1c`–`\x1f`, `\x85` and the Unicode spaces.
