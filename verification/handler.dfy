/**
 * `analyze_transcript` around the parser, and the `/analyze` request
 * handler with the analysis log it appends to. The language model is a
 * parameter from prompt to reply; the CSV file is a sequence of rows.
 */
module Handler {
  import opened Wrappers
  import opened Parser
  import opened Prompt

  // ---------------------------------------------------------------------
  // analyze_transcript

  /** What the model call gives back: the reply text, or the raised exception's text. */
  datatype Reply = Completion(content: string) | Failure(message: string)

  const ClientMissing: string := "Error: Groq client not initialized"
  const FailurePrefix: string := "Error analyzing transcript: "

  /**
   * `analyze_transcript`: without a client, or when the model call fails,
   * no summary and an error text in place of the sentiment; otherwise the
   * parsed reply to the prompt built from the transcript.
   */
  function AnalyzeTranscript(transcript: string, clientReady: bool, complete: string -> Reply): (a: Analysis)
    ensures !clientReady ==> a == Analysis(None, ClientMissing)
    ensures clientReady && complete(BuildPrompt(transcript)).Failure? ==>
      a == Analysis(None, FailurePrefix + complete(BuildPrompt(transcript)).message)
    ensures clientReady && complete(BuildPrompt(transcript)).Completion? ==>
      a == ParseResponse(complete(BuildPrompt(transcript)).content)
  {
    if !clientReady then Analysis(None, ClientMissing)
    else
      match complete(BuildPrompt(transcript))
      case Failure(m) => Analysis(None, FailurePrefix + m)
      case Completion(text) => ParseResponse(text)
  }

  /**
   * The second component tells errors from analyses: it is one of the four
   * labels exactly when the model replied, and a summary is only ever
   * present alongside a label.
   */
  lemma {:induction false} ErrorsAreNotLabels(transcript: string, clientReady: bool, complete: string -> Reply)
    ensures IsLabel(AnalyzeTranscript(transcript, clientReady, complete).sentiment) <==>
      clientReady && complete(BuildPrompt(transcript)).Completion?
    ensures AnalyzeTranscript(transcript, clientReady, complete).summary.Some? ==>
      IsLabel(AnalyzeTranscript(transcript, clientReady, complete).sentiment)
  {
    var a := AnalyzeTranscript(transcript, clientReady, complete);
    if !clientReady {
      assert |ClientMissing| > 10;
    } else if complete(BuildPrompt(transcript)).Failure? {
      assert |a.sentiment| >= |FailurePrefix| > 10;
    }
  }

  // ---------------------------------------------------------------------
  // The /analyze handler

  /** One row of the analysis log: transcript, summary, sentiment. */
  datatype Row = Row(transcript: string, summary: string, sentiment: string)

  /** The JSON body `/analyze` answers with. */
  datatype Response =
    | Error(message: string)
    | Result(transcript: string, summary: string, sentiment: string)

  /** The response together with the log after the request. */
  datatype Outcome = Outcome(response: Response, log: seq<Row>)

  const NoTranscript: string := "No transcript provided"

  /** The row a successful response stands for. */
  function RowOf(r: Response): Row
    requires r.Result?
  {
    Row(r.transcript, r.summary, r.sentiment)
  }

  /**
   * `analyze`: an empty transcript is rejected before any analysis; an
   * analysis without a summary is answered with its second component as
   * the error; otherwise the transcript, summary and sentiment are
   * returned and appended to the log as one row.
   */
  function Handle(transcript: string, log: seq<Row>, analyze: string -> Analysis): (o: Outcome)
    ensures o.response.Error? <==> o.log == log
    ensures o.response.Error? <==> transcript == [] || analyze(transcript).summary.None?
    ensures transcript == [] ==> o.response == Error(NoTranscript)
    ensures transcript != [] && analyze(transcript).summary.None? ==>
      o.response == Error(analyze(transcript).sentiment)
    ensures o.response.Result? ==>
      && o.response == Result(transcript, analyze(transcript).summary.value, analyze(transcript).sentiment)
      && o.log == log + [RowOf(o.response)]
  {
    if transcript == [] then
      Outcome(Error(NoTranscript), log)
    else
      var a := analyze(transcript);
      match a.summary
      case None => Outcome(Error(a.sentiment), log)
      case Some(s) =>
        var r := Result(transcript, s, a.sentiment);
        assert |log + [RowOf(r)]| != |log|;
        Outcome(r, log + [RowOf(r)])
  }

  /** An empty transcript is answered the same whatever the analysis would do. */
  lemma {:induction false} EmptyTranscriptSkipsAnalysis(log: seq<Row>, f: string -> Analysis, g: string -> Analysis)
    ensures Handle([], log, f) == Handle([], log, g)
    ensures Handle([], log, f) == Outcome(Error(NoTranscript), log)
  {
  }

  /**
   * The handler wired to `analyze_transcript`, as the application runs it:
   * an empty transcript, a missing client and a failed model call are each
   * answered with their own error text and leave the log alone; a reply is
   * parsed and handled as above.
   */
  function Analyze(transcript: string, log: seq<Row>, clientReady: bool, complete: string -> Reply): (o: Outcome)
    ensures transcript == [] ==> o == Outcome(Error(NoTranscript), log)
    ensures transcript != [] && !clientReady ==> o == Outcome(Error(ClientMissing), log)
    ensures transcript != [] && clientReady && complete(BuildPrompt(transcript)).Failure? ==>
      o == Outcome(Error(FailurePrefix + complete(BuildPrompt(transcript)).message), log)
    ensures transcript != [] && clientReady && complete(BuildPrompt(transcript)).Completion? ==>
      var a := ParseResponse(complete(BuildPrompt(transcript)).content);
      && (a.summary.None? ==> o == Outcome(Error(a.sentiment), log))
      && (a.summary.Some? ==>
            o == Outcome(Result(transcript, a.summary.value, a.sentiment),
                         log + [Row(transcript, a.summary.value, a.sentiment)]))
  {
    Handle(transcript, log, t => AnalyzeTranscript(t, clientReady, complete))
  }

  /**
   * Without a client the request fails with the fixed "not initialized"
   * text, whatever the model would have said, and nothing is logged.
   */
  lemma {:induction false} MissingClientIsAnError(transcript: string, log: seq<Row>, c: string -> Reply, d: string -> Reply)
    requires transcript != []
    ensures Analyze(transcript, log, false, c) == Outcome(Error(ClientMissing), log)
    ensures Analyze(transcript, log, false, c) == Analyze(transcript, log, false, d)
  {
  }

  /**
   * A failed model call is answered with the prefixed failure text, which
   * is never one of the sentiment labels, and nothing is logged.
   */
  lemma {:induction false} FailedCallIsAnError(transcript: string, log: seq<Row>, complete: string -> Reply)
    requires transcript != []
    requires complete(BuildPrompt(transcript)).Failure?
    ensures Analyze(transcript, log, true, complete) ==
      Outcome(Error(FailurePrefix + complete(BuildPrompt(transcript)).message), log)
    ensures !IsLabel(Analyze(transcript, log, true, complete).response.message)
  {
    ErrorsAreNotLabels(transcript, true, complete);
  }

  /**
   * When the model replies without a summary line, the request fails with
   * the parsed sentiment label as its error text, and nothing is logged.
   */
  lemma {:induction false} MissingSummaryIsAnError(transcript: string, log: seq<Row>, complete: string -> Reply)
    requires transcript != []
    requires complete(BuildPrompt(transcript)).Completion?
    requires ParseResponse(complete(BuildPrompt(transcript)).content).summary.None?
    ensures Analyze(transcript, log, true, complete) ==
      Outcome(Error(ParseResponse(complete(BuildPrompt(transcript)).content).sentiment), log)
    ensures IsLabel(Analyze(transcript, log, true, complete).response.message)
  {
  }

  /** Every row the application logs holds a parsed sentiment label. */
  lemma {:induction false} LoggedSentimentIsLabel(transcript: string, log: seq<Row>, clientReady: bool, complete: string -> Reply)
    requires Analyze(transcript, log, clientReady, complete).response.Result?
    ensures IsLabel(Analyze(transcript, log, clientReady, complete).response.sentiment)
  {
    ErrorsAreNotLabels(transcript, clientReady, complete);
  }

  // ---------------------------------------------------------------------
  // A sequence of requests

  /** The rows the successful responses among `rs` stand for, in order. */
  function RowsOf(rs: seq<Response>): seq<Row> {
    if |rs| == 0 then []
    else RowsOf(rs[..|rs| - 1]) + (if rs[|rs| - 1].Result? then [RowOf(rs[|rs| - 1])] else [])
  }

  /**
   * Requests handled one after another, each seeing the log the previous
   * one left; answer `i` is what `Handle` gives request `i` with its own
   * analysis. The model samples its replies, so the same transcript sent
   * twice may be analysed differently: request `i` gets the analysis
   * `analyze(i, _)` of its own.
   */
  function Serve(transcripts: seq<string>, log: seq<Row>, analyze: (nat, string) -> Analysis): (r: (seq<Response>, seq<Row>))
    ensures |r.0| == |transcripts|
    ensures forall i :: 0 <= i < |transcripts| ==>
      (r.0[i].Error? <==> transcripts[i] == [] || analyze(i, transcripts[i]).summary.None?)
    ensures forall i :: 0 <= i < |transcripts| && transcripts[i] == [] ==>
      r.0[i] == Error(NoTranscript)
    ensures forall i :: 0 <= i < |transcripts| && transcripts[i] != [] && analyze(i, transcripts[i]).summary.None? ==>
      r.0[i] == Error(analyze(i, transcripts[i]).sentiment)
    ensures forall i :: 0 <= i < |transcripts| && transcripts[i] != [] && analyze(i, transcripts[i]).summary.Some? ==>
      r.0[i] == Result(transcripts[i], analyze(i, transcripts[i]).summary.value, analyze(i, transcripts[i]).sentiment)
  {
    if |transcripts| == 0 then ([], log)
    else
      var n := |transcripts| - 1;
      var prev := Serve(transcripts[..n], log, analyze);
      var o := Handle(transcripts[n], prev.1, t => analyze(n, t));
      var rs := prev.0 + [o.response];
      assert forall i :: 0 <= i < n ==> rs[i] == prev.0[i] && transcripts[..n][i] == transcripts[i];
      (rs, o.log)
  }

  /**
   * The log after a run of requests is the old log followed by one row per
   * successful response, in request order: nothing is lost, reordered or
   * logged for a failed request.
   */
  lemma {:induction false} ServeAppendsRows(transcripts: seq<string>, log: seq<Row>, analyze: (nat, string) -> Analysis)
    ensures Serve(transcripts, log, analyze).1 == log + RowsOf(Serve(transcripts, log, analyze).0)
    decreases |transcripts|
  {
    if |transcripts| > 0 {
      var init := transcripts[..|transcripts| - 1];
      var prev := Serve(init, log, analyze);
      ServeAppendsRows(init, log, analyze);
      var rs := Serve(transcripts, log, analyze).0;
      assert rs[..|rs| - 1] == prev.0;
    }
  }
}
