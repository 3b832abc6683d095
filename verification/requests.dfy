/**
 Requests through the dispatcher (src/olmo_eval/inference/utils.py) and the mark that
 tells a caller a request failed (src/olmo_eval/inference/errors.py).
 */
module Requests {
  import opened Collections
  import opened Dispatch

  const REQUEST_ERROR_KEY := "request_error"
  const MAX_REQUEST_ERROR_CHARS := 500

  /** An output; its metadata may be absent. */
  datatype LMOutput = LMOutput(text: string, metadata: Option<map<string, string>>)

  predicate Marked(output: LMOutput) {
    output.metadata.Some? && REQUEST_ERROR_KEY in output.metadata.value
  }

  predicate AllMarked(outputs: seq<LMOutput>) {
    outputs != [] && forall i :: 0 <= i < |outputs| ==> Marked(outputs[i])
  }

  /** The error text of a request whose outputs are all marked; a request with no outputs has none. */
  function RequestError(outputs: seq<LMOutput>): Option<string> {
    if AllMarked(outputs) then Some(outputs[0].metadata.value[REQUEST_ERROR_KEY]) else None
  }

  /** The text is the kind, a colon and the message, of which it has 500 characters and an ellipsis if it has more. */
  predicate Describes(text: string, error: Failure) {
    var lead := error.kind + ": ";
    && lead <= text
    && var shown := text[|lead|..];
    if |error.message| <= 500 then shown == error.message
    else |shown| == 501 && shown[..500] <= error.message && shown[500] == '\U{2026}'
  }

  /** The failure's kind and message; a long message is cut and closed with an ellipsis. */
  function Describe(error: Failure): (text: string)
    ensures Describes(text, error)
  {
    error.kind + ": " +
    if |error.message| > MAX_REQUEST_ERROR_CHARS
    then error.message[..MAX_REQUEST_ERROR_CHARS] + "\U{2026}"
    else error.message
  }

  /** Outputs in request order: a verdict that returned as it is, one that raised as a marked output. */
  ghost predicate Answered<T(!new)>(c: Config<T, seq<LMOutput>>, outputs: seq<seq<LMOutput>>) {
    && |outputs| == |c.items|
    && forall i {:trigger outputs[i]} :: 0 <= i < |c.items| ==>
         match c.Verdict(i)
         case Done(result) => outputs[i] == result
         case Raised(error) =>
           && |outputs[i]| == 1 && outputs[i][0].text == ""
           && RequestError(outputs[i]).Some? && Describes(RequestError(outputs[i]).value, error)
         case Terminal(_) => false
  }

  datatype Dispatched = Outputs(outputs: seq<seq<LMOutput>>) | Died(error: Failure)

  /** dispatch_requests: a failed request becomes one marked output; a terminal failure propagates. */
  method DispatchRequests<T(!new)>(
    requests: seq<T>, process: (T, nat, nat) -> Outcome<seq<LMOutput>>, maxInFlight: int, maxRetries: int)
    returns (r: Dispatched)
    ensures requests == [] ==> r == Outputs([])
    // a limit below one sends nothing, and no request is then reported as failed
    ensures maxInFlight <= 0 ==> r == Outputs(seq(|requests|, i => []))
    ensures maxInFlight >= 1 ==>
      var c := Config(requests, process, maxInFlight, maxRetries);
      match r
      case Died(error) => (exists i :: 0 <= i < |requests| && c.Verdict(i) == Terminal(error))
      case Outputs(outputs) => Answered(c, outputs)
  {
    hide Complete, Doomed, Answered, Told, Describes;
    var dispatcher := new Dispatcher<T, seq<LMOutput>>(process, maxInFlight, maxRetries);
    var run := dispatcher.RunResults(requests);
    ghost var c := Config(requests, process, maxInFlight, maxRetries);
    assert dispatcher.ConfigFor(requests) == c;
    if run.Aborted? {
      assert c.Verdict(run.index) == Terminal(run.error);
      return Died(run.error);
    }
    var outputs: seq<seq<LMOutput>> := [];
    for k := 0 to |run.results|
      invariant |outputs| == k
      invariant forall i :: 0 <= i < k ==> outputs[i] == OutputsFor(run.results[i])
    {
      var result := run.results[k];
      if result.error.Some? {
        var marked := LMOutput("", Some(map[REQUEST_ERROR_KEY := Describe(result.error.value)]));
        outputs := outputs + [[marked]];
      } else {
        outputs := outputs + [if result.result.Some? then result.result.value else []];
      }
    }
    if requests == [] {
      NothingToAnswer(c);
    } else if maxInFlight >= 1 {
      AnswersOf(c, dispatcher.stats, run.results, outputs);
    }
    return Outputs(outputs);
  }

  lemma NothingToAnswer<T(!new)>(c: Config<T, seq<LMOutput>>)
    requires c.items == []
    ensures Answered(c, [])
  {
  }

  /** The results of a run that finished, one by one, are the answers. */
  lemma AnswersOf<T(!new)>(
    c: Config<T, seq<LMOutput>>, stats: Stats, results: seq<DispatchResult<seq<LMOutput>>>, outputs: seq<seq<LMOutput>>)
    requires !Doomed(c) && Complete(c, stats, results)
    requires |outputs| == |results| && forall i :: 0 <= i < |outputs| ==> outputs[i] == OutputsFor(results[i])
    ensures Answered(c, outputs)
  {
    hide Config.AllSpent, Config.Sequential, Errors, Describes;
    forall i | 0 <= i < |c.items|
      ensures !c.Verdict(i).Terminal? && Reports(results[i], i, c.Verdict(i))
    {
      assert c.Verdict(i).Terminal? ==> Doomed(c);
    }
  }

  ghost function OutputsFor(result: DispatchResult<seq<LMOutput>>): seq<LMOutput> {
    if result.error.Some?
    then [LMOutput("", Some(map[REQUEST_ERROR_KEY := Describe(result.error.value)]))]
    else if result.result.Some? then result.result.value else []
  }

  /** Every attempt the sequential loop makes for this job, from the given one on, raises. */
  ghost predicate EveryAttemptRaises<T(!new), R(!new)>(c: Config<T, R>, job: Job<T>)
    decreases c.maxRetries - job.attempt
  {
    c.Try(job).Raised? && (job.attempt < c.maxRetries ==> EveryAttemptRaises(c, job.(attempt := job.attempt + 1)))
  }

  lemma {:induction false} RaisedIffEveryAttempt<T(!new), R(!new)>(c: Config<T, R>, job: Job<T>)
    ensures c.Sequential(job).Raised? <==> EveryAttemptRaises(c, job)
    decreases c.maxRetries - job.attempt
  {
    if c.Try(job).Raised? && job.attempt < c.maxRetries {
      RaisedIffEveryAttempt(c, job.(attempt := job.attempt + 1));
    }
  }

  /**
   A request reads back as failed exactly when all its attempts raised, or the provider
   itself marked every output of the attempt that returned.
   */
  lemma MarkedExactlyWhenFailed<T(!new)>(c: Config<T, seq<LMOutput>>, outputs: seq<seq<LMOutput>>, i: nat)
    requires Answered(c, outputs) && i < |c.items|
    ensures RequestError(outputs[i]).Some? <==>
      EveryAttemptRaises(c, c.First(i)) || (c.Verdict(i).Done? && AllMarked(c.Verdict(i).result))
    ensures (forall item, k, a :: c.process(item, k, a).Done? ==> !AllMarked(c.process(item, k, a).result)) ==>
      (RequestError(outputs[i]).Some? <==> EveryAttemptRaises(c, c.First(i)))
  {
    RaisedIffEveryAttempt(c, c.First(i));
    VerdictIsAnAttempt(c, c.First(i));
  }

  /** A provider that marks its whole answer: the request reads back as failed, though no attempt raised. */
  lemma MarkedByProvider<T(!new)>(c: Config<T, seq<LMOutput>>, outputs: seq<seq<LMOutput>>, i: nat)
    requires Answered(c, outputs) && i < |c.items|
    requires c.Try(c.First(i)) == Done([LMOutput("", Some(map[REQUEST_ERROR_KEY := "refused"]))])
    ensures RequestError(outputs[i]) == Some("refused") && !EveryAttemptRaises(c, c.First(i))
  {
    assert c.Verdict(i) == c.Try(c.First(i));
  }

  /** The verdict is always what one particular attempt did. */
  lemma {:induction false} VerdictIsAnAttempt<T(!new), R(!new)>(c: Config<T, R>, job: Job<T>)
    ensures exists a :: job.attempt <= a && c.Sequential(job) == c.process(job.item, job.index, a)
    decreases c.maxRetries - job.attempt
  {
    if c.Try(job).Raised? && job.attempt < c.maxRetries {
      VerdictIsAnAttempt(c, job.(attempt := job.attempt + 1));
    } else {
      assert c.Sequential(job) == c.process(job.item, job.index, job.attempt);
    }
  }
}
