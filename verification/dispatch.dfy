/**
 The continuous-feed dispatcher (src/olmo_eval/inference/dispatch.py).

 What an attempt does is given by a table: `process(item, index, attempt)`. The
 scheduler is first described as a step machine on values, whose steps may come in
 any order; `Dispatcher.RunResults` is the loop of the source, and it only ever
 takes steps of that machine.
 */
module Dispatch {
  import opened Collections

  datatype Failure = Failure(kind: string, message: string)

  /** What one attempt does: it returns, raises, or kills the provider. */
  datatype Outcome<R> = Done(result: R) | Raised(error: Failure) | Terminal(error: Failure)

  datatype DispatchResult<R> = DispatchResult(index: nat, result: Option<R>, error: Option<Failure>)

  datatype Stats = Stats(total: nat, completed: nat, failed: nat, retried: nat)

  /** One entry of the pending queue. */
  datatype Job<T> = Job(index: nat, item: T, attempt: nat)

  datatype Config<!T, !R> = Config(
    items: seq<T>,
    process: (T, nat, nat) -> Outcome<R>,
    maxInFlight: int,
    maxRetries: int)
  {
    function Try(job: Job<T>): Outcome<R> {
      process(job.item, job.index, job.attempt)
    }

    /** The sequential loop: retry a failed attempt until it is attempt maxRetries. */
    function Sequential(job: Job<T>): Outcome<R>
      decreases maxRetries - job.attempt
    {
      var outcome := Try(job);
      if outcome.Raised? && job.attempt < maxRetries
      then Sequential(job.(attempt := job.attempt + 1))
      else outcome
    }

    /** How many attempts the sequential loop makes from this one on. */
    function Used(job: Job<T>): (n: nat)
      ensures n >= 1
      decreases maxRetries - job.attempt
    {
      if Try(job).Raised? && job.attempt < maxRetries then 1 + Used(job.(attempt := job.attempt + 1)) else 1
    }

    function First(i: nat): Job<T>
      requires i < |items|
    {
      Job(i, items[i], 0)
    }

    function Verdict(i: nat): Outcome<R>
      requires i < |items|
    {
      Sequential(First(i))
    }

    /** How many attempts item i takes. */
    function Spent(i: nat): nat
      requires i < |items|
    {
      Used(First(i))
    }

    function AllSpent(n: nat): nat
      requires n <= |items|
    {
      if n == 0 then 0 else AllSpent(n - 1) + Spent(n - 1)
    }

    /** The queue the run begins with: the first n items, in order, at attempt 0. */
    function InitialQueue(n: nat): (queue: seq<Job<T>>)
      requires n <= |items|
      ensures |queue| == n && forall i :: 0 <= i < n ==> queue[i] == First(i)
    {
      if n == 0 then [] else InitialQueue(n - 1) + [First(n - 1)]
    }

    function Attempts(): nat {
      if maxRetries < 0 then 1 else maxRetries + 1
    }
  }

  function ToResult<R>(i: nat, outcome: Outcome<R>): DispatchResult<R> {
    match outcome
    case Done(result) => DispatchResult(i, Some(result), None)
    case Raised(error) => DispatchResult(i, None, Some(error))
    case Terminal(error) => DispatchResult(i, None, Some(error))
  }

  function Blank<R>(i: nat): DispatchResult<R> {
    DispatchResult(i, None, None)
  }

  function Blanks<R>(n: nat): seq<DispatchResult<R>> {
    seq(n, i requires 0 <= i < n => Blank(i))
  }

  // ------------------------------------------------------------------ the step machine

  /**
   A task is named by the queue position it was started from, so the tasks started
   so far are exactly the positions below `next`. `calls` holds the on_result calls in
   order, and `progress` the on_progress calls.
   */
  datatype State<!T, !R> = State(
    pending: seq<Job<T>>,
    next: nat,
    inFlight: map<nat, Job<T>>,
    results: seq<DispatchResult<R>>,
    stats: Stats,
    calls: seq<(nat, Outcome<R>)>,
    progress: seq<(nat, nat)>)

  ghost predicate Init<T(!new), R(!new)>(c: Config<T, R>, s: State<T, R>) {
    && s.pending == c.InitialQueue(|c.items|)
    && s.next == 0
    && s.inFlight == map[]
    && s.results == Blanks(|c.items|)
    && s.stats == Stats(|c.items|, 0, 0, 0)
    && s.calls == []
    && s.progress == []
  }

  function AfterStart<T, R>(s: State<T, R>): State<T, R>
    requires s.next < |s.pending|
  {
    s.(next := s.next + 1, inFlight := s.inFlight[s.next := s.pending[s.next]])
  }

  function AfterRetry<T, R>(s: State<T, R>, t: nat): State<T, R>
    requires t in s.inFlight
  {
    s.(inFlight := s.inFlight - {t},
       pending := s.pending + [s.inFlight[t].(attempt := s.inFlight[t].attempt + 1)],
       stats := s.stats.(retried := s.stats.retried + 1))
  }

  function AfterRecord<T, R>(c: Config<T, R>, s: State<T, R>, t: nat): State<T, R>
    requires t in s.inFlight && s.inFlight[t].index < |s.results|
  {
    var i, outcome := s.inFlight[t].index, c.Try(s.inFlight[t]);
    s.(inFlight := s.inFlight - {t},
       results := s.results[i := ToResult(i, outcome)],
       stats := s.stats.(
         completed := s.stats.completed + 1,
         failed := s.stats.failed + if outcome.Raised? then 1 else 0),
       calls := s.calls + [(i, outcome)],
       progress := s.progress + [(s.stats.completed + 1, |c.items|)])
  }

  ghost predicate Start<T(!new), R(!new)>(c: Config<T, R>, s: State<T, R>, s': State<T, R>) {
    s.next < |s.pending| && |s.inFlight| < c.maxInFlight && s' == AfterStart(s)
  }

  ghost predicate Retry<T(!new), R(!new)>(c: Config<T, R>, s: State<T, R>, t: nat, s': State<T, R>) {
    && t in s.inFlight
    && c.Try(s.inFlight[t]).Raised?
    && s.inFlight[t].attempt < c.maxRetries
    && s' == AfterRetry(s, t)
  }

  ghost predicate Record<T(!new), R(!new)>(c: Config<T, R>, s: State<T, R>, t: nat, s': State<T, R>) {
    && t in s.inFlight
    && s.inFlight[t].index < |s.results|
    && !c.Try(s.inFlight[t]).Terminal?
    && (c.Try(s.inFlight[t]).Raised? ==> s.inFlight[t].attempt >= c.maxRetries)
    && s' == AfterRecord(c, s, t)
  }

  ghost predicate Next<T(!new), R(!new)>(c: Config<T, R>, s: State<T, R>, s': State<T, R>) {
    || Start(c, s, s')
    || (exists t :: Retry(c, s, t, s'))
    || (exists t :: Record(c, s, t, s'))
  }

  // ------------------------------------------------------------------ what every state keeps

  /** Where an index currently is: at a queue position (waiting or running), or recorded by a call. */
  datatype Place = Queued(position: nat) | Running(position: nat) | Recorded(call: nat)

  /** How many of the queue's entries, started or not, are attempts of index i. */
  function Tries<T>(pending: seq<Job<T>>, i: nat): nat {
    if pending == [] then 0
    else Tries(pending[..|pending| - 1], i) + if pending[|pending| - 1].index == i then 1 else 0
  }

  function Failures<R>(calls: seq<(nat, Outcome<R>)>): nat {
    if calls == [] then 0
    else Failures(calls[..|calls| - 1]) + if calls[|calls| - 1].1.Raised? then 1 else 0
  }

  /** Every job in the queue belongs to its item, and its earlier attempts all raised. */
  ghost predicate JobOk<T(!new), R(!new)>(c: Config<T, R>, p: nat, job: Job<T>) {
    && job.index < |c.items|
    && job.item == c.items[job.index]
    && (p < |c.items| ==> job == c.First(p))
    && (|c.items| <= p ==> 1 <= job.attempt <= c.maxRetries)
    && c.Sequential(job) == c.Verdict(job.index)
    && job.attempt + c.Used(job) == c.Spent(job.index)
  }

  ghost predicate QueueOk<T(!new), R(!new)>(c: Config<T, R>, s: State<T, R>) {
    && |c.items| <= |s.pending|
    && s.next <= |s.pending|
    && (forall p {:trigger s.pending[p]} :: 0 <= p < |s.pending| ==> JobOk(c, p, s.pending[p]))
    && (forall t <- s.inFlight :: t < s.next && s.inFlight[t] == s.pending[t])
    && (|s.inFlight| == 0 || |s.inFlight| <= c.maxInFlight)
  }

  /** The place of index i is what the state says it is. */
  ghost predicate PlaceOk<T(!new), R(!new)>(c: Config<T, R>, s: State<T, R>, i: nat, place: Place) {
    match place
    case Queued(p) => s.next <= p < |s.pending| && s.pending[p].index == i
    case Running(p) => p in s.inFlight && s.inFlight[p].index == i
    case Recorded(k) => k < |s.calls| && s.calls[k].0 == i
  }

  /** Every index has one place, and everything queued, running or recorded is the place of its index. */
  ghost predicate PlacedOnce<T(!new), R(!new)>(c: Config<T, R>, s: State<T, R>, at: seq<Place>) {
    && |at| == |c.items|
    && (forall i {:trigger at[i]} :: 0 <= i < |at| ==> PlaceOk(c, s, i, at[i]))
    && (forall p {:trigger s.pending[p]} :: s.next <= p < |s.pending| ==>
          s.pending[p].index < |at| && at[s.pending[p].index] == Queued(p))
    && (forall t {:trigger s.inFlight[t]} :: t in s.inFlight ==>
          s.inFlight[t].index < |at| && at[s.inFlight[t].index] == Running(t))
    && (forall k {:trigger s.calls[k]} :: 0 <= k < |s.calls| ==>
          s.calls[k].0 < |at| && at[s.calls[k].0] == Recorded(k))
  }

  /** The current attempt number of an index counts the attempts queued for it before. */
  ghost predicate TriesOk<T(!new), R(!new)>(c: Config<T, R>, s: State<T, R>, at: seq<Place>) {
    forall i {:trigger Tries(s.pending, i)} :: 0 <= i < |at| ==>
      match at[i]
      case Queued(p) => p < |s.pending| && Tries(s.pending, i) == s.pending[p].attempt + 1
      case Running(p) => p in s.inFlight && Tries(s.pending, i) == s.inFlight[p].attempt + 1
      case Recorded(_) => i < |c.items| && Tries(s.pending, i) == c.Spent(i)
  }

  ghost predicate CountsOk<T(!new), R(!new)>(c: Config<T, R>, s: State<T, R>) {
    && s.stats.total == |c.items|
    && |s.pending| == |c.items| + s.stats.retried
    && s.stats.completed + (|s.pending| - s.next) + |s.inFlight| == |c.items|
    && s.stats.completed == |s.calls|
    && s.stats.failed == Failures(s.calls)
    && |s.progress| == |s.calls|
    && (forall k {:trigger s.progress[k]} :: 0 <= k < |s.progress| ==> s.progress[k] == (k + 1, |c.items|))
  }

  /** Every on_result call carried the sequential verdict of its index, and that is what `results` holds. */
  ghost predicate CallsOk<T(!new), R(!new)>(c: Config<T, R>, s: State<T, R>) {
    forall k {:trigger s.calls[k]} :: 0 <= k < |s.calls| ==>
      s.calls[k].0 < |c.items| && s.calls[k].1 == c.Verdict(s.calls[k].0) && !s.calls[k].1.Terminal?
  }

  ghost predicate ResultAt<T(!new), R(!new)>(s: State<T, R>, i: nat, place: Place)
    requires i < |s.results|
  {
    if place.Recorded?
    then place.call < |s.calls| && s.results[i] == ToResult(i, s.calls[place.call].1)
    else s.results[i] == Blank(i)
  }

  ghost predicate ResultsOk<T(!new), R(!new)>(c: Config<T, R>, s: State<T, R>, at: seq<Place>) {
    && |s.results| == |c.items| == |at|
    && forall i {:trigger s.results[i]} {:trigger at[i]} :: 0 <= i < |at| ==> ResultAt(s, i, at[i])
  }

  ghost predicate Inv<T(!new), R(!new)>(c: Config<T, R>, s: State<T, R>, at: seq<Place>) {
    QueueOk(c, s) && PlacedOnce(c, s, at) && TriesOk(c, s, at) && CountsOk(c, s) && CallsOk(c, s) && ResultsOk(c, s, at)
  }

  /** The next place of every index after a step. */
  lemma InitPlaces<T(!new), R(!new)>(c: Config<T, R>, s: State<T, R>) returns (at: seq<Place>)
    requires Init(c, s)
    ensures Inv(c, s, at)
    ensures at == seq(|c.items|, i requires 0 <= i => Queued(i))
  {
    at := seq(|c.items|, i requires 0 <= i => Queued(i));
    forall i | 0 <= i < |at| ensures Tries(s.pending, i) == 1 {
      InitTries(c, |c.items|, i);
    }
  }

  lemma {:induction false} InitTries<T(!new), R(!new)>(c: Config<T, R>, n: nat, i: nat)
    requires n <= |c.items|
    ensures Tries(c.InitialQueue(n), i) == if i < n then 1 else 0
  {
    if n > 0 {
      InitTries(c, n - 1, i);
      assert c.InitialQueue(n)[..n - 1] == c.InitialQueue(n - 1);
    }
  }

  lemma LessOne<T>(m: map<nat, T>, t: nat)
    requires t in m
    ensures |m - {t}| == |m| - 1
  {
    assert (m - {t}).Keys == m.Keys - {t};
  }

  lemma RunningPlace<T(!new), R(!new)>(c: Config<T, R>, s: State<T, R>, at: seq<Place>, t: nat)
    requires QueueOk(c, s) && PlacedOnce(c, s, at) && t in s.inFlight
    ensures s.inFlight[t].index < |at| == |c.items| && at[s.inFlight[t].index] == Running(t)
  {
  }

  lemma QueuedPlace<T(!new), R(!new)>(c: Config<T, R>, s: State<T, R>, at: seq<Place>)
    requires QueueOk(c, s) && PlacedOnce(c, s, at) && s.next < |s.pending|
    ensures s.pending[s.next].index < |at| == |c.items| && at[s.pending[s.next].index] == Queued(s.next)
  {
  }

  lemma StartPlaces<T(!new), R(!new)>(c: Config<T, R>, s: State<T, R>, at: seq<Place>, s': State<T, R>)
    requires QueueOk(c, s) && PlacedOnce(c, s, at) && Start(c, s, s')
    ensures PlacedOnce(c, s', at[s.pending[s.next].index := Running(s.next)])
  {
    hide JobOk;
    var i := s.pending[s.next].index;
    var at' := at[i := Running(s.next)];
    assert at[i] == Queued(s.next);
    forall j | 0 <= j < |at| && j != i ensures PlaceOk(c, s', j, at'[j]) {
      assert PlaceOk(c, s, j, at[j]);
    }
  }

  lemma StartQueue<T(!new), R(!new)>(c: Config<T, R>, s: State<T, R>, s': State<T, R>)
    requires QueueOk(c, s) && Start(c, s, s')
    ensures QueueOk(c, s') && |s'.inFlight| == |s.inFlight| + 1
  {
    hide JobOk;
    assert s.next !in s.inFlight;
  }

  lemma StartTries<T(!new), R(!new)>(c: Config<T, R>, s: State<T, R>, at: seq<Place>, s': State<T, R>)
    requires QueueOk(c, s) && PlacedOnce(c, s, at) && TriesOk(c, s, at) && Start(c, s, s')
    ensures TriesOk(c, s', at[s.pending[s.next].index := Running(s.next)])
  {
    hide JobOk, Tries;
    assert at[s.pending[s.next].index] == Queued(s.next);
    forall j | 0 <= j < |at| && j != s.pending[s.next].index ensures PlaceOk(c, s, j, at[j]) {
    }
  }

  lemma StartKeeps<T(!new), R(!new)>(c: Config<T, R>, s: State<T, R>, at: seq<Place>, s': State<T, R>)
    returns (at': seq<Place>)
    requires Inv(c, s, at) && Start(c, s, s')
    ensures Inv(c, s', at')
    ensures at' == at[s.pending[s.next].index := Running(s.next)]
  {
    hide QueueOk, PlacedOnce, TriesOk, Tries, Config.Sequential;
    QueuedPlace(c, s, at);
    at' := at[s.pending[s.next].index := Running(s.next)];
    StartPlaces(c, s, at, s');
    StartTries(c, s, at, s');
    StartQueue(c, s, s');
    forall i | 0 <= i < |at| ensures ResultAt(s', i, at'[i]) {
      assert ResultAt(s, i, at[i]);
    }
  }

  lemma RetryPlaces<T(!new), R(!new)>(c: Config<T, R>, s: State<T, R>, at: seq<Place>, t: nat, s': State<T, R>)
    requires QueueOk(c, s) && PlacedOnce(c, s, at) && Retry(c, s, t, s')
    ensures PlacedOnce(c, s', at[s.inFlight[t].index := Queued(|s.pending|)])
  {
    hide JobOk;
    var i := s.inFlight[t].index;
    var at' := at[i := Queued(|s.pending|)];
    assert at[i] == Running(t);
    forall j | 0 <= j < |at| && j != i ensures PlaceOk(c, s', j, at'[j]) {
      assert PlaceOk(c, s, j, at[j]);
    }
  }

  lemma SequentialRetry<T, R>(c: Config<T, R>, job: Job<T>)
    requires c.Try(job).Raised? && job.attempt < c.maxRetries
    ensures c.Sequential(job.(attempt := job.attempt + 1)) == c.Sequential(job)
    ensures 1 + c.Used(job.(attempt := job.attempt + 1)) == c.Used(job)
  {
  }

  lemma LastAttempt<T, R>(c: Config<T, R>, job: Job<T>)
    requires c.Try(job).Raised? ==> job.attempt >= c.maxRetries
    ensures c.Sequential(job) == c.Try(job) && c.Used(job) == 1
  {
  }

  lemma RetryQueue<T(!new), R(!new)>(c: Config<T, R>, s: State<T, R>, t: nat, s': State<T, R>)
    requires QueueOk(c, s) && Retry(c, s, t, s')
    ensures QueueOk(c, s')
  {
    hide JobOk, Config.Sequential, Config.Used, Config.Spent, Config.InitialQueue;
    var job := s.inFlight[t];
    assert JobOk(c, t, job);
    JobAgain(c, t, |s.pending|, job);
    LessOne(s.inFlight, t);
  }

  /** The retry of a job that is right is right. */
  lemma JobAgain<T(!new), R(!new)>(c: Config<T, R>, t: nat, p: nat, job: Job<T>)
    requires JobOk(c, t, job) && p >= |c.items| && c.Try(job).Raised? && job.attempt < c.maxRetries
    ensures JobOk(c, p, job.(attempt := job.attempt + 1))
  {
    hide Config.Sequential, Config.Used, Config.Spent;
    SequentialRetry(c, job);
  }

  lemma RetryTries<T(!new), R(!new)>(c: Config<T, R>, s: State<T, R>, at: seq<Place>, t: nat, s': State<T, R>)
    requires QueueOk(c, s) && PlacedOnce(c, s, at) && TriesOk(c, s, at) && Retry(c, s, t, s')
    ensures TriesOk(c, s', at[s.inFlight[t].index := Queued(|s.pending|)])
  {
    hide JobOk, Config.Sequential;
    var i := s.inFlight[t].index;
    var at' := at[i := Queued(|s.pending|)];
    assert at[i] == Running(t);
    assert s'.pending[..|s.pending|] == s.pending;
    forall j | 0 <= j < |at'|
      ensures Tries(s'.pending, j) == Tries(s.pending, j) + if j == i then 1 else 0
    {
    }
    forall j | 0 <= j < |at'| && j != i ensures PlaceOk(c, s, j, at[j]) {
    }
  }

  lemma RetryKeeps<T(!new), R(!new)>(c: Config<T, R>, s: State<T, R>, at: seq<Place>, t: nat, s': State<T, R>)
    returns (at': seq<Place>)
    requires Inv(c, s, at) && Retry(c, s, t, s')
    ensures Inv(c, s', at')
    ensures at' == at[s.inFlight[t].index := Queued(|s.pending|)]
  {
    hide QueueOk, PlacedOnce, TriesOk, Tries, Config.Sequential;
    RunningPlace(c, s, at, t);
    assert CountsOk(c, s') by { LessOne(s.inFlight, t); }
    assert CallsOk(c, s');
    at' := at[s.inFlight[t].index := Queued(|s.pending|)];
    RetryPlaces(c, s, at, t, s');
    RetryTries(c, s, at, t, s');
    RetryQueue(c, s, t, s');
    forall i | 0 <= i < |at| ensures ResultAt(s', i, at'[i]) {
      assert ResultAt(s, i, at[i]);
    }
  }

  lemma RecordPlaces<T(!new), R(!new)>(c: Config<T, R>, s: State<T, R>, at: seq<Place>, t: nat, s': State<T, R>)
    requires QueueOk(c, s) && PlacedOnce(c, s, at) && Record(c, s, t, s')
    ensures PlacedOnce(c, s', at[s.inFlight[t].index := Recorded(|s.calls|)])
  {
    hide JobOk;
    var i := s.inFlight[t].index;
    var at' := at[i := Recorded(|s.calls|)];
    assert at[i] == Running(t);
    forall j | 0 <= j < |at| && j != i ensures PlaceOk(c, s', j, at'[j]) {
      assert PlaceOk(c, s, j, at[j]);
    }
  }

  lemma RecordCalls<T(!new), R(!new)>(c: Config<T, R>, s: State<T, R>, at: seq<Place>, t: nat, s': State<T, R>)
    requires Inv(c, s, at) && Record(c, s, t, s')
    ensures CallsOk(c, s') && CountsOk(c, s')
  {
    hide PlacedOnce, TriesOk, ResultsOk;
    assert JobOk(c, t, s.pending[t]);
    assert c.Sequential(s.inFlight[t]) == c.Try(s.inFlight[t]);
    assert s'.calls[..|s.calls|] == s.calls;
    LessOne(s.inFlight, t);
  }

  lemma RecordTries<T(!new), R(!new)>(c: Config<T, R>, s: State<T, R>, at: seq<Place>, t: nat, s': State<T, R>)
    requires QueueOk(c, s) && PlacedOnce(c, s, at) && TriesOk(c, s, at) && Record(c, s, t, s')
    ensures TriesOk(c, s', at[s.inFlight[t].index := Recorded(|s.calls|)])
  {
    hide Config.Sequential, Config.Used, Config.Spent, Tries;
    assert at[s.inFlight[t].index] == Running(t);
    assert JobOk(c, t, s.pending[t]);
    LastAttempt(c, s.inFlight[t]);
    forall j | 0 <= j < |at| && j != s.inFlight[t].index ensures PlaceOk(c, s, j, at[j]) {
    }
  }

  lemma RecordQueue<T(!new), R(!new)>(c: Config<T, R>, s: State<T, R>, t: nat, s': State<T, R>)
    requires QueueOk(c, s) && Record(c, s, t, s')
    ensures QueueOk(c, s')
  {
    hide JobOk;
    LessOne(s.inFlight, t);
  }

  lemma RecordKeeps<T(!new), R(!new)>(c: Config<T, R>, s: State<T, R>, at: seq<Place>, t: nat, s': State<T, R>)
    returns (at': seq<Place>)
    requires Inv(c, s, at) && Record(c, s, t, s')
    ensures Inv(c, s', at')
    ensures at' == at[s.inFlight[t].index := Recorded(|s.calls|)]
  {
    hide QueueOk, PlacedOnce, TriesOk, Tries, CallsOk, CountsOk, Config.Sequential;
    RunningPlace(c, s, at, t);
    at' := at[s.inFlight[t].index := Recorded(|s.calls|)];
    RecordPlaces(c, s, at, t, s');
    RecordCalls(c, s, at, t, s');
    RecordTries(c, s, at, t, s');
    RecordQueue(c, s, t, s');
    forall i | 0 <= i < |at| ensures ResultAt(s', i, at'[i]) {
      assert ResultAt(s, i, at[i]);
    }
  }

  // ------------------------------------------------------------------ whole runs

  /** Work left for one index: two steps (start, settle) for each attempt it may still make. */
  function Left<T, R>(c: Config<T, R>, pending: seq<Job<T>>, place: Place): nat {
    match place
    case Recorded(_) => 0
    case Queued(p) =>
      if p < |pending| && pending[p].attempt < c.Attempts() then 2 * (c.Attempts() - pending[p].attempt) else 0
    case Running(p) =>
      if p < |pending| && pending[p].attempt < c.Attempts() then 2 * (c.Attempts() - pending[p].attempt) - 1 else 0
  }

  function Work<T, R>(c: Config<T, R>, pending: seq<Job<T>>, at: seq<Place>): nat {
    if at == [] then 0 else Work(c, pending, at[..|at| - 1]) + Left(c, pending, at[|at| - 1])
  }

  ghost predicate PlacesWithin<T>(pending: seq<Job<T>>, at: seq<Place>) {
    forall i {:trigger at[i]} :: 0 <= i < |at| && !at[i].Recorded? ==> at[i].position < |pending|
  }

  lemma {:induction false} WorkKept<T, R>(c: Config<T, R>, pending: seq<Job<T>>, more: seq<Job<T>>, at: seq<Place>)
    requires PlacesWithin(pending, at)
    ensures Work(c, pending + more, at) == Work(c, pending, at)
  {
    if at != [] {
      WorkKept(c, pending, more, at[..|at| - 1]);
    }
  }

  lemma {:induction false} WorkUpdate<T, R>(c: Config<T, R>, pending: seq<Job<T>>, at: seq<Place>, i: nat, place: Place)
    requires i < |at|
    ensures Work(c, pending, at[i := place]) == Work(c, pending, at) - Left(c, pending, at[i]) + Left(c, pending, place)
  {
    var at' := at[i := place];
    if i == |at| - 1 {
      assert at'[..i] == at[..i];
    } else {
      WorkUpdate(c, pending, at[..|at| - 1], i, place);
      assert at'[..|at| - 1] == at[..|at| - 1][i := place];
    }
  }

  lemma PlacesAreWithin<T(!new), R(!new)>(c: Config<T, R>, s: State<T, R>, at: seq<Place>)
    requires Inv(c, s, at)
    ensures PlacesWithin(s.pending, at)
  {
    forall i | 0 <= i < |at| && !at[i].Recorded? ensures at[i].position < |s.pending| {
      assert PlaceOk(c, s, i, at[i]);
    }
  }

  /** A running task has its own place, an attempt still allowed, and the verdict of its index ahead. */
  lemma RunningTask<T(!new), R(!new)>(c: Config<T, R>, s: State<T, R>, at: seq<Place>, t: nat)
    requires Inv(c, s, at) && t in s.inFlight
    ensures t < s.next <= |s.pending| && s.inFlight[t] == s.pending[t]
    ensures s.inFlight[t].index < |c.items| == |at| == |s.results|
    ensures at[s.inFlight[t].index] == Running(t)
    ensures s.inFlight[t].attempt < c.Attempts()
    ensures c.Sequential(s.inFlight[t]) == c.Verdict(s.inFlight[t].index)
    ensures forall k {:trigger s.calls[k]} :: 0 <= k < |s.calls| ==> s.calls[k].0 != s.inFlight[t].index
  {
    assert JobOk(c, t, s.pending[t]);
  }

  /**
   The statistics and the callbacks so far: on_result was called once for each completed
   index, with its sequential verdict, and on_progress counted those calls up from 1.
   */
  ghost predicate Told<T(!new), R(!new)>(
    c: Config<T, R>, stats: Stats, calls: seq<(nat, Outcome<R>)>, progress: seq<(nat, nat)>)
  {
    && stats.total == |c.items|
    && stats.completed == |calls| == |progress|
    && stats.failed == Failures(calls)
    && (forall k {:trigger progress[k]} :: 0 <= k < |progress| ==> progress[k] == (k + 1, |c.items|))
    && (forall k {:trigger calls[k]} :: 0 <= k < |calls| ==>
          calls[k].0 < |c.items| && calls[k].1 == c.Verdict(calls[k].0) && !calls[k].1.Terminal?)
    && (forall j, k {:trigger calls[j], calls[k]} :: 0 <= j < k < |calls| ==> calls[j].0 != calls[k].0)
  }

  /** Conservation: queued, running and completed add up, in every reachable state. */
  lemma InvFacts<T(!new), R(!new)>(c: Config<T, R>, s: State<T, R>, at: seq<Place>)
    requires Inv(c, s, at)
    ensures Told(c, s.stats, s.calls, s.progress)
    ensures s.stats.total == |c.items|
    ensures |c.items| <= |s.pending| == |c.items| + s.stats.retried
    ensures s.next <= |s.pending|
    ensures |s.results| == |c.items|
    ensures s.stats.completed + (|s.pending| - s.next) + |s.inFlight| == |c.items|
    ensures |s.inFlight| == 0 || |s.inFlight| <= c.maxInFlight
  {
  }

  lemma LeftFalls<T, R>(c: Config<T, R>, pending: seq<Job<T>>, p: nat, k: nat)
    requires p < |pending| && pending[p].attempt < c.Attempts()
    ensures Left(c, pending, Recorded(k)) < Left(c, pending, Running(p)) < Left(c, pending, Queued(p))
  {
  }

  lemma StartFacts<T(!new), R(!new)>(c: Config<T, R>, s: State<T, R>, at: seq<Place>, s': State<T, R>)
    requires Inv(c, s, at) && Start(c, s, s')
    ensures s.next < |s.pending| && s.pending[s.next].index < |at|
    ensures at[s.pending[s.next].index] == Queued(s.next)
    ensures s.pending[s.next].attempt < c.Attempts() && s'.pending == s.pending
  {
    hide Config.Sequential, Tries, TriesOk, CallsOk, CountsOk, ResultsOk;
    QueuedPlace(c, s, at);
    assert JobOk(c, s.next, s.pending[s.next]);
  }

  lemma StartWorks<T(!new), R(!new)>(c: Config<T, R>, s: State<T, R>, at: seq<Place>, s': State<T, R>)
    returns (at': seq<Place>)
    requires Inv(c, s, at) && Start(c, s, s')
    ensures Inv(c, s', at')
    ensures Work(c, s'.pending, at') < Work(c, s.pending, at)
  {
    hide *;
    StartFacts(c, s, at, s');
    at' := StartKeeps(c, s, at, s');
    WorkUpdate(c, s.pending, at, s.pending[s.next].index, Running(s.next));
    LeftFalls(c, s.pending, s.next, 0);
  }

  lemma RetryWorks<T(!new), R(!new)>(c: Config<T, R>, s: State<T, R>, at: seq<Place>, t: nat, s': State<T, R>)
    returns (at': seq<Place>)
    requires Inv(c, s, at) && Retry(c, s, t, s')
    ensures Inv(c, s', at')
    ensures Work(c, s'.pending, at') < Work(c, s.pending, at)
  {
    hide Inv;
    RunningTask(c, s, at, t);
    var job := s.inFlight[t];
    at' := RetryKeeps(c, s, at, t, s');
    PlacesAreWithin(c, s, at);
    WorkKept(c, s.pending, [job.(attempt := job.attempt + 1)], at);
    WorkUpdate(c, s'.pending, at, job.index, Queued(|s.pending|));
  }

  lemma RecordPending<T(!new), R(!new)>(c: Config<T, R>, s: State<T, R>, t: nat, s': State<T, R>)
    requires Record(c, s, t, s')
    ensures t in s.inFlight && s'.pending == s.pending
  {
  }

  lemma RecordWorks<T(!new), R(!new)>(c: Config<T, R>, s: State<T, R>, at: seq<Place>, t: nat, s': State<T, R>)
    returns (at': seq<Place>)
    requires Inv(c, s, at) && Record(c, s, t, s')
    ensures Inv(c, s', at')
    ensures Work(c, s'.pending, at') < Work(c, s.pending, at)
  {
    hide *;
    RecordPending(c, s, t, s');
    RunningTask(c, s, at, t);
    at' := RecordKeeps(c, s, at, t, s');
    WorkUpdate(c, s.pending, at, s.inFlight[t].index, Recorded(|s.calls|));
    LeftFalls(c, s.pending, t, |s.calls|);
  }

  /** Any step of the machine does some of the work left, so no run goes on for ever. */
  lemma StepWorks<T(!new), R(!new)>(c: Config<T, R>, s: State<T, R>, at: seq<Place>, s': State<T, R>)
    returns (at': seq<Place>)
    requires Inv(c, s, at) && Next(c, s, s')
    ensures Inv(c, s', at')
    ensures Work(c, s'.pending, at') < Work(c, s.pending, at)
  {
    if Start(c, s, s') {
      at' := StartWorks(c, s, at, s');
    } else if t :| Retry(c, s, t, s') {
      at' := RetryWorks(c, s, at, t, s');
    } else {
      var t :| Record(c, s, t, s');
      at' := RecordWorks(c, s, at, t, s');
    }
  }

  ghost predicate Run<T(!new), R(!new)>(c: Config<T, R>, run: seq<State<T, R>>) {
    && run != []
    && Init(c, run[0])
    && forall k {:trigger run[k]} :: 0 < k < |run| ==> Next(c, run[k - 1], run[k])
  }

  lemma {:induction false} InitialWork<T(!new), R(!new)>(c: Config<T, R>, n: nat)
    requires n <= |c.items|
    ensures Work(c, c.InitialQueue(|c.items|), seq(n, i requires 0 <= i => Queued(i))) == 2 * c.Attempts() * n
  {
    if n > 0 {
      InitialWork(c, n - 1);
      assert seq(n, i requires 0 <= i => Queued(i))[..n - 1] == seq(n - 1, i requires 0 <= i => Queued(i));
    }
  }

  /** Every state of every run keeps the invariant, and a run of k steps has done k of the work. */
  lemma {:induction false} RunKeeps<T(!new), R(!new)>(c: Config<T, R>, run: seq<State<T, R>>) returns (at: seq<Place>)
    requires Run(c, run)
    ensures Inv(c, run[|run| - 1], at)
    ensures |run| - 1 + Work(c, run[|run| - 1].pending, at) <= 2 * c.Attempts() * |c.items|
  {
    hide Inv, Next;
    if |run| == 1 {
      at := InitPlaces(c, run[0]);
      InitialWork(c, |c.items|);
    } else {
      var before := RunKeeps(c, run[..|run| - 1]);
      assert Next(c, run[|run| - 2], run[|run| - 1]);
      at := StepWorks(c, run[|run| - 2], before, run[|run| - 1]);
    }
  }

  ghost predicate Quiet<T, R>(s: State<T, R>) {
    s.next == |s.pending| && s.inFlight == map[]
  }

  /** Some item's retries end in a terminal failure. */
  ghost predicate Doomed<T(!new), R(!new)>(c: Config<T, R>) {
    exists i :: 0 <= i < |c.items| && c.Verdict(i).Terminal?
  }

  /** The result of item i holds what was returned, or else the failure. */
  ghost predicate Reports<R>(result: DispatchResult<R>, i: nat, outcome: Outcome<R>) {
    result.index == i &&
    match outcome
    case Done(value) => result.result == Some(value) && result.error == None
    case Raised(error) => result.result == None && result.error == Some(error)
    case Terminal(error) => result.result == None && result.error == Some(error)
  }

  /** Every result reports its item's sequential verdict, in item order; the errors and the retries are counted. */
  ghost predicate Complete<T(!new), R(!new)>(c: Config<T, R>, stats: Stats, results: seq<DispatchResult<R>>) {
    && |results| == |c.items| == stats.completed == stats.total
    && stats.failed == |Errors(results)|
    && stats.retried + |c.items| == c.AllSpent(|c.items|)
    && forall i {:trigger results[i]} {:trigger c.Verdict(i)} :: 0 <= i < |c.items| ==>
         Reports(results[i], i, c.Verdict(i))
  }

  /**
   The attempts item i takes: all before the last raised, and the last did not, or was the last allowed;
   the verdict is what it did.
   */
  lemma SpentIs<T(!new), R(!new)>(c: Config<T, R>, i: nat)
    requires i < |c.items|
    ensures 1 <= c.Spent(i) <= c.Attempts()
    ensures forall a :: 0 <= a < c.Spent(i) - 1 ==> c.process(c.items[i], i, a).Raised?
    ensures c.Verdict(i) == c.process(c.items[i], i, c.Spent(i) - 1)
    ensures c.Verdict(i).Raised? ==> c.Spent(i) == c.Attempts()
  {
    UsedIs(c, c.First(i));
  }

  lemma {:induction false} UsedIs<T(!new), R(!new)>(c: Config<T, R>, job: Job<T>)
    ensures var n := c.Used(job);
      && (forall a :: job.attempt <= a < job.attempt + n - 1 ==> c.process(job.item, job.index, a).Raised?)
      && c.Sequential(job) == c.process(job.item, job.index, job.attempt + n - 1)
      && (n > 1 ==> job.attempt + n <= c.maxRetries + 1)
      && (c.Sequential(job).Raised? ==> job.attempt + n > c.maxRetries)
    decreases c.maxRetries - job.attempt
  {
    if c.Try(job).Raised? && job.attempt < c.maxRetries {
      UsedIs(c, job.(attempt := job.attempt + 1));
    }
  }

  /** The tries of the items below n, together. */
  function AllTries<T>(pending: seq<Job<T>>, n: nat): nat {
    if n == 0 then 0 else AllTries(pending, n - 1) + Tries(pending, n - 1)
  }

  lemma {:induction false} AllTriesNext<T>(pending: seq<Job<T>>, n: nat)
    requires pending != []
    ensures AllTries(pending, n) ==
      AllTries(pending[..|pending| - 1], n) + if pending[|pending| - 1].index < n then 1 else 0
  {
    if n > 0 {
      AllTriesNext(pending, n - 1);
    }
  }

  lemma {:induction false} NoTries<T>(n: nat)
    ensures AllTries<T>([], n) == 0
  {
    if n > 0 {
      NoTries<T>(n - 1);
    }
  }

  /** Every queue entry is a try of one item. */
  lemma {:induction false} TriesAddUp<T>(pending: seq<Job<T>>, n: nat)
    requires forall p :: 0 <= p < |pending| ==> pending[p].index < n
    ensures AllTries(pending, n) == |pending|
  {
    hide Tries, AllTries;
    if pending == [] {
      NoTries<T>(n);
    } else {
      AllTriesNext(pending, n);
      TriesAddUp(pending[..|pending| - 1], n);
    }
  }

  lemma {:induction false} TriesAreSpent<T(!new), R(!new)>(c: Config<T, R>, pending: seq<Job<T>>, n: nat)
    requires n <= |c.items| && forall i :: 0 <= i < n ==> Tries(pending, i) == c.Spent(i)
    ensures AllTries(pending, n) == c.AllSpent(n)
  {
    hide Tries, Config.Spent;
    if n > 0 {
      TriesAreSpent(c, pending, n - 1);
    }
  }

  /** When nothing is left to do, the attempts made are those of the sequential loops, all told. */
  lemma QuietRetries<T(!new), R(!new)>(c: Config<T, R>, s: State<T, R>, at: seq<Place>)
    requires Inv(c, s, at) && Quiet(s)
    ensures s.stats.retried + |c.items| == c.AllSpent(|c.items|)
  {
    hide Tries, Config.Spent, Config.Sequential, CallsOk, ResultsOk;
    forall i | 0 <= i < |c.items| ensures Tries(s.pending, i) == c.Spent(i) {
      assert PlaceOk(c, s, i, at[i]);
      assert at[i].Recorded?;
    }
    forall p | 0 <= p < |s.pending| ensures s.pending[p].index < |c.items| {
      assert JobOk(c, p, s.pending[p]);
    }
    TriesAddUp(s.pending, |c.items|);
    TriesAreSpent(c, s.pending, |c.items|);
  }

  /** A state with nothing queued and nothing running holds the sequential verdict of every item. */
  lemma QuietResults<T(!new), R(!new)>(c: Config<T, R>, s: State<T, R>, at: seq<Place>)
    requires Inv(c, s, at) && Quiet(s)
    ensures !Doomed(c)
    ensures Complete(c, s.stats, s.results)
  {
    QuietFailures(c, s, at);
    QuietRetries(c, s, at);
    hide Config.Spent, Tries, TriesOk, Errors, Config.Sequential;
    forall i | 0 <= i < |c.items|
      ensures !c.Verdict(i).Terminal? && Reports(s.results[i], i, c.Verdict(i))
    {
      assert PlaceOk(c, s, i, at[i]);
      assert at[i].Recorded?;
    }
  }

  /** The positions that hold an error. */
  ghost function Errors<R>(results: seq<DispatchResult<R>>): set<nat> {
    set i | 0 <= i < |results| && results[i].error.Some?
  }

  ghost function FailedCalls<R>(calls: seq<(nat, Outcome<R>)>): set<nat> {
    set k | 0 <= k < |calls| && calls[k].1.Raised? :: calls[k].0
  }

  lemma FailedNext<R>(calls: seq<(nat, Outcome<R>)>, last: (nat, Outcome<R>))
    ensures FailedCalls(calls + [last]) == FailedCalls(calls) + if last.1.Raised? then {last.0} else {}
  {
    var more := calls + [last];
    forall i | i in FailedCalls(calls) ensures i in FailedCalls(more) {
      var k :| 0 <= k < |calls| && calls[k].1.Raised? && calls[k].0 == i;
      assert more[k] == calls[k];
    }
    assert more[|calls|] == last;
  }

  lemma {:induction false} FailuresAreCalls<R>(calls: seq<(nat, Outcome<R>)>)
    requires forall j, k {:trigger calls[j], calls[k]} :: 0 <= j < k < |calls| ==> calls[j].0 != calls[k].0
    ensures Failures(calls) == |FailedCalls(calls)|
  {
    if calls != [] {
      var front, last := calls[..|calls| - 1], calls[|calls| - 1];
      FailuresAreCalls(front);
      assert last.0 !in FailedCalls(front);
      assert calls == front + [last];
      FailedNext(front, last);
      hide FailedCalls;
    }
  }

  /** When nothing is left to do, `failed` is the number of results that hold an error. */
  lemma QuietFailures<T(!new), R(!new)>(c: Config<T, R>, s: State<T, R>, at: seq<Place>)
    requires Inv(c, s, at) && Quiet(s)
    ensures s.stats.failed == |Errors(s.results)|
  {
    FailuresAreCalls(s.calls);
    forall i | 0 <= i < |c.items| ensures i in Errors(s.results) <==> i in FailedCalls(s.calls) {
      assert PlaceOk(c, s, i, at[i]);
      assert ResultAt(s, i, at[i]);
      var k := at[i].call;
      assert s.calls[k].0 == i && !s.calls[k].1.Terminal?;
      if i in FailedCalls(s.calls) {
        var j :| 0 <= j < |s.calls| && s.calls[j].1.Raised? && s.calls[j].0 == i;
        assert at[s.calls[j].0] == Recorded(j);
      }
    }
    assert Errors(s.results) == FailedCalls(s.calls);
  }

  lemma {:induction false} SequentialIgnoresLimit<T, R>(c: Config<T, R>, m: int, job: Job<T>)
    ensures c.(maxInFlight := m).Sequential(job) == c.Sequential(job)
    ensures c.(maxInFlight := m).Used(job) == c.Used(job)
    decreases c.maxRetries - job.attempt
  {
    if c.Try(job).Raised? && job.attempt < c.maxRetries {
      SequentialIgnoresLimit(c, m, job.(attempt := job.attempt + 1));
    }
  }

  lemma {:induction false} SpentIgnoresLimit<T, R>(c: Config<T, R>, m: int, n: nat)
    requires n <= |c.items|
    ensures c.(maxInFlight := m).AllSpent(n) == c.AllSpent(n)
  {
    hide Config.Used;
    if n > 0 {
      SpentIgnoresLimit(c, m, n - 1);
      SequentialIgnoresLimit(c, m, c.First(n - 1));
    }
  }

  /** Whatever the limit and the schedule, two runs that finish hold the same results and statistics. */
  lemma CompleteDetermines<T(!new), R(!new)>(
    c: Config<T, R>, m: int, stats1: Stats, results1: seq<DispatchResult<R>>,
    stats2: Stats, results2: seq<DispatchResult<R>>)
    requires Complete(c, stats1, results1) && Complete(c.(maxInFlight := m), stats2, results2)
    ensures results1 == results2 && stats1 == stats2
  {
    hide Config.Sequential, Config.AllSpent, Config.Used, Errors;
    forall i | 0 <= i < |c.items| ensures results1[i] == results2[i] {
      SequentialIgnoresLimit(c, m, c.First(i));
      assert c.(maxInFlight := m).Verdict(i) == c.Verdict(i);
    }
    assert results1 == results2;
    SpentIgnoresLimit(c, m, |c.items|);
  }

  lemma ScheduleIndependence<T(!new), R(!new)>(
    c: Config<T, R>, m: int, run1: seq<State<T, R>>, run2: seq<State<T, R>>)
    requires Run(c, run1) && Quiet(run1[|run1| - 1])
    requires Run(c.(maxInFlight := m), run2) && Quiet(run2[|run2| - 1])
    ensures run1[|run1| - 1].results == run2[|run2| - 1].results
    ensures run1[|run1| - 1].stats == run2[|run2| - 1].stats
  {
    var last1, last2 := run1[|run1| - 1], run2[|run2| - 1];
    hide Inv, Quiet, Complete, Next, Init, Work, Doomed, Config.Sequential;
    var at1 := RunKeeps(c, run1);
    var at2 := RunKeeps(c.(maxInFlight := m), run2);
    QuietResults(c, last1, at1);
    QuietResults(c.(maxInFlight := m), last2, at2);
    CompleteDetermines(c, m, last1.stats, last1.results, last2.stats, last2.results);
  }

  /** A run only stops when it is done or a terminal failure has surfaced. */
  lemma NeverStuck<T(!new), R(!new)>(c: Config<T, R>, s: State<T, R>, at: seq<Place>)
    requires Inv(c, s, at) && c.maxInFlight >= 1
    ensures Quiet(s)
         || (exists t :: t in s.inFlight && c.Try(s.inFlight[t]).Terminal?)
         || (exists s' :: Next(c, s, s'))
  {
    hide Inv;
    if s.inFlight == map[] {
      InvFacts(c, s, at);
      assert s.next < |s.pending| ==> Start(c, s, AfterStart(s)) && Next(c, s, AfterStart(s));
    } else {
      var t :| t in s.inFlight;
      RunningTask(c, s, at, t);
      var outcome := c.Try(s.inFlight[t]);
      if outcome.Raised? && s.inFlight[t].attempt < c.maxRetries {
        assert Retry(c, s, t, AfterRetry(s, t)) && Next(c, s, AfterRetry(s, t));
      } else if !outcome.Terminal? {
        assert Record(c, s, t, AfterRecord(c, s, t)) && Next(c, s, AfterRecord(c, s, t));
      }
    }
  }

  /** First attempts are started in item order, all of them before any retry; and no item is tried too often. */
  lemma AttemptsInOrder<T(!new), R(!new)>(c: Config<T, R>, s: State<T, R>, at: seq<Place>)
    requires Inv(c, s, at)
    ensures forall p :: 0 <= p < s.next ==> (s.pending[p].attempt == 0 <==> p < |c.items|)
    ensures forall p :: 0 <= p < |c.items| ==> s.pending[p].index == p
    ensures forall i :: 0 <= i < |c.items| ==> 1 <= Tries(s.pending, i) <= c.Attempts()
  {
    forall i | 0 <= i < |c.items| ensures 1 <= Tries(s.pending, i) <= c.Attempts() {
      assert PlaceOk(c, s, i, at[i]);
      assert s.pending[i].index == i;
      TriesPositive(s.pending, i, i);
      match at[i]
      case Queued(p) => assert JobOk(c, p, s.pending[p]);
      case Running(p) => assert JobOk(c, p, s.pending[p]);
      case Recorded(_) => SpentIs(c, i);
    }
    forall p | 0 <= p < |s.pending| ensures s.pending[p].attempt == 0 <==> p < |c.items| {
      assert JobOk(c, p, s.pending[p]);
    }
  }

  lemma {:induction false} TriesPositive<T>(pending: seq<Job<T>>, p: nat, i: nat)
    requires p < |pending| && pending[p].index == i
    ensures Tries(pending, i) >= 1
  {
    if p < |pending| - 1 {
      TriesPositive(pending[..|pending| - 1], p, i);
    }
  }

  /** A terminal outcome is never retried: it is the verdict of its index. */
  lemma TerminalVerdict<T(!new), R(!new)>(c: Config<T, R>, s: State<T, R>, at: seq<Place>, t: nat)
    requires Inv(c, s, at) && t in s.inFlight && c.Try(s.inFlight[t]).Terminal?
    ensures Doomed(c)
    ensures s.inFlight[t].index < |c.items| && c.Verdict(s.inFlight[t].index) == c.Try(s.inFlight[t])
  {
    RunningTask(c, s, at, t);
  }

  // ------------------------------------------------------------------ the dispatcher

  /** A task is live until its outcome is taken, or until it is cancelled and then awaited. */
  datatype TaskStatus = Live | Settled | Cancelled | Awaited

  /** How run_results ends. */
  datatype RunOutcome<R> =
    | Finished(results: seq<DispatchResult<R>>)
    | Aborted(index: nat, error: Failure, tasks: seq<TaskStatus>)  // by task, in the order they were started

  /** Exactly the tasks in flight are live; the others are settled. */
  ghost predicate Tracked(tasks: seq<TaskStatus>, inFlight: set<nat>) {
    forall t :: 0 <= t < |tasks| ==> tasks[t] == if t in inFlight then Live else Settled
  }

  ghost function AwaitedTasks(tasks: seq<TaskStatus>): set<nat> {
    set t | 0 <= t < |tasks| && tasks[t].Awaited?
  }

  /** No attempt is left running or half cancelled. */
  predicate AllStopped(tasks: seq<TaskStatus>) {
    forall t :: 0 <= t < |tasks| ==> tasks[t].Settled? || tasks[t].Awaited?
  }

  lemma NoneTracked()
    ensures Tracked([], {})
  {
  }

  /** What is in flight was started, and is live. */
  lemma InFlightStarted<T(!new), R(!new)>(c: Config<T, R>, s: State<T, R>, at: seq<Place>)
    requires Inv(c, s, at)
    ensures forall t :: t in s.inFlight ==> t < s.next
  {
    hide Inv;
    forall t | t in s.inFlight ensures t < s.next {
      RunningTask(c, s, at, t);
    }
  }

  lemma LiveOf(tasks: seq<TaskStatus>, inFlight: set<nat>)
    requires Tracked(tasks, inFlight) && forall t :: t in inFlight ==> t < |tasks|
    ensures forall t :: t in inFlight ==> tasks[t].Live?
  {
  }

  lemma TrackedStart(tasks: seq<TaskStatus>, inFlight: set<nat>)
    requires Tracked(tasks, inFlight)
    ensures Tracked(tasks + [Live], inFlight + {|tasks|})
  {
  }

  lemma TrackedSettle(tasks: seq<TaskStatus>, inFlight: set<nat>, t: nat)
    requires Tracked(tasks, inFlight) && t in inFlight && t < |tasks|
    ensures Tracked(tasks[t := Settled], inFlight - {t})
  {
  }

  /** With the siblings cancelled and awaited, everything has stopped. */
  lemma TrackedStop(tasks: seq<TaskStatus>, inFlight: set<nat>, stopped: seq<TaskStatus>)
    requires Tracked(tasks, inFlight) && |stopped| == |tasks| && forall t :: t in inFlight ==> t < |tasks|
    requires forall t :: 0 <= t < |tasks| ==> stopped[t] == if t in inFlight then Awaited else tasks[t]
    ensures AllStopped(stopped) && AwaitedTasks(stopped) == inFlight
  {
  }

  /**
   A run ended early: its index has a terminal verdict and was not reported, and no attempt is left
   running, each being settled, or cancelled and then awaited.
   */
  ghost predicate AbortedAt<T(!new), R(!new)>(c: Config<T, R>, s: State<T, R>, r: RunOutcome<R>, maxInFlight: int)
    requires r.Aborted?
  {
    && r.index < |c.items| && c.Verdict(r.index) == Terminal(r.error)
    && (forall k {:trigger s.calls[k]} :: 0 <= k < |s.calls| ==> s.calls[k].0 != r.index)
    && AllStopped(r.tasks)
    && |r.tasks| == s.stats.completed + s.stats.retried + |AwaitedTasks(r.tasks)| + 1
    && |AwaitedTasks(r.tasks)| < maxInFlight
  }

  lemma AbortFacts<T(!new), R(!new)>(
    c: Config<T, R>, s: State<T, R>, at: seq<Place>, task: nat, stopped: seq<TaskStatus>)
    requires Inv(c, s, at) && task in s.inFlight && c.Try(s.inFlight[task]).Terminal?
    requires |stopped| == s.next && AllStopped(stopped) && AwaitedTasks(stopped) == s.inFlight.Keys - {task}
    ensures AbortedAt(c, s, Aborted(s.inFlight[task].index, c.Try(s.inFlight[task]).error, stopped), c.maxInFlight)
  {
    hide Inv, Told, AllStopped, AwaitedTasks, Config.Sequential, Doomed;
    RunningTask(c, s, at, task);
    TerminalVerdict(c, s, at, task);
    LessOne(s.inFlight, task);
    InvFacts(c, s, at);
    assert |s.inFlight.Keys - {task}| == |s.inFlight.Keys| - 1 && |s.inFlight.Keys| == |s.inFlight|;
  }

  /** A run that ended early had a terminal verdict among its items. */
  lemma AbortIsDoom<T(!new), R(!new)>(c: Config<T, R>, s: State<T, R>, r: RunOutcome<R>)
    requires r.Aborted? && AbortedAt(c, s, r, c.maxInFlight)
    ensures Doomed(c)
  {
  }

  class Dispatcher<T(!new), R(!new)> {
    const process: (T, nat, nat) -> Outcome<R>
    const maxInFlight: int
    const maxRetries: int
    var stats: Stats
    // what the callbacks have been called with, in order
    var resultCalls: seq<(nat, Outcome<R>)>
    var progressCalls: seq<(nat, nat)>

    constructor (process: (T, nat, nat) -> Outcome<R>, maxInFlight: int, maxRetries: int)
      ensures this.process == process && this.maxInFlight == maxInFlight && this.maxRetries == maxRetries
      ensures stats == Stats(0, 0, 0, 0) && resultCalls == [] && progressCalls == []
    {
      this.process, this.maxInFlight, this.maxRetries := process, maxInFlight, maxRetries;
      stats := Stats(0, 0, 0, 0);
      resultCalls, progressCalls := [], [];
    }

    ghost function ConfigFor(items: seq<T>): Config<T, R> {
      Config(items, process, maxInFlight, maxRetries)
    }

    /** run_results: see the module comment. */
    method RunResults(items: seq<T>) returns (r: RunOutcome<R>)
      modifies this
      ensures old(resultCalls) <= resultCalls && old(progressCalls) <= progressCalls
      // nothing to do: not even the statistics are reset
      ensures items == [] ==> r == Finished([]) && unchanged(this)
      // a limit below one starts nothing, and every result stays blank
      ensures items != [] && maxInFlight <= 0 ==>
        && r == Finished(Blanks(|items|))
        && stats == Stats(|items|, 0, 0, 0)
        && resultCalls == old(resultCalls) && progressCalls == old(progressCalls)
      // otherwise the run aborts exactly when some item's verdict is terminal
      ensures items != [] && maxInFlight >= 1 ==>
        (r.Aborted? <==> Doomed(ConfigFor(items)))
      // and whichever it is, the callbacks and the statistics tell the truth about it
      ensures items != [] && maxInFlight >= 1 ==>
        Told(ConfigFor(items), stats, resultCalls[|old(resultCalls)|..], progressCalls[|old(progressCalls)|..])
      ensures items != [] && r.Finished? && maxInFlight >= 1 ==> Complete(ConfigFor(items), stats, r.results)
      ensures r.Aborted? ==>
        && r.index < |items|
        && ConfigFor(items).Verdict(r.index) == Terminal(r.error)
        && (forall k {:trigger resultCalls[k]} :: |old(resultCalls)| <= k < |resultCalls| ==>
              resultCalls[k].0 != r.index)
        // no attempt is left running: each was settled, or cancelled and then awaited
        && AllStopped(r.tasks)
        && |r.tasks| == stats.completed + stats.retried + |AwaitedTasks(r.tasks)| + 1
        && |AwaitedTasks(r.tasks)| < maxInFlight
    {
      hide Inv, Work, Failures, Told, Config.Sequential, Config.InitialQueue, Retry, Record, Start;
      hide Blanks, ToResult, Complete, Doomed, Tracked, AllStopped, AwaitedTasks;
      if items == [] {
        return Finished([]);
      }
      ghost var c := ConfigFor(items);
      ghost var calls0, progress0 := resultCalls, progressCalls;
      var total := |items|;
      stats := Stats(total, 0, 0, 0);
      var results: seq<DispatchResult<R>> := Blanks(total);
      var pending := FirstAttempts(items);
      var pendingIdx := 0;
      var inFlight: map<nat, Job<T>> := map[];
      var tasks: seq<TaskStatus> := [];
      NoneTracked();
      assert inFlight.Keys == {};

      ghost var s := State(pending, pendingIdx, inFlight, results, stats, [], []);
      assert pending == c.InitialQueue(total);
      ghost var at := InitPlaces(c, s);

      while pendingIdx < |pending| || inFlight != map[]
        invariant pending == s.pending && pendingIdx == s.next && inFlight == s.inFlight
        invariant results == s.results && stats == s.stats
        invariant resultCalls == calls0 + s.calls && progressCalls == progress0 + s.progress
        invariant Inv(c, s, at)
        invariant |tasks| == pendingIdx && Tracked(tasks, inFlight.Keys)
        invariant maxInFlight <= 0 ==> s.calls == [] && stats == Stats(total, 0, 0, 0)
        decreases Work(c, s.pending, at)
      {
        ghost var work := Work(c, s.pending, at);
        pendingIdx, inFlight, tasks, s, at := TopUp(c, s, at, pending, pendingIdx, inFlight, tasks);
        InvFacts(c, s, at);
        if inFlight == map[] {
          assert maxInFlight <= 0;
          BlankUntilRecorded(c, s, at);
          return Finished(results);
        }

        assert |inFlight| > 0;
        // any non-empty set of the running tasks may have completed
        var someTask :| someTask in inFlight;
        var done: set<nat> :| done <= inFlight.Keys && someTask in done;
        var aborted;
        aborted, pending, inFlight, results, tasks, s, at :=
          TakeOutcomes(c, s, at, calls0, progress0, done, pending, inFlight, results, tasks);
        if aborted.Some? {
          InvFacts(c, s, at);
          AbortIsDoom(c, s, aborted.value);
          assert resultCalls[|calls0|..] == s.calls && progressCalls[|progress0|..] == s.progress;
          return aborted.value;
        }
      }
      InvFacts(c, s, at);
      QuietResults(c, s, at);
      assert resultCalls[|calls0|..] == s.calls;
      return Finished(results);
    }

    /** The tasks of `done`, one by one; the first terminal failure ends the run. */
    method TakeOutcomes(
      ghost c: Config<T, R>, ghost s: State<T, R>, ghost at: seq<Place>,
      ghost calls0: seq<(nat, Outcome<R>)>, ghost progress0: seq<(nat, nat)>,
      done: set<nat>, pending: seq<Job<T>>, inFlight: map<nat, Job<T>>, results: seq<DispatchResult<R>>,
      tasks: seq<TaskStatus>)
      returns (
        aborted: Option<RunOutcome<R>>, pending': seq<Job<T>>, inFlight': map<nat, Job<T>>,
        results': seq<DispatchResult<R>>, tasks': seq<TaskStatus>, ghost s': State<T, R>, ghost at': seq<Place>)
      requires Inv(c, s, at) && c.process == process && c.maxRetries == maxRetries && c.maxInFlight == maxInFlight >= 1
      requires pending == s.pending && inFlight == s.inFlight && results == s.results && stats == s.stats
      requires resultCalls == calls0 + s.calls && progressCalls == progress0 + s.progress
      requires |tasks| == s.next && Tracked(tasks, inFlight.Keys)
      requires done != {} && done <= inFlight.Keys
      modifies this
      ensures Inv(c, s', at') && s'.next == s.next && stats == s'.stats
      ensures resultCalls == calls0 + s'.calls && progressCalls == progress0 + s'.progress
      ensures aborted.None? ==>
        && Work(c, s'.pending, at') < Work(c, s.pending, at)
        && pending' == s'.pending && inFlight' == s'.inFlight && results' == s'.results
        && |tasks'| == s'.next && Tracked(tasks', inFlight'.Keys)
      ensures aborted.Some? ==> aborted.value.Aborted? && AbortedAt(c, s', aborted.value, maxInFlight)
    {
      hide Inv, Work, Failures, Told, Config.Sequential, Config.InitialQueue, Retry, Record, Start;
      hide Blanks, ToResult, Complete, Doomed, Tracked, AllStopped, AwaitedTasks, AbortedAt;
      aborted, pending', inFlight', results', tasks', s', at' := None, pending, inFlight, results, tasks, s, at;
      var left := done;
      while left != {}
        invariant pending' == s'.pending && inFlight' == s'.inFlight && results' == s'.results && stats == s'.stats
        invariant resultCalls == calls0 + s'.calls && progressCalls == progress0 + s'.progress
        invariant Inv(c, s', at') && s'.next == s.next
        invariant |tasks'| == s'.next && Tracked(tasks', inFlight'.Keys)
        invariant left <= inFlight'.Keys
        invariant Work(c, s'.pending, at') <= Work(c, s.pending, at)
        invariant left == {} ==> Work(c, s'.pending, at') < Work(c, s.pending, at)
        decreases left
      {
        var task :| task in left;
        left := left - {task};
        var job := inFlight'[task];
        RunningTask(c, s', at', task);
        TrackedSettle(tasks', inFlight'.Keys, task);
        inFlight', tasks' := inFlight' - {task}, tasks'[task := Settled];
        assert inFlight'.Keys == s'.inFlight.Keys - {task};
        var outcome := process(job.item, job.index, job.attempt);
        assert outcome == c.Try(job);
        if outcome.Terminal? {
          InFlightStarted(c, s', at');
          var stopped := StopSiblings(tasks', inFlight'.Keys);
          AbortFacts(c, s', at', task, stopped);
          aborted := Some(Aborted(job.index, outcome.error, stopped));
          return;
        }
        pending', results', s', at' := Settle(c, s', at', calls0, progress0, task, job, outcome, pending', results');
      }
    }

    /** Start queued attempts, in order, until the limit is reached or the queue is empty. */
    method TopUp(
      ghost c: Config<T, R>, ghost s: State<T, R>, ghost at: seq<Place>,
      pending: seq<Job<T>>, pendingIdx: nat, inFlight: map<nat, Job<T>>, tasks: seq<TaskStatus>)
      returns (
        pendingIdx': nat, inFlight': map<nat, Job<T>>, tasks': seq<TaskStatus>,
        ghost s': State<T, R>, ghost at': seq<Place>)
      requires Inv(c, s, at) && c.maxInFlight == maxInFlight
      requires pending == s.pending && pendingIdx == s.next && inFlight == s.inFlight
      requires |tasks| == pendingIdx && Tracked(tasks, inFlight.Keys)
      ensures |tasks'| == pendingIdx' && Tracked(tasks', inFlight'.Keys)
      ensures Inv(c, s', at') && Work(c, s'.pending, at') <= Work(c, s.pending, at)
      ensures s' == s.(next := pendingIdx', inFlight := inFlight')
      ensures |inFlight'| >= maxInFlight || pendingIdx' == |pending|
      ensures inFlight' == map[] ==> pendingIdx' == pendingIdx
      ensures inFlight != map[] ==> inFlight' != map[]
    {
      hide Inv, Work, Config.Sequential, Tracked;
      pendingIdx', inFlight', tasks' := pendingIdx, inFlight, tasks;
      s', at' := s, at;
      InvFacts(c, s, at);
      while |inFlight'| < maxInFlight && pendingIdx' < |pending|
        invariant pendingIdx' <= |pending|
        invariant |tasks'| == pendingIdx' && Tracked(tasks', inFlight'.Keys)
        invariant Inv(c, s', at') && Work(c, s'.pending, at') <= Work(c, s.pending, at)
        invariant s' == s.(next := pendingIdx', inFlight := inFlight')
        invariant inFlight' == map[] ==> pendingIdx' == pendingIdx
        invariant inFlight != map[] ==> inFlight' != map[]
        decreases |pending| - pendingIdx'
      {
        ghost var before := s';
        TrackedStart(tasks', inFlight'.Keys);
        inFlight', tasks' := inFlight'[pendingIdx' := pending[pendingIdx']], tasks' + [Live];
        assert inFlight'.Keys == before.inFlight.Keys + {pendingIdx'};
        pendingIdx' := pendingIdx' + 1;
        s' := AfterStart(before);
        at' := StartWorks(c, before, at', s');
      }
    }

    /** What run_results does with a completed task: queue a retry, or record and report. */
    method Settle(
      ghost c: Config<T, R>, ghost s: State<T, R>, ghost at: seq<Place>,
      ghost calls0: seq<(nat, Outcome<R>)>, ghost progress0: seq<(nat, nat)>,
      task: nat, job: Job<T>, outcome: Outcome<R>, pending: seq<Job<T>>, results: seq<DispatchResult<R>>)
      returns (pending': seq<Job<T>>, results': seq<DispatchResult<R>>, ghost s': State<T, R>, ghost at': seq<Place>)
      requires Inv(c, s, at) && task in s.inFlight && job == s.inFlight[task]
      requires c.process == process && c.maxRetries == maxRetries
      requires outcome == c.Try(job) && !outcome.Terminal?
      requires pending == s.pending && results == s.results && stats == s.stats
      requires resultCalls == calls0 + s.calls && progressCalls == progress0 + s.progress
      modifies this
      ensures Retry(c, s, task, s') || Record(c, s, task, s')
      ensures s'.inFlight == s.inFlight - {task} && s'.next == s.next
      ensures Inv(c, s', at') && Work(c, s'.pending, at') < Work(c, s.pending, at)
      ensures pending' == s'.pending && results' == s'.results && stats == s'.stats
      ensures resultCalls == calls0 + s'.calls && progressCalls == progress0 + s'.progress
    {
      hide Inv, Work, Failures, Told, Config.Sequential;
      RunningTask(c, s, at, task);
      pending', results' := pending, results;
      if outcome.Raised? && job.attempt < maxRetries {
        pending' := pending + [job.(attempt := job.attempt + 1)];
        stats := stats.(retried := stats.retried + 1);
        s' := AfterRetry(s, task);
        at' := RetryWorks(c, s, at, task, s');
      } else {
        results' := results[job.index := ToResult(job.index, outcome)];
        stats := stats.(completed := stats.completed + 1);
        if outcome.Raised? {
          stats := stats.(failed := stats.failed + 1);
        }
        resultCalls := resultCalls + [(job.index, outcome)];
        InvFacts(c, s, at);
        progressCalls := progressCalls + [(stats.completed, stats.total)];
        s' := AfterRecord(c, s, task);
        at' := RecordWorks(c, s, at, task, s');
      }
    }

    /** Before a terminal failure is raised, every sibling is cancelled, and then all are awaited. */
    method StopSiblings(tasks: seq<TaskStatus>, siblings: set<nat>) returns (stopped: seq<TaskStatus>)
      requires Tracked(tasks, siblings) && forall t :: t in siblings ==> t < |tasks|
      ensures |stopped| == |tasks| && AllStopped(stopped) && AwaitedTasks(stopped) == siblings
    {
      LiveOf(tasks, siblings);
      var cancelled := CancelAll(tasks, siblings);
      stopped := Gather(cancelled, siblings);
      TrackedStop(tasks, siblings, stopped);
    }

    /** Cancel every sibling. */
    method CancelAll(tasks: seq<TaskStatus>, siblings: set<nat>) returns (cancelled: seq<TaskStatus>)
      requires forall t :: t in siblings ==> t < |tasks| && tasks[t].Live?
      ensures |cancelled| == |tasks|
      ensures forall t :: 0 <= t < |tasks| ==> cancelled[t] == if t in siblings then Cancelled else tasks[t]
    {
      cancelled := tasks;
      var todo := siblings;
      while todo != {}
        invariant todo <= siblings && |cancelled| == |tasks|
        invariant forall t :: 0 <= t < |tasks| ==>
          cancelled[t] == if t in siblings && t !in todo then Cancelled else tasks[t]
        decreases todo
      {
        var sibling :| sibling in todo;
        cancelled := cancelled[sibling := Cancelled];
        todo := todo - {sibling};
      }
    }

    /** Await every sibling; each has been asked to stop, so none is waited for in vain. */
    method Gather(tasks: seq<TaskStatus>, siblings: set<nat>) returns (awaited: seq<TaskStatus>)
      requires forall t :: t in siblings ==> t < |tasks| && tasks[t].Cancelled?
      ensures |awaited| == |tasks|
      ensures forall t :: 0 <= t < |tasks| ==> awaited[t] == if t in siblings then Awaited else tasks[t]
    {
      awaited := tasks;
      var todo := siblings;
      while todo != {}
        invariant todo <= siblings && |awaited| == |tasks|
        invariant forall t :: 0 <= t < |tasks| ==>
          awaited[t] == if t in siblings && t !in todo then Awaited else tasks[t]
        decreases todo
      {
        var sibling :| sibling in todo;
        awaited := awaited[sibling := Awaited];
        todo := todo - {sibling};
      }
    }

    method FirstAttempts(items: seq<T>) returns (pending: seq<Job<T>>)
      ensures pending == ConfigFor(items).InitialQueue(|items|)
    {
      pending := [];
      for i := 0 to |items|
        invariant pending == ConfigFor(items).InitialQueue(i)
      {
        pending := pending + [Job(i, items[i], 0)];
      }
    }
  }

  lemma BlankUntilRecorded<T(!new), R(!new)>(c: Config<T, R>, s: State<T, R>, at: seq<Place>)
    requires Inv(c, s, at) && s.calls == []
    ensures s.results == Blanks(|c.items|)
  {
    forall i | 0 <= i < |c.items| ensures s.results[i] == Blank(i) {
      assert PlaceOk(c, s, i, at[i]);
    }
  }
}
