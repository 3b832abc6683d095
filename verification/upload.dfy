/**
 Uploading results: the send protocol (src/olmo_eval/upload/uploader.py), its retries
 (src/olmo_eval/upload/client.py), and what the ingest service does with each request
 (dashboard/api/src/olmo_eval_api/services/ingest.py).
 */
module Upload {
  import opened Collections
  import opened NativeIds
  import opened Extract

  // ------------------------------------------------------------------ the service

  /** A task result is found by its task's name and hash. */
  datatype Key = Key(taskName: string, taskHash: string)

  /** One task result request; `body` is everything in it besides the fields named here. */
  datatype Request = Request(key: Key, body: string, paths: seq<string>, instanceCount: nat)

  /** What the content hash covers: the request, and the checksum of each file it names, if known. */
  datatype Content = Content(request: Request, checksums: seq<Option<string>>)

  datatype TaskResult = TaskResult(content: Content, rows: map<string, Row>, instancesStored: nat, finalized: bool)

  /** Checksums by path: of the artifacts signed for, and of the objects in the bucket. */
  datatype Service = Service(
    checksums: map<string, string>, bucket: map<string, string>, results: map<Key, TaskResult>)

  datatype Artifact = Artifact(path: string, md5: string)

  datatype Op =
    | Touch                                       // requests that change neither artifacts nor task results
    | Sign(artifacts: seq<Artifact>)
    | Put(artifact: Artifact)                     // to the bucket: its signature covers the checksum
    | Upsert(request: Request)
    | Post(key: Key, rows: seq<Row>)
    | Complete

  datatype Reply = Stored | Unchanged | Signed(pending: seq<Artifact>)

  /** Checksums by path; of two artifacts with one path the later stays. */
  function Checksums(artifacts: seq<Artifact>): map<string, string> {
    if artifacts == [] then map[]
    else
      var last := artifacts[|artifacts| - 1];
      Checksums(artifacts[..|artifacts| - 1])[last.path := last.md5]
  }

  /** The artifacts still to be sent: the bucket does not have them with this checksum. */
  function Pending(bucket: map<string, string>, artifacts: seq<Artifact>): seq<Artifact> {
    if artifacts == [] then []
    else
      var front, last := Pending(bucket, artifacts[..|artifacts| - 1]), artifacts[|artifacts| - 1];
      if Get(bucket, last.path) == Some(last.md5) then front else front + [last]
  }

  function ContentOf(s: Service, request: Request): Content {
    Content(request, seq(|request.paths|, i requires 0 <= i < |request.paths| => Get(s.checksums, request.paths[i])))
  }

  /** Nothing has to be sent again: the finished result already has this content and all its rows. */
  predicate IsUnchanged(s: Service, request: Request) {
    && request.key in s.results
    && s.results[request.key].finalized
    && s.results[request.key].content == ContentOf(s, request)
    && s.results[request.key].instancesStored == request.instanceCount
  }

  /** Rows by native id; of two rows with one id the later stays. */
  function RowMap(rows: seq<Row>): map<string, Row> {
    if rows == [] then map[]
    else RowMap(rows[..|rows| - 1])[rows[|rows| - 1].nativeId := rows[|rows| - 1]]
  }

  /** A result with more rows: counted where their ids are new, and no longer final. */
  function Posted(stored: TaskResult, batch: map<string, Row>): TaskResult {
    var added := |batch.Keys - stored.rows.Keys|;
    stored.(rows := stored.rows + batch, instancesStored := stored.instancesStored + added, finalized := false)
  }

  function Perform(s: Service, op: Op): Service {
    match op
    case Touch => s
    case Sign(artifacts) => s.(checksums := s.checksums + Checksums(artifacts))
    case Put(artifact) => s.(bucket := s.bucket[artifact.path := artifact.md5])
    case Upsert(request) =>
      if IsUnchanged(s, request) then s
      else s.(results := s.results[request.key := TaskResult(ContentOf(s, request), map[], 0, false)])
    case Post(key, rows) =>
      if key !in s.results then s
      else
        s.(results := s.results[key := Posted(s.results[key], RowMap(rows))])
    case Complete => s.(results := map key | key in s.results :: s.results[key].(finalized := true))
  }

  function ReplyTo(s: Service, op: Op): Reply {
    if op.Upsert? && IsUnchanged(s, op.request) then Unchanged
    else if op.Sign? then Signed(Pending(s.bucket, op.artifacts))
    else Stored
  }

  lemma PostedAgain(stored: TaskResult, batch: map<string, Row>)
    ensures Posted(Posted(stored, batch), batch) == Posted(stored, batch)
  {
    assert batch.Keys - (stored.rows + batch).Keys == {};
    assert stored.rows + batch + batch == stored.rows + batch;
  }

  lemma PostAgain(s: Service, key: Key, rows: seq<Row>)
    ensures Perform(Perform(s, Post(key, rows)), Post(key, rows)) == Perform(s, Post(key, rows))
  {
    hide RowMap, Posted;
    if key in s.results {
      PostedAgain(s.results[key], RowMap(rows));
    }
  }

  lemma SignAgain(s: Service, artifacts: seq<Artifact>)
    ensures Perform(Perform(s, Sign(artifacts)), Sign(artifacts)) == Perform(s, Sign(artifacts))
    ensures ReplyTo(Perform(s, Sign(artifacts)), Sign(artifacts)) == ReplyTo(s, Sign(artifacts))
  {
    hide Checksums, Pending;
    assert s.checksums + Checksums(artifacts) + Checksums(artifacts) == s.checksums + Checksums(artifacts);
  }

  lemma CompleteAgain(s: Service)
    ensures Perform(Perform(s, Complete), Complete) == Perform(s, Complete)
  {
    var once := Perform(s, Complete);
    assert Perform(once, Complete).results == once.results;
  }

  lemma UpsertAgain(s: Service, request: Request)
    ensures Perform(Perform(s, Upsert(request)), Upsert(request)) == Perform(s, Upsert(request))
    ensures ReplyTo(Perform(s, Upsert(request)), Upsert(request)) == ReplyTo(s, Upsert(request))
  {
  }

  lemma PutAgain(s: Service, artifact: Artifact)
    ensures Perform(Perform(s, Put(artifact)), Put(artifact)) == Perform(s, Put(artifact))
    ensures Perform(s, Touch) == s
  {
  }

  lemma PlainReply(s: Service, op: Op)
    requires !op.Sign? && !op.Upsert?
    ensures ReplyTo(s, op) == Stored
  {
  }

  /** A request that reaches the service again leaves everything as it is, and gets the same reply. */
  lemma Idempotent(s: Service, op: Op)
    ensures Perform(Perform(s, op), op) == Perform(s, op)
    ensures ReplyTo(Perform(s, op), op) == ReplyTo(s, op)
  {
    hide *;
    if !op.Sign? && !op.Upsert? {
      PlainReply(s, op);
      PlainReply(Perform(s, op), op);
    }
    match op
    case Touch => PutAgain(s, Artifact("", ""));
    case Sign(artifacts) => SignAgain(s, artifacts);
    case Put(artifact) => PutAgain(s, artifact);
    case Upsert(request) => UpsertAgain(s, request);
    case Post(key, rows) => PostAgain(s, key, rows);
    case Complete => CompleteAgain(s);
  }

  // ------------------------------------------------------------------ rows by id

  ghost predicate Keyed(rows: seq<Row>) {
    forall i, j :: 0 <= i < j < |rows| ==> rows[i].nativeId != rows[j].nativeId
  }

  /** The entries of one map are entries of the other. */
  ghost predicate Within(a: map<string, Row>, b: map<string, Row>) {
    forall id :: id in a ==> id in b && a[id] == b[id]
  }

  lemma {:induction false} RowMapSum(a: seq<Row>, b: seq<Row>)
    ensures RowMap(a + b) == RowMap(a) + RowMap(b)
  {
    if b == [] {
      assert a + b == a;
    } else {
      RowMapSum(a, b[..|b| - 1]);
      assert (a + b)[..|a + b| - 1] == a + b[..|b| - 1];
    }
  }

  lemma {:induction false} RowMapHas(rows: seq<Row>, id: string)
    ensures id in RowMap(rows) <==> exists i :: 0 <= i < |rows| && rows[i].nativeId == id
    ensures forall i :: 0 <= i < |rows| && Keyed(rows) && rows[i].nativeId == id ==> RowMap(rows)[id] == rows[i]
  {
    if rows != [] {
      var front := rows[..|rows| - 1];
      RowMapHas(front, id);
      assert rows[|rows| - 1].nativeId == id ==> id in RowMap(rows);
      assert forall i :: 0 <= i < |front| ==> rows[i] == front[i];
    }
  }

  lemma {:induction false} RowMapSize(rows: seq<Row>)
    requires Keyed(rows)
    ensures |RowMap(rows)| == |rows|
  {
    if rows != [] {
      var front, last := rows[..|rows| - 1], rows[|rows| - 1];
      RowMapSize(front);
      RowMapHas(front, last.nativeId);
    }
  }

  /** With distinct ids, a prefix of the rows gives part of their map. */
  lemma PrefixWithin(a: seq<Row>, b: seq<Row>)
    requires Keyed(a + b)
    ensures Within(RowMap(a), RowMap(a + b)) && Within(RowMap(b), RowMap(a + b))
  {
    RowMapSum(a, b);
    forall i, j | 0 <= i < |a| && 0 <= j < |b| ensures a[i].nativeId != b[j].nativeId {
      assert (a + b)[i] == a[i] && (a + b)[|a| + j] == b[j];
    }
    forall id | id in RowMap(a) ensures id !in RowMap(b) {
      RowMapHas(a, id);
      RowMapHas(b, id);
    }
  }

  /** Part of a map that is as large is the whole map. */
  lemma WithinSameSize(a: map<string, Row>, b: map<string, Row>)
    requires Within(a, b) && |a| == |b|
    ensures a == b
  {
    assert a.Keys <= b.Keys;
    assert |a.Keys| == |a| && |b.Keys| == |b|;
    SubsetSameSize(a.Keys, b.Keys);
  }

  // ------------------------------------------------------------------ what the service always holds

  /**
   Every result counts its rows exactly, and holds only rows that belong to its content.
   `rowsOf` are the rows of a content: they depend on the request and the files alone.
   */
  ghost predicate Sound(s: Service, rowsOf: Content -> seq<Row>) {
    forall key :: key in s.results ==> SoundResult(s.results[key], rowsOf)
  }

  ghost predicate SoundResult(result: TaskResult, rowsOf: Content -> seq<Row>) {
    result.instancesStored == |result.rows| && Within(result.rows, RowMap(rowsOf(result.content)))
  }

  lemma UpsertKeeps(s: Service, request: Request, rowsOf: Content -> seq<Row>)
    requires Sound(s, rowsOf)
    ensures Sound(Perform(s, Upsert(request)), rowsOf)
  {
  }

  lemma CompleteKeeps(s: Service, rowsOf: Content -> seq<Row>)
    requires Sound(s, rowsOf)
    ensures Sound(Perform(s, Complete), rowsOf)
  {
  }

  lemma MergedSize(stored: map<string, Row>, batch: map<string, Row>)
    ensures |stored + batch| == |stored| + |batch.Keys - stored.Keys|
  {
    assert (stored + batch).Keys == stored.Keys + (batch.Keys - stored.Keys);
    assert |stored + batch| == |(stored + batch).Keys|;
    assert |stored| == |stored.Keys|;
  }

  lemma MergedWithin(a: map<string, Row>, b: map<string, Row>, c: map<string, Row>)
    requires Within(a, c) && Within(b, c)
    ensures Within(a + b, c)
  {
  }

  lemma PostKeeps(s: Service, key: Key, rows: seq<Row>, rowsOf: Content -> seq<Row>)
    requires Sound(s, rowsOf)
    requires key in s.results ==> Within(RowMap(rows), RowMap(rowsOf(s.results[key].content)))
    ensures Sound(Perform(s, Post(key, rows)), rowsOf)
  {
    hide Within, RowMap;
    if key in s.results {
      MergedSize(s.results[key].rows, RowMap(rows));
      MergedWithin(s.results[key].rows, RowMap(rows), RowMap(rowsOf(s.results[key].content)));
    }
  }

  datatype Task = Task(request: Request, rows: seq<Row>)

  /** The service holds exactly this task's rows, under this task's content. */
  ghost predicate Holds(s: Service, task: Task, rowsOf: Content -> seq<Row>) {
    && task.request.key in s.results
    && var result := s.results[task.request.key];
    && result.rows == RowMap(task.rows)
    && result.instancesStored == |task.rows| == task.request.instanceCount
    && result.content.request == task.request
    && rowsOf(result.content) == task.rows
  }

  /** A task whose rows have distinct ids, are all counted, and come from the files the service knows. */
  ghost predicate Ready(s: Service, task: Task, rowsOf: Content -> seq<Row>) {
    && Keyed(task.rows)
    && |task.rows| == task.request.instanceCount
    && rowsOf(ContentOf(s, task.request)) == task.rows
  }

  /** "Unchanged" is never a mistake: whatever happened before, the rows need not be sent. */
  lemma UnchangedIsRight(s: Service, task: Task, rowsOf: Content -> seq<Row>)
    requires Sound(s, rowsOf) && Ready(s, task, rowsOf) && IsUnchanged(s, task.request)
    ensures Holds(s, task, rowsOf)
  {
    var result := s.results[task.request.key];
    RowMapSize(task.rows);
    WithinSameSize(result.rows, RowMap(task.rows));
  }

  /**
   The rows of a predictions file, which the files determine, have distinct ids, and are as
   many as were counted for it.
   */
  lemma RowsOfFiles(rows: seq<Row>, rows': seq<Row>, predictions: Bytes, requests: Bytes, parse: Bytes -> Option<Rec>)
    requires RowsFor(rows, Pieces(Lines(predictions)), Pieces(Lines(requests)), parse)
    requires RowsFor(rows', Pieces(Lines(predictions)), Pieces(Lines(requests)), parse)
    ensures rows == rows'
    ensures Keyed(rows) && |rows| == |Pieces(Lines(predictions))|
  {
    RowsAddressTheFile(rows, predictions, Pieces(Lines(requests)), parse);
    hide Pieces, Lines, Ids, Bases, RequestOf, RecOf, LineLength;
    assert forall k :: 0 <= k < |rows| ==> rows[k] == rows'[k];
  }

  // ------------------------------------------------------------------ the client

  /** Seconds before a retry, by attempt; the last entry is used from then on. */
  function Backoff(attempt: nat): real {
    if attempt == 0 then 1.0
    else if attempt == 1 then 2.0
    else if attempt == 2 then 4.0
    else if attempt == 3 then 8.0
    else if attempt == 4 then 16.0
    else 32.0
  }

  /** Every attempt from `begun` on waited for its backoff after the one before. */
  ghost predicate Paced(attempts: seq<real>, begun: nat) {
    forall i {:trigger attempts[i]} :: begun < i < |attempts| ==>
      attempts[i] >= attempts[i - 1] + Backoff(i - 1 - begun)
  }

  /** Every attempt from `begun` on was begun before the deadline. */
  ghost predicate InTime(attempts: seq<real>, begun: nat, deadline: Option<real>) {
    deadline.Some? ==> forall i :: begun <= i < |attempts| ==> attempts[i] < deadline.value
  }

  function Doubled(n: nat): real {
    if n == 0 then 1.0 else 2.0 * Doubled(n - 1)
  }

  /** The backoff is one second, then twice the one before, five times over, and 32 seconds from then on. */
  lemma {:induction false} BackoffDoubles(attempt: nat)
    ensures Backoff(attempt) == if attempt <= 5 then Doubled(attempt) else 32.0
  {
    if 0 < attempt <= 5 {
      BackoffDoubles(attempt - 1);
    }
  }

  /** Seven attempts, all there are by default, take at least 63 seconds. */
  lemma SevenAttempts(attempts: seq<real>, begun: nat)
    requires Paced(attempts, begun) && |attempts| >= begun + 7
    ensures attempts[begun + 6] - attempts[begun] >= 63.0
  {
    assert attempts[begun + 2] >= attempts[begun + 1] + 2.0 >= attempts[begun] + 3.0;
    assert attempts[begun + 4] >= attempts[begun + 3] + 8.0 >= attempts[begun + 2] + 12.0;
  }

  lemma NoAttempts(attempts: seq<real>, deadline: Option<real>)
    ensures Paced(attempts, |attempts|) && InTime(attempts, |attempts|, deadline)
  {
  }

  lemma OneMoreAttempt(attempts: seq<real>, begun: nat, now: real, deadline: Option<real>)
    requires Paced(attempts, begun) && InTime(attempts, begun, deadline)
    requires |attempts| > begun ==> now >= attempts[|attempts| - 1] + Backoff(|attempts| - 1 - begun)
    requires deadline.Some? ==> now < deadline.value
    ensures Paced(attempts + [now], begun) && InTime(attempts + [now], begun, deadline)
  {
    hide Backoff;
  }

  type Duration = x: real | x >= 0.0
  type Jitter = x: real | 0.0 <= x <= 0.2

  /** The wait chosen after an attempt: its backoff and up to a fifth more. */
  function Delay(attempt: nat, jitter: Jitter): (wait: real)
    ensures Backoff(attempt) <= wait <= Backoff(attempt) * 1.2
  {
    Backoff(attempt) * (1.0 + jitter)
  }

  const SIGN_BATCH_SIZE := 100

  /** `md5Of` are the checksums of the local files. */
  datatype Plan = Plan(artifacts: seq<Artifact>, tasks: seq<Task>, inference: bool, md5Of: string -> string)

  ghost predicate OncePerPath(artifacts: seq<Artifact>) {
    forall a, b :: a in artifacts && b in artifacts && a.path == b.path ==> a == b
  }

  /** The service knows the checksum of each of these artifacts. */
  ghost predicate Known(s: Service, artifacts: seq<Artifact>) {
    forall a :: a in artifacts ==> Get(s.checksums, a.path) == Some(a.md5)
  }

  /** Each of these artifacts is in the bucket, or listed as a failure, or still waiting. */
  ghost predicate Placed(s: Service, artifacts: seq<Artifact>, waiting: seq<Artifact>, failures: seq<string>) {
    forall a :: a in artifacts ==>
      a in waiting || a.path in failures || Get(s.bucket, a.path) == Some(a.md5)
  }

  /** The content of a request when the checksums of all its files are known. */
  function LocalContent(request: Request, md5Of: string -> string): Content {
    Content(request, seq(|request.paths|, i requires 0 <= i < |request.paths| => Some(md5Of(request.paths[i]))))
  }

  /** The plan is true to the local files: checksums, and each task's rows with distinct ids, all counted. */
  ghost predicate Honest(plan: Plan, rowsOf: Content -> seq<Row>) {
    && OncePerPath(plan.artifacts)
    && (forall a :: a in plan.artifacts ==> a.md5 == plan.md5Of(a.path))
    && forall task :: task in plan.tasks ==>
         && Keyed(task.rows) && |task.rows| == task.request.instanceCount
         && rowsOf(LocalContent(task.request, plan.md5Of)) == task.rows
  }

  /** Every file that a task names is among the artifacts: none was skipped when they were collected. */
  ghost predicate Covered(plan: Plan) {
    forall task, path :: task in plan.tasks && path in task.request.paths ==>
      exists a :: a in plan.artifacts && a.path == path
  }

  /** Once the artifacts are signed, every task is ready. */
  lemma ReadyOnceKnown(s: Service, plan: Plan, task: Task, rowsOf: Content -> seq<Row>)
    requires Known(s, plan.artifacts) && Honest(plan, rowsOf) && Covered(plan) && task in plan.tasks
    ensures Ready(s, task, rowsOf)
  {
    hide Keyed;
    var request := task.request;
    forall i | 0 <= i < |request.paths|
      ensures Get(s.checksums, request.paths[i]) == Some(plan.md5Of(request.paths[i]))
    {
      var path := request.paths[i];
      assert path in request.paths;
      var a :| a in plan.artifacts && a.path == path;
    }
    assert ContentOf(s, request) == LocalContent(request, plan.md5Of);
  }

  // ------------------------------------------------------------------ files that are not signed

  function ArtifactsOf(paths: seq<string>, md5Of: string -> string): seq<Artifact> {
    if paths == [] then []
    else
      var last := paths[|paths| - 1];
      ArtifactsOf(paths[..|paths| - 1], md5Of) + [Artifact(last, md5Of(last))]
  }

  function SignedAs(s: Service, signed: seq<string>, md5Of: string -> string): Service {
    Perform(s, Sign(ArtifactsOf(signed, md5Of)))
  }

  lemma {:induction false} ChecksumOf(signed: seq<string>, md5Of: string -> string, path: string)
    ensures Get(Checksums(ArtifactsOf(signed, md5Of)), path) == if path in signed then Some(md5Of(path)) else None
  {
    if signed != [] {
      var front, last := signed[..|signed| - 1], signed[|signed| - 1];
      ChecksumOf(front, md5Of, path);
      assert signed == front + [last];
      assert ArtifactsOf(signed, md5Of)[..|ArtifactsOf(front, md5Of)|] == ArtifactsOf(front, md5Of);
    }
  }

  lemma ContentSignedAs(s: Service, signed: seq<string>, md5Of: string -> string, request: Request)
    ensures ContentOf(SignedAs(s, signed, md5Of), request).checksums ==
      seq(|request.paths|, i requires 0 <= i < |request.paths| =>
        if request.paths[i] in signed then Some(md5Of(request.paths[i])) else Get(s.checksums, request.paths[i]))
  {
    forall i | 0 <= i < |request.paths| {
      ChecksumOf(signed, md5Of, request.paths[i]);
    }
    hide Checksums, ArtifactsOf;
  }

  /** What the service hashes tells a task's files apart. */
  ghost predicate Tells(signed: seq<string>, request: Request) {
    forall s: Service, f: string -> string, f': string -> string
      {:trigger ContentOf(SignedAs(s, signed, f), request), ContentOf(SignedAs(s, signed, f'), request)} ::
      ContentOf(SignedAs(s, signed, f), request) == ContentOf(SignedAs(s, signed, f'), request) ==>
      forall i :: 0 <= i < |request.paths| ==> f(request.paths[i]) == f'(request.paths[i])
  }

  /** It does so exactly when every file that the task names is signed. */
  lemma TellsWhenCovered(signed: seq<string>, request: Request)
    ensures Tells(signed, request) <==> forall i :: 0 <= i < |request.paths| ==> request.paths[i] in signed
  {
    hide ContentOf, SignedAs;
    if forall i :: 0 <= i < |request.paths| ==> request.paths[i] in signed {
      forall s: Service, f: string -> string, f': string -> string |
        ContentOf(SignedAs(s, signed, f), request) == ContentOf(SignedAs(s, signed, f'), request)
        ensures forall i :: 0 <= i < |request.paths| ==> f(request.paths[i]) == f'(request.paths[i])
      {
        CoveredTells(s, signed, f, f', request);
      }
    }
    if i :| 0 <= i < |request.paths| && request.paths[i] !in signed {
      var p := request.paths[i];
      var s := Service(map[], map[], map[]);
      var f, f' := (path: string) => "a", (path: string) => if path == p then "b" else "a";
      UncoveredBlurs(s, signed, f, f', request);
      assert f(p) != f'(p);
    }
  }

  lemma CoveredTells(s: Service, signed: seq<string>, f: string -> string, f': string -> string, request: Request)
    requires forall i :: 0 <= i < |request.paths| ==> request.paths[i] in signed
    requires ContentOf(SignedAs(s, signed, f), request) == ContentOf(SignedAs(s, signed, f'), request)
    ensures forall i :: 0 <= i < |request.paths| ==> f(request.paths[i]) == f'(request.paths[i])
  {
    hide SignedAs;
    ContentSignedAs(s, signed, f, request);
    ContentSignedAs(s, signed, f', request);
    var c, c' := ContentOf(SignedAs(s, signed, f), request), ContentOf(SignedAs(s, signed, f'), request);
    hide ContentOf;
    forall i | 0 <= i < |request.paths| ensures f(request.paths[i]) == f'(request.paths[i]) {
      assert c.checksums[i] == Some(f(request.paths[i])) && c'.checksums[i] == Some(f'(request.paths[i]));
    }
  }

  lemma UncoveredBlurs(s: Service, signed: seq<string>, f: string -> string, f': string -> string, request: Request)
    requires forall path :: path in signed ==> f(path) == f'(path)
    ensures ContentOf(SignedAs(s, signed, f), request) == ContentOf(SignedAs(s, signed, f'), request)
  {
    hide SignedAs;
    ContentSignedAs(s, signed, f, request);
    ContentSignedAs(s, signed, f', request);
  }

  /**
   Then a changed file is missed: sent, completed and sent again with other files that were not
   signed, the request is answered "unchanged", and the rows of the first send stay.
   */
  lemma SkippedFileIsMissed(
    signed: seq<string>, f: string -> string, f': string -> string, request: Request, rows: seq<Row>)
    requires forall path :: path in signed ==> f(path) == f'(path)
    requires Keyed(rows) && |rows| == request.instanceCount
    ensures
      var s0 := SignedAs(Service(map[], map[], map[]), signed, f);
      var s1 := Perform(Perform(Perform(s0, Upsert(request)), Post(request.key, rows)), Complete);
      var s2 := SignedAs(s1, signed, f');
      && ReplyTo(s2, Upsert(request)) == Unchanged
      && request.key in s2.results && s2.results[request.key].rows == RowMap(rows)
  {
    var s0 := SignedAs(Service(map[], map[], map[]), signed, f);
    var s1 := Perform(Perform(Perform(s0, Upsert(request)), Post(request.key, rows)), Complete);
    RowMapSize(rows);
    SentOnce(s0, request, rows);
    assert SignedAs(s1, signed, f').results == s1.results;
    SignedTwice(signed, f, f', s1, request);
  }

  lemma SentOnce(s: Service, request: Request, rows: seq<Row>)
    requires s.results == map[] && |RowMap(rows)| == |rows| == request.instanceCount
    ensures
      var s' := Perform(Perform(Perform(s, Upsert(request)), Post(request.key, rows)), Complete);
      && s'.checksums == s.checksums
      && request.key in s'.results
      && s'.results[request.key] == TaskResult(ContentOf(s, request), RowMap(rows), request.instanceCount, true)
  {
    hide *;
    var emptied := TaskResult(ContentOf(s, request), map[], 0, false);
    UpsertsFresh(s, request);
    PostedToFresh(emptied, RowMap(rows));
    PostsTo(Perform(s, Upsert(request)), request.key, rows);
    Completes(Perform(Perform(s, Upsert(request)), Post(request.key, rows)), request.key);
  }

  lemma UpsertsFresh(s: Service, request: Request)
    requires request.key !in s.results
    ensures
      var s' := Perform(s, Upsert(request));
      && s'.checksums == s.checksums && request.key in s'.results
      && s'.results[request.key] == TaskResult(ContentOf(s, request), map[], 0, false)
  {
    hide ContentOf;
  }

  lemma PostedToFresh(emptied: TaskResult, batch: map<string, Row>)
    requires emptied.rows == map[] && emptied.instancesStored == 0
    ensures Posted(emptied, batch) == emptied.(rows := batch, instancesStored := |batch|, finalized := false)
  {
    var none: map<string, Row> := map[];
    assert batch.Keys - none.Keys == batch.Keys && none + batch == batch && |batch.Keys| == |batch|;
  }

  lemma PostsTo(s: Service, key: Key, rows: seq<Row>)
    requires key in s.results
    ensures
      var s' := Perform(s, Post(key, rows));
      s'.checksums == s.checksums && key in s'.results && s'.results[key] == Posted(s.results[key], RowMap(rows))
  {
    hide Posted, RowMap;
  }

  lemma Completes(s: Service, key: Key)
    requires key in s.results
    ensures
      var s' := Perform(s, Complete);
      s'.checksums == s.checksums && key in s'.results && s'.results[key] == s.results[key].(finalized := true)
  {
  }

  lemma SignedTwice(signed: seq<string>, f: string -> string, f': string -> string, s1: Service, request: Request)
    requires forall path :: path in signed ==> f(path) == f'(path)
    requires s1.checksums == SignedAs(Service(map[], map[], map[]), signed, f).checksums
    ensures ContentOf(SignedAs(s1, signed, f'), request) ==
      ContentOf(SignedAs(Service(map[], map[], map[]), signed, f), request)
  {
    hide Checksums, ArtifactsOf;
    var s0 := SignedAs(Service(map[], map[], map[]), signed, f);
    forall i | 0 <= i < |request.paths|
      ensures Get(SignedAs(s1, signed, f').checksums, request.paths[i]) == Get(s0.checksums, request.paths[i])
    {
      ChecksumOf(signed, f, request.paths[i]);
      ChecksumOf(signed, f', request.paths[i]);
    }
  }

  /** One such input: a predictions file too large to be an artifact, with one row before and another after. */
  lemma LargeFileKeepsOldRow(before: Row, after: Row)
    requires before != after
    ensures
      var request := Request(Key("gsm8k", "0123"), "", ["task-000-gsm8k-predictions.jsonl"], 1);
      var s0 := Service(map[], map[], map[]);
      var s := Perform(Perform(Perform(s0, Upsert(request)), Post(request.key, [before])), Complete);
      && ReplyTo(s, Upsert(request)) == Unchanged
      && request.key in s.results && s.results[request.key].rows != RowMap([after])
  {
    hide RowMap;
    var request := Request(Key("gsm8k", "0123"), "", ["task-000-gsm8k-predictions.jsonl"], 1);
    var s0 := Service(map[], map[], map[]);
    RowMapSize([before]);
    SentOnce(s0, request, [before]);
    OneRow(before);
    OneRow(after);
  }

  lemma OneRow(row: Row)
    ensures RowMap([row]) == map[row.nativeId := row]
  {
    assert [row][..0] == [];
    assert RowMap([row][..0]) == map[];
  }

  lemma {:induction false} ChecksumsAre(artifacts: seq<Artifact>)
    requires OncePerPath(artifacts)
    ensures forall a :: a in artifacts ==> Get(Checksums(artifacts), a.path) == Some(a.md5)
    ensures forall path :: path in Checksums(artifacts) ==> exists a :: a in artifacts && a.path == path
  {
    if artifacts != [] {
      var front, last := artifacts[..|artifacts| - 1], artifacts[|artifacts| - 1];
      ChecksumsAre(front);
      assert artifacts == front + [last];
    }
  }

  lemma {:induction false} PendingAre(bucket: map<string, string>, artifacts: seq<Artifact>)
    ensures forall a :: a in artifacts ==> a in Pending(bucket, artifacts) || Get(bucket, a.path) == Some(a.md5)
    ensures forall a :: a in Pending(bucket, artifacts) ==> a in artifacts
  {
    if artifacts != [] {
      var front, last := artifacts[..|artifacts| - 1], artifacts[|artifacts| - 1];
      PendingAre(bucket, front);
      assert artifacts == front + [last];
    }
  }

  lemma NothingYet(s: Service)
    ensures Known(s, []) && Placed(s, [], [], [])
  {
  }

  /** Signing a batch makes it known, and what was known stays so. */
  lemma SignKnows(s: Service, before: seq<Artifact>, batch: seq<Artifact>)
    requires OncePerPath(before + batch) && Known(s, before)
    ensures Known(Perform(s, Sign(batch)), before + batch)
  {
    assert forall a :: a in batch ==> a in before + batch;
    assert forall a :: a in before ==> a in before + batch;
    ChecksumsAre(batch);
    hide Checksums;
    var s' := Perform(s, Sign(batch));
    assert s'.checksums == s.checksums + Checksums(batch);
    hide Perform;
    forall a | a in before + batch ensures Get(s'.checksums, a.path) == Some(a.md5) {
      assert a in before || a in batch;
      if a.path in Checksums(batch) {
        var b :| b in batch && b.path == a.path;
        assert a == b;
      }
    }
  }

  /** What is not pending is in the bucket. */
  lemma SignPlaces(s: Service, before: seq<Artifact>, batch: seq<Artifact>, failures: seq<string>)
    requires Placed(s, before, [], failures)
    ensures Placed(Perform(s, Sign(batch)), before + batch, Pending(s.bucket, batch), failures)
    ensures forall a :: a in Pending(s.bucket, batch) ==> a in before + batch
  {
    PendingAre(s.bucket, batch);
    assert Perform(s, Sign(batch)).bucket == s.bucket;
    hide Perform, Pending;
  }

  /** One of the waiting artifacts is tried. */
  lemma AfterPut(
    s: Service, artifacts: seq<Artifact>, waiting: seq<Artifact>, i: nat, failures: seq<string>,
    s': Service, failed: bool)
    requires OncePerPath(artifacts) && Known(s, artifacts) && Placed(s, artifacts, waiting, failures)
    requires i < |waiting| && waiting[i] in artifacts
    requires s' == s || s' == Perform(s, Put(waiting[i]))
    requires !failed ==> Get(s'.bucket, waiting[i].path) == Some(waiting[i].md5)
    ensures Known(s', artifacts)
    ensures Placed(s', artifacts, waiting[..i] + waiting[i + 1..],
                   if failed then failures + [waiting[i].path] else failures)
  {
    var rest := waiting[..i] + waiting[i + 1..];
    assert waiting == waiting[..i] + [waiting[i]] + waiting[i + 1..];
    forall a | a in artifacts
      ensures a in rest || a == waiting[i] || a.path in failures || Get(s'.bucket, a.path) == Some(a.md5)
    {
      assert a in waiting ==> a == waiting[i] || a in rest;
    }
  }

  lemma KnownMember(s: Service, artifacts: seq<Artifact>, a: Artifact)
    requires Known(s, artifacts) && a in artifacts
    ensures Get(s.checksums, a.path) == Some(a.md5)
  {
  }

  lemma SignReply(s: Service, batch: seq<Artifact>)
    ensures Perform(s, Sign(batch)).results == s.results
    ensures ReplyTo(s, Sign(batch)) == Signed(Pending(s.bucket, batch))
  {
  }

  lemma PutReply(s: Service, a: Artifact)
    ensures Perform(s, Put(a)).results == s.results && Perform(s, Put(a)).checksums == s.checksums
    ensures Get(Perform(s, Put(a)).bucket, a.path) == Some(a.md5)
  {
  }

  lemma PrefixOnce(artifacts: seq<Artifact>, end: nat)
    requires end <= |artifacts| && OncePerPath(artifacts)
    ensures OncePerPath(artifacts[..end])
  {
  }

  /** Signing an artifact for again changes nothing, and finds it pending until it is in the bucket. */
  lemma SignOne(s: Service, a: Artifact)
    requires Get(s.checksums, a.path) == Some(a.md5)
    ensures Perform(s, Sign([a])) == s
    ensures ReplyTo(s, Sign([a])).Signed?
    ensures ReplyTo(s, Sign([a])).pending == if Get(s.bucket, a.path) == Some(a.md5) then [] else [a]
  {
    assert [a][..0] == [];
    assert Pending(s.bucket, [a][..0]) == [];
    assert Checksums([a]) == map[a.path := a.md5];
    assert s.checksums + Checksums([a]) == s.checksums;
  }

  // ------------------------------------------------------------------ sending one task

  lemma ReadyByChecksums(s: Service, s': Service, task: Task, rowsOf: Content -> seq<Row>)
    requires Ready(s, task, rowsOf) && s'.checksums == s.checksums
    ensures Ready(s', task, rowsOf)
  {
    assert ContentOf(s', task.request) == ContentOf(s, task.request);
  }

  lemma HoldsByResult(s: Service, s': Service, task: Task, rowsOf: Content -> seq<Row>)
    requires Holds(s, task, rowsOf) && Get(s'.results, task.request.key) == Get(s.results, task.request.key)
    ensures Holds(s', task, rowsOf)
  {
  }

  /** Only this key's result may differ. */
  ghost predicate SameBut(s: Service, s': Service, key: Key) {
    && s'.checksums == s.checksums && s'.bucket == s.bucket
    && forall other :: other != key ==> Get(s'.results, other) == Get(s.results, other)
  }

  /** The first rows of a task are stored, under the content it was announced with. */
  ghost predicate Begun(s: Service, task: Task, content: Content, sent: seq<Row>) {
    && task.request.key in s.results
    && s.results[task.request.key].content == content
    && s.results[task.request.key].rows == RowMap(sent)
  }

  lemma AfterUpsert(s: Service, task: Task, rowsOf: Content -> seq<Row>)
    requires Sound(s, rowsOf)
    ensures var s' := Perform(s, Upsert(task.request));
      && Sound(s', rowsOf) && SameBut(s, s', task.request.key)
      && ReplyTo(s, Upsert(task.request)) == (if IsUnchanged(s, task.request) then Unchanged else Stored)
      && (IsUnchanged(s, task.request) ==> s' == s)
      && (!IsUnchanged(s, task.request) ==> Begun(s', task, ContentOf(s, task.request), []))
  {
    UpsertKeeps(s, task.request, rowsOf);
    UpsertBegins(s, task);
    hide *;
  }

  lemma UpsertBegins(s: Service, task: Task)
    ensures var s' := Perform(s, Upsert(task.request));
      && SameBut(s, s', task.request.key)
      && ReplyTo(s, Upsert(task.request)) == (if IsUnchanged(s, task.request) then Unchanged else Stored)
      && (IsUnchanged(s, task.request) ==> s' == s)
      && (!IsUnchanged(s, task.request) ==> Begun(s', task, ContentOf(s, task.request), []))
  {
    hide ContentOf, IsUnchanged;
  }

  lemma PostAdds(s: Service, task: Task, content: Content, sent: seq<Row>, batch: seq<Row>)
    requires Begun(s, task, content, sent)
    ensures var s' := Perform(s, Post(task.request.key, batch));
      SameBut(s, s', task.request.key) && Begun(s', task, content, sent + batch)
  {
    RowMapSum(sent, batch);
    hide RowMap;
  }

  lemma AfterPost(s: Service, task: Task, content: Content, sent: seq<Row>, batch: seq<Row>, rest: seq<Row>,
                  rowsOf: Content -> seq<Row>)
    requires Sound(s, rowsOf) && Begun(s, task, content, sent)
    requires Keyed(task.rows) && rowsOf(content) == task.rows == sent + batch + rest
    ensures var s' := Perform(s, Post(task.request.key, batch));
      Sound(s', rowsOf) && SameBut(s, s', task.request.key) && Begun(s', task, content, sent + batch)
  {
    KeyedPart(sent, batch, rest);
    PrefixWithin(sent, batch);
    PrefixWithin(sent + batch, rest);
    assert Within(RowMap(batch), RowMap(task.rows)) by {
      hide RowMap, Keyed;
    }
    PostAdds(s, task, content, sent, batch);
    hide RowMap, Keyed, Perform, Sound, Within, SameBut;
    PostKeeps(s, task.request.key, batch, rowsOf);
  }

  lemma KeyedPart(a: seq<Row>, b: seq<Row>, c: seq<Row>)
    requires Keyed(a + b + c)
    ensures Keyed(a + b)
  {
    forall i, j | 0 <= i < j < |a + b| ensures (a + b)[i].nativeId != (a + b)[j].nativeId {
      assert (a + b + c)[i] == (a + b)[i] && (a + b + c)[j] == (a + b)[j];
    }
  }

  /** With the last row sent, the task is held. */
  lemma AllRowsHeld(s: Service, task: Task, content: Content, rowsOf: Content -> seq<Row>)
    requires Sound(s, rowsOf) && Begun(s, task, content, task.rows)
    requires Keyed(task.rows) && |task.rows| == task.request.instanceCount
    requires rowsOf(content) == task.rows && content.request == task.request
    ensures Holds(s, task, rowsOf)
  {
    RowMapSize(task.rows);
    assert SoundResult(s.results[task.request.key], rowsOf);
  }

  lemma {:induction false} FlattenSplit<T>(batches: seq<seq<T>>, n: nat)
    requires n < |batches|
    ensures exists rest :: Flatten(batches) == Flatten(batches[..n]) + batches[n] + rest
  {
    var front := batches[..|batches| - 1];
    if n == |batches| - 1 {
      assert Flatten(batches) == Flatten(batches[..n]) + batches[n] + [];
    } else {
      FlattenSplit(front, n);
      var rest :| Flatten(front) == Flatten(front[..n]) + front[n] + rest;
      assert front[..n] == batches[..n];
      assert Flatten(batches) == Flatten(batches[..n]) + batches[n] + (rest + batches[|batches| - 1]);
    }
  }

  lemma NoBatches<T>(batches: seq<seq<T>>)
    ensures Flatten(batches[..0]) == []
  {
  }

  lemma FlattenNext<T>(batches: seq<seq<T>>, n: nat)
    requires n < |batches|
    ensures Flatten(batches[..n + 1]) == Flatten(batches[..n]) + batches[n]
  {
    hide Flatten;
    assert batches[..n + 1] == batches[..n] + [batches[n]];
    FlattenAppend(batches[..n], batches[n]);
  }

  // ------------------------------------------------------------------ sending a plan

  /** Task j is the last of the plan with its key. */
  ghost predicate LastWithKey(tasks: seq<Task>, j: nat) {
    j < |tasks| && forall l :: j < l < |tasks| ==> tasks[l].request.key != tasks[j].request.key
  }

  /** Every task of the plan is stored, except one that a later task with the same key replaced. */
  ghost predicate AllStored(s: Service, tasks: seq<Task>, rowsOf: Content -> seq<Row>) {
    forall j: nat :: LastWithKey(tasks, j) ==> Holds(s, tasks[j], rowsOf)
  }

  lemma StoredNext(s: Service, s': Service, tasks: seq<Task>, j: nat, rowsOf: Content -> seq<Row>)
    requires j < |tasks| && AllStored(s, tasks[..j], rowsOf)
    requires SameBut(s, s', tasks[j].request.key) && Holds(s', tasks[j], rowsOf)
    ensures AllStored(s', tasks[..j + 1], rowsOf)
  {
    hide Holds;
    var sent := tasks[..j + 1];
    forall l: nat | LastWithKey(sent, l) ensures Holds(s', sent[l], rowsOf) {
      if l < j {
        assert sent[j] == tasks[j];
        assert forall m :: l < m < j ==> sent[m] == tasks[..j][m];
        assert LastWithKey(tasks[..j], l);
        HoldsByResult(s, s', tasks[l], rowsOf);
      }
    }
  }

  ghost predicate AllFinal(s: Service) {
    forall key :: key in s.results ==> s.results[key].finalized
  }

  /** The rows stored for a key, if it has a result. */
  function RowsStored(s: Service, key: Key): Option<map<string, Row>> {
    if key in s.results then Some(s.results[key].rows) else None
  }

  /** No result of another plan's task is touched. */
  ghost predicate OthersKept(s: Service, s': Service, tasks: seq<Task>) {
    forall key :: (forall task :: task in tasks ==> task.request.key != key) ==>
      RowsStored(s', key) == RowsStored(s, key)
  }

  lemma OthersKeptBy(s: Service, s': Service, s'': Service, task: Task, tasks: seq<Task>)
    requires OthersKept(s, s', tasks) && SameBut(s', s'', task.request.key) && task in tasks
    ensures OthersKept(s, s'', tasks)
  {
    forall key | forall task :: task in tasks ==> task.request.key != key
      ensures RowsStored(s'', key) == RowsStored(s, key)
    {
      assert Get(s''.results, key) == Get(s'.results, key);
    }
  }

  lemma Untouched(s: Service, tasks: seq<Task>)
    ensures OthersKept(s, s, tasks) && Perform(s, Touch) == s
  {
  }

  lemma ByResults(s: Service, s': Service, tasks: seq<Task>, rowsOf: Content -> seq<Row>)
    requires s'.results == s.results
    ensures Sound(s, rowsOf) ==> Sound(s', rowsOf)
    ensures OthersKept(s, s', tasks) && AllStored(s', [], rowsOf)
  {
  }

  lemma PlacedInBucket(s: Service, s': Service, artifacts: seq<Artifact>, failures: seq<string>)
    requires s'.bucket == s.bucket && Placed(s, artifacts, [], failures)
    ensures Placed(s', artifacts, [], failures)
  {
  }

  lemma AfterComplete(s0: Service, s: Service, tasks: seq<Task>, rowsOf: Content -> seq<Row>)
    requires Sound(s, rowsOf) && AllStored(s, tasks, rowsOf) && OthersKept(s0, s, tasks)
    ensures var s' := Perform(s, Complete);
      && Sound(s', rowsOf) && AllStored(s', tasks, rowsOf) && AllFinal(s') && OthersKept(s0, s', tasks)
      && s'.bucket == s.bucket
  {
    CompleteKeeps(s, rowsOf);
  }

  /**
   What one attempt meets: a transport error, a status worth retrying, a rejected signature (400 or
   403), any other error, or success. An attempt may reach the service whatever its answer.
   */
  datatype Answer = Lost | Busy | Denied | Failing | Fine

  datatype Fate = Fate(answer: Answer, reached: bool, elapsed: Duration, jitter: Jitter, overslept: Duration) {
    predicate Retryable() {
      answer.Lost? || answer.Busy?
    }
  }

  datatype Outcome = Answered(reply: Reply) | Rejected | Refused | Exhausted | OutOfTime

  ghost predicate AllRetryable(network: nat -> Fate, begun: nat, n: nat) {
    forall i :: begun <= i < n ==> network(i).Retryable()
  }

  /** What the last of k attempts says about how a request ends. */
  predicate EndsWith(fate: Fate, k: nat, maxRetries: int, r: Outcome) {
    match r
    case Answered(_) => fate.answer.Fine?
    case Rejected => fate.answer.Denied?
    case Refused => fate.answer.Failing?
    case Exhausted => fate.Retryable() && k > maxRetries
    case OutOfTime => fate.Retryable()
  }

  /** The outcome is that of the last attempt, or of there being no more; every earlier attempt called for a retry. */
  ghost predicate Explained(network: nat -> Fate, begun: nat, n: nat, maxRetries: int, r: Outcome) {
    && begun <= n && (n - begun <= 1 || n - begun <= maxRetries + 1)
    && if n == begun then r.OutOfTime?
       else AllRetryable(network, begun, n - 1) && EndsWith(network(n - 1), n - begun, maxRetries, r)
  }

  /** There is no time left for the wait after attempt k, counted from 1; for k = 0, no time left at all. */
  ghost predicate NoTime(deadline: Option<real>, now: real, k: nat) {
    deadline.Some? && deadline.value - now <= if k == 0 then 0.0 else Backoff(k - 1) * 1.2
  }

  /** Before attempt k + 1 of a request: k attempts, all calling for a retry, well spaced, and the wait is over. */
  ghost predicate Retrying(
    network: nat -> Fate, attempts: seq<real>, begun: nat, k: nat, now: real, deadline: Option<real>)
  {
    && |attempts| == begun + k && AllRetryable(network, begun, begun + k)
    && InTime(attempts, begun, deadline) && Paced(attempts, begun)
    && (k > 0 ==> now >= attempts[|attempts| - 1] + Backoff(k - 1))
  }

  lemma RetryFirst(network: nat -> Fate, attempts: seq<real>, now: real, deadline: Option<real>)
    ensures Retrying(network, attempts, |attempts|, 0, now, deadline)
  {
    hide *;
    NoAttempts(attempts, deadline);
    NoneRetried(network, |attempts|);
    RetryingIs(network, attempts, |attempts|, 0, now, deadline);
  }

  lemma RetryingIs(
    network: nat -> Fate, attempts: seq<real>, begun: nat, k: nat, now: real, deadline: Option<real>)
    ensures Retrying(network, attempts, begun, k, now, deadline) <==>
      && |attempts| == begun + k && AllRetryable(network, begun, begun + k)
      && InTime(attempts, begun, deadline) && Paced(attempts, begun)
      && (k > 0 ==> now >= attempts[|attempts| - 1] + Backoff(k - 1))
  {
    hide AllRetryable, InTime, Paced, Backoff;
  }

  /** An attempt that calls for a retry, and the wait after it. */
  lemma RetryAgain(
    network: nat -> Fate, attempts: seq<real>, begun: nat, k: nat, now: real, deadline: Option<real>,
    later: real, jitter: Jitter, overslept: Duration)
    requires Retrying(network, attempts, begun, k, now, deadline) && (deadline.Some? ==> now < deadline.value)
    requires network(begun + k).Retryable() && later >= now
    ensures Retrying(network, attempts + [now], begun, k + 1, later + Delay(k, jitter) + overslept, deadline)
  {
    hide *;
    RetryingIs(network, attempts, begun, k, now, deadline);
    OneMoreAttempt(attempts, begun, now, deadline);
    NextRetryable(network, begun, begun + k);
    RetryingIs(network, attempts + [now], begun, k + 1, later + Delay(k, jitter) + overslept, deadline);
  }

  lemma RetriedOrEnded(fate: Fate)
    ensures !fate.Retryable() <==> fate.answer.Fine? || fate.answer.Denied? || fate.answer.Failing?
  {
  }

  lemma EndExplained(network: nat -> Fate, begun: nat, k: nat, maxRetries: int, r: Outcome)
    requires k > 0 && (k == 1 || k <= maxRetries + 1) && AllRetryable(network, begun, begun + k - 1)
    requires EndsWith(network(begun + k - 1), k, maxRetries, r)
    ensures Explained(network, begun, begun + k, maxRetries, r)
  {
  }

  /** The first of these attempts that does not call for a retry finds its signature rejected. */
  ghost predicate DeniedFirst(network: nat -> Fate, begun: nat, n: nat) {
    exists i :: begun <= i < n && network(i).answer.Denied? && AllRetryable(network, begun, i)
  }

  lemma RejectedIs(network: nat -> Fate, begun: nat, n: nat, maxRetries: int, r: Outcome)
    requires Explained(network, begun, n, maxRetries, r)
    ensures r.Rejected? <==> DeniedFirst(network, begun, n)
  {
  }

  lemma DeniedStays(network: nat -> Fate, begun: nat, n: nat, end: nat)
    requires DeniedFirst(network, begun, n) && n <= end
    ensures DeniedFirst(network, begun, end)
  {
  }

  lemma NoneRetried(network: nat -> Fate, begun: nat)
    ensures AllRetryable(network, begun, begun)
  {
  }

  lemma NextRetryable(network: nat -> Fate, begun: nat, n: nat)
    requires begun <= n && AllRetryable(network, begun, n) && network(n).Retryable()
    ensures AllRetryable(network, begun, n + 1)
  {
  }

  lemma OutOfTimeAtOnce(network: nat -> Fate, begun: nat, k: nat, maxRetries: int, deadline: Option<real>, now: real)
    requires (k == 0 || k <= maxRetries + 1) && AllRetryable(network, begun, begun + k)
    requires deadline.Some? && deadline.value - now <= 0.0
    ensures Explained(network, begun, begun + k, maxRetries, OutOfTime) && NoTime(deadline, now, k)
  {
  }

  lemma NoTimeToWait(deadline: Option<real>, now: real, attempt: nat, jitter: Jitter)
    requires deadline.Some? && Delay(attempt, jitter) >= deadline.value - now
    ensures NoTime(deadline, now, attempt + 1)
  {
    hide Backoff, Delay;
  }

  // ------------------------------------------------------------------ the requests of a send

  /** Artifacts are signed for a hundred at a time, or fewer, and put one by one. */
  predicate SignsAndPuts(ops: seq<Op>) {
    forall i :: 0 <= i < |ops| ==> ops[i].Put? || (ops[i].Sign? && 1 <= |ops[i].artifacts| <= 100)
  }

  lemma NoSigns()
    ensures SignsAndPuts([])
  {
  }

  lemma SignsMore(before: seq<Op>, artifacts: seq<Artifact>)
    requires SignsAndPuts(before) && 1 <= |artifacts| <= 100
    ensures SignsAndPuts(before + [Sign(artifacts)])
  {
  }

  lemma UploadsMore(before: seq<Op>, made: seq<Op>, artifact: Artifact)
    requires SignsAndPuts(before) && made <= [Put(artifact), Sign([artifact]), Put(artifact)]
    ensures SignsAndPuts(before + made)
  {
  }

  /** Rows go out in batches of 2000; only the last may have fewer. */
  predicate Posts(ops: seq<Op>, key: Key) {
    forall i :: 0 <= i < |ops| ==>
      ops[i].Post? && ops[i].key == key && 1 <= |ops[i].rows| <= 2000 && (i < |ops| - 1 ==> |ops[i].rows| == 2000)
  }

  predicate FullPosts(ops: seq<Op>, key: Key) {
    Posts(ops, key) && (ops != [] ==> |ops[|ops| - 1].rows| == 2000)
  }

  lemma NoPosts(key: Key)
    ensures Posts([], key) && FullPosts([], key)
  {
  }

  lemma PostsMore(ops: seq<Op>, key: Key, rows: seq<Row>)
    requires FullPosts(ops, key) && 1 <= |rows| <= 2000
    ensures Posts(ops + [Post(key, rows)], key)
    ensures |rows| == 2000 ==> FullPosts(ops + [Post(key, rows)], key)
  {
  }

  class IngestClient {
    const maxRetries: int
    const deadline: Option<real>
    const network: nat -> Fate           // what each attempt meets, counted over all requests
    const readable: string -> bool       // whether a local file can be read at its planned size
    ghost const rowsOf: Content -> seq<Row>
    var service: Service
    var now: real
    var attempts: seq<real>              // when each attempt so far was begun
    ghost var requests: seq<Op>          // the requests so far
    ghost var errors: nat                // how many of them ended in an error
    ghost var rejections: nat            // how many uploads had their first put rejected

    constructor (
      maxRetries: int, deadline: Option<real>, network: nat -> Fate, readable: string -> bool,
      service: Service, now: real, ghost rowsOf: Content -> seq<Row>)
      ensures this.maxRetries == maxRetries && this.deadline == deadline && this.rowsOf == rowsOf
      ensures this.network == network && this.readable == readable
      ensures this.service == service && this.now == now && attempts == [] && requests == []
      ensures errors == rejections == 0
      ensures service.results == map[] ==> Valid()
    {
      this.maxRetries, this.deadline, this.network, this.readable := maxRetries, deadline, network, readable;
      this.rowsOf := rowsOf;
      this.service, this.now, attempts, requests, errors, rejections := service, now, [], [], 0, 0;
    }

    ghost predicate Valid()
      reads this
    {
      Sound(service, rowsOf)
    }

    /** The requests that ended in an error, other than a first put that was rejected. */
    ghost function Faults(): int
      reads this
    {
      errors - rejections
    }

    ghost predicate SomeUnreadable(artifacts: seq<Artifact>) {
      exists a :: a in artifacts && !readable(a.path)
    }

    lemma UnreadableIs(artifacts: seq<Artifact>, a: Artifact)
      requires a in artifacts && !readable(a.path)
      ensures SomeUnreadable(artifacts)
    {
    }

    /** One attempt at a request. */
    method SendOnce(op: Op) returns (fate: Fate, reply: Reply)
      modifies this`service, this`now, this`attempts
      ensures fate == network(|old(attempts)|)
      ensures service == old(service) || service == Perform(old(service), op)
      ensures fate.answer.Fine? ==> service == Perform(old(service), op) && reply == ReplyTo(old(service), op)
      ensures attempts == old(attempts) + [old(now)] && now >= old(now)
    {
      fate, reply := network(|attempts|), ReplyTo(service, op);
      attempts := attempts + [now];
      now := now + fate.elapsed;
      if fate.reached || fate.answer.Fine? {
        service := Perform(service, op);
      }
    }

    /** One request with retries. */
    method WithRetries(op: Op) returns (r: Outcome)
      modifies this`service, this`now, this`attempts, this`requests, this`errors
      // reached or not, the service is in one of two states; with an answer, in one
      ensures service == old(service) || service == Perform(old(service), op)
      ensures r.Answered? ==> service == Perform(old(service), op) && r.reply == ReplyTo(old(service), op)
      // it gives up only for the reasons it may
      ensures Explained(network, |old(attempts)|, |attempts|, maxRetries, r)
      ensures r.OutOfTime? ==> NoTime(deadline, now, |attempts| - |old(attempts)|)
      ensures r.Exhausted? ==> |attempts| == |old(attempts)| + (if maxRetries > 0 then maxRetries + 1 else 1)
      ensures |attempts| <= |old(attempts)| + (if maxRetries > 0 then maxRetries + 1 else 1)
      ensures errors == old(errors) + if r.Answered? then 0 else 1
      ensures requests == old(requests) + [op]
      // attempts are spaced out, and never begun past the deadline
      ensures old(attempts) <= attempts
      ensures InTime(attempts, |old(attempts)|, deadline)
      ensures Paced(attempts, |old(attempts)|)
    {
      hide *;
      var attempt := 0;
      ghost var begun := |attempts|;
      RetryFirst(network, attempts, now, deadline);
      while true
        invariant 0 <= attempt && (attempt == 0 || attempt <= maxRetries)
        invariant service == old(service) || service == Perform(old(service), op)
        invariant old(attempts) <= attempts && |attempts| == begun + attempt
        invariant Retrying(network, attempts, begun, attempt, now, deadline)
        modifies this`service, this`now, this`attempts
        decreases maxRetries - attempt
      {
        RetryingIs(network, attempts, begun, attempt, now, deadline);
        if deadline.Some? && deadline.value - now <= 0.0 {
          OutOfTimeAtOnce(network, begun, attempt, maxRetries, deadline, now);
          r := OutOfTime;
          break;
        }
        OneMoreAttempt(attempts, begun, now, deadline);
        Idempotent(old(service), op);
        ghost var before, start := attempts, now;
        var fate, reply := SendOnce(op);
        if fate.answer.Fine? {
          EndExplained(network, begun, attempt + 1, maxRetries, Answered(reply));
          r := Answered(reply);
          break;
        }
        RetriedOrEnded(fate);
        if !fate.Retryable() {
          r := if fate.answer.Denied? then Rejected else Refused;
          EndExplained(network, begun, attempt + 1, maxRetries, r);
          break;
        }
        if attempt >= maxRetries {
          EndExplained(network, begun, attempt + 1, maxRetries, Exhausted);
          r := Exhausted;
          break;
        }
        var delay := Delay(attempt, fate.jitter);
        if deadline.Some? && delay >= deadline.value - now {
          NoTimeToWait(deadline, now, attempt, fate.jitter);
          EndExplained(network, begun, attempt + 1, maxRetries, OutOfTime);
          r := OutOfTime;
          break;
        }
        RetryAgain(network, before, begun, attempt, start, deadline, now, fate.jitter, fate.overslept);
        now := now + delay + fate.overslept;
        attempt := attempt + 1;
      }
      errors, requests := if r.Answered? then errors else errors + 1, requests + [op];
    }

    /** One signed upload, signed for again once if the bucket rejects the signature. */
    method UploadOne(artifact: Artifact) returns (failed: bool, ghost made: seq<Op>)
      requires Get(service.checksums, artifact.path) == Some(artifact.md5)
      modifies this
      ensures service == old(service) || service == Perform(old(service), Put(artifact))
      ensures !failed ==> Get(service.bucket, artifact.path) == Some(artifact.md5)
      // a file that cannot be read is not sent; a put is signed for again, once, exactly when it is rejected
      ensures requests == old(requests) + made && made <= [Put(artifact), Sign([artifact]), Put(artifact)]
      ensures made != [] <==> readable(artifact.path)
      ensures |made| > 1 <==> readable(artifact.path) && DeniedFirst(network, |old(attempts)|, |attempts|)
      ensures rejections == old(rejections) + if |made| > 1 then 1 else 0
      // it fails exactly when the file cannot be read or a request fails that is not that first put
      ensures failed <==> !readable(artifact.path) || Faults() > old(Faults())
      ensures Faults() >= old(Faults())
    {
      hide Perform, ReplyTo, Explained, AllRetryable, DeniedFirst, InTime, Paced, NoTime, Backoff;
      PutReply(service, artifact);
      Idempotent(service, Put(artifact));
      made := [];
      if !readable(artifact.path) {
        return true, made;
      }
      ghost var begun := |attempts|;
      var sent := WithRetries(Put(artifact));
      made := [Put(artifact)];
      ghost var tried := |attempts|;
      RejectedIs(network, begun, tried, maxRetries, sent);
      if sent.Answered? {
        return false, made;
      }
      if !sent.Rejected? {
        return true, made;
      }
      rejections := rejections + 1;
      SignOne(service, artifact);
      var resigned := WithRetries(Sign([artifact]));
      made := [Put(artifact), Sign([artifact])];
      DeniedStays(network, begun, tried, |attempts|);
      if !resigned.Answered? {
        return true, made;
      }
      if resigned.reply.pending == [] {
        return false, made;
      }
      sent := WithRetries(Put(artifact));
      made := [Put(artifact), Sign([artifact]), Put(artifact)];
      DeniedStays(network, begun, tried, |attempts|);
      return !sent.Answered?, made;
    }

    /** All artifacts, in batches: signed for, then put into the bucket; None if a batch could not be signed. */
    method UploadArtifacts(artifacts: seq<Artifact>)
      returns (failures: Option<seq<string>>, ghost made: seq<Op>)
      requires OncePerPath(artifacts)
      modifies this
      ensures service.results == old(service.results)
      ensures failures.Some? ==> Known(service, artifacts) && Placed(service, artifacts, [], failures.value)
      // with every file readable and no request failing but first puts that are rejected, everything is uploaded
      ensures Faults() >= old(Faults()) && (failures.None? ==> Faults() > old(Faults()))
      ensures failures.Some? && failures.value != [] ==> Faults() > old(Faults()) || SomeUnreadable(artifacts)
      ensures failures == Some([]) ==> Faults() == old(Faults())
      ensures requests == old(requests) + made && SignsAndPuts(made)
    {
      hide Perform, ReplyTo, Known, Placed, OncePerPath, SignsAndPuts;
      hide SomeUnreadable, DeniedFirst, AllRetryable, Explained, InTime, Paced, NoTime, Backoff;
      made := [];
      NoSigns();
      var failed: seq<string> := [];
      var start := 0;
      NothingYet(service);
      assert artifacts[..0] == [];
      while start < |artifacts|
        invariant 0 <= start <= |artifacts|
        invariant service.results == old(service.results)
        invariant Known(service, artifacts[..start]) && Placed(service, artifacts[..start], [], failed)
        invariant requests == old(requests) + made && SignsAndPuts(made)
        invariant Faults() >= old(Faults()) && (failed == [] ==> Faults() == old(Faults()))
        invariant failed != [] ==> Faults() > old(Faults()) || SomeUnreadable(artifacts)
      {
        var end := if start + SIGN_BATCH_SIZE < |artifacts| then start + SIGN_BATCH_SIZE else |artifacts|;
        ghost var upToEnd := artifacts[..end];
        PrefixOnce(artifacts, end);
        assert upToEnd == artifacts[..start] + artifacts[start..end];
        SignReply(service, artifacts[start..end]);
        SignKnows(service, artifacts[..start], artifacts[start..end]);
        SignPlaces(service, artifacts[..start], artifacts[start..end], failed);
        SignsMore(made, artifacts[start..end]);
        made := made + [Sign(artifacts[start..end])];
        var reply := WithRetries(Sign(artifacts[start..end]));
        if !reply.Answered? {
          return None, made;
        }
        // the uploads run beside one another: any of them may be the next
        var waiting := reply.reply.pending;
        while waiting != []
          invariant service.results == old(service.results)
          invariant Known(service, upToEnd) && Placed(service, upToEnd, waiting, failed)
          invariant forall a :: a in waiting ==> a in upToEnd
          invariant requests == old(requests) + made && SignsAndPuts(made)
          invariant Faults() >= old(Faults()) && (failed == [] ==> Faults() == old(Faults()))
          invariant failed != [] ==> Faults() > old(Faults()) || SomeUnreadable(artifacts)
          decreases |waiting|
        {
          assert |waiting| > 0;
          var i: nat :| i < |waiting|;
          var artifact := waiting[i];
          KnownMember(service, upToEnd, artifact);
          ghost var before := service;
          PutReply(service, artifact);
          var failure, asked := UploadOne(artifact);
          UploadsMore(made, asked, artifact);
          made := made + asked;
          AfterPut(before, upToEnd, waiting, i, failed, service, failure);
          waiting := waiting[..i] + waiting[i + 1..];
          if failure {
            assert artifact in upToEnd && artifact in artifacts;
            if !readable(artifact.path) {
              UnreadableIs(artifacts, artifact);
            }
            failed := failed + [artifact.path];
          }
        }
        start := end;
      }
      assert artifacts[..start] == artifacts;
      return Some(failed), made;
    }

    /** One task result: announce it, then post its rows batch by batch, unless they are there already. */
    method SendTask(task: Task) returns (done: bool, ghost posts: seq<Op>)
      requires Valid() && Ready(service, task, rowsOf)
      modifies this
      ensures Valid() && SameBut(old(service), service, task.request.key)
      ensures done ==> Holds(service, task, rowsOf)
      ensures Faults() >= old(Faults()) && (done <==> Faults() == old(Faults()))
      ensures requests == old(requests) + [Upsert(task.request)] + posts && Posts(posts, task.request.key)
    {
      hide Perform, ReplyTo, Sound, Keyed, RowMap, Flatten, IsUnchanged, Holds, Begun, Posts, FullPosts;
      hide AllRetryable, Explained, InTime, Paced, NoTime, Backoff;
      var key := task.request.key;
      ghost var announced := requests + [Upsert(task.request)];
      posts := [];
      NoPosts(key);
      ghost var content := ContentOf(service, task.request);
      AfterUpsert(service, task, rowsOf);
      ghost var before := service;
      var created := WithRetries(Upsert(task.request));
      if !created.Answered? {
        return false, posts;
      }
      if created.reply.Unchanged? {
        UnchangedIsRight(before, task, rowsOf);
        return true, posts;
      }
      var batches := Batched(task.rows, BATCH_SIZE);
      NoBatches(batches);
      for b := 0 to |batches|
        invariant Valid() && SameBut(old(service), service, key)
        invariant Begun(service, task, content, Flatten(batches[..b]))
        invariant Faults() == old(Faults()) && requests == announced + posts
        invariant Posts(posts, key) && (b < |batches| ==> FullPosts(posts, key))
      {
        FlattenSplit(batches, b);
        FlattenNext(batches, b);
        ghost var rest :| task.rows == Flatten(batches[..b]) + batches[b] + rest;
        AfterPost(service, task, content, Flatten(batches[..b]), batches[b], rest, rowsOf);
        PostsMore(posts, key, batches[b]);
        posts := posts + [Post(key, batches[b])];
        var posted := WithRetries(Post(key, batches[b]));
        if !posted.Answered? {
          return false, posts;
        }
      }
      assert batches[..|batches|] == batches;
      AllRowsHeld(service, task, content, rowsOf);
      return true, posts;
    }

    /** The whole protocol; None if a request failed for good, else whether every file was uploaded. */
    method Send(plan: Plan) returns (ok: Option<bool>)
      requires Valid() && Honest(plan, rowsOf) && Covered(plan)
      modifies this
      // however it ends, the service is fit for another try
      ensures Valid() && OthersKept(old(service), service, plan.tasks)
      ensures ok.Some? ==> AllStored(service, plan.tasks, rowsOf) && AllFinal(service)
      ensures ok == Some(true) ==> Placed(service, plan.artifacts, [], [])
      // with every file readable and no request failing but first puts that are rejected, it succeeds
      ensures Faults() >= old(Faults()) && (ok.None? ==> Faults() > old(Faults()))
      ensures ok == Some(false) ==> Faults() > old(Faults()) || SomeUnreadable(plan.artifacts)
      ensures ok == Some(true) ==> Faults() == old(Faults())
      // the run is announced first, and completed last, after the inference metrics if there are any
      ensures old(requests) + [Touch] <= requests
      ensures ok.Some? ==> requests[|requests| - 1] == Complete
      ensures ok.Some? && plan.inference ==> |requests| >= |old(requests)| + 3 && requests[|requests| - 2] == Touch
    {
      hide Perform, Sound, Holds, Ready, AllStored, OthersKept, Placed, AllFinal, Known, Covered;
      hide SomeUnreadable, Posts, SignsAndPuts, AllRetryable, Explained, InTime, Paced, NoTime, Backoff;
      Untouched(service, plan.tasks);
      var run := WithRetries(Touch);
      if !run.Answered? {
        return None;
      }
      ghost var before := service;
      var failures, signsAndPuts := UploadArtifacts(plan.artifacts);
      ByResults(before, service, plan.tasks, rowsOf);
      if failures.None? {
        return None;
      }
      ghost var signed, faults := service, Faults();
      assert plan.tasks[..0] == [];
      for j := 0 to |plan.tasks|
        invariant Valid() && OthersKept(old(service), service, plan.tasks)
        invariant service.checksums == signed.checksums && service.bucket == signed.bucket
        invariant AllStored(service, plan.tasks[..j], rowsOf)
        invariant Faults() == faults && old(requests) + [Touch] <= requests
      {
        ReadyOnceKnown(signed, plan, plan.tasks[j], rowsOf);
        ReadyByChecksums(signed, service, plan.tasks[j], rowsOf);
        ghost var s := service;
        var done, posts := SendTask(plan.tasks[j]);
        OthersKeptBy(old(service), s, service, plan.tasks[j], plan.tasks);
        if !done {
          return None;
        }
        StoredNext(s, service, plan.tasks, j, rowsOf);
      }
      assert plan.tasks[..|plan.tasks|] == plan.tasks;
      if plan.inference {
        Untouched(service, plan.tasks);
        var put := WithRetries(Touch);
        if !put.Answered? {
          return None;
        }
      }
      AfterComplete(old(service), service, plan.tasks, rowsOf);
      PlacedInBucket(signed, service, plan.artifacts, failures.value);
      before := service;
      var completed := WithRetries(Complete);
      if !completed.Answered? {
        return None;
      }
      PlacedInBucket(before, service, plan.artifacts, failures.value);
      return Some(failures.value == []);
    }
  }
}
