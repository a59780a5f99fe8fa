/**
  The embedding queue (backend/app/modules/knowledge/embedding.py and
  repository.py): claiming batches, restoring the provider's order, bounded retries.
 */
module Embedding {
  import opened Wrappers
  import opened Sorting

  type Vector = seq<real>

  datatype Item = Item(index: nat, embedding: Vector)

  /** Error codes; the last one is the worker's own, for anything but an embedding error. */
  datatype EmbedError = ConfigNotFound | ConfigInvalid | ProviderFailed | ResponseInvalid | DimensionMismatch | TaskCrashed

  // ------------------------------------------------------------- order restoration

  function IndexLe(a: Item, b: Item): bool { a.index <= b.index }

  /** The checks of `embed` on a provider's answer for n texts. */
  function Restore(n: nat, data: seq<Item>, dimensions: nat): (r: Result<seq<Vector>, EmbedError>)
    ensures r.Err? ==> r.error != TaskCrashed
  {
    if n == 0 then Ok([])
    else
      var ordered := Sort(IndexLe, data);
      if |ordered| != n || exists i :: 0 <= i < |ordered| && ordered[i].index != i then Err(ResponseInvalid)
      else if exists i :: 0 <= i < |ordered| && |ordered[i].embedding| != dimensions then Err(DimensionMismatch)
      else Ok(seq(n, i requires 0 <= i < n => ordered[i].embedding))
  }

  /** The answer a well-behaved provider gives, in input order. */
  function InOrder(vectors: seq<Vector>): seq<Item> {
    seq(|vectors|, i requires 0 <= i < |vectors| => Item(i, vectors[i]))
  }

  /** The last of an ordered permutation of an in-order answer is the last of the answer. */
  lemma LastInOrder(ordered: seq<Item>, vectors: seq<Vector>)
    requires vectors != [] && |ordered| == |vectors|
    requires Ordered(IndexLe, ordered) && multiset(ordered) == multiset(InOrder(vectors))
    ensures ordered[|ordered| - 1] == InOrder(vectors)[|vectors| - 1]
  {
    var target, n := InOrder(vectors), |vectors| - 1;
    var last := ordered[n];
    assert last in multiset(ordered) && last in multiset(target);
    var m :| 0 <= m <= n && target[m] == last;
    assert target[n] in multiset(target) && target[n] in multiset(ordered);
    var k :| 0 <= k <= n && ordered[k] == target[n];
    assert k < n ==> IndexLe(ordered[k], last);
  }

  /** A list ordered by index that permutes an in-order answer is that answer. */
  lemma {:induction false} OrderedIsInOrder(ordered: seq<Item>, vectors: seq<Vector>)
    requires Ordered(IndexLe, ordered) && multiset(ordered) == multiset(InOrder(vectors))
    ensures ordered == InOrder(vectors)
  {
    var target := InOrder(vectors);
    assert |multiset(ordered)| == |multiset(target)|;
    if vectors != [] {
      var n := |vectors| - 1;
      LastInOrder(ordered, vectors);
      assert ordered == ordered[..n] + [ordered[n]];
      assert target == InOrder(vectors[..n]) + [target[n]];
      assert multiset(ordered[..n]) == multiset(ordered) - multiset{ordered[n]};
      assert multiset(InOrder(vectors[..n])) == multiset(target) - multiset{target[n]};
      OrderedIsInOrder(ordered[..n], vectors[..n]);
    }
  }

  /**
    An answer is accepted exactly when it is, in some order, one vector of the right
    dimension for each input position; and then result i is the vector whose index is i.
   */
  lemma RestoreExact(n: nat, data: seq<Item>, dimensions: nat, vectors: seq<Vector>)
    requires n > 0
    ensures Restore(n, data, dimensions) == Ok(vectors) <==>
            && |vectors| == n
            && multiset(data) == multiset(InOrder(vectors))
            && forall i :: 0 <= i < n ==> |vectors[i]| == dimensions
  {
    assert TotalPreorder(IndexLe);
    SortCorrect(IndexLe, data);
    var ordered := Sort(IndexLe, data);
    if Restore(n, data, dimensions) == Ok(vectors) {
      assert ordered == InOrder(vectors);
      forall i | 0 <= i < n ensures |vectors[i]| == dimensions {
        assert |ordered[i].embedding| == dimensions;
      }
    }
    if |vectors| == n && multiset(data) == multiset(InOrder(vectors)) && forall i :: 0 <= i < n ==> |vectors[i]| == dimensions {
      OrderedIsInOrder(ordered, vectors);
      assert vectors == seq(n, i requires 0 <= i < n => ordered[i].embedding);
    }
  }

  /** In some order, one vector for each input position. */
  ghost predicate OneForEach(n: nat, data: seq<Item>, vectors: seq<Vector>) {
    |vectors| == n && multiset(data) == multiset(InOrder(vectors))
  }

  predicate AllSized(vectors: seq<Vector>, dimensions: nat) {
    forall i :: 0 <= i < |vectors| ==> |vectors[i]| == dimensions
  }

  /** A refused answer has no such order, or has one with a vector of the wrong dimension. */
  lemma RestoreErrors(n: nat, data: seq<Item>, dimensions: nat)
    requires n > 0
    ensures Restore(n, data, dimensions) == Err(ResponseInvalid) <==> forall vectors: seq<Vector> :: !OneForEach(n, data, vectors)
    ensures Restore(n, data, dimensions) == Err(DimensionMismatch) <==>
            exists vectors: seq<Vector> :: OneForEach(n, data, vectors) && !AllSized(vectors, dimensions)
    ensures Restore(n, data, dimensions).Err? ==> Restore(n, data, dimensions).error in {ResponseInvalid, DimensionMismatch}
  {
    assert TotalPreorder(IndexLe);
    SortCorrect(IndexLe, data);
    var ordered := Sort(IndexLe, data);
    forall vectors: seq<Vector> | OneForEach(n, data, vectors)
      ensures ordered == InOrder(vectors)
      ensures AllSized(vectors, dimensions) <==> forall i :: 0 <= i < n ==> |ordered[i].embedding| == dimensions
    {
      OrderedIsInOrder(ordered, vectors);
      assert forall i :: 0 <= i < n ==> ordered[i].embedding == vectors[i];
    }
    if |ordered| == n && forall i :: 0 <= i < n ==> ordered[i].index == i {
      var vectors := seq(n, i requires 0 <= i < n => ordered[i].embedding);
      assert ordered == InOrder(vectors);
      assert OneForEach(n, data, vectors);
    }
  }

  // ------------------------------------------------------------------------ chunks

  datatype Status = Pending | Processing | Succeeded | Failed

  datatype Chunk = Chunk(content: string, status: Status, attempts: nat, vector: Option<Vector>, error: Option<EmbedError>)

  /** What `claim_embedding_chunks` selects. */
  predicate Claimable(c: Chunk, maxAttempts: nat) {
    (c.status == Pending || c.status == Failed) && c.attempts < maxAttempts
  }

  function Claimed(c: Chunk): Chunk {
    c.(status := Processing, attempts := c.attempts + 1, error := None)
  }

  function Completed(c: Chunk, vector: Vector): Chunk {
    c.(status := Succeeded, vector := Some(vector), error := None)
  }

  function Broken(c: Chunk, error: EmbedError): Chunk {
    c.(status := Failed, error := Some(error))
  }

  // ------------------------------------- any number of workers, failures and crashes

  type Worker = nat

  /** `held` are the batches workers have claimed and not yet settled. */
  datatype Queue = Queue(chunks: seq<Chunk>, held: map<Worker, set<nat>>)

  datatype Event =
    | Claim(worker: Worker, batch: set<nat>)
    | Succeed(worker: Worker, vectors: nat -> Vector)
    | Fail(worker: Worker, error: EmbedError)
    | Crash(worker: Worker)          // or an exception no error handler of the task catches

  function Rewrite(chunks: seq<Chunk>, batch: set<nat>, f: (nat, Chunk) -> Chunk): (r: seq<Chunk>)
    ensures |r| == |chunks|
    ensures forall i :: 0 <= i < |chunks| ==> r[i] == if i in batch then f(i, chunks[i]) else chunks[i]
  {
    seq(|chunks|, i requires 0 <= i < |chunks| => if i in batch then f(i, chunks[i]) else chunks[i])
  }

  /** A claim takes claimable rows only; locked rows are skipped, so any subset is possible. */
  predicate CanClaim(q: Queue, maxAttempts: nat, worker: Worker, batch: set<nat>) {
    worker !in q.held && forall i :: i in batch ==> i < |q.chunks| && Claimable(q.chunks[i], maxAttempts)
  }

  function Apply(q: Queue, maxAttempts: nat, e: Event): Queue {
    match e
    case Claim(worker, batch) =>
      if CanClaim(q, maxAttempts, worker, batch)
      then Queue(Rewrite(q.chunks, batch, (i, c) => Claimed(c)), q.held[worker := batch]) else q
    case Succeed(worker, vectors) =>
      if worker in q.held
      then Queue(Rewrite(q.chunks, q.held[worker], (i: nat, c) => Completed(c, vectors(i))), q.held - {worker}) else q
    case Fail(worker, error) =>
      if worker in q.held
      then Queue(Rewrite(q.chunks, q.held[worker], (i, c) => Broken(c, error)), q.held - {worker}) else q
    case Crash(worker) => q.(held := q.held - {worker})
  }

  function After(start: Queue, maxAttempts: nat, events: seq<Event>): Queue {
    if events == [] then start
    else Apply(After(start, maxAttempts, events[..|events| - 1]), maxAttempts, events[|events| - 1])
  }

  predicate Holds(held: map<Worker, set<nat>>, w: Worker, i: nat) {
    w in held && i in held[w]
  }

  /** Held batches are disjoint and being processed; attempts stay within the bound. */
  ghost predicate QueueInv(q: Queue, maxAttempts: nat) {
    && (forall i :: 0 <= i < |q.chunks| ==> q.chunks[i].attempts <= maxAttempts)
    && (forall w: Worker, i: nat :: Holds(q.held, w, i) ==> i < |q.chunks| && q.chunks[i].status == Processing)
    && (forall w: Worker, v: Worker, i: nat :: Holds(q.held, w, i) && Holds(q.held, v, i) ==> w == v)
  }

  /** Chunks a batch does not hold are untouched by what happens to the batch. */
  ghost predicate SameOutside(q: Queue, next: Queue, batch: set<nat>) {
    |next.chunks| == |q.chunks| && forall i :: 0 <= i < |q.chunks| && i !in batch ==> next.chunks[i] == q.chunks[i]
  }

  lemma ClaimKeepsInv(q: Queue, maxAttempts: nat, worker: Worker, batch: set<nat>)
    requires QueueInv(q, maxAttempts) && CanClaim(q, maxAttempts, worker, batch)
    ensures QueueInv(Apply(q, maxAttempts, Claim(worker, batch)), maxAttempts)
  {
    var next := Apply(q, maxAttempts, Claim(worker, batch));
    assert SameOutside(q, next, batch);
    assert forall w: Worker, i: nat :: Holds(next.held, w, i) ==> if w == worker then i in batch else Holds(q.held, w, i);
    assert forall i :: i in batch ==> next.chunks[i] == Claimed(q.chunks[i]);
  }

  /** Settling a batch, whatever becomes of its chunks within their attempts. */
  lemma SettleKeepsInv(q: Queue, next: Queue, maxAttempts: nat, worker: Worker)
    requires QueueInv(q, maxAttempts) && worker in q.held && next.held == q.held - {worker}
    requires SameOutside(q, next, q.held[worker])
    requires forall i :: 0 <= i < |q.chunks| ==> next.chunks[i].attempts == q.chunks[i].attempts
    ensures QueueInv(next, maxAttempts)
  {
    forall w: Worker, i: nat | Holds(next.held, w, i)
      ensures Holds(q.held, w, i) && i < |next.chunks| && next.chunks[i].status == Processing
    {
      assert Holds(q.held, w, i);
      assert !Holds(q.held, worker, i);
    }
  }

  lemma QueueInvKept(q: Queue, maxAttempts: nat, e: Event)
    requires QueueInv(q, maxAttempts)
    ensures QueueInv(Apply(q, maxAttempts, e), maxAttempts)
  {
    hide QueueInv, CanClaim;
    match e
    case Claim(worker, batch) =>
      if CanClaim(q, maxAttempts, worker, batch) {
        ClaimKeepsInv(q, maxAttempts, worker, batch);
      }
    case _ =>
      if e.worker in q.held {
        SettleKeepsInv(q, Apply(q, maxAttempts, e), maxAttempts, e.worker);
      } else {
        assert q.held - {e.worker} == q.held;
      }
  }

  lemma {:induction false} QueueInvHolds(start: Queue, maxAttempts: nat, events: seq<Event>)
    requires QueueInv(start, maxAttempts)
    ensures QueueInv(After(start, maxAttempts, events), maxAttempts)
  {
    hide Apply, QueueInv;
    if events != [] {
      QueueInvHolds(start, maxAttempts, events[..|events| - 1]);
      QueueInvKept(After(start, maxAttempts, events[..|events| - 1]), maxAttempts, events[|events| - 1]);
    }
  }

  /** A chunk nobody will write again: embedded, or stranded by a crash in the middle. */
  ghost predicate Settled(q: Queue, i: nat) {
    i < |q.chunks| &&
    (q.chunks[i].status == Succeeded ||
     (q.chunks[i].status == Processing && forall w: Worker :: !Holds(q.held, w, i)))
  }

  /**
    Over any later events, an embedded chunk is never claimed or changed again, and
    neither is a chunk whose worker crashed while it was being processed.
   */
  lemma {:induction false} SettledForever(start: Queue, maxAttempts: nat, events: seq<Event>, i: nat)
    requires QueueInv(start, maxAttempts) && Settled(start, i)
    ensures Settled(After(start, maxAttempts, events), i)
    ensures After(start, maxAttempts, events).chunks[i] == start.chunks[i]
  {
    if events != [] {
      var n := |events| - 1;
      SettledForever(start, maxAttempts, events[..n], i);
      QueueInvHolds(start, maxAttempts, events[..n]);
      SettledKept(After(start, maxAttempts, events[..n]), maxAttempts, events[n], i);
    }
  }

  lemma SettledKept(q: Queue, maxAttempts: nat, e: Event, i: nat)
    requires QueueInv(q, maxAttempts) && Settled(q, i)
    ensures Settled(Apply(q, maxAttempts, e), i) && Apply(q, maxAttempts, e).chunks[i] == q.chunks[i]
  {
    var next := Apply(q, maxAttempts, e);
    assert forall w: Worker :: !Holds(q.held, w, i);
    assert e.worker in q.held ==> !Holds(q.held, e.worker, i);
    assert next.chunks[i] == q.chunks[i];
    assert e.Claim? && CanClaim(q, maxAttempts, e.worker, e.batch) ==> i !in e.batch;
    assert forall w: Worker :: Holds(next.held, w, i) ==> Holds(q.held, w, i);
  }

  /** A worker crash between the claim and the result strands the batch. */
  lemma {:induction false} StrandedByCrash(content: string, maxAttempts: nat, worker: Worker, events: seq<Event>)
    requires maxAttempts > 0
    ensures var start := Queue([Chunk(content, Pending, 0, None, None)], map[]);
            var q := After(start, maxAttempts, [Claim(worker, {0})] + [Crash(worker)]);
            && q == Queue([Chunk(content, Processing, 1, None, None)], map[])
            && After(q, maxAttempts, events).chunks == q.chunks
  {
    var start := Queue([Chunk(content, Pending, 0, None, None)], map[]);
    var claimed := Apply(start, maxAttempts, Claim(worker, {0}));
    var q := Queue([Chunk(content, Processing, 1, None, None)], map[]);
    AfterSnoc(start, maxAttempts, [], Claim(worker, {0}));
    AfterSnoc(start, maxAttempts, [Claim(worker, {0})], Crash(worker));
    assert [] + [Claim(worker, {0})] == [Claim(worker, {0})];
    assert claimed.chunks == q.chunks && claimed.held == map[worker := {0}];
    assert claimed.held - {worker} == map[];
    SameSize(q, maxAttempts, events);
    SettledForever(q, maxAttempts, events, 0);
  }

  lemma AfterSnoc(start: Queue, maxAttempts: nat, events: seq<Event>, e: Event)
    ensures After(start, maxAttempts, events + [e]) == Apply(After(start, maxAttempts, events), maxAttempts, e)
  {
    assert (events + [e])[..|events|] == events;
  }

  // --------------------------------------------- one task claims a chunk at most once

  /** The chunk is in the task's hands, or the task has embedded it. */
  predicate Taken(q: Queue, w: Worker, i: nat) {
    i < |q.chunks| && (Holds(q.held, w, i) || q.chunks[i].status == Succeeded)
  }

  predicate EndsTask(e: Event, w: Worker) { e.worker == w && (e.Fail? || e.Crash?) }

  lemma TakenKept(q: Queue, maxAttempts: nat, e: Event, w: Worker, i: nat)
    requires QueueInv(q, maxAttempts) && Taken(q, w, i) && !EndsTask(e, w)
    ensures Taken(Apply(q, maxAttempts, e), w, i)
  {
    var next := Apply(q, maxAttempts, e);
    if q.chunks[i].status == Succeeded {
      SettledKept(q, maxAttempts, e, i);
    } else {
      assert Holds(q.held, w, i) && q.chunks[i].status == Processing;
      assert e.worker in q.held && e.worker != w ==> !Holds(q.held, e.worker, i);
      assert e.worker != w ==> Holds(next.held, w, i);
    }
  }

  lemma {:induction false} TakenHolds(start: Queue, maxAttempts: nat, events: seq<Event>, w: Worker, i: nat)
    requires QueueInv(start, maxAttempts) && Taken(start, w, i)
    requires forall e :: e in events ==> !EndsTask(e, w)
    ensures Taken(After(start, maxAttempts, events), w, i)
  {
    if events != [] {
      var n := |events| - 1;
      assert forall e :: e in events[..n] ==> e in events;
      TakenHolds(start, maxAttempts, events[..n], w, i);
      QueueInvHolds(start, maxAttempts, events[..n]);
      hide Apply, After, QueueInv, Taken;
      assert events[n] in events;
      TakenKept(After(start, maxAttempts, events[..n]), maxAttempts, events[n], w, i);
      assert After(start, maxAttempts, events) == Apply(After(start, maxAttempts, events[..n]), maxAttempts, events[n]) by {
        AfterSnoc(start, maxAttempts, events[..n], events[n]);
        assert events == events[..n] + [events[n]];
      }
    }
  }

  /**
    However the events of several tasks interleave, a task that claimed a chunk and has
    not ended cannot claim it again, and neither can any other task.
   */
  lemma ClaimedOnce(start: Queue, maxAttempts: nat, w: Worker, batch: set<nat>, events: seq<Event>, other: Worker, again: set<nat>, i: nat)
    requires QueueInv(start, maxAttempts) && CanClaim(start, maxAttempts, w, batch) && i in batch
    requires forall e :: e in events ==> !EndsTask(e, w)
    requires CanClaim(After(Apply(start, maxAttempts, Claim(w, batch)), maxAttempts, events), maxAttempts, other, again)
    ensures i !in again
  {
    var claimed := Apply(start, maxAttempts, Claim(w, batch));
    QueueInvKept(start, maxAttempts, Claim(w, batch));
    assert Holds(claimed.held, w, i);
    TakenHolds(claimed, maxAttempts, events, w, i);
    QueueInvHolds(claimed, maxAttempts, events);
    hide After, Apply;
  }

  /** Attempts used so far by all chunks. */
  function Attempts(chunks: seq<Chunk>): nat {
    if chunks == [] then 0 else Attempts(chunks[..|chunks| - 1]) + chunks[|chunks| - 1].attempts
  }

  /** Chunks handed out by the claims of a history. */
  function HandedOut(start: Queue, maxAttempts: nat, events: seq<Event>): nat {
    if events == [] then 0
    else
      var n := |events| - 1;
      var e := events[n];
      HandedOut(start, maxAttempts, events[..n]) +
      if e.Claim? && CanClaim(After(start, maxAttempts, events[..n]), maxAttempts, e.worker, e.batch) then |e.batch| else 0
  }

  /** One more attempt for each chunk of a batch adds the size of the batch. */
  lemma {:induction false} AttemptsOfBatch(a: seq<Chunk>, b: seq<Chunk>, batch: set<nat>)
    requires |a| == |b| && forall i :: i in batch ==> i < |a|
    requires forall i :: 0 <= i < |a| ==> b[i].attempts == a[i].attempts + if i in batch then 1 else 0
    ensures Attempts(b) == Attempts(a) + |batch|
  {
    if a == [] {
      assert batch == {};
    } else {
      var n := |a| - 1;
      AttemptsOfBatch(a[..n], b[..n], batch - {n});
      if n in batch {
        assert |batch - {n}| == |batch| - 1;
      } else {
        assert batch - {n} == batch;
      }
    }
  }

  lemma {:induction false} AttemptsBounded(chunks: seq<Chunk>, maxAttempts: nat)
    requires forall i :: 0 <= i < |chunks| ==> chunks[i].attempts <= maxAttempts
    ensures Attempts(chunks) <= |chunks| * maxAttempts
  {
    if chunks != [] {
      AttemptsBounded(chunks[..|chunks| - 1], maxAttempts);
    }
  }

  lemma {:induction false} SameSize(start: Queue, maxAttempts: nat, events: seq<Event>)
    ensures |After(start, maxAttempts, events).chunks| == |start.chunks|
  {
    if events != [] {
      SameSize(start, maxAttempts, events[..|events| - 1]);
    }
  }

  /** Each attempt recorded is one claim made: no history hands out more than chunks times the maximum. */
  lemma {:induction false} RetriesAreBounded(start: Queue, maxAttempts: nat, events: seq<Event>)
    requires QueueInv(start, maxAttempts)
    ensures Attempts(After(start, maxAttempts, events).chunks) ==
            Attempts(start.chunks) + HandedOut(start, maxAttempts, events)
    ensures HandedOut(start, maxAttempts, events) <= |start.chunks| * maxAttempts
  {
    RetriesAreCounted(start, maxAttempts, events);
    QueueInvHolds(start, maxAttempts, events);
    SameSize(start, maxAttempts, events);
    AttemptsBounded(After(start, maxAttempts, events).chunks, maxAttempts);
  }

  lemma {:induction false} RetriesAreCounted(start: Queue, maxAttempts: nat, events: seq<Event>)
    requires QueueInv(start, maxAttempts)
    ensures Attempts(After(start, maxAttempts, events).chunks) ==
            Attempts(start.chunks) + HandedOut(start, maxAttempts, events)
  {
    if events != [] {
      var n := |events| - 1;
      RetriesAreCounted(start, maxAttempts, events[..n]);
      AttemptsStep(After(start, maxAttempts, events[..n]), maxAttempts, events[n]);
    }
  }

  lemma AttemptsStep(q: Queue, maxAttempts: nat, e: Event)
    ensures Attempts(Apply(q, maxAttempts, e).chunks) == Attempts(q.chunks) +
            if e.Claim? && CanClaim(q, maxAttempts, e.worker, e.batch) then |e.batch| else 0
  {
    if e.Claim? {
      if CanClaim(q, maxAttempts, e.worker, e.batch) {
        AttemptsOfBatch(q.chunks, Apply(q, maxAttempts, e).chunks, e.batch);
      }
    } else {
      AttemptsOfBatch(q.chunks, Apply(q, maxAttempts, e).chunks, {});
    }
  }

  // ----------------------------------------------------------------- one whole task

  datatype TaskStatus = TaskRunning | TaskSucceeded | TaskFailed(code: EmbedError)

  /**
    What one call for the vectors of a batch meets.  `Raised` is an exception that `embed`
    does not turn into an embedding error, as for an answer whose body is not JSON.
   */
  datatype Answer = NoConfig | KeyUnreadable | CallFailed | Raised | Data(items: seq<Item>)

  /** What the k-th call of a task meets, given the texts it sends. */
  type Provider = (nat, seq<string>) -> Answer

  /** The batches of texts a task has sent, in order. */
  type Log = seq<seq<string>>

  function Outcome(answer: Answer, n: nat, dimensions: nat): Result<seq<Vector>, EmbedError> {
    match answer
    case NoConfig => Err(ConfigNotFound)
    case KeyUnreadable => Err(ConfigInvalid)
    case CallFailed => Err(ProviderFailed)
    case Raised => Err(TaskCrashed)
    case Data(items) => Restore(n, items, dimensions)
  }

  /** What the k-th call of the log came to. */
  function CallOutcome(provider: Provider, dimensions: nat, log: Log, k: nat): Result<seq<Vector>, EmbedError>
    requires k < |log|
  {
    Outcome(provider(k, log[k]), |log[k]|, dimensions)
  }

  predicate GivesVector(provider: Provider, dimensions: nat, log: Log, k: nat, p: nat, c: Chunk) {
    && k < |log| && p < |log[k]| && log[k][p] == c.content
    && var vectors := CallOutcome(provider, dimensions, log, k);
       vectors.Ok? && p < |vectors.value| && c.vector == Some(vectors.value[p])
  }

  /** The chunk holds what one of the calls gave for the chunk's own text. */
  ghost predicate Earned(provider: Provider, dimensions: nat, log: Log, c: Chunk) {
    exists k: nat, p: nat :: GivesVector(provider, dimensions, log, k, p, c)
  }

  /** The last call failed with the error. */
  predicate EndedBy(provider: Provider, dimensions: nat, log: Log, e: EmbedError) {
    log != [] && CallOutcome(provider, dimensions, log, |log| - 1) == Err(e)
  }

  lemma CrashedIffRaised(provider: Provider, dimensions: nat, log: Log)
    ensures EndedBy(provider, dimensions, log, TaskCrashed) <==> log != [] && provider(|log| - 1, log[|log| - 1]).Raised?
  {
    hide Restore;
  }

  /** Which error a call for at least one text ends in. */
  lemma OutcomeErrors(answer: Answer, n: nat, dimensions: nat)
    requires n > 0
    ensures Outcome(answer, n, dimensions) == Err(ConfigNotFound) <==> answer.NoConfig?
    ensures Outcome(answer, n, dimensions) == Err(ConfigInvalid) <==> answer.KeyUnreadable?
    ensures Outcome(answer, n, dimensions) == Err(ProviderFailed) <==> answer.CallFailed?
    ensures Outcome(answer, n, dimensions) == Err(TaskCrashed) <==> answer.Raised?
    ensures Outcome(answer, n, dimensions) == Err(ResponseInvalid) <==>
            answer.Data? && forall vectors: seq<Vector> :: !OneForEach(n, answer.items, vectors)
  {
    if answer.Data? {
      RestoreErrors(n, answer.items, dimensions);
    }
    hide Restore, OneForEach;
  }

  /** Indices of the first claimable chunks from i on, at most `limit` of them. */
  function ClaimFrom(chunks: seq<Chunk>, i: nat, limit: nat, maxAttempts: nat): (ids: seq<nat>)
    requires i <= |chunks|
    ensures |ids| <= limit
    ensures forall k :: 0 <= k < |ids| ==> i <= ids[k] < |chunks| && Claimable(chunks[ids[k]], maxAttempts)
    ensures forall k, l :: 0 <= k < l < |ids| ==> ids[k] < ids[l]
    ensures ids == [] && limit > 0 ==> forall j :: i <= j < |chunks| ==> !Claimable(chunks[j], maxAttempts)
    decreases |chunks| - i
  {
    if i == |chunks| || limit == 0 then []
    else if Claimable(chunks[i], maxAttempts) then [i] + ClaimFrom(chunks, i + 1, limit - 1, maxAttempts)
    else ClaimFrom(chunks, i + 1, limit, maxAttempts)
  }

  /** The claim takes the first claimable rows: those with fewer than the limit before them. */
  lemma {:induction false} ClaimsFirst(chunks: seq<Chunk>, i: nat, limit: nat, maxAttempts: nat, j: nat)
    requires i <= j < |chunks|
    ensures j in ClaimFrom(chunks, i, limit, maxAttempts) <==>
            Claimable(chunks[j], maxAttempts) && |set k: nat | i <= k < j && Claimable(chunks[k], maxAttempts)| < limit
    decreases |chunks| - i
  {
    hide Claimable;
    var before := set k: nat | i <= k < j && Claimable(chunks[k], maxAttempts);
    if limit > 0 && Claimable(chunks[i], maxAttempts) {
      if i < j {
        ClaimsFirst(chunks, i + 1, limit - 1, maxAttempts, j);
        assert before == {i} + set k: nat | i + 1 <= k < j && Claimable(chunks[k], maxAttempts);
      } else {
        assert before == {};
      }
    } else if limit > 0 && i < j {
      ClaimsFirst(chunks, i + 1, limit, maxAttempts, j);
      assert before == set k: nat | i + 1 <= k < j && Claimable(chunks[k], maxAttempts);
    }
  }

  function ClaimableCount(chunks: seq<Chunk>, maxAttempts: nat): nat {
    if chunks == [] then 0
    else ClaimableCount(chunks[..|chunks| - 1], maxAttempts) + if Claimable(chunks[|chunks| - 1], maxAttempts) then 1 else 0
  }

  function SucceededCount(chunks: seq<Chunk>): nat {
    if chunks == [] then 0
    else SucceededCount(chunks[..|chunks| - 1]) + if chunks[|chunks| - 1].status == Succeeded then 1 else 0
  }

  lemma {:induction false} CountsUpdate(chunks: seq<Chunk>, i: nat, c: Chunk, maxAttempts: nat)
    requires i < |chunks|
    ensures SucceededCount(chunks[i := c]) == SucceededCount(chunks)
            - (if chunks[i].status == Succeeded then 1 else 0) + (if c.status == Succeeded then 1 else 0)
    ensures ClaimableCount(chunks[i := c], maxAttempts) == ClaimableCount(chunks, maxAttempts)
            - (if Claimable(chunks[i], maxAttempts) then 1 else 0) + (if Claimable(c, maxAttempts) then 1 else 0)
  {
    var n := |chunks| - 1;
    if i == n {
      assert chunks[i := c][..n] == chunks[..n];
    } else {
      assert chunks[i := c][..n] == chunks[..n][i := c];
      CountsUpdate(chunks[..n], i, c, maxAttempts);
    }
  }

  function IdSet(ids: seq<nat>): set<nat> { set i | i in ids }

  predicate Ascending(ids: seq<nat>) { forall k, l :: 0 <= k < l < |ids| ==> ids[k] < ids[l] }

  /** The vector for a chunk of a batch. */
  function VectorFor(ids: seq<nat>, vectors: seq<Vector>, i: nat): Vector
    requires |vectors| == |ids|
  {
    if ids == [] then [] else if ids[0] == i then vectors[0] else VectorFor(ids[1..], vectors[1..], i)
  }

  lemma {:induction false} VectorForAt(ids: seq<nat>, vectors: seq<Vector>, k: nat)
    requires |vectors| == |ids| && k < |ids| && Ascending(ids)
    ensures VectorFor(ids, vectors, ids[k]) == vectors[k]
  {
    if k > 0 {
      assert ids[0] < ids[k];
      VectorForAt(ids[1..], vectors[1..], k - 1);
    }
  }

  /** Storing the vectors of a held batch is the event of its success. */
  lemma StoredAsEvent(before: Queue, maxAttempts: nat, worker: Worker, ids: seq<nat>, vectors: seq<Vector>, f: nat -> Vector, chunks: seq<Chunk>)
    requires worker in before.held && before.held[worker] == IdSet(ids) && |vectors| == |ids| && |chunks| == |before.chunks|
    requires forall k :: 0 <= k < |ids| ==> ids[k] < |chunks| && f(ids[k]) == vectors[k]
    requires forall k :: 0 <= k < |ids| ==> chunks[ids[k]] == Completed(before.chunks[ids[k]], vectors[k])
    requires forall i :: 0 <= i < |chunks| && i !in ids ==> chunks[i] == before.chunks[i]
    ensures chunks == Apply(before, maxAttempts, Succeed(worker, f)).chunks
  {
    var next := Apply(before, maxAttempts, Succeed(worker, f)).chunks;
    forall i: nat | i < |chunks| ensures chunks[i] == next[i] {
      if i in ids {
        var k :| 0 <= k < |ids| && ids[k] == i;
      }
    }
  }

  /** The later history goes on from the earlier one with events of one worker only. */
  ghost predicate Extends(earlier: seq<Event>, later: seq<Event>, worker: Worker) {
    earlier <= later && forall k :: |earlier| <= k < |later| ==> later[k].worker == worker
  }

  lemma GoesOn(earlier: seq<Event>, trace: seq<Event>, e: Event, later: seq<Event>, worker: Worker)
    requires Extends(earlier, trace, worker) && e.worker == worker && Extends(trace + [e], later, worker)
    ensures Extends(earlier, later, worker)
  {
  }

  lemma GivenBack(held: map<Worker, set<nat>>, worker: Worker, batch: set<nat>)
    requires worker !in held
    ensures held[worker := batch] - {worker} == held
  {
  }

  /** The chunks as one worker sees them, with the history of its commits in the queue machine. */
  class EmbeddingStore {
    const worker: Worker
    const maxAttempts: nat
    var chunks: seq<Chunk>
    var status: TaskStatus
    var processed: nat
    ghost const start: Queue
    ghost var held: map<Worker, set<nat>>
    ghost var trace: seq<Event>

    constructor (worker: Worker, maxAttempts: nat, chunks: seq<Chunk>, ghost held: map<Worker, set<nat>>)
      requires QueueInv(Queue(chunks, held), maxAttempts) && worker !in held
      ensures this.worker == worker && this.maxAttempts == maxAttempts && this.chunks == chunks && this.held == held
      ensures status == TaskRunning && processed == 0
      ensures Valid() && trace == [] && start == Queue(chunks, held)
    {
      this.worker, this.maxAttempts, this.chunks, this.held := worker, maxAttempts, chunks, held;
      status, processed, start, trace := TaskRunning, 0, Queue(chunks, held), [];
    }

    ghost function View(): Queue
      reads `chunks, `held
    {
      Queue(chunks, held)
    }

    /** The rows are what the machine holds after the events committed so far. */
    ghost predicate Valid()
      reads `chunks, `held, `trace
    {
      QueueInv(start, maxAttempts) && View() == After(start, maxAttempts, trace)
    }

    /** Records one committed event. */
    ghost method Commit(e: Event, before: Queue)
      requires QueueInv(start, maxAttempts) && before == After(start, maxAttempts, trace) && before.held == held
      requires chunks == Apply(before, maxAttempts, e).chunks
      modifies this`held, this`trace
      ensures Valid() && trace == old(trace) + [e] && held == Apply(before, maxAttempts, e).held
    {
      hide QueueInv, Apply;
      AfterSnoc(start, maxAttempts, trace, e);
      held := Apply(before, maxAttempts, e).held;
      trace := trace + [e];
    }

    /** `claim_embedding_chunks`: the loop over the selected rows. */
    method ClaimRows(ids: seq<nat>)
      requires Ascending(ids) && forall k :: 0 <= k < |ids| ==> ids[k] < |chunks| && Claimable(chunks[ids[k]], maxAttempts)
      modifies this`chunks
      ensures |chunks| == |old(chunks)|
      ensures forall i :: 0 <= i < |chunks| ==> chunks[i] == if i in ids then Claimed(old(chunks)[i]) else old(chunks)[i]
      ensures SucceededCount(chunks) == SucceededCount(old(chunks))
      ensures ClaimableCount(chunks, maxAttempts) == ClaimableCount(old(chunks), maxAttempts) - |ids|
    {
      hide ClaimableCount, SucceededCount;
      for k := 0 to |ids|
        invariant |chunks| == |old(chunks)|
        invariant forall i :: 0 <= i < |chunks| ==> chunks[i] == if i in ids[..k] then Claimed(old(chunks)[i]) else old(chunks)[i]
        invariant SucceededCount(chunks) == SucceededCount(old(chunks))
        invariant ClaimableCount(chunks, maxAttempts) == ClaimableCount(old(chunks), maxAttempts) - k
      {
        assert ids[k] !in ids[..k];
        CountsUpdate(chunks, ids[k], Claimed(chunks[ids[k]]), maxAttempts);
        chunks := chunks[ids[k] := Claimed(chunks[ids[k]])];
      }
      assert ids[..|ids|] == ids;
    }

    /** The selection and the loop, as one transaction. */
    method ClaimEmbeddingChunks(batchSize: nat) returns (ids: seq<nat>)
      requires Valid() && worker !in held
      modifies this`chunks, this`held, this`trace
      ensures ids == ClaimFrom(old(chunks), 0, batchSize, maxAttempts)
      ensures |chunks| == |old(chunks)|
      ensures forall i :: 0 <= i < |chunks| ==> chunks[i] == if i in ids then Claimed(old(chunks)[i]) else old(chunks)[i]
      ensures SucceededCount(chunks) == SucceededCount(old(chunks))
      ensures ClaimableCount(chunks, maxAttempts) == ClaimableCount(old(chunks), maxAttempts) - |ids|
      ensures Valid() && trace == if ids == [] then old(trace) else old(trace) + [Claim(worker, IdSet(ids))]
      ensures held == if ids == [] then old(held) else old(held)[worker := IdSet(ids)]
    {
      ghost var before := View();
      ids := ClaimFrom(chunks, 0, batchSize, maxAttempts);
      hide ClaimableCount, SucceededCount, ClaimFrom, After, QueueInv;
      ClaimRows(ids);
      if ids == [] {
        assert chunks == old(chunks);
      } else {
        assert CanClaim(before, maxAttempts, worker, IdSet(ids));
        assert chunks == Apply(before, maxAttempts, Claim(worker, IdSet(ids))).chunks;
        Commit(Claim(worker, IdSet(ids)), before);
      }
    }

    /** `_mark_embedding_failed`. */
    method MarkEmbeddingFailed(ids: seq<nat>, error: EmbedError)
      requires Valid() && worker in held && held[worker] == IdSet(ids)
      requires Ascending(ids) && forall k :: 0 <= k < |ids| ==> ids[k] < |chunks| && chunks[ids[k]].status == Processing
      modifies this
      ensures |chunks| == |old(chunks)| && status == TaskFailed(error) && processed == 0
      ensures forall i :: 0 <= i < |chunks| ==> chunks[i] == if i in ids then Broken(old(chunks)[i], error) else old(chunks)[i]
      ensures SucceededCount(chunks) == SucceededCount(old(chunks))
      ensures Valid() && trace == old(trace) + [Fail(worker, error)] && held == old(held) - {worker}
    {
      hide ClaimableCount, SucceededCount, After, QueueInv;
      ghost var before := View();
      for k := 0 to |ids|
        invariant |chunks| == |old(chunks)| && held == old(held) && trace == old(trace)
        invariant forall i :: 0 <= i < |chunks| ==> chunks[i] == if i in ids[..k] then Broken(old(chunks)[i], error) else old(chunks)[i]
        invariant SucceededCount(chunks) == SucceededCount(old(chunks))
      {
        assert ids[k] !in ids[..k];
        CountsUpdate(chunks, ids[k], Broken(chunks[ids[k]], error), 0);
        chunks := chunks[ids[k] := Broken(chunks[ids[k]], error)];
      }
      assert ids[..|ids|] == ids;
      status, processed := TaskFailed(error), 0;
      assert chunks == Apply(before, maxAttempts, Fail(worker, error)).chunks;
      Commit(Fail(worker, error), before);
    }

    /** What the worker commits when an exception escapes the task: the rows stay as they are. */
    method MarkTaskCrashed()
      requires Valid()
      modifies this`status, this`held, this`trace
      ensures status == TaskFailed(TaskCrashed)
      ensures Valid() && trace == old(trace) + [Crash(worker)] && held == old(held) - {worker}
    {
      hide After, QueueInv;
      status := TaskFailed(TaskCrashed);
      Commit(Crash(worker), View());
    }

    /** The loop that stores the vectors, chunk k getting vector k. */
    method StoreRows(ids: seq<nat>, vectors: seq<Vector>)
      requires |vectors| == |ids| && Ascending(ids)
      requires forall k :: 0 <= k < |ids| ==> ids[k] < |chunks| && chunks[ids[k]].status == Processing
      modifies this`chunks
      ensures |chunks| == |old(chunks)|
      ensures forall k :: 0 <= k < |ids| ==> chunks[ids[k]] == Completed(old(chunks)[ids[k]], vectors[k])
      ensures forall i :: 0 <= i < |chunks| && i !in ids ==> chunks[i] == old(chunks)[i]
      ensures SucceededCount(chunks) == SucceededCount(old(chunks)) + |ids|
      ensures ClaimableCount(chunks, maxAttempts) == ClaimableCount(old(chunks), maxAttempts)
    {
      hide ClaimableCount, SucceededCount;
      for k := 0 to |ids|
        invariant |chunks| == |old(chunks)|
        invariant forall l :: 0 <= l < k ==> chunks[ids[l]] == Completed(old(chunks)[ids[l]], vectors[l])
        invariant forall i :: 0 <= i < |chunks| && i !in ids[..k] ==> chunks[i] == old(chunks)[i]
        invariant SucceededCount(chunks) == SucceededCount(old(chunks)) + k
        invariant ClaimableCount(chunks, maxAttempts) == ClaimableCount(old(chunks), maxAttempts)
      {
        assert ids[k] !in ids[..k];
        CountsUpdate(chunks, ids[k], Completed(chunks[ids[k]], vectors[k]), maxAttempts);
        chunks := chunks[ids[k] := Completed(chunks[ids[k]], vectors[k])];
      }
      assert ids[..|ids|] == ids;
    }

    /** The commit that stores a whole batch of vectors. */
    method StoreVectors(ids: seq<nat>, vectors: seq<Vector>) returns (ghost e: Event)
      requires Valid() && worker in held && held[worker] == IdSet(ids)
      requires |vectors| == |ids| && Ascending(ids)
      requires forall k :: 0 <= k < |ids| ==> ids[k] < |chunks| && chunks[ids[k]].status == Processing
      modifies this`chunks, this`processed, this`held, this`trace
      ensures |chunks| == |old(chunks)| && processed == old(processed) + |ids|
      ensures forall k :: 0 <= k < |ids| ==> chunks[ids[k]] == Completed(old(chunks)[ids[k]], vectors[k])
      ensures forall i :: 0 <= i < |chunks| && i !in ids ==> chunks[i] == old(chunks)[i]
      ensures SucceededCount(chunks) == SucceededCount(old(chunks)) + |ids|
      ensures ClaimableCount(chunks, maxAttempts) == ClaimableCount(old(chunks), maxAttempts)
      ensures e.Succeed? && e.worker == worker
      ensures Valid() && trace == old(trace) + [e] && held == old(held) - {worker}
    {
      hide ClaimableCount, SucceededCount, After, QueueInv, VectorFor;
      ghost var before := View();
      ghost var f: nat -> Vector := (i: nat) => VectorFor(ids, vectors, i);
      StoreRows(ids, vectors);
      processed := processed + |ids|;
      forall k | 0 <= k < |ids| ensures f(ids[k]) == vectors[k] {
        VectorForAt(ids, vectors, k);
      }
      StoredAsEvent(before, maxAttempts, worker, ids, vectors, f, chunks);
      e := Succeed(worker, f);
      Commit(e, before);
    }

    /**
      `process_embedding_task` run by itself, with what the worker commits when an exception
      escapes it.  It ends, having claimed each chunk at most once.  It succeeds exactly
      when no call failed; then nothing claimable remains and `processed` counts the chunks
      it completed.  Every completed chunk holds the vector of its own text.  It fails with
      the error of its last call: an embedding error stands on the last batch, but an
      exception of any other kind leaves that batch in processing.  Its commits are events
      of its worker in the queue machine, and it holds nothing when it is over.
     */
    method ProcessEmbeddingTask(provider: Provider, batchSize: nat, dimensions: nat) returns (ghost log: Log)
      requires Valid() && worker !in held && batchSize >= 1 && status == TaskRunning
      modifies this
      ensures |chunks| == |old(chunks)| && status != TaskRunning
      ensures forall i :: 0 <= i < |chunks| ==>
                chunks[i] == old(chunks)[i] || Treated(old(chunks)[i], chunks[i], status, maxAttempts, provider, dimensions, log)
      ensures forall e :: status == TaskFailed(e) <==> EndedBy(provider, dimensions, log, e)
      ensures forall k :: 0 <= k < |log| - 1 ==> CallOutcome(provider, dimensions, log, k).Ok?
      ensures status == TaskSucceeded ==>
                && (forall i :: 0 <= i < |chunks| ==> !Claimable(chunks[i], maxAttempts))
                && processed == SucceededCount(chunks) - SucceededCount(old(chunks))
      ensures status.TaskFailed? && status.code != TaskCrashed ==> processed == 0
      ensures (exists i :: 0 <= i < |chunks| && chunks[i] != old(chunks)[i] && chunks[i].status == Processing) <==>
                log != [] && provider(|log| - 1, log[|log| - 1]).Raised?
      ensures Valid() && held == old(held) && Extends(old(trace), trace, worker) && QueueInv(View(), maxAttempts)
    {
      hide ClaimableCount, SucceededCount, Earned, Outcome, Handled, After, QueueInv, Extends;
      processed := 0;
      log := EmbedBatches(provider, batchSize, dimensions);
      CrashedIffRaised(provider, dimensions, log);
      assert forall e :: EndedBy(provider, dimensions, log, e) ==> CallOutcome(provider, dimensions, log, |log| - 1).Err?;
      QueueInvHolds(start, maxAttempts, trace);
    }

    /** The loop over the batches. */
    method EmbedBatches(provider: Provider, batchSize: nat, dimensions: nat) returns (ghost log: Log)
      requires Valid() && worker !in held && batchSize >= 1 && status == TaskRunning && processed == 0
      modifies this
      ensures |chunks| == |old(chunks)| && status != TaskRunning
      ensures AllTreated(old(chunks), chunks, status, maxAttempts, provider, dimensions, log)
      ensures forall k :: 0 <= k < |log| - 1 ==> CallOutcome(provider, dimensions, log, k).Ok?
      ensures status == TaskSucceeded ==>
                && (forall i :: 0 <= i < |chunks| ==> !Claimable(chunks[i], maxAttempts))
                && processed == SucceededCount(chunks) - SucceededCount(old(chunks))
                && forall k :: 0 <= k < |log| ==> CallOutcome(provider, dimensions, log, k).Ok?
      ensures status.TaskFailed? ==> EndedBy(provider, dimensions, log, status.code)
      ensures status.TaskFailed? && status.code != TaskCrashed ==> processed == 0
      ensures status == TaskFailed(TaskCrashed) ==>
                exists i :: 0 <= i < |chunks| && chunks[i] != old(chunks)[i] && chunks[i].status == Processing
      ensures Valid() && held == old(held) && Extends(old(trace), trace, worker)
    {
      hide ClaimableCount, SucceededCount, ClaimFrom, Earned, CallOutcome, EndedBy, Outcome, QueueInv, After, Extends, Valid, View, IdSet,
           AllFinished, AllTreated, BatchSettled, Texts;
      log := [];
      var calls: nat := 0;
      NothingYet(trace, worker, chunks, maxAttempts, provider, dimensions);
      while true
        invariant status == TaskRunning && |chunks| == |old(chunks)| && calls == |log|
        invariant Valid() && held == old(held) && Extends(old(trace), trace, worker)
        invariant AllFinished(old(chunks), chunks, maxAttempts, provider, dimensions, log)
        invariant processed == SucceededCount(chunks) - SucceededCount(old(chunks))
        invariant forall k :: 0 <= k < |log| ==> CallOutcome(provider, dimensions, log, k).Ok?
        decreases ClaimableCount(chunks, maxAttempts)
      {
        ghost var first, holding, before := trace, held, chunks;
        var ids := ClaimEmbeddingChunks(batchSize);
        FinishedIsTreated(old(chunks), before, TaskSucceeded, maxAttempts, provider, dimensions, log);
        if ids == [] {
          assert chunks == before;
          status := TaskSucceeded;
          return;
        }
        FinishedGrows(old(chunks), before, maxAttempts, provider, dimensions, log, Texts(chunks, ids));
        var texts := Texts(chunks, ids);
        var vectors := Outcome(provider(calls, texts), |ids|, dimensions);
        LogGrows(provider, dimensions, log, texts);
        log, calls := log + [texts], calls + 1;
        if vectors.Ok? {
          OutcomeSize(provider(calls - 1, texts), |ids|, dimensions);
        }
        ghost var claimed := chunks;
        SettleBatch(ids, vectors);
        GoesOn(old(trace), first, Claim(worker, IdSet(ids)), trace, worker);
        GivenBack(holding, worker, IdSet(ids));
        BatchTreated(old(chunks), before, claimed, chunks, ids, vectors, maxAttempts, provider, dimensions, log);
        if vectors.Err? {
          return;
        }
      }
    }

    /** What becomes of a claimed batch once its call has ended, in one commit. */
    method SettleBatch(ids: seq<nat>, vectors: Result<seq<Vector>, EmbedError>)
      requires Valid() && worker in held && held[worker] == IdSet(ids)
      requires Ascending(ids) && (vectors.Ok? ==> |vectors.value| == |ids|)
      requires forall k :: 0 <= k < |ids| ==> ids[k] < |chunks| && chunks[ids[k]].status == Processing
      modifies this
      ensures |chunks| == |old(chunks)| && BatchSettled(old(chunks), chunks, ids, vectors)
      ensures match vectors
              case Ok(_) =>
                && status == old(status) && processed == old(processed) + |ids|
                && SucceededCount(chunks) == SucceededCount(old(chunks)) + |ids|
                && ClaimableCount(chunks, maxAttempts) == ClaimableCount(old(chunks), maxAttempts)
              case Err(e) => status == TaskFailed(e) && (e != TaskCrashed ==> processed == 0)
      ensures Valid() && held == old(held) - {worker} && Extends(old(trace), trace, worker)
    {
      hide ClaimableCount, SucceededCount, Valid, View, IdSet, After, QueueInv;
      match vectors {
        case Ok(values) =>
          ghost var _ := StoreVectors(ids, values);
        case Err(e) =>
          if e == TaskCrashed {
            MarkTaskCrashed();
          } else {
            MarkEmbeddingFailed(ids, e);
          }
      }
    }
  }

  function Texts(chunks: seq<Chunk>, ids: seq<nat>): (texts: seq<string>)
    requires forall k :: 0 <= k < |ids| ==> ids[k] < |chunks|
    ensures |texts| == |ids|
  {
    seq(|ids|, k requires 0 <= k < |ids| => chunks[ids[k]].content)
  }

  /** One more call leaves the outcomes of the earlier ones, and what they earned, as they were. */
  lemma LogGrows(provider: Provider, dimensions: nat, log: Log, texts: seq<string>)
    ensures var longer := log + [texts];
            && (forall k :: 0 <= k < |log| ==> CallOutcome(provider, dimensions, longer, k) == CallOutcome(provider, dimensions, log, k))
            && CallOutcome(provider, dimensions, longer, |log|) == Outcome(provider(|log|, texts), |texts|, dimensions)
            && (forall e :: EndedBy(provider, dimensions, longer, e) <==> Outcome(provider(|log|, texts), |texts|, dimensions) == Err(e))
            && (forall c :: Earned(provider, dimensions, log, c) ==> Earned(provider, dimensions, longer, c))
  {
    hide Outcome;
    var longer := log + [texts];
    assert longer[|log|] == texts && forall k :: 0 <= k < |log| ==> longer[k] == log[k];
    forall c | Earned(provider, dimensions, log, c) ensures Earned(provider, dimensions, longer, c) {
      var k: nat, p: nat :| GivesVector(provider, dimensions, log, k, p, c);
      assert GivesVector(provider, dimensions, longer, k, p, c);
    }
  }

  lemma WereEarned(provider: Provider, dimensions: nat, log: Log, chunks: seq<Chunk>, ids: seq<nat>, vectors: seq<Vector>)
    requires forall p :: 0 <= p < |ids| ==> ids[p] < |chunks|
    requires log != [] && log[|log| - 1] == Texts(chunks, ids)
    requires CallOutcome(provider, dimensions, log, |log| - 1) == Ok(vectors) && |vectors| == |ids|
    ensures forall p :: 0 <= p < |ids| ==> Earned(provider, dimensions, log, Completed(chunks[ids[p]], vectors[p]))
  {
    hide CallOutcome;
    forall p: nat | p < |ids| ensures Earned(provider, dimensions, log, Completed(chunks[ids[p]], vectors[p])) {
      assert GivesVector(provider, dimensions, log, |log| - 1, p, Completed(chunks[ids[p]], vectors[p]));
    }
  }

  /** One attempt was spent on a chunk that could be claimed. */
  predicate Handled(before: Chunk, now: Chunk, maxAttempts: nat) {
    Claimable(before, maxAttempts) && now.attempts == before.attempts + 1 && now.content == before.content
  }

  /** What a task that ended with a status did to a chunk it touched. */
  ghost predicate Treated(before: Chunk, now: Chunk, status: TaskStatus, maxAttempts: nat, provider: Provider, dimensions: nat, log: Log) {
    && Handled(before, now, maxAttempts)
    && match now.status
       case Succeeded => now.error == None && Earned(provider, dimensions, log, now)
       case Failed => status.TaskFailed? && status.code != TaskCrashed && now.error == Some(status.code) && now.vector == before.vector
       case Processing => status == TaskFailed(TaskCrashed) && now.error == None && now.vector == before.vector
       case Pending => false
  }

  ghost predicate Finished(before: Chunk, now: Chunk, maxAttempts: nat, provider: Provider, dimensions: nat, log: Log) {
    Handled(before, now, maxAttempts) && now.status == Succeeded && now.error == None && Earned(provider, dimensions, log, now)
  }

  /** Every chunk is as it was at the start, or was embedded by an earlier batch. */
  ghost predicate AllFinished(start: seq<Chunk>, now: seq<Chunk>, maxAttempts: nat, provider: Provider, dimensions: nat, log: Log) {
    |now| == |start| && forall i :: 0 <= i < |now| ==> now[i] == start[i] || Finished(start[i], now[i], maxAttempts, provider, dimensions, log)
  }

  ghost predicate AllTreated(start: seq<Chunk>, now: seq<Chunk>, status: TaskStatus, maxAttempts: nat, provider: Provider, dimensions: nat, log: Log) {
    |now| == |start| && forall i :: 0 <= i < |now| ==> now[i] == start[i] || Treated(start[i], now[i], status, maxAttempts, provider, dimensions, log)
  }

  lemma NothingYet(trace: seq<Event>, worker: Worker, start: seq<Chunk>, maxAttempts: nat, provider: Provider, dimensions: nat)
    ensures Extends(trace, trace, worker) && AllFinished(start, start, maxAttempts, provider, dimensions, [])
  {
  }

  lemma FinishedIsTreated(start: seq<Chunk>, now: seq<Chunk>, status: TaskStatus, maxAttempts: nat, provider: Provider, dimensions: nat, log: Log)
    requires AllFinished(start, now, maxAttempts, provider, dimensions, log)
    ensures AllTreated(start, now, status, maxAttempts, provider, dimensions, log)
  {
    hide Earned;
  }

  lemma FinishedGrows(start: seq<Chunk>, now: seq<Chunk>, maxAttempts: nat, provider: Provider, dimensions: nat, log: Log, texts: seq<string>)
    requires AllFinished(start, now, maxAttempts, provider, dimensions, log)
    ensures AllFinished(start, now, maxAttempts, provider, dimensions, log + [texts])
  {
    LogGrows(provider, dimensions, log, texts);
    hide Earned, CallOutcome, EndedBy;
  }

  /** What the outcome of its call makes of a batch; other chunks stay. */
  ghost predicate BatchSettled(claimed: seq<Chunk>, now: seq<Chunk>, ids: seq<nat>, vectors: Result<seq<Vector>, EmbedError>) {
    && |now| == |claimed| && (forall k :: 0 <= k < |ids| ==> ids[k] < |now|)
    && (forall i :: 0 <= i < |now| && i !in ids ==> now[i] == claimed[i])
    && match vectors
       case Ok(values) => |values| == |ids| && forall k :: 0 <= k < |ids| ==> now[ids[k]] == Completed(claimed[ids[k]], values[k])
       case Err(e) => forall i :: i in ids ==> now[i] == if e == TaskCrashed then claimed[i] else Broken(claimed[i], e)
  }

  /** One more batch, claimed from chunks that are finished or untouched, and settled. */
  lemma BatchTreated(start: seq<Chunk>, before: seq<Chunk>, claimed: seq<Chunk>, now: seq<Chunk>, ids: seq<nat>,
                     vectors: Result<seq<Vector>, EmbedError>, maxAttempts: nat, provider: Provider, dimensions: nat, log: Log)
    requires AllFinished(start, before, maxAttempts, provider, dimensions, log) && ids != []
    requires forall k :: 0 <= k < |ids| ==> ids[k] < |before| && Claimable(before[ids[k]], maxAttempts)
    requires |claimed| == |before| && forall i :: 0 <= i < |before| ==> claimed[i] == if i in ids then Claimed(before[i]) else before[i]
    requires log != [] && log[|log| - 1] == Texts(claimed, ids) && CallOutcome(provider, dimensions, log, |log| - 1) == vectors
    requires BatchSettled(claimed, now, ids, vectors)
    ensures vectors.Ok? ==> AllFinished(start, now, maxAttempts, provider, dimensions, log)
    ensures vectors.Err? ==> AllTreated(start, now, TaskFailed(vectors.error), maxAttempts, provider, dimensions, log)
    ensures vectors == Err(TaskCrashed) ==> exists i :: 0 <= i < |now| && now[i] != start[i] && now[i].status == Processing
  {
    if vectors.Ok? {
      WereEarned(provider, dimensions, log, claimed, ids, vectors.value);
    }
    hide Earned, CallOutcome, Texts;
    assert ids[0] in ids;
    forall i: nat | i < |now| && i in ids ensures before[i] == start[i] && exists k :: 0 <= k < |ids| && ids[k] == i {
      var k :| 0 <= k < |ids| && ids[k] == i;
      assert Claimable(before[ids[k]], maxAttempts);
    }
  }

  lemma OutcomeSize(answer: Answer, n: nat, dimensions: nat)
    requires n > 0 && Outcome(answer, n, dimensions).Ok?
    ensures |Outcome(answer, n, dimensions).value| == n
  {
  }

  // ------------------------------------------------------------- what an escape leaves

  /** A chunk left in processing by a task that is over stays so, whatever tasks come later. */
  lemma StrandedStays(chunks: seq<Chunk>, maxAttempts: nat, events: seq<Event>, i: nat)
    requires i < |chunks| && chunks[i].status == Processing
    requires forall j :: 0 <= j < |chunks| ==> chunks[j].attempts <= maxAttempts
    ensures i < |After(Queue(chunks, map[]), maxAttempts, events).chunks|
    ensures After(Queue(chunks, map[]), maxAttempts, events).chunks[i] == chunks[i]
  {
    var q := Queue(chunks, map[]);
    assert QueueInv(q, maxAttempts) && Settled(q, i);
    SettledForever(q, maxAttempts, events, i);
  }

  /** No chunk is earned from a provider that only raises. */
  lemma RaisedNeverEarns(provider: Provider, dimensions: nat, log: Log, c: Chunk)
    requires forall k, texts :: provider(k, texts) == Raised
    ensures !Earned(provider, dimensions, log, c)
  {
    hide Restore;
  }

  ghost predicate StaysAlone(c: Chunk, maxAttempts: nat, events: seq<Event>) {
    After(Queue([c], map[]), maxAttempts, events).chunks == [c]
  }

  /** One pending chunk and one answer that is not JSON: the chunk is never embedded. */
  method StrandedByBadAnswer(content: string, maxAttempts: nat, dimensions: nat) returns (c: Chunk)
    requires maxAttempts > 0
    ensures c == Chunk(content, Processing, 1, None, None)
    ensures forall events: seq<Event> :: StaysAlone(c, maxAttempts, events)
  {
    var start := Chunk(content, Pending, 0, None, None);
    var provider: Provider := (k, texts) => Raised;
    var store := new EmbeddingStore(0, maxAttempts, [start], map[]);
    ghost var log := store.ProcessEmbeddingTask(provider, 1, dimensions);
    c := store.chunks[0];
    hide Restore, Earned, After, EndedBy, ClaimableCount, SucceededCount;
    RaisedNeverEarns(provider, dimensions, log, c);
    assert Claimable(start, maxAttempts) && c != start;
    forall events: seq<Event> ensures StaysAlone(c, maxAttempts, events) {
      SameSize(Queue([c], map[]), maxAttempts, events);
      StrandedStays([c], maxAttempts, events, 0);
    }
  }
}
