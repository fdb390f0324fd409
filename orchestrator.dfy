/**
 * The gateway's tiered resolution of an embedding request: the remote
 * cache (L1) first, then the durable store (L2), then the job registry, and
 * finally a new job with a task submitted to the remote queue. The method
 * returns at the first tier that answers.
 *
 * The remote cache is `RemoteCache`: it logs every RPC and answers Get with
 * `l1` (None where the RPC raises `grpc.RpcError`); SubmitBatch and
 * SubmitTask raise where `batchRaises` / `taskRaises` hold. The durable
 * store is `JobStore`, the embedding and job tables the orchestrator reads
 * and writes. SHA-256 is the function `sha256Hex`.
 */
module Orchestrator {
  import opened Wrappers
  import Utf8
  import GrpcService

  type Key = (string, string)

  datatype Embedding = Embedding(vector: string, confidence: real)

  /** The `Task` message the orchestrator submits. */
  datatype TaskMessage = TaskMessage(hash: string, sequence: string, modelId: string)

  datatype RemoteCall =
    | GetRpc(request: GrpcService.KeyRequest)
    | SubmitBatchRpc(batch: GrpcService.BatchResult)
    | SubmitTaskRpc(task: TaskMessage)

  const Completed := "COMPLETED"
  const Pending := "PENDING"

  /** The dictionary `analyze_sequence` returns, one constructor per tier. */
  datatype Resolution =
    | FromL1(hash: string, model: string, data: string, confidence: real)
    | FromL2(hash: string, model: string, data: string)
    | FromQueue(hash: string, status: string, model: string)
    | NewJob(hash: string, model: string)
  {
    function Status(): string {
      match this
      case FromL1(_, _, _, _) => Completed
      case FromL2(_, _, _) => Completed
      case FromQueue(_, status, _) => status
      case NewJob(_, _) => Pending
    }

    function Source(): string {
      match this
      case FromL1(_, _, _, _) => "L1_CACHE"
      case FromL2(_, _, _) => "L2_STORE"
      case FromQueue(_, _, _) => "JOB_QUEUE"
      case NewJob(_, _) => "NEW_JOB"
    }
  }

  /** `_generate_hash`: the SHA-256 hex of the UTF-8 bytes of the sequence as given. */
  function Fingerprint(sha256Hex: seq<Utf8.byte> -> string, sequence: string): string {
    sha256Hex(Utf8.Encode(sequence))
  }

  /** With a collision-free hash, two sequences share a fingerprint only if they are equal: nothing is cleaned away first. */
  lemma FingerprintSeparates(sha256Hex: seq<Utf8.byte> -> string, s1: string, s2: string)
    requires forall a, b | sha256Hex(a) == sha256Hex(b) :: a == b
    ensures Fingerprint(sha256Hex, s1) == Fingerprint(sha256Hex, s2) <==> s1 == s2
  {
    if Fingerprint(sha256Hex, s1) == Fingerprint(sha256Hex, s2) {
      Utf8.EncodeInjective(s1, s2);
    }
  }

  // ---------------------------------------------------------------------------
  // The tiers as a function of the state

  /** What the RPCs answer: the L1 lookup, and whether the two submissions raise. */
  datatype Env = Env(l1: GrpcService.KeyRequest -> Option<GrpcService.ValueResponse>, batchRaises: bool, taskRaises: bool)

  /** The embedding table, the job table and the RPC log. */
  datatype World = World(embeddings: map<Key, Embedding>, jobs: map<Key, string>, calls: seq<RemoteCall>)

  /** Whether the L1 lookup found the fingerprint. */
  predicate L1Hit(env: Env, h: string, modelId: string) {
    var l1 := env.l1(GrpcService.KeyRequest(h, modelId));
    l1.Some? && l1.value.found
  }

  /** `if status:` — a missing status and the empty string are both false. */
  predicate HasStatus(jobs: map<Key, string>, key: Key) {
    key in jobs && jobs[key] != ""
  }

  /** The one-entry batch that repopulates L1 from an L2 record; the confidence is left at its default. */
  function RepopulateBatch(h: string, modelId: string, vector: string): (b: GrpcService.BatchResult)
    ensures b.modelId == modelId && |b.results| == 1
    ensures b.results[0] == GrpcService.ResultEntry(h, vector, 0.0)
  {
    GrpcService.BatchResult(modelId, [GrpcService.ResultEntry(h, vector, 0.0)])
  }

  /**
   * `analyze_sequence` with fingerprint `h`: the result and the new state.
   * A SubmitBatch or SubmitTask that raises is logged like one that does not
   * (the exception is caught); it changes nothing else.
   */
  function Resolve(env: Env, w: World, h: string, modelId: string, sequence: string): (Resolution, World) {
    var key := (h, modelId);
    var request := GrpcService.KeyRequest(h, modelId);
    var calls := w.calls + [GetRpc(request)];
    if L1Hit(env, h, modelId) then
      var resp := env.l1(request).value;
      var embeddings := if key in w.embeddings then w.embeddings else w.embeddings[key := Embedding(resp.value, resp.confidence)];
      (FromL1(h, resp.modelId, resp.value, resp.confidence), World(embeddings, w.jobs[key := Completed], calls))
    else if key in w.embeddings then
      var vector := w.embeddings[key].vector;
      (FromL2(h, modelId, vector), World(w.embeddings, w.jobs, calls + [SubmitBatchRpc(RepopulateBatch(h, modelId, vector))]))
    else if HasStatus(w.jobs, key) then
      (FromQueue(h, w.jobs[key], modelId), World(w.embeddings, w.jobs, calls))
    else
      (NewJob(h, modelId), World(w.embeddings, w.jobs[key := Pending], calls + [SubmitTaskRpc(TaskMessage(h, sequence, modelId))]))
  }

  // ---------------------------------------------------------------------------
  // The remote cache and the durable store

  class RemoteCache {
    var calls: seq<RemoteCall>
    const l1: GrpcService.KeyRequest -> Option<GrpcService.ValueResponse>
    const batchRaises: bool
    const taskRaises: bool

    constructor (l1: GrpcService.KeyRequest -> Option<GrpcService.ValueResponse>, batchRaises: bool, taskRaises: bool)
      ensures calls == [] && this.l1 == l1 && this.batchRaises == batchRaises && this.taskRaises == taskRaises
    {
      calls := [];
      this.l1 := l1;
      this.batchRaises := batchRaises;
      this.taskRaises := taskRaises;
    }

    /** `Get`: None where it raises. */
    method Get(request: GrpcService.KeyRequest) returns (r: Option<GrpcService.ValueResponse>)
      modifies this
      ensures calls == old(calls) + [GetRpc(request)] && r == l1(request)
    {
      calls := calls + [GetRpc(request)];
      r := l1(request);
    }

    /** `SubmitBatch`: false where it raises. */
    method SubmitBatch(batch: GrpcService.BatchResult) returns (ok: bool)
      modifies this
      ensures calls == old(calls) + [SubmitBatchRpc(batch)] && ok == !batchRaises
    {
      calls := calls + [SubmitBatchRpc(batch)];
      ok := !batchRaises;
    }

    /** `SubmitTask`: false where it raises. */
    method SubmitTask(task: TaskMessage) returns (ok: bool)
      modifies this
      ensures calls == old(calls) + [SubmitTaskRpc(task)] && ok == !taskRaises
    {
      calls := calls + [SubmitTaskRpc(task)];
      ok := !taskRaises;
    }
  }

  /**
   * The store behind `DatabaseContext`. Its methods are not part of this
   * model's source; they are taken to be a keyed embedding table and a
   * keyed job table, with `create_job` registering the job as PENDING.
   */
  class JobStore {
    var embeddings: map<Key, Embedding>
    var jobs: map<Key, string>

    constructor ()
      ensures embeddings == map[] && jobs == map[]
    {
      embeddings := map[];
      jobs := map[];
    }

    method GetEmbedding(h: string, modelId: string) returns (r: Option<Embedding>)
      ensures r == if (h, modelId) in embeddings then Some(embeddings[(h, modelId)]) else None
    {
      r := if (h, modelId) in embeddings then Some(embeddings[(h, modelId)]) else None;
    }

    method StoreEmbedding(h: string, modelId: string, vector: string, confidence: real)
      modifies this
      ensures embeddings == old(embeddings)[(h, modelId) := Embedding(vector, confidence)] && jobs == old(jobs)
    {
      embeddings := embeddings[(h, modelId) := Embedding(vector, confidence)];
    }

    method UpdateJobStatus(h: string, modelId: string, status: string)
      modifies this
      ensures jobs == old(jobs)[(h, modelId) := status] && embeddings == old(embeddings)
    {
      jobs := jobs[(h, modelId) := status];
    }

    method GetJobStatus(h: string, modelId: string) returns (r: Option<string>)
      ensures r == if (h, modelId) in jobs then Some(jobs[(h, modelId)]) else None
    {
      r := if (h, modelId) in jobs then Some(jobs[(h, modelId)]) else None;
    }

    method CreateJob(h: string, modelId: string)
      modifies this
      ensures jobs == old(jobs)[(h, modelId) := Pending] && embeddings == old(embeddings)
    {
      jobs := jobs[(h, modelId) := Pending];
    }
  }

  class HelixOrchestrator {
    const remote: RemoteCache
    const store: JobStore
    const sha256Hex: seq<Utf8.byte> -> string

    constructor (remote: RemoteCache, store: JobStore, sha256Hex: seq<Utf8.byte> -> string)
      ensures this.remote == remote && this.store == store && this.sha256Hex == sha256Hex
    {
      this.remote := remote;
      this.store := store;
      this.sha256Hex := sha256Hex;
    }

    /** `analyze_sequence(sequence, model_id)`, with the L1 write-back failure logged. */
    method AnalyzeSequence(sequence: string, modelId: string) returns (r: Resolution)
      modifies remote, store
      ensures var env := Env(remote.l1, remote.batchRaises, remote.taskRaises);
        var w := World(old(store.embeddings), old(store.jobs), old(remote.calls));
        (r, World(store.embeddings, store.jobs, remote.calls)) == Resolve(env, w, Fingerprint(sha256Hex, sequence), modelId, sequence)
    {
      var h := sha256Hex(Utf8.Encode(sequence));
      var response := remote.Get(GrpcService.KeyRequest(h, modelId));
      if response.Some? && response.value.found {
        var known := store.GetEmbedding(h, modelId);
        if known.None? {
          store.StoreEmbedding(h, modelId, response.value.value, response.value.confidence);
        }
        store.UpdateJobStatus(h, modelId, Completed);
        return FromL1(h, response.value.modelId, response.value.value, response.value.confidence);
      }
      var record := store.GetEmbedding(h, modelId);
      if record.Some? {
        var ok := remote.SubmitBatch(RepopulateBatch(h, modelId, record.value.vector));
        return FromL2(h, modelId, record.value.vector);
      }
      var status := store.GetJobStatus(h, modelId);
      if status.Some? && status.value != "" {
        return FromQueue(h, status.value, modelId);
      }
      store.CreateJob(h, modelId);
      var ok := remote.SubmitTask(TaskMessage(h, sequence, modelId));
      r := NewJob(h, modelId);
    }
  }

  // ---------------------------------------------------------------------------
  // Properties of the tier chain

  /**
   * The tiers are tried in order and the first that answers decides: L1
   * on a found response, L2 on a stored record, the job queue on a truthy
   * status, a new job otherwise. The L1 Get is always the first call.
   */
  lemma TierOrder(env: Env, w: World, h: string, modelId: string, sequence: string)
    ensures var (r, w') := Resolve(env, w, h, modelId, sequence);
      var key := (h, modelId);
      && r.hash == h
      && (r.FromL1? <==> L1Hit(env, h, modelId))
      && (r.FromL2? <==> !L1Hit(env, h, modelId) && key in w.embeddings)
      && (r.FromQueue? <==> !L1Hit(env, h, modelId) && key !in w.embeddings && HasStatus(w.jobs, key))
      && (r.NewJob? <==> !L1Hit(env, h, modelId) && key !in w.embeddings && !HasStatus(w.jobs, key))
      && |w'.calls| > |w.calls| && w'.calls[..|w.calls| + 1] == w.calls + [GetRpc(GrpcService.KeyRequest(h, modelId))]
  {
  }

  /**
   * An L1 hit writes the response to the store only where no record
   * exists, marks the job COMPLETED either way, makes no other RPC, and
   * answers with the response's own model id and data.
   */
  lemma L1HitEffects(env: Env, w: World, h: string, modelId: string, sequence: string)
    requires L1Hit(env, h, modelId)
    ensures var (r, w') := Resolve(env, w, h, modelId, sequence);
      var key := (h, modelId);
      var resp := env.l1(GrpcService.KeyRequest(h, modelId)).value;
      && r == FromL1(h, resp.modelId, resp.value, resp.confidence) && r.Status() == Completed
      && w'.embeddings.Keys == w.embeddings.Keys + {key}
      && (forall k | k in w.embeddings :: w'.embeddings[k] == w.embeddings[k])
      && (key !in w.embeddings ==> w'.embeddings[key] == Embedding(resp.value, resp.confidence))
      && w'.jobs == w.jobs[key := Completed]
      && w'.calls == w.calls + [GetRpc(GrpcService.KeyRequest(h, modelId))]
  {
  }

  /**
   * An L2 hit makes exactly one SubmitBatch, with a single entry for the
   * fingerprint and the stored vector, changes neither table, and answers
   * with the requested model and the stored vector.
   */
  lemma L2HitEffects(env: Env, w: World, h: string, modelId: string, sequence: string)
    requires !L1Hit(env, h, modelId) && (h, modelId) in w.embeddings
    ensures var (r, w') := Resolve(env, w, h, modelId, sequence);
      var vector := w.embeddings[(h, modelId)].vector;
      && r == FromL2(h, modelId, vector) && r.Status() == Completed
      && w'.embeddings == w.embeddings && w'.jobs == w.jobs
      && w'.calls == w.calls + [GetRpc(GrpcService.KeyRequest(h, modelId)), SubmitBatchRpc(RepopulateBatch(h, modelId, vector))]
  {
  }

  /** An existing status is returned verbatim: no job is created and nothing is submitted. */
  lemma QueuedEffects(env: Env, w: World, h: string, modelId: string, sequence: string)
    requires !L1Hit(env, h, modelId) && (h, modelId) !in w.embeddings && HasStatus(w.jobs, (h, modelId))
    ensures var (r, w') := Resolve(env, w, h, modelId, sequence);
      && r == FromQueue(h, w.jobs[(h, modelId)], modelId) && r.Status() == w.jobs[(h, modelId)]
      && w' == w.(calls := w.calls + [GetRpc(GrpcService.KeyRequest(h, modelId))])
  {
  }

  /**
   * With no tier answering, exactly one job is created and one task
   * submitted, carrying the raw sequence; the job is registered even when
   * the task submission raises.
   */
  lemma NewJobEffects(env: Env, w: World, h: string, modelId: string, sequence: string)
    requires !L1Hit(env, h, modelId) && (h, modelId) !in w.embeddings && !HasStatus(w.jobs, (h, modelId))
    ensures var (r, w') := Resolve(env, w, h, modelId, sequence);
      && r == NewJob(h, modelId) && r.Status() == Pending
      && w'.embeddings == w.embeddings && w'.jobs == w.jobs[(h, modelId) := Pending]
      && w'.calls == w.calls + [GetRpc(GrpcService.KeyRequest(h, modelId)), SubmitTaskRpc(TaskMessage(h, sequence, modelId))]
  {
  }

  /**
   * A repeat of a request that created a job, while L1 still misses, is
   * answered from the job queue as PENDING and submits no second task.
   */
  lemma RepeatIsQueued(env: Env, w: World, h: string, modelId: string, sequence: string)
    requires Resolve(env, w, h, modelId, sequence).0.NewJob?
    ensures var w' := Resolve(env, w, h, modelId, sequence).1;
      var (r2, w2) := Resolve(env, w', h, modelId, sequence);
      && r2 == FromQueue(h, Pending, modelId)
      && w2 == w'.(calls := w'.calls + [GetRpc(GrpcService.KeyRequest(h, modelId))])
  {
    var key := (h, modelId);
    var w' := Resolve(env, w, h, modelId, sequence).1;
    assert key !in w'.embeddings;
    assert HasStatus(w'.jobs, key);
  }

  /**
   * Every job marked COMPLETED has its embedding stored. The empty store
   * satisfies this, and every request keeps it (CompletedKeepsRecord).
   */
  predicate CompletedHasRecord(w: World) {
    forall k | k in w.jobs && w.jobs[k] == Completed :: k in w.embeddings
  }

  /** A request marks a job COMPLETED only together with its embedding, and drops no embedding. */
  lemma CompletedKeepsRecord(env: Env, w: World, h: string, modelId: string, sequence: string)
    requires CompletedHasRecord(w)
    ensures var w' := Resolve(env, w, h, modelId, sequence).1;
      CompletedHasRecord(w') && w.embeddings.Keys <= w'.embeddings.Keys
  {
  }

  /**
   * While every COMPLETED job has its embedding stored, an answer is
   * COMPLETED exactly when it carries data from L1 or L2.
   */
  lemma CompletedCarriesData(env: Env, w: World, h: string, modelId: string, sequence: string)
    requires CompletedHasRecord(w)
    ensures var r := Resolve(env, w, h, modelId, sequence).0;
      r.Status() == Completed <==> r.FromL1? || r.FromL2?
  {
  }

  // ---------------------------------------------------------------------------
  // The L1 write-back failure as written

  /**
   * The result of `analyze_sequence` as written: in the L2 branch a
   * SubmitBatch that raises reaches `logging.log(f"...")`, which is called
   * without its message argument and raises `TypeError` (None here).
   */
  function ResultAsWritten(env: Env, w: World, h: string, modelId: string): Option<Resolution> {
    var request := GrpcService.KeyRequest(h, modelId);
    var l1 := env.l1(request);
    if l1.Some? && l1.value.found then Some(FromL1(h, l1.value.modelId, l1.value.value, l1.value.confidence))
    else if (h, modelId) in w.embeddings then
      if env.batchRaises then None
      else Some(FromL2(h, modelId, w.embeddings[(h, modelId)].vector))
    else if (h, modelId) in w.jobs && w.jobs[(h, modelId)] != "" then Some(FromQueue(h, w.jobs[(h, modelId)], modelId))
    else Some(NewJob(h, modelId))
  }

  /** As written, an L2 hit whose write-back raises fails the request instead of answering L2_STORE. */
  lemma WriteBackFailureRaises(env: Env, w: World, h: string, modelId: string, sequence: string)
    requires !L1Hit(env, h, modelId) && (h, modelId) in w.embeddings && env.batchRaises
    ensures ResultAsWritten(env, w, h, modelId) == None
    ensures Resolve(env, w, h, modelId, sequence).0 == FromL2(h, modelId, w.embeddings[(h, modelId)].vector)
  {
  }

  /** Everywhere else the code as written answers what the corrected chain answers. */
  lemma AsWrittenAgrees(env: Env, w: World, h: string, modelId: string, sequence: string)
    requires L1Hit(env, h, modelId) || (h, modelId) !in w.embeddings || !env.batchRaises
    ensures ResultAsWritten(env, w, h, modelId) == Some(Resolve(env, w, h, modelId, sequence).0)
  {
  }
}
