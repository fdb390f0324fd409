/**
 * The gRPC face of the cache (CacheGrpcService): argument checks, the
 * shape of each response, and the put-then-resolve loop of `submitBatch`.
 *
 * The handlers call a cache keyed by (key, model id) with a task queue,
 * whose code is not part of this model. `ModelCache` stands for it: a map
 * from (key, model) to value that `get` reads, `put` writes and `clear`
 * empties, a log of every call in order, and the answer to a lease as a
 * fixed function of the lease's arguments.
 */
module GrpcService {
  import opened Wrappers

  // ---------------------------------------------------------------------------
  // Messages

  datatype KeyRequest = KeyRequest(key: string, modelId: string)
  datatype CacheEntry = CacheEntry(key: string, modelId: string, value: string)
  datatype LeaseRequest = LeaseRequest(maxBatchSize: int, targetModelId: string)
  datatype ResultEntry = ResultEntry(key: string, embeddingJson: string, confidence: real)
  datatype BatchResult = BatchResult(modelId: string, results: seq<ResultEntry>)

  /** A `ValueResponse`; fields the handler leaves unset keep their proto3 defaults ("" and 0.0). */
  datatype ValueResponse = ValueResponse(found: bool, value: string, modelId: string, confidence: real)

  datatype Message =
    | EmptyResponse(message: string)
    | Value(response: ValueResponse)
    | LeaseResponse(keys: seq<string>)

  datatype Event = Next(message: Message) | Completed | Error(reason: string)

  /** The calls the handlers make on the cache, in the order they make them. */
  datatype Call =
    | GetCall(key: string, modelId: string)
    | PutCall(key: string, modelId: string, value: string)
    | SubmitTaskCall(key: string, modelId: string)
    | LeaseCall(maxBatchSize: int, modelId: string)
    | ResolveCall(key: string, modelId: string)
    | ClearCall

  // ---------------------------------------------------------------------------
  // Collaborators

  /** A `StreamObserver`: everything pushed to it, in order. */
  class Observer {
    var events: seq<Event>

    constructor ()
      ensures events == []
    {
      events := [];
    }

    method OnNext(m: Message)
      modifies this
      ensures events == old(events) + [Next(m)]
    {
      events := events + [Next(m)];
    }

    method OnCompleted()
      modifies this
      ensures events == old(events) + [Completed]
    {
      events := events + [Completed];
    }

    method OnError(reason: string)
      modifies this
      ensures events == old(events) + [Error(reason)]
    {
      events := events + [Error(reason)];
    }
  }

  class ModelCache {
    var entries: map<(string, string), string>
    var calls: seq<Call>
    /** What `leaseTasks(max, model)` answers. */
    const leaseAnswer: (int, string) -> seq<string>

    constructor (leaseAnswer: (int, string) -> seq<string>)
      ensures entries == map[] && calls == [] && this.leaseAnswer == leaseAnswer
    {
      entries := map[];
      calls := [];
      this.leaseAnswer := leaseAnswer;
    }

    method Get(key: string, modelId: string) returns (v: Option<string>)
      modifies this
      ensures entries == old(entries) && calls == old(calls) + [GetCall(key, modelId)]
      ensures v == if (key, modelId) in entries then Some(entries[(key, modelId)]) else None
    {
      calls := calls + [GetCall(key, modelId)];
      v := if (key, modelId) in entries then Some(entries[(key, modelId)]) else None;
    }

    method Put(key: string, modelId: string, value: string)
      modifies this
      ensures entries == old(entries)[(key, modelId) := value]
      ensures calls == old(calls) + [PutCall(key, modelId, value)]
    {
      entries := entries[(key, modelId) := value];
      calls := calls + [PutCall(key, modelId, value)];
    }

    method SubmitTask(key: string, modelId: string)
      modifies this
      ensures entries == old(entries) && calls == old(calls) + [SubmitTaskCall(key, modelId)]
    {
      calls := calls + [SubmitTaskCall(key, modelId)];
    }

    method LeaseTasks(maxBatchSize: int, modelId: string) returns (keys: seq<string>)
      modifies this
      ensures entries == old(entries) && calls == old(calls) + [LeaseCall(maxBatchSize, modelId)]
      ensures keys == leaseAnswer(maxBatchSize, modelId)
    {
      calls := calls + [LeaseCall(maxBatchSize, modelId)];
      keys := leaseAnswer(maxBatchSize, modelId);
    }

    method ResolveTask(key: string, modelId: string)
      modifies this
      ensures entries == old(entries) && calls == old(calls) + [ResolveCall(key, modelId)]
    {
      calls := calls + [ResolveCall(key, modelId)];
    }

    method Clear()
      modifies this
      ensures entries == map[] && calls == old(calls) + [ClearCall]
    {
      entries := map[];
      calls := calls + [ClearCall];
    }
  }

  // ---------------------------------------------------------------------------
  // What the handlers compute

  /** The response `get` builds from what the cache returned. */
  function ValueResponseOf(v: Option<string>, modelId: string): (r: ValueResponse)
    ensures r.found <==> v.Some?
    ensures r.value == (if v.Some? then v.value else "")
    ensures r.modelId == modelId && r.confidence == 0.0
  {
    match v
    case None => ValueResponse(false, "", modelId, 0.0)
    case Some(s) => ValueResponse(true, s, modelId, 0.0)
  }

  /** The store after `submitBatch` has put `results` under `modelId`, in list order. */
  function StoreBatch(entries: map<(string, string), string>, modelId: string, results: seq<ResultEntry>): map<(string, string), string>
  {
    if results == [] then entries
    else
      var last := results[|results| - 1];
      StoreBatch(entries, modelId, results[..|results| - 1])[(last.key, modelId) := last.embeddingJson]
  }

  /** The cache calls of `submitBatch`: for each entry, a put and then a resolve, both under the batch's model. */
  function BatchCalls(modelId: string, results: seq<ResultEntry>): (calls: seq<Call>)
    ensures |calls| == 2 * |results|
  {
    if results == [] then []
    else
      var last := results[|results| - 1];
      BatchCalls(modelId, results[..|results| - 1])
        + [PutCall(last.key, modelId, last.embeddingJson), ResolveCall(last.key, modelId)]
  }

  /** The value of the last entry in `results` with key `key`, if any. */
  function LastValueFor(results: seq<ResultEntry>, key: string): Option<string> {
    if results == [] then None
    else if results[|results| - 1].key == key then Some(results[|results| - 1].embeddingJson)
    else LastValueFor(results[..|results| - 1], key)
  }

  // ---------------------------------------------------------------------------
  // The handlers

  class CacheGrpcService {
    const cache: ModelCache

    constructor (cache: ModelCache)
      ensures this.cache == cache
    {
      this.cache := cache;
    }

    /** An empty model id is refused with `onError` and reaches no cache; otherwise the task is queued once. */
    method SubmitTask(request: KeyRequest, obs: Observer)
      modifies cache, obs
      ensures cache.entries == old(cache.entries)
      ensures request.modelId == "" ==>
        cache.calls == old(cache.calls) && obs.events == old(obs.events) + [Error("model_id is required")]
      ensures request.modelId != "" ==>
        && cache.calls == old(cache.calls) + [SubmitTaskCall(request.key, request.modelId)]
        && obs.events == old(obs.events) + [Next(EmptyResponse("Queued")), Completed]
    {
      if request.modelId == "" {
        obs.OnError("model_id is required");
        return;
      }
      cache.SubmitTask(request.key, request.modelId);
      obs.OnNext(EmptyResponse("Queued"));
      obs.OnCompleted();
    }

    method Get(request: KeyRequest, obs: Observer)
      modifies cache, obs
      ensures cache.entries == old(cache.entries)
      ensures cache.calls == old(cache.calls) + [GetCall(request.key, request.modelId)]
      ensures var k := (request.key, request.modelId);
        obs.events == old(obs.events)
          + [Next(Value(ValueResponseOf(if k in old(cache.entries) then Some(old(cache.entries)[k]) else None, request.modelId))), Completed]
    {
      var val := cache.Get(request.key, request.modelId);
      obs.OnNext(Value(ValueResponseOf(val, request.modelId)));
      obs.OnCompleted();
    }

    method Put(request: CacheEntry, obs: Observer)
      modifies cache, obs
      ensures cache.entries == old(cache.entries)[(request.key, request.modelId) := request.value]
      ensures cache.calls == old(cache.calls) + [PutCall(request.key, request.modelId, request.value)]
      ensures obs.events == old(obs.events) + [Next(EmptyResponse("Stored")), Completed]
    {
      cache.Put(request.key, request.modelId, request.value);
      obs.OnNext(EmptyResponse("Stored"));
      obs.OnCompleted();
    }

    /** The request's size and model go to the cache unchanged, and its keys come back unchanged. */
    method LeaseTasks(request: LeaseRequest, obs: Observer)
      modifies cache, obs
      ensures cache.entries == old(cache.entries)
      ensures cache.calls == old(cache.calls) + [LeaseCall(request.maxBatchSize, request.targetModelId)]
      ensures obs.events == old(obs.events)
        + [Next(LeaseResponse(cache.leaseAnswer(request.maxBatchSize, request.targetModelId))), Completed]
    {
      var keys := cache.LeaseTasks(request.maxBatchSize, request.targetModelId);
      obs.OnNext(LeaseResponse(keys));
      obs.OnCompleted();
    }

    /** Every entry is put under the batch's model and then resolved, in list order. */
    method SubmitBatch(request: BatchResult, obs: Observer)
      modifies cache, obs
      ensures cache.entries == StoreBatch(old(cache.entries), request.modelId, request.results)
      ensures cache.calls == old(cache.calls) + BatchCalls(request.modelId, request.results)
      ensures obs.events == old(obs.events) + [Next(EmptyResponse("Batch Processed")), Completed]
    {
      var modelId := request.modelId;
      var results := request.results;
      for i := 0 to |results|
        invariant cache.entries == StoreBatch(old(cache.entries), modelId, results[..i])
        invariant cache.calls == old(cache.calls) + BatchCalls(modelId, results[..i])
        invariant obs.events == old(obs.events)
      {
        var entry := results[i];
        assert results[..i + 1][..i] == results[..i];
        cache.Put(entry.key, modelId, entry.embeddingJson);
        cache.ResolveTask(entry.key, modelId);
      }
      assert results[..|results|] == results;
      obs.OnNext(EmptyResponse("Batch Processed"));
      obs.OnCompleted();
    }

    method Clear(obs: Observer)
      modifies cache, obs
      ensures cache.entries == map[]
      ensures cache.calls == old(cache.calls) + [ClearCall]
      ensures obs.events == old(obs.events) + [Next(EmptyResponse("Cleared")), Completed]
    {
      cache.Clear();
      obs.OnNext(EmptyResponse("Cleared"));
      obs.OnCompleted();
    }
  }

  // ---------------------------------------------------------------------------
  // Properties of the handlers

  /** A put followed by a get of the same key and model is found with the value put. */
  lemma GetAfterPut(entries: map<(string, string), string>, key: string, modelId: string, value: string)
    ensures var e := entries[(key, modelId) := value];
      ValueResponseOf(if (key, modelId) in e then Some(e[(key, modelId)]) else None, modelId)
        == ValueResponse(true, value, modelId, 0.0)
  {
  }

  /** After a batch, each key holds its last value in the batch, under the batch's model. */
  lemma {:induction false} StoreBatchLastWins(entries: map<(string, string), string>, modelId: string, results: seq<ResultEntry>, key: string)
    ensures var after := StoreBatch(entries, modelId, results);
      match LastValueFor(results, key)
      case Some(v) => (key, modelId) in after && after[(key, modelId)] == v
      case None => ((key, modelId) in after <==> (key, modelId) in entries)
                   && ((key, modelId) in entries ==> after[(key, modelId)] == entries[(key, modelId)])
  {
    if results != [] {
      StoreBatchLastWins(entries, modelId, results[..|results| - 1], key);
    }
  }

  /** A batch writes nothing under any other model. */
  lemma {:induction false} StoreBatchOtherModels(entries: map<(string, string), string>, modelId: string, results: seq<ResultEntry>, k: (string, string))
    requires k.1 != modelId
    ensures (k in StoreBatch(entries, modelId, results) <==> k in entries)
    ensures k in entries ==> StoreBatch(entries, modelId, results)[k] == entries[k]
  {
    if results != [] {
      StoreBatchOtherModels(entries, modelId, results[..|results| - 1], k);
    }
  }

  /** Entry `i` of the batch makes calls `2i` and `2i+1`: its put, then its resolve. */
  lemma {:induction false} BatchCallsOrder(modelId: string, results: seq<ResultEntry>, i: nat)
    requires i < |results|
    ensures BatchCalls(modelId, results)[2 * i] == PutCall(results[i].key, modelId, results[i].embeddingJson)
    ensures BatchCalls(modelId, results)[2 * i + 1] == ResolveCall(results[i].key, modelId)
  {
    var n := |results| - 1;
    if i < n {
      BatchCallsOrder(modelId, results[..n], i);
    }
  }
}
