/**
 * The inference worker: it leases at most one task at a time from the
 * cache service, cleans the task's sequence, embeds it and submits the
 * result as a one-entry batch; any exception ends the current poll, and the
 * run loop polls again.
 *
 * The embedding model is the function `embedJson` (the JSON text of the
 * normalised vector, or None where tokenising or inference raises). The
 * cache service is `CacheStub`: it records the requests it receives, answers
 * the n-th lease with `leaseReply(n)` (None where the RPC raises) and raises
 * on the SubmitBatch attempts whose numbers are in `rejects`.
 */
module Worker {
  import opened Wrappers
  import Text
  import GrpcService

  // ---------------------------------------------------------------------------
  // Cleaning

  /** `s.replace(" ", "")`: only the space character is removed. */
  function RemoveSpaces(s: string): (r: string)
    ensures |r| <= |s| && ' ' !in r
  {
    if s == [] then []
    else
      var rest := RemoveSpaces(s[1..]);
      if s[0] == ' ' then rest else [s[0]] + rest
  }

  /** Removing spaces keeps every other character and adds none. */
  lemma {:induction false} RemoveSpacesChars(s: string, ch: char)
    ensures ch in RemoveSpaces(s) <==> ch in s && ch != ' '
  {
    if s != [] {
      RemoveSpacesChars(s[1..], ch);
      assert s == [s[0]] + s[1..];
    }
  }

  const MaxResidues: nat := 1022

  /** `task.sequence.upper().replace(" ", "")[:1022]`. */
  function Clean(s: string): (r: string)
    ensures |r| <= MaxResidues && ' ' !in r
  {
    var t := RemoveSpaces(Text.Upper(s));
    if |t| <= MaxResidues then t else t[..MaxResidues]
  }

  lemma RemoveSpacesNoop(s: string)
    requires ' ' !in s
    ensures RemoveSpaces(s) == s
  {
    if s != [] {
      assert s[0] in s;
      assert forall c | c in s[1..] :: c in s;
      RemoveSpacesNoop(s[1..]);
      assert [s[0]] + s[1..] == s;
    }
  }

  lemma {:induction false} RemoveSpacesUpper(s: string)
    requires ' ' !in s
    ensures ' ' !in Text.Upper(s)
  {
    var u := Text.Upper(s);
    forall i | 0 <= i < |u| ensures u[i] != ' ' {
      assert s[i] in s;
    }
  }

  /** Cleaning a cleaned sequence changes nothing. */
  lemma CleanIdempotent(s: string)
    ensures Clean(Clean(s)) == Clean(s)
  {
    var c := Clean(s);
    var t := RemoveSpaces(Text.Upper(s));
    var u := Text.Upper(c);
    // c is a prefix of an upper-cased text, so upper-casing it again changes nothing
    assert c == t[..|c|];
    forall i | 0 <= i < |c| ensures u[i] == c[i] {
      assert c[i] in t;
      UpperOfUpperChars(s, c[i]);
    }
    RemoveSpacesUpper(c);
    RemoveSpacesNoop(u);
  }

  /** Every character that survives cleaning is already upper-cased. */
  lemma UpperOfUpperChars(s: string, ch: char)
    requires ch in RemoveSpaces(Text.Upper(s))
    ensures Text.UpperChar(ch) == ch
  {
    var u := Text.Upper(s);
    RemoveSpacesChars(u, ch);
    var i :| 0 <= i < |u| && u[i] == ch;
    assert Text.UpperChar(Text.UpperChar(s[i])) == Text.UpperChar(s[i]);
  }

  /**
   * Cleaning removes only the space character: of a sequence that is short
   * enough, every other character survives, upper-cased (tabs and newlines
   * included).
   */
  lemma CleanKeeps(s: string, i: nat)
    requires i < |s| <= MaxResidues && s[i] != ' '
    ensures Text.UpperChar(s[i]) in Clean(s)
  {
    var u := Text.Upper(s);
    assert u[i] == Text.UpperChar(s[i]);
    RemoveSpacesChars(u, u[i]);
  }

  // ---------------------------------------------------------------------------
  // Health

  datatype ServingStatus = Unknown | Serving | NotServing

  /** `HealthServicer.Check`: the answer does not depend on the request or on anything else. */
  function HealthCheck<R>(request: R): (s: ServingStatus)
    ensures s == Serving
  {
    Serving
  }

  // ---------------------------------------------------------------------------
  // The cache service as the worker sees it

  /** An item of `response.tasks`. */
  datatype Task = Task(hash: string, sequence: string)

  class CacheStub {
    var leases: seq<GrpcService.LeaseRequest>
    /** Every SubmitBatch attempt, including those that raised. */
    var attempts: seq<GrpcService.BatchResult>
    const leaseReply: nat -> Option<seq<Task>>
    const rejects: set<nat>

    constructor (leaseReply: nat -> Option<seq<Task>>, rejects: set<nat>)
      ensures leases == [] && attempts == [] && this.leaseReply == leaseReply && this.rejects == rejects
    {
      leases := [];
      attempts := [];
      this.leaseReply := leaseReply;
      this.rejects := rejects;
    }

    /** `LeaseTasks`: None where the RPC raises. */
    method LeaseTasks(request: GrpcService.LeaseRequest) returns (tasks: Option<seq<Task>>)
      modifies this`leases
      ensures leases == old(leases) + [request]
      ensures tasks == leaseReply(|old(leases)|)
    {
      tasks := leaseReply(|leases|);
      leases := leases + [request];
    }

    /** `SubmitBatch`: false where the RPC raises. */
    method SubmitBatch(batch: GrpcService.BatchResult) returns (ok: bool)
      modifies this`attempts
      ensures attempts == old(attempts) + [batch]
      ensures ok <==> |old(attempts)| !in rejects
    {
      ok := |attempts| !in rejects;
      attempts := attempts + [batch];
    }
  }

  // ---------------------------------------------------------------------------
  // The poll step

  const DefaultModelId := "esm2_t33_650M_UR50D"

  const Confidence: real := 1.0

  /** The one-entry batch the worker submits for `t`. */
  function BatchFor(modelId: string, t: Task, json: string): (b: GrpcService.BatchResult)
    ensures b.modelId == modelId && |b.results| == 1
    ensures b.results[0] == GrpcService.ResultEntry(t.hash, json, Confidence)
  {
    GrpcService.BatchResult(modelId, [GrpcService.ResultEntry(t.hash, json, Confidence)])
  }

  /**
   * The SubmitBatch attempts for `tasks` when `n` attempts were made
   * before: one per task in order, until embedding a task raises (no
   * attempt for it) or an attempt raises (nothing after it).
   */
  function Attempts(modelId: string, embedJson: string -> Option<string>, rejects: set<nat>, tasks: seq<Task>, n: nat): seq<GrpcService.BatchResult>
    decreases |tasks|
  {
    if tasks == [] then []
    else match embedJson(Clean(tasks[0].sequence))
      case None => []
      case Some(json) =>
        [BatchFor(modelId, tasks[0], json)] + (if n in rejects then [] else Attempts(modelId, embedJson, rejects, tasks[1..], n + 1))
  }

  /** The lease the worker sends: at most one task, for its own model. */
  function LeaseFor(modelId: string): (r: GrpcService.LeaseRequest)
    ensures r.maxBatchSize == 1 && r.targetModelId == modelId
  {
    GrpcService.LeaseRequest(1, modelId)
  }

  class HelixWorker {
    const modelId: string
    const stub: CacheStub
    const embedJson: string -> Option<string>

    /** `modelIdEnv` is the MODEL_ID environment variable, if set. */
    constructor (modelIdEnv: Option<string>, stub: CacheStub, embedJson: string -> Option<string>)
      ensures modelId == (if modelIdEnv.Some? then modelIdEnv.value else DefaultModelId)
      ensures this.stub == stub && this.embedJson == embedJson
    {
      this.modelId := if modelIdEnv.Some? then modelIdEnv.value else DefaultModelId;
      this.stub := stub;
      this.embedJson := embedJson;
    }

    /** The attempts of the poll that sends lease number `k` when `n` attempts were made before. */
    function PollAttempts(k: nat, n: nat): seq<GrpcService.BatchResult> {
      match stub.leaseReply(k)
      case None => []
      case Some(tasks) => Attempts(modelId, embedJson, stub.rejects, tasks, n)
    }

    /**
     * The body of the `for task in response.tasks` loop: clean, embed,
     * submit. `go` is false where embedding or submitting raised.
     */
    method Process(task: Task) returns (go: bool)
      modifies stub`attempts
      ensures match embedJson(Clean(task.sequence))
        case None => !go && stub.attempts == old(stub.attempts)
        case Some(json) =>
          && stub.attempts == old(stub.attempts) + [BatchFor(modelId, task, json)]
          && (go <==> |old(stub.attempts)| !in stub.rejects)
    {
      var cleanSeq := Clean(task.sequence);
      var json := embedJson(cleanSeq);
      if json.None? {
        return false;
      }
      go := stub.SubmitBatch(BatchFor(modelId, task, json.value));
    }

    /**
     * `_poll_and_process`: one lease, then one SubmitBatch attempt per
     * leased task until something raises; the exception is logged, not
     * propagated.
     */
    method PollAndProcess()
      modifies stub
      ensures stub.leases == old(stub.leases) + [LeaseFor(modelId)]
      ensures stub.attempts == old(stub.attempts) + PollAttempts(|old(stub.leases)|, |old(stub.attempts)|)
    {
      ghost var n0 := |stub.attempts|;
      var response := stub.LeaseTasks(LeaseFor(modelId));
      if response.None? || response.value == [] {
        return;
      }
      var tasks := response.value;
      ghost var total := stub.attempts + Attempts(modelId, embedJson, stub.rejects, tasks, n0);
      assert tasks[0..] == tasks;
      var i := 0;
      while i < |tasks|
        invariant i <= |tasks|
        invariant stub.leases == old(stub.leases) + [LeaseFor(modelId)]
        invariant total == stub.attempts + Attempts(modelId, embedJson, stub.rejects, tasks[i..], |stub.attempts|)
      {
        ghost var before := stub.attempts;
        AttemptsAt(modelId, embedJson, stub.rejects, tasks, i, |before|);
        var go := Process(tasks[i]);
        if !go {
          return;
        }
        Assoc(before, [stub.attempts[|before|]], Attempts(modelId, embedJson, stub.rejects, tasks[i + 1..], |stub.attempts|));
        i := i + 1;
      }
    }

    /**
     * The attempt log after `polls` polls starting from lease number `k`
     * with the log `log`: each poll appends its own attempts.
     */
    function RunLog(log: seq<GrpcService.BatchResult>, k: nat, polls: nat): seq<GrpcService.BatchResult>
      decreases polls
    {
      if polls == 0 then log
      else RunLog(log + PollAttempts(k, |log|), k + 1, polls - 1)
    }

    lemma RunLogStep(log: seq<GrpcService.BatchResult>, log': seq<GrpcService.BatchResult>, k: nat, polls: nat)
      requires polls > 0 && log' == log + PollAttempts(k, |log|)
      ensures RunLog(log, k, polls) == RunLog(log', k + 1, polls - 1)
    {
    }

    /**
     * `run`'s `while True` loop, up to the KeyboardInterrupt that comes
     * after `polls` polls: every poll sends the same lease, and the attempts
     * are those of each poll in turn.
     */
    method Run(polls: nat)
      modifies stub
      ensures stub.leases == old(stub.leases) + Repeat(LeaseFor(modelId), polls)
      ensures stub.attempts == RunLog(old(stub.attempts), |old(stub.leases)|, polls)
    {
      var done := 0;
      while done < polls
        invariant done <= polls
        invariant stub.leases == old(stub.leases) + Repeat(LeaseFor(modelId), done)
        invariant RunLog(stub.attempts, |stub.leases|, polls - done) == RunLog(old(stub.attempts), |old(stub.leases)|, polls)
      {
        ghost var attempts, k := stub.attempts, |stub.leases|;
        PollAndProcess();
        RunLogStep(attempts, stub.attempts, k, polls - done);
        LeasesStep(old(stub.leases), LeaseFor(modelId), done);
        done := done + 1;
      }
    }
  }

  /** `n` copies of `x`. */
  function Repeat<T>(x: T, n: nat): (r: seq<T>)
    ensures |r| == n
  {
    if n == 0 then [] else [x] + Repeat(x, n - 1)
  }

  lemma LeasesStep<T>(s: seq<T>, x: T, n: nat)
    ensures s + Repeat(x, n) + [x] == s + Repeat(x, n + 1)
  {
    RepeatMore(x, n);
  }

  lemma {:induction false} RepeatMore<T>(x: T, n: nat)
    ensures Repeat(x, n + 1) == Repeat(x, n) + [x]
  {
    if n > 0 {
      RepeatMore(x, n - 1);
    }
  }

  lemma Assoc<T>(a: seq<T>, b: seq<T>, c: seq<T>)
    ensures a + b + c == a + (b + c)
  {
  }

  /** One unfolding of `Attempts` at position `i` of the leased tasks. */
  lemma AttemptsAt(modelId: string, embedJson: string -> Option<string>, rejects: set<nat>, tasks: seq<Task>, i: nat, n: nat)
    requires i < |tasks|
    ensures Attempts(modelId, embedJson, rejects, tasks[i..], n) ==
      match embedJson(Clean(tasks[i].sequence))
      case None => []
      case Some(json) => [BatchFor(modelId, tasks[i], json)] + (if n in rejects then [] else Attempts(modelId, embedJson, rejects, tasks[i + 1..], n + 1))
  {
    assert tasks[i..][1..] == tasks[i + 1..];
  }

  // ---------------------------------------------------------------------------
  // Properties of a poll

  /**
   * Attempt `i` is the one-entry batch of task `i`, under the worker's
   * model, with confidence 1.0; there is at most one attempt per task.
   */
  lemma {:induction false} AttemptsShape(modelId: string, embedJson: string -> Option<string>, rejects: set<nat>, tasks: seq<Task>, n: nat)
    ensures var a := Attempts(modelId, embedJson, rejects, tasks, n);
      && |a| <= |tasks|
      && forall i | 0 <= i < |a| ::
           embedJson(Clean(tasks[i].sequence)).Some?
           && a[i] == BatchFor(modelId, tasks[i], embedJson(Clean(tasks[i].sequence)).value)
    decreases |tasks|
  {
    if tasks != [] && embedJson(Clean(tasks[0].sequence)).Some? && n !in rejects {
      AttemptsShape(modelId, embedJson, rejects, tasks[1..], n + 1);
    }
  }

  /**
   * The attempts stop at the first rejected one: every attempt but the last
   * got through.
   */
  lemma {:induction false} AttemptsStopAtReject(modelId: string, embedJson: string -> Option<string>, rejects: set<nat>, tasks: seq<Task>, n: nat)
    ensures var a := Attempts(modelId, embedJson, rejects, tasks, n);
      forall k | n <= k < n + |a| - 1 :: k !in rejects
    decreases |tasks|
  {
    if tasks != [] && embedJson(Clean(tasks[0].sequence)).Some? && n !in rejects {
      AttemptsStopAtReject(modelId, embedJson, rejects, tasks[1..], n + 1);
    }
  }

  /** Every task embeds, and every attempt but the last gets through. */
  predicate NoRejection(embedJson: string -> Option<string>, rejects: set<nat>, tasks: seq<Task>, n: nat) {
    forall j | 0 <= j < |tasks| :: embedJson(Clean(tasks[j].sequence)).Some? && (j < |tasks| - 1 ==> n + j !in rejects)
  }

  /** A shorter list of tasks that is clear: the tail of a clear one. */
  lemma NoRejectionTail(embedJson: string -> Option<string>, rejects: set<nat>, tasks: seq<Task>, n: nat)
    requires tasks != [] && NoRejection(embedJson, rejects, tasks, n)
    ensures embedJson(Clean(tasks[0].sequence)).Some? && (|tasks| > 1 ==> n !in rejects)
    ensures NoRejection(embedJson, rejects, tasks[1..], n + 1)
  {
    assert embedJson(Clean(tasks[0].sequence)).Some?;
    var rest, m := tasks[1..], n + 1;
    forall j | 0 <= j < |rest|
      ensures embedJson(Clean(rest[j].sequence)).Some? && (j < |rest| - 1 ==> m + j !in rejects)
    {
      assert tasks[1..][j] == tasks[j + 1];
      assert embedJson(Clean(tasks[j + 1].sequence)).Some? && (j + 1 < |tasks| - 1 ==> n + (j + 1) !in rejects);
    }
  }

  lemma NoRejectionCons(embedJson: string -> Option<string>, rejects: set<nat>, tasks: seq<Task>, n: nat)
    requires tasks != [] && embedJson(Clean(tasks[0].sequence)).Some? && (|tasks| > 1 ==> n !in rejects)
    requires NoRejection(embedJson, rejects, tasks[1..], n + 1)
    ensures NoRejection(embedJson, rejects, tasks, n)
  {
    forall j | 0 <= j < |tasks|
      ensures embedJson(Clean(tasks[j].sequence)).Some? && (j < |tasks| - 1 ==> n + j !in rejects)
    {
      if j > 0 {
        assert tasks[j] == tasks[1..][j - 1];
      }
    }
  }

  /** All leased tasks are attempted exactly when nothing fails along the way. */
  lemma {:induction false} AttemptsAllIff(modelId: string, embedJson: string -> Option<string>, rejects: set<nat>, tasks: seq<Task>, n: nat)
    ensures |Attempts(modelId, embedJson, rejects, tasks, n)| == |tasks| <==> NoRejection(embedJson, rejects, tasks, n)
    decreases |tasks|
  {
    if tasks != [] {
      var rest := tasks[1..];
      AttemptsAllIff(modelId, embedJson, rejects, rest, n + 1);
      AttemptsShape(modelId, embedJson, rejects, rest, n + 1);
      if NoRejection(embedJson, rejects, tasks, n) {
        NoRejectionTail(embedJson, rejects, tasks, n);
      } else if embedJson(Clean(tasks[0].sequence)).Some? && (|tasks| > 1 ==> n !in rejects) && NoRejection(embedJson, rejects, rest, n + 1) {
        NoRejectionCons(embedJson, rejects, tasks, n);
      }
    }
  }
}
