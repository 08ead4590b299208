/** The coalescing indexer: the code that runs under its lock, and the bulk request it issues. */
module BatchIndexer {
  import opened Text

  /** One caller's queued request; `id` stands for the identity of its heap object. */
  datatype Op = Op(id: nat, docId: string, body: string, needsRefresh: bool)

  /** A batch taken out of the queue, to be sent as one bulk request. */
  datatype Claim = Claim(ops: seq<Op>, refresh: bool)

  /** `timer` is the generation whose callback is armed. */
  datatype Queue = Queue(pending: seq<Op>, timer: Option<nat>, generation: nat, needsRefresh: bool)

  predicate AnyRefresh(ops: seq<Op>)
  {
    exists i :: 0 <= i < |ops| && ops[i].needsRefresh
  }

  predicate Distinct(ops: seq<Op>)
  {
    forall i, j :: 0 <= i < j < |ops| ==> ops[i].id != ops[j].id
  }

  /** What holds whenever the lock is free. */
  predicate QueueOk(q: Queue, maxBatchSize: nat)
  {
    && |q.pending| < maxBatchSize
    && Distinct(q.pending)
    && (q.needsRefresh <==> AnyRefresh(q.pending))
    && (q.pending != [] ==> q.timer == Some(q.generation))
    && (q.timer.Some? ==> q.timer.value == q.generation)
  }

  predicate Queued(ops: seq<Op>, id: nat)
  {
    exists i :: 0 <= i < |ops| && ops[i].id == id
  }

  /** The queue without the request `id`, order kept. */
  function Without(ops: seq<Op>, id: nat): (r: seq<Op>)
    ensures !Queued(ops, id) ==> r == ops
    ensures |r| <= |ops|
  {
    if ops == [] then []
    else if ops[0].id == id then ops[1..]
    else
      assert Queued(ops[1..], id) ==> Queued(ops, id) by {
        if Queued(ops[1..], id) {
          var i :| 0 <= i < |ops[1..]| && ops[1..][i].id == id;
          assert ops[i + 1].id == id;
        }
      }
      [ops[0]] + Without(ops[1..], id)
  }

  // The three operations that run under the lock, as functions of the queue

  function Enqueued(q: Queue, maxBatchSize: nat, op: Op): (Queue, Option<Claim>)
  {
    var ops := q.pending + [op];
    var generation := if q.pending == [] then q.generation + 1 else q.generation;
    if |ops| >= maxBatchSize
    then (Queue([], None, generation, false), Some(Claim(ops, AnyRefresh(ops))))
    else (Queue(ops, Some(generation), generation, AnyRefresh(ops)), None)
  }

  function Withdrawn(q: Queue, id: nat): Queue
  {
    var ops := Without(q.pending, id);
    q.(pending := ops, needsRefresh := AnyRefresh(ops))
  }

  function Fired(q: Queue, gen: nat): (Queue, Claim)
  {
    if gen != q.generation then (q, Claim([], false))
    else (Queue([], None, q.generation, false), Claim(q.pending, AnyRefresh(q.pending)))
  }

  lemma {:induction false} WithoutAt(ops: seq<Op>, k: nat)
    requires Distinct(ops) && k < |ops|
    ensures Without(ops, ops[k].id) == ops[..k] + ops[k + 1..]
  {
    if k > 0 {
      WithoutAt(ops[1..], k - 1);
      assert ops[..k] + ops[k + 1..] == [ops[0]] + (ops[1..][..k - 1] + ops[1..][k..]);
    }
  }

  lemma RemovalKeepsDistinct(ops: seq<Op>, k: nat)
    requires Distinct(ops) && k < |ops|
    ensures Distinct(ops[..k] + ops[k + 1..])
  {
    var r := ops[..k] + ops[k + 1..];
    forall i, j | 0 <= i < j < |r| ensures r[i].id != r[j].id {
      assert r[i] == (if i < k then ops[i] else ops[i + 1]);
      assert r[j] == (if j < k then ops[j] else ops[j + 1]);
    }
  }

  method SomeoneWaitsForRefresh(ops: seq<Op>) returns (found: bool)
    ensures found <==> AnyRefresh(ops)
  {
    var k := 0;
    while k < |ops|
      invariant 0 <= k <= |ops|
      invariant forall j :: 0 <= j < k ==> !ops[j].needsRefresh
    {
      if ops[k].needsRefresh {
        return true;
      }
      k := k + 1;
    }
    return false;
  }

  class Indexer {
    const maxBatchSize: nat
    var pending: seq<Op>
    var timer: Option<nat>
    var generation: nat
    var needsRefresh: bool

    constructor (maxBatchSize: nat)
      requires maxBatchSize > 0
      ensures this.maxBatchSize == maxBatchSize && Value() == Queue([], None, 0, false) && Valid()
    {
      this.maxBatchSize := maxBatchSize;
      pending, timer, generation, needsRefresh := [], None, 0, false;
    }

    ghost function Value(): Queue
      reads this
    {
      Queue(pending, timer, generation, needsRefresh)
    }

    ghost predicate Valid()
      reads this
    {
      QueueOk(Value(), maxBatchSize)
    }

    /** Queues `op`. A first request arms the timer of a fresh generation; a full batch is claimed
        under the same lock, whole and in order. */
    method Enqueue(op: Op) returns (claim: Option<Claim>)
      requires Valid() && !Queued(pending, op.id)
      modifies this
      ensures Valid()
      ensures (Value(), claim) == Enqueued(old(Value()), maxBatchSize, op)
    {
      pending := pending + [op];
      if op.needsRefresh {
        needsRefresh := true;
      }
      assert needsRefresh <==> AnyRefresh(pending) by {
        assert forall i :: 0 <= i < |old(pending)| ==> pending[i] == old(pending)[i];
        assert pending[|pending| - 1] == op;
      }
      if |pending| == 1 {
        generation := generation + 1;
        timer := Some(generation);
      }
      claim := None;
      if |pending| >= maxBatchSize {
        var batch := DrainLocked();
        claim := Some(batch);
      }
    }

    method DrainLocked() returns (claim: Claim)
      modifies this
      ensures claim == Claim(old(pending), old(needsRefresh))
      ensures Value() == Queue([], None, old(generation), false)
    {
      timer := None;
      claim := Claim(pending, needsRefresh);
      pending := [];
      needsRefresh := false;
    }

    /** Withdraws `op` if no flush has claimed it, and recomputes the refresh flag from the rest. */
    method RemoveIfPending(op: Op) returns (removed: bool)
      requires Valid()
      modifies this
      ensures Valid()
      ensures removed <==> Queued(old(pending), op.id)
      ensures Value() == Withdrawn(old(Value()), op.id)
    {
      var i := 0;
      while i < |pending|
        invariant 0 <= i <= |pending|
        invariant forall j :: 0 <= j < i ==> pending[j].id != op.id
        invariant Value() == old(Value())
      {
        if pending[i].id == op.id {
          WithoutAt(pending, i);
          RemovalKeepsDistinct(pending, i);
          pending := pending[..i] + pending[i + 1..];
          needsRefresh := SomeoneWaitsForRefresh(pending);
          return true;
        }
        i := i + 1;
      }
      return false;
    }

    /** The timer callback of generation `gen`: a stale one must leave a later batch alone. */
    method Flush(gen: nat) returns (claim: Claim)
      requires Valid()
      modifies this
      ensures Valid()
      ensures (Value(), claim) == Fired(old(Value()), gen)
    {
      if gen != generation {
        return Claim([], false);
      }
      claim := DrainLocked();
    }
  }

  // ---------------------------------------------------------------------------
  // The bulk request
  // ---------------------------------------------------------------------------

  datatype Outcome = Wrote | CtxError | ItemFailed | RequestFailed

  /** A bulk answer: no usable response, or the error flag with one status per item. */
  datatype Answer = NoAnswer | Items(errors: bool, statuses: seq<int>)

  /** Result `i` of a request, whatever the other results are. */
  function ResultAt(answer: Answer, i: nat): Outcome
  {
    match answer
    case NoAnswer => RequestFailed
    case Items(errors, statuses) =>
      if i >= |statuses| || (errors && statuses[i] >= 400) then ItemFailed else Wrote
  }

  /** Fills one slot per operation; a response of another length never reads as success. */
  method BulkIndex(ops: seq<Op>, answer: Answer) returns (itemErrors: seq<Outcome>, failed: bool)
    ensures failed <==> ops != [] && answer.NoAnswer?
    ensures !failed ==> |itemErrors| == |ops| && forall i :: 0 <= i < |ops| ==> itemErrors[i] == ResultAt(answer, i)
  {
    if ops == [] {
      return [], false;
    }
    if answer.NoAnswer? {
      return [], true;
    }
    var slots := new Outcome[|ops|](_ => Wrote);
    if answer.errors {
      var i := 0;
      while i < |answer.statuses| && i < slots.Length
        invariant 0 <= i <= |answer.statuses| && i <= slots.Length
        invariant forall j :: 0 <= j < i ==> slots[j] == (if answer.statuses[j] >= 400 then ItemFailed else Wrote)
        invariant forall j :: i <= j < slots.Length ==> slots[j] == Wrote
      {
        if answer.statuses[i] >= 400 {
          slots[i] := ItemFailed;
        }
        i := i + 1;
      }
    }
    if |answer.statuses| != |ops| {
      var i := |answer.statuses|;
      while i < slots.Length
        invariant |answer.statuses| <= i
        invariant forall j :: 0 <= j < slots.Length && j < |answer.statuses| ==> slots[j] == ResultAt(answer, j)
        invariant forall j :: |answer.statuses| <= j < i && j < slots.Length ==> slots[j] == ItemFailed
      {
        slots[i] := ItemFailed;
        i := i + 1;
      }
    }
    return slots[..], false;
  }

  /** One result per claimed request, in queue order. */
  method FlushBatch(claim: Claim, answer: Answer) returns (results: seq<Outcome>)
    ensures |results| == |claim.ops| && forall i :: 0 <= i < |results| ==> results[i] == ResultAt(answer, i)
  {
    results := [];
    if claim.ops == [] {
      return;
    }
    var itemErrors, failed := BulkIndex(claim.ops, answer);
    var i := 0;
    while i < |claim.ops|
      invariant 0 <= i <= |claim.ops| && |results| == i
      invariant forall j :: 0 <= j < i ==> results[j] == ResultAt(answer, j)
    {
      if failed {
        results := results + [RequestFailed];
      } else {
        results := results + [if i < |itemErrors| then itemErrors[i] else ItemFailed];
      }
      i := i + 1;
    }
  }
}
