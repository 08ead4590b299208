/** Every interleaving of callers, cancellations, late timers and bulk requests of the coalescing
    indexer, and its agreement with indexing one document at a time. */
module BatchRuns {
  import opened Text
  import opened BatchIndexer

  datatype Status = Waiting | Returned(outcome: Outcome, at: nat)

  /** `generation` is that of the queue right after the call. */
  datatype Caller = Caller(op: Op, calledAt: nat, generation: nat, status: Status)

  /** How far a claimed batch has come. `written` says of each item the index has dealt with whether it
      was written; `sent` counts the results already handed to their callers. */
  datatype Progress = Progress(answer: Option<Answer>, written: map<nat, bool>, sent: nat)

  const UNSENT := Progress(None, map[], 0)

  datatype Entry = Entry(op: Op, at: nat)

  datatype System = System(
    queue: Queue,
    callbacks: set<nat>,
    claims: seq<Claim>,
    progress: seq<Progress>,
    callers: map<nat, Caller>,
    mailbox: map<nat, Outcome>,
    index: map<string, string>,
    log: seq<Entry>,
    clock: nat)

  datatype Act =
    | Call(op: Op)
    | CallWithDeadContext(op: Op)
    | Cancel(id: nat)
    | Fire(gen: nat)
    | Vanish(gen: nat)
    | Execute(flight: nat, item: nat, ok: bool)
    | Respond(flight: nat, answer: Answer)
    | HandOver(flight: nat)
    | Take(id: nat)

  /** The index reports truthfully: it has dealt with every item, below 400 means written, 400 and above
      means not written, and the error flag is raised when some item failed. */
  ghost predicate Truthful(answer: Answer, written: map<nat, bool>, items: nat)
  {
    answer.Items? ==>
      && (forall i: nat :: i < items ==> i in written)
      && (forall i :: 0 <= i < |answer.statuses| && i in written ==> (answer.statuses[i] < 400 <==> written[i]))
      && (!answer.errors ==> forall i :: 0 <= i < |answer.statuses| ==> answer.statuses[i] < 400)
  }

  function Launch(s: System, claim: Claim): System
  {
    if claim.ops == [] then s else s.(claims := s.claims + [claim], progress := s.progress + [UNSENT])
  }

  /** Direct indexing: one document at a time, in log order. */
  function IndexedDirectly(index: map<string, string>, log: seq<Entry>): map<string, string>
  {
    if log == [] then index
    else
      var n := |log| - 1;
      IndexedDirectly(index, log[..n])[log[n].op.docId := log[n].op.body]
  }

  predicate Valid(s: System, f: nat)
  {
    f < |s.claims| && f < |s.progress|
  }

  /** Items of all requests interleave freely, also after a request was given up as unanswered. */
  predicate CanExecute(s: System, f: nat, i: nat)
  {
    Valid(s, f) && i < |s.claims[f].ops| && i !in s.progress[f].written
  }

  ghost function Step(s: System, max: nat, a: Act): System
  {
    Apply(s, max, a).(clock := s.clock + 1)
  }

  ghost function Apply(s: System, max: nat, a: Act): System
  {
    match a
    case Call(op) =>
      if op.id in s.callers then s
      else
        var (queue, claim) := Enqueued(s.queue, max, op);
        var s' := s.(queue := queue,
                     callbacks := if s.queue.pending == [] then s.callbacks + {queue.generation} else s.callbacks,
                     callers := s.callers[op.id := Caller(op, s.clock, queue.generation, Waiting)]);
        if claim.Some? then Launch(s', claim.value) else s'
    case CallWithDeadContext(op) =>
      if op.id in s.callers then s
      else
        var c := Caller(op, s.clock, s.queue.generation, Returned(CtxError, s.clock));
        s.(callers := s.callers[op.id := c])
    case Cancel(id) =>
      if id in s.callers && s.callers[id].status.Waiting? && Queued(s.queue.pending, id)
      then s.(queue := Withdrawn(s.queue, id),
              callers := s.callers[id := s.callers[id].(status := Returned(CtxError, s.clock))])
      else s
    case Fire(gen) =>
      if gen !in s.callbacks then s
      else
        var (queue, claim) := Fired(s.queue, gen);
        Launch(s.(queue := queue, callbacks := s.callbacks - {gen}), claim)
    case Vanish(gen) =>
      if gen in s.callbacks && s.queue.timer != Some(gen) then s.(callbacks := s.callbacks - {gen}) else s
    case Execute(f, i, ok) =>
      if !CanExecute(s, f, i) then s
      else
        var op := s.claims[f].ops[i];
        var s' := s.(progress := s.progress[f := s.progress[f].(written := s.progress[f].written[i := ok])]);
        if ok then s'.(index := s.index[op.docId := op.body], log := s.log + [Entry(op, s.clock)]) else s'
    case Respond(f, answer) =>
      if Valid(s, f) && s.progress[f].answer.None? && Truthful(answer, s.progress[f].written, |s.claims[f].ops|)
      then s.(progress := s.progress[f := s.progress[f].(answer := Some(answer))]) else s
    case HandOver(f) =>
      if CanHandOver(s, f)
      then
        var n := s.progress[f].sent;
        s.(progress := s.progress[f := s.progress[f].(sent := n + 1)],
           mailbox := s.mailbox[s.claims[f].ops[n].id := ResultAt(s.progress[f].answer.value, n)])
      else s
    case Take(id) =>
      if id in s.callers && s.callers[id].status.Waiting? && id in s.mailbox
      then s.(callers := s.callers[id := s.callers[id].(status := Returned(s.mailbox[id], s.clock))])
      else s
  }

  ghost function Run(max: nat, acts: seq<Act>): System
  {
    if acts == [] then System(Queue([], None, 0, false), {}, [], [], map[], map[], map[], [], 0)
    else Step(Run(max, acts[..|acts| - 1]), max, acts[|acts| - 1])
  }

  // ---------------------------------------------------------------------------
  // Queue and timers
  // ---------------------------------------------------------------------------

  /** A waiting batch always has a live callback of its own generation. */
  ghost predicate TimersInv(s: System, max: nat)
  {
    && QueueOk(s.queue, max)
    && (s.queue.timer.Some? ==> s.queue.timer.value in s.callbacks)
    && (forall g :: g in s.callbacks ==> g <= s.queue.generation)
  }

  lemma EnqueueKeepsQueue(q: Queue, max: nat, op: Op)
    requires QueueOk(q, max) && !Queued(q.pending, op.id)
    ensures QueueOk(Enqueued(q, max, op).0, max)
    ensures Distinct(q.pending + [op])
  {
  }

  lemma RemovalMembers(ops: seq<Op>, k: nat)
    requires Distinct(ops) && k < |ops|
    ensures forall o :: o in ops[..k] + ops[k + 1..] <==> o in ops && o.id != ops[k].id
  {
    forall o ensures o in ops[..k] + ops[k + 1..] <==> o in ops && o.id != ops[k].id {
      if o in ops && o.id != ops[k].id {
        RemainingStays(ops, k, o);
      }
      if o in ops[..k] + ops[k + 1..] {
        RemainingWasThere(ops, k, o);
      }
    }
  }

  lemma RemainingStays(ops: seq<Op>, k: nat, o: Op)
    requires k < |ops| && o in ops && o.id != ops[k].id
    ensures o in ops[..k] + ops[k + 1..]
  {
    var i :| 0 <= i < |ops| && ops[i] == o;
    assert (ops[..k] + ops[k + 1..])[if i < k then i else i - 1] == o;
  }

  lemma RemainingWasThere(ops: seq<Op>, k: nat, o: Op)
    requires Distinct(ops) && k < |ops| && o in ops[..k] + ops[k + 1..]
    ensures o in ops && o.id != ops[k].id
  {
    var i :| 0 <= i < |ops| - 1 && (ops[..k] + ops[k + 1..])[i] == o;
    assert o == if i < k then ops[i] else ops[i + 1];
  }

  lemma WithdrawKeepsQueue(q: Queue, max: nat, id: nat)
    requires QueueOk(q, max) && Queued(q.pending, id)
    ensures QueueOk(Withdrawn(q, id), max)
    ensures forall o :: o in Withdrawn(q, id).pending <==> o in q.pending && o.id != id
  {
    var k :| 0 <= k < |q.pending| && q.pending[k].id == id;
    WithoutAt(q.pending, k);
    RemovalKeepsDistinct(q.pending, k);
    RemovalMembers(q.pending, k);
  }

  lemma StepKeepsTimers(s: System, max: nat, a: Act)
    requires max > 0 && TimersInv(s, max) && (forall o :: o in s.queue.pending ==> o.id in s.callers)
    ensures TimersInv(Step(s, max, a), max)
  {
    match a
    case Call(op) => CallKeepsTimers(s, max, op);
    case Cancel(id) =>
      if Queued(s.queue.pending, id) {
        WithdrawKeepsQueue(s.queue, max, id);
      }
    case Fire(gen) => FireKeepsTimers(s, max, gen);
    case _ =>
  }

  lemma CallKeepsTimers(s: System, max: nat, op: Op)
    requires max > 0 && TimersInv(s, max) && (forall o :: o in s.queue.pending ==> o.id in s.callers)
    ensures TimersInv(Step(s, max, Call(op)), max)
  {
    if op.id !in s.callers {
      EnqueueKeepsQueue(s.queue, max, op);
    }
  }

  lemma FireKeepsTimers(s: System, max: nat, gen: nat)
    requires max > 0 && TimersInv(s, max)
    ensures TimersInv(Step(s, max, Fire(gen)), max)
  {
  }

  // ---------------------------------------------------------------------------
  // Where each request is
  // ---------------------------------------------------------------------------

  predicate Holds(claims: seq<Claim>, f: nat, i: nat)
  {
    f < |claims| && i < |claims[f].ops|
  }

  function OpAt(claims: seq<Claim>, f: nat, i: nat): Op
    requires Holds(claims, f, i)
  {
    claims[f].ops[i]
  }

  ghost predicate InFlight(claims: seq<Claim>, id: nat)
  {
    exists f: nat, i: nat :: Holds(claims, f, i) && OpAt(claims, f, i).id == id
  }

  predicate Known(callers: map<nat, Caller>, op: Op)
  {
    op.id in callers && callers[op.id].op == op
  }

  predicate Abandoned(c: Caller)
  {
    c.status.Returned? && c.status.outcome == CtxError
  }

  ghost predicate QueuedInv(pending: seq<Op>, claims: seq<Claim>, callers: map<nat, Caller>)
  {
    forall o :: o in pending ==> Known(callers, o) && callers[o.id].status.Waiting? && !InFlight(claims, o.id)
  }

  ghost predicate ClaimedInv(claims: seq<Claim>, callers: map<nat, Caller>)
  {
    forall f: nat, i: nat :: Holds(claims, f, i) ==>
      Known(callers, OpAt(claims, f, i)) && !Abandoned(callers[OpAt(claims, f, i).id])
  }

  ghost predicate OneRequestEach(claims: seq<Claim>)
  {
    forall f: nat, i: nat, g: nat, j: nat ::
      Holds(claims, f, i) && Holds(claims, g, j) && OpAt(claims, f, i).id == OpAt(claims, g, j).id ==> f == g && i == j
  }

  ghost predicate NobodyLost(pending: seq<Op>, claims: seq<Claim>, callers: map<nat, Caller>)
  {
    forall id :: id in callers ==>
      callers[id].op.id == id && (Queued(pending, id) || InFlight(claims, id) || Abandoned(callers[id]))
  }

  /** Every request is queued, in exactly one position of exactly one claimed batch, or was
      abandoned with a context error. */
  ghost predicate PlacesInv(s: System)
  {
    && QueuedInv(s.queue.pending, s.claims, s.callers)
    && ClaimedInv(s.claims, s.callers)
    && OneRequestEach(s.claims)
    && NobodyLost(s.queue.pending, s.claims, s.callers)
  }

  lemma GrownClaims(claims: seq<Claim>, c: Claim)
    ensures forall f: nat, i: nat ::
        Holds(claims, f, i) ==> Holds(claims + [c], f, i) && OpAt(claims + [c], f, i) == OpAt(claims, f, i)
    ensures forall i: nat ::
        i < |c.ops| ==> Holds(claims + [c], |claims|, i) && OpAt(claims + [c], |claims|, i) == c.ops[i]
    ensures forall f: nat, i: nat :: Holds(claims + [c], f, i) ==>
              (Holds(claims, f, i) && OpAt(claims + [c], f, i) == OpAt(claims, f, i)) || (f == |claims| && i < |c.ops|)
    ensures forall id :: InFlight(claims + [c], id) <==> InFlight(claims, id) || Queued(c.ops, id)
  {
    forall id | InFlight(claims, id) || Queued(c.ops, id) ensures InFlight(claims + [c], id) {
      if InFlight(claims, id) {
        var f: nat, i: nat :| Holds(claims, f, i) && OpAt(claims, f, i).id == id;
        assert Holds(claims + [c], f, i) && OpAt(claims + [c], f, i).id == id;
      } else {
        var i: nat :| i < |c.ops| && c.ops[i].id == id;
        assert Holds(claims + [c], |claims|, i) && OpAt(claims + [c], |claims|, i).id == id;
      }
    }
    forall id | InFlight(claims + [c], id) ensures InFlight(claims, id) || Queued(c.ops, id) {
      var f: nat, i: nat :| Holds(claims + [c], f, i) && OpAt(claims + [c], f, i).id == id;
      if f < |claims| {
        assert Holds(claims, f, i) && OpAt(claims, f, i).id == id;
      } else {
        assert c.ops[i].id == id;
      }
    }
  }

  lemma LaunchIsUnique(claims: seq<Claim>, c: Claim)
    requires OneRequestEach(claims) && Distinct(c.ops)
    requires forall o :: o in c.ops ==> !InFlight(claims, o.id)
    ensures OneRequestEach(claims + [c])
  {
    GrownClaims(claims, c);
    forall f: nat, i: nat, j: nat | Holds(claims, f, i) && j < |c.ops| ensures OpAt(claims, f, i).id != c.ops[j].id {
      assert c.ops[j] in c.ops;
    }
  }

  /** Moving a whole queue into a new batch. */
  lemma LaunchKeepsPlaces(claims: seq<Claim>, c: Claim, callers: map<nat, Caller>)
    requires QueuedInv(c.ops, claims, callers) && ClaimedInv(claims, callers) && OneRequestEach(claims)
    requires NobodyLost(c.ops, claims, callers) && Distinct(c.ops)
    ensures ClaimedInv(claims + [c], callers) && OneRequestEach(claims + [c]) && NobodyLost([], claims + [c], callers)
  {
    GrownClaims(claims, c);
    LaunchIsUnique(claims, c);
    forall f: nat, i: nat | Holds(claims + [c], f, i)
      ensures Known(callers, OpAt(claims + [c], f, i)) && !Abandoned(callers[OpAt(claims + [c], f, i).id])
    {
      if f == |claims| {
        assert c.ops[i] in c.ops;
      }
    }
  }

  /** Queueing a request nobody has seen before. */
  lemma ArrivalKeepsPlaces(pending: seq<Op>, claims: seq<Claim>, callers: map<nat, Caller>, c: Caller)
    requires QueuedInv(pending, claims, callers) && ClaimedInv(claims, callers) && NobodyLost(pending, claims, callers)
    requires c.op.id !in callers && c.status.Waiting?
    ensures var callers', pending' := callers[c.op.id := c], pending + [c.op];
            QueuedInv(pending', claims, callers') && ClaimedInv(claims, callers') &&
              NobodyLost(pending', claims, callers')
    ensures !Queued(pending, c.op.id)
  {
    var callers', pending' := callers[c.op.id := c], pending + [c.op];
    forall f: nat, i: nat | Holds(claims, f, i) ensures OpAt(claims, f, i).id != c.op.id {
      assert Known(callers, OpAt(claims, f, i));
    }
    forall i | 0 <= i < |pending| ensures pending[i].id != c.op.id {
      assert pending[i] in pending;
    }
    forall o | o in pending' ensures Known(callers', o) && callers'[o.id].status.Waiting? && !InFlight(claims, o.id) {
      assert o in pending || o == c.op;
    }
    forall id | id in callers' ensures Queued(pending', id) || InFlight(claims, id) || Abandoned(callers'[id]) {
      if id == c.op.id {
        assert pending'[|pending|].id == id;
      } else if Queued(pending, id) {
        var i :| 0 <= i < |pending| && pending[i].id == id;
        assert pending'[i].id == id;
      }
    }
  }

  lemma CallKeepsPlaces(s: System, max: nat, op: Op)
    requires max > 0 && TimersInv(s, max) && PlacesInv(s) && op.id !in s.callers
    ensures PlacesInv(Step(s, max, Call(op)))
  {
    var c := Caller(op, s.clock, Enqueued(s.queue, max, op).0.generation, Waiting);
    var ops := s.queue.pending + [op];
    ArrivalKeepsPlaces(s.queue.pending, s.claims, s.callers, c);
    if |ops| >= max {
      EnqueueKeepsQueue(s.queue, max, op);
      LaunchKeepsPlaces(s.claims, Claim(ops, AnyRefresh(ops)), s.callers[op.id := c]);
    }
  }

  lemma WithdrawalKeepsPlaces(q: Queue, max: nat, claims: seq<Claim>, callers: map<nat, Caller>, id: nat, c: Caller)
    requires QueueOk(q, max) && Queued(q.pending, id) && id in callers && c.op == callers[id].op && Abandoned(c)
    requires QueuedInv(q.pending, claims, callers) && ClaimedInv(claims, callers) &&
        NobodyLost(q.pending, claims, callers)
    ensures QueuedInv(Withdrawn(q, id).pending, claims, callers[id := c])
    ensures ClaimedInv(claims, callers[id := c])
    ensures NobodyLost(Withdrawn(q, id).pending, claims, callers[id := c])
  {
    WithdrawKeepsQueue(q, max, id);
    var rest := Withdrawn(q, id).pending;
    var k :| 0 <= k < |q.pending| && q.pending[k].id == id;
    assert q.pending[k] in q.pending && !InFlight(claims, id);
    forall f: nat, i: nat | Holds(claims, f, i) ensures OpAt(claims, f, i).id != id { }
    forall o | o in callers && o != id && Queued(q.pending, o) ensures Queued(rest, o) {
      var i :| 0 <= i < |q.pending| && q.pending[i].id == o;
      assert q.pending[i] in rest;
    }
  }

  lemma CancelKeepsPlaces(s: System, max: nat, id: nat)
    requires TimersInv(s, max) && PlacesInv(s)
    ensures PlacesInv(Step(s, max, Cancel(id)))
  {
    if id in s.callers && s.callers[id].status.Waiting? && Queued(s.queue.pending, id) {
      WithdrawalKeepsPlaces(s.queue, max, s.claims, s.callers, id,
        s.callers[id].(status := Returned(CtxError, s.clock)));
    }
  }

  lemma FireKeepsPlaces(s: System, max: nat, gen: nat)
    requires TimersInv(s, max) && PlacesInv(s)
    ensures PlacesInv(Step(s, max, Fire(gen)))
  {
    if gen in s.callbacks && gen == s.queue.generation && s.queue.pending != [] {
      LaunchKeepsPlaces(s.claims, Claim(s.queue.pending, AnyRefresh(s.queue.pending)), s.callers);
    }
  }

  lemma StepKeepsPlaces(s: System, max: nat, a: Act)
    requires max > 0 && TimersInv(s, max) && PlacesInv(s) && ResultsInv(s)
    ensures PlacesInv(Step(s, max, a))
  {
    match a
    case Call(op) =>
      if op.id !in s.callers { CallKeepsPlaces(s, max, op); }
    case Cancel(id) => CancelKeepsPlaces(s, max, id);
    case Fire(gen) => FireKeepsPlaces(s, max, gen);
    case CallWithDeadContext(op) => DeadCallKeepsPlaces(s, max, op);
    case Take(id) => TakeKeepsPlaces(s, max, id);
    case _ =>
  }

  lemma DeadCallKeepsPlaces(s: System, max: nat, op: Op)
    requires PlacesInv(s)
    ensures PlacesInv(Step(s, max, CallWithDeadContext(op)))
  {
    if op.id !in s.callers {
      forall f: nat, i: nat | Holds(s.claims, f, i) ensures OpAt(s.claims, f, i).id != op.id {
        assert Known(s.callers, OpAt(s.claims, f, i));
      }
    }
  }

  // ---------------------------------------------------------------------------
  // Results
  // ---------------------------------------------------------------------------

  ghost predicate FlightOk(c: Claim, x: Progress, max: nat)
  {
    && 0 < |c.ops| <= max
    && (c.refresh <==> AnyRefresh(c.ops))
    && x.sent <= |c.ops|
    && (x.answer.None? ==> x.sent == 0)
    && (x.answer.Some? ==> Truthful(x.answer.value, x.written, |c.ops|))
    && (forall i :: i in x.written ==> i < |c.ops|)
  }

  ghost predicate FlightsInv(s: System, max: nat)
  {
    && |s.claims| == |s.progress|
    && forall f :: 0 <= f < |s.claims| ==> FlightOk(s.claims[f], s.progress[f], max)
  }

  lemma StepKeepsFlights(s: System, max: nat, a: Act)
    requires max > 0 && TimersInv(s, max) && FlightsInv(s, max)
    ensures FlightsInv(Step(s, max, a), max)
  {
    match a
    case Call(op) => CallKeepsFlights(s, max, op);
    case Fire(gen) => FireKeepsFlights(s, max, gen);
    case Execute(f, i, ok) => ExecuteKeepsFlights(s, max, f, i, ok);
    case Respond(f, answer) => RespondKeepsFlights(s, max, f, answer);
    case HandOver(f) => HandOverKeepsFlights(s, max, f);
    case _ => OthersKeepProgress(s, max, a);
  }

  lemma CallKeepsFlights(s: System, max: nat, op: Op)
    requires max > 0 && TimersInv(s, max) && FlightsInv(s, max)
    ensures FlightsInv(Step(s, max, Call(op)), max)
  {
    var ops := s.queue.pending + [op];
    LaunchKeepsFlights(s.claims, s.progress, Claim(ops, AnyRefresh(ops)), max);
  }

  lemma FireKeepsFlights(s: System, max: nat, gen: nat)
    requires TimersInv(s, max) && FlightsInv(s, max)
    ensures FlightsInv(Step(s, max, Fire(gen)), max)
  {
    if s.queue.pending != [] {
      LaunchKeepsFlights(s.claims, s.progress, Claim(s.queue.pending, AnyRefresh(s.queue.pending)), max);
    }
  }

  lemma OneFlightChanges(s: System, t: System, max: nat, f: nat, x: Progress)
    requires FlightsInv(s, max) && f < |s.claims| && FlightOk(s.claims[f], x, max)
    requires t.claims == s.claims && t.progress == s.progress[f := x]
    ensures FlightsInv(t, max)
  {
  }

  lemma ExecuteKeepsFlights(s: System, max: nat, f: nat, i: nat, ok: bool)
    requires FlightsInv(s, max)
    ensures FlightsInv(Step(s, max, Execute(f, i, ok)), max)
  {
    if CanExecute(s, f, i) {
      var x := s.progress[f];
      assert FlightOk(s.claims[f], x, max);
      OneFlightChanges(s, Step(s, max, Execute(f, i, ok)), max, f, x.(written := x.written[i := ok]));
    }
  }

  lemma RespondKeepsFlights(s: System, max: nat, f: nat, answer: Answer)
    requires FlightsInv(s, max)
    ensures FlightsInv(Step(s, max, Respond(f, answer)), max)
  {
    if Valid(s, f) && s.progress[f].answer.None? && Truthful(answer, s.progress[f].written, |s.claims[f].ops|) {
      assert FlightOk(s.claims[f], s.progress[f], max);
      OneFlightChanges(s, Step(s, max, Respond(f, answer)), max, f, s.progress[f].(answer := Some(answer)));
    }
  }

  lemma HandOverKeepsFlights(s: System, max: nat, f: nat)
    requires FlightsInv(s, max)
    ensures FlightsInv(Step(s, max, HandOver(f)), max)
  {
    if CanHandOver(s, f) {
      assert FlightOk(s.claims[f], s.progress[f], max);
      OneFlightChanges(s, Step(s, max, HandOver(f)), max, f, s.progress[f].(sent := s.progress[f].sent + 1));
    }
  }

  lemma LaunchKeepsFlights(claims: seq<Claim>, progress: seq<Progress>, claim: Claim, max: nat)
    requires |claims| == |progress| && |claim.ops| <= max && (claim.refresh <==> AnyRefresh(claim.ops)) &&
        claim.ops != []
    requires forall f :: 0 <= f < |claims| ==> FlightOk(claims[f], progress[f], max)
    ensures forall f :: 0 <= f < |claims| + 1 ==>
      FlightOk((claims + [claim])[f], (progress + [UNSENT])[f], max)
  {
  }

  predicate Sent(s: System, f: nat, i: nat)
  {
    Valid(s, f) && Holds(s.claims, f, i) && s.progress[f].answer.Some? && i < s.progress[f].sent
  }

  /** The result of item `i` of batch `f` has gone to request `id`. */
  predicate Carried(s: System, f: nat, i: nat, id: nat, r: Outcome)
  {
    Sent(s, f, i) && OpAt(s.claims, f, i).id == id && r == ResultAt(s.progress[f].answer.value, i)
  }

  ghost predicate MailboxInv(s: System)
  {
    forall id :: id in s.mailbox ==> exists f: nat, i: nat :: Carried(s, f, i, id, s.mailbox[id])
  }

  /** A mailbox holds the result of its owner's own item, and a caller returns what its mailbox held. */
  ghost predicate ResultsInv(s: System)
  {
    && MailboxInv(s)
    && (forall id :: id in s.callers && s.callers[id].status.Returned? && !Abandoned(s.callers[id]) ==>
          id in s.mailbox && s.mailbox[id] == s.callers[id].status.outcome)
  }

  lemma TakeKeepsPlaces(s: System, max: nat, id: nat)
    requires PlacesInv(s) && ResultsInv(s)
    ensures PlacesInv(Step(s, max, Take(id)))
  {
    if id in s.callers && s.callers[id].status.Waiting? && id in s.mailbox {
      var f: nat, i: nat :| Carried(s, f, i, id, s.mailbox[id]);
      assert Holds(s.claims, f, i) && OpAt(s.claims, f, i).id == id;
      assert s.mailbox[id] != CtxError;
      assert InFlight(s.claims, id);
    }
  }

  lemma CarriedStays(s: System, max: nat, a: Act, f: nat, i: nat, id: nat, r: Outcome)
    requires Carried(s, f, i, id, r)
    ensures Carried(Step(s, max, a), f, i, id, r)
  {
    ProgressGrows(s, max, a, f);
  }

  /** `y` is as far as `x` or farther. */
  predicate AtLeastAsFar(x: Progress, y: Progress)
  {
    && (x.answer.Some? ==> y.answer == x.answer) && x.sent <= y.sent
    && forall i :: i in x.written ==> i in y.written && y.written[i] == x.written[i]
  }

  lemma ProgressGrows(s: System, max: nat, a: Act, f: nat)
    requires Valid(s, f)
    ensures var t := Step(s, max, a);
            Valid(t, f) && t.claims[f] == s.claims[f] && AtLeastAsFar(s.progress[f], t.progress[f])
  {
    match a
    case Call(op) => CallKeepsProgress(s, max, op, f);
    case Fire(gen) => FireKeepsProgress(s, max, gen, f);
    case Execute(_, _, _) => BulkGrowsProgress(s, max, a, f);
    case Respond(_, _) => BulkGrowsProgress(s, max, a, f);
    case HandOver(_) => BulkGrowsProgress(s, max, a, f);
    case _ => OthersKeepProgress(s, max, a);
  }

  lemma BulkGrowsProgress(s: System, max: nat, a: Act, f: nat)
    requires Valid(s, f) && (a.Execute? || a.Respond? || a.HandOver?)
    ensures var t := Step(s, max, a);
            Valid(t, f) && t.claims == s.claims && AtLeastAsFar(s.progress[f], t.progress[f])
  {
  }

  lemma OthersKeepProgress(s: System, max: nat, a: Act)
    requires a.CallWithDeadContext? || a.Cancel? || a.Vanish? || a.Take?
    ensures Step(s, max, a).claims == s.claims && Step(s, max, a).progress == s.progress
  {
  }

  lemma CallKeepsProgress(s: System, max: nat, op: Op, f: nat)
    requires Valid(s, f)
    ensures var t := Step(s, max, Call(op));
            Valid(t, f) && t.claims[f] == s.claims[f] && t.progress[f] == s.progress[f]
  {
  }

  lemma FireKeepsProgress(s: System, max: nat, gen: nat, f: nat)
    requires Valid(s, f)
    ensures var t := Step(s, max, Fire(gen));
            Valid(t, f) && t.claims[f] == s.claims[f] && t.progress[f] == s.progress[f]
  {
  }

  predicate CanHandOver(s: System, f: nat)
  {
    Valid(s, f) && s.progress[f].answer.Some? && s.progress[f].sent < |s.claims[f].ops|
  }

  /** A mailbox is filled once. */
  lemma HandOverFills(s: System, max: nat, f: nat)
    requires OneRequestEach(s.claims) && MailboxInv(s)
    requires CanHandOver(s, f)
    ensures s.claims[f].ops[s.progress[f].sent].id !in s.mailbox
    ensures MailboxInv(Step(s, max, HandOver(f)))
  {
    var n := s.progress[f].sent;
    var t := Step(s, max, HandOver(f));
    assert Holds(s.claims, f, n);
    forall id | id in s.mailbox
      ensures OpAt(s.claims, f, n).id != id && exists g: nat, i: nat :: Carried(t, g, i, id, s.mailbox[id])
    {
      var g: nat, i: nat :| Carried(s, g, i, id, s.mailbox[id]);
      assert Holds(s.claims, g, i);
      CarriedStays(s, max, HandOver(f), g, i, id, s.mailbox[id]);
    }
    assert Carried(t, f, n, OpAt(s.claims, f, n).id, t.mailbox[OpAt(s.claims, f, n).id]);
  }

  lemma OthersFillNoMailbox(s: System, max: nat, a: Act)
    requires a.HandOver? ==> !CanHandOver(s, a.flight)
    ensures Step(s, max, a).mailbox == s.mailbox
  {
  }

  lemma OthersKeepMailboxes(s: System, max: nat, a: Act)
    requires MailboxInv(s) && (a.HandOver? ==> !CanHandOver(s, a.flight))
    ensures Step(s, max, a).mailbox == s.mailbox && MailboxInv(Step(s, max, a))
  {
    OthersFillNoMailbox(s, max, a);
    CarriedResultsStay(s, max, a, Step(s, max, a));
  }

  lemma CarriedResultsStay(s: System, max: nat, a: Act, t: System)
    requires MailboxInv(s) && t == Step(s, max, a) && t.mailbox == s.mailbox
    ensures MailboxInv(t)
  {
    forall id | id in s.mailbox ensures exists f: nat, i: nat :: Carried(t, f, i, id, s.mailbox[id]) {
      var f: nat, i: nat :| Carried(s, f, i, id, s.mailbox[id]);
      CarriedStays(s, max, a, f, i, id, s.mailbox[id]);
    }
  }

  lemma ReturnsOnlyTakes(s: System, max: nat, a: Act)
    ensures forall id :: id in s.callers ==> id in Step(s, max, a).callers
    ensures forall id ::
        id in s.callers && s.callers[id].status.Returned? ==> Step(s, max, a).callers[id] == s.callers[id]
    ensures forall id :: id in Step(s, max, a).callers ==>
              || (id in s.callers && Step(s, max, a).callers[id] == s.callers[id])
              || Step(s, max, a).callers[id].status.Waiting?
              || Abandoned(Step(s, max, a).callers[id])
              || (a == Take(id) && id in s.callers && id in s.mailbox &&
                  Step(s, max, a).callers[id] == s.callers[id].(status := Returned(s.mailbox[id], s.clock)))
  {
  }

  lemma StepKeepsResults(s: System, max: nat, a: Act)
    requires OneRequestEach(s.claims) && ResultsInv(s)
    ensures ResultsInv(Step(s, max, a))
  {
    ReturnsOnlyTakes(s, max, a);
    if a.HandOver? && CanHandOver(s, a.flight) {
      HandOverFills(s, max, a.flight);
    } else {
      OthersKeepMailboxes(s, max, a);
    }
  }

  // ---------------------------------------------------------------------------
  // The index and its log
  // ---------------------------------------------------------------------------

  predicate Performed(s: System, f: nat, i: nat)
  {
    Valid(s, f) && Holds(s.claims, f, i) && i in s.progress[f].written && s.progress[f].written[i]
  }

  ghost predicate EntryOk(s: System, e: Entry)
  {
    && e.op.id in s.callers && s.callers[e.op.id].calledAt < e.at < s.clock
    && exists f: nat, i: nat :: Performed(s, f, i) && OpAt(s.claims, f, i) == e.op
  }

  predicate Logged(log: seq<Entry>, op: Op)
  {
    exists k :: 0 <= k < |log| && log[k].op == op
  }

  /** The index is what one-at-a-time indexing of the log produces; the log holds exactly the items
      performed, each once, each after its call. */
  ghost predicate LogInv(s: System)
  {
    && s.index == IndexedDirectly(map[], s.log)
    && (forall k :: 0 <= k < |s.log| ==> EntryOk(s, s.log[k]))
    && OncePerRequest(s.log)
    && (forall f: nat, i: nat :: Performed(s, f, i) ==> Logged(s.log, OpAt(s.claims, f, i)))
    && (forall id :: id in s.callers ==> s.callers[id].calledAt < s.clock)
  }

  predicate OncePerRequest(log: seq<Entry>)
  {
    forall j, k :: 0 <= j < k < |log| ==> log[j].op.id != log[k].op.id
  }

  lemma PerformedStays(s: System, max: nat, a: Act, f: nat, i: nat)
    requires Performed(s, f, i)
    ensures Performed(Step(s, max, a), f, i) && OpAt(Step(s, max, a).claims, f, i) == OpAt(s.claims, f, i)
  {
    ProgressGrows(s, max, a, f);
  }

  lemma CalledAtStays(s: System, max: nat, a: Act)
    ensures forall id :: id in s.callers ==>
        id in Step(s, max, a).callers && Step(s, max, a).callers[id].calledAt == s.callers[id].calledAt
    ensures forall id ::
        id in Step(s, max, a).callers && id !in s.callers ==> Step(s, max, a).callers[id].calledAt == s.clock
  {
  }

  lemma EntryStays(s: System, max: nat, a: Act, e: Entry)
    requires EntryOk(s, e)
    ensures EntryOk(Step(s, max, a), e)
  {
    var f: nat, i: nat :| Performed(s, f, i) && OpAt(s.claims, f, i) == e.op;
    PerformedStays(s, max, a, f, i);
    CalledAtStays(s, max, a);
  }

  lemma OthersKeepLog(s: System, max: nat, a: Act)
    requires LogInv(s) && Step(s, max, a).log == s.log && Step(s, max, a).index == s.index
    requires forall f: nat, i: nat :: Performed(Step(s, max, a), f, i) ==> Performed(s, f, i)
    ensures LogInv(Step(s, max, a))
  {
    var t := Step(s, max, a);
    CalledAtStays(s, max, a);
    forall k | 0 <= k < |s.log| ensures EntryOk(t, s.log[k]) {
      EntryStays(s, max, a, s.log[k]);
    }
    forall f: nat, i: nat | Performed(t, f, i) ensures Logged(t.log, OpAt(t.claims, f, i)) {
      PerformedStays(s, max, a, f, i);
    }
  }

  /** An item about to be written is new to the log. */
  lemma ItemIsNew(s: System, f: nat, i: nat, k: nat)
    requires OneRequestEach(s.claims) && k < |s.log| && EntryOk(s, s.log[k]) && CanExecute(s, f, i)
    ensures s.log[k].op.id != s.claims[f].ops[i].id
  {
    var g: nat, j: nat :| Performed(s, g, j) && OpAt(s.claims, g, j) == s.log[k].op;
    assert Holds(s.claims, f, i) && Holds(s.claims, g, j);
  }

  /** Writing one item is one step of direct indexing. */
  lemma ItemIsDirect(index: map<string, string>, log: seq<Entry>, e: Entry)
    requires index == IndexedDirectly(map[], log)
    ensures index[e.op.docId := e.op.body] == IndexedDirectly(map[], log + [e])
  {
    assert (log + [e])[..|log|] == log;
  }

  /** `t` is `s` after item `i` of batch `f` was written. */
  predicate WroteItem(s: System, t: System, f: nat, i: nat)
  {
    && CanExecute(s, f, i) && t.claims == s.claims && t.callers == s.callers && t.clock == s.clock + 1
    && t.progress == s.progress[f := s.progress[f].(written := s.progress[f].written[i := true])]
    && t.log == s.log + [Entry(s.claims[f].ops[i], s.clock)]
    && t.index == s.index[s.claims[f].ops[i].docId := s.claims[f].ops[i].body]
  }

  lemma ExecuteWrites(s: System, max: nat, f: nat, i: nat)
    requires CanExecute(s, f, i)
    ensures WroteItem(s, Step(s, max, Execute(f, i, true)), f, i)
  {
  }

  lemma OldEntryOk(s: System, t: System, f: nat, i: nat, k: nat)
    requires WroteItem(s, t, f, i) && k < |s.log| && EntryOk(s, s.log[k])
    ensures EntryOk(t, t.log[k])
  {
    var g: nat, j: nat :| Performed(s, g, j) && OpAt(s.claims, g, j) == s.log[k].op;
    assert Performed(t, g, j) && OpAt(t.claims, g, j) == t.log[k].op;
  }

  lemma NewEntryOk(s: System, t: System, f: nat, i: nat)
    requires WroteItem(s, t, f, i) && ClaimedInv(s.claims, s.callers)
    requires forall id :: id in s.callers ==> s.callers[id].calledAt < s.clock
    ensures EntryOk(t, t.log[|s.log|])
  {
    assert Holds(s.claims, f, i) && Known(s.callers, OpAt(s.claims, f, i));
    assert Performed(t, f, i) && OpAt(t.claims, f, i) == t.log[|s.log|].op;
  }

  lemma PerformedIsLogged(s: System, t: System, f: nat, i: nat, g: nat, j: nat)
    requires WroteItem(s, t, f, i) && Performed(t, g, j)
    requires forall h: nat, k: nat :: Performed(s, h, k) ==> Logged(s.log, OpAt(s.claims, h, k))
    ensures Logged(t.log, OpAt(t.claims, g, j))
  {
    if g == f && j == i {
      assert t.log[|s.log|].op == OpAt(t.claims, f, i);
    } else {
      assert Performed(s, g, j);
      var k :| 0 <= k < |s.log| && s.log[k].op == OpAt(s.claims, g, j);
      assert t.log[k].op == OpAt(t.claims, g, j);
    }
  }

  lemma EntriesStayOk(s: System, t: System, f: nat, i: nat)
    requires LogInv(s) && ClaimedInv(s.claims, s.callers) && WroteItem(s, t, f, i)
    ensures forall k :: 0 <= k < |t.log| ==> EntryOk(t, t.log[k])
  {
    forall k | 0 <= k < |t.log| ensures EntryOk(t, t.log[k]) {
      if k < |s.log| {
        OldEntryOk(s, t, f, i, k);
      } else {
        NewEntryOk(s, t, f, i);
      }
    }
  }

  lemma WriteIsNew(s: System, t: System, f: nat, i: nat)
    requires LogInv(s) && OneRequestEach(s.claims) && WroteItem(s, t, f, i)
    ensures OncePerRequest(t.log)
  {
    forall k | 0 <= k < |s.log| ensures s.log[k].op.id != t.log[|s.log|].op.id {
      ItemIsNew(s, f, i, k);
    }
  }

  lemma AllPerformedLogged(s: System, t: System, f: nat, i: nat)
    requires LogInv(s) && WroteItem(s, t, f, i)
    ensures forall g: nat, j: nat :: Performed(t, g, j) ==> Logged(t.log, OpAt(t.claims, g, j))
  {
    forall g: nat, j: nat | Performed(t, g, j) ensures Logged(t.log, OpAt(t.claims, g, j)) {
      PerformedIsLogged(s, t, f, i, g, j);
    }
  }

  lemma WriteKeepsLog(s: System, t: System, f: nat, i: nat)
    requires LogInv(s) && OneRequestEach(s.claims) && ClaimedInv(s.claims, s.callers) && WroteItem(s, t, f, i)
    ensures LogInv(t)
  {
    ItemIsDirect(s.index, s.log, t.log[|s.log|]);
    EntriesStayOk(s, t, f, i);
    WriteIsNew(s, t, f, i);
    AllPerformedLogged(s, t, f, i);
  }

  lemma NothingNewPerformed(s: System, max: nat, a: Act, f: nat, i: nat)
    requires |s.claims| == |s.progress| && !(a.Execute? && a.ok && CanExecute(s, a.flight, a.item))
    requires Performed(Step(s, max, a), f, i)
    ensures Performed(s, f, i)
  {
  }

  lemma StepKeepsLog(s: System, max: nat, a: Act)
    requires LogInv(s) && OneRequestEach(s.claims) && ClaimedInv(s.claims, s.callers) && |s.claims| == |s.progress|
    ensures LogInv(Step(s, max, a))
  {
    if a.Execute? && a.ok && CanExecute(s, a.flight, a.item) {
      ExecuteWrites(s, max, a.flight, a.item);
      WriteKeepsLog(s, Step(s, max, a), a.flight, a.item);
    } else {
      forall f: nat, i: nat | Performed(Step(s, max, a), f, i) ensures Performed(s, f, i) {
        NothingNewPerformed(s, max, a, f, i);
      }
      OthersKeepIndex(s, max, a);
      OthersKeepLog(s, max, a);
    }
  }

  lemma OthersKeepIndex(s: System, max: nat, a: Act)
    requires !(a.Execute? && a.ok && CanExecute(s, a.flight, a.item))
    ensures Step(s, max, a).log == s.log && Step(s, max, a).index == s.index
  {
  }

  // ---------------------------------------------------------------------------
  // Whole runs
  // ---------------------------------------------------------------------------

  /** A caller told "written" has its entry, made before the return. */
  ghost predicate WrittenBeforeReturn(s: System)
  {
    forall id :: id in s.callers && s.callers[id].status.Returned? && s.callers[id].status.outcome == Wrote ==>
      exists k :: 0 <= k < |s.log| && s.log[k].op == s.callers[id].op && s.log[k].at < s.callers[id].status.at
  }

  lemma ReportedMeansPerformed(s: System, max: nat, id: nat)
    requires FlightsInv(s, max) && MailboxInv(s) && LogInv(s) && ClaimedInv(s.claims, s.callers)
    requires id in s.mailbox && s.mailbox[id] == Wrote && id in s.callers
    ensures exists k :: 0 <= k < |s.log| && s.log[k].op == s.callers[id].op && s.log[k].at < s.clock
  {
    var f: nat, i: nat :| Carried(s, f, i, id, Wrote);
    assert FlightOk(s.claims[f], s.progress[f], max);
    assert Performed(s, f, i);
    var k :| 0 <= k < |s.log| && s.log[k].op == OpAt(s.claims, f, i);
    assert EntryOk(s, s.log[k]);
  }

  lemma LogOnlyGrows(s: System, max: nat, a: Act)
    ensures |s.log| <= |Step(s, max, a).log| && forall k :: 0 <= k < |s.log| ==> Step(s, max, a).log[k] == s.log[k]
  {
  }

  lemma StepKeepsReturns(s: System, max: nat, a: Act)
    requires FlightsInv(s, max) && ResultsInv(s) && LogInv(s) && ClaimedInv(s.claims, s.callers) &&
        WrittenBeforeReturn(s)
    ensures WrittenBeforeReturn(Step(s, max, a))
  {
    var t := Step(s, max, a);
    ReturnsOnlyTakes(s, max, a);
    LogOnlyGrows(s, max, a);
    forall id | id in t.callers && t.callers[id].status.Returned? && t.callers[id].status.outcome == Wrote
      ensures exists k :: 0 <= k < |t.log| && t.log[k].op == t.callers[id].op && t.log[k].at < t.callers[id].status.at
    {
      if id in s.callers && t.callers[id] == s.callers[id] {
        var k :| 0 <= k < |s.log| && s.log[k].op == s.callers[id].op && s.log[k].at < s.callers[id].status.at;
        assert t.log[k] == s.log[k];
      } else {
        ReportedMeansPerformed(s, max, id);
        var k :| 0 <= k < |s.log| && s.log[k].op == s.callers[id].op && s.log[k].at < s.clock;
        assert t.log[k] == s.log[k];
      }
    }
  }

  ghost predicate Inv(s: System, max: nat)
  {
    TimersInv(s, max) && PlacesInv(s) && FlightsInv(s, max) && ResultsInv(s) && LogInv(s) && WrittenBeforeReturn(s)
  }

  lemma {:induction false} RunKeepsInv(max: nat, acts: seq<Act>)
    requires max > 0
    ensures Inv(Run(max, acts), max)
  {
    if acts != [] {
      var n := |acts| - 1;
      RunKeepsInv(max, acts[..n]);
      var s, a := Run(max, acts[..n]), acts[n];
      StepKeepsTimers(s, max, a);
      StepKeepsPlaces(s, max, a);
      StepKeepsFlights(s, max, a);
      StepKeepsResults(s, max, a);
      StepKeepsLog(s, max, a);
      StepKeepsReturns(s, max, a);
    }
  }

  /** Batching refines direct indexing, over every interleaving. The index is the one-at-a-time
      result of a log that holds no request twice; success means the caller's own item was written
      between its call and its return; a context error means it was never part of any request. */
  lemma BatchingRefinesDirectIndexing(max: nat, acts: seq<Act>, id: nat)
    requires max > 0 && id in Run(max, acts).callers
    ensures var s := Run(max, acts);
            var c := s.callers[id];
            && s.index == IndexedDirectly(map[], s.log)
            && OncePerRequest(s.log)
            && (c.status.Returned? && c.status.outcome == Wrote ==>
                  exists k :: 0 <= k < |s.log| && s.log[k].op == c.op && c.calledAt < s.log[k].at < c.status.at)
            && (Abandoned(c) ==> !InFlight(s.claims, id) && !Queued(s.queue.pending, id) &&
                                 forall k :: 0 <= k < |s.log| ==> s.log[k].op.id != id)
  {
    RunKeepsInv(max, acts);
    var s := Run(max, acts);
    var c := s.callers[id];
    if c.status.Returned? && c.status.outcome == Wrote {
      var k :| 0 <= k < |s.log| && s.log[k].op == c.op && s.log[k].at < c.status.at;
      assert EntryOk(s, s.log[k]);
    }
    if Abandoned(c) {
      forall f: nat, i: nat | Holds(s.claims, f, i) ensures OpAt(s.claims, f, i).id != id { }
      forall i | 0 <= i < |s.queue.pending| ensures s.queue.pending[i].id != id {
        assert s.queue.pending[i] in s.queue.pending;
      }
      forall k | 0 <= k < |s.log| ensures s.log[k].op.id != id {
        assert EntryOk(s, s.log[k]);
        var f: nat, i: nat :| Performed(s, f, i) && OpAt(s.claims, f, i) == s.log[k].op;
      }
    }
  }

  /** Each result goes to its own caller: what a caller returns is the result at the one position
      its request has in the one batch that claimed it. */
  lemma CallersGetTheirOwnResult(max: nat, acts: seq<Act>, id: nat) returns (f: nat, i: nat)
    requires max > 0 && id in Run(max, acts).callers
    requires var c := Run(max, acts).callers[id]; c.status.Returned? && c.status.outcome != CtxError
    ensures var s := Run(max, acts);
            && Valid(s, f) && Holds(s.claims, f, i) && OpAt(s.claims, f, i) == s.callers[id].op
            && s.progress[f].answer.Some? && s.callers[id].status.outcome == ResultAt(s.progress[f].answer.value, i)
            && forall g: nat, j: nat :: Holds(s.claims, g, j) && OpAt(s.claims, g, j).id == id ==> g == f && j == i
  {
    RunKeepsInv(max, acts);
    var s := Run(max, acts);
    f, i :| Carried(s, f, i, id, s.mailbox[id]);
    assert Holds(s.claims, f, i);
  }

  /** Results tell the truth about one's own item, one bad item or many notwithstanding. A caller is told
      success exactly when the index answered its item with a status below 400, which is exactly when the
      item was written; a failure that the answer covers means that it never was; and no answer at all, or
      one too short, is never success. */
  lemma ResultsTellTheTruth(max: nat, acts: seq<Act>, id: nat) returns (f: nat, i: nat)
    requires max > 0 && id in Run(max, acts).callers
    requires var c := Run(max, acts).callers[id]; c.status.Returned? && c.status.outcome != CtxError
    ensures var s := Run(max, acts);
            && Valid(s, f) && Holds(s.claims, f, i) && OpAt(s.claims, f, i) == s.callers[id].op
            && s.progress[f].answer.Some?
            && Told(s.callers[id].status.outcome, s.progress[f].answer.value, s.progress[f].written, i)
            && (s.callers[id].status.outcome == ItemFailed && Covers(s.progress[f].answer.value, i) ==>
                  forall k :: 0 <= k < |s.log| ==> s.log[k].op.id != id)
  {
    f, i := CallersGetTheirOwnResult(max, acts, id);
    RunKeepsInv(max, acts);
    var s := Run(max, acts);
    assert FlightOk(s.claims[f], s.progress[f], max);
    forall k | 0 <= k < |s.log| && s.log[k].op.id == id ensures i in s.progress[f].written && s.progress[f].written[i] {
      assert EntryOk(s, s.log[k]);
      var g: nat, j: nat :| Performed(s, g, j) && OpAt(s.claims, g, j) == s.log[k].op;
      assert g == f && j == i;
    }
  }

  predicate Covers(answer: Answer, i: nat)
  {
    answer.Items? && i < |answer.statuses|
  }

  /** What a caller is told, against the statuses and what the index did. */
  predicate Told(outcome: Outcome, answer: Answer, written: map<nat, bool>, i: nat)
  {
    && (outcome == RequestFailed <==> answer.NoAnswer?)
    && (outcome == Wrote <==> Covers(answer, i) && answer.statuses[i] < 400)
    && (outcome == ItemFailed <==> answer.Items? && !(Covers(answer, i) && answer.statuses[i] < 400))
    && (Covers(answer, i) ==> i in written && (written[i] <==> outcome == Wrote))
  }

  /** Requests are conserved, batches are bounded, refresh is requested exactly when asked for, and a
      waiting batch is never without a live timer of its own generation. */
  lemma RequestsAreConserved(max: nat, acts: seq<Act>, id: nat)
    requires max > 0 && id in Run(max, acts).callers
    ensures var s := Run(max, acts);
            var queued, claimed := Queued(s.queue.pending, id), InFlight(s.claims, id);
            var abandoned := Abandoned(s.callers[id]);
            && (queued || claimed || abandoned)
            && !(queued && claimed) && !(queued && abandoned) && !(claimed && abandoned)
    ensures var s := Run(max, acts);
            && |s.queue.pending| < max
            && (s.queue.needsRefresh <==> AnyRefresh(s.queue.pending))
            && (s.queue.pending != [] ==> s.queue.generation in s.callbacks)
            && forall f :: 0 <= f < |s.claims| ==>
                 0 < |s.claims[f].ops| <= max && (s.claims[f].refresh <==> AnyRefresh(s.claims[f].ops))
  {
    RunKeepsInv(max, acts);
    var s := Run(max, acts);
    if Queued(s.queue.pending, id) {
      var i :| 0 <= i < |s.queue.pending| && s.queue.pending[i].id == id;
      assert s.queue.pending[i] in s.queue.pending;
    }
    if InFlight(s.claims, id) {
      var f: nat, i: nat :| Holds(s.claims, f, i) && OpAt(s.claims, f, i).id == id;
    }
    forall f | 0 <= f < |s.claims| ensures FlightOk(s.claims[f], s.progress[f], max) { }
  }

  // ---------------------------------------------------------------------------
  // Timers and their batches
  // ---------------------------------------------------------------------------

  /** What waits was queued under the present generation. */
  ghost predicate GenerationsInv(s: System)
  {
    forall o :: o in s.queue.pending ==> o.id in s.callers && s.callers[o.id].generation == s.queue.generation
  }

  lemma GenerationsStay(s: System, max: nat, a: Act)
    ensures forall id :: id in s.callers ==>
              id in Step(s, max, a).callers && Step(s, max, a).callers[id].generation == s.callers[id].generation
  {
  }

  lemma CallKeepsGenerations(s: System, max: nat, op: Op)
    requires GenerationsInv(s) && op.id !in s.callers
    ensures GenerationsInv(Step(s, max, Call(op)))
  {
    var t := Step(s, max, Call(op));
    forall o | o in t.queue.pending ensures o.id in t.callers && t.callers[o.id].generation == t.queue.generation {
      assert o in s.queue.pending || o == op;
    }
  }

  lemma StepKeepsGenerations(s: System, max: nat, a: Act)
    requires TimersInv(s, max) && GenerationsInv(s)
    ensures GenerationsInv(Step(s, max, a))
  {
    GenerationsStay(s, max, a);
    match a
    case Call(op) =>
      if op.id !in s.callers {
        CallKeepsGenerations(s, max, op);
      }
    case Cancel(id) =>
      if Queued(s.queue.pending, id) {
        WithdrawKeepsQueue(s.queue, max, id);
      }
    case _ =>
  }

  lemma {:induction false} RunKeepsGenerations(max: nat, acts: seq<Act>)
    requires max > 0
    ensures GenerationsInv(Run(max, acts))
  {
    if acts != [] {
      var n := |acts| - 1;
      RunKeepsGenerations(max, acts[..n]);
      RunKeepsInv(max, acts[..n]);
      StepKeepsGenerations(Run(max, acts[..n]), max, acts[n]);
    }
  }

  /** A timer claims only its own batch. After any run, when the callback of generation `gen` fires, it
      claims nothing, or one batch all of whose requests were queued by calls that left the generation
      at `gen`; a late callback therefore never claims what has been queued since. */
  lemma TimerClaimsItsOwnBatch(max: nat, acts: seq<Act>, gen: nat)
    requires max > 0
    ensures var s, t := Run(max, acts), Run(max, acts + [Fire(gen)]);
            || (t.claims == s.claims && t.queue.pending == s.queue.pending)
            || (&& |t.claims| == |s.claims| + 1 && t.claims[..|s.claims|] == s.claims
                && t.claims[|s.claims|].ops == s.queue.pending && t.queue.pending == []
                && forall o :: o in s.queue.pending ==> o.id in t.callers && t.callers[o.id].generation == gen)
    ensures var s, t := Run(max, acts), Run(max, acts + [Fire(gen)]);
            && (gen != s.queue.generation ==> t.claims == s.claims && t.queue == s.queue)
            && (gen in s.callbacks && gen == s.queue.generation && s.queue.pending != [] ==>
                  |t.claims| == |s.claims| + 1)
  {
    RunKeepsGenerations(max, acts);
    assert (acts + [Fire(gen)])[..|acts|] == acts;
  }

  /** A call joins the waiting batch at its end, or completes a batch of exactly the maximal size, which is
      then claimed whole. The first request of a batch arms a timer no earlier batch has used. */
  lemma CallsFillBatches(max: nat, acts: seq<Act>, op: Op)
    requires max > 0 && op.id !in Run(max, acts).callers
    ensures var s, t := Run(max, acts), Run(max, acts + [Call(op)]);
            && (|s.queue.pending| + 1 < max ==> t.queue.pending == s.queue.pending + [op] && t.claims == s.claims)
            && (|s.queue.pending| + 1 >= max ==>
                  && |s.queue.pending| + 1 == max && t.queue.pending == [] && |t.claims| == |s.claims| + 1
                  && t.claims[..|s.claims|] == s.claims && t.claims[|s.claims|].ops == s.queue.pending + [op])
            && (s.queue.pending == [] && t.queue.pending != [] ==>
                  t.queue.generation !in s.callbacks && t.queue.generation in t.callbacks)
  {
    RunKeepsInv(max, acts);
    assert (acts + [Call(op)])[..|acts|] == acts;
  }

  predicate InArrivalOrder(ops: seq<Op>, callers: map<nat, Caller>)
  {
    && (forall i :: 0 <= i < |ops| ==> ops[i].id in callers)
    && forall i, j :: 0 <= i < j < |ops| ==> callers[ops[i].id].calledAt < callers[ops[j].id].calledAt
  }

  ghost predicate ArrivalsInv(s: System)
  {
    && InArrivalOrder(s.queue.pending, s.callers)
    && forall f :: 0 <= f < |s.claims| ==> InArrivalOrder(s.claims[f].ops, s.callers)
  }

  lemma OrderStays(s: System, max: nat, a: Act, ops: seq<Op>)
    requires InArrivalOrder(ops, s.callers)
    ensures InArrivalOrder(ops, Step(s, max, a).callers)
  {
    CalledAtStays(s, max, a);
  }

  lemma NewcomerIsLast(s: System, max: nat, op: Op)
    requires InArrivalOrder(s.queue.pending, s.callers) && op.id !in s.callers
    requires forall id :: id in s.callers ==> s.callers[id].calledAt < s.clock
    ensures InArrivalOrder(s.queue.pending + [op], Step(s, max, Call(op)).callers)
  {
  }

  lemma RemovalKeepsOrder(ops: seq<Op>, k: nat, callers: map<nat, Caller>)
    requires InArrivalOrder(ops, callers) && k < |ops|
    ensures InArrivalOrder(ops[..k] + ops[k + 1..], callers)
  {
    var r := ops[..k] + ops[k + 1..];
    assert forall i :: 0 <= i < |r| ==> r[i] == if i < k then ops[i] else ops[i + 1];
  }

  lemma StepKeepsArrivals(s: System, max: nat, a: Act)
    requires TimersInv(s, max) && ArrivalsInv(s) && forall id :: id in s.callers ==> s.callers[id].calledAt < s.clock
    ensures ArrivalsInv(Step(s, max, a))
  {
    OrderStays(s, max, a, s.queue.pending);
    forall f | 0 <= f < |s.claims| ensures InArrivalOrder(s.claims[f].ops, Step(s, max, a).callers) {
      OrderStays(s, max, a, s.claims[f].ops);
    }
    match a
    case Call(op) => CallKeepsArrivals(s, max, op);
    case Cancel(id) => CancelKeepsArrivals(s, max, id);
    case Fire(gen) => FireMovesOps(s, max, gen);
    case _ => OthersKeepPlaces(s, max, a);
  }

  lemma CallKeepsArrivals(s: System, max: nat, op: Op)
    requires ArrivalsInv(s) && forall id :: id in s.callers ==> s.callers[id].calledAt < s.clock
    requires forall f :: 0 <= f < |s.claims| ==> InArrivalOrder(s.claims[f].ops, Step(s, max, Call(op)).callers)
    ensures ArrivalsInv(Step(s, max, Call(op)))
  {
    if op.id !in s.callers {
      NewcomerIsLast(s, max, op);
    }
  }

  lemma CancelKeepsArrivals(s: System, max: nat, id: nat)
    requires TimersInv(s, max) && InArrivalOrder(s.queue.pending, Step(s, max, Cancel(id)).callers)
    ensures InArrivalOrder(Step(s, max, Cancel(id)).queue.pending, Step(s, max, Cancel(id)).callers)
    ensures Step(s, max, Cancel(id)).claims == s.claims
  {
    if k :| 0 <= k < |s.queue.pending| && s.queue.pending[k].id == id {
      WithoutAt(s.queue.pending, k);
      RemovalKeepsOrder(s.queue.pending, k, Step(s, max, Cancel(id)).callers);
    }
  }

  lemma FireMovesOps(s: System, max: nat, gen: nat)
    ensures var t := Step(s, max, Fire(gen));
            && t.callers == s.callers
            && ((t.claims == s.claims && (t.queue.pending == s.queue.pending || t.queue.pending == []))
                || (&& t.queue.pending == [] && |t.claims| == |s.claims| + 1
                    && (forall f :: 0 <= f < |s.claims| ==> t.claims[f] == s.claims[f])
                    && t.claims[|s.claims|].ops == s.queue.pending))
  {
  }

  lemma OthersKeepPlaces(s: System, max: nat, a: Act)
    requires !a.Call? && !a.Cancel? && !a.Fire?
    ensures Step(s, max, a).claims == s.claims && Step(s, max, a).queue == s.queue
  {
  }

  /** The queue and every claimed batch hold their requests in the order of the calls, cancellations in
      between or not. */
  lemma {:induction false} BatchesKeepArrivalOrder(max: nat, acts: seq<Act>)
    requires max > 0
    ensures ArrivalsInv(Run(max, acts))
  {
    if acts != [] {
      var n := |acts| - 1;
      BatchesKeepArrivalOrder(max, acts[..n]);
      RunKeepsInv(max, acts[..n]);
      StepKeepsArrivals(Run(max, acts[..n]), max, acts[n]);
    }
  }

  /** A cancellation takes a request back exactly while it is still queued: the caller then returns the
      context error and the queue loses it. Once claimed, the caller goes on waiting for its result. */
  lemma CancellationIsExact(max: nat, acts: seq<Act>, id: nat)
    requires max > 0 && id in Run(max, acts).callers && Run(max, acts).callers[id].status.Waiting?
    ensures var s, t := Run(max, acts), Run(max, acts + [Cancel(id)]);
            && id in t.callers
            && (Queued(s.queue.pending, id) ==> Abandoned(t.callers[id]) && !Queued(t.queue.pending, id))
            && (!Queued(s.queue.pending, id) ==> t == s.(clock := s.clock + 1) && InFlight(s.claims, id))
            && t.claims == s.claims
  {
    RunKeepsInv(max, acts);
    assert (acts + [Cancel(id)])[..|acts|] == acts;
    CancelStep(Run(max, acts), max, id);
    WaitingIsSomewhere(Run(max, acts), id);
  }

  lemma CancelStep(s: System, max: nat, id: nat)
    requires TimersInv(s, max) && id in s.callers && s.callers[id].status.Waiting?
    ensures var t := Step(s, max, Cancel(id));
            && id in t.callers && t.claims == s.claims
            && (Queued(s.queue.pending, id) ==> Abandoned(t.callers[id]) && !Queued(t.queue.pending, id))
            && (!Queued(s.queue.pending, id) ==> t == s.(clock := s.clock + 1))
  {
    if Queued(s.queue.pending, id) {
      WithdrawKeepsQueue(s.queue, max, id);
      var t := Step(s, max, Cancel(id));
      forall i | 0 <= i < |t.queue.pending| ensures t.queue.pending[i].id != id {
        assert t.queue.pending[i] in t.queue.pending;
      }
    }
  }

  lemma WaitingIsSomewhere(s: System, id: nat)
    requires PlacesInv(s) && id in s.callers && s.callers[id].status.Waiting?
    ensures Queued(s.queue.pending, id) || InFlight(s.claims, id)
  {
  }

  /** Results arrive: once a batch is answered, each handing over gives the next request its result, and its
      caller, if it waits, returns just that. */
  lemma ResultsArrive(max: nat, acts: seq<Act>, f: nat)
    requires max > 0 && CanHandOver(Run(max, acts), f)
    ensures var s := Run(max, acts);
            var op := s.claims[f].ops[s.progress[f].sent];
            var t := Run(max, acts + [HandOver(f), Take(op.id)]);
            && Valid(t, f) && t.progress[f].sent == s.progress[f].sent + 1
            && op.id in s.callers && op.id in t.callers
            && (s.callers[op.id].status.Waiting? ==>
                  && t.callers[op.id].status.Returned?
                  && Told(t.callers[op.id].status.outcome, s.progress[f].answer.value, s.progress[f].written,
                          s.progress[f].sent))
  {
    RunKeepsInv(max, acts);
    var s := Run(max, acts);
    var n := s.progress[f].sent;
    var op := s.claims[f].ops[n];
    assert Holds(s.claims, f, n) && Known(s.callers, OpAt(s.claims, f, n));
    assert FlightOk(s.claims[f], s.progress[f], max);
    var all := acts + [HandOver(f), Take(op.id)];
    assert all[..|all| - 1] == acts + [HandOver(f)] && (acts + [HandOver(f)])[..|acts|] == acts;
    HandOverGives(s, max, f);
    TakeReturns(Run(max, acts + [HandOver(f)]), max, op.id);
    ResultIsTold(s.progress[f].answer.value, s.progress[f].written, |s.claims[f].ops|, n);
  }

  lemma HandOverGives(s: System, max: nat, f: nat)
    requires CanHandOver(s, f)
    ensures var t, n := Step(s, max, HandOver(f)), s.progress[f].sent;
            && t.claims == s.claims && t.callers == s.callers && Valid(t, f) && t.progress[f].sent == n + 1
            && s.claims[f].ops[n].id in t.mailbox
            && t.mailbox[s.claims[f].ops[n].id] == ResultAt(s.progress[f].answer.value, n)
  {
  }

  lemma TakeReturns(s: System, max: nat, id: nat)
    requires id in s.callers && id in s.mailbox
    ensures var t := Step(s, max, Take(id));
            && t.claims == s.claims && t.progress == s.progress && id in t.callers
            && (s.callers[id].status.Waiting? ==> t.callers[id].status == Returned(s.mailbox[id], s.clock))
  {
  }

  lemma ResultIsTold(answer: Answer, written: map<nat, bool>, items: nat, i: nat)
    requires Truthful(answer, written, items) && i < items
    ensures Told(ResultAt(answer, i), answer, written, i)
  {
  }
}
