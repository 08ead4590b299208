/** JetStream workers and shutdown: a semaphore of worker slots, a wait group, consumers whose
    callbacks may still be running after they are told to stop, and the drain that waits for them. */
module Workers {
  import opened Text

  // ---------------------------------------------------------------------------
  // One worker
  // ---------------------------------------------------------------------------

  /** Where a worker goroutine is. `Trying` and `Waiting` are the two selects of the slot
      acquisition, `Taken` the recheck of the context after a slot was won. */
  datatype Phase =
    | Started | Trying | Waiting | Taken | Abandoned | Running | Handled | Releasing | Leaving | Gone

  datatype Settling = Ack | Nak | NakWithDelay

  /** `outcome` is what the handler returned, if it was called. */
  datatype Worker = Worker(consumer: nat, phase: Phase, outcome: Option<bool>, settled: seq<Settling>)
  {
    predicate HoldsSlot() { phase.Taken? || phase.Running? || phase.Handled? || phase.Releasing? }
    predicate Live() { !phase.Gone? }
  }

  /** What a goroutine finds when it moves: `giveUp` picks the canceled branch of the waiting select,
      `ok` is the handler's result. */
  datatype Chance = Chance(giveUp: bool, ok: bool)

  function Advance(w: Worker, slotFree: bool, canceled: bool, chance: Chance): Worker
  {
    match w.phase
    case Started => w.(phase := if canceled then Abandoned else Trying)
    case Trying => w.(phase := if slotFree then Taken else Waiting)
    case Waiting =>
      if chance.giveUp then (if canceled then w.(phase := Abandoned) else w)
      else if slotFree then w.(phase := Taken) else w
    case Taken => w.(phase := if canceled then Abandoned else Running)
    case Abandoned => w.(phase := Leaving, settled := w.settled + [Nak])
    case Running => w.(phase := Handled, outcome := Some(chance.ok))
    case Handled =>
      w.(phase := Releasing, settled := w.settled + [if w.outcome == Some(true) then Ack else NakWithDelay])
    case Releasing => w.(phase := Leaving)
    case Leaving => w.(phase := Gone)
    case Gone => w
  }

  /** The semaphore sends and receives written in the code at each point. */
  function SlotChange(w: Worker, slotFree: bool, canceled: bool, chance: Chance): int
  {
    match w.phase
    case Trying => if slotFree then 1 else 0
    case Waiting => if !chance.giveUp && slotFree then 1 else 0
    case Taken => if canceled then -1 else 0
    case Releasing => -1
    case _ => 0
  }

  // ---------------------------------------------------------------------------
  // The repository
  // ---------------------------------------------------------------------------

  datatype Consumer = Consumer(decided: bool, registered: bool, stopped: bool, inCallback: bool, closed: bool)

  datatype Path = NoConnection | AlreadyClosed | AlreadyDraining | CallsDrain

  datatype Drain =
    | Idle
    | Stopping(next: nat)
    | AwaitingClose(next: nat)
    | BeforeWait
    | AwaitingWorkers
    | AfterWait(workersTimedOut: bool)
    | Returned(workersTimedOut: bool, path: Path, isNil: bool)

  /** `connected` is whether the repository was built with a connection; it never changes. */
  datatype System = System(
    connected: bool,
    slots: nat,
    sem: int,
    waitGroup: int,
    canceled: bool,
    workers: seq<Worker>,
    consumers: seq<Consumer>,
    contexts: seq<nat>,
    shuttingDown: bool,
    now: int,
    deadline: int,
    stopList: seq<nat>,
    drain: Drain)

  datatype Act =
    | Cancel
    | Pass(time: nat)
    | StartConsumer
    | Register(c: nat)
    | EnterCallback(c: nat)
    | Deliver(c: nat)
    | Close(c: nat)
    | Move(w: nat, chance: Chance)
    | BeginDrain(budget: int)
    | NextConsumer
    | SawClosed
    | CloseTimedOut
    | BeginWait
    | SawNoWorkers
    | WaitTimedOut
    | Finish(path: Path, drainFailed: bool, drainTimedOut: bool, handlersTimedOut: bool)

  /** Both timeouts and the failure turn the result into an error only where the code checks them. */
  predicate ReturnsNil(
    workersTimedOut: bool, path: Path, drainFailed: bool, drainTimedOut: bool, handlersTimedOut: bool)
  {
    match path
    case NoConnection | AlreadyClosed => true
    case AlreadyDraining => !drainTimedOut
    case CallsDrain => !drainFailed && !workersTimedOut && !drainTimedOut && !handlersTimedOut
  }

  function StepConsumers(s: System, a: Act): System
  {
    match a
    case StartConsumer =>
      if s.connected then s.(consumers := s.consumers + [Consumer(false, false, false, false, false)]) else s
    case Register(c) =>
      if c >= |s.consumers| || s.consumers[c].decided then s
      else if s.shuttingDown then s.(consumers := s.consumers[c := s.consumers[c].(decided := true, stopped := true)])
      else s.(consumers := s.consumers[c := s.consumers[c].(decided := true, registered := true)],
        contexts := s.contexts + [c])
    case EnterCallback(c) =>
      if c < |s.consumers| && !s.consumers[c].closed
        then s.(consumers := s.consumers[c := s.consumers[c].(inCallback := true)]) else s
    case Deliver(c) =>
      if c < |s.consumers| && s.consumers[c].inCallback then
        s.(consumers := s.consumers[c := s.consumers[c].(inCallback := false)],
           workers := s.workers + [Worker(c, Started, None, [])], waitGroup := s.waitGroup + 1)
      else s
    case Close(c) =>
      if c < |s.consumers| && s.consumers[c].stopped && !s.consumers[c].inCallback then
        s.(consumers := s.consumers[c := s.consumers[c].(closed := true)])
      else s
    case _ => s
  }

  function StepDrain(s: System, a: Act): System
  {
    match a
    case BeginDrain(budget) =>
      if s.drain.Idle? then
        s.(shuttingDown := true, stopList := s.contexts, contexts := [], deadline := s.now + budget,
          drain := Stopping(0))
      else s
    case NextConsumer =>
      if !s.drain.Stopping? then s
      else if s.drain.next >= |s.stopList| || s.deadline <= s.now then s.(drain := BeforeWait)
      else
        var c := s.stopList[s.drain.next];
        s.(consumers := if c < |s.consumers| then s.consumers[c := s.consumers[c].(stopped := true)] else s.consumers,
           drain := AwaitingClose(s.drain.next))
    case SawClosed =>
      if s.drain.AwaitingClose? && s.drain.next < |s.stopList| && IsClosed(s, s.stopList[s.drain.next])
      then s.(drain := Stopping(s.drain.next + 1)) else s
    case CloseTimedOut =>
      if s.drain.AwaitingClose? && s.deadline <= s.now then s.(drain := Stopping(s.drain.next + 1)) else s
    case BeginWait =>
      if s.drain.BeforeWait? then s.(drain := if s.deadline <= s.now then AfterWait(true) else AwaitingWorkers) else s
    case SawNoWorkers =>
      if s.drain.AwaitingWorkers? && s.waitGroup == 0 then s.(drain := AfterWait(false)) else s
    case WaitTimedOut =>
      if s.drain.AwaitingWorkers? && s.deadline <= s.now then s.(drain := AfterWait(true)) else s
    case Finish(path, drainFailed, drainTimedOut, handlersTimedOut) =>
      if s.drain.AfterWait? && (path.NoConnection? <==> !s.connected) then
        var timedOut := s.drain.workersTimedOut;
        s.(drain := Returned(timedOut, path, ReturnsNil(timedOut, path, drainFailed, drainTimedOut, handlersTimedOut)))
      else s
    case _ => s
  }

  predicate IsClosed(s: System, c: nat)
  {
    c < |s.consumers| && s.consumers[c].closed
  }

  function StepWorker(s: System, i: nat, chance: Chance): System
  {
    if i >= |s.workers| then s
    else
      var w := s.workers[i];
      var free := s.sem < s.slots;
      s.(workers := s.workers[i := Advance(w, free, s.canceled, chance)],
         sem := s.sem + SlotChange(w, free, s.canceled, chance),
         waitGroup := if w.phase.Leaving? then s.waitGroup - 1 else s.waitGroup)
  }

  function Step(s: System, a: Act): System
  {
    match a
    case Cancel => s.(canceled := true)
    case Pass(time) => s.(now := s.now + time)
    case Move(i, chance) => StepWorker(s, i, chance)
    case StartConsumer | Register(_) | EnterCallback(_) | Deliver(_) | Close(_) => StepConsumers(s, a)
    case _ => StepDrain(s, a)
  }

  function Run(s: System, acts: seq<Act>): System
    decreases |acts|
  {
    if acts == [] then s else Run(Step(s, acts[0]), acts[1..])
  }

  predicate Initial(s: System)
  {
    && s.sem == 0 && s.waitGroup == 0 && !s.canceled && s.workers == [] && s.consumers == []
    && s.contexts == [] && !s.shuttingDown && s.stopList == [] && s.drain.Idle?
  }

  // ---------------------------------------------------------------------------
  // Counting
  // ---------------------------------------------------------------------------

  function Holders(ws: seq<Worker>): nat
  {
    if ws == [] then 0 else (if ws[0].HoldsSlot() then 1 else 0) + Holders(ws[1..])
  }

  function Living(ws: seq<Worker>): nat
  {
    if ws == [] then 0 else (if ws[0].Live() then 1 else 0) + Living(ws[1..])
  }

  function HandlersRunning(ws: seq<Worker>): nat
  {
    if ws == [] then 0 else (if ws[0].phase.Running? then 1 else 0) + HandlersRunning(ws[1..])
  }

  lemma {:induction false} CountsAfterUpdate(ws: seq<Worker>, i: nat, w: Worker)
    requires i < |ws|
    ensures Holders(ws[i := w]) == Holders(ws) - (if ws[i].HoldsSlot() then 1 else 0) + if w.HoldsSlot() then 1 else 0
    ensures Living(ws[i := w]) == Living(ws) - (if ws[i].Live() then 1 else 0) + if w.Live() then 1 else 0
  {
    if i == 0 {
      assert ws[0 := w][1..] == ws[1..];
    } else {
      CountsAfterUpdate(ws[1..], i - 1, w);
      assert ws[i := w][1..] == ws[1..][i - 1 := w];
    }
  }

  lemma {:induction false} CountsAfterAppend(ws: seq<Worker>, w: Worker)
    ensures Holders(ws + [w]) == Holders(ws) + if w.HoldsSlot() then 1 else 0
    ensures Living(ws + [w]) == Living(ws) + if w.Live() then 1 else 0
  {
    if ws == [] {
      assert ws + [w] == [w];
    } else {
      CountsAfterAppend(ws[1..], w);
      assert (ws + [w])[1..] == ws[1..] + [w];
    }
  }

  lemma {:induction false} RunningHoldsSlots(ws: seq<Worker>)
    ensures HandlersRunning(ws) <= Holders(ws)
  {
    if ws != [] {
      RunningHoldsSlots(ws[1..]);
    }
  }

  lemma {:induction false} NoneLiving(ws: seq<Worker>, i: nat)
    requires Living(ws) == 0 && i < |ws|
    ensures ws[i].phase.Gone?
  {
    if i > 0 {
      NoneLiving(ws[1..], i - 1);
    }
  }

  // ---------------------------------------------------------------------------
  // Slots and settling
  // ---------------------------------------------------------------------------

  /** The semaphore counts the holders, the wait group the living. */
  predicate CountsInv(s: System)
  {
    s.sem == Holders(s.workers) && s.sem <= s.slots && s.waitGroup == Living(s.workers)
  }

  /** A message is settled by one call, after its fate is known and before its worker leaves. */
  predicate SettledRight(w: Worker)
  {
    match w.phase
    case Started | Trying | Waiting | Taken | Abandoned | Running => w.outcome.None? && w.settled == []
    case Handled => w.outcome.Some? && w.settled == []
    case Releasing => w.outcome.Some? && w.settled == [if w.outcome.value then Ack else NakWithDelay]
    case Leaving | Gone => w.settled == [if w.outcome.None? then Nak else if w.outcome.value then Ack else NakWithDelay]
  }

  predicate SettledInv(s: System)
  {
    forall i :: 0 <= i < |s.workers| ==> SettledRight(s.workers[i])
  }

  lemma AdvanceKeepsSlots(w: Worker, free: bool, canceled: bool, chance: Chance)
    requires SettledRight(w)
    ensures var n := Advance(w, free, canceled, chance);
            && SettledRight(n)
            && SlotChange(w, free, canceled, chance) ==
                 (if n.HoldsSlot() then 1 else 0) - (if w.HoldsSlot() then 1 else 0)
            && (SlotChange(w, free, canceled, chance) > 0 ==> free)
            && (w.Live() && !n.Live() <==> w.phase.Leaving?) && (!w.Live() ==> n == w)
            && n.consumer == w.consumer
  {
  }

  /** A queued worker takes a slot as soon as one is free and runs, unless it was canceled; then it gives its
      message back at once, and a slot won meanwhile with it. */
  lemma QueuedWorkersMoveOn(w: Worker, chance: Chance)
    requires w.phase.Trying? || w.phase.Waiting?
    ensures !chance.giveUp ==>
              Advance(Advance(w, true, false, chance), false, false, chance) == w.(phase := Running)
    ensures w.phase.Trying? ==> Advance(w, false, false, chance).phase.Waiting?
    ensures !chance.giveUp && w.settled == [] ==>
              var taken := Advance(w, true, true, chance);
              var left := Advance(Advance(taken, false, true, chance), false, true, chance);
              left.phase.Leaving? && left.settled == [Nak] && SlotChange(taken, false, true, chance) == -1
    ensures w.phase.Waiting? && chance.giveUp && w.settled == [] ==>
              Advance(Advance(w, false, true, chance), false, true, chance) == w.(phase := Leaving, settled := [Nak])
  {
  }

  lemma MoveKeepsCounts(s: System, i: nat, chance: Chance)
    requires CountsInv(s) && SettledInv(s)
    ensures CountsInv(StepWorker(s, i, chance)) && SettledInv(StepWorker(s, i, chance))
  {
    if i < |s.workers| {
      var free := s.sem < s.slots;
      AdvanceKeepsSlots(s.workers[i], free, s.canceled, chance);
      CountsAfterUpdate(s.workers, i, Advance(s.workers[i], free, s.canceled, chance));
    }
  }

  lemma ConsumersKeepCounts(s: System, a: Act)
    requires CountsInv(s) && SettledInv(s)
    ensures CountsInv(StepConsumers(s, a)) && SettledInv(StepConsumers(s, a))
  {
    if a.Deliver? {
      CountsAfterAppend(s.workers, Worker(a.c, Started, None, []));
    }
  }

  lemma StepKeepsCounts(s: System, a: Act)
    requires CountsInv(s) && SettledInv(s)
    ensures CountsInv(Step(s, a)) && SettledInv(Step(s, a)) && Step(s, a).slots == s.slots
  {
    if a.Move? {
      MoveKeepsCounts(s, a.w, a.chance);
    } else {
      ConsumersKeepCounts(s, a);
      DrainKeepsCounts(s, a);
    }
  }

  lemma DrainKeepsCounts(s: System, a: Act)
    ensures var n := StepDrain(s, a);
            n.workers == s.workers && n.sem == s.sem && n.waitGroup == s.waitGroup && n.slots == s.slots
  {
  }

  // ---------------------------------------------------------------------------
  // Shutdown
  // ---------------------------------------------------------------------------

  /** A closed consumer was told to stop and is out of its callback for good. */
  predicate ConsumersInv(s: System)
  {
    && (forall c ::
         0 <= c < |s.consumers| && s.consumers[c].closed ==> s.consumers[c].stopped && !s.consumers[c].inCallback)
    && (forall c :: 0 <= c < |s.consumers| && s.consumers[c].registered ==> c in s.contexts || c in s.stopList)
    && (s.drain.Idle? <==> !s.shuttingDown) && (s.shuttingDown ==> s.contexts == []) &&
         (s.drain.Idle? ==> s.stopList == [])
  }

  ghost predicate ClosedUpTo(s: System, n: nat)
  {
    forall k :: 0 <= k < n && k < |s.stopList| ==> IsClosed(s, s.stopList[k])
  }

  ghost predicate AllGone(s: System)
  {
    forall i :: 0 <= i < |s.workers| && s.workers[i].consumer in s.stopList ==> s.workers[i].phase.Gone?
  }

  /** While there is time left, every consumer passed so far has closed. */
  ghost predicate DrainInv(s: System)
  {
    match s.drain
    case Idle => true
    case Stopping(next) => s.deadline <= s.now || ClosedUpTo(s, next)
    case AwaitingClose(next) => s.deadline <= s.now || ClosedUpTo(s, next)
    case BeforeWait => s.deadline <= s.now || ClosedUpTo(s, |s.stopList|)
    case AwaitingWorkers => ClosedUpTo(s, |s.stopList|)
    case AfterWait(timedOut) => timedOut || (ClosedUpTo(s, |s.stopList|) && AllGone(s))
    case Returned(timedOut, path, isNil) =>
      (timedOut || (ClosedUpTo(s, |s.stopList|) && AllGone(s))) && (path.CallsDrain? && isNil ==> !timedOut)
  }

  ghost predicate Inv(s: System)
  {
    CountsInv(s) && SettledInv(s) && ConsumersInv(s) && DrainInv(s)
  }

  lemma ConsumersKeepShutdown(s: System, a: Act)
    requires ConsumersInv(s) && DrainInv(s)
    ensures ConsumersInv(StepConsumers(s, a)) && DrainInv(StepConsumers(s, a))
  {
    var n := StepConsumers(s, a);
    assert forall c :: IsClosed(s, c) ==> IsClosed(n, c);
    assert n.drain == s.drain && n.stopList == s.stopList && n.deadline == s.deadline && n.now == s.now;
    assert forall i :: 0 <= i < |s.workers| ==> n.workers[i] == s.workers[i];
    assert forall i :: |s.workers| <= i < |n.workers| ==> !IsClosed(s, n.workers[i].consumer);
    assert AllGone(s) && ClosedUpTo(s, |s.stopList|) ==> AllGone(n);
  }

  lemma MoveKeepsShutdown(s: System, i: nat, chance: Chance)
    requires ConsumersInv(s) && DrainInv(s) && SettledInv(s)
    ensures ConsumersInv(StepWorker(s, i, chance)) && DrainInv(StepWorker(s, i, chance))
  {
    var n := StepWorker(s, i, chance);
    if i < |s.workers| {
      AdvanceKeepsSlots(s.workers[i], s.sem < s.slots, s.canceled, chance);
      assert AllGone(s) ==> AllGone(n);
    }
  }

  lemma DrainKeepsShutdown(s: System, a: Act)
    requires Inv(s)
    ensures ConsumersInv(StepDrain(s, a)) && DrainInv(StepDrain(s, a))
  {
    if a.NextConsumer? {
      NextKeepsShutdown(s);
    } else if a.SawNoWorkers? {
      SeenEmptyMeansGone(s);
    }
  }

  lemma NextKeepsShutdown(s: System)
    requires ConsumersInv(s) && DrainInv(s)
    ensures ConsumersInv(StepDrain(s, NextConsumer)) && DrainInv(StepDrain(s, NextConsumer))
  {
    var n := StepDrain(s, NextConsumer);
    assert forall c :: IsClosed(s, c) ==> IsClosed(n, c);
  }

  lemma SeenEmptyMeansGone(s: System)
    requires Inv(s)
    ensures s.waitGroup == 0 ==> AllGone(s)
  {
    if s.waitGroup == 0 {
      forall i | 0 <= i < |s.workers| ensures s.workers[i].phase.Gone? {
        NoneLiving(s.workers, i);
      }
    }
  }

  /** A drain with time left tells each consumer on its list to stop, moves on when that one has closed, and
      waits for the workers only after the last; a consumer that registers too late is stopped as well. */
  lemma DrainStopsConsumers(s: System)
    requires Inv(s)
    ensures s.drain.Stopping? && s.now < s.deadline ==>
              if s.drain.next < |s.stopList| && s.stopList[s.drain.next] < |s.consumers|
              then var n := Step(s, NextConsumer);
                   && n.drain == AwaitingClose(s.drain.next) && n.consumers[s.stopList[s.drain.next]].stopped
                   && Step(n, Close(s.stopList[s.drain.next])).drain == n.drain
              else s.drain.next >= |s.stopList| ==> Step(s, NextConsumer).drain == BeforeWait
    ensures s.drain.AwaitingClose? && s.drain.next < |s.stopList| && IsClosed(s, s.stopList[s.drain.next]) ==>
              Step(s, SawClosed).drain == Stopping(s.drain.next + 1)
    ensures s.drain.BeforeWait? && s.now < s.deadline && s.waitGroup == 0 ==>
              Step(Step(s, BeginWait), SawNoWorkers).drain == AfterWait(false)
    ensures forall c: nat :: c < |s.consumers| && !s.consumers[c].decided ==>
              var n := Step(s, Register(c));
              if s.shuttingDown then n.consumers[c].stopped && !n.consumers[c].registered == !s.consumers[c].registered
              else n.consumers[c].registered && c in n.contexts
  {
  }

  lemma StepKeepsInv(s: System, a: Act)
    requires Inv(s)
    ensures Inv(Step(s, a))
  {
    StepKeepsCounts(s, a);
    match a
    case Move(i, chance) => MoveKeepsShutdown(s, i, chance);
    case StartConsumer | Register(_) | EnterCallback(_) | Deliver(_) | Close(_) => ConsumersKeepShutdown(s, a);
    case Cancel | Pass(_) =>
    case _ => DrainKeepsShutdown(s, a);
  }

  lemma {:induction false} RunKeepsInv(s: System, acts: seq<Act>)
    requires Inv(s)
    ensures Inv(Run(s, acts)) && Run(s, acts).slots == s.slots
    decreases |acts|
  {
    if acts != [] {
      StepKeepsInv(s, acts[0]);
      StepKeepsCounts(s, acts[0]);
      RunKeepsInv(Step(s, acts[0]), acts[1..]);
    }
  }

  // ---------------------------------------------------------------------------
  // Main results
  // ---------------------------------------------------------------------------

  /** Over every interleaving, running handlers never exceed the worker count. */
  lemma HandlersNeverExceedSlots(s: System, acts: seq<Act>)
    requires Initial(s)
    ensures HandlersRunning(Run(s, acts).workers) <= s.slots
  {
    RunKeepsInv(s, acts);
    RunningHoldsSlots(Run(s, acts).workers);
  }

  /** A receive from the semaphore is always by a worker that holds a slot, which it then no longer does. */
  lemma OnlyHeldSlotsAreReleased(s: System, acts: seq<Act>, a: Act)
    requires Initial(s) && Step(Run(s, acts), a).sem < Run(s, acts).sem
    ensures var before, after := Run(s, acts), Step(Run(s, acts), a);
            && a.Move? && a.w < |before.workers| && before.workers[a.w].HoldsSlot() && !after.workers[a.w].HoldsSlot()
            && after.sem == before.sem - 1 >= 0
  {
    RunKeepsInv(s, acts);
    ReleaseIsByHolder(Run(s, acts), a);
  }

  lemma ReleaseIsByHolder(s: System, a: Act)
    requires CountsInv(s) && SettledInv(s) && Step(s, a).sem < s.sem
    ensures a.Move? && a.w < |s.workers| && s.workers[a.w].HoldsSlot() && !Step(s, a).workers[a.w].HoldsSlot()
    ensures Step(s, a).sem == s.sem - 1 >= 0
  {
    assert a.Move?;
    MoveKeepsCounts(s, a.w, a.chance);
  }

  /** Every worker that has gone settled its message exactly once: acknowledged if the handler
      succeeded, delayed if it failed, returned at once if it never ran. */
  lemma SettledExactlyOnce(s: System, acts: seq<Act>, i: nat)
    requires Initial(s) && i < |Run(s, acts).workers|
    ensures var w := Run(s, acts).workers[i];
            && |w.settled| <= 1
            && (w.phase.Gone? ==>
                 w.settled == [if w.outcome.None? then Nak else if w.outcome.value then Ack else NakWithDelay])
  {
    RunKeepsInv(s, acts);
    assert SettledRight(Run(s, acts).workers[i]);
  }

  /** When a drain that called the connection's drain returns nil, every worker of every registered
      consumer is gone, and none of those consumers can start another. */
  lemma CleanDrainMeansWorkersFinished(s: System, acts: seq<Act>, i: nat)
    requires Initial(s) && i < |Run(s, acts).workers|
    requires var r := Run(s, acts); r.drain.Returned? && r.drain.path.CallsDrain? && r.drain.isNil
    requires OfRegistered(Run(s, acts), Run(s, acts).workers[i])
    ensures Run(s, acts).workers[i].phase.Gone? && Run(s, acts).consumers[Run(s, acts).workers[i].consumer].closed
  {
    RunKeepsInv(s, acts);
    var r := Run(s, acts);
    var c := r.workers[i].consumer;
    assert c in r.stopList;
    var k :| 0 <= k < |r.stopList| && r.stopList[k] == c;
    assert IsClosed(r, r.stopList[k]);
  }

  lemma {:induction false} RunThenStep(s: System, acts: seq<Act>, a: Act)
    ensures Run(s, acts + [a]) == Step(Run(s, acts), a)
    decreases |acts|
  {
    if acts == [] {
      assert [] + [a] == [a];
      assert Run(Step(s, a), []) == Step(s, a);
    } else {
      RunThenStep(Step(s, acts[0]), acts[1..], a);
      assert (acts + [a])[1..] == acts[1..] + [a];
    }
  }

  predicate OneRunning(s: System)
  {
    && |s.workers| == 1 && s.workers[0].phase.Running? && s.workers[0].consumer == 0
    && |s.consumers| == 1 && s.consumers[0].registered && s.contexts == [0] && s.drain.Idle? && s.connected
  }

  lemma DeliverOne(s: System) returns (acts: seq<Act>)
    requires Initial(s) && s.connected
    ensures NoDrain(acts)
    ensures Run(s, acts) == s.(workers := [Worker(0, Started, None, [])], waitGroup := 1, contexts := [0],
                               consumers := [Consumer(true, true, false, false, false)])
  {
    acts := [StartConsumer, Register(0), EnterCallback(0)];
    RunThree(s, acts);
    RunThenStep(s, acts, Deliver(0));
    var third := Step(Step(Step(s, StartConsumer), Register(0)), EnterCallback(0));
    assert third == s.(contexts := [0], consumers := [Consumer(true, true, false, true, false)]);
    acts := acts + [Deliver(0)];
  }

  lemma GetOneRunning(s: System) returns (acts: seq<Act>)
    requires Initial(s) && s.connected && s.slots > 0
    ensures NoDrain(acts) && OneRunning(Run(s, acts))
  {
    var first := DeliverOne(s);
    var go := Chance(false, true);
    var more := [Move(0, go), Move(0, go), Move(0, go)];
    RunThree(Run(s, first), more);
    RunsConcatenate(s, first, more);
    acts := first + more;
  }

  predicate NoDrain(acts: seq<Act>)
  {
    forall i :: 0 <= i < |acts| ==> !acts[i].BeginDrain?
  }

  /** Every drain in the run has this time to finish. */
  predicate Budgeted(acts: seq<Act>, budget: int)
  {
    forall i :: 0 <= i < |acts| && acts[i].BeginDrain? ==> acts[i].budget == budget
  }

  /** The consumer does not close in time, so the wait for its worker gets no time at all. */
  lemma DrainRunsOutOfTime(s: System, budget: nat) returns (acts: seq<Act>)
    requires OneRunning(s) && budget > 0
    ensures Budgeted(acts, budget)
    ensures Run(s, acts).drain == AfterWait(true) && StillRunning(Run(s, acts))
  {
    var first := [BeginDrain(budget), NextConsumer, Pass(budget)];
    var second := [CloseTimedOut, NextConsumer, BeginWait];
    ConsumerStaysOpen(s, budget, first);
    NoTimeToWait(Run(s, first), second);
    RunsConcatenate(s, first, second);
    acts := first + second;
  }

  lemma ConsumerStaysOpen(s: System, budget: nat, acts: seq<Act>)
    requires OneRunning(s) && budget > 0 && acts == [BeginDrain(budget), NextConsumer, Pass(budget)]
    ensures var r := Run(s, acts); r.drain == AwaitingClose(0) && r.deadline <= r.now && StillRunning(r)
  {
    RunThree(s, acts);
  }

  lemma NoTimeToWait(s: System, acts: seq<Act>)
    requires s.drain == AwaitingClose(0) && s.deadline <= s.now && StillRunning(s)
    requires acts == [CloseTimedOut, NextConsumer, BeginWait]
    ensures Run(s, acts).drain == AfterWait(true) && StillRunning(Run(s, acts))
  {
    RunThree(s, acts);
  }

  predicate StillRunning(s: System)
  {
    && |s.workers| == 1 && s.workers[0].phase.Running? && s.workers[0].consumer == 0
    && |s.consumers| == 1 && s.consumers[0].registered && s.connected
  }

  predicate OfRegistered(s: System, w: Worker)
  {
    w.consumer < |s.consumers| && s.consumers[w.consumer].registered
  }

  /** Every worker of every registered consumer is gone. */
  ghost predicate Finished(s: System)
  {
    forall i :: 0 <= i < |s.workers| && OfRegistered(s, s.workers[i]) ==> s.workers[i].phase.Gone?
  }

  predicate ReturnedNil(s: System, path: Path)
  {
    s.drain.Returned? && s.drain.path == path && s.drain.isNil
  }

  /** What a nil result is worth on a return path, for every interleaving. */
  ghost predicate NilMeansFinished(s: System, budget: int, path: Path)
  {
    forall acts: seq<Act> :: Budgeted(acts, budget) && ReturnedNil(Run(s, acts), path) ==> Finished(Run(s, acts))
  }

  lemma OtherPathsReturnEarly(s: System, budget: nat, path: Path) returns (acts: seq<Act>)
    requires Initial(s) && s.connected && s.slots > 0 && budget > 0 && (path.AlreadyClosed? || path.AlreadyDraining?)
    ensures Budgeted(acts, budget) && ReturnedNil(Run(s, acts), path) && StillRunning(Run(s, acts))
  {
    var first := GetOneRunning(s);
    var more := DrainRunsOutOfTime(Run(s, first), budget);
    var last := Finish(path, false, false, false);
    RunsConcatenate(s, first, more);
    RunThenStep(s, first + more, last);
    acts := first + more + [last];
  }

  /** Without a connection there is never a consumer or a worker, and only one return path; with one,
      that path is never taken. */
  lemma {:induction false} Disconnected(s: System, acts: seq<Act>)
    requires ConnectionInv(s)
    ensures ConnectionInv(Run(s, acts)) && Run(s, acts).connected == s.connected
    decreases |acts|
  {
    if acts != [] {
      StepKeepsConnection(s, acts[0]);
      Disconnected(Step(s, acts[0]), acts[1..]);
    }
  }

  predicate ConnectionInv(s: System)
  {
    && (s.connected || (s.consumers == [] && s.workers == []))
    && (s.drain.Returned? ==> (s.drain.path.NoConnection? <==> !s.connected))
  }

  lemma StepKeepsConnection(s: System, a: Act)
    requires ConnectionInv(s)
    ensures ConnectionInv(Step(s, a)) && Step(s, a).connected == s.connected
  {
  }

  /** What a nil result is worth, path by path. Whatever the drain timeout, it means that every worker of
      every registered consumer has finished if and only if it came from the path that calls the
      connection's drain, or the repository has no connection and so never had a worker. The paths for a
      closed or already draining connection return nil although the wait for the workers timed out and a
      handler is running. */
  lemma DrainIsExact(s: System, budget: nat, path: Path)
    requires Initial(s) && s.slots > 0 && budget > 0
    ensures NilMeansFinished(s, budget, path) <==> path.CallsDrain? || path.NoConnection? || !s.connected
  {
    if !s.connected || path.NoConnection? {
      forall acts: seq<Act> | Budgeted(acts, budget) && ReturnedNil(Run(s, acts), path) ensures Finished(Run(s, acts)) {
        Disconnected(s, acts);
      }
    } else if path.CallsDrain? {
      forall acts: seq<Act> | Budgeted(acts, budget) && ReturnedNil(Run(s, acts), path) ensures Finished(Run(s, acts)) {
        var r := Run(s, acts);
        forall i | 0 <= i < |r.workers| && OfRegistered(r, r.workers[i]) ensures r.workers[i].phase.Gone? {
          CleanDrainMeansWorkersFinished(s, acts, i);
        }
      }
    } else {
      var acts := OtherPathsReturnEarly(s, budget, path);
      var r := Run(s, acts);
      assert r.workers[0].consumer == 0 && !r.workers[0].phase.Gone?;
      assert !Finished(r);
    }
  }

  lemma RunThree(s: System, acts: seq<Act>)
    requires |acts| == 3
    ensures Run(s, acts) == Step(Step(Step(s, acts[0]), acts[1]), acts[2])
  {
    RunThenStep(s, [], acts[0]);
    assert [] + [acts[0]] == acts[..1];
    RunThenStep(s, acts[..1], acts[1]);
    assert acts[..1] + [acts[1]] == acts[..2];
    RunThenStep(s, acts[..2], acts[2]);
    assert acts[..2] + [acts[2]] == acts;
  }

  lemma {:induction false} RunsConcatenate(s: System, first: seq<Act>, second: seq<Act>)
    ensures Run(s, first + second) == Run(Run(s, first), second)
    decreases |first|
  {
    if first == [] {
      assert first + second == second;
    } else {
      RunsConcatenate(Step(s, first[0]), first[1..], second);
      assert (first + second)[1..] == first[1..] + second;
    }
  }
}
