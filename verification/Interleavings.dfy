/** Audited processing as a transition system: any number of workers, each one storage request at
    a time, with lost answers, crashes, redeliveries and erasures between any two requests. */
module Interleavings {
  import opened Text
  import opened Grammar
  import opened Projection
  import opened CurrentIndex
  import opened Repositories

  datatype Phase =
    | CreatingReceipt | VerifyingReceipt | CreatingRecord | VerifyingRecord
    | Projecting | Cleaning | Notifying | Done | Failed

  datatype Worker = Worker(env: Envelope, phase: Phase, applied: bool, requests: nat)

  datatype Store = Store(receipts: map<string, Receipt>, history: map<string, Slot>, current: map<string, Source>)

  /** One script run that reached the shard, and whether it replaced the body. */
  datatype Write = Write(worker: nat, env: Envelope, replaced: bool)

  datatype Notice = Notice(worker: nat, eventId: string)

  datatype System = System(
    store: Store,
    workers: map<nat, Worker>,
    writes: seq<Write>,
    cleanups: seq<string>,
    notices: seq<Notice>)

  datatype Act =
    | Receive(worker: nat, env: Envelope)
    | Advance(worker: nat, reply: Reply, now: int)
    | Crash(worker: nat)
    | Erase(publisher: string, eventId: string)
    | EraseReceipt(publisher: string, eventId: string)

  function Stored(st: Store, ref: string): Option<Source>
  {
    Lookup(st.current, ref)
  }

  function WithCurrent(st: Store, ref: string, d: Option<Source>): Store
  {
    st.(current := Put(st.current, ref, d))
  }

  function AfterReceipt(env: Envelope): Phase
  {
    if env.origin == Mutation then CreatingRecord else Projecting
  }

  predicate Running(p: Phase)
  {
    p != Done && p != Failed
  }

  function Step(s: System, a: Act): System
  {
    match a
    case Receive(w, env) =>
      if w in s.workers then s else s.(workers := s.workers[w := Worker(env, CreatingReceipt, false, 0)])
    case Advance(w, reply, now) =>
      if w in s.workers then AdvanceWorker(s, w, reply, now) else s
    case Crash(w) =>
      if w in s.workers && Running(s.workers[w].phase) then MoveTo(s, w, Failed) else s
    case Erase(publisher, eventId) =>
      s.(store := s.store.(history := s.store.history[Join(publisher, eventId) := Fence]))
    case EraseReceipt(publisher, eventId) =>
      var key := Join(publisher, eventId);
      var held := if key in s.store.receipts then s.store.receipts[key]
                  else Receipt(publisher, eventId, Mutation, "", true);
      s.(store := s.store.(receipts := s.store.receipts[key := held.(erased := true)]))
  }

  function MoveTo(s: System, w: nat, p: Phase): System
    requires w in s.workers
  {
    s.(workers := s.workers[w := s.workers[w].(phase := p)])
  }

  /** The worker issues one request and, if it is answered, moves on. */
  function Request(s: System, w: nat, p: Phase): System
    requires w in s.workers
  {
    s.(workers := s.workers[w := s.workers[w].(phase := p, requests := s.workers[w].requests + 1)])
  }

  function AdvanceWorker(s: System, w: nat, reply: Reply, now: int): System
    requires w in s.workers
  {
    var env := s.workers[w].env;
    var st := s.store;
    match s.workers[w].phase
    case CreatingReceipt =>
      var s' := s.(store := st.(receipts := CreateReceipt(st.receipts, env, reply)));
      Request(s', w, if reply != Answered then Failed else if env.Key() in st.receipts then VerifyingReceipt
        else AfterReceipt(env))
    case VerifyingReceipt =>
      Request(s, w, if reply == Answered && ReceiptMatches(st.receipts, env) then AfterReceipt(env) else Failed)
    case CreatingRecord =>
      var s' := s.(store := st.(history := CreateRecord(st.history, env, now, reply)));
      Request(s', w, if reply != Answered then Failed else if env.Key() in st.history then VerifyingRecord
        else Projecting)
    case VerifyingRecord =>
      Request(s, w, if reply == Answered && RecordMatches(st.history, env) then Projecting else Failed)
    case Projecting =>
      Project(s, w, reply)
    case Cleaning =>
      var s' := s.(cleanups := s.cleanups + [env.Ref()]);
      MoveTo(s', w, if s.workers[w].applied then Notifying else Done)
    case Notifying =>
      var s' := if reply == NotSent then s else s.(notices := s.notices + [Notice(w, env.Key())]);
      MoveTo(s', w, Done)
    case Done => s
    case Failed => s
  }

  function Project(s: System, w: nat, reply: Reply): System
    requires w in s.workers
  {
    var env := s.workers[w].env;
    var before := Stored(s.store, env.Ref());
    var reading := ReadScript(before, env.ToEvent());
    var s1 := if reply == NotSent then s else
      s.(store := WithCurrent(s.store, env.Ref(), After(before, env.ToEvent())),
         writes := s.writes + [Write(w, env, Judge(before, env.ToEvent()) == Replace)]);
    var s2 := Request(s1, w, if reply == Answered && !reading.ApplyFailed? then Cleaning else Failed);
    if reply == Answered && reading == Applied
    then s2.(workers := s2.workers[w := s2.workers[w].(applied := true)]) else s2
  }

  function Run(s: System, acts: seq<Act>): System
  {
    if acts == [] then s else Step(Run(s, acts[..|acts| - 1]), acts[|acts| - 1])
  }

  /** Legacy documents carry no audit field at all. */
  predicate Legacy(d: Source)
  {
    d == EMPTY_SOURCE.(body := d.body)
  }

  function Start(current: map<string, Source>): System
  {
    System(Store(map[], map[], current), map[], [], [], [])
  }

  /** Deliveries draw from `u`; an injective hash makes fingerprints identify envelopes. */
  ghost predicate CollisionFree(u: set<Envelope>)
  {
    && (forall a, b :: a in u && b in u && a.fingerprint == b.fingerprint ==> a == b)
    && (forall a :: a in u ==> a.fingerprint != "")
  }

  ghost predicate Draws(acts: seq<Act>, u: set<Envelope>)
  {
    forall i :: 0 <= i < |acts| && acts[i].Receive? ==> acts[i].env in u
  }

  // ---------------------------------------------------------------------------
  // What every reachable state satisfies
  // ---------------------------------------------------------------------------

  predicate ReceiptHeld(st: Store, env: Envelope)
  {
    && env.Key() in st.receipts
    && st.receipts[env.Key()].fingerprint == env.fingerprint
    && st.receipts[env.Key()].origin == env.origin
  }

  predicate HistoryHeld(st: Store, key: string, fingerprint: string)
  {
    key in st.history && (st.history[key].Record? ==> st.history[key].fingerprint == fingerprint)
  }

  predicate PastReceipt(p: Phase)
  {
    p == CreatingRecord || p == VerifyingRecord || PastHistory(p)
  }

  predicate PastHistory(p: Phase)
  {
    p == Projecting || p == Cleaning || p == Notifying || p == Done
  }

  ghost predicate WorkersInv(s: System, u: set<Envelope>)
  {
    forall w :: w in s.workers ==> s.workers[w].env in u && WorkerOk(s.store, s.workers[w])
  }

  /** Every stamp on a document was reserved by a receipt; every mutation stamp has its history. */
  predicate StampsHeld(st: Store, d: Source)
  {
    && (d.eventKey.Some? ==>
          d.eventKey.value in st.receipts && d.eventFingerprint == Some(st.receipts[d.eventKey.value].fingerprint))
    && (d.mutationKey.Some? ==>
          d.mutationFingerprint.Some? && HistoryHeld(st, d.mutationKey.value, d.mutationFingerprint.value))
  }

  predicate DocumentsInv(s: System)
  {
    forall ref :: ref in s.store.current ==> DocumentOk(s.store, s.store.current[ref])
  }

  // ---------------------------------------------------------------------------
  // Identity and history only accumulate
  // ---------------------------------------------------------------------------

  /** A receipt keeps its content for ever, and a history slot changes only into a fence. */
  ghost predicate Extends(st: Store, st': Store)
  {
    && (forall k :: k in st.receipts ==>
          k in st'.receipts && st'.receipts[k].fingerprint == st.receipts[k].fingerprint &&
            st'.receipts[k].origin == st.receipts[k].origin)
    && (forall k ::
         k in st.history ==> k in st'.history && (st'.history[k] == st.history[k] || st'.history[k] == Fence))
  }

  lemma StepExtends(s: System, a: Act)
    ensures Extends(s.store, Step(s, a).store)
  {
    if a.Advance? && a.worker in s.workers {
      match s.workers[a.worker].phase
      case CreatingReceipt =>
      case CreatingRecord =>
      case Projecting =>
      case _ =>
    }
  }

  lemma HeldStays(st: Store, st': Store, env: Envelope)
    requires Extends(st, st')
    ensures ReceiptHeld(st, env) ==> ReceiptHeld(st', env)
    ensures HistoryHeld(st, env.Key(), env.fingerprint) ==> HistoryHeld(st', env.Key(), env.fingerprint)
  {
  }

  lemma StampsStay(st: Store, st': Store, d: Source)
    requires Extends(st, st') && StampsHeld(st, d)
    ensures StampsHeld(st', d)
  {
  }

  predicate WorkerOk(st: Store, k: Worker)
  {
    && (PastReceipt(k.phase) ==> ReceiptHeld(st, k.env))
    && (PastHistory(k.phase) && k.env.origin == Mutation ==> HistoryHeld(st, k.env.Key(), k.env.fingerprint))
  }

  function Actor(a: Act): Option<nat>
  {
    match a
    case Receive(w, _) => Some(w)
    case Advance(w, _, _) => Some(w)
    case Crash(w) => Some(w)
    case _ => None
  }

  lemma OnlyTheActorMoves(s: System, a: Act)
    ensures forall w :: Actor(a) != Some(w) ==> (w in Step(s, a).workers <==> w in s.workers)
    ensures forall w :: Actor(a) != Some(w) && w in s.workers ==> Step(s, a).workers[w] == s.workers[w]
    ensures forall w :: w in s.workers ==> w in Step(s, a).workers && Step(s, a).workers[w].env == s.workers[w].env
    ensures forall w :: w in Step(s, a).workers && w !in s.workers ==>
              a.Receive? && a.worker == w && Step(s, a).workers[w] == Worker(a.env, CreatingReceipt, false, 0)
  {
    if a.Advance? && a.worker in s.workers {
      match s.workers[a.worker].phase
      case Projecting =>
      case _ =>
    }
  }

  lemma ActorStaysOk(s: System, w: nat, reply: Reply, now: int)
    requires w in s.workers && WorkerOk(s.store, s.workers[w])
    ensures WorkerOk(AdvanceWorker(s, w, reply, now).store, AdvanceWorker(s, w, reply, now).workers[w])
  {
    match s.workers[w].phase
    case CreatingReceipt =>
    case VerifyingReceipt =>
    case CreatingRecord =>
    case VerifyingRecord =>
    case Projecting =>
    case _ =>
  }

  lemma StepKeepsWorkers(s: System, u: set<Envelope>, a: Act)
    requires WorkersInv(s, u) && (a.Receive? ==> a.env in u)
    ensures WorkersInv(Step(s, a), u)
  {
    var s' := Step(s, a);
    StepExtends(s, a);
    OnlyTheActorMoves(s, a);
    forall w | w in s'.workers ensures s'.workers[w].env in u && WorkerOk(s'.store, s'.workers[w]) {
      if w in s.workers {
        if a.Advance? && a.worker == w {
          ActorStaysOk(s, w, a.reply, a.now);
        } else {
          HeldStays(s.store, s'.store, s.workers[w].env);
        }
      }
    }
  }

  /** A projecting worker leaves a document whose stamps are all held. */
  lemma ProjectedStampsHeld(st: Store, env: Envelope)
    requires ReceiptHeld(st, env)
    requires env.origin == Mutation ==> HistoryHeld(st, env.Key(), env.fingerprint)
    requires Stored(st, env.Ref()).Some? ==> StampsHeld(st, Stored(st, env.Ref()).value)
    ensures After(Stored(st, env.Ref()), env.ToEvent()).Some? ==>
        StampsHeld(st, After(Stored(st, env.Ref()), env.ToEvent()).value)
  {
  }

  predicate DocumentOk(st: Store, d: Source)
  {
    StampsHeld(st, d) && (Legacy(d) || Guarded(d)) && Named(Some(d))
  }

  lemma StepKeepsDocuments(s: System, u: set<Envelope>, a: Act)
    requires WorkersInv(s, u) && DocumentsInv(s) && CollisionFree(u)
    ensures DocumentsInv(Step(s, a))
  {
    var s' := Step(s, a);
    StepExtends(s, a);
    forall ref | ref in s'.store.current ensures DocumentOk(s'.store, s'.store.current[ref]) {
      if ref in s.store.current && s'.store.current[ref] == s.store.current[ref] {
        StampsStay(s.store, s'.store, s.store.current[ref]);
      } else {
        OnlyProjectingWrites(s, a, ref);
        var env := s.workers[a.worker].env;
        var before := Stored(s.store, ref);
        ProjectedStampsHeld(s.store, env);
        AfterIsGuarded(before, env.ToEvent());
        ReadingIsExact(before, env.ToEvent());
      }
    }
  }

  /** The current index changes only by a projecting worker's own script run. */
  lemma OnlyProjectingWrites(s: System, a: Act, ref: string)
    requires Stored(Step(s, a).store, ref) != Stored(s.store, ref)
    ensures a.Advance? && a.reply != NotSent && a.worker in s.workers
    ensures s.workers[a.worker].phase == Projecting && s.workers[a.worker].env.Ref() == ref
    ensures Stored(Step(s, a).store, ref) == After(Stored(s.store, ref), s.workers[a.worker].env.ToEvent())
    ensures Step(s, a).store == s.store.(current := Step(s, a).store.current)
  {
    match s.workers[a.worker].phase
    case Projecting =>
    case _ =>
  }
}
