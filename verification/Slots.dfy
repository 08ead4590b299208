/** One event, one slot: receipts and history records of different events never meet, and an erased
    event is refused wherever it comes up again. */
module Slots {
  import opened Text
  import opened Grammar
  import opened Projection
  import opened CurrentIndex
  import opened Repositories
  import opened Interleavings
  import opened AuditedRuns
  import opened Workflow

  // ---------------------------------------------------------------------------
  // Keys
  // ---------------------------------------------------------------------------

  predicate SameEvent(a: Envelope, b: Envelope)
  {
    a.publisher == b.publisher && a.eventId == b.eventId
  }

  /** Keys are equal exactly for the same publisher and event ID. */
  lemma KeysAreExact(a: Envelope, b: Envelope)
    requires PublisherName(a.publisher) && EventId(a.eventId) && PublisherName(b.publisher) && EventId(b.eventId)
    ensures a.Key() == b.Key() <==> SameEvent(a, b)
  {
    if a.Key() == b.Key() {
      KeysNeverCollide(a.publisher, a.eventId, b.publisher, b.eventId);
    }
  }

  /** The publisher and event ID an act names. */
  function EventOf(a: Act): Option<(string, string)>
  {
    match a
    case Receive(_, env) => Some((env.publisher, env.eventId))
    case Erase(publisher, eventId) => Some((publisher, eventId))
    case EraseReceipt(publisher, eventId) => Some((publisher, eventId))
    case _ => None
  }

  predicate TokensOk(event: (string, string))
  {
    PublisherName(event.0) && EventId(event.1)
  }

  ghost predicate Named(acts: seq<Act>, event: (string, string))
  {
    exists i :: 0 <= i < |acts| && EventOf(acts[i]) == Some(event)
  }

  ghost predicate AllTokensOk(acts: seq<Act>)
  {
    forall event :: Named(acts, event) ==> TokensOk(event)
  }

  /** Every slot is filed under the event it holds, and only named events have slots. */
  ghost predicate SlotsInv(s: System, acts: seq<Act>)
  {
    && (forall w :: w in s.workers ==> Named(acts, (s.workers[w].env.publisher, s.workers[w].env.eventId)))
    && (forall k :: k in s.store.receipts ==>
          var r := s.store.receipts[k]; k == Join(r.publisher, r.eventId) && Named(acts, (r.publisher, r.eventId)))
    && (forall k :: k in s.store.history ==> SlotOk(s.store.history[k], k, acts))
  }

  ghost predicate SlotOk(slot: Slot, k: string, acts: seq<Act>)
  {
    && (exists event :: Named(acts, event) && k == Join(event.0, event.1))
    && (slot.Record? ==> k == Join(slot.publisher, slot.eventId) && Named(acts, (slot.publisher, slot.eventId)))
  }

  lemma NamedStays(acts: seq<Act>, a: Act)
    ensures forall event :: Named(acts, event) ==> Named(acts + [a], event)
    ensures EventOf(a).Some? ==> Named(acts + [a], EventOf(a).value)
  {
    forall event | Named(acts, event) ensures Named(acts + [a], event) {
      var i :| 0 <= i < |acts| && EventOf(acts[i]) == Some(event);
      assert (acts + [a])[i] == acts[i];
    }
    assert (acts + [a])[|acts|] == a;
  }

  /** What one step can do to the slots. */
  lemma SlotsChange(s: System, a: Act)
    ensures forall k :: k in Step(s, a).store.receipts ==>
              || (k in s.store.receipts && SameName(Step(s, a).store.receipts[k], s.store.receipts[k]))
              || (&& a.Advance? && a.worker in s.workers && k == s.workers[a.worker].env.Key()
                  && Step(s, a).store.receipts[k] == ReceiptOf(s.workers[a.worker].env))
              || (&& a.EraseReceipt? && k == Join(a.publisher, a.eventId)
                  && Step(s, a).store.receipts[k].publisher == a.publisher
                  && Step(s, a).store.receipts[k].eventId == a.eventId)
    ensures forall k :: k in Step(s, a).store.history ==>
              || (k in s.store.history && Step(s, a).store.history[k] == s.store.history[k])
              || (&& a.Advance? && a.worker in s.workers && k == s.workers[a.worker].env.Key()
                  && Step(s, a).store.history[k] == RecordOf(s.workers[a.worker].env, a.now))
              || (a.Erase? && k == Join(a.publisher, a.eventId) && Step(s, a).store.history[k] == Fence)
  {
    if a.Advance? && a.worker in s.workers {
      match s.workers[a.worker].phase
      case CreatingReceipt =>
      case CreatingRecord =>
      case Projecting =>
      case _ =>
    }
  }

  predicate SameName(a: Receipt, b: Receipt)
  {
    a.publisher == b.publisher && a.eventId == b.eventId
  }

  lemma StepKeepsSlots(s: System, acts: seq<Act>, a: Act)
    requires SlotsInv(s, acts)
    ensures SlotsInv(Step(s, a), acts + [a])
  {
    var t, all := Step(s, a), acts + [a];
    NamedStays(acts, a);
    SlotsChange(s, a);
    OnlyTheActorMoves(s, a);
    forall w | w in t.workers ensures Named(all, (t.workers[w].env.publisher, t.workers[w].env.eventId)) {
      if w !in s.workers {
        assert a.Receive? && a.worker == w && t.workers[w].env == a.env;
      }
    }
    forall k | k in t.store.history ensures SlotOk(t.store.history[k], k, all) {
      if k in s.store.history && t.store.history[k] == s.store.history[k] {
        assert SlotOk(s.store.history[k], k, acts);
        var event :| Named(acts, event) && k == Join(event.0, event.1);
        assert Named(all, event);
      } else if a.Erase? {
        assert Named(all, (a.publisher, a.eventId));
      } else {
        var env := s.workers[a.worker].env;
        assert Named(all, (env.publisher, env.eventId));
      }
    }
  }

  lemma {:induction false} RunKeepsSlots(current: map<string, Source>, acts: seq<Act>)
    ensures SlotsInv(Run(Start(current), acts), acts)
  {
    if acts != [] {
      var n := |acts| - 1;
      RunKeepsSlots(current, acts[..n]);
      StepKeepsSlots(Run(Start(current), acts[..n]), acts[..n], acts[n]);
      assert acts == acts[..n] + [acts[n]];
    }
  }

  /** In every run over well-formed names, whatever is filed under an envelope's key is its own event's. */
  lemma EventsNeverShareSlots(current: map<string, Source>, acts: seq<Act>, env: Envelope)
    requires AllTokensOk(acts) && PublisherName(env.publisher) && EventId(env.eventId)
    ensures var st := Run(Start(current), acts).store;
            && (env.Key() in st.receipts ==>
                  st.receipts[env.Key()].publisher == env.publisher && st.receipts[env.Key()].eventId == env.eventId)
            && (env.Key() in st.history && st.history[env.Key()].Record? ==>
                  st.history[env.Key()].publisher == env.publisher && st.history[env.Key()].eventId == env.eventId)
  {
    RunKeepsSlots(current, acts);
    var st := Run(Start(current), acts).store;
    if env.Key() in st.receipts {
      var r := st.receipts[env.Key()];
      assert TokensOk((r.publisher, r.eventId));
      KeysNeverCollide(env.publisher, env.eventId, r.publisher, r.eventId);
    }
    if env.Key() in st.history && st.history[env.Key()].Record? {
      var r := st.history[env.Key()];
      assert SlotOk(r, env.Key(), acts) && TokensOk((r.publisher, r.eventId));
      KeysNeverCollide(env.publisher, env.eventId, r.publisher, r.eventId);
    }
  }

  /** And an event nobody has delivered or erased finds both its slots free, however many other publishers
      use its event ID. */
  lemma NewEventsFindFreeSlots(current: map<string, Source>, acts: seq<Act>, env: Envelope)
    requires AllTokensOk(acts) && PublisherName(env.publisher) && EventId(env.eventId)
    requires !Named(acts, (env.publisher, env.eventId))
    ensures var st := Run(Start(current), acts).store; env.Key() !in st.receipts && env.Key() !in st.history
  {
    RunKeepsSlots(current, acts);
    EventsNeverShareSlots(current, acts, env);
    var st := Run(Start(current), acts).store;
    if env.Key() in st.history {
      assert SlotOk(st.history[env.Key()], env.Key(), acts);
      var event :| Named(acts, event) && env.Key() == Join(event.0, event.1);
      assert TokensOk(event);
      KeysNeverCollide(env.publisher, env.eventId, event.0, event.1);
    }
  }

  // ---------------------------------------------------------------------------
  // Erasure
  // ---------------------------------------------------------------------------

  /** After its erasure, no attempt at a mutation succeeds or touches a current document. */
  lemma ErasedMutationFails(st: Store, env: Envelope, plan: Plan, now: int)
    requires env.origin == Mutation && Fenced(st.history, env)
    ensures !Tries(st, env, plan, now).ok && Tries(st, env, plan, now).store.current == st.current
    ensures Fenced(Tries(st, env, plan, now).store.history, env)
  {
  }

  /** An erased receipt shuts out its event, mutation or not. */
  lemma ErasedReceiptIsRefused(st: Store, env: Envelope, plan: Plan, now: int)
    requires env.Key() in st.receipts && st.receipts[env.Key()].erased
    ensures !Tries(st, env, plan, now).ok && Tries(st, env, plan, now).store.current == st.current
    ensures Tries(st, env, plan, now).store.history == st.history
  {
  }

  predicate IsErased(env: Envelope, publisher: string, eventId: string)
  {
    env.origin == Mutation && env.publisher == publisher && env.eventId == eventId
  }

  /** Workers of the erased event that had not passed history yet never will. */
  ghost predicate LateInv(s0: System, s: System, publisher: string, eventId: string)
  {
    && Join(publisher, eventId) in s.store.history && s.store.history[Join(publisher, eventId)] == Fence
    && (forall w :: w in s.workers && IsErased(s.workers[w].env, publisher, eventId) ==>
          EarlyBird(s0, w) || BeforeHistory(s.workers[w].phase) || s.workers[w].phase == Failed)
    && |s0.writes| <= |s.writes|
    && (forall i :: |s0.writes| <= i < |s.writes| && IsErased(s.writes[i].env, publisher, eventId) ==>
          EarlyBird(s0, s.writes[i].worker))
  }

  predicate EarlyBird(s0: System, w: nat)
  {
    w in s0.workers && PastHistory(s0.workers[w].phase)
  }

  lemma ErasedActorStaysOut(s: System, a: Act, publisher: string, eventId: string)
    requires a.Advance? && a.worker in s.workers && IsErased(s.workers[a.worker].env, publisher, eventId)
    requires Join(publisher, eventId) in s.store.history && s.store.history[Join(publisher, eventId)] == Fence
    requires BeforeHistory(s.workers[a.worker].phase) || s.workers[a.worker].phase == Failed
    ensures var p := Step(s, a).workers[a.worker].phase; BeforeHistory(p) || p == Failed
    ensures Step(s, a).writes == s.writes
  {
    match s.workers[a.worker].phase
    case CreatingReceipt =>
    case VerifyingReceipt =>
    case CreatingRecord =>
    case VerifyingRecord =>
    case Failed =>
  }

  lemma StepKeepsLate(s0: System, s: System, a: Act, publisher: string, eventId: string)
    requires LateInv(s0, s, publisher, eventId)
    ensures LateInv(s0, Step(s, a), publisher, eventId)
  {
    var t := Step(s, a);
    StepExtends(s, a);
    OnlyTheActorMoves(s, a);
    WritesAreLogged(s, a);
    var late := a.Advance? && a.worker in s.workers && IsErased(s.workers[a.worker].env, publisher, eventId) &&
                !EarlyBird(s0, a.worker);
    if late {
      ErasedActorStaysOut(s, a, publisher, eventId);
    }
    forall w | w in t.workers && IsErased(t.workers[w].env, publisher, eventId)
      ensures EarlyBird(s0, w) || BeforeHistory(t.workers[w].phase) || t.workers[w].phase == Failed
    {
      if w in s.workers && Actor(a) == Some(w) && a.Crash? {
        assert t.workers[w].phase == Failed || t.workers[w] == s.workers[w];
      }
    }
  }

  lemma {:induction false} RunKeepsLate(s0: System, s: System, acts: seq<Act>, publisher: string, eventId: string)
    requires LateInv(s0, s, publisher, eventId)
    ensures LateInv(s0, Run(s, acts), publisher, eventId)
  {
    if acts != [] {
      var n := |acts| - 1;
      RunKeepsLate(s0, s, acts[..n], publisher, eventId);
      StepKeepsLate(s0, Run(s, acts[..n]), acts[n], publisher, eventId);
    }
  }

  /** Erasure over whole runs: from the moment an event is erased, in any continuation with any
      redeliveries, its mutation reaches the current index only through workers that had passed history
      before. */
  lemma NoWritesAfterErasure(s: System, publisher: string, eventId: string, acts: seq<Act>, i: nat)
    requires var r := Run(Step(s, Erase(publisher, eventId)), acts);
             |s.writes| <= i < |r.writes| && IsErased(r.writes[i].env, publisher, eventId)
    ensures var r := Run(Step(s, Erase(publisher, eventId)), acts);
            r.writes[i].worker in s.workers && PastHistory(s.workers[r.writes[i].worker].phase)
  {
    var t := Step(s, Erase(publisher, eventId));
    assert LateInv(s, t, publisher, eventId);
    RunKeepsLate(s, t, acts, publisher, eventId);
  }

  // ---------------------------------------------------------------------------
  // Success
  // ---------------------------------------------------------------------------

  predicate ReceiptAdmits(st: Store, env: Envelope)
  {
    env.Key() in st.receipts ==>
      var r := st.receipts[env.Key()];
      && r.publisher == env.publisher && r.eventId == env.eventId && r.origin == env.origin
      && r.fingerprint == env.fingerprint && !r.erased
  }

  predicate HistoryAdmits(st: Store, env: Envelope)
  {
    env.origin == Mutation && env.Key() in st.history ==>
      var r := st.history[env.Key()];
      && r.Record? && r.publisher == env.publisher && r.eventId == env.eventId && r.fingerprint == env.fingerprint
      && r.objectType == env.objectType && r.objectId == env.objectId && r.revision == env.revision
      && r.action == env.action
  }

  /** An undisturbed attempt succeeds exactly when both slots are free or hold this very event, and the
      script accepts it and is read well. It then leaves its receipt, for a mutation its record, and a
      document of at least its revision, and touches no other slot or document. */
  lemma SucceedsExactly(st: Store, env: Envelope, now: int)
    ensures var o := Tries(st, env, UNINTERRUPTED, now);
            && (o.ok <==> && ReceiptAdmits(st, env) && HistoryAdmits(st, env) && !Misread(st, env)
                          && Judge(Stored(st, env.Ref()), env.ToEvent()) != Refuse)
            && (o.ok ==>
                  && env.Key() in o.store.receipts && ReceiptAdmits(o.store, env)
                  && (env.origin == Mutation ==> env.Key() in o.store.history && HistoryAdmits(o.store, env))
                  && (env.origin != Mutation ==> o.store.history == st.history)
                  && env.Ref() in o.store.current && o.store.current[env.Ref()].revision.Some?
                  && o.store.current[env.Ref()].revision.value >= env.revision)
            && (forall k :: k in st.receipts ==> k in o.store.receipts && o.store.receipts[k] == st.receipts[k])
            && (forall k :: k in st.history ==> k in o.store.history && o.store.history[k] == st.history[k])
            && (forall ref :: ref != env.Ref() ==> Stored(o.store, ref) == Stored(st, ref))
  {
  }

  /** A completed attempt whose answer arrived notifies exactly when it replaced the body. */
  lemma NotifiesExactlyWhenReplaced(st: Store, env: Envelope, plan: Plan, now: int)
    requires GuardedOrAbsent(Stored(st, env.Ref())) && CurrentIndex.Named(Stored(st, env.Ref()))
    requires WellNamed(env.ToEvent())
    ensures Sends(st, env, plan, now) ==
              if Tries(st, env, plan, now).ok && plan.notify != NotSent &&
                 Judge(Stored(st, env.Ref()), env.ToEvent()) == Replace
              then [Notice(0, env.Key())] else []
  {
    ReadingIsExact(Stored(st, env.Ref()), env.ToEvent());
  }

  /** A delete is projected as a tombstone of its time, anything else as a live document updated then, in
      both cases latest, under the reference of its resource, and stamped with its own identity. */
  lemma DeletesBecomeTombstones(env: Envelope)
    ensures var e := env.ToEvent();
            && e.document.objectRef == Join(env.objectType, env.objectId) && e.document.latest
            && e.document.payload == env.payload
            && (env.action == WasDelete ==>
                  e.document.deletedAt == Some(env.occurredAt) && e.document.updatedAt.None?)
            && (env.action != WasDelete ==>
                  e.document.updatedAt == Some(env.occurredAt) && e.document.deletedAt.None?)
            && e.identity == Join(env.publisher, env.eventId) && e.orderTime == env.occurredAt
            && e.revision == env.revision && e.fingerprint == env.fingerprint && e.origin == env.origin
  {
  }
}
