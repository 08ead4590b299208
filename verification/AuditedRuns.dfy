/** Theorems over whole runs of audited processing: history before current, permanent fences,
    one notification per event, a request budget, and convergence of the current index. */
module AuditedRuns {
  import opened Text
  import opened Projection
  import opened Convergence
  import opened CurrentIndex
  import opened Repositories
  import opened Interleavings

  // ---------------------------------------------------------------------------
  // The write log
  // ---------------------------------------------------------------------------

  ghost predicate AtLeast(d: Option<Source>, e: Event)
  {
    d.Some? && Guarded(d.value) && (RankOfDoc(d.value) == RankOf(e) || Below(RankOf(e), RankOfDoc(d.value)))
  }

  ghost predicate WriteOk(s: System, u: set<Envelope>, x: Write)
  {
    && x.env in u
    && ReceiptHeld(s.store, x.env)
    && (x.replaced ==> AtLeast(Stored(s.store, x.env.Ref()), x.env.ToEvent()))
  }

  /** Logged writes hold their receipts, replaced bodies are never outranked by what follows, and
      no event replaces a body twice. */
  ghost predicate LogInv(s: System, u: set<Envelope>)
  {
    && (forall i :: 0 <= i < |s.writes| ==> WriteOk(s, u, s.writes[i]))
    && (forall i, j :: 0 <= i < j < |s.writes| && s.writes[i].replaced && s.writes[j].replaced ==>
          s.writes[i].env.Key() != s.writes[j].env.Key())
  }

  lemma AtLeastStays(d: Option<Source>, e: Event, x: Event)
    requires AtLeast(d, x)
    ensures AtLeast(After(d, e), x)
  {
    BodyReplacementRaisesRank(d.value, e);
    if Below(RankOf(x), RankOfDoc(d.value)) && Below(RankOfDoc(d.value), RankOf(e)) {
      BelowTransitive(RankOf(x), RankOfDoc(d.value), RankOf(e));
    }
  }

  lemma ReplacingIsNew(d: Option<Source>, e: Event)
    requires AtLeast(d, e)
    ensures Judge(d, e) != Replace
  {
    BodyReplacementRaisesRank(d.value, e);
    BelowIrreflexive(RankOf(e));
    if Below(RankOf(e), RankOfDoc(d.value)) && Below(RankOfDoc(d.value), RankOf(e)) {
      BelowTransitive(RankOf(e), RankOfDoc(d.value), RankOf(e));
    }
  }

  lemma WritesAreLogged(s: System, a: Act)
    ensures Step(s, a).writes == s.writes ||
            (a.Advance? && a.worker in s.workers && s.workers[a.worker].phase == Projecting && a.reply != NotSent &&
             var env := s.workers[a.worker].env;
             var before := Stored(s.store, env.Ref());
             Step(s, a).writes == s.writes + [Write(a.worker, env, Judge(before, env.ToEvent()) == Replace)] &&
             Stored(Step(s, a).store, env.Ref()) == After(before, env.ToEvent()))
  {
    if a.Advance? && a.worker in s.workers {
      match s.workers[a.worker].phase
      case Projecting =>
      case _ =>
    }
  }

  lemma OldWriteStaysOk(s: System, u: set<Envelope>, a: Act, x: Write)
    requires WriteOk(s, u, x)
    ensures WriteOk(Step(s, a), u, x)
  {
    StepExtends(s, a);
    HeldStays(s.store, Step(s, a).store, x.env);
    var ref := x.env.Ref();
    if x.replaced && Stored(Step(s, a).store, ref) != Stored(s.store, ref) {
      OnlyProjectingWrites(s, a, ref);
      AtLeastStays(Stored(s.store, ref), s.workers[a.worker].env.ToEvent(), x.env.ToEvent());
    }
  }

  lemma NewWriteIsAtLeast(before: Option<Source>, e: Event)
    requires GuardedOrAbsent(before)
    ensures Judge(before, e) == Replace ==> AtLeast(After(before, e), e)
  {
    AfterIsGuarded(before, e);
    if before.Some? && Guarded(before.value) {
      BodyReplacementRaisesRank(before.value, e);
    }
  }

  lemma StepKeepsLog(s: System, u: set<Envelope>, a: Act)
    requires CollisionFree(u) && WorkersInv(s, u) && DocumentsInv(s) && LogInv(s, u)
    ensures LogInv(Step(s, a), u)
  {
    var s' := Step(s, a);
    WritesAreLogged(s, a);
    var n := |s.writes|;
    forall i | 0 <= i < n ensures WriteOk(s', u, s.writes[i]) {
      OldWriteStaysOk(s, u, a, s.writes[i]);
    }
    if s'.writes != s.writes {
      var env := s.workers[a.worker].env;
      var before := Stored(s.store, env.Ref());
      var e := env.ToEvent();
      StepExtends(s, a);
      HeldStays(s.store, s'.store, env);
      AfterIsGuarded(before, e);
      NewWriteIsAtLeast(before, e);
      assert WriteOk(s', u, s'.writes[n]);
      forall i | 0 <= i < n && s.writes[i].replaced && s'.writes[n].replaced
        ensures s.writes[i].env.Key() != env.Key()
      {
        if s.writes[i].env.Key() == env.Key() {
          assert s.writes[i].env == env;
          ReplacingIsNew(before, e);
        }
      }
    }
  }

  // ---------------------------------------------------------------------------
  // Workers, their writes and their notices
  // ---------------------------------------------------------------------------

  predicate Wrote(s: System, w: nat, env: Envelope, replaced: bool)
  {
    exists i :: 0 <= i < |s.writes| && s.writes[i] == Write(w, env, replaced)
  }

  predicate TraceOk(s: System, w: nat, k: Worker)
  {
    && (k.applied ==> k.phase == Cleaning || k.phase == Notifying || k.phase == Done || k.phase == Failed)
    && (k.phase == Notifying ==> k.applied)
    && (k.applied ==> Wrote(s, w, k.env, true))
    && (k.phase == Cleaning || k.phase == Notifying || k.phase == Done ==> Wrote(s, w, k.env, k.applied))
  }

  predicate NoticeOk(s: System, n: Notice)
  {
    && n.worker in s.workers && s.workers[n.worker].phase == Done && s.workers[n.worker].applied
    && n.eventId == s.workers[n.worker].env.Key()
  }

  predicate TraceInv(s: System)
  {
    && (forall w :: w in s.workers ==> TraceOk(s, w, s.workers[w]))
    && (forall i :: 0 <= i < |s.notices| ==> NoticeOk(s, s.notices[i]))
    && (forall i, j :: 0 <= i < j < |s.notices| ==> s.notices[i].worker != s.notices[j].worker)
  }

  lemma WroteStays(s: System, a: Act, w: nat, env: Envelope, replaced: bool)
    requires Wrote(s, w, env, replaced)
    ensures Wrote(Step(s, a), w, env, replaced)
  {
    WritesAreLogged(s, a);
    var i :| 0 <= i < |s.writes| && s.writes[i] == Write(w, env, replaced);
    assert Step(s, a).writes[i] == Write(w, env, replaced);
  }

  lemma ProjectingTrace(s: System, u: set<Envelope>, a: Act)
    requires CollisionFree(u) && WorkersInv(s, u) && DocumentsInv(s)
    requires a.Advance? && a.worker in s.workers && s.workers[a.worker].phase == Projecting
    requires TraceOk(s, a.worker, s.workers[a.worker])
    ensures TraceOk(Step(s, a), a.worker, Step(s, a).workers[a.worker])
  {
    var w, k, s' := a.worker, s.workers[a.worker], Step(s, a);
    var before := Stored(s.store, k.env.Ref());
    if before.Some? {
      assert DocumentOk(s.store, before.value);
    }
    ReadingIsExact(before, k.env.ToEvent());
    if a.reply != NotSent {
      WritesAreLogged(s, a);
      assert s'.writes[|s.writes|] == Write(w, k.env, Judge(before, k.env.ToEvent()) == Replace);
    }
  }

  lemma OtherPhaseTrace(s: System, a: Act)
    requires a.Advance? && a.worker in s.workers && s.workers[a.worker].phase != Projecting
    requires TraceOk(s, a.worker, s.workers[a.worker])
    ensures TraceOk(Step(s, a), a.worker, Step(s, a).workers[a.worker])
  {
    match s.workers[a.worker].phase
    case CreatingReceipt =>
    case VerifyingReceipt =>
    case CreatingRecord =>
    case VerifyingRecord =>
    case Cleaning =>
    case Notifying =>
    case _ =>
  }

  lemma NoticesGrow(s: System, a: Act)
    ensures Step(s, a).notices == s.notices ||
            (a.Advance? && a.worker in s.workers && s.workers[a.worker].phase == Notifying &&
             Step(s, a).notices == s.notices + [Notice(a.worker, s.workers[a.worker].env.Key())] &&
             Step(s, a).workers == s.workers[a.worker := s.workers[a.worker].(phase := Done)])
  {
    if a.Advance? && a.worker in s.workers {
      match s.workers[a.worker].phase
      case Projecting =>
      case _ =>
    }
  }

  lemma FinishedStays(s: System, a: Act, w: nat)
    requires w in s.workers && !Running(s.workers[w].phase)
    ensures w in Step(s, a).workers && Step(s, a).workers[w] == s.workers[w]
  {
    OnlyTheActorMoves(s, a);
  }

  lemma StepKeepsTrace(s: System, u: set<Envelope>, a: Act)
    requires CollisionFree(u) && WorkersInv(s, u) && DocumentsInv(s) && TraceInv(s)
    ensures TraceInv(Step(s, a))
  {
    StepKeepsWorkerTraces(s, u, a);
    StepKeepsNotices(s, a);
  }

  lemma StepKeepsWorkerTraces(s: System, u: set<Envelope>, a: Act)
    requires CollisionFree(u) && WorkersInv(s, u) && DocumentsInv(s)
    requires forall w :: w in s.workers ==> TraceOk(s, w, s.workers[w])
    ensures forall w :: w in Step(s, a).workers ==> TraceOk(Step(s, a), w, Step(s, a).workers[w])
  {
    var s' := Step(s, a);
    OnlyTheActorMoves(s, a);
    forall w | w in s'.workers ensures TraceOk(s', w, s'.workers[w]) {
      if w in s.workers {
        if a.Advance? && a.worker == w {
          if s.workers[w].phase == Projecting {
            ProjectingTrace(s, u, a);
          } else {
            OtherPhaseTrace(s, a);
          }
        } else {
          var k := s.workers[w];
          if Wrote(s, w, k.env, true) { WroteStays(s, a, w, k.env, true); }
          if Wrote(s, w, k.env, false) { WroteStays(s, a, w, k.env, false); }
        }
      }
    }
  }

  lemma StepKeepsNotices(s: System, a: Act)
    requires TraceInv(s)
    ensures var t := Step(s, a);
            && (forall i :: 0 <= i < |t.notices| ==> NoticeOk(t, t.notices[i]))
            && (forall i, j :: 0 <= i < j < |t.notices| ==> t.notices[i].worker != t.notices[j].worker)
  {
    var s' := Step(s, a);
    NoticesGrow(s, a);
    forall i | 0 <= i < |s.notices| ensures NoticeOk(s', s.notices[i]) {
      assert NoticeOk(s, s.notices[i]);
      FinishedStays(s, a, s.notices[i].worker);
    }
  }

  // ---------------------------------------------------------------------------
  // Whole runs
  // ---------------------------------------------------------------------------

  ghost predicate Inv(s: System, u: set<Envelope>)
  {
    WorkersInv(s, u) && DocumentsInv(s) && LogInv(s, u) && TraceInv(s)
  }

  ghost predicate LegacyOnly(current: map<string, Source>)
  {
    forall ref :: ref in current ==> Legacy(current[ref])
  }

  lemma {:induction false} RunKeepsInv(current: map<string, Source>, acts: seq<Act>, u: set<Envelope>)
    requires CollisionFree(u) && Draws(acts, u) && LegacyOnly(current)
    ensures Inv(Run(Start(current), acts), u)
  {
    if acts != [] {
      var n := |acts| - 1;
      assert Draws(acts[..n], u);
      RunKeepsInv(current, acts[..n], u);
      var s := Run(Start(current), acts[..n]);
      StepKeepsWorkers(s, u, acts[n]);
      StepKeepsDocuments(s, u, acts[n]);
      StepKeepsLog(s, u, acts[n]);
      StepKeepsTrace(s, u, acts[n]);
    }
  }

  /** History first: whatever the interleaving, a mutation identity on a current document has a
      history slot that holds the same content or an erasure fence. */
  lemma HistoryFirst(current: map<string, Source>, acts: seq<Act>, u: set<Envelope>, ref: string, key: string)
    requires CollisionFree(u) && Draws(acts, u) && LegacyOnly(current)
    ensures var st := Run(Start(current), acts).store;
            ref in st.current && st.current[ref].mutationKey == Some(key) ==>
              key in st.history &&
              (st.history[key] == Fence || st.current[ref].mutationFingerprint == Some(st.history[key].fingerprint))
  {
    RunKeepsInv(current, acts, u);
    var st := Run(Start(current), acts).store;
    if ref in st.current {
      assert DocumentOk(st, st.current[ref]);
    }
  }

  lemma {:induction false} FenceIsPermanent(s: System, acts: seq<Act>, key: string)
    requires key in s.store.history && s.store.history[key] == Fence
    ensures key in Run(s, acts).store.history && Run(s, acts).store.history[key] == Fence
  {
    if acts != [] {
      var n := |acts| - 1;
      FenceIsPermanent(s, acts[..n], key);
      StepExtends(Run(s, acts[..n]), acts[n]);
    }
  }

  predicate BeforeHistory(p: Phase)
  {
    p == CreatingReceipt || p == VerifyingReceipt || p == CreatingRecord || p == VerifyingRecord
  }

  /** A mutation whose history request comes after the fence never reaches the current write. */
  lemma {:induction false} FencedMutationNeverWrites(s: System, acts: seq<Act>, w: nat)
    requires w in s.workers && s.workers[w].env.origin == Mutation && BeforeHistory(s.workers[w].phase)
    requires s.workers[w].env.Key() in s.store.history && s.store.history[s.workers[w].env.Key()] == Fence
    ensures var s' := Run(s, acts);
            w in s'.workers && s'.workers[w].env == s.workers[w].env &&
            (BeforeHistory(s'.workers[w].phase) || s'.workers[w].phase == Failed)
    ensures forall i :: |s.writes| <= i < |Run(s, acts).writes| ==> Run(s, acts).writes[i].worker != w
    ensures |s.writes| <= |Run(s, acts).writes|
  {
    if acts != [] {
      var n := |acts| - 1;
      FencedMutationNeverWrites(s, acts[..n], w);
      FenceIsPermanent(s, acts[..n], s.workers[w].env.Key());
      var mid := Run(s, acts[..n]);
      OnlyTheActorMoves(mid, acts[n]);
      WritesAreLogged(mid, acts[n]);
      if acts[n].Advance? && acts[n].worker == w {
        match mid.workers[w].phase
        case CreatingReceipt =>
        case VerifyingReceipt =>
        case CreatingRecord =>
        case VerifyingRecord =>
        case Failed =>
      }
    }
  }

  /** At most one notification carries any event identity, over every run. */
  lemma NotifiedAtMostOnce(current: map<string, Source>, acts: seq<Act>, u: set<Envelope>, i: nat, j: nat)
    requires CollisionFree(u) && Draws(acts, u) && LegacyOnly(current)
    requires i < j < |Run(Start(current), acts).notices|
    ensures var ns := Run(Start(current), acts).notices; ns[i].eventId != ns[j].eventId
  {
    RunKeepsInv(current, acts, u);
    var s := Run(Start(current), acts);
    var a, b := s.notices[i], s.notices[j];
    assert NoticeOk(s, a) && NoticeOk(s, b);
    assert TraceOk(s, a.worker, s.workers[a.worker]) && TraceOk(s, b.worker, s.workers[b.worker]);
    var p :| 0 <= p < |s.writes| && s.writes[p] == Write(a.worker, s.workers[a.worker].env, true);
    var q :| 0 <= q < |s.writes| && s.writes[q] == Write(b.worker, s.workers[b.worker].env, true);
    assert p < q || q < p;
  }

  /** Receipts make the identity complaints of the guarded write unreachable: for every projecting
      worker of every reachable state, "applied" is exactly "body replaced". */
  lemma ReadingIsReliable(current: map<string, Source>, acts: seq<Act>, u: set<Envelope>, w: nat)
    requires CollisionFree(u) && Draws(acts, u) && LegacyOnly(current)
    requires w in Run(Start(current), acts).workers && Run(Start(current), acts).workers[w].phase == Projecting
    ensures var s := Run(Start(current), acts);
            var e := s.workers[w].env.ToEvent();
            var before := Stored(s.store, s.workers[w].env.Ref());
            && (ReadScript(before, e) == Applied <==> Judge(before, e) == Replace)
            && (ReadScript(before, e) == Unchanged <==>
                 Judge(before, e) == Ignore || Judge(before, e) == RecordMutation)
            && (ReadScript(before, e).ApplyFailed? <==> Judge(before, e) == Refuse)
  {
    RunKeepsInv(current, acts, u);
    var s := Run(Start(current), acts);
    var env := s.workers[w].env;
    var before := Stored(s.store, env.Ref());
    if before.Some? {
      assert DocumentOk(s.store, before.value);
    }
    ReadingIsExact(before, env.ToEvent());
    assert WorkerOk(s.store, s.workers[w]);
  }

  // ---------------------------------------------------------------------------
  // Request budget
  // ---------------------------------------------------------------------------

  function RequestBound(p: Phase): nat
  {
    match p
    case CreatingReceipt => 0
    case VerifyingReceipt => 1
    case CreatingRecord => 2
    case VerifyingRecord => 3
    case Projecting => 4
    case _ => 5
  }

  predicate BudgetInv(s: System)
  {
    forall w :: w in s.workers ==> s.workers[w].requests <= RequestBound(s.workers[w].phase)
  }

  lemma StepKeepsBudget(s: System, a: Act)
    requires BudgetInv(s)
    ensures BudgetInv(Step(s, a))
  {
    OnlyTheActorMoves(s, a);
    if a.Advance? && a.worker in s.workers {
      match s.workers[a.worker].phase
      case CreatingReceipt =>
      case VerifyingReceipt =>
      case CreatingRecord =>
      case VerifyingRecord =>
      case Projecting =>
      case Cleaning =>
      case Notifying =>
      case _ =>
    }
  }

  /** Whatever is stored and whatever happens, a delivery issues at most five deadline-bounded requests. */
  lemma {:induction false} AtMostFiveRequests(start: System, acts: seq<Act>)
    requires start.workers == map[]
    ensures BudgetInv(Run(start, acts))
    ensures forall w :: w in Run(start, acts).workers ==> Run(start, acts).workers[w].requests <= 5
  {
    if acts != [] {
      var n := |acts| - 1;
      AtMostFiveRequests(start, acts[..n]);
      StepKeepsBudget(Run(start, acts[..n]), acts[n]);
    }
  }

  // ---------------------------------------------------------------------------
  // Convergence of the current index
  // ---------------------------------------------------------------------------

  /** The events a run applied to one reference, in the order the shard applied them. */
  function EventsFor(writes: seq<Write>, ref: string): (es: seq<Event>)
    ensures forall e :: e in es <==>
              exists i :: 0 <= i < |writes| && writes[i].env.Ref() == ref && writes[i].env.ToEvent() == e
  {
    if writes == [] then []
    else
      var n := |writes| - 1;
      var rest := EventsFor(writes[..n], ref);
      assert forall i :: 0 <= i < n ==> writes[..n][i] == writes[i];
      if writes[n].env.Ref() == ref then rest + [writes[n].env.ToEvent()] else rest
  }

  /** The current index is the replay of the write log, reference by reference. */
  lemma {:induction false} CurrentReplaysWrites(current: map<string, Source>, acts: seq<Act>, ref: string)
    ensures var s := Run(Start(current), acts);
            Stored(s.store, ref) == Deliver(Stored(Start(current).store, ref), EventsFor(s.writes, ref))
  {
    if acts != [] {
      var n := |acts| - 1;
      CurrentReplaysWrites(current, acts[..n], ref);
      var s := Run(Start(current), acts[..n]);
      var s' := Step(s, acts[n]);
      WritesAreLogged(s, acts[n]);
      if s'.writes != s.writes {
        assert s'.writes[..|s.writes|] == s.writes;
        var env := s.workers[acts[n].worker].env;
        if env.Ref() == ref {
          var es := EventsFor(s.writes, ref);
          assert EventsFor(s'.writes, ref) == es + [env.ToEvent()];
          assert (es + [env.ToEvent()])[..|es|] == es;
        } else if Stored(s'.store, ref) != Stored(s.store, ref) {
          OnlyProjectingWrites(s, acts[n], ref);
        }
      } else if Stored(s'.store, ref) != Stored(s.store, ref) {
        OnlyProjectingWrites(s, acts[n], ref);
      }
    }
  }

  ghost predicate OneMutationPerResourceRevision(u: set<Envelope>)
  {
    forall a, b ::
      a in u && b in u && a.origin == b.origin == Mutation && a.Ref() == b.Ref() && a.revision == b.revision ==> a == b
  }

  lemma AppliedEventsAreConflictFree(s: System, u: set<Envelope>, ref: string)
    requires CollisionFree(u) && OneMutationPerResourceRevision(u) && LogInv(s, u)
    ensures ConflictFree(Delivered(EventsFor(s.writes, ref)))
  {
    var es := EventsFor(s.writes, ref);
    forall a, b | a in Delivered(es) && b in Delivered(es) &&
                  (a.identity == b.identity || (!a.ProjectionOnly() && !b.ProjectionOnly() && a.revision == b.revision))
      ensures a == b
    {
      var i :| 0 <= i < |s.writes| && s.writes[i].env.Ref() == ref && s.writes[i].env.ToEvent() == a;
      var j :| 0 <= j < |s.writes| && s.writes[j].env.Ref() == ref && s.writes[j].env.ToEvent() == b;
      assert WriteOk(s, u, s.writes[i]) && WriteOk(s, u, s.writes[j]);
    }
  }

  /** Every envelope of `u` has been processed successfully at least once. */
  ghost predicate AllCompleted(s: System, u: set<Envelope>)
  {
    forall env :: env in u ==> exists w :: w in s.workers && s.workers[w].env == env && s.workers[w].phase == Done
  }

  lemma DoneMeansWritten(s: System, env: Envelope)
    requires TraceInv(s) && exists w :: w in s.workers && s.workers[w].env == env && s.workers[w].phase == Done
    ensures env.ToEvent() in EventsFor(s.writes, env.Ref())
  {
    var w :| w in s.workers && s.workers[w].env == env && s.workers[w].phase == Done;
    assert TraceOk(s, w, s.workers[w]);
    var i :| 0 <= i < |s.writes| && s.writes[i] == Write(w, env, s.workers[w].applied);
    assert s.writes[i].env == env;
  }

  lemma CompletedMeansWritten(s: System, u: set<Envelope>, ref: string)
    requires Inv(s, u) && AllCompleted(s, u)
    ensures Delivered(EventsFor(s.writes, ref)) == set env | env in u && env.Ref() == ref :: env.ToEvent()
  {
    var es := EventsFor(s.writes, ref);
    forall env | env in u && env.Ref() == ref ensures env.ToEvent() in es {
      DoneMeansWritten(s, env);
    }
    forall e | e in es ensures exists env :: env in u && env.Ref() == ref && env.ToEvent() == e {
      var i :| 0 <= i < |s.writes| && s.writes[i].env.Ref() == ref && s.writes[i].env.ToEvent() == e;
      assert WriteOk(s, u, s.writes[i]);
    }
  }

  /** Whole-run convergence: two deployments that each complete every event at least once, under
      any schedules, failures, redeliveries and erasures, hold the same current document, and it is
      the summary of the resource's events. */
  lemma RunsConverge(acts1: seq<Act>, acts2: seq<Act>, u: set<Envelope>, ref: string)
    requires CollisionFree(u) && OneMutationPerResourceRevision(u)
    requires Draws(acts1, u) && Draws(acts2, u)
    requires AllCompleted(Run(Start(map[]), acts1), u) && AllCompleted(Run(Start(map[]), acts2), u)
    ensures var s1, s2 := Run(Start(map[]), acts1), Run(Start(map[]), acts2);
            && Stored(s1.store, ref) == Stored(s2.store, ref)
            && Summarises(Stored(s1.store, ref), set env | env in u && env.Ref() == ref :: env.ToEvent())
  {
    var s1, s2 := Run(Start(map[]), acts1), Run(Start(map[]), acts2);
    RunKeepsInv(map[], acts1, u);
    RunKeepsInv(map[], acts2, u);
    CurrentReplaysWrites(map[], acts1, ref);
    CurrentReplaysWrites(map[], acts2, ref);
    CompletedMeansWritten(s1, u, ref);
    CompletedMeansWritten(s2, u, ref);
    AppliedEventsAreConflictFree(s1, u, ref);
    DeliveriesConverge(EventsFor(s1.writes, ref), EventsFor(s2.writes, ref));
  }
}
