/** `Process` as code over the three repositories, its agreement with the transition system, and
    recovery: retrying an interrupted delivery ends where an uninterrupted one would have. */
module Workflow {
  import opened Projection
  import opened Convergence
  import opened CurrentIndex
  import opened Repositories
  import opened Interleavings

  /** How far each request of one delivery attempt gets. */
  datatype Plan = Plan(
    receiptCreate: Reply,
    receiptVerify: Reply,
    historyCreate: Reply,
    historyVerify: Reply,
    project: Reply,
    notify: Reply)

  const UNINTERRUPTED := Plan(Answered, Answered, Answered, Answered, Answered, Answered)

  function ReplyFor(plan: Plan, p: Phase): Reply
  {
    match p
    case CreatingReceipt => plan.receiptCreate
    case VerifyingReceipt => plan.receiptVerify
    case CreatingRecord => plan.historyCreate
    case VerifyingRecord => plan.historyVerify
    case Projecting => plan.project
    case _ => plan.notify
  }

  /** A system holding one fresh worker and nobody else. */
  function Alone(st: Store, env: Envelope): System
  {
    System(st, map[0 := Worker(env, CreatingReceipt, false, 0)], [], [], [])
  }

  function Drive(s: System, plan: Plan, now: int, n: nat): System
    requires 0 in s.workers
    decreases n
  {
    if n == 0 then s
    else
      OnlyTheActorMoves(s, Advance(0, ReplyFor(plan, s.workers[0].phase), now));
      Drive(Step(s, Advance(0, ReplyFor(plan, s.workers[0].phase), now)), plan, now, n - 1)
  }

  /** Seven phases lie between receipt and completion. */
  function Attempt(st: Store, env: Envelope, plan: Plan, now: int): System
  {
    Drive(Alone(st, env), plan, now, 7)
  }

  lemma {:induction false} FinishedStaysPut(s: System, plan: Plan, now: int, n: nat)
    requires 0 in s.workers && !Running(s.workers[0].phase)
    ensures Drive(s, plan, now, n) == s
  {
    if n > 0 {
      FinishedStaysPut(s, plan, now, n - 1);
    }
  }

  // ---------------------------------------------------------------------------
  // One attempt in closed form
  // ---------------------------------------------------------------------------

  datatype Outcome = Outcome(store: Store, ok: bool)

  function ReserveStage(st: Store, env: Envelope, plan: Plan): Outcome
  {
    var receipts := CreateReceipt(st.receipts, env, plan.receiptCreate);
    Outcome(st.(receipts := receipts),
            plan.receiptCreate == Answered && (env.Key() in st.receipts ==> plan.receiptVerify == Answered) &&
              ReceiptMatches(receipts, env))
  }

  function AppendStage(st: Store, env: Envelope, plan: Plan, now: int): Outcome
  {
    if env.origin != Mutation then Outcome(st, true)
    else
      var history := CreateRecord(st.history, env, now, plan.historyCreate);
      Outcome(st.(history := history),
              plan.historyCreate == Answered && (env.Key() in st.history ==> plan.historyVerify == Answered) &&
                RecordMatches(history, env))
  }

  function ProjectStage(st: Store, env: Envelope, plan: Plan): Outcome
  {
    var before := Stored(st, env.Ref());
    Outcome(if plan.project == NotSent then st else WithCurrent(st, env.Ref(), After(before, env.ToEvent())),
            plan.project == Answered && !ReadScript(before, env.ToEvent()).ApplyFailed?)
  }

  function Tries(st: Store, env: Envelope, plan: Plan, now: int): Outcome
  {
    var reserved := ReserveStage(st, env, plan);
    if !reserved.ok then reserved
    else
      var appended := AppendStage(reserved.store, env, plan, now);
      if !appended.ok then appended else ProjectStage(appended.store, env, plan)
  }

  /** The notifications an attempt sends: only a completed attempt that replaced the body sends one. */
  function Sends(st: Store, env: Envelope, plan: Plan, now: int): seq<Notice>
  {
    var reserved := ReserveStage(st, env, plan);
    var appended := AppendStage(reserved.store, env, plan, now);
    if reserved.ok && appended.ok && plan.project == Answered && plan.notify != NotSent &&
       ReadScript(Stored(appended.store, env.Ref()), env.ToEvent()) == Applied
    then [Notice(0, env.Key())] else []
  }

  class AuditWorkflow {
    const receipts: ReceiptRepository
    const history: HistoryRepository
    const current: AuditProjectionRepository
    var cleanups: seq<string>
    var notices: seq<Notice>

    constructor (receipts: ReceiptRepository, history: HistoryRepository, current: AuditProjectionRepository)
      ensures this.receipts == receipts && this.history == history && this.current == current
      ensures cleanups == [] && notices == []
    {
      this.receipts := receipts;
      this.history := history;
      this.current := current;
      cleanups, notices := [], [];
    }

    function Snapshot(): Store
      reads this, receipts, history, current
    {
      Store(receipts.receipts, history.history, current.docs)
    }

    /** Reserve the identity, append a mutation to history, then write current; stop at the first
        failure. Cleanup is requested exactly on success. */
    method Process(env: Envelope, plan: Plan, now: int) returns (ok: bool)
      modifies this, receipts, history, current
      ensures Outcome(Snapshot(), ok) == Tries(old(Snapshot()), env, plan, now)
      ensures cleanups == old(cleanups) + (if ok then [env.Ref()] else [])
      ensures notices == old(notices) + Sends(old(Snapshot()), env, plan, now)
    {
      var reserved := receipts.CreateOrVerify(env, plan.receiptCreate, plan.receiptVerify);
      if !reserved {
        return false;
      }
      if env.origin == Mutation {
        var appended := history.CreateOrVerify(env, now, plan.historyCreate, plan.historyVerify);
        if !appended {
          return false;
        }
      }
      var result := current.ApplyIfNewer(env.ToEvent(), plan.project);
      if result.ApplyFailed? {
        return false;
      }
      cleanups := cleanups + [env.Ref()];
      if result == Applied && plan.notify != NotSent {
        notices := notices + [Notice(0, env.Key())];
      }
      return true;
    }
  }

  // ---------------------------------------------------------------------------
  // Agreement with the transition system
  // ---------------------------------------------------------------------------

  /** Worker 0 is at phase `p` of system `s`, with nothing applied, sent or cleaned yet. */
  predicate At(s: System, env: Envelope, p: Phase)
  {
    s.workers.Keys == {0} && s.workers[0].env == env && s.workers[0].phase == p && !s.workers[0].applied &&
    s.cleanups == [] && s.notices == []
  }

  lemma DriveReserves(s: System, env: Envelope, plan: Plan, now: int) returns (s': System, n: nat)
    requires At(s, env, CreatingReceipt)
    ensures n == 5 || n == 6
    ensures At(s', env, if ReserveStage(s.store, env, plan).ok then AfterReceipt(env) else Failed)
    ensures s'.store == ReserveStage(s.store, env, plan).store
    ensures Drive(s, plan, now, 7) == Drive(s', plan, now, n)
  {
    s', n := Step(s, Advance(0, plan.receiptCreate, now)), 6;
    if s'.workers[0].phase == VerifyingReceipt {
      s', n := Step(s', Advance(0, plan.receiptVerify, now)), 5;
    }
  }

  lemma DriveAppends(s: System, env: Envelope, plan: Plan, now: int, n: nat) returns (s': System, n': nat)
    requires At(s, env, AfterReceipt(env)) && 5 <= n
    ensures n - 2 <= n' <= n
    ensures At(s', env, if AppendStage(s.store, env, plan, now).ok then Projecting else Failed)
    ensures s'.store == AppendStage(s.store, env, plan, now).store
    ensures Drive(s, plan, now, n) == Drive(s', plan, now, n')
  {
    s', n' := s, n;
    if env.origin == Mutation {
      s', n' := Step(s, Advance(0, plan.historyCreate, now)), n - 1;
      if s'.workers[0].phase == VerifyingRecord {
        s', n' := Step(s', Advance(0, plan.historyVerify, now)), n - 2;
      }
    }
  }

  lemma DriveProjects(s: System, env: Envelope, plan: Plan, now: int, n: nat) returns (s': System)
    requires At(s, env, Projecting) && 3 <= n
    ensures s' == Drive(s, plan, now, n) && s'.workers.Keys == {0}
    ensures s'.store == ProjectStage(s.store, env, plan).store
    ensures s'.workers[0].phase == (if ProjectStage(s.store, env, plan).ok then Done else Failed)
    ensures s'.cleanups == if ProjectStage(s.store, env, plan).ok then [env.Ref()] else []
    ensures s'.notices == if plan.project == Answered && plan.notify != NotSent &&
        ReadScript(Stored(s.store, env.Ref()), env.ToEvent()) == Applied
                          then [Notice(0, env.Key())] else []
  {
    var p := Step(s, Advance(0, plan.project, now));
    if p.workers[0].phase == Failed {
      FinishedStaysPut(p, plan, now, n - 1);
      return p;
    }
    s' := DriveFinishes(p, env, plan, now, n - 1);
  }

  lemma DriveFinishes(p: System, env: Envelope, plan: Plan, now: int, n: nat) returns (s': System)
    requires p.workers.Keys == {0} && p.workers[0].env == env && p.workers[0].phase == Cleaning && 2 <= n
    ensures s' == Drive(p, plan, now, n) && s'.workers.Keys == {0} && s'.store == p.store
    ensures s'.workers[0].phase == Done && s'.cleanups == p.cleanups + [env.Ref()]
    ensures s'.notices == p.notices + if p.workers[0].applied && plan.notify != NotSent then [Notice(0, env.Key())]
        else []
  {
    var c := Step(p, Advance(0, plan.notify, now));
    assert Drive(p, plan, now, n) == Drive(c, plan, now, n - 1);
    if c.workers[0].phase == Done {
      FinishedStaysPut(c, plan, now, n - 1);
      return c;
    }
    s' := Step(c, Advance(0, plan.notify, now));
    FinishedStaysPut(s', plan, now, n - 2);
  }

  /** An uncontended `Process` is exactly a run of one worker of the transition system. */
  lemma ProcessIsARun(st: Store, env: Envelope, plan: Plan, now: int)
    ensures var s := Attempt(st, env, plan, now);
            && 0 in s.workers
            && Tries(st, env, plan, now) == Outcome(s.store, s.workers[0].phase == Done)
            && s.cleanups == (if Tries(st, env, plan, now).ok then [env.Ref()] else [])
            && s.notices == Sends(st, env, plan, now)
  {
    var s1, n1 := DriveReserves(Alone(st, env), env, plan, now);
    if s1.workers[0].phase == Failed {
      FinishedStaysPut(s1, plan, now, n1);
    } else {
      var s2, n2 := DriveAppends(s1, env, plan, now, n1);
      if s2.workers[0].phase == Failed {
        FinishedStaysPut(s2, plan, now, n2);
      } else {
        var s3 := DriveProjects(s2, env, plan, now, n2);
      }
    }
  }

  // ---------------------------------------------------------------------------
  // Recovery
  // ---------------------------------------------------------------------------

  /** Attempts at one envelope, each cut short anywhere, at its own time. */
  datatype Cut = Cut(plan: Plan, at: int)

  function AfterCuts(st: Store, env: Envelope, cuts: seq<Cut>): Store
    decreases |cuts|
  {
    if cuts == [] then st
    else AfterCuts(Tries(st, env, cuts[0].plan, cuts[0].at).store, env, cuts[1..])
  }

  lemma ReserveAgain(st: Store, env: Envelope, plan: Plan)
    ensures ReserveStage(ReserveStage(st, env, plan).store, env, UNINTERRUPTED) == ReserveStage(st, env, UNINTERRUPTED)
    ensures ReserveStage(st, env, plan).ok ==> ReserveStage(st, env, UNINTERRUPTED) == ReserveStage(st, env, plan)
  {
  }

  /** The time that ends up in the history slot. */
  function IngestedBy(env: Envelope, cut: Cut, now: int): int
  {
    if env.origin == Mutation && cut.plan.historyCreate != NotSent then cut.at else now
  }

  lemma AppendAgain(st: Store, env: Envelope, cut: Cut, now: int)
    ensures AppendStage(AppendStage(st, env, cut.plan, cut.at).store, env, UNINTERRUPTED, now) ==
            AppendStage(st, env, UNINTERRUPTED, IngestedBy(env, cut, now))
    ensures AppendStage(st, env, cut.plan, cut.at).ok ==>
              AppendStage(st, env, UNINTERRUPTED, IngestedBy(env, cut, now)) == AppendStage(st, env, cut.plan, cut.at)
  {
  }

  /** The script accepts the event, but its answer would be read as a failure. Receipts rule this out in
      every reachable state. */
  predicate Misread(st: Store, env: Envelope)
  {
    var before, e := Stored(st, env.Ref()), env.ToEvent();
    Judge(before, e) != Refuse && ReadScript(before, e).ApplyFailed?
  }

  lemma AttemptsAreReadWell(st: Store, env: Envelope, plan: Plan, now: int)
    requires !Misread(st, env)
    ensures !Misread(Tries(st, env, plan, now).store, env)
  {
    RedeliveryIsIdempotent(Stored(st, env.Ref()), env.ToEvent());
  }

  lemma ProjectAgain(st: Store, env: Envelope, plan: Plan)
    ensures ProjectStage(ProjectStage(st, env, plan).store, env, UNINTERRUPTED).store ==
        ProjectStage(st, env, UNINTERRUPTED).store
    ensures ProjectStage(st, env, UNINTERRUPTED).ok ==>
        ProjectStage(ProjectStage(st, env, plan).store, env, UNINTERRUPTED).ok
    ensures !Misread(st, env) ==>
              ProjectStage(ProjectStage(st, env, plan).store, env, UNINTERRUPTED) ==
              ProjectStage(st, env, UNINTERRUPTED)
  {
    var before := Stored(st, env.Ref());
    var after := After(before, env.ToEvent());
    RedeliveryIsIdempotent(before, env.ToEvent());
    assert Stored(WithCurrent(st, env.Ref(), after), env.Ref()) == after;
  }

  lemma SuccessIgnoresTime(st: Store, env: Envelope, plan: Plan, now1: int, now2: int)
    ensures Tries(st, env, plan, now1).ok == Tries(st, env, plan, now2).ok
  {
  }

  /** The attempt that gets as far as creating the history slot. */
  predicate CreatesSlot(st: Store, env: Envelope, cut: Cut)
  {
    env.origin == Mutation && ReserveStage(st, env, cut.plan).ok && cut.plan.historyCreate != NotSent
  }

  /** The time of the first attempt whose create request for the history slot was sent. */
  function FirstTime(st: Store, env: Envelope, cuts: seq<Cut>, now: int): int
    decreases |cuts|
  {
    if cuts == [] then now
    else if CreatesSlot(st, env, cuts[0]) then cuts[0].at
    else FirstTime(Tries(st, env, cuts[0].plan, cuts[0].at).store, env, cuts[1..], now)
  }

  /** Resuming after one cut attempt reaches the store of an uninterrupted attempt, whose ingestion
      time is that of the attempt that created the history slot. */
  lemma ResumeAfterOneCut(st: Store, env: Envelope, cut: Cut, now: int)
    ensures var resumed := Tries(Tries(st, env, cut.plan, cut.at).store, env, UNINTERRUPTED, now);
            var whole := Tries(st, env, UNINTERRUPTED, if CreatesSlot(st, env, cut) then cut.at else now);
            && resumed.store == whole.store && (whole.ok ==> resumed.ok)
            && (!Misread(st, env) ==> resumed == whole)
  {
    var mid := Tries(st, env, cut.plan, cut.at).store;
    var reserved := ReserveStage(st, env, cut.plan);
    ReserveAgain(st, env, cut.plan);
    if reserved.ok {
      var appended := AppendStage(reserved.store, env, cut.plan, cut.at);
      AppendAgain(reserved.store, env, cut, now);
      assert ReserveStage(mid, env, UNINTERRUPTED) == Outcome(mid, true);
      if appended.ok {
        assert AppendStage(mid, env, UNINTERRUPTED, now) == Outcome(mid, true);
        ProjectAgain(appended.store, env, cut.plan);
      }
    }
  }

  /** Recovery: however often and wherever an attempt is cut short, retrying until one attempt runs
      through leaves the receipts, history and current documents of one uninterrupted attempt, made at
      the time of the first attempt that sent the create request for the history slot. */
  lemma {:induction false} Recovery(st: Store, env: Envelope, cuts: seq<Cut>, now: int)
    ensures var resumed := Tries(AfterCuts(st, env, cuts), env, UNINTERRUPTED, now);
            var whole := Tries(st, env, UNINTERRUPTED, FirstTime(st, env, cuts, now));
            && resumed.store == whole.store && (whole.ok ==> resumed.ok)
            && (!Misread(st, env) ==> resumed == whole)
            && whole.ok == Tries(st, env, UNINTERRUPTED, now).ok
    decreases |cuts|
  {
    if cuts != [] {
      var next := Tries(st, env, cuts[0].plan, cuts[0].at).store;
      var t := FirstTime(next, env, cuts[1..], now);
      if !Misread(st, env) {
        AttemptsAreReadWell(st, env, cuts[0].plan, cuts[0].at);
      }
      Recovery(next, env, cuts[1..], now);
      ResumeAfterOneCut(st, env, cuts[0], t);
    }
    SuccessIgnoresTime(st, env, UNINTERRUPTED, FirstTime(st, env, cuts, now), now);
  }
}
