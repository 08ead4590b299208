/** The guarded current-resource write: the projection script as a merge on one stored
    document, the reading of its result, and what every delivery order makes of it. */
module Projection {
  import opened Text

  datatype Origin = Mutation | Reindex | Backfill | SyncEcho

  /** The replaceable part of a current document. */
  datatype Body = Body(
    objectRef: string, latest: bool, updatedAt: Option<string>, deletedAt: Option<string>, payload: string)

  /** A stored `_source`: each audit field may be absent, because legacy writers never set them. */
  datatype Source = Source(
    body: Option<Body>,
    revision: Option<int>,
    eventKey: Option<string>,
    eventFingerprint: Option<string>,
    mutationKey: Option<string>,
    mutationFingerprint: Option<string>,
    orderTime: Option<string>,
    orderKey: Option<string>)

  const EMPTY_SOURCE := Source(None, None, None, None, None, None, None, None)

  /** The script parameters built from one admitted envelope. */
  datatype Event = Event(
    revision: int,
    identity: string,
    fingerprint: string,
    origin: Origin,
    orderTime: string,
    document: Body)
  {
    predicate ProjectionOnly() { origin != Mutation }
    predicate Bootstrap() { origin == Backfill }
  }

  // ---------------------------------------------------------------------------
  // Specification: what a delivery is entitled to do to a stored document
  // ---------------------------------------------------------------------------

  datatype Verdict = Refuse | Ignore | RecordMutation | Replace

  function Judge(before: Option<Source>, e: Event): Verdict
  {
    match before
    case None => Replace
    case Some(d) =>
      if d.revision.None? then (if e.Bootstrap() then Replace else Refuse)
      else if e.revision < d.revision.value then Ignore
      else if e.revision > d.revision.value then Replace
      else if e.ProjectionOnly() then JudgeRefresh(d, e)
      else JudgeMutation(d, e)
  }

  /** A projection at the stored revision: ordered by (time, identity). */
  function JudgeRefresh(d: Source, e: Event): Verdict
  {
    if d.eventKey == Some(e.identity) then
      if d.eventFingerprint == Some(e.fingerprint) then Ignore else Refuse
    else if d.orderTime.None? then Replace
    else if Less(e.orderTime, d.orderTime.value) then Ignore
    else if e.orderTime != d.orderTime.value then Replace
    else if d.orderKey.None? then Refuse
    else if e.identity == d.orderKey.value || Less(e.identity, d.orderKey.value) then Ignore
    else Replace
  }

  /** A mutation at the stored revision: at most one identity may ever hold it. */
  function JudgeMutation(d: Source, e: Event): Verdict
  {
    if d.eventKey == Some(e.identity) && d.eventFingerprint == Some(e.fingerprint) then Ignore
    else if d.mutationKey.Some? then
      if d.mutationKey == Some(e.identity) && d.mutationFingerprint == Some(e.fingerprint) then Ignore else Refuse
    else if d.orderTime.Some? then RecordMutation
    else Replace
  }

  function Rewritten(before: Option<Source>, e: Event): Source
  {
    var kept := before.Some? && before.value.revision == Some(e.revision) && before.value.mutationKey.Some?;
    Source(
      Some(e.document), Some(e.revision), Some(e.identity), Some(e.fingerprint),
      if !e.ProjectionOnly() then Some(e.identity) else if kept then before.value.mutationKey else None,
      if !e.ProjectionOnly() then Some(e.fingerprint) else if kept then before.value.mutationFingerprint else None,
      if e.ProjectionOnly() then Some(e.orderTime) else None,
      if e.ProjectionOnly() then Some(e.identity) else None)
  }

  /** The document a delivery leaves behind; a refused script leaves the stored one. */
  function After(before: Option<Source>, e: Event): Option<Source>
  {
    match Judge(before, e)
    case Refuse => before
    case Ignore => before
    case RecordMutation =>
      if before.None? then None
      else Some(before.value.(mutationKey := Some(e.identity), mutationFingerprint := Some(e.fingerprint)))
    case Replace => Some(Rewritten(before, e))
  }

  function Deliver(before: Option<Source>, es: seq<Event>): Option<Source>
  {
    if es == [] then before else After(Deliver(before, es[..|es| - 1]), es[|es| - 1])
  }

  // ---------------------------------------------------------------------------
  // The script itself, statement by statement
  // ---------------------------------------------------------------------------

  datatype ScriptOp = Create | Index | Nothing

  class ScriptContext {
    var op: ScriptOp
    var source: Source

    constructor (before: Option<Source>)
      ensures Stored() == before && op != Nothing && (op == Create ==> source == EMPTY_SOURCE)
    {
      op := if before.None? then Create else Index;
      source := if before.None? then EMPTY_SOURCE else before.value;
    }

    ghost function Stored(): Option<Source>
      reads this
    {
      if op == Create then None else Some(source)
    }

    /** Runs the script; `failed` is the thrown exception, which aborts the update request. */
    method Execute(e: Event) returns (failed: bool)
      requires op != Nothing && (op == Create ==> source == EMPTY_SOURCE)
      modifies this
      ensures failed <==> Judge(old(Stored()), e) == Refuse
      ensures Judge(old(Stored()), e) == Ignore <==> !failed && op == Nothing
      ensures !failed && op != Nothing ==> op == old(op) && Some(source) == After(old(Stored()), e)
      ensures failed || op == Nothing ==> source == old(source)
    {
      failed := false;
      if op != Create && source.revision.None? && !e.Bootstrap() {
        return true;
      }
      if op != Create && source.revision.Some? {
        var previous := source.revision.value;
        if e.revision < previous {
          op := Nothing;
          return;
        }
        if e.revision == previous {
          if e.ProjectionOnly() && source.eventKey == Some(e.identity) &&
            source.eventFingerprint != Some(e.fingerprint) {
            return true;
          }
          if source.eventKey == Some(e.identity) && source.eventFingerprint == Some(e.fingerprint) {
            op := Nothing;
            return;
          }
          if !e.ProjectionOnly() {
            if source.mutationKey.Some? {
              if source.mutationKey == Some(e.identity) && source.mutationFingerprint == Some(e.fingerprint) {
                op := Nothing;
                return;
              }
              return true;
            }
            if source.orderTime.Some? {
              source := source.(mutationKey := Some(e.identity), mutationFingerprint := Some(e.fingerprint));
              return;
            }
          } else if source.orderTime.Some? {
            if Less(e.orderTime, source.orderTime.value) {
              LessAsymmetric(e.orderTime, source.orderTime.value);
              op := Nothing;
              return;
            }
            if e.orderTime == source.orderTime.value {
              if source.orderKey.None? {
                return true;
              }
              if e.identity == source.orderKey.value || Less(e.identity, source.orderKey.value) {
                op := Nothing;
                return;
              }
            }
          }
        }
      }
      var previousMutationKey := if op == Create then None else source.mutationKey;
      var previousMutationFingerprint := if op == Create then None else source.mutationFingerprint;
      var sameRevision := op != Create && source.revision == Some(e.revision);
      source := EMPTY_SOURCE;
      source := source.(body := Some(e.document));
      source := source.(revision := Some(e.revision));
      source := source.(eventKey := Some(e.identity));
      source := source.(eventFingerprint := Some(e.fingerprint));
      if !e.ProjectionOnly() {
        source := source.(mutationKey := Some(e.identity));
        source := source.(mutationFingerprint := Some(e.fingerprint));
      } else if sameRevision && previousMutationKey.Some? {
        source := source.(mutationKey := previousMutationKey);
        source := source.(mutationFingerprint := previousMutationFingerprint);
      }
      if e.ProjectionOnly() {
        source := source.(orderTime := Some(e.orderTime));
        source := source.(orderKey := Some(e.identity));
      }
    }
  }

  // ---------------------------------------------------------------------------
  // Rank: why bodies only move forward
  // ---------------------------------------------------------------------------

  /** Mutations at one revision share a rank; every projection there outranks them. */
  datatype Rank = Rank(revision: int, refreshed: bool, time: string, key: string)

  function RankOf(e: Event): Rank
  {
    if e.ProjectionOnly() then Rank(e.revision, true, e.orderTime, e.identity) else Rank(e.revision, false, "", "")
  }

  ghost predicate Below(a: Rank, b: Rank)
  {
    || a.revision < b.revision
    || (a.revision == b.revision && !a.refreshed && b.refreshed)
    || (a.revision == b.revision && a.refreshed == b.refreshed &&
        (Less(a.time, b.time) || (a.time == b.time && Less(a.key, b.key))))
  }

  lemma BelowTransitive(a: Rank, b: Rank, c: Rank)
    requires Below(a, b) && Below(b, c)
    ensures Below(a, c)
  {
    if Less(a.time, b.time) && Less(b.time, c.time) {
      LessTransitive(a.time, b.time, c.time);
    }
    if Less(a.key, b.key) && Less(b.key, c.key) {
      LessTransitive(a.key, b.key, c.key);
    }
  }

  lemma BelowTotal(a: Rank, b: Rank)
    ensures Below(a, b) || a == b || Below(b, a)
  {
    LessTotal(a.time, b.time);
    LessTotal(a.key, b.key);
  }

  lemma BelowIrreflexive(a: Rank)
    ensures !Below(a, a)
  {
    LessIrreflexive(a.time);
    LessIrreflexive(a.key);
  }

  /** The shape the script keeps on every audited document. */
  predicate Guarded(d: Source)
  {
    && d.body.Some?
    && d.revision.Some?
    && d.eventKey.Some? && d.eventFingerprint.Some?
    && (d.mutationKey.Some? <==> d.mutationFingerprint.Some?)
    && (d.orderTime.None? ==> d.mutationKey == d.eventKey && d.mutationFingerprint == d.eventFingerprint)
    && d.orderKey == (if d.orderTime.Some? then d.eventKey else None)
  }

  predicate GuardedOrAbsent(d: Option<Source>)
  {
    d.Some? && d.value.revision.Some? ==> Guarded(d.value)
  }

  function RankOfDoc(d: Source): Rank
    requires Guarded(d)
  {
    if d.orderTime.Some? then Rank(d.revision.value, true, d.orderTime.value, d.orderKey.value)
    else Rank(d.revision.value, false, "", "")
  }

  lemma AfterIsGuarded(before: Option<Source>, e: Event)
    requires GuardedOrAbsent(before)
    ensures GuardedOrAbsent(After(before, e))
    ensures Judge(before, e) == Replace || Judge(before, e) == RecordMutation ==>
        After(before, e).Some? && Guarded(After(before, e).value)
  {
  }

  /** A body is replaced exactly by an event of strictly greater rank that is not already the one
      stored, and then carries that rank; nothing else touches the body, the revision or the rank. */
  lemma BodyReplacementRaisesRank(d: Source, e: Event)
    requires Guarded(d)
    ensures After(Some(d), e).Some? && Guarded(After(Some(d), e).value)
    ensures Judge(Some(d), e) == Replace <==>
              Below(RankOfDoc(d), RankOf(e)) && !(e.revision == d.revision.value && d.eventKey == Some(e.identity))
    ensures Judge(Some(d), e) == Replace ==> RankOfDoc(After(Some(d), e).value) == RankOf(e)
    ensures Judge(Some(d), e) != Replace ==>
              After(Some(d), e).value.body == d.body && RankOfDoc(After(Some(d), e).value) == RankOfDoc(d)
  {
    if d.orderTime.Some? {
      LessTotal(e.orderTime, d.orderTime.value);
      LessTotal(e.identity, d.orderKey.value);
      LessIrreflexive(e.orderTime);
      LessIrreflexive(e.identity);
      if Less(e.orderTime, d.orderTime.value) {
        LessAsymmetric(e.orderTime, d.orderTime.value);
      }
      if Less(e.identity, d.orderKey.value) {
        LessAsymmetric(e.identity, d.orderKey.value);
      }
    }
  }
}
