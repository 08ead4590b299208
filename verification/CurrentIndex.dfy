/** The current-resource index as the audited path uses it: one scripted upsert per request,
    and the reading of the source that the upsert returns. */
module CurrentIndex {
  import opened Text
  import opened Projection

  /** How far a request got: the answer arrived, the update ran but its answer was lost, or
      the request never reached the shard. */
  datatype Reply = Answered | AnswerLost | NotSent

  datatype ApplyResult = Applied | Unchanged | ApplyFailed(reason: FailureReason)
  datatype FailureReason = Transport | ScriptRefused | MissingIdentity | UnexpectedIdentity

  datatype UpdateResult = WasCreated | WasUpdated | WasNoop

  function Or<T>(o: Option<T>, default: T): T
  {
    if o.Some? then o.value else default
  }

  /** The decoding of an update answer: the returned source tells whether this event's own body
      is the stored one. */
  function ReadAnswer(e: Event, result: UpdateResult, returned: Source): ApplyResult
  {
    if result.WasNoop? then Unchanged
    else if Or(returned.eventKey, "") == "" || Or(returned.eventFingerprint, "") == "" then ApplyFailed(MissingIdentity)
    else if Or(returned.eventKey, "") == e.identity && Or(returned.eventFingerprint, "") == e.fingerprint then Applied
    else if !e.ProjectionOnly() && result.WasUpdated? && Or(returned.eventKey, "") != e.identity &&
            Or(returned.mutationKey, "") == e.identity && Or(returned.mutationFingerprint, "") == e.fingerprint
              then Unchanged
    else ApplyFailed(UnexpectedIdentity)
  }

  function ResultOf(before: Option<Source>, e: Event): UpdateResult
  {
    if Judge(before, e) == Ignore then WasNoop else if before.None? then WasCreated else WasUpdated
  }

  function ReadScript(before: Option<Source>, e: Event): ApplyResult
  {
    if Judge(before, e) == Refuse then ApplyFailed(ScriptRefused)
    else ReadAnswer(e, ResultOf(before, e), Or(After(before, e), EMPTY_SOURCE))
  }

  /** The keys stored on a document came from non-empty tokens. */
  predicate Named(d: Option<Source>)
  {
    d.Some? ==> d.value.eventKey != Some("") && d.value.eventFingerprint != Some("")
  }

  predicate WellNamed(e: Event)
  {
    e.identity != "" && e.fingerprint != ""
  }

  /** "Applied" means exactly that the body was replaced. The identity complaint is raised exactly
      when a mutation reuses the identity of the projection that holds its revision. */
  lemma ReadingIsExact(before: Option<Source>, e: Event)
    requires GuardedOrAbsent(before) && Named(before) && WellNamed(e)
    ensures Named(After(before, e))
    ensures ReadScript(before, e) == Applied <==> Judge(before, e) == Replace
    ensures ReadScript(before, e) == ApplyFailed(UnexpectedIdentity) <==>
              Judge(before, e) == RecordMutation && before.value.eventKey == Some(e.identity)
    ensures ReadScript(before, e) == ApplyFailed(ScriptRefused) <==> Judge(before, e) == Refuse
    ensures ReadScript(before, e) != ApplyFailed(MissingIdentity) && ReadScript(before, e) != ApplyFailed(Transport)
  {
  }

  function Lookup(docs: map<string, Source>, ref: string): Option<Source>
  {
    if ref in docs then Some(docs[ref]) else None
  }

  function Put(docs: map<string, Source>, ref: string, d: Option<Source>): map<string, Source>
  {
    if d.None? then docs else docs[ref := d.value]
  }

  class AuditProjectionRepository {
    var docs: map<string, Source>

    constructor ()
      ensures docs == map[]
    {
      docs := map[];
    }

    /** Applies `e` to its own reference only; the answer may be lost after the update ran. */
    method ApplyIfNewer(e: Event, reply: Reply) returns (r: ApplyResult)
      modifies this
      ensures var ref := e.document.objectRef;
              docs == if reply == NotSent then old(docs) else Put(old(docs), ref, After(Lookup(old(docs), ref), e))
      ensures r == if reply == Answered then ReadScript(Lookup(old(docs), e.document.objectRef), e)
          else ApplyFailed(Transport)
    {
      if reply == NotSent {
        return ApplyFailed(Transport);
      }
      var ref := e.document.objectRef;
      var before := Lookup(docs, ref);
      var ctx := new ScriptContext(before);
      var failed := ctx.Execute(e);
      if !failed && ctx.op != Nothing {
        docs := docs[ref := ctx.source];
      }
      if reply == AnswerLost {
        return ApplyFailed(Transport);
      }
      if failed {
        return ApplyFailed(ScriptRefused);
      }
      var result := if ctx.op == Nothing then WasNoop else if before.None? then WasCreated else WasUpdated;
      r := ReadAnswer(e, result, ctx.source);
    }
  }
}
