/** Legacy, platform-V1 and audited messages share one index. Routing decides which of them may
    touch which document, and the guard on an audited document is worth what the routing lets by. */
module Fencing {
  import opened Text
  import opened Grammar
  import opened Projection
  import opened CurrentIndex
  import opened Repositories

  const INDEX_PREFIX := "lfx.index."
  const V1_PREFIX := "lfx.v1.index."

  function CutPrefix(s: string, prefix: string): (r: Option<string>)
    ensures r.Some? ==> s == prefix + r.value
    ensures r.None? ==> !(prefix <= s)
  {
    if prefix <= s then Some(s[|prefix|..]) else None
  }

  /** What the discriminator finds under `audit`. */
  datatype AuditField = Absent | Malformed | Declared(origin: Option<Origin>)

  /** A message body as routing sees it: `legacy` is what the transaction path would extract,
      `admitted` is the envelope the audited path would admit. */
  datatype Message =
    | NotJson
    | Json(hasSchemaVersion: bool, audit: AuditField, legacy: Option<Transaction>, admitted: Option<Envelope>)

  /** A legacy write after parsing: its identifier and the body to be indexed. */
  datatype Transaction = Transaction(objectId: string, body: Body)

  /** Strict decoding admits only an envelope of the subject's own type, well-formed identifiers,
      and the origin that routing saw. */
  predicate Admissible(m: Message, objectType: string)
  {
    m.Json? && m.admitted.Some? ==>
      && m.admitted.value.objectType == objectType
      && AuditObjectType(objectType) && AuditId(m.admitted.value.objectId)
      && m.audit == Declared(Some(m.admitted.value.origin))
  }

  function LegacySource(body: Body): Source
  {
    EMPTY_SOURCE.(body := Some(body))
  }

  predicate RequiresLegacyFence(origin: Option<Origin>)
  {
    origin.Some? && origin != Some(Backfill)
  }

  // ---------------------------------------------------------------------------
  // Effect of one message on the current index
  // ---------------------------------------------------------------------------

  /** Fence configuration: object types whose legacy writes are refused. */
  datatype Fences = Fences(enabled: bool, required: set<string>)

  /** The transaction path replaces the whole document of its own reference. */
  function LegacyEffect(docs: map<string, Source>, objectType: string, legacy: Option<Transaction>): map<string, Source>
  {
    if legacy.Some? && LegacyType(objectType) && LegacyId(legacy.value.objectId)
    then docs[Join(objectType, legacy.value.objectId) := LegacySource(legacy.value.body)] else docs
  }

  function AuditedEffect(fences: Fences, docs: map<string, Source>, m: Message, objectType: string): map<string, Source>
    requires m.Json?
  {
    if !m.audit.Declared? || (RequiresLegacyFence(m.audit.origin) && objectType !in fences.required) ||
      m.admitted.None? then docs
    else
      var ref := m.admitted.value.Ref();
      Put(docs, ref, After(Lookup(docs, ref), m.admitted.value.ToEvent()))
  }

  function IndexEffect(fences: Fences, docs: map<string, Source>, m: Message, subject: string): map<string, Source>
  {
    var t := CutPrefix(subject, INDEX_PREFIX);
    if m.NotJson? || t.None? then docs
    else if fences.enabled && (m.hasSchemaVersion || !m.audit.Absent?) then AuditedEffect(fences, docs, m, t.value)
    else if fences.enabled && t.value in fences.required then docs
    else LegacyEffect(docs, t.value, m.legacy)
  }

  function V1Effect(fences: Fences, docs: map<string, Source>, m: Message, subject: string): map<string, Source>
  {
    var t := CutPrefix(subject, V1_PREFIX);
    if m.NotJson? || t.None? || (fences.enabled && t.value in fences.required) then docs
    else LegacyEffect(docs, t.value, m.legacy)
  }

  // ---------------------------------------------------------------------------
  // What a message must come to, said of the documents before and after it
  // ---------------------------------------------------------------------------

  /** The message is for the audited path: it declares a version or an audit object. */
  predicate Versioned(m: Message)
  {
    m.Json? && (m.hasSchemaVersion || m.audit != Absent)
  }

  predicate OthersUntouched(before: map<string, Source>, after: map<string, Source>, ref: string)
  {
    (forall r :: r in before && r != ref ==> r in after && after[r] == before[r]) &&
    (forall r :: r in after && r != ref ==> r in before)
  }

  /** The audited write came through: the document has at least the event's revision, and the event's body
      and revision if it is newer than what was stored. Only a legacy document stands in the way of
      anything but a backfill. */
  predicate AuditedWritten(before: map<string, Source>, after: map<string, Source>, env: Envelope)
  {
    var ref := Join(env.objectType, env.objectId);
    var legacy := ref in before && before[ref].revision.None?;
    && OthersUntouched(before, after, ref)
    && (legacy && env.origin != Backfill ==> after == before)
    && (!legacy || env.origin == Backfill ==>
          && ref in after && after[ref].revision.Some? && after[ref].revision.value >= env.revision
          && (ref !in before || legacy || before[ref].revision.value < env.revision ==>
                after[ref].revision == Some(env.revision) && after[ref].body == Some(env.ToEvent().document))
          && (ref in before && !legacy ==> after[ref].revision.value >= before[ref].revision.value))
  }

  /** The legacy write came through: its body, without any audit field, under `type:id`. */
  predicate LegacyWritten(
    before: map<string, Source>, after: map<string, Source>, objectType: string, tx: Transaction)
  {
    var ref := Join(objectType, tx.objectId);
    && OthersUntouched(before, after, ref)
    && ref in after && after[ref].body == Some(tx.body)
    && after[ref].revision.None? && after[ref].eventKey.None? && after[ref].mutationKey.None?
    && after[ref].orderTime.None?
  }

  predicate LegacyOutcome(
    before: map<string, Source>, after: map<string, Source>, objectType: string, legacy: Option<Transaction>)
  {
    if legacy.Some? && LegacyType(objectType) && LegacyId(legacy.value.objectId)
    then LegacyWritten(before, after, objectType, legacy.value) else after == before
  }

  predicate IndexOutcome(
    fences: Fences, before: map<string, Source>, after: map<string, Source>, m: Message, subject: string)
  {
    var t := CutPrefix(subject, INDEX_PREFIX);
    if m.NotJson? || t.None? then after == before
    else if fences.enabled && Versioned(m) then
      if m.audit.Declared? && m.admitted.Some? && (m.audit.origin == Some(Backfill) || t.value in fences.required)
      then AuditedWritten(before, after, m.admitted.value)
      else after == before
    else if fences.enabled && t.value in fences.required then after == before
    else LegacyOutcome(before, after, t.value, m.legacy)
  }

  predicate V1Outcome(
    fences: Fences, before: map<string, Source>, after: map<string, Source>, m: Message, subject: string)
  {
    var t := CutPrefix(subject, V1_PREFIX);
    if m.NotJson? || t.None? || (fences.enabled && t.value in fences.required) then after == before
    else LegacyOutcome(before, after, t.value, m.legacy)
  }

  lemma AuditedWriteComesThrough(docs: map<string, Source>, env: Envelope)
    ensures AuditedWritten(docs, Put(docs, env.Ref(), After(Lookup(docs, env.Ref()), env.ToEvent())), env)
  {
  }

  /** Admitted audited messages past the fence are written, refused ones change nothing, and legacy messages
      of unfenced types replace exactly their own document. */
  lemma MessagesComeToTheirOutcome(fences: Fences, docs: map<string, Source>, m: Message, subject: string)
    requires CutPrefix(subject, INDEX_PREFIX).Some? ==> Admissible(m, CutPrefix(subject, INDEX_PREFIX).value)
    ensures IndexOutcome(fences, docs, IndexEffect(fences, docs, m, subject), m, subject)
    ensures V1Outcome(fences, docs, V1Effect(fences, docs, m, subject), m, subject)
  {
    if m.Json? && m.admitted.Some? {
      AuditedWriteComesThrough(docs, m.admitted.value);
    }
  }

  lemma LegacyComesThrough(fences: Fences, docs: map<string, Source>, m: Message, subject: string)
    ensures V1Outcome(fences, docs, V1Effect(fences, docs, m, subject), m, subject)
  {
  }

  class MessageProcessor {
    var auditWorkflow: bool
    var auditRequiredTypes: map<string, bool>
    var docs: map<string, Source>

    constructor (docs: map<string, Source>)
      ensures this.docs == docs && Fence() == Fences(false, {})
    {
      this.docs := docs;
      auditWorkflow, auditRequiredTypes := false, map[];
    }

    ghost function Fence(): Fences
      reads this
    {
      Fences(auditWorkflow, set t | t in auditRequiredTypes && auditRequiredTypes[t])
    }

    /** Installs the audited path, or changes nothing if any type name is invalid. */
    method SetAuditWorkflow(requiredTypes: seq<string>) returns (ok: bool)
      modifies this`auditWorkflow, this`auditRequiredTypes
      ensures ok <==> forall i :: 0 <= i < |requiredTypes| ==> AuditObjectType(requiredTypes[i])
      ensures Fence() == if ok then Fences(true, set t | t in requiredTypes) else old(Fence())
    {
      for i := 0 to |requiredTypes|
        invariant forall j :: 0 <= j < i ==> AuditObjectType(requiredTypes[j])
      {
        if !AuditObjectType(requiredTypes[i]) {
          return false;
        }
      }
      auditWorkflow := true;
      auditRequiredTypes := map[];
      for i := 0 to |requiredTypes|
        invariant auditWorkflow
        invariant forall t :: t in auditRequiredTypes <==> t in requiredTypes[..i]
        invariant forall t :: t in auditRequiredTypes ==> auditRequiredTypes[t]
      {
        auditRequiredTypes := auditRequiredTypes[requiredTypes[i] := true];
      }
      assert requiredTypes[..|requiredTypes|] == requiredTypes;
      assert Fence().required == (set t | t in requiredTypes);
      return true;
    }

    method Required(objectType: string) returns (r: bool)
      ensures r <==> objectType in Fence().required
    {
      r := objectType in auditRequiredTypes && auditRequiredTypes[objectType];
    }

    method ValidateAuditFencedType(audit: AuditField, subject: string) returns (ok: bool)
      ensures ok <==> audit.Declared? &&
                      (RequiresLegacyFence(audit.origin) ==>
                         CutPrefix(subject, INDEX_PREFIX).Some? &&
                           CutPrefix(subject, INDEX_PREFIX).value in Fence().required)
    {
      if !audit.Declared? {
        return false;
      }
      if RequiresLegacyFence(audit.origin) {
        var t := CutPrefix(subject, INDEX_PREFIX);
        if t.None? {
          return false;
        }
        var r := Required(t.value);
        return r;
      }
      return true;
    }

    /** The V2 subject: audited, refused, or legacy. */
    method ProcessIndexingMessage(m: Message, subject: string)
      requires CutPrefix(subject, INDEX_PREFIX).Some? ==> Admissible(m, CutPrefix(subject, INDEX_PREFIX).value)
      modifies this`docs
      ensures docs == IndexEffect(old(Fence()), old(docs), m, subject)
      ensures IndexOutcome(old(Fence()), old(docs), docs, m, subject)
    {
      MessagesComeToTheirOutcome(Fence(), docs, m, subject);
      if m.NotJson? {
        return;
      }
      var t := CutPrefix(subject, INDEX_PREFIX);
      if auditWorkflow {
        if m.hasSchemaVersion || m.audit != Absent {
          var ok := ValidateAuditFencedType(m.audit, subject);
          if ok && t.Some? && m.admitted.Some? {
            var env := m.admitted.value;
            docs := Put(docs, env.Ref(), After(Lookup(docs, env.Ref()), env.ToEvent()));
          }
          return;
        }
        if t.Some? {
          var r := Required(t.value);
          if r {
            return;
          }
        }
      }
      if t.None? {
        return;
      }
      docs := LegacyEffect(docs, t.value, m.legacy);
    }

    /** The platform-V1 subject: refused for audit-required types, legacy otherwise. */
    method ProcessV1IndexingMessage(m: Message, subject: string)
      modifies this`docs
      ensures docs == V1Effect(old(Fence()), old(docs), m, subject)
      ensures V1Outcome(old(Fence()), old(docs), docs, m, subject)
    {
      LegacyComesThrough(Fence(), docs, m, subject);
      var t := CutPrefix(subject, V1_PREFIX);
      if auditWorkflow && t.Some? {
        var r := Required(t.value);
        if r {
          return;
        }
      }
      if m.NotJson? || t.None? {
        return;
      }
      docs := LegacyEffect(docs, t.value, m.legacy);
    }
  }

  // ---------------------------------------------------------------------------
  // Whole runs
  // ---------------------------------------------------------------------------

  datatype Act =
    | OnIndexSubject(m: Message, subject: string)
    | OnV1Subject(m: Message, subject: string)
    | JanitorFlag(id: string)

  predicate ActOk(a: Act)
  {
    a.OnIndexSubject? && CutPrefix(a.subject, INDEX_PREFIX).Some? ==>
      Admissible(a.m, CutPrefix(a.subject, INDEX_PREFIX).value)
  }

  function Step(fences: Fences, docs: map<string, Source>, a: Act): map<string, Source>
  {
    match a
    case OnIndexSubject(m, subject) => IndexEffect(fences, docs, m, subject)
    case OnV1Subject(m, subject) => V1Effect(fences, docs, m, subject)
    case JanitorFlag(id) =>
      if id in docs && docs[id].body.Some?
      then docs[id := docs[id].(body := Some(docs[id].body.value.(latest := false)))] else docs
  }

  function Run(fences: Fences, docs: map<string, Source>, acts: seq<Act>): map<string, Source>
  {
    if acts == [] then docs else Step(fences, Run(fences, docs, acts[..|acts| - 1]), acts[|acts| - 1])
  }

  predicate HasRevision(docs: map<string, Source>, ref: string, atLeast: int)
  {
    ref in docs && docs[ref].revision.Some? && docs[ref].revision.value >= atLeast
  }

  lemma ScriptNeverLowers(before: Option<Source>, e: Event)
    requires before.Some? && before.value.revision.Some?
    ensures After(before, e).Some? && After(before, e).value.revision.Some?
    ensures After(before, e).value.revision.value >= before.value.revision.value
  {
  }

  /** A legacy write aimed at another type misses the audited document. */
  lemma LegacyMisses(docs: map<string, Source>, objectType: string, legacy: Option<Transaction>, t: string, id: string)
    requires AuditObjectType(t) && AuditId(id) && objectType != t
    ensures Lookup(LegacyEffect(docs, objectType, legacy), Join(t, id)) == Lookup(docs, Join(t, id))
  {
    if legacy.Some? && Join(t, id) == Join(objectType, legacy.value.objectId) {
      ReferencesNeverMeet(t, id, objectType, legacy.value.objectId);
    }
  }

  lemma StepKeepsRevision(fences: Fences, docs: map<string, Source>, a: Act, t: string, id: string, r: int)
    requires fences.enabled && t in fences.required && AuditObjectType(t) && AuditId(id) && ActOk(a)
    requires HasRevision(docs, Join(t, id), r)
    ensures HasRevision(Step(fences, docs, a), Join(t, id), r)
  {
    var ref := Join(t, id);
    match a
    case OnIndexSubject(m, subject) =>
      var s := CutPrefix(subject, INDEX_PREFIX);
      if m.Json? && s.Some? && s.value != t {
        LegacyMisses(docs, s.value, m.legacy, t, id);
      }
      if m.Json? && m.admitted.Some? {
        ScriptNeverLowers(Lookup(docs, ref), m.admitted.value.ToEvent());
      }
    case OnV1Subject(m, subject) =>
      var s := CutPrefix(subject, V1_PREFIX);
      if m.Json? && s.Some? && s.value != t {
        LegacyMisses(docs, s.value, m.legacy, t, id);
      }
    case JanitorFlag(_) =>
  }

  /** The fence over whole runs: the revision of a fenced canonical document survives every mix of
      V1, unversioned, audited and janitor steps, and never falls. */
  lemma {:induction false} FenceHolds(
    fences: Fences, docs: map<string, Source>, acts: seq<Act>, t: string, id: string, r: int)
    requires fences.enabled && t in fences.required && AuditObjectType(t) && AuditId(id)
    requires forall i :: 0 <= i < |acts| ==> ActOk(acts[i])
    requires HasRevision(docs, Join(t, id), r)
    ensures HasRevision(Run(fences, docs, acts), Join(t, id), r)
  {
    if acts != [] {
      var n := |acts| - 1;
      FenceHolds(fences, docs, acts[..n], t, id, r);
      StepKeepsRevision(fences, Run(fences, docs, acts[..n]), acts[n], t, id, r);
    }
  }

  /** An unversioned message on the type's own subject. */
  function PlainWrite(t: string, id: string): Act
  {
    OnIndexSubject(Json(false, Absent, Some(Transaction(id, Body(Join(t, id), true, None, None, ""))), None),
      INDEX_PREFIX + t)
  }

  /** And only the fence does it: the revision survives every run exactly when the audited path is
      on and the type is listed. */
  lemma FenceIsExact(fences: Fences, docs: map<string, Source>, t: string, id: string, r: int)
    requires AuditObjectType(t) && AuditId(id) && HasRevision(docs, Join(t, id), r)
    ensures (forall acts: seq<Act> ::
        (forall i :: 0 <= i < |acts| ==> ActOk(acts[i])) ==> HasRevision(Run(fences, docs, acts), Join(t, id), r))
            <==> fences.enabled && t in fences.required
  {
    if fences.enabled && t in fences.required {
      forall acts: seq<Act> | forall i :: 0 <= i < |acts| ==> ActOk(acts[i])
        ensures HasRevision(Run(fences, docs, acts), Join(t, id), r)
      {
        FenceHolds(fences, docs, acts, t, id, r);
      }
    } else {
      AuditedNamesAreLegacyNames(t, id);
      var acts := [PlainWrite(t, id)];
      assert CutPrefix(INDEX_PREFIX + t, INDEX_PREFIX) == Some(t);
      assert acts[..0] == [];
      assert Run(fences, docs, acts) == Step(fences, Run(fences, docs, []), acts[0]);
      assert !HasRevision(Run(fences, docs, acts), Join(t, id), r);
      assert forall i :: 0 <= i < |acts| ==> ActOk(acts[i]);
    }
  }
}
