/** Token grammars, and why keys and references built from them never collide. */
module Grammar {

  predicate Lower(c: char) { 'a' <= c <= 'z' }
  predicate Upper(c: char) { 'A' <= c <= 'Z' }
  predicate Digit(c: char) { '0' <= c <= '9' }

  predicate PublisherName(s: string)
  {
    0 < |s| <= 64 && Lower(s[0]) &&
      forall i :: 0 <= i < |s| ==> Lower(s[i]) || Digit(s[i]) || s[i] == '_' || s[i] == '-'
  }

  predicate EventId(s: string)
  {
    && 0 < |s| <= 128
    && (Lower(s[0]) || Upper(s[0]) || Digit(s[0]))
    && forall i :: 0 <= i < |s| ==> Lower(s[i]) || Upper(s[i]) || Digit(s[i]) || s[i] in "._-"
  }

  predicate ObjectToken(s: string)
  {
    0 < |s| <= 64 && Lower(s[0]) && forall i :: 0 <= i < |s| ==> Lower(s[i]) || Digit(s[i]) || s[i] == '_'
  }

  predicate AuditObjectType(s: string)
  {
    ObjectToken(s) && s != "index"
  }

  predicate Printable(c: char)
  {
    0x21 as char <= c <= 0x7e as char
  }

  /** `auditID`: a literal identifier without reference or template punctuation. */
  predicate AuditId(s: string)
  {
    0 < |s| <= 256 && forall i :: 0 <= i < |s| ==> Printable(s[i]) && s[i] !in ":#@{}"
  }

  function FirstColon(s: string): (k: nat)
    ensures k <= |s| && (k < |s| ==> s[k] == ':') && forall i :: 0 <= i < k ==> s[i] != ':'
  {
    if s == "" || s[0] == ':' then 0 else 1 + FirstColon(s[1..])
  }

  /** `auditRef`: cut at the first colon, then check both halves. */
  predicate AuditRef(s: string)
  {
    var k := FirstColon(s);
    k < |s| && ObjectToken(s[..k]) && AuditId(s[k + 1..])
  }

  /** `ValidateObjectType`: any non-reserved NATS token, colons included. */
  predicate LegacyType(s: string)
  {
    s != "" && s != "index" && forall i :: 0 <= i < |s| ==> s[i] != '.' && s[i] != '*' && s[i] != '>' && s[i] > ' '
  }

  /** `isValidObjectID`: printable, colons included. */
  predicate LegacyId(s: string)
  {
    s != "" && forall i :: 0 <= i < |s| ==> Printable(s[i])
  }

  predicate ColonFree(s: string)
  {
    forall i :: 0 <= i < |s| ==> s[i] != ':'
  }

  function Join(kind: string, id: string): string
  {
    kind + ":" + id
  }

  lemma JoinAt(kind: string, id: string)
    ensures |Join(kind, id)| == |kind| + 1 + |id|
    ensures Join(kind, id)[..|kind|] == kind && Join(kind, id)[|kind|] == ':' && Join(kind, id)[|kind| + 1..] == id
    ensures forall i :: 0 <= i < |kind| ==> Join(kind, id)[i] == kind[i]
    ensures forall i :: |kind| < i < |Join(kind, id)| ==> Join(kind, id)[i] == id[i - |kind| - 1]
  {
  }

  /** A joined string whose two halves are free of colons is produced by no other pair. */
  lemma JoinIsUnambiguous(kind: string, id: string, kind': string, id': string)
    requires ColonFree(kind) && (ColonFree(id) || ColonFree(kind'))
    requires Join(kind, id) == Join(kind', id')
    ensures kind == kind' && id == id'
  {
    JoinAt(kind, id);
    JoinAt(kind', id');
    var s := Join(kind, id);
    assert s[|kind|] == ':' && s[|kind'|] == ':';
    assert |kind| == |kind'|;
  }

  /** `publisher:event_id` keys: distinct events never share a slot. */
  lemma KeysNeverCollide(publisher: string, eventId: string, publisher': string, eventId': string)
    requires PublisherName(publisher) && EventId(eventId) && PublisherName(publisher') && EventId(eventId')
    requires Join(publisher, eventId) == Join(publisher', eventId')
    ensures publisher == publisher' && eventId == eventId'
  {
    JoinIsUnambiguous(publisher, eventId, publisher', eventId');
  }

  /** No legacy document ID of another type, even one full of colons, equals an audited reference. */
  lemma ReferencesNeverMeet(auditType: string, auditId: string, legacyType: string, legacyId: string)
    requires AuditObjectType(auditType) && AuditId(auditId)
    requires Join(auditType, auditId) == Join(legacyType, legacyId)
    ensures legacyType == auditType && legacyId == auditId
  {
    forall i | 0 <= i < |auditId| ensures auditId[i] != ':' {
      assert auditId[i] !in ":#@{}";
      assert ":#@{}"[0] == ':';
    }
    JoinIsUnambiguous(auditType, auditId, legacyType, legacyId);
  }

  /** The audited reference check accepts exactly the joins of its two grammars. */
  lemma AuditRefIsJoin(s: string)
    ensures AuditRef(s) <==> exists kind, id :: ObjectToken(kind) && AuditId(id) && s == Join(kind, id)
  {
    var k := FirstColon(s);
    if AuditRef(s) {
      assert s == Join(s[..k], s[k + 1..]);
    }
    if exists kind, id :: ObjectToken(kind) && AuditId(id) && s == Join(kind, id) {
      var kind, id :| ObjectToken(kind) && AuditId(id) && s == Join(kind, id);
      JoinAt(kind, id);
      assert s[|kind|] == ':' && k == |kind|;
    }
  }

  lemma AuditedNamesAreLegacyNames(auditType: string, auditId: string)
    requires AuditObjectType(auditType) && AuditId(auditId)
    ensures LegacyType(auditType) && LegacyId(auditId)
  {
  }
}
