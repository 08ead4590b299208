/** The text whose hash identifies a delivery's immutable content. */
module Fingerprint {
  import opened Text
  import opened Json
  import opened JsonShape
  import opened Canonical
  import opened OrderTime

  /** An admitted envelope. Free-form parts are the JSON documents the encoder emits for them. */
  datatype Delivery = Delivery(
    action: string,
    objectType: string,
    data: Tree,
    tags: Option<seq<string>>,
    config: Option<Tree>,
    audit: AuditEvent,
    headers: map<string, string>)

  datatype AuditEvent = AuditEvent(
    eventId: string,
    publisher: string,
    occurredAt: Stamp,
    revision: nat,
    origin: string,
    attribution: Tree,
    scope: Tree,
    content: Option<Tree>)

  predicate Plain(t: Tree)
  {
    UniqueNames(t) && Spelled(t)
  }

  predicate PlainIfAny(t: Option<Tree>)
  {
    t.Some? ==> Plain(t.value)
  }

  /** What the shape check and the decoder leave of a delivery. */
  predicate Admitted(d: Delivery)
  {
    && Plain(d.data) && PlainIfAny(d.config)
    && Plain(d.audit.attribution) && Plain(d.audit.scope) && PlainIfAny(d.audit.content)
  }

  // ---------------------------------------------------------------------------
  // Encoding
  // ---------------------------------------------------------------------------

  function OrNull(t: Option<Tree>): Tree
  {
    if t.Some? then t.value else Null
  }

  /** A nil slice is null, an empty one is not. */
  function TagList(tags: Option<seq<string>>): Tree
  {
    if tags.None? then Null else Arr(seq(|tags.value|, i requires 0 <= i < |tags.value| => Str(tags.value[i])))
  }

  ghost function AuditTree(a: AuditEvent): Tree
    requires Encodable(a.occurredAt)
  {
    var fixed := AuditFields(a, JsonText(CivilOf(a.occurredAt.instant)));
    Obj(if a.content.Some? then fixed + [Member("content", a.content.value)] else fixed)
  }

  function AuditFields(a: AuditEvent, occurredAt: string): seq<Member>
  {
    [Member("event_id", Str(a.eventId)),
     Member("publisher", Str(a.publisher)),
     Member("occurred_at", Str(occurredAt)),
     Member("resource_revision", Num(Pad(a.revision, 1))),
     Member("origin", Str(a.origin)),
     Member("attribution", a.attribution),
     Member("scope", a.scope)]
  }

  ghost function ImmutableTree(d: Delivery): Tree
    requires Encodable(d.audit.occurredAt)
  {
    Obj(ImmutableFields(d, OrNull(d.config), TagList(d.tags), AuditTree(d.audit)))
  }

  function ImmutableFields(d: Delivery, config: Tree, tags: Tree, audit: Tree): seq<Member>
  {
    [Member("action", Str(d.action)),
     Member("object_type", Str(d.objectType)),
     Member("data", d.data),
     Member("tags", tags),
     Member("indexing_config", config),
     Member("audit", audit)]
  }

  /** The hashed text, or none when the time cannot be encoded. */
  ghost function FingerprintText(d: Delivery): Option<string>
  {
    if Encodable(d.audit.occurredAt) then Some(CanonicalText(ImmutableTree(d))) else None
  }

  // ---------------------------------------------------------------------------
  // Immutable content
  // ---------------------------------------------------------------------------

  /** An absent configuration is the same as a null one. */
  predicate SameEvent(a: AuditEvent, b: AuditEvent)
  {
    && a.eventId == b.eventId && a.publisher == b.publisher && a.origin == b.origin && a.revision == b.revision
    && a.occurredAt.instant == b.occurredAt.instant
    && Same(a.attribution, b.attribution) && Same(a.scope, b.scope)
    && a.content.Some? == b.content.Some? && (a.content.Some? ==> Same(a.content.value, b.content.value))
  }

  predicate SameContent(d: Delivery, e: Delivery)
  {
    && d.action == e.action && d.objectType == e.objectType && d.tags == e.tags
    && Same(d.data, e.data) && Same(OrNull(d.config), OrNull(e.config)) && SameEvent(d.audit, e.audit)
  }

  // ---------------------------------------------------------------------------
  // The fingerprinted text is equal exactly when the immutable content is
  // ---------------------------------------------------------------------------

  lemma {:induction false} DecimalIsExact(a: nat, b: nat)
    requires Pad(a, 1) == Pad(b, 1)
    ensures a == b
  {
    var x, y := Pad(a, 1), Pad(b, 1);
    PadIsNotEmpty(a / 10, 0);
    PadIsNotEmpty(b / 10, 0);
    assert x[|x| - 1] == DigitChar(a % 10) && y[|y| - 1] == DigitChar(b % 10);
    if a >= 10 && b >= 10 {
      assert x[..|x| - 1] == Pad(a / 10, 0) && y[..|y| - 1] == Pad(b / 10, 0);
      PadWidth(a / 10);
      PadWidth(b / 10);
      DecimalIsExact(a / 10, b / 10);
    }
  }

  lemma PadIsNotEmpty(n: nat, width: nat)
    ensures Pad(n, width) != ""
  {
  }

  lemma PadWidth(n: nat)
    ensures Pad(n, 0) == Pad(n, 1)
  {
  }

  lemma {:induction false} DecimalIsSpelling(n: nat, width: nat)
    ensures Spelling(Pad(n, width)) && '0' <= Pad(n, width)[0] <= '9'
    decreases n, width
  {
    if n >= 10 || width > 1 {
      DecimalIsSpelling(n / 10, if width == 0 then 0 else width - 1);
    }
  }

  predicate SameAt(ms: seq<Member>, ns: seq<Member>, i: nat)
    requires i < |ms| && i < |ns|
  {
    Same(ms[i].value, ns[i].value)
  }

  lemma SevenOrEight(ms: seq<Member>, ns: seq<Member>)
    requires |ms| == |ns| && 7 <= |ms| <= 8
    ensures (forall i :: 0 <= i < |ms| ==> SameAt(ms, ns, i)) <==>
              && SameAt(ms, ns, 0) && SameAt(ms, ns, 1) && SameAt(ms, ns, 2) && SameAt(ms, ns, 3)
              && SameAt(ms, ns, 4) && SameAt(ms, ns, 5) && SameAt(ms, ns, 6) && (|ms| == 8 ==> SameAt(ms, ns, 7))
  {
    if SameAt(ms, ns, 0) && SameAt(ms, ns, 1) && SameAt(ms, ns, 2) && SameAt(ms, ns, 3)
       && SameAt(ms, ns, 4) && SameAt(ms, ns, 5) && SameAt(ms, ns, 6) && (|ms| == 8 ==> SameAt(ms, ns, 7)) {
      forall i | 0 <= i < |ms| ensures SameAt(ms, ns, i) {
        assert i in {0, 1, 2, 3, 4, 5, 6, 7};
      }
    }
  }

  lemma Six(ms: seq<Member>, ns: seq<Member>)
    requires |ms| == |ns| == 6
    ensures (forall i :: 0 <= i < |ms| ==> SameAt(ms, ns, i)) <==>
              && SameAt(ms, ns, 0) && SameAt(ms, ns, 1) && SameAt(ms, ns, 2)
              && SameAt(ms, ns, 3) && SameAt(ms, ns, 4) && SameAt(ms, ns, 5)
  {
    if SameAt(ms, ns, 0) && SameAt(ms, ns, 1) && SameAt(ms, ns, 2) && SameAt(ms, ns, 3) && SameAt(ms, ns, 4) &&
      SameAt(ms, ns, 5) {
      forall i | 0 <= i < |ms| ensures SameAt(ms, ns, i) {
        assert i in {0, 1, 2, 3, 4, 5};
      }
    }
  }

  /** Objects with the same names in the same places compare value by value. */
  lemma SameByPosition(t: Tree, u: Tree)
    requires t.Obj? && u.Obj? && |t.members| == |u.members|
    requires forall i :: 0 <= i < |t.members| ==> t.members[i].name == u.members[i].name
    requires DistinctNames(t.members)
    ensures Same(t, u) <==> forall i :: 0 <= i < |t.members| ==> SameAt(t.members, u.members, i)
  {
    forall j | 0 <= j < |u.members| ensures HasName(t, u.members[j].name) {
      assert t.members[j].name == u.members[j].name;
    }
    forall i | 0 <= i < |t.members| ensures SomeMemberMatches(t, i, u) <==> SameAt(t.members, u.members, i) {
      assert u.members[i].name == t.members[i].name;
    }
  }

  lemma TagsAreExact(a: Option<seq<string>>, b: Option<seq<string>>)
    ensures Same(TagList(a), TagList(b)) <==> a == b
    ensures Plain(TagList(a))
  {
    if a.Some? && b.Some? && Same(TagList(a), TagList(b)) {
      forall i | 0 <= i < |a.value| ensures a.value[i] == b.value[i] {
        assert Same(TagList(a).items[i], TagList(b).items[i]);
      }
      assert a.value == b.value;
    }
  }

  lemma AuditIsPlain(a: AuditEvent)
    requires Encodable(a.occurredAt) && Plain(a.attribution) && Plain(a.scope) && PlainIfAny(a.content)
    ensures Plain(AuditTree(a))
  {
    DecimalIsSpelling(a.revision, 1);
    AuditNamesDiffer(a);
    var t := AuditTree(a);
    forall i | 0 <= i < |t.members| ensures Plain(t.members[i].value) {
      assert i < 7 ==> t.members[i] == AuditFields(a, JsonText(CivilOf(a.occurredAt.instant)))[i];
    }
    PlainObject(t);
  }

  lemma PlainObject(t: Tree)
    requires t.Obj? && DistinctNames(t.members) && forall i :: 0 <= i < |t.members| ==> Plain(t.members[i].value)
    ensures Plain(t)
  {
  }

  predicate DistinctNames(ms: seq<Member>)
  {
    forall i, j :: 0 <= i < j < |ms| ==> ms[i].name != ms[j].name
  }

  /** Lengths tell all but two of the names apart. */
  lemma AuditNamesDiffer(a: AuditEvent)
    requires Encodable(a.occurredAt)
    ensures DistinctNames(AuditTree(a).members)
    ensures forall i :: 0 <= i < |AuditTree(a).members| ==> AuditTree(a).members[i].name == AUDIT_NAMES[i]
  {
    var ms := AuditTree(a).members;
    var fixed := AuditFields(a, JsonText(CivilOf(a.occurredAt.instant)));
    assert forall i :: 0 <= i < 7 ==> ms[i] == fixed[i];
    assert forall i :: 0 <= i < |ms| ==> ms[i].name == AUDIT_NAMES[i];
    FixedNamesDiffer();
  }

  lemma FixedNamesDiffer()
    ensures forall i, j :: 0 <= i < j < |AUDIT_NAMES| ==> AUDIT_NAMES[i] != AUDIT_NAMES[j]
  {
    var lengths := [8, 9, 11, 17, 6, 11, 5, 7];
    assert forall i :: 0 <= i < 8 ==> |AUDIT_NAMES[i]| == lengths[i];
    assert AUDIT_NAMES[2][0] == 'o' && AUDIT_NAMES[5][0] == 'a';
  }

  lemma AuditIsExact(a: AuditEvent, b: AuditEvent)
    requires Encodable(a.occurredAt) && Encodable(b.occurredAt)
    ensures Same(AuditTree(a), AuditTree(b)) <==> SameEvent(a, b)
  {
    var t, u := AuditTree(a), AuditTree(b);
    JsonTextIsExact(CivilOf(a.occurredAt.instant), CivilOf(b.occurredAt.instant));
    if Pad(a.revision, 1) == Pad(b.revision, 1) {
      DecimalIsExact(a.revision, b.revision);
    }
    AuditNamesDiffer(a);
    AuditNamesDiffer(b);
    if a.content.Some? == b.content.Some? {
      SameByPosition(t, u);
      AuditByPosition(a, b, t, u);
    } else {
      ContentMustMatch(a, b, t, u);
    }
  }

  lemma FieldByField(a: AuditEvent, b: AuditEvent, x: string, y: string)
    ensures var fs, gs := AuditFields(a, x), AuditFields(b, y);
            && (SameAt(fs, gs, 0) <==> a.eventId == b.eventId) && (SameAt(fs, gs, 1) <==> a.publisher == b.publisher)
            && (SameAt(fs, gs, 2) <==> x == y) && (SameAt(fs, gs, 3) <==> Pad(a.revision, 1) == Pad(b.revision, 1))
            && (SameAt(fs, gs, 4) <==> a.origin == b.origin)
            && (SameAt(fs, gs, 5) <==> Same(a.attribution, b.attribution)) &&
                 (SameAt(fs, gs, 6) <==> Same(a.scope, b.scope))
  {
  }

  lemma AuditByPosition(a: AuditEvent, b: AuditEvent, t: Tree, u: Tree)
    requires Encodable(a.occurredAt) && Encodable(b.occurredAt) && a.content.Some? == b.content.Some?
    requires t == AuditTree(a) && u == AuditTree(b)
    ensures (forall i :: 0 <= i < |t.members| ==> SameAt(t.members, u.members, i)) <==>
              && a.eventId == b.eventId && a.publisher == b.publisher
              && JsonText(CivilOf(a.occurredAt.instant)) == JsonText(CivilOf(b.occurredAt.instant))
              && Pad(a.revision, 1) == Pad(b.revision, 1) && a.origin == b.origin
              && Same(a.attribution, b.attribution) && Same(a.scope, b.scope)
              && (a.content.Some? ==> Same(a.content.value, b.content.value))
  {
    SevenOrEight(t.members, u.members);
    var x, y := JsonText(CivilOf(a.occurredAt.instant)), JsonText(CivilOf(b.occurredAt.instant));
    var fs, gs := AuditFields(a, x), AuditFields(b, y);
    assert forall i :: 0 <= i < 7 ==> t.members[i] == fs[i] && u.members[i] == gs[i];
    FieldByField(a, b, x, y);
    assert forall i: nat :: i < 7 ==> SameAt(t.members, u.members, i) == SameAt(fs, gs, i);
    assert a.content.Some? ==> SameAt(t.members, u.members, 7) == Same(a.content.value, b.content.value);
  }

  lemma ContentMustMatch(a: AuditEvent, b: AuditEvent, t: Tree, u: Tree)
    requires Encodable(a.occurredAt) && Encodable(b.occurredAt) && a.content.Some? != b.content.Some?
    requires t == AuditTree(a) && u == AuditTree(b)
    ensures !Same(t, u)
  {
    AuditNamesDiffer(a);
    AuditNamesDiffer(b);
    FixedNamesDiffer();
    if a.content.Some? {
      assert t.members[7].name == AUDIT_NAMES[7] && !HasName(u, AUDIT_NAMES[7]);
      assert !SomeMemberMatches(t, 7, u);
    } else {
      assert u.members[7].name == AUDIT_NAMES[7] && !HasName(t, AUDIT_NAMES[7]);
    }
  }

  lemma ImmutableIsPlain(d: Delivery)
    requires Encodable(d.audit.occurredAt) && Admitted(d)
    ensures Plain(ImmutableTree(d))
  {
    AuditIsPlain(d.audit);
    TagsAreExact(d.tags, d.tags);
    ImmutableNamesDiffer(d);
    var ms := ImmutableTree(d).members;
    SixFields(ms, d, OrNull(d.config), TagList(d.tags), AuditTree(d.audit));
    forall i | 0 <= i < |ms| ensures Plain(ms[i].value) {
      assert i in {0, 1, 2, 3, 4, 5};
    }
    PlainObject(ImmutableTree(d));
  }

  lemma ImmutableNamesDiffer(d: Delivery)
    requires Encodable(d.audit.occurredAt)
    ensures DistinctNames(ImmutableTree(d).members)
  {
    var ms := ImmutableTree(d).members;
    var lengths := [6, 11, 4, 4, 15, 5];
    assert forall i :: 0 <= i < 6 ==> |ms[i].name| == lengths[i];
    assert ms[2].name[0] == 'd' && ms[3].name[0] == 't';
  }

  lemma SameStrings(a: string, b: string)
    ensures Same(Str(a), Str(b)) <==> a == b
  {
  }

  lemma SixFields(ms: seq<Member>, d: Delivery, c: Tree, t: Tree, a: Tree)
    requires ms == ImmutableFields(d, c, t, a)
    ensures ms[0].value == Str(d.action) && ms[1].value == Str(d.objectType) && ms[2].value == d.data
    ensures ms[3].value == t && ms[4].value == c && ms[5].value == a
  {
  }

  lemma ImmutableIsExact(d: Delivery, e: Delivery)
    requires Encodable(d.audit.occurredAt) && Encodable(e.audit.occurredAt)
    ensures Same(ImmutableTree(d), ImmutableTree(e)) <==> SameContent(d, e)
  {
    var t, u := ImmutableTree(d), ImmutableTree(e);
    ImmutableNamesDiffer(d);
    SameByPosition(t, u);
    Six(t.members, u.members);
    AuditIsExact(d.audit, e.audit);
    TagsAreExact(d.tags, e.tags);
    SixFields(t.members, d, OrNull(d.config), TagList(d.tags), AuditTree(d.audit));
    SixFields(u.members, e, OrNull(e.config), TagList(e.tags), AuditTree(e.audit));
    SameStrings(d.action, e.action);
    SameStrings(d.objectType, e.objectType);
  }

  /** Fingerprinted texts are equal exactly when the immutable contents are: objects unordered, times
      as instants whatever their zone, arrays in order, numbers by spelling; headers play no part. */
  lemma FingerprintIsExact(d: Delivery, e: Delivery)
    requires Admitted(d) && Admitted(e)
    ensures FingerprintText(d).None? <==> !Encodable(d.audit.occurredAt)
    ensures FingerprintText(d).Some? && FingerprintText(e).Some? ==>
        (FingerprintText(d) == FingerprintText(e) <==> SameContent(d, e))
  {
    if FingerprintText(d).Some? && FingerprintText(e).Some? {
      ImmutableIsPlain(d);
      ImmutableIsPlain(e);
      CanonicalTextIsExact(ImmutableTree(d), ImmutableTree(e));
      ImmutableIsExact(d, e);
    }
  }
}
