/** The parts together: fingerprints computed from content make the protocol's identities free of
    collisions, and formatted times make its order the order of instants. */
module Composition {
  import opened Text
  import opened Json
  import opened Canonical
  import opened OrderTime
  import opened Fingerprint
  import opened Projection
  import opened Convergence
  import opened Repositories
  import opened Interleavings
  import opened AuditedRuns

  // ---------------------------------------------------------------------------
  // Fingerprints
  // ---------------------------------------------------------------------------

  function ActionOf(action: string): Action
  {
    if action == "created" then WasCreate else if action == "updated" then WasUpdate else WasDelete
  }

  function OriginOf(origin: string): Origin
  {
    if origin == "mutation" then Mutation
    else if origin == "reindex" then Reindex
    else if origin == "backfill" then Backfill
    else SyncEcho
  }

  function ObjectIdIn(config: Value): string
  {
    if config.VObj? && "object_id" in config.members && config.members["object_id"].VStr?
    then config.members["object_id"].s else ""
  }

  /** The envelope the workflow makes of a delivery; `body` is the rest of the projected document, a
      function of the immutable content. */
  ghost function EnvelopeOf(d: Delivery, hash: string -> string, body: Value -> string): Envelope
    requires Encodable(d.audit.occurredAt)
  {
    Envelope(d.audit.publisher, d.audit.eventId, d.objectType, ObjectIdIn(Decoded(OrNull(d.config))),
             ActionOf(d.action), OriginOf(d.audit.origin), d.audit.revision, OrderTimeOf(d.audit.occurredAt),
             body(Decoded(ImmutableTree(d))), hash(FingerprintText(d).value))
  }

  ghost predicate Processable(ds: set<Delivery>)
  {
    forall d :: d in ds ==> Admitted(d) && Reaches(d.audit.occurredAt)
  }

  ghost function Envelopes(ds: set<Delivery>, hash: string -> string, body: Value -> string): set<Envelope>
    requires Processable(ds)
  {
    set d | d in ds :: EnvelopeOf(d, hash, body)
  }

  ghost predicate Injective(hash: string -> string)
  {
    (forall x, y :: hash(x) == hash(y) ==> x == y) && forall x :: hash(x) != ""
  }

  lemma SameContentSameEnvelope(d: Delivery, e: Delivery, hash: string -> string, body: Value -> string)
    requires Admitted(d) && Admitted(e) && Encodable(d.audit.occurredAt) && Encodable(e.audit.occurredAt)
    requires SameContent(d, e)
    ensures EnvelopeOf(d, hash, body) == EnvelopeOf(e, hash, body)
  {
    ImmutableIsPlain(d);
    ImmutableIsPlain(e);
    ImmutableIsExact(d, e);
    DecodedIsExact(ImmutableTree(d), ImmutableTree(e));
    DecodedIsExact(OrNull(d.config), OrNull(e.config));
  }

  /** With an injective hash, the envelopes of any set of deliveries meet the protocol's assumption:
      equal fingerprints mean equal envelopes. */
  lemma FingerprintsAreCollisionFree(ds: set<Delivery>, hash: string -> string, body: Value -> string)
    requires Processable(ds) && Injective(hash)
    ensures CollisionFree(Envelopes(ds, hash, body))
  {
    var u := Envelopes(ds, hash, body);
    forall a, b | a in u && b in u && a.fingerprint == b.fingerprint ensures a == b {
      var d :| d in ds && a == EnvelopeOf(d, hash, body);
      var e :| e in ds && b == EnvelopeOf(e, hash, body);
      SameFingerprintSameEnvelope(d, e, hash, body);
    }
  }

  lemma SameFingerprintSameEnvelope(d: Delivery, e: Delivery, hash: string -> string, body: Value -> string)
    requires Admitted(d) && Admitted(e) && Encodable(d.audit.occurredAt) && Encodable(e.audit.occurredAt)
    requires Injective(hash) && hash(FingerprintText(d).value) == hash(FingerprintText(e).value)
    ensures EnvelopeOf(d, hash, body) == EnvelopeOf(e, hash, body)
  {
    assert FingerprintText(d).value == FingerprintText(e).value;
    FingerprintIsExact(d, e);
    SameContentSameEnvelope(d, e, hash, body);
  }

  // ---------------------------------------------------------------------------
  // Order by instant
  // ---------------------------------------------------------------------------

  ghost predicate IsTimeOf(stamp: Stamp, e: Event)
  {
    Reaches(stamp) && OrderTimeOf(stamp) == e.orderTime
  }

  /** The instant an event's order time stands for. */
  ghost function InstantOf(e: Event): int
  {
    if exists stamp :: IsTimeOf(stamp, e) then
      var stamp :| IsTimeOf(stamp, e);
      stamp.instant
    else 0
  }

  /** It is the instant at which the delivery says it occurred. */
  lemma InstantIsTheDeliverys(d: Delivery, hash: string -> string, body: Value -> string)
    requires Reaches(d.audit.occurredAt)
    ensures InstantOf(EnvelopeOf(d, hash, body).ToEvent()) == d.audit.occurredAt.instant
    ensures IsTimeOf(d.audit.occurredAt, EnvelopeOf(d, hash, body).ToEvent())
  {
    var e := EnvelopeOf(d, hash, body).ToEvent();
    assert IsTimeOf(d.audit.occurredAt, e);
    forall stamp | IsTimeOf(stamp, e) ensures stamp.instant == d.audit.occurredAt.instant {
      OrderTimeAgrees(stamp, d.audit.occurredAt);
    }
  }

  ghost predicate Timed(s: set<Event>)
  {
    forall e :: e in s ==> exists stamp :: IsTimeOf(stamp, e)
  }

  /** Older revision first; within a revision its mutation before the projections, and these by
      instant, then identity. */
  ghost predicate Before(y: Event, x: Event)
  {
    BeforeAt(y, InstantOf(y), x, InstantOf(x))
  }

  predicate BeforeAt(y: Event, yAt: int, x: Event, xAt: int)
  {
    || y.revision < x.revision
    || (y.revision == x.revision && x.ProjectionOnly() &&
        (!y.ProjectionOnly() || yAt < xAt || (yAt == xAt && Less(y.identity, x.identity))))
  }

  lemma RankByInstants(y: Event, yAt: int, x: Event, xAt: int)
    requires Less(y.orderTime, x.orderTime) <==> yAt < xAt
    requires y.orderTime == x.orderTime <==> yAt == xAt
    ensures Below(RankOf(y), RankOf(x)) <==> BeforeAt(y, yAt, x, xAt)
  {
    LessIrreflexive("");
  }

  lemma InstantHasStamp(e: Event) returns (stamp: Stamp)
    requires exists s :: IsTimeOf(s, e)
    ensures IsTimeOf(stamp, e) && stamp.instant == InstantOf(e)
  {
    stamp :| IsTimeOf(stamp, e) && stamp.instant == InstantOf(e);
  }

  lemma TimesAreInstants(y: Event, x: Event)
    requires (exists s :: IsTimeOf(s, y)) && exists s :: IsTimeOf(s, x)
    ensures Less(y.orderTime, x.orderTime) <==> InstantOf(y) < InstantOf(x)
    ensures y.orderTime == x.orderTime <==> InstantOf(y) == InstantOf(x)
  {
    var a := InstantHasStamp(y);
    var b := InstantHasStamp(x);
    OrderTimeAgrees(a, b);
  }

  lemma RankIsInstantOrder(y: Event, x: Event)
    requires (exists s :: IsTimeOf(s, y)) && exists s :: IsTimeOf(s, x)
    ensures Below(RankOf(y), RankOf(x)) <==> Before(y, x)
  {
    TimesAreInstants(y, x);
    RankByInstants(y, InstantOf(y), x, InstantOf(x));
  }

  /** The leader of a set of events is the greatest by instant. */
  lemma LeaderIsLatestInstant(s: set<Event>, x: Event)
    requires Timed(s)
    ensures IsLeader(x, s) <==> IsLatest(x, s)
  {
    if x in s {
      forall y | y in s ensures Below(RankOf(y), RankOf(x)) <==> Before(y, x) {
        RankIsInstantOrder(y, x);
      }
    }
  }

  ghost function EventsOf(u: set<Envelope>, ref: string): set<Event>
  {
    set env | env in u && env.Ref() == ref :: env.ToEvent()
  }

  lemma DeliveriesAreTimed(ds: set<Delivery>, hash: string -> string, body: Value -> string, ref: string)
    requires Processable(ds)
    ensures Timed(EventsOf(Envelopes(ds, hash, body), ref))
  {
    forall e | e in EventsOf(Envelopes(ds, hash, body), ref) ensures exists stamp :: IsTimeOf(stamp, e) {
      var env :| env in Envelopes(ds, hash, body) && env.ToEvent() == e;
      var d :| d in ds && env == EnvelopeOf(d, hash, body);
      InstantIsTheDeliverys(d, hash, body);
    }
  }

  /** The agreed document: the body and stamps of the event that is greatest by revision, then instant. */
  ghost predicate CarriesTheLatest(doc: Option<Source>, events: set<Event>)
  {
    if events == {} then doc.None? else doc.Some? && exists x :: IsLatest(x, events) && DocFor(doc.value, x, events)
  }

  ghost predicate IsLatest(x: Event, events: set<Event>)
  {
    x in events && forall y :: y in events ==> y == x || Before(y, x)
  }

  /** End to end: deployments that complete every delivery at least once, under any schedules, failures
      and redeliveries, agree on each resource, and on the event whose body it carries. */
  lemma DeploymentsAgreeByInstant(
    ds: set<Delivery>, hash: string -> string, body: Value -> string, acts1: seq<Act>, acts2: seq<Act>, ref: string)
    requires Processable(ds) && Injective(hash) && OneMutationPerResourceRevision(Envelopes(ds, hash, body))
    requires Draws(acts1, Envelopes(ds, hash, body)) && Draws(acts2, Envelopes(ds, hash, body))
    requires AllCompleted(Run(Start(map[]), acts1), Envelopes(ds, hash, body))
    requires AllCompleted(Run(Start(map[]), acts2), Envelopes(ds, hash, body))
    ensures var doc := Stored(Run(Start(map[]), acts1).store, ref);
            && doc == Stored(Run(Start(map[]), acts2).store, ref)
            && CarriesTheLatest(doc, EventsOf(Envelopes(ds, hash, body), ref))
  {
    var u := Envelopes(ds, hash, body);
    var events := EventsOf(u, ref);
    FingerprintsAreCollisionFree(ds, hash, body);
    RunsConverge(acts1, acts2, u, ref);
    var doc: Option<Source> := Stored(Run(Start(map[]), acts1).store, ref);
    if events != {} {
      var x :| IsLeader(x, events) && DocFor(doc.value, x, events);
      DeliveriesAreTimed(ds, hash, body, ref);
      LeaderIsLatestInstant(events, x);
    }
  }
}
