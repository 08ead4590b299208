/** What the current document is after any number of deliveries, in any order and with any
    duplication: a function of the set of events alone. */
module Convergence {
  import opened Text
  import opened Projection

  /** An identity fixes its content, and a revision has at most one mutation. */
  ghost predicate ConflictFree(s: set<Event>)
  {
    IdentityFixesContent(s) && OneMutationPerRevision(s)
  }

  ghost predicate IdentityFixesContent(s: set<Event>)
  {
    forall a, b :: a in s && b in s && a.identity == b.identity ==> a == b
  }

  ghost predicate OneMutationPerRevision(s: set<Event>)
  {
    forall a, b :: a in s && b in s && !a.ProjectionOnly() && !b.ProjectionOnly() && a.revision == b.revision ==> a == b
  }

  ghost function Delivered(es: seq<Event>): set<Event>
  {
    set e | e in es
  }

  /** The event of greatest rank: the last projection of the top revision, else its mutation. */
  ghost predicate IsLeader(x: Event, s: set<Event>)
  {
    x in s && forall y :: y in s ==> y == x || Below(RankOf(y), RankOf(x))
  }

  ghost predicate HasMutation(s: set<Event>, revision: int)
  {
    exists m :: m in s && !m.ProjectionOnly() && m.revision == revision
  }

  /** The document promised for `s`: the leader's body and stamps, plus the identity of the
      mutation of that revision whenever one was delivered. */
  ghost predicate DocFor(d: Source, x: Event, s: set<Event>)
  {
    && d.body == Some(x.document)
    && d.revision == Some(x.revision)
    && d.eventKey == Some(x.identity) && d.eventFingerprint == Some(x.fingerprint)
    && d.orderTime == (if x.ProjectionOnly() then Some(x.orderTime) else None)
    && d.orderKey == (if x.ProjectionOnly() then Some(x.identity) else None)
    && (forall m :: m in s && !m.ProjectionOnly() && m.revision == x.revision ==>
          d.mutationKey == Some(m.identity) && d.mutationFingerprint == Some(m.fingerprint))
    && (!HasMutation(s, x.revision) ==> d.mutationKey == None && d.mutationFingerprint == None)
  }

  ghost predicate Summarises(d: Option<Source>, s: set<Event>)
  {
    if s == {} then d == None
    else d.Some? && exists x :: IsLeader(x, s) && DocFor(d.value, x, s)
  }

  lemma SummaryIsUnique(d1: Option<Source>, d2: Option<Source>, s: set<Event>)
    requires Summarises(d1, s) && Summarises(d2, s)
    ensures d1 == d2
  {
    if s != {} {
      var x1 :| IsLeader(x1, s) && DocFor(d1.value, x1, s);
      var x2 :| IsLeader(x2, s) && DocFor(d2.value, x2, s);
      if x1 != x2 {
        BelowTransitive(RankOf(x1), RankOf(x2), RankOf(x1));
        BelowIrreflexive(RankOf(x1));
      }
      if HasMutation(s, x1.revision) {
        var m :| m in s && !m.ProjectionOnly() && m.revision == x1.revision;
      }
    }
  }

  /** In a conflict-free set, rank separates events. */
  lemma RankSeparates(a: Event, b: Event, s: set<Event>)
    requires ConflictFree(s) && a in s && b in s
    ensures a == b || Below(RankOf(a), RankOf(b)) || Below(RankOf(b), RankOf(a))
  {
    BelowTotal(RankOf(a), RankOf(b));
  }

  lemma DocIsGuarded(d: Source, x: Event, s: set<Event>)
    requires IsLeader(x, s) && DocFor(d, x, s)
    ensures Guarded(d) && RankOfDoc(d) == RankOf(x)
  {
    if !x.ProjectionOnly() {
      assert HasMutation(s, x.revision);
    }
  }

  /** The script accepts `e` and leaves the leader's document for the larger set. */
  lemma Absorb(d: Source, x: Event, s: set<Event>, e: Event)
    requires ConflictFree(s + {e}) && IsLeader(x, s) && DocFor(d, x, s)
    ensures Judge(Some(d), e) != Refuse
    ensures Summarises(After(Some(d), e), s + {e})
  {
    var s' := s + {e};
    var d' := After(Some(d), e);
    DocIsGuarded(d, x, s);
    RankSeparates(x, e, s');
    LessTotal(e.orderTime, x.orderTime);
    LessTotal(e.identity, x.identity);
    if Below(RankOf(x), RankOf(e)) {
      forall y | y in s' ensures y == e || Below(RankOf(y), RankOf(e)) {
        if y in s && y != x {
          BelowTransitive(RankOf(y), RankOf(x), RankOf(e));
        }
      }
      assert IsLeader(e, s');
      Overtake(d, x, s, e);
      assert DocFor(d'.value, e, s');
    } else {
      assert IsLeader(x, s');
      Trail(d, x, s, e);
      assert DocFor(d'.value, x, s');
    }
  }

  lemma Overtake(d: Source, x: Event, s: set<Event>, e: Event)
    requires ConflictFree(s + {e}) && IsLeader(x, s) && DocFor(d, x, s)
    requires Below(RankOf(x), RankOf(e))
    ensures Judge(Some(d), e) == Replace
    ensures DocFor(After(Some(d), e).value, e, s + {e})
  {
    DocIsGuarded(d, x, s);
    BelowIrreflexive(RankOf(x));
    if e.ProjectionOnly() && e.revision == x.revision && x.ProjectionOnly() {
      if Less(e.orderTime, x.orderTime) { LessAsymmetric(e.orderTime, x.orderTime); }
      if Less(e.identity, x.identity) { LessAsymmetric(e.identity, x.identity); }
    }
    assert Judge(Some(d), e) == Replace;
    if e.revision > x.revision {
      forall m | m in s ensures m.revision <= x.revision { }
    }
    if HasMutation(s, e.revision) {
      var m :| m in s && !m.ProjectionOnly() && m.revision == e.revision;
      assert m in s + {e};
      assert HasMutation(s + {e}, e.revision);
    }
    if !e.ProjectionOnly() {
      assert e in s + {e};
      assert HasMutation(s + {e}, e.revision);
    }
  }

  lemma Trail(d: Source, x: Event, s: set<Event>, e: Event)
    requires ConflictFree(s + {e}) && IsLeader(x, s) && DocFor(d, x, s)
    requires x == e || Below(RankOf(e), RankOf(x))
    ensures Judge(Some(d), e) != Refuse
    ensures After(Some(d), e).Some? && DocFor(After(Some(d), e).value, x, s + {e})
  {
    DocIsGuarded(d, x, s);
    if Less(x.orderTime, e.orderTime) { LessAsymmetric(x.orderTime, e.orderTime); }
    if Less(e.orderTime, x.orderTime) { LessAsymmetric(e.orderTime, x.orderTime); }
    if Less(x.identity, e.identity) { LessAsymmetric(x.identity, e.identity); }
    LessIrreflexive("");
    if !e.ProjectionOnly() && e.revision == x.revision {
      assert HasMutation(s + {e}, x.revision);
      if HasMutation(s, x.revision) {
        var m :| m in s && !m.ProjectionOnly() && m.revision == x.revision;
        assert m == e;
      }
    } else if HasMutation(s, x.revision) {
      var m :| m in s && !m.ProjectionOnly() && m.revision == x.revision;
      assert m in s + {e};
      assert HasMutation(s + {e}, x.revision);
    }
  }

  lemma SummaryAbsorbs(d: Option<Source>, seen: set<Event>, e: Event)
    requires Summarises(d, seen) && ConflictFree(seen + {e})
    ensures Summarises(After(d, e), seen + {e}) && Judge(d, e) != Refuse
  {
    if seen == {} {
      assert seen + {e} == {e};
      assert IsLeader(e, {e});
      assert DocFor(After(d, e).value, e, {e});
    } else {
      var x :| IsLeader(x, seen) && DocFor(d.value, x, seen);
      Absorb(d.value, x, seen, e);
    }
  }

  /** Every prefix of every delivery order is accepted, and the document is the summary of
      what was delivered so far. */
  lemma {:induction false} EveryOrderIsAccepted(es: seq<Event>)
    requires ConflictFree(Delivered(es))
    ensures Summarises(Deliver(None, es), Delivered(es))
    ensures forall i :: 0 <= i < |es| ==> Judge(Deliver(None, es[..i]), es[i]) != Refuse
  {
    if es != [] {
      var n := |es| - 1;
      var init, e := es[..n], es[n];
      assert es == init + [e];
      assert Delivered(es) == Delivered(init) + {e};
      EveryOrderIsAccepted(init);
      SummaryAbsorbs(Deliver(None, init), Delivered(init), e);
      forall i | 0 <= i < |es| ensures Judge(Deliver(None, es[..i]), es[i]) != Refuse {
        if i < n {
          assert es[..i] == init[..i] && es[i] == init[i];
        }
      }
    }
  }

  /** Convergence: two delivery sequences over the same events end in the same document. */
  lemma DeliveriesConverge(es1: seq<Event>, es2: seq<Event>)
    requires ConflictFree(Delivered(es1))
    requires Delivered(es1) == Delivered(es2)
    ensures Deliver(None, es1) == Deliver(None, es2)
    ensures Summarises(Deliver(None, es1), Delivered(es1))
  {
    EveryOrderIsAccepted(es1);
    EveryOrderIsAccepted(es2);
    SummaryIsUnique(Deliver(None, es1), Deliver(None, es2), Delivered(es1));
  }

  ghost predicate Accepted(before: Option<Source>, es: seq<Event>)
  {
    forall i :: 0 <= i < |es| ==> Judge(Deliver(before, es[..i]), es[i]) != Refuse
  }

  /** Once identities are fixed, one mutation per revision is exactly what makes every delivery
      order free of refusals. */
  lemma AcceptedExactlyWhenOneMutationPerRevision(s: set<Event>)
    requires IdentityFixesContent(s)
    ensures (forall es: seq<Event> :: Delivered(es) <= s ==> Accepted(None, es)) <==> OneMutationPerRevision(s)
  {
    if OneMutationPerRevision(s) {
      forall es: seq<Event> | Delivered(es) <= s ensures Accepted(None, es) {
        EveryOrderIsAccepted(es);
      }
    } else {
      var a, b :| a in s && b in s && !a.ProjectionOnly() && !b.ProjectionOnly() && a.revision == b.revision && a != b;
      var es := [a, b];
      assert es[..1] == [a] && [a][..0] == [];
      assert Deliver(None, [a]) == After(Deliver(None, []), a);
      assert Judge(Deliver(None, es[..1]), es[1]) == Refuse;
      assert Delivered(es) <= s && !Accepted(None, es);
    }
  }

  lemma {:induction false} DeliverAppend(before: Option<Source>, a: seq<Event>, b: seq<Event>)
    ensures Deliver(before, a + b) == Deliver(Deliver(before, a), b)
  {
    if b == [] {
      assert a + b == a;
    } else {
      var n := |b| - 1;
      DeliverAppend(before, a, b[..n]);
      assert (a + b)[..|a + b| - 1] == a + b[..n];
    }
  }

  lemma {:induction false} LegacyDocumentIsNotOverwritten(legacy: Source, es: seq<Event>)
    requires legacy.revision.None?
    requires forall i :: 0 <= i < |es| ==> es[i].origin != Backfill
    ensures Deliver(Some(legacy), es) == Some(legacy)
  {
    if es != [] {
      LegacyDocumentIsNotOverwritten(legacy, es[..|es| - 1]);
    }
  }

  /** A legacy document shuts out every event until the first backfill, and from there on the
      resource behaves as if the legacy document had never existed. */
  lemma LegacyDocumentWaitsForBackfill(legacy: Source, es: seq<Event>, k: nat)
    requires legacy.revision.None?
    requires k < |es| && es[k].origin == Backfill && (forall i :: 0 <= i < k ==> es[i].origin != Backfill)
    ensures forall i :: 0 <= i < k ==> Judge(Deliver(Some(legacy), es[..i]), es[i]) == Refuse
    ensures Deliver(Some(legacy), es) == Deliver(None, es[k..])
  {
    forall i | 0 <= i < k ensures Judge(Deliver(Some(legacy), es[..i]), es[i]) == Refuse {
      LegacyDocumentIsNotOverwritten(legacy, es[..i]);
    }
    var first, rest := [es[k]], es[k + 1..];
    assert es == es[..k] + es[k..] && es[k..] == first + rest;
    LegacyDocumentIsNotOverwritten(legacy, es[..k]);
    DeliverAppend(Some(legacy), es[..k], es[k..]);
    DeliverAppend(Some(legacy), first, rest);
    DeliverAppend(None, first, rest);
    assert first[..0] == [];
    assert After(Some(legacy), es[k]) == After(None, es[k]);
  }

  /** Along any run, the rank of the stored document never falls. */
  lemma {:induction false} RankNeverFalls(d: Source, es: seq<Event>)
    requires Guarded(d)
    ensures Deliver(Some(d), es).Some? && Guarded(Deliver(Some(d), es).value)
    ensures RankOfDoc(Deliver(Some(d), es).value) == RankOfDoc(d) ||
        Below(RankOfDoc(d), RankOfDoc(Deliver(Some(d), es).value))
  {
    if es != [] {
      var n := |es| - 1;
      RankNeverFalls(d, es[..n]);
      var mid := Deliver(Some(d), es[..n]).value;
      BodyReplacementRaisesRank(mid, es[n]);
      var last := After(Some(mid), es[n]).value;
      if Below(RankOfDoc(d), RankOfDoc(mid)) && Below(RankOfDoc(mid), RankOfDoc(last)) {
        BelowTransitive(RankOfDoc(d), RankOfDoc(mid), RankOfDoc(last));
      }
    }
  }

  /** An event that replaced a body never replaces one again, whatever is delivered between,
      conflicting identities and revisions included. */
  lemma NeverReplacesTwice(before: Option<Source>, e: Event, between: seq<Event>)
    requires GuardedOrAbsent(before)
    requires Judge(before, e) == Replace
    ensures Judge(Deliver(After(before, e), between), e) != Replace
  {
    AfterIsGuarded(before, e);
    var d := After(before, e).value;
    RankNeverFalls(d, between);
    var last := Deliver(Some(d), between).value;
    BodyReplacementRaisesRank(last, e);
    BelowIrreflexive(RankOf(e));
    if Judge(Some(last), e) == Replace {
      assert RankOfDoc(d) == RankOf(e);
      if RankOfDoc(d) != RankOfDoc(last) {
        BelowTransitive(RankOf(e), RankOfDoc(last), RankOf(e));
      }
    }
  }

  /** Repeating a delivery changes nothing more, on any stored document whatsoever. */
  lemma RedeliveryIsIdempotent(before: Option<Source>, e: Event)
    ensures After(After(before, e), e) == After(before, e)
    ensures Judge(before, e) != Refuse ==> Judge(After(before, e), e) == Ignore
  {
    LessIrreflexive(e.identity);
  }
}
