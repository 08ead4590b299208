/** Which deliveries the guarded write refuses, told from the deliveries alone: conflicting mutations
    included, and whatever projections were delivered in between. */
module Refusals {
  import opened Text
  import opened Projection
  import opened Convergence

  function Highest(es: seq<Event>): int
    requires es != []
  {
    var n := |es| - 1;
    if n == 0 then es[0].revision
    else if es[n].revision > Highest(es[..n]) then es[n].revision else Highest(es[..n])
  }

  /** The first mutation of a revision to be delivered. */
  function FirstMutation(es: seq<Event>, revision: int): Option<Event>
  {
    if es == [] then None
    else
      var n := |es| - 1;
      var earlier := FirstMutation(es[..n], revision);
      if earlier.Some? then earlier
      else if es[n].origin == Mutation && es[n].revision == revision then Some(es[n]) else None
  }

  lemma {:induction false} HighestIsHighest(es: seq<Event>)
    requires es != []
    ensures forall e :: e in es ==> e.revision <= Highest(es)
  {
    var n := |es| - 1;
    if n > 0 {
      HighestIsHighest(es[..n]);
      assert es == es[..n] + [es[n]];
    }
  }

  lemma {:induction false} FirstMutationIs(es: seq<Event>, revision: int)
    ensures var m := FirstMutation(es, revision);
            && (m.Some? ==> m.value in es && m.value.origin == Mutation && m.value.revision == revision)
            && (m.None? ==> forall e :: e in es && e.revision == revision ==> e.origin != Mutation)
  {
    if es != [] {
      var n := |es| - 1;
      FirstMutationIs(es[..n], revision);
      assert es == es[..n] + [es[n]];
    }
  }

  /** The stored document as the deliveries explain it: revision the highest, body and stamps from some
      delivery of that revision, mutation identity from the first mutation of that revision. */
  ghost predicate Explained(d: Source, es: seq<Event>)
    requires es != []
  {
    var m := FirstMutation(es, Highest(es));
    && Guarded(d)
    && d.revision == Some(Highest(es))
    && d.mutationKey == (if m.Some? then Some(m.value.identity) else None)
    && d.mutationFingerprint == (if m.Some? then Some(m.value.fingerprint) else None)
    && exists x :: x in es && Stamped(d, x)
  }

  predicate Stamped(d: Source, x: Event)
  {
    && d.eventKey == Some(x.identity) && d.eventFingerprint == Some(x.fingerprint) && d.revision == Some(x.revision)
    && (x.origin == Mutation <==> d.orderTime.None?)
  }

  /** An event of the stored revision is refused exactly if it is a mutation and another one came first. */
  lemma SameRevision(d: Source, es: seq<Event>, e: Event)
    requires es != [] && Explained(d, es) && e.revision == Highest(es)
    requires IdentityFixesContent(Delivered(es) + {e})
    ensures var m := FirstMutation(es, e.revision);
            Judge(Some(d), e) == Refuse <==> e.origin == Mutation && m.Some? && m.value != e
    ensures var m := FirstMutation(es, e.revision);
            e.origin == Mutation && m.None? ==> d.orderTime.Some? && Judge(Some(d), e) == RecordMutation
  {
    FirstMutationIs(es, e.revision);
    var x :| x in es && Stamped(d, x);
    assert x in Delivered(es) + {e} && e in Delivered(es) + {e};
    var m := FirstMutation(es, e.revision);
    if m.Some? {
      assert m.value in Delivered(es) + {e};
    }
  }

  lemma OneMore(d: Source, es: seq<Event>, e: Event)
    requires es != [] && Explained(d, es) && IdentityFixesContent(Delivered(es) + {e})
    ensures After(Some(d), e).Some? && Explained(After(Some(d), e).value, es + [e])
  {
    var all := es + [e];
    assert all[..|es|] == es;
    HighestIsHighest(es);
    FirstMutationIs(es, e.revision);
    BodyReplacementRaisesRank(d, e);
    if e.revision == Highest(es) {
      SameRevision(d, es, e);
    }
    var after := After(Some(d), e).value;
    if Judge(Some(d), e) == Replace {
      assert e in all && Stamped(after, e);
    } else {
      var x :| x in es && Stamped(d, x);
      assert x in all && Stamped(after, x);
    }
  }

  lemma {:induction false} DocumentIsExplained(es: seq<Event>)
    requires es != [] && IdentityFixesContent(Delivered(es))
    ensures Deliver(None, es).Some? && Explained(Deliver(None, es).value, es)
  {
    var n := |es| - 1;
    var init, e := es[..n], es[n];
    assert es == init + [e] && Delivered(es) == Delivered(init) + {e};
    if n == 0 {
      assert init == [] && FirstMutation(init, e.revision) == None && Deliver(None, init) == None;
      assert e in es && Stamped(Deliver(None, es).value, e);
    } else {
      DocumentIsExplained(init);
      OneMore(Deliver(None, init).value, init, e);
    }
  }

  /** Refusals, exactly. From an absent document, after any deliveries whose identities fix their content,
      the next one is refused if and only if it is a mutation of the highest revision so far, and the
      first mutation of that revision to be delivered was another one, refreshed since or not. */
  lemma RefusedExactly(es: seq<Event>, e: Event)
    requires IdentityFixesContent(Delivered(es) + {e})
    ensures Judge(Deliver(None, es), e) == Refuse <==>
              && es != [] && e.origin == Mutation && e.revision == Highest(es)
              && FirstMutation(es, e.revision).Some? && FirstMutation(es, e.revision).value != e
  {
    if es != [] {
      assert IdentityFixesContent(Delivered(es));
      DocumentIsExplained(es);
      var d := Deliver(None, es).value;
      if e.revision == Highest(es) {
        SameRevision(d, es, e);
      }
    }
  }

  /** And what is stored always names that first mutation. */
  lemma FirstMutationIsStored(es: seq<Event>)
    requires es != [] && IdentityFixesContent(Delivered(es))
    ensures var d, m := Deliver(None, es), FirstMutation(es, Highest(es));
            && d.Some? && d.value.revision == Some(Highest(es))
            && d.value.mutationKey == (if m.Some? then Some(m.value.identity) else None)
  {
    DocumentIsExplained(es);
  }

  lemma StepKeepsMutation(d: Source, e: Event)
    requires Guarded(d) && d.mutationKey.Some?
    ensures After(Some(d), e).Some? && Guarded(After(Some(d), e).value)
    ensures var after := After(Some(d), e).value;
            && after.revision.value >= d.revision.value
            && (after.revision == d.revision ==>
                  after.mutationKey == d.mutationKey && after.mutationFingerprint == d.mutationFingerprint)
            && (after.revision != d.revision ==> after.revision == Some(e.revision))
  {
    BodyReplacementRaisesRank(d, e);
  }

  /** A mutation identity, once on a document, stays until the revision rises, whatever is delivered,
      conflicting identities included. */
  lemma {:induction false} MutationStaysWithItsRevision(d: Source, es: seq<Event>)
    requires Guarded(d) && d.mutationKey.Some?
    ensures var last := Deliver(Some(d), es);
            && last.Some? && Guarded(last.value) && last.value.revision.value >= d.revision.value
            && (last.value.revision == d.revision ==>
                  last.value.mutationKey == d.mutationKey && last.value.mutationFingerprint == d.mutationFingerprint)
  {
    if es != [] {
      var n := |es| - 1;
      MutationStaysWithItsRevision(d, es[..n]);
      var mid := Deliver(Some(d), es[..n]).value;
      BodyReplacementRaisesRank(mid, es[n]);
      if mid.mutationKey.Some? {
        StepKeepsMutation(mid, es[n]);
      }
    }
  }

  /** Reusing the identity of the stored event with other content at its revision is refused, and so is
      any mutation that differs from the one recorded there; neither changes anything. */
  lemma ReuseIsRefused(d: Source, e: Event)
    requires Guarded(d) && d.revision == Some(e.revision)
    requires || (e.origin != Mutation && d.eventKey == Some(e.identity) && d.eventFingerprint != Some(e.fingerprint))
             || (&& e.origin == Mutation && d.mutationKey.Some?
                 && (d.mutationKey != Some(e.identity) || d.mutationFingerprint != Some(e.fingerprint))
                 && (d.eventKey != Some(e.identity) || d.eventFingerprint != Some(e.fingerprint)))
    ensures Judge(Some(d), e) == Refuse && After(Some(d), e) == Some(d)
  {
  }
}
