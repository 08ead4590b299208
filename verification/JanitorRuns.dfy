/** Several janitors and any number of writers at work on one resource, on searches as stale as they
    come: exactly when a document keeps its flag, whatever the interleaving. */
module JanitorRuns {
  import opened CurrentIndex
  import opened Janitor

  /** A pass in progress: what its searches returned, whom it keeps, and its position. */
  datatype Pass = Pass(hits: seq<Hit>, winner: nat, next: nat)

  /** `past` holds every version that was ever searchable with its flag set. */
  datatype System = System(docs: map<string, Doc>, nextSeqNo: nat, past: set<Hit>, passes: map<nat, Pass>)

  datatype Act =
    | Write(id: string, face: Face)
    | Begin(pass: nat, hits: seq<Hit>, winner: nat)
    | Demote(pass: nat, reply: Reply)

  function Step(ref: string, s: System, a: Act): System
  {
    match a
    case Write(id, face) =>
      s.(docs := s.docs[id := Doc(face, true, s.nextSeqNo)], nextSeqNo := s.nextSeqNo + 1,
         past := s.past + {Hit(id, face, s.nextSeqNo)})
    case Begin(p, hits, w) =>
      if p !in s.passes && CanFind(ref, s, hits, w) then s.(passes := s.passes[p := Pass(hits, w, 0)]) else s
    case Demote(p, reply) =>
      if p !in s.passes || s.passes[p].next >= |s.passes[p].hits| then s
      else
        var x := s.passes[p];
        var h := x.hits[x.next];
        if x.next == x.winner then s.(passes := s.passes[p := x.(next := x.next + 1)])
        else
          var next := if DemoteOutcome(s.docs, h, reply) == Conflict then |x.hits| else x.next + 1;
          s.(docs := Demoted(s.docs, h, s.nextSeqNo, reply), nextSeqNo := s.nextSeqNo + 1,
             passes := s.passes[p := x.(next := next)])
  }

  /** Sorted versions, each searchable at some time so far, and the hit the code keeps of them. */
  predicate CanFind(ref: string, s: System, hits: seq<Hit>, winner: nat)
  {
    (forall i :: 0 <= i < |hits| ==> hits[i] in s.past) && Sorted(hits) && DistinctIds(hits) &&
      Chosen(ref, hits, winner)
  }

  function Run(ref: string, s: System, acts: seq<Act>): System
  {
    if acts == [] then s else Step(ref, Run(ref, s, acts[..|acts| - 1]), acts[|acts| - 1])
  }

  function Start(docs: map<string, Doc>, nextSeqNo: nat): System
  {
    System(docs, nextSeqNo, set id | id in docs && docs[id].latest :: Hit(id, docs[id].face, docs[id].seqNo), map[])
  }

  /** A write that does not push its document down: any write to an audited canonical document,
      a deletion, or a newer update. */
  predicate Rising(ref: string, s: System, a: Act)
  {
    a.Write? && a.id in s.docs ==> !PrioLess(PrioOf(ref, a.id, a.face), PrioOf(ref, a.id, s.docs[a.id].face))
  }

  ghost predicate AllRising(ref: string, s: System, acts: seq<Act>)
  {
    forall i :: 0 <= i < |acts| ==> Rising(ref, Run(ref, s, acts[..i]), acts[i])
  }

  function Rank(ref: string, s: System, id: string): Prio
    requires id in s.docs
  {
    PrioOf(ref, id, s.docs[id].face)
  }

  /** `t` strictly outranks every other document. */
  ghost predicate IsTop(ref: string, s: System, t: string)
  {
    t in s.docs && forall id :: id in s.docs && id != t ==> PrioLess(Rank(ref, s, id), Rank(ref, s, t))
  }

  ghost predicate TopIsLatest(ref: string, s: System)
  {
    forall t :: IsTop(ref, s, t) ==> s.docs[t].latest
  }

  /** A version number names one version. */
  predicate VersionOk(s: System, h: Hit)
  {
    && h.id in s.docs
    && h.seqNo <= s.docs[h.id].seqNo
    && (h.seqNo == s.docs[h.id].seqNo ==> h.face == s.docs[h.id].face)
  }

  ghost predicate NumbersInv(s: System)
  {
    && (forall id :: id in s.docs ==> s.docs[id].seqNo < s.nextSeqNo)
    && (forall h :: h in s.past ==> VersionOk(s, h))
  }

  /** And no document has fallen below a version seen. */
  predicate SeenOk(ref: string, s: System, h: Hit)
  {
    VersionOk(s, h) && !PrioLess(Rank(ref, s, h.id), P(ref, h))
  }

  ghost predicate VersionsInv(ref: string, s: System)
  {
    NumbersInv(s) && forall h :: h in s.past ==> SeenOk(ref, s, h)
  }

  ghost predicate PassesInv(ref: string, s: System)
  {
    forall p :: p in s.passes ==> CanFind(ref, s, s.passes[p].hits, s.passes[p].winner)
  }

  lemma StepKeepsVersions(ref: string, s: System, a: Act)
    requires VersionsInv(ref, s) && Rising(ref, s, a)
    ensures VersionsInv(ref, Step(ref, s, a))
  {
    var t := Step(ref, s, a);
    forall h | h in t.past ensures SeenOk(ref, t, h) {
      if h in s.past {
        assert SeenOk(ref, s, h);
        if a.Write? && a.id == h.id {
          NotBelowTransitive(PrioOf(ref, h.id, a.face), Rank(ref, s, h.id), P(ref, h));
        }
      } else {
        PrioLessIrreflexive(P(ref, h));
      }
    }
  }

  lemma NotBelowTransitive(a: Prio, b: Prio, c: Prio)
    requires !PrioLess(a, b) && !PrioLess(b, c)
    ensures !PrioLess(a, c)
  {
    PrioLessTotal(a, b);
    PrioLessTotal(b, c);
    if PrioLess(a, c) {
      if PrioLess(c, b) {
        PrioLessTransitive(a, c, b);
      }
    }
  }

  /** A document that loses its flag is outranked, at that moment, by its pass's winner. */
  lemma LoserIsNotTop(ref: string, s: System, x: Pass)
    requires VersionsInv(ref, s) && CanFind(ref, s, x.hits, x.winner) && x.next < |x.hits| && x.next != x.winner
    requires s.docs[x.hits[x.next].id].seqNo == x.hits[x.next].seqNo
    ensures !IsTop(ref, s, x.hits[x.next].id)
  {
    var h, w := x.hits[x.next], x.hits[x.winner];
    assert SeenOk(ref, s, h) && SeenOk(ref, s, w);
    assert w.id != h.id;
    NotBelowTransitive(Rank(ref, s, w.id), P(ref, w), P(ref, h));
  }

  lemma TopWasTop(ref: string, s: System, a: Act, t: string)
    requires Rising(ref, s, a) && IsTop(ref, Step(ref, s, a), t) && !(a.Write? && a.id == t)
    ensures IsTop(ref, s, t)
  {
    var s' := Step(ref, s, a);
    forall id | id in s.docs && id != t ensures PrioLess(Rank(ref, s, id), Rank(ref, s, t)) {
      assert PrioLess(Rank(ref, s', id), Rank(ref, s', t));
      if a.Write? && a.id == id {
        PrioLessTotal(Rank(ref, s, id), Rank(ref, s', id));
        if PrioLess(Rank(ref, s, id), Rank(ref, s', id)) {
          PrioLessTransitive(Rank(ref, s, id), Rank(ref, s', id), Rank(ref, s, t));
        }
      }
    }
  }

  lemma StepKeepsTop(ref: string, s: System, a: Act)
    requires VersionsInv(ref, s) && PassesInv(ref, s) && TopIsLatest(ref, s) && Rising(ref, s, a)
    ensures TopIsLatest(ref, Step(ref, s, a))
  {
    var s' := Step(ref, s, a);
    forall t | IsTop(ref, s', t) ensures s'.docs[t].latest {
      if !(a.Write? && a.id == t) {
        TopWasTop(ref, s, a, t);
        if a.Demote? && s'.docs[t] != s.docs[t] {
          LoserIsNotTop(ref, s, s.passes[a.pass]);
        }
      }
    }
  }

  lemma StepKeepsPasses(ref: string, s: System, a: Act)
    requires PassesInv(ref, s)
    ensures PassesInv(ref, Step(ref, s, a))
  {
    var t := Step(ref, s, a);
    forall p | p in t.passes ensures CanFind(ref, t, t.passes[p].hits, t.passes[p].winner) {
      if p in s.passes {
        assert CanFind(ref, s, s.passes[p].hits, s.passes[p].winner);
      }
    }
  }

  ghost predicate Inv(ref: string, s: System)
  {
    VersionsInv(ref, s) && PassesInv(ref, s) && TopIsLatest(ref, s)
  }

  /** Concurrent janitors are safe: over every interleaving of passes on arbitrarily stale searches
      with writes that only raise priorities, the top document keeps its flag. */
  lemma {:induction false} TopNeverLosesItsFlag(ref: string, s: System, acts: seq<Act>)
    requires Inv(ref, s) && AllRising(ref, s, acts)
    ensures Inv(ref, Run(ref, s, acts))
  {
    if acts != [] {
      var n := |acts| - 1;
      forall i | 0 <= i < n ensures Rising(ref, Run(ref, s, acts[..n][..i]), acts[..n][i]) {
        assert acts[..n][..i] == acts[..i];
      }
      TopNeverLosesItsFlag(ref, s, acts[..n]);
      var mid := Run(ref, s, acts[..n]);
      assert Rising(ref, mid, acts[n]);
      StepKeepsVersions(ref, mid, acts[n]);
      StepKeepsPasses(ref, mid, acts[n]);
      StepKeepsTop(ref, mid, acts[n]);
    }
  }

  /** With unchanging duplicates the guarantee is about one fixed document. */
  lemma {:induction false} FixedDuplicatesKeepTheirTop(
    ref: string, docs: map<string, Doc>, nextSeqNo: nat, acts: seq<Act>, t: string)
    requires forall id :: id in docs ==> docs[id].seqNo < nextSeqNo
    requires forall i :: 0 <= i < |acts| ==> !acts[i].Write?
    requires IsTop(ref, Start(docs, nextSeqNo), t) && docs[t].latest
    ensures var s := Run(ref, Start(docs, nextSeqNo), acts);
            IsTop(ref, s, t) && s.docs[t].latest
  {
    var s0 := Start(docs, nextSeqNo);
    StartIsOk(ref, docs, nextSeqNo, t);
    FacesStay(ref, s0, acts);
    TopNeverLosesItsFlag(ref, s0, acts);
    var s := Run(ref, s0, acts);
    forall id | id in s.docs && id != t ensures PrioLess(Rank(ref, s, id), Rank(ref, s, t)) {
      assert PrioLess(Rank(ref, s0, id), Rank(ref, s0, t));
    }
    assert IsTop(ref, s, t);
  }

  lemma StartIsOk(ref: string, docs: map<string, Doc>, nextSeqNo: nat, t: string)
    requires forall id :: id in docs ==> docs[id].seqNo < nextSeqNo
    requires IsTop(ref, Start(docs, nextSeqNo), t) && docs[t].latest
    ensures Inv(ref, Start(docs, nextSeqNo))
  {
    var s := Start(docs, nextSeqNo);
    forall h | h in s.past ensures SeenOk(ref, s, h) {
      PrioLessIrreflexive(P(ref, h));
    }
    forall t' | IsTop(ref, s, t') ensures t' == t {
      if t' != t {
        PrioLessTransitive(Rank(ref, s, t), Rank(ref, s, t'), Rank(ref, s, t));
        PrioLessIrreflexive(Rank(ref, s, t));
      }
    }
  }

  lemma {:induction false} FacesStay(ref: string, s: System, acts: seq<Act>)
    requires forall i :: 0 <= i < |acts| ==> !acts[i].Write?
    ensures Run(ref, s, acts).docs.Keys == s.docs.Keys
    ensures forall id :: id in s.docs ==> Run(ref, s, acts).docs[id].face == s.docs[id].face
  {
    if acts != [] {
      FacesStay(ref, s, acts[..|acts| - 1]);
    }
  }

  // ---------------------------------------------------------------------------
  // Exactly when a flag is safe
  // ---------------------------------------------------------------------------

  /** A version of another document that a pass may keep while it demotes `t`: it has a priority, and
      either outranks `t` or ties with it and need not be sorted after it. */
  predicate Beats(ref: string, id: string, face: Face, t: string, tFace: Face)
  {
    var p, q := PrioOf(ref, id, face), PrioOf(ref, t, tFace);
    id != t && p.tier > 0 && (PrioLess(q, p) || (p == q && !SortsBefore(tFace, face)))
  }

  ghost predicate Beaten(ref: string, s: System, t: string)
    requires t in s.docs
  {
    exists h :: h in s.past && Beats(ref, h.id, h.face, t, s.docs[t].face)
  }

  /** The writes of a run, in order: what the same history would be without janitors. */
  function Writes(acts: seq<Act>): (ws: seq<Act>)
    ensures forall i :: 0 <= i < |ws| ==> ws[i].Write?
  {
    if acts == [] then []
    else
      var n := |acts| - 1;
      Writes(acts[..n]) + if acts[n].Write? then [acts[n]] else []
  }

  predicate Numbered(docs: map<string, Doc>, nextSeqNo: nat)
  {
    forall id :: id in docs ==> docs[id].seqNo < nextSeqNo
  }

  lemma RunOneMore(ref: string, s: System, acts: seq<Act>, a: Act)
    ensures Run(ref, s, acts + [a]) == Step(ref, Run(ref, s, acts), a)
  {
    assert (acts + [a])[..|acts|] == acts;
  }

  lemma StepKeepsNumbers(ref: string, s: System, a: Act)
    requires NumbersInv(s)
    ensures NumbersInv(Step(ref, s, a))
  {
    var t := Step(ref, s, a);
    forall h | h in t.past ensures VersionOk(t, h) {
      if h in s.past {
        assert VersionOk(s, h);
      }
    }
  }

  /** Compared with the same writes alone: janitors change no face and add no version, and a flag that
      only they can have taken belongs to a document that some version beats. */
  ghost predicate Shadows(ref: string, s: System, alone: System)
  {
    && s.docs.Keys == alone.docs.Keys
    && (forall id :: id in s.docs ==> s.docs[id].face == alone.docs[id].face)
    && (forall h :: h in s.past ==> exists g :: g in alone.past && g.id == h.id && g.face == h.face)
    && (forall t :: t in s.docs && alone.docs[t].latest && !s.docs[t].latest ==> Beaten(ref, alone, t))
  }

  /** Whoever is demoted was beaten by the hit its pass keeps. */
  lemma LoserIsBeaten(ref: string, s: System, x: Pass)
    requires CanFind(ref, s, x.hits, x.winner) && x.next < |x.hits| && x.next != x.winner
    ensures var h, w := x.hits[x.next], x.hits[x.winner];
            w in s.past && Beats(ref, w.id, w.face, h.id, h.face)
  {
    var h, w := x.hits[x.next], x.hits[x.winner];
    assert w.id != h.id;
    PrioLessTotal(P(ref, h), P(ref, w));
    if x.winner < x.next {
      assert !SortsBefore(h.face, w.face);
    }
  }

  lemma DemoteKeepsShadow(ref: string, s: System, alone: System, a: Act)
    requires Shadows(ref, s, alone) && NumbersInv(s) && PassesInv(ref, s) && a.Demote?
    ensures Shadows(ref, Step(ref, s, a), alone)
  {
    var n := Step(ref, s, a);
    forall t | t in n.docs && alone.docs[t].latest && !n.docs[t].latest ensures Beaten(ref, alone, t) {
      if s.docs[t].latest {
        DemotedIsBeaten(ref, s, alone, s.passes[a.pass], t);
      }
    }
  }

  lemma DemotedIsBeaten(ref: string, s: System, alone: System, x: Pass, t: string)
    requires Shadows(ref, s, alone) && NumbersInv(s) && CanFind(ref, s, x.hits, x.winner)
    requires x.next < |x.hits| && x.next != x.winner && x.hits[x.next].id == t
    requires t in s.docs && s.docs[t].seqNo == x.hits[x.next].seqNo
    ensures Beaten(ref, alone, t)
  {
    LoserIsBeaten(ref, s, x);
    var w := x.hits[x.winner];
    assert x.hits[x.next] in s.past && VersionOk(s, x.hits[x.next]);
    var g :| g in alone.past && g.id == w.id && g.face == w.face;
  }

  lemma WriteKeepsShadow(ref: string, s: System, alone: System, a: Act)
    requires Shadows(ref, s, alone) && a.Write?
    ensures Shadows(ref, Step(ref, s, a), Step(ref, alone, a))
  {
    var n, m := Step(ref, s, a), Step(ref, alone, a);
    forall h | h in n.past ensures exists g :: g in m.past && g.id == h.id && g.face == h.face {
      if h in s.past {
        var g :| g in alone.past && g.id == h.id && g.face == h.face;
        assert g in m.past;
      } else {
        assert Hit(a.id, a.face, alone.nextSeqNo) in m.past;
      }
    }
    forall t | t in n.docs && m.docs[t].latest && !n.docs[t].latest ensures Beaten(ref, m, t) {
      assert t != a.id && Beaten(ref, alone, t);
      var h :| h in alone.past && Beats(ref, h.id, h.face, t, alone.docs[t].face);
      assert h in m.past;
    }
  }

  lemma {:induction false} JanitorsShadowWrites(ref: string, s: System, acts: seq<Act>)
    requires NumbersInv(s) && s.passes == map[]
    ensures NumbersInv(Run(ref, s, acts)) && PassesInv(ref, Run(ref, s, acts))
    ensures Shadows(ref, Run(ref, s, acts), Run(ref, s, Writes(acts)))
  {
    if acts != [] {
      var n := |acts| - 1;
      JanitorsShadowWrites(ref, s, acts[..n]);
      var mid, alone := Run(ref, s, acts[..n]), Run(ref, s, Writes(acts[..n]));
      StepKeepsNumbers(ref, mid, acts[n]);
      StepKeepsPasses(ref, mid, acts[n]);
      assert !acts[n].Write? ==> Writes(acts) == Writes(acts[..n]);
      match acts[n]
      case Write(_, _) =>
        RunOneMore(ref, s, Writes(acts[..n]), acts[n]);
        WriteKeepsShadow(ref, mid, alone, acts[n]);
      case Begin(_, _, _) =>
      case Demote(_, _) =>
        DemoteKeepsShadow(ref, mid, alone, acts[n]);
    }
  }

  /** Writers alone start no pass and leave every latest document searchable. */
  lemma {:induction false} WritersAlone(ref: string, s: System, ws: seq<Act>)
    requires s.passes == map[] && forall i :: 0 <= i < |ws| ==> ws[i].Write?
    requires forall id :: id in s.docs && s.docs[id].latest ==> Hit(id, s.docs[id].face, s.docs[id].seqNo) in s.past
    ensures var r := Run(ref, s, ws);
            && r.passes == map[]
            && forall id :: id in r.docs && r.docs[id].latest ==> Hit(id, r.docs[id].face, r.docs[id].seqNo) in r.past
  {
    if ws != [] {
      WritersAlone(ref, s, ws[..|ws| - 1]);
    }
  }

  lemma {:induction false} WritesOfWrites(ws: seq<Act>, more: seq<Act>)
    requires forall i :: 0 <= i < |ws| ==> ws[i].Write?
    requires forall i :: 0 <= i < |more| ==> !more[i].Write?
    ensures Writes(ws + more) == ws
    decreases |ws| + |more|
  {
    if more != [] {
      WritesOfWrites(ws, more[..|more| - 1]);
      assert (ws + more)[..|ws + more| - 1] == ws + more[..|more| - 1];
    } else if ws != [] {
      WritesOfWrites(ws[..|ws| - 1], []);
      assert ws + more == ws && ws[..|ws| - 1] + [] == ws[..|ws| - 1];
    }
  }

  /** A pass over a document and a version that beats it, in the order the search sorts them. */
  function Duel(p: nat, h: Hit, t: Hit): seq<Act>
  {
    if SortsBefore(t.face, h.face) then [Begin(p, [t, h], 1), Demote(p, Answered)]
    else [Begin(p, [h, t], 0), Demote(p, Answered), Demote(p, Answered)]
  }

  predicate OnlyTheseDemoted(before: map<string, Doc>, after: map<string, Doc>, targets: set<string>)
  {
    && after.Keys == before.Keys
    && (forall t :: t in targets ==> t in after && !after[t].latest)
    && forall id :: id in before && id !in targets ==> after[id] == before[id]
  }

  lemma DuelDemotes(ref: string, s: System, p: nat, h: Hit, t: Hit)
    requires p !in s.passes && h in s.past && t in s.past && Beats(ref, h.id, h.face, t.id, t.face)
    requires t.id in s.docs && s.docs[t.id].seqNo == t.seqNo
    ensures var r := Run(ref, s, Duel(p, h, t));
            && r.past == s.past && r.passes.Keys == s.passes.Keys + {p} && OnlyTheseDemoted(s.docs, r.docs, {t.id})
  {
    DuelIsFound(ref, s, h, t);
    if SortsBefore(t.face, h.face) {
      LoserSortedFirst(ref, s, p, h, t);
    } else {
      WinnerSortedFirst(ref, s, p, h, t);
    }
  }

  lemma RunTwo(ref: string, s: System, a: Act, b: Act)
    ensures Run(ref, s, [a, b]) == Step(ref, Step(ref, s, a), b)
  {
    RunOneMore(ref, s, [], a);
    RunOneMore(ref, s, [a], b);
    assert [a] == [] + [a] && [a, b] == [a] + [b];
  }

  lemma LoserSortedFirst(ref: string, s: System, p: nat, h: Hit, t: Hit)
    requires p !in s.passes && CanFind(ref, s, [t, h], 1) && t.id in s.docs && s.docs[t.id].seqNo == t.seqNo
    ensures var r := Run(ref, s, [Begin(p, [t, h], 1), Demote(p, Answered)]);
            && r.past == s.past && r.passes.Keys == s.passes.Keys + {p} && OnlyTheseDemoted(s.docs, r.docs, {t.id})
  {
    var begun := s.(passes := s.passes[p := Pass([t, h], 1, 0)]);
    RunTwo(ref, s, Begin(p, [t, h], 1), Demote(p, Answered));
    assert Step(ref, s, Begin(p, [t, h], 1)) == begun;
    DemoteTakesEffect(ref, begun, p, t);
  }

  lemma WinnerSortedFirst(ref: string, s: System, p: nat, h: Hit, t: Hit)
    requires p !in s.passes && CanFind(ref, s, [h, t], 0) && t.id in s.docs && s.docs[t.id].seqNo == t.seqNo
    ensures var r := Run(ref, s, [Begin(p, [h, t], 0), Demote(p, Answered), Demote(p, Answered)]);
            && r.past == s.past && r.passes.Keys == s.passes.Keys + {p} && OnlyTheseDemoted(s.docs, r.docs, {t.id})
  {
    var first, turn := Begin(p, [h, t], 0), Demote(p, Answered);
    var begun := s.(passes := s.passes[p := Pass([h, t], 0, 0)]);
    var skipped := s.(passes := s.passes[p := Pass([h, t], 0, 1)]);
    RunTwo(ref, s, first, turn);
    RunOneMore(ref, s, [first, turn], turn);
    assert [first, turn, turn] == [first, turn] + [turn];
    assert Step(ref, s, first) == begun;
    assert Step(ref, begun, turn) == skipped;
    DemoteTakesEffect(ref, skipped, p, t);
  }

  lemma DuelIsFound(ref: string, s: System, h: Hit, t: Hit)
    requires h in s.past && t in s.past && Beats(ref, h.id, h.face, t.id, t.face)
    ensures if SortsBefore(t.face, h.face) then CanFind(ref, s, [t, h], 1) else CanFind(ref, s, [h, t], 0)
  {
    PrioLessIrreflexive(P(ref, h));
    PrioLessAsymmetric(P(ref, t), P(ref, h));
    if SortsBefore(t.face, h.face) {
      SortsBeforeAsymmetric(t.face, h.face);
    }
  }

  lemma DemoteTakesEffect(ref: string, s: System, p: nat, t: Hit)
    requires p in s.passes && s.passes[p].next < |s.passes[p].hits| && s.passes[p].next != s.passes[p].winner
    requires s.passes[p].hits[s.passes[p].next] == t && t.id in s.docs && s.docs[t.id].seqNo == t.seqNo
    ensures var r := Step(ref, s, Demote(p, Answered));
            r.past == s.past && r.passes.Keys == s.passes.Keys && OnlyTheseDemoted(s.docs, r.docs, {t.id})
  {
  }

  lemma PrioLessAsymmetric(a: Prio, b: Prio)
    ensures !(PrioLess(a, b) && PrioLess(b, a))
  {
    if PrioLess(a, b) && PrioLess(b, a) {
      PrioLessTransitive(a, b, a);
      PrioLessIrreflexive(a);
    }
  }

  lemma SortsBeforeAsymmetric(a: Face, b: Face)
    requires SortsBefore(a, b)
    ensures !SortsBefore(b, a)
  {
    OptLessLaws(a.deletedAt, b.deletedAt, a.deletedAt);
    OptLessLaws(a.updatedAt, b.updatedAt, a.updatedAt);
  }

  lemma {:induction false} RunsConcatenate(ref: string, s: System, first: seq<Act>, second: seq<Act>)
    ensures Run(ref, s, first + second) == Run(ref, Run(ref, s, first), second)
    decreases |second|
  {
    if second == [] {
      assert first + second == first;
    } else {
      var n := |second| - 1;
      RunsConcatenate(ref, s, first, second[..n]);
      assert (first + second)[..|first + second| - 1] == first + second[..n];
    }
  }

  /** A document whose present version is searchable and beaten. */
  ghost predicate IsTarget(ref: string, s: System, t: string)
  {
    t in s.docs && Hit(t, s.docs[t].face, s.docs[t].seqNo) in s.past && Beaten(ref, s, t)
  }

  lemma DemoteOne(ref: string, s: System, t: string, p: nat) returns (acts: seq<Act>)
    requires IsTarget(ref, s, t) && forall q :: q in s.passes ==> q < p
    ensures forall i :: 0 <= i < |acts| ==> !acts[i].Write?
    ensures var r := Run(ref, s, acts);
            && r.past == s.past && (forall q :: q in r.passes ==> q < p + 1) && OnlyTheseDemoted(s.docs, r.docs, {t})
  {
    var h :| h in s.past && Beats(ref, h.id, h.face, t, s.docs[t].face);
    var hit := Hit(t, s.docs[t].face, s.docs[t].seqNo);
    DuelDemotes(ref, s, p, h, hit);
    acts := Duel(p, h, hit);
  }

  lemma TargetStays(ref: string, s: System, mid: System, t: string, o: string)
    requires IsTarget(ref, s, o) && o != t && mid.past == s.past && OnlyTheseDemoted(s.docs, mid.docs, {t})
    ensures IsTarget(ref, mid, o)
  {
    assert mid.docs[o] == s.docs[o];
  }

  lemma DemotionsAddUp(
    before: map<string, Doc>, mid: map<string, Doc>, after: map<string, Doc>, t: string, targets: set<string>)
    requires OnlyTheseDemoted(before, mid, {t}) && OnlyTheseDemoted(mid, after, targets) && t !in targets
    ensures OnlyTheseDemoted(before, after, {t} + targets)
  {
  }

  /** Any number of beaten documents can be demoted one after the other. */
  lemma {:induction false} DemoteAll(ref: string, s: System, targets: set<string>, p: nat) returns (acts: seq<Act>)
    requires forall q :: q in s.passes ==> q < p
    requires forall t :: t in targets ==> IsTarget(ref, s, t)
    ensures forall i :: 0 <= i < |acts| ==> !acts[i].Write?
    ensures OnlyTheseDemoted(s.docs, Run(ref, s, acts).docs, targets)
    decreases targets
  {
    if targets == {} {
      acts := [];
    } else {
      var t :| t in targets;
      var duel := DemoteOne(ref, s, t, p);
      var mid := Run(ref, s, duel);
      forall o | o in targets - {t} ensures IsTarget(ref, mid, o) {
        TargetStays(ref, s, mid, t, o);
      }
      var rest := DemoteAll(ref, mid, targets - {t}, p + 1);
      RunsConcatenate(ref, s, duel, rest);
      acts := duel + rest;
      DemotionsAddUp(s.docs, mid.docs, Run(ref, s, acts).docs, t, targets - {t});
      assert {t} + (targets - {t}) == targets;
    }
  }

  /** Everyone in `targets` can be demoted by janitors at work after the writes `ws`. */
  lemma LoseAfterWrites(ref: string, docs: map<string, Doc>, nextSeqNo: nat, ws: seq<Act>, targets: set<string>)
    returns (acts: seq<Act>)
    requires forall i :: 0 <= i < |ws| ==> ws[i].Write?
    requires var alone := Run(ref, Start(docs, nextSeqNo), ws);
             forall t :: t in targets ==> t in alone.docs && alone.docs[t].latest && Beaten(ref, alone, t)
    ensures Writes(acts) == ws
    ensures var r, alone := Run(ref, Start(docs, nextSeqNo), acts), Run(ref, Start(docs, nextSeqNo), ws);
            OnlyTheseDemoted(alone.docs, r.docs, targets)
  {
    var s := Start(docs, nextSeqNo);
    WritersAlone(ref, s, ws);
    var more := DemoteAll(ref, Run(ref, s, ws), targets, 0);
    RunsConcatenate(ref, s, ws, more);
    WritesOfWrites(ws, more);
    acts := ws + more;
  }

  lemma SearchableAtStart(docs: map<string, Doc>, nextSeqNo: nat, id: string)
    requires id in docs && docs[id].latest
    ensures Hit(id, docs[id].face, docs[id].seqNo) in Start(docs, nextSeqNo).past
  {
  }

  ghost predicate AlwaysLatest(ref: string, s: System, ws: seq<Act>, t: string)
  {
    forall acts: seq<Act> :: Writes(acts) == ws ==> t in Run(ref, s, acts).docs && Run(ref, s, acts).docs[t].latest
  }

  /** Exact safety. Fix any duplicates and any writes, rising or falling. A document that the writes
      leave latest is latest in every interleaving of those writes with janitors on arbitrarily stale
      searches, if and only if no version of another document that was ever searchable beats its face. */
  lemma FlagIsSafeExactly(ref: string, docs: map<string, Doc>, nextSeqNo: nat, ws: seq<Act>, t: string)
    requires Numbered(docs, nextSeqNo) && forall i :: 0 <= i < |ws| ==> ws[i].Write?
    requires var alone := Run(ref, Start(docs, nextSeqNo), ws); t in alone.docs && alone.docs[t].latest
    ensures AlwaysLatest(ref, Start(docs, nextSeqNo), ws, t) <==> !Beaten(ref, Run(ref, Start(docs, nextSeqNo), ws), t)
  {
    var s := Start(docs, nextSeqNo);
    if Beaten(ref, Run(ref, s, ws), t) {
      var acts := LoseAfterWrites(ref, docs, nextSeqNo, ws, {t});
      assert !AlwaysLatest(ref, s, ws, t);
    } else {
      forall acts: seq<Act> | Writes(acts) == ws
        ensures t in Run(ref, s, acts).docs && Run(ref, s, acts).docs[t].latest
      {
        JanitorsShadowWrites(ref, s, acts);
      }
    }
  }

  /** Without writes: a duplicate keeps its flag in every run if and only if every other latest
      duplicate has no priority, is outranked, or ties and is sorted after it. */
  lemma FixedDuplicatesAreExact(ref: string, docs: map<string, Doc>, nextSeqNo: nat, t: string)
    requires Numbered(docs, nextSeqNo) && t in docs && docs[t].latest
    ensures AlwaysLatest(ref, Start(docs, nextSeqNo), [], t) <==>
            forall x :: x in docs && docs[x].latest ==> !Beats(ref, x, docs[x].face, t, docs[t].face)
  {
    var s := Start(docs, nextSeqNo);
    FlagIsSafeExactly(ref, docs, nextSeqNo, [], t);
    assert Run(ref, s, []) == s;
    if x :| x in docs && docs[x].latest && Beats(ref, x, docs[x].face, t, docs[t].face) {
      SearchableAtStart(docs, nextSeqNo, x);
    }
  }

  ghost predicate SomeoneLatest(docs: map<string, Doc>)
  {
    exists id :: id in docs && docs[id].latest
  }

  ghost predicate AlwaysSomeoneLatest(ref: string, s: System, ws: seq<Act>)
  {
    forall acts: seq<Act> :: Writes(acts) == ws ==> SomeoneLatest(Run(ref, s, acts).docs)
  }

  ghost predicate SomeoneUnbeaten(ref: string, s: System)
  {
    exists t :: t in s.docs && s.docs[t].latest && !Beaten(ref, s, t)
  }

  /** Someone is latest in every interleaving if and only if the writes leave some latest document
      that no searchable version beats. */
  lemma SomeoneStaysExactly(ref: string, docs: map<string, Doc>, nextSeqNo: nat, ws: seq<Act>)
    requires Numbered(docs, nextSeqNo) && forall i :: 0 <= i < |ws| ==> ws[i].Write?
    ensures AlwaysSomeoneLatest(ref, Start(docs, nextSeqNo), ws) <==>
            SomeoneUnbeaten(ref, Run(ref, Start(docs, nextSeqNo), ws))
  {
    var s := Start(docs, nextSeqNo);
    var alone := Run(ref, s, ws);
    if SomeoneUnbeaten(ref, alone) {
      var t :| t in alone.docs && alone.docs[t].latest && !Beaten(ref, alone, t);
      FlagIsSafeExactly(ref, docs, nextSeqNo, ws, t);
    } else {
      var latest := set id | id in alone.docs && alone.docs[id].latest;
      var acts := LoseAfterWrites(ref, docs, nextSeqNo, ws, latest);
      assert !SomeoneLatest(Run(ref, s, acts).docs);
    }
  }

  /** Two duplicates with the same face: each beats the other, so nobody need stay latest. */
  lemma TiesCanLoseEveryone(ref: string, face: Face, id: string, other: string)
    requires id != other && PrioOf(ref, id, face) == PrioOf(ref, other, face) && PrioOf(ref, id, face).tier > 0
    ensures var docs := map[id := Doc(face, true, 0), other := Doc(face, true, 1)];
            !AlwaysSomeoneLatest(ref, Start(docs, 2), [])
  {
    var docs := map[id := Doc(face, true, 0), other := Doc(face, true, 1)];
    var s := Start(docs, 2);
    SomeoneStaysExactly(ref, docs, 2, []);
    assert Run(ref, s, []) == s;
    OptLessLaws(face.deletedAt, face.deletedAt, face.deletedAt);
    OptLessLaws(face.updatedAt, face.updatedAt, face.updatedAt);
    SearchableAtStart(docs, 2, id);
    SearchableAtStart(docs, 2, other);
    assert Hit(id, face, 0) in s.past && Hit(other, face, 1) in s.past;
    assert Beaten(ref, s, id) && Beaten(ref, s, other);
  }

  /** A write that takes the winner below the other duplicate leaves that one on top, and a pass on
      the old search can still demote it: of two duplicates, exactly when the old face beats it. */
  lemma FallingWriteIsExact(ref: string, id: string, high: Face, low: Face, other: string, face: Face)
    requires id != other
    ensures var docs := map[id := Doc(high, true, 0), other := Doc(face, true, 1)];
            AlwaysLatest(ref, Start(docs, 2), [Write(id, low)], other) <==>
            !Beats(ref, id, high, other, face) && !Beats(ref, id, low, other, face)
  {
    var docs := map[id := Doc(high, true, 0), other := Doc(face, true, 1)];
    var s := Start(docs, 2);
    var ws := [Write(id, low)];
    assert ws == [] + ws;
    RunOneMore(ref, s, [], ws[0]);
    var alone := Run(ref, s, ws);
    PairVersions(docs, id, other);
    assert alone.past == {Hit(id, high, 0), Hit(other, face, 1), Hit(id, low, 2)};
    assert alone.docs[other] == docs[other];
    FlagIsSafeExactly(ref, docs, 2, ws, other);
    BeatenByOneOfThree(ref, alone, id, high, low, other, face);
  }

  lemma PairVersions(docs: map<string, Doc>, id: string, other: string)
    requires docs.Keys == {id, other} && docs[id].latest && docs[other].latest
    ensures Start(docs, 2).past ==
            {Hit(id, docs[id].face, docs[id].seqNo), Hit(other, docs[other].face, docs[other].seqNo)}
  {
    SearchableAtStart(docs, 2, id);
    SearchableAtStart(docs, 2, other);
  }

  lemma BeatenByOneOfThree(ref: string, s: System, id: string, high: Face, low: Face, other: string, face: Face)
    requires s.past == {Hit(id, high, 0), Hit(other, face, 1), Hit(id, low, 2)}
    requires other in s.docs && s.docs[other].face == face
    ensures Beaten(ref, s, other) <==> Beats(ref, id, high, other, face) || Beats(ref, id, low, other, face)
  {
    assert Hit(id, high, 0) in s.past && Hit(id, low, 2) in s.past;
  }
}
