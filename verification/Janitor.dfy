/** The janitor: one pass over the documents that claim to be the latest of one resource. */
module Janitor {
  import opened Text
  import opened CurrentIndex

  /** The fields conflict resolution reads. */
  datatype Face = Face(revision: Option<int>, deletedAt: Option<string>, updatedAt: Option<string>)

  datatype Hit = Hit(id: string, face: Face, seqNo: nat)

  datatype Doc = Doc(face: Face, latest: bool, seqNo: nat)

  // ---------------------------------------------------------------------------
  // Priority: the specification of who should stay latest
  // ---------------------------------------------------------------------------

  /** Audited canonical document (3), tombstone (2), dated live document (1), undated (0). */
  datatype Prio = Prio(tier: nat, revision: Option<int>, time: string, extra: Option<string>)

  predicate Dated(t: Option<string>)
  {
    t.Some? && t.value != ""
  }

  predicate AuditedCanonical(ref: string, id: string, face: Face)
  {
    id == ref && face.revision.Some?
  }

  function PrioOf(ref: string, id: string, face: Face): Prio
  {
    if AuditedCanonical(ref, id, face) then Prio(3, None, "", None)
    else if Dated(face.deletedAt) then Prio(2, face.revision, face.deletedAt.value, face.updatedAt)
    else if Dated(face.updatedAt) then Prio(1, None, face.updatedAt.value, None)
    else Prio(0, None, "", None)
  }

  predicate OptIntLess(a: Option<int>, b: Option<int>)
  {
    b.Some? && (a.None? || a.value < b.value)
  }

  predicate OptLess(a: Option<string>, b: Option<string>)
  {
    b.Some? && (a.None? || Less(a.value, b.value))
  }

  predicate PrioLess(a: Prio, b: Prio)
  {
    || a.tier < b.tier
    || (a.tier == b.tier && OptIntLess(a.revision, b.revision))
    || (a.tier == b.tier && a.revision == b.revision && Less(a.time, b.time))
    || (a.tier == b.tier && a.revision == b.revision && a.time == b.time && OptLess(a.extra, b.extra))
  }

  lemma OptLessLaws(a: Option<string>, b: Option<string>, c: Option<string>)
    ensures OptLess(a, b) && OptLess(b, c) ==> OptLess(a, c)
    ensures OptLess(a, b) || a == b || OptLess(b, a)
    ensures !OptLess(a, a)
  {
    if a.Some? {
      LessIrreflexive(a.value);
    }
    if a.Some? && b.Some? {
      LessTotal(a.value, b.value);
      if c.Some? && Less(a.value, b.value) && Less(b.value, c.value) {
        LessTransitive(a.value, b.value, c.value);
      }
    }
  }

  lemma PrioLessTransitive(a: Prio, b: Prio, c: Prio)
    requires PrioLess(a, b) && PrioLess(b, c)
    ensures PrioLess(a, c)
  {
    OptLessLaws(a.extra, b.extra, c.extra);
    if Less(a.time, b.time) && Less(b.time, c.time) {
      LessTransitive(a.time, b.time, c.time);
    }
  }

  lemma PrioLessIrreflexive(a: Prio)
    ensures !PrioLess(a, a)
  {
    OptLessLaws(a.extra, a.extra, a.extra);
    LessIrreflexive(a.time);
  }

  lemma PrioLessTotal(a: Prio, b: Prio)
    ensures PrioLess(a, b) || a == b || PrioLess(b, a)
  {
    OptLessLaws(a.extra, b.extra, b.extra);
    LessTotal(a.time, b.time);
  }

  /** The search order: revision, deletion and update time, each descending with absent last. */
  predicate SortsBefore(a: Face, b: Face)
  {
    || OptIntLess(b.revision, a.revision)
    || (a.revision == b.revision && OptLess(b.deletedAt, a.deletedAt))
    || (a.revision == b.revision && a.deletedAt == b.deletedAt && OptLess(b.updatedAt, a.updatedAt))
  }

  predicate Sorted(hits: seq<Hit>)
  {
    forall i, j :: 0 <= i < j < |hits| ==> !SortsBefore(hits[j].face, hits[i].face)
  }

  function P(ref: string, h: Hit): Prio
  {
    PrioOf(ref, h.id, h.face)
  }

  /** `w` is the index of a hit nobody outranks. */
  predicate Winner(ref: string, hits: seq<Hit>, w: nat)
  {
    w < |hits| && P(ref, hits[w]).tier > 0 &&
      forall i :: 0 <= i < |hits| ==> !PrioLess(P(ref, hits[w]), P(ref, hits[i]))
  }

  /** The hit the code keeps: the first of those nobody outranks. */
  predicate Chosen(ref: string, hits: seq<Hit>, w: nat)
  {
    Winner(ref, hits, w) && forall i :: 0 <= i < w ==> PrioLess(P(ref, hits[i]), P(ref, hits[w]))
  }

  /** The two selection loops. On sorted hits they find the first hit of greatest priority, and they
      find none exactly when no hit has any. */
  method ChooseWinner(ref: string, hits: seq<Hit>) returns (w: Option<nat>)
    requires Sorted(hits)
    ensures w.Some? ==> Chosen(ref, hits, w.value)
    ensures w.None? <==> forall i :: 0 <= i < |hits| ==> P(ref, hits[i]).tier == 0
  {
    w := None;
    var i := 0;
    while i < |hits|
      invariant 0 <= i <= |hits| && w.None?
      invariant forall j :: 0 <= j < i ==> P(ref, hits[j]).tier < 3
    {
      if hits[i].id == ref && hits[i].face.revision.Some? {
        PrioLessIrreflexive(P(ref, hits[i]));
        return Some(i);
      }
      i := i + 1;
    }
    var newest := "";
    i := 0;
    while i < |hits|
      invariant 0 <= i <= |hits|
      invariant forall j :: 0 <= j < i ==> P(ref, hits[j]).tier < 2
      invariant w.None? ==> forall j :: 0 <= j < i ==> P(ref, hits[j]).tier == 0
      invariant w.Some? ==> w.value < i && P(ref, hits[w.value]) == Prio(1, None, newest, None)
      invariant w.Some? ==> forall j :: 0 <= j < i && P(ref, hits[j]).tier == 1 ==> !Less(newest, P(ref, hits[j]).time)
      invariant w.Some? ==> forall j :: 0 <= j < w.value ==> PrioLess(P(ref, hits[j]), P(ref, hits[w.value]))
    {
      var face := hits[i].face;
      if face.deletedAt.Some? && face.deletedAt.value != "" {
        FirstTombstoneWins(ref, hits, i);
        return Some(i);
      }
      if face.updatedAt.Some? && face.updatedAt.value != "" {
        if w.None? || Less(newest, face.updatedAt.value) {
          forall j | 0 <= j < i && P(ref, hits[j]).tier == 1
            ensures Less(P(ref, hits[j]).time, face.updatedAt.value) &&
                !Less(face.updatedAt.value, P(ref, hits[j]).time)
          {
            NewerThanAll(P(ref, hits[j]).time, newest, face.updatedAt.value);
          }
          LessIrreflexive(face.updatedAt.value);
          w, newest := Some(i), face.updatedAt.value;
        }
      }
      i := i + 1;
    }
  }

  predicate Tombstone(h: Hit)
  {
    h.face.deletedAt.Some? && h.face.deletedAt.value != ""
  }

  predicate Live(h: Hit)
  {
    !Tombstone(h) && h.face.updatedAt.Some? && h.face.updatedAt.value != ""
  }

  /** The choice in plain words: the audited canonical document if it was found; otherwise the first
      tombstone; otherwise the first of the live documents updated last. */
  lemma ChoiceInWords(ref: string, hits: seq<Hit>, w: nat)
    requires Sorted(hits) && DistinctIds(hits) && Chosen(ref, hits, w)
    ensures if exists i :: 0 <= i < |hits| && AuditedCanonical(ref, hits[i].id, hits[i].face)
            then hits[w].id == ref && hits[w].face.revision.Some?
            else if exists i :: 0 <= i < |hits| && Tombstone(hits[i])
            then Tombstone(hits[w]) && forall i :: 0 <= i < w ==> !Tombstone(hits[i])
            else && Live(hits[w])
                 && (forall i :: 0 <= i < |hits| && Live(hits[i]) ==>
                       !Less(hits[w].face.updatedAt.value, hits[i].face.updatedAt.value))
                 && (forall i :: 0 <= i < w && Live(hits[i]) ==>
                       Less(hits[i].face.updatedAt.value, hits[w].face.updatedAt.value))
  {
    var p := P(ref, hits[w]);
    assert forall i :: 0 <= i < |hits| ==> !PrioLess(p, P(ref, hits[i]));
    if i :| 0 <= i < |hits| && AuditedCanonical(ref, hits[i].id, hits[i].face) {
      assert P(ref, hits[i]).tier == 3;
    } else if i :| 0 <= i < |hits| && Tombstone(hits[i]) {
      assert P(ref, hits[i]).tier == 2 && p.tier == 2;
      FirstTombstoneIsChosen(ref, hits, w);
    } else {
      assert forall j :: 0 <= j < |hits| ==> P(ref, hits[j]).tier < 2;
    }
  }

  /** The sort puts tombstones in priority order, so the first of the greatest is the first of all. */
  lemma FirstTombstoneIsChosen(ref: string, hits: seq<Hit>, w: nat)
    requires Sorted(hits) && Chosen(ref, hits, w) && P(ref, hits[w]).tier == 2
    requires forall i :: 0 <= i < |hits| ==> P(ref, hits[i]).tier < 3
    ensures forall i :: 0 <= i < w ==> !Tombstone(hits[i])
  {
    forall i | 0 <= i < w ensures !Tombstone(hits[i]) {
      assert PrioLess(P(ref, hits[i]), P(ref, hits[w])) && !SortsBefore(hits[w].face, hits[i].face);
    }
  }

  lemma NewerThanAll(time: string, newest: string, newer: string)
    requires !Less(newest, time) && Less(newest, newer)
    ensures Less(time, newer) && !Less(newer, time)
  {
    LessTotal(time, newest);
    if Less(time, newest) {
      LessTransitive(time, newest, newer);
    }
    LessAsymmetric(time, newer);
  }

  /** Among sorted hits without an audited canonical one, the first tombstone outranks the rest. */
  lemma FirstTombstoneWins(ref: string, hits: seq<Hit>, i: nat)
    requires Sorted(hits) && i < |hits| && P(ref, hits[i]).tier == 2
    requires forall j :: 0 <= j < |hits| ==> P(ref, hits[j]).tier < 3
    requires forall j :: 0 <= j < i ==> P(ref, hits[j]).tier < 2
    ensures Winner(ref, hits, i)
  {
    forall j | 0 <= j < |hits| ensures !PrioLess(P(ref, hits[i]), P(ref, hits[j])) {
      if j == i {
        PrioLessIrreflexive(P(ref, hits[i]));
      } else if i < j {
        assert !SortsBefore(hits[j].face, hits[i].face);
      }
    }
  }

  // ---------------------------------------------------------------------------
  // Truncation of the search result
  // ---------------------------------------------------------------------------

  const MAX_DUPLICATES := 100

  /** The search asks for one hit more than the cap, and the pass keeps the first ones. */
  function Cut(hits: seq<Hit>, cap: nat): seq<Hit>
  {
    if |hits| > cap then hits[..cap] else hits
  }

  /** Guarded writes put a revision on the canonical document only, and dates are never empty. */
  predicate OnlyCanonicalRevision(ref: string, hits: seq<Hit>)
  {
    forall i :: 0 <= i < |hits| ==>
      && (hits[i].face.revision.Some? ==> hits[i].id == ref)
      && hits[i].face.deletedAt != Some("") && hits[i].face.updatedAt != Some("")
  }

  predicate DistinctIds(hits: seq<Hit>)
  {
    forall i, j :: 0 <= i < j < |hits| ==> hits[i].id != hits[j].id
  }

  /** While only the canonical document carries a revision, the first hit is the winner, so cutting
      the result off anywhere after it cannot change the outcome. */
  lemma TruncationKeepsTheWinner(ref: string, hits: seq<Hit>, cap: nat)
    requires Sorted(hits) && DistinctIds(hits) && OnlyCanonicalRevision(ref, hits) && 0 < cap
    requires exists i :: 0 <= i < |hits| && P(ref, hits[i]).tier > 0
    ensures Winner(ref, hits, 0)
    ensures Winner(ref, Cut(hits, cap), 0)
  {
    forall i | 0 <= i < |hits| ensures !PrioLess(P(ref, hits[0]), P(ref, hits[i])) {
      if i == 0 {
        PrioLessIrreflexive(P(ref, hits[0]));
      } else {
        assert !SortsBefore(hits[i].face, hits[0].face);
        assert hits[i].id != hits[0].id;
        EmptyIsLeast(hits[0].face.deletedAt);
      }
    }
  }

  /** The cut result has a winner, and every hit it lets win would also have won uncut. */
  ghost predicate SameOutcome(ref: string, hits: seq<Hit>, cap: nat)
  {
    (exists w :: Winner(ref, Cut(hits, cap), w)) && forall w :: Winner(ref, Cut(hits, cap), w) ==> Winner(ref, hits, w)
  }

  /** The hit the selection stops at: the audited canonical one, or without it the first tombstone. */
  predicate Decides(ref: string, hits: seq<Hit>, top: nat)
  {
    && top < |hits|
    && (|| P(ref, hits[top]).tier == 3
        || (P(ref, hits[top]).tier == 2 && (forall i :: 0 <= i < |hits| ==> P(ref, hits[i]).tier < 3)
            && forall i :: 0 <= i < top ==> P(ref, hits[i]).tier < 2))
  }

  lemma DeciderWins(ref: string, hits: seq<Hit>, top: nat)
    requires Sorted(hits) && DistinctIds(hits) && Decides(ref, hits, top)
    ensures Winner(ref, hits, top)
  {
    PrioLessIrreflexive(P(ref, hits[top]));
    if P(ref, hits[top]).tier == 2 {
      FirstTombstoneWins(ref, hits, top);
    }
  }

  lemma AsGoodAsTheTop(ref: string, hits: seq<Hit>, top: nat, w: nat)
    requires Winner(ref, hits, top) && w < |hits| && P(ref, hits[w]).tier > 0 &&
        !PrioLess(P(ref, hits[w]), P(ref, hits[top]))
    ensures Winner(ref, hits, w)
  {
    PrioLessTotal(P(ref, hits[w]), P(ref, hits[top]));
    assert P(ref, hits[w]) == P(ref, hits[top]);
  }

  /** With an audited canonical document or a tombstone among the hits, the cut keeps the outcome
      exactly when the deciding hit is inside it; and only stray documents, which carry a revision
      without being canonical, can be sorted ahead of that hit. */
  lemma TruncationIsExact(ref: string, hits: seq<Hit>, cap: nat, top: nat)
    requires Sorted(hits) && DistinctIds(hits) && Decides(ref, hits, top)
    ensures SameOutcome(ref, hits, cap) <==> top < cap
    ensures forall i :: 0 <= i < top ==> hits[i].face.revision.Some? && hits[i].id != ref
  {
    var cut := Cut(hits, cap);
    DeciderWins(ref, hits, top);
    forall i | 0 <= i < top ensures hits[i].face.revision.Some? && hits[i].id != ref {
      assert !SortsBefore(hits[top].face, hits[i].face);
      assert hits[i].id != hits[top].id;
      EmptyIsLeast(hits[top].face.deletedAt);
    }
    if top < cap {
      assert Decides(ref, cut, top);
      DeciderWins(ref, cut, top);
      forall w: nat | Winner(ref, cut, w) ensures Winner(ref, hits, w) {
        AsGoodAsTheTop(ref, hits, top, w);
      }
    } else {
      forall w: nat | Winner(ref, cut, w) ensures !Winner(ref, hits, w) {
        assert cut[w] == hits[w] && PrioLess(P(ref, hits[w]), P(ref, hits[top]));
      }
    }
  }

  lemma EmptyIsLeast(t: Option<string>)
    ensures t.Some? && t.value != "" ==> Less("", t.value)
  {
  }

  function Padded(ref: string, n: nat): (id: string)
    ensures |id| == |ref| + n
  {
    ref + seq(n, _ => 'x')
  }

  /** Without that restriction the cut can hide even a tombstone: a hundred stray documents that
      carry a revision but are not canonical push it out, and the pass picks a live document. */
  lemma StrayRevisionsCanHideTheTombstone(ref: string)
    ensures exists hits: seq<Hit> ::
              && Sorted(hits) && DistinctIds(hits) && |hits| == MAX_DUPLICATES + 1
              && Winner(ref, hits, MAX_DUPLICATES) && P(ref, hits[MAX_DUPLICATES]).tier == 2
              && forall w: nat :: Winner(ref, hits[..MAX_DUPLICATES], w) ==> P(ref, hits[w]).tier == 1
  {
    var live, grave := Face(Some(1), None, Some("2024")), Face(None, Some("2024"), None);
    var hits := seq(MAX_DUPLICATES + 1, i requires 0 <= i =>
      Hit(Padded(ref, i + 1), if i < MAX_DUPLICATES then live else grave, 0));
    forall i | 0 <= i < |hits| ensures hits[i].id != ref && |hits[i].id| == |ref| + i + 1 { }
    forall i, j | 0 <= i < j < |hits| ensures hits[i].id != hits[j].id {
      assert |hits[i].id| != |hits[j].id|;
    }
    OptLessLaws(Some("2024"), Some("2024"), None);
    PrioLessIrreflexive(P(ref, hits[MAX_DUPLICATES]));
    assert Winner(ref, hits, MAX_DUPLICATES);
  }

  // ---------------------------------------------------------------------------
  // Requests and passes
  // ---------------------------------------------------------------------------

  const MAX_VISIBILITY_RETRIES := 12

  datatype Request = Request(ref: string, requireAuditedCanonical: bool, visibilityAttempts: nat)

  datatype Result = Skipped | Failed | ConflictResolved | RetryScheduled

  datatype UpdateOutcome = Flagged | Conflict | UpdateError

  /** The conditional update of one document's flag: it takes effect only on the version seen. */
  function Demoted(docs: map<string, Doc>, h: Hit, version: nat, reply: Reply): map<string, Doc>
  {
    if reply != NotSent && h.id in docs && docs[h.id].seqNo == h.seqNo
    then docs[h.id := docs[h.id].(latest := false, seqNo := version)] else docs
  }

  function DemoteOutcome(docs: map<string, Doc>, h: Hit, reply: Reply): UpdateOutcome
  {
    if reply != Answered || h.id !in docs then UpdateError
    else if docs[h.id].seqNo == h.seqNo then Flagged else Conflict
  }

  predicate Visible(ref: string, hits: seq<Hit>)
  {
    exists i :: 0 <= i < |hits| && AuditedCanonical(ref, hits[i].id, hits[i].face)
  }

  predicate AllAnswered(replies: seq<Reply>, n: nat)
    requires n <= |replies|
  {
    forall i :: 0 <= i < n ==> replies[i] == Answered
  }

  predicate LosersDown(docs: map<string, Doc>, hits: seq<Hit>, n: nat, winner: string)
    requires n <= |hits|
  {
    forall i :: 0 <= i < n && hits[i].id != winner && hits[i].id in docs ==> !docs[hits[i].id].latest
  }

  /** Documents outside the hits, and the winner, are untouched; a changed hit was still on the
      version the search saw, and lost nothing but its flag. */
  ghost predicate OnlyLosersChanged(before: map<string, Doc>, after: map<string, Doc>, hits: seq<Hit>, winner: string)
  {
    && before.Keys == after.Keys
    && (forall id :: id in before && (id == winner || forall i :: 0 <= i < |hits| ==> hits[i].id != id) ==>
         after[id] == before[id])
    && (forall i :: 0 <= i < |hits| && hits[i].id in before && after[hits[i].id] != before[hits[i].id] ==>
          before[hits[i].id].seqNo == hits[i].seqNo && after[hits[i].id].face == before[hits[i].id].face &&
            !after[hits[i].id].latest)
  }

  /** Hit `i` is a loser whose update was answered, but which is stored under another version by now. */
  predicate ConflictAt(docs: map<string, Doc>, hits: seq<Hit>, winner: string, replies: seq<Reply>, i: nat)
    requires i < |hits| <= |replies|
  {
    && hits[i].id != winner && replies[i] == Answered
    && hits[i].id in docs && docs[hits[i].id].seqNo != hits[i].seqNo
  }

  /** Up to the first conflict and not beyond, each loser whose update was sent and whose version matched
      has lost its flag. */
  ghost predicate DemotedUntilConflict(
    before: map<string, Doc>, after: map<string, Doc>, hits: seq<Hit>, winner: string, replies: seq<Reply>)
    requires |hits| <= |replies|
  {
    forall i :: 0 <= i < |hits| && hits[i].id in before && hits[i].id in after ==>
      if Reached(before, hits, winner, replies, i) then HandledAt(before, after, hits, winner, replies, i)
      else after[hits[i].id] == before[hits[i].id]
  }

  predicate Reached(docs: map<string, Doc>, hits: seq<Hit>, winner: string, replies: seq<Reply>, i: nat)
    requires i < |hits| <= |replies|
  {
    forall j :: 0 <= j < i ==> !ConflictAt(docs, hits, winner, replies, j)
  }

  predicate HandledAt(
    before: map<string, Doc>, after: map<string, Doc>, hits: seq<Hit>, winner: string, replies: seq<Reply>, i: nat)
    requires i < |hits| <= |replies| && hits[i].id in before && hits[i].id in after
  {
    if hits[i].id != winner && replies[i] != NotSent && before[hits[i].id].seqNo == hits[i].seqNo
    then !after[hits[i].id].latest
    else after[hits[i].id] == before[hits[i].id]
  }

  /** Between turns `i - 1` and `i` of the update loop. */
  ghost predicate DemotedTo(
    before: map<string, Doc>, now: map<string, Doc>, hits: seq<Hit>, winner: string, replies: seq<Reply>, i: nat)
    requires i <= |hits| <= |replies|
  {
    && OnlyLosersChanged(before, now, hits, winner)
    && (forall j :: 0 <= j < i ==> !ConflictAt(before, hits, winner, replies, j))
    && (forall j :: 0 <= j < i && hits[j].id in now ==> HandledAt(before, now, hits, winner, replies, j))
    && (forall j :: i <= j < |hits| && hits[j].id in now ==> now[hits[j].id] == before[hits[j].id])
  }

  lemma TurnDemotes(
    before: map<string, Doc>, now: map<string, Doc>, next: map<string, Doc>, hits: seq<Hit>, winner: string,
    replies: seq<Reply>, i: nat, version: nat)
    requires i < |hits| <= |replies| && DistinctIds(hits) && DemotedTo(before, now, hits, winner, replies, i)
    requires hits[i].id == winner ==> next == now
    requires hits[i].id != winner ==>
               next == Demoted(now, hits[i], version, replies[i]) && DemoteOutcome(now, hits[i], replies[i]) != Conflict
    ensures DemotedTo(before, next, hits, winner, replies, i + 1)
  {
    assert forall j :: 0 <= j < |hits| && j != i && hits[j].id in now ==>
        hits[j].id in next && next[hits[j].id] == now[hits[j].id];
    assert OnlyLosersChanged(before, next, hits, winner);
  }

  lemma StopsAtConflict(
    before: map<string, Doc>, now: map<string, Doc>, hits: seq<Hit>, winner: string, replies: seq<Reply>, i: nat)
    requires i < |hits| <= |replies| && DemotedTo(before, now, hits, winner, replies, i) && hits[i].id != winner
    requires DemoteOutcome(now, hits[i], replies[i]) == Conflict
    ensures SomeConflict(before, hits, winner, replies) && DemotedUntilConflict(before, now, hits, winner, replies)
  {
    assert ConflictAt(before, hits, winner, replies, i);
    assert Reached(before, hits, winner, replies, i);
    forall j | i < j < |hits| ensures !Reached(before, hits, winner, replies, j) {
    }
  }

  lemma FinishesClean(
    before: map<string, Doc>, now: map<string, Doc>, hits: seq<Hit>, winner: string, replies: seq<Reply>)
    requires |hits| <= |replies| && DemotedTo(before, now, hits, winner, replies, |hits|)
    ensures !SomeConflict(before, hits, winner, replies) && DemotedUntilConflict(before, now, hits, winner, replies)
    ensures AllAnswered(replies, |hits|) ==> LosersDown(now, hits, |hits|, winner)
  {
    forall j | 0 <= j < |hits| ensures Reached(before, hits, winner, replies, j) {
    }
    if AllAnswered(replies, |hits|) {
      forall j | 0 <= j < |hits| && hits[j].id != winner && hits[j].id in now ensures !now[hits[j].id].latest {
        assert !ConflictAt(before, hits, winner, replies, j) && HandledAt(before, now, hits, winner, replies, j);
      }
    }
  }

  ghost predicate SomeConflict(docs: map<string, Doc>, hits: seq<Hit>, winner: string, replies: seq<Reply>)
    requires |hits| <= |replies|
  {
    exists i :: 0 <= i < |hits| && ConflictAt(docs, hits, winner, replies, i)
  }

  /** Every stored hit is still on the version the search saw. */
  predicate Fresh(docs: map<string, Doc>, hits: seq<Hit>)
  {
    forall i :: 0 <= i < |hits| && hits[i].id in docs ==> docs[hits[i].id].seqNo == hits[i].seqNo
  }

  class CleanupRepository {
    var docs: map<string, Doc>
    var nextSeqNo: nat
    var retries: seq<Request>

    constructor (docs: map<string, Doc>, nextSeqNo: nat)
      ensures this.docs == docs && this.nextSeqNo == nextSeqNo && retries == []
    {
      this.docs, this.nextSeqNo, retries := docs, nextSeqNo, [];
    }

    method UpdateLatestFlag(h: Hit, reply: Reply) returns (r: UpdateOutcome)
      modifies this`docs, this`nextSeqNo
      ensures docs == Demoted(old(docs), h, old(nextSeqNo), reply)
      ensures r == DemoteOutcome(old(docs), h, reply)
      ensures nextSeqNo == old(nextSeqNo) + 1
    {
      var version := nextSeqNo;
      nextSeqNo := nextSeqNo + 1;
      if reply == NotSent || h.id !in docs {
        return UpdateError;
      }
      if docs[h.id].seqNo != h.seqNo {
        return if reply == Answered then Conflict else UpdateError;
      }
      docs := docs[h.id := docs[h.id].(latest := false, seqNo := version)];
      return if reply == Answered then Flagged else UpdateError;
    }

    method IsVisible(ref: string, hits: seq<Hit>) returns (visible: bool)
      ensures visible <==> Visible(ref, hits)
    {
      for i := 0 to |hits|
        invariant forall j :: 0 <= j < i ==> !AuditedCanonical(ref, hits[j].id, hits[j].face)
      {
        if hits[i].id == ref && hits[i].face.revision.Some? {
          return true;
        }
      }
      return false;
    }

    /** The update loop: every hit but the winner, in order, until a version conflict. */
    method DemoteLosers(hits: seq<Hit>, winner: string, replies: seq<Reply>) returns (conflict: bool)
      requires DistinctIds(hits) && |hits| <= |replies|
      modifies this`docs, this`nextSeqNo
      ensures OnlyLosersChanged(old(docs), docs, hits, winner)
      ensures conflict <==> SomeConflict(old(docs), hits, winner, replies)
      ensures DemotedUntilConflict(old(docs), docs, hits, winner, replies)
      ensures !conflict && AllAnswered(replies, |hits|) ==> LosersDown(docs, hits, |hits|, winner)
    {
      for i := 0 to |hits|
        invariant DemotedTo(old(docs), docs, hits, winner, replies, i)
      {
        ghost var before, version := docs, nextSeqNo;
        if hits[i].id != winner {
          var outcome := UpdateLatestFlag(hits[i], replies[i]);
          if outcome == Conflict {
            StopsAtConflict(old(docs), docs, hits, winner, replies, i);
            return true;
          }
        }
        TurnDemotes(old(docs), before, docs, hits, winner, replies, i, version);
      }
      FinishesClean(old(docs), docs, hits, winner, replies);
      return false;
    }

    /** One pass over the hits a search returned. `replies[i]` says how far update `i` got.
        Only outranked hits can lose their flag, and only on the version the search saw; a pass that
        ends without conflict, all updates answered, leaves the winner alone among its hits. */
    method ProcessItem(request: Request, found: seq<Hit>, replies: seq<Reply>)
      returns (r: Result, winner: Option<nat>, conflict: bool)
      requires Sorted(found) && DistinctIds(found) && |found| <= |replies|
      modifies this
      ensures winner.Some? ==> Chosen(request.ref, Cut(found, MAX_DUPLICATES), winner.value)
      ensures winner.None? ==> docs == old(docs) && !conflict
      ensures winner.Some? ==>
                var hits := Cut(found, MAX_DUPLICATES);
                && OnlyLosersChanged(old(docs), docs, hits, hits[winner.value].id)
                && (conflict <==> SomeConflict(old(docs), hits, hits[winner.value].id, replies))
                && DemotedUntilConflict(old(docs), docs, hits, hits[winner.value].id, replies)
                && (!conflict && AllAnswered(replies, |hits|) ==> LosersDown(docs, hits, |hits|, hits[winner.value].id))
                && (Fresh(old(docs), hits) ==> !conflict && retries == old(retries))
                && (conflict ==> retries == old(retries) + [request])
      ensures Bumps(request, found) ==>
                && r == RetryScheduled
                && retries == old(retries) + [request.(visibilityAttempts := request.visibilityAttempts + 1)]
      ensures winner.Some? <==> Resolves(request, found)
      ensures r == ConflictResolved <==> winner.Some?
      ensures r == Failed <==> GivesUp(request, found)
      ensures var next := Scheduled(request, found, conflict);
              retries == old(retries) + if next.Some? then [next.value] else []
    {
      winner, conflict := None, false;
      if request.ref == "" {
        return Skipped, None, false;
      }
      var hits := Cut(found, MAX_DUPLICATES);
      if request.requireAuditedCanonical {
        var visible := IsVisible(request.ref, hits);
        if !visible {
          if request.visibilityAttempts >= MAX_VISIBILITY_RETRIES {
            return Failed, None, false;
          }
          retries := retries + [request.(visibilityAttempts := request.visibilityAttempts + 1)];
          return RetryScheduled, None, false;
        }
      }
      if |hits| <= 1 {
        return Skipped, None, false;
      }
      winner := ChooseWinner(request.ref, hits);
      if winner.None? {
        return Skipped, None, false;
      }
      conflict := DemoteLosers(hits, hits[winner.value].id, replies);
      if conflict {
        retries := retries + [request];
      }
      return ConflictResolved, winner, conflict;
    }

    /** The item loop on one request: each turn takes the request the previous pass scheduled and the
        next search result, until nothing is scheduled or the searches run out. */
    method ProcessUntilSettled(request: Request, searches: seq<seq<Hit>>, replies: seq<Reply>)
      returns (conflicts: seq<bool>, settled: bool, last: Result)
      requires forall i :: 0 <= i < |searches| ==>
                 Sorted(searches[i]) && DistinctIds(searches[i]) && |searches[i]| <= |replies|
      modifies this
      ensures |conflicts| <= |searches| && (!settled ==> |conflicts| == |searches|)
      ensures settled <==> Pending(request, searches, conflicts, |conflicts|).None?
      ensures forall i :: 0 <= i < |conflicts| ==> Pending(request, searches, conflicts, i).Some?
      ensures settled ==> |conflicts| > 0
      ensures settled ==>
                var n := |conflicts| - 1;
                last == Failed <==> GivesUp(Pending(request, searches, conflicts, n).value, searches[n])
    {
      conflicts, settled, last := [], false, Skipped;
      var next := Some(request);
      while |conflicts| < |searches| && next.Some?
        invariant |conflicts| <= |searches|
        invariant next == Pending(request, searches, conflicts, |conflicts|)
        invariant forall i :: 0 <= i < |conflicts| ==> Pending(request, searches, conflicts, i).Some?
        invariant next.None? ==> |conflicts| > 0
        invariant |conflicts| > 0 ==>
          var n := |conflicts| - 1;
          last == Failed <==> GivesUp(Pending(request, searches, conflicts, n).value, searches[n])
        decreases |searches| - |conflicts|
      {
        var k := |conflicts|;
        var before := retries;
        var r, _, conflict := ProcessItem(next.value, searches[k], replies);
        PendingIgnoresLater(request, searches, conflicts, conflict);
        conflicts, last := conflicts + [conflict], r;
        next := if |retries| > |before| then Some(retries[|before|]) else None;
      }
      settled := next.None?;
    }
  }

  // ---------------------------------------------------------------------------
  // Chains of retries
  // ---------------------------------------------------------------------------

  predicate Invisible(request: Request, found: seq<Hit>)
  {
    request.ref != "" && request.requireAuditedCanonical && !Visible(request.ref, Cut(found, MAX_DUPLICATES))
  }

  /** A pass waits for visibility only if its request asks for the audited canonical document and none of
      the first hundred hits is it. */
  lemma WaitsExactlyForTheCanonical(request: Request, found: seq<Hit>)
    ensures Invisible(request, found) <==>
              && request.ref != "" && request.requireAuditedCanonical
              && forall i :: 0 <= i < |found| && i < 100 ==>
                   !(found[i].id == request.ref && found[i].face.revision.Some?)
  {
    var hits := Cut(found, MAX_DUPLICATES);
    assert forall i :: 0 <= i < |hits| ==> hits[i] == found[i];
    if i :| 0 <= i < |found| && i < 100 && found[i].id == request.ref && found[i].face.revision.Some? {
      assert AuditedCanonical(request.ref, hits[i].id, hits[i].face);
    }
  }

  predicate GivesUp(request: Request, found: seq<Hit>)
  {
    Invisible(request, found) && request.visibilityAttempts >= MAX_VISIBILITY_RETRIES
  }

  predicate Bumps(request: Request, found: seq<Hit>)
  {
    Invisible(request, found) && request.visibilityAttempts < MAX_VISIBILITY_RETRIES
  }

  /** The pass gets as far as choosing a winner, and there is one. */
  predicate Resolves(request: Request, found: seq<Hit>)
  {
    var hits := Cut(found, MAX_DUPLICATES);
    && request.ref != "" && !Invisible(request, found) && |hits| > 1
    && exists i :: 0 <= i < |hits| && P(request.ref, hits[i]).tier > 0
  }

  /** What a pass puts back on the queue. */
  function Scheduled(request: Request, found: seq<Hit>, conflict: bool): Option<Request>
  {
    if GivesUp(request, found) then None
    else if Bumps(request, found) then Some(request.(visibilityAttempts := request.visibilityAttempts + 1))
    else if conflict then Some(request) else None
  }

  /** The request that waits after `n` passes; pass `i` saw `searches[i]` and met a version conflict
      if `conflicts[i]`. */
  function Pending(request: Request, searches: seq<seq<Hit>>, conflicts: seq<bool>, n: nat): Option<Request>
    requires n <= |searches| && n <= |conflicts|
  {
    if n == 0 then Some(request)
    else
      var before := Pending(request, searches, conflicts, n - 1);
      if before.None? then None else Scheduled(before.value, searches[n - 1], conflicts[n - 1])
  }

  lemma PendingIgnoresLater(request: Request, searches: seq<seq<Hit>>, conflicts: seq<bool>, conflict: bool)
    requires |conflicts| < |searches|
    ensures forall n :: 0 <= n <= |conflicts| ==>
              Pending(request, searches, conflicts + [conflict], n) == Pending(request, searches, conflicts, n)
  {
    PendingIgnoresLaterAt(request, searches, conflicts, conflict, |conflicts|);
  }

  lemma {:induction false} PendingIgnoresLaterAt(
    request: Request, searches: seq<seq<Hit>>, conflicts: seq<bool>, conflict: bool, n: nat)
    requires n <= |conflicts| < |searches|
    ensures forall m :: 0 <= m <= n ==>
              Pending(request, searches, conflicts + [conflict], m) == Pending(request, searches, conflicts, m)
  {
    if n > 0 {
      PendingIgnoresLaterAt(request, searches, conflicts, conflict, n - 1);
    }
  }

  /** How many of the first `n` passes scheduled a visibility retry. */
  function VisibilityRetries(request: Request, searches: seq<seq<Hit>>, conflicts: seq<bool>, n: nat): nat
    requires n <= |searches| && n <= |conflicts|
  {
    if n == 0 then 0
    else
      var before := Pending(request, searches, conflicts, n - 1);
      VisibilityRetries(request, searches, conflicts, n - 1) +
      if before.Some? && Bumps(before.value, searches[n - 1]) then 1 else 0
  }

  /** Along any chain of passes, each on the request the previous one scheduled and with conflicts
      anywhere, the visibility count goes up with every visibility retry and with nothing else, so
      there are at most twelve, less those already spent. */
  lemma {:induction false} VisibilityRetriesAreBounded(
    request: Request, searches: seq<seq<Hit>>, conflicts: seq<bool>, n: nat)
    requires n <= |searches| && n <= |conflicts|
    ensures var bumps := VisibilityRetries(request, searches, conflicts, n);
            && (request.visibilityAttempts <= MAX_VISIBILITY_RETRIES ==>
                  request.visibilityAttempts + bumps <= MAX_VISIBILITY_RETRIES)
            && (request.visibilityAttempts > MAX_VISIBILITY_RETRIES ==> bumps == 0)
            && (Pending(request, searches, conflicts, n).Some? ==>
                  Pending(request, searches, conflicts, n).value ==
                  request.(visibilityAttempts := request.visibilityAttempts + bumps))
  {
    if n > 0 {
      VisibilityRetriesAreBounded(request, searches, conflicts, n - 1);
    }
  }

  /** A canonical document that never becomes visible: the chain bumps the count on every pass, and
      the pass after the last bump fails for good. */
  lemma {:induction false} NeverVisibleFails(
    request: Request, searches: seq<seq<Hit>>, conflicts: seq<bool>, n: nat)
    requires n <= |searches| && n <= |conflicts| && request.visibilityAttempts <= MAX_VISIBILITY_RETRIES
    requires forall i :: 0 <= i < |searches| ==> Invisible(request, searches[i])
    ensures var left := MAX_VISIBILITY_RETRIES - request.visibilityAttempts;
            var pending := Pending(request, searches, conflicts, n);
            && (n <= left ==> pending == Some(request.(visibilityAttempts := request.visibilityAttempts + n)))
            && (n == left && n < |searches| ==> GivesUp(pending.value, searches[n]))
            && (n > left ==> pending.None?)
  {
    if n > 0 {
      NeverVisibleFails(request, searches, conflicts, n - 1);
    }
    if n < |searches| {
      assert Invisible(request, searches[n]);
    }
  }
}
