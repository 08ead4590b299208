/** Create-only identity stores: delivery receipts, and mutation history with erasure fences. */
module Repositories {
  import opened Text
  import opened Grammar
  import opened Projection
  import opened CurrentIndex

  datatype Action = WasCreate | WasUpdate | WasDelete

  /** An admitted envelope. `fingerprint` stands for the hash of its immutable content. */
  datatype Envelope = Envelope(
    publisher: string,
    eventId: string,
    objectType: string,
    objectId: string,
    action: Action,
    origin: Origin,
    revision: int,
    occurredAt: string,
    payload: string,
    fingerprint: string)
  {
    function Key(): string { Join(publisher, eventId) }

    function Ref(): string { Join(objectType, objectId) }

    function ToEvent(): Event
    {
      var body := Body(Ref(), true,
                       if action == WasDelete then None else Some(occurredAt),
                       if action == WasDelete then Some(occurredAt) else None,
                       payload);
      Event(revision, Key(), fingerprint, origin, occurredAt, body)
    }
  }

  // ---------------------------------------------------------------------------
  // Delivery receipts
  // ---------------------------------------------------------------------------

  datatype Receipt = Receipt(publisher: string, eventId: string, origin: Origin, fingerprint: string, erased: bool)

  function ReceiptOf(env: Envelope): Receipt
  {
    Receipt(env.publisher, env.eventId, env.origin, env.fingerprint, false)
  }

  /** Effect of the create request: an existing document is never replaced. */
  function CreateReceipt(receipts: map<string, Receipt>, env: Envelope, reply: Reply): map<string, Receipt>
  {
    if reply == NotSent || env.Key() in receipts then receipts else receipts[env.Key() := ReceiptOf(env)]
  }

  /** The comparing read after a create conflict. */
  predicate ReceiptMatches(receipts: map<string, Receipt>, env: Envelope)
  {
    env.Key() in receipts && receipts[env.Key()] == ReceiptOf(env)
  }

  class ReceiptRepository {
    var receipts: map<string, Receipt>

    constructor (initial: map<string, Receipt>)
      ensures receipts == initial
    {
      receipts := initial;
    }

    /** `create` and `verify` say how far each of the two requests got. Success is proof that this
        identity is held by exactly this content and origin. */
    method CreateOrVerify(env: Envelope, create: Reply, verify: Reply) returns (ok: bool)
      modifies this
      ensures receipts == CreateReceipt(old(receipts), env, create)
      ensures ok <==>
          create == Answered && (env.Key() in old(receipts) ==> verify == Answered) && ReceiptMatches(receipts, env)
      ensures ok ==>
                var r := receipts[Join(env.publisher, env.eventId)];
                && r.publisher == env.publisher && r.eventId == env.eventId && !r.erased
                && r.origin == env.origin && r.fingerprint == env.fingerprint
    {
      if create == NotSent {
        return false;
      }
      var conflict := env.Key() in receipts;
      if !conflict {
        receipts := receipts[env.Key() := ReceiptOf(env)];
      }
      if create == AnswerLost {
        return false;
      }
      if conflict {
        if verify != Answered {
          return false;
        }
        var found := receipts[env.Key()];
        if found.erased || found.publisher != env.publisher || found.eventId != env.eventId ||
           found.origin != env.origin || found.fingerprint != env.fingerprint {
          return false;
        }
      }
      return true;
    }
  }

  // ---------------------------------------------------------------------------
  // History
  // ---------------------------------------------------------------------------

  datatype Slot =
    | Record(publisher: string, eventId: string, fingerprint: string, objectType: string, objectId: string,
             revision: int, action: Action, ingestedAt: int)
    | Fence

  function RecordOf(env: Envelope, now: int): Slot
  {
    Record(env.publisher, env.eventId, env.fingerprint, env.objectType, env.objectId, env.revision, env.action, now)
  }

  function CreateRecord(history: map<string, Slot>, env: Envelope, now: int, reply: Reply): map<string, Slot>
  {
    if reply == NotSent || env.Key() in history then history else history[env.Key() := RecordOf(env, now)]
  }

  predicate RecordMatches(history: map<string, Slot>, env: Envelope)
  {
    env.Key() in history && history[env.Key()].Record? &&
      history[env.Key()] == RecordOf(env, history[env.Key()].ingestedAt)
  }

  predicate Fenced(history: map<string, Slot>, env: Envelope)
  {
    env.Key() in history && history[env.Key()] == Fence
  }

  class HistoryRepository {
    var history: map<string, Slot>

    constructor (initial: map<string, Slot>)
      ensures history == initial
    {
      history := initial;
    }

    /** Appends a mutation or confirms an identical append; projections never enter history. */
    method CreateOrVerify(env: Envelope, now: int, create: Reply, verify: Reply) returns (ok: bool)
      modifies this
      ensures env.origin != Mutation ==> !ok && history == old(history)
      ensures env.origin == Mutation ==> history == CreateRecord(old(history), env, now, create)
      ensures ok <==> env.origin == Mutation && create == Answered &&
                      (env.Key() in old(history) ==> verify == Answered) && RecordMatches(history, env)
      ensures ok ==>
                var r := history[Join(env.publisher, env.eventId)];
                && r.Record? && r.publisher == env.publisher && r.eventId == env.eventId
                && r.fingerprint == env.fingerprint && r.revision == env.revision && r.action == env.action
                && r.objectType == env.objectType && r.objectId == env.objectId
    {
      if env.origin != Mutation || create == NotSent {
        return false;
      }
      var conflict := env.Key() in history;
      if !conflict {
        history := history[env.Key() := RecordOf(env, now)];
      }
      if create == AnswerLost {
        return false;
      }
      if conflict {
        if verify != Answered {
          return false;
        }
        match history[env.Key()]
        case Fence =>
          return false;
        case Record(publisher, eventId, fingerprint, objectType, objectId, revision, action, _) =>
          if publisher != env.publisher || eventId != env.eventId || fingerprint != env.fingerprint ||
             objectId != env.objectId || objectType != env.objectType || revision != env.revision ||
               action != env.action {
            return false;
          }
      }
      return true;
    }

    /** Replaces whatever the slot holds, or nothing at all, by a permanent fence. */
    method Erase(publisher: string, eventId: string, reply: Reply) returns (ok: bool)
      modifies this
      ensures ok <==> reply == Answered
      ensures reply == NotSent ==> history == old(history)
      ensures reply != NotSent ==> history == old(history)[Join(publisher, eventId) := Fence]
      ensures reply != NotSent ==>
                forall env: Envelope :: env.publisher == publisher && env.eventId == eventId ==> Fenced(history, env)
    {
      if reply != NotSent {
        history := history[Join(publisher, eventId) := Fence];
      }
      return reply == Answered;
    }
  }
}
