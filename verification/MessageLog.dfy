/** Durable session messages: authorised, idempotent persistence under the lease fence. */
module MessageLog {
  import opened Sql
  import opened Lease
  import SessionStore

  datatype Content = Encrypted(ciphertext: string) | OtherJson

  /** Which authorisation a message was committed under. It is history, not a column: the
      ordering properties are about it. */
  datatype Author =
    | User
    | Legacy
    | Live(instance: Id, leaseId: Id)
    | Replay(instance: Id, leaseId: Id)

  datatype Message = Message(number: nat, localId: Option<Id>, content: Content, author: Author)

  datatype Authorization =
    | LeaseAuth(sessionInstanceId: Id, lease: Id)
    | LegacyAuth
    | ReplayAuth(replayInstance: Option<Id>, replayLease: Option<Id>)

  datatype Input = Input(ciphertext: string, localId: Option<Id>, authorization: Option<Authorization>)

  datatype Outcome =
    | Created(message: Message)
    | Duplicate(original: Message)
    | Stale(retryable: bool)
    | IdempotencyConflict
    | ConstraintViolation

  /** The one delivery target a created message's outbox row carries. */
  datatype Target = Target(leaseId: Option<Id>, legacy: bool)

  predicate HasCiphertext(content: Content, ciphertext: string) {
    content == Encrypted(ciphertext)
  }

  /** The index of a message with this local id, or the length of the log. */
  function IndexOf(log: seq<Message>, localId: Id): (k: nat)
    ensures k <= |log|
    ensures k < |log| ==> log[k].localId == Some(localId)
    ensures forall j :: 0 <= j < k ==> log[j].localId != Some(localId)
  {
    if log == [] then 0
    else if log[0].localId == Some(localId) then 0
    else 1 + IndexOf(log[1..], localId)
  }

  predicate LeaseCurrent(s: Lease, ts: int) {
    Leased(s.row) && s.row.active && s.row.leaseExpires.value > ts && !s.CurrentRetired()
  }

  predicate ReplayLeaseCurrent(s: Lease, ts: int) {
    && Leased(s.row) && s.row.leaseExpires.value > ts
    && s.CurrentRetired() && s.retired[s.row.activeInstance.value] == Replaying
  }

  predicate LegacyTarget(s: Lease, ts: int) {
    s.row.active && !Marked(s.row) && s.row.lastActiveAt > ts - GRACE_MS
  }

  predicate Authorized(s: Lease, a: Authorization, ts: int) {
    match a
    case LeaseAuth(instance, lease) =>
      LeaseCurrent(s, ts) && s.row.activeInstance == Some(instance) && s.row.leaseId == Some(lease)
    case LegacyAuth =>
      s.row.activeInstance.None? && LegacyTarget(s, ts)
    case ReplayAuth(instance, lease) =>
      && instance.Some? && lease.Some? && ReplayLeaseCurrent(s, ts)
      && s.row.activeInstance == instance && s.row.leaseId == lease
  }

  function AuthorOf(a: Option<Authorization>): Author {
    match a
    case None => User
    case Some(LeaseAuth(instance, lease)) => Live(instance, lease)
    case Some(LegacyAuth) => Legacy
    case Some(ReplayAuth(instance, lease)) =>
      if instance.Some? && lease.Some? then Replay(instance.value, lease.value) else User
  }

  /** Whether a refused producer may try again with the same identity. */
  predicate Retryable(s: Lease, a: Authorization) {
    match a
    case LeaseAuth(instance, _) => s.row.activeInstance == Some(instance) && instance !in s.retired
    case LegacyAuth => false
    case ReplayAuth(instance, _) =>
      && instance.Some? && s.row.activeInstance == instance
      && instance.value in s.retired && s.retired[instance.value] == Replaying
  }

  function TargetOf(s: Lease, ts: int): Target {
    Target(if LeaseCurrent(s, ts) then s.row.leaseId else None, LegacyTarget(s, ts))
  }

  /** What a message request amounts to, as a decision table. */
  function Decide(s: Lease, log: seq<Message>, seqColumn: nat, input: Input, ts: int): Outcome {
    var found := if Truthy(input.localId) then IndexOf(log, input.localId.value) else |log|;
    var known := found < |log|;
    var same := known && HasCiphertext(log[found].content, input.ciphertext);
    var refused := input.authorization.Some? && !Authorized(s, input.authorization.value, ts);
    if refused && !(input.authorization.value.ReplayAuth? && same) then
      Stale(Retryable(s, input.authorization.value))
    else if same then Duplicate(log[found])
    else if known then IdempotencyConflict
    else if input.localId.Some? && IndexOf(log, input.localId.value) < |log| then ConstraintViolation
    else Created(Message(seqColumn + 1, input.localId, Encrypted(input.ciphertext), AuthorOf(input.authorization)))
  }

  /** A notification targets the connected generation if the row is leased, the in-grace legacy
      connection if it never was, and never both. */
  lemma TargetIsExclusive(s: Lease, ts: int)
    ensures var t := TargetOf(s, ts);
            && !(t.leaseId.Some? && t.legacy)
            && t.leaseId == (if Marked(s.row) && Connected(s, ts) then s.row.leaseId else None)
            && (t.legacy ==> !Marked(s.row))
            && (!Marked(s.row) && s.row.activeInstance.Some? && !s.CurrentRetired() ==>
                  (t.legacy <==> Connected(s, ts)))
            && (Unmarked(s.row) ==>
                  (t.legacy <==> Owns(s, None, None, ts) && s.row.lastActiveAt > ts - GRACE_MS))
  {
  }

  /** The log side of the session: the persistence transaction as the source runs it. */
  class SessionLog {
    const account: Id
    var seqColumn: nat
    var accountSeq: nat
    var messages: seq<Message>
    var outbox: seq<(nat, nat, Target)>

    constructor (account: Id, accountSeq: nat)
      ensures this.account == account && this.accountSeq == accountSeq
      ensures seqColumn == 0 && messages == [] && outbox == []
    {
      this.account, this.accountSeq := account, accountSeq;
      seqColumn, messages, outbox := 0, [], [];
    }

    /** A transaction holding the session's lock; None when the account does not own the session.
        The message, both sequence counters and the outbox row move together or not at all. */
    method Persist(session: SessionStore.Session, accountId: Id, input: Input, ts: int)
      returns (r: Option<Outcome>, updateSeq: Option<nat>)
      modifies this
      ensures r == if accountId == account
                   then Some(Decide(session.State(), old(messages), old(seqColumn), input, ts)) else None
      ensures updateSeq.Some? <==> r.Some? && r.value.Created?
      ensures updateSeq.Some? ==>
                && updateSeq.value == accountSeq == old(accountSeq) + 1
                && seqColumn == old(seqColumn) + 1
                && messages == old(messages) + [r.value.message]
                && outbox == old(outbox) + [(seqColumn, accountSeq, TargetOf(session.State(), ts))]
      ensures updateSeq.None? ==> unchanged(this)
    {
      updateSeq := None;
      if accountId != account {
        return None, None;
      }
      var s := session.State();
      var found := |messages|;
      if Truthy(input.localId) {
        found := IndexOf(messages, input.localId.value);
      }
      if input.authorization.Some? {
        var a := input.authorization.value;
        var leaseCurrent := Holds(SessionStore.RuntimeLeaseCurrent(s, ts));
        var authorized: bool;
        match a {
          case LeaseAuth(instance, lease) =>
            authorized := leaseCurrent && s.row.activeInstance == Some(instance)
                          && s.row.leaseInstance == Some(instance) && s.row.leaseId == Some(lease);
          case LegacyAuth =>
            authorized := s.row.activeInstance.None? && Holds(LegacyTargetSql(s, ts));
          case ReplayAuth(instance, lease) =>
            authorized := instance.Some? && lease.Some? && Holds(ReplayLeaseCurrentSql(s, ts))
                          && s.row.activeInstance == instance
                          && s.row.leaseInstance == instance && s.row.leaseId == lease;
        }
        if !authorized {
          if a.ReplayAuth? && found < |messages| && HasCiphertext(messages[found].content, input.ciphertext) {
            return Some(Duplicate(messages[found])), None;
          }
          return Some(Stale(Retryable(s, a))), None;
        }
      }
      if found < |messages| {
        if !HasCiphertext(messages[found].content, input.ciphertext) {
          return Some(IdempotencyConflict), None;
        }
        return Some(Duplicate(messages[found])), None;
      }
      if input.localId.Some? && IndexOf(messages, input.localId.value) < |messages| {
        // the unique index on (sessionId, localId) aborts the transaction
        return Some(ConstraintViolation), None;
      }
      seqColumn := seqColumn + 1;
      var message := Message(seqColumn, input.localId, Encrypted(input.ciphertext), AuthorOf(input.authorization));
      messages := messages + [message];
      accountSeq := accountSeq + 1;
      var target := Target(if Holds(SessionStore.RuntimeLeaseCurrent(s, ts)) then s.row.leaseId else None,
                           Holds(LegacyTargetSql(s, ts)));
      outbox := outbox + [(seqColumn, accountSeq, target)];
      return Some(Created(message)), Some(accountSeq);
    }
  }

  function LegacyTargetSql(s: Lease, ts: int): Bool3 {
    And(And(Lift(s.row.active), SessionStore.NoMarkers(s.row)), Above(Some(s.row.lastActiveAt), ts - GRACE_MS))
  }

  function ReplayLeaseCurrentSql(s: Lease, ts: int): Bool3 {
    var r := s.row;
    And(And(And(And(NotNull(r.activeInstance), NotNull(r.leaseId)), Eq(r.leaseInstance, r.activeInstance)),
            Above(r.leaseExpires, ts)),
        Lift(s.CurrentRetired() && s.retired[r.activeInstance.value] == Replaying))
  }
}
