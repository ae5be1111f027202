/**
 A submission under its lock, statement by statement: reconcile what is pending,
 or reserve, sign, persist and only then send.
 */
module JournalSubmission {
  import opened Wrappers
  import opened JournalProtocol
  import opened JournalInvariant
  import opened JournalRecovery
  import opened JournalPass

  /** sendTransaction.  What was handed over counts as sent even if the reply is lost. */
  class Wire {
    var outbox: seq<Tx>
    ghost var failures: nat

    /** Only recorded bytes may be handed over. */
    method Send(tx: Tx, ghost rows: map<WorkKey, Row>) returns (returned: Option<string>)
      requires Recorded(rows, tx)
      modifies this
      ensures outbox == old(outbox) + [tx]
      ensures old(failures) <= failures && (returned != Some(tx.signature) <==> old(failures) < failures)
    {
      outbox := outbox + [tx];
      returned := Some(tx.signature);
    }
  }

  /** The table after a new generation has been reserved and its bytes recorded. */
  function Generation(db: Db, call: Call, signature: string): Db {
    PersistRow(Reservation(db, call), call.work, Tx(signature, call.message))
  }

  datatype SubmitError =
    | LeaseContended
    | ConnectionLost
    | Recovering(e: RecoverError)
    | PendingSignature
    | UnsubmittedCanceled
    | SlotOverflow
    | HeightOverflow
    | NotReserved
    | NotPersisted
    | SendFailed
    | DifferentSignature

  type Submission = Result<Option<string>, SubmitError>

  /** Every error has a cause: a call that failed, a work key that is taken, a number that does
      not fit, or something that was pending. */
  ghost predicate Explained(r: Submission, db: Db, call: Call, database: bool, rpc: bool, wire: bool,
                            chain: seq<Block>) {
    match r
    case Ok(_) => true
    case Err(LeaseContended) => false
    case Err(ConnectionLost) => false
    case Err(Recovering(DatabaseUnavailable)) => database
    case Err(Recovering(RpcUnavailable)) => rpc
    case Err(Recovering(ArchivalNeeded)) => false
    case Err(Recovering(ReceiptDiffers)) =>
      exists w :: IsPending(db.rows, call.key, w) && db.rows[w].tx.Some? && OtherLanded(chain, db.rows[w].tx.value)
    case Err(PendingSignature) => exists w :: IsPending(db.rows, call.key, w) && db.rows[w].tx.Some?
    case Err(UnsubmittedCanceled) => exists w :: IsPending(db.rows, call.key, w) && db.rows[w].tx.None?
    case Err(SlotOverflow) => call.slot >= 0x8000_0000_0000_0000
    case Err(HeightOverflow) => call.height >= 0x8000_0000_0000_0000
    case Err(NotReserved) => call.work in db.rows || database
    case Err(NotPersisted) => database
    case Err(SendFailed) => wire
    case Err(DifferentSignature) => wire
  }

  /** `submit_locked`, with everything the lock protects as it stands. */
  method SubmitLocked(node: Node, store: Store, wire: Wire, ghost held: set<Key>, call: Call, sign: string -> string)
    returns (r: Submission)
    requires RowsOk(store.Contents(), node.ledger.chain) && call.key in held
    modifies node, store, wire
    ensures Advanced(old(node.ledger), node.ledger)
    ensures old(NothingPending(store.rows, call.key)) ==>
              Started(old(store.Contents()), store.Contents(), old(wire.outbox), wire.outbox, call,
                      sign(call.message.body), r)
    ensures !old(NothingPending(store.rows, call.key)) ==>
              Deferred(old(store.Contents()), store.Contents(), old(wire.outbox), wire.outbox, call.key,
                       old(node.ledger), node.ledger, r)
    ensures Explained(r, old(store.Contents()), call, old(store.failures) < store.failures,
                      old(node.ledger).failures < node.ledger.failures, old(wire.failures) < wire.failures,
                      node.ledger.chain)
  {
    var pending := store.FindPending(call.key);
    if pending.None? {
      return Err(Recovering(DatabaseUnavailable));
    }
    if pending.value.Some? {
      r := Defer(node, store, wire, call, pending.value.value);
      return;
    }
    r := Start(store, wire, call, sign);
  }

  /** Nothing was pending.  A transaction is handed over only after the row that records it,
      and success means exactly one new generation, recorded and sent. */
  ghost predicate Started(db: Db, db': Db, out: seq<Tx>, out': seq<Tx>, call: Call, signature: string, r: Submission) {
    && (r.Ok? ==> r == Ok(None) && call.work !in db.rows && db' == Generation(db, call, signature)
                  && out' == out + [Tx(signature, call.message)])
    && (db' == db || (call.work !in db.rows
                      && (db' == Reservation(db, call) || db' == Generation(db, call, signature))))
    && (out' == out
        || (call.work !in db.rows && db' == Generation(db, call, signature)
            && out' == out + [Tx(signature, call.message)]))
    && (call.slot >= 0x8000_0000_0000_0000 || call.height >= 0x8000_0000_0000_0000 ==>
          r.Err? && db' == db && out' == out)
  }

  method Start(store: Store, wire: Wire, call: Call, sign: string -> string) returns (r: Submission)
    modifies store, wire
    ensures Started(old(store.Contents()), store.Contents(), old(wire.outbox), wire.outbox, call,
                    sign(call.message.body), r)
    ensures Explained(r, old(store.Contents()), call, old(store.failures) < store.failures, false,
                      old(wire.failures) < wire.failures, [])
    ensures store.failures >= old(store.failures)
    ensures r.Ok? ==> wire.failures == old(wire.failures)
  {
    if call.slot >= I64_LIMIT {
      return Err(SlotOverflow);
    }
    if call.height >= I64_LIMIT {
      return Err(HeightOverflow);
    }
    var ok := store.Reserve(call);
    if !ok {
      return Err(NotReserved);
    }
    var signature := sign(call.message.body);
    var tx := Tx(signature, call.message);
    ok := store.Persist(call.work, tx);
    if !ok {
      return Err(NotPersisted);
    }
    assert store.rows[call.work].tx == Some(tx);
    var returned := wire.Send(tx, store.rows);
    if returned.None? {
      return Err(SendFailed);
    }
    if returned.value != signature {
      return Err(DifferentSignature);
    }
    r := Ok(None);
  }

  /** The status of the pending row's recorded transaction was asked for and was not finalized,
      and exactly its recorded bytes were handed over, once. */
  ghost predicate SentAgain(row: Row, l: Ledger, l': Ledger, out: seq<Tx>, out': seq<Tx>) {
    row.tx.Some? && StatusTold(l, l', row.tx.value.signature, false) && out' == out + [row.tx.value]
  }

  /** Something was pending.  No new generation is made: the pending row is settled, or
      canceled, or its recorded bytes are sent once more, and this exactly if the node did not
      call them finalized. */
  ghost predicate Deferred(db: Db, db': Db, out: seq<Tx>, out': seq<Tx>, key: Key, l: Ledger, l': Ledger,
                           r: Submission) {
    && (db' == db || exists w, o :: IsPending(db.rows, key, w) && CommitAllowed(db, db', w, l'.chain, o))
    && (|| (out' == out && !exists sig :: StatusTold(l, l', sig, false))
        || (db' == db && (r == Err(PendingSignature) || r == Err(ConnectionLost))
            && exists w :: IsPending(db.rows, key, w) && SentAgain(db.rows[w], l, l', out, out')))
    && (r == Err(PendingSignature) ==> out' != out)
    && match r
       case Ok(Some(signature)) =>
         exists w :: IsPending(db.rows, key, w) && CommitAllowed(db, db', w, l'.chain, Executed)
                     && db.rows[w].tx.Some? && db.rows[w].tx.value.signature == signature
                     && StatusTold(l, l', signature, true)
       case Ok(None) => exists w :: IsPending(db.rows, key, w) && CommitAllowed(db, db', w, l'.chain, Failed)
       case Err(UnsubmittedCanceled) =>
         exists w :: IsPending(db.rows, key, w) && CommitAllowed(db, db', w, l'.chain, AbandonedBeforeSubmission)
       case Err(_) => true
  }

  method Defer(node: Node, store: Store, wire: Wire, call: Call, work: WorkKey) returns (r: Submission)
    requires RowsOk(store.Contents(), node.ledger.chain) && IsPending(store.rows, call.key, work)
    modifies node, store, wire
    ensures Advanced(old(node.ledger), node.ledger)
    ensures Deferred(old(store.Contents()), store.Contents(), old(wire.outbox), wire.outbox, call.key,
                     old(node.ledger), node.ledger, r)
    ensures Explained(r, old(store.Contents()), call, old(store.failures) < store.failures,
                      old(node.ledger).failures < node.ledger.failures, old(wire.failures) < wire.failures,
                      node.ledger.chain)
  {
    assert RowOk(store.rows[work], node.ledger.chain, |store.log|);
    var row := store.rows[work];
    if row.tx.None? {
      var canceled := FinishWith(node, store, work, AbandonedBeforeSubmission);
      return Err(if canceled.Ok? then UnsubmittedCanceled else Recovering(DatabaseUnavailable));
    }
    var finalized := node.IsFinalized(row.tx.value.signature);
    if finalized == None {
      return Err(Recovering(RpcUnavailable));
    }
    if finalized.value {
      ghost var between := node.ledger;
      var outcome := FinishReceipt(node, store, work);
      AdvancedIsTransitive(old(node.ledger), between, node.ledger);
      match outcome
      case Err(e) => return Err(Recovering(e));
      case Ok(o) => return Ok(if o == Some(Executed) then Some(row.tx.value.signature) else None);
    }
    var _ := wire.Send(row.tx.value, store.rows);
    r := Err(PendingSignature);
  }

  /** `submit`: nothing happens under somebody else's lock, and the lock is given back, or
      gone with the session, whatever happens under it. */
  method Submit(node: Node, store: Store, wire: Wire, session: Session, call: Call, sign: string -> string)
    returns (r: Submission)
    requires RowsOk(store.Contents(), node.ledger.chain) && session.held == {}
    modifies node, store, wire, session
    ensures Advanced(old(node.ledger), node.ledger)
    ensures session.held == {}
    ensures r == Err(LeaseContended) ==> store.Contents() == old(store.Contents()) && wire.outbox == old(wire.outbox)
    ensures r == Err(LeaseContended) ==> call.key in session.refused
    ensures session.failures == old(session.failures) && r != Err(LeaseContended) ==>
              Explained(r, old(store.Contents()), call, old(store.failures) < store.failures,
                        old(node.ledger).failures < node.ledger.failures, old(wire.failures) < wire.failures,
                        node.ledger.chain)
    ensures old(NothingPending(store.rows, call.key)) ==>
              Started(old(store.Contents()), store.Contents(), old(wire.outbox), wire.outbox, call,
                      sign(call.message.body), r)
    ensures !old(NothingPending(store.rows, call.key)) ==>
              Deferred(old(store.Contents()), store.Contents(), old(wire.outbox), wire.outbox, call.key,
                       old(node.ledger), node.ledger, r)
  {
    var locked := session.TryLock(call.key);
    if locked.None? {
      return Err(Recovering(DatabaseUnavailable));
    }
    if !locked.value {
      return Err(LeaseContended);
    }
    r := SubmitLocked(node, store, wire, session.held, call, sign);
    var ok := session.Unlock(call.key);
    if !ok {
      r := Err(ConnectionLost);
    }
  }
}
