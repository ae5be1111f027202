/** What the journal promises, over every run of any number of keepers. */
module JournalSafety {
  import opened Wrappers
  import opened JournalProtocol
  import opened JournalInvariant

  // ----- how states of one run relate -----

  /** What a table keeps for good: its rows, their recorded bytes, and every row
      whose outcome is no longer pending. */
  ghost predicate Later(rows: map<WorkKey, Row>, rows': map<WorkKey, Row>) {
    forall w :: w in rows ==>
                  && w in rows'
                  && rows'[w].key == rows[w].key
                  && (rows[w].tx.Some? ==> rows'[w].tx == rows[w].tx)
                  && (!rows[w].Pending() ==> rows'[w] == rows[w])
  }

  lemma CommitIsLater(s: State, p: Proc, s': State)
    requires p in s.procs && PcOk(s.db.rows, s.chain, s.procs[p]) && CommitStep(s, p, s')
    ensures Later(s.db.rows, s'.db.rows)
  {
  }

  lemma PersistIsLater(s: State, p: Proc, s': State)
    requires p in s.procs && PcOk(s.db.rows, s.chain, s.procs[p]) && RowsOk(s.db, s.chain) && PersistStep(s, p, s')
    ensures Later(s.db.rows, s'.db.rows)
  {
  }

  ghost predicate Transacts(a: Action) {
    a.Commit? || a.Persist? || a.Reserve?
  }

  lemma OnlyTransactionsWrite(t: Transition)
    requires !Transacts(t.a)
    ensures t.s'.db == t.s.db
  {
  }

  lemma StepIsLater(s: SafeState, t: Transition)
    requires t.s == s
    ensures Later(s.db.rows, t.s'.db.rows)
  {
    if Transacts(t.a) {
      assert LocalOk(s, t.a.p);
      match t.a {
        case Commit(p) => CommitIsLater(s, p, t.s');
        case Persist(p) => PersistIsLater(s, p, t.s');
        case Reserve(p) =>
      }
    } else {
      OnlyTransactionsWrite(t);
    }
  }

  lemma RunStepIsLater(states: Run, i: nat)
    requires i + 1 < |states|
    ensures Later(states[i].db.rows, states[i + 1].db.rows)
  {
    var s := RunKeeps(states, i);
    var t := RunStep(states, i);
    StepIsLater(s, t);
  }

  lemma {:induction false} RunIsLater(states: Run, i: nat, j: nat)
    requires i <= j < |states|
    ensures Later(states[i].db.rows, states[j].db.rows)
    decreases j - i
  {
    if i < j {
      RunIsLater(states, i, j - 1);
      RunStepIsLater(states, j - 1);
      LaterIsTransitive(states[i].db.rows, states[j - 1].db.rows, states[j].db.rows);
    }
  }

  lemma LaterIsTransitive(rows: map<WorkKey, Row>, rows': map<WorkKey, Row>, rows'': map<WorkKey, Row>)
    requires Later(rows, rows') && Later(rows', rows'')
    ensures Later(rows, rows'')
  {
  }

  // ----- replacement safety -----

  /** Whatever was sent is recorded under another work key. */
  ghost predicate NeverSent(s: State, work: WorkKey) {
    forall tx :: tx in s.sent ==> exists w :: w in s.db.rows && w != work && s.db.rows[w].tx == Some(tx)
  }

  /** Nothing of the generation can reach the chain any more: it has been
      finalized already, it was never sent, or no block can take it. */
  ghost predicate Settled(s: State, work: WorkKey)
    requires work in s.db.rows
  {
    var row := s.db.rows[work];
    match row.outcome
    case Executed => row.tx.Some? && HasLanded(s.chain, Landed(row.tx.value, true))
    case Failed => row.tx.Some? && HasLanded(s.chain, Landed(row.tx.value, false))
    case AbandonedBeforeSubmission => row.tx == None && NeverSent(s, work)
    case ExpiredAbsent => row.tx.Some? && Dead(s.chain, row.tx.value)
    case Reserved => false
    case SubmittedUnknown => false
  }

  /** The generation a process is about to sign, or has signed and not yet recorded. */
  ghost predicate AtSigning(s: State, p: Proc, call: Call) {
    p in s.procs && (s.procs[p].pc == Signing(call) || (s.procs[p].pc.Persisting? && s.procs[p].pc.call == call))
  }

  /** When a generation is signed, every earlier generation of its key is settled,
      and is settled in the same way in every later state of the run.  This holds
      even for a process that has lost its session in between. */
  lemma ReplacementSafety(states: Run, i: nat, p: Proc, call: Call, earlier: WorkKey, j: nat)
    requires i <= j < |states|
    requires AtSigning(states[i], p, call)
    requires call.work in states[i].db.rows && earlier in states[i].db.rows
    requires states[i].db.rows[earlier].key == call.key
    requires states[i].db.rows[earlier].created < states[i].db.rows[call.work].created
    ensures Settled(states[i], earlier)
    ensures earlier in states[j].db.rows && states[j].db.rows[earlier] == states[i].db.rows[earlier]
    ensures Settled(states[j], earlier)
  {
    EarlierIsNotPending(states, i, p, call, earlier);
    RunIsLater(states, i, j);
    SettledInRun(states, i, earlier);
    SettledInRun(states, j, earlier);
  }

  lemma EarlierIsNotPending(states: Run, i: nat, p: Proc, call: Call, earlier: WorkKey)
    requires i < |states| && AtSigning(states[i], p, call)
    requires call.work in states[i].db.rows && earlier in states[i].db.rows
    requires states[i].db.rows[earlier].key == call.key
    requires states[i].db.rows[earlier].created < states[i].db.rows[call.work].created
    ensures !states[i].db.rows[earlier].Pending()
  {
    var s := RunKeeps(states, i);
    assert LocalOk(s, p);
  }

  lemma SettledInRun(states: Run, i: nat, work: WorkKey)
    requires i < |states| && work in states[i].db.rows && !states[i].db.rows[work].Pending()
    ensures Settled(states[i], work)
  {
    var s := RunKeeps(states, i);
    NotPendingIsSettled(s, work);
  }

  lemma NotPendingIsSettled(s: State, work: WorkKey)
    requires RowsOk(s.db, s.chain) && SentOk(s.db.rows, s.sent)
    requires work in s.db.rows && !s.db.rows[work].Pending()
    ensures Settled(s, work)
  {
    assert RowOk(s.db.rows[work], s.chain, |s.db.log|);
    if s.db.rows[work].tx == None {
      UnrecordedIsUnsent(s, work);
    }
  }

  lemma UnrecordedIsUnsent(s: State, work: WorkKey)
    requires SentOk(s.db.rows, s.sent) && work in s.db.rows && s.db.rows[work].tx == None
    ensures NeverSent(s, work)
  {
    forall tx | tx in s.sent ensures exists w :: w in s.db.rows && w != work && s.db.rows[w].tx == Some(tx) {
      assert Recorded(s.db.rows, tx);
    }
  }

  lemma SignerOwnsRow(rows: map<WorkKey, Row>, chain: seq<Block>, l: Local, call: Call)
    requires PcOk(rows, chain, l) && (l.pc == Signing(call) || (l.pc.Persisting? && l.pc.call == call))
    ensures call.work in rows && rows[call.work].key == call.key
  {
  }

  /** The reservation a signer works on is in the table for good, so the lemma
      above speaks about every signing step. */
  lemma SignerHasReserved(states: Run, i: nat, p: Proc, call: Call)
    requires i < |states|
    requires AtSigning(states[i], p, call)
    ensures call.work in states[i].db.rows
    ensures states[i].db.rows[call.work].key == call.key
  {
    var s := RunKeeps(states, i);
    assert LocalOk(s, p);
    SignerOwnsRow(s.db.rows, s.chain, s.procs[p], call);
  }

  /** At most one generation of a key is pending, in every reachable state. */
  lemma AtMostOnePending(states: Run, i: nat, v: WorkKey, w: WorkKey)
    requires i < |states|
    requires v in states[i].db.rows && w in states[i].db.rows
    requires states[i].db.rows[v].key == states[i].db.rows[w].key
    requires states[i].db.rows[v].Pending() && states[i].db.rows[w].Pending()
    ensures v == w
  {
    var si := RunKeeps(states, i);
    assert Succession(states[i].db.rows);
  }

  /** The transaction is not on the chain at state i and is at state j. */
  ghost predicate LandsBetween(states: Run, i: nat, j: nat, tx: Tx)
    requires i < |states| && j < |states|
  {
    !TxLanded(states[i].chain, tx) && TxLanded(states[j].chain, tx)
  }

  /** From any state on, of all the generations recorded for a key at most one can
      still land: two of them never race for the chain. */
  lemma AtMostOneCanLand(states: Run, i: nat, j: nat, k: nat, v: WorkKey, w: WorkKey)
    requires i <= j < |states| && i <= k < |states|
    requires v in states[i].db.rows && w in states[i].db.rows
    requires states[i].db.rows[v].key == states[i].db.rows[w].key
    requires states[i].db.rows[v].tx.Some? && states[i].db.rows[w].tx.Some?
    requires LandsBetween(states, i, j, states[i].db.rows[v].tx.value)
    requires LandsBetween(states, i, k, states[i].db.rows[w].tx.value)
    ensures v == w
  {
    OnlyPendingCanLand(states, i, j, v);
    OnlyPendingCanLand(states, i, k, w);
    AtMostOnePending(states, i, v, w);
  }

  lemma OnlyPendingCanLand(states: Run, i: nat, j: nat, w: WorkKey)
    requires i <= j < |states|
    requires w in states[i].db.rows && states[i].db.rows[w].tx.Some?
    requires LandsBetween(states, i, j, states[i].db.rows[w].tx.value)
    ensures states[i].db.rows[w].Pending()
  {
    RunIsLater(states, i, j);
    if !states[i].db.rows[w].Pending() {
      SettledInRun(states, i, w);
      SettledInRun(states, j, w);
      assert false;
    }
  }

  /** An `expired_absent` verdict is never contradicted: the transaction is on no
      block of any later state, although its bytes may still be sent. */
  lemma ExpiredNeverLands(states: Run, i: nat, j: nat, w: WorkKey)
    requires i <= j < |states|
    requires w in states[i].db.rows && states[i].db.rows[w].outcome == ExpiredAbsent
    ensures states[i].db.rows[w].tx.Some?
    ensures !TxLanded(states[j].chain, states[i].db.rows[w].tx.value)
    ensures Past(states[i].chain, states[i].db.rows[w].message.expiry)
  {
    RunIsLater(states, i, j);
    SettledInRun(states, i, w);
    SettledInRun(states, j, w);
    var s := RunKeeps(states, i);
    assert RowOk(s.db.rows[w], s.chain, |s.db.log|);
  }

  // ----- write-ahead -----

  /** Whatever a step sends was in a committed row before the step. */
  lemma WriteAhead(states: Run, i: nat, tx: Tx)
    requires i + 1 < |states|
    requires tx in states[i + 1].sent && tx !in states[i].sent
    ensures exists w :: w in states[i].db.rows && states[i].db.rows[w].tx == Some(tx)
                        && states[i].db.rows[w].outcome != Reserved
                        && states[i].db.rows[w].outcome != AbandonedBeforeSubmission
  {
    var s := RunKeeps(states, i);
    var t := RunStep(states, i);
    SenderIsRecorded(s, t, tx);
    var w :| w in states[i].db.rows && states[i].db.rows[w].tx == Some(tx);
    assert RowOk(states[i].db.rows[w], states[i].chain, |states[i].db.log|);
  }

  lemma SenderIsRecorded(s: SafeState, t: Transition, tx: Tx)
    requires t.s == s && tx in t.s'.sent && tx !in s.sent
    ensures Recorded(s.db.rows, tx)
  {
    assert LocalOk(s, t.a.p);
    if t.a.Rebroadcast? {
      assert s.db.rows[s.procs[t.a.p].pc.claim.work].tx == Some(tx);
    }
  }

  /** Bytes that were signed for a generation that is abandoned by now are never sent: if the same
      bytes ever are, another generation has recorded them. */
  lemma AbandonedNeverSent(states: Run, i: nat, j: nat, p: Proc, call: Call, tx: Tx)
    requires i <= j < |states|
    requires p in states[i].procs && states[i].procs[p].pc == Persisting(call, tx)
    requires call.work in states[i].db.rows && states[i].db.rows[call.work].outcome == AbandonedBeforeSubmission
    requires tx in states[j].sent
    ensures exists w :: w in states[j].db.rows && w != call.work && states[j].db.rows[w].tx == Some(tx)
  {
    RunIsLater(states, i, j);
    SettledInRun(states, j, call.work);
  }

  /** An abandoned generation stays without bytes, and nothing sent before or
      after is recorded under it. */
  lemma AbandonedNeverRecorded(states: Run, i: nat, j: nat, w: WorkKey)
    requires i <= j < |states|
    requires w in states[i].db.rows && states[i].db.rows[w].outcome == AbandonedBeforeSubmission
    ensures w in states[j].db.rows && states[j].db.rows[w].tx == None
    ensures EventsOf(states[j].db.log, w) == [Reserved, AbandonedBeforeSubmission]
  {
    RunIsLater(states, i, j);
    SettledInRun(states, i, w);
    var s := RunKeeps(states, j);
    assert LogOk(s.db);
  }

  /** The event log of a row is the one path that leads to its outcome, so its last
      event is the outcome column. */
  lemma LogTellsOutcome(states: Run, i: nat, w: WorkKey)
    requires i < |states| && w in states[i].db.rows
    ensures EventsOf(states[i].db.log, w) == PathTo(states[i].db.rows[w].outcome)
    ensures EventsOf(states[i].db.log, w) != []
    ensures var events := EventsOf(states[i].db.log, w); events[|events| - 1] == states[i].db.rows[w].outcome
  {
    var si := RunKeeps(states, i);
    assert LogOk(states[i].db);
  }

  /** A lock is never left behind: its holder has a live session and is inside the
      part of the program that releases it. */
  lemma LocksAreHeldByTheLiving(states: Run, i: nat, id: int)
    requires i < |states| && id in states[i].locks
    ensures var p := states[i].locks[id];
            p in states[i].procs && states[i].procs[p].connected && LockKey(states[i].procs[p].pc).Some?
  {
    var si := RunKeeps(states, i);
  }
}
