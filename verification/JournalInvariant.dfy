/** What every step of the journal protocol keeps. */
module JournalInvariant {
  import opened Wrappers
  import opened JournalProtocol

  // ----- the chain -----

  ghost predicate HasLanded(chain: seq<Block>, x: Landed) {
    exists i :: 0 <= i < |chain| && x in chain[i].landed
  }

  ghost predicate TxLanded(chain: seq<Block>, tx: Tx) {
    exists ok :: HasLanded(chain, Landed(tx, ok))
  }

  ghost predicate Past(chain: seq<Block>, height: nat) {
    chain != [] && height < chain[|chain| - 1].height
  }

  /** The transaction is on no block and no later block can take it. */
  ghost predicate Dead(chain: seq<Block>, tx: Tx) {
    Past(chain, tx.message.expiry) && !TxLanded(chain, tx)
  }

  ghost predicate ChainOk(chain: seq<Block>, sent: set<Tx>) {
    && Ordered(chain)
    && forall i, x :: 0 <= i < |chain| && x in chain[i].landed ==>
                        && x.tx in sent
                        && x.tx.message.notBefore <= chain[i].slot
                        && chain[i].height <= x.tx.message.expiry
  }

  // ----- the table -----

  ghost predicate RowOk(row: Row, chain: seq<Block>, logLength: nat) {
    && (row.tx.Some? <==> row.outcome != Reserved && row.outcome != AbandonedBeforeSubmission)
    && (row.tx.Some? ==> row.tx.value.message == row.message)
    && row.observedSlot <= row.message.notBefore
    && row.message.expiry <= row.lastValidHeight
    && row.created < logLength
    && (row.outcome == Executed ==> HasLanded(chain, Landed(row.tx.value, true)))
    && (row.outcome == Failed ==> HasLanded(chain, Landed(row.tx.value, false)))
    && (row.outcome == ExpiredAbsent ==> Dead(chain, row.tx.value))
  }

  /** Only the newest generation of a key can be pending. */
  ghost predicate Succession(rows: map<WorkKey, Row>) {
    && (forall v, w :: v in rows && w in rows && v != w ==> rows[v].created != rows[w].created)
    && (forall v, w :: v in rows && w in rows && rows[v].key == rows[w].key && rows[v].created < rows[w].created
                       ==> !rows[v].Pending())
  }

  function EventsOf(log: seq<Event>, work: WorkKey): seq<Outcome> {
    if log == [] then []
    else
      var earlier := EventsOf(log[..|log| - 1], work);
      var last := log[|log| - 1];
      if last.work == work then earlier + [last.phase] else earlier
  }

  /** The only event history an outcome can have. */
  function PathTo(outcome: Outcome): seq<Outcome> {
    match outcome
    case Reserved => [Reserved]
    case AbandonedBeforeSubmission => [Reserved, AbandonedBeforeSubmission]
    case SubmittedUnknown => [Reserved, SubmittedUnknown]
    case Executed => [Reserved, SubmittedUnknown, Executed]
    case Failed => [Reserved, SubmittedUnknown, Failed]
    case ExpiredAbsent => [Reserved, SubmittedUnknown, ExpiredAbsent]
  }

  ghost predicate LogOk(db: Db) {
    forall w :: EventsOf(db.log, w) == if w in db.rows then PathTo(db.rows[w].outcome) else []
  }

  ghost predicate Recorded(rows: map<WorkKey, Row>, tx: Tx) {
    exists w :: w in rows && rows[w].tx == Some(tx)
  }

  ghost predicate RowsOk(db: Db, chain: seq<Block>) {
    forall w :: w in db.rows ==> RowOk(db.rows[w], chain, |db.log|)
  }

  /** Write-ahead: whatever was sent is in a row. */
  ghost predicate SentOk(rows: map<WorkKey, Row>, sent: set<Tx>) {
    forall tx :: tx in sent ==> Recorded(rows, tx)
  }

  ghost predicate TableOk(db: Db, chain: seq<Block>, sent: set<Tx>) {
    RowsOk(db, chain) && Succession(db.rows) && LogOk(db) && SentOk(db.rows, sent)
  }

  // ----- the processes -----

  ghost predicate Known(rows: map<WorkKey, Row>, todo: seq<WorkKey>) {
    forall w :: w in todo ==> w in rows
  }

  ghost predicate RestKnown(rows: map<WorkKey, Row>, rest: Option<seq<WorkKey>>) {
    rest.Some? ==> Known(rows, rest.value)
  }

  ghost predicate ClaimOk(rows: map<WorkKey, Row>, connected: bool, c: Claim) {
    && c.work in rows
    && rows[c.work].key == c.key
    && rows[c.work].tx == Some(c.tx)
    && rows[c.work].observedSlot == c.slot
    && rows[c.work].lastValidHeight == c.height
    && RestKnown(rows, c.rest)
    && (connected ==> rows[c.work].outcome == SubmittedUnknown)
  }

  /** What the finalized-history scan has established so far. */
  ghost predicate Scanned(chain: seq<Block>, c: Claim, finalSlot: nat, next: nat, blocks: seq<nat>) {
    && Past(chain, c.height)
    && finalSlot <= chain[|chain| - 1].slot
    && (forall i :: 0 <= i < |chain| && chain[i].height <= c.height ==> chain[i].slot <= finalSlot)
    && (forall i :: 0 <= i < |chain| && c.slot <= chain[i].slot < next && chain[i].slot <= finalSlot
                    && chain[i].slot !in blocks
                    ==> !chain[i].HasSignature(c.tx.signature))
    && (forall k :: 0 <= k < |blocks| ==> blocks[k] <= finalSlot)
    && (forall k :: 0 <= k < |blocks| - 1 ==> blocks[k] < blocks[k + 1])
  }

  /** Every block up to the final slot is one the process has been shown. */
  ghost predicate Shown(chain: seq<Block>, finalSlot: nat, view: nat) {
    forall i :: 0 <= i < |chain| && chain[i].slot <= finalSlot ==> i < view
  }

  ghost predicate Finishable(row: Row, chain: seq<Block>, outcome: Outcome) {
    match outcome
    case AbandonedBeforeSubmission => row.outcome == Reserved
    case Executed => row.outcome == SubmittedUnknown && row.tx.Some? && HasLanded(chain, Landed(row.tx.value, true))
    case Failed => row.outcome == SubmittedUnknown && row.tx.Some? && HasLanded(chain, Landed(row.tx.value, false))
    case ExpiredAbsent => row.outcome == SubmittedUnknown && row.tx.Some? && Dead(chain, row.tx.value)
    case Reserved => false
    case SubmittedUnknown => false
  }

  /** A call whose reservation this process committed; while its session lives
      nobody else has touched the row. */
  ghost predicate OwnsReservation(rows: map<WorkKey, Row>, connected: bool, call: Call) {
    && call.work in rows
    && rows[call.work].key == call.key
    && rows[call.work].message == call.message
    && (connected ==> rows[call.work].outcome == Reserved)
  }

  ghost predicate NothingPending(rows: map<WorkKey, Row>, key: Key) {
    forall w :: w in rows && rows[w].key == key ==> !rows[w].Pending()
  }

  ghost predicate CallOk(call: Call) {
    call.slot <= call.message.notBefore && call.message.expiry <= call.height
  }

  /** What a process at a program point may rely on, whatever the others do. */
  ghost predicate PcOk(rows: map<WorkKey, Row>, chain: seq<Block>, l: Local) {
    match l.pc
    case Idle => true
    case Picking(todo) => Known(rows, todo)
    case Rereading(key, work, todo) => work in rows && rows[work].key == key && Known(rows, todo)
    case AskStatus(c) => ClaimOk(rows, l.connected, c)
    case AskHeight(c) => ClaimOk(rows, l.connected, c)
    case AskSlot(c) => ClaimOk(rows, l.connected, c) && 0 < l.view <= |chain| && c.height < chain[l.view - 1].height
    case Scanning(c, finalSlot, next, blocks, checked, sawTip) =>
      && ClaimOk(rows, l.connected, c)
      && Scanned(chain, c, finalSlot, next, blocks)
      && Shown(chain, finalSlot, l.view)
    case Querying(call) => CallOk(call)
    case AskSubmitStatus(c) => ClaimOk(rows, l.connected, c)
    case Rebroadcasting(c) => ClaimOk(rows, l.connected, c)
    case Reserving(call) => CallOk(call) && (l.connected ==> NothingPending(rows, call.key))
    case Signing(call) => OwnsReservation(rows, l.connected, call)
    case Persisting(call, tx) => OwnsReservation(rows, l.connected, call) && tx.message == call.message
    case Sending(key, tx) => Recorded(rows, tx)
    case AskReceipt(c) => ClaimOk(rows, l.connected, c)
    case Committing(key, work, outcome, rest) =>
      && work in rows
      && rows[work].key == key
      && RestKnown(rows, rest)
      && (l.connected ==> Finishable(rows[work], chain, outcome))
    case Unlocking(key, rest) => RestKnown(rows, rest)
  }

  ghost predicate Holds(s: State, p: Proc, key: Key) {
    s.lockId(key) in s.locks && s.locks[s.lockId(key)] == p
  }

  ghost predicate LockOk(s: State, p: Proc, l: Local) {
    l.connected && LockKey(l.pc).Some? ==> Holds(s, p, LockKey(l.pc).value)
  }

  ghost predicate LocalOk(s: State, p: Proc)
    requires p in s.procs
  {
    && s.procs[p].view <= |s.chain|
    && LockOk(s, p, s.procs[p])
    && PcOk(s.db.rows, s.chain, s.procs[p])
  }

  /** A lock is held only by a live session, at a program point that wants it. */
  ghost predicate LocksOk(s: State) {
    forall id :: id in s.locks ==>
                   && s.Knows(s.locks[id], true)
                   && LockKey(s.procs[s.locks[id]].pc).Some?
                   && s.lockId(LockKey(s.procs[s.locks[id]].pc).value) == id
  }

  ghost predicate LocalsOk(s: State) {
    forall p :: p in s.procs ==> LocalOk(s, p)
  }

  ghost predicate Inv(s: State) {
    ChainOk(s.chain, s.sent) && TableOk(s.db, s.chain, s.sent) && LocksOk(s) && LocalsOk(s)
  }

  /** A state in which everything above holds. */
  type SafeState = s: State | Inv(s)
    ghost witness State(k => 0, Db(map[], []), map[], map[], {}, [])

  // ----- stability of the facts a process relies on -----

  /** A transaction for one key: no row goes, no recorded bytes change, and the
      rows of other keys are untouched. */
  ghost predicate DbAdvance(rows: map<WorkKey, Row>, rows': map<WorkKey, Row>, key: Key) {
    && (forall w :: w in rows ==>
                      && w in rows'
                      && rows'[w].key == rows[w].key
                      && rows'[w].message == rows[w].message
                      && rows'[w].observedSlot == rows[w].observedSlot
                      && rows'[w].lastValidHeight == rows[w].lastValidHeight
                      && (rows[w].tx.Some? ==> rows'[w].tx == rows[w].tx)
                      && (rows[w].key != key ==> rows'[w] == rows[w]))
    && (forall w :: w in rows' && w !in rows ==> rows'[w].key == key)
  }

  /** What a process knows of a key's rows survives transactions of other keys;
      what it knows without a session survives all of them. */
  lemma FactsSurviveTransaction(rows: map<WorkKey, Row>, rows': map<WorkKey, Row>, key: Key, chain: seq<Block>,
                                l: Local)
    requires PcOk(rows, chain, l)
    requires DbAdvance(rows, rows', key)
    requires l.connected ==> LockKey(l.pc) != Some(key)
    ensures PcOk(rows', chain, l)
  {
    if l.pc.Sending? {
      RecordSurvives(rows, rows', key, l.pc.signed);
    }
  }

  lemma RecordSurvives(rows: map<WorkKey, Row>, rows': map<WorkKey, Row>, key: Key, tx: Tx)
    requires Recorded(rows, tx) && DbAdvance(rows, rows', key)
    ensures Recorded(rows', tx)
  {
    var w :| w in rows && rows[w].tx == Some(tx);
    assert rows'[w].tx == Some(tx);
  }

  lemma OthersKeepLocks(s: State, s': State, p: Proc, q: Proc)
    requires LocksKept(s, s', p) && q in s.procs && q != p && LockOk(s, q, s.procs[q])
    ensures LockOk(s', q, s.procs[q])
  {
    if s.procs[q].connected && LockKey(s.procs[q].pc).Some? {
      var id := s.lockId(LockKey(s.procs[q].pc).value);
      assert id in s'.locks && s'.locks[id] == s.locks[id];
    }
  }

  /** The locks of everybody but `p` are where they were. */
  ghost predicate LocksKept(s: State, s': State, p: Proc) {
    && s'.lockId == s.lockId
    && forall id :: id in s.locks && s.locks[id] != p ==> id in s'.locks && s'.locks[id] == s.locks[id]
  }

  /** A step that moves only `p` (and the locks it takes or drops) keeps the rest. */
  lemma OnlyLocalStep(s: SafeState, s': State, p: Proc) returns (g: SafeState)
    requires s' == s.(locks := s'.locks, procs := s'.procs)
    requires p in s'.procs && s'.procs == s.procs[p := s'.procs[p]]
    requires LocksKept(s, s', p)
    requires LocksOk(s') && LocalOk(s', p)
    ensures g == s'
  {
    forall q | q in s'.procs
      ensures LocalOk(s', q)
    {
      if q != p {
        assert LocalOk(s, q);
        OthersKeepLocks(s, s', p, q);
      }
    }
    g := s';
  }

  lemma LockMovesWithPc(s: State, s': State, p: Proc)
    requires LocksOk(s) && p in s.procs && p in s'.procs
    requires s'.lockId == s.lockId && s'.locks == s.locks
    requires s'.procs == s.procs[p := s'.procs[p]]
    requires s'.procs[p].connected == s.procs[p].connected
    requires LockKey(s'.procs[p].pc) == LockKey(s.procs[p].pc)
    ensures LocksOk(s')
    ensures LockOk(s, p, s.procs[p]) ==> LockOk(s', p, s'.procs[p])
  {
  }

  /** A step of `p` alone that stays under the same lock. */
  ghost predicate Moved(s: State, s': State, p: Proc) {
    && p in s.procs && p in s'.procs
    && s' == s.(procs := s.procs[p := s'.procs[p]])
    && s'.procs[p].connected == s.procs[p].connected
    && LockKey(s'.procs[p].pc) == LockKey(s.procs[p].pc)
  }

  lemma MovedKeeps(s: SafeState, s': State, p: Proc) returns (g: SafeState)
    requires Moved(s, s', p) && LocalOk(s', p)
    ensures g == s'
  {
    LockMovesWithPc(s, s', p);
    g := OnlyLocalStep(s, s', p);
  }

  // ----- local steps -----

  lemma ConnectKeeps(s: SafeState, p: Proc, s': State) returns (g: SafeState)
    requires ConnectStep(s, p, s')
    ensures g == s'
  {
    g := OnlyLocalStep(s, s', p);
  }

  lemma DisconnectKeeps(s: SafeState, p: Proc, s': State) returns (g: SafeState)
    requires (DisconnectStep(s, p, s') || CrashStep(s, p, s'))
    ensures g == s'
  {
    g := OnlyLocalStep(s, s', p);
  }

  lemma CallFailsLocal(s: State, p: Proc, s': State)
    requires p in s.procs && LocalOk(s, p) && CallFailsStep(s, p, s')
    ensures Moved(s, s', p) && LocalOk(s', p)
  {
  }

  lemma UnlockKeeps(s: SafeState, p: Proc, s': State) returns (g: SafeState)
    requires UnlockStep(s, p, s')
    ensures g == s'
  {
    g := OnlyLocalStep(s, s', p);
  }

  lemma DiscoverLocal(s: State, p: Proc, revision: string, todo: seq<WorkKey>, s': State)
    requires p in s.procs && LocalOk(s, p) && DiscoverStep(s, p, revision, todo, s')
    ensures Moved(s, s', p) && LocalOk(s', p)
  {
  }

  lemma TryWorkKeeps(s: SafeState, p: Proc, s': State) returns (g: SafeState)
    requires TryWorkStep(s, p, s')
    ensures g == s'
  {
    g := OnlyLocalStep(s, s', p);
  }

  lemma RereadLocal(s: State, p: Proc, s': State)
    requires p in s.procs && LocalOk(s, p) && RereadStep(s, p, s')
    requires RowsOk(s.db, s.chain)
    ensures Moved(s, s', p) && LocalOk(s', p)
  {
    var work := s.procs[p].pc.work;
    assert RowOk(s.db.rows[work], s.chain, |s.db.log|);
  }

  lemma ReadStatusLocal(s: State, p: Proc, v: nat, finalized: bool, s': State)
    requires p in s.procs && LocalOk(s, p) && ReadStatusStep(s, p, v, finalized, s')
    ensures Moved(s, s', p) && LocalOk(s', p)
  {
  }

  lemma ReadHeightLocal(s: State, p: Proc, v: nat, s': State)
    requires p in s.procs && LocalOk(s, p) && ReadHeightStep(s, p, v, s')
    ensures Moved(s, s', p) && LocalOk(s', p)
  {
  }

  /** The height was read before the slot, so whatever lies at or below the last
      valid height lies at or below the slot. */
  lemma SlotBoundsHeight(chain: seq<Block>, c: Claim, view: nat, v: nat)
    requires Ordered(chain) && 0 < view <= v <= |chain| && c.height < chain[view - 1].height
    ensures Scanned(chain, c, chain[v - 1].slot, c.slot, [])
    ensures Shown(chain, chain[v - 1].slot, v)
  {
    assert chain[view - 1].height <= chain[|chain| - 1].height;
    assert chain[v - 1].slot <= chain[|chain| - 1].slot;
  }

  lemma ReadSlotLocal(s: State, p: Proc, v: nat, s': State)
    requires p in s.procs && LocalOk(s, p) && ReadSlotStep(s, p, v, s')
    requires Ordered(s.chain)
    ensures Moved(s, s', p) && LocalOk(s', p)
  {
    SlotBoundsHeight(s.chain, s.procs[p].pc.claim, s.procs[p].view, v);
  }

  /** A well-formed, complete answer extends the scanned range by its window. */
  lemma WindowExtendsScan(chain: seq<Block>, c: Claim, finalSlot: nat, next: nat, v: nat, view: nat, answer: seq<nat>)
    requires Scanned(chain, c, finalSlot, next, []) && Shown(chain, finalSlot, view) && view <= v <= |chain|
    requires next <= finalSlot
    requires WellFormed(answer, next, Min(next + (WINDOW - 1), finalSlot))
    requires Complete(answer, chain[..v], next, Min(next + (WINDOW - 1), finalSlot))
    ensures Scanned(chain, c, finalSlot, next + WINDOW, answer)
  {
    forall i | 0 <= i < |chain| && next <= chain[i].slot < next + WINDOW && chain[i].slot <= finalSlot
      ensures chain[i].slot in answer
    {
      assert chain[..v][i] == chain[i];
    }
  }

  lemma ReadWindowLocal(s: State, p: Proc, v: nat, answer: seq<nat>, s': State)
    requires p in s.procs && LocalOk(s, p) && ReadWindowStep(s, p, v, answer, s')
    ensures Moved(s, s', p) && LocalOk(s', p)
  {
    var pc := s.procs[p].pc;
    if s'.procs[p].pc.Scanning? {
      WindowExtendsScan(s.chain, pc.claim, pc.finalSlot, pc.next, v, s.procs[p].view, answer);
    }
  }

  /** A block without the signature leaves the list of blocks still to read. */
  lemma BlockExtendsScan(chain: seq<Block>, c: Claim, finalSlot: nat, next: nat, blocks: seq<nat>, index: nat)
    requires Ordered(chain) && Scanned(chain, c, finalSlot, next, blocks) && blocks != []
    requires index < |chain| && chain[index].slot == blocks[0] && !chain[index].HasSignature(c.tx.signature)
    ensures Scanned(chain, c, finalSlot, next, blocks[1..])
  {
    forall i | 0 <= i < |chain| && c.slot <= chain[i].slot < next && chain[i].slot <= finalSlot
               && chain[i].slot !in blocks[1..]
      ensures !chain[i].HasSignature(c.tx.signature)
    {
      if chain[i].slot == blocks[0] {
        assert i == index;
      } else {
        assert blocks == [blocks[0]] + blocks[1..];
      }
    }
  }

  lemma ReadBlockLocal(s: State, p: Proc, v: nat, index: nat, s': State)
    requires p in s.procs && LocalOk(s, p) && ReadBlockStep(s, p, v, index, s')
    requires Ordered(s.chain)
    ensures Moved(s, s', p) && LocalOk(s', p)
  {
    var pc := s.procs[p].pc;
    if s'.procs[p].pc.Scanning? {
      BlockExtendsScan(s.chain, pc.claim, pc.finalSlot, pc.next, pc.blocks, index);
    }
  }

  lemma LandedWithinScan(chain: seq<Block>, sent: set<Tx>, c: Claim, finalSlot: nat, next: nat, x: Landed)
    requires ChainOk(chain, sent)
    requires Scanned(chain, c, finalSlot, next, [])
    requires c.slot <= c.tx.message.notBefore && c.tx.message.expiry <= c.height
    requires x.tx == c.tx && HasLanded(chain, x)
    ensures next <= finalSlot
  {
    var i :| 0 <= i < |chain| && x in chain[i].landed;
    assert chain[i].HasSignature(c.tx.signature);
  }

  /** A complete scan leaves the transaction no block to be on. */
  lemma ScanProvesAbsence(chain: seq<Block>, sent: set<Tx>, c: Claim, finalSlot: nat, next: nat)
    requires ChainOk(chain, sent)
    requires Scanned(chain, c, finalSlot, next, []) && finalSlot < next
    requires c.slot <= c.tx.message.notBefore && c.tx.message.expiry <= c.height
    ensures Dead(chain, c.tx)
  {
    forall ok
      ensures !HasLanded(chain, Landed(c.tx, ok))
    {
      if HasLanded(chain, Landed(c.tx, ok)) {
        LandedWithinScan(chain, sent, c, finalSlot, next, Landed(c.tx, ok));
        assert false;
      }
    }
  }

  lemma ReadTipLocal(s: State, p: Proc, s': State)
    requires p in s.procs && LocalOk(s, p) && ReadTipStep(s, p, s')
    requires ChainOk(s.chain, s.sent) && RowsOk(s.db, s.chain)
    ensures Moved(s, s', p) && LocalOk(s', p)
  {
    var pc := s.procs[p].pc;
    assert RowOk(s.db.rows[pc.claim.work], s.chain, |s.db.log|);
    ScanProvesAbsence(s.chain, s.sent, pc.claim, pc.finalSlot, pc.next);
  }

  lemma ReadReceiptLocal(s: State, p: Proc, v: nat, index: nat, receipt: Landed, s': State)
    requires p in s.procs && LocalOk(s, p) && ReadReceiptStep(s, p, v, index, receipt, s')
    ensures Moved(s, s', p) && LocalOk(s', p)
  {
    assert HasLanded(s.chain, receipt);
    assert receipt == Landed(receipt.tx, receipt.ok);
  }

  lemma SubmitKeeps(s: SafeState, p: Proc, call: Call, s': State) returns (g: SafeState)
    requires SubmitStep(s, p, call, s')
    ensures g == s'
  {
    g := OnlyLocalStep(s, s', p);
  }

  lemma QueryLocal(s: State, p: Proc, found: Option<WorkKey>, s': State)
    requires p in s.procs && LocalOk(s, p) && QueryStep(s, p, found, s')
    requires RowsOk(s.db, s.chain)
    ensures Moved(s, s', p) && LocalOk(s', p)
  {
    if found.Some? {
      assert RowOk(s.db.rows[found.value], s.chain, |s.db.log|);
    }
  }

  lemma SignLocal(s: State, p: Proc, signature: string, s': State)
    requires p in s.procs && LocalOk(s, p) && SignStep(s, p, signature, s')
    ensures Moved(s, s', p) && LocalOk(s', p)
  {
  }

  // ----- steps that send -----

  /** Sending what a row already records keeps everything. */
  lemma SendRecorded(s: SafeState, p: Proc, key: Key, tx: Tx, s': State) returns (g: SafeState)
    requires p in s.procs && LockKey(s.procs[p].pc) == Some(key)
    requires Recorded(s.db.rows, tx)
    requires s' == s.Goto(p, Unlocking(key, None)).(sent := s.sent + {tx})
    ensures g == s'
  {
    LockMovesWithPc(s, s', p);
    assert ChainOk(s'.chain, s'.sent);
    assert SentOk(s'.db.rows, s'.sent);
    forall q | q in s'.procs
      ensures LocalOk(s', q)
    {
      assert LocalOk(s, q);
      if q != p {
        OthersKeepLocks(s, s', p, q);
      }
    }
    g := s';
  }

  lemma SendKeeps(s: SafeState, p: Proc, s': State) returns (g: SafeState)
    requires SendStep(s, p, s')
    ensures g == s'
  {
    assert LocalOk(s, p);
    g := SendRecorded(s, p, s.procs[p].pc.key, s.procs[p].pc.signed, s');
  }

  lemma RebroadcastKeeps(s: SafeState, p: Proc, s': State) returns (g: SafeState)
    requires RebroadcastStep(s, p, s')
    ensures g == s'
  {
    assert LocalOk(s, p);
    var c := s.procs[p].pc.claim;
    assert s.db.rows[c.work].tx == Some(c.tx);
    g := SendRecorded(s, p, c.key, c.tx, s');
  }

  // ----- database transactions -----

  lemma EventsOfAppend(log: seq<Event>, e: Event, work: WorkKey)
    ensures EventsOf(log + [e], work) == EventsOf(log, work) + (if e.work == work then [e.phase] else [])
  {
    assert (log + [e])[..|log|] == log;
  }

  /** A transaction under the lock of `key` cannot disturb anybody else: whoever
      has a live session at a point for the same key would hold the same lock. */
  lemma TransactionKeepsOthers(s: SafeState, s': State, p: Proc, key: Key)
    requires s.Knows(p, true) && LockKey(s.procs[p].pc) == Some(key)
    requires s' == s.(db := s'.db, procs := s'.procs)
    requires p in s'.procs && s'.procs == s.procs[p := s'.procs[p]]
    requires s'.procs[p].connected && LockKey(s'.procs[p].pc) == Some(key)
    requires DbAdvance(s.db.rows, s'.db.rows, key)
    requires LocalOk(s', p)
    ensures LocksOk(s') && LocalsOk(s')
  {
    LockMovesWithPc(s, s', p);
    assert LocalOk(s, p);
    forall q | q in s.procs && q != p
      ensures LocalOk(s', q)
    {
      assert LocalOk(s, q);
      FactsSurviveTransaction(s.db.rows, s'.db.rows, key, s.chain, s.procs[q]);
      OthersKeepLocks(s, s', p, q);
    }
  }

  lemma LogAfter(db: Db, work: WorkKey, row: Row)
    requires LogOk(db)
    requires PathTo(row.outcome) == (if work in db.rows then PathTo(db.rows[work].outcome) else []) + [row.outcome]
    ensures LogOk(Db(db.rows[work := row], db.log + [Event(work, row.outcome)]))
  {
    var db' := Db(db.rows[work := row], db.log + [Event(work, row.outcome)]);
    forall w
      ensures EventsOf(db'.log, w) == if w in db'.rows then PathTo(db'.rows[w].outcome) else []
    {
      EventsOfAppend(db.log, Event(work, row.outcome), w);
    }
  }

  lemma SentAfter(rows: map<WorkKey, Row>, rows': map<WorkKey, Row>, key: Key, sent: set<Tx>)
    requires SentOk(rows, sent) && DbAdvance(rows, rows', key)
    ensures SentOk(rows', sent)
  {
    forall tx | tx in sent
      ensures Recorded(rows', tx)
    {
      RecordSurvives(rows, rows', key, tx);
    }
  }

  /** Updating one row the way the journal does keeps the table consistent. */
  lemma TableAfterUpdate(db: Db, chain: seq<Block>, sent: set<Tx>, work: WorkKey, row: Row)
    requires TableOk(db, chain, sent) && work in db.rows
    requires row == db.rows[work].(tx := row.tx, outcome := row.outcome)
    requires db.rows[work].tx.Some? ==> row.tx == db.rows[work].tx
    requires db.rows[work].Pending()
    requires RowOk(row, chain, |db.log|)
    requires PathTo(row.outcome) == PathTo(db.rows[work].outcome) + [row.outcome]
    ensures TableOk(Db(db.rows[work := row], db.log + [Event(work, row.outcome)]), chain, sent)
    ensures DbAdvance(db.rows, db.rows[work := row], row.key)
  {
    LogAfter(db, work, row);
    SuccessionAfterUpdate(db.rows, work, row);
    SentAfter(db.rows, db.rows[work := row], row.key, sent);
  }

  lemma SuccessionAfterUpdate(rows: map<WorkKey, Row>, work: WorkKey, row: Row)
    requires Succession(rows) && work in rows && rows[work].Pending()
    requires row.key == rows[work].key && row.created == rows[work].created
    ensures Succession(rows[work := row])
  {
  }

  lemma TableAfterFinish(db: Db, chain: seq<Block>, sent: set<Tx>, work: WorkKey, outcome: Outcome)
    requires TableOk(db, chain, sent) && work in db.rows && Finishable(db.rows[work], chain, outcome)
    ensures TableOk(FinishRow(db, work, outcome), chain, sent)
    ensures DbAdvance(db.rows, FinishRow(db, work, outcome).rows, db.rows[work].key)
  {
    assert RowOk(db.rows[work], chain, |db.log|);
    TableAfterUpdate(db, chain, sent, work, db.rows[work].(outcome := outcome));
  }

  lemma CommitKeeps(s: SafeState, p: Proc, s': State) returns (g: SafeState)
    requires CommitStep(s, p, s')
    ensures g == s'
  {
    assert LocalOk(s, p);
    var pc := s.procs[p].pc;
    TableAfterFinish(s.db, s.chain, s.sent, pc.work, pc.outcome);
    assert LocalOk(s', p) by {
      FactsSurviveTransaction(s.db.rows, s'.db.rows, pc.key, s.chain, Local(false, s'.procs[p].pc, 0));
    }
    TransactionKeepsOthers(s, s', p, pc.key);
    g := s';
  }

  lemma PersistKeeps(s: SafeState, p: Proc, s': State) returns (g: SafeState)
    requires PersistStep(s, p, s')
    ensures g == s'
  {
    assert LocalOk(s, p);
    var Persisting(call, tx) := s.procs[p].pc;
    var row := s.db.rows[call.work];
    assert RowOk(row, s.chain, |s.db.log|);
    TableAfterUpdate(s.db, s.chain, s.sent, call.work, row.(tx := Some(tx), outcome := SubmittedUnknown));
    assert LocalOk(s', p) by {
      assert s'.db.rows[call.work].tx == Some(tx);
    }
    TransactionKeepsOthers(s, s', p, call.key);
    g := s';
  }

  /** A new generation starts only when nothing is pending for its key. */
  lemma TableAfterReserve(db: Db, chain: seq<Block>, sent: set<Tx>, call: Call)
    requires TableOk(db, chain, sent) && NothingPending(db.rows, call.key) && call.work !in db.rows && CallOk(call)
    ensures TableOk(ReserveRow(db, call.work, call.key, call.message, call.slot, call.height), chain, sent)
    ensures DbAdvance(db.rows, ReserveRow(db, call.work, call.key, call.message, call.slot, call.height).rows, call.key)
  {
    var db' := ReserveRow(db, call.work, call.key, call.message, call.slot, call.height);
    RowsAfterReserve(db, chain, call);
    LogAfter(db, call.work, db'.rows[call.work]);
    SentAfter(db.rows, db'.rows, call.key, sent);
    SuccessionAfterReserve(db, chain, call);
  }

  lemma RowsAfterReserve(db: Db, chain: seq<Block>, call: Call)
    requires RowsOk(db, chain) && call.work !in db.rows && CallOk(call)
    ensures var db' := ReserveRow(db, call.work, call.key, call.message, call.slot, call.height);
            RowsOk(db', chain) && DbAdvance(db.rows, db'.rows, call.key)
  {
    var db' := ReserveRow(db, call.work, call.key, call.message, call.slot, call.height);
    forall w | w in db'.rows ensures RowOk(db'.rows[w], chain, |db'.log|) {
      assert w in db.rows ==> RowOk(db.rows[w], chain, |db.log|);
    }
  }

  lemma SuccessionAfterReserve(db: Db, chain: seq<Block>, call: Call)
    requires RowsOk(db, chain) && Succession(db.rows) && NothingPending(db.rows, call.key) && call.work !in db.rows
    ensures Succession(ReserveRow(db, call.work, call.key, call.message, call.slot, call.height).rows)
  {
  }

  lemma ReserveKeeps(s: SafeState, p: Proc, s': State) returns (g: SafeState)
    requires ReserveStep(s, p, s')
    ensures g == s'
  {
    if s'.procs[p].pc.Signing? {
      g := ReservedKeeps(s, p, s');
    } else {
      g := NotReservedKeeps(s, p, s');
    }
  }

  lemma NotReservedKeeps(s: SafeState, p: Proc, s': State) returns (g: SafeState)
    requires s.Knows(p, true) && s.procs[p].pc.Reserving? && s' == s.Goto(p, Unlocking(s.procs[p].pc.call.key, None))
    ensures g == s'
  {
    LockMovesWithPc(s, s', p);
    g := OnlyLocalStep(s, s', p);
  }

  lemma ReservedKeeps(s: SafeState, p: Proc, s': State) returns (g: SafeState)
    requires s.Knows(p, true) && s.procs[p].pc.Reserving?
    requires s.procs[p].pc.call.work !in s.db.rows
    requires var call := s.procs[p].pc.call;
             s' == s.Goto(p, Signing(call)).(
                     db := ReserveRow(s.db, call.work, call.key, call.message, call.slot, call.height))
    ensures g == s'
  {
    assert LocalOk(s, p);
    var call := s.procs[p].pc.call;
    TableAfterReserve(s.db, s.chain, s.sent, call);
    assert LocalOk(s', p);
    TransactionKeepsOthers(s, s', p, call.key);
    g := s';
  }

  // ----- the chain grows -----

  lemma FinalizeKeeps(s: SafeState, block: Block, s': State) returns (g: SafeState)
    requires FinalizeStep(s, block, s')
    ensures g == s'
  {
    assert forall i :: 0 <= i < |s.chain| ==> s'.chain[i] == s.chain[i];
    forall w | w in s.db.rows
      ensures RowOk(s'.db.rows[w], s'.chain, |s'.db.log|)
    {
      assert RowOk(s.db.rows[w], s.chain, |s.db.log|);
      RowSurvivesBlock(s, block, s', w);
    }
    forall p | p in s'.procs
      ensures LocalOk(s', p)
    {
      assert LocalOk(s, p);
      LocalSurvivesBlock(s, block, s', p);
    }
    g := s';
  }

  lemma LandedStays(chain: seq<Block>, block: Block, x: Landed)
    requires HasLanded(chain, x)
    ensures HasLanded(chain + [block], x)
  {
    var i :| 0 <= i < |chain| && x in chain[i].landed;
    assert x in (chain + [block])[i].landed;
  }

  lemma DeadStays(s: State, block: Block, s': State, tx: Tx)
    requires FinalizeStep(s, block, s') && Dead(s.chain, tx)
    ensures Dead(s'.chain, tx)
  {
    forall ok
      ensures !HasLanded(s'.chain, Landed(tx, ok))
    {
      forall i | 0 <= i < |s'.chain|
        ensures Landed(tx, ok) !in s'.chain[i].landed
      {
        if i < |s.chain| {
          assert s'.chain[i] == s.chain[i];
          assert !HasLanded(s.chain, Landed(tx, ok));
        }
      }
    }
  }

  lemma RowSurvivesBlock(s: State, block: Block, s': State, w: WorkKey)
    requires FinalizeStep(s, block, s') && w in s.db.rows && RowOk(s.db.rows[w], s.chain, |s.db.log|)
    ensures RowOk(s.db.rows[w], s'.chain, |s.db.log|)
  {
    var row := s.db.rows[w];
    match row.outcome
    case Executed => LandedStays(s.chain, block, Landed(row.tx.value, true));
    case Failed => LandedStays(s.chain, block, Landed(row.tx.value, false));
    case ExpiredAbsent => DeadStays(s, block, s', row.tx.value);
    case _ =>
  }

  lemma LocalSurvivesBlock(s: State, block: Block, s': State, p: Proc)
    requires FinalizeStep(s, block, s') && p in s.procs && LocalOk(s, p)
    ensures LocalOk(s', p)
  {
    var l := s.procs[p];
    match l.pc
    case Committing(key, work, outcome, rest) =>
      if l.connected {
        var tx := s.db.rows[work].tx;
        match outcome
        case Executed => LandedStays(s.chain, block, Landed(tx.value, true));
        case Failed => LandedStays(s.chain, block, Landed(tx.value, false));
        case ExpiredAbsent => DeadStays(s, block, s', tx.value);
        case _ =>
      }
    case Scanning(c, finalSlot, next, blocks, checked, sawTip) =>
      assert forall i :: 0 <= i < |s.chain| ==> s'.chain[i] == s.chain[i];
    case _ =>
  }

  // ----- every step, every run -----

  ghost predicate RecoveryRead(a: Action) {
    a.Discover? || a.Reread? || a.ReadStatus? || a.ReadHeight? || a.ReadSlot? || a.ReadReceipt?
  }

  lemma RecoveryReadKeeps(s: SafeState, t: Transition) returns (g: SafeState)
    requires t.s == s && RecoveryRead(t.a)
    ensures g == t.s'
  {
    var a, s' := t.a, t.s';
    assert LocalOk(s, a.p);
    match a {
      case Discover(p, revision, todo) => DiscoverLocal(s, p, revision, todo, s');
      case Reread(p) => RereadLocal(s, p, s');
      case ReadStatus(p, v, finalized) => ReadStatusLocal(s, p, v, finalized, s');
      case ReadHeight(p, v) => ReadHeightLocal(s, p, v, s');
      case ReadSlot(p, v) => ReadSlotLocal(s, p, v, s');
      case ReadReceipt(p, v, index, receipt) => ReadReceiptLocal(s, p, v, index, receipt, s');
    }
    g := MovedKeeps(s, s', a.p);
  }

  ghost predicate ScanRead(a: Action) {
    a.ReadWindow? || a.ReadBlock? || a.ReadTip?
  }

  lemma ScanReadKeeps(s: SafeState, t: Transition) returns (g: SafeState)
    requires t.s == s && ScanRead(t.a)
    ensures g == t.s'
  {
    var a, s' := t.a, t.s';
    assert LocalOk(s, a.p);
    match a {
      case ReadWindow(p, v, answer) => ReadWindowLocal(s, p, v, answer, s');
      case ReadBlock(p, v, index) => ReadBlockLocal(s, p, v, index, s');
      case ReadTip(p) => ReadTipLocal(s, p, s');
    }
    g := MovedKeeps(s, s', a.p);
  }

  ghost predicate SessionOrLock(a: Action) {
    a.Connect? || a.Disconnect? || a.Crash? || a.CallFails? || a.Unlock? || a.TryWork? || a.Submit?
  }

  lemma SessionOrLockKeeps(s: SafeState, t: Transition) returns (g: SafeState)
    requires t.s == s && SessionOrLock(t.a)
    ensures g == t.s'
  {
    var s' := t.s';
    match t.a
    case Connect(p) => g := ConnectKeeps(s, p, s');
    case Disconnect(p) => g := DisconnectKeeps(s, p, s');
    case Crash(p) => g := DisconnectKeeps(s, p, s');
    case CallFails(p) =>
      CallFailsLocal(s, p, s');
      g := MovedKeeps(s, s', p);
    case Unlock(p) => g := UnlockKeeps(s, p, s');
    case TryWork(p) => g := TryWorkKeeps(s, p, s');
    case Submit(p, call) => g := SubmitKeeps(s, p, call, s');
  }

  /** Every step keeps the invariant. */
  lemma StepKeeps(s: SafeState, t: Transition) returns (g: SafeState)
    requires t.s == s
    ensures g == t.s'
  {
    var a, s' := t.a, t.s';
    if RecoveryRead(a) {
      g := RecoveryReadKeeps(s, t);
    } else if ScanRead(a) {
      g := ScanReadKeeps(s, t);
    } else if SessionOrLock(a) {
      g := SessionOrLockKeeps(s, t);
    } else {
      match a
      case Query(p, found) =>
        assert LocalOk(s, p);
        QueryLocal(s, p, found, s');
        g := MovedKeeps(s, s', p);
      case Sign(p, signature) =>
        assert LocalOk(s, p);
        SignLocal(s, p, signature, s');
        g := MovedKeeps(s, s', p);
      case Commit(p) => g := CommitKeeps(s, p, s');
      case Reserve(p) => g := ReserveKeeps(s, p, s');
      case Persist(p) => g := PersistKeeps(s, p, s');
      case Rebroadcast(p) => g := RebroadcastKeeps(s, p, s');
      case Send(p) => g := SendKeeps(s, p, s');
      case Finalize(block) => g := FinalizeKeeps(s, block, s');
    }
  }

  lemma RunStep(states: Run, i: nat) returns (t: Transition)
    requires i + 1 < |states|
    ensures t.s == states[i] && t.s' == states[i + 1]
  {
    assert StepsFrom(states, i);
    var a :| Step(states[i], a, states[i + 1]);
    t := TransitionData(states[i], a, states[i + 1]);
  }

  /** Every state of every run satisfies the invariant. */
  lemma {:induction false} RunKeeps(states: Run, i: nat) returns (s: SafeState)
    requires i < |states|
    ensures s == states[i]
  {
    if i == 0 {
      s := states[0];
    } else {
      var before := RunKeeps(states, i - 1);
      var t := RunStep(states, i - 1);
      s := StepKeeps(before, t);
    }
  }
}
