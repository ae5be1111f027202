/**
 The durable submission journal as a distributed protocol.

 Any number of keeper processes share one table of submission generations, its
 event log and the session advisory locks of the database, and talk to a node
 that serves finalized chain data.  One step is one database transaction, one
 RPC call, one local signature, the loss of a session, a crash, or the
 finalization of one more block; steps of different processes interleave freely.
 */
module JournalProtocol {
  import opened Wrappers

  type Proc = nat
  type WorkKey = string

  /** What a lock protects and what at most one generation may be pending for. */
  datatype Key = Key(revision: string, position: string, side: nat)

  /** `notBefore` and `expiry` are the chain's own bounds on where it can land. */
  datatype Message = Message(body: string, notBefore: nat, expiry: nat)

  datatype Tx = Tx(signature: string, message: Message)

  datatype Outcome =
    | Reserved
    | SubmittedUnknown
    | AbandonedBeforeSubmission
    | Executed
    | Failed
    | ExpiredAbsent

  /** A row of keeper_flash_work; `created` orders rows as created_at does. */
  datatype Row = Row(key: Key, message: Message, observedSlot: nat, lastValidHeight: nat,
                     tx: Option<Tx>, outcome: Outcome, created: nat)
  {
    predicate Pending() { outcome == Reserved || outcome == SubmittedUnknown }
  }

  datatype Event = Event(work: WorkKey, phase: Outcome)

  datatype Db = Db(rows: map<WorkKey, Row>, log: seq<Event>)

  datatype Landed = Landed(tx: Tx, ok: bool)

  /** A finalized block: the keepers' own transactions and everybody else's signatures. */
  datatype Block = Block(slot: nat, height: nat, landed: set<Landed>, foreign: set<string>)
  {
    predicate HasSignature(signature: string) {
      signature in foreign || exists x :: x in landed && x.tx.signature == signature
    }
  }

  // ----- the three database transactions -----

  function ReserveRow(db: Db, work: WorkKey, key: Key, message: Message, slot: nat, height: nat): Db {
    Db(db.rows[work := Row(key, message, slot, height, None, Reserved, |db.log|)],
       db.log + [Event(work, Reserved)])
  }

  function PersistRow(db: Db, work: WorkKey, tx: Tx): Db
    requires work in db.rows
  {
    Db(db.rows[work := db.rows[work].(tx := Some(tx), outcome := SubmittedUnknown)],
       db.log + [Event(work, SubmittedUnknown)])
  }

  function FinishRow(db: Db, work: WorkKey, outcome: Outcome): Db
    requires work in db.rows
  {
    Db(db.rows[work := db.rows[work].(outcome := outcome)],
       db.log + [Event(work, outcome)])
  }

  // ----- processes -----

  const I64_LIMIT: nat := 0x8000_0000_0000_0000
  const MAX_HISTORY: nat := 100_000
  const WINDOW: nat := 500
  const MAX_WORK: nat := 100

  /** The arguments of `submit`. */
  datatype Call = Call(key: Key, work: WorkKey, message: Message, slot: nat, height: nat)

  /** A pending row with a signature, as read under its lock.  `rest` is the
      work still to recover afterwards, or None when the call returns. */
  datatype Claim = Claim(key: Key, work: WorkKey, tx: Tx, slot: nat, height: nat, rest: Option<seq<WorkKey>>)

  datatype Pc =
    | Idle
    // recover
    | Picking(todo: seq<WorkKey>)
    | Rereading(key: Key, work: WorkKey, todo: seq<WorkKey>)
    | AskStatus(claim: Claim)
    | AskHeight(claim: Claim)
    | AskSlot(claim: Claim)
    | Scanning(claim: Claim, finalSlot: nat, next: nat, blocks: seq<nat>, checked: nat, sawTip: bool)
    // submit
    | Querying(call: Call)
    | AskSubmitStatus(claim: Claim)
    | Rebroadcasting(claim: Claim)
    | Reserving(call: Call)
    | Signing(call: Call)
    | Persisting(call: Call, signed: Tx)
    | Sending(key: Key, signed: Tx)
    // both
    | AskReceipt(claim: Claim)
    | Committing(key: Key, work: WorkKey, outcome: Outcome, rest: Option<seq<WorkKey>>)
    | Unlocking(key: Key, rest: Option<seq<WorkKey>>)

  /** The lock a program point holds while its session lives. */
  function LockKey(pc: Pc): Option<Key> {
    match pc
    case Idle => None
    case Picking(_) => None
    case Rereading(key, _, _) => Some(key)
    case AskStatus(c) => Some(c.key)
    case AskHeight(c) => Some(c.key)
    case AskSlot(c) => Some(c.key)
    case Scanning(c, _, _, _, _, _) => Some(c.key)
    case Querying(call) => Some(call.key)
    case AskSubmitStatus(c) => Some(c.key)
    case Rebroadcasting(c) => Some(c.key)
    case Reserving(call) => Some(call.key)
    case Signing(call) => Some(call.key)
    case Persisting(call, _) => Some(call.key)
    case Sending(key, _) => Some(key)
    case AskReceipt(c) => Some(c.key)
    case Committing(key, _, _, _) => Some(key)
    case Unlocking(key, _) => Some(key)
  }

  /** `view` is how much of the finalized chain the process has been shown. */
  datatype Local = Local(connected: bool, pc: Pc, view: nat)

  /** `lockId` is the 64-bit hash under which a key's advisory lock is taken. */
  datatype State = State(lockId: Key -> int, db: Db, locks: map<int, Proc>,
                         procs: map<Proc, Local>, sent: set<Tx>, chain: seq<Block>)
  {
    predicate Knows(p: Proc, connected: bool) {
      p in procs && procs[p].connected == connected
    }

    function Goto(p: Proc, pc: Pc): State
      requires p in procs
    {
      this.(procs := procs[p := procs[p].(pc := pc)])
    }

    /** As Goto, after an RPC answer computed from the first `v` finalized blocks. */
    function Seen(p: Proc, pc: Pc, v: nat): State
      requires p in procs
    {
      this.(procs := procs[p := procs[p].(pc := pc, view := v)])
    }

    function Release(p: Proc): map<int, Proc> {
      map id | id in locks && locks[id] != p :: locks[id]
    }

    /** A node's answers never go backwards for one client. */
    predicate Fresh(p: Proc, v: nat) {
      p in procs && procs[p].view <= v <= |chain|
    }
  }

  // ----- steps -----

  datatype Action =
    | Connect(p: Proc)
    | Disconnect(p: Proc)
    | Crash(p: Proc)
    | CallFails(p: Proc)
    | Unlock(p: Proc)
    | Discover(p: Proc, revision: string, todo: seq<WorkKey>)
    | TryWork(p: Proc)
    | Reread(p: Proc)
    | ReadStatus(p: Proc, v: nat, finalized: bool)
    | ReadHeight(p: Proc, v: nat)
    | ReadSlot(p: Proc, v: nat)
    | ReadWindow(p: Proc, v: nat, answer: seq<nat>)
    | ReadBlock(p: Proc, v: nat, index: nat)
    | ReadTip(p: Proc)
    | ReadReceipt(p: Proc, v: nat, index: nat, receipt: Landed)
    | Commit(p: Proc)
    | Submit(p: Proc, call: Call)
    | Query(p: Proc, found: Option<WorkKey>)
    | Rebroadcast(p: Proc)
    | Reserve(p: Proc)
    | Sign(p: Proc, signature: string)
    | Persist(p: Proc)
    | Send(p: Proc)
    | Finalize(block: Block)

  ghost predicate Step(s: State, a: Action, s': State) {
    match a
    case Connect(p) => ConnectStep(s, p, s')
    case Disconnect(p) => DisconnectStep(s, p, s')
    case Crash(p) => CrashStep(s, p, s')
    case CallFails(p) => CallFailsStep(s, p, s')
    case Unlock(p) => UnlockStep(s, p, s')
    case Discover(p, revision, todo) => DiscoverStep(s, p, revision, todo, s')
    case TryWork(p) => TryWorkStep(s, p, s')
    case Reread(p) => RereadStep(s, p, s')
    case ReadStatus(p, v, finalized) => ReadStatusStep(s, p, v, finalized, s')
    case ReadHeight(p, v) => ReadHeightStep(s, p, v, s')
    case ReadSlot(p, v) => ReadSlotStep(s, p, v, s')
    case ReadWindow(p, v, answer) => ReadWindowStep(s, p, v, answer, s')
    case ReadBlock(p, v, index) => ReadBlockStep(s, p, v, index, s')
    case ReadTip(p) => ReadTipStep(s, p, s')
    case ReadReceipt(p, v, index, receipt) => ReadReceiptStep(s, p, v, index, receipt, s')
    case Commit(p) => CommitStep(s, p, s')
    case Submit(p, call) => SubmitStep(s, p, call, s')
    case Query(p, found) => QueryStep(s, p, found, s')
    case Rebroadcast(p) => RebroadcastStep(s, p, s')
    case Reserve(p) => ReserveStep(s, p, s')
    case Sign(p, signature) => SignStep(s, p, signature, s')
    case Persist(p) => PersistStep(s, p, s')
    case Send(p) => SendStep(s, p, s')
    case Finalize(block) => FinalizeStep(s, block, s')
  }

  // A process starts, or starts over, with a new session.
  ghost predicate ConnectStep(s: State, p: Proc, s': State) {
    && (p in s.procs ==> !s.procs[p].connected && s.procs[p].pc == Idle)
    && s' == s.(procs := s.procs[p := Local(true, Idle, 0)])
  }

  // The session dies and its locks with it; the process runs on until it next
  // needs the database.
  ghost predicate DisconnectStep(s: State, p: Proc, s': State) {
    && s.Knows(p, true)
    && s' == s.(locks := s.Release(p), procs := s.procs[p := s.procs[p].(connected := false)])
  }

  ghost predicate CrashStep(s: State, p: Proc, s': State) {
    && p in s.procs
    && s' == s.(locks := s.Release(p), procs := s.procs[p := Local(false, Idle, 0)])
  }

  // Any RPC or database call may fail; the closure returns and the lock goes.
  ghost predicate CallFailsStep(s: State, p: Proc, s': State) {
    && p in s.procs
    && LockKey(s.procs[p].pc).Some?
    && s' == s.Goto(p, Unlocking(LockKey(s.procs[p].pc).value, None))
  }

  ghost predicate UnlockStep(s: State, p: Proc, s': State) {
    && s.Knows(p, true)
    && s.procs[p].pc.Unlocking?
    && var rest := s.procs[p].pc.rest;
       s' == s.Goto(p, if rest.Some? then Picking(rest.value) else Idle).(locks := s.Release(p))
  }

  // recover: the work list is read before any lock is taken.
  ghost predicate DiscoverStep(s: State, p: Proc, revision: string, todo: seq<WorkKey>, s': State) {
    && s.Knows(p, true)
    && s.procs[p].pc == Idle
    && |todo| <= MAX_WORK
    && (forall w :: w in todo ==> w in s.db.rows && s.db.rows[w].Pending() && s.db.rows[w].key.revision == revision)
    && s' == s.Goto(p, Picking(todo))
  }

  ghost predicate TryWorkStep(s: State, p: Proc, s': State) {
    && s.Knows(p, true)
    && s.procs[p].pc.Picking?
    && var todo := s.procs[p].pc.todo;
       if todo == [] then
         s' == s.Goto(p, Idle)
       else
         && todo[0] in s.db.rows
         && var key := s.db.rows[todo[0]].key;
            if s.lockId(key) in s.locks then
              s' == s.Goto(p, Picking(todo[1..]))
            else
              s' == s.Goto(p, Rereading(key, todo[0], todo[1..])).(locks := s.locks[s.lockId(key) := p])
  }

  ghost predicate RereadStep(s: State, p: Proc, s': State) {
    && s.Knows(p, true)
    && s.procs[p].pc.Rereading?
    && var Rereading(key, work, todo) := s.procs[p].pc;
       s' == s.Goto(p,
                    if work !in s.db.rows || !s.db.rows[work].Pending() then
                      Unlocking(key, Some(todo))
                    else
                      var row := s.db.rows[work];
                      match row.tx
                      case None => Committing(key, work, AbandonedBeforeSubmission, Some(todo))
                      case Some(tx) => AskStatus(Claim(key, work, tx, row.observedSlot, row.lastValidHeight,
                                                       Some(todo))))
  }

  // A finalized status is true; any other status says nothing.
  ghost predicate ReadStatusStep(s: State, p: Proc, v: nat, finalized: bool, s': State) {
    && s.Fresh(p, v)
    && (s.procs[p].pc.AskStatus? || s.procs[p].pc.AskSubmitStatus?)
    && var c := s.procs[p].pc.claim;
       && (finalized ==> exists i :: 0 <= i < v && s.chain[i].HasSignature(c.tx.signature))
       && s' == s.Seen(p,
                       if finalized then AskReceipt(c)
                       else if s.procs[p].pc.AskStatus? then AskHeight(c)
                       else Rebroadcasting(c), v)
  }

  ghost predicate ReadHeightStep(s: State, p: Proc, v: nat, s': State) {
    && s.Fresh(p, v)
    && 0 < v
    && s.procs[p].pc.AskHeight?
    && var c := s.procs[p].pc.claim;
       s' == s.Seen(p, if s.chain[v - 1].height <= c.height then Unlocking(c.key, c.rest) else AskSlot(c), v)
  }

  ghost predicate ReadSlotStep(s: State, p: Proc, v: nat, s': State) {
    && s.Fresh(p, v)
    && 0 < v
    && s.procs[p].pc.AskSlot?
    && var c := s.procs[p].pc.claim;
       var finalSlot := s.chain[v - 1].slot;
       s' == s.Seen(p,
                    if finalSlot < c.slot || finalSlot - c.slot > MAX_HISTORY then Unlocking(c.key, None)
                    else Scanning(c, finalSlot, c.slot, [], 0, false), v)
  }

  predicate WellFormed(answer: seq<nat>, from: nat, to: nat) {
    && (forall i :: 0 <= i < |answer| - 1 ==> answer[i] < answer[i + 1])
    && (forall i :: 0 <= i < |answer| ==> from <= answer[i] <= to)
  }

  ghost predicate Complete(answer: seq<nat>, blocks: seq<Block>, from: nat, to: nat) {
    forall i :: 0 <= i < |blocks| && from <= blocks[i].slot <= to ==> blocks[i].slot in answer
  }

  function Min(a: nat, b: nat): nat { if a <= b then a else b }

  // getBlocks for the next window.  The code can tell a malformed answer; that a
  // well-formed one has no gap is the node's promise.
  ghost predicate ReadWindowStep(s: State, p: Proc, v: nat, answer: seq<nat>, s': State) {
    && s.Fresh(p, v)
    && s.procs[p].pc.Scanning?
    && var Scanning(c, finalSlot, next, blocks, checked, sawTip) := s.procs[p].pc;
       var to := Min(next + (WINDOW - 1), finalSlot);
       && blocks == []
       && next <= finalSlot
       && (WellFormed(answer, next, to) ==> Complete(answer, s.chain[..v], next, to))
       && s' == s.Seen(p,
                       if WellFormed(answer, next, to)
                       then Scanning(c, finalSlot, next + WINDOW, answer, checked, sawTip)
                       else Unlocking(c.key, None), v)
  }

  // getBlock for the first listed block of the window.
  ghost predicate ReadBlockStep(s: State, p: Proc, v: nat, index: nat, s': State) {
    && s.Fresh(p, v)
    && s.procs[p].pc.Scanning?
    && var Scanning(c, finalSlot, next, blocks, checked, sawTip) := s.procs[p].pc;
       && blocks != []
       && index < v
       && s.chain[index].slot == blocks[0]
       && s' == s.Seen(p,
                       if s.chain[index].HasSignature(c.tx.signature) then AskReceipt(c)
                       else Scanning(c, finalSlot, next, blocks[1..], checked + 1, sawTip || blocks[0] == finalSlot), v)
  }

  // The last block of the range once more, after which the scan is judged.
  ghost predicate ReadTipStep(s: State, p: Proc, s': State) {
    && p in s.procs
    && s.procs[p].pc.Scanning?
    && var Scanning(c, finalSlot, next, blocks, checked, sawTip) := s.procs[p].pc;
       && blocks == []
       && finalSlot < next
       && s' == s.Goto(p,
                       if checked == 0 || !sawTip then Unlocking(c.key, None)
                       else Committing(c.key, c.work, ExpiredAbsent, c.rest))
  }

  // getTransaction, then the recorded bytes from the database.
  ghost predicate ReadReceiptStep(s: State, p: Proc, v: nat, index: nat, receipt: Landed, s': State) {
    && s.Fresh(p, v)
    && s.procs[p].connected
    && s.procs[p].pc.AskReceipt?
    && var c := s.procs[p].pc.claim;
       && index < v
       && receipt in s.chain[index].landed
       && receipt.tx.signature == c.tx.signature
       && c.work in s.db.rows
       && s' == s.Seen(p,
                       if s.db.rows[c.work].tx != Some(receipt.tx) then Unlocking(c.key, None)
                       else Committing(c.key, c.work, if receipt.ok then Executed else Failed, c.rest), v)
  }

  // finish
  ghost predicate CommitStep(s: State, p: Proc, s': State) {
    && s.Knows(p, true)
    && s.procs[p].pc.Committing?
    && var Committing(key, work, outcome, rest) := s.procs[p].pc;
       && work in s.db.rows
       && s' == s.Goto(p, Unlocking(key, rest)).(db := FinishRow(s.db, work, outcome))
  }

  // submit: the recorded slot and height bound where the chain lets the message land.
  ghost predicate SubmitStep(s: State, p: Proc, call: Call, s': State) {
    && s.Knows(p, true)
    && s.procs[p].pc == Idle
    && s.lockId(call.key) !in s.locks
    && call.slot <= call.message.notBefore
    && call.message.expiry <= call.height
    && s' == s.Goto(p, Querying(call)).(locks := s.locks[s.lockId(call.key) := p])
  }

  ghost predicate QueryStep(s: State, p: Proc, found: Option<WorkKey>, s': State) {
    && s.Knows(p, true)
    && s.procs[p].pc.Querying?
    && var call := s.procs[p].pc.call;
       match found
       case Some(work) =>
         && work in s.db.rows
         && s.db.rows[work].key == call.key
         && s.db.rows[work].Pending()
         && s' == s.Goto(p,
                         match s.db.rows[work].tx
                         case None => Committing(call.key, work, AbandonedBeforeSubmission, None)
                         case Some(tx) => AskSubmitStatus(Claim(call.key, work, tx, s.db.rows[work].observedSlot,
                                                                s.db.rows[work].lastValidHeight, None)))
       case None =>
         && (forall w :: w in s.db.rows && s.db.rows[w].key == call.key ==> !s.db.rows[w].Pending())
         && s' == s.Goto(p, Reserving(call))
  }

  ghost predicate RebroadcastStep(s: State, p: Proc, s': State) {
    && p in s.procs
    && s.procs[p].pc.Rebroadcasting?
    && var c := s.procs[p].pc.claim;
       s' == s.Goto(p, Unlocking(c.key, None)).(sent := s.sent + {c.tx})
  }

  ghost predicate ReserveStep(s: State, p: Proc, s': State) {
    && s.Knows(p, true)
    && s.procs[p].pc.Reserving?
    && var call := s.procs[p].pc.call;
       s' == if call.work in s.db.rows || call.slot >= I64_LIMIT || call.height >= I64_LIMIT then
         s.Goto(p, Unlocking(call.key, None))
       else
         s.Goto(p, Signing(call)).(db := ReserveRow(s.db, call.work, call.key, call.message, call.slot, call.height))
  }

  // Signing is local: a process whose session is gone can still do it.
  ghost predicate SignStep(s: State, p: Proc, signature: string, s': State) {
    && p in s.procs
    && s.procs[p].pc.Signing?
    && var call := s.procs[p].pc.call;
       s' == s.Goto(p, Persisting(call, Tx(signature, call.message)))
  }

  ghost predicate PersistStep(s: State, p: Proc, s': State) {
    && s.Knows(p, true)
    && s.procs[p].pc.Persisting?
    && var Persisting(call, tx) := s.procs[p].pc;
       && call.work in s.db.rows
       && s' == s.Goto(p, Sending(call.key, tx)).(db := PersistRow(s.db, call.work, tx))
  }

  ghost predicate SendStep(s: State, p: Proc, s': State) {
    && p in s.procs
    && s.procs[p].pc.Sending?
    && var Sending(key, tx) := s.procs[p].pc;
       s' == s.Goto(p, Unlocking(key, None)).(sent := s.sent + {tx})
  }

  // The chain grows by one block; a keeper's transaction is in it only if it was
  // sent and the block lies within the transaction's own bounds.
  ghost predicate FinalizeStep(s: State, block: Block, s': State) {
    && (s.chain != [] ==> s.chain[|s.chain| - 1].slot < block.slot && s.chain[|s.chain| - 1].height < block.height)
    && (forall x :: x in block.landed ==>
          x.tx in s.sent && x.tx.message.notBefore <= block.slot && block.height <= x.tx.message.expiry)
    && s' == s.(chain := s.chain + [block])
  }

  // ----- runs -----

  ghost predicate Ordered(chain: seq<Block>) {
    forall i, j :: 0 <= i < j < |chain| ==> chain[i].slot < chain[j].slot && chain[i].height < chain[j].height
  }

  ghost predicate Init(s: State) {
    && s.db == Db(map[], [])
    && s.locks == map[]
    && s.procs == map[]
    && s.sent == {}
    && Ordered(s.chain)
    && (forall i :: 0 <= i < |s.chain| ==> s.chain[i].landed == {})
  }

  ghost predicate Next(s: State, s': State) {
    exists a :: Step(s, a, s')
  }

  ghost predicate StepsFrom(states: seq<State>, i: nat)
    requires i + 1 < |states|
  {
    Next(states[i], states[i + 1])
  }

  datatype TransitionData = TransitionData(s: State, a: Action, s': State)

  /** One step of the protocol. */
  type Transition = t: TransitionData | Step(t.s, t.a, t.s')
    ghost witness
      var s := State(k => 0, Db(map[], []), map[], map[], {}, []);
      TransitionData(s, Connect(0), s.(procs := map[0 := Local(true, Idle, 0)]))

  ghost predicate IsRun(states: seq<State>) {
    && |states| > 0
    && Init(states[0])
    && forall i :: 0 <= i < |states| - 1 ==> StepsFrom(states, i)
  }

  /** A run of any number of processes: an initial state and what the steps made of it. */
  type Run = states: seq<State> | IsRun(states)
    ghost witness [State(k => 0, Db(map[], []), map[], map[], {}, [])]
}
