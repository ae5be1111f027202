/**
 What the protocol can always do: a pending row whose fate is decided on the chain can be
 settled by one live process alone, and a key with nothing pending can be submitted for.
 The safety theorems would hold of a protocol that never moved.
 */
module JournalProgress {
  import opened Wrappers
  import opened JournalProtocol
  import opened JournalInvariant
  import opened JournalRecovery

  // ----- paths of steps -----

  ghost predicate IsPath(states: seq<State>) {
    states != [] && forall i :: 0 <= i < |states| - 1 ==> StepsFrom(states, i)
  }

  /** Some steps lead from one state to the other. */
  ghost predicate Leads(s: State, t: State) {
    exists states :: IsPath(states) && states[0] == s && states[|states| - 1] == t
  }

  lemma NoStep(s: State)
    ensures Leads(s, s)
  {
    assert IsPath([s]);
  }

  lemma OneStep(s: State, a: Action, t: State)
    requires Step(s, a, t)
    ensures Leads(s, t)
  {
    var states := [s, t];
    assert Next(s, t);
    assert StepsFrom(states, 0);
    assert IsPath(states);
  }

  lemma Then(s: State, t: State, u: State)
    requires Leads(s, t) && Leads(t, u)
    ensures Leads(s, u)
  {
    var left :| IsPath(left) && left[0] == s && left[|left| - 1] == t;
    var right :| IsPath(right) && right[0] == t && right[|right| - 1] == u;
    var states := left + right[1..];
    forall i | 0 <= i < |states| - 1 ensures StepsFrom(states, i) {
      if i < |left| - 1 {
        assert StepsFrom(left, i);
      } else {
        assert StepsFrom(right, i - (|left| - 1));
        assert states[i] == right[i - (|left| - 1)] && states[i + 1] == right[i + 1 - (|left| - 1)];
      }
    }
    assert IsPath(states);
  }

  // ----- one live process at work -----

  /** The state with a live process at a program point, having been shown `v` blocks. */
  ghost function At(s: State, p: Proc, pc: Pc, v: nat): State {
    s.(procs := s.procs[p := Local(true, pc, v)])
  }

  lemma AtAgain(s: State, p: Proc, pc: Pc, v: nat, pc': Pc, v': nat)
    ensures At(At(s, p, pc, v), p, pc', v') == At(s, p, pc', v')
    ensures At(s, p, pc, v).Goto(p, pc') == At(s, p, pc', v)
    ensures At(s, p, pc, v).Seen(p, pc', v') == At(s, p, pc', v')
  {
    assert s.procs[p := Local(true, pc, v)][p := Local(true, pc', v')] == s.procs[p := Local(true, pc', v')];
    assert s.procs[p := Local(true, pc, v)][p := Local(true, pc', v)] == s.procs[p := Local(true, pc', v)];
  }

  /** A step that moves only this process. */
  lemma Moves(s: State, p: Proc, pc: Pc, v: nat, a: Action, pc': Pc, v': nat)
    requires Step(At(s, p, pc, v), a, At(s, p, pc', v'))
    ensures Leads(At(s, p, pc, v), At(s, p, pc', v'))
  {
    OneStep(At(s, p, pc, v), a, At(s, p, pc', v'));
  }

  // ----- the scan -----

  lemma StatusUnknown(s: State, p: Proc, c: Claim, v: nat)
    requires v <= |s.chain|
    ensures Leads(At(s, p, AskStatus(c), v), At(s, p, AskHeight(c), |s.chain|))
  {
    AtAgain(s, p, AskStatus(c), v, AskHeight(c), |s.chain|);
    Moves(s, p, AskStatus(c), v, ReadStatus(p, |s.chain|, false), AskHeight(c), |s.chain|);
  }

  lemma StatusFinal(s: State, p: Proc, c: Claim, v: nat, i: nat)
    requires v <= |s.chain| && i < |s.chain| && s.chain[i].HasSignature(c.tx.signature)
    ensures Leads(At(s, p, AskStatus(c), v), At(s, p, AskReceipt(c), |s.chain|))
  {
    AtAgain(s, p, AskStatus(c), v, AskReceipt(c), |s.chain|);
    Moves(s, p, AskStatus(c), v, ReadStatus(p, |s.chain|, true), AskReceipt(c), |s.chain|);
  }

  lemma HeightPassed(s: State, p: Proc, c: Claim)
    requires Past(s.chain, c.height)
    ensures Leads(At(s, p, AskHeight(c), |s.chain|), At(s, p, AskSlot(c), |s.chain|))
  {
    AtAgain(s, p, AskHeight(c), |s.chain|, AskSlot(c), |s.chain|);
    Moves(s, p, AskHeight(c), |s.chain|, ReadHeight(p, |s.chain|), AskSlot(c), |s.chain|);
  }

  /** A tip within 100000 slots of the observed one is near enough. */
  lemma SlotInReach(s: State, p: Proc, c: Claim, tip: nat)
    requires s.chain != [] && tip == s.chain[|s.chain| - 1].slot && c.slot <= tip <= c.slot + 100_000
    ensures Leads(At(s, p, AskSlot(c), |s.chain|), At(s, p, Scanning(c, tip, c.slot, [], 0, false), |s.chain|))
  {
    AtAgain(s, p, AskSlot(c), |s.chain|, Scanning(c, tip, c.slot, [], 0, false), |s.chain|);
    Moves(s, p, AskSlot(c), |s.chain|, ReadSlot(p, |s.chain|), Scanning(c, tip, c.slot, [], 0, false), |s.chain|);
  }

  lemma WindowListed(s: State, p: Proc, c: Claim, tip: nat, next: nat, checked: nat, sawTip: bool, answer: seq<nat>)
    requires Ordered(s.chain) && next <= tip
    requires answer == SlotsIn(s.chain, |s.chain|, next, Min(next + 499, tip))
    ensures Leads(At(s, p, Scanning(c, tip, next, [], checked, sawTip), |s.chain|),
                  At(s, p, Scanning(c, tip, next + 500, answer, checked, sawTip), |s.chain|))
  {
    var to := Min(next + 499, tip);
    SlotsAscend(s.chain, |s.chain|, next, to);
    SlotsAreComplete(s.chain, |s.chain|, next, to);
    var before := Scanning(c, tip, next, [], checked, sawTip);
    var after := Scanning(c, tip, next + 500, answer, checked, sawTip);
    AtAgain(s, p, before, |s.chain|, after, |s.chain|);
    Moves(s, p, before, |s.chain|, ReadWindow(p, |s.chain|, answer), after, |s.chain|);
  }

  /** No block of the slot carries the signature. */
  ghost predicate Free(chain: seq<Block>, slot: nat, signature: string) {
    forall i :: 0 <= i < |chain| && chain[i].slot == slot ==> !chain[i].HasSignature(signature)
  }

  lemma BlockPassed(s: State, p: Proc, c: Claim, tip: nat, next: nat, blocks: seq<nat>, checked: nat, sawTip: bool)
    requires blocks != [] && SlotKnown(s.chain, |s.chain|, blocks[0]) && Free(s.chain, blocks[0], c.tx.signature)
    ensures Leads(At(s, p, Scanning(c, tip, next, blocks, checked, sawTip), |s.chain|),
                  At(s, p, Scanning(c, tip, next, blocks[1..], checked + 1, sawTip || blocks[0] == tip), |s.chain|))
  {
    var i :| 0 <= i < |s.chain| && s.chain[i].slot == blocks[0];
    var before := Scanning(c, tip, next, blocks, checked, sawTip);
    var after := Scanning(c, tip, next, blocks[1..], checked + 1, sawTip || blocks[0] == tip);
    AtAgain(s, p, before, |s.chain|, after, |s.chain|);
    Moves(s, p, before, |s.chain|, ReadBlock(p, |s.chain|, i), after, |s.chain|);
  }

  ghost predicate AllFree(chain: seq<Block>, blocks: seq<nat>, signature: string) {
    Listed(chain, |chain|, blocks) && forall k :: 0 <= k < |blocks| ==> Free(chain, blocks[k], signature)
  }

  lemma {:induction false} WindowPassed(s: State, p: Proc, c: Claim, tip: nat, next: nat, blocks: seq<nat>,
                                        checked: nat, sawTip: bool)
    requires AllFree(s.chain, blocks, c.tx.signature)
    ensures Leads(At(s, p, Scanning(c, tip, next, blocks, checked, sawTip), |s.chain|),
                  At(s, p, Scanning(c, tip, next, [], checked + |blocks|, sawTip || tip in blocks), |s.chain|))
    decreases blocks
  {
    var start := At(s, p, Scanning(c, tip, next, blocks, checked, sawTip), |s.chain|);
    if blocks == [] {
      NoStep(start);
    } else {
      var saw := sawTip || blocks[0] == tip;
      BlockPassed(s, p, c, tip, next, blocks, checked, sawTip);
      WindowPassed(s, p, c, tip, next, blocks[1..], checked + 1, saw);
      assert (sawTip || tip in blocks) == (saw || tip in blocks[1..]);
      Then(start, At(s, p, Scanning(c, tip, next, blocks[1..], checked + 1, saw), |s.chain|),
           At(s, p, Scanning(c, tip, next, [], checked + |blocks|, sawTip || tip in blocks), |s.chain|));
    }
  }

  lemma {:induction false} TipIsListed(chain: seq<Block>, n: nat, from: nat, to: nat, i: nat)
    requires i < n <= |chain| && from <= chain[i].slot <= to
    ensures chain[i].slot in SlotsIn(chain, n, from, to)
  {
    if i < n - 1 {
      TipIsListed(chain, n - 1, from, to, i);
    }
  }

  /** No block from the observed slot to the tip carries the signature. */
  ghost predicate Absence(chain: seq<Block>, c: Claim, tip: nat) {
    forall slot :: c.slot <= slot <= tip ==> Free(chain, slot, c.tx.signature)
  }

  /** What a window lists: blocks without the signature, and the tip in the last one. */
  lemma WindowIsFree(chain: seq<Block>, c: Claim, tip: nat, next: nat, answer: seq<nat>)
    requires Ordered(chain) && chain != [] && tip == chain[|chain| - 1].slot
    requires c.slot <= next <= tip && Absence(chain, c, tip)
    requires answer == SlotsIn(chain, |chain|, next, Min(next + 499, tip))
    ensures AllFree(chain, answer, c.tx.signature)
    ensures tip in answer <==> tip < next + 500
  {
    var to := Min(next + 499, tip);
    SlotsAscend(chain, |chain|, next, to);
    SlotsAreListed(chain, |chain|, next, to);
    if tip < next + 500 {
      TipIsListed(chain, |chain|, next, to, |chain| - 1);
    }
  }

  /** One window. */
  lemma OneWindow(s: State, p: Proc, c: Claim, tip: nat, next: nat, checked: nat, sawTip: bool)
    returns (checked': nat, sawTip': bool)
    requires Ordered(s.chain) && s.chain != [] && tip == s.chain[|s.chain| - 1].slot
    requires c.slot <= next <= tip && Absence(s.chain, c, tip)
    ensures Leads(At(s, p, Scanning(c, tip, next, [], checked, sawTip), |s.chain|),
                  At(s, p, Scanning(c, tip, next + 500, [], checked', sawTip'), |s.chain|))
    ensures (sawTip' <==> sawTip || tip < next + 500) && checked' >= checked && (sawTip' && !sawTip ==> checked' > 0)
  {
    var answer := SlotsIn(s.chain, |s.chain|, next, Min(next + 499, tip));
    WindowIsFree(s.chain, c, tip, next, answer);
    checked', sawTip' := checked + |answer|, sawTip || tip in answer;
    WindowListed(s, p, c, tip, next, checked, sawTip, answer);
    WindowPassed(s, p, c, tip, next + 500, answer, checked, sawTip);
    Then(At(s, p, Scanning(c, tip, next, [], checked, sawTip), |s.chain|),
         At(s, p, Scanning(c, tip, next + 500, answer, checked, sawTip), |s.chain|),
         At(s, p, Scanning(c, tip, next + 500, [], checked', sawTip'), |s.chain|));
  }

  /** All windows up to the tip. */
  lemma {:induction false} WindowsPassed(s: State, p: Proc, c: Claim, tip: nat, next: nat, checked: nat, sawTip: bool)
    returns (last: nat, checked': nat)
    requires Ordered(s.chain) && s.chain != [] && tip == s.chain[|s.chain| - 1].slot
    requires c.slot <= next && Absence(s.chain, c, tip)
    requires if sawTip then tip < next && checked > 0 else next <= tip
    ensures last > tip && checked' > 0
    ensures Leads(At(s, p, Scanning(c, tip, next, [], checked, sawTip), |s.chain|),
                  At(s, p, Scanning(c, tip, last, [], checked', true), |s.chain|))
    decreases tip + 500 - next
  {
    var start := At(s, p, Scanning(c, tip, next, [], checked, sawTip), |s.chain|);
    if sawTip {
      last, checked' := next, checked;
      NoStep(start);
    } else {
      var count, saw := OneWindow(s, p, c, tip, next, checked, sawTip);
      last, checked' := WindowsPassed(s, p, c, tip, next + 500, count, saw);
      Then(start, At(s, p, Scanning(c, tip, next + 500, [], count, saw), |s.chain|),
           At(s, p, Scanning(c, tip, last, [], checked', true), |s.chain|));
    }
  }

  lemma TipSeen(s: State, p: Proc, c: Claim, tip: nat, next: nat, checked: nat)
    requires tip < next && checked > 0
    ensures Leads(At(s, p, Scanning(c, tip, next, [], checked, true), |s.chain|),
                  At(s, p, Committing(c.key, c.work, ExpiredAbsent, c.rest), |s.chain|))
  {
    var before := Scanning(c, tip, next, [], checked, true);
    AtAgain(s, p, before, |s.chain|, Committing(c.key, c.work, ExpiredAbsent, c.rest), |s.chain|);
    Moves(s, p, before, |s.chain|, ReadTip(p), Committing(c.key, c.work, ExpiredAbsent, c.rest), |s.chain|);
  }

  ghost predicate CanExpire(chain: seq<Block>, c: Claim) {
    && Past(chain, c.height)
    && var tip := chain[|chain| - 1].slot; c.slot <= tip <= c.slot + 100_000 && Absence(chain, c, tip)
  }

  /** A submitted row that is past its height and in no block in reach gets to be judged absent. */
  lemma ScanLeads(s: State, p: Proc, c: Claim, v: nat)
    requires Ordered(s.chain) && v <= |s.chain| && CanExpire(s.chain, c)
    ensures Leads(At(s, p, AskStatus(c), v), At(s, p, Committing(c.key, c.work, ExpiredAbsent, c.rest), |s.chain|))
  {
    var n, tip := |s.chain|, s.chain[|s.chain| - 1].slot;
    var ask, height, slot := At(s, p, AskStatus(c), v), At(s, p, AskHeight(c), n), At(s, p, AskSlot(c), n);
    StatusUnknown(s, p, c, v);
    HeightPassed(s, p, c);
    Then(ask, height, slot);
    SlotInReach(s, p, c, tip);
    var first := At(s, p, Scanning(c, tip, c.slot, [], 0, false), n);
    Then(ask, slot, first);
    var next, checked := WindowsPassed(s, p, c, tip, c.slot, 0, false);
    var last := At(s, p, Scanning(c, tip, next, [], checked, true), n);
    Then(ask, first, last);
    TipSeen(s, p, c, tip, next, checked);
    Then(ask, last, At(s, p, Committing(c.key, c.work, ExpiredAbsent, c.rest), n));
  }

  /** A submitted row whose own transaction is finalized gets to be judged by its receipt. */
  lemma ReceiptLeads(s: State, p: Proc, c: Claim, v: nat, i: nat, ok: bool)
    requires v <= |s.chain| && i < |s.chain| && Landed(c.tx, ok) in s.chain[i].landed
    requires c.work in s.db.rows && s.db.rows[c.work].tx == Some(c.tx)
    ensures Leads(At(s, p, AskStatus(c), v),
                  At(s, p, Committing(c.key, c.work, if ok then Executed else Failed, c.rest), |s.chain|))
  {
    var n, done := |s.chain|, Committing(c.key, c.work, if ok then Executed else Failed, c.rest);
    StatusFinal(s, p, c, v, i);
    AtAgain(s, p, AskReceipt(c), n, done, n);
    Moves(s, p, AskReceipt(c), n, ReadReceipt(p, n, i, Landed(c.tx, ok)), done, n);
    Then(At(s, p, AskStatus(c), v), At(s, p, AskReceipt(c), n), At(s, p, done, n));
  }

  // ----- a whole recovery -----

  /** The process takes a pending row of its list under a free lock. */
  lemma RowTaken(s: State, p: Proc, work: WorkKey, v: nat)
    requires work in s.db.rows && s.db.rows[work].Pending() && s.lockId(s.db.rows[work].key) !in s.locks
    ensures Leads(At(s, p, Idle, v),
                  At(s.(locks := s.locks[s.lockId(s.db.rows[work].key) := p]), p,
                     Rereading(s.db.rows[work].key, work, []), v))
  {
    var key := s.db.rows[work].key;
    var locked := s.(locks := s.locks[s.lockId(key) := p]);
    AtAgain(s, p, Idle, v, Picking([work]), v);
    Moves(s, p, Idle, v, Discover(p, key.revision, [work]), Picking([work]), v);
    AtAgain(s, p, Picking([work]), v, Rereading(key, work, []), v);
    var picked, taken := At(s, p, Picking([work]), v), At(locked, p, Rereading(key, work, []), v);
    assert [work][1..] == [];
    assert taken == picked.Goto(p, Rereading(key, work, [])).(locks := s.locks[s.lockId(key) := p]);
    OneStep(picked, TryWork(p), taken);
    Then(At(s, p, Idle, v), picked, taken);
  }

  /** The row's claim, as it is re-read. */
  ghost function ClaimOf(row: Row, work: WorkKey): Claim
    requires row.tx.Some?
  {
    Claim(row.key, work, row.tx.value, row.observedSlot, row.lastValidHeight, Some([]))
  }

  /** The fate of a pending row is decided. */
  ghost predicate Decided(chain: seq<Block>, row: Row, work: WorkKey, outcome: Outcome) {
    match outcome
    case AbandonedBeforeSubmission => row.tx.None?
    case Executed => row.tx.Some? && HasLanded(chain, Landed(row.tx.value, true))
    case Failed => row.tx.Some? && HasLanded(chain, Landed(row.tx.value, false))
    case ExpiredAbsent => row.tx.Some? && CanExpire(chain, ClaimOf(row, work))
    case Reserved => false
    case SubmittedUnknown => false
  }

  lemma RereadLeads(s: State, p: Proc, work: WorkKey, v: nat, outcome: Outcome) returns (v': nat)
    requires Ordered(s.chain) && v <= |s.chain| && work in s.db.rows && s.db.rows[work].Pending()
    requires Decided(s.chain, s.db.rows[work], work, outcome)
    ensures v' <= |s.chain|
    ensures Leads(At(s, p, Rereading(s.db.rows[work].key, work, []), v),
                  At(s, p, Committing(s.db.rows[work].key, work, outcome, Some([])), v'))
  {
    var row := s.db.rows[work];
    var start, done := At(s, p, Rereading(row.key, work, []), v), Committing(row.key, work, outcome, Some([]));
    v' := |s.chain|;
    if row.tx.None? {
      v' := v;
      AtAgain(s, p, Rereading(row.key, work, []), v, done, v);
      Moves(s, p, Rereading(row.key, work, []), v, Reread(p), done, v);
    } else {
      var c := ClaimOf(row, work);
      AtAgain(s, p, Rereading(row.key, work, []), v, AskStatus(c), v);
      Moves(s, p, Rereading(row.key, work, []), v, Reread(p), AskStatus(c), v);
      if outcome == ExpiredAbsent {
        ScanLeads(s, p, c, v);
      } else {
        var ok := outcome == Executed;
        var i :| 0 <= i < |s.chain| && Landed(row.tx.value, ok) in s.chain[i].landed;
        ReceiptLeads(s, p, c, v, i, ok);
      }
      Then(start, At(s, p, AskStatus(c), v), At(s, p, done, v'));
    }
  }

  /** What is judged is committed, the lock is given back, and the process is idle again. */
  lemma CommitLeads(s: State, p: Proc, work: WorkKey, outcome: Outcome, v: nat, t: State)
    requires work in s.db.rows
    requires t == At(s.(db := FinishRow(s.db, work, outcome), locks := s.Release(p)), p, Idle, v)
    ensures Leads(At(s, p, Committing(s.db.rows[work].key, work, outcome, Some([])), v), t)
  {
    var key := s.db.rows[work].key;
    var start := At(s, p, Committing(key, work, outcome, Some([])), v);
    var s' := s.(db := FinishRow(s.db, work, outcome));
    var done := At(s', p, Unlocking(key, Some([])), v);
    AtAgain(s, p, Committing(key, work, outcome, Some([])), v, Unlocking(key, Some([])), v);
    OneStep(start, Commit(p), done);
    var s'' := s'.(locks := s.Release(p));
    var picking := At(s'', p, Picking([]), v);
    AtAgain(s', p, Unlocking(key, Some([])), v, Picking([]), v);
    OneStep(done, Unlock(p), picking);
    Then(start, done, picking);
    AtAgain(s'', p, Picking([]), v, Idle, v);
    Moves(s'', p, Picking([]), v, TryWork(p), Idle, v);
    Then(start, picking, t);
  }

  /** Any pending row whose fate is decided can be settled accordingly by any idle live process as
      soon as its lock is free, without help from anybody else. */
  lemma PendingCanBeSettled(s: SafeState, p: Proc, work: WorkKey, outcome: Outcome) returns (t: State)
    requires p in s.procs && s.procs[p].connected && s.procs[p].pc == Idle
    requires work in s.db.rows && s.db.rows[work].Pending() && s.lockId(s.db.rows[work].key) !in s.locks
    requires Decided(s.chain, s.db.rows[work], work, outcome)
    ensures Leads(s, t) && t.db == FinishRow(s.db, work, outcome)
    ensures t.sent == s.sent && t.chain == s.chain && p in t.procs && t.procs[p].pc == Idle && t.procs[p].connected
  {
    assert LocalOk(s, p);
    var row, v := s.db.rows[work], s.procs[p].view;
    var locked := s.(locks := s.locks[s.lockId(row.key) := p]);
    assert At(s, p, Idle, v) == s;
    RowTaken(s, p, work, v);
    var v' := RereadLeads(locked, p, work, v, outcome);
    var taken := At(locked, p, Rereading(row.key, work, []), v);
    var judged := At(locked, p, Committing(row.key, work, outcome, Some([])), v');
    Then(s, taken, judged);
    t := At(locked.(db := FinishRow(s.db, work, outcome), locks := locked.Release(p)), p, Idle, v');
    CommitLeads(locked, p, work, outcome, v', t);
    Then(s, judged, t);
  }

  // ----- a whole submission -----

  lemma CallTaken(s: State, p: Proc, call: Call, v: nat)
    requires CallOk(call) && s.lockId(call.key) !in s.locks
    ensures Leads(At(s, p, Idle, v), At(s.(locks := s.locks[s.lockId(call.key) := p]), p, Querying(call), v))
  {
    AtAgain(s, p, Idle, v, Querying(call), v);
    var locked := s.(locks := s.locks[s.lockId(call.key) := p]);
    OneStep(At(s, p, Idle, v), Submit(p, call), At(locked, p, Querying(call), v));
  }

  lemma Reserved(s: State, p: Proc, call: Call, v: nat, signing: State)
    requires NothingPending(s.db.rows, call.key) && call.work !in s.db.rows
    requires call.slot < 0x8000_0000_0000_0000 && call.height < 0x8000_0000_0000_0000
    requires signing == At(s.(db := ReserveRow(s.db, call.work, call.key, call.message, call.slot, call.height)), p,
                           Signing(call), v)
    ensures Leads(At(s, p, Querying(call), v), signing)
  {
    AtAgain(s, p, Querying(call), v, Reserving(call), v);
    Moves(s, p, Querying(call), v, Query(p, None), Reserving(call), v);
    AtAgain(s, p, Reserving(call), v, Signing(call), v);
    OneStep(At(s, p, Reserving(call), v), Reserve(p), signing);
    Then(At(s, p, Querying(call), v), At(s, p, Reserving(call), v), signing);
  }

  lemma SendLeads(s: State, p: Proc, key: Key, tx: Tx, v: nat, t: State)
    requires t == At(s.(sent := s.sent + {tx}), p, Unlocking(key, None), v)
    ensures Leads(At(s, p, Sending(key, tx), v), t)
  {
    AtAgain(s, p, Sending(key, tx), v, Unlocking(key, None), v);
    OneStep(At(s, p, Sending(key, tx), v), Send(p), t);
  }

  lemma ResendLeads(s: State, p: Proc, c: Claim, v: nat, t: State)
    requires v <= |s.chain| && t == At(s.(sent := s.sent + {c.tx}), p, Unlocking(c.key, None), |s.chain|)
    ensures Leads(At(s, p, AskSubmitStatus(c), v), t)
  {
    var n := |s.chain|;
    AtAgain(s, p, AskSubmitStatus(c), v, Rebroadcasting(c), n);
    Moves(s, p, AskSubmitStatus(c), v, ReadStatus(p, n, false), Rebroadcasting(c), n);
    AtAgain(s, p, Rebroadcasting(c), n, Unlocking(c.key, None), n);
    OneStep(At(s, p, Rebroadcasting(c), n), Rebroadcast(p), t);
    Then(At(s, p, AskSubmitStatus(c), v), At(s, p, Rebroadcasting(c), n), t);
  }

  lemma Recording(s: State, p: Proc, call: Call, signature: string, v: nat, db: Db)
    requires NothingPending(s.db.rows, call.key) && call.work !in s.db.rows
    requires call.slot < 0x8000_0000_0000_0000 && call.height < 0x8000_0000_0000_0000
    requires db == PersistRow(ReserveRow(s.db, call.work, call.key, call.message, call.slot, call.height), call.work,
                              Tx(signature, call.message))
    ensures Leads(At(s, p, Querying(call), v), At(s.(db := db), p, Sending(call.key, Tx(signature, call.message)), v))
  {
    var tx, start := Tx(signature, call.message), At(s, p, Querying(call), v);
    var reserved := s.(db := ReserveRow(s.db, call.work, call.key, call.message, call.slot, call.height));
    var signing := At(reserved, p, Signing(call), v);
    Reserved(s, p, call, v, signing);
    AtAgain(reserved, p, Signing(call), v, Persisting(call, tx), v);
    Moves(reserved, p, Signing(call), v, Sign(p, signature), Persisting(call, tx), v);
    var signed, recorded := At(reserved, p, Persisting(call, tx), v), At(s.(db := db), p, Sending(call.key, tx), v);
    Then(start, signing, signed);
    AtAgain(reserved, p, Persisting(call, tx), v, Sending(call.key, tx), v);
    OneStep(signed, Persist(p), recorded);
    Then(start, signed, recorded);
  }

  /** A key with nothing pending can be submitted for: the row is recorded and its bytes are sent. */
  lemma KeyCanBeSubmitted(s: SafeState, p: Proc, call: Call, signature: string) returns (t: State)
    requires p in s.procs && s.procs[p].connected && s.procs[p].pc == Idle
    requires CallOk(call) && s.lockId(call.key) !in s.locks
    requires NothingPending(s.db.rows, call.key) && call.work !in s.db.rows
    requires call.slot < 0x8000_0000_0000_0000 && call.height < 0x8000_0000_0000_0000
    ensures Leads(s, t) && t.sent == s.sent + {Tx(signature, call.message)}
    ensures call.work in t.db.rows && t.db.rows[call.work].outcome == SubmittedUnknown
    ensures t.db.rows[call.work].tx == Some(Tx(signature, call.message)) && t.db.rows[call.work].key == call.key
    ensures forall w :: w in s.db.rows ==> w in t.db.rows && t.db.rows[w] == s.db.rows[w]
  {
    var tx, v := Tx(signature, call.message), s.procs[p].view;
    var locked := s.(locks := s.locks[s.lockId(call.key) := p]);
    var db := PersistRow(ReserveRow(s.db, call.work, call.key, call.message, call.slot, call.height), call.work, tx);
    assert At(s, p, Idle, v) == s;
    CallTaken(s, p, call, v);
    Recording(locked, p, call, signature, v, db);
    var recorded := At(locked.(db := db), p, Sending(call.key, tx), v);
    Then(s, At(locked, p, Querying(call), v), recorded);
    t := At(locked.(db := db, sent := s.sent + {tx}), p, Unlocking(call.key, None), v);
    SendLeads(locked.(db := db), p, call.key, tx, v, t);
    Then(s, recorded, t);
  }

  /** The recorded bytes of a submitted row can be sent again, for any new call for its key, and
      nothing else changes. */
  lemma RecordedCanBeSentAgain(s: SafeState, p: Proc, work: WorkKey, call: Call) returns (t: State)
    requires p in s.procs && s.procs[p].connected && s.procs[p].pc == Idle
    requires CallOk(call) && s.lockId(call.key) !in s.locks
    requires work in s.db.rows && s.db.rows[work].outcome == SubmittedUnknown && s.db.rows[work].key == call.key
    ensures s.db.rows[work].tx.Some?
    ensures Leads(s, t) && t.db == s.db && t.sent == s.sent + {s.db.rows[work].tx.value}
  {
    assert LocalOk(s, p) && RowOk(s.db.rows[work], s.chain, |s.db.log|);
    var row, v, n := s.db.rows[work], s.procs[p].view, |s.chain|;
    var locked := s.(locks := s.locks[s.lockId(call.key) := p]);
    var c := Claim(call.key, work, row.tx.value, row.observedSlot, row.lastValidHeight, None);
    assert At(s, p, Idle, v) == s;
    CallTaken(s, p, call, v);
    var querying, asking := At(locked, p, Querying(call), v), At(locked, p, AskSubmitStatus(c), v);
    AtAgain(locked, p, Querying(call), v, AskSubmitStatus(c), v);
    Moves(locked, p, Querying(call), v, Query(p, Some(work)), AskSubmitStatus(c), v);
    Then(s, querying, asking);
    t := At(locked.(sent := s.sent + {c.tx}), p, Unlocking(call.key, None), n);
    ResendLeads(locked, p, c, v, t);
    Then(s, asking, t);
  }
}
