/**
 The recovery of one pending row, statement by statement: the closure inside
 `recover` with its scan of finalized history.  The chain keeps growing between
 any two RPC calls.  What the scan may conclude and what may be committed are
 the predicates of the protocol (`Scanned`, `Finishable`).
 */
module JournalRecovery {
  import opened Wrappers
  import opened JournalProtocol
  import opened JournalInvariant

  /** One of the first `view` blocks has the slot. */
  ghost predicate SlotKnown(chain: seq<Block>, view: nat, slot: nat) {
    exists i :: 0 <= i < view && i < |chain| && chain[i].slot == slot
  }

  ghost predicate Listed(chain: seq<Block>, view: nat, blocks: seq<nat>) {
    forall k :: 0 <= k < |blocks| ==> SlotKnown(chain, view, blocks[k])
  }

  lemma SlotStaysKnown(chain: seq<Block>, chain': seq<Block>, view: nat, view': nat, slot: nat)
    requires chain <= chain' && view <= view' && SlotKnown(chain, view, slot)
    ensures SlotKnown(chain', view', slot)
  {
    var i :| 0 <= i < view && i < |chain| && chain[i].slot == slot;
    assert chain'[i].slot == slot;
  }

  lemma ListedStays(chain: seq<Block>, chain': seq<Block>, view: nat, view': nat, blocks: seq<nat>)
    requires chain <= chain' && view <= view' && Listed(chain, view, blocks)
    ensures Listed(chain', view', blocks)
  {
    forall k | 0 <= k < |blocks|
      ensures SlotKnown(chain', view', blocks[k])
    {
      SlotStaysKnown(chain, chain', view, view', blocks[k]);
    }
  }

  /** The slots of a range among the first `n` blocks. */
  function SlotsIn(chain: seq<Block>, n: nat, from: nat, to: nat): seq<nat>
    requires n <= |chain|
  {
    if n == 0 then []
    else
      var slot := chain[n - 1].slot;
      SlotsIn(chain, n - 1, from, to) + (if from <= slot <= to then [slot] else [])
  }

  lemma {:induction false} SlotsAscend(chain: seq<Block>, n: nat, from: nat, to: nat)
    requires n <= |chain| && Ordered(chain)
    ensures var slots := SlotsIn(chain, n, from, to);
            WellFormed(slots, from, to) && forall k :: 0 <= k < |slots| && n < |chain| ==> slots[k] < chain[n].slot
  {
    if n > 0 {
      SlotsAscend(chain, n - 1, from, to);
    }
  }

  lemma {:induction false} SlotsAreListed(chain: seq<Block>, n: nat, from: nat, to: nat)
    requires n <= |chain|
    ensures Listed(chain, n, SlotsIn(chain, n, from, to))
  {
    if n > 0 {
      SlotsAreListed(chain, n - 1, from, to);
      ListedStays(chain, chain, n - 1, n, SlotsIn(chain, n - 1, from, to));
      assert SlotKnown(chain, n, chain[n - 1].slot);
    }
  }

  lemma {:induction false} SlotsAreComplete(chain: seq<Block>, n: nat, from: nat, to: nat)
    requires n <= |chain|
    ensures Complete(SlotsIn(chain, n, from, to), chain[..n], from, to)
  {
    if n > 0 {
      SlotsAreComplete(chain, n - 1, from, to);
      assert forall i :: 0 <= i < n - 1 ==> chain[..n][i] == chain[..n - 1][i];
    }
  }

  /** An answer of getSignatureStatuses, getBlockHeight or getSlot. */
  datatype Told =
    | Status(signature: string, finalized: bool)
    | HeightIs(height: nat)
    | SlotIs(slot: nat)

  /** The finalized chain, how much of it the node has shown this client, the transactions
      sent by anybody, the calls that have failed, and what the node told in which order. */
  datatype LedgerData = LedgerData(chain: seq<Block>, view: nat, sent: set<Tx>, failures: nat, told: seq<Told>)

  ghost predicate Truthful(l: LedgerData) {
    ChainOk(l.chain, l.sent) && l.view <= |l.chain|
  }

  type Ledger = l: LedgerData | Truthful(l) witness LedgerData([], 0, {}, 0, [])

  ghost predicate Advanced(l: Ledger, l': Ledger) {
    l.chain <= l'.chain && l.view <= l'.view && l.failures <= l'.failures && l.told <= l'.told
  }

  /** Of what was told since `l`, the answer at an index; None if there was no such answer. */
  ghost function Answer(l: Ledger, l': Ledger, index: nat): Option<Told> {
    if |l.told| + index < |l'.told| then Some(l'.told[|l.told| + index]) else None
  }

  /** The first question was for the status of the signature, and this was the answer. */
  ghost predicate StatusTold(l: Ledger, l': Ledger, signature: string, finalized: bool) {
    Answer(l, l', 0) == Some(Status(signature, finalized))
  }

  /** The answer at an index was a finalized height no higher than this. */
  ghost predicate LowHeightTold(l: Ledger, l': Ledger, index: nat, height: nat) {
    var a := Answer(l, l', index);
    a.Some? && a.value.HeightIs? && a.value.height <= height
  }

  /** The answer at an index was a finalized slot before `slot`, or more than 100000 after it. */
  ghost predicate FarSlotTold(l: Ledger, l': Ledger, index: nat, slot: nat) {
    var a := Answer(l, l', index);
    a.Some? && a.value.SlotIs? && (a.value.slot < slot || a.value.slot > slot + 100_000)
  }

  lemma AdvancedIsTransitive(l: Ledger, l': Ledger, l'': Ledger)
    requires Advanced(l, l') && Advanced(l', l'')
    ensures Advanced(l, l'')
  {
  }

  /** Between two states of the ledger the node could show a finalized block no higher than this. */
  ghost predicate ShownHeight(l: Ledger, l': Ledger, height: nat) {
    exists i :: l.view - 1 <= i < |l'.chain| && 0 <= i && l'.chain[i].height <= height
  }

  /** Or a finalized slot so early or so late that history cannot be scanned from `slot`. */
  ghost predicate ShownSlotOutOfReach(l: Ledger, l': Ledger, slot: nat) {
    exists i :: l.view - 1 <= i < |l'.chain| && 0 <= i
                && (l'.chain[i].slot < slot || l'.chain[i].slot > slot + 100_000)
  }

  /** Something else than the recorded transaction is finalized under its signature. */
  ghost predicate OtherLanded(chain: seq<Block>, tx: Tx) {
    exists x :: HasLanded(chain, x) && x.tx.signature == tx.signature && x.tx != tx
  }

  lemma ShownEarlier(l: Ledger, l': Ledger, l'': Ledger, height: nat, slot: nat)
    requires Advanced(l, l')
    ensures ShownHeight(l', l'', height) ==> ShownHeight(l, l'', height)
    ensures ShownSlotOutOfReach(l', l'', slot) ==> ShownSlotOutOfReach(l, l'', slot)
  {
  }

  lemma ShownLater(l: Ledger, l': Ledger, l'': Ledger, height: nat)
    requires Advanced(l', l'')
    ensures ShownHeight(l, l', height) ==> ShownHeight(l, l'', height)
  {
    if ShownHeight(l, l', height) {
      var i :| l.view - 1 <= i < |l'.chain| && 0 <= i && l'.chain[i].height <= height;
      assert l''.chain[i] == l'.chain[i];
    }
  }

  /** A truthful getBlock answer about one signature. */
  ghost predicate Answers(chain: seq<Block>, slot: nat, sig: string, carries: bool) {
    exists i :: 0 <= i < |chain| && chain[i].slot == slot && (carries <==> chain[i].HasSignature(sig))
  }

  /** A node.  A caller knows only the contracts: each call answers truthfully from
      the blocks shown so far or fails, and the chain may have grown meanwhile. */
  class Node {
    var ledger: Ledger

    /** getSignatureStatuses: a finalized status is true. */
    method IsFinalized(signature: string) returns (answer: Option<bool>)
      modifies this
      ensures Advanced(old(ledger), ledger)
      ensures answer == None ==> old(ledger).failures < ledger.failures
      ensures answer == Some(true) ==> exists block :: block in ledger.chain && block.HasSignature(signature)
      ensures ledger.told == old(ledger).told + if answer.Some? then [Status(signature, answer.value)] else []
    {
      var finalized := exists block :: block in ledger.chain && block.HasSignature(signature);
      ledger := ledger.(view := |ledger.chain|, told := ledger.told + [Status(signature, finalized)]);
      answer := Some(finalized);
    }

    /** getBlockHeight at finalized commitment. */
    method Height() returns (answer: Option<nat>)
      modifies this
      ensures Advanced(old(ledger), ledger)
      ensures answer.Some? ==> 0 < ledger.view && answer.value == ledger.chain[ledger.view - 1].height
      ensures answer == None ==> old(ledger).failures < ledger.failures
      ensures ledger.told == old(ledger).told + if answer.Some? then [HeightIs(answer.value)] else []
    {
      ledger := ledger.(view := |ledger.chain|);
      if ledger.view == 0 {
        ledger := ledger.(failures := ledger.failures + 1);
        return None;
      }
      answer := Some(ledger.chain[ledger.view - 1].height);
      ledger := ledger.(told := ledger.told + [HeightIs(answer.value)]);
    }

    /** getSlot at finalized commitment. */
    method Slot() returns (answer: Option<nat>)
      modifies this
      ensures Advanced(old(ledger), ledger)
      ensures answer.Some? ==> 0 < ledger.view && answer.value == ledger.chain[ledger.view - 1].slot
      ensures answer == None ==> old(ledger).failures < ledger.failures
      ensures ledger.told == old(ledger).told + if answer.Some? then [SlotIs(answer.value)] else []
    {
      ledger := ledger.(view := |ledger.chain|);
      if ledger.view == 0 {
        ledger := ledger.(failures := ledger.failures + 1);
        return None;
      }
      answer := Some(ledger.chain[ledger.view - 1].slot);
      ledger := ledger.(told := ledger.told + [SlotIs(answer.value)]);
    }

    /** getBlocks: a well-formed answer lists exactly the finalized slots of the range.  Callers ask
        for 500 slots at a time, or what is left of the range that ends at `last`. */
    method Blocks(from: nat, to: nat, ghost last: nat) returns (answer: Option<seq<nat>>)
      requires from <= last && to == if from + 499 <= last then from + 499 else last
      modifies this
      ensures Advanced(old(ledger), ledger)
      ensures answer == None || !WellFormed(answer.value, from, to) ==> old(ledger).failures < ledger.failures
      ensures answer.Some? && WellFormed(answer.value, from, to) ==>
                Complete(answer.value, ledger.chain[..ledger.view], from, to)
                && Listed(ledger.chain, ledger.view, answer.value)
    {
      ledger := ledger.(view := |ledger.chain|);
      SlotsAscend(ledger.chain, |ledger.chain|, from, to);
      SlotsAreListed(ledger.chain, |ledger.chain|, from, to);
      SlotsAreComplete(ledger.chain, |ledger.chain|, from, to);
      assert ledger.chain[..|ledger.chain|] == ledger.chain;
      answer := Some(SlotsIn(ledger.chain, |ledger.chain|, from, to));
    }

    /** getBlock: whether the listed block carries the signature. */
    method Carries(slot: nat, signature: string) returns (answer: Option<bool>)
      requires SlotKnown(ledger.chain, ledger.view, slot)
      modifies this
      ensures Advanced(old(ledger), ledger)
      ensures answer.Some? ==> Answers(ledger.chain, slot, signature, answer.value)
      ensures answer == None ==> old(ledger).failures < ledger.failures
    {
      var n := 0;
      while ledger.chain[n].slot != slot
        invariant ledger == old(ledger)
        invariant 0 <= n < |ledger.chain| && exists i :: n <= i < |ledger.chain| && ledger.chain[i].slot == slot
        decreases |ledger.chain| - n
      {
        n := n + 1;
      }
      answer := Some(ledger.chain[n].HasSignature(signature));
    }

    /** getTransaction: a finalized transaction with the signature, if it is a keeper's. */
    method Receipt(signature: string) returns (answer: Option<Landed>)
      modifies this
      ensures Advanced(old(ledger), ledger)
      ensures answer.Some? ==> answer.value.tx.signature == signature && HasLanded(ledger.chain, answer.value)
      ensures answer == None ==> old(ledger).failures < ledger.failures
      ensures ledger.told == old(ledger).told
    {
      for n := 0 to |ledger.chain|
        invariant ledger == old(ledger)
      {
        if x :| x in ledger.chain[n].landed && x.tx.signature == signature {
          return Some(x);
        }
      }
      ledger := ledger.(failures := ledger.failures + 1);
      answer := None;
    }
  }

  /** The table over one database session. */
  class Store {
    var rows: map<WorkKey, Row>
    var log: seq<Event>
    ghost var failures: nat

    ghost function Contents(): Db reads this { Db(rows, log) }

    /** `finish`: the outcome and its event are committed together or not at all. */
    method Finish(work: WorkKey, outcome: Outcome) returns (ok: bool)
      requires work in rows
      modifies this
      ensures ok ==> Contents() == FinishRow(old(Contents()), work, outcome) && failures == old(failures)
      ensures !ok ==> failures > old(failures)
                      && (Contents() == old(Contents()) || Contents() == FinishRow(old(Contents()), work, outcome))
    {
      rows := rows[work := rows[work].(outcome := outcome)];
      log := log + [Event(work, outcome)];
      ok := true;
    }

    method FindPending(key: Key) returns (found: Option<Option<WorkKey>>)
      modifies this
      ensures rows == old(rows) && log == old(log)
      ensures failures >= old(failures) && (found.None? ==> old(failures) < failures)
      ensures found.Some? && found.value.Some? ==> IsPending(rows, key, found.value.value)
      ensures found.Some? && found.value.None? ==> NothingPending(rows, key)
    {
      var rest := rows.Keys;
      while rest != {}
        invariant rows == old(rows) && log == old(log) && failures == old(failures) && rest <= rows.Keys
        invariant forall w :: w in rows && w !in rest && rows[w].key == key ==> !rows[w].Pending()
        decreases |rest|
      {
        var w :| w in rest;
        if rows[w].key == key && rows[w].Pending() {
          return Some(Some(w));
        }
        rest := rest - {w};
      }
      found := Some(None);
    }

    /** The insertion and its event.  A work key that is taken makes the insertion fail. */
    method Reserve(call: Call) returns (ok: bool)
      modifies this
      ensures failures >= old(failures)
      ensures ok ==> call.work !in old(rows) && Contents() == Reservation(old(Contents()), call)
      ensures !ok ==> call.work in old(rows) || old(failures) < failures
      ensures !ok ==> Contents() == old(Contents())
                      || (call.work !in old(rows) && Contents() == Reservation(old(Contents()), call))
    {
      if call.work in rows {
        return false;
      }
      ghost var before := Contents();
      rows := rows[call.work :=
        Row(call.key, call.message, call.slot, call.height, None, Reserved, |log|)];
      log := log + [Event(call.work, Reserved)];
      assert Contents() == Reservation(before, call);
      ok := true;
    }

    method Persist(work: WorkKey, tx: Tx) returns (ok: bool)
      requires work in rows
      modifies this
      ensures ok ==> Contents() == PersistRow(old(Contents()), work, tx)
      ensures !ok ==> old(failures) < failures
      ensures failures >= old(failures)
      ensures !ok ==> Contents() == old(Contents())
                      || Contents() == PersistRow(old(Contents()), work, tx)
    {
      rows := rows[work := rows[work].(tx := Some(tx), outcome := SubmittedUnknown)];
      log := log + [Event(work, SubmittedUnknown)];
      ok := true;
    }
  }

  ghost predicate IsPending(rows: map<WorkKey, Row>, key: Key, w: WorkKey) {
    w in rows && rows[w].key == key && rows[w].Pending()
  }

  function Reservation(db: Db, call: Call): Db {
    ReserveRow(db, call.work, call.key, call.message, call.slot, call.height)
  }

  datatype Scan =
    | Found
    | Absent(checked: nat)
    | Unavailable

  /** `read` lists the blocks read so far in order: each block of the range below
      `next` once, except those still to be read. */
  ghost predicate Tiled(chain: seq<Block>, start: nat, finalSlot: nat, next: nat, blocks: seq<nat>, read: seq<nat>) {
    && (forall k :: 0 <= k < |read| - 1 ==> read[k] < read[k + 1])
    && (forall k :: 0 <= k < |read| ==>
          start <= read[k] <= finalSlot && (blocks != [] ==> read[k] < blocks[0]) && read[k] < next)
    && Listed(chain, |chain|, read)
    && (forall i :: 0 <= i < |chain| && start <= chain[i].slot < next && chain[i].slot <= finalSlot
                    ==> chain[i].slot in read || chain[i].slot in blocks)
  }

  lemma ScanSurvivesGrowth(chain: seq<Block>, chain': seq<Block>, c: Claim, finalSlot: nat, next: nat,
                           blocks: seq<nat>, view: nat)
    requires chain <= chain' && Ordered(chain')
    requires Scanned(chain, c, finalSlot, next, blocks) && Shown(chain, finalSlot, view)
    ensures Scanned(chain', c, finalSlot, next, blocks) && Shown(chain', finalSlot, view)
  {
    forall i | |chain| <= i < |chain'|
      ensures finalSlot < chain'[i].slot && c.height < chain'[i].height
    {
      assert chain'[|chain| - 1] == chain[|chain| - 1];
    }
    assert chain'[|chain| - 1].slot <= chain'[|chain'| - 1].slot;
    assert chain'[|chain| - 1].height <= chain'[|chain'| - 1].height;
    assert forall i :: 0 <= i < |chain| ==> chain'[i] == chain[i];
  }

  lemma TilingSurvivesGrowth(chain: seq<Block>, chain': seq<Block>, start: nat, finalSlot: nat, next: nat,
                             blocks: seq<nat>, read: seq<nat>)
    requires chain <= chain' && Ordered(chain') && chain != [] && finalSlot <= chain[|chain| - 1].slot
    requires Tiled(chain, start, finalSlot, next, blocks, read)
    ensures Tiled(chain', start, finalSlot, next, blocks, read)
  {
    ListedStays(chain, chain', |chain|, |chain'|, read);
    forall i | |chain| <= i < |chain'|
      ensures finalSlot < chain'[i].slot
    {
      assert chain'[|chain| - 1] == chain[|chain| - 1];
    }
    assert forall i :: 0 <= i < |chain| ==> chain'[i] == chain[i];
  }

  /** Where the scan stands: what it has read, what that proves, its two counters. */
  ghost predicate Progress(chain: seq<Block>, view: nat, c: Claim, finalSlot: nat, next: nat, blocks: seq<nat>,
                           read: seq<nat>, checked: nat, sawTip: bool)
  {
    && Scanned(chain, c, finalSlot, next, blocks)
    && Shown(chain, finalSlot, view)
    && Tiled(chain, c.slot, finalSlot, next, blocks, read)
    && checked == |read|
    && (sawTip <==> finalSlot in read)
    && c.slot <= next
  }

  lemma ProgressSurvivesGrowth(chain: seq<Block>, chain': seq<Block>, view: nat, view': nat, c: Claim, finalSlot: nat,
                               next: nat, blocks: seq<nat>, read: seq<nat>, checked: nat, sawTip: bool)
    requires chain <= chain' && Ordered(chain') && view <= view'
    requires Progress(chain, view, c, finalSlot, next, blocks, read, checked, sawTip)
    ensures Progress(chain', view', c, finalSlot, next, blocks, read, checked, sawTip)
  {
    ScanSurvivesGrowth(chain, chain', c, finalSlot, next, blocks, view);
    TilingSurvivesGrowth(chain, chain', c.slot, finalSlot, next, blocks, read);
  }

  lemma ProgressByWindow(chain: seq<Block>, v: nat, c: Claim, finalSlot: nat, next: nat, answer: seq<nat>,
                         read: seq<nat>, checked: nat, sawTip: bool)
    requires Progress(chain, v, c, finalSlot, next, [], read, checked, sawTip) && v <= |chain| && next <= finalSlot
    requires WellFormed(answer, next, Min(next + (WINDOW - 1), finalSlot))
    requires Complete(answer, chain[..v], next, Min(next + (WINDOW - 1), finalSlot))
    ensures Progress(chain, v, c, finalSlot, next + WINDOW, answer, read, checked, sawTip)
  {
    WindowExtendsScan(chain, c, finalSlot, next, v, v, answer);
    WindowExtendsTiling(chain, c.slot, finalSlot, next, v, v, answer, read);
  }

  /** The part of the progress a block without the signature makes. */
  lemma ProgressByBlock(chain: seq<Block>, view: nat, c: Claim, finalSlot: nat, next: nat, blocks: seq<nat>,
                        read: seq<nat>, checked: nat, sawTip: bool, i: nat)
    requires Progress(chain, view, c, finalSlot, next, blocks, read, checked, sawTip) && Ordered(chain)
    requires blocks != [] && c.slot <= blocks[0] < next
    requires i < |chain| && chain[i].slot == blocks[0] && !chain[i].HasSignature(c.tx.signature)
    ensures Progress(chain, view, c, finalSlot, next, blocks[1..], read + [blocks[0]], checked + 1,
                     sawTip || blocks[0] == finalSlot)
  {
    BlockExtendsScan(chain, c, finalSlot, next, blocks, i);
    BlockExtendsTiling(chain, c.slot, finalSlot, next, blocks, read, i);
  }

  /** A finalized block of the range carries the signature. */
  ghost predicate FoundIn(chain: seq<Block>, c: Claim, finalSlot: nat) {
    exists i :: 0 <= i < |chain| && c.slot <= chain[i].slot <= finalSlot && chain[i].HasSignature(c.tx.signature)
  }

  /** The scan in progress, with the ledger as of its last call. */
  datatype ScanData = ScanData(ledger: Ledger, c: Claim, finalSlot: nat, next: nat, blocks: seq<nat>,
                               read: seq<nat>, checked: nat, sawTip: bool)

  ghost predicate ScanOk(d: ScanData) {
    && Progress(d.ledger.chain, d.ledger.view, d.c, d.finalSlot, d.next, d.blocks, d.read, d.checked, d.sawTip)
    && Listed(d.ledger.chain, d.ledger.view, d.blocks)
    && SlotKnown(d.ledger.chain, d.ledger.view, d.finalSlot)
    && (forall k :: 0 <= k < |d.blocks| ==> d.c.slot <= d.blocks[k] < d.next && d.blocks[k] <= d.finalSlot)
  }

  const SOME_CLAIM := Claim(Key("", "", 0), "", Tx("", Message("", 1, 0)), 1, 0, None)

  type ScanState = d: ScanData | ScanOk(d)
    ghost witness
      assert SlotKnown([Block(1, 1, {}, {})], 1, 1) by { assert [Block(1, 1, {}, {})][0].slot == 1; }
      ScanData(LedgerData([Block(1, 1, {}, {})], 1, {}, 0, []), SOME_CLAIM, 1, 1, [], [], 0, false)

  /** Height first, slot second: the range up to the slot is the one to scan. */
  lemma StartScan(l: Ledger, l': Ledger, c: Claim) returns (st: ScanState)
    requires Advanced(l, l')
    requires 0 < l.view && c.height < l.chain[l.view - 1].height
    ensures 0 < l'.view && st == ScanData(l', c, l'.chain[l'.view - 1].slot, c.slot, [], [], 0, false)
  {
    assert l'.chain[l.view - 1] == l.chain[l.view - 1];
    SlotBoundsHeight(l'.chain, c, l.view, l'.view);
    assert SlotKnown(l'.chain, l'.view, l'.chain[l'.view - 1].slot);
    st := ScanData(l', c, l'.chain[l'.view - 1].slot, c.slot, [], [], 0, false);
  }

  /** The chain grew during a call: nothing established so far is lost. */
  lemma AfterGrowth(st: ScanState, l: Ledger) returns (st': ScanState)
    requires Advanced(st.ledger, l)
    ensures st' == st.(ledger := l)
  {
    ProgressSurvivesGrowth(st.ledger.chain, l.chain, st.ledger.view, l.view, st.c, st.finalSlot, st.next, st.blocks,
                           st.read, st.checked, st.sawTip);
    SlotStaysKnown(st.ledger.chain, l.chain, st.ledger.view, l.view, st.finalSlot);
    ListedStays(st.ledger.chain, l.chain, st.ledger.view, l.view, st.blocks);
    st' := st.(ledger := l);
  }

  /** One more window listed. */
  lemma AfterWindow(st: ScanState, answer: seq<nat>) returns (st': ScanState)
    requires st.blocks == [] && st.next <= st.finalSlot
    requires WellFormed(answer, st.next, Min(st.next + (WINDOW - 1), st.finalSlot))
    requires Complete(answer, st.ledger.chain[..st.ledger.view], st.next, Min(st.next + (WINDOW - 1), st.finalSlot))
    requires Listed(st.ledger.chain, st.ledger.view, answer)
    ensures st' == st.(next := st.next + WINDOW, blocks := answer)
  {
    ProgressByWindow(st.ledger.chain, st.ledger.view, st.c, st.finalSlot, st.next, answer, st.read, st.checked,
                     st.sawTip);
    st' := st.(next := st.next + WINDOW, blocks := answer);
  }

  lemma ListedTail(chain: seq<Block>, view: nat, blocks: seq<nat>)
    requires Listed(chain, view, blocks) && blocks != []
    ensures Listed(chain, view, blocks[1..])
  {
  }

  /** The block an answer about a signature speaks of. */
  lemma AnsweringBlock(chain: seq<Block>, slot: nat, sig: string, carries: bool) returns (i: nat)
    requires Answers(chain, slot, sig, carries)
    ensures i < |chain| && chain[i].slot == slot && (carries <==> chain[i].HasSignature(sig))
  {
    i :| 0 <= i < |chain| && chain[i].slot == slot && (carries <==> chain[i].HasSignature(sig));
  }

  /** One more block read and found without the signature. */
  lemma AfterBlock(st: ScanState) returns (st': ScanState)
    requires st.blocks != [] && Answers(st.ledger.chain, st.blocks[0], st.c.tx.signature, false)
    ensures st' == st.(blocks := st.blocks[1..], read := st.read + [st.blocks[0]],
                       checked := st.checked + 1, sawTip := st.sawTip || st.blocks[0] == st.finalSlot)
  {
    var i := AnsweringBlock(st.ledger.chain, st.blocks[0], st.c.tx.signature, false);
    BlockIsRead(st, i);
    var rest := st.blocks[1..];
    assert forall k :: 0 <= k < |rest| ==> rest[k] == st.blocks[k + 1];
    st' := st.(blocks := st.blocks[1..], read := st.read + [st.blocks[0]],
               checked := st.checked + 1, sawTip := st.sawTip || st.blocks[0] == st.finalSlot);
  }

  lemma BlockIsRead(st: ScanState, i: nat)
    requires st.blocks != [] && i < |st.ledger.chain|
    requires st.ledger.chain[i].slot == st.blocks[0] && !st.ledger.chain[i].HasSignature(st.c.tx.signature)
    ensures Listed(st.ledger.chain, st.ledger.view, st.blocks[1..])
    ensures Progress(st.ledger.chain, st.ledger.view, st.c, st.finalSlot, st.next, st.blocks[1..],
                     st.read + [st.blocks[0]], st.checked + 1, st.sawTip || st.blocks[0] == st.finalSlot)
  {
    ListedTail(st.ledger.chain, st.ledger.view, st.blocks);
    ProgressByBlock(st.ledger.chain, st.ledger.view, st.c, st.finalSlot, st.next, st.blocks, st.read, st.checked,
                    st.sawTip, i);
  }

  lemma BlockFound(st: ScanState)
    requires st.blocks != [] && Answers(st.ledger.chain, st.blocks[0], st.c.tx.signature, true)
    ensures FoundIn(st.ledger.chain, st.c, st.finalSlot)
  {
    var i := AnsweringBlock(st.ledger.chain, st.blocks[0], st.c.tx.signature, true);
  }

  /** Every finalized block of [start, finalSlot], once each and in order. */
  ghost predicate ReadsWholeRange(chain: seq<Block>, start: nat, finalSlot: nat, read: seq<nat>) {
    && (forall k :: 0 <= k < |read| - 1 ==> read[k] < read[k + 1])
    && (forall k :: 0 <= k < |read| ==> start <= read[k] <= finalSlot)
    && Listed(chain, |chain|, read)
    && (forall i :: 0 <= i < |chain| && start <= chain[i].slot <= finalSlot ==> chain[i].slot in read)
  }

  /** What `Absent` stands for: every finalized block of the range was read once,
      and none of them, and no block to come, has the transaction. */
  ghost predicate ProvenAbsent(l: Ledger, c: Claim, finalSlot: nat, read: seq<nat>) {
    ReadsWholeRange(l.chain, c.slot, finalSlot, read) && Dead(l.chain, c.tx)
  }

  lemma AfterScan(st: ScanState)
    requires st.blocks == [] && st.c.slot <= st.finalSlot < st.next
    requires st.c.slot <= st.c.tx.message.notBefore && st.c.tx.message.expiry <= st.c.height
    ensures st.sawTip && st.checked != 0 && st.checked == |st.read|
    ensures ProvenAbsent(st.ledger, st.c, st.finalSlot, st.read)
  {
    var chain := st.ledger.chain;
    var t :| 0 <= t < |chain| && chain[t].slot == st.finalSlot;
    assert chain[t].slot in st.read;
    ScanProvesAbsence(chain, st.ledger.sent, st.c, st.finalSlot, st.next);
  }

  /** The body of the next listed block. */
  method ReadBlock(node: Node, ghost st: ScanState, sig: string, block: nat)
    returns (carries: Option<bool>, ghost st': ScanState)
    requires st.ledger == node.ledger && st.c.tx.signature == sig && st.blocks != [] && st.blocks[0] == block
    modifies node
    ensures Advanced(old(node.ledger), node.ledger)
    ensures carries == None ==> old(node.ledger).failures < node.ledger.failures
    ensures carries == Some(true) ==> FoundIn(node.ledger.chain, st.c, st.finalSlot)
    ensures carries == Some(false) ==>
              st' == st.(ledger := node.ledger, blocks := st.blocks[1..], read := st.read + [block],
                         checked := st.checked + 1, sawTip := st.sawTip || block == st.finalSlot)
  {
    st' := st;
    carries := node.Carries(block, sig);
    if carries.Some? {
      st' := AfterGrowth(st, node.ledger);
      if carries.value {
        BlockFound(st');
      } else {
        st' := AfterBlock(st');
      }
    }
  }

  /** The bodies of one window's blocks, in order, until the signature turns up. */
  method ScanWindow(node: Node, ghost st: ScanState, sig: string, finalSlot: nat, blocks: seq<nat>, checked: nat,
                    sawTip: bool)
    returns (r: Option<bool>, checked': nat, sawTip': bool, ghost st': ScanState)
    requires st.ledger == node.ledger && st.c.tx.signature == sig && st.finalSlot == finalSlot
    requires st.blocks == blocks && st.checked == checked && st.sawTip == sawTip
    modifies node
    ensures Advanced(old(node.ledger), node.ledger)
    ensures r == None ==> old(node.ledger).failures < node.ledger.failures
    ensures r == Some(true) ==> FoundIn(node.ledger.chain, st.c, finalSlot)
    ensures r == Some(false) ==>
              st' == st.(ledger := node.ledger, blocks := [], read := st'.read, checked := checked', sawTip := sawTip')
  {
    checked', sawTip', st' := checked, sawTip, st;
    var k := 0;
    while k < |blocks|
      invariant k <= |blocks| && Advanced(old(node.ledger), node.ledger)
      invariant st' == st.(ledger := node.ledger, blocks := blocks[k..], read := st'.read, checked := checked',
                           sawTip := sawTip')
    {
      var block := blocks[k];
      sawTip' := sawTip' || block == finalSlot;
      assert st'.blocks[0] == block && st'.blocks[1..] == blocks[k + 1..];
      ghost var before := node.ledger;
      r, st' := ReadBlock(node, st', sig, block);
      AdvancedIsTransitive(old(node.ledger), before, node.ledger);
      if r != Some(false) {
        return;
      }
      checked' := checked' + 1;
      k := k + 1;
    }
    r := Some(false);
  }

  /** The finalized-history scan: windows of 500 slots from the observed slot to the
      final one.  A truthful node can make the scan give up only by failing a call:
      the checks for a missing tip or an empty history never fire. */
  method ScanHistory(node: Node, c: Claim, finalSlot: nat, ghost start: ScanState)
    returns (r: Scan, ghost read: seq<nat>)
    requires c.slot <= finalSlot && c.slot <= c.tx.message.notBefore && c.tx.message.expiry <= c.height
    requires start == ScanData(node.ledger, c, finalSlot, c.slot, [], [], 0, false)
    modifies node
    ensures Advanced(old(node.ledger), node.ledger)
    ensures r.Found? ==> FoundIn(node.ledger.chain, c, finalSlot)
    ensures r.Absent? ==> ProvenAbsent(node.ledger, c, finalSlot, read) && r.checked == |read|
    ensures r.Unavailable? ==> old(node.ledger).failures < node.ledger.failures
  {
    var checked, sawTip, from := 0, false, c.slot;
    ghost var st := start;
    read := [];
    while from <= finalSlot
      invariant Advanced(old(node.ledger), node.ledger)
      invariant st == ScanData(node.ledger, c, finalSlot, from, [], st.read, checked, sawTip)
      decreases finalSlot + WINDOW - from
    {
      var to := Min(from + (WINDOW - 1), finalSlot);
      var blocks := node.Blocks(from, to, finalSlot);
      AdvancedIsTransitive(old(node.ledger), st.ledger, node.ledger);
      if blocks == None || !WellFormed(blocks.value, from, to) {
        r := Unavailable;
        return;
      }
      st := AfterGrowth(st, node.ledger);
      st := AfterWindow(st, blocks.value);
      ghost var listed := node.ledger;
      var found;
      found, checked, sawTip, st := ScanWindow(node, st, c.tx.signature, finalSlot, blocks.value, checked, sawTip);
      AdvancedIsTransitive(old(node.ledger), listed, node.ledger);
      if found == None {
        r := Unavailable;
        return;
      }
      if found.value {
        r := Found;
        return;
      }
      from := from + WINDOW;
    }
    r, read := ReadTip(node, c, finalSlot, st, checked, sawTip);
    AdvancedIsTransitive(old(node.ledger), st.ledger, node.ledger);
  }

  /** The last block of the range once more, after which the scan is judged. */
  method ReadTip(node: Node, c: Claim, finalSlot: nat, ghost st0: ScanState, checked: nat, sawTip: bool)
    returns (r: Scan, ghost read: seq<nat>)
    requires c.slot <= finalSlot < st0.next && c.slot <= c.tx.message.notBefore && c.tx.message.expiry <= c.height
    requires st0 == ScanData(node.ledger, c, finalSlot, st0.next, [], st0.read, checked, sawTip)
    modifies node
    ensures Advanced(old(node.ledger), node.ledger)
    ensures r.Absent? ==> ProvenAbsent(node.ledger, c, finalSlot, read) && r.checked == |read|
    ensures r.Unavailable? ==> old(node.ledger).failures < node.ledger.failures
    ensures !r.Found?
  {
    var tip := node.Carries(finalSlot, c.tx.signature);
    read := st0.read;
    if tip == None {
      r := Unavailable;
      return;
    }
    ghost var st := AfterGrowth(st0, node.ledger);
    AfterScan(st);
    r := if checked == 0 || !sawTip then Unavailable else Absent(checked);
  }

  lemma WindowExtendsTiling(chain: seq<Block>, start: nat, finalSlot: nat, from: nat, v: nat, view: nat,
                            answer: seq<nat>, read: seq<nat>)
    requires Tiled(chain, start, finalSlot, from, [], read) && Shown(chain, finalSlot, view) && view <= v <= |chain|
    requires WellFormed(answer, from, Min(from + (WINDOW - 1), finalSlot))
    requires Complete(answer, chain[..v], from, Min(from + (WINDOW - 1), finalSlot))
    ensures Tiled(chain, start, finalSlot, from + WINDOW, answer, read)
  {
    forall i | 0 <= i < |chain| && from <= chain[i].slot < from + WINDOW && chain[i].slot <= finalSlot
      ensures chain[i].slot in answer
    {
      assert chain[..v][i] == chain[i];
    }
  }

  lemma BlockExtendsTiling(chain: seq<Block>, start: nat, finalSlot: nat, next: nat, blocks: seq<nat>, read: seq<nat>,
                           i: nat)
    requires Tiled(chain, start, finalSlot, next, blocks, read) && blocks != []
    requires forall k :: 0 <= k < |blocks| - 1 ==> blocks[k] < blocks[k + 1]
    requires i < |chain| && chain[i].slot == blocks[0] && start <= blocks[0] <= finalSlot && blocks[0] < next
    ensures Tiled(chain, start, finalSlot, next, blocks[1..], read + [blocks[0]])
  {
    var read' := read + [blocks[0]];
    assert SlotKnown(chain, |chain|, blocks[0]);
    forall j | 0 <= j < |chain| && start <= chain[j].slot < next && chain[j].slot <= finalSlot
      ensures chain[j].slot in read' || chain[j].slot in blocks[1..]
    {
      assert blocks == [blocks[0]] + blocks[1..];
    }
  }

  datatype RecoverError = RpcUnavailable | ArchivalNeeded | ReceiptDiffers | DatabaseUnavailable

  /** What `recover` does with one row of its work list under the row's lock.  The
      only thing it ever writes is one outcome, and only one the protocol's commit
      step allows for the row as re-read and the chain as it is. */
  method Reconcile(node: Node, store: Store, ghost held: set<Key>, work: WorkKey)
    returns (r: Result<Option<Outcome>, RecoverError>)
    requires work in store.rows ==> RowOk(store.rows[work], node.ledger.chain, |store.log|)
    requires work in store.rows ==> store.rows[work].key in held
    modifies node, store
    ensures Advanced(old(node.ledger), node.ledger)
    ensures Justified(old(store.Contents()), store.Contents(), work, node.ledger.chain, r)
    ensures r == Ok(None) && work in old(store.rows) && old(store.rows[work]).Pending() ==>
              && old(store.rows[work]).tx.Some?
              && ShownHeight(old(node.ledger), node.ledger, old(store.rows[work]).lastValidHeight)
    ensures r == Err(ArchivalNeeded) ==>
              && work in old(store.rows)
              && ShownSlotOutOfReach(old(node.ledger), node.ledger, old(store.rows[work]).observedSlot)
    ensures r == Err(ReceiptDiffers) ==>
              work in old(store.rows) && old(store.rows[work]).tx.Some?
              && OtherLanded(node.ledger.chain, old(store.rows[work]).tx.value)
    ensures r == Err(RpcUnavailable) ==> old(node.ledger).failures < node.ledger.failures
    ensures r == Err(DatabaseUnavailable) ==> old(store.failures) < store.failures
    ensures store.failures >= old(store.failures)
    ensures work in old(store.rows) && old(store.rows[work]).outcome == SubmittedUnknown ==>
              FollowsAnswers(old(store.rows[work]), old(node.ledger), node.ledger, r)
  {
    if work !in store.rows {
      return Ok(None);
    }
    var row := store.rows[work];
    if row.outcome != Reserved && row.outcome != SubmittedUnknown {
      return Ok(None);
    }
    if row.tx == None {
      r := FinishWith(node, store, work, AbandonedBeforeSubmission);
      return;
    }
    var c := Claim(row.key, work, row.tx.value, row.observedSlot, row.lastValidHeight, None);
    var finalized := node.IsFinalized(c.tx.signature);
    if finalized == None {
      return Err(RpcUnavailable);
    }
    if finalized.value {
      r := FinishReceipt(node, store, work);
      return;
    }
    ghost var between := node.ledger;
    r := ReconcileUnknown(node, store, c);
    ShownEarlier(old(node.ledger), between, node.ledger, c.height, c.slot);
  }

  /** A finalized status is acted upon at once, and the height and the slot are asked for in this
      order and only without one.  Nothing is done exactly if the height has not passed the row's
      last valid height, and the row is left to archival recovery exactly if the slot is before the
      observed one or more than 100000 after it. */
  ghost predicate FollowsAnswers(row: Row, l: Ledger, l': Ledger, r: Result<Option<Outcome>, RecoverError>)
    requires row.tx.Some?
  {
    var sig := row.tx.value.signature;
    && (Answer(l, l', 0).Some? ==> StatusTold(l, l', sig, true) || StatusTold(l, l', sig, false))
    && (StatusTold(l, l', sig, true) ==>
          Answer(l, l', 1) == None && (r.Ok? ==> r.value == Some(Executed) || r.value == Some(Failed)))
    && (r.Ok? ==> Answer(l, l', 0).Some?)
    && (r == Ok(None) <==> StatusTold(l, l', sig, false) && LowHeightTold(l, l', 1, row.lastValidHeight))
    && (r == Err(ArchivalNeeded) <==>
          && StatusTold(l, l', sig, false)
          && Answer(l, l', 1).Some? && !LowHeightTold(l, l', 1, row.lastValidHeight)
          && FarSlotTold(l, l', 2, row.observedSlot))
  }

  /** A submitted row without a finalized status: height, slot, history. */
  method ReconcileUnknown(node: Node, store: Store, c: Claim) returns (r: Result<Option<Outcome>, RecoverError>)
    requires ClaimOk(store.rows, true, c)
    requires c.slot <= c.tx.message.notBefore && c.tx.message.expiry <= c.height
    modifies node, store
    ensures Advanced(old(node.ledger), node.ledger)
    ensures Justified(old(store.Contents()), store.Contents(), c.work, node.ledger.chain, r)
    ensures r == Ok(None) ==> ShownHeight(old(node.ledger), node.ledger, c.height)
    ensures r == Err(ArchivalNeeded) ==> ShownSlotOutOfReach(old(node.ledger), node.ledger, c.slot)
    ensures r == Err(ReceiptDiffers) ==> OtherLanded(node.ledger.chain, c.tx)
    ensures r == Err(RpcUnavailable) ==> old(node.ledger).failures < node.ledger.failures
    ensures r == Err(DatabaseUnavailable) ==> old(store.failures) < store.failures
    ensures store.failures >= old(store.failures)
    ensures r == Ok(None) <==> LowHeightTold(old(node.ledger), node.ledger, 0, c.height)
    ensures r == Err(ArchivalNeeded) <==>
            && Answer(old(node.ledger), node.ledger, 0).Some?
            && !LowHeightTold(old(node.ledger), node.ledger, 0, c.height)
            && FarSlotTold(old(node.ledger), node.ledger, 1, c.slot)
  {
    var height := node.Height();
    if height == None {
      return Err(RpcUnavailable);
    }
    if height.value <= c.height {
      return Ok(None);
    }
    ghost var before := node.ledger;
    var slot := node.Slot();
    if slot == None {
      return Err(RpcUnavailable);
    }
    if slot.value < c.slot || slot.value - c.slot > MAX_HISTORY {
      return Err(ArchivalNeeded);
    }
    ghost var start := StartScan(before, node.ledger, c);
    ghost var between := node.ledger;
    r := ReconcileHistory(node, store, c, slot.value, start);
    AdvancedIsTransitive(before, between, node.ledger);
    AdvancedIsTransitive(old(node.ledger), before, node.ledger);
  }

  /** What the scan of finalized history decides. */
  method ReconcileHistory(node: Node, store: Store, c: Claim, finalSlot: nat, ghost start: ScanState)
    returns (r: Result<Option<Outcome>, RecoverError>)
    requires ClaimOk(store.rows, true, c)
    requires c.slot <= finalSlot && c.slot <= c.tx.message.notBefore && c.tx.message.expiry <= c.height
    requires start == ScanData(node.ledger, c, finalSlot, c.slot, [], [], 0, false)
    modifies node, store
    ensures Advanced(old(node.ledger), node.ledger)
    ensures Justified(old(store.Contents()), store.Contents(), c.work, node.ledger.chain, r)
    ensures r != Ok(None) && r != Err(ArchivalNeeded)
    ensures r == Err(ReceiptDiffers) ==> OtherLanded(node.ledger.chain, c.tx)
    ensures r == Err(RpcUnavailable) ==> old(node.ledger).failures < node.ledger.failures
    ensures r == Err(DatabaseUnavailable) ==> old(store.failures) < store.failures
    ensures store.failures >= old(store.failures)
  {
    var scan, _ := ScanHistory(node, c, finalSlot, start);
    match scan
    case Found =>
      ghost var between := node.ledger;
      r := FinishReceipt(node, store, c.work);
      AdvancedIsTransitive(old(node.ledger), between, node.ledger);
    case Unavailable =>
      r := Err(RpcUnavailable);
    case Absent(_) =>
      r := FinishWith(node, store, c.work, ExpiredAbsent);
  }

  /** The table is as it was, or has exactly the reported outcome committed for this
      row, and the protocol's commit step allows that outcome.  Only when the
      commit's own reply is lost may the outcome be there without being reported. */
  ghost predicate Justified(db: Db, db': Db, work: WorkKey, chain: seq<Block>,
                            r: Result<Option<Outcome>, RecoverError>) {
    match r
    case Ok(None) => db' == db
    case Ok(Some(o)) => CommitAllowed(db, db', work, chain, o)
    case Err(e) => db' == db || (e == DatabaseUnavailable && exists o :: CommitAllowed(db, db', work, chain, o))
  }

  ghost predicate CommitAllowed(db: Db, db': Db, work: WorkKey, chain: seq<Block>, o: Outcome) {
    work in db.rows && Finishable(db.rows[work], chain, o) && db' == FinishRow(db, work, o)
  }

  method FinishWith(node: Node, store: Store, work: WorkKey, outcome: Outcome)
    returns (r: Result<Option<Outcome>, RecoverError>)
    requires work in store.rows && Finishable(store.rows[work], node.ledger.chain, outcome)
    modifies store
    ensures Justified(old(store.Contents()), store.Contents(), work, node.ledger.chain, r)
    ensures r == Ok(Some(outcome)) || (r == Err(DatabaseUnavailable) && old(store.failures) < store.failures)
    ensures store.failures >= old(store.failures)
  {
    var ok := store.Finish(work, outcome);
    assert !ok && store.Contents() != old(store.Contents()) ==>
        CommitAllowed(old(store.Contents()), store.Contents(), work, node.ledger.chain, outcome);
    r := if ok then Ok(Some(outcome)) else Err(DatabaseUnavailable);
  }

  /** `finish_receipt`: the finalized bytes must be the recorded bytes. */
  method FinishReceipt(node: Node, store: Store, work: WorkKey) returns (r: Result<Option<Outcome>, RecoverError>)
    requires work in store.rows && store.rows[work].tx.Some? && store.rows[work].outcome == SubmittedUnknown
    modifies node, store
    ensures Advanced(old(node.ledger), node.ledger)
    ensures Justified(old(store.Contents()), store.Contents(), work, node.ledger.chain, r)
    ensures node.ledger.told == old(node.ledger).told
    ensures r.Ok? ==> r.value == Some(Executed) || r.value == Some(Failed)
    ensures r == Err(ReceiptDiffers) ==> OtherLanded(node.ledger.chain, old(store.rows[work]).tx.value)
    ensures r != Err(ArchivalNeeded)
    ensures r == Err(RpcUnavailable) ==> old(node.ledger).failures < node.ledger.failures
    ensures r == Err(DatabaseUnavailable) ==> old(store.failures) < store.failures
    ensures store.failures >= old(store.failures)
  {
    var receipt := node.Receipt(store.rows[work].tx.value.signature);
    if receipt == None {
      return Err(RpcUnavailable);
    }
    if store.rows[work].tx != Some(receipt.value.tx) {
      return Err(ReceiptDiffers);
    }
    assert receipt.value == Landed(receipt.value.tx, receipt.value.ok);
    r := FinishWith(node, store, work, if receipt.value.ok then Executed else Failed);
  }
}
