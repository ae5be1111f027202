/**
 One pass of `recover`: read a work list, and take, reconcile and release one row
 at a time.
 */
module JournalPass {
  import opened Wrappers
  import opened JournalProtocol
  import opened JournalInvariant
  import opened JournalRecovery

  /** The advisory locks of one database session. */
  class Session {
    var held: set<Key>
    ghost var refused: set<Key>
    ghost var failures: nat

    /** None is a failed call; a lock that somebody else holds is not an error. */
    method TryLock(key: Key) returns (locked: Option<bool>)
      modifies this
      ensures held == if locked == Some(true) then old(held) + {key} else old(held)
      ensures refused == if locked == Some(false) then old(refused) + {key} else old(refused)
      ensures locked.None? ==> old(failures) < failures
      ensures old(failures) <= failures
    {
      held := held + {key};
      locked := Some(true);
    }

    /** When unlocking fails the session is gone, and its locks with it. */
    method Unlock(key: Key) returns (ok: bool)
      modifies this
      ensures held == if ok then old(held) - {key} else {}
      ensures refused == old(refused)
      ensures old(failures) <= failures && (!ok ==> old(failures) < failures)
    {
      held := held - {key};
      ok := true;
    }
  }

  /** A reported outcome and the row it was committed for. */
  datatype Report = Report(work: WorkKey, outcome: Outcome)

  /** The table after some outcomes have been committed, one after the other. */
  function FinishAll(db: Db, reports: seq<Report>): Db {
    if reports == [] then db
    else
      var earlier, last := FinishAll(db, reports[..|reports| - 1]), reports[|reports| - 1];
      if last.work in earlier.rows then FinishRow(earlier, last.work, last.outcome) else earlier
  }

  lemma FinishOneMore(db: Db, reports: seq<Report>, work: WorkKey, outcome: Outcome)
    requires work in FinishAll(db, reports).rows
    ensures FinishAll(db, reports + [Report(work, outcome)]) == FinishRow(FinishAll(db, reports), work, outcome)
  {
    assert (reports + [Report(work, outcome)])[..|reports|] == reports;
  }

  /** A row's verdict survives the growth of the chain, however many blocks it is. */
  lemma RowSurvivesGrowth(row: Row, l: Ledger, l': Ledger, logLength: nat)
    requires Advanced(l, l') && RowOk(row, l.chain, logLength)
    ensures RowOk(row, l'.chain, logLength)
  {
    assert forall i :: 0 <= i < |l.chain| ==> l'.chain[i] == l.chain[i];
    match row.outcome
    case Executed => LandedSurvives(l.chain, l'.chain, Landed(row.tx.value, true));
    case Failed => LandedSurvives(l.chain, l'.chain, Landed(row.tx.value, false));
    case ExpiredAbsent => DeadSurvives(l, l', row.tx.value);
    case _ =>
  }

  lemma LandedSurvives(chain: seq<Block>, chain': seq<Block>, x: Landed)
    requires chain <= chain' && HasLanded(chain, x)
    ensures HasLanded(chain', x)
  {
    var i :| 0 <= i < |chain| && x in chain[i].landed;
    assert chain'[i] == chain[i];
  }

  lemma DeadSurvives(l: Ledger, l': Ledger, tx: Tx)
    requires Advanced(l, l') && Dead(l.chain, tx)
    ensures Dead(l'.chain, tx)
  {
    var last := |l.chain| - 1;
    assert l'.chain[last] == l.chain[last];
    assert l'.chain[last].height <= l'.chain[|l'.chain| - 1].height;
    forall ok
      ensures !HasLanded(l'.chain, Landed(tx, ok))
    {
      forall i | 0 <= i < |l'.chain|
        ensures Landed(tx, ok) !in l'.chain[i].landed
      {
        if i <= last {
          assert l'.chain[i] == l.chain[i] && !HasLanded(l.chain, Landed(tx, ok));
        } else {
          assert l'.chain[last].height < l'.chain[i].height;
        }
      }
    }
  }

  /** An allowed commit leaves every row in order. */
  lemma RowsStayOk(db: Db, db': Db, work: WorkKey, l: Ledger, l': Ledger, outcome: Outcome)
    requires RowsOk(db, l.chain) && Advanced(l, l')
    requires CommitAllowed(db, db', work, l'.chain, outcome)
    ensures RowsOk(db', l'.chain)
  {
    forall w | w in db'.rows
      ensures RowOk(db'.rows[w], l'.chain, |db'.log|)
    {
      assert RowOk(db.rows[w], l.chain, |db.log|);
      RowSurvivesGrowth(db.rows[w], l, l', |db.log|);
    }
  }

  lemma RowsSurviveGrowth(db: Db, l: Ledger, l': Ledger)
    requires RowsOk(db, l.chain) && Advanced(l, l')
    ensures RowsOk(db, l'.chain)
  {
    forall w | w in db.rows
      ensures RowOk(db.rows[w], l'.chain, |db.log|)
    {
      assert RowOk(db.rows[w], l.chain, |db.log|);
      RowSurvivesGrowth(db.rows[w], l, l', |db.log|);
    }
  }

  predicate Listable(row: Row, revision: string) { row.Pending() && row.key.revision == revision }

  /** The work list: at most 100 of the revision's pending rows, and all of them if there are
      fewer. */
  method FindWork(store: Store, revision: string) returns (todo: Option<seq<WorkKey>>)
    modifies store
    ensures store.rows == old(store.rows) && store.log == old(store.log)
    ensures store.failures >= old(store.failures) && (todo.None? ==> old(store.failures) < store.failures)
    ensures todo.Some? ==> |todo.value| <= 100
    ensures todo.Some? ==> forall w :: w in todo.value ==>
                             w in store.rows && Listable(store.rows[w], revision)
    ensures todo.Some? && |todo.value| < 100 ==>
              forall w :: w in store.rows && Listable(store.rows[w], revision) ==> w in todo.value
  {
    var rest, found := store.rows.Keys, [];
    while rest != {} && |found| < MAX_WORK
      invariant store.rows == old(store.rows) && store.log == old(store.log) && store.failures == old(store.failures)
      invariant |found| <= MAX_WORK && rest <= store.rows.Keys
      invariant forall w :: w in found ==> w in store.rows && Listable(store.rows[w], revision)
      invariant forall w :: w in store.rows && w !in rest && Listable(store.rows[w], revision) ==> w in found
      decreases |rest|
    {
      var w :| w in rest;
      if Listable(store.rows[w], revision) {
        found := found + [w];
      }
      rest := rest - {w};
    }
    todo := Some(found);
  }

  /** The row is settled, or still unknown because its validity height has not passed. */
  ghost predicate Handled(row: Row, l: Ledger, l': Ledger) {
    row.Pending() ==> row.outcome == SubmittedUnknown && ShownHeight(l, l', row.lastValidHeight)
  }

  ghost predicate AllDealtWith(rows: map<WorkKey, Row>, todo: seq<WorkKey>, refused: set<Key>, l: Ledger, l': Ledger) {
    forall w :: w in todo ==> w in rows && (rows[w].key in refused || Handled(rows[w], l, l'))
  }

  lemma DealtWithLater(rows: map<WorkKey, Row>, rows': map<WorkKey, Row>, todo: seq<WorkKey>, work: WorkKey,
      refused: set<Key>, refused': set<Key>, l: Ledger, l': Ledger, l'': Ledger)
    requires AllDealtWith(rows, todo, refused, l, l') && Advanced(l, l') && Advanced(l', l'') && refused <= refused'
    requires rows'.Keys == rows.Keys && forall w :: w in rows && w != work ==> rows'[w] == rows[w]
    requires work in rows' && (rows'[work].key in refused' || Handled(rows'[work], l', l''))
    ensures AllDealtWith(rows', todo + [work], refused', l, l'')
  {
    forall w | w in todo + [work]
      ensures w in rows' && (rows'[w].key in refused' || Handled(rows'[w], l, l''))
    {
      if w == work {
        ShownEarlier(l, l', l'', rows'[w].lastValidHeight, 0);
      } else {
        ShownLater(l, l', l'', rows[w].lastValidHeight);
      }
    }
  }

  /** A pass that has dealt with the first `k` rows of its list. */
  datatype PassData = PassData(start: Db, before: Ledger, todo: seq<WorkKey>, k: nat, refused: set<Key>,
                               now: Db, ledger: Ledger, done: seq<Report>)

  ghost predicate PassOk(p: PassData) {
    && p.k <= |p.todo| && Advanced(p.before, p.ledger) && RowsOk(p.now, p.ledger.chain)
    && p.now == FinishAll(p.start, p.done) && p.now.rows.Keys == p.start.rows.Keys
    && (forall w :: w in p.todo ==> w in p.start.rows)
    && (forall i :: 0 <= i < |p.done| ==> p.done[i].work in p.todo)
    && AllDealtWith(p.now.rows, p.todo[..p.k], p.refused, p.before, p.ledger)
  }

  type Pass = p: PassData | PassOk(p)
    ghost witness PassData(Db(map[], []), LedgerData([], 0, {}, 0, []), [], 0, {}, Db(map[], []),
                           LedgerData([], 0, {}, 0, []), [])

  lemma FirstPass(start: Db, l: Ledger, l': Ledger, todo: seq<WorkKey>, refused: set<Key>) returns (p: Pass)
    requires RowsOk(start, l.chain) && Advanced(l, l') && l'.chain == l.chain
    requires forall w :: w in todo ==> w in start.rows
    ensures p == PassData(start, l, todo, 0, refused, start, l', [])
  {
    p := PassData(start, l, todo, 0, refused, start, l', []);
  }

  /** What one row of the list may change. */
  ghost predicate Touches(p: PassData, work: WorkKey, refused: set<Key>, now: Db, l: Ledger, done: seq<Report>) {
    && Advanced(p.ledger, l) && p.refused <= refused && RowsOk(now, l.chain) && now == FinishAll(p.start, done)
    && now.rows.Keys == p.now.rows.Keys
    && (forall w :: w in now.rows && w != work ==> now.rows[w] == p.now.rows[w])
    && p.done <= done && |done| <= |p.done| + 1 && (|done| > |p.done| ==> done[|p.done|].work == work)
  }

  /** Even when the pass stops at a row, it has touched only rows of its list. */
  lemma PassStops(p: Pass, work: WorkKey, refused: set<Key>, now: Db, l: Ledger, done: seq<Report>)
    requires work in p.todo && Touches(p, work, refused, now, l, done)
    ensures Advanced(p.before, l) && forall i :: 0 <= i < |done| ==> done[i].work in p.todo
  {
    AdvancedIsTransitive(p.before, p.ledger, l);
  }

  lemma NextPass(p: Pass, work: WorkKey, refused: set<Key>, now: Db, l: Ledger, done: seq<Report>) returns (q: Pass)
    requires p.k < |p.todo| && p.todo[p.k] == work && Touches(p, work, refused, now, l, done)
    requires work in now.rows && (now.rows[work].key in refused || Handled(now.rows[work], p.ledger, l))
    ensures q == p.(k := p.k + 1, refused := refused, now := now, ledger := l, done := done)
  {
    PassStops(p, work, refused, now, l, done);
    DealtWithLater(p.now.rows, now.rows, p.todo[..p.k], work, p.refused, refused, p.before, p.ledger, l);
    assert p.todo[..p.k + 1] == p.todo[..p.k] + [work];
    q := p.(k := p.k + 1, refused := refused, now := now, ledger := l, done := done);
  }

  /** `recover`, when no other process interferes: the outcomes it reports are exactly the
      ones it committed, in order; it commits only what the protocol allows, and only for rows of
      the revision; no lock outlives the pass, whether it succeeds or fails; and after a success
      every row of the work list is settled, or was locked by somebody else, or may still land. */
  method Recover(node: Node, store: Store, session: Session, revision: string)
    returns (r: Result<seq<Report>, RecoverError>, ghost done: seq<Report>, ghost todo: seq<WorkKey>)
    requires RowsOk(store.Contents(), node.ledger.chain) && session.held == {} && session.refused == {}
    modifies node, store, session
    ensures Advanced(old(node.ledger), node.ledger)
    ensures RowsOk(store.Contents(), node.ledger.chain)
    ensures session.held == {}
    ensures store.Contents() == FinishAll(old(store.Contents()), done)
    ensures r == Err(DatabaseUnavailable) ==>
              old(store.failures) < store.failures || old(session.failures) < session.failures
    ensures r == Err(RpcUnavailable) ==> old(node.ledger).failures < node.ledger.failures
    ensures r.Ok? ==> r.value == done
    ensures r.Ok? ==> AllDealtWith(store.rows, todo, session.refused, old(node.ledger), node.ledger)
    ensures |todo| <= 100
    ensures forall w :: w in todo ==> w in old(store.rows) && Listable(old(store.rows)[w], revision)
    ensures forall i :: 0 <= i < |done| ==> done[i].work in todo
    ensures r.Ok? && |todo| < 100 ==>
              forall w :: w in old(store.rows) && Listable(old(store.rows[w]), revision) ==> w in todo
  {
    done, todo := [], [];
    var rows := FindWork(store, revision);
    if rows.None? {
      return Err(DatabaseUnavailable), done, todo;
    }
    todo := rows.value;
    var outcomes: seq<Report> := [];
    ghost var p := FirstPass(store.Contents(), node.ledger, node.ledger, todo, session.refused);
    for k := 0 to |rows.value|
      invariant p == PassData(old(store.Contents()), old(node.ledger), todo, k, session.refused,
                              store.Contents(), node.ledger, done)
      invariant session.held == {} && done == outcomes
      invariant old(store.failures) <= store.failures && old(session.failures) <= session.failures
    {
      var work := rows.value[k];
      assert work in todo;
      var one;
      one, done := RecoverOne(node, store, session, work, p);
      if one.Err? {
        PassStops(p, work, session.refused, store.Contents(), node.ledger, done);
        return Err(one.error), done, todo;
      }
      p := NextPass(p, work, session.refused, store.Contents(), node.ledger, done);
      if one.value.Some? {
        outcomes := outcomes + [Report(work, one.value.value)];
      }
    }
    assert todo[..|todo|] == todo;
    r := Ok(outcomes);
  }

  /** What a reconciliation has committed, reported or not. */
  lemma Account(start: Db, done: seq<Report>, db: Db, db': Db, l: Ledger, l': Ledger, work: WorkKey,
                r: Result<Option<Outcome>, RecoverError>)
    returns (done': seq<Report>)
    requires work in db.rows && RowsOk(db, l.chain) && Advanced(l, l') && db == FinishAll(start, done)
    requires Justified(db, db', work, l'.chain, r)
    ensures RowsOk(db', l'.chain) && db' == FinishAll(start, done')
    ensures done' == if db' == db then done else done + [Report(work, db'.rows[work].outcome)]
    ensures r.Ok? && r.value.Some? ==> done' == done + [Report(work, r.value.value)]
  {
    done' := done;
    if db' == db {
      RowsSurviveGrowth(db, l, l');
    } else {
      var o :| CommitAllowed(db, db', work, l'.chain, o) && (r.Ok? && r.value.Some? ==> r.value.value == o);
      RowsStayOk(db, db', work, l, l', o);
      FinishOneMore(start, done, work, o);
      done' := done + [Report(work, o)];
    }
  }

  /** One row of the list: skipped when its lock is taken, else reconciled and unlocked. */
  method RecoverOne(node: Node, store: Store, session: Session, work: WorkKey, ghost p: Pass)
    returns (r: Result<Option<Outcome>, RecoverError>, ghost done: seq<Report>)
    requires work in store.rows && session.held == {}
    requires p.ledger == node.ledger && p.now == store.Contents() && p.refused == session.refused
    modifies node, store, session
    ensures Touches(p, work, session.refused, store.Contents(), node.ledger, done)
    ensures session.held == {}
    ensures old(store.failures) <= store.failures && old(session.failures) <= session.failures
    ensures r == Err(DatabaseUnavailable) ==>
              old(store.failures) < store.failures || old(session.failures) < session.failures
    ensures r == Err(RpcUnavailable) ==> old(node.ledger).failures < node.ledger.failures
    ensures r == Ok(None) ==> done == p.done
    ensures r.Ok? && r.value.Some? ==> done == p.done + [Report(work, r.value.value)]
    ensures r.Ok? ==> store.rows[work].key in session.refused
                      || Handled(store.rows[work], old(node.ledger), node.ledger)
  {
    done := p.done;
    var key := store.rows[work].key;
    var locked := session.TryLock(key);
    if locked.None? {
      return Err(DatabaseUnavailable), done;
    }
    if !locked.value {
      return Ok(None), done;
    }
    assert RowOk(store.rows[work], node.ledger.chain, |store.log|);
    r := Reconcile(node, store, session.held, work);
    done := Account(p.start, p.done, p.now, store.Contents(), p.ledger, node.ledger, work, r);
    var ok := session.Unlock(key);
    if !ok {
      r := Err(DatabaseUnavailable);
    }
  }
}
