/** The governance ledger in the database: the append-only trigger, the foreign keys that anonymise rows, and the
    retention purge, over any sequence of transactions run one at a time. */
module GovernanceLog {

  import opened Wrappers

  /** What the trigger compares column by column, apart from the two foreign keys. */
  datatype Body = Body(action: string, entityType: string, entityId: Option<nat>, reason: Option<string>,
                       summary: map<string, nat>, requestId: Option<nat>, ip: Option<string>)

  datatype Row = Row(id: nat, body: Body, createdAt: int, updatedAt: int, actor: Option<nat>, record: Option<nat>)

  datatype Op = Update(before: Row, after: Row) | Delete(before: Row)

  /** A foreign key column that stays as it is or goes from set to NULL. */
  predicate Nulled(before: Option<nat>, after: Option<nat>) {
    after == before || (before.Some? && after.None?)
  }

  /** forbid_governance_mutation: whether the trigger lets a row change through. */
  predicate Guard(op: Op, purging: bool) {
    if op.Update? &&
       op.after.id == op.before.id && op.after.body == op.before.body &&
       op.after.createdAt == op.before.createdAt && op.after.updatedAt == op.before.updatedAt &&
       Nulled(op.before.actor, op.after.actor) && Nulled(op.before.record, op.after.record)
    then true
    else purging
  }

  /** What may become of a row that is never purged: itself, with nothing but its references forgotten. */
  predicate Descends(before: Row, after: Row) {
    && after == before.(actor := after.actor, record := after.record)
    && (after.actor != before.actor ==> after.actor == None)
    && (after.record != before.record ==> after.record == None)
  }

  /** Without the purge flag, a change passes exactly if the row survives as its own descendant. */
  lemma GuardIffDescends(op: Op)
    ensures Guard(op, false) <==> op.Update? && Descends(op.before, op.after)
  {
  }

  type Table = map<nat, Row>

  datatype Db = Db(committed: Table, pending: Table, purging: bool)

  datatype Stmt =
    | Begin
    | Insert(row: Row)
    | Change(id: nat, to: Row)
    | Remove(id: nat)
    | DeleteUser(user: nat)                // ON DELETE SET NULL fires on every row of that actor
    | DeleteRecord(record: nat)            // the same for an attendance record
    | Purge(cutoff: Option<int>, own: nat, now: int)
    | Commit
    | Rollback

  function Forget(row: Row, user: Option<nat>, record: Option<nat>): Row {
    row.(actor := if user.Some? && row.actor == user then None else row.actor,
         record := if record.Some? && row.record == record then None else row.record)
  }

  function ForgetAll(t: Table, user: Option<nat>, record: Option<nat>): Table {
    map id | id in t :: Forget(t[id], user, record)
  }

  function Older(t: Table, cutoff: int): set<nat> {
    set id | id in t && t[id].createdAt < cutoff
  }

  /** The row the purge writes about itself before it deletes anything. */
  function PurgeRow(own: nat, now: int, cutoff: int, candidates: nat): Row {
    Row(own, Body("GOVERNANCE_PURGE", "governance_log", None, Some("retention_purge"),
                  map["candidate_rows" := candidates], None, None), now, now, None, None)
  }

  function Logged(t: Table, cutoff: int, own: nat, now: int): Table {
    t[own := PurgeRow(own, now, cutoff, |Older(t, cutoff)|)]
  }

  function Purged(t: Table, cutoff: int, own: nat, now: int): Table {
    Logged(t, cutoff, own, now) - Older(Logged(t, cutoff, own, now), cutoff)
  }

  /** One statement. A refused or failing one raises, which ends the transaction and takes all its work back. */
  function Exec(db: Db, s: Stmt): Db {
    match s
    case Begin => Db(db.committed, db.committed, false)
    case Insert(row) =>
      if row.id in db.pending then Abort(db) else db.(pending := db.pending[row.id := row])
    case Change(id, to) =>
      if id !in db.pending then db
      else if !Guard(Update(db.pending[id], to), db.purging) || (to.id != id && to.id in db.pending) then Abort(db)
      else db.(pending := (db.pending - {id})[to.id := to])
    case Remove(id) =>
      if id !in db.pending then db
      else if !Guard(Delete(db.pending[id]), db.purging) then Abort(db)
      else db.(pending := db.pending - {id})
    case DeleteUser(user) => db.(pending := ForgetAll(db.pending, Some(user), None))
    case DeleteRecord(record) => db.(pending := ForgetAll(db.pending, None, Some(record)))
    case Purge(cutoff, own, now) =>
      if cutoff.None? || own in db.pending then Abort(db)
      else
        db.(pending := Purged(db.pending, cutoff.value, own, now), purging := true)
    case Commit => Db(db.pending, db.pending, false)
    case Rollback => Abort(db)
  }

  function Abort(db: Db): Db {
    Db(db.committed, db.committed, false)
  }

  function ExecAll(db: Db, stmts: seq<Stmt>): Db
    decreases |stmts|
  {
    if stmts == [] then db else ExecAll(Exec(db, stmts[0]), stmts[1..])
  }

  // ---------------------------------------------------------------- nothing is ever lost but by a purge

  ghost predicate Survives(before: Table, after: Table, id: nat) {
    id in before ==> id in after && Descends(before[id], after[id])
  }

  ghost predicate Survive(before: Table, after: Table) {
    forall id: nat :: Survives(before, after, id)
  }

  lemma SurviveTransitive(a: Table, b: Table, c: Table)
    requires Survive(a, b) && Survive(b, c)
    ensures Survive(a, c)
  {
    forall id: nat ensures Survives(a, c, id) {
      assert Survives(a, b, id) && Survives(b, c, id);
    }
  }

  /** The referential actions only ever forget references, so the trigger lets every one of them through. */
  lemma ForgettingSurvives(t: Table, user: Option<nat>, record: Option<nat>)
    ensures Survive(t, ForgetAll(t, user, record))
    ensures forall id: nat :: id in t ==> Guard(Update(t[id], ForgetAll(t, user, record)[id]), false)
  {
    forall id: nat ensures Survives(t, ForgetAll(t, user, record), id) {
    }
  }

  /** What gets in: an inserted row is there once its transaction commits and is gone if it rolls back; a statement that
      the trigger refuses takes back everything the transaction did, that insert included. */
  lemma TransactionsTakeEffect(db: Db, row: Row, id: nat, to: Row)
    requires row.id !in db.committed && id in db.committed && id != row.id
    ensures ExecAll(db, [Begin, Insert(row), Commit]).committed == db.committed[row.id := row]
    ensures ExecAll(db, [Begin, Insert(row), Rollback, Commit]).committed == db.committed
    ensures ExecAll(db, [Begin, Insert(row), Remove(id), Commit]).committed == db.committed
    ensures !(to.id == db.committed[id].id && Descends(db.committed[id], to)) ==>
              ExecAll(db, [Begin, Insert(row), Change(id, to), Commit]).committed == db.committed
    ensures to.id == id == db.committed[id].id && Descends(db.committed[id], to) ==>
              ExecAll(db, [Begin, Insert(row), Change(id, to), Commit]).committed == db.committed[row.id := row][id := to]
  {
    InOrder(db, Begin, Insert(row), Commit);
    GuardIffDescends(Update(db.committed[id], to));
    Four(db, Begin, Insert(row), Rollback, Commit);
    Four(db, Begin, Insert(row), Remove(id), Commit);
    Four(db, Begin, Insert(row), Change(id, to), Commit);
    if to.id == id == db.committed[id].id && Descends(db.committed[id], to) {
      assert (db.committed[row.id := row] - {id})[id := to] == db.committed[row.id := row][id := to];
    }
  }

  lemma InOrder(db: Db, a: Stmt, b: Stmt, c: Stmt)
    ensures ExecAll(db, [a, b, c]) == Exec(Exec(Exec(db, a), b), c)
  {
    assert [a, b, c][1..] == [b, c] && [b, c][1..] == [c] && [c][1..] == [];
    assert ExecAll(db, [a, b, c]) == ExecAll(Exec(db, a), [b, c]);
    assert ExecAll(Exec(db, a), [b, c]) == ExecAll(Exec(Exec(db, a), b), [c]);
    assert ExecAll(Exec(Exec(db, a), b), [c]) == ExecAll(Exec(Exec(Exec(db, a), b), c), []);
  }

  lemma Four(db: Db, a: Stmt, b: Stmt, c: Stmt, d: Stmt)
    ensures ExecAll(db, [a, b, c, d]) == Exec(Exec(Exec(Exec(db, a), b), c), d)
  {
    assert [a, b, c, d][1..] == [b, c, d];
    InOrder(Exec(db, a), b, c, d);
  }

  /** Rows sit under their own id. */
  ghost predicate Keyed(t: Table) {
    forall id: nat :: id in t ==> t[id].id == id
  }

  ghost predicate Armed(db: Db) {
    !db.purging && Survive(db.committed, db.pending) && Keyed(db.committed) && Keyed(db.pending)
  }

  lemma StatementKeepsRows(db: Db, s: Stmt)
    requires Armed(db) && !s.Purge?
    ensures Armed(Exec(db, s)) && Survive(db.committed, Exec(db, s).committed)
  {
    var db' := Exec(db, s);
    match s
    case DeleteUser(user) =>
      ForgettingSurvives(db.pending, Some(user), None);
      SurviveTransitive(db.committed, db.pending, db'.pending);
    case DeleteRecord(record) =>
      ForgettingSurvives(db.pending, None, Some(record));
      SurviveTransitive(db.committed, db.pending, db'.pending);
    case Insert(row) =>
      forall id: nat ensures Survives(db.committed, db'.pending, id) {
        assert Survives(db.committed, db.pending, id);
      }
    case Change(id, to) =>
      if id in db.pending {
        GuardIffDescends(Update(db.pending[id], to));
      }
      forall i: nat ensures Survives(db.committed, db'.pending, i) {
        assert Survives(db.committed, db.pending, i);
      }
    case _ =>
  }

  /** The append-only promise: from any point at which no purge is under way, over any statements of any
      transactions other than a purge, every committed row stays, and differs at most in that its actor or its
      attendance record was forgotten. */
  lemma {:induction false} NothingIsLost(db: Db, stmts: seq<Stmt>)
    requires Armed(db) && forall s :: s in stmts ==> !s.Purge?
    ensures Armed(ExecAll(db, stmts)) && Survive(db.committed, ExecAll(db, stmts).committed)
    decreases |stmts|
  {
    if stmts == [] {
      forall id: nat ensures Survives(db.committed, db.committed, id) {
      }
    } else {
      assert stmts[0] in stmts;
      StatementKeepsRows(db, stmts[0]);
      var next := Exec(db, stmts[0]);
      NothingIsLost(next, stmts[1..]);
      SurviveTransitive(db.committed, next.committed, ExecAll(next, stmts[1..]).committed);
    }
  }

  // ---------------------------------------------------------------- who can take a row away

  /** A statement that may take or alter the row: a purge whose cutoff is after its creation, or, in the transaction of
      a purge, an update or a delete of that very row. */
  predicate Takes(db: Db, s: Stmt, id: nat, created: int) {
    match s
    case Purge(cutoff, _, _) => cutoff.Some? && created < cutoff.value
    case Change(i, _) => i == id && db.purging
    case Remove(i) => i == id && db.purging
    case _ => false
  }

  predicate Taken(db: Db, stmts: seq<Stmt>, id: nat, created: int)
    decreases |stmts|
  {
    stmts != [] && (Takes(db, stmts[0], id, created) || Taken(Exec(db, stmts[0]), stmts[1..], id, created))
  }

  /** The row is committed, and the open transaction has at most forgotten its references. */
  ghost predicate Safe(db: Db, id: nat) {
    id in db.committed && Survives(db.committed, db.pending, id) && Keyed(db.committed) && Keyed(db.pending)
  }

  lemma ForgettingKeepsSafe(db: Db, user: Option<nat>, record: Option<nat>, id: nat)
    requires Safe(db, id)
    ensures Safe(db.(pending := ForgetAll(db.pending, user, record)), id)
  {
    ForgettingSurvives(db.pending, user, record);
    assert Survives(db.pending, ForgetAll(db.pending, user, record), id);
  }

  lemma StatementKeepsRow(db: Db, s: Stmt, id: nat)
    requires Safe(db, id) && !Takes(db, s, id, db.committed[id].createdAt)
    ensures Safe(Exec(db, s), id) && Survives(db.committed, Exec(db, s).committed, id)
  {
    match s
    case DeleteUser(user) => ForgettingKeepsSafe(db, Some(user), None, id);
    case DeleteRecord(record) => ForgettingKeepsSafe(db, None, Some(record), id);
    case Purge(cutoff, own, now) =>
      if cutoff.Some? && own !in db.pending {
        PurgedKeeps(db.pending, cutoff.value, own, now, id);
        assert Keyed(Purged(db.pending, cutoff.value, own, now));
      }
    case Change(i, to) =>
      if i in db.pending {
        GuardIffDescends(Update(db.pending[i], to));
      }
    case _ =>
  }

  /** Over any statements, purges included: a committed row stays, with at most its references forgotten, unless some
      statement took it: a purge whose cutoff is after its creation, or a change to it in the same transaction as a
      purge, while the trigger was disarmed. */
  lemma {:induction false} LossNeedsAPurge(db: Db, stmts: seq<Stmt>, id: nat)
    requires Safe(db, id)
    ensures Taken(db, stmts, id, db.committed[id].createdAt) || Survives(db.committed, ExecAll(db, stmts).committed, id)
    decreases |stmts|
  {
    if stmts != [] && !Takes(db, stmts[0], id, db.committed[id].createdAt) {
      StatementKeepsRow(db, stmts[0], id);
      LossNeedsAPurge(Exec(db, stmts[0]), stmts[1..], id);
    }
  }

  /** Nobody updates or deletes ledger rows while the trigger is disarmed. */
  predicate GlassIntact(db: Db, stmts: seq<Stmt>)
    decreases |stmts|
  {
    stmts == [] || (!((stmts[0].Change? || stmts[0].Remove?) && db.purging) && GlassIntact(Exec(db, stmts[0]), stmts[1..]))
  }

  lemma {:induction false} TakenByPurge(db: Db, stmts: seq<Stmt>, id: nat, created: int)
    requires Taken(db, stmts, id, created) && GlassIntact(db, stmts)
    ensures exists s :: s in stmts && s.Purge? && s.cutoff.Some? && created < s.cutoff.value
    decreases |stmts|
  {
    if Takes(db, stmts[0], id, created) {
      assert stmts[0] in stmts;
    } else {
      TakenByPurge(Exec(db, stmts[0]), stmts[1..], id, created);
      var s :| s in stmts[1..] && s.Purge? && s.cutoff.Some? && created < s.cutoff.value;
      assert s in stmts;
    }
  }

  /** If nobody updates or deletes ledger rows in the transaction of a purge, a row goes only by a purge whose cutoff is
      after its creation. */
  lemma RowsGoOnlyByPurge(db: Db, stmts: seq<Stmt>, id: nat)
    requires Safe(db, id) && GlassIntact(db, stmts)
    ensures Survives(db.committed, ExecAll(db, stmts).committed, id) ||
            exists s :: s in stmts && s.Purge? && s.cutoff.Some? && db.committed[id].createdAt < s.cutoff.value
  {
    LossNeedsAPurge(db, stmts, id);
    if Taken(db, stmts, id, db.committed[id].createdAt) {
      TakenByPurge(db, stmts, id, db.committed[id].createdAt);
    }
  }

  /** Why that has to be said: the flag stays on until the transaction ends, so after a purge that takes nothing a fresh
      row can be deleted. */
  lemma PurgeOpensTheGlass(row: Row)
    requires row.id == 0 && row.createdAt >= 5
    ensures var db := Db(map[0 := row], map[0 := row], false);
            0 !in ExecAll(db, [Purge(Some(5), 1, 9), Remove(0), Commit]).committed
  {
    var db := Db(map[0 := row], map[0 := row], false);
    var stmts := [Purge(Some(5), 1, 9), Remove(0), Commit];
    var purged := Exec(db, stmts[0]);
    PurgedKeeps(db.pending, 5, 1, 9, 0);
    var removed := Exec(purged, stmts[1]);
    assert removed.pending == purged.pending - {0};
    assert ExecAll(db, stmts) == Exec(removed, stmts[2]) by {
      assert stmts[1..] == [Remove(0), Commit] && stmts[1..][1..] == [Commit] && stmts[1..][1..][1..] == [];
    }
  }

  // ---------------------------------------------------------------- the purge

  lemma OlderOnceLogged(t: Table, cutoff: int, own: nat, now: int)
    requires own !in t
    ensures Older(Logged(t, cutoff, own, now), cutoff) == Older(t, cutoff) + if now < cutoff then {own} else {}
    ensures |Older(Logged(t, cutoff, own, now), cutoff)| == |Older(t, cutoff)| + if now < cutoff then 1 else 0
  {
    var logged := Logged(t, cutoff, own, now);
    assert own !in Older(t, cutoff);
    if now < cutoff {
      assert Older(logged, cutoff) == Older(t, cutoff) + {own};
    } else {
      assert Older(logged, cutoff) == Older(t, cutoff);
    }
  }

  ghost predicate KeepsFrom(before: Table, after: Table, cutoff: int, id: nat) {
    id in before ==> (id in after <==> before[id].createdAt >= cutoff) && (id in after ==> after[id] == before[id])
  }

  lemma PurgedKeeps(t: Table, cutoff: int, own: nat, now: int, id: nat)
    requires own !in t && id != own
    ensures KeepsFrom(t, Purged(t, cutoff, own, now), cutoff, id)
    ensures id in Purged(t, cutoff, own, now) ==> id in t
  {
    var logged := Logged(t, cutoff, own, now);
    assert id in logged <==> id in t;
    assert id in logged ==> logged[id] == t[id];
  }

  lemma OwnRowSurvivesIff(t: Table, cutoff: int, own: nat, now: int)
    ensures own in Purged(t, cutoff, own, now) <==> cutoff <= now
    ensures cutoff <= now ==> Purged(t, cutoff, own, now)[own] == PurgeRow(own, now, cutoff, |Older(t, cutoff)|)
  {
    var logged := Logged(t, cutoff, own, now);
    assert logged[own] == PurgeRow(own, now, cutoff, |Older(t, cutoff)|);
  }

  /** A purge removes exactly the rows older than the cutoff and adds at most its own row. That row survives, and
      the count it records is the number of rows removed, exactly if the cutoff is not after now. */
  lemma PurgeIsExact(t: Table, cutoff: int, own: nat, now: int)
    requires own !in t
    ensures var after := Purged(t, cutoff, own, now);
            var removed := |Older(Logged(t, cutoff, own, now), cutoff)|;
            && (forall id: nat :: id != own ==> KeepsFrom(t, after, cutoff, id) && (id in after ==> id in t))
            && (own in after <==> cutoff <= now)
            && (cutoff <= now ==> after[own] == PurgeRow(own, now, cutoff, removed))
            && (cutoff <= now ==>
                  && after[own].body.action == "GOVERNANCE_PURGE" && after[own].body.summary == map["candidate_rows" := removed]
                  && after[own].createdAt == now && after[own].actor == None)
            && removed == |set id | id in t && t[id].createdAt < cutoff| + (if now < cutoff then 1 else 0)
            && (removed == |Older(t, cutoff)| <==> cutoff <= now)
  {
    OlderOnceLogged(t, cutoff, own, now);
    OwnRowSurvivesIff(t, cutoff, own, now);
    assert Older(t, cutoff) == set id | id in t && t[id].createdAt < cutoff;
    forall id: nat | id != own
      ensures KeepsFrom(t, Purged(t, cutoff, own, now), cutoff, id)
      ensures id in Purged(t, cutoff, own, now) ==> id in t
    {
      PurgedKeeps(t, cutoff, own, now, id);
    }
  }

  class Session {
    var rows: Table
    var purging: bool
    var now: int

    /** purge_governance_before: refuse a missing cutoff, log the invocation, disarm the trigger for this
        transaction, then delete row by row. None is an exception. */
    method PurgeBefore(cutoff: Option<int>, own: nat) returns (purged: Option<nat>)
      requires own !in rows
      modifies this`rows, this`purging
      ensures purged.Some? <==> cutoff.Some?
      ensures cutoff.Some? ==>
                && Db(map[], rows, purging) == Exec(Db(map[], old(rows), old(purging)), Purge(cutoff, own, now))
                && purged.value == |Older(Logged(old(rows), cutoff.value, own, now), cutoff.value)|
      ensures cutoff.None? ==> rows == old(rows) && purging == old(purging)
    {
      if cutoff.None? {
        return None;
      }
      rows := Logged(rows, cutoff.value, own, now);
      purging := true;
      ghost var logged, all := rows, Older(rows, cutoff.value);
      var doomed := Older(rows, cutoff.value);
      var count := 0;
      while doomed != {}
        invariant doomed <= all && purging
        invariant rows == logged - (all - doomed)
        invariant count == |all| - |doomed|
        decreases |doomed|
      {
        var id :| id in doomed;
        assert id in rows;
        if !Guard(Delete(rows[id]), purging) {
          assert false;
        }
        rows := rows - {id};
        doomed := doomed - {id};
        count := count + 1;
      }
      purged := Some(count);
    }
  }
}
