/** The transactional service layer: every write and its ledger rows share one transaction, and any statement of
    it may fail. */
module AuditedWrites {

  import opened Transactions
  import opened Wrappers

  datatype Action = Created | Updated | Deleted | Consented

  datatype Event = Event(action: Action, entity: nat)

  datatype Change = Change(action: Action, entity: nat, value: Option<nat>)

  /** Entities, the history of the changes made to them, and the ledger. */
  datatype Db = Db(rows: map<nat, nat>, changes: seq<Change>, ledger: seq<Event>)

  function Made(db: Db, c: Change): Db {
    db.(rows := if c.value.Some? then db.rows[c.entity := c.value.value] else db.rows - {c.entity},
        changes := db.changes + [c])
  }

  /** A queued entry is an event, or a factory that learns the entity from the statement's result. */
  datatype Entry = Fixed(event: Event) | Factory(action: Action)

  function EventOf(e: Entry, result: nat): Event {
    match e
    case Fixed(event) => event
    case Factory(action) => Event(action, result)
  }

  function EventsOf(queue: seq<Entry>, result: nat): seq<Event> {
    if queue == [] then [] else [EventOf(queue[0], result)] + EventsOf(queue[1..], result)
  }

  datatype Outcome = Done | Missing | Failed

  /** What one object of the service does to the database. `faultAt` numbers the statement that raises: the write
      is 0, then one flush per queued event, then the commit. */
  datatype Call =
    | Create(id: nat, value: nat, faultAt: Option<nat>)
    | Update(id: nat, patch: Option<nat>, faultAt: Option<nat>)
    | Delete(id: nat, faultAt: Option<nat>)
    | Consent(id: nat, status: nat, faultAt: Option<nat>)

  datatype Service = Service(db: Db, queue: seq<Entry>)

  function ChangeOf(c: Call): Change
    requires c.Update? ==> c.patch.Some?
  {
    match c
    case Create(id, value, _) => Change(Created, id, Some(value))
    case Update(id, patch, _) => Change(Updated, id, patch)
    case Delete(id, _) => Change(Deleted, id, None)
    case Consent(id, status, _) => Change(Consented, id, Some(status))
  }

  /** The base class's create, update and delete, as functions of the queue they find. */
  function Base(s: Service, c: Call): (Service, Outcome)
    requires !c.Consent?
  {
    if c.Update? && c.patch.None? then
      (Service(s.db, []), if c.id in s.db.rows then Done else Missing)
    else if c.Create? == (c.id in s.db.rows) then
      // a create finds its key taken; an update or delete finds no row
      if c.Create? || Faulty(c.faultAt, 2) then (Service(s.db, []), Failed) else (s, Missing)
    else if Faulty(c.faultAt, |s.queue| + 2) then (Service(s.db, []), Failed)
    else
      var db := Made(s.db, ChangeOf(c));
      (Service(db.(ledger := db.ledger + EventsOf(s.queue, c.id)), []), Done)
  }

  function ActionOf(c: Call): Action {
    match c
    case Create(_, _, _) => Created
    case Update(_, _, _) => Updated
    case Delete(_, _) => Deleted
    case Consent(_, _, _) => Consented
  }

  /** The domain services on top: queue one event of the call's action, then call the base. A delete looks first,
      and queues nothing when there is no row. A consent decision does not go through the queue at all: its
      statements are the read of the old status, the update, the flush of its row and the commit. */
  function Serve(s: Service, c: Call): (Service, Outcome) {
    if !c.Create? && !c.Update? && c.id !in s.db.rows then (s, Missing)
    else if c.Consent? then
      if Faulty(c.faultAt, 4) then (s, Failed)
      else (s.(db := Made(s.db, ChangeOf(c)).(ledger := s.db.ledger + [Event(Consented, c.id)])), Done)
    else Base(s.(queue := s.queue + [if c.Create? then Factory(Created) else Fixed(Event(ActionOf(c), c.id))]), c)
  }

  // ---------------------------------------------------------------- neither is durable alone

  /** The ledger tells exactly what happened, in order: one row per change, of its action and entity. */
  predicate Told(c: Change, e: Event) {
    e == Event(c.action, c.entity)
  }

  ghost predicate Matched(db: Db) {
    |db.ledger| == |db.changes| && forall i: nat :: i < |db.changes| ==> Told(db.changes[i], db.ledger[i])
  }

  /** One call on a fresh object: nothing at all is durable, or the change and its one row both are. */
  lemma CallIsAtomic(db: Db, c: Call)
    ensures var (s, outcome) := Serve(Service(db, []), c);
            if outcome == Done && !(c.Update? && c.patch.None?) then
              && s.db.changes == db.changes + [ChangeOf(c)]
              && s.db.ledger == db.ledger + [Event(ActionOf(c), c.id)]
            else
              s.db == db
  {
    var queue := [if c.Create? then Factory(Created) else Fixed(Event(ActionOf(c), c.id))];
    assert [] + queue == queue && queue[1..] == [];
    assert EventsOf(queue, c.id) == [Event(ActionOf(c), c.id)];
  }

  /** What each call on a fresh object does, to the entities and to the ledger. */
  lemma CallMeans(db: Db, c: Call)
    ensures var (s, outcome) := Serve(Service(db, []), c);
            && (s.db == db || outcome == Done)
            && match c
               case Create(id, value, faultAt) =>
                 if id in db.rows || Faulty(faultAt, 3) then outcome == Failed
                 else outcome == Done && s.db.rows == db.rows[id := value] && s.db.ledger == db.ledger + [Event(Created, id)]
               case Update(id, patch, faultAt) =>
                 if id !in db.rows then outcome == if patch.Some? && Faulty(faultAt, 2) then Failed else Missing
                 else if patch.None? then outcome == Done && s.db == db
                 else if Faulty(faultAt, 3) then outcome == Failed
                 else outcome == Done && s.db.rows == db.rows[id := patch.value] && s.db.ledger == db.ledger + [Event(Updated, id)]
               case Delete(id, faultAt) =>
                 if id !in db.rows then outcome == Missing
                 else if Faulty(faultAt, 3) then outcome == Failed
                 else outcome == Done && s.db.rows == db.rows - {id} && s.db.ledger == db.ledger + [Event(Deleted, id)]
               case Consent(id, status, faultAt) =>
                 if id !in db.rows then outcome == Missing
                 else if Faulty(faultAt, 4) then outcome == Failed
                 else outcome == Done && s.db.rows == db.rows[id := status] && s.db.ledger == db.ledger + [Event(Consented, id)]
  {
    CallIsAtomic(db, c);
  }

  function Run(db: Db, calls: seq<Call>): Db {
    if calls == [] then db else Serve(Service(Run(db, calls[..|calls| - 1]), []), calls[|calls| - 1]).0.db
  }

  /** Over any sequence of creates, updates, deletes and consent decisions with an object each, with failures at any statements, the
      committed ledger and the committed changes correspond one to one. */
  lemma {:induction false} LedgerMatchesChanges(db: Db, calls: seq<Call>)
    requires Matched(db)
    ensures Matched(Run(db, calls))
  {
    if calls != [] {
      LedgerMatchesChanges(db, calls[..|calls| - 1]);
      var before := Run(db, calls[..|calls| - 1]);
      CallIsAtomic(before, calls[|calls| - 1]);
      var after := Run(db, calls);
      if after != before {
        forall i: nat | i < |after.changes| ensures Told(after.changes[i], after.ledger[i]) {
          assert i < |before.changes| ==> Told(before.changes[i], before.ledger[i]);
        }
      }
    }
  }

  /** The value the last change of an entity gave it. */
  function LastValue(changes: seq<Change>, id: nat): Option<nat> {
    if changes == [] then None
    else if changes[|changes| - 1].entity == id then changes[|changes| - 1].value
    else LastValue(changes[..|changes| - 1], id)
  }

  ghost predicate Current(db: Db, id: nat) {
    (id in db.rows <==> LastValue(db.changes, id).Some?) && (id in db.rows ==> Some(db.rows[id]) == LastValue(db.changes, id))
  }

  /** And the history is honest: from an empty store, every entity is what its last recorded change made it. */
  lemma {:induction false} RowsAreTheLastChanges(calls: seq<Call>, id: nat)
    ensures Current(Run(Db(map[], [], []), calls), id)
  {
    if calls != [] {
      var before := Run(Db(map[], [], []), calls[..|calls| - 1]);
      var c := calls[|calls| - 1];
      RowsAreTheLastChanges(calls[..|calls| - 1], id);
      CallIsAtomic(before, c);
      var after := Serve(Service(before, []), c).0.db;
      if after != before {
        assert after.changes[..|before.changes|] == before.changes;
      }
    }
  }

  lemma {:induction false} EventsOfLength(queue: seq<Entry>, result: nat)
    ensures |EventsOf(queue, result)| == |queue|
  {
    if queue != [] {
      EventsOfLength(queue[1..], result);
    }
  }

  /** On an object that was used before: a call that changes something keeps the correspondence exactly if no
      event was left in the queue. */
  lemma ReuseIsSafeIffQueueEmpty(s: Service, c: Call)
    requires Matched(s.db) && !c.Consent? && Serve(s, c).0.db != s.db
    ensures Matched(Serve(s, c).0.db) <==> s.queue == []
  {
    var queue := s.queue + [if c.Create? then Factory(Created) else Fixed(Event(ActionOf(c), c.id))];
    EventsOfLength(queue, c.id);
    if s.queue == [] {
      CallIsAtomic(s.db, c);
      var after := Serve(s, c).0.db;
      forall i: nat | i < |after.changes| ensures Told(after.changes[i], after.ledger[i]) {
        assert i < |s.db.changes| ==> Told(s.db.changes[i], s.db.ledger[i]);
      }
    }
  }

  /** What a call leaves in the queue: its own event, behind what was there, exactly if it was an update with
      something to set of a row that does not exist, and neither it nor its empty commit failed. */
  lemma LeavesEventIffUpdateMissed(s: Service, c: Call)
    ensures var left := Serve(s, c).0.queue;
            if c.Update? && c.patch.Some? && c.id !in s.db.rows && !Faulty(c.faultAt, 2) then
              left == s.queue + [Fixed(Event(Updated, c.id))] && Serve(s, c).1 == Missing
            else
              left == [] || (left == s.queue && (c.Consent? || (c.Delete? && c.id !in s.db.rows)))
  {
  }

  /** The failure in small: an update of student 7, who does not exist, and then a create of student 8 on the same
      object; the ledger says that 7 was updated. */
  lemma LeftoverEventIsCommitted()
    ensures var start := Service(Db(map[], [], []), []);
            var missed := Serve(start, Update(7, Some(1), None)).0;
            var (s, outcome) := Serve(missed, Create(8, 1, None));
            && outcome == Done
            && s.db.changes == [Change(Created, 8, Some(1))]
            && s.db.ledger == [Event(Updated, 7), Event(Created, 8)]
            && !Matched(s.db)
  {
    var queue := [Fixed(Event(Updated, 7)), Factory(Created)];
    assert [Fixed(Event(Updated, 7))] + [Factory(Created)] == queue;
    assert queue[1..] == [Factory(Created)] && queue[1..][1..] == [];
    assert EventsOf(queue, 8) == [Event(Updated, 7), Event(Created, 8)];
  }

  // ---------------------------------------------------------------- the services, statement by statement

  /** A request-scoped service object over its session. `pending` is what the open transaction sees. */
  class CrudService {
    var committed: Db
    var pending: Db
    var queue: seq<Entry>

    constructor (db: Db)
      ensures committed == db && pending == db && queue == []
    {
      committed, pending, queue := db, db, [];
    }

    ghost predicate Idle()
      reads this
    {
      pending == committed
    }

    function State(): Service
      reads this
    {
      Service(committed, queue)
    }

    method QueueAuditEvent(e: Entry)
      modifies this`queue
      ensures queue == old(queue) + [e]
    {
      queue := queue + [e];
    }

    /** The except branch of a transaction. */
    method Rollback()
      modifies this
      ensures committed == old(committed) && Idle() && queue == []
    {
      pending := committed;
      queue := [];
    }

    /** The end of a transaction block. */
    method Finish(ok: bool, faultAt: Option<nat>) returns (done: bool)
      modifies this
      ensures done <==> ok && faultAt != Some(0)
      ensures Idle() && committed == if done then old(pending) else old(committed)
      ensures queue == if done then old(queue) else []
    {
      done := false;
      if ok {
        var left;
        done, left := Statement(faultAt);
      }
      if done {
        committed := pending;
      } else {
        Rollback();
      }
    }

    /** Emits the queued events in order, one flush each, until one raises. */
    method DrainPendingAudit(result: nat, faultAt: Option<nat>) returns (ok: bool, left: Option<nat>)
      modifies this`pending, this`queue
      ensures ok <==> !Faulty(faultAt, |old(queue)|)
      ensures ok ==>
                && queue == []
                && pending == old(pending).(ledger := old(pending).ledger + EventsOf(old(queue), result))
                && left == if faultAt.Some? then Some(faultAt.value - |old(queue)|) else None
    {
      ok, left := true, faultAt;
      ghost var all, n := queue, 0;
      while queue != []
        invariant 0 <= n <= |all| && queue == all[n..]
        invariant ok && !Faulty(faultAt, n)
        invariant left == if faultAt.Some? then Some(faultAt.value - n) else None
        invariant pending == old(pending).(ledger := pending.ledger)
        invariant pending.ledger + EventsOf(queue, result) == old(pending).ledger + EventsOf(all, result)
        decreases |queue|
      {
        var e := EventOf(queue[0], result);
        queue := queue[1..];
        ok, left := Statement(left);
        if !ok {
          return;
        }
        pending := pending.(ledger := pending.ledger + [e]);
        n := n + 1;
      }
    }

    method Write(c: Change, faultAt: Option<nat>) returns (done: bool)
      requires Idle() && faultAt != Some(0)
      modifies this
      ensures done <==> !Faulty(faultAt, |old(queue)| + 2)
      ensures Idle() && queue == []
      ensures committed == if done then
          Made(old(committed), c).(ledger := old(committed).ledger + EventsOf(old(queue), c.entity)) else old(committed)
    {
      pending := Made(pending, c);
      var ok, left := DrainPendingAudit(c.entity, if faultAt.Some? then Some(faultAt.value - 1) else None);
      done := Finish(ok, left);
    }

    /** create of the base class; `id` is the key the database generates, refused when taken. */
    method Create(id: nat, value: nat, faultAt: Option<nat>) returns (outcome: Outcome)
      requires Idle()
      modifies this
      ensures Idle() && (State(), outcome) == Base(old(State()), Call.Create(id, value, faultAt))
    {
      if faultAt == Some(0) || id in pending.rows {
        Rollback();
        return Failed;
      }
      var done := Write(Change(Created, id, Some(value)), faultAt);
      outcome := if done then Done else Failed;
    }

    /** update: nothing to set clears the queue; a missing row commits an empty transaction and leaves it. */
    method Update(id: nat, patch: Option<nat>, faultAt: Option<nat>) returns (outcome: Outcome)
      requires Idle()
      modifies this
      ensures Idle() && (State(), outcome) == Base(old(State()), Call.Update(id, patch, faultAt))
    {
      if patch.None? {
        queue := [];
        return if id in pending.rows then Done else Missing;
      }
      if faultAt == Some(0) {
        Rollback();
        return Failed;
      }
      var done;
      if id in pending.rows {
        done := Write(Change(Updated, id, patch), faultAt);
        outcome := if done then Done else Failed;
      } else {
        done := Finish(true, if faultAt.Some? then Some(faultAt.value - 1) else None);
        outcome := if done then Missing else Failed;
      }
    }

    method Delete(id: nat, faultAt: Option<nat>) returns (outcome: Outcome)
      requires Idle()
      modifies this
      ensures Idle() && (State(), outcome) == Base(old(State()), Call.Delete(id, faultAt))
    {
      if faultAt == Some(0) {
        Rollback();
        return Failed;
      }
      var done;
      if id in pending.rows {
        done := Write(Change(Deleted, id, None), faultAt);
        outcome := if done then Done else Failed;
      } else {
        done := Finish(true, if faultAt.Some? then Some(faultAt.value - 1) else None);
        outcome := if done then Missing else Failed;
      }
    }

    method CreateStudent(id: nat, value: nat, faultAt: Option<nat>) returns (outcome: Outcome)
      requires Idle()
      modifies this
      ensures Idle() && (State(), outcome) == Serve(old(State()), Call.Create(id, value, faultAt))
    {
      QueueAuditEvent(Factory(Created));
      outcome := Create(id, value, faultAt);
    }

    method UpdateStudent(id: nat, patch: Option<nat>, faultAt: Option<nat>) returns (outcome: Outcome)
      requires Idle()
      modifies this
      ensures Idle() && (State(), outcome) == Serve(old(State()), Call.Update(id, patch, faultAt))
    {
      QueueAuditEvent(Fixed(Event(Updated, id)));
      outcome := Update(id, patch, faultAt);
    }

    method DeleteStudent(id: nat, faultAt: Option<nat>) returns (outcome: Outcome)
      requires Idle()
      modifies this
      ensures Idle() && (State(), outcome) == Serve(old(State()), Call.Delete(id, faultAt))
    {
      if id !in pending.rows {
        return Missing;
      }
      QueueAuditEvent(Fixed(Event(Deleted, id)));
      outcome := Delete(id, faultAt);
    }

    /** The module-level emit. A strict failure is the caller's to roll back; an advisory one never raises, but
        takes everything with it that the transaction had written before. */
    method Emit(event: Event, strict: bool, faultAt: Option<nat>) returns (raised: bool, left: Option<nat>)
      modifies this`pending
      ensures raised <==> strict && faultAt == Some(0)
      ensures faultAt != Some(0) ==> pending == old(pending).(ledger := old(pending).ledger + [event])
      ensures faultAt == Some(0) ==> pending == if strict then old(pending) else committed
      ensures faultAt.None? ==> left == None
      ensures !raised && faultAt.Some? && faultAt.value > 0 ==> left == Some(faultAt.value - 1)
    {
      var ok;
      ok, left := Statement(faultAt);
      raised := false;
      if ok {
        pending := pending.(ledger := pending.ledger + [event]);
      } else if strict {
        raised := true;
      } else {
        pending := committed;
      }
    }

    /** A consent decision, straight on the session: the update and its mandatory row commit together or not at all. */
    method RecordConsent(id: nat, status: nat, faultAt: Option<nat>) returns (outcome: Outcome)
      requires Idle()
      modifies this`committed, this`pending
      ensures Idle() && (State(), outcome) == Serve(old(State()), Call.Consent(id, status, faultAt))
    {
      if id !in pending.rows {
        return Missing;
      }
      var ok, left := Statement(faultAt);
      if ok {
        ok, left := Statement(left);
      }
      if ok {
        pending := Made(pending, Change(Consented, id, Some(status)));
        var raised;
        raised, left := Emit(Event(Consented, id), true, left);
        ok := !raised;
      }
      if ok {
        ok, left := Statement(left);
      }
      if ok {
        committed, outcome := pending, Done;
      } else {
        pending, outcome := committed, Failed;
      }
    }
  }
}
