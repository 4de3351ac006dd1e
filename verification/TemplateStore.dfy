/** The face-template table and its audit log, as written by the two code paths
    that create templates: the enrollment endpoint and the bulk importer. */
module TemplateStore {

  import opened Transactions
  import opened Wrappers

  /** The unit of rotation: one pose of one student. */
  datatype Slot = Slot(student: nat, pose: string)

  /** What an extraction yields and a template stores. */
  datatype Face = Face(embedding: seq<real>, quality: real)

  datatype Template = Template(id: nat, slot: Slot, face: Face, version: nat, active: bool)

  datatype AuditAction = Archived | Created

  datatype AuditEntry = AuditEntry(template: nat, slot: Slot, action: AuditAction, quality: real)

  /** A TEMPLATE_ENROLL row of the governance ledger. */
  datatype Enrolment = Enrolment(template: nat, slot: Slot, replaced: nat)

  datatype Db = Db(templates: seq<Template>, audit: seq<AuditEntry>, ledger: seq<Enrolment>)

  const DEFAULT_VERSION: nat := 1

  predicate Hits(t: Template, slot: Slot) {
    t.active && t.slot == slot
  }

  /** The active faces of a slot, oldest first. */
  function Faces(ts: seq<Template>, slot: Slot): seq<Face> {
    if ts == [] then []
    else
      var last := ts[|ts| - 1];
      Faces(ts[..|ts| - 1], slot) + if Hits(last, slot) then [last.face] else []
  }

  function Archive(ts: seq<Template>, slot: Slot): (r: seq<Template>)
    ensures |r| == |ts|
  {
    if ts == [] then []
    else
      var last := ts[|ts| - 1];
      Archive(ts[..|ts| - 1], slot) + [if Hits(last, slot) then last.(active := false) else last]
  }

  function ArchiveLog(ts: seq<Template>, slot: Slot): seq<AuditEntry> {
    if ts == [] then []
    else
      var last := ts[|ts| - 1];
      ArchiveLog(ts[..|ts| - 1], slot)
      + if Hits(last, slot) then [AuditEntry(last.id, slot, Archived, last.face.quality)] else []
  }

  /** Nothing stored is ever removed: archiving only clears the active flag. */
  lemma {:induction false} ArchiveKeeps(ts: seq<Template>, slot: Slot)
    ensures forall t :: 0 <= t < |ts| ==> Archive(ts, slot)[t] == if Hits(ts[t], slot) then ts[t].(active := false) else ts[t]
  {
    if ts != [] {
      ArchiveKeeps(ts[..|ts| - 1], slot);
    }
  }

  lemma ArchiveStep(ts: seq<Template>, slot: Slot, i: nat)
    requires i < |ts|
    ensures Archive(ts[..i + 1], slot)
         == Archive(ts[..i], slot) + [if Hits(ts[i], slot) then ts[i].(active := false) else ts[i]]
    ensures ArchiveLog(ts[..i + 1], slot)
         == ArchiveLog(ts[..i], slot)
            + if Hits(ts[i], slot) then [AuditEntry(ts[i].id, slot, Archived, ts[i].face.quality)] else []
  {
    assert ts[..i + 1][..i] == ts[..i];
  }

  /** Archive whatever is active in the slot, then insert one active template. */
  function Rotate(db: Db, slot: Slot, face: Face, version: nat): Db {
    var id := |db.templates|;
    Db(Archive(db.templates, slot) + [Template(id, slot, face, version, true)],
       db.audit + ArchiveLog(db.templates, slot) + [AuditEntry(id, slot, Created, face.quality)],
       db.ledger)
  }

  /** The importer's insert-rotate-or-skip. */
  function Upsert(db: Db, slot: Slot, face: Face, version: nat, overwrite: bool): Db {
    if Faces(db.templates, slot) != [] && !overwrite then db else Rotate(db, slot, face, version)
  }

  /** How many audit entries of one kind a slot has. */
  function Tally(log: seq<AuditEntry>, slot: Slot, action: AuditAction): nat {
    if log == [] then 0
    else
      var last := log[|log| - 1];
      Tally(log[..|log| - 1], slot, action) + if last.slot == slot && last.action == action then 1 else 0
  }

  lemma {:induction false} ArchiveFaces(ts: seq<Template>, slot: Slot, other: Slot)
    ensures Faces(Archive(ts, slot), other) == if other == slot then [] else Faces(ts, other)
  {
    if ts != [] {
      ArchiveFaces(ts[..|ts| - 1], slot, other);
      var a := Archive(ts, slot);
      assert a[..|a| - 1] == Archive(ts[..|ts| - 1], slot);
    }
  }

  lemma {:induction false} FacesSnoc(ts: seq<Template>, t: Template, slot: Slot)
    ensures Faces(ts + [t], slot) == Faces(ts, slot) + if Hits(t, slot) then [t.face] else []
  {
    assert (ts + [t])[..|ts|] == ts;
  }

  /** What an upsert does to the active faces of every slot, its own and the others. */
  lemma UpsertFaces(db: Db, slot: Slot, face: Face, version: nat, overwrite: bool, other: Slot)
    ensures Faces(Upsert(db, slot, face, version, overwrite).templates, other)
         == if other != slot then Faces(db.templates, other)
            else if Faces(db.templates, slot) != [] && !overwrite then Faces(db.templates, slot)
            else [face]
  {
    ArchiveFaces(db.templates, slot, other);
    FacesSnoc(Archive(db.templates, slot), Template(|db.templates|, slot, face, version, true), other);
  }

  lemma {:induction false} TallySnoc(log: seq<AuditEntry>, e: AuditEntry, slot: Slot, action: AuditAction)
    ensures Tally(log + [e], slot, action)
         == Tally(log, slot, action) + if e.slot == slot && e.action == action then 1 else 0
  {
    assert (log + [e])[..|log|] == log;
  }

  /** Archiving a slot adds one entry per active template of that slot, and nothing for any other. */
  lemma {:induction false} ArchiveLogTally(log: seq<AuditEntry>, ts: seq<Template>, slot: Slot, other: Slot, action: AuditAction)
    ensures Tally(log + ArchiveLog(ts, slot), other, action)
         == Tally(log, other, action) + if other == slot && action == Archived then |Faces(ts, slot)| else 0
  {
    if ts == [] {
      assert log + ArchiveLog(ts, slot) == log;
    } else {
      var last := ts[|ts| - 1];
      var rest := ArchiveLog(ts[..|ts| - 1], slot);
      ArchiveLogTally(log, ts[..|ts| - 1], slot, other, action);
      if Hits(last, slot) {
        var e := AuditEntry(last.id, slot, Archived, last.face.quality);
        TallySnoc(log + rest, e, other, action);
        assert log + (rest + [e]) == log + rest + [e];
      } else {
        assert ArchiveLog(ts, slot) == rest;
      }
    }
  }

  /** Template `t` was active in the slot, and the entry says so. */
  predicate Archives(ts: seq<Template>, slot: Slot, t: nat, e: AuditEntry)
    requires t < |ts|
  {
    ts[t].active && ts[t].slot == slot && e == AuditEntry(ts[t].id, slot, Archived, ts[t].face.quality)
  }

  /** The archive entries are those of the slot's active templates, with their ids and qualities, and no others. */
  lemma {:induction false} ArchiveLogTells(ts: seq<Template>, slot: Slot, e: AuditEntry)
    ensures e in ArchiveLog(ts, slot) <==> exists t: nat :: t < |ts| && Archives(ts, slot, t, e)
  {
    if ts != [] {
      var n := |ts| - 1;
      ArchiveLogTells(ts[..n], slot, e);
      if t: nat :| t < n && Archives(ts[..n], slot, t, e) {
        assert Archives(ts, slot, t, e);
      }
      if e == AuditEntry(ts[n].id, slot, Archived, ts[n].face.quality) && Hits(ts[n], slot) {
        assert Archives(ts, slot, n, e);
      }
      forall t: nat | t < |ts| && Archives(ts, slot, t, e) ensures e in ArchiveLog(ts, slot) {
        if t < n {
          assert Archives(ts[..n], slot, t, e);
        } else {
          assert Hits(ts[n], slot);
        }
      }
    }
  }

  /** A slot holds at most one active template, and the audit log accounts for it:
      creations minus archivals is the number of active templates. */
  ghost predicate BalancedAt(db: Db, slot: Slot) {
    && |Faces(db.templates, slot)| <= 1
    && Tally(db.audit, slot, Created) == Tally(db.audit, slot, Archived) + |Faces(db.templates, slot)|
  }

  ghost predicate Balanced(db: Db) {
    forall slot :: BalancedAt(db, slot)
  }

  lemma RotateKeepsBalance(db: Db, slot: Slot, face: Face, version: nat, other: Slot)
    requires BalancedAt(db, other)
    ensures BalancedAt(Rotate(db, slot, face, version), other)
  {
    UpsertFaces(db, slot, face, version, true, other);
    var e := AuditEntry(|db.templates|, slot, Created, face.quality);
    var log := db.audit + ArchiveLog(db.templates, slot);
    forall action ensures Tally(log + [e], other, action) ==
        Tally(db.audit, other, action)
        + (if other == slot && action == Archived then |Faces(db.templates, slot)| else 0)
        + (if e.slot == other && e.action == action then 1 else 0)
    {
      ArchiveLogTally(db.audit, db.templates, slot, other, action);
      TallySnoc(log, e, other, action);
    }
  }

  /** The enrolment endpoint: always rotates, and puts the enrolment on record. */
  function Enroll(db: Db, slot: Slot, face: Face): Db {
    var enrolment := Enrolment(|db.templates|, slot, |Faces(db.templates, slot)|);
    Rotate(db, slot, face, DEFAULT_VERSION).(ledger := db.ledger + [enrolment])
  }

  /** What an enrolment leaves: its face alone in its slot, as an active template of version 1; every other slot as it
      was; nothing removed; and a row that names the template and how many active ones it replaced. */
  lemma EnrollMeans(db: Db, slot: Slot, face: Face, other: Slot)
    ensures var after := Enroll(db, slot, face);
            && Faces(after.templates, other) == (if other == slot then [face] else Faces(db.templates, other))
            && |after.templates| == |db.templates| + 1
            && after.templates[|db.templates|] == Template(|db.templates|, slot, face, 1, true)
            && (forall t :: 0 <= t < |db.templates| ==>
                  after.templates[t] == db.templates[t].(active := db.templates[t].active && db.templates[t].slot != slot))
            && after.ledger == db.ledger + [Enrolment(|db.templates|, slot, |Faces(db.templates, slot)|)]
            && after.audit == db.audit + ArchiveLog(db.templates, slot) + [AuditEntry(|db.templates|, slot, Created, face.quality)]
  {
    UpsertFaces(db, slot, face, 1, true, other);
    ArchiveKeeps(db.templates, slot);
  }

  /** The same of an import of version `version`, but for the ledger. */
  lemma UpsertMeans(db: Db, slot: Slot, face: Face, version: nat, overwrite: bool)
    ensures var after := Upsert(db, slot, face, version, overwrite);
            if Faces(db.templates, slot) != [] && !overwrite then after == db
            else
              && |after.templates| == |db.templates| + 1
              && after.templates[|db.templates|] == Template(|db.templates|, slot, face, version, true)
              && (forall t :: 0 <= t < |db.templates| ==>
                    after.templates[t] == db.templates[t].(active := db.templates[t].active && db.templates[t].slot != slot))
              && after.ledger == db.ledger
              && after.audit == db.audit + ArchiveLog(db.templates, slot) + [AuditEntry(|db.templates|, slot, Created, face.quality)]
  {
    ArchiveKeeps(db.templates, slot);
  }

  /** One serial write transaction; `faultAt` numbers the statement that raises. */
  datatype Write =
    | EnrollApi(slot: Slot, face: Face, faultAt: Option<nat>)
    | ImportRow(slot: Slot, face: Face, version: nat, overwrite: bool, faultAt: Option<nat>)

  /** The importer selects, flushes and commits, or stops after the select. */
  function ImportStatements(occupied: bool, overwrite: bool): nat {
    if occupied && !overwrite then 1 else 3
  }

  /** The endpoint selects, flushes the template, flushes its ledger row and commits. */
  const ENROLL_STATEMENTS: nat := 4

  predicate Fails(db: Db, w: Write) {
    match w
    case EnrollApi(_, _, faultAt) => Faulty(faultAt, ENROLL_STATEMENTS)
    case ImportRow(slot, _, _, overwrite, faultAt) => Faulty(faultAt, ImportStatements(Faces(db.templates, slot) != [], overwrite))
  }

  function Apply(db: Db, w: Write): Db {
    if Fails(db, w) then db
    else match w
      case EnrollApi(slot, face, _) => Enroll(db, slot, face)
      case ImportRow(slot, face, version, overwrite, _) => Upsert(db, slot, face, version, overwrite)
  }

  function ApplyAll(db: Db, ws: seq<Write>): Db {
    if ws == [] then db else Apply(ApplyAll(db, ws[..|ws| - 1]), ws[|ws| - 1])
  }

  /** Any history of enrollments and imports, failed ones included, leaves the table balanced. */
  lemma {:induction false} EveryHistoryIsBalanced(ws: seq<Write>)
    ensures Balanced(ApplyAll(Db([], [], []), ws))
  {
    if ws != [] {
      EveryHistoryIsBalanced(ws[..|ws| - 1]);
      var db := ApplyAll(Db([], [], []), ws[..|ws| - 1]);
      var w := ws[|ws| - 1];
      forall slot ensures BalancedAt(Apply(db, w), slot) {
        RotateKeepsBalance(db, w.slot, w.face, if w.ImportRow? then w.version else DEFAULT_VERSION, slot);
      }
    }
  }

  /** The slots of the committed API enrolments of a history, in order. */
  function Enrolled(db: Db, ws: seq<Write>): seq<Slot> {
    if ws == [] then []
    else
      var last := ws[|ws| - 1];
      Enrolled(db, ws[..|ws| - 1]) +
      if last.EnrollApi? && !Fails(ApplyAll(db, ws[..|ws| - 1]), last) then [last.slot] else []
  }

  /** Row `i` of the ledger stands for an enrolment into `slot`, and names a template of it. */
  predicate OnRecord(db: Db, i: nat, slot: Slot)
    requires i < |db.ledger|
  {
    var row := db.ledger[i];
    row.slot == slot && row.template < |db.templates| && db.templates[row.template].slot == slot
  }

  ghost predicate AllOnRecord(db: Db, slots: seq<Slot>) {
    |db.ledger| == |slots| && forall i: nat :: i < |slots| ==> OnRecord(db, i, slots[i])
  }

  lemma RotateKeepsSlots(db: Db, slot: Slot, face: Face, version: nat)
    ensures var after := Rotate(db, slot, face, version).templates;
            && |after| == |db.templates| + 1 && after[|db.templates|].slot == slot
            && forall t :: 0 <= t < |db.templates| ==> after[t].slot == db.templates[t].slot
  {
    ArchiveKeeps(db.templates, slot);
  }

  /** Enrolments through the endpoint and their ledger rows are durable together: over any history, each committed
      enrolment has exactly one row, in order, and nothing else has any. */
  lemma {:induction false} EveryEnrolmentIsOnRecord(ws: seq<Write>)
    ensures AllOnRecord(ApplyAll(Db([], [], []), ws), Enrolled(Db([], [], []), ws))
  {
    if ws != [] {
      var start, w := Db([], [], []), ws[|ws| - 1];
      EveryEnrolmentIsOnRecord(ws[..|ws| - 1]);
      var db, slots := ApplyAll(start, ws[..|ws| - 1]), Enrolled(start, ws[..|ws| - 1]);
      RotateKeepsSlots(db, w.slot, w.face, if w.ImportRow? then w.version else DEFAULT_VERSION);
      var after, more := Apply(db, w), Enrolled(start, ws);
      forall i: nat | i < |more| ensures OnRecord(after, i, more[i]) {
        assert i < |slots| ==> OnRecord(db, i, slots[i]);
      }
    }
  }

  datatype UpsertOutcome = Imported | Rotated | SkippedActiveExists | DbError

  /** The committed table, and the session that a writer works on until its commit. */
  class Store {
    var committed: Db
    var session: Db

    constructor (db: Db)
      ensures Value() == db
    {
      committed, session := db, db;
    }

    function Value(): Db
      reads this
    {
      committed
    }

    /** The archive loop over the locked rows, and the insert, in the open session. */
    method StageRotation(slot: Slot, face: Face, version: nat) returns (id: nat, replaced: nat)
      modifies this`session
      ensures session == Rotate(old(session), slot, face, version)
      ensures id == |old(session).templates| && replaced == |Faces(old(session).templates, slot)|
    {
      var ts, log, was := session.templates, session.audit, session.templates;
      replaced := 0;
      for i := 0 to |ts|
        invariant |ts| == |was| && ts[..i] == Archive(was[..i], slot) && ts[i..] == was[i..]
        invariant log == session.audit + ArchiveLog(was[..i], slot) && replaced == |Faces(was[..i], slot)|
        invariant session == old(session)
      {
        ArchiveStep(was, slot, i);
        assert was[..i + 1][..i] == was[..i];
        assert ts[i] == ts[i..][0] == was[i];
        if Hits(ts[i], slot) {
          log := log + [AuditEntry(ts[i].id, slot, Archived, ts[i].face.quality)];
          ts := ts[i := ts[i].(active := false)];
          replaced := replaced + 1;
        }
        assert ts[..i + 1] == ts[..i] + [ts[i]] && ts[i + 1..] == was[i..][1..];
      }
      assert ts[..|ts|] == ts && was[..|was|] == was;
      id := |ts|;
      session := session.(templates := ts + [Template(id, slot, face, version, true)],
                          audit := log + [AuditEntry(id, slot, Created, face.quality)]);
    }

    /** The last statement of a session: whatever is staged becomes durable, or nothing does. */
    method Commit(faultAt: Option<nat>) returns (done: bool)
      modifies this
      ensures done <==> faultAt != Some(0)
      ensures committed == (if done then old(session) else old(committed)) && session == committed
    {
      var left;
      done, left := Statement(faultAt);
      if done {
        committed := session;
      } else {
        session := committed;
      }
    }

    /** Importer upsert: skip, insert or rotate in one commit; an exception ends the session. */
    method Upsert(slot: Slot, face: Face, version: nat, overwrite: bool, faultAt: Option<nat>) returns (outcome: UpsertOutcome)
      modifies this
      ensures Value() == Apply(old(Value()), ImportRow(slot, face, version, overwrite, faultAt))
      ensures outcome == if Fails(old(Value()), ImportRow(slot, face, version, overwrite, faultAt)) then DbError
                         else if Faces(old(Value()).templates, slot) == [] then Imported
                         else if overwrite then Rotated else SkippedActiveExists
    {
      session := committed;
      var ok, left := Statement(faultAt);
      if !ok {
        return DbError;
      }
      var actives := Faces(session.templates, slot);
      if actives != [] && !overwrite {
        return SkippedActiveExists;
      }
      var id, replaced := StageRotation(slot, face, version);
      ok, left := Statement(left);
      if !ok {
        session := committed;
        return DbError;
      }
      ok := Commit(left);
      outcome := if !ok then DbError else if actives != [] then Rotated else Imported;
    }

    /** Enrollment endpoint: rotate, put on record, commit; an exception at any statement rolls everything back. */
    method Enroll(slot: Slot, face: Face, faultAt: Option<nat>) returns (done: bool)
      modifies this
      ensures Value() == Apply(old(Value()), EnrollApi(slot, face, faultAt))
      ensures done <==> !Faulty(faultAt, ENROLL_STATEMENTS)
    {
      session := committed;
      var ok, left := Statement(faultAt);
      if !ok {
        return false;
      }
      var id, replaced := StageRotation(slot, face, DEFAULT_VERSION);
      ok, left := Statement(left);
      if ok {
        ok, left := Statement(left);
      }
      if !ok {
        session := committed;
        return false;
      }
      session := session.(ledger := session.ledger + [Enrolment(id, slot, replaced)]);
      done := Commit(left);
    }
  }
}
