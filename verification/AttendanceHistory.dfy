/** Any history of sightings, evaluations, overrides and exports, with any statement of any of them raising: what is
    in the ledger, and what determines every row. */
module AttendanceHistory {

  import opened Attendance
  import opened Transactions
  import opened Wrappers

  datatype Student = Student(number: nat, active: bool) // the number as its rank among student numbers

  /** Reference data: whether a course or a room is active; students. */
  datatype Directory = Directory(courses: map<nat, bool>, students: map<nat, Student>, rooms: map<nat, bool>)

  /** What was written, in terms of what it was written from: the counts of an evaluation are of the first `seen`
      sightings. */
  datatype Change =
    | Evaluation(course: nat, day: int, threshold: int, now: int, seen: nat, counts: map<Key, nat>)
    | Override(key: Key, from: Option<Status>, status: Status, reason: string, now: int)

  datatype Db = Db(dir: Directory, sightings: seq<Sighting>, table: Table, changes: seq<Change>, ledger: seq<Event>)

  datatype Outcome = Done | NotFound | Invalid | Failed

  /** `faultAt` numbers the statement that raises. */
  datatype Op =
    | Administer(dir: Directory)
    | Sight(student: Option<nat>, camera: string, course: nat, room: Option<nat>, at: int, confidence: Option<real>,
            faultAt: Option<nat>)
    | Evaluate(course: nat, day: int, threshold: int, now: int, faultAt: Option<nat>)
    | Correct(key: Key, status: Status, reason: string, now: int, faultAt: Option<nat>)
    | ExportDay(course: nat, day: int, faultAt: Option<nat>)

  function RequireActive(found: bool, active: bool): Outcome {
    if !found then NotFound else if !active then Invalid else Done
  }

  function RequireCourse(dir: Directory, course: nat): Outcome {
    RequireActive(course in dir.courses, course in dir.courses && dir.courses[course])
  }

  function RequireStudent(dir: Directory, student: nat): Outcome {
    RequireActive(student in dir.students, student in dir.students && dir.students[student].active)
  }

  function RequireRoom(dir: Directory, room: nat): Outcome {
    RequireActive(room in dir.rooms, room in dir.rooms && dir.rooms[room])
  }

  function SeenKeys(sightings: seq<Sighting>, course: nat, day: int): set<Key> {
    if sightings == [] then {}
    else
      var last := sightings[|sightings| - 1];
      SeenKeys(sightings[..|sightings| - 1], course, day) +
      if last.student.Some? && Anyone(last, course, day) then {Key(last.student.value, course, day)} else {}
  }

  /** The students of a course and day: recorded or seen. */
  function Population(t: Table, sightings: seq<Sighting>, course: nat, day: int): set<Key> {
    (set k | k in t && k.course == course && k.day == day) + SeenKeys(sightings, course, day)
  }

  function CountsOf(db: Db, course: nat, day: int): map<Key, nat> {
    map k | k in Population(db.table, db.sightings, course, day) :: Count(db.sightings, k)
  }

  /** What a change makes of one row. */
  function Rewrite(before: Option<Record>, c: Change, k: Key): Option<Record> {
    match c
    case Evaluation(_, _, threshold, now, _, counts) =>
      if k in counts then Some(Verdict(before, counts[k], threshold, now)) else before
    case Override(key, _, status, reason, now) =>
      if k == key then Some(Overridden(before, status, reason, now)) else before
  }

  /** What it makes of the table. */
  function Overlay(t: Table, c: Change): Table {
    match c
    case Evaluation(_, _, threshold, now, _, counts) =>
      t + map k | k in counts :: Verdict(Get(t, k), counts[k], threshold, now)
    case Override(key, _, status, reason, now) => t[key := Overridden(Get(t, key), status, reason, now)]
  }

  function EventOf(c: Change): Event {
    match c
    case Evaluation(course, day, _, _, _, counts) => AttendanceEvaluate(course, day, |counts|)
    case Override(key, from, status, _, _) => OverrideApply(key, from, status)
  }

  function Commit(db: Db, c: Change): Db {
    db.(table := Overlay(db.table, c), changes := db.changes + [c], ledger := db.ledger + [EventOf(c)])
  }

  /** Course; sightings and existing rows; upsert, flush and commit. */
  function RunEvaluate(db: Db, course: nat, day: int, threshold: int, now: int, faultAt: Option<nat>): (Db, Outcome) {
    if threshold < 1 then (db, Invalid)
    else if Faulty(faultAt, 1) then (db, Failed)
    else if RequireCourse(db.dir, course) != Done then (db, RequireCourse(db.dir, course))
    else if Faulty(faultAt, 3) then (db, Failed)
    else
      var counts := CountsOf(db, course, day);
      if counts.Keys == {} then (db, Done)
      else if Faulty(faultAt, 6) then (db, Failed)
      else (Commit(db, Evaluation(course, day, threshold, now, |db.sightings|, counts)), Done)
  }

  /** Course and student; previous status, upsert, flush and commit. */
  function RunOverride(db: Db, k: Key, status: Status, reason: string, now: int, faultAt: Option<nat>): (Db, Outcome) {
    if (status != Present && status != Absent) || Strip(reason) == "" then (db, Invalid)
    else if Faulty(faultAt, 1) then (db, Failed)
    else if RequireCourse(db.dir, k.course) != Done then (db, RequireCourse(db.dir, k.course))
    else if Faulty(faultAt, 2) then (db, Failed)
    else if RequireStudent(db.dir, k.student) != Done then (db, RequireStudent(db.dir, k.student))
    else if Faulty(faultAt, 6) then (db, Failed)
    else
      (Commit(db, OverrideOf(db, k, status, reason, now)), Done)
  }

  /** Whether an accepted sighting's references resolve, and how many statements that takes. */
  function References(dir: Directory, student: Option<nat>, course: nat, room: Option<nat>, faultAt: Option<nat>): (Outcome, nat) {
    var n := if student.Some? then 1 else 0;
    if student.Some? && Faulty(faultAt, 1) then (Failed, 1)
    else if student.Some? && RequireStudent(dir, student.value) != Done then (RequireStudent(dir, student.value), 1)
    else if Faulty(faultAt, n + 1) then (Failed, n + 1)
    else if RequireCourse(dir, course) != Done then (RequireCourse(dir, course), n + 1)
    else if room.None? then (Done, n + 1)
    else if Faulty(faultAt, n + 2) then (Failed, n + 2)
    else (RequireRoom(dir, room.value), n + 2)
  }

  function RunSight(db: Db, s: Sighting, camera: string, room: Option<nat>, faultAt: Option<nat>): (Db, Outcome) {
    if Strip(camera) == "" || (s.confidence.Some? && !(0.0 <= s.confidence.value <= 1.0)) then (db, Invalid)
    else
      var (refused, n) := References(db.dir, s.student, s.course, room, faultAt);
      if refused != Done then (db, refused)
      else if Faulty(faultAt, n + 2) then (db, Failed)
      else (db.(sightings := db.sightings + [s]), Done)
  }

  /** Course, records, sightings and identities; the flush of an advisory row, whose failure is swallowed; commit. */
  function RunExport(db: Db, course: nat, day: int, faultAt: Option<nat>): (Db, Outcome) {
    if Faulty(faultAt, 1) then (db, Failed)
    else if RequireCourse(db.dir, course) != Done then (db, RequireCourse(db.dir, course))
    else if Faulty(faultAt, 3) then (db, Failed)
    else
      var n := |Population(db.table, db.sightings, course, day)|;
      if n == 0 then (db, Done)
      else if faultAt == Some(3) || faultAt == Some(5) then (db, Failed)
      else if faultAt == Some(4) then (db, Done)
      else (db.(ledger := db.ledger + [Export(course, day, n)]), Done)
  }

  function Run(db: Db, op: Op): (Db, Outcome) {
    match op
    case Administer(dir) => (db.(dir := dir), Done)
    case Sight(student, camera, course, room, at, confidence, faultAt) =>
      RunSight(db, Sighting(student, course, at, confidence), camera, room, faultAt)
    case Evaluate(course, day, threshold, now, faultAt) => RunEvaluate(db, course, day, threshold, now, faultAt)
    case Correct(key, status, reason, now, faultAt) => RunOverride(db, key, status, reason, now, faultAt)
    case ExportDay(course, day, faultAt) => RunExport(db, course, day, faultAt)
  }

  function RunAll(db: Db, ops: seq<Op>): Db {
    if ops == [] then db else Run(RunAll(db, ops[..|ops| - 1]), ops[|ops| - 1]).0
  }

  // ---------------------------------------------------------------- the population

  lemma {:induction false} SeenKeysAreSeen(sightings: seq<Sighting>, course: nat, day: int, k: Key)
    ensures k in SeenKeys(sightings, course, day) <==> k.course == course && k.day == day && Count(sightings, k) > 0
  {
    if sightings != [] {
      SeenKeysAreSeen(sightings[..|sightings| - 1], course, day, k);
    }
  }

  lemma PopulationIsConcerned(t: Table, sightings: seq<Sighting>, course: nat, day: int, k: Key)
    ensures k in Population(t, sightings, course, day) <==> k.course == course && k.day == day && Concerned(t, sightings, k)
  {
    SeenKeysAreSeen(sightings, course, day, k);
  }

  /** An evaluation, as the change it is, settles exactly its course and day. */
  lemma EvaluationSettles(db: Db, course: nat, day: int, threshold: int, now: int, k: Key)
    ensures var c := Evaluation(course, day, threshold, now, |db.sightings|, CountsOf(db, course, day));
            Settled(db.table, Overlay(db.table, c), db.sightings, k.course == course && k.day == day, threshold, now, k)
  {
    PopulationIsConcerned(db.table, db.sightings, course, day, k);
  }

  // ---------------------------------------------------------------- the ledger tells every change

  predicate IsMandatory(e: Event) {
    !e.Export?
  }

  /** The ledger without its advisory rows. */
  function Mandatory(ledger: seq<Event>): seq<Event> {
    if ledger == [] then []
    else Mandatory(ledger[..|ledger| - 1]) + if IsMandatory(ledger[|ledger| - 1]) then [ledger[|ledger| - 1]] else []
  }

  lemma MandatorySnoc(ledger: seq<Event>, e: Event)
    ensures Mandatory(ledger + [e]) == Mandatory(ledger) + if IsMandatory(e) then [e] else []
  {
    assert (ledger + [e])[..|ledger|] == ledger;
  }

  predicate Told(c: Change, e: Event) {
    match c
    case Evaluation(course, day, _, _, _, counts) => e == AttendanceEvaluate(course, day, |counts|) && counts.Keys != {}
    case Override(key, from, status, _, _) => e == OverrideApply(key, from, status)
  }

  ghost predicate ToldAt(db: Db, i: nat)
    requires i < |db.changes| == |Mandatory(db.ledger)|
  {
    Told(db.changes[i], Mandatory(db.ledger)[i])
  }

  ghost predicate Matched(db: Db) {
    |db.changes| == |Mandatory(db.ledger)| && forall i: nat :: i < |db.changes| ==> ToldAt(db, i)
  }

  /** At most one change, with its one mandatory row, or neither. */
  predicate Atomic(db: Db, db': Db) {
    if db'.changes == db.changes then
      db'.table == db.table && Mandatory(db'.ledger) == Mandatory(db.ledger)
    else
      |db'.changes| > 0 &&
      var c := db'.changes[|db'.changes| - 1];
      && db'.changes == db.changes + [c] && Told(c, EventOf(c)) && db'.table == Overlay(db.table, c)
      && db'.sightings == db.sightings && db'.dir == db.dir
      && db'.ledger == db.ledger + [EventOf(c)] && Mandatory(db'.ledger) == Mandatory(db.ledger) + [EventOf(c)]
  }

  lemma CommitIsAtomic(db: Db, c: Change)
    requires Told(c, EventOf(c))
    ensures Atomic(db, Commit(db, c)) && Commit(db, c).changes != db.changes
  {
    MandatorySnoc(db.ledger, EventOf(c));
    assert |Commit(db, c).changes| == |db.changes| + 1;
  }

  lemma ExportIsAtomic(db: Db, course: nat, day: int, faultAt: Option<nat>)
    ensures Atomic(db, RunExport(db, course, day, faultAt).0)
  {
    MandatorySnoc(db.ledger, Export(course, day, |Population(db.table, db.sightings, course, day)|));
  }

  lemma EvaluateIsAtomic(db: Db, course: nat, day: int, threshold: int, now: int, faultAt: Option<nat>)
    ensures var (db', outcome) := RunEvaluate(db, course, day, threshold, now, faultAt);
            Atomic(db, db') && (db'.changes != db.changes ==> outcome == Done)
  {
    var counts := CountsOf(db, course, day);
    if counts.Keys != {} {
      CommitIsAtomic(db, Evaluation(course, day, threshold, now, |db.sightings|, counts));
    }
  }

  function OverrideOf(db: Db, k: Key, status: Status, reason: string, now: int): Change {
    Override(k, if k in db.table then Some(db.table[k].status) else None, status, Strip(reason), now)
  }

  lemma OverrideCommitsOrNot(db: Db, k: Key, status: Status, reason: string, now: int, faultAt: Option<nat>)
    ensures var run := RunOverride(db, k, status, reason, now, faultAt);
            run.0 == db || run == (Commit(db, OverrideOf(db, k, status, reason, now)), Done)
  {
  }

  lemma OverrideIsAtomic(db: Db, k: Key, status: Status, reason: string, now: int, faultAt: Option<nat>)
    ensures var (db', outcome) := RunOverride(db, k, status, reason, now, faultAt);
            Atomic(db, db') && (db'.changes != db.changes ==> outcome == Done)
  {
    OverrideCommitsOrNot(db, k, status, reason, now, faultAt);
    CommitIsAtomic(db, OverrideOf(db, k, status, reason, now));
  }

  lemma SightIsAtomic(db: Db, s: Sighting, camera: string, room: Option<nat>, faultAt: Option<nat>)
    ensures var db' := RunSight(db, s, camera, room, faultAt).0; Atomic(db, db') && db'.changes == db.changes
  {
  }

  lemma NoExportChanges(db: Db, course: nat, day: int, faultAt: Option<nat>)
    ensures RunExport(db, course, day, faultAt).0.changes == db.changes
  {
  }

  /** One call makes one change durable with its one row, or none and no row; and only an evaluation of somebody or an
      override, when it succeeds, makes one. */
  lemma CallIsAtomic(db: Db, op: Op)
    ensures Atomic(db, Run(db, op).0)
    ensures Run(db, op).0.changes != db.changes ==> Run(db, op).1 == Done && (op.Evaluate? || op.Correct?)
  {
    match op
    case Administer(_) =>
    case Sight(student, camera, course, room, at, confidence, faultAt) =>
      SightIsAtomic(db, Sighting(student, course, at, confidence), camera, room, faultAt);
    case Evaluate(course, day, threshold, now, faultAt) => EvaluateIsAtomic(db, course, day, threshold, now, faultAt);
    case Correct(key, status, reason, now, faultAt) => OverrideIsAtomic(db, key, status, reason, now, faultAt);
    case ExportDay(course, day, faultAt) =>
      ExportIsAtomic(db, course, day, faultAt);
      NoExportChanges(db, course, day, faultAt);
  }

  /** Over any history, with failures at any statements, committed changes and mandatory ledger rows correspond one to
      one and in order: no evaluation or override is ever durable without its row, nor a row without its change. */
  lemma {:induction false} LedgerTellsEveryChange(db: Db, ops: seq<Op>)
    requires Matched(db)
    ensures Matched(RunAll(db, ops))
  {
    if ops != [] {
      var before, op := RunAll(db, ops[..|ops| - 1]), ops[|ops| - 1];
      LedgerTellsEveryChange(db, ops[..|ops| - 1]);
      CallIsAtomic(before, op);
      var after := RunAll(db, ops);
      forall i: nat | i < |after.changes| ensures ToldAt(after, i) {
        assert i < |before.changes| ==> ToldAt(before, i);
      }
    }
  }

  // ---------------------------------------------------------------- what determines a row

  /** A row after some changes, from what it was before all of them. */
  function RowAfter(before: Option<Record>, cs: seq<Change>, k: Key): Option<Record> {
    if cs == [] then before else Rewrite(RowAfter(before, cs[..|cs| - 1], k), cs[|cs| - 1], k)
  }

  /** The changes committed since `start`. */
  ghost predicate Since(start: Db, db: Db, cs: seq<Change>) {
    db.changes == start.changes + cs
  }

  predicate Touches(c: Change, k: Key) {
    match c
    case Evaluation(_, _, _, _, _, counts) => k in counts
    case Override(key, _, _, _, _) => key == k
  }

  /** The last change of a row, its last evaluation, and its last override. */
  function Last(cs: seq<Change>, k: Key): Option<Change> {
    if cs == [] then None
    else if Touches(cs[|cs| - 1], k) then Some(cs[|cs| - 1])
    else Last(cs[..|cs| - 1], k)
  }

  function LastEvaluation(cs: seq<Change>, k: Key): Option<Change> {
    if cs == [] then None
    else if Touches(cs[|cs| - 1], k) && cs[|cs| - 1].Evaluation? then Some(cs[|cs| - 1])
    else LastEvaluation(cs[..|cs| - 1], k)
  }

  function LastOverride(cs: seq<Change>, k: Key): Option<Change> {
    if cs == [] then None
    else if Touches(cs[|cs| - 1], k) && cs[|cs| - 1].Override? then Some(cs[|cs| - 1])
    else LastOverride(cs[..|cs| - 1], k)
  }

  /** Overrides set PRESENT or ABSENT. */
  ghost predicate PlainOverrides(cs: seq<Change>) {
    forall i: nat :: i < |cs| && cs[i].Override? ==> cs[i].status == Present || cs[i].status == Absent
  }

  predicate WasExcused(before: Option<Record>) {
    before.Some? && before.value.status == Excused
  }

  /** What a row is: it exists if it was there or was ever written. Its notes are those of its last override; its count
      and its threshold are those of its last evaluation; its status is that of the override or the verdict of the
      evaluation that came last, except that a row EXCUSED at the start stays so until its first override. */
  predicate Determined(row: Option<Record>, before: Option<Record>, cs: seq<Change>, k: Key) {
    var last, e, o := Last(cs, k), LastEvaluation(cs, k), LastOverride(cs, k);
    && (row.Some? <==> before.Some? || last.Some?)
    && (row.Some? ==>
          && row.value.notes == (if o.Some? && o.value.Override? then Some(OVERRIDE_PREFIX + " " + o.value.reason)
                                 else if before.Some? then before.value.notes else None)
          && (if e.Some? && e.value.Evaluation? && k in e.value.counts then
                row.value.count == e.value.counts[k] && row.value.threshold == e.value.threshold
              else if before.Some? then
                row.value.count == before.value.count && row.value.threshold == before.value.threshold
              else
                row.value.count == 0 && row.value.threshold == OVERRIDE_THRESHOLD)
          && (last.Some? ==> row.value.evaluatedAt == last.value.now)
          && (last.None? ==> row == before)
          && (last.Some? && last.value.Override? ==> row.value.status == last.value.status)
          && (last.Some? && last.value.Evaluation? ==>
                row.value.status == if WasExcused(before) && o.None? then Excused
                                    else if row.value.count >= row.value.threshold then Present else Absent))
  }

  lemma LastsAreOfTheirKind(cs: seq<Change>, k: Key)
    ensures LastEvaluation(cs, k).Some? ==> LastEvaluation(cs, k).value.Evaluation? && k in LastEvaluation(cs, k).value.counts
    ensures LastOverride(cs, k).Some? ==> LastOverride(cs, k).value.Override?
    ensures Last(cs, k).None? <==> LastEvaluation(cs, k).None? && LastOverride(cs, k).None?
  {
    if cs != [] {
      LastsAreOfTheirKind(cs[..|cs| - 1], k);
    }
  }

  /** EXCUSED is what a row was at the start, as long as nobody has overridden it. */
  lemma {:induction false} ExcusedIffNeverOverridden(before: Option<Record>, cs: seq<Change>, k: Key)
    requires PlainOverrides(cs)
    ensures var row := RowAfter(before, cs, k);
            row.Some? && row.value.status == Excused <==> WasExcused(before) && LastOverride(cs, k).None?
  {
    if cs != [] {
      var init := cs[..|cs| - 1];
      assert forall i: nat :: i < |init| ==> init[i] == cs[i];
      ExcusedIffNeverOverridden(before, init, k);
    }
  }

  lemma {:induction false} RowIsDetermined(before: Option<Record>, cs: seq<Change>, k: Key)
    requires PlainOverrides(cs)
    ensures Determined(RowAfter(before, cs, k), before, cs, k)
  {
    if cs != [] {
      var init, c := cs[..|cs| - 1], cs[|cs| - 1];
      assert forall i: nat :: i < |init| ==> init[i] == cs[i];
      RowIsDetermined(before, init, k);
      ExcusedIffNeverOverridden(before, init, k);
      LastsAreOfTheirKind(init, k);
    }
  }

  /** The recorded changes are honest: overrides set PRESENT or ABSENT, and the counts of an evaluation are, for every
      student of its course and day seen until then, the number of sightings until then. */
  ghost predicate Honest(c: Change, sightings: seq<Sighting>) {
    match c
    case Override(_, _, status, _, _) => status == Present || status == Absent
    case Evaluation(course, day, threshold, _, seen, counts) =>
      && threshold >= 1 && seen <= |sightings|
      && (forall k: Key :: k in counts ==> k.course == course && k.day == day && counts[k] == Count(sightings[..seen], k))
      && (forall k: Key :: k.course == course && k.day == day && Count(sightings[..seen], k) > 0 ==> k in counts)
  }

  ghost predicate HonestSince(db: Db, cs: seq<Change>) {
    forall i: nat :: i < |cs| ==> Honest(cs[i], db.sightings)
  }

  lemma HonestStays(c: Change, s: seq<Sighting>, more: seq<Sighting>)
    requires Honest(c, s)
    ensures Honest(c, s + more)
  {
    if c.Evaluation? {
      assert (s + more)[..c.seen] == s[..c.seen];
    }
  }

  lemma NewChangeIsHonest(db: Db, op: Op)
    requires Run(db, op).0.changes != db.changes
    ensures var db' := Run(db, op).0; |db'.changes| > 0 && Honest(db'.changes[|db'.changes| - 1], db.sightings)
  {
    if op.Evaluate? {
      assert db.sightings[..|db.sightings|] == db.sightings;
      forall k: Key
        ensures k in CountsOf(db, op.course, op.day) <==>
                k.course == op.course && k.day == op.day && Concerned(db.table, db.sightings, k)
      {
        PopulationIsConcerned(db.table, db.sightings, op.course, op.day, k);
      }
    }
  }

  lemma SightingsGrow(db: Db, op: Op)
    ensures db.sightings <= Run(db, op).0.sightings
  {
  }

  lemma HonestStep(db: Db, op: Op, cs: seq<Change>)
    requires HonestSince(db, cs)
    ensures HonestSince(Run(db, op).0, cs)
  {
    var db' := Run(db, op).0;
    SightingsGrow(db, op);
    assert db'.sightings == db.sightings + db'.sightings[|db.sightings|..];
    forall i: nat | i < |cs| ensures Honest(cs[i], db'.sightings) {
      assert Honest(cs[i], db.sightings);
      HonestStays(cs[i], db.sightings, db'.sightings[|db.sightings|..]);
    }
  }

  /** The changes a call adds. */
  function Added(db: Db, op: Op): seq<Change> {
    var cs := Run(db, op).0.changes;
    if cs == db.changes || cs == [] then [] else [cs[|cs| - 1]]
  }

  lemma AddedIsHonest(db: Db, op: Op, cs: seq<Change>)
    requires HonestSince(db, cs)
    ensures HonestSince(Run(db, op).0, cs + Added(db, op))
  {
    var db', added := Run(db, op).0, Added(db, op);
    HonestStep(db, op, cs);
    if added != [] {
      NewChangeIsHonest(db, op);
      HonestStep(db, op, added);
    }
    forall i: nat | i < |cs + added| ensures Honest((cs + added)[i], db'.sightings) {
      if i < |cs| {
        assert Honest(cs[i], db'.sightings);
      } else {
        assert Honest(added[i - |cs|], db'.sightings);
      }
    }
  }

  /** One more call, seen from `start`: the changes since then grow by the change it makes, if any. */
  lemma OneMoreCall(start: Db, db: Db, op: Op, cs: seq<Change>, k: Key)
    requires Since(start, db, cs) && Get(db.table, k) == RowAfter(Get(start.table, k), cs, k)
    ensures Since(start, Run(db, op).0, cs + Added(db, op))
    ensures Get(Run(db, op).0.table, k) == RowAfter(Get(start.table, k), cs + Added(db, op), k)
  {
    CallIsAtomic(db, op);
    var longer := cs + Added(db, op);
    if Added(db, op) == [] {
      assert longer == cs;
    } else {
      assert longer[..|cs|] == cs;
    }
  }

  /** The table holds nothing but what the recorded changes put there, and those are honest. */
  lemma {:induction false} TableIsItsChanges(start: Db, ops: seq<Op>, k: Key) returns (cs: seq<Change>)
    ensures var db := RunAll(start, ops);
            Since(start, db, cs) && HonestSince(db, cs) && Get(db.table, k) == RowAfter(Get(start.table, k), cs, k)
  {
    if ops == [] {
      cs := [];
    } else {
      var before, op := RunAll(start, ops[..|ops| - 1]), ops[|ops| - 1];
      var init := TableIsItsChanges(start, ops[..|ops| - 1], k);
      OneMoreCall(start, before, op, init, k);
      AddedIsHonest(before, op, init);
      cs := init + Added(before, op);
    }
  }

  /** Over any history from any table: every row is determined by the changes committed since, and those are honest. */
  lemma EveryRowIsDetermined(start: Db, ops: seq<Op>, k: Key) returns (cs: seq<Change>)
    ensures var db := RunAll(start, ops);
            && Since(start, db, cs) && HonestSince(db, cs)
            && Determined(Get(db.table, k), Get(start.table, k), cs, k)
  {
    cs := TableIsItsChanges(start, ops, k);
    forall i: nat | i < |cs| && cs[i].Override? ensures cs[i].status == Present || cs[i].status == Absent {
      assert Honest(cs[i], RunAll(start, ops).sightings);
    }
    RowIsDetermined(Get(start.table, k), cs, k);
  }

  // ---------------------------------------------------------------- sightings

  /** A call that asks for a sighting of the student in the course at a moment of the day. */
  predicate IsSightingOf(op: Op, k: Key) {
    && op.Sight? && op.student == Some(k.student) && op.course == k.course
    && k.day * DAY <= op.at < (k.day + 1) * DAY
  }

  /** How many of the calls are sightings of a key, and were accepted. */
  function Accepted(start: Db, ops: seq<Op>, k: Key): nat {
    if ops == [] then 0
    else
      var before, op := ops[..|ops| - 1], ops[|ops| - 1];
      Accepted(start, before, k) + if IsSightingOf(op, k) && Run(RunAll(start, before), op).1 == Done then 1 else 0
  }

  lemma {:induction false} CountSnoc(sightings: seq<Sighting>, s: Sighting, k: Key)
    ensures Count(sightings + [s], k) == Count(sightings, k) + if Counts(s, k) then 1 else 0
  {
    assert (sightings + [s])[..|sightings|] == sightings;
  }

  lemma AcceptedIsCounted(db: Db, s: Sighting, camera: string, room: Option<nat>, faultAt: Option<nat>, k: Key)
    ensures var (db', outcome) := RunSight(db, s, camera, room, faultAt);
            Count(db'.sightings, k) == Count(db.sightings, k) + if Counts(s, k) && outcome == Done then 1 else 0
  {
    CountSnoc(db.sightings, s, k);
  }

  lemma OnlySightingsAreCounted(db: Db, op: Op)
    requires !op.Sight?
    ensures Run(db, op).0.sightings == db.sightings
  {
  }

  lemma CallCounts(db: Db, op: Op, k: Key)
    ensures op.Sight? ==>
              var added := if Run(db, op).1 == Done then [Sighting(op.student, op.course, op.at, op.confidence)] else [];
              Run(db, op).0.sightings == db.sightings + added
    ensures var (db', outcome) := Run(db, op);
            Count(db'.sightings, k) == Count(db.sightings, k) + if IsSightingOf(op, k) && outcome == Done then 1 else 0
  {
    if op.Sight? {
      AcceptedIsCounted(db, Sighting(op.student, op.course, op.at, op.confidence), op.camera, op.room, op.faultAt, k);
    } else {
      OnlySightingsAreCounted(db, op);
    }
  }

  /** Over any history, what is counted for a student, course and day is what was counted before and the accepted
      sightings since: none is lost, doubled, or booked elsewhere. */
  lemma {:induction false} CountsAreAcceptedSightings(start: Db, ops: seq<Op>, k: Key)
    ensures Count(RunAll(start, ops).sightings, k) == Count(start.sightings, k) + Accepted(start, ops, k)
  {
    if ops != [] {
      CountsAreAcceptedSightings(start, ops[..|ops| - 1], k);
      CallCounts(RunAll(start, ops[..|ops| - 1]), ops[|ops| - 1], k);
    }
  }

  lemma EvaluateSettlesOne(db: Db, k: Key, threshold: int, now: int, faultAt: Option<nat>)
    requires RunEvaluate(db, k.course, k.day, threshold, now, faultAt).1 == Done
    ensures Settled(db.table, RunEvaluate(db, k.course, k.day, threshold, now, faultAt).0.table, db.sightings, true, threshold, now, k)
  {
    EvaluationSettles(db, k.course, k.day, threshold, now, k);
    PopulationIsConcerned(db.table, db.sightings, k.course, k.day, k);
    assert CountsOf(db, k.course, k.day).Keys == Population(db.table, db.sightings, k.course, k.day);
  }

  /** From the camera to the verdict: after any history and an evaluation that succeeds, a student who was not EXCUSED
      is PRESENT exactly if the sightings counted at the start and those accepted since reach the threshold, and has a
      record exactly if there was one or anything to count. */
  lemma PresentIffSeenEnough(start: Db, ops: seq<Op>, k: Key, threshold: int, now: int, faultAt: Option<nat>)
    requires RunEvaluate(RunAll(start, ops), k.course, k.day, threshold, now, faultAt).1 == Done
    ensures var seen := Count(start.sightings, k) + Accepted(start, ops, k);
            var before := RunAll(start, ops).table;
            var after := RunEvaluate(RunAll(start, ops), k.course, k.day, threshold, now, faultAt).0.table;
            && (k in after <==> k in before || seen > 0)
            && (k in after ==> after[k].count == seen && after[k].threshold == threshold)
            && (k in after && !(k in before && before[k].status == Excused) ==>
                  after[k].status == if seen >= threshold then Present else Absent)
            && (k in before && before[k].status == Excused ==> after[k].status == Excused)
  {
    CountsAreAcceptedSightings(start, ops, k);
    EvaluateSettlesOne(RunAll(start, ops), k, threshold, now, faultAt);
    var after := RunEvaluate(RunAll(start, ops), k.course, k.day, threshold, now, faultAt).0.table;
    assert Get(after, k).Some? <==> k in after;
  }

  /** One sighting is enough at threshold 1. */
  lemma OneSightingMakesPresent(db: Db, student: nat, camera: string, course: nat, room: Option<nat>, at: int,
                                confidence: Option<real>, faultAt: Option<nat>, now: int)
    requires Run(db, Sight(Some(student), camera, course, room, at, confidence, faultAt)).1 == Done
    requires var k := Key(student, course, at / (24 * 60 * 60 * 1_000_000)); k in db.table ==> db.table[k].status != Excused
    ensures var day := at / (24 * 60 * 60 * 1_000_000);
            var seen := Run(db, Sight(Some(student), camera, course, room, at, confidence, faultAt)).0;
            var (after, outcome) := RunEvaluate(seen, course, day, 1, now, None);
            outcome == Done && Key(student, course, day) in after.table && after.table[Key(student, course, day)].status == Present
  {
    var k := Key(student, course, at / (24 * 60 * 60 * 1_000_000));
    var op := Sight(Some(student), camera, course, room, at, confidence, faultAt);
    OneDay(at, k.day);
    assert RunAll(db, [op]) == Run(db, op).0 by {
      assert [op][..0] == [];
    }
    assert Accepted(db, [op], k) == 1 by {
      assert [op][..0] == [];
    }
    PresentIffSeenEnough(db, [op], k, 1, now, None);
  }
}
