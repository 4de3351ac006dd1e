/** The attendance service and the nightly evaluation, statement by statement on a session. */
module AttendanceApi {

  import opened Attendance
  import opened AttendanceHistory
  import opened Transactions
  import opened Wrappers

  /** SQL COUNT with GROUP BY: a student has a group exactly if it has a row. */
  ghost predicate Tallied(counts: map<nat, nat>, sightings: seq<Sighting>, course: nat, day: int, student: nat) {
    var n := Count(sightings, Key(student, course, day));
    (student in counts <==> n > 0) && (student in counts ==> counts[student] == n)
  }

  /** The recorded students of one course and day. */
  function StudentsOf(t: Table, course: nat, day: int): set<nat> {
    set k | k in t && k.course == course && k.day == day :: k.student
  }

  method GroupByStudent(sightings: seq<Sighting>, course: nat, day: int) returns (counts: map<nat, nat>)
    ensures forall student: nat :: Tallied(counts, sightings, course, day, student)
  {
    counts := map[];
    for i := 0 to |sightings|
      invariant forall student: nat :: Tallied(counts, sightings[..i], course, day, student)
    {
      var s, before := sightings[i], counts;
      assert sightings[..i + 1][..i] == sightings[..i];
      if s.student.Some? && s.course == course && Within(s.at, day) {
        var id := s.student.value;
        assert Tallied(before, sightings[..i], course, day, id);
        counts := counts[id := (if id in counts then counts[id] else 0) + 1];
      }
      ghost var upto := sightings[..i + 1];
      forall student: nat ensures Tallied(counts, upto, course, day, student) {
        assert Tallied(before, sightings[..i], course, day, student);
      }
    }
    assert sightings[..|sightings|] == sightings;
  }

  datatype RosterRow = RosterRow(student: nat, status: Status, count: nat, threshold: int, evaluatedAt: int)

  datatype Listing = Listing(threshold: int, rows: seq<RosterRow>)

  /** A listed row: the stored status and threshold, and the sightings counted afresh. */
  predicate Lists(row: RosterRow, t: Table, sightings: seq<Sighting>, course: nat, day: int) {
    var k := Key(row.student, course, day);
    k in t && row == RosterRow(row.student, t[k].status, Count(sightings, k), t[k].threshold, t[k].evaluatedAt)
  }

  /** `status` None is "unknown": seen but not evaluated. `last` None is no sighting, `confidence` None no score. */
  datatype ExportRow = ExportRow(student: nat, status: Option<Status>, confidence: Option<real>, last: Option<int>,
                                 overridden: bool, reason: string)

  ghost predicate IsLast(sightings: seq<Sighting>, k: Key, last: Option<int>) {
    && (last.None? <==> Count(sightings, k) == 0)
    && (forall i :: 0 <= i < |sightings| && Counts(sightings[i], k) ==> last.Some? && sightings[i].at <= last.value)
    && (last.Some? ==> exists i :: 0 <= i < |sightings| && Counts(sightings[i], k) && sightings[i].at == last.value)
  }

  predicate Scored(s: Sighting, k: Key) {
    Counts(s, k) && s.confidence.Some?
  }

  /** Sum and number of the scores of a student's day. */
  function Scores(sightings: seq<Sighting>, k: Key): (real, nat) {
    if sightings == [] then (0.0, 0)
    else
      var (sum, n) := Scores(sightings[..|sightings| - 1], k);
      var s := sightings[|sightings| - 1];
      if Scored(s, k) then (sum + s.confidence.value, n + 1) else (sum, n)
  }

  /** SQL AVG, which passes over NULLs. */
  function Average(sightings: seq<Sighting>, k: Key): Option<real> {
    var (sum, n) := Scores(sightings, k);
    if n == 0 then None else Some(sum / n as real)
  }

  /** Every score of the student's day lies in between. */
  ghost predicate ScoredWithin(sightings: seq<Sighting>, k: Key, low: real, high: real) {
    forall i :: 0 <= i < |sightings| && Scored(sightings[i], k) ==> low <= sightings[i].confidence.value <= high
  }

  lemma Bounds(low: real, high: real, n: nat, sum: real, score: real)
    requires n as real * low <= sum <= n as real * high && low <= score <= high
    ensures (n + 1) as real * low <= sum + score <= (n + 1) as real * high
  {
    assert (n + 1) as real * low == n as real * low + low && (n + 1) as real * high == n as real * high + high;
  }

  lemma {:induction false} ScoresWithin(sightings: seq<Sighting>, k: Key, low: real, high: real)
    requires ScoredWithin(sightings, k, low, high)
    ensures var (sum, n) := Scores(sightings, k); n as real * low <= sum <= n as real * high
    ensures Scores(sightings, k).1 == 0 <==> forall i :: 0 <= i < |sightings| ==> !Scored(sightings[i], k)
  {
    if sightings != [] {
      var init, s := sightings[..|sightings| - 1], sightings[|sightings| - 1];
      assert forall i :: 0 <= i < |init| ==> init[i] == sightings[i];
      ScoresWithin(init, k, low, high);
      if Scored(s, k) {
        var (sum, n) := Scores(init, k);
        Bounds(low, high, n, sum, s.confidence.value);
      }
    }
  }

  /** The average lies between the least and the greatest score of the day, and there is one exactly if there is a score. */
  lemma AverageIsBetween(sightings: seq<Sighting>, k: Key, low: real, high: real)
    requires ScoredWithin(sightings, k, low, high)
    ensures Average(sightings, k).Some? <==> exists i :: 0 <= i < |sightings| && Scored(sightings[i], k)
    ensures Average(sightings, k).Some? ==> low <= Average(sightings, k).value <= high
  {
    ScoresWithin(sightings, k, low, high);
    var (sum, n) := Scores(sightings, k);
    if n > 0 {
      Quotient(sum, n as real, low, high);
    }
  }

  lemma Quotient(sum: real, n: real, low: real, high: real)
    requires n > 0.0 && n * low <= sum <= n * high
    ensures low <= sum / n <= high
  {
    assert sum == n * (sum / n);
  }

  lemma NextSighting(sightings: seq<Sighting>, s: Sighting, k: Key)
    ensures Count(sightings + [s], k) == Count(sightings, k) + if Counts(s, k) then 1 else 0
    ensures Scores(sightings + [s], k) ==
            var (sum, n) := Scores(sightings, k);
            if Counts(s, k) && s.confidence.Some? then (sum + s.confidence.value, n + 1) else (sum, n)
  {
    assert (sightings + [s])[..|sightings|] == sightings;
  }

  /** One more sighting of the student in the course at this moment, with its score if it has one; nobody else's day, and
      no other day of the student, has any other count or any other score. */
  ghost predicate Booked(before: seq<Sighting>, after: seq<Sighting>, student: Option<nat>, course: nat, at: int,
                         confidence: Option<real>, k: Key) {
    var here := student == Some(k.student) && course == k.course && k.day * DAY <= at < (k.day + 1) * DAY;
    && Count(after, k) == Count(before, k) + (if here then 1 else 0)
    && Scores(after, k).0 == Scores(before, k).0 + (if here && confidence.Some? then confidence.value else 0.0)
    && Scores(after, k).1 == Scores(before, k).1 + (if here && confidence.Some? then 1 else 0)
  }

  lemma AcceptedIsBooked(before: seq<Sighting>, student: Option<nat>, course: nat, at: int, confidence: Option<real>)
    ensures var after := before + [Sighting(student, course, at, confidence)];
            forall k: Key :: Booked(before, after, student, course, at, confidence, k)
  {
    var after := before + [Sighting(student, course, at, confidence)];
    forall k: Key ensures Booked(before, after, student, course, at, confidence, k) {
      NextSighting(before, Sighting(student, course, at, confidence), k);
    }
  }

  ghost predicate Exports(row: ExportRow, t: Table, sightings: seq<Sighting>, course: nat, day: int) {
    var k := Key(row.student, course, day);
    && Concerned(t, sightings, k)
    && row.status == (if k in t then Some(t[k].status) else None)
    && row.confidence == Average(sightings, k)
    && IsLast(sightings, k, row.last)
    && row.overridden == (k in t && ShowsOverride(t[k]))
    && row.reason == (if k in t then OverrideReason(t[k]) else "")
  }

  ghost predicate LastOk(last: map<nat, int>, sightings: seq<Sighting>, course: nat, day: int, student: nat) {
    IsLast(sightings, Key(student, course, day), if student in last then Some(last[student]) else None)
  }

  lemma LastExtends(sightings: seq<Sighting>, s: Sighting, k: Key, last: Option<int>, next: Option<int>)
    requires IsLast(sightings, k, last)
    requires next == if Counts(s, k) then (if last.Some? && last.value >= s.at then last else Some(s.at)) else last
    ensures IsLast(sightings + [s], k, next)
  {
    var longer := sightings + [s];
    assert longer[..|sightings|] == sightings;
    if last.Some? {
      var i :| 0 <= i < |sightings| && Counts(sightings[i], k) && sightings[i].at == last.value;
      assert Counts(longer[i], k);
    }
    assert longer[|sightings|] == s;
    forall i | 0 <= i < |longer| && Counts(longer[i], k) ensures next.Some? && longer[i].at <= next.value {
      if i < |sightings| {
        assert Counts(sightings[i], k);
      }
    }
  }

  /** SQL MAX with GROUP BY. */
  method LastByStudent(sightings: seq<Sighting>, course: nat, day: int) returns (last: map<nat, int>)
    ensures forall student: nat :: LastOk(last, sightings, course, day, student)
  {
    last := map[];
    for i := 0 to |sightings|
      invariant forall student: nat :: LastOk(last, sightings[..i], course, day, student)
    {
      var s, before := sightings[i], last;
      if s.student.Some? && s.course == course && Within(s.at, day) {
        var id := s.student.value;
        last := last[id := if id in last && last[id] >= s.at then last[id] else s.at];
      }
      ghost var upto := sightings[..i + 1];
      assert upto == sightings[..i] + [s];
      forall student: nat ensures LastOk(last, upto, course, day, student) {
        assert LastOk(before, sightings[..i], course, day, student);
        LastExtends(sightings[..i], s, Key(student, course, day),
                    if student in before then Some(before[student]) else None,
                    if student in last then Some(last[student]) else None);
      }
    }
    assert sightings[..|sightings|] == sightings;
  }

  ghost predicate ScoresOk(scores: map<nat, (real, nat)>, sightings: seq<Sighting>, course: nat, day: int, student: nat) {
    Scores(sightings, Key(student, course, day)) == if student in scores then scores[student] else (0.0, 0)
  }

  /** Sums and numbers of the scores, with GROUP BY. */
  method ScoresByStudent(sightings: seq<Sighting>, course: nat, day: int) returns (scores: map<nat, (real, nat)>)
    ensures forall student: nat :: ScoresOk(scores, sightings, course, day, student)
  {
    scores := map[];
    for i := 0 to |sightings|
      invariant forall student: nat :: ScoresOk(scores, sightings[..i], course, day, student)
    {
      var s, before := sightings[i], scores;
      ghost var upto := sightings[..i + 1];
      assert upto[..i] == sightings[..i];
      if s.student.Some? && s.confidence.Some? && s.course == course && Within(s.at, day) {
        var id := s.student.value;
        assert ScoresOk(before, sightings[..i], course, day, id);
        var was := if id in scores then scores[id] else (0.0, 0);
        scores := scores[id := (was.0 + s.confidence.value, was.1 + 1)];
      }
      forall student: nat ensures ScoresOk(scores, upto, course, day, student) {
        assert ScoresOk(before, sightings[..i], course, day, student);
      }
    }
    assert sightings[..|sightings|] == sightings;
  }

  function Number(students: map<nat, Student>, id: nat): nat {
    if id in students then students[id].number else 0
  }

  /** By student number, then by id. */
  predicate Before(students: map<nat, Student>, a: nat, b: nat) {
    Number(students, a) < Number(students, b) || (Number(students, a) == Number(students, b) && a <= b)
  }

  ghost predicate FirstOf(students: map<nat, Student>, first: nat, ids: set<nat>) {
    forall id: nat :: id in ids ==> Before(students, first, id)
  }

  method First(students: map<nat, Student>, ids: set<nat>) returns (first: nat)
    requires ids != {}
    ensures first in ids && FirstOf(students, first, ids)
  {
    first :| first in ids;
    var rest := ids - {first};
    while rest != {}
      invariant rest <= ids && first in ids
      invariant FirstOf(students, first, ids - rest)
      decreases rest
    {
      var id :| id in rest;
      ghost var seen, was := ids - rest, first;
      if !Before(students, first, id) {
        first := id;
      }
      rest := rest - {id};
      forall other: nat | other in ids - rest ensures Before(students, first, other) {
        assert other in seen ==> Before(students, was, other);
      }
    }
    assert ids - rest == ids;
  }

  function Listed(rows: seq<RosterRow>): set<nat> {
    set i | 0 <= i < |rows| :: rows[i].student
  }

  function Exported(rows: seq<ExportRow>): set<nat> {
    set i | 0 <= i < |rows| :: rows[i].student
  }

  lemma ListedSnoc(rows: seq<RosterRow>, row: RosterRow)
    ensures Listed(rows + [row]) == Listed(rows) + {row.student}
  {
    var longer := rows + [row];
    assert longer[|rows|] == row;
    forall id: nat ensures id in Listed(longer) <==> id in Listed(rows) + {row.student} {
      if id in Listed(rows) {
        var i :| 0 <= i < |rows| && rows[i].student == id;
        assert longer[i].student == id;
      }
    }
  }

  ghost predicate AllExport(rows: seq<ExportRow>, t: Table, sightings: seq<Sighting>, course: nat, day: int) {
    forall i :: 0 <= i < |rows| ==> Exports(rows[i], t, sightings, course, day)
  }

  lemma AllExportSnoc(rows: seq<ExportRow>, row: ExportRow, t: Table, sightings: seq<Sighting>, course: nat, day: int)
    requires AllExport(rows, t, sightings, course, day) && Exports(row, t, sightings, course, day)
    ensures AllExport(rows + [row], t, sightings, course, day)
  {
    forall i | 0 <= i < |rows + [row]| ensures Exports((rows + [row])[i], t, sightings, course, day) {
      if i < |rows| {
        assert Exports(rows[i], t, sightings, course, day);
      }
    }
  }

  /** Strictly ascending, no student twice. */
  ghost predicate InOrder(students: map<nat, Student>, rows: seq<ExportRow>) {
    forall i, j :: 0 <= i < j < |rows| ==> rows[i].student != rows[j].student && Before(students, rows[i].student, rows[j].student)
  }

  ghost predicate Ahead(students: map<nat, Student>, rows: seq<ExportRow>, rest: set<nat>) {
    InOrder(students, rows) && forall i :: 0 <= i < |rows| ==> FirstOf(students, rows[i].student, rest)
  }

  lemma AheadSnoc(students: map<nat, Student>, rows: seq<ExportRow>, row: ExportRow, rest: set<nat>)
    requires Ahead(students, rows, rest) && row.student in rest && FirstOf(students, row.student, rest)
    requires row.student !in Exported(rows)
    ensures Ahead(students, rows + [row], rest - {row.student})
  {
    var longer := rows + [row];
    forall i | 0 <= i < |longer| ensures FirstOf(students, longer[i].student, rest - {row.student}) {
      assert FirstOf(students, longer[i].student, rest);
    }
    forall i, j | 0 <= i < j < |longer|
      ensures longer[i].student != longer[j].student && Before(students, longer[i].student, longer[j].student)
    {
      assert rows[i].student in Exported(rows);
      assert FirstOf(students, rows[i].student, rest);
    }
  }

  lemma ExportedSnoc(rows: seq<ExportRow>, row: ExportRow)
    ensures Exported(rows + [row]) == Exported(rows) + {row.student}
  {
    var longer := rows + [row];
    assert longer[|rows|] == row;
    forall id: nat ensures id in Exported(longer) <==> id in Exported(rows) + {row.student} {
      if id in Exported(rows) {
        var i :| 0 <= i < |rows| && rows[i].student == id;
        assert longer[i].student == id;
      }
    }
  }

  /** The exported status is the recorded one, not unknown. */
  predicate Shows(row: ExportRow, t: Table, course: nat, day: int) {
    var k := Key(row.student, course, day);
    k in t && row.status == Some(t[k].status)
  }

  /** The listed status, count and time are the stored ones, and the threshold is `threshold`. */
  predicate ListsStored(row: RosterRow, t: Table, course: nat, day: int, threshold: int) {
    var k := Key(row.student, course, day);
    k in t && row.status == t[k].status && row.count == t[k].count && row.threshold == threshold && row.evaluatedAt == t[k].evaluatedAt
  }

  /** Records, listing and export of a day agree. */
  ghost predicate ViewsAgree(t: Table, sightings: seq<Sighting>, course: nat, day: int, threshold: int, listed: seq<RosterRow>,
                             exported: seq<ExportRow>) {
    && Exported(exported) == Listed(listed) == StudentsOf(t, course, day)
    && (forall i :: 0 <= i < |exported| ==> Shows(exported[i], t, course, day))
    && (forall i :: 0 <= i < |listed| ==> ListsStored(listed[i], t, course, day, threshold))
    && (forall k: Key :: k.course == course && k.day == day ==> Agrees(t, sightings, threshold, k))
  }

  lemma ViewsAgreeAfterEvaluation(before: Table, t: Table, sightings: seq<Sighting>, course: nat, day: int, threshold: int,
                                  now: int, listed: seq<RosterRow>, exported: seq<ExportRow>)
    requires forall k: Key :: Settled(before, t, sightings, k.course == course && k.day == day, threshold, now, k)
    requires Listed(listed) == StudentsOf(t, course, day)
    requires forall i :: 0 <= i < |listed| ==> Lists(listed[i], t, sightings, course, day)
    requires forall id: nat :: id in Exported(exported) <==> Concerned(t, sightings, Key(id, course, day))
    requires AllExport(exported, t, sightings, course, day)
    ensures ViewsAgree(t, sightings, course, day, threshold, listed, exported)
  {
    forall k: Key | k.course == course && k.day == day ensures Agrees(t, sightings, threshold, k) {
      EvaluationSettlesTheDay(before, t, sightings, threshold, now, k);
    }
    forall id: nat ensures id in Exported(exported) <==> id in StudentsOf(t, course, day) {
      var k := Key(id, course, day);
      assert Agrees(t, sightings, threshold, k);
      assert k in t <==> id in StudentsOf(t, course, day);
    }
    forall i | 0 <= i < |exported| ensures Shows(exported[i], t, course, day) {
      assert Agrees(t, sightings, threshold, Key(exported[i].student, course, day));
    }
    forall i | 0 <= i < |listed| ensures ListsStored(listed[i], t, course, day, threshold) {
      assert Agrees(t, sightings, threshold, Key(listed[i].student, course, day));
    }
  }

  /** One key per student. */
  function KeysOf(ids: set<nat>, course: nat, day: int): set<Key> {
    set id | id in ids :: Key(id, course, day)
  }

  lemma {:induction false} AsManyKeys(ids: set<nat>, course: nat, day: int)
    ensures |KeysOf(ids, course, day)| == |ids|
    decreases |ids|
  {
    if ids != {} {
      var id :| id in ids;
      AsManyKeys(ids - {id}, course, day);
      assert KeysOf(ids, course, day) == KeysOf(ids - {id}, course, day) + {Key(id, course, day)};
    }
  }

  /** The students that the code collects are the population. */
  lemma IdsArePopulation(t: Table, sightings: seq<Sighting>, course: nat, day: int, ids: set<nat>)
    requires forall id: nat :: id in ids <==> Concerned(t, sightings, Key(id, course, day))
    ensures KeysOf(ids, course, day) == Population(t, sightings, course, day)
    ensures |ids| == |Population(t, sightings, course, day)|
  {
    AsManyKeys(ids, course, day);
    forall k: Key ensures k in KeysOf(ids, course, day) <==> k in Population(t, sightings, course, day) {
      PopulationIsConcerned(t, sightings, course, day, k);
      assert k == Key(k.student, k.course, k.day);
    }
  }

  lemma SameRowsSameTable(a: Table, b: Table)
    requires forall k: Key :: Get(a, k) == Get(b, k)
    ensures a == b
  {
    forall k: Key ensures k in a <==> k in b {
      assert Get(a, k) == Get(b, k);
    }
    forall k: Key | k in a ensures a[k] == b[k] {
      assert Get(a, k) == Get(b, k);
    }
  }

  /** A table that is settled at every key is the evaluation's. */
  lemma SettledIsEvaluated(db: Db, t: Table, course: nat, day: int, threshold: int, now: int)
    requires forall k: Key :: Settled(db.table, t, db.sightings, k.course == course && k.day == day, threshold, now, k)
    ensures t == Overlay(db.table, Evaluation(course, day, threshold, now, |db.sightings|, CountsOf(db, course, day)))
  {
    var c := Evaluation(course, day, threshold, now, |db.sightings|, CountsOf(db, course, day));
    forall k: Key ensures Get(t, k) == Get(Overlay(db.table, c), k) {
      EvaluationSettles(db, course, day, threshold, now, k);
      assert Settled(db.table, t, db.sightings, k.course == course && k.day == day, threshold, now, k);
    }
    SameRowsSameTable(t, Overlay(db.table, c));
  }

  lemma CollectedAre(t: Table, sightings: seq<Sighting>, course: nat, day: int, counts: map<nat, nat>)
    requires forall student: nat :: Tallied(counts, sightings, course, day, student)
    ensures forall id: nat :: id in counts.Keys + StudentsOf(t, course, day) <==> Concerned(t, sightings, Key(id, course, day))
  {
    forall id: nat
      ensures id in counts.Keys + StudentsOf(t, course, day) <==> Concerned(t, sightings, Key(id, course, day))
    {
      assert Tallied(counts, sightings, course, day, id);
      assert Key(id, course, day) in t <==> id in StudentsOf(t, course, day);
    }
  }

  /** INSERT .. ON CONFLICT DO UPDATE of one row per student. */
  method Upsert(table: Table, sightings: seq<Sighting>, course: nat, day: int, threshold: int, now: int, counts: map<nat, nat>,
                ids: set<nat>) returns (t: Table)
    requires forall student: nat :: Tallied(counts, sightings, course, day, student)
    requires ids == counts.Keys + StudentsOf(table, course, day)
    ensures forall k: Key :: Settled(table, t, sightings, k.course == course && k.day == day, threshold, now, k)
    ensures StudentsOf(t, course, day) == ids
  {
    t := table;
    var rest := ids;
    while rest != {}
      invariant rest <= ids
      invariant forall k: Key ::
                  Settled(table, t, sightings, k.course == course && k.day == day && k.student in ids - rest, threshold, now, k)
      decreases rest
    {
      var id :| id in rest;
      var k := Key(id, course, day);
      var count := if id in counts then counts[id] else 0;
      var status := StatusFor(if k in table then Some(table[k].status) else None, count, threshold);
      ghost var t0 := t;
      assert Tallied(counts, sightings, course, day, id);
      assert Settled(table, t0, sightings, false, threshold, now, k);
      t := t[k := Record(status, count, threshold, now, if k in t then t[k].notes else None)];
      rest := rest - {id};
      forall j: Key
        ensures Settled(table, t, sightings, j.course == course && j.day == day && j.student in ids - rest, threshold, now, j)
      {
        assert Settled(table, t0, sightings, j.course == course && j.day == day && j.student in ids - (rest + {id}), threshold, now, j);
      }
    }
    forall k: Key ensures Settled(table, t, sightings, k.course == course && k.day == day, threshold, now, k) {
      assert Settled(table, t, sightings, k.course == course && k.day == day && k.student in ids - rest, threshold, now, k);
      assert Tallied(counts, sightings, course, day, k.student);
    }
    forall student: nat ensures student in StudentsOf(t, course, day) <==> student in ids {
      var k := Key(student, course, day);
      assert Tallied(counts, sightings, course, day, student);
      assert Settled(table, t, sightings, true, threshold, now, k);
      assert Get(t, k).Some? <==> k in t;
      assert k in table <==> student in StudentsOf(table, course, day);
    }
  }

  /** The upsert of an evaluation, and the change it is. */
  method UpsertEvaluation(db: Db, course: nat, day: int, threshold: int, now: int, counts: map<nat, nat>, ids: set<nat>)
    returns (t: Table, c: Change)
    requires forall student: nat :: Tallied(counts, db.sightings, course, day, student)
    requires ids == counts.Keys + StudentsOf(db.table, course, day)
    ensures c == Evaluation(course, day, threshold, now, |db.sightings|, CountsOf(db, course, day)) && |c.counts| == |ids|
    ensures t == Overlay(db.table, c)
  {
    CollectedAre(db.table, db.sightings, course, day, counts);
    IdsArePopulation(db.table, db.sightings, course, day, ids);
    t := Upsert(db.table, db.sightings, course, day, threshold, now, counts, ids);
    SettledIsEvaluated(db, t, course, day, threshold, now);
    c := Evaluation(course, day, threshold, now, |db.sightings|, CountsOf(db, course, day));
    assert c.counts.Keys == Population(db.table, db.sightings, course, day);
    assert |c.counts| == |c.counts.Keys|;
  }

  /** The row of the key alone has been overridden, and the ledger says from what to what. */
  ghost predicate Corrected(before: Db, after: Db, k: Key, status: Status, reason: string, now: int) {
    && k in after.table && after.table[k].status == status && after.table[k].evaluatedAt == now
    && after.table[k].notes == Some("manual_override: " + reason)
    && (k in before.table ==>
          after.table[k].count == before.table[k].count && after.table[k].threshold == before.table[k].threshold)
    && (k !in before.table ==> after.table[k].count == 0 && after.table[k].threshold == 3)
    && (forall other: Key :: other != k ==> Get(after.table, other) == Get(before.table, other))
    && after.sightings == before.sightings && after.dir == before.dir
    && after.ledger == before.ledger +
         [OverrideApply(k, if k in before.table then Some(before.table[k].status) else None, status)]
  }

  lemma CommittedIsCorrected(db: Db, k: Key, status: Status, reason: string, now: int)
    ensures Corrected(db, Commit(db, OverrideOf(db, k, status, reason, now)), k, status, Strip(reason), now)
  {
    assert OVERRIDE_PREFIX + " " == "manual_override: ";
  }

  class Service {
    var committed: Db
    var pending: Db

    constructor (db: Db)
      ensures committed == db && Idle()
    {
      committed, pending := db, db;
    }

    /** No transaction is open. */
    ghost predicate Idle()
      reads this
    {
      pending == committed
    }

    /** The except branch of a transaction, and the end of a session without a commit. */
    method Rollback()
      modifies this
      ensures Idle() && committed == old(committed)
    {
      pending := committed;
    }

    /** The last statement of a transaction. */
    method Finish(faultAt: Option<nat>) returns (outcome: Outcome)
      modifies this
      ensures Idle() && outcome == (if faultAt == Some(0) then Failed else Done)
      ensures committed == if outcome == Done then old(pending) else old(committed)
    {
      var ok, left := Statement(faultAt);
      if ok {
        committed, outcome := pending, Done;
      } else {
        pending, outcome := committed, Failed;
      }
    }

    /** The flush of a mandatory row in the open transaction, and the commit. */
    method EmitAndFinish(e: Event, faultAt: Option<nat>) returns (outcome: Outcome)
      modifies this
      ensures Idle() && outcome == (if Faulty(faultAt, 2) then Failed else Done)
      ensures committed == if outcome == Done then old(pending).(ledger := old(pending).ledger + [e]) else old(committed)
    {
      var ok, left := Statement(faultAt);
      if !ok {
        Rollback();
        return Failed;
      }
      pending := pending.(ledger := pending.ledger + [e]);
      outcome := Finish(left);
    }

    /** evaluate_class_attendance: count, decide, upsert, log and commit. */
    method EvaluateClassAttendance(course: nat, day: int, threshold: int, now: int, faultAt: Option<nat>)
      returns (outcome: Outcome, written: nat)
      requires Idle()
      modifies this
      ensures Idle() && (committed, outcome) == RunEvaluate(old(committed), course, day, threshold, now, faultAt)
      ensures outcome != Done ==> committed == old(committed)
      ensures faultAt.None? ==>
                outcome == if threshold < 1 then Invalid
                           else if course !in committed.dir.courses then NotFound
                           else if !committed.dir.courses[course] then Invalid
                           else Done
      ensures outcome == Done ==>
                && committed.ledger == (if written == 0 then old(committed).ledger
                                        else old(committed).ledger + [AttendanceEvaluate(course, day, written)])
                && written == |Population(old(committed).table, committed.sightings, course, day)|
                && (forall k: Key ::
                      Settled(old(committed).table, committed.table, committed.sightings, k.course == course && k.day == day,
                              threshold, now, k))
    {
      written := 0;
      if threshold < 1 {
        return Invalid, 0;
      }
      var ok, left := Statement(faultAt);
      if !ok {
        return Failed, 0;
      }
      outcome := RequireCourse(pending.dir, course);
      if outcome != Done {
        return;
      }
      ok, left := Statement(left);
      if ok {
        ok, left := Statement(left);
      }
      if !ok {
        return Failed, 0;
      }
      var counts := GroupByStudent(pending.sightings, course, day);
      var ids := counts.Keys + StudentsOf(pending.table, course, day);
      CollectedAre(pending.table, pending.sightings, course, day, counts);
      IdsArePopulation(pending.table, pending.sightings, course, day, ids);
      if ids == {} {
        NothingToSettle(pending, course, day, threshold, now);
        return Done, 0;
      }
      outcome, written := WriteEvaluation(course, day, threshold, now, counts, ids, left);
    }

    lemma NothingToSettle(db: Db, course: nat, day: int, threshold: int, now: int)
      requires Population(db.table, db.sightings, course, day) == {}
      ensures forall k: Key :: Settled(db.table, db.table, db.sightings, k.course == course && k.day == day, threshold, now, k)
      ensures CountsOf(db, course, day).Keys == {}
    {
      forall k: Key
        ensures Settled(db.table, db.table, db.sightings, k.course == course && k.day == day, threshold, now, k)
      {
        PopulationIsConcerned(db.table, db.sightings, course, day, k);
      }
    }

    /** The transaction of an evaluation. */
    method WriteEvaluation(course: nat, day: int, threshold: int, now: int, counts: map<nat, nat>, ids: set<nat>, faultAt: Option<nat>)
      returns (outcome: Outcome, written: nat)
      requires Idle() && ids != {}
      requires forall student: nat :: Tallied(counts, committed.sightings, course, day, student)
      requires ids == counts.Keys + StudentsOf(committed.table, course, day)
      modifies this
      ensures Idle() && outcome == (if Faulty(faultAt, 3) then Failed else Done) && written == |ids|
      ensures committed == if outcome == Failed then old(committed) else
                Commit(old(committed), Evaluation(course, day, threshold, now, |old(committed).sightings|,
                                                  CountsOf(old(committed), course, day)))
      ensures outcome == Done ==> committed.ledger == old(committed).ledger + [AttendanceEvaluate(course, day, written)]
      ensures outcome == Done ==> forall k: Key ::
                Settled(old(committed).table, committed.table, committed.sightings, k.course == course && k.day == day,
                        threshold, now, k)
    {
      written := |ids|;
      var ok, left := Statement(faultAt);
      if !ok {
        Rollback();
        return Failed, written;
      }
      ghost var db := committed;
      var t, c := UpsertEvaluation(pending, course, day, threshold, now, counts, ids);
      pending := pending.(table := t, changes := pending.changes + [c]);
      outcome := EmitChange(AttendanceEvaluate(course, day, written), c, left);
      forall k: Key
        ensures Settled(db.table, Overlay(db.table, c), db.sightings, k.course == course && k.day == day, threshold, now, k)
      {
        EvaluationSettles(db, course, day, threshold, now, k);
      }
    }

    /** The ledger row of a change that is written but not yet committed. */
    method EmitChange(e: Event, ghost c: Change, faultAt: Option<nat>) returns (outcome: Outcome)
      requires pending == committed.(table := Overlay(committed.table, c), changes := committed.changes + [c]) && e == EventOf(c)
      modifies this
      ensures Idle() && outcome == (if Faulty(faultAt, 2) then Failed else Done)
      ensures committed == if outcome == Done then Commit(old(committed), c) else old(committed)
    {
      outcome := EmitAndFinish(e, faultAt);
    }

    /** log_sighting, but for its best-effort publication after the commit. The checks are part of the transaction. */
    method LogSighting(student: Option<nat>, camera: string, course: nat, room: Option<nat>, at: int, confidence: Option<real>,
                       faultAt: Option<nat>) returns (outcome: Outcome)
      requires Idle()
      modifies this
      ensures Idle()
      ensures (committed, outcome) == RunSight(old(committed), Sighting(student, course, at, confidence), camera, room, faultAt)
      ensures committed == old(committed).(sightings := committed.sightings)
      ensures outcome == Done ==> forall k: Key :: Booked(old(committed).sightings, committed.sightings, student, course, at, confidence, k)
      ensures outcome != Done ==> committed == old(committed)
      ensures faultAt.None? ==>
                var dir := committed.dir;
                outcome == if Strip(camera) == "" || (confidence.Some? && (confidence.value < 0.0 || confidence.value > 1.0)) then Invalid
                           else if student.Some? && student.value !in dir.students then NotFound
                           else if student.Some? && !dir.students[student.value].active then Invalid
                           else if course !in dir.courses then NotFound
                           else if !dir.courses[course] then Invalid
                           else if room.Some? && room.value !in dir.rooms then NotFound
                           else if room.Some? && !dir.rooms[room.value] then Invalid
                           else Done
    {
      if Strip(camera) == "" || (confidence.Some? && !(0.0 <= confidence.value <= 1.0)) {
        return Invalid;
      }
      var ok, left := true, faultAt;
      if student.Some? {
        ok, left := Statement(left);
        outcome := if ok then RequireStudent(pending.dir, student.value) else Failed;
        if outcome != Done {
          Rollback();
          return;
        }
      }
      ok, left := Statement(left);
      outcome := if ok then RequireCourse(pending.dir, course) else Failed;
      if outcome != Done {
        Rollback();
        return;
      }
      if room.Some? {
        ok, left := Statement(left);
        outcome := if ok then RequireRoom(pending.dir, room.value) else Failed;
        if outcome != Done {
          Rollback();
          return;
        }
      }
      ok, left := Statement(left);
      if !ok {
        Rollback();
        return Failed;
      }
      AcceptedIsBooked(pending.sightings, student, course, at, confidence);
      pending := pending.(sightings := pending.sightings + [Sighting(student, course, at, confidence)]);
      outcome := Finish(left);
    }

    /** apply_manual_override: today's row is upserted and its evidence written in one transaction. */
    method ApplyManualOverride(k: Key, status: Status, reason: string, now: int, faultAt: Option<nat>)
      returns (outcome: Outcome, previous: Option<Status>)
      requires Idle()
      modifies this
      ensures Idle() && (committed, outcome) == RunOverride(old(committed), k, status, reason, now, faultAt)
      ensures outcome == Done ==> Corrected(old(committed), committed, k, status, Strip(reason), now)
      ensures outcome != Done ==> committed == old(committed)
      ensures faultAt.None? ==>
                var dir := committed.dir;
                outcome == if status == Excused || status == Late || Strip(reason) == "" then Invalid
                           else if k.course !in dir.courses then NotFound
                           else if !dir.courses[k.course] then Invalid
                           else if k.student !in dir.students then NotFound
                           else if !dir.students[k.student].active then Invalid
                           else Done
      ensures outcome == Done ==>
                previous == if k in old(committed).table then Some(old(committed).table[k].status) else None
    {
      previous := None;
      if (status != Present && status != Absent) || Strip(reason) == "" {
        return Invalid, None;
      }
      var ok, left := Statement(faultAt);
      outcome := if ok then RequireCourse(pending.dir, k.course) else Failed;
      if outcome != Done {
        return;
      }
      ok, left := Statement(left);
      outcome := if ok then RequireStudent(pending.dir, k.student) else Failed;
      if outcome != Done {
        return;
      }
      CommittedIsCorrected(pending, k, status, reason, now);
      outcome, previous := WriteOverride(k, status, reason, now, left);
    }

    /** The transaction of an override. */
    method WriteOverride(k: Key, status: Status, reason: string, now: int, faultAt: Option<nat>)
      returns (outcome: Outcome, previous: Option<Status>)
      requires Idle()
      modifies this
      ensures Idle() && outcome == if Faulty(faultAt, 4) then Failed else Done
      ensures committed == if outcome == Done then Commit(old(committed), OverrideOf(old(committed), k, status, reason, now))
                           else old(committed)
      ensures outcome == Done ==>
                previous == if k in old(committed).table then Some(old(committed).table[k].status) else None
    {
      previous := None;
      var ok, left := Statement(faultAt);
      if ok {
        previous := if k in pending.table then Some(pending.table[k].status) else None;
        ok, left := Statement(left);
      }
      if !ok {
        Rollback();
        return Failed, None;
      }
      var c := Override(k, previous, status, Strip(reason), now);
      var t := UpsertOverride(pending.table, k, status, Strip(reason), now);
      pending := pending.(table := t, changes := pending.changes + [c]);
      outcome := EmitChange(OverrideApply(k, previous, status), c, left);
    }

    /** list_session_records: the recorded students of the day, with the threshold of whichever record the database
        returns first. */
    method ListSessionRecords(course: nat, day: int, defaultThreshold: int) returns (outcome: Outcome, listing: Listing)
      ensures outcome == RequireCourse(committed.dir, course)
      ensures outcome == Done ==>
                var rows := listing.rows;
                && (forall i :: 0 <= i < |rows| ==> Lists(rows[i], committed.table, committed.sightings, course, day))
                && (forall i, j :: 0 <= i < j < |rows| ==> rows[i].student != rows[j].student)
                && Listed(rows) == StudentsOf(committed.table, course, day)
                && listing.threshold == if rows == [] then defaultThreshold else rows[0].threshold
    {
      outcome, listing := RequireCourse(committed.dir, course), Listing(defaultThreshold, []);
      if outcome != Done {
        return;
      }
      var table, sightings := committed.table, committed.sightings;
      var counts := GroupByStudent(sightings, course, day);
      var rows: seq<RosterRow> := [];
      var rest := StudentsOf(table, course, day);
      while rest != {}
        invariant Listed(rows) + rest == StudentsOf(table, course, day) && Listed(rows) !! rest
        invariant forall i :: 0 <= i < |rows| ==> Lists(rows[i], table, sightings, course, day)
        invariant forall i, j :: 0 <= i < j < |rows| ==> rows[i].student != rows[j].student
        decreases rest
      {
        var id :| id in rest;
        var k := Key(id, course, day);
        assert Tallied(counts, sightings, course, day, id);
        var row := RosterRow(id, table[k].status, if id in counts then counts[id] else 0, table[k].threshold, table[k].evaluatedAt);
        assert forall i :: 0 <= i < |rows| ==> rows[i].student in Listed(rows);
        ListedSnoc(rows, row);
        rows := rows + [row];
        rest := rest - {id};
      }
      listing := Listing(if rows == [] then defaultThreshold else rows[0].threshold, rows);
    }

    /** export_daily_roster: the rows, and an advisory ledger row whose failure is swallowed. */
    method ExportDailyRoster(course: nat, day: int, faultAt: Option<nat>) returns (outcome: Outcome, rows: seq<ExportRow>)
      requires Idle()
      modifies this
      ensures Idle() && (committed, outcome) == RunExport(old(committed), course, day, faultAt)
      ensures outcome == Done ==> IsRoster(rows, committed, course, day)
      ensures committed == old(committed).(ledger := committed.ledger)
      ensures faultAt.None? ==>
                && outcome == (if course !in committed.dir.courses then NotFound
                               else if !committed.dir.courses[course] then Invalid else Done)
                && committed.ledger == (if rows == [] then old(committed).ledger else old(committed).ledger + [Export(course, day, |rows|)])
      ensures outcome == Done ==> forall i, j :: 0 <= i < j < |rows| ==>
                rows[i].student in committed.dir.students && rows[j].student in committed.dir.students ==>
                  committed.dir.students[rows[i].student].number <= committed.dir.students[rows[j].student].number
    {
      rows := [];
      var ok, left := Statement(faultAt);
      outcome := if ok then RequireCourse(pending.dir, course) else Failed;
      if outcome != Done {
        return;
      }
      ok, left := Statement(left);
      if ok {
        ok, left := Statement(left);
      }
      if !ok {
        return Failed, [];
      }
      rows := BuildRoster(pending, course, day);
      if rows != [] {
        ok, left := Statement(left);
        outcome := Failed;
        if ok {
          outcome := EmitAdvisory(Export(course, day, |rows|), left);
        }
      }
    }

    /** A failing flush rolls back and is forgotten; the commit that follows can still raise. */
    method EmitAdvisory(e: Event, faultAt: Option<nat>) returns (outcome: Outcome)
      requires Idle()
      modifies this
      ensures Idle() && outcome == if faultAt == Some(1) then Failed else Done
      ensures committed == if Faulty(faultAt, 2) then old(committed) else old(committed).(ledger := old(committed).ledger + [e])
    {
      var ok, left := Statement(faultAt);
      if ok {
        pending := pending.(ledger := pending.ledger + [e]);
        outcome := Finish(left);
      } else {
        Rollback();
        outcome := Done;
      }
    }

    /** The courses the scheduler would pick. */
    method SelectScheduledActiveCourseIds(day: int) returns (ids: set<nat>)
      ensures ids == Scheduled(committed.table, committed.sightings, Active(committed.dir), day)
    {
      ids := set c | c in Active(committed.dir) &&
                     (HasSightings(committed.sightings, c, day) || HasRecords(committed.table, c, day));
    }

    /** _evaluate_daily_attendance: course by course, each in a session of its own; a course that fails is skipped. */
    method EvaluateDailyAttendance(day: int, threshold: int, clock: nat -> int, faults: nat -> Option<nat>)
      returns (scheduled: nat, evaluated: nat, failed: set<nat>, ghost added: seq<Event>)
      requires Idle()
      modifies this
      ensures Idle() && scheduled == |ScheduledIn(old(committed), day)| && evaluated + |failed| == scheduled
      ensures failed == FailingIn(old(committed), ScheduledIn(old(committed), day), day, threshold, faults)
      ensures Night(old(committed), committed, ScheduledIn(old(committed), day) - failed, added, day, threshold, clock)
    {
      var ids := SelectScheduledActiveCourseIds(day);
      scheduled := |ids|;
      evaluated, failed, added := EvaluateCourses(ids, day, threshold, clock, faults);
    }

    /** The loop over the scheduled courses. */
    method EvaluateCourses(ids: set<nat>, day: int, threshold: int, clock: nat -> int, faults: nat -> Option<nat>)
      returns (evaluated: nat, failed: set<nat>, ghost added: seq<Event>)
      requires Idle() && ids <= Active(committed.dir)
      modifies this
      ensures Idle() && evaluated + |failed| == |ids|
      ensures failed == FailingIn(old(committed), ids, day, threshold, faults)
      ensures Night(old(committed), committed, ids - failed, added, day, threshold, clock)
    {
      ghost var db := committed;
      evaluated, failed, added := 0, {}, [];
      NightFalls(db, day, threshold, clock);
      ghost var done: set<nat> := {};
      var rest := ids;
      while rest != {}
        invariant Idle() && Split(ids, done, failed, rest) && evaluated == |done|
        invariant Sorted(db, done, failed, day, threshold, faults)
        invariant Night(db, committed, done, added, day, threshold, clock)
        decreases rest
      {
        var course :| course in rest;
        Take(ids, done, failed, rest, course);
        Sort(db, done, failed, course, day, threshold, faults);
        var ok;
        ok, added := EvaluateOne(course, day, threshold, clock, faults(course), db, done, added);
        rest := rest - {course};
        if ok {
          evaluated, done := evaluated + 1, done + {course};
        } else {
          failed := failed + {course};
        }
      }
      AllSorted(db, ids, done, failed, day, threshold, faults);
    }

    /** One round of the loop, seen from the state the run began in. */
    method EvaluateOne(course: nat, day: int, threshold: int, clock: nat -> int, faultAt: Option<nat>,
                       ghost db: Db, ghost done: set<nat>, ghost added: seq<Event>)
      returns (ok: bool, ghost more: seq<Event>)
      requires Idle() && course in Active(db.dir) && course !in done && Night(db, committed, done, added, day, threshold, clock)
      modifies this
      ensures Idle() && ok == !Fails(db, course, day, threshold, faultAt)
      ensures Night(db, committed, if ok then done + {course} else done, more, day, threshold, clock)
    {
      NightStep(db, committed, done, added, course, day, threshold, clock, faultAt);
      more := AddedBy(db, added, course, day, threshold, faultAt);
      var outcome, written := EvaluateClassAttendance(course, day, threshold, clock(course), faultAt);
      ok := outcome == Done;
    }

    /** An evaluation, the listing and the export of its day, one after the other. */
    method EvaluateListExport(course: nat, day: int, threshold: int, now: int, defaultThreshold: int)
      returns (outcome: Outcome, listing: Listing, rows: seq<ExportRow>)
      requires Idle()
      modifies this
      ensures Idle() && outcome == RunEvaluate(old(committed), course, day, threshold, now, None).1
      ensures outcome == Done ==>
                ViewsAgree(committed.table, committed.sightings, course, day, threshold, listing.rows, rows)
    {
      ghost var db := committed;
      listing, rows := Listing(0, []), [];
      var written;
      outcome, written := EvaluateClassAttendance(course, day, threshold, now, None);
      if outcome != Done {
        return;
      }
      ghost var evaluated := committed;
      EvaluateKeeps(db, course, day, threshold, now);
      var listed, exported;
      listed, listing := ListSessionRecords(course, day, defaultThreshold);
      exported, rows := ExportDailyRoster(course, day, None);
      ExportKeeps(evaluated, course, day);
      ViewsAgreeAfterEvaluation(db.table, evaluated.table, evaluated.sightings, course, day, threshold, now, listing.rows, rows);
    }
  }

  lemma EvaluateKeeps(db: Db, course: nat, day: int, threshold: int, now: int)
    ensures var (db', outcome) := RunEvaluate(db, course, day, threshold, now, None);
            db'.dir == db.dir && db'.sightings == db.sightings && (outcome == Done ==> RequireCourse(db.dir, course) == Done)
  {
  }

  lemma ExportKeeps(db: Db, course: nat, day: int)
    requires RequireCourse(db.dir, course) == Done
    ensures var (db', outcome) := RunExport(db, course, day, None);
            outcome == Done && db'.dir == db.dir && db'.table == db.table && db'.sightings == db.sightings
  {
  }

  function Active(dir: Directory): set<nat> {
    set c | c in dir.courses && dir.courses[c]
  }

  function ScheduledIn(db: Db, day: int): set<nat> {
    Scheduled(db.table, db.sightings, Active(db.dir), day)
  }

  /** Whether the evaluation of an active course fails: three statements if there is nobody, six otherwise. */
  predicate Fails(db: Db, course: nat, day: int, threshold: int, faultAt: Option<nat>) {
    threshold < 1 || Faulty(faultAt, if Population(db.table, db.sightings, course, day) == {} then 3 else 6)
  }

  function FailingIn(db: Db, ids: set<nat>, day: int, threshold: int, faults: nat -> Option<nat>): set<nat> {
    set c | c in ids && Fails(db, c, day, threshold, faults(c))
  }

  /** Every course is evaluated, failed or still to come. */
  predicate Split(ids: set<nat>, done: set<nat>, failed: set<nat>, rest: set<nat>) {
    done + failed + rest == ids && done !! failed && (done + failed) !! rest
  }

  lemma Take(ids: set<nat>, done: set<nat>, failed: set<nat>, rest: set<nat>, course: nat)
    requires Split(ids, done, failed, rest) && course in rest
    ensures Split(ids, done + {course}, failed, rest - {course}) && Split(ids, done, failed + {course}, rest - {course})
    ensures course in ids && course !in done && course !in failed
    ensures |done + {course}| == |done| + 1
  {
    assert done + {course} + failed + (rest - {course}) == ids;
    assert done + (failed + {course}) + (rest - {course}) == ids;
  }

  ghost predicate Sorted(db: Db, done: set<nat>, failed: set<nat>, day: int, threshold: int, faults: nat -> Option<nat>) {
    && (forall c: nat :: c in done ==> !Fails(db, c, day, threshold, faults(c)))
    && (forall c: nat :: c in failed ==> Fails(db, c, day, threshold, faults(c)))
  }

  lemma Sort(db: Db, done: set<nat>, failed: set<nat>, course: nat, day: int, threshold: int, faults: nat -> Option<nat>)
    requires Sorted(db, done, failed, day, threshold, faults)
    ensures if Fails(db, course, day, threshold, faults(course))
            then Sorted(db, done, failed + {course}, day, threshold, faults)
            else Sorted(db, done + {course}, failed, day, threshold, faults)
  {
  }

  lemma AllSorted(db: Db, ids: set<nat>, done: set<nat>, failed: set<nat>, day: int, threshold: int, faults: nat -> Option<nat>)
    requires Split(ids, done, failed, {}) && Sorted(db, done, failed, day, threshold, faults)
    ensures failed == FailingIn(db, ids, day, threshold, faults) && done == ids - failed && |done| + |failed| == |ids|
  {
    forall c: nat ensures c in failed <==> c in FailingIn(db, ids, day, threshold, faults) {
      assert c in ids <==> c in done || c in failed;
    }
    assert |done + failed| == |done| + |failed|;
    assert done + failed == ids;
  }

  /** ATTENDANCE_EVALUATE rows of one course and day. */
  function RowsFor(events: seq<Event>, course: nat, day: int): nat {
    if events == [] then 0
    else
      var last := events[|events| - 1];
      RowsFor(events[..|events| - 1], course, day) +
      if last.AttendanceEvaluate? && last.course == course && last.day == day then 1 else 0
  }

  predicate NightlyRow(db: Db, e: Event, day: int) {
    e.AttendanceEvaluate? && e.day == day && e.records == |Population(db.table, db.sightings, e.course, day)|
  }

  ghost predicate RowsOk(db: Db, added: seq<Event>, done: set<nat>, day: int, course: nat) {
    RowsFor(added, course, day) ==
    if course in done && Population(db.table, db.sightings, course, day) != {} then 1 else 0
  }

  /** One row for every evaluated course with anybody to evaluate, with their number, and no other row at all. */
  ghost predicate OneRowEach(db: Db, added: seq<Event>, done: set<nat>, day: int) {
    && (forall i :: 0 <= i < |added| ==> NightlyRow(db, added[i], day))
    && (forall course: nat :: RowsOk(db, added, done, day, course))
  }

  lemma OneMoreRow(db: Db, added: seq<Event>, done: set<nat>, course: nat, day: int)
    requires OneRowEach(db, added, done, day) && course !in done
    ensures OneRowEach(db, added + RowOf(db, course, day), done + {course}, day)
  {
    var more := added + RowOf(db, course, day);
    if RowOf(db, course, day) != [] {
      assert more[..|added|] == added;
    } else {
      assert more == added;
    }
    forall c: nat ensures RowsOk(db, more, done + {course}, day, c) {
      assert RowsOk(db, added, done, day, c);
    }
  }

  /** The row of an evaluation that has anybody to evaluate. */
  function RowOf(db: Db, course: nat, day: int): seq<Event> {
    var population := Population(db.table, db.sightings, course, day);
    if population == {} then [] else [AttendanceEvaluate(course, day, |population|)]
  }

  function AddedBy(db: Db, added: seq<Event>, course: nat, day: int, threshold: int, faultAt: Option<nat>): seq<Event> {
    if Fails(db, course, day, threshold, faultAt) then added else added + RowOf(db, course, day)
  }

  /** The nightly run so far, seen from the state `db` it began in: the courses in `done` are evaluated and no other row
      has changed; and one ledger row was added for each of them. */
  ghost predicate Night(db: Db, now: Db, done: set<nat>, added: seq<Event>, day: int, threshold: int, clock: nat -> int) {
    && now.sightings == db.sightings && now.dir == db.dir
    && DayDone(db.table, now.table, db.sightings, done, day, threshold, clock)
    && now.ledger == db.ledger + added && OneRowEach(db, added, done, day)
  }

  lemma NightFalls(db: Db, day: int, threshold: int, clock: nat -> int)
    ensures Night(db, db, {}, [], day, threshold, clock)
  {
    forall k: Key ensures DaySettled(db.table, db.table, db.sightings, {}, day, threshold, clock, k) {
    }
    assert db.ledger + [] == db.ledger;
  }

  /** What an evaluation of an active course does, in terms of its outcome. */
  lemma EvaluateEffect(db: Db, course: nat, day: int, threshold: int, now: int, faultAt: Option<nat>)
    requires course in Active(db.dir)
    ensures var (db', outcome) := RunEvaluate(db, course, day, threshold, now, faultAt);
            && (outcome == Done <==> !Fails(db, course, day, threshold, faultAt)) && (outcome != Done ==> db' == db)
            && db'.sightings == db.sightings && db'.dir == db.dir
            && (outcome == Done ==> db'.ledger == db.ledger + RowOf(db, course, day))
  {
    assert CountsOf(db, course, day).Keys == Population(db.table, db.sightings, course, day);
    assert |CountsOf(db, course, day)| == |CountsOf(db, course, day).Keys|;
    assert db.ledger + [] == db.ledger;
  }

  lemma EvaluateSettles(db: Db, course: nat, day: int, threshold: int, now: int, faultAt: Option<nat>, k: Key)
    requires RunEvaluate(db, course, day, threshold, now, faultAt).1 == Done
    ensures Settled(db.table, RunEvaluate(db, course, day, threshold, now, faultAt).0.table, db.sightings,
                    k.course == course && k.day == day, threshold, now, k)
  {
    EvaluationSettles(db, course, day, threshold, now, k);
    PopulationIsConcerned(db.table, db.sightings, course, day, k);
    assert CountsOf(db, course, day).Keys == Population(db.table, db.sightings, course, day);
  }

  lemma NightStep(db: Db, now: Db, done: set<nat>, added: seq<Event>, course: nat, day: int, threshold: int, clock: nat -> int,
                  faultAt: Option<nat>)
    requires Night(db, now, done, added, day, threshold, clock) && course in Active(db.dir) && course !in done
    ensures var (now', outcome) := RunEvaluate(now, course, day, threshold, clock(course), faultAt);
            && (outcome == Done <==> !Fails(db, course, day, threshold, faultAt))
            && Night(db, now', if outcome == Done then done + {course} else done,
                     AddedBy(db, added, course, day, threshold, faultAt), day, threshold, clock)
  {
    PopulationUntouched(db, now.table, done, course, day, threshold, clock);
    EvaluateEffect(now, course, day, threshold, clock(course), faultAt);
    var run := RunEvaluate(now, course, day, threshold, clock(course), faultAt);
    if run.1 == Done {
      forall k: Key
        ensures Settled(now.table, run.0.table, db.sightings, k.course == course && k.day == day, threshold, clock(course), k)
      {
        EvaluateSettles(now, course, day, threshold, clock(course), faultAt, k);
      }
      OneMoreCourse(db.table, now.table, run.0.table, db.sightings, done, course, day, threshold, clock);
      OneMoreRow(db, added, done, course, day);
      assert db.ledger + added + RowOf(db, course, day) == db.ledger + (added + RowOf(db, course, day));
    }
  }

  /** Courses evaluated before do not change who is concerned by this one. */
  lemma PopulationUntouched(db: Db, t: Table, done: set<nat>, course: nat, day: int, threshold: int, clock: nat -> int)
    requires DayDone(db.table, t, db.sightings, done, day, threshold, clock) && course !in done
    ensures Population(t, db.sightings, course, day) == Population(db.table, db.sightings, course, day)
  {
    forall k: Key ensures k in Population(t, db.sightings, course, day) <==> k in Population(db.table, db.sightings, course, day) {
      assert DaySettled(db.table, t, db.sightings, done, day, threshold, clock, k);
      PopulationIsConcerned(t, db.sightings, course, day, k);
      PopulationIsConcerned(db.table, db.sightings, course, day, k);
      assert k in t <==> Get(t, k).Some?;
      assert k in db.table <==> Get(db.table, k).Some?;
    }
  }

  lemma OneMoreCourse(t0: Table, t1: Table, t2: Table, sightings: seq<Sighting>, done: set<nat>, course: nat, day: int,
                      threshold: int, clock: nat -> int)
    requires course !in done && DayDone(t0, t1, sightings, done, day, threshold, clock)
    requires forall k: Key :: Settled(t1, t2, sightings, k.course == course && k.day == day, threshold, clock(course), k)
    ensures DayDone(t0, t2, sightings, done + {course}, day, threshold, clock)
  {
    forall k: Key ensures DaySettled(t0, t2, sightings, done + {course}, day, threshold, clock, k) {
      assert DaySettled(t0, t1, sightings, done, day, threshold, clock, k);
      assert Settled(t1, t2, sightings, k.course == course && k.day == day, threshold, clock(course), k);
      assert k in t1 <==> Get(t1, k).Some?;
      assert k in t0 <==> Get(t0, k).Some?;
    }
  }

  /** INSERT .. ON CONFLICT DO UPDATE of an override: an existing row keeps its count and its threshold. */
  method UpsertOverride(table: Table, k: Key, status: Status, reason: string, now: int) returns (t: Table)
    ensures t == table[k := Overridden(Get(table, k), status, reason, now)]
  {
    var notes := Some("manual_override: " + reason);
    assert "manual_override: " == OVERRIDE_PREFIX + " ";
    if k in table {
      t := table[k := table[k].(status := status, evaluatedAt := now, notes := notes)];
    } else {
      t := table[k := Record(status, 0, OVERRIDE_THRESHOLD, now, notes)];
    }
  }

  /** One row for everyone recorded or seen, in order of student number. */
  ghost predicate IsRoster(rows: seq<ExportRow>, db: Db, course: nat, day: int) {
    && AllExport(rows, db.table, db.sightings, course, day) && InOrder(db.dir.students, rows)
    && (forall student: nat :: student in Exported(rows) <==> Concerned(db.table, db.sightings, Key(student, course, day)))
    && |rows| == |Population(db.table, db.sightings, course, day)|
  }

  method BuildRoster(db: Db, course: nat, day: int) returns (rows: seq<ExportRow>)
    ensures IsRoster(rows, db, course, day)
  {
    var table, sightings := db.table, db.sightings;
    var last := LastByStudent(sightings, course, day);
    var scores := ScoresByStudent(sightings, course, day);
    var ids := StudentsOf(table, course, day) + last.Keys;
    ConcernedAre(table, sightings, course, day, last);
    IdsArePopulation(table, sightings, course, day, ids);
    rows := RowsInOrder(db, course, day, ids, last, scores);
  }

  /** The roster as far as it is built, with `rest` still to come. */
  ghost predicate Built(db: Db, course: nat, day: int, ids: set<nat>, rest: set<nat>, rows: seq<ExportRow>) {
    && Exported(rows) + rest == ids && Exported(rows) !! rest && |rows| + |rest| == |ids|
    && AllExport(rows, db.table, db.sightings, course, day) && Ahead(db.dir.students, rows, rest)
  }

  lemma MoveOver(done: set<nat>, rest: set<nat>, x: nat)
    requires done !! rest && x in rest
    ensures done + {x} + (rest - {x}) == done + rest && (done + {x}) !! (rest - {x})
    ensures |rest - {x}| == |rest| - 1
  {
  }

  lemma BuiltSnoc(db: Db, course: nat, day: int, ids: set<nat>, rest: set<nat>, rows: seq<ExportRow>, row: ExportRow)
    requires Built(db, course, day, ids, rest, rows) && row.student in rest
    requires FirstOf(db.dir.students, row.student, rest) && Exports(row, db.table, db.sightings, course, day)
    ensures Built(db, course, day, ids, rest - {row.student}, rows + [row])
  {
    assert AllExport(rows + [row], db.table, db.sightings, course, day) by {
      AllExportSnoc(rows, row, db.table, db.sightings, course, day);
    }
    assert Ahead(db.dir.students, rows + [row], rest - {row.student}) by {
      AheadSnoc(db.dir.students, rows, row, rest);
    }
    ExportedSnoc(rows, row);
    MoveOver(Exported(rows), rest, row.student);
  }

  method RowsInOrder(db: Db, course: nat, day: int, ids: set<nat>, last: map<nat, int>, scores: map<nat, (real, nat)>)
    returns (rows: seq<ExportRow>)
    requires forall id: nat :: id in ids ==> Concerned(db.table, db.sightings, Key(id, course, day))
    requires forall student: nat :: LastOk(last, db.sightings, course, day, student)
    requires forall student: nat :: ScoresOk(scores, db.sightings, course, day, student)
    ensures Built(db, course, day, ids, {}, rows)
  {
    rows := [];
    var rest := ids;
    while rest != {}
      invariant rest <= ids && Built(db, course, day, ids, rest, rows)
      decreases rest
    {
      var id := First(db.dir.students, rest);
      var row := ExportOne(db.table, db.sightings, course, day, id, last, scores);
      BuiltSnoc(db, course, day, ids, rest, rows, row);
      rows := rows + [row];
      rest := rest - {id};
    }
  }

  lemma ConcernedAre(table: Table, sightings: seq<Sighting>, course: nat, day: int, last: map<nat, int>)
    requires forall student: nat :: LastOk(last, sightings, course, day, student)
    ensures forall student: nat ::
              student in StudentsOf(table, course, day) + last.Keys <==> Concerned(table, sightings, Key(student, course, day))
  {
    forall student: nat
      ensures student in StudentsOf(table, course, day) + last.Keys <==> Concerned(table, sightings, Key(student, course, day))
    {
      var k := Key(student, course, day);
      assert LastOk(last, sightings, course, day, student);
      assert k in table <==> student in StudentsOf(table, course, day);
    }
  }

  method ExportOne(table: Table, sightings: seq<Sighting>, course: nat, day: int, id: nat, last: map<nat, int>,
                   scores: map<nat, (real, nat)>) returns (row: ExportRow)
    requires Concerned(table, sightings, Key(id, course, day))
    requires LastOk(last, sightings, course, day, id) && ScoresOk(scores, sightings, course, day, id)
    ensures row.student == id && Exports(row, table, sightings, course, day)
  {
    var k := Key(id, course, day);
    var seen := if id in last then Some(last[id]) else None;
    var confidence := if id in scores && scores[id].1 > 0 then Some(scores[id].0 / scores[id].1 as real) else None;
    if k in table {
      row := ExportRow(id, Some(table[k].status), confidence, seen, ShowsOverride(table[k]), OverrideReason(table[k]));
    } else {
      row := ExportRow(id, None, confidence, seen, false, "");
    }
  }
}
