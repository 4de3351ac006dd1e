/** Attendance: sightings, evaluation, manual overrides, the listing and the export of one day's roster, and the
    nightly evaluation of every course with activity. */
module Attendance {

  import opened Wrappers

  datatype Status = Present | Absent | Late | Excused

  /** The unique key of a class session record. */
  datatype Key = Key(student: nat, course: nat, day: int)

  datatype Record = Record(status: Status, count: nat, threshold: int, evaluatedAt: int, notes: Option<string>)

  datatype Sighting = Sighting(student: Option<nat>, course: nat, at: int, confidence: Option<real>)

  datatype Event =
    | AttendanceEvaluate(course: nat, day: int, records: nat)
    | OverrideApply(key: Key, from: Option<Status>, to: Status)
    | Export(course: nat, day: int, rows: nat) // advisory

  type Table = map<Key, Record>

  const DAY: int := 86_400_000_000
  const OVERRIDE_PREFIX: string := "manual_override:"
  const OVERRIDE_THRESHOLD: int := 3

  function Get(t: Table, k: Key): Option<Record> {
    if k in t then Some(t[k]) else None
  }

  /** The window of a date is half open. */
  predicate Within(at: int, day: int) {
    day * DAY <= at < (day + 1) * DAY
  }

  /** Days are whole UTC days in microseconds, and every moment lies in exactly one. */
  lemma OneDay(at: int, day: int)
    ensures Within(at, day) <==> day == at / (24 * 60 * 60 * 1_000_000)
  {
  }

  predicate Counts(s: Sighting, k: Key) {
    s.student == Some(k.student) && s.course == k.course && Within(s.at, k.day)
  }

  function Count(sightings: seq<Sighting>, k: Key): nat {
    if sightings == [] then 0
    else Count(sightings[..|sightings| - 1], k) + (if Counts(sightings[|sightings| - 1], k) then 1 else 0)
  }

  /** A student the evaluation of a course and day is about: recorded or seen. */
  predicate Concerned(t: Table, sightings: seq<Sighting>, k: Key) {
    k in t || Count(sightings, k) > 0
  }

  function StatusFor(before: Option<Status>, count: nat, threshold: int): Status {
    if before == Some(Excused) then Excused else if count >= threshold then Present else Absent
  }

  /** The row an evaluation leaves: only its status, count, threshold and time are overwritten. */
  function Verdict(before: Option<Record>, count: nat, threshold: int, now: int): Record {
    Record(StatusFor(if before.Some? then Some(before.value.status) else None, count, threshold), count, threshold, now,
           if before.Some? then before.value.notes else None)
  }

  /** What evaluating a course (or not) makes of one key. */
  predicate Settled(before: Table, after: Table, sightings: seq<Sighting>, evaluated: bool, threshold: int, now: int, k: Key) {
    Get(after, k) ==
    if evaluated && Concerned(before, sightings, k)
    then Some(Verdict(Get(before, k), Count(sightings, k), threshold, now))
    else Get(before, k)
  }

  // ---------------------------------------------------------------- what an evaluation settles

  /** The students of a course and day, as records and as the export sees them. */
  ghost predicate Agrees(t: Table, sightings: seq<Sighting>, threshold: int, k: Key) {
    && (k in t <==> Concerned(t, sightings, k))
    && (k in t ==> t[k].threshold == threshold && t[k].count == Count(sightings, k)
                   && (t[k].status == Excused || (t[k].status == Present <==> Count(sightings, k) >= threshold))
                   && t[k].status != Late)
  }

  /** Right after an evaluation, every student of that course and day has a record, with the counted sightings, the
      one threshold, and a verdict that follows from the two; whoever was EXCUSED still is, and nobody else is. */
  lemma EvaluationSettlesTheDay(before: Table, after: Table, sightings: seq<Sighting>, threshold: int, now: int, k: Key)
    requires Settled(before, after, sightings, true, threshold, now, k)
    ensures Agrees(after, sightings, threshold, k)
    ensures k in after && after[k].status == Excused <==> k in before && before[k].status == Excused
    ensures Concerned(after, sightings, k) <==> Concerned(before, sightings, k)
  {
    assert Get(after, k).Some? <==> k in after;
  }

  /** Evaluating again without new sightings changes no status, count, note or threshold. */
  lemma EvaluatingAgainChangesNothing(t0: Table, t1: Table, t2: Table, sightings: seq<Sighting>, threshold: int,
                                      now1: int, now2: int, k: Key)
    requires Settled(t0, t1, sightings, true, threshold, now1, k)
    requires Settled(t1, t2, sightings, true, threshold, now2, k)
    ensures k in t2 <==> k in t1
    ensures k in t2 ==> t2[k] == t1[k].(evaluatedAt := now2)
  {
    assert Get(t1, k).Some? <==> k in t1;
    assert Get(t2, k).Some? <==> k in t2;
  }

  datatype Round = Round(count: nat, threshold: int, now: int)

  function Reevaluate(r: Record, rounds: seq<Round>): Record {
    if rounds == [] then r
    else
      var last := rounds[|rounds| - 1];
      Verdict(Some(Reevaluate(r, rounds[..|rounds| - 1])), last.count, last.threshold, last.now)
  }

  /** EXCUSED survives any number of evaluations, and so do the notes of any row; no other status does. */
  lemma {:induction false} ExcusedStaysExcused(r: Record, rounds: seq<Round>)
    ensures Reevaluate(r, rounds).notes == r.notes
    ensures Reevaluate(r, rounds).status == Excused <==> r.status == Excused
    ensures rounds != [] && r.status != Excused ==>
              var last := rounds[|rounds| - 1];
              Reevaluate(r, rounds).status == if last.count >= last.threshold then Present else Absent
  {
    if rounds != [] {
      ExcusedStaysExcused(r, rounds[..|rounds| - 1]);
    }
  }

  /** Unicode whitespace. */
  predicate IsSpace(c: char) {
    || '\t' <= c <= '\r' || '\U{1C}' <= c <= ' ' || c == '\U{85}' || c == '\U{A0}' || c == '\U{1680}'
    || '\U{2000}' <= c <= '\U{200A}' || c == '\U{2028}' || c == '\U{2029}' || c == '\U{202F}' || c == '\U{205F}' || c == '\U{3000}'
  }

  function Strip(s: string): (r: string)
    ensures r != "" ==> !IsSpace(r[0]) && !IsSpace(r[|r| - 1])
  {
    if s != "" && IsSpace(s[0]) then Strip(s[1..])
    else if s != "" && IsSpace(s[|s| - 1]) then Strip(s[..|s| - 1])
    else s
  }

  /** Blanks, then `core`, then blanks. */
  ghost predicate Trims(s: string, core: string, from: nat) {
    && from + |core| <= |s| && s[from..from + |core|] == core
    && (forall k :: 0 <= k < from ==> IsSpace(s[k]))
    && (forall k :: from + |core| <= k < |s| ==> IsSpace(s[k]))
  }

  lemma TrimsFront(c: char, s: string, core: string, from: nat)
    requires Trims(s, core, from) && IsSpace(c)
    ensures Trims([c] + s, core, from + 1)
  {
    var longer := [c] + s;
    assert longer[from + 1..from + 1 + |core|] == s[from..from + |core|];
    assert forall k :: 1 <= k < |longer| ==> longer[k] == s[k - 1];
  }

  lemma TrimsBack(s: string, c: char, core: string, from: nat)
    requires Trims(s, core, from) && IsSpace(c)
    ensures Trims(s + [c], core, from)
  {
    assert (s + [c])[from..from + |core|] == s[from..from + |core|];
  }

  /** Stripping takes blanks from both ends and nothing else. */
  lemma {:induction false} StripIsTrim(s: string) returns (from: nat)
    ensures Trims(s, Strip(s), from)
    decreases |s|
  {
    if s != "" && IsSpace(s[0]) {
      var k := StripIsTrim(s[1..]);
      TrimsFront(s[0], s[1..], Strip(s), k);
      assert s == [s[0]] + s[1..];
      from := k + 1;
    } else if s != "" && IsSpace(s[|s| - 1]) {
      from := StripIsTrim(s[..|s| - 1]);
      TrimsBack(s[..|s| - 1], s[|s| - 1], Strip(s), from);
      assert s == s[..|s| - 1] + [s[|s| - 1]];
    } else {
      from := 0;
    }
  }

  /** The row an override leaves. */
  function Overridden(before: Option<Record>, status: Status, reason: string, now: int): Record {
    if before.Some? then
      before.value.(status := status, evaluatedAt := now, notes := Some(OVERRIDE_PREFIX + " " + reason))
    else
      Record(status, 0, OVERRIDE_THRESHOLD, now, Some(OVERRIDE_PREFIX + " " + reason))
  }

  predicate ShowsOverride(r: Record) {
    r.notes.Some? && OVERRIDE_PREFIX <= r.notes.value
  }

  /** The export's reading of the notes. */
  function OverrideReason(r: Record): string {
    if ShowsOverride(r) then Strip(r.notes.value[|OVERRIDE_PREFIX|..]) else ""
  }

  /** The reason of an override comes back from the notes as it was given, without the blanks around it, after any
      number of evaluations. */
  lemma ReasonRoundTrip(before: Option<Record>, status: Status, reason: string, now: int, rounds: seq<Round>)
    ensures var r := Reevaluate(Overridden(before, status, Strip(reason), now), rounds);
            ShowsOverride(r) && OverrideReason(r) == Strip(reason)
  {
    var written := Overridden(before, status, Strip(reason), now);
    ExcusedStaysExcused(written, rounds);
    var tail := " " + Strip(reason);
    assert written.notes.value[|OVERRIDE_PREFIX|..] == tail;
    assert tail[1..] == Strip(reason);
  }

  /** An override does not survive the next evaluation: its status stands exactly if the sightings say the same,
      while the row goes on showing as overridden; and it ends an EXCUSED for good. */
  lemma OverrideSurvivesIff(before: Option<Record>, status: Status, reason: string, now: int, count: nat, threshold: int,
                            later: int)
    requires status == Present || status == Absent
    ensures var r := Verdict(Some(Overridden(before, status, reason, now)), count, threshold, later);
            && (r.status == status <==> (status == Present <==> count >= threshold))
            && ShowsOverride(r) && r.status != Excused
  {
  }

  // ---------------------------------------------------------------- the nightly evaluation

  predicate Anyone(s: Sighting, course: nat, day: int) {
    s.course == course && Within(s.at, day)
  }

  predicate HasSightings(sightings: seq<Sighting>, course: nat, day: int) {
    exists i :: 0 <= i < |sightings| && Anyone(sightings[i], course, day)
  }

  predicate HasRecords(t: Table, course: nat, day: int) {
    exists k :: k in t && k.course == course && k.day == day
  }

  /** The courses the scheduler picks: active, with any sighting, even of nobody in particular, or any record. */
  function Scheduled(t: Table, sightings: seq<Sighting>, active: set<nat>, day: int): set<nat> {
    set c | c in active && (HasSightings(sightings, c, day) || HasRecords(t, c, day))
  }

  /** A course is scheduled for a day exactly if it is active and anything happened in it: a sighting within the day,
      whether or not of a known student, or a record of that day. */
  lemma ScheduledIff(t: Table, sightings: seq<Sighting>, active: set<nat>, day: int, course: nat)
    ensures course in Scheduled(t, sightings, active, day) <==>
            && course in active
            && ((exists i ::
                   0 <= i < |sightings| && sightings[i].course == course && day == sightings[i].at / (24 * 60 * 60 * 1_000_000)) ||
                (exists k :: k in t && k.course == course && k.day == day))
  {
    forall i | 0 <= i < |sightings|
      ensures Anyone(sightings[i], course, day) <==>
              sightings[i].course == course && day == sightings[i].at / (24 * 60 * 60 * 1_000_000)
    {
      OneDay(sightings[i].at, day);
    }
  }

  lemma {:induction false} SeenMeansSighting(sightings: seq<Sighting>, k: Key) returns (i: nat)
    requires Count(sightings, k) > 0
    ensures i < |sightings| && Counts(sightings[i], k)
    ensures HasSightings(sightings, k.course, k.day)
  {
    i := |sightings| - 1;
    if !Counts(sightings[i], k) {
      i := SeenMeansSighting(sightings[..i], k);
    }
    assert Anyone(sightings[i], k.course, k.day);
  }

  /** What a daily run makes of one key: every course that was evaluated, at its own time, and no other. */
  ghost predicate DaySettled(before: Table, after: Table, sightings: seq<Sighting>, courses: set<nat>, day: int,
                             threshold: int, clock: nat -> int, k: Key) {
    Settled(before, after, sightings, k.course in courses && k.day == day, threshold, clock(k.course), k)
  }

  ghost predicate DayDone(before: Table, after: Table, sightings: seq<Sighting>, courses: set<nat>, day: int,
                          threshold: int, clock: nat -> int) {
    forall k: Key :: DaySettled(before, after, sightings, courses, day, threshold, clock, k)
  }

  /** Two tables that tell the same but for when it was evaluated. */
  predicate SameButTimes(a: Table, b: Table, k: Key) {
    && (k in a <==> k in b)
    && (k in a ==> a[k] == b[k].(evaluatedAt := a[k].evaluatedAt))
  }

  /** Evaluating only the scheduled courses gives the same records as evaluating every active one, in whatever
      orders and at whatever times the two runs go through them, if the same courses fail. */
  lemma ScheduledIsEnough(before: Table, some: Table, all: Table, sightings: seq<Sighting>, active: set<nat>,
                          failing: set<nat>, day: int, threshold: int, clock1: nat -> int, clock2: nat -> int, k: Key)
    requires DayDone(before, some, sightings, Scheduled(before, sightings, active, day) - failing, day, threshold, clock1)
    requires DayDone(before, all, sightings, active - failing, day, threshold, clock2)
    ensures SameButTimes(some, all, k)
    ensures k.course in failing || k.day != day ==> Get(some, k) == Get(before, k)
  {
    assert DaySettled(before, some, sightings, Scheduled(before, sightings, active, day) - failing, day, threshold, clock1, k);
    assert DaySettled(before, all, sightings, active - failing, day, threshold, clock2, k);
    assert Get(some, k).Some? <==> k in some;
    assert Get(all, k).Some? <==> k in all;
    if k.course in active - failing && k.day == day && Count(sightings, k) > 0 {
      var i := SeenMeansSighting(sightings, k);
    }
  }
}
