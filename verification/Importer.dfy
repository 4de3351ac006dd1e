/** The bulk enrollment importer: one sequential pass over the rows of a batch. */
module Importer {
  import opened ImportCore
  import opened TemplateStore
  import opened Transactions
  import opened Wrappers

  type Bytes = seq<bv8>

  datatype Row = Row(studentNumber: string, imagePath: string, pose: string)

  datatype RosterEntry = RosterEntry(id: nat, active: bool)

  datatype Extraction = Extracted(face: Face) | NoFace | Unexpected

  /** Everything a run reads and never writes: roster, photo files and the deterministic foreign code.
      A path outside `files` is missing, unreadable or escapes the photo directory. */
  datatype World = World(
    roster: map<string, RosterEntry>,
    files: map<string, Bytes>,
    digest: Bytes -> string,
    decodes: Bytes -> bool,
    extract: Bytes -> Extraction,
    minQuality: real)

  datatype Reason = Unreadable | NoFaceFound | LowQuality | UnknownRef | InactiveStudent | InvalidRow

  datatype Verdict = Rejected(reason: Reason) | Resumed | Broken | Ready(key: Key, slot: Slot, face: Face)

  /** Steps 1 to 7 of the row loop, cheapest check first. */
  function Judge(w: World, journaled: set<Key>, row: Row): Verdict {
    if row.studentNumber !in w.roster then Rejected(UnknownRef)
    else if !w.roster[row.studentNumber].active then Rejected(InactiveStudent)
    else if row.imagePath !in w.files then Rejected(Unreadable)
    else
      var data := w.files[row.imagePath];
      var key := Key(row.studentNumber, w.digest(data));
      if key in journaled then Resumed
      else if !w.decodes(data) then Rejected(Unreadable)
      else match w.extract(data)
        case NoFace => Rejected(NoFaceFound)
        case Unexpected => Broken
        case Extracted(face) =>
          if face.quality < w.minQuality then Rejected(LowQuality)
          else Ready(key, Slot(w.roster[row.studentNumber].id, row.pose), face)
  }

  /** The row gets as far as extraction. */
  predicate Extracts(w: World, journaled: set<Key>, row: Row) {
    && row.studentNumber in w.roster && w.roster[row.studentNumber].active && row.imagePath in w.files
    && Key(row.studentNumber, w.digest(w.files[row.imagePath])) !in journaled && w.decodes(w.files[row.imagePath])
  }

  /** The inference server is lost at row `i`, and the row needs it. */
  predicate Stops(w: World, journaled: set<Key>, rows: seq<Row>, tritonDown: set<nat>, i: nat)
    requires i < |rows|
  {
    i in tritonDown && Extracts(w, journaled, rows[i])
  }

  ghost predicate NeverStops(w: World, journaled: set<Key>, rows: seq<Row>, tritonDown: set<nat>, n: nat)
    requires n <= |rows|
  {
    forall i: nat :: i < n ==> !Stops(w, journaled, rows, tritonDown, i)
  }

  lemma NotYetStopped(w: World, journaled: set<Key>, rows: seq<Row>, tritonDown: set<nat>, n: nat)
    requires n < |rows| && NeverStops(w, journaled, rows, tritonDown, n) && !Stops(w, journaled, rows, tritonDown, n)
    ensures NeverStops(w, journaled, rows, tritonDown, n + 1)
  {
  }

  /** The job a row asks for, journal aside. */
  function JobOf(w: World, row: Row): Job {
    var v := Judge(w, {}, row);
    if v.Ready? then Work(v.key, v.slot, v.face) else Idle
  }

  function Jobs(w: World, rows: seq<Row>): seq<Job> {
    seq(|rows|, i requires 0 <= i < |rows| => JobOf(w, rows[i]))
  }

  /** The journal only ever turns an importable row into a resumed one. */
  lemma JournalOnlySkips(w: World, journaled: set<Key>, row: Row)
    ensures var v, job := Judge(w, journaled, row), JobOf(w, row);
            if job.Idle? then !v.Ready?
            else v == if job.key in journaled then Resumed else Ready(job.key, job.slot, job.face)
  {
  }

  /** The template table as campaigns see it. */
  function Templates(version: nat): Table {
    Table((db: Db, slot: Slot) => Faces(db.templates, slot),
          (db: Db, slot: Slot, face: Face) => Rotate(db, slot, face, version),
          (db: Db, slot: Slot, face: Face) => exists t :: 0 <= t < |db.templates| && IsCopy(db.templates[t], slot, face))
  }

  predicate IsCopy(t: Template, slot: Slot, face: Face) {
    t.slot == slot && t.face == face
  }

  lemma TemplatesMean(version: nat, db: Db, slot: Slot, face: Face)
    ensures Templates(version).faces(db, slot) == Faces(db.templates, slot)
    ensures Templates(version).put(db, slot, face) == Rotate(db, slot, face, version)
  {
  }

  lemma RotateStillHolds(version: nat, db: Db, slot: Slot, face: Face, s: Slot, f: Face)
    ensures var t := Templates(version);
            t.holds(db, s, f) || (s == slot && f == face) ==> t.holds(t.put(db, slot, face), s, f)
  {
    var t, after := Templates(version), Rotate(db, slot, face, version);
    ArchiveKeeps(db.templates, slot);
    if t.holds(db, s, f) {
      var n :| 0 <= n < |db.templates| && IsCopy(db.templates[n], s, f);
      assert IsCopy(after.templates[n], s, f);
    } else if s == slot && f == face {
      assert IsCopy(after.templates[|db.templates|], s, f);
    }
  }

  /** Rotation changes only its own slot's active faces and never removes a stored template. */
  lemma TemplatesAreLawful(version: nat)
    ensures Lawful(Templates(version))
  {
    var t := Templates(version);
    forall db, slot, face ensures PutOk(t, db, slot, face) {
      forall other ensures t.faces(t.put(db, slot, face), other) == if other == slot then [face] else t.faces(db, other) {
        UpsertFaces(db, slot, face, version, true, other);
      }
      forall s, f ensures t.holds(db, s, f) || (s == slot && f == face) ==> t.holds(t.put(db, slot, face), s, f) {
        RotateStillHolds(version, db, slot, face, s, f);
      }
    }
  }

  // ---------------------------------------------------------------- which rows are imported

  /** Row and journal apart, everything an importable row needs, and the slot and the face it is imported as. */
  predicate Qualifies(w: World, journaled: set<Key>, row: Row, slot: Slot, face: Face) {
    && row.studentNumber in w.roster && w.roster[row.studentNumber].active
    && slot == Slot(w.roster[row.studentNumber].id, row.pose)
    && row.imagePath in w.files && Key(row.studentNumber, w.digest(w.files[row.imagePath])) !in journaled
    && w.decodes(w.files[row.imagePath])
    && w.extract(w.files[row.imagePath]) == Extracted(face) && face.quality >= w.minQuality
  }

  lemma LandsIffQualifies(w: World, rows: seq<Row>, p: Pass, i: nat, slot: Slot, face: Face)
    requires p.jobs == Jobs(w, rows) && i < |rows|
    ensures Lands(p, i, slot) && p.jobs[i].face == face <==> Qualifies(w, p.journaled, rows[i], slot, face) && i !in p.faults
    ensures p.jobs[i].Work? ==> p.jobs[i].key == Key(rows[i].studentNumber, w.digest(w.files[rows[i].imagePath]))
  {
  }

  /** Whatever is active now and was not before is the face extracted from the photo of one of the rows, of sufficient
      quality, in the slot of that row's student, who is enrolled and active, and its pose. */
  ghost predicate OnlyQualifyingRows(w: World, rows: seq<Row>, before: Db, after: Db) {
    forall slot, face :: face in Faces(after.templates, slot) && face !in Faces(before.templates, slot) ==>
      exists i: nat ::
        && i < |rows| && rows[i].studentNumber in w.roster && w.roster[rows[i].studentNumber].active
        && slot == Slot(w.roster[rows[i].studentNumber].id, rows[i].pose)
        && rows[i].imagePath in w.files && w.decodes(w.files[rows[i].imagePath])
        && w.extract(w.files[rows[i].imagePath]) == Extracted(face) && face.quality >= w.minQuality
  }

  /** Conversely, every row with all of that, whose photo is not in the journal, has its slot occupied. */
  ghost predicate EveryQualifyingRow(w: World, rows: seq<Row>, journaled: set<Key>, after: Db) {
    forall i: nat ::
      && i < |rows| && rows[i].studentNumber in w.roster && w.roster[rows[i].studentNumber].active
      && rows[i].imagePath in w.files && w.decodes(w.files[rows[i].imagePath])
      && Key(rows[i].studentNumber, w.digest(w.files[rows[i].imagePath])) !in journaled
      && w.extract(w.files[rows[i].imagePath]).Extracted?
      && w.extract(w.files[rows[i].imagePath]).face.quality >= w.minQuality ==>
        Faces(after.templates, Slot(w.roster[rows[i].studentNumber].id, rows[i].pose)) != []
  }

  /** No run imports anything else. */
  lemma NewFacesQualify(w: World, rows: seq<Row>, p: Pass, version: nat, n: nat)
    requires p.table == Templates(version) && p.jobs == Jobs(w, rows) && n <= |rows|
    ensures OnlyQualifyingRows(w, rows[..n], p.start.db, p.After(n).db)
  {
    TemplatesAreLawful(version);
    var first := rows[..n];
    forall slot, face | face in Faces(p.After(n).db.templates, slot) && face !in Faces(p.start.db.templates, slot)
      ensures exists i: nat :: i < n && Qualifies(w, p.journaled, first[i], slot, face)
    {
      FacesComeFromRows(p, n, slot);
      TemplatesMean(version, p.After(n).db, slot, face);
      TemplatesMean(version, p.start.db, slot, face);
      var i: nat :| i < n && Lands(p, i, slot) && p.table.faces(p.After(n).db, slot) == [p.jobs[i].face];
      LandsIffQualifies(w, rows, p, i, slot, face);
      assert first[i] == rows[i];
    }
  }

  /** Every row that qualifies and whose write does not raise leaves its slot occupied. */
  lemma QualifyingRowsAreStored(w: World, rows: seq<Row>, p: Pass, version: nat, i: nat, slot: Slot, face: Face)
    requires p.table == Templates(version) && p.jobs == Jobs(w, rows) && i < |rows| && i !in p.faults
    requires Qualifies(w, p.journaled, rows[i], slot, face)
    ensures Faces(p.Outcome().db.templates, slot) != []
  {
    TemplatesAreLawful(version);
    LandsIffQualifies(w, rows, p, i, slot, face);
    LandedIsOccupied(p, |rows|, i, slot);
    TemplatesMean(version, p.Outcome().db, slot, face);
  }

  lemma AllQualifyingStored(w: World, rows: seq<Row>, p: Pass, version: nat)
    requires p.table == Templates(version) && p.jobs == Jobs(w, rows) && p.faults == {}
    ensures EveryQualifyingRow(w, rows, p.journaled, p.Outcome().db)
  {
    forall i: nat, slot, face | i < |rows| && Qualifies(w, p.journaled, rows[i], slot, face)
      ensures Faces(p.Outcome().db.templates, slot) != []
    {
      QualifyingRowsAreStored(w, rows, p, version, i, slot, face);
    }
    forall i: nat | i < |rows| && Extracts(w, p.journaled, rows[i]) && w.extract(w.files[rows[i].imagePath]).Extracted?
                    && w.extract(w.files[rows[i].imagePath]).face.quality >= w.minQuality
      ensures Faces(p.Outcome().db.templates, Slot(w.roster[rows[i].studentNumber].id, rows[i].pose)) != []
    {
      assert Qualifies(w, p.journaled, rows[i], Slot(w.roster[rows[i].studentNumber].id, rows[i].pose),
                       w.extract(w.files[rows[i].imagePath]).face);
    }
  }

  /** Row `k` does not qualify for the slot, or its write raises. */
  ghost predicate Misses(w: World, p: Pass, rows: seq<Row>, slot: Slot, k: nat)
    requires k < |rows|
  {
    k in p.faults || forall face :: !Qualifies(w, p.journaled, rows[k], slot, face)
  }

  lemma MissesLandNowhere(w: World, rows: seq<Row>, p: Pass, slot: Slot, from: nat, to: nat)
    requires p.jobs == Jobs(w, rows) && to <= |rows| && forall k: nat :: from <= k < to ==> Misses(w, p, rows, slot, k)
    ensures NoneLands(p, from, to, slot)
  {
    forall k: nat | from <= k < to ensures !Lands(p, k, slot) {
      assert Misses(w, p, rows, slot, k);
      if Lands(p, k, slot) {
        LandsIffQualifies(w, rows, p, k, slot, p.jobs[k].face);
      }
    }
  }

  /** Who wins a slot: overwriting, the last row that qualifies for it; otherwise the first, and only if the slot was
      empty. A slot that no row qualifies for stays as it was. */
  lemma WhoWinsASlot(w: World, rows: seq<Row>, p: Pass, version: nat, i: nat, slot: Slot, face: Face)
    requires p.table == Templates(version) && p.jobs == Jobs(w, rows) && i < |rows|
    ensures var before, after := Faces(p.start.db.templates, slot), Faces(p.Outcome().db.templates, slot);
            && ((forall k: nat :: k < |rows| ==> Misses(w, p, rows, slot, k)) ==> after == before)
            && (i !in p.faults && Qualifies(w, p.journaled, rows[i], slot, face) ==>
                  && (p.overwrite && (forall k: nat :: i < k < |rows| ==> Misses(w, p, rows, slot, k)) ==> after == [face])
                  && (!p.overwrite && (forall k: nat :: k < i ==> Misses(w, p, rows, slot, k)) ==>
                        after == if before == [] then [face] else before))
  {
    TemplatesAreLawful(version);
    TemplatesMean(version, p.start.db, slot, face);
    TemplatesMean(version, p.Outcome().db, slot, face);
    if forall k: nat :: k < |rows| ==> Misses(w, p, rows, slot, k) {
      MissesLandNowhere(w, rows, p, slot, 0, |rows|);
      FacesComeFromRows(p, |rows|, slot);
    }
    if i !in p.faults && Qualifies(w, p.journaled, rows[i], slot, face) {
      LandsIffQualifies(w, rows, p, i, slot, face);
      if p.overwrite && forall k: nat :: i < k < |rows| ==> Misses(w, p, rows, slot, k) {
        MissesLandNowhere(w, rows, p, slot, i + 1, |rows|);
        LastLandingWins(p, |rows|, i, slot);
      }
      if !p.overwrite && forall k: nat :: k < i ==> Misses(w, p, rows, slot, k) {
        MissesLandNowhere(w, rows, p, slot, 0, i);
        FirstLandingWins(p, |rows|, i, slot);
      }
    }
  }

  /** The key of a row: its student number and the digest of its photo, whatever the file is called. */
  predicate IsKeyOf(w: World, row: Row, key: Key) {
    row.imagePath in w.files && key == Key(row.studentNumber, w.digest(w.files[row.imagePath]))
  }

  /** A row that is written leaves its face alone in its slot, and its key in the journal. */
  lemma WrittenRows(w: World, rows: seq<Row>, p: Pass, version: nat, i: nat, slot: Slot, face: Face)
    requires p.table == Templates(version) && p.jobs == Jobs(w, rows) && i < |rows|
    requires Qualifies(w, p.journaled, rows[i], slot, face) && i !in p.faults
    ensures var before, after := p.After(i), p.After(i + 1);
            if p.overwrite || Faces(before.db.templates, slot) == [] then
              && Faces(after.db.templates, slot) == [face]
              && after.journal == before.journal + {Key(rows[i].studentNumber, w.digest(w.files[rows[i].imagePath]))}
            else
              after == before
  {
    TemplatesAreLawful(version);
    LandsIffQualifies(w, rows, p, i, slot, face);
    SlotStep(p, i, slot);
    TemplatesMean(version, p.After(i).db, slot, face);
    TemplatesMean(version, p.After(i + 1).db, slot, face);
  }

  /** Every key a run adds to the journal is the student number and the photo digest of a row for an active student. */
  ghost predicate OnlyKeysOfRows(w: World, rows: seq<Row>, before: set<Key>, after: set<Key>) {
    forall key :: key in after && key !in before ==>
      exists i: nat ::
        && i < |rows| && rows[i].studentNumber in w.roster && w.roster[rows[i].studentNumber].active
        && rows[i].imagePath in w.files && key == Key(rows[i].studentNumber, w.digest(w.files[rows[i].imagePath]))
  }

  lemma NewKeysAreOfRows(w: World, rows: seq<Row>, p: Pass, n: nat)
    requires p.jobs == Jobs(w, rows) && n <= |rows|
    ensures OnlyKeysOfRows(w, rows[..n], p.start.journal, p.After(n).journal)
  {
    var first := rows[..n];
    forall key | key in p.After(n).journal && key !in p.start.journal
      ensures exists i: nat, slot, face :: i < n && IsKeyOf(w, first[i], key) && Qualifies(w, p.journaled, first[i], slot, face)
    {
      NewKeysQualify(w, rows, p, n, key);
      var i: nat, slot, face :| i < n && IsKeyOf(w, rows[i], key) && Qualifies(w, p.journaled, rows[i], slot, face);
      assert first[i] == rows[i];
    }
  }

  /** Every key a run adds to the journal is that of a row that qualifies. */
  lemma {:induction false} NewKeysQualify(w: World, rows: seq<Row>, p: Pass, n: nat, key: Key)
    requires p.jobs == Jobs(w, rows) && n <= |rows| && key in p.After(n).journal && key !in p.start.journal
    ensures exists i: nat, slot, face :: i < n && IsKeyOf(w, rows[i], key) && Qualifies(w, p.journaled, rows[i], slot, face)
  {
    if key in p.After(n - 1).journal {
      NewKeysQualify(w, rows, p, n - 1, key);
    } else {
      var job := p.jobs[n - 1];
      LandsIffQualifies(w, rows, p, n - 1, job.slot, job.face);
      assert IsKeyOf(w, rows[n - 1], key) && Qualifies(w, p.journaled, rows[n - 1], job.slot, job.face);
    }
  }

  datatype Event =
    | Reject(reason: Reason) | SkippedResumed | ExtractionFailed | WouldImport
    | DbFailed | SkippedActive | ImportedNew | ImportedRotated

  /** What happens to a screened row; `faultAt` is the statement of its database write that raises. */
  function EventOf(v: Verdict, dryRun: bool, overwrite: bool, faultAt: Option<nat>, occupied: bool): Event {
    match v
    case Rejected(reason) => Reject(reason)
    case Resumed => SkippedResumed
    case Broken => ExtractionFailed
    case Ready(_, _, _) =>
      if dryRun then WouldImport
      else if Faulty(faultAt, ImportStatements(occupied, overwrite)) then DbFailed
      else if !occupied then ImportedNew
      else if overwrite then ImportedRotated
      else SkippedActive
  }

  /** Which statement raises in the database write of a row, if any. */
  function FaultOf(dbFaults: map<nat, nat>, i: nat): Option<nat> {
    if i in dbFaults then Some(dbFaults[i]) else None
  }

  /** The rows whose write raises before its commit is through. */
  function RaisingRows(dbFaults: map<nat, nat>): set<nat> {
    set i | i in dbFaults && Faulty(FaultOf(dbFaults, i), ImportStatements(false, false))
  }

  function Count(events: seq<Event>, e: Event): nat {
    if events == [] then 0
    else Count(events[..|events| - 1], e) + if events[|events| - 1] == e then 1 else 0
  }

  lemma {:induction false} CountSnoc(events: seq<Event>, last: Event, e: Event)
    ensures Count(events + [last], e) == Count(events, e) + if last == e then 1 else 0
  {
    assert (events + [last])[..|events|] == events;
  }

  datatype JournalLine = Entry(key: Key) | Corrupt | Blank

  function KeysOf(lines: seq<JournalLine>): set<Key> {
    set line | line in lines && line.Entry? :: line.key
  }

  /** Corrupt and blank lines are skipped; every other line contributes its key. */
  method LoadJournal(lines: seq<JournalLine>) returns (keys: set<Key>)
    ensures keys == KeysOf(lines)
  {
    keys := {};
    for n := 0 to |lines|
      invariant keys == KeysOf(lines[..n])
    {
      assert lines[..n + 1] == lines[..n] + [lines[n]];
      if lines[n].Entry? {
        keys := keys + {lines[n].key};
      }
    }
    assert lines[..|lines|] == lines;
  }

  datatype Summary = Summary(
    total: nat, imported: nat, rotated: nat, wouldImport: nat, resumed: nat, activeExists: nat,
    dbErrors: nat, extractionErrors: nat, rejected: map<Reason, nat>)

  const NO_REJECTS: map<Reason, nat> :=
    map[Unreadable := 0, NoFaceFound := 0, LowQuality := 0, UnknownRef := 0, InactiveStudent := 0, InvalidRow := 0]

  lemma NoRejects()
    ensures forall r: Reason :: r in NO_REJECTS && NO_REJECTS[r] == 0
  {
    forall r: Reason ensures r in NO_REJECTS && NO_REJECTS[r] == 0 {
      match r
      case Unreadable =>
      case NoFaceFound =>
      case LowQuality =>
      case UnknownRef =>
      case InactiveStudent =>
      case InvalidRow =>
    }
  }

  /** The counters are the tallies of what happened to each row. */
  ghost predicate Tallies(s: Summary, events: seq<Event>) {
    && s.total == |events|
    && s.imported == Count(events, ImportedNew) + Count(events, ImportedRotated)
    && s.rotated == Count(events, ImportedRotated)
    && s.wouldImport == Count(events, WouldImport)
    && s.resumed == Count(events, SkippedResumed)
    && s.activeExists == Count(events, SkippedActive)
    && s.dbErrors == Count(events, DbFailed)
    && s.extractionErrors == Count(events, ExtractionFailed)
    && forall r: Reason :: r in s.rejected && s.rejected[r] == Count(events, Reject(r))
  }

  function RejectTotal(s: Summary): nat
    requires forall r: Reason :: r in s.rejected
  {
    s.rejected[Unreadable] + s.rejected[NoFaceFound] + s.rejected[LowQuality]
    + s.rejected[UnknownRef] + s.rejected[InactiveStudent] + s.rejected[InvalidRow]
  }

  function CountAll(events: seq<Event>): nat {
    Count(events, Reject(Unreadable)) + Count(events, Reject(NoFaceFound)) + Count(events, Reject(LowQuality))
    + Count(events, Reject(UnknownRef)) + Count(events, Reject(InactiveStudent)) + Count(events, Reject(InvalidRow))
    + Count(events, SkippedResumed) + Count(events, ExtractionFailed) + Count(events, WouldImport)
    + Count(events, DbFailed) + Count(events, SkippedActive) + Count(events, ImportedNew) + Count(events, ImportedRotated)
  }

  lemma {:induction false} EveryRowCountedOnce(events: seq<Event>)
    ensures CountAll(events) == |events|
  {
    if events != [] {
      EveryRowCountedOnce(events[..|events| - 1]);
      match events[|events| - 1]
      case Reject(r) => assert r.Unreadable? || r.NoFaceFound? || r.LowQuality? || r.UnknownRef? || r.InactiveStudent? || r.InvalidRow?;
      case _ =>
    }
  }

  /** The summary adds up: every row is in exactly one counter, and rotations are imports. */
  lemma SummaryAddsUp(s: Summary, events: seq<Event>)
    requires Tallies(s, events)
    ensures s.total == RejectTotal(s) + s.resumed + s.activeExists + s.imported + s.wouldImport + s.dbErrors + s.extractionErrors
    ensures s.rotated <= s.imported
  {
    EveryRowCountedOnce(events);
  }

  // ---------------------------------------------------------------- duplicate-image warnings

  datatype Binding = Unbound | Bound(digest: string, owner: string)

  /** A row binds its image to its student once it is past the resume check. */
  function Bind(w: World, journaled: set<Key>, row: Row): Binding {
    var v := Judge(w, journaled, row);
    if row.studentNumber !in w.roster || !w.roster[row.studentNumber].active || row.imagePath !in w.files || v.Resumed? then Unbound
    else Bound(w.digest(w.files[row.imagePath]), row.studentNumber)
  }

  /** The owner recorded for an image after some rows. */
  function Seen(w: World, journaled: set<Key>, rows: seq<Row>): map<string, string> {
    if rows == [] then map[]
    else
      var before := Seen(w, journaled, rows[..|rows| - 1]);
      var b := Bind(w, journaled, rows[|rows| - 1]);
      if b.Unbound? || b.digest in before then before else before[b.digest := b.owner]
  }

  /** The bookkeeping of one more row. */
  lemma SeenStep(w: World, journaled: set<Key>, rows: seq<Row>, i: nat)
    requires i < |rows|
    ensures var b, before := Bind(w, journaled, rows[i]), Seen(w, journaled, rows[..i]);
            && Seen(w, journaled, rows[..i + 1]) == (if b.Unbound? || b.digest in before then before else before[b.digest := b.owner])
            && Warnings(w, journaled, rows, i + 1) == Warnings(w, journaled, rows, i)
               + if b.Bound? && b.digest in before && before[b.digest] != b.owner then 1 else 0
  {
    assert rows[..i + 1][..i] == rows[..i];
  }

  predicate Warned(w: World, journaled: set<Key>, rows: seq<Row>, i: nat)
    requires i < |rows|
  {
    var b, seen := Bind(w, journaled, rows[i]), Seen(w, journaled, rows[..i]);
    b.Bound? && b.digest in seen && seen[b.digest] != b.owner
  }

  function Warnings(w: World, journaled: set<Key>, rows: seq<Row>, i: nat): nat
    requires i <= |rows|
  {
    if i == 0 then 0 else Warnings(w, journaled, rows, i - 1) + if Warned(w, journaled, rows, i - 1) then 1 else 0
  }

  predicate Binds(w: World, journaled: set<Key>, row: Row, digest: string) {
    var b := Bind(w, journaled, row);
    b.Bound? && b.digest == digest
  }

  /** Row `k` is the first to bind the image, and it binds it to `owner`. */
  ghost predicate FirstBinder(w: World, journaled: set<Key>, rows: seq<Row>, digest: string, k: nat, owner: string) {
    && k < |rows| && Bind(w, journaled, rows[k]) == Bound(digest, owner)
    && forall n :: 0 <= n < k ==> !Binds(w, journaled, rows[n], digest)
  }

  /** The recorded owner is the student of the first row that bound the image. */
  lemma {:induction false} SeenIsFirst(w: World, journaled: set<Key>, rows: seq<Row>, digest: string)
    ensures var seen := Seen(w, journaled, rows);
            if digest in seen then exists k: nat :: FirstBinder(w, journaled, rows, digest, k, seen[digest])
            else forall n :: 0 <= n < |rows| ==> !Binds(w, journaled, rows[n], digest)
  {
    if rows != [] {
      var init := rows[..|rows| - 1];
      var seen := Seen(w, journaled, init);
      SeenIsFirst(w, journaled, init, digest);
      assert forall n :: 0 <= n < |init| ==> init[n] == rows[n];
      if digest in seen {
        var k: nat :| FirstBinder(w, journaled, init, digest, k, seen[digest]);
        assert FirstBinder(w, journaled, rows, digest, k, seen[digest]);
      } else if Binds(w, journaled, rows[|rows| - 1], digest) {
        assert FirstBinder(w, journaled, rows, digest, |rows| - 1, Bind(w, journaled, rows[|rows| - 1]).owner);
      }
    }
  }

  // ---------------------------------------------------------------- the run

  /** What the row loop changes. The table and the journal file are durable; the rest is process memory. */
  /** Row `k` is the first past the resume check with a photo of this digest. */
  ghost predicate FirstWithPhoto(w: World, journaled: set<Key>, rows: seq<Row>, digest: string, k: nat) {
    && k < |rows| && PastResume(w, journaled, rows[k]) && w.digest(w.files[rows[k].imagePath]) == digest
    && forall n :: 0 <= n < k ==> !(PastResume(w, journaled, rows[n]) && w.digest(w.files[rows[n].imagePath]) == digest)
  }

  /** The student is active, the photo is there, and the two are not in the journal. */
  predicate PastResume(w: World, journaled: set<Key>, row: Row) {
    && row.studentNumber in w.roster && w.roster[row.studentNumber].active && row.imagePath in w.files
    && Key(row.studentNumber, w.digest(w.files[row.imagePath])) !in journaled
  }

  function Those(n: nat, p: nat -> bool): set<nat> {
    set i: nat | i < n && p(i)
  }

  lemma ThoseGrow(n: nat, p: nat -> bool)
    ensures |Those(n + 1, p)| == |Those(n, p)| + if p(n) then 1 else 0
  {
    if p(n) {
      assert Those(n + 1, p) == Those(n, p) + {n};
    } else {
      assert Those(n + 1, p) == Those(n, p);
    }
  }

  /** One warning for each row that is warned about. */
  lemma {:induction false} WarningsCount(w: World, journaled: set<Key>, rows: seq<Row>, n: nat)
    requires n <= |rows|
    ensures Warnings(w, journaled, rows, n) == |Those(n, (i: nat) => i < |rows| && Warned(w, journaled, rows, i))|
  {
    var p := (i: nat) => i < |rows| && Warned(w, journaled, rows, i);
    if n > 0 {
      WarningsCount(w, journaled, rows, n - 1);
      ThoseGrow(n - 1, p);
    }
  }

  lemma BindsIffPastResume(w: World, journaled: set<Key>, row: Row)
    ensures Bind(w, journaled, row) ==
            if PastResume(w, journaled, row) then Bound(w.digest(w.files[row.imagePath]), row.studentNumber) else Unbound
  {
  }

  /** A row is warned about exactly if it gets past the resume check with a photo that the first row to do so had for
      another student. */
  lemma WarnedIff(w: World, journaled: set<Key>, rows: seq<Row>, i: nat, k: nat)
    requires i < |rows|
    ensures Warned(w, journaled, rows, i) ==> PastResume(w, journaled, rows[i])
    ensures PastResume(w, journaled, rows[i]) && k < i && FirstWithPhoto(w, journaled, rows, w.digest(w.files[rows[i].imagePath]), k) ==>
              (Warned(w, journaled, rows, i) <==> rows[k].studentNumber != rows[i].studentNumber)
    ensures Warned(w, journaled, rows, i) ==>
              exists k: nat :: k < i && FirstWithPhoto(w, journaled, rows, w.digest(w.files[rows[i].imagePath]), k)
  {
    BindsIffPastResume(w, journaled, rows[i]);
    if PastResume(w, journaled, rows[i]) {
      var digest, init := w.digest(w.files[rows[i].imagePath]), rows[..i];
      SeenIsFirst(w, journaled, init, digest);
      forall n | 0 <= n < i
        ensures Binds(w, journaled, rows[n], digest) <==>
                PastResume(w, journaled, rows[n]) && w.digest(w.files[rows[n].imagePath]) == digest
      {
        BindsIffPastResume(w, journaled, rows[n]);
      }
      var seen := Seen(w, journaled, init);
      if digest in seen {
        var f: nat :| FirstBinder(w, journaled, init, digest, f, seen[digest]);
        assert init[f] == rows[f];
        BindsIffPastResume(w, journaled, rows[f]);
        assert forall n :: 0 <= n < f ==> init[n] == rows[n];
        assert FirstWithPhoto(w, journaled, rows, digest, f);
        if k < i && FirstWithPhoto(w, journaled, rows, digest, k) {
          assert f == k;
        }
      } else {
        assert forall n :: 0 <= n < i ==> init[n] == rows[n];
      }
    }
  }

  class ImportRun {
    const world: World
    const overwrite: bool
    const version: nat
    const dryRun: bool
    const store: Store
    var lines: seq<JournalLine>
    var summary: Summary
    var warnings: nat
    var seen: map<string, string>
    ghost var events: seq<Event>
    ghost var history: seq<Durable>

    constructor (world: World, overwrite: bool, version: nat, dryRun: bool, store: Store, lines: seq<JournalLine>)
      ensures this.world == world && this.overwrite == overwrite && this.version == version && this.dryRun == dryRun
      ensures this.store == store && this.lines == lines
      ensures Tallies(summary, events) && events == [] && warnings == 0 && seen == map[] && history == []
    {
      this.world, this.overwrite, this.version, this.dryRun := world, overwrite, version, dryRun;
      this.store, this.lines := store, lines;
      NoRejects();
      summary := Summary(0, 0, 0, 0, 0, 0, 0, 0, NO_REJECTS);
      warnings, seen, events, history := 0, map[], [], [];
    }

    function Now(): Durable
      reads this, store
    {
      Durable(store.Value(), KeysOf(lines))
    }

    ghost predicate Valid()
      reads this
    {
      Tallies(summary, events)
    }

    /** Count one row; a rotation also counts as an import. */
    method Note(e: Event)
      requires Valid()
      modifies this`summary, this`events
      ensures Valid() && events == old(events) + [e]
    {
      forall x ensures Count(events + [e], x) == Count(events, x) + if e == x then 1 else 0 {
        CountSnoc(events, e, x);
      }
      events := events + [e];
      summary := summary.(total := summary.total + 1);
      match e
      case Reject(r) => summary := summary.(rejected := summary.rejected[r := summary.rejected[r] + 1]);
      case SkippedResumed => summary := summary.(resumed := summary.resumed + 1);
      case ExtractionFailed => summary := summary.(extractionErrors := summary.extractionErrors + 1);
      case WouldImport => summary := summary.(wouldImport := summary.wouldImport + 1);
      case DbFailed => summary := summary.(dbErrors := summary.dbErrors + 1);
      case SkippedActive => summary := summary.(activeExists := summary.activeExists + 1);
      case ImportedNew => summary := summary.(imported := summary.imported + 1);
      case ImportedRotated =>
        summary := summary.(rotated := summary.rotated + 1, imported := summary.imported + 1);
    }

    /** Step 4: warn about an image already bound to somebody else; never refuse it. */
    method CheckDuplicate(digest: string, studentNumber: string)
      modifies this`warnings, this`seen
      ensures warnings == old(warnings) + if digest in old(seen) && old(seen)[digest] != studentNumber then 1 else 0
      ensures seen == if digest in old(seen) then old(seen) else old(seen)[digest := studentNumber]
    {
      if digest in seen && seen[digest] != studentNumber {
        warnings := warnings + 1;
      }
      if digest !in seen {
        seen := seen[digest := studentNumber];
      }
    }

    /** Steps 9 and 10: upsert, then journal only after the commit succeeded. */
    method Persist(key: Key, slot: Slot, face: Face, faultAt: Option<nat>)
      requires Valid()
      modifies this`summary, this`events, this`lines, this`history, store
      ensures Valid()
      ensures var writes := !Faulty(faultAt, ImportStatements(false, false)) &&
                            (overwrite || Faces(old(store.Value()).templates, slot) == []);
              var committed := Durable(Rotate(old(store.Value()), slot, face, version), old(KeysOf(lines)));
              var journaled := Durable(committed.db, committed.journal + {key});
              && Now() == (if writes then journaled else old(Now()))
              && history == old(history) + if writes then [committed, journaled] else []
      ensures events == old(events) +
                        [EventOf(Ready(key, slot, face), false, overwrite, faultAt, Faces(old(store.Value()).templates, slot) != [])]
    {
      var outcome := store.Upsert(slot, face, version, overwrite, faultAt);
      if outcome == DbError {
        Note(DbFailed);
        return;
      }
      if outcome == SkippedActiveExists {
        Note(SkippedActive);
        return;
      }
      history := history + [Now()];
      Note(if outcome == Rotated then ImportedRotated else ImportedNew);
      AppendJournal(key);
    }

    method AppendJournal(key: Key)
      modifies this`lines, this`history
      ensures KeysOf(lines) == old(KeysOf(lines)) + {key}
      ensures history == old(history) + [Now()]
    {
      AppendKeys(lines, key);
      lines := lines + [Entry(key)];
      history := history + [Now()];
    }

    /** Steps 1 to 7. `tritonDown` is an extraction that keeps failing after its retries: it aborts the
        whole invocation. */
    method Screen(row: Row, journaled: set<Key>, tritonDown: bool) returns (v: Verdict, aborted: bool)
      modifies this`warnings, this`seen
      ensures aborted <==> tritonDown && Extracts(world, journaled, row)
      ensures !aborted ==> v == Judge(world, journaled, row)
      ensures var b := Bind(world, journaled, row);
              && seen == (if b.Unbound? || b.digest in old(seen) then old(seen) else old(seen)[b.digest := b.owner])
              && warnings == old(warnings) + if b.Bound? && b.digest in old(seen) && old(seen)[b.digest] != b.owner then 1 else 0
    {
      if row.studentNumber !in world.roster {
        return Rejected(UnknownRef), false;
      }
      var entry := world.roster[row.studentNumber];
      if !entry.active {
        return Rejected(InactiveStudent), false;
      }
      if row.imagePath !in world.files {
        return Rejected(Unreadable), false;
      }
      var data := world.files[row.imagePath];
      var digest := world.digest(data);
      var key := Key(row.studentNumber, digest);
      if key in journaled {
        return Resumed, false;
      }
      CheckDuplicate(digest, row.studentNumber);
      if !world.decodes(data) {
        return Rejected(Unreadable), false;
      }
      if tritonDown {
        return Broken, true;
      }
      match world.extract(data)
      case NoFace => return Rejected(NoFaceFound), false;
      case Unexpected => return Broken, false;
      case Extracted(face) =>
        if face.quality < world.minQuality {
          return Rejected(LowQuality), false;
        }
        return Ready(key, Slot(entry.id, row.pose), face), false;
    }

    ghost function PassOf(rows: seq<Row>, dbFaults: map<nat, nat>): Pass
      reads this, store
    {
      Pass(Templates(version), Jobs(world, rows), overwrite, Now(), KeysOf(lines),
           if dryRun then Below(|rows|) else RaisingRows(dbFaults))
    }

    /** The row loop after `n` rows: the durable states visited so far are those of the abstract pass. */
    ghost predicate Follows(p: Pass, n: nat)
      reads this, store
      requires n <= |p.jobs|
    {
      [p.start] + history == p.Visited(n) && Now() == p.After(n)
    }

    /** The durable states a screened row goes through. */
    lemma VerdictSteps(p: Pass, i: nat, row: Row, v: Verdict, faulted: bool, h: seq<Durable>)
      requires i < |p.jobs| && p.jobs[i] == JobOf(world, row) && v == Judge(world, p.journaled, row)
      requires p.overwrite == overwrite && p.table == Templates(version) && (i in p.faults <==> faulted)
      requires [p.start] + h == p.Visited(i)
      ensures var d := p.After(i);
              if v.Ready? && !faulted && (overwrite || Faces(d.db.templates, v.slot) == []) then
                var committed := Durable(Rotate(d.db, v.slot, v.face, version), d.journal);
                var journaled := Durable(committed.db, committed.journal + {v.key});
                [p.start] + (h + [committed, journaled]) == p.Visited(i + 1) && p.After(i + 1) == journaled
              else [p.start] + h == p.Visited(i + 1) && p.After(i + 1) == d
    {
      JournalOnlySkips(world, p.journaled, row);
      Advance(p, i);
      var e := p.Effects(i, p.After(i));
      assert [p.start] + (h + e) == [p.start] + h + e;
      if v.Ready? {
        TemplatesMean(version, p.After(i).db, v.slot, v.face);
      }
    }

    /** Steps 8 to 10 for a screened row: the durable effects are those of the abstract pass. */
    method Conclude(ghost p: Pass, ghost i: nat, ghost row: Row, v: Verdict, faultAt: Option<nat>)
      requires Valid() && i < |p.jobs| && Follows(p, i) && v == Judge(world, p.journaled, row)
      requires p.jobs[i] == JobOf(world, row) && p.overwrite == overwrite && p.table == Templates(version)
      requires i in p.faults <==> Faulty(faultAt, ImportStatements(false, false)) || dryRun
      modifies this`summary, this`events, this`lines, this`history, store
      ensures Valid() && Follows(p, i + 1)
      ensures events == old(events) +
                        [EventOf(v, dryRun, overwrite, faultAt, v.Ready? && Faces(old(store.Value()).templates, v.slot) != [])]
    {
      VerdictSteps(p, i, row, v, Faulty(faultAt, ImportStatements(false, false)) || dryRun, history);
      match v
      case Rejected(reason) => Note(Reject(reason));
      case Resumed => Note(SkippedResumed);
      case Broken => Note(ExtractionFailed);
      case Ready(key, slot, face) =>
        if dryRun {
          Note(WouldImport);
        } else {
          Persist(key, slot, face, faultAt);
        }
    }

    /** Manifest authoring issues and unbindable files are counted before any row. */
    method CountAuthoring(issues: nat, unbindable: nat)
      requires Valid() && events == []
      modifies this`summary, this`events
      ensures Valid() && events == Times(Reject(InvalidRow), issues) + Times(Reject(UnknownRef), unbindable)
    {
      NoteAll(Reject(InvalidRow), issues);
      NoteAll(Reject(UnknownRef), unbindable);
    }

    method NoteAll(e: Event, n: nat)
      requires Valid()
      modifies this`summary, this`events
      ensures Valid() && events == old(events) + Times(e, n)
    {
      ghost var before := events;
      for k := 0 to n
        invariant Valid() && events == before + Times(e, k)
      {
        TimesGrow(before, e, k);
        Note(e);
      }
    }

    /** What happens to each of the first `n` rows. */
    ghost function Story(p: Pass, rows: seq<Row>, dbFaults: map<nat, nat>, n: nat): seq<Event>
      requires n <= |rows| && |p.jobs| == |rows|
    {
      if n == 0 then []
      else
        var v := Judge(world, p.journaled, rows[n - 1]);
        var occupied := v.Ready? && Faces(p.After(n - 1).db.templates, v.slot) != [];
        Story(p, rows, dbFaults, n - 1) + [EventOf(v, dryRun, p.overwrite, FaultOf(dbFaults, n - 1), occupied)]
    }

    /** The in-memory duplicate bookkeeping after `n` rows. */
    ghost predicate Tracks(journaled: set<Key>, rows: seq<Row>, n: nat)
      reads this
      requires n <= |rows|
    {
      seen == Seen(world, journaled, rows[..n]) && warnings == Warnings(world, journaled, rows, n)
    }

    /** Everything known after `n` rows of a run that had recorded `before` when the loop started. */
    ghost predicate Progress(p: Pass, rows: seq<Row>, dbFaults: map<nat, nat>, before: seq<Event>, n: nat)
      reads this, store
    {
      && n <= |rows| == |p.jobs| && Valid() && Follows(p, n) && Tracks(p.journaled, rows, n)
      && events == before + Story(p, rows, dbFaults, n)
    }

    /** The pass describes this invocation. */
    ghost predicate Describes(p: Pass, rows: seq<Row>, dbFaults: map<nat, nat>) {
      && p.table == Templates(version) && p.jobs == Jobs(world, rows) && p.overwrite == overwrite
      && p.faults == if dryRun then Below(|rows|) else RaisingRows(dbFaults)
    }

    lemma RowFacts(p: Pass, rows: seq<Row>, dbFaults: map<nat, nat>, i: nat)
      requires Describes(p, rows, dbFaults) && i < |rows|
      ensures |p.jobs| == |rows| && p.jobs[i] == JobOf(world, rows[i])
      ensures i in p.faults <==> Faulty(FaultOf(dbFaults, i), ImportStatements(false, false)) || dryRun
    {
    }

    lemma StoryStep(p: Pass, rows: seq<Row>, dbFaults: map<nat, nat>, n: nat, before: seq<Event>)
      requires n < |rows| && |p.jobs| == |rows|
      ensures var v := Judge(world, p.journaled, rows[n]);
              var occupied := v.Ready? && Faces(p.After(n).db.templates, v.slot) != [];
              before + Story(p, rows, dbFaults, n) + [EventOf(v, dryRun, p.overwrite, FaultOf(dbFaults, n), occupied)]
              == before + Story(p, rows, dbFaults, n + 1)
    {
    }

    /** One iteration of the row loop. */
    method ProcessRow(ghost p: Pass, rows: seq<Row>, i: nat, journaled: set<Key>, dbFaults: map<nat, nat>, tritonDown: set<nat>,
                      ghost before: seq<Event>)
      returns (aborted: bool)
      requires Describes(p, rows, dbFaults) && p.journaled == journaled
      requires i < |rows| && Progress(p, rows, dbFaults, before, i)
      modifies this`warnings, this`seen, this`summary, this`events, this`lines, this`history, store
      ensures aborted <==> Stops(world, journaled, rows, tritonDown, i)
      ensures if aborted then Follows(p, i) else Progress(p, rows, dbFaults, before, i + 1)
    {
      RowFacts(p, rows, dbFaults, i);
      SeenStep(world, journaled, rows, i);
      StoryStep(p, rows, dbFaults, i, before);
      var v;
      v, aborted := Screen(rows[i], journaled, i in tritonDown);
      if !aborted {
        Conclude(p, i, rows[i], v, FaultOf(dbFaults, i));
      }
    }

    /** The row loop. A run that loses its inference server stops at some row `n`. */
    method ProcessRows(ghost p: Pass, rows: seq<Row>, journaled: set<Key>, dbFaults: map<nat, nat>, tritonDown: set<nat>)
      returns (completed: bool, n: nat)
      requires Describes(p, rows, dbFaults) && p.journaled == journaled && Progress(p, rows, dbFaults, events, 0)
      modifies this`warnings, this`seen, this`summary, this`events, this`lines, this`history, store
      ensures n <= |rows| == |p.jobs| && NeverStops(world, journaled, rows, tritonDown, n)
      ensures if completed then n == |rows| && Progress(p, rows, dbFaults, old(events), n)
              else n < |rows| && Stops(world, journaled, rows, tritonDown, n) && Follows(p, n)
    {
      n := 0;
      ghost var before := events;
      while n < |rows|
        invariant Progress(p, rows, dbFaults, before, n)
        invariant NeverStops(world, journaled, rows, tritonDown, n)
      {
        var aborted := ProcessRow(p, rows, n, journaled, dbFaults, tritonDown, before);
        if aborted {
          return false, n;
        }
        NotYetStopped(world, journaled, rows, tritonDown, n);
        n := n + 1;
      }
      return true, n;
    }

    /** A real run without database errors is the abstract batch. */
    lemma PassIsBatch(rows: seq<Row>, dbFaults: map<nat, nat>)
      requires !dryRun && RaisingRows(dbFaults) == {}
      ensures PassOf(rows, dbFaults) == Batch(world, rows, overwrite, version, Now())
    {
    }

    /** One invocation: count authoring errors, load the journal once, process the rows in order. */
    method Execute(issues: nat, unbindable: nat, rows: seq<Row>, dbFaults: map<nat, nat>, tritonDown: set<nat>)
      returns (completed: bool, n: nat)
      requires Valid() && events == [] && history == [] && seen == map[] && warnings == 0
      modifies this, store
      ensures n <= |rows| && Follows(old(PassOf(rows, dbFaults)), n)
      ensures forall d :: d in [old(Now())] + history ==> d in old(PassOf(rows, dbFaults)).Visited(|rows|)
      ensures NeverStops(world, old(KeysOf(lines)), rows, tritonDown, n)
      ensures if completed then n == |rows| else n < |rows| && Stops(world, old(KeysOf(lines)), rows, tritonDown, n)
      ensures completed ==> Valid() && events == Times(Reject(InvalidRow), issues) + Times(Reject(UnknownRef), unbindable)
                                                 + Story(old(PassOf(rows, dbFaults)), rows, dbFaults, |rows|)
      ensures completed ==> warnings == Warnings(world, old(KeysOf(lines)), rows, |rows|)
      ensures dryRun ==> Now() == old(Now())
      ensures OnlyQualifyingRows(world, rows[..n], old(store.Value()), store.Value())
      ensures OnlyKeysOfRows(world, rows[..n], old(KeysOf(lines)), KeysOf(lines))
      ensures completed && !dryRun && dbFaults == map[] ==> EveryQualifyingRow(world, rows, old(KeysOf(lines)), store.Value())
      ensures !completed ==>
                && n in tritonDown && rows[n].studentNumber in world.roster && world.roster[rows[n].studentNumber].active
                && rows[n].imagePath in world.files && world.decodes(world.files[rows[n].imagePath])
                && Key(rows[n].studentNumber, world.digest(world.files[rows[n].imagePath])) !in old(KeysOf(lines))
    {
      ghost var p := PassOf(rows, dbFaults);
      CountAuthoring(issues, unbindable);
      var journaled := LoadJournal(lines);
      completed, n := ProcessRows(p, rows, journaled, dbFaults, tritonDown);
      WhatARunDid(p, rows, dbFaults, n);
    }

    /** What the abstract pass of an invocation says about the rows. */
    lemma WhatARunDid(p: Pass, rows: seq<Row>, dbFaults: map<nat, nat>, n: nat)
      requires Describes(p, rows, dbFaults) && n <= |rows|
      ensures |p.jobs| == |rows| && forall d :: d in p.Visited(n) ==> d in p.Visited(|rows|)
      ensures dryRun ==> p.After(n) == p.start
      ensures OnlyQualifyingRows(world, rows[..n], p.start.db, p.After(n).db)
      ensures OnlyKeysOfRows(world, rows[..n], p.start.journal, p.After(n).journal)
      ensures !dryRun && dbFaults == map[] ==> EveryQualifyingRow(world, rows, p.journaled, p.After(|rows|).db)
    {
      forall d | d in p.Visited(n) ensures d in p.Visited(|rows|) {
        VisitedGrows(p, n, |rows|, d);
      }
      NewFacesQualify(world, rows, p, version, n);
      NewKeysAreOfRows(world, rows, p, n);
      if dryRun {
        DryRunWritesNothing(p, n);
      } else if dbFaults == map[] {
        assert RaisingRows(dbFaults) == {};
        AllQualifyingStored(world, rows, p, version);
      }
    }

    lemma {:induction false} StoryAt(p: Pass, rows: seq<Row>, dbFaults: map<nat, nat>, n: nat, i: nat)
      requires i < n <= |rows| && |p.jobs| == |rows|
      ensures |Story(p, rows, dbFaults, n)| == n
      ensures var v := Judge(world, p.journaled, rows[i]);
              var occupied := v.Ready? && Faces(p.After(i).db.templates, v.slot) != [];
              Story(p, rows, dbFaults, n)[i] == EventOf(v, dryRun, p.overwrite, FaultOf(dbFaults, i), occupied)
    {
      if i < n - 1 {
        StoryAt(p, rows, dbFaults, n - 1, i);
      } else if i > 0 {
        StoryAt(p, rows, dbFaults, i, i - 1);
      }
    }

    /** What is told of a row that is not imported: the first check it fails, in the order of the loop. */
    lemma FailedChecksAreToldApart(p: Pass, rows: seq<Row>, dbFaults: map<nat, nat>, i: nat)
      requires i < |rows| == |p.jobs|
      ensures |Story(p, rows, dbFaults, |rows|)| == |rows|
      ensures var row, e := rows[i], Story(p, rows, dbFaults, |rows|)[i];
              && (row.studentNumber !in world.roster ==> e == Reject(UnknownRef))
              && (row.studentNumber in world.roster && !world.roster[row.studentNumber].active ==> e == Reject(InactiveStudent))
              && (row.studentNumber in world.roster && world.roster[row.studentNumber].active ==>
                    && (row.imagePath !in world.files ==> e == Reject(Unreadable))
                    && (row.imagePath in world.files ==>
                          var data := world.files[row.imagePath];
                          var resumed := Key(row.studentNumber, world.digest(data)) in p.journaled;
                          && (resumed ==> e == SkippedResumed)
                          && (!resumed && !world.decodes(data) ==> e == Reject(Unreadable))
                          && (!resumed && world.decodes(data) ==>
                                var x := world.extract(data);
                                && (x.NoFace? ==> e == Reject(NoFaceFound))
                                && (x.Unexpected? ==> e == ExtractionFailed)
                                && (x.Extracted? && x.face.quality < world.minQuality ==> e == Reject(LowQuality)))))
    {
      StoryAt(p, rows, dbFaults, |rows|, i);
    }

    /** What is told of a row past all checks: that it would be imported, that its write raised, or that it filled its
        slot, rotated it or found it taken. A row told as imported has left its face and its key. */
    lemma ImportsAreToldApart(p: Pass, rows: seq<Row>, dbFaults: map<nat, nat>, i: nat, slot: Slot, face: Face)
      requires Describes(p, rows, dbFaults) && i < |rows| && Qualifies(world, p.journaled, rows[i], slot, face)
      ensures |Story(p, rows, dbFaults, |rows|)| == |rows|
      ensures var row, e := rows[i], Story(p, rows, dbFaults, |rows|)[i];
              var taken := Faces(p.After(i).db.templates, slot) != [];
              var raises := i in dbFaults && dbFaults[i] < if taken && !p.overwrite then 1 else 3;
              if dryRun then e == WouldImport
              else if raises then e == DbFailed
              else if taken && !p.overwrite then e == SkippedActive
              else
                && e == (if taken then ImportedRotated else ImportedNew)
                && Faces(p.After(i + 1).db.templates, slot) == [face]
                && Key(row.studentNumber, world.digest(world.files[row.imagePath])) in p.After(i + 1).journal
    {
      StoryAt(p, rows, dbFaults, |rows|, i);
      RowFacts(p, rows, dbFaults, i);
      assert Judge(world, p.journaled, rows[i]).Ready?;
      if !dryRun && i !in p.faults {
        WrittenRows(world, rows, p, version, i, slot, face);
      }
    }
  }

  function Times(e: Event, n: nat): (r: seq<Event>)
    ensures |r| == n
  {
    if n == 0 then [] else Times(e, n - 1) + [e]
  }

  lemma TimesGrow(before: seq<Event>, e: Event, n: nat)
    ensures before + Times(e, n) + [e] == before + Times(e, n + 1)
  {
  }

  lemma AppendKeys(lines: seq<JournalLine>, key: Key)
    ensures KeysOf(lines + [Entry(key)]) == KeysOf(lines) + {key}
  {
    assert (lines + [Entry(key)])[|lines|] == Entry(key);
  }

  /** One fault-free invocation over a batch, from what an earlier one left behind. */
  function Batch(w: World, rows: seq<Row>, overwrite: bool, version: nat, start: Durable): Pass {
    Pass(Templates(version), Jobs(w, rows), overwrite, start, start.journal, {})
  }

  /** The resume guarantee: if each (student number, image) pair occurs in one importable row, then any chain
      of crashed invocations followed by one that completes leaves every pose of every student with the
      active templates of a single uninterrupted run, with and without overwriting. */
  lemma InterruptedImportsConverge(w: World, rows: seq<Row>, overwrite: bool, version: nat, chain: seq<Durable>)
    requires chain != [] && DistinctKeys(Jobs(w, rows))
    requires CrashChain(Batch(w, rows, overwrite, version, chain[0]), chain)
    ensures var resumed := Batch(w, rows, overwrite, version, chain[|chain| - 1]).Outcome().db;
            var direct := Batch(w, rows, overwrite, version, chain[0]).Outcome().db;
            forall slot :: Faces(resumed.templates, slot) == Faces(direct.templates, slot)
  {
    TemplatesAreLawful(version);
    var u := Batch(w, rows, overwrite, version, chain[0]);
    CrashesDoNotMatter(u, chain);
    var r := u.From(chain[|chain| - 1]);
    assert r == Batch(w, rows, overwrite, version, chain[|chain| - 1]);
    forall slot ensures Faces(r.Outcome().db.templates, slot) == Faces(u.Outcome().db.templates, slot) {
      assert u.table.faces(r.Outcome().db, slot) == u.table.faces(u.Outcome().db, slot);
    }
  }

  /** A crash of one more invocation, wherever it strikes, is one more link of the chain. */
  lemma CrashExtendsChain(w: World, rows: seq<Row>, overwrite: bool, version: nat, chain: seq<Durable>, n: nat, d: Durable)
    requires chain != [] && CrashChain(Batch(w, rows, overwrite, version, chain[0]), chain)
    requires n <= |rows| && d in Batch(w, rows, overwrite, version, chain[|chain| - 1]).Visited(n)
    ensures CrashChain(Batch(w, rows, overwrite, version, chain[0]), chain + [d])
  {
    var u, longer := Batch(w, rows, overwrite, version, chain[0]), chain + [d];
    VisitedGrows(Batch(w, rows, overwrite, version, chain[|chain| - 1]), n, |rows|, d);
    assert u.From(chain[|chain| - 1]) == Batch(w, rows, overwrite, version, chain[|chain| - 1]);
    forall m: nat | 0 < m < |longer| ensures CrashLink(u, longer, m) {
      assert m < |chain| ==> CrashLink(u, chain, m);
    }
  }

  /** So it can be resumed: whatever an invocation had made durable when it crashed, a run that completes from there ends
      with the templates of a single uninterrupted run from where the campaign began. */
  lemma CrashedRunResumes(w: World, rows: seq<Row>, overwrite: bool, version: nat, chain: seq<Durable>, n: nat, d: Durable)
    requires chain != [] && CrashChain(Batch(w, rows, overwrite, version, chain[0]), chain) && DistinctKeys(Jobs(w, rows))
    requires n <= |rows| && d in Batch(w, rows, overwrite, version, chain[|chain| - 1]).Visited(n)
    ensures forall slot :: Faces(Batch(w, rows, overwrite, version, d).Outcome().db.templates, slot) ==
                           Faces(Batch(w, rows, overwrite, version, chain[0]).Outcome().db.templates, slot)
  {
    CrashExtendsChain(w, rows, overwrite, version, chain, n, d);
    InterruptedImportsConverge(w, rows, overwrite, version, chain + [d]);
  }

  /** A dry run takes no durable step. */
  lemma {:induction false} DryRunWritesNothing(p: Pass, j: nat)
    requires p.faults == Below(|p.jobs|) && j <= |p.jobs|
    ensures p.Visited(j) == [p.start] && p.After(j) == p.start
  {
    if j > 0 {
      DryRunWritesNothing(p, j - 1);
    }
  }
}
