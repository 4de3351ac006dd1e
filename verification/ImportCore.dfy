/** The durable behaviour of one importer invocation, and of campaigns of crashed and faulty
    invocations, once each row is reduced to the job it asks for. */
module ImportCore {
  import opened TemplateStore

  datatype Key = Key(studentNumber: string, digest: string)

  /** `Idle` rows are rejected or fail extraction in every invocation. */
  datatype Job = Idle | Work(key: Key, slot: Slot, face: Face)

  /** What survives a crash. */
  datatype Durable = Durable(db: Db, journal: set<Key>)

  /** All that campaigns need to know about the template table: what is active in a slot, how a rotation
      changes it, and whether a face was ever stored. */
  datatype Table = Table(faces: (Db, Slot) -> seq<Face>, put: (Db, Slot, Face) -> Db, holds: (Db, Slot, Face) -> bool)

  ghost predicate PutOk(t: Table, db: Db, slot: Slot, face: Face) {
    && (forall other :: t.faces(t.put(db, slot, face), other) == if other == slot then [face] else t.faces(db, other))
    && (forall s, f :: t.holds(db, s, f) || (s == slot && f == face) ==> t.holds(t.put(db, slot, face), s, f))
  }

  ghost predicate Lawful(t: Table) {
    forall db, slot, face :: PutOk(t, db, slot, face)
  }

  /** One invocation. `journaled` is the journal snapshot taken at startup; it is not refreshed by the
      rows that follow. `faults` are the rows whose database write raises. */
  datatype Pass = Pass(table: Table, jobs: seq<Job>, overwrite: bool, start: Durable, journaled: set<Key>, faults: set<nat>)
  {
    predicate Writes(i: nat, d: Durable)
      requires i < |jobs|
    {
      && jobs[i].Work? && jobs[i].key !in journaled && i !in faults
      && (overwrite || table.faces(d.db, jobs[i].slot) == [])
    }

    /** The state between the commit of row `i` and its journal line. */
    function Commit(i: nat, d: Durable): Durable
      requires i < |jobs| && jobs[i].Work?
    {
      Durable(table.put(d.db, jobs[i].slot, jobs[i].face), d.journal)
    }

    function Journal(i: nat, d: Durable): Durable
      requires i < |jobs| && jobs[i].Work?
    {
      Durable(Commit(i, d).db, d.journal + {jobs[i].key})
    }

    /** The durable states row `i` moves through, given the one it starts from: commit first, journal second. */
    function Effects(i: nat, d: Durable): seq<Durable>
      requires i < |jobs|
    {
      if Writes(i, d) then [Commit(i, d), Journal(i, d)] else []
    }

    /** The durable state row `i` ends in. */
    function Next(i: nat, d: Durable): Durable
      requires i < |jobs|
    {
      if Writes(i, d) then Journal(i, d) else d
    }

    /** The durable state after `i` rows. */
    function After(i: nat): Durable
      requires i <= |jobs|
    {
      if i == 0 then start else Next(i - 1, After(i - 1))
    }

    /** Every durable state passed through during the first `i` rows: what a crash can leave behind. */
    function Visited(i: nat): seq<Durable>
      requires i <= |jobs|
    {
      if i == 0 then [start] else Visited(i - 1) + Effects(i - 1, After(i - 1))
    }

    function Outcome(): Durable {
      After(|jobs|)
    }

    /** The fault-free invocation of the same batch that starts from `d` and loads its journal. */
    function From(d: Durable): Pass {
      this.(start := d, journaled := d.journal, faults := {})
    }
  }

  ghost predicate KeysDiffer(jobs: seq<Job>, i: nat, j: nat)
    requires i < |jobs| && j < |jobs|
  {
    jobs[i].Work? && jobs[j].Work? ==> jobs[i].key != jobs[j].key
  }

  /** No two importable rows carry the same (student number, image) pair. */
  ghost predicate DistinctKeys(jobs: seq<Job>) {
    forall i: nat, j: nat :: i < |jobs| && j < |jobs| && i != j ==> KeysDiffer(jobs, i, j)
  }

  ghost predicate SameFaces(t: Table, a: Db, b: Db) {
    forall slot :: t.faces(a, slot) == t.faces(b, slot)
  }

  /** Fault-free, and started on a journal it has loaded. */
  ghost predicate Clean(u: Pass) {
    Lawful(u.table) && u.faults == {} && u.journaled == u.start.journal
  }

  lemma Advance(p: Pass, i: nat)
    requires i < |p.jobs|
    ensures p.Visited(i + 1) == p.Visited(i) + p.Effects(i, p.After(i))
    ensures p.After(i + 1) == p.Next(i, p.After(i))
  {
  }

  // ---------------------------------------------------------------- journal soundness

  /** Job `n` among the first `i` is the one this journal key stands for, and its face has been stored. */
  ghost predicate CommittedBy(p: Pass, i: nat, d: Durable, key: Key, n: nat)
    requires i <= |p.jobs|
  {
    n < i && p.jobs[n].Work? && p.jobs[n].key == key && p.table.holds(d.db, p.jobs[n].slot, p.jobs[n].face)
  }

  ghost predicate JournalSound(p: Pass, i: nat, d: Durable)
    requires i <= |p.jobs|
  {
    forall key :: key in d.journal && key !in p.start.journal ==> exists n: nat :: CommittedBy(p, i, d, key, n)
  }

  lemma JournalSoundStep(p: Pass, i: nat, d: Durable, after: Durable)
    requires Lawful(p.table) && i < |p.jobs| && JournalSound(p, i, d)
    requires after == d || (p.Writes(i, d) && (after == p.Commit(i, d) || after == p.Journal(i, d)))
    ensures JournalSound(p, i + 1, after)
  {
    var next := i + 1;
    forall key | key in after.journal && key !in p.start.journal ensures exists n: nat :: CommittedBy(p, next, after, key, n) {
      if p.Writes(i, d) {
        assert PutOk(p.table, d.db, p.jobs[i].slot, p.jobs[i].face);
      }
      if key in d.journal {
        var n: nat :| CommittedBy(p, i, d, key, n);
        assert CommittedBy(p, next, after, key, n);
      } else {
        assert CommittedBy(p, next, after, key, i);
      }
    }
  }

  /** At every point where an invocation can crash, a journal line it wrote belongs to a row whose
      template is already in the table. */
  lemma {:induction false} JournalFollowsCommit(p: Pass, i: nat)
    requires Lawful(p.table) && i <= |p.jobs|
    ensures JournalSound(p, i, p.After(i))
    ensures forall d :: d in p.Visited(i) ==> JournalSound(p, i, d)
  {
    if i > 0 {
      JournalFollowsCommit(p, i - 1);
      var before := p.After(i - 1);
      JournalSoundStep(p, i - 1, before, p.Next(i - 1, before));
      forall d | d in p.Visited(i) ensures JournalSound(p, i, d) {
        if d in p.Visited(i - 1) {
          JournalSoundStep(p, i - 1, d, d);
        } else {
          JournalSoundStep(p, i - 1, before, d);
        }
      }
    }
  }

  // ---------------------------------------------------------------- crashes and reruns

  /** Redoing job `i` on a store that already shows its effect changes no active face. */
  ghost predicate Harmless(u: Pass, i: nat, db: Db)
    requires i < |u.jobs| && u.jobs[i].Work?
  {
    var now := u.table.faces(db, u.jobs[i].slot);
    if u.overwrite then now == [u.jobs[i].face] else now != []
  }

  /** A row still ahead has left no trace in the journal. */
  ghost predicate Ahead(u: Pass, d: Durable, j: nat)
    requires j < |u.jobs|
  {
    u.jobs[j].Work? && u.jobs[j].key in d.journal ==> u.jobs[j].key in u.journaled
  }

  /** A row already passed is journaled, or redoing it is harmless. */
  ghost predicate Passed(u: Pass, d: Durable, i: nat)
    requires i < |u.jobs|
  {
    u.jobs[i].Work? ==> u.jobs[i].key in d.journal || Harmless(u, i, d.db)
  }

  /** An overwriting run has journaled every row it has passed. */
  ghost predicate Logged(u: Pass, d: Durable, i: nat)
    requires i < |u.jobs|
  {
    u.overwrite && u.jobs[i].Work? ==> u.jobs[i].key in d.journal
  }

  /** Progress of an interrupted campaign, measured against the uninterrupted pass `u`: the store shows
      the first `m` rows of `u`. */
  ghost predicate Reached(u: Pass, d: Durable, m: nat) {
    && m <= |u.jobs|
    && SameFaces(u.table, d.db, u.After(m).db)
    && u.journaled <= d.journal
    && (forall j: nat :: m <= j < |u.jobs| ==> Ahead(u, d, j))
    && (forall i: nat :: i < m ==> Passed(u, d, i))
  }

  /** The invariant inside one rerun, after `j` of its rows. */
  ghost predicate Midway(u: Pass, k: nat, j: nat, d: Durable)
    requires j <= |u.jobs|
  {
    Reached(u, d, if j < k then k else j) && forall i: nat :: i < j ==> Logged(u, d, i)
  }

  /** A state that differs from a state of progress only in harmless ways is one too. */
  lemma StillReached(u: Pass, d: Durable, e: Durable, j: nat, m: nat)
    requires DistinctKeys(u.jobs) && j < m && Reached(u, d, m) && SameFaces(u.table, d.db, e.db)
    requires e.journal == d.journal || (u.jobs[j].Work? && e.journal == d.journal + {u.jobs[j].key})
    ensures Reached(u, e, m)
  {
    forall n: nat | m <= n < |u.jobs| ensures Ahead(u, e, n) {
      assert Ahead(u, d, n) && KeysDiffer(u.jobs, n, j);
    }
    forall i: nat | i < m ensures Passed(u, e, i) {
      assert Passed(u, d, i);
      if u.jobs[i].Work? {
        assert u.table.faces(d.db, u.jobs[i].slot) == u.table.faces(e.db, u.jobs[i].slot);
      }
    }
  }

  /** Redoing a row the campaign has already passed. */
  lemma RedoneRow(u: Pass, c: Durable, k: nat, j: nat, d: Durable)
    requires Clean(u) && j < k && DistinctKeys(u.jobs)
    requires Reached(u, c, k) && Midway(u, k, j, d) && c.journal <= d.journal
    ensures forall x :: x in u.From(c).Effects(j, d) ==> Reached(u, x, k)
    ensures Midway(u, k, j + 1, u.From(c).Next(j, d))
  {
    var r := u.From(c);
    var e := r.Next(j, d);
    assert Passed(u, c, j);
    if r.Writes(j, d) {
      var job := u.jobs[j];
      assert u.table.faces(c.db, job.slot) == u.table.faces(d.db, job.slot);
      assert PutOk(u.table, d.db, job.slot, job.face);
      StillReached(u, d, r.Commit(j, d), j, k);
      StillReached(u, d, e, j, k);
    }
    forall i: nat | i < j + 1 ensures Logged(u, e, i) {
      if i < j {
        assert Logged(u, d, i);
      }
    }
  }

  /** Processing a row for the first time leaves the store as the uninterrupted pass leaves it. */
  lemma FreshFaces(u: Pass, c: Durable, j: nat, d: Durable)
    requires Clean(u) && j < |u.jobs| && SameFaces(u.table, d.db, u.After(j).db)
    requires u.journaled <= c.journal && Ahead(u, c, j)
    ensures SameFaces(u.table, u.From(c).Next(j, d).db, u.After(j + 1).db)
  {
    var job := u.jobs[j];
    var v := u.After(j);
    assert u.After(j + 1) == u.Next(j, v);
    if job.Work? {
      assert u.table.faces(d.db, job.slot) == u.table.faces(v.db, job.slot);
      assert PutOk(u.table, d.db, job.slot, job.face) && PutOk(u.table, v.db, job.slot, job.face);
    }
  }

  /** The clauses of progress that do not mention the uninterrupted pass's store. */
  lemma FreshMarks(u: Pass, j: nat, d: Durable, e: Durable)
    requires DistinctKeys(u.jobs) && j < |u.jobs| && Reached(u, d, j) && forall i: nat :: i < j ==> Logged(u, d, i)
    requires e.journal == d.journal || (u.jobs[j].Work? && e.journal == d.journal + {u.jobs[j].key})
    requires Passed(u, e, j)
    requires forall slot :: u.table.faces(d.db, slot) != [] ==> u.table.faces(e.db, slot) != []
    ensures forall i: nat :: i < j + 1 ==> Passed(u, e, i)
    ensures forall n: nat :: j + 1 <= n < |u.jobs| ==> Ahead(u, e, n)
  {
    forall i: nat | i < j + 1 ensures Passed(u, e, i) {
      if i < j {
        assert Passed(u, d, i) && Logged(u, d, i);
      }
    }
    forall n: nat | j + 1 <= n < |u.jobs| ensures Ahead(u, e, n) {
      assert Ahead(u, d, n) && KeysDiffer(u.jobs, n, j);
    }
  }

  /** Processing a row for the first time does what the uninterrupted pass does. */
  lemma FreshRow(u: Pass, c: Durable, k: nat, j: nat, d: Durable)
    requires Clean(u) && k <= j < |u.jobs| && DistinctKeys(u.jobs)
    requires Reached(u, c, k) && Midway(u, k, j, d) && c.journal <= d.journal
    ensures forall x :: x in u.From(c).Effects(j, d) ==> Reached(u, x, j + 1)
    ensures Midway(u, k, j + 1, u.From(c).Next(j, d))
  {
    var r, job := u.From(c), u.jobs[j];
    var e := r.Next(j, d);
    assert Ahead(u, c, j);
    FreshFaces(u, c, j, d);
    if r.Writes(j, d) {
      assert PutOk(u.table, d.db, job.slot, job.face);
      FreshMarks(u, j, d, r.Commit(j, d));
      assert Reached(u, r.Commit(j, d), j + 1);
    }
    FreshMarks(u, j, d, e);
    assert Reached(u, e, j + 1);
    forall i: nat | i < j + 1 ensures Logged(u, e, i) {
      if i < j {
        assert Logged(u, d, i);
      }
    }
  }

  ghost predicate InProgress(u: Pass, d: Durable) {
    exists m: nat :: Reached(u, d, m)
  }

  /** Every state a rerun passes through is a state of progress, and its final state has passed every row. */
  lemma {:induction false} RerunProgress(u: Pass, c: Durable, k: nat, j: nat)
    requires Clean(u) && DistinctKeys(u.jobs) && j <= |u.jobs| && Reached(u, c, k)
    ensures Midway(u, k, j, u.From(c).After(j)) && c.journal <= u.From(c).After(j).journal
    ensures forall d :: d in u.From(c).Visited(j) ==> InProgress(u, d)
  {
    if j > 0 {
      var r := u.From(c);
      RerunProgress(u, c, k, j - 1);
      if j - 1 < k {
        RedoneRow(u, c, k, j - 1, r.After(j - 1));
      } else {
        FreshRow(u, c, k, j - 1, r.After(j - 1));
      }
    }
  }

  /** State `n` of a campaign is one that a crashed invocation, started from the state before it, can leave. */
  ghost predicate CrashLink(u: Pass, chain: seq<Durable>, n: nat)
    requires 0 < n < |chain|
  {
    chain[n] in u.From(chain[n - 1]).Visited(|u.jobs|)
  }

  ghost predicate CrashChain(u: Pass, chain: seq<Durable>) {
    chain != [] && chain[0] == u.start && forall n: nat :: 0 < n < |chain| ==> CrashLink(u, chain, n)
  }

  lemma {:induction false} ChainProgress(u: Pass, chain: seq<Durable>, n: nat)
    requires Clean(u) && DistinctKeys(u.jobs) && CrashChain(u, chain) && n < |chain|
    ensures InProgress(u, chain[n])
  {
    if n == 0 {
      assert Reached(u, chain[0], 0);
    } else {
      ChainProgress(u, chain, n - 1);
      var k: nat :| Reached(u, chain[n - 1], k);
      assert CrashLink(u, chain, n);
      RerunProgress(u, chain[n - 1], k, |u.jobs|);
    }
  }

  /** Crash the importer at any durable step, any number of times, then let one rerun finish: every slot
      has the active faces of one uninterrupted run from the same start. */
  lemma CrashesDoNotMatter(u: Pass, chain: seq<Durable>)
    requires Clean(u) && DistinctKeys(u.jobs) && CrashChain(u, chain)
    ensures SameFaces(u.table, u.From(chain[|chain| - 1]).Outcome().db, u.Outcome().db)
  {
    ChainProgress(u, chain, |chain| - 1);
    var k: nat :| Reached(u, chain[|chain| - 1], k);
    RerunProgress(u, chain[|chain| - 1], k, |u.jobs|);
  }

  /** A key stands for job `n`, whose face has been stored. */
  ghost predicate StandsFor(u: Pass, d: Durable, key: Key, n: nat) {
    n < |u.jobs| && u.jobs[n].Work? && u.jobs[n].key == key && u.table.holds(d.db, u.jobs[n].slot, u.jobs[n].face)
  }

  /** Every journal key written since `u` began stands for a stored row. */
  ghost predicate AllStored(u: Pass, d: Durable) {
    forall key :: key in d.journal && key !in u.start.journal ==> exists n: nat :: StandsFor(u, d, key, n)
  }

  lemma WriteStaysStored(u: Pass, r: Pass, i: nat, d: Durable, after: Durable)
    requires Lawful(u.table) && r.table == u.table && r.jobs == u.jobs && i < |u.jobs| && AllStored(u, d)
    requires r.Writes(i, d) && (after == r.Commit(i, d) || after == r.Journal(i, d))
    ensures AllStored(u, after)
  {
    assert PutOk(u.table, d.db, u.jobs[i].slot, u.jobs[i].face);
    forall key | key in after.journal && key !in u.start.journal ensures exists n: nat :: StandsFor(u, after, key, n) {
      if key in d.journal {
        var n: nat :| StandsFor(u, d, key, n);
        assert StandsFor(u, after, key, n);
      } else {
        assert StandsFor(u, after, key, i);
      }
    }
  }

  lemma {:induction false} RunStaysStored(u: Pass, r: Pass, i: nat)
    requires Lawful(u.table) && r.table == u.table && r.jobs == u.jobs && i <= |u.jobs| && AllStored(u, r.start)
    ensures AllStored(u, r.After(i))
    ensures forall d :: d in r.Visited(i) ==> AllStored(u, d)
  {
    if i > 0 {
      RunStaysStored(u, r, i - 1);
      var d := r.After(i - 1);
      if r.Writes(i - 1, d) {
        WriteStaysStored(u, r, i - 1, d, r.Commit(i - 1, d));
        WriteStaysStored(u, r, i - 1, d, r.Journal(i - 1, d));
      }
    }
  }

  /** Over a whole campaign of crashed invocations, each with any database faults: at every point, every journal key
      that any of them wrote belongs to a row whose template is in the table. */
  lemma {:induction false} JournalNeverRunsAhead(u: Pass, chain: seq<Durable>, faults: seq<set<nat>>, n: nat)
    requires Lawful(u.table) && FaultyChain(u, chain, faults) && n < |chain|
    ensures AllStored(u, chain[n])
  {
    if n > 0 {
      JournalNeverRunsAhead(u, chain, faults, n - 1);
      assert FaultyLink(u, chain, faults, n);
      RunStaysStored(u, u.From(chain[n - 1]).(faults := faults[n]), |u.jobs|);
    }
  }

  /** What a run has visited so far, it has visited in the end. */
  lemma {:induction false} VisitedGrows(p: Pass, i: nat, j: nat, d: Durable)
    requires i <= j <= |p.jobs| && d in p.Visited(i)
    ensures d in p.Visited(j)
    decreases j
  {
    if i < j {
      VisitedGrows(p, i, j - 1, d);
    }
  }

  /** Why the pairs must be distinct: the same photo filed under two poses of one student. Uninterrupted,
      both poses are imported; crash right after the first journal line and the second is never imported. */
  lemma DuplicatePairLosesAPose(table: Table, start: Durable, key: Key, front: Slot, left: Slot, face: Face)
    requires Lawful(table) && front != left && key !in start.journal
    requires table.faces(start.db, front) == [] && table.faces(start.db, left) == []
    ensures var u := Pass(table, [Work(key, front, face), Work(key, left, face)], false, start, start.journal, {});
            && table.faces(u.Outcome().db, left) == [face]
            && u.After(1) in u.Visited(2)
            && table.faces(u.From(u.After(1)).Outcome().db, left) == []
  {
    var u := Pass(table, [Work(key, front, face), Work(key, left, face)], false, start, start.journal, {});
    assert u.After(1) == u.Next(0, start);
    assert u.Visited(1) == u.Visited(0) + u.Effects(0, start);
    assert u.Visited(1)[2] == u.After(1);
    assert PutOk(table, start.db, front, face) && PutOk(table, u.After(1).db, left, face);
    assert u.Outcome() == u.Next(1, u.After(1));
    var r := u.From(u.After(1));
    assert r.After(1) == r.Next(0, r.start) == r.start;
    assert r.Outcome() == r.Next(1, r.After(1));
  }

  // ---------------------------------------------------------------- immediate rerun

  /** Row `i` has nothing left to do. */
  ghost predicate Spent(u: Pass, d: Durable, i: nat)
    requires i < |u.jobs|
  {
    u.jobs[i].Work? ==> u.jobs[i].key in d.journal || (!u.overwrite && u.table.faces(d.db, u.jobs[i].slot) != [])
  }

  lemma {:induction false} PassSpends(u: Pass, j: nat)
    requires Clean(u) && j <= |u.jobs|
    ensures u.journaled <= u.After(j).journal && forall i: nat :: i < j ==> Spent(u, u.After(j), i)
  {
    if j > 0 {
      PassSpends(u, j - 1);
      var d, e := u.After(j - 1), u.After(j);
      assert e == u.Next(j - 1, d);
      if u.Writes(j - 1, d) {
        assert PutOk(u.table, d.db, u.jobs[j - 1].slot, u.jobs[j - 1].face);
      }
      forall i: nat | i < j ensures Spent(u, e, i) {
        if i < j - 1 {
          assert Spent(u, d, i);
        }
      }
    }
  }

  /** An immediate rerun after a completed error-free run takes no durable step: it writes neither a
      template, nor an audit entry, nor a journal line. No distinctness is needed. */
  lemma {:induction false} RerunWritesNothing(u: Pass, j: nat)
    requires Clean(u) && j <= |u.jobs|
    ensures u.From(u.Outcome()).Visited(j) == [u.Outcome()] && u.From(u.Outcome()).After(j) == u.Outcome()
  {
    if j > 0 {
      RerunWritesNothing(u, j - 1);
      PassSpends(u, |u.jobs|);
      assert Spent(u, u.Outcome(), j - 1);
    }
  }

  // ---------------------------------------------------------------- transient database faults

  /** A row that the batch may still have to import into its slot. */
  predicate Eligible(u: Pass, i: nat)
    requires i < |u.jobs|
  {
    && u.jobs[i].Work? && u.jobs[i].key !in u.journaled
    && (u.overwrite || u.table.faces(u.start.db, u.jobs[i].slot) == [])
  }

  ghost predicate Agree(u: Pass, i: nat, j: nat)
    requires i < |u.jobs| && j < |u.jobs|
  {
    Eligible(u, i) && Eligible(u, j) && u.jobs[i].slot == u.jobs[j].slot ==> u.jobs[i].face == u.jobs[j].face
  }

  /** All rows that compete for a slot carry the same face. */
  ghost predicate RivalsAgree(u: Pass) {
    forall i: nat, j: nat :: i < |u.jobs| && j < |u.jobs| ==> Agree(u, i, j)
  }

  /** Invocation `n` crashes anywhere and suffers the database faults `faults[n]`. */
  ghost predicate FaultyLink(u: Pass, chain: seq<Durable>, faults: seq<set<nat>>, n: nat)
    requires 0 < n < |chain| == |faults|
  {
    chain[n] in u.From(chain[n - 1]).(faults := faults[n]).Visited(|u.jobs|)
  }

  ghost predicate FaultyChain(u: Pass, chain: seq<Durable>, faults: seq<set<nat>>) {
    && chain != [] && chain[0] == u.start && |faults| == |chain|
    && forall n: nat :: 0 < n < |chain| ==> FaultyLink(u, chain, faults, n)
  }

  /** The slot shows the face of eligible row `i`. */
  ghost predicate ClaimedBy(u: Pass, d: Durable, slot: Slot, i: nat) {
    i < |u.jobs| && Eligible(u, i) && u.jobs[i].slot == slot && u.table.faces(d.db, slot) == [u.jobs[i].face]
  }

  /** The slot shows what the batch found there, or the face of some eligible row. */
  ghost predicate Explained(u: Pass, d: Durable, slot: Slot) {
    u.table.faces(d.db, slot) == u.table.faces(u.start.db, slot) || exists i: nat :: ClaimedBy(u, d, slot, i)
  }

  /** A row that the batch has journaled shows in its slot. */
  ghost predicate Kept(u: Pass, d: Durable, i: nat)
    requires i < |u.jobs|
  {
    u.jobs[i].Work? && u.jobs[i].key in d.journal && u.jobs[i].key !in u.journaled ==>
      u.table.faces(d.db, u.jobs[i].slot) == [u.jobs[i].face]
  }

  /** What survives any mixture of crashes and faults when rivals agree. */
  ghost predicate Consistent(u: Pass, d: Durable) {
    && u.journaled <= d.journal
    && (forall slot :: Explained(u, d, slot))
    && (forall i: nat :: i < |u.jobs| ==> Kept(u, d, i))
  }

  /** An occupied slot of an eligible row shows that row's face, or what the batch found there. */
  lemma ClaimedFace(u: Pass, d: Durable, j: nat)
    requires RivalsAgree(u) && j < |u.jobs| && Eligible(u, j) && Explained(u, d, u.jobs[j].slot)
    ensures var now := u.table.faces(d.db, u.jobs[j].slot);
            now == u.table.faces(u.start.db, u.jobs[j].slot) || now == [u.jobs[j].face]
  {
    if i: nat :| ClaimedBy(u, d, u.jobs[j].slot, i) {
      assert Agree(u, i, j);
    }
  }

  /** A write keeps the state consistent, before and after its journal line. */
  lemma WriteKeepsConsistent(u: Pass, r: Pass, j: nat, d: Durable, e: Durable)
    requires Clean(u) && DistinctKeys(u.jobs) && RivalsAgree(u) && j < |u.jobs| && Consistent(u, d)
    requires r.table == u.table && r.jobs == u.jobs && r.overwrite == u.overwrite && u.journaled <= r.journaled
    requires r.Writes(j, d) && (e == r.Commit(j, d) || e == r.Journal(j, d))
    ensures Consistent(u, e) && Eligible(u, j)
  {
    var job := u.jobs[j];
    assert PutOk(u.table, d.db, job.slot, job.face);
    assert Explained(u, d, job.slot);
    if i: nat :| ClaimedBy(u, d, job.slot, i) {
      assert u.overwrite;
    }
    assert Eligible(u, j);
    forall slot ensures Explained(u, e, slot) {
      assert Explained(u, d, slot);
      if slot == job.slot {
        assert ClaimedBy(u, e, slot, j);
      } else if i: nat :| ClaimedBy(u, d, slot, i) {
        assert ClaimedBy(u, e, slot, i);
      }
    }
    forall i: nat | i < |u.jobs| ensures Kept(u, e, i) {
      assert Kept(u, d, i);
      if i != j {
        assert KeysDiffer(u.jobs, i, j) && Agree(u, i, j);
      }
      if u.jobs[i].Work? && u.jobs[i].key in d.journal && u.jobs[i].key !in u.journaled && u.jobs[i].slot == job.slot {
        assert Eligible(u, i);
      }
    }
  }

  lemma {:induction false} ConsistentRun(u: Pass, r: Pass, j: nat)
    requires Clean(u) && DistinctKeys(u.jobs) && RivalsAgree(u) && j <= |u.jobs| && Consistent(u, r.start)
    requires r.table == u.table && r.jobs == u.jobs && r.overwrite == u.overwrite && u.journaled <= r.journaled
    ensures Consistent(u, r.After(j))
    ensures forall x :: x in r.Visited(j) ==> Consistent(u, x)
  {
    if j > 0 {
      ConsistentRun(u, r, j - 1);
      var d := r.After(j - 1);
      if r.Writes(j - 1, d) {
        WriteKeepsConsistent(u, r, j - 1, d, r.Commit(j - 1, d));
        WriteKeepsConsistent(u, r, j - 1, d, r.Journal(j - 1, d));
      }
    }
  }

  ghost predicate Settled(u: Pass, d: Durable, i: nat)
    requires i < |u.jobs|
  {
    Eligible(u, i) ==> u.table.faces(d.db, u.jobs[i].slot) == [u.jobs[i].face]
  }

  /** After its turn in a fault-free rerun, an eligible row shows in its slot, and earlier ones still do. */
  lemma CleanRowSettles(u: Pass, r: Pass, j: nat, d: Durable, i: nat)
    requires Clean(u) && DistinctKeys(u.jobs) && RivalsAgree(u) && Consistent(u, d) && i <= j < |u.jobs|
    requires r == u.From(r.start) && u.journaled <= r.journaled <= d.journal && (i < j ==> Settled(u, d, i))
    ensures Settled(u, r.Next(j, d), i)
  {
    var job := u.jobs[j];
    if job.Work? {
      assert PutOk(u.table, d.db, job.slot, job.face);
    }
    if Eligible(u, i) {
      assert Kept(u, d, i) && Explained(u, d, u.jobs[i].slot);
      ClaimedFace(u, d, i);
      if r.Writes(j, d) {
        WriteKeepsConsistent(u, r, j, d, r.Journal(j, d));
        assert Agree(u, i, j);
      }
    }
  }

  /** A fault-free rerun from a consistent state settles every slot. */
  lemma {:induction false} CleanRunSettles(u: Pass, r: Pass, j: nat)
    requires Clean(u) && DistinctKeys(u.jobs) && RivalsAgree(u) && j <= |u.jobs|
    requires r == u.From(r.start) && Consistent(u, r.start)
    ensures r.journaled <= r.After(j).journal && Consistent(u, r.After(j))
    ensures forall i: nat :: i < j ==> Settled(u, r.After(j), i)
  {
    if j > 0 {
      CleanRunSettles(u, r, j - 1);
      ConsistentRun(u, r, j);
      var d := r.After(j - 1);
      forall i: nat | i < j ensures Settled(u, r.After(j), i) {
        if i < j - 1 {
          assert Settled(u, d, i);
        }
        CleanRowSettles(u, r, j - 1, d, i);
      }
    }
  }

  lemma SettledIsUnique(u: Pass, a: Durable, b: Durable)
    requires Consistent(u, a) && Consistent(u, b)
    requires forall i: nat :: i < |u.jobs| ==> Settled(u, a, i) && Settled(u, b, i)
    ensures SameFaces(u.table, a.db, b.db)
  {
    forall slot ensures u.table.faces(a.db, slot) == u.table.faces(b.db, slot) {
      assert Explained(u, a, slot) && Explained(u, b, slot);
      if i: nat :| ClaimedBy(u, a, slot, i) {
        assert Settled(u, b, i);
      } else if i: nat :| ClaimedBy(u, b, slot, i) {
        assert Settled(u, a, i);
      }
    }
  }

  lemma {:induction false} FaultyChainConsistent(u: Pass, chain: seq<Durable>, faults: seq<set<nat>>, n: nat)
    requires Clean(u) && DistinctKeys(u.jobs) && RivalsAgree(u) && FaultyChain(u, chain, faults) && n < |chain|
    ensures Consistent(u, chain[n])
  {
    if n > 0 {
      FaultyChainConsistent(u, chain, faults, n - 1);
      assert FaultyLink(u, chain, faults, n);
      ConsistentRun(u, u.From(chain[n - 1]).(faults := faults[n]), |u.jobs|);
    }
  }

  /** Rivals that agree make every crash and every transient database fault harmless. */
  lemma FaultsDoNotMatterWhenRivalsAgree(u: Pass, chain: seq<Durable>, faults: seq<set<nat>>)
    requires Clean(u) && DistinctKeys(u.jobs) && RivalsAgree(u) && FaultyChain(u, chain, faults)
    ensures SameFaces(u.table, u.From(chain[|chain| - 1]).Outcome().db, u.Outcome().db)
  {
    var r := u.From(chain[|chain| - 1]);
    FaultyChainConsistent(u, chain, faults, |chain| - 1);
    FaultyChainConsistent(u, chain, faults, 0);
    assert u == u.From(u.start);
    CleanRunSettles(u, r, |u.jobs|);
    CleanRunSettles(u, u, |u.jobs|);
    SettledIsUnique(u, r.Outcome(), u.Outcome());
  }

  /** A row whose write succeeds if it is attempted. */
  predicate Writable(p: Pass, i: nat)
    requires i < |p.jobs|
  {
    p.jobs[i].Work? && p.jobs[i].key !in p.journaled && i !in p.faults
  }

  ghost predicate Alone(p: Pass, x: nat, i: nat)
    requires x < |p.jobs| && i < |p.jobs| && p.jobs[x].Work?
  {
    Writable(p, i) && p.jobs[i].slot == p.jobs[x].slot ==> i == x
  }

  /** When `x` is the only writable row of its slot, the pass ends with its face there, unless the slot
      was occupied and may not be overwritten. */
  lemma {:induction false} OnlyWriter(p: Pass, x: nat, j: nat)
    requires Lawful(p.table) && x < |p.jobs| && j <= |p.jobs| && Writable(p, x)
    requires forall i: nat :: i < |p.jobs| ==> Alone(p, x, i)
    ensures var before := p.table.faces(p.start.db, p.jobs[x].slot);
            p.table.faces(p.After(j).db, p.jobs[x].slot)
            == if j <= x || (!p.overwrite && before != []) then before else [p.jobs[x].face]
  {
    if j > 0 {
      var i := j - 1;
      OnlyWriter(p, x, i);
      assert Alone(p, x, i);
      if p.Writes(i, p.After(i)) {
        assert PutOk(p.table, p.After(i).db, p.jobs[i].slot, p.jobs[i].face);
      }
    }
  }

  lemma {:induction false} OccupiedStays(p: Pass, slot: Slot, j: nat)
    requires Lawful(p.table) && j <= |p.jobs| && !p.overwrite && p.table.faces(p.start.db, slot) != []
    ensures p.table.faces(p.After(j).db, slot) == p.table.faces(p.start.db, slot)
  {
    if j > 0 {
      OccupiedStays(p, slot, j - 1);
      if p.Writes(j - 1, p.After(j - 1)) {
        assert PutOk(p.table, p.After(j - 1).db, p.jobs[j - 1].slot, p.jobs[j - 1].face);
      }
    }
  }

  /** An overwriting pass journals exactly its writable rows. */
  lemma {:induction false} OverwriteJournals(p: Pass, j: nat, key: Key)
    requires j <= |p.jobs| && p.overwrite
    ensures key in p.After(j).journal <==>
            key in p.start.journal || exists i: nat :: i < j && Writable(p, i) && p.jobs[i].key == key
  {
    if j > 0 {
      OverwriteJournals(p, j - 1, key);
      assert p.Writes(j - 1, p.After(j - 1)) == Writable(p, j - 1);
    }
  }

  function Below(n: nat): (r: set<nat>)
    ensures forall i: nat :: i in r <==> i < n
  {
    if n == 0 then {} else Below(n - 1) + {n - 1}
  }

  /** Any eligible row can be made to win its slot: let the database refuse exactly the right rows once. */
  lemma AnyRivalCanWin(u: Pass, x: nat) returns (chain: seq<Durable>, faults: seq<set<nat>>)
    requires Clean(u) && DistinctKeys(u.jobs) && x < |u.jobs| && Eligible(u, x)
    ensures FaultyChain(u, chain, faults)
    ensures u.table.faces(u.From(chain[|chain| - 1]).Outcome().db, u.jobs[x].slot) == [u.jobs[x].face]
  {
    var n := |u.jobs|;
    var refused := if u.overwrite then {x} else Below(n) - {x};
    var p := u.From(u.start).(faults := refused);
    var r := u.From(p.Outcome());
    chain, faults := [u.start, p.Outcome()], [{}, refused];
    OutcomeIsVisited(p, n);
    assert FaultyLink(u, chain, faults, 1);
    if u.overwrite {
      OverwriteJournals(p, n, u.jobs[x].key);
      forall i: nat | i < n && Writable(p, i) ensures p.jobs[i].key != u.jobs[x].key {
        assert KeysDiffer(u.jobs, i, x);
      }
      forall i: nat | i < n ensures Alone(r, x, i) {
        if Writable(r, i) && i != x {
          OverwriteJournals(p, n, u.jobs[i].key);
          assert Writable(p, i);
        }
      }
      OnlyWriter(r, x, n);
    } else {
      assert forall i: nat :: i < n ==> Alone(p, x, i);
      OnlyWriter(p, x, n);
      OccupiedStays(r, u.jobs[x].slot, n);
    }
  }

  lemma {:induction false} OutcomeIsVisited(p: Pass, j: nat)
    requires j <= |p.jobs|
    ensures p.After(j) in p.Visited(j)
  {
    if j > 0 {
      OutcomeIsVisited(p, j - 1);
    }
  }

  /** Transient database faults are repaired by reruns, whatever they hit, exactly when the rows that
      compete for one slot carry the same face. */
  lemma FaultsHarmlessIff(u: Pass)
    requires Clean(u) && DistinctKeys(u.jobs)
    ensures RivalsAgree(u) <==>
            forall chain, faults :: FaultyChain(u, chain, faults) ==>
              SameFaces(u.table, u.From(chain[|chain| - 1]).Outcome().db, u.Outcome().db)
  {
    if RivalsAgree(u) {
      forall chain, faults | FaultyChain(u, chain, faults) {
        FaultsDoNotMatterWhenRivalsAgree(u, chain, faults);
      }
    } else {
      var i: nat, j: nat :| i < |u.jobs| && j < |u.jobs| && !Agree(u, i, j);
      var slot := u.jobs[i].slot;
      assert [u.jobs[i].face][0] != [u.jobs[j].face][0];
      var x := if u.table.faces(u.Outcome().db, slot) == [u.jobs[i].face] then j else i;
      var chain, faults := AnyRivalCanWin(u, x);
      assert !SameFaces(u.table, u.From(chain[|chain| - 1]).Outcome().db, u.Outcome().db);
    }
  }

  // ---------------------------------------------------------------- what a run leaves active

  /** Row `i` has a face for the slot that the run may write. */
  predicate Lands(p: Pass, i: nat, slot: Slot)
    requires i < |p.jobs|
  {
    p.jobs[i].Work? && p.jobs[i].slot == slot && p.jobs[i].key !in p.journaled && i !in p.faults
  }

  ghost predicate NoneLands(p: Pass, from: nat, to: nat, slot: Slot)
    requires to <= |p.jobs|
  {
    forall k: nat :: from <= k < to ==> !Lands(p, k, slot)
  }

  /** What one more row makes of a slot. */
  lemma SlotStep(p: Pass, j: nat, slot: Slot)
    requires Lawful(p.table) && j < |p.jobs|
    ensures var before, after := p.table.faces(p.After(j).db, slot), p.table.faces(p.After(j + 1).db, slot);
            after == if Lands(p, j, slot) && (p.overwrite || before == []) then [p.jobs[j].face] else before
  {
    var d := p.After(j);
    if p.Writes(j, d) {
      assert PutOk(p.table, d.db, p.jobs[j].slot, p.jobs[j].face);
    }
  }

  /** A slot no row lands in is untouched; what is active in any slot was there before or is a landed row's face. */
  lemma {:induction false} FacesComeFromRows(p: Pass, j: nat, slot: Slot)
    requires Lawful(p.table) && j <= |p.jobs|
    ensures NoneLands(p, 0, j, slot) ==> p.table.faces(p.After(j).db, slot) == p.table.faces(p.start.db, slot)
    ensures p.table.faces(p.After(j).db, slot) == p.table.faces(p.start.db, slot) ||
            exists i: nat :: i < j && Lands(p, i, slot) && p.table.faces(p.After(j).db, slot) == [p.jobs[i].face]
  {
    if j > 0 {
      FacesComeFromRows(p, j - 1, slot);
      SlotStep(p, j - 1, slot);
    }
  }

  /** Overwriting, the last row that lands in a slot wins. */
  lemma {:induction false} LastLandingWins(p: Pass, j: nat, i: nat, slot: Slot)
    requires Lawful(p.table) && p.overwrite && i < j <= |p.jobs|
    requires Lands(p, i, slot) && NoneLands(p, i + 1, j, slot)
    ensures p.table.faces(p.After(j).db, slot) == [p.jobs[i].face]
    decreases j
  {
    SlotStep(p, j - 1, slot);
    if i < j - 1 {
      LastLandingWins(p, j - 1, i, slot);
    }
  }

  /** Without overwriting, the first row that lands in an empty slot wins, and an occupied slot keeps what it has. */
  lemma {:induction false} FirstLandingWins(p: Pass, j: nat, i: nat, slot: Slot)
    requires Lawful(p.table) && !p.overwrite && i < j <= |p.jobs|
    requires Lands(p, i, slot) && NoneLands(p, 0, i, slot)
    ensures var before := p.table.faces(p.start.db, slot);
            p.table.faces(p.After(j).db, slot) == if before == [] then [p.jobs[i].face] else before
    decreases j
  {
    SlotStep(p, j - 1, slot);
    if i < j - 1 {
      FirstLandingWins(p, j - 1, i, slot);
    } else {
      FacesComeFromRows(p, i, slot);
    }
  }

  /** A slot that some row lands in is occupied in the end. */
  lemma {:induction false} LandedIsOccupied(p: Pass, j: nat, i: nat, slot: Slot)
    requires Lawful(p.table) && i < j <= |p.jobs| && Lands(p, i, slot)
    ensures p.table.faces(p.After(j).db, slot) != []
    decreases j
  {
    SlotStep(p, j - 1, slot);
    if i < j - 1 {
      LandedIsOccupied(p, j - 1, i, slot);
    }
  }
}
