/** The nightly retention sweep: two audit-first deletions of biometric templates, each a transaction of its own. */
module Retention {

  import opened Transactions
  import opened Wrappers

  datatype Consent = Pending | Granted | Withdrawn | Denied

  datatype Template = Template(student: nat, createdAt: int)

  datatype Reason = RetentionExpired | ConsentNotGranted

  /** An EMBED_HARD_DELETE row. */
  datatype Row = Row(reason: Reason, deleted: nat)

  datatype State = State(templates: map<nat, Template>, consents: map<nat, Consent>, ledger: seq<Row>)

  /** A template older than the cutoff. */
  predicate Expired(t: Template, cutoff: int) {
    t.createdAt < cutoff
  }

  predicate Refused(consents: map<nat, Consent>, t: Template) {
    t.student in consents && (consents[t.student] == Withdrawn || consents[t.student] == Denied)
  }

  function ExpiredIds(s: State, cutoff: int): set<nat> {
    set id | id in s.templates && Expired(s.templates[id], cutoff)
  }

  function RefusedIds(s: State): set<nat> {
    set id | id in s.templates && Refused(s.consents, s.templates[id])
  }

  /** One batch: nothing at all when there is nothing to delete. */
  function Batch(s: State, doomed: set<nat>, reason: Reason): State {
    if doomed == {} then s
    else s.(templates := s.templates - doomed, ledger := s.ledger + [Row(reason, |doomed|)])
  }

  function Sweep(s: State, cutoff: int): State {
    var s1 := Batch(s, ExpiredIds(s, cutoff), RetentionExpired);
    Batch(s1, RefusedIds(s1), ConsentNotGranted)
  }

  function Deleted(rows: seq<Row>): nat {
    if rows == [] then 0 else Deleted(rows[..|rows| - 1]) + rows[|rows| - 1].deleted
  }

  /** A template survives exactly if it was created at the cutoff or later and its student neither withdrew nor denied
      consent; pending and granted consents, and unknown students, keep it. */
  ghost predicate SurvivesIff(s: State, s': State, cutoff: int, id: nat) {
    && (id in s'.templates <==>
          && id in s.templates && s.templates[id].createdAt >= cutoff
          && !(s.templates[id].student in s.consents && s.consents[s.templates[id].student] == Withdrawn)
          && !(s.templates[id].student in s.consents && s.consents[s.templates[id].student] == Denied))
    && (id in s'.templates ==> s'.templates[id] == s.templates[id])
  }

  /** The templates older than the cutoff, and the others of students who withdrew or denied. */
  predicate IsOld(s: State, cutoff: int, id: nat) {
    id in s.templates && s.templates[id].createdAt < cutoff
  }

  predicate IsUnwanted(s: State, cutoff: int, id: nat) {
    && id in s.templates && s.templates[id].createdAt >= cutoff && s.templates[id].student in s.consents
    && s.consents[s.templates[id].student] in {Withdrawn, Denied}
  }

  /** What the ledger says of a sweep: a row for each of its two reasons that applies, with the number of templates
      that went for it. */
  lemma SweepTellsWhy(s: State, cutoff: int, aged: set<nat>, unwanted: set<nat>)
    requires forall id: nat :: id in aged <==> IsOld(s, cutoff, id)
    requires forall id: nat :: id in unwanted <==> IsUnwanted(s, cutoff, id)
    ensures Sweep(s, cutoff).ledger ==
            s.ledger + (if aged == {} then [] else [Row(RetentionExpired, |aged|)])
                     + (if unwanted == {} then [] else [Row(ConsentNotGranted, |unwanted|)])
  {
    var s1 := Batch(s, ExpiredIds(s, cutoff), RetentionExpired);
    BatchCounts(s, ExpiredIds(s, cutoff), RetentionExpired);
    forall id: nat ensures id in ExpiredIds(s, cutoff) <==> id in aged {
      assert id in aged <==> IsOld(s, cutoff, id);
    }
    forall id: nat ensures id in RefusedIds(s1) <==> id in unwanted {
      assert id in unwanted <==> IsUnwanted(s, cutoff, id);
      assert id in ExpiredIds(s, cutoff) <==> IsOld(s, cutoff, id);
    }
    assert ExpiredIds(s, cutoff) == aged && RefusedIds(s1) == unwanted;
  }

  lemma BatchCounts(s: State, doomed: set<nat>, reason: Reason)
    requires doomed <= s.templates.Keys
    ensures |Batch(s, doomed, reason).templates| + Deleted(Batch(s, doomed, reason).ledger) ==
            |s.templates| + Deleted(s.ledger)
    ensures Batch(s, doomed, reason).templates == s.templates - doomed
    ensures Batch(s, doomed, reason).consents == s.consents
    ensures s.ledger <= Batch(s, doomed, reason).ledger
  {
    var s' := Batch(s, doomed, reason);
    if doomed == {} {
      assert s.templates - doomed == s.templates;
    } else {
      assert s'.templates.Keys == s.templates.Keys - doomed;
      assert |s.templates.Keys - doomed| == |s.templates.Keys| - |doomed|;
      assert |s'.templates| == |s'.templates.Keys| && |s.templates| == |s.templates.Keys|;
      assert s'.ledger[..|s.ledger|] == s.ledger;
    }
  }

  /** After a sweep, the survivors are exactly the templates neither expired nor refused, and the counts on the new
      ledger rows add up to the number of templates that went. */
  lemma SweepIsExact(s: State, cutoff: int)
    ensures var s' := Sweep(s, cutoff);
            && (forall id: nat :: SurvivesIff(s, s', cutoff, id))
            && |s'.templates| + Deleted(s'.ledger) == |s.templates| + Deleted(s.ledger)
            && s'.consents == s.consents && s.ledger <= s'.ledger
  {
    var s1 := Batch(s, ExpiredIds(s, cutoff), RetentionExpired);
    BatchCounts(s, ExpiredIds(s, cutoff), RetentionExpired);
    BatchCounts(s1, RefusedIds(s1), ConsentNotGranted);
    forall id: nat ensures SurvivesIff(s, Sweep(s, cutoff), cutoff, id) {
      assert id in s1.templates <==> id in s.templates && !Expired(s.templates[id], cutoff);
    }
  }

  /** A second sweep at the same cutoff changes nothing, and writes no row. */
  lemma SecondSweepIsIdle(s: State, cutoff: int)
    ensures Sweep(Sweep(s, cutoff), cutoff) == Sweep(s, cutoff)
  {
    var s' := Sweep(s, cutoff);
    SweepIsExact(s, cutoff);
    forall id: nat ensures id !in ExpiredIds(s', cutoff) && id !in RefusedIds(s') {
      assert SurvivesIff(s, s', cutoff, id);
    }
    assert ExpiredIds(s', cutoff) == {} && RefusedIds(s') == {};
  }

  /** What a session carried out, in order. */
  datatype Executed = FlushedRow(row: Row) | DeletedTemplates(ids: set<nat>)

  /** Nothing is deleted that the statement just before has not put on record. */
  predicate AuditedFirst(log: seq<Executed>) {
    forall i :: 0 <= i < |log| && log[i].DeletedTemplates? ==>
      i > 0 && log[i - 1].FlushedRow? && log[i - 1].row.deleted == |log[i].ids|
  }

  /** A batch counts; then it flushes its row, deletes and commits. */
  function Statements(doomed: set<nat>): nat {
    if doomed == {} then 1 else 4
  }

  class Worker {
    var committed: State
    var session: State

    /** One batch in a session of its own: nothing of it is durable before its commit. `log` is what the session carried
        out until it ended. */
    method DeleteBatch(doomed: set<nat>, reason: Reason, faultAt: Option<nat>)
      returns (deleted: nat, raised: bool, ghost log: seq<Executed>)
      requires doomed <= committed.templates.Keys
      modifies this
      ensures raised <==> Faulty(faultAt, Statements(doomed))
      ensures committed == if raised then old(committed) else Batch(old(committed), doomed, reason)
      ensures deleted == (if raised then 0 else |doomed|) && deleted + |committed.templates| == |old(committed).templates|
      ensures AuditedFirst(log) && (Faulty(faultAt, 2) ==> log == [])
    {
      deleted, log, session := 0, [], committed;
      Shrinks(committed, doomed);
      var ok, left := Statement(faultAt);
      if !ok || doomed == {} {
        return 0, !ok, log;
      }
      ok, left := Statement(left);
      if ok {
        session := session.(ledger := session.ledger + [Row(reason, |doomed|)]);
        log := [FlushedRow(Row(reason, |doomed|))];
        ok, left := Statement(left);
      }
      if ok {
        session := session.(templates := session.templates - doomed);
        log := log + [DeletedTemplates(doomed)];
        ok, left := Statement(left);
      }
      if ok {
        committed, deleted := session, |doomed|;
      } else {
        session := committed;
      }
      raised := !ok;
    }

    /** The sweep. A failure in the second batch does not take the first one back: that one is committed. */
    method PurgeExpiredEmbeddings(cutoff: int, fault1: Option<nat>, fault2: Option<nat>)
      returns (expired: nat, refused: nat, raised: bool)
      modifies this
      ensures var s1 := Batch(old(committed), ExpiredIds(old(committed), cutoff), RetentionExpired);
              var fails1 := Faulty(fault1, Statements(ExpiredIds(old(committed), cutoff)));
              var fails2 := Faulty(fault2, Statements(RefusedIds(s1)));
              && raised == (fails1 || fails2)
              && committed == (if fails1 then old(committed) else if fails2 then s1 else Sweep(old(committed), cutoff))
              && (!raised ==> expired + refused + |committed.templates| == |old(committed).templates|)
    {
      refused := 0;
      var s := committed;
      ghost var log;
      expired, raised, log := DeleteBatch(ExpiredIds(s, cutoff), RetentionExpired, fault1);
      if raised {
        return;
      }
      var s1 := committed;
      refused, raised, log := DeleteBatch(RefusedIds(s1), ConsentNotGranted, fault2);
    }
  }

  lemma Shrinks(s: State, doomed: set<nat>)
    requires doomed <= s.templates.Keys
    ensures |s.templates - doomed| + |doomed| == |s.templates|
  {
    assert (s.templates - doomed).Keys == s.templates.Keys - doomed;
    assert |s.templates - doomed| == |(s.templates - doomed).Keys| && |s.templates| == |s.templates.Keys|;
  }
}
