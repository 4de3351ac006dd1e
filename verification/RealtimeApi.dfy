/** The limiter and the live endpoints as the code runs them, one Redis command per await, while other
    connections act in between. Each call is shown to be one interleaving of the limiter's protocol. */
module RealtimeApi {

  import opened Interleaving
  import opened Limiter

  function Others(c: nat): Action -> bool {
    (a: Action) => a.c != c
  }

  predicate AllForeign(actions: seq<Action>, c: nat) {
    forall a :: a in actions ==> a.c != c
  }

  lemma {:induction false} PlayContinues(userCap: nat, totalCap: nat, before: seq<Action>, actions: seq<Action>)
    ensures ExecAll(userCap, totalCap, before + actions) == Play(Exec, ExecAll(userCap, totalCap, before), actions)
    decreases |actions|
  {
    if actions == [] {
      assert before + actions == before;
    } else {
      var next := before + [actions[0]];
      assert next[..|before|] == before;
      assert before + actions == next + actions[1..];
      PlayContinues(userCap, totalCap, next, actions[1..]);
    }
  }

  lemma ForeignStepKeeps(s: Sys, a: Action, c: nat)
    requires a.c != c
    ensures c in s.conns ==> c in Exec(s, a).conns && Exec(s, a).conns[c] == s.conns[c]
    ensures Exec(s, a).userCap == s.userCap && Exec(s, a).totalCap == s.totalCap
  {
  }

  lemma {:induction false} ForeignKeeps(s: Sys, actions: seq<Action>, c: nat)
    requires AllForeign(actions, c)
    ensures c in s.conns ==> c in Play(Exec, s, actions).conns && Play(Exec, s, actions).conns[c] == s.conns[c]
    decreases |actions|
  {
    if actions != [] {
      assert actions[0] in actions;
      ForeignStepKeeps(s, actions[0], c);
      ForeignKeeps(Exec(s, actions[0]), actions[1..], c);
    }
  }

  /** Whether the kth command raises; a command may have been carried out all the same. */
  type Faults = nat -> bool

  /** What the others do at the kth await. */
  type Schedule = nat -> seq<Action>

  datatype Outcome = Granted | TurnedAway | Raised

  ghost predicate Faulty(fails: Faults) {
    exists i: nat :: fails(i)
  }

  /** What a connection does by itself: commands, and giving up only if some command raises. */
  ghost function Own(c: nat, fails: Faults): set<Action> {
    {Step(c)} + if Faulty(fails) then {Fail(c)} else {}
  }

  /** Nobody else acts and nothing raises. */
  ghost predicate Undisturbed(others: Schedule, fails: Faults) {
    forall i: nat :: others(i) == [] && !fails(i)
  }

  /** The counters moved by so much, that of no other user at all. */
  ghost predicate Moved(was: Sys, now: Sys, user: nat, byUser: int, byTotal: int) {
    now.total == was.total + byTotal && forall u: nat :: now.Count(u) == was.Count(u) + if u == user then byUser else 0
  }

  lemma MovedOn(a: Sys, b: Sys, c: Sys, user: nat, n1: int, m1: int, n2: int, m2: int)
    requires Moved(a, b, user, n1, m1) && Moved(b, c, user, n2, m2)
    ensures Moved(a, c, user, n1 + n2, m1 + m2)
  {
  }

  predicate Matches(o: Outcome, p: Phase) {
    match o
    case Granted => p == Open
    case TurnedAway => p == Refused
    case Raised => p.Lost?
  }

  class Redis {
    const userCap: nat
    const totalCap: nat
    var users: map<nat, int>
    var total: int
    var conns: map<nat, Conn>

    constructor (userCap: nat, totalCap: nat)
      ensures State() == ExecAll(userCap, totalCap, [])
    {
      this.userCap, this.totalCap := userCap, totalCap;
      users, total, conns := map[], 0, map[];
    }

    function State(): Sys
      reads this
    {
      Sys(userCap, totalCap, users, total, conns)
    }

    method AddUser(user: nat, n: int) returns (count: int)
      modifies this`users
      ensures State() == old(State()).Add(user, n) && count == State().Count(user)
    {
      count := (if user in users then users[user] else 0) + n;
      users := users[user := count];
    }

    method Mark(c: nat, user: nat, p: Phase)
      modifies this`conns
      ensures State() == old(State()).Goto(c, Conn(user, p))
    {
      conns := conns[c := Conn(user, p)];
    }

    method Await(others: seq<Action>)
      modifies this
      ensures State() == Play(Exec, old(State()), others)
    {
      var i := 0;
      while i < |others|
        invariant 0 <= i <= |others|
        invariant Play(Exec, State(), others[i..]) == Play(Exec, old(State()), others)
      {
        var s := Exec(State(), others[i]);
        ForeignStepKeeps(State(), others[i], others[i].c + 1);
        assert others[i..][0] == others[i] && others[i..][1..] == others[i + 1..];
        users, total, conns := s.users, s.total, s.conns;
        i := i + 1;
      }
    }

    /** Waiting: only the others act. */
    method Wait(others: seq<Action>, c: nat, ghost own: set<Action>) returns (ghost trace: seq<Action>)
      requires AllForeign(others, c)
      modifies this
      ensures Ran(Exec, old(State()), State(), trace, Others(c), own)
      ensures c in old(conns) ==> c in conns && conns[c] == old(conns[c])
      ensures others == [] ==> State() == old(State())
    {
      ForeignKeeps(State(), others, c);
      trace := others;
      Await(others);
    }

    /** A wait that may end in an exception, which leaves whatever is held in the counters. */
    method Suspend(c: nat, others: Schedule, fails: Faults, k: nat) returns (raised: bool, ghost trace: seq<Action>)
      requires c in conns && !conns[c].phase.Refused? && !conns[c].phase.Closed? && !conns[c].phase.Lost?
      requires forall i: nat :: AllForeign(others(i), c)
      modifies this
      ensures raised == fails(k) && Ran(Exec, old(State()), State(), trace, Others(c), Own(c, fails))
      ensures c in conns && conns[c] == if raised then old(conns[c]).(phase := Abandon(old(conns[c].phase))) else old(conns[c])
      ensures Undisturbed(others, fails) ==> State() == old(State())
    {
      trace := Wait(others(k), c, Own(c, fails));
      raised := fails(k);
      if raised {
        ghost var waited := State();
        Mark(c, conns[c].user, Abandon(conns[c].phase));
        RanStep(Exec, old(State()), waited, State(), trace, Fail(c), Others(c), Own(c, fails));
        trace := trace + [Fail(c)];
      }
    }

    /** The limiter's try_acquire: granted if both counters, once incremented, are within their caps. Awaits and
        commands are numbered from `k`. */
    method TryAcquire(c: nat, others: Schedule, fails: Faults, k: nat) returns (outcome: Outcome, ghost trace: seq<Action>)
      requires c in conns && conns[c].phase == Arriving
      requires forall i: nat :: AllForeign(others(i), c)
      modifies this
      ensures Ran(Exec, old(State()), State(), trace, Others(c), Own(c, fails))
      ensures c in conns && conns[c].user == old(conns[c].user) && Matches(outcome, conns[c].phase)
      ensures Undisturbed(others, fails) ==>
                var n := if outcome == Granted then 1 else 0;
                && outcome != Raised && Moved(old(State()), State(), old(conns[c].user), n, n)
                && (outcome == Granted <==> old(State().Count(conns[c].user)) < userCap && old(total) < totalCap)
                && (outcome == Granted ==> old(conns[c].user) in users)
    {
      var raised;
      raised, trace := Suspend(c, others, fails, k);
      if raised {
        return Raised, trace;
      }
      ghost var arrived := State();
      var existing := AddUser(conns[c].user, 1);
      var over := existing > userCap;
      Mark(c, conns[c].user, if over then OverUser else Stamping);
      ghost var counted := State();
      RanStep(Exec, old(State()), arrived, counted, trace, Step(c), Others(c), Own(c, fails));
      ghost var more;
      if over {
        outcome, more := BackOutUser(c, others, fails, k + 1);
      } else {
        outcome, more := Stamp(c, others, fails, k + 1);
      }
      RanOn(Exec, old(State()), counted, State(), trace + [Step(c)], more, Others(c), Own(c, fails), Own(c, fails));
      trace := trace + [Step(c)] + more;
      if Undisturbed(others, fails) {
        assert Moved(old(State()), counted, old(conns[c].user), 1, 0);
        MovedOn(old(State()), counted, State(), old(conns[c].user), 1, 0,
                if outcome == Granted then 0 else -1, if outcome == Granted then 1 else 0);
      }
    }

    /** EXPIRE on the user key, then on to the global counter. */
    method Stamp(c: nat, others: Schedule, fails: Faults, k: nat) returns (outcome: Outcome, ghost trace: seq<Action>)
      requires c in conns && conns[c].phase == Stamping
      requires forall i: nat :: AllForeign(others(i), c)
      modifies this
      ensures Ran(Exec, old(State()), State(), trace, Others(c), Own(c, fails))
      ensures c in conns && conns[c].user == old(conns[c].user) && Matches(outcome, conns[c].phase)
      ensures Undisturbed(others, fails) ==>
                && outcome == (if old(total) < totalCap then Granted else TurnedAway)
                && Moved(old(State()), State(), old(conns[c].user),
                         if outcome == Granted then 0 else -1, if outcome == Granted then 1 else 0)
                && old(users).Keys <= users.Keys
    {
      var raised;
      raised, trace := Suspend(c, others, fails, k);
      if raised {
        return Raised, trace;
      }
      ghost var waited := State();
      Mark(c, conns[c].user, Entering);
      ghost var stamped := State();
      RanStep(Exec, old(State()), waited, stamped, trace, Step(c), Others(c), Own(c, fails));
      ghost var more;
      outcome, more := EnterTotal(c, others, fails, k + 1);
      RanOn(Exec, old(State()), stamped, State(), trace + [Step(c)], more, Others(c), Own(c, fails), Own(c, fails));
      trace := trace + [Step(c)] + more;
    }

    method EnterTotal(c: nat, others: Schedule, fails: Faults, k: nat) returns (outcome: Outcome, ghost trace: seq<Action>)
      requires c in conns && conns[c].phase == Entering
      requires forall i: nat :: AllForeign(others(i), c)
      modifies this
      ensures Ran(Exec, old(State()), State(), trace, Others(c), Own(c, fails))
      ensures c in conns && conns[c].user == old(conns[c].user) && Matches(outcome, conns[c].phase)
      ensures Undisturbed(others, fails) ==>
                && outcome == (if old(total) < totalCap then Granted else TurnedAway)
                && Moved(old(State()), State(), old(conns[c].user),
                         if outcome == Granted then 0 else -1, if outcome == Granted then 1 else 0)
                && old(users).Keys <= users.Keys
    {
      var raised;
      raised, trace := Suspend(c, others, fails, k);
      if raised {
        return Raised, trace;
      }
      ghost var waited := State();
      total := total + 1;
      var over := total > totalCap;
      Mark(c, conns[c].user, if over then OverTotal else Confirming);
      ghost var counted := State();
      RanStep(Exec, old(State()), waited, counted, trace, Step(c), Others(c), Own(c, fails));
      ghost var more;
      if over {
        outcome, more := BackOutTotal(c, others, fails, k + 1);
      } else {
        outcome, more := Confirm(c, others, fails, k + 1);
      }
      RanOn(Exec, old(State()), counted, State(), trace + [Step(c)], more, Others(c), Own(c, fails), Own(c, fails));
      trace := trace + [Step(c)] + more;
      if Undisturbed(others, fails) {
        assert Moved(old(State()), counted, old(conns[c].user), 0, 1);
        MovedOn(old(State()), counted, State(), old(conns[c].user), 0, 1, if over then -1 else 0, if over then -1 else 0);
      }
    }

    /** EXPIRE on the total, and the connection is granted. */
    method Confirm(c: nat, others: Schedule, fails: Faults, k: nat) returns (outcome: Outcome, ghost trace: seq<Action>)
      requires c in conns && conns[c].phase == Confirming
      requires forall i: nat :: AllForeign(others(i), c)
      modifies this
      ensures Ran(Exec, old(State()), State(), trace, Others(c), Own(c, fails))
      ensures c in conns && conns[c].user == old(conns[c].user) && Matches(outcome, conns[c].phase)
      ensures Undisturbed(others, fails) ==>
                outcome == Granted && Moved(old(State()), State(), old(conns[c].user), 0, 0) && old(users).Keys <= users.Keys
    {
      var raised;
      raised, trace := Suspend(c, others, fails, k);
      if raised {
        return Raised, trace;
      }
      ghost var waited := State();
      Mark(c, conns[c].user, Open);
      RanStep(Exec, old(State()), waited, State(), trace, Step(c), Others(c), Own(c, fails));
      trace, outcome := trace + [Step(c)], Granted;
    }

    /** DECR of the total, then of the user counter, before the refusal. */
    method BackOutTotal(c: nat, others: Schedule, fails: Faults, k: nat) returns (outcome: Outcome, ghost trace: seq<Action>)
      requires c in conns && conns[c].phase == OverTotal
      requires forall i: nat :: AllForeign(others(i), c)
      modifies this
      ensures Ran(Exec, old(State()), State(), trace, Others(c), Own(c, fails))
      ensures c in conns && conns[c].user == old(conns[c].user) && Matches(outcome, conns[c].phase)
      ensures Undisturbed(others, fails) ==>
                outcome == TurnedAway && Moved(old(State()), State(), old(conns[c].user), -1, -1) && old(users).Keys <= users.Keys
    {
      var raised;
      raised, trace := Suspend(c, others, fails, k);
      if raised {
        return Raised, trace;
      }
      ghost var waited := State();
      total := total - 1;
      Mark(c, conns[c].user, BackingOut);
      ghost var backed := State();
      RanStep(Exec, old(State()), waited, backed, trace, Step(c), Others(c), Own(c, fails));
      ghost var more;
      outcome, more := BackOutUser(c, others, fails, k + 1);
      RanOn(Exec, old(State()), backed, State(), trace + [Step(c)], more, Others(c), Own(c, fails), Own(c, fails));
      trace := trace + [Step(c)] + more;
    }

    method BackOutUser(c: nat, others: Schedule, fails: Faults, k: nat) returns (outcome: Outcome, ghost trace: seq<Action>)
      requires c in conns && (conns[c].phase == OverUser || conns[c].phase == BackingOut)
      requires forall i: nat :: AllForeign(others(i), c)
      modifies this
      ensures Ran(Exec, old(State()), State(), trace, Others(c), Own(c, fails))
      ensures c in conns && conns[c].user == old(conns[c].user) && Matches(outcome, conns[c].phase)
      ensures Undisturbed(others, fails) ==>
                outcome == TurnedAway && Moved(old(State()), State(), old(conns[c].user), -1, 0) && old(users).Keys <= users.Keys
    {
      var raised;
      raised, trace := Suspend(c, others, fails, k);
      if raised {
        return Raised, trace;
      }
      ghost var waited := State();
      var left := AddUser(conns[c].user, -1);
      Mark(c, conns[c].user, Refused);
      RanStep(Exec, old(State()), waited, State(), trace, Step(c), Others(c), Own(c, fails));
      trace, outcome := trace + [Step(c)], TurnedAway;
    }

    /** The limiter's release: the user counter only if its key exists, the total always. */
    method Release(c: nat, others: Schedule, fails: Faults, k: nat) returns (ghost trace: seq<Action>)
      requires c in conns && conns[c].phase == Probing
      requires forall i: nat :: AllForeign(others(i), c)
      modifies this
      ensures Ran(Exec, old(State()), State(), trace, Others(c), Own(c, fails))
      ensures c in conns && (conns[c].phase.Closed? || (conns[c].phase.Lost? && Faulty(fails)))
      ensures Undisturbed(others, fails) && old(conns[c].user) in old(users) ==>
                Moved(old(State()), State(), old(conns[c].user), -1, -1) && conns[c].phase == Closed(false)
      ensures conns[c].user == old(conns[c].user)
    {
      var raised;
      raised, trace := Suspend(c, others, fails, k);
      if raised {
        return trace;
      }
      ghost var waited := State();
      var present := conns[c].user in users;
      Mark(c, conns[c].user, if present then ReleasingUser else ReleasingTotal(true));
      ghost var probed := State();
      RanStep(Exec, old(State()), waited, probed, trace, Step(c), Others(c), Own(c, fails));
      ghost var more;
      if present {
        more := ReleaseUser(c, others, fails, k + 1);
      } else {
        more := ReleaseTotal(c, others, fails, k + 1);
      }
      RanOn(Exec, old(State()), probed, State(), trace + [Step(c)], more, Others(c), Own(c, fails), Own(c, fails));
      trace := trace + [Step(c)] + more;
    }

    method ReleaseUser(c: nat, others: Schedule, fails: Faults, k: nat) returns (ghost trace: seq<Action>)
      requires c in conns && conns[c].phase == ReleasingUser
      requires forall i: nat :: AllForeign(others(i), c)
      modifies this
      ensures Ran(Exec, old(State()), State(), trace, Others(c), Own(c, fails))
      ensures c in conns && (conns[c].phase.Closed? || (conns[c].phase.Lost? && Faulty(fails)))
      ensures Undisturbed(others, fails) ==> Moved(old(State()), State(), old(conns[c].user), -1, -1) && conns[c].phase == Closed(false)
      ensures conns[c].user == old(conns[c].user)
    {
      var raised;
      raised, trace := Suspend(c, others, fails, k);
      if raised {
        return trace;
      }
      ghost var waited := State();
      var left := AddUser(conns[c].user, -1);
      Mark(c, conns[c].user, ReleasingTotal(false));
      ghost var released := State();
      RanStep(Exec, old(State()), waited, released, trace, Step(c), Others(c), Own(c, fails));
      ghost var more := ReleaseTotal(c, others, fails, k + 1);
      RanOn(Exec, old(State()), released, State(), trace + [Step(c)], more, Others(c), Own(c, fails), Own(c, fails));
      trace := trace + [Step(c)] + more;
    }

    method ReleaseTotal(c: nat, others: Schedule, fails: Faults, k: nat) returns (ghost trace: seq<Action>)
      requires c in conns && conns[c].phase.ReleasingTotal?
      requires forall i: nat :: AllForeign(others(i), c)
      modifies this
      ensures Ran(Exec, old(State()), State(), trace, Others(c), Own(c, fails))
      ensures c in conns && (conns[c].phase.Closed? || (conns[c].phase.Lost? && Faulty(fails)))
      ensures Undisturbed(others, fails) ==>
                Moved(old(State()), State(), old(conns[c].user), 0, -1) && conns[c].phase == Closed(old(conns[c].phase.user))
      ensures conns[c].user == old(conns[c].user)
    {
      var raised;
      raised, trace := Suspend(c, others, fails, k);
      if raised {
        return trace;
      }
      ghost var waited := State();
      total := total - 1;
      Mark(c, conns[c].user, Closed(conns[c].phase.user));
      RanStep(Exec, old(State()), waited, State(), trace, Step(c), Others(c), Own(c, fails));
      trace := trace + [Step(c)];
    }

    /** GET /ws/live, and /sse/live alike: the reservation is taken before the handshake; a handshake that raises is
        not yet guarded by the block that releases. */
    method Live(c: nat, user: nat, others: Schedule, fails: Faults) returns (outcome: Outcome, ghost trace: seq<Action>)
      requires c !in conns
      requires forall i: nat :: AllForeign(others(i), c)
      modifies this
      ensures Ran(Exec, old(State()), State(), trace, Others(c), Own(c, fails) + {Arrive(c, user), Close(c)})
      ensures c in conns
      ensures match outcome
              case Granted => conns[c].phase.Closed? || (conns[c].phase.Lost? && Faulty(fails))
              case TurnedAway => conns[c].phase == Refused
              case Raised => conns[c].phase.Lost?
      ensures conns[c].user == user
      ensures Undisturbed(others, fails) ==>
                && Moved(old(State()), State(), user, 0, 0) && outcome != Raised
                && (outcome == Granted <==> old(State().Count(user)) < userCap && old(total) < totalCap)
                && (outcome == Granted ==> conns[c].phase == Closed(false))
    {
      outcome, trace := Admit(c, user, others, fails);
      if outcome == Granted {
        ghost var own := Own(c, fails) + {Arrive(c, user), Close(c)};
        ghost var admitted := State();
        ghost var more := Stream(c, user, others, fails, 8);
        RanOn(Exec, old(State()), admitted, State(), trace, more, Others(c), own, own);
        trace := trace + more;
        if Undisturbed(others, fails) {
          MovedOn(old(State()), admitted, State(), user, 1, 1, -1, -1);
        }
      }
    }

    /** From the arrival to the limiter's answer. */
    method Admit(c: nat, user: nat, others: Schedule, fails: Faults) returns (outcome: Outcome, ghost trace: seq<Action>)
      requires c !in conns
      requires forall i: nat :: AllForeign(others(i), c)
      modifies this
      ensures Ran(Exec, old(State()), State(), trace, Others(c), Own(c, fails) + {Arrive(c, user), Close(c)})
      ensures c in conns && conns[c].user == user && Matches(outcome, conns[c].phase)
      ensures Undisturbed(others, fails) ==>
                var n := if outcome == Granted then 1 else 0;
                && outcome != Raised && Moved(old(State()), State(), user, n, n)
                && (outcome == Granted <==> old(State().Count(user)) < userCap && old(total) < totalCap)
                && (outcome == Granted ==> user in users)
    {
      ghost var own := Own(c, fails) + {Arrive(c, user), Close(c)};
      Mark(c, user, Arriving);
      trace := [Arrive(c, user)];
      ghost var arrived := State();
      assert Ran(Exec, old(State()), arrived, trace, Others(c), own);
      ghost var more;
      outcome, more := TryAcquire(c, others, fails, 0);
      RanOn(Exec, old(State()), arrived, State(), trace, more, Others(c), own, own);
      trace := trace + more;
    }

    /** From the handshake to the release. */
    method Stream(c: nat, ghost user: nat, others: Schedule, fails: Faults, k: nat) returns (ghost trace: seq<Action>)
      requires c in conns && conns[c].phase == Open
      requires forall i: nat :: AllForeign(others(i), c)
      modifies this
      ensures Ran(Exec, old(State()), State(), trace, Others(c), Own(c, fails) + {Arrive(c, user), Close(c)})
      ensures c in conns && (conns[c].phase.Closed? || (conns[c].phase.Lost? && Faulty(fails)))
      ensures Undisturbed(others, fails) && old(conns[c].user) in old(users) ==>
                Moved(old(State()), State(), old(conns[c].user), -1, -1) && conns[c].phase == Closed(false)
      ensures conns[c].user == old(conns[c].user)
    {
      ghost var own := Own(c, fails) + {Arrive(c, user), Close(c)};
      var raised;
      raised, trace := Suspend(c, others, fails, k);
      if raised {
        return trace;
      }
      ghost var waited := State();
      Mark(c, conns[c].user, Probing);
      ghost var closing := State();
      RanStep(Exec, old(State()), waited, closing, trace, Close(c), Others(c), own);
      ghost var more := Release(c, others, fails, k + 1);
      RanOn(Exec, old(State()), closing, State(), trace + [Close(c)], more, Others(c), own, own);
      trace := trace + [Close(c)] + more;
    }
  }
}
