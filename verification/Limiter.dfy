/** The realtime connection limiter: connections of any number of users, in any number of processes, interleave
    on two Redis counters, one command at a time. No counter key expires. */
module Limiter {

  /** Where a connection stands. `INCR`, check and `DECR` are separate steps. */
  datatype Phase =
    | Arriving                             // next INCR of the user counter
    | OverUser                             // found over the user cap; next DECR of the user counter
    | Stamping                             // next EXPIRE of the user key
    | Entering                             // next INCR of the total
    | OverTotal                            // found over the global cap; next DECR of the total
    | BackingOut                           // next DECR of the user counter
    | Confirming                           // next EXPIRE of the total
    | Open                                 // granted
    | Probing                              // closing; next EXISTS of the user key
    | ReleasingUser                        // next DECR of the user counter
    | ReleasingTotal(user: bool)           // next DECR of the total; `user`: the user counter is still held
    | Refused
    | Closed(user: bool)
    | Lost(user: bool, total: bool, passedUser: bool, passedTotal: bool) // gave up with these reservations unreleased

  datatype Conn = Conn(user: nat, phase: Phase)

  datatype Sys = Sys(userCap: nat, totalCap: nat, users: map<nat, int>, total: int, conns: map<nat, Conn>) {
    function Count(user: nat): int {
      if user in users then users[user] else 0
    }

    function Add(user: nat, n: int): Sys {
      this.(users := users[user := Count(user) + n])
    }

    function Goto(c: nat, x: Conn): Sys {
      this.(conns := conns[c := x])
    }
  }

  datatype Action =
    | Arrive(c: nat, user: nat)
    | Step(c: nat)
    | Close(c: nat)
    | Fail(c: nat)

  /** The user counter includes this connection. */
  predicate HoldsUser(p: Phase) {
    match p
    case Arriving => false
    case Refused => false
    case Closed(user) => user
    case ReleasingTotal(user) => user
    case Lost(user, _, _, _) => user
    case _ => true
  }

  predicate HoldsTotal(p: Phase) {
    match p
    case OverTotal => true
    case Confirming => true
    case Open => true
    case Probing => true
    case ReleasingUser => true
    case ReleasingTotal(_) => true
    case Lost(_, total, _, _) => total
    case _ => false
  }

  /** Holds a user reservation that was found within the cap. */
  predicate PassedUser(p: Phase) {
    HoldsUser(p) && p != OverUser && (p.Lost? ==> p.passedUser)
  }

  predicate PassedTotal(p: Phase) {
    HoldsTotal(p) && p != OverTotal && (p.Lost? ==> p.passedTotal)
  }

  /** One Redis command of connection `c`, with the check on its reply. */
  function Advance(s: Sys, c: nat): Sys
    requires c in s.conns
  {
    var user, p := s.conns[c].user, s.conns[c].phase;
    match p
    case Arriving =>
      var s1 := s.Add(user, 1);
      s1.Goto(c, Conn(user, if s1.Count(user) > s.userCap then OverUser else Stamping))
    case OverUser => s.Add(user, -1).Goto(c, Conn(user, Refused))
    case Stamping => s.Goto(c, Conn(user, Entering))
    case Entering =>
      s.(total := s.total + 1).Goto(c, Conn(user, if s.total + 1 > s.totalCap then OverTotal else Confirming))
    case OverTotal => s.(total := s.total - 1).Goto(c, Conn(user, BackingOut))
    case BackingOut => s.Add(user, -1).Goto(c, Conn(user, Refused))
    case Confirming => s.Goto(c, Conn(user, Open))
    case Probing => s.Goto(c, Conn(user, if user in s.users then ReleasingUser else ReleasingTotal(true)))
    case ReleasingUser => s.Add(user, -1).Goto(c, Conn(user, ReleasingTotal(false)))
    case ReleasingTotal(held) => s.(total := s.total - 1).Goto(c, Conn(user, Closed(held)))
    case _ => s
  }

  /** A failed command, a crash, or a connection that is torn down before its handler guards it: whatever the
      connection holds stays reserved. */
  function Abandon(p: Phase): Phase {
    match p
    case Refused => p
    case Closed(_) => p
    case Lost(_, _, _, _) => p
    case _ => Lost(HoldsUser(p), HoldsTotal(p), PassedUser(p), PassedTotal(p))
  }

  function Exec(s: Sys, a: Action): Sys {
    match a
    case Arrive(c, user) => if c in s.conns then s else s.Goto(c, Conn(user, Arriving))
    case Step(c) => if c in s.conns then Advance(s, c) else s
    case Close(c) =>
      if c in s.conns && s.conns[c].phase == Open then s.Goto(c, s.conns[c].(phase := Probing)) else s
    case Fail(c) => if c in s.conns then s.Goto(c, s.conns[c].(phase := Abandon(s.conns[c].phase))) else s
  }

  function ExecAll(userCap: nat, totalCap: nat, actions: seq<Action>): Sys {
    if actions == [] then Sys(userCap, totalCap, map[], 0, map[])
    else Exec(ExecAll(userCap, totalCap, actions[..|actions| - 1]), actions[|actions| - 1])
  }

  // ---------------------------------------------------------------- counting connections

  function Those(conns: map<nat, Conn>, p: Conn -> bool): set<nat> {
    set c | c in conns && p(conns[c])
  }

  function One(b: bool): int {
    if b then 1 else 0
  }

  lemma Drop(s: set<nat>, c: nat)
    ensures |s| == |s - {c}| + One(c in s)
  {
    if c !in s {
      assert s - {c} == s;
    }
  }

  /** Changing one connection changes a count by at most one. */
  lemma Recount(conns: map<nat, Conn>, c: nat, x: Conn, p: Conn -> bool)
    ensures |Those(conns[c := x], p)| == |Those(conns, p)| + One(p(x)) - One(c in conns && p(conns[c]))
  {
    var before, after := Those(conns, p), Those(conns[c := x], p);
    forall d: nat ensures d in before - {c} <==> d in after - {c} {
      assert d != c ==> (d in before <==> d in after);
    }
    assert before - {c} == after - {c};
    Drop(before, c);
    Drop(after, c);
  }

  lemma {:induction false} CountBelow(conns: map<nat, Conn>, p: Conn -> bool, q: Conn -> bool)
    requires forall c :: c in conns && p(conns[c]) ==> q(conns[c])
    ensures |Those(conns, p)| <= |Those(conns, q)|
  {
    assert Those(conns, q) == Those(conns, p) + (Those(conns, q) - Those(conns, p));
  }

  function UserHeld(user: nat): Conn -> bool {
    (x: Conn) => x.user == user && HoldsUser(x.phase)
  }

  function TotalHeld(): Conn -> bool {
    (x: Conn) => HoldsTotal(x.phase)
  }

  function UserPassed(user: nat): Conn -> bool {
    (x: Conn) => x.user == user && PassedUser(x.phase)
  }

  function TotalPassed(): Conn -> bool {
    (x: Conn) => PassedTotal(x.phase)
  }

  // ---------------------------------------------------------------- invariant of every run

  ghost predicate UserOk(s: Sys, user: nat) {
    && s.Count(user) == |Those(s.conns, UserHeld(user))|
    && |Those(s.conns, UserPassed(user))| <= s.userCap
  }

  ghost predicate TotalOk(s: Sys) {
    && s.total == |Those(s.conns, TotalHeld())|
    && |Those(s.conns, TotalPassed())| <= s.totalCap
  }

  /** A connection that holds a reservation has its key in the store: nothing expires. */
  ghost predicate KeyOk(s: Sys, c: nat) {
    c in s.conns && HoldsUser(s.conns[c].phase) ==> s.conns[c].user in s.users
  }

  ghost predicate Inv(s: Sys) {
    && (forall user: nat :: UserOk(s, user))
    && TotalOk(s)
    && (forall c: nat :: KeyOk(s, c))
  }

  /** A step moves one connection to `x` and changes the counters by exactly what its holdings changed. Where it
      takes a place within a cap, the counter it saw was within that cap. */
  lemma MovePreservesInv(s: Sys, s': Sys, c: nat, x: Conn)
    requires Inv(s) && s'.conns == s.conns[c := x] && s'.userCap == s.userCap && s'.totalCap == s.totalCap
    requires c in s.conns ==> x.user == s.conns[c].user
    requires forall user: nat :: s'.Count(user) == s.Count(user) +
               if user == x.user then One(HoldsUser(x.phase)) - One(c in s.conns && HoldsUser(s.conns[c].phase)) else 0
    requires s'.total == s.total + One(HoldsTotal(x.phase)) - One(c in s.conns && HoldsTotal(s.conns[c].phase))
    requires PassedUser(x.phase) ==> (c in s.conns && PassedUser(s.conns[c].phase)) || s'.Count(x.user) <= s.userCap
    requires PassedTotal(x.phase) ==> (c in s.conns && PassedTotal(s.conns[c].phase)) || s'.total <= s.totalCap
    requires s.users.Keys <= s'.users.Keys && (HoldsUser(x.phase) ==> x.user in s'.users)
    ensures Inv(s')
  {
    forall user: nat ensures UserOk(s', user) {
      assert UserOk(s, user);
      Recount(s.conns, c, x, UserHeld(user));
      Recount(s.conns, c, x, UserPassed(user));
      CountBelow(s'.conns, UserPassed(user), UserHeld(user));
    }
    Recount(s.conns, c, x, TotalHeld());
    Recount(s.conns, c, x, TotalPassed());
    CountBelow(s'.conns, TotalPassed(), TotalHeld());
    forall d: nat ensures KeyOk(s', d) {
      assert KeyOk(s, d);
    }
  }

  predicate Closing(p: Phase) {
    p.Probing? || p.ReleasingUser? || p.ReleasingTotal?
  }

  predicate OnUser(p: Phase) {
    p.Arriving? || p.OverUser? || p.BackingOut?
  }

  lemma ClosingPreservesInv(s: Sys, c: nat)
    requires Inv(s) && c in s.conns && Closing(s.conns[c].phase)
    ensures Inv(Advance(s, c))
  {
    assert KeyOk(s, c);
    MovePreservesInv(s, Advance(s, c), c, Advance(s, c).conns[c]);
  }

  lemma UserCommandPreservesInv(s: Sys, c: nat)
    requires Inv(s) && c in s.conns && OnUser(s.conns[c].phase)
    ensures Inv(Advance(s, c))
  {
    MovePreservesInv(s, Advance(s, c), c, Advance(s, c).conns[c]);
  }

  lemma OtherCommandPreservesInv(s: Sys, c: nat)
    requires Inv(s) && c in s.conns && !OnUser(s.conns[c].phase) && !Closing(s.conns[c].phase)
    ensures Inv(Advance(s, c))
  {
    assert KeyOk(s, c);
    if Advance(s, c) != s {
      MovePreservesInv(s, Advance(s, c), c, Advance(s, c).conns[c]);
    }
  }

  lemma AdvancePreservesInv(s: Sys, c: nat)
    requires Inv(s) && c in s.conns
    ensures Inv(Advance(s, c))
  {
    if Closing(s.conns[c].phase) {
      ClosingPreservesInv(s, c);
    } else if OnUser(s.conns[c].phase) {
      UserCommandPreservesInv(s, c);
    } else {
      OtherCommandPreservesInv(s, c);
    }
  }

  lemma StepPreservesInv(s: Sys, a: Action)
    requires Inv(s)
    ensures Inv(Exec(s, a))
  {
    match a
    case Arrive(c, user) =>
      if c !in s.conns {
        MovePreservesInv(s, Exec(s, a), c, Conn(user, Arriving));
      }
    case Step(c) =>
      if c in s.conns {
        AdvancePreservesInv(s, c);
      }
    case Close(c) =>
      if c in s.conns && s.conns[c].phase == Open {
        assert KeyOk(s, c);
        MovePreservesInv(s, Exec(s, a), c, s.conns[c].(phase := Probing));
      }
    case Fail(c) =>
      if c in s.conns {
        assert KeyOk(s, c);
        MovePreservesInv(s, Exec(s, a), c, s.conns[c].(phase := Abandon(s.conns[c].phase)));
      }
  }

  lemma {:induction false} EveryRunKeepsInv(userCap: nat, totalCap: nat, actions: seq<Action>)
    ensures Inv(ExecAll(userCap, totalCap, actions))
  {
    if actions != [] {
      var before := actions[..|actions| - 1];
      EveryRunKeepsInv(userCap, totalCap, before);
      StepPreservesInv(ExecAll(userCap, totalCap, before), actions[|actions| - 1]);
    }
  }

  // ---------------------------------------------------------------- what every run guarantees

  function UserOpen(user: nat): Conn -> bool {
    (x: Conn) => x.user == user && x.phase == Open
  }

  function AllOpen(): Conn -> bool {
    (x: Conn) => x.phase == Open
  }

  /** Neither cap is ever exceeded, whatever the interleaving, the failures and the number of processes. */
  lemma CapsHold(userCap: nat, totalCap: nat, actions: seq<Action>, user: nat)
    ensures var s := ExecAll(userCap, totalCap, actions);
            && |Those(s.conns, UserOpen(user))| <= userCap
            && |Those(s.conns, AllOpen())| <= totalCap
  {
    var s := ExecAll(userCap, totalCap, actions);
    EveryRunKeepsInv(userCap, totalCap, actions);
    CapsStay(userCap, totalCap, actions);
    assert UserOk(s, user);
    CountBelow(s.conns, UserOpen(user), UserPassed(user));
    CountBelow(s.conns, AllOpen(), TotalPassed());
  }

  lemma {:induction false} CapsStay(userCap: nat, totalCap: nat, actions: seq<Action>)
    ensures ExecAll(userCap, totalCap, actions).userCap == userCap
    ensures ExecAll(userCap, totalCap, actions).totalCap == totalCap
  {
    if actions != [] {
      CapsStay(userCap, totalCap, actions[..|actions| - 1]);
    }
  }

  /** Each counter is the number of connections that hold a reservation in it: granted, in flight or leaked. */
  lemma CountersAreReservations(userCap: nat, totalCap: nat, actions: seq<Action>, user: nat)
    ensures var s := ExecAll(userCap, totalCap, actions);
            && s.Count(user) == |Those(s.conns, UserHeld(user))|
            && s.total == |Those(s.conns, TotalHeld())|
  {
    EveryRunKeepsInv(userCap, totalCap, actions);
    assert UserOk(ExecAll(userCap, totalCap, actions), user);
  }

  /** Every connection is done. */
  predicate Quiet(s: Sys) {
    forall c :: c in s.conns ==> s.conns[c].phase.Refused? || s.conns[c].phase.Closed? || s.conns[c].phase.Lost?
  }

  /** A connection that gave up while it held a reservation of this user, or of the total. */
  ghost predicate LeakedUser(s: Sys, user: nat) {
    exists c :: c in s.conns && s.conns[c].user == user && s.conns[c].phase.Lost? && s.conns[c].phase.user
  }

  ghost predicate LeakedTotal(s: Sys) {
    exists c :: c in s.conns && s.conns[c].phase.Lost? && s.conns[c].phase.total
  }

  /** A clean close always gives the user's reservation back: the EXISTS in front of the DECR never says no. */
  ghost predicate CleanClose(s: Sys, c: nat) {
    c in s.conns ==> s.conns[c].phase != Closed(true) && s.conns[c].phase != ReleasingTotal(true)
  }

  lemma CleanStep(s: Sys, a: Action, c: nat)
    requires CleanClose(s, c) && KeyOk(s, c)
    ensures CleanClose(Exec(s, a), c)
  {
    if a.Step? && a.c == c && c in s.conns && s.conns[c].phase == Probing {
      assert s.conns[c].user in s.users;
    }
  }

  lemma {:induction false} ReleasesAreComplete(userCap: nat, totalCap: nat, actions: seq<Action>, c: nat)
    ensures CleanClose(ExecAll(userCap, totalCap, actions), c)
  {
    if actions != [] {
      var before := actions[..|actions| - 1];
      ReleasesAreComplete(userCap, totalCap, before, c);
      EveryRunKeepsInv(userCap, totalCap, before);
      assert KeyOk(ExecAll(userCap, totalCap, before), c);
      CleanStep(ExecAll(userCap, totalCap, before), actions[|actions| - 1], c);
    }
  }

  /** Once everything is released the counters are back at zero, exactly when no connection leaked. */
  lemma BackToZeroIffNoLeak(userCap: nat, totalCap: nat, actions: seq<Action>, user: nat)
    requires Quiet(ExecAll(userCap, totalCap, actions))
    ensures var s := ExecAll(userCap, totalCap, actions);
            && (s.Count(user) == 0 <==> !LeakedUser(s, user))
            && (s.total == 0 <==> !LeakedTotal(s))
            && s.Count(user) >= 0 && s.total >= 0
  {
    var s := ExecAll(userCap, totalCap, actions);
    CountersAreReservations(userCap, totalCap, actions, user);
    var users, totals := Those(s.conns, UserHeld(user)), Those(s.conns, TotalHeld());
    if LeakedUser(s, user) {
      var c :| c in s.conns && s.conns[c].user == user && s.conns[c].phase.Lost? && s.conns[c].phase.user;
      assert c in users;
    }
    if LeakedTotal(s) {
      var c :| c in s.conns && s.conns[c].phase.Lost? && s.conns[c].phase.total;
      assert c in totals;
    }
    if |users| > 0 {
      var c :| c in users;
      ReleasesAreComplete(userCap, totalCap, actions, c);
    }
    if |totals| > 0 {
      var c :| c in totals;
    }
  }

  // ---------------------------------------------------------------- who is charged

  /** The connection is that of the user named when it first arrived. */
  ghost predicate OpenedBy(actions: seq<Action>, c: nat, user: nat) {
    exists i: nat :: i < |actions| && actions[i] == Arrive(c, user) && FirstArrival(actions, i)
  }

  ghost predicate FirstArrival(actions: seq<Action>, i: nat)
    requires i < |actions|
  {
    forall k: nat :: k < i && actions[k].Arrive? ==> actions[k].c != actions[i].c
  }

  lemma StepKeepsUser(s: Sys, a: Action, c: nat)
    ensures c in s.conns ==> c in Exec(s, a).conns && Exec(s, a).conns[c].user == s.conns[c].user
    ensures c !in s.conns ==> (c in Exec(s, a).conns <==> a.Arrive? && a.c == c)
    ensures c !in s.conns && a.Arrive? && a.c == c ==> Exec(s, a).conns[c].user == a.user
  {
  }

  /** In every run a connection stands for the user who opened it, and nobody who has not arrived has one. */
  lemma {:induction false} ChargedToTheCaller(userCap: nat, totalCap: nat, actions: seq<Action>, c: nat)
    ensures var s := ExecAll(userCap, totalCap, actions);
            && (c in s.conns ==> OpenedBy(actions, c, s.conns[c].user))
            && (c !in s.conns ==> forall i: nat :: i < |actions| && actions[i].Arrive? ==> actions[i].c != c)
  {
    if actions != [] {
      var before, a := actions[..|actions| - 1], actions[|actions| - 1];
      var s := ExecAll(userCap, totalCap, before);
      ChargedToTheCaller(userCap, totalCap, before, c);
      StepKeepsUser(s, a, c);
      if c in s.conns {
        var user := s.conns[c].user;
        var i: nat :| i < |before| && before[i] == Arrive(c, user) && FirstArrival(before, i);
        assert actions[i] == Arrive(c, user) && FirstArrival(actions, i);
      } else if c in ExecAll(userCap, totalCap, actions).conns {
        assert forall k: nat :: k < |before| ==> actions[k] == before[k];
        assert actions[|before|] == Arrive(c, a.user) && FirstArrival(actions, |before|);
      } else {
        assert forall k: nat :: k < |before| ==> actions[k] == before[k];
      }
    }
  }

  /** Who opened a connection is settled by its first arrival. */
  lemma OpenedByOne(actions: seq<Action>, c: nat, user: nat, other: nat)
    requires OpenedBy(actions, c, user) && OpenedBy(actions, c, other)
    ensures user == other
  {
    var i: nat :| i < |actions| && actions[i] == Arrive(c, user) && FirstArrival(actions, i);
    var j: nat :| j < |actions| && actions[j] == Arrive(c, other) && FirstArrival(actions, j);
  }

  /** The connections that a user opened and that hold a reservation in the user counter. */
  ghost function HeldBy(userCap: nat, totalCap: nat, actions: seq<Action>, user: nat): set<nat> {
    var s := ExecAll(userCap, totalCap, actions);
    set c | c in s.conns && OpenedBy(actions, c, user) && HoldsUser(s.conns[c].phase)
  }

  lemma HeldByIsUserHeld(userCap: nat, totalCap: nat, actions: seq<Action>, user: nat)
    ensures HeldBy(userCap, totalCap, actions, user) == Those(ExecAll(userCap, totalCap, actions).conns, UserHeld(user))
  {
    var s := ExecAll(userCap, totalCap, actions);
    forall c: nat ensures c in HeldBy(userCap, totalCap, actions, user) <==> c in Those(s.conns, UserHeld(user)) {
      if c in s.conns {
        ChargedToTheCaller(userCap, totalCap, actions, c);
        if OpenedBy(actions, c, user) {
          OpenedByOne(actions, c, user, s.conns[c].user);
        }
      }
    }
  }

  /** A connection of a user is turned away at the user counter exactly when, at its INCR, at least `userCap` other
      connections that this user opened hold a reservation, granted or not; and at the total exactly when at least
      `totalCap` connections of anybody do. */
  lemma RefusedIffFull(userCap: nat, totalCap: nat, actions: seq<Action>, c: nat, user: nat)
    requires OpenedBy(actions, c, user)
    requires var s := ExecAll(userCap, totalCap, actions);
             c in s.conns && (s.conns[c].phase.Arriving? || s.conns[c].phase.Entering?)
    ensures var s := ExecAll(userCap, totalCap, actions);
            var p, after := s.conns[c].phase, Advance(s, c).conns[c].phase;
            if p.Arriving? then
              && (after == OverUser <==> |HeldBy(userCap, totalCap, actions, user)| >= userCap)
              && c !in HeldBy(userCap, totalCap, actions, user) && (after == OverUser || after == Stamping)
            else
              (after == OverTotal <==> |Those(s.conns, TotalHeld())| >= totalCap) && (after == OverTotal || after == Confirming)
  {
    var s := ExecAll(userCap, totalCap, actions);
    ChargedToTheCaller(userCap, totalCap, actions, c);
    OpenedByOne(actions, c, user, s.conns[c].user);
    HeldByIsUserHeld(userCap, totalCap, actions, user);
    CapsStay(userCap, totalCap, actions);
    CountersAreReservations(userCap, totalCap, actions, user);
  }
}
