/** The session endpoints as the code runs them, statement by statement, while other requests act at every
    await. Each call is shown to be one interleaving of the rotation protocol, so everything proved of
    every run holds of the running server. */
module SessionApi {

  import opened Interleaving
  import opened TokenRotation

  /** What may go wrong in one refresh: each lookup, the user query, the SET and the commit. */
  datatype Faults = Faults(lookup: bool, again: bool, user: Lookup, reply: Reply, commit: bool)

  predicate Raises(f: Faults) {
    !f.lookup || f.user == Raised || f.reply != Answered || !f.commit
  }

  function Others(r: nat): Action -> bool {
    (a: Action) => Foreign(a, r)
  }

  /** Nobody else acts. */
  ghost predicate Alone(others: nat -> seq<Action>) {
    forall i: nat :: others(i) == []
  }

  class Server {
    var now: nat
    var lifetime: nat
    var nextJti: nat
    var tokens: map<nat, Token>
    var blocklist: map<nat, nat>
    var requests: map<nat, Phase>
    var rows: seq<nat>
    var wins: seq<Win>

    constructor (seconds: nat)
      ensures State() == Start(seconds)
    {
      now, lifetime, nextJti := 0, seconds, 0;
      tokens, blocklist, requests, rows, wins := map[], map[], map[], [], [];
    }

    function State(): Sys
      reads this
    {
      Sys(now, lifetime, nextJti, tokens, blocklist, requests, rows, wins)
    }

    /** What the others do while this request waits. */
    method Await(others: seq<Action>)
      modifies this
      ensures State() == Play(Exec, old(State()), others)
    {
      var i := 0;
      while i < |others|
        invariant 0 <= i <= |others|
        invariant Play(Exec, State(), others[i..]) == Play(Exec, old(State()), others)
      {
        var s := Exec(State(), others[i]);
        assert others[i..][0] == others[i] && others[i..][1..] == others[i + 1..];
        now, lifetime, nextJti, tokens := s.now, s.lifetime, s.nextJti, s.tokens;
        blocklist, requests, rows, wins := s.blocklist, s.requests, s.rows, s.wins;
        i := i + 1;
      }
    }

    /** EXISTS on the blocklist key. */
    method IsBlocklisted(jti: nat, ok: bool) returns (raised: bool, listed: bool)
      ensures raised == !ok && (ok ==> listed == State().Listed(jti))
    {
      raised, listed := !ok, false;
      if ok && jti in blocklist {
        listed := now < blocklist[jti];
      }
    }

    /** SET with EX, and with NX when only an absent key may be written. */
    method BlocklistToken(t: Token, lag: nat, onlyIfAbsent: bool, reply: Reply) returns (raised: bool, written: bool)
      modifies this`blocklist
      ensures raised <==> reply != Answered
      ensures written == (reply != Unsent && !(onlyIfAbsent && old(State().Listed(t.jti))))
      ensures State() == if written then old(State()).Block(t, lag) else old(State())
    {
      var computed := if lag <= now then now - lag else 0;
      var left := t.exp * SECOND - computed;
      var seconds := if left < 0 then 0 else left / SECOND;
      if seconds < 1 {
        seconds := 1;
      }
      var held := t.jti in blocklist && now < blocklist[t.jti];
      written := reply != Unsent && !(onlyIfAbsent && held);
      if written {
        blocklist := blocklist[t.jti := now + seconds * SECOND];
      }
      raised := reply != Answered;
    }

    method Mark(r: nat, p: Phase)
      modifies this`requests
      ensures State() == old(State()).Goto(r, p)
    {
      requests := requests[r := p];
    }

    /** Waiting: only the others act. */
    method Wait(others: seq<Action>, r: nat) returns (ghost trace: seq<Action>)
      requires AllForeign(others, r)
      modifies this
      ensures Ran(Exec, old(State()), State(), trace, Others(r), {})
      ensures r in old(requests) ==> r in requests && requests[r] == old(requests[r])
      ensures others == [] ==> State() == old(State())
    {
      ForeignKeeps(State(), others, r);
      trace := others;
      Await(others);
    }

    /** The ledger row and its commit; a failure of either loses the row and answers with an error. */
    method RecordReuse(r: nat, others: nat -> seq<Action>, f: Faults) returns (ghost trace: seq<Action>)
      requires r in requests && requests[r].Reporting?
      requires forall i: nat :: AllForeign(others(i), r)
      modifies this
      ensures Ran(Exec, old(State()), State(), trace, Others(r), {Report(r, f.commit)})
      ensures r in requests && requests[r] == if f.commit then Denied(ReuseRecorded) else Crashed
      ensures Alone(others) ==> rows == old(rows) + if f.commit then [r] else []
    {
      trace := Wait(others(0), r);
      ghost var waited := State();
      if f.commit {
        rows := rows + [r];
        Mark(r, Denied(ReuseRecorded));
      } else {
        Mark(r, Crashed);
      }
      RanStep(Exec, old(State()), waited, State(), trace, Report(r, f.commit), Others(r), {});
      trace := trace + [Report(r, f.commit)];
    }

    /** The handler of a revoked token: a second decode and a second lookup tell a replay from a token that
        merely ran out, and only a replay is recorded. An exception of the second lookup is swallowed. */
    method RejectRevoked(r: nat, others: nat -> seq<Action>, f: Faults) returns (ghost trace: seq<Action>)
      requires r in requests && requests[r].Redecoding?
      requires forall i: nat :: AllForeign(others(i), r)
      modifies this
      ensures Ran(Exec, old(State()), State(), trace, Others(r), {Redecode(r), Reprobe(r, f.again), Report(r, f.commit)})
      ensures r in requests && (requests[r].Denied? || (requests[r].Crashed? && Raises(f)))
      ensures Alone(others) && old(now) < old(requests[r]).token.exp * SECOND && old(State().Listed(requests[r].token.jti)) ==>
                && requests[r] == (if !f.again then Denied(Unrecorded(old(requests[r]).token, old(now), LookupRaised))
                                   else if f.commit then Denied(ReuseRecorded) else Crashed)
                && rows == old(rows) + if f.again && f.commit then [r] else []
    {
      var t := requests[r].token;
      var alive := now < t.exp * SECOND;
      Mark(r, if alive then Reprobing(t) else Denied(Unrecorded(t, now, Expired)));
      trace := [Redecode(r)];
      assert Ran(Exec, old(State()), State(), trace, Others(r), {Redecode(r)});
      if alive {
        ghost var decoded := State();
        ghost var more := LookAgain(r, others, f);
        RanOn(Exec, old(State()), decoded, State(), trace, more, Others(r), {Redecode(r)}, {Reprobe(r, f.again), Report(r, f.commit)});
        trace := trace + more;
      }
    }

    method LookAgain(r: nat, others: nat -> seq<Action>, f: Faults) returns (ghost trace: seq<Action>)
      requires r in requests && requests[r].Reprobing?
      requires forall i: nat :: AllForeign(others(i), r)
      modifies this
      ensures Ran(Exec, old(State()), State(), trace, Others(r), {Reprobe(r, f.again), Report(r, f.commit)})
      ensures r in requests && (requests[r].Denied? || (requests[r].Crashed? && Raises(f)))
      ensures Alone(others) && old(State().Listed(requests[r].token.jti)) ==>
                && requests[r] == (if !f.again then Denied(Unrecorded(old(requests[r]).token, old(now), LookupRaised))
                                   else if f.commit then Denied(ReuseRecorded) else Crashed)
                && rows == old(rows) + if f.again && f.commit then [r] else []
    {
      var t := requests[r].token;
      trace := Wait(others(0), r);
      ghost var waited := State();
      var raised, listed := IsBlocklisted(t.jti, f.again);
      if raised {
        Mark(r, Denied(Unrecorded(t, now, LookupRaised)));
      } else if listed {
        Mark(r, Reporting(t));
      } else {
        Mark(r, Denied(Unrecorded(t, now, Lapsed)));
      }
      ghost var looked := State();
      RanStep(Exec, old(State()), waited, looked, trace, Reprobe(r, f.again), Others(r), {});
      trace := trace + [Reprobe(r, f.again)];
      if !raised && listed {
        ghost var more := RecordReuse(r, (i: nat) => others(i + 1), f);
        RanOn(Exec, old(State()), looked, State(), trace, more, Others(r), {Reprobe(r, f.again)}, {Report(r, f.commit)});
        trace := trace + more;
      }
    }

    /** The token was exchanged: it is on the blocklist now, and its successor is a refresh token of the same login that
        lives for the full lifetime from now. */
    ghost predicate Succeeded(r: nat, t: Token)
      reads this
    {
      && r in requests && requests[r].Rotated? && t.jti in blocklist && now < blocklist[t.jti]
      && var id := requests[r].successor;
         id in tokens && tokens[id] == Token(id, Refresh, now / SECOND + lifetime, t.family)
    }

    /** The answer to a refresh with a token that decodes, from state `s`, when nobody else acts: a token on the blocklist
        is a replay, recorded unless the second lookup or the commit raises; any other is exchanged exactly if its user
        is found and nothing raises. */
    ghost predicate AnsweredAlone(s: Sys, r: nat, t: Token, f: Faults)
      reads this
    {
      r in requests &&
      var p, listed := requests[r], t.jti in s.blocklist && s.now < s.blocklist[t.jti];
      && (!f.lookup ==> p == Crashed && rows == s.rows)
      && (f.lookup && listed ==>
            && p == (if !f.again then Denied(Unrecorded(t, s.now, LookupRaised))
                     else if f.commit then Denied(ReuseRecorded) else Crashed)
            && rows == s.rows + if f.again && f.commit then [r] else [])
      && (f.lookup && !listed ==>
            && (p.Rotated? <==> f.user == Found && f.reply == Answered) && rows == s.rows
            && (f.user == Absent ==> p == Denied(NoUser)) && (!p.Rotated? && f.user != Absent ==> p == Crashed))
    }

    /** POST /refresh. The token is decoded and looked up, its user resolved, the jti blocklisted unless it
        already is, and only then the new pair is minted. */
    method RefreshSession(r: nat, jti: nat, others: nat -> seq<Action>, f: Faults, lag: nat)
      returns (granted: bool, ghost trace: seq<Action>)
      requires r !in requests
      requires forall i: nat :: AllForeign(others(i), r)
      modifies this
      ensures Ran(Exec, old(State()), State(), trace, Others(r),
                  {PresentRefresh(r, jti), Probe(r, f.lookup), Redecode(r), Reprobe(r, f.again),
                   Resolve(r, f.user), SetNx(r, lag, f.reply), Mint(r), Report(r, f.commit)})
      ensures r in requests && (granted <==> requests[r].Rotated?)
      ensures requests[r].Rotated? || requests[r].Denied? || (requests[r].Crashed? && Raises(f))
      ensures granted ==>
                && jti in old(tokens) && old(now) < old(tokens[jti]).exp * SECOND && old(tokens[jti]).kind == Refresh
                && f.lookup && f.user == Found && f.reply == Answered && Succeeded(r, old(tokens[jti]))
      ensures Alone(others) ==>
                if jti in old(tokens) && old(now) < old(tokens[jti]).exp * SECOND && old(tokens[jti]).kind == Refresh then
                  AnsweredAlone(old(State()), r, old(tokens[jti]), f)
                else
                  requests[r] == Denied(NotAccepted) && rows == old(rows)
    {
      granted, trace := false, [PresentRefresh(r, jti)];
      if jti !in tokens || now >= tokens[jti].exp * SECOND || tokens[jti].kind != Refresh {
        Mark(r, Denied(NotAccepted));
        return;
      }
      Mark(r, Probing(tokens[jti]));
      assert Ran(Exec, old(State()), State(), trace, Others(r), {PresentRefresh(r, jti)});
      ghost var presented := State();
      ghost var more;
      granted, more := Validate(r, others, f, lag);
      RanOn(Exec, old(State()), presented, State(), trace, more, Others(r), {PresentRefresh(r, jti)},
            {Probe(r, f.lookup), Redecode(r), Reprobe(r, f.again),
             Resolve(r, f.user), SetNx(r, lag, f.reply), Mint(r), Report(r, f.commit)});
      trace := trace + more;
    }

    /** The lookup of validate_token decides between the rotation and the handler of revoked tokens. */
    method Validate(r: nat, others: nat -> seq<Action>, f: Faults, lag: nat)
      returns (granted: bool, ghost trace: seq<Action>)
      requires r in requests && requests[r].Probing?
      requires forall i: nat :: AllForeign(others(i), r)
      modifies this
      ensures Ran(Exec, old(State()), State(), trace, Others(r),
                  {Probe(r, f.lookup), Redecode(r), Reprobe(r, f.again),
                   Resolve(r, f.user), SetNx(r, lag, f.reply), Mint(r), Report(r, f.commit)})
      ensures r in requests && (granted <==> requests[r].Rotated?)
      ensures requests[r].Rotated? || requests[r].Denied? || (requests[r].Crashed? && Raises(f))
      ensures granted ==> Succeeded(r, old(requests[r]).token) && f.lookup && f.user == Found && f.reply == Answered
      ensures Alone(others) && old(now) < old(requests[r]).token.exp * SECOND ==> AnsweredAlone(old(State()), r, old(requests[r]).token, f)
    {
      granted := false;
      var t := requests[r].token;
      trace := Wait(others(0), r);
      ghost var waited := State();
      var raised, revoked := IsBlocklisted(t.jti, f.lookup);
      Mark(r, if raised then Crashed else if revoked then Redecoding(t) else Resolving(t));
      ghost var probed := State();
      RanStep(Exec, old(State()), waited, probed, trace, Probe(r, f.lookup), Others(r), {});
      trace := trace + [Probe(r, f.lookup)];
      if raised {
        return;
      }
      ghost var more;
      if revoked {
        more := RejectRevoked(r, (i: nat) => others(i + 1), f);
        RanOn(Exec, old(State()), probed, State(), trace, more, Others(r), {Probe(r, f.lookup)},
              {Redecode(r), Reprobe(r, f.again), Report(r, f.commit)});
      } else {
        granted, more := Rotate(r, (i: nat) => others(i + 1), f, lag);
        RanOn(Exec, old(State()), probed, State(), trace, more, Others(r), {Probe(r, f.lookup)},
              {Resolve(r, f.user), SetNx(r, lag, f.reply), Mint(r), Report(r, f.commit)});
      }
      trace := trace + more;
    }

    /** From a validated token on: resolve the user, then whoever wins the SET NX mints. */
    method Rotate(r: nat, others: nat -> seq<Action>, f: Faults, lag: nat)
      returns (granted: bool, ghost trace: seq<Action>)
      requires r in requests && requests[r].Resolving?
      requires forall i: nat :: AllForeign(others(i), r)
      modifies this
      ensures Ran(Exec, old(State()), State(), trace, Others(r), {Resolve(r, f.user), SetNx(r, lag, f.reply), Mint(r), Report(r, f.commit)})
      ensures r in requests && (granted <==> requests[r].Rotated?)
      ensures requests[r].Rotated? || requests[r].Denied? || (requests[r].Crashed? && Raises(f))
      ensures granted ==> Succeeded(r, old(requests[r]).token) && f.user == Found && f.reply == Answered
      ensures Alone(others) && !old(State().Listed(requests[r].token.jti)) ==>
                && (requests[r].Rotated? <==> f.user == Found && f.reply == Answered) && rows == old(rows)
                && (f.user == Absent ==> requests[r] == Denied(NoUser))
                && (f.user != Absent && !requests[r].Rotated? ==> requests[r] == Crashed)
    {
      var t := requests[r].token;
      granted := false;
      trace := Wait(others(0), r);
      ghost var waited := State();
      Mark(r, match f.user case Found => Rotating(t) case Absent => Denied(NoUser) case Raised => Crashed);
      ghost var resolved := State();
      RanStep(Exec, old(State()), waited, resolved, trace, Resolve(r, f.user), Others(r), {});
      trace := trace + [Resolve(r, f.user)];
      if f.user == Found {
        ghost var more;
        granted, more := Decide(r, (i: nat) => others(i + 1), f, lag);
        RanOn(Exec, old(State()), resolved, State(), trace, more, Others(r), {Resolve(r, f.user)},
              {SetNx(r, lag, f.reply), Mint(r), Report(r, f.commit)});
        trace := trace + more;
      }
    }

    /** Whoever wins mints the new pair, and whoever loses records a replay. */
    method Decide(r: nat, others: nat -> seq<Action>, f: Faults, lag: nat) returns (granted: bool, ghost trace: seq<Action>)
      requires r in requests && requests[r].Rotating?
      requires forall i: nat :: AllForeign(others(i), r)
      modifies this
      ensures Ran(Exec, old(State()), State(), trace, Others(r), {SetNx(r, lag, f.reply), Mint(r), Report(r, f.commit)})
      ensures r in requests && (granted <==> requests[r].Rotated?)
      ensures requests[r].Rotated? || requests[r].Denied? || (requests[r].Crashed? && Raises(f))
      ensures granted ==> Succeeded(r, old(requests[r]).token) && f.reply == Answered
      ensures Alone(others) && !old(State().Listed(requests[r].token.jti)) ==> 
                requests[r].Rotated? == (f.reply == Answered) && (!requests[r].Rotated? ==> requests[r] == Crashed) && rows == old(rows)
    {
      trace := Race(r, others(0), f.reply, lag);
      ghost var decided := State();
      granted := requests[r].Minting?;
      if granted {
        MintPair(r, requests[r].token.family);
        RanStep(Exec, old(State()), decided, State(), trace, Mint(r), Others(r), {SetNx(r, lag, f.reply)});
        trace := trace + [Mint(r)];
      } else if requests[r].Reporting? {
        ghost var more := RecordReuse(r, (i: nat) => others(i + 1), f);
        RanOn(Exec, old(State()), decided, State(), trace, more, Others(r), {SetNx(r, lag, f.reply)}, {Report(r, f.commit)});
        trace := trace + more;
      }
    }

    /** The SET NX lets one request through; when it raises, nobody knows. */
    method Race(r: nat, others: seq<Action>, reply: Reply, lag: nat) returns (ghost trace: seq<Action>)
      requires r in requests && requests[r].Rotating? && AllForeign(others, r)
      modifies this
      ensures Ran(Exec, old(State()), State(), trace, Others(r), {SetNx(r, lag, reply)})
      ensures r in requests && if reply != Answered then requests[r] == Crashed
                               else requests[r] == Minting(old(requests[r]).token) || requests[r] == Reporting(old(requests[r]).token)
      ensures requests[r].Minting? ==> State().Listed(old(requests[r]).token.jti)
      ensures others == [] && !old(State().Listed(requests[r].token.jti)) ==> rows == old(rows) && !requests[r].Reporting?
    {
      var t := requests[r].token;
      trace := Wait(others, r);
      ghost var waited := State();
      var known := t.jti in blocklist;
      var raised, written := BlocklistToken(t, lag, true, reply);
      if raised {
        Mark(r, Crashed);
      } else if written {
        wins := wins + [Win(t, now, known)];
        Mark(r, Minting(t));
      } else {
        Mark(r, Reporting(t));
      }
      RanStep(Exec, old(State()), waited, State(), trace, SetNx(r, lag, reply), Others(r), {});
      trace := trace + [SetNx(r, lag, reply)];
    }

    /** The new refresh token takes a fresh jti and stays in the family of the old one. */
    method MintPair(r: nat, family: nat)
      modifies this
      ensures State() == old(State()).Goto(r, Rotated(old(nextJti))).Issue(Refresh, family)
    {
      tokens := tokens[nextJti := Token(nextJti, Refresh, now / SECOND + lifetime, family)];
      Mark(r, Rotated(nextJti));
      nextJti := nextJti + 1;
    }

    /** One of the two revocations of POST /logout: a token that is malformed, expired, of the wrong type or
        revoked already is passed over. */
    method RevokeTokenIfValid(r: nat, jti: nat, expected: Kind, others: nat -> seq<Action>, ok: bool, reply: Reply, lag: nat)
      returns (ghost trace: seq<Action>)
      requires r !in requests
      requires forall i: nat :: AllForeign(others(i), r)
      modifies this
      ensures Ran(Exec, old(State()), State(), trace, Others(r),
                  {PresentLogout(r, jti, expected), LogoutProbe(r, ok), LogoutWrite(r, lag, reply)})
      ensures r in requests && (requests[r] == LoggedOut || (requests[r] == Crashed && !(ok && reply == Answered)))
      ensures (jti in old(tokens) && old(now) < old(tokens[jti]).exp * SECOND && old(tokens[jti]).kind == expected
               && requests[r] == LoggedOut) ==> State().Listed(old(tokens[jti]).jti)
    {
      trace := [PresentLogout(r, jti, expected)];
      if jti !in tokens || now >= tokens[jti].exp * SECOND || tokens[jti].kind != expected {
        Mark(r, LoggedOut);
        return;
      }
      Mark(r, LogoutProbing(tokens[jti]));
      assert Ran(Exec, old(State()), State(), trace, Others(r), {PresentLogout(r, jti, expected)});
      ghost var presented := State();
      ghost var more := RevokeUnlessListed(r, others, ok, reply, lag);
      RanOn(Exec, old(State()), presented, State(), trace, more, Others(r), {PresentLogout(r, jti, expected)},
            {LogoutProbe(r, ok), LogoutWrite(r, lag, reply)});
      trace := trace + more;
    }

    method RevokeUnlessListed(r: nat, others: nat -> seq<Action>, ok: bool, reply: Reply, lag: nat) returns (ghost trace: seq<Action>)
      requires r in requests && requests[r].LogoutProbing?
      requires forall i: nat :: AllForeign(others(i), r)
      modifies this
      ensures Ran(Exec, old(State()), State(), trace, Others(r), {LogoutProbe(r, ok), LogoutWrite(r, lag, reply)})
      ensures r in requests && (requests[r] == LoggedOut ==> State().Listed(old(requests[r]).token.jti))
      ensures r in requests && (requests[r] == LoggedOut || (requests[r] == Crashed && !(ok && reply == Answered)))
    {
      var t := requests[r].token;
      trace := Wait(others(0), r);
      ghost var waited := State();
      var raised, listed := IsBlocklisted(t.jti, ok);
      Mark(r, if raised then Crashed else if listed then LoggedOut else LogoutWriting(t));
      ghost var probed := State();
      RanStep(Exec, old(State()), waited, probed, trace, LogoutProbe(r, ok), Others(r), {});
      trace := trace + [LogoutProbe(r, ok)];
      if !raised && !listed {
        ghost var more := Revoke(r, others(1), reply, lag);
        RanOn(Exec, old(State()), probed, State(), trace, more, Others(r), {LogoutProbe(r, ok)}, {LogoutWrite(r, lag, reply)});
        trace := trace + more;
      }
    }

    method Revoke(r: nat, others: seq<Action>, reply: Reply, lag: nat) returns (ghost trace: seq<Action>)
      requires r in requests && requests[r].LogoutWriting? && AllForeign(others, r)
      modifies this
      ensures Ran(Exec, old(State()), State(), trace, Others(r), {LogoutWrite(r, lag, reply)})
      ensures reply != Unsent ==> State().Listed(old(requests[r]).token.jti)
      ensures r in requests && requests[r] == if reply == Answered then LoggedOut else Crashed
    {
      var t := requests[r].token;
      trace := Wait(others, r);
      ghost var waited := State();
      var raised, written := BlocklistToken(t, lag, false, reply);
      Mark(r, if raised then Crashed else LoggedOut);
      RanStep(Exec, old(State()), waited, State(), trace, LogoutWrite(r, lag, reply), Others(r), {});
      trace := trace + [LogoutWrite(r, lag, reply)];
    }
  }
}
