/** Refresh-token rotation: any number of /refresh and /logout requests interleave on the shared
    blocklist, one Redis or database command at a time. */
module TokenRotation {

  import opened Interleaving

  /** The clock counts microseconds; token expiry (`exp`, section 4.1.4 of RFC 7519) counts whole seconds. */
  const SECOND: nat := 1_000_000

  datatype Kind = Access | Refresh

  /** An issued token. `jti` (section 4.1.7 of RFC 7519) is unique; `family` is the login it descends from. */
  datatype Token = Token(jti: nat, kind: Kind, exp: nat, family: nat)

  /** A token decodes strictly before its expiry. */
  predicate Alive(t: Token, now: nat) {
    now < t.exp * SECOND
  }

  /** More than a second of life left, or exactly one. */
  predicate Early(t: Token, now: nat) {
    now + SECOND <= t.exp * SECOND
  }

  /** Seconds to live of a blocklist entry: what is left of the token, truncated to whole seconds, never
      below one. */
  function TimeToLive(exp: nat, now: nat): nat {
    if exp * SECOND <= now then 1
    else
      var ttl := (exp * SECOND - now) / SECOND;
      if ttl < 1 then 1 else ttl
  }

  /** An entry written `lag` after its time to live was computed outlives its token up to the last second;
      without any lag, it covers the whole life exactly when it was written a whole number of seconds
      before the expiry, or within the last second. */
  lemma EntryCovers(exp: nat, computed: nat, lag: nat)
    ensures computed + lag + TimeToLive(exp, computed) * SECOND + SECOND > exp * SECOND
    ensures computed + TimeToLive(exp, computed) * SECOND >= exp * SECOND <==>
            exp * SECOND < computed + SECOND || (exp * SECOND - computed) % SECOND == 0
    ensures computed + SECOND <= exp * SECOND ==> computed + TimeToLive(exp, computed) * SECOND <= exp * SECOND
    ensures computed + SECOND > exp * SECOND ==> TimeToLive(exp, computed) == 1
  {
  }

  datatype Denial =
    | NotAccepted                      // malformed, expired, or of the wrong type: not a replay
    | NoUser                           // the subject is gone or inactive
    | ReuseRecorded                    // a replay, with its ledger row
    | Unrecorded(token: Token, at: nat, why: Silence) // seen as revoked, but not so on the second look

  /** Why a second look finds no replay: the token no longer decodes, its entry has lapsed, or the lookup raised an
      exception that the handler swallows. */
  datatype Silence = Expired | Lapsed | LookupRaised

  datatype Lookup = Found | Absent | Raised

  /** A command is answered; or it is carried out but its reply is lost; or it never reaches the store. */
  datatype Reply = Answered | Lost | Unsent

  datatype Phase =
    | Probing(token: Token)      // decoded; next the blocklist lookup of validate_token
    | Redecoding(token: Token)   // found revoked; next the second decode
    | Reprobing(token: Token)    // next the second blocklist lookup
    | Reporting(token: Token)    // next the REFRESH_REUSED row and its commit
    | Resolving(token: Token)    // validated; next the user lookup
    | Rotating(token: Token)     // next the SET NX
    | Minting(token: Token)      // won; next the new pair
    | Rotated(successor: nat)
    | Denied(denial: Denial)
    | Crashed
    | LogoutProbing(token: Token)
    | LogoutWriting(token: Token)
    | LoggedOut

  /** A rotation. `again`: its jti had been blocklisted before. */
  datatype Win = Win(token: Token, at: nat, again: bool)

  /** The shared state. `blocklist` maps a jti to the instant its entry lapses; `rows` are the requests
      that committed a REFRESH_REUSED row; `wins` are the SET NX commands answered with success. */
  datatype Sys = Sys(now: nat, lifetime: nat, nextJti: nat, tokens: map<nat, Token>, blocklist: map<nat, nat>,
                     requests: map<nat, Phase>, rows: seq<nat>, wins: seq<Win>)
  {
    predicate Listed(jti: nat) {
      jti in blocklist && now < blocklist[jti]
    }

    function Goto(r: nat, p: Phase): Sys {
      this.(requests := requests[r := p])
    }

    /** The time to live was computed `lag` before the command reaches the store. */
    function Block(t: Token, lag: nat): Sys {
      var computed := if lag <= now then now - lag else 0;
      this.(blocklist := blocklist[t.jti := now + TimeToLive(t.exp, computed) * SECOND])
    }

    function Issue(kind: Kind, family: nat): Sys {
      this.(tokens := tokens[nextJti := Token(nextJti, kind, now / SECOND + lifetime, family)], nextJti := nextJti + 1)
    }
  }

  datatype Action =
    | Tick(dt: nat)
    | Login
    | IssueAccess(family: nat)
    | PresentRefresh(r: nat, jti: nat)
    | PresentLogout(r: nat, jti: nat, expected: Kind)
    | Probe(r: nat, ok: bool)
    | Redecode(r: nat)
    | Reprobe(r: nat, ok: bool)
    | Report(r: nat, ok: bool)
    | Resolve(r: nat, user: Lookup)
    | SetNx(r: nat, lag: nat, reply: Reply)
    | Mint(r: nat)
    | LogoutProbe(r: nat, ok: bool)
    | LogoutWrite(r: nat, lag: nat, reply: Reply)
    | Crash(r: nat)

  predicate In(s: Sys, r: nat, a: Action) {
    r in s.requests && var p := s.requests[r];
    match a
    case Probe(_, _) => p.Probing?
    case Redecode(_) => p.Redecoding?
    case Reprobe(_, _) => p.Reprobing?
    case Report(_, _) => p.Reporting?
    case Resolve(_, _) => p.Resolving?
    case SetNx(_, _, _) => p.Rotating?
    case Mint(_) => p.Minting?
    case LogoutProbe(_, _) => p.LogoutProbing?
    case LogoutWrite(_, _, _) => p.LogoutWriting?
    case _ => false
  }

  /** One atomic step; an action that is not enabled changes nothing. */
  function Exec(s: Sys, a: Action): Sys {
    match a
    case Tick(dt) => s.(now := s.now + dt)
    case Login => s.Issue(Refresh, s.nextJti)
    case IssueAccess(family) => s.Issue(Access, family)
    case PresentRefresh(r, jti) =>
      if r in s.requests then s
      else if jti !in s.tokens || !Alive(s.tokens[jti], s.now) || s.tokens[jti].kind != Refresh then
        s.Goto(r, Denied(NotAccepted))
      else s.Goto(r, Probing(s.tokens[jti]))
    case PresentLogout(r, jti, expected) =>
      if r in s.requests then s
      else if jti !in s.tokens || !Alive(s.tokens[jti], s.now) || s.tokens[jti].kind != expected then
        s.Goto(r, LoggedOut)
      else s.Goto(r, LogoutProbing(s.tokens[jti]))
    case Crash(r) =>
      if r !in s.requests || s.requests[r].Denied? || s.requests[r].Rotated? then s else s.Goto(r, Crashed)
    case _ =>
      if !In(s, a.r, a) then s
      else
        var r, t := a.r, s.requests[a.r].token;
        match a
        case Probe(_, ok) => s.Goto(r, if !ok then Crashed else if s.Listed(t.jti) then Redecoding(t) else Resolving(t))
        case Redecode(_) => s.Goto(r, if Alive(t, s.now) then Reprobing(t) else Denied(Unrecorded(t, s.now, Expired)))
        case Reprobe(_, ok) => s.Goto(r, LookedAgain(s, t, ok))
        case Report(_, ok) =>
          if ok then s.Goto(r, Denied(ReuseRecorded)).(rows := s.rows + [r]) else s.Goto(r, Crashed)
        case Resolve(_, user) => s.Goto(r, Resolved(t, user))
        case SetNx(_, lag, reply) =>
          if reply == Unsent then s.Goto(r, Crashed)
          else if s.Listed(t.jti) then s.Goto(r, if reply == Lost then Crashed else Reporting(t))
          else if reply == Lost then s.Block(t, lag).Goto(r, Crashed)
          else s.Block(t, lag).Goto(r, Minting(t)).(wins := s.wins + [Win(t, s.now, t.jti in s.blocklist)])
        case Mint(_) => s.Goto(r, Rotated(s.nextJti)).Issue(Refresh, t.family)
        case LogoutProbe(_, ok) =>
          s.Goto(r, if !ok then Crashed else if s.Listed(t.jti) then LoggedOut else LogoutWriting(t))
        case LogoutWrite(_, lag, reply) =>
          if reply == Unsent then s.Goto(r, Crashed)
          else s.Block(t, lag).Goto(r, if reply == Lost then Crashed else LoggedOut)
  }

  /** Where the second lookup leaves a request. */
  function LookedAgain(s: Sys, t: Token, ok: bool): Phase {
    if !ok then Denied(Unrecorded(t, s.now, LookupRaised))
    else if s.Listed(t.jti) then Reporting(t)
    else Denied(Unrecorded(t, s.now, Lapsed))
  }

  function Resolved(t: Token, user: Lookup): Phase {
    match user
    case Found => Rotating(t)
    case Absent => Denied(NoUser)
    case Raised => Crashed
  }

  function Start(lifetime: nat): Sys {
    Sys(0, lifetime, 0, map[], map[], map[], [], [])
  }

  /** Any interleaving is a sequence of actions. */
  function ExecAll(lifetime: nat, actions: seq<Action>): Sys {
    if actions == [] then Start(lifetime)
    else Exec(ExecAll(lifetime, actions[..|actions| - 1]), actions[|actions| - 1])
  }

  // ---------------------------------------------------------------- invariant of every run

  predicate Known(s: Sys, t: Token) {
    t.jti in s.tokens && s.tokens[t.jti] == t
  }

  ghost predicate TokenOk(s: Sys, j: nat) {
    j in s.tokens ==> j < s.nextJti && s.tokens[j].jti == j && (s.tokens[j].kind == Refresh ==> s.tokens[j].family < s.nextJti)
  }

  /** A blocklist entry belongs to an issued token and lasts into its last second. */
  ghost predicate EntryOk(s: Sys, j: nat) {
    j in s.blocklist ==> j in s.tokens && s.blocklist[j] + SECOND > s.tokens[j].exp * SECOND
  }

  ghost predicate PhaseOk(s: Sys, p: Phase) {
    match p
    case Probing(t) => Known(s, t) && t.kind == Refresh
    case Resolving(t) => Known(s, t) && t.kind == Refresh
    case Rotating(t) => Known(s, t) && t.kind == Refresh
    case Redecoding(t) => Known(s, t) && t.jti in s.blocklist
    case Reprobing(t) => Known(s, t) && t.jti in s.blocklist
    case Reporting(t) => Known(s, t) && t.jti in s.blocklist
    case Minting(t) => Known(s, t) && t.kind == Refresh && t.jti in s.blocklist
    case LogoutProbing(t) => Known(s, t)
    case LogoutWriting(t) => Known(s, t)
    case Denied(Unrecorded(t, at, why)) => (why == Expired ==> !Alive(t, at)) && (why == Lapsed ==> !Early(t, at))
    case _ => true
  }

  ghost predicate RequestOk(s: Sys, r: nat) {
    r in s.requests ==> PhaseOk(s, s.requests[r])
  }

  /** A request has one REFRESH_REUSED row if it was denied as a recorded replay, and none otherwise. */
  ghost predicate RowOk(s: Sys, r: nat) {
    multiset(s.rows)[r] == if r in s.requests && s.requests[r] == Denied(ReuseRecorded) then 1 else 0
  }

  ghost predicate WinOk(s: Sys, i: nat)
    requires i < |s.wins|
  {
    && Known(s, s.wins[i].token) && s.wins[i].token.jti in s.blocklist
    && (s.wins[i].again ==> !Early(s.wins[i].token, s.wins[i].at))
  }

  /** A repeated win of one jti knows that it is one. */
  ghost predicate RepeatIsAgain(s: Sys, i: nat, j: nat)
    requires i < j < |s.wins|
  {
    s.wins[i].token.jti == s.wins[j].token.jti ==> s.wins[j].again
  }

  ghost predicate Inv(s: Sys) {
    && (forall j: nat :: TokenOk(s, j))
    && (forall j: nat :: EntryOk(s, j))
    && (forall r: nat :: RequestOk(s, r))
    && (forall r: nat :: RowOk(s, r))
    && (forall i: nat :: i < |s.wins| ==> WinOk(s, i))
    && (forall i: nat, j: nat :: i < j < |s.wins| ==> RepeatIsAgain(s, i, j))
  }

  /** A step that only moves request `r`, without recording a row or winning. */
  lemma MovePreservesInv(s: Sys, r: nat, p: Phase)
    requires Inv(s) && PhaseOk(s, p) && p != Denied(ReuseRecorded)
    requires r in s.requests ==> s.requests[r] != Denied(ReuseRecorded)
    ensures Inv(s.Goto(r, p))
  {
    var s' := s.Goto(r, p);
    forall j: nat ensures TokenOk(s', j) && EntryOk(s', j) {
      assert TokenOk(s, j) && EntryOk(s, j);
    }
    forall q: nat ensures RequestOk(s', q) && RowOk(s', q) {
      assert RequestOk(s, q) && RowOk(s, q);
    }
    forall i: nat | i < |s'.wins| ensures WinOk(s', i) {
      assert WinOk(s, i);
    }
    forall i: nat, j: nat | i < j < |s'.wins| ensures RepeatIsAgain(s', i, j) {
      assert RepeatIsAgain(s, i, j);
    }
  }

  lemma BlockPreservesInv(s: Sys, t: Token, lag: nat)
    requires Inv(s) && Known(s, t)
    ensures Inv(s.Block(t, lag)) && t.jti in s.Block(t, lag).blocklist
  {
    var s' := s.Block(t, lag);
    if lag <= s.now {
      EntryCovers(t.exp, s.now - lag, lag);
    } else {
      EntryCovers(t.exp, 0, s.now);
    }
    forall j: nat ensures TokenOk(s', j) && EntryOk(s', j) {
      assert TokenOk(s, j) && EntryOk(s, j);
    }
    forall q: nat ensures RequestOk(s', q) && RowOk(s', q) {
      assert RequestOk(s, q) && RowOk(s, q);
    }
    forall i: nat | i < |s'.wins| ensures WinOk(s', i) {
      assert WinOk(s, i);
    }
    forall i: nat, j: nat | i < j < |s'.wins| ensures RepeatIsAgain(s', i, j) {
      assert RepeatIsAgain(s, i, j);
    }
  }

  lemma IssuePreservesInv(s: Sys, kind: Kind, family: nat)
    requires Inv(s) && (kind == Refresh ==> family <= s.nextJti)
    ensures Inv(s.Issue(kind, family))
  {
    var s' := s.Issue(kind, family);
    assert TokenOk(s, s.nextJti) && EntryOk(s, s.nextJti);
    forall j: nat ensures TokenOk(s', j) && EntryOk(s', j) {
      assert TokenOk(s, j) && EntryOk(s, j);
    }
    forall q: nat ensures RequestOk(s', q) && RowOk(s', q) {
      assert RequestOk(s, q) && RowOk(s, q);
    }
    forall i: nat | i < |s'.wins| ensures WinOk(s', i) {
      assert WinOk(s, i);
    }
    forall i: nat, j: nat | i < j < |s'.wins| ensures RepeatIsAgain(s', i, j) {
      assert RepeatIsAgain(s, i, j);
    }
  }

  lemma TickPreservesInv(s: Sys, dt: nat)
    requires Inv(s)
    ensures Inv(s.(now := s.now + dt))
  {
    var s' := s.(now := s.now + dt);
    forall j: nat ensures TokenOk(s', j) && EntryOk(s', j) {
      assert TokenOk(s, j) && EntryOk(s, j);
    }
    forall q: nat ensures RequestOk(s', q) && RowOk(s', q) {
      assert RequestOk(s, q) && RowOk(s, q);
    }
    forall i: nat | i < |s'.wins| ensures WinOk(s', i) {
      assert WinOk(s, i);
    }
    forall i: nat, j: nat | i < j < |s'.wins| ensures RepeatIsAgain(s', i, j) {
      assert RepeatIsAgain(s, i, j);
    }
  }

  lemma ReportPreservesInv(s: Sys, r: nat)
    requires Inv(s) && r in s.requests && s.requests[r].Reporting?
    ensures Inv(s.Goto(r, Denied(ReuseRecorded)).(rows := s.rows + [r]))
  {
    var s' := s.Goto(r, Denied(ReuseRecorded)).(rows := s.rows + [r]);
    forall j: nat ensures TokenOk(s', j) && EntryOk(s', j) {
      assert TokenOk(s, j) && EntryOk(s, j);
    }
    forall q: nat ensures RequestOk(s', q) && RowOk(s', q) {
      assert RequestOk(s, q) && RowOk(s, q);
      assert multiset(s'.rows) == multiset(s.rows) + multiset{r};
    }
    forall i: nat | i < |s'.wins| ensures WinOk(s', i) {
      assert WinOk(s, i);
    }
    forall i: nat, j: nat | i < j < |s'.wins| ensures RepeatIsAgain(s', i, j) {
      assert RepeatIsAgain(s, i, j);
    }
  }

  /** The atomic SET NX wins on a jti that was blocklisted before only after that entry has lapsed. */
  lemma WinPreservesInv(s: Sys, r: nat, t: Token, lag: nat)
    requires Inv(s) && r in s.requests && s.requests[r] == Rotating(t) && !s.Listed(t.jti)
    ensures Inv(s.Block(t, lag).Goto(r, Minting(t)).(wins := s.wins + [Win(t, s.now, t.jti in s.blocklist)]))
    ensures t.jti in s.blocklist ==> !Early(t, s.now)
  {
    assert RequestOk(s, r) && EntryOk(s, t.jti);
    BlockPreservesInv(s, t, lag);
    MovePreservesInv(s.Block(t, lag), r, Minting(t));
    var b := s.Block(t, lag).Goto(r, Minting(t));
    var s' := b.(wins := s.wins + [Win(t, s.now, t.jti in s.blocklist)]);
    forall j: nat ensures TokenOk(s', j) && EntryOk(s', j) {
      assert TokenOk(b, j) && EntryOk(b, j);
    }
    forall q: nat ensures RequestOk(s', q) && RowOk(s', q) {
      assert RequestOk(b, q) && RowOk(b, q);
    }
    forall i: nat | i < |s'.wins| ensures WinOk(s', i) {
      assert i < |s.wins| ==> WinOk(b, i);
    }
    forall i: nat, j: nat | i < j < |s'.wins| ensures RepeatIsAgain(s', i, j) {
      assert j < |s.wins| ==> RepeatIsAgain(s, i, j);
      assert WinOk(s, i);
    }
  }

  /** Every atomic step preserves the invariant. */
  lemma StepPreservesInv(s: Sys, a: Action)
    requires Inv(s)
    ensures Inv(Exec(s, a))
  {
    match a
    case Tick(dt) => TickPreservesInv(s, dt);
    case Login => IssuePreservesInv(s, Refresh, s.nextJti);
    case IssueAccess(family) => IssuePreservesInv(s, Access, family);
    case PresentRefresh(r, jti) => ArrivalPreservesInv(s, a);
    case PresentLogout(r, jti, expected) => ArrivalPreservesInv(s, a);
    case Crash(r) =>
      if r in s.requests && !s.requests[r].Denied? && !s.requests[r].Rotated? {
        MovePreservesInv(s, r, Crashed);
      }
    case _ =>
      if In(s, a.r, a) {
        RequestStepPreservesInv(s, a);
      }
  }

  lemma ArrivalPreservesInv(s: Sys, a: Action)
    requires Inv(s) && (a.PresentRefresh? || a.PresentLogout?)
    ensures Inv(Exec(s, a))
  {
    if a.r !in s.requests {
      assert TokenOk(s, a.jti);
      MovePreservesInv(s, a.r, Exec(s, a).requests[a.r]);
    }
  }

  lemma RequestStepPreservesInv(s: Sys, a: Action)
    requires Inv(s) && !a.Tick? && !a.Login? && !a.IssueAccess? && !a.PresentRefresh? && !a.PresentLogout? && !a.Crash? && In(s, a.r, a)
    ensures Inv(Exec(s, a))
  {
    var r, t := a.r, s.requests[a.r].token;
    assert RequestOk(s, r) && EntryOk(s, t.jti) && TokenOk(s, t.jti);
    match a
    case Report(_, ok) =>
      if ok {
        ReportPreservesInv(s, r);
      } else {
        MovePreservesInv(s, r, Crashed);
      }
    case SetNx(_, lag, reply) =>
      if reply == Unsent {
        MovePreservesInv(s, r, Crashed);
      } else if s.Listed(t.jti) {
        MovePreservesInv(s, r, if reply == Lost then Crashed else Reporting(t));
      } else if reply == Lost {
        BlockPreservesInv(s, t, lag);
        MovePreservesInv(s.Block(t, lag), r, Crashed);
      } else {
        WinPreservesInv(s, r, t, lag);
      }
    case Mint(_) =>
      MovePreservesInv(s, r, Rotated(s.nextJti));
      IssuePreservesInv(s.Goto(r, Rotated(s.nextJti)), Refresh, t.family);
    case LogoutWrite(_, lag, reply) =>
      if reply == Unsent {
        MovePreservesInv(s, r, Crashed);
      } else {
        BlockPreservesInv(s, t, lag);
        MovePreservesInv(s.Block(t, lag), r, if reply == Lost then Crashed else LoggedOut);
      }
    case Probe(_, ok) =>
      MovePreservesInv(s, r, if !ok then Crashed else if s.Listed(t.jti) then Redecoding(t) else Resolving(t));
    case Redecode(_) =>
      MovePreservesInv(s, r, if Alive(t, s.now) then Reprobing(t) else Denied(Unrecorded(t, s.now, Expired)));
    case Reprobe(_, ok) => MovePreservesInv(s, r, LookedAgain(s, t, ok));
    case Resolve(_, user) => MovePreservesInv(s, r, Resolved(t, user));
    case LogoutProbe(_, ok) =>
      MovePreservesInv(s, r, if !ok then Crashed else if s.Listed(t.jti) then LoggedOut else LogoutWriting(t));
  }

  lemma {:induction false} EveryRunKeepsInv(lifetime: nat, actions: seq<Action>)
    ensures Inv(ExecAll(lifetime, actions))
  {
    if actions != [] {
      EveryRunKeepsInv(lifetime, actions[..|actions| - 1]);
      StepPreservesInv(ExecAll(lifetime, actions[..|actions| - 1]), actions[|actions| - 1]);
    }
  }

  // ---------------------------------------------------------------- what every run guarantees

  /** Rotations of one jti: in every run, every win but the first falls into the last second of the
      token's life or after it. */
  lemma LaterRotationsAreLate(lifetime: nat, actions: seq<Action>, i: nat, j: nat)
    requires i < j < |ExecAll(lifetime, actions).wins|
    ensures var wins := ExecAll(lifetime, actions).wins;
            wins[i].token.jti == wins[j].token.jti ==> wins[j].again && !Early(wins[j].token, wins[j].at)
  {
    EveryRunKeepsInv(lifetime, actions);
    assert RepeatIsAgain(ExecAll(lifetime, actions), i, j) && WinOk(ExecAll(lifetime, actions), j);
  }

  /** When does the SET NX let a jti through? Exactly when no entry for it is in force. The win repeats an earlier
      blocklisting exactly when there was an entry and it has lapsed, which takes until the token's last second. */
  lemma WinsIffLapsed(lifetime: nat, actions: seq<Action>, r: nat, lag: nat)
    requires var s := ExecAll(lifetime, actions); r in s.requests && s.requests[r].Rotating?
    ensures var s := ExecAll(lifetime, actions);
            var t, s' := s.requests[r].token, Exec(s, SetNx(r, lag, Answered));
            && (s'.requests[r] == Minting(t) <==> t.jti !in s.blocklist || s.blocklist[t.jti] <= s.now)
            && (s'.requests[r] == Minting(t) ==> s'.wins == s.wins + [Win(t, s.now, t.jti in s.blocklist)])
            && (s'.requests[r] == Minting(t) && t.jti in s.blocklist ==> !Early(t, s.now))
            && (s'.requests[r] != Minting(t) ==> s'.requests[r] == Reporting(t) && s'.wins == s.wins)
  {
    EveryRunKeepsInv(lifetime, actions);
    assert RequestOk(ExecAll(lifetime, actions), r);
    var s := ExecAll(lifetime, actions);
    assert EntryOk(s, s.requests[r].token.jti);
  }

  /** Replays are recorded once: a denied request has exactly one row if it was denied for reuse and none otherwise;
      and a request that saw its jti revoked goes unrecorded only if the token has expired, if it is in its last
      second, or if the second lookup raised. */
  lemma ReuseIsRecordedOnce(lifetime: nat, actions: seq<Action>, r: nat)
    requires var s := ExecAll(lifetime, actions); r in s.requests && s.requests[r].Denied?
    ensures var s := ExecAll(lifetime, actions);
            var d := s.requests[r].denial;
            && multiset(s.rows)[r] == (if d == ReuseRecorded then 1 else 0)
            && (d.Unrecorded? && d.why == Expired ==> !Alive(d.token, d.at))
            && (d.Unrecorded? && d.why == Lapsed ==> !Early(d.token, d.at))
  {
    EveryRunKeepsInv(lifetime, actions);
    assert RowOk(ExecAll(lifetime, actions), r) && RequestOk(ExecAll(lifetime, actions), r);
  }

  // ---------------------------------------------------------------- one live refresh token per login

  /** The refresh tokens of a login that were never blocklisted. */
  function Unspent(s: Sys, family: nat): set<nat> {
    set j | j in s.tokens && s.tokens[j].kind == Refresh && s.tokens[j].family == family && j !in s.blocklist
  }

  /** The requests of a login between a winning SET NX and the new token. */
  function InFlight(s: Sys, family: nat): set<nat> {
    set r | r in s.requests && s.requests[r].Minting? && s.requests[r].token.family == family
  }

  /** The refresh tokens of a login that a client can still use: more than a second of life and no entry in force. */
  function Usable(s: Sys, family: nat): set<nat> {
    set j | j in s.tokens && s.tokens[j].kind == Refresh && s.tokens[j].family == family && Early(s.tokens[j], s.now) &&
            !s.Listed(j)
  }

  predicate IsRepeat(w: Win, family: nat) {
    w.token.family == family && w.again
  }

  /** The rotations of a login that were won on a jti blocklisted before. */
  function Repeats(wins: seq<Win>, family: nat): nat {
    if wins == [] then 0
    else Repeats(wins[..|wins| - 1], family) + (if IsRepeat(wins[|wins| - 1], family) then 1 else 0)
  }

  ghost predicate Credits(s: Sys, family: nat) {
    |Unspent(s, family)| + |InFlight(s, family)| <= (if family < s.nextJti then 1 else 0) + Repeats(s.wins, family)
  }

  /** A step that wins nothing and issues nothing leaves no more credit than it found. */
  lemma QuietKeepsCredits(s: Sys, s': Sys, family: nat)
    requires Credits(s, family)
    requires Unspent(s', family) <= Unspent(s, family) && InFlight(s', family) <= InFlight(s, family)
    requires s'.nextJti == s.nextJti && s'.wins == s.wins
    ensures Credits(s', family)
  {
    Subsets(Unspent(s', family), Unspent(s, family));
    Subsets(InFlight(s', family), InFlight(s, family));
  }

  lemma {:induction false} Subsets(a: set<nat>, b: set<nat>)
    requires a <= b
    ensures |a| <= |b|
  {
    assert b == a + (b - a);
  }

  lemma IssueAdds(s: Sys, kind: Kind, of: nat, family: nat)
    ensures InFlight(s.Issue(kind, of), family) == InFlight(s, family)
    ensures |Unspent(s.Issue(kind, of), family)| <= |Unspent(s, family)| + (if of == family && kind == Refresh then 1 else 0)
  {
    var s' := s.Issue(kind, of);
    assert InFlight(s', family) == InFlight(s, family);
    Subsets(Unspent(s', family), Unspent(s, family) + if of == family && kind == Refresh then {s.nextJti} else {});
  }

  lemma MintKeepsCredits(s: Sys, r: nat, family: nat)
    requires Credits(s, family) && r in s.requests && s.requests[r].Minting?
    ensures Credits(Exec(s, Mint(r)), family)
  {
    var of := s.requests[r].token.family;
    var moved := s.Goto(r, Rotated(s.nextJti));
    assert Unspent(moved, family) == Unspent(s, family);
    if of == family {
      assert r in InFlight(s, family);
      assert InFlight(moved, family) == InFlight(s, family) - {r};
    } else {
      assert InFlight(moved, family) == InFlight(s, family);
    }
    IssueAdds(moved, Refresh, of, family);
  }

  /** A win turns an unspent token into a request in flight, unless the token's earlier entry had lapsed:
      then the win is counted as a repeat. */
  lemma WinKeepsCredits(s: Sys, r: nat, lag: nat, family: nat)
    requires Inv(s) && Credits(s, family) && r in s.requests && s.requests[r].Rotating? && !s.Listed(s.requests[r].token.jti)
    ensures Credits(Exec(s, SetNx(r, lag, Answered)), family)
  {
    var t, s' := s.requests[r].token, Exec(s, SetNx(r, lag, Answered));
    assert RequestOk(s, r);
    WinPreservesInv(s, r, t, lag);
    assert s'.wins[..|s'.wins| - 1] == s.wins;
    if t.family == family {
      assert InFlight(s', family) == InFlight(s, family) + {r};
      if t.jti in s.blocklist {
        assert IsRepeat(Win(t, s.now, true), family);
        Subsets(Unspent(s', family), Unspent(s, family));
      } else {
        assert t.jti in Unspent(s, family);
        assert Unspent(s', family) == Unspent(s, family) - {t.jti};
      }
    } else {
      assert InFlight(s', family) == InFlight(s, family);
      Subsets(Unspent(s', family), Unspent(s, family));
    }
  }

  lemma StepKeepsCredits(s: Sys, a: Action, family: nat)
    requires Inv(s) && Credits(s, family)
    ensures Credits(Exec(s, a), family)
  {
    match a
    case Login => IssueAdds(s, Refresh, s.nextJti, family);
    case IssueAccess(of) => IssueAdds(s, Access, of, family);
    case Mint(r) =>
      if In(s, r, a) {
        MintKeepsCredits(s, r, family);
      }
    case SetNx(r, lag, reply) =>
      if In(s, r, a) {
        var t := s.requests[r].token;
        if reply == Unsent || s.Listed(t.jti) {
          MoveKeepsCredits(s, r, if reply != Answered then Crashed else Reporting(t), family);
        } else if reply == Lost {
          BlockKeepsCredits(s, t, lag, family);
          MoveKeepsCredits(s.Block(t, lag), r, Crashed, family);
        } else {
          WinKeepsCredits(s, r, lag, family);
        }
      }
    case LogoutWrite(r, lag, reply) =>
      if In(s, r, a) {
        var t := s.requests[r].token;
        if reply == Unsent {
          MoveKeepsCredits(s, r, Crashed, family);
        } else {
          BlockKeepsCredits(s, t, lag, family);
          MoveKeepsCredits(s.Block(t, lag), r, if reply == Lost then Crashed else LoggedOut, family);
        }
      }
    case _ => OtherStepKeepsCredits(s, a, family);
  }

  lemma MoveKeepsCredits(s: Sys, r: nat, p: Phase, family: nat)
    requires Credits(s, family) && !p.Minting?
    ensures Credits(s.Goto(r, p), family)
  {
    QuietKeepsCredits(s, s.Goto(r, p), family);
  }

  lemma BlockKeepsCredits(s: Sys, t: Token, lag: nat, family: nat)
    requires Credits(s, family)
    ensures Credits(s.Block(t, lag), family)
  {
    QuietKeepsCredits(s, s.Block(t, lag), family);
  }

  lemma OtherStepKeepsCredits(s: Sys, a: Action, family: nat)
    requires Credits(s, family)
    requires !a.Login? && !a.IssueAccess? && !a.Mint? && !a.SetNx? && !a.LogoutWrite?
    ensures Credits(Exec(s, a), family)
  {
    if a.Tick? || a.PresentRefresh? || a.PresentLogout? || a.Crash? {
      QuietKeepsCredits(s, Exec(s, a), family);
    } else if In(s, a.r, a) {
      CommandKeepsCredits(s, a, s.requests[a.r].token, family);
    }
  }

  lemma CommandKeepsCredits(s: Sys, a: Action, t: Token, family: nat)
    requires Credits(s, family)
    requires a.Probe? || a.Redecode? || a.Reprobe? || a.Report? || a.Resolve? || a.LogoutProbe?
    requires In(s, a.r, a) && s.requests[a.r].token == t
    ensures Credits(Exec(s, a), family)
  {
    match a
    case Probe(r, ok) =>
      MoveKeepsCredits(s, r, if !ok then Crashed else if s.Listed(t.jti) then Redecoding(t) else Resolving(t), family);
    case Redecode(r) =>
      MoveKeepsCredits(s, r, if Alive(t, s.now) then Reprobing(t) else Denied(Unrecorded(t, s.now, Expired)), family);
    case Reprobe(r, ok) => MoveKeepsCredits(s, r, LookedAgain(s, t, ok), family);
    case Report(r, ok) =>
      MoveKeepsCredits(s, r, if ok then Denied(ReuseRecorded) else Crashed, family);
      QuietKeepsCredits(s.Goto(r, if ok then Denied(ReuseRecorded) else Crashed), Exec(s, a), family);
    case Resolve(r, user) => MoveKeepsCredits(s, r, Resolved(t, user), family);
    case LogoutProbe(r, ok) =>
      MoveKeepsCredits(s, r, if !ok then Crashed else if s.Listed(t.jti) then LoggedOut else LogoutWriting(t), family);
  }

  lemma {:induction false} EveryRunKeepsCredits(lifetime: nat, actions: seq<Action>, family: nat)
    ensures Credits(ExecAll(lifetime, actions), family)
  {
    if actions != [] {
      var before := actions[..|actions| - 1];
      EveryRunKeepsCredits(lifetime, before, family);
      EveryRunKeepsInv(lifetime, before);
      StepKeepsCredits(ExecAll(lifetime, before), actions[|actions| - 1], family);
    } else {
      assert Unspent(Start(lifetime), family) == {} && InFlight(Start(lifetime), family) == {};
    }
  }

  /** A refresh token of the login that validates now. */
  predicate Passes(s: Sys, j: nat, family: nat) {
    j in s.tokens && s.tokens[j].kind == Refresh && s.tokens[j].family == family && Alive(s.tokens[j], s.now) && !s.Listed(j)
  }

  /** A token whose entry ran out before it did. */
  predicate Outlived(s: Sys, j: nat) {
    j in s.tokens && j in s.blocklist && s.blocklist[j] <= s.now && Alive(s.tokens[j], s.now)
  }

  /** The single-use promise: among all refresh tokens descended from one login, those never blocklisted plus the
      rotations between their winning SET NX and the new pair number at most one, plus one for every rotation won
      on a jti blocklisted before. Every other token that still passes for valid has outlived its entry, and is in
      its last second. */
  lemma OneLiveTokenPerLogin(lifetime: nat, actions: seq<Action>, family: nat)
    ensures var s := ExecAll(lifetime, actions);
            && |Unspent(s, family)| + |InFlight(s, family)| <= 1 + Repeats(s.wins, family)
            && (forall j: nat :: Passes(s, j, family) ==> j in Unspent(s, family) || (Outlived(s, j) && !Early(s.tokens[j], s.now)))
  {
    var s := ExecAll(lifetime, actions);
    EveryRunKeepsCredits(lifetime, actions, family);
    EveryRunKeepsInv(lifetime, actions);
    forall j: nat | Passes(s, j, family)
      ensures j in Unspent(s, family) || (Outlived(s, j) && !Early(s.tokens[j], s.now))
    {
      assert EntryOk(s, j);
    }
  }

  /** Without a repeated win, a login never has more than one token that a client can use or is about to get, and
      no jti is rotated twice. */
  lemma AtMostOneWithoutRepeats(lifetime: nat, actions: seq<Action>, family: nat)
    requires Repeats(ExecAll(lifetime, actions).wins, family) == 0
    ensures var s := ExecAll(lifetime, actions);
            && |Usable(s, family)| + |InFlight(s, family)| <= 1
            && (forall i: nat, j: nat :: i < j < |s.wins| && s.wins[j].token.family == family ==>
                  s.wins[i].token.jti != s.wins[j].token.jti)
  {
    var s := ExecAll(lifetime, actions);
    OneLiveTokenPerLogin(lifetime, actions, family);
    forall j | j in Usable(s, family) ensures j in Unspent(s, family) {
      assert Passes(s, j, family);
    }
    Subsets(Usable(s, family), Unspent(s, family));
    EveryRunKeepsInv(lifetime, actions);
    forall i: nat, j: nat | i < j < |s.wins| && s.wins[j].token.family == family
      ensures s.wins[i].token.jti != s.wins[j].token.jti
    {
      assert RepeatIsAgain(s, i, j);
      NoRepeats(s.wins, family, j);
    }
  }

  lemma {:induction false} NoRepeats(wins: seq<Win>, family: nat, j: nat)
    requires Repeats(wins, family) == 0 && j < |wins|
    ensures !IsRepeat(wins[j], family)
  {
    if j < |wins| - 1 {
      NoRepeats(wins[..|wins| - 1], family, j);
    }
  }

  // ---------------------------------------------------------------- one request among others

  /** Actions of other requests: none of them is a step of request `r`. */
  predicate Foreign(a: Action, r: nat) {
    a.Tick? || a.Login? || a.IssueAccess? || a.r != r
  }

  predicate AllForeign(actions: seq<Action>, r: nat) {
    forall a :: a in actions ==> Foreign(a, r)
  }

  lemma ForeignStepKeeps(s: Sys, a: Action, r: nat)
    requires Foreign(a, r)
    ensures r in s.requests ==> r in Exec(s, a).requests && Exec(s, a).requests[r] == s.requests[r]
    ensures r !in s.requests ==> r !in Exec(s, a).requests
  {
  }

  /** Other requests do not move request `r`. */
  lemma {:induction false} ForeignKeeps(s: Sys, actions: seq<Action>, r: nat)
    requires AllForeign(actions, r)
    ensures var s' := Play(Exec, s, actions);
            && (r in s.requests ==> r in s'.requests && s'.requests[r] == s.requests[r])
            && (r !in s.requests ==> r !in s'.requests)
    decreases |actions|
  {
    if actions != [] {
      var a := actions[0];
      assert a in actions;
      ForeignStepKeeps(s, a, r);
      ForeignKeeps(Exec(s, a), actions[1..], r);
    }
  }

  lemma {:induction false} PlayKeepsInv(s: Sys, actions: seq<Action>)
    requires Inv(s)
    ensures Inv(Play(Exec, s, actions))
    decreases |actions|
  {
    if actions != [] {
      StepPreservesInv(s, actions[0]);
      PlayKeepsInv(Exec(s, actions[0]), actions[1..]);
    }
  }

  /** The four states in which a request that was found revoked decodes again, looks again, and reports, while others
      act in between. */
  datatype SecondLook = SecondLook(found: Sys, looking: Sys, reporting: Sys, end: Sys)

  function LookTwice(s: Sys, r: nat, first: seq<Action>, second: seq<Action>, ok: bool, committed: bool): SecondLook {
    var looking := Play(Exec, Exec(s, Redecode(r)), first);
    var reporting := Play(Exec, Exec(looking, Reprobe(r, ok)), second);
    SecondLook(s, looking, reporting, Exec(reporting, Report(r, committed)))
  }

  lemma LookTwiceSteps(s: Sys, r: nat, first: seq<Action>, second: seq<Action>, ok: bool, committed: bool)
    requires r in s.requests && s.requests[r].Redecoding? && AllForeign(first, r) && AllForeign(second, r)
    ensures var t, l := s.requests[r].token, LookTwice(s, r, first, second, ok, committed);
            && r in l.looking.requests && r in l.reporting.requests
            && l.looking.requests[r] == (if Alive(t, s.now) then Reprobing(t) else Denied(Unrecorded(t, s.now, Expired)))
            && l.reporting.requests[r] == if Alive(t, s.now) then LookedAgain(l.looking, t, ok) else l.looking.requests[r]
  {
    var l := LookTwice(s, r, first, second, ok, committed);
    ForeignKeeps(Exec(s, Redecode(r)), first, r);
    ForeignKeeps(Exec(l.looking, Reprobe(r, ok)), second, r);
  }

  /** Exactly when a replay is recorded, whatever other requests do at each await: the token still decodes on the
      second look, the second lookup is answered, an entry for the jti is in force at that lookup (the one found before
      or one written since), and the row commits. It is denied without a row exactly if one of the first three fails,
      and ends in an error exactly if only the commit does. */
  lemma RecordedIffStillRevoked(lifetime: nat, actions: seq<Action>, r: nat, first: seq<Action>, second: seq<Action>, ok: bool,
                                committed: bool)
    requires AllForeign(first, r) && AllForeign(second, r)
    requires var s := ExecAll(lifetime, actions); r in s.requests && s.requests[r].Redecoding?
    ensures var s := ExecAll(lifetime, actions);
            var t, l := s.requests[r].token, LookTwice(s, r, first, second, ok, committed);
            var seen := Alive(t, s.now) && ok && l.looking.Listed(t.jti);
            && r in l.end.requests
            && (l.end.requests[r] == Denied(ReuseRecorded) <==> seen && committed)
            && (l.end.requests[r] == Crashed <==> seen && !committed)
            && (l.end.requests[r].Denied? && l.end.requests[r].denial.Unrecorded? <==> !seen)
            && multiset(l.end.rows)[r] == if seen && committed then 1 else 0
  {
    var s := ExecAll(lifetime, actions);
    var l := LookTwice(s, r, first, second, ok, committed);
    EveryRunKeepsInv(lifetime, actions);
    StepPreservesInv(s, Redecode(r));
    PlayKeepsInv(Exec(s, Redecode(r)), first);
    StepPreservesInv(l.looking, Reprobe(r, ok));
    PlayKeepsInv(Exec(l.looking, Reprobe(r, ok)), second);
    StepPreservesInv(l.reporting, Report(r, committed));
    assert RowOk(l.end, r);
    LookTwiceSteps(s, r, first, second, ok, committed);
  }

  // ---------------------------------------------------------------- a revoked token stays out

  lemma StepKeepsEntries(s: Sys, a: Action, j: nat)
    requires j in s.blocklist
    ensures j in Exec(s, a).blocklist
  {
  }

  /** Once on the blocklist, a jti has an entry for good; entries are only ever written over. */
  lemma {:induction false} PlayKeepsEntries(s: Sys, actions: seq<Action>, j: nat)
    requires j in s.blocklist
    ensures j in Play(Exec, s, actions).blocklist
    decreases |actions|
  {
    if actions != [] {
      StepKeepsEntries(s, actions[0], j);
      PlayKeepsEntries(Exec(s, actions[0]), actions[1..], j);
    }
  }

  /** Wins from number `from` on, if they are of the jti, repeat an earlier blocklisting. */
  ghost predicate LaterWinsRepeat(s: Sys, from: nat, j: nat) {
    from <= |s.wins| && forall i: nat :: from <= i < |s.wins| && s.wins[i].token.jti == j ==> s.wins[i].again
  }

  lemma StepKeepsLaterWins(s: Sys, a: Action, from: nat, j: nat)
    requires j in s.blocklist && LaterWinsRepeat(s, from, j)
    ensures LaterWinsRepeat(Exec(s, a), from, j)
  {
  }

  lemma {:induction false} PlayKeepsLaterWins(s: Sys, actions: seq<Action>, from: nat, j: nat)
    requires j in s.blocklist && LaterWinsRepeat(s, from, j)
    ensures LaterWinsRepeat(Play(Exec, s, actions), from, j)
    decreases |actions|
  {
    if actions != [] {
      StepKeepsEntries(s, actions[0], j);
      StepKeepsLaterWins(s, actions[0], from, j);
      PlayKeepsLaterWins(Exec(s, actions[0]), actions[1..], from, j);
    }
  }

  /** In every reachable state, a token with an entry and at least a second to live is refused by every lookup, loses
      every SET NX, and is not written over by a logout. */
  lemma EarlyEntriesHold(s: Sys, t: Token, q: nat)
    requires Inv(s) && Known(s, t) && t.jti in s.blocklist && s.now + SECOND <= t.exp * SECOND
    ensures s.Listed(t.jti)
    ensures q in s.requests && s.requests[q] == Probing(t) ==>
              forall ok :: Exec(s, Probe(q, ok)).requests[q] == if ok then Redecoding(t) else Crashed
    ensures q in s.requests && s.requests[q] == Rotating(t) ==>
              forall lag, reply :: Exec(s, SetNx(q, lag, reply)).requests[q] == if reply == Answered then Reporting(t) else Crashed
  {
    assert EntryOk(s, t.jti);
  }

  /** What a logout is for. From the moment its SET is carried out, whether or not the reply arrives, the token is on the
      blocklist; and whatever anybody does afterwards, as long as it has a second to live it stays there, no lookup
      passes it on, no SET NX lets it through, and so it is not exchanged for a new pair. */
  lemma LogoutRevokes(lifetime: nat, actions: seq<Action>, r: nat, lag: nat, reply: Reply, more: seq<Action>, q: nat)
    requires var s := ExecAll(lifetime, actions); r in s.requests && s.requests[r].LogoutWriting? && reply != Unsent
    ensures var s := ExecAll(lifetime, actions);
            var t, out := s.requests[r].token, Exec(s, LogoutWrite(r, lag, reply));
            var later := Play(Exec, out, more);
            && out.requests[r] == (if reply == Answered then LoggedOut else Crashed)
            && out.Listed(t.jti)
            && (forall i: nat :: |s.wins| <= i < |later.wins| && later.wins[i].token.jti == t.jti ==>
                  later.wins[i].at + SECOND > t.exp * SECOND)
            && (later.now + SECOND <= t.exp * SECOND ==>
                  && later.Listed(t.jti)
                  && (q in later.requests && later.requests[q] == Probing(t) ==>
                        forall ok :: Exec(later, Probe(q, ok)).requests[q] == if ok then Redecoding(t) else Crashed)
                  && (q in later.requests && later.requests[q] == Rotating(t) ==>
                        forall any, answer ::
                          Exec(later, SetNx(q, any, answer)).requests[q] == if answer == Answered then Reporting(t) else Crashed))
  {
    var s := ExecAll(lifetime, actions);
    var t, out := s.requests[r].token, Exec(s, LogoutWrite(r, lag, reply));
    var later := Play(Exec, out, more);
    EveryRunKeepsInv(lifetime, actions);
    assert RequestOk(s, r);
    StepPreservesInv(s, LogoutWrite(r, lag, reply));
    PlayKeepsInv(out, more);
    PlayKeepsEntries(out, more, t.jti);
    PlayKeepsLaterWins(out, more, |s.wins|, t.jti);
    PlayKeepsTokens(out, more, t);
    forall i: nat | |s.wins| <= i < |later.wins| && later.wins[i].token.jti == t.jti
      ensures later.wins[i].at + SECOND > t.exp * SECOND
    {
      assert WinOk(later, i);
    }
    if later.now + SECOND <= t.exp * SECOND {
      EarlyEntriesHold(later, t, q);
    }
  }

  lemma StepKeepsToken(s: Sys, a: Action, t: Token)
    requires Inv(s) && Known(s, t)
    ensures Known(Exec(s, a), t)
  {
    assert TokenOk(s, t.jti);
  }

  /** Issued tokens never change. */
  lemma {:induction false} PlayKeepsTokens(s: Sys, actions: seq<Action>, t: Token)
    requires Inv(s) && Known(s, t)
    ensures Known(Play(Exec, s, actions), t)
    decreases |actions|
  {
    if actions != [] {
      StepKeepsToken(s, actions[0], t);
      StepPreservesInv(s, actions[0]);
      PlayKeepsTokens(Exec(s, actions[0]), actions[1..], t);
    }
  }

  // ---------------------------------------------------------------- where the promise gives way

  lemma {:induction false} PlayContinues(lifetime: nat, before: seq<Action>, actions: seq<Action>)
    ensures ExecAll(lifetime, before + actions) == Play(Exec, ExecAll(lifetime, before), actions)
    decreases |actions|
  {
    if actions == [] {
      assert before + actions == before;
    } else {
      var next := before + [actions[0]];
      assert next[..|before|] == before;
      assert before + actions == next + actions[1..];
      PlayContinues(lifetime, next, actions[1..]);
    }
  }

  lemma Then(lifetime: nat, actions: seq<Action>, a: Action) returns (longer: seq<Action>)
    ensures longer == actions + [a] && ExecAll(lifetime, longer) == Exec(ExecAll(lifetime, actions), a)
  {
    longer := actions + [a];
    assert longer[..|actions|] == actions;
  }

  function AfterLateRotation(): Sys {
    Sys(8_500_000, 10, 2, map[0 := Token(0, Refresh, 10, 0), 1 := Token(1, Refresh, 18, 0)], map[0 := 9_500_000],
        map[0 := Rotated(1)], [], [Win(Token(0, Refresh, 10, 0), 8_500_000, false)])
  }

  lemma FirstRefreshArrives() returns (a: seq<Action>)
    ensures ExecAll(10, a) ==
            Sys(0, 10, 1, map[0 := Token(0, Refresh, 10, 0)], map[], map[0 := Rotating(Token(0, Refresh, 10, 0))], [], [])
  {
    a := Then(10, [], Login);
    assert ExecAll(10, a) == Sys(0, 10, 1, map[0 := Token(0, Refresh, 10, 0)], map[], map[], [], []);
    a := Then(10, a, PresentRefresh(0, 0));
    a := Then(10, a, Probe(0, true));
    a := Then(10, a, Resolve(0, Found));
  }

  lemma LateRotation() returns (a: seq<Action>)
    ensures ExecAll(10, a) == AfterLateRotation()
  {
    a := FirstRefreshArrives();
    a := Then(10, a, Tick(8_500_000));
    a := Then(10, a, SetNx(0, 0, Answered));
    a := Then(10, a, Mint(0));
  }

  function BeforeReplay(): Sys {
    AfterLateRotation().(now := 9_600_000, requests := map[0 := Rotated(1), 1 := Rotating(Token(0, Refresh, 10, 0))])
  }

  lemma ReplayStarts() returns (a: seq<Action>)
    ensures ExecAll(10, a) ==
            AfterLateRotation().(now := 9_600_000, requests := map[0 := Rotated(1), 1 := Probing(Token(0, Refresh, 10, 0))])
  {
    a := LateRotation();
    a := Then(10, a, Tick(1_100_000));
    a := Then(10, a, PresentRefresh(1, 0));
  }

  lemma ReplayArrives() returns (a: seq<Action>)
    ensures ExecAll(10, a) == BeforeReplay()
  {
    a := ReplayStarts();
    a := Then(10, a, Probe(1, true));
    a := Then(10, a, Resolve(1, Found));
  }

  /** A replay that does not even race: a token of 10 seconds is rotated with 1.5 seconds left, so its entry
      lapses half a second early, and the same token is rotated again at 9.6 seconds. */
  lemma LateReplaySucceeds() returns (a: seq<Action>)
    ensures var s := ExecAll(10, a);
            && |s.wins| == 2 && s.wins[0].token == s.wins[1].token
            && s.requests == map[0 := Rotated(1), 1 := Rotated(2)]
            && s.rows == []
  {
    a := ReplayArrives();
    a := Then(10, a, SetNx(1, 0, Answered));
    assert ExecAll(10, a).requests[1] == Minting(Token(0, Refresh, 10, 0));
    a := Then(10, a, Mint(1));
  }

  lemma ReplayIsFound() returns (a: seq<Action>)
    ensures ExecAll(10, a) ==
            AfterLateRotation().(now := 9_400_000, requests := map[0 := Rotated(1), 1 := Redecoding(Token(0, Refresh, 10, 0))])
  {
    a := LateRotation();
    a := Then(10, a, Tick(900_000));
    a := Then(10, a, PresentRefresh(1, 0));
    a := Then(10, a, Probe(1, true));
  }

  /** A replay that leaves no row: the token was found revoked at 9.4 seconds, its entry lapsed at 9.5, and
      the second lookup at 9.6 no longer sees a replay although the token has not expired. */
  lemma ReplayCanGoUnrecorded() returns (a: seq<Action>)
    ensures var s := ExecAll(10, a);
            && 1 in s.requests && s.requests[1] == Denied(Unrecorded(Token(0, Refresh, 10, 0), 9_600_000, Lapsed))
            && Alive(Token(0, Refresh, 10, 0), s.now)
            && s.rows == []
  {
    a := ReplayIsFound();
    a := Then(10, a, Redecode(1));
    a := Then(10, a, Tick(200_000));
    a := Then(10, a, Reprobe(1, true));
  }

  lemma EarlyRotation() returns (a: seq<Action>)
    ensures ExecAll(10, a) ==
            Sys(0, 10, 2, map[0 := Token(0, Refresh, 10, 0), 1 := Token(1, Refresh, 10, 0)], map[0 := 10_000_000],
                map[0 := Rotated(1)], [], [Win(Token(0, Refresh, 10, 0), 0, false)])
  {
    a := FirstRefreshArrives();
    a := Then(10, a, SetNx(0, 0, Answered));
    assert ExecAll(10, a).requests == map[0 := Minting(Token(0, Refresh, 10, 0))];
    assert ExecAll(10, a).blocklist == map[0 := 10_000_000];
    a := Then(10, a, Mint(0));
  }

  lemma EarlyReplay() returns (a: seq<Action>)
    ensures var s := ExecAll(10, a);
            && s.now == 0 && s.rows == [] && s.Listed(0)
            && 1 in s.requests && s.requests[1] == Redecoding(Token(0, Refresh, 10, 0))
  {
    a := EarlyRotation();
    a := Then(10, a, PresentRefresh(1, 0));
    a := Then(10, a, Probe(1, true));
  }

  /** A replay that leaves no row ten seconds before the token expires: the store does not answer the second lookup,
      and the handler takes the exception for an ordinary denial. */
  lemma FailedLookupHidesReplay() returns (a: seq<Action>)
    ensures var s := ExecAll(10, a);
            && 1 in s.requests && s.requests[1] == Denied(Unrecorded(Token(0, Refresh, 10, 0), 0, LookupRaised))
            && Early(Token(0, Refresh, 10, 0), s.now) && s.Listed(0) && s.rows == []
  {
    a := EarlyReplay();
    a := Then(10, a, Redecode(1));
    a := Then(10, a, Reprobe(1, false));
  }
}
