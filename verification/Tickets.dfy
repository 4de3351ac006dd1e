/** One-time realtime tickets: any number of issues and consumes of any tickets, each one atomic on the store. */
module Tickets {

  import opened Interleaving
  import opened Wrappers

  const TTL: nat := 30
  const ATTEMPTS: nat := 5

  datatype Entry = Entry(payload: string, deadline: nat)

  datatype Event =
    | Issued(ticket: nat, payload: string, at: nat)
    | Consumed(ticket: nat, payload: string, at: nat)

  /** `log` is the history of the commands that took effect. */
  datatype Store = Store(now: nat, entries: map<nat, Entry>, log: seq<Event>) {
    predicate Live(ticket: nat) {
      ticket in entries && now < entries[ticket].deadline
    }
  }

  datatype Op =
    | Tick(dt: nat)
    | Issue(ticket: nat, payload: string)
    | Consume(ticket: nat)

  /** SET NX EX; the script that reads and deletes in one go. */
  function Exec(s: Store, op: Op): Store {
    match op
    case Tick(dt) => s.(now := s.now + dt)
    case Issue(ticket, payload) =>
      if s.Live(ticket) then s
      else s.(entries := s.entries[ticket := Entry(payload, s.now + TTL)], log := s.log + [Issued(ticket, payload, s.now)])
    case Consume(ticket) =>
      if !s.Live(ticket) then s
      else s.(entries := s.entries - {ticket}, log := s.log + [Consumed(ticket, s.entries[ticket].payload, s.now)])
  }

  function ExecAll(ops: seq<Op>): Store {
    if ops == [] then Store(0, map[], []) else Exec(ExecAll(ops[..|ops| - 1]), ops[|ops| - 1])
  }

  // ---------------------------------------------------------------- what a history may look like

  /** The last thing that happened to a ticket. */
  function Last(log: seq<Event>, ticket: nat): Option<Event> {
    if log == [] then None
    else if log[|log| - 1].ticket == ticket then Some(log[|log| - 1])
    else Last(log[..|log| - 1], ticket)
  }

  /** A ticket is used only if its last event is an issue less than 30 seconds old, and yields that payload. */
  predicate Redeems(e: Event, last: Option<Event>) {
    last.Some? && last.value == Issued(e.ticket, e.payload, last.value.at) && last.value.at <= e.at < last.value.at + 30
  }

  ghost predicate ConsumedOk(log: seq<Event>, k: nat)
    requires k < |log|
  {
    log[k].Consumed? ==> Redeems(log[k], Last(log[..k], log[k].ticket))
  }

  /** The store holds a ticket exactly if its last event is an issue, with what that issue wrote. */
  predicate EntryMatches(s: Store, ticket: nat, last: Option<Event>) {
    if last.Some? && last.value.Issued? then
      && ticket in s.entries && s.entries[ticket] == Entry(last.value.payload, last.value.at + TTL)
      && last.value.ticket == ticket && last.value.at <= s.now
    else
      ticket !in s.entries
  }

  ghost predicate EntryOk(s: Store, ticket: nat) {
    EntryMatches(s, ticket, Last(s.log, ticket))
  }

  ghost predicate Inv(s: Store) {
    && (forall ticket: nat :: EntryOk(s, ticket))
    && (forall k: nat :: k < |s.log| ==> ConsumedOk(s.log, k))
  }

  /** A command that took effect: the entry of one ticket changed and one event was logged. */
  lemma LoggedPreservesInv(s: Store, s': Store, e: Event)
    requires Inv(s) && s'.log == s.log + [e] && s'.now == s.now
    requires forall t: nat :: t != e.ticket ==> (t in s'.entries <==> t in s.entries)
    requires forall t: nat :: t != e.ticket && t in s.entries ==> s'.entries[t] == s.entries[t]
    requires EntryMatches(s', e.ticket, Some(e))
    requires e.Consumed? ==> Redeems(e, Last(s.log, e.ticket))
    ensures Inv(s')
  {
    assert s'.log[..|s.log|] == s.log;
    forall t: nat ensures EntryOk(s', t) {
      assert EntryOk(s, t);
    }
    forall k: nat | k < |s'.log| ensures ConsumedOk(s'.log, k) {
      if k < |s.log| {
        assert ConsumedOk(s.log, k) && s'.log[..k] == s.log[..k];
      }
    }
  }

  lemma StepPreservesInv(s: Store, op: Op)
    requires Inv(s)
    ensures Inv(Exec(s, op))
  {
    var s' := Exec(s, op);
    match op
    case Tick(dt) =>
      forall t: nat ensures EntryOk(s', t) {
        assert EntryOk(s, t);
      }
    case Issue(ticket, payload) =>
      if !s.Live(ticket) {
        LoggedPreservesInv(s, s', Issued(ticket, payload, s.now));
      }
    case Consume(ticket) =>
      if s.Live(ticket) {
        assert EntryOk(s, ticket);
        LoggedPreservesInv(s, s', Consumed(ticket, s.entries[ticket].payload, s.now));
      }
  }

  lemma {:induction false} EveryRunKeepsInv(ops: seq<Op>)
    ensures Inv(ExecAll(ops))
  {
    if ops != [] {
      EveryRunKeepsInv(ops[..|ops| - 1]);
      StepPreservesInv(ExecAll(ops[..|ops| - 1]), ops[|ops| - 1]);
    }
  }

  /** After any run, a ticket can be consumed exactly if its last event is an issue less than 30 seconds old;
      it then yields the payload of that issue, and right afterwards it cannot be consumed again. */
  lemma ConsumableIffFreshlyIssued(ops: seq<Op>, ticket: nat)
    ensures var s := ExecAll(ops);
            var last, s' := Last(s.log, ticket), Exec(s, Consume(ticket));
            && (s' != s <==> last.Some? && last.value.Issued? && s.now < last.value.at + 30)
            && (s' != s ==> s'.log == s.log + [Consumed(ticket, last.value.payload, s.now)])
            && Exec(s', Consume(ticket)) == s'
  {
    EveryRunKeepsInv(ops);
    var s := ExecAll(ops);
    assert EntryOk(s, ticket);
    if s.Live(ticket) {
      assert |Exec(s, Consume(ticket)).log| == |s.log| + 1;
    }
  }

  lemma LiveTicketStands(s: Store, op: Op, ticket: nat)
    requires s.Live(ticket) && op != Consume(ticket)
    ensures ticket in Exec(s, op).entries && Exec(s, op).entries[ticket] == s.entries[ticket]
  {
  }

  /** No command of anybody but its consumption touches a ticket while it is live: it is not overwritten, prolonged,
      shortened or given another payload. */
  lemma {:induction false} LiveTicketIsKept(s: Store, ops: seq<Op>, ticket: nat)
    requires ticket in s.entries && Play(Exec, s, ops).now < s.entries[ticket].deadline && Consume(ticket) !in ops
    ensures ticket in Play(Exec, s, ops).entries && Play(Exec, s, ops).entries[ticket] == s.entries[ticket]
    ensures s.now <= Play(Exec, s, ops).now
    decreases |ops|
  {
    if ops != [] {
      TimePasses(Exec(s, ops[0]), ops[1..]);
      assert ops[0] in ops;
      LiveTicketStands(s, ops[0], ticket);
      LiveTicketIsKept(Exec(s, ops[0]), ops[1..], ticket);
    }
  }

  lemma {:induction false} TimePasses(s: Store, ops: seq<Op>)
    ensures s.now <= Play(Exec, s, ops).now
    decreases |ops|
  {
    if ops != [] {
      TimePasses(Exec(s, ops[0]), ops[1..]);
    }
  }

  function Count(log: seq<Event>, ticket: nat, consumed: bool): nat {
    if log == [] then 0
    else
      var e := log[|log| - 1];
      Count(log[..|log| - 1], ticket, consumed) + (if e.ticket == ticket && e.Consumed? == consumed then 1 else 0)
  }

  lemma {:induction false} UsesWithinIssues(log: seq<Event>, ticket: nat)
    requires forall k: nat :: k < |log| ==> ConsumedOk(log, k)
    ensures Count(log, ticket, true) + (if Last(log, ticket).Some? && Last(log, ticket).value.Issued? then 1 else 0)
            <= Count(log, ticket, false)
  {
    if log != [] {
      var before := log[..|log| - 1];
      forall k: nat | k < |before| ensures ConsumedOk(before, k) {
        assert ConsumedOk(log, k) && log[..k] == before[..k];
      }
      assert ConsumedOk(log, |before|);
      UsesWithinIssues(before, ticket);
    }
  }

  /** One-time: over any run, a ticket is consumed at most as often as it was issued, and every use redeems the
      last issue, within 30 seconds and with its payload. */
  lemma EveryUseRedeemsOneIssue(ops: seq<Op>, ticket: nat)
    ensures var log := ExecAll(ops).log;
            && Count(log, ticket, true) <= Count(log, ticket, false)
            && forall k: nat :: k < |log| ==> ConsumedOk(log, k)
  {
    EveryRunKeepsInv(ops);
    UsesWithinIssues(ExecAll(ops).log, ticket);
  }

  // ---------------------------------------------------------------- POST /ws-ticket

  class Redis {
    var now: nat
    var entries: map<nat, Entry>
    var log: seq<Event>

    function State(): Store
      reads this
    {
      Store(now, entries, log)
    }

    method IssueTicket(ticket: nat, payload: string) returns (issued: bool)
      modifies this
      ensures issued == !old(State()).Live(ticket)
      ensures State() == Exec(old(State()), Issue(ticket, payload))
    {
      issued := ticket !in entries || entries[ticket].deadline <= now;
      if issued {
        entries := entries[ticket := Entry(payload, now + TTL)];
        log := log + [Issued(ticket, payload, now)];
      }
    }

    method ConsumeTicket(ticket: nat) returns (value: Option<string>)
      modifies this
      ensures value == if old(State()).Live(ticket) then Some(old(entries[ticket].payload)) else None
      ensures State() == Exec(old(State()), Consume(ticket))
    {
      value := None;
      if ticket in entries && now < entries[ticket].deadline {
        value := Some(entries[ticket].payload);
        log := log + [Consumed(ticket, entries[ticket].payload, now)];
        entries := entries - {ticket};
      }
    }

    /** What the others do while this request waits. */
    method Await(others: seq<Op>)
      modifies this
      ensures State() == Play(Exec, old(State()), others)
    {
      for i := 0 to |others|
        invariant Play(Exec, State(), others[i..]) == Play(Exec, old(State()), others)
      {
        var s := Exec(State(), others[i]);
        assert others[i..][0] == others[i] && others[i..][1..] == others[i + 1..];
        now, entries, log := s.now, s.entries, s.log;
      }
    }

    /** POST /ws-ticket: fresh ids are drawn, and the first that is free when its turn comes is issued; the others act
        before every attempt. `tried` are the states the attempts found: all but the last found their id live, and no
        live ticket is ever overwritten. */
    method IssueWebsocketTicket(drawn: seq<nat>, payload: string, others: nat -> seq<Op>)
      returns (ticket: Option<nat>, ghost tried: seq<Store>)
      requires |drawn| == ATTEMPTS
      modifies this
      ensures 1 <= |tried| <= 5 && Attempts(old(State()), tried, others)
      ensures forall i :: 0 <= i < |tried| - 1 ==> tried[i].Live(drawn[i])
      ensures var last := |tried| - 1;
              if ticket.Some? then
                !tried[last].Live(drawn[last]) && ticket.value == drawn[last] &&
                State() == Exec(tried[last], Issue(drawn[last], payload)) &&
                entries == tried[last].entries[ticket.value := Entry(payload, now + 30)]
              else
                |tried| == 5 && tried[last].Live(drawn[last]) && State() == tried[last]
    {
      tried := [];
      for i := 0 to ATTEMPTS
        invariant |tried| == i && Attempts(old(State()), tried, others)
        invariant forall j :: 0 <= j < i ==> tried[j].Live(drawn[j])
        invariant State() == if i == 0 then old(State()) else tried[i - 1]
      {
        Await(others(i));
        ghost var before := tried;
        tried := tried + [State()];
        assert forall j: nat :: j < i ==> AttemptFrom(old(State()), before, others, j);
        assert AttemptFrom(old(State()), tried, others, i);
        forall j: nat | j < |tried| ensures AttemptFrom(old(State()), tried, others, j) {
          assert j < i ==> AttemptFrom(old(State()), before, others, j);
        }
        var issued := IssueTicket(drawn[i], payload);
        if issued {
          return Some(drawn[i]), tried;
        }
      }
      ticket := None;
    }
  }

  /** An attempt finds what the one before it left and the others have made of it since. */
  ghost predicate AttemptFrom(start: Store, tried: seq<Store>, others: nat -> seq<Op>, i: nat)
    requires i < |tried|
  {
    tried[i] == Play(Exec, if i == 0 then start else tried[i - 1], others(i))
  }

  ghost predicate Attempts(start: Store, tried: seq<Store>, others: nat -> seq<Op>) {
    forall i: nat :: i < |tried| ==> AttemptFrom(start, tried, others, i)
  }
}
