/**
 Redeeming an enrolment ticket: a completion checks the ticket, creates a credential,
 spends the ticket by compare-and-swap, and revokes the credential again when that fails.
 Tickets are replaced, revoked and swept in between, and a process can die at any point.
 */
module Tickets {
  import opened Prelude
  import opened Sets
  import opened Runs

  type Id = string

  datatype Ticket = Ticket(subject: Id, expires: int, consumed: Option<Id>, revoked: bool)

  /** A credential that came about through a ticket. */
  datatype Credential = Credential(ticket: Id, revoked: bool)

  /** Where a completion stands: the ticket it resolved, then also the credential it created. */
  datatype Completion = Resolved(ticket: Id) | Enrolled(ticket: Id, credential: Id) | Undoing(ticket: Id, credential: Id)

  /** How a redemption ended: refused before a credential, spent, or refused with its credential taken back or left. */
  datatype Ending = CeremonyFailed | Redeemed(credential: Id) | Undone(credential: Id) | LeftBehind(credential: Id)

  datatype State = State(
    tickets: map<Id, Ticket>,
    issued: set<Id>,                   // every ticket there has ever been
    credentials: map<Id, Credential>,
    completions: map<nat, Completion>,
    endings: map<nat, Ending>,
    winners: map<Id, Id>)              // the credential each ticket was spent on

  const START := State(map[], {}, map[], map[], map[], map[])

  /** What the caller of the store hears: its answer, or an error before or after the write took effect. */
  datatype Answer = Answered | ErrorBefore | ErrorAfter

  datatype Step =
    | Replace(id: Id, subject: Id, expires: int)
    | RevokeTicket(id: Id)
    | Sweep(before: int)
    | Resolve(request: nat, id: Id, now: int)
    | Enrol(request: nat, credential: Id)
    | FailCeremony(request: nat)
    | Consume(request: nat, now: int, answer: Answer)
    | Undo(request: nat, answer: Answer)
    | RevokeCredential(id: Id)
    | Die(request: nat)

  /** Neither spent nor withdrawn. */
  predicate Live(t: Ticket) {
    t.consumed.None? && !t.revoked
  }

  predicate Redeemable(t: Ticket, now: int) {
    Live(t) && now < t.expires
  }

  /** Whatever the subject had live is revoked, and the replacement is inserted with it. */
  function Replaced(tickets: map<Id, Ticket>, id: Id, subject: Id, expires: int): map<Id, Ticket> {
    (map t | t in tickets ::
       if tickets[t].subject == subject && Live(tickets[t]) then tickets[t].(revoked := true) else tickets[t])
    [id := Ticket(subject, expires, None, false)]
  }

  function Swept(tickets: map<Id, Ticket>, before: int): map<Id, Ticket> {
    map t | t in tickets && tickets[t].expires >= before :: tickets[t]
  }

  function Revoke(s: State, id: Id): State
    requires id in s.credentials
  {
    s.(credentials := s.credentials[id := s.credentials[id].(revoked := true)])
  }

  function Ended(s: State, request: nat, ending: Ending): State {
    s.(completions := s.completions - {request}, endings := s.endings[request := ending])
  }

  /** The compare-and-swap: it spends a ticket that is still redeemable, and nothing else. */
  function Spend(s: State, ticket: Id, credential: Id, now: int): State {
    if ticket in s.tickets && Redeemable(s.tickets[ticket], now)
    then s.(tickets := s.tickets[ticket := s.tickets[ticket].(consumed := Some(credential))]) else s
  }

  function Consumed(s: State, request: nat, c: Completion, now: int, answer: Answer): State
    requires c.Enrolled?
  {
    var undoing := s.completions[request := Undoing(c.ticket, c.credential)];
    match answer
    case ErrorBefore => s.(completions := undoing)
    case ErrorAfter => Spend(s, c.ticket, c.credential, now).(completions := undoing)
    case Answered =>
      if c.ticket in s.tickets && Redeemable(s.tickets[c.ticket], now)
      then Ended(Spend(s, c.ticket, c.credential, now), request, Redeemed(c.credential))
           .(winners := s.winners[c.ticket := c.credential])
      else s.(completions := undoing)
  }

  function UndoDone(s: State, request: nat, c: Completion, answer: Answer): State
    requires c.Undoing? && c.credential in s.credentials
  {
    match answer
    case Answered => Ended(Revoke(s, c.credential), request, Undone(c.credential))
    case ErrorBefore => Ended(s, request, LeftBehind(c.credential))
    case ErrorAfter => Ended(Revoke(s, c.credential), request, LeftBehind(c.credential))
  }

  function Died(s: State, request: nat, c: Completion): State {
    Ended(s, request, if c.Resolved? then CeremonyFailed else LeftBehind(c.credential))
  }

  function Apply(s: State, step: Step): State {
    match step
    case Replace(id, subject, expires) =>
      if id !in s.issued
      then s.(tickets := Replaced(s.tickets, id, subject, expires), issued := s.issued + {id}) else s
    case RevokeTicket(id) =>
      if id in s.tickets && Live(s.tickets[id]) then s.(tickets := s.tickets[id := s.tickets[id].(revoked := true)]) else s
    case Sweep(before) => s.(tickets := Swept(s.tickets, before))
    case Resolve(request, id, now) =>
      if id in s.tickets && Redeemable(s.tickets[id], now) && request !in s.completions && request !in s.endings
      then s.(completions := s.completions[request := Resolved(id)]) else s
    case Enrol(request, credential) =>
      if request in s.completions && s.completions[request].Resolved? && credential !in s.credentials
      then s.(credentials := s.credentials[credential := Credential(s.completions[request].ticket, false)],
              completions := s.completions[request := Enrolled(s.completions[request].ticket, credential)])
      else s
    case FailCeremony(request) =>
      if request in s.completions && s.completions[request].Resolved? then Ended(s, request, CeremonyFailed) else s
    case Consume(request, now, answer) =>
      if request in s.completions && s.completions[request].Enrolled?
      then Consumed(s, request, s.completions[request], now, answer) else s
    case Undo(request, answer) =>
      if request in s.completions && s.completions[request].Undoing? && s.completions[request].credential in s.credentials
      then UndoDone(s, request, s.completions[request], answer) else s
    case RevokeCredential(id) => if id in s.credentials then Revoke(s, id) else s
    case Die(request) => if request in s.completions then Died(s, request, s.completions[request]) else s
  }

  /** The state a run from the start has reached. */
  function After(steps: seq<Step>): State {
    Run(Apply, START, steps)
  }

  // The invariant

  /** The request still answers for the credential. */
  predicate Holds(s: State, request: nat, credential: Id) {
    request in s.completions && !s.completions[request].Resolved? && s.completions[request].credential == credential
  }

  /** The request is over and could not take its credential back. */
  predicate Abandons(s: State, request: nat, credential: Id) {
    request in s.endings && s.endings[request] == LeftBehind(credential)
  }

  /** Every credential is revoked, or its ticket was spent on it, or a request has it in hand or has left it behind. */
  predicate AnsweredFor(s: State, id: Id) {
    id in s.credentials &&
    (s.credentials[id].revoked || (s.credentials[id].ticket in s.winners && s.winners[s.credentials[id].ticket] == id) ||
     (exists request <- s.completions :: Holds(s, request, id)) || (exists request <- s.endings :: Abandons(s, request, id)))
  }

  predicate CompletionOk(s: State, c: Completion) {
    c.ticket in s.issued &&
    (!c.Resolved? ==> c.credential in s.credentials && s.credentials[c.credential].ticket == c.ticket)
  }

  /** A redemption that was refused has left no usable credential, unless it could not be taken back. */
  predicate EndingOk(s: State, e: Ending) {
    match e
    case CeremonyFailed => true
    case Redeemed(c) => c in s.credentials && s.credentials[c].ticket in s.winners && s.winners[s.credentials[c].ticket] == c
    case Undone(c) => c in s.credentials && s.credentials[c].revoked
    case LeftBehind(c) => c in s.credentials
  }

  predicate TicketsOk(s: State) {
    (forall id <- s.tickets :: id in s.issued && !(s.tickets[id].consumed.Some? && s.tickets[id].revoked)) &&
    forall a, b :: (a in s.tickets && b in s.tickets && Live(s.tickets[a]) && Live(s.tickets[b]) &&
                    s.tickets[a].subject == s.tickets[b].subject) ==> a == b
  }

  /** A ticket that was spent is spent on its winner for good, if it is still there at all. */
  predicate WinnersOk(s: State) {
    forall id <- s.winners ::
      id in s.issued && s.winners[id] in s.credentials && s.credentials[s.winners[id]].ticket == id &&
      (id in s.tickets ==> s.tickets[id].consumed == Some(s.winners[id]))
  }

  predicate CompletionsOk(s: State) {
    forall n <- s.completions :: n !in s.endings && CompletionOk(s, s.completions[n])
  }

  predicate Inv(s: State) {
    (forall id <- s.credentials :: AnsweredFor(s, id)) && CompletionsOk(s) &&
    (forall n <- s.endings :: EndingOk(s, s.endings[n])) && TicketsOk(s) && WinnersOk(s)
  }

  predicate CredentialsGrow(s: map<Id, Credential>, t: map<Id, Credential>) {
    forall c <- s :: c in t && t[c].ticket == s[c].ticket && (s[c].revoked ==> t[c].revoked)
  }

  predicate WinnersGrow(s: map<Id, Id>, t: map<Id, Id>) {
    forall id <- s :: id in t && t[id] == s[id]
  }

  predicate EndingsGrow(s: map<nat, Ending>, t: map<nat, Ending>) {
    forall n <- s :: n in t && t[n] == s[n]
  }

  /** What no step takes back: credentials, their revocation, winners, endings and issued tickets. */
  predicate Grows(s: State, t: State) {
    CredentialsGrow(s.credentials, t.credentials) && WinnersGrow(s.winners, t.winners) &&
    EndingsGrow(s.endings, t.endings) && s.issued <= t.issued
  }

  lemma CredentialsOnlyGrow(s: State, step: Step)
    ensures CredentialsGrow(s.credentials, Apply(s, step).credentials)
  {
    var t := Apply(s, step);
    forall c | c in s.credentials
      ensures c in t.credentials && t.credentials[c].ticket == s.credentials[c].ticket &&
              (s.credentials[c].revoked ==> t.credentials[c].revoked)
    {
    }
  }

  lemma IssuedOnlyGrows(s: State, step: Step)
    ensures s.issued <= Apply(s, step).issued
  {
  }

  lemma WinnersOnlyGrow(s: State, step: Step)
    requires WinnersOk(s)
    ensures WinnersGrow(s.winners, Apply(s, step).winners)
  {
  }

  lemma EndingsOnlyGrow(s: State, step: Step)
    requires forall n <- s.completions :: n !in s.endings
    ensures EndingsGrow(s.endings, Apply(s, step).endings)
  {
  }

  lemma StepGrows(s: State, step: Step)
    requires CompletionsOk(s) && WinnersOk(s)
    ensures Grows(s, Apply(s, step))
  {
    CredentialsOnlyGrow(s, step);
    IssuedOnlyGrows(s, step);
    WinnersOnlyGrow(s, step);
    EndingsOnlyGrow(s, step);
  }

  lemma OneLiveTicketReplaced(tickets: map<Id, Ticket>, issued: set<Id>, id: Id, subject: Id, expires: int)
    requires TicketsOk(START.(tickets := tickets, issued := issued)) && id !in issued
    ensures TicketsOk(START.(tickets := Replaced(tickets, id, subject, expires), issued := issued + {id}))
  {
  }

  /** Where a ticket may stand after a step, given where it stood. */
  lemma TicketIsOldOrMoved(s: State, step: Step, id: Id)
    requires id in Apply(s, step).tickets && !step.Replace?
    ensures var t := Apply(s, step);
            id in s.tickets && t.issued == s.issued &&
            (t.tickets[id] == s.tickets[id] ||
             (Live(s.tickets[id]) && t.tickets[id] == s.tickets[id].(revoked := true)) ||
             (Live(s.tickets[id]) && exists c :: t.tickets[id] == s.tickets[id].(consumed := Some(c))))
  {
    if step.Consume? && Apply(s, step) != s {
      ConsumeMoves(s, step.request, s.completions[step.request], step.now, step.answer, id);
    }
  }

  lemma ConsumeMoves(s: State, request: nat, c: Completion, now: int, answer: Answer, id: Id)
    requires c.Enrolled? && id in Consumed(s, request, c, now, answer).tickets
    ensures var t := Consumed(s, request, c, now, answer);
            id in s.tickets && t.issued == s.issued &&
            (t.tickets[id] == s.tickets[id] ||
             (Live(s.tickets[id]) && t.tickets[id] == s.tickets[id].(consumed := Some(c.credential))))
  {
  }

  lemma TicketsKeep(s: State, step: Step)
    requires TicketsOk(s)
    ensures TicketsOk(Apply(s, step))
  {
    var t := Apply(s, step);
    if step.Replace? {
      if step.id !in s.issued {
        OneLiveTicketReplaced(s.tickets, s.issued, step.id, step.subject, step.expires);
      }
    } else {
      forall id | id in t.tickets
        ensures id in s.tickets && t.tickets[id].subject == s.tickets[id].subject
        ensures (Live(t.tickets[id]) ==> Live(s.tickets[id])) && !(t.tickets[id].consumed.Some? && t.tickets[id].revoked)
      {
        TicketIsOldOrMoved(s, step, id);
      }
    }
  }

  /** A ticket is spent for a winner in the same write, and only while nothing had spent it. */
  lemma WinnerIsOldOrSpent(s: State, step: Step, id: Id)
    requires CompletionsOk(s) && WinnersOk(s) && id in Apply(s, step).winners
    ensures var t := Apply(s, step);
            if id in s.winners then t.winners[id] == s.winners[id]
            else id in s.tickets && id in t.tickets && Live(s.tickets[id]) && t.tickets[id].consumed == Some(t.winners[id]) &&
                 t.winners[id] in s.credentials && s.credentials[t.winners[id]].ticket == id
  {
  }

  lemma WinnersKeep(s: State, step: Step)
    requires Inv(s)
    ensures WinnersOk(Apply(s, step))
  {
    var t := Apply(s, step);
    StepGrows(s, step);
    forall id | id in t.winners
      ensures id in t.issued && t.winners[id] in t.credentials && t.credentials[t.winners[id]].ticket == id
      ensures id in t.tickets ==> t.tickets[id].consumed == Some(t.winners[id])
    {
      WinnerIsOldOrSpent(s, step, id);
      SpentStaysSpent(s, step, id);
    }
  }

  lemma SpentStaysSpent(s: State, step: Step, id: Id)
    requires id in s.tickets ==> id in s.issued
    ensures var t := Apply(s, step);
            id in s.tickets && s.tickets[id].consumed.Some? && id in t.tickets ==> t.tickets[id] == s.tickets[id]
    ensures id in s.issued && id !in s.tickets ==> id !in Apply(s, step).tickets
  {
  }

  /** A request under way is one that was, or has just resolved its ticket, and it keeps to that ticket. */
  lemma CompletionIsOldOrMoved(s: State, step: Step, n: nat)
    requires n in Apply(s, step).completions
    ensures var t := Apply(s, step);
            if n !in s.completions then n !in s.endings && t.completions[n].Resolved? && t.completions[n].ticket in s.tickets
            else t.completions[n].ticket == s.completions[n].ticket &&
                 (t.completions[n].Resolved? ||
                  (!s.completions[n].Resolved? && t.completions[n].credential == s.completions[n].credential) ||
                  (t.completions[n].credential in t.credentials &&
                   t.credentials[t.completions[n].credential].ticket == t.completions[n].ticket))
  {
    if step.Consume? && Apply(s, step) != s {
      ConsumeKeepsTo(s, step.request, s.completions[step.request], step.now, step.answer, n);
    }
  }

  lemma ConsumeKeepsTo(s: State, request: nat, c: Completion, now: int, answer: Answer, n: nat)
    requires c.Enrolled? && request in s.completions && s.completions[request] == c
    requires n in Consumed(s, request, c, now, answer).completions
    ensures n in s.completions
    ensures var t := Consumed(s, request, c, now, answer).completions[n];
            t == s.completions[n] || (n == request && t == Undoing(c.ticket, c.credential))
  {
  }

  lemma EndedIsNotUnderWay(s: State, step: Step)
    requires forall n <- s.completions :: n !in s.endings
    ensures var t := Apply(s, step); forall n <- t.completions :: n !in t.endings
  {
  }

  lemma CompletionsKeep(s: State, step: Step)
    requires Inv(s)
    ensures CompletionsOk(Apply(s, step))
  {
    var t := Apply(s, step);
    StepGrows(s, step);
    TicketsKeep(s, step);
    EndedIsNotUnderWay(s, step);
    forall n | n in t.completions
      ensures CompletionOk(t, t.completions[n])
    {
      CompletionIsOldOrMoved(s, step, n);
    }
  }

  lemma EndingIsOldOrReached(s: State, step: Step, n: nat)
    requires CompletionsOk(s) && n in Apply(s, step).endings
    ensures var t := Apply(s, step); n in s.endings || EndingOk(t, t.endings[n])
  {
  }

  lemma EndingsKeep(s: State, step: Step)
    requires Inv(s)
    ensures var t := Apply(s, step); forall n <- t.endings :: EndingOk(t, t.endings[n])
  {
    var t := Apply(s, step);
    StepGrows(s, step);
    forall n | n in t.endings
      ensures EndingOk(t, t.endings[n])
    {
      EndingIsOldOrReached(s, step, n);
    }
  }

  /** A request that has a credential in hand keeps it, or ends in a way that answers for it. */
  lemma HeldMoves(s: State, step: Step, n: nat, id: Id)
    requires CompletionsOk(s) && Holds(s, n, id)
    ensures var t := Apply(s, step);
            id in t.credentials &&
            (Holds(t, n, id) || Abandons(t, n, id) || t.credentials[id].revoked ||
             (t.credentials[id].ticket in t.winners && t.winners[t.credentials[id].ticket] == id))
  {
    assert CompletionOk(s, s.completions[n]);
  }

  lemma HeldStaysAnsweredFor(s: State, step: Step, n: nat, id: Id)
    requires CompletionsOk(s) && Holds(s, n, id)
    ensures AnsweredFor(Apply(s, step), id)
  {
    HeldMoves(s, step, n, id);
  }

  lemma NewIsHeld(s: State, step: Step, id: Id)
    requires id in Apply(s, step).credentials && id !in s.credentials
    ensures AnsweredFor(Apply(s, step), id)
  {
    assert Holds(Apply(s, step), step.request, id);
  }

  lemma CredentialsKeep(s: State, step: Step)
    requires Inv(s)
    ensures var t := Apply(s, step); forall id <- t.credentials :: AnsweredFor(t, id)
  {
    var t := Apply(s, step);
    StepGrows(s, step);
    forall id | id in t.credentials
      ensures AnsweredFor(t, id)
    {
      if id !in s.credentials {
        NewIsHeld(s, step, id);
      } else if n :| n in s.completions && Holds(s, n, id) {
        HeldStaysAnsweredFor(s, step, n, id);
      } else if n :| n in s.endings && Abandons(s, n, id) {
        assert Abandons(t, n, id);
      } else {
        assert AnsweredFor(s, id);
      }
    }
  }

  lemma InvStep(s: State, step: Step)
    requires Inv(s)
    ensures Inv(Apply(s, step))
  {
    TicketsKeep(s, step);
    WinnersKeep(s, step);
    CompletionsKeep(s, step);
    EndingsKeep(s, step);
    CredentialsKeep(s, step);
  }

  lemma {:induction false} InvRun(steps: seq<Step>)
    ensures Inv(After(steps))
  {
    if |steps| > 0 {
      InvRun(steps[..|steps| - 1]);
      InvStep(After(steps[..|steps| - 1]), steps[|steps| - 1]);
    }
  }

  // The results

  /** The credentials created through a ticket that can still be used. */
  function UsableThrough(s: State, ticket: Id): set<Id> {
    set c <- s.credentials | s.credentials[c].ticket == ticket && !s.credentials[c].revoked
  }

  /** Those a request still has in hand, or could not take back. */
  function Unsettled(s: State): set<Id> {
    set c <- s.credentials | (exists n <- s.completions :: Holds(s, n, c)) || (exists n <- s.endings :: Abandons(s, n, c))
  }

  /**
   In every run, the usable credentials a ticket has brought about are the one it was
   spent on, those a request is still dealing with, and those that could not be taken
   back. With none of the latter two there is at most one.
   */
  lemma OneCredentialPerTicket(steps: seq<Step>, ticket: Id)
    ensures var s := After(steps);
            UsableThrough(s, ticket) <= Unsettled(s) + (if ticket in s.winners then {s.winners[ticket]} else {}) &&
            (Unsettled(s) * UsableThrough(s, ticket) == {} ==> |UsableThrough(s, ticket)| <= 1)
  {
    InvRun(steps);
    var s := After(steps);
    var winner := if ticket in s.winners then {s.winners[ticket]} else {};
    forall c | c in UsableThrough(s, ticket)
      ensures c in Unsettled(s) + winner
    {
      assert AnsweredFor(s, c);
    }
    if Unsettled(s) * UsableThrough(s, ticket) == {} {
      SubsetIsNoLarger(UsableThrough(s, ticket), winner);
    }
  }

  /** A ticket has more than one usable credential exactly when one besides another is unsettled. */
  lemma TwoCredentialsWhen(steps: seq<Step>, ticket: Id)
    ensures var s := After(steps);
            |UsableThrough(s, ticket)| >= 2 <==>
            exists c, d :: c in UsableThrough(s, ticket) && c in Unsettled(s) && d in UsableThrough(s, ticket) && d != c
  {
    OneCredentialPerTicket(steps, ticket);
    var s := After(steps);
    var usable := UsableThrough(s, ticket);
    if |usable| >= 2 {
      var c :| c in usable;
      var others := usable - {c};
      assert usable == others + {c};
      var d :| d in others;
      assert c in Unsettled(s) || d in Unsettled(s);
    }
    if c, d :| c in usable && d in usable && d != c {
      SubsetIsNoLarger({c, d}, usable);
    }
  }

  lemma RunNext(steps: seq<Step>, step: Step)
    ensures After(steps + [step]) == Apply(After(steps), step)
  {
    assert (steps + [step])[..|steps|] == steps;
  }

  const TWO_ENROL: seq<Step> :=
    [Replace("t", "u", 10), Resolve(1, "t", 0), Resolve(2, "t", 0), Enrol(1, "a"), Enrol(2, "b"), Consume(1, 0, Answered)]

  /** Two completions of one ticket have both enrolled, and the first has spent it. */
  const ONE_SPENT := State(
    map["t" := Ticket("u", 10, Some("a"), false)], {"t"},
    map["a" := Credential("t", false), "b" := Credential("t", false)],
    map[2 := Enrolled("t", "b")], map[1 := Redeemed("a")], map["t" := "a"])

  lemma Prefix(i: nat, s: State, t: State)
    requires i < 6 && After(TWO_ENROL[..i]) == s && Apply(s, TWO_ENROL[i]) == t
    ensures After(TWO_ENROL[..i + 1]) == t
  {
    RunNext(TWO_ENROL[..i], TWO_ENROL[i]);
    assert TWO_ENROL[..i] + [TWO_ENROL[i]] == TWO_ENROL[..i + 1];
  }

  lemma TwoResolve() returns (s: State)
    ensures s == After(TWO_ENROL[..3])
    ensures s == State(map["t" := Ticket("u", 10, None, false)], {"t"}, map[],
                       map[1 := Resolved("t"), 2 := Resolved("t")], map[], map[])
  {
    var s1 := START.(tickets := map["t" := Ticket("u", 10, None, false)], issued := {"t"});
    var s2 := s1.(completions := map[1 := Resolved("t")]);
    s := s1.(completions := map[1 := Resolved("t"), 2 := Resolved("t")]);
    Prefix(0, START, s1);
    Prefix(1, s1, s2);
    Prefix(2, s2, s);
  }

  lemma OneEnrols(s: State) returns (t: State)
    requires s == After(TWO_ENROL[..3])
    requires s == State(map["t" := Ticket("u", 10, None, false)], {"t"}, map[],
                        map[1 := Resolved("t"), 2 := Resolved("t")], map[], map[])
    ensures t == After(TWO_ENROL[..4])
    ensures t == s.(completions := map[1 := Enrolled("t", "a"), 2 := Resolved("t")],
                    credentials := map["a" := Credential("t", false)])
  {
    t := s.(completions := map[1 := Enrolled("t", "a"), 2 := Resolved("t")],
            credentials := map["a" := Credential("t", false)]);
    Prefix(3, s, t);
  }

  const BOTH_ENROLLED := State(
    map["t" := Ticket("u", 10, None, false)], {"t"},
    map["a" := Credential("t", false), "b" := Credential("t", false)],
    map[1 := Enrolled("t", "a"), 2 := Enrolled("t", "b")], map[], map[])

  lemma FirstSpends()
    ensures Apply(BOTH_ENROLLED, Consume(1, 0, Answered)) == ONE_SPENT
  {
  }

  lemma OtherEnrols(s: State)
    requires s == After(TWO_ENROL[..4])
    requires s.tickets == BOTH_ENROLLED.tickets && s.issued == {"t"} && s.credentials == map["a" := Credential("t", false)]
    requires s.completions == map[1 := Enrolled("t", "a"), 2 := Resolved("t")] && s.endings == map[] && s.winners == map[]
    ensures After(TWO_ENROL[..5]) == BOTH_ENROLLED
  {
    Prefix(4, s, BOTH_ENROLLED);
  }

  lemma TwoEnrol()
    ensures After(TWO_ENROL) == ONE_SPENT
  {
    var s3 := TwoResolve();
    var s4 := OneEnrols(s3);
    OtherEnrols(s4);
    FirstSpends();
    Prefix(5, BOTH_ENROLLED, ONE_SPENT);
    assert TWO_ENROL[..6] == TWO_ENROL;
  }

  /** A process that dies before it can take a credential back leaves a ticket with two, in a run from the start. */
  lemma DeathLeavesTwo()
    ensures var s := After(TWO_ENROL + [Die(2)]);
            |UsableThrough(s, "t")| == 2 && s.completions == map[] && 2 in s.endings && s.endings[2] == LeftBehind("b")
  {
    TwoEnrol();
    RunNext(TWO_ENROL, Die(2));
    assert UsableThrough(After(TWO_ENROL + [Die(2)]), "t") == {"a", "b"};
  }

  /** And so does a revocation that never reaches the store. */
  lemma LostUndoLeavesTwo()
    ensures |UsableThrough(After(TWO_ENROL + [Consume(2, 0, Answered)] + [Undo(2, ErrorBefore)]), "t")| == 2
  {
    TwoEnrol();
    RunNext(TWO_ENROL, Consume(2, 0, Answered));
    RunNext(TWO_ENROL + [Consume(2, 0, Answered)], Undo(2, ErrorBefore));
    assert UsableThrough(After(TWO_ENROL + [Consume(2, 0, Answered)] + [Undo(2, ErrorBefore)]), "t") == {"a", "b"};
  }

  /** A redemption that was refused has left no usable credential, unless taking it back failed or the process died. */
  lemma LosersLeaveNothing(steps: seq<Step>, request: nat)
    requires request in After(steps).endings
    ensures var s := After(steps);
            match s.endings[request]
            case CeremonyFailed => true
            case Undone(c) => c in s.credentials && s.credentials[c].revoked
            case LeftBehind(c) => c in Unsettled(s)
            case Redeemed(c) => c in s.credentials && s.credentials[c].ticket in s.winners && s.winners[s.credentials[c].ticket] == c
  {
    InvRun(steps);
    var s := After(steps);
    assert EndingOk(s, s.endings[request]);
    if s.endings[request].LeftBehind? {
      assert Abandons(s, request, s.endings[request].credential);
    }
  }

  /** A spent, withdrawn, replaced or lapsed ticket is spent by nobody: the write is the arbiter. */
  lemma OnlyLiveTicketsAreSpent(s: State, request: nat, now: int)
    requires Inv(s) && request in s.completions && s.completions[request].Enrolled?
    ensures var c := s.completions[request];
            var t := Apply(s, Consume(request, now, Answered));
            (request in t.endings && t.endings[request] == Redeemed(c.credential)) <==>
            c.ticket in s.tickets && s.tickets[c.ticket].consumed.None? && !s.tickets[c.ticket].revoked &&
            now < s.tickets[c.ticket].expires
    ensures s.completions[request].ticket in s.winners ==> request !in Apply(s, Consume(request, now, Answered)).endings
  {
  }

  /** Of two completions that have both enrolled on one ticket, whichever consumes second does not redeem it. */
  lemma SecondConsumerLoses(s: State, first: nat, second: nat, now: int, later: int, a: Answer)
    requires Inv(s) && first != second && first in s.completions && second in s.completions
    requires s.completions[first].Enrolled? && s.completions[second].Enrolled?
    requires s.completions[first].ticket == s.completions[second].ticket
    ensures var t := Apply(s, Consume(first, now, Answered));
            first in t.endings ==> second !in Apply(t, Consume(second, later, a)).endings
  {
  }

  /** The ticket can be redeemed at an instant: it is there, unspent, unrevoked, and has not lapsed. */
  predicate RedeemableAt(tickets: map<Id, Ticket>, id: Id, now: int) {
    id in tickets && tickets[id].consumed.None? && !tickets[id].revoked && now < tickets[id].expires
  }

  /**
   A new ticket can be redeemed from the start and until it lapses, and takes the place of
   whatever its subject held; nobody else's ticket changes, nor does anything but tickets.
   */
  lemma ReplacementStands(s: State, id: Id, subject: Id, expires: int, other: Id, now: int)
    requires Inv(s) && id !in s.issued && other != id
    ensures var t := Apply(s, Replace(id, subject, expires));
            t == s.(tickets := t.tickets, issued := t.issued) && id in t.issued &&
            id in t.tickets && t.tickets[id].subject == subject && (RedeemableAt(t.tickets, id, now) <==> now < expires) &&
            (RedeemableAt(t.tickets, other, now) <==> RedeemableAt(s.tickets, other, now) && s.tickets[other].subject != subject) &&
            (other in t.tickets <==> other in s.tickets) &&
            (other in s.tickets && (s.tickets[other].subject != subject || s.tickets[other].consumed.Some?) ==>
               t.tickets[other] == s.tickets[other])
  {
  }

  /** A completion starts only on a ticket that can be redeemed then; revoking a credential takes it out of use and no other. */
  lemma StartedAndRevoked(s: State, request: nat, id: Id, other: Id, now: int)
    requires Inv(s)
    ensures var t := Apply(s, Resolve(request, id, now));
            t == s.(completions := t.completions) &&
            (request in t.completions && request !in s.completions ==> RedeemableAt(s.tickets, id, now) && t.completions[request] == Resolved(id))
    ensures var t := Apply(s, RevokeCredential(id));
            t == s.(credentials := t.credentials) && t.credentials.Keys == s.credentials.Keys &&
            (other in s.credentials ==>
               t.credentials[other].ticket == s.credentials[other].ticket &&
               (t.credentials[other].revoked <==> s.credentials[other].revoked || other == id))
  {
  }

  /** Withdrawing a ticket ends that ticket; a sweep takes away exactly what had lapsed, which nobody could redeem any more. */
  lemma WithdrawnAndSwept(s: State, id: Id, other: Id, before: int, now: int)
    requires Inv(s) && before <= now
    ensures var t := Apply(s, RevokeTicket(id)).tickets;
            !RedeemableAt(t, id, now) && (other != id ==> (RedeemableAt(t, other, now) <==> RedeemableAt(s.tickets, other, now)))
    ensures var t := Apply(s, Sweep(before)).tickets;
            (other in t <==> other in s.tickets && s.tickets[other].expires >= before) &&
            (RedeemableAt(t, other, now) <==> RedeemableAt(s.tickets, other, now)) &&
            (other in t ==> t[other] == s.tickets[other])
  {
  }

  /** A subject never holds two tickets that could both be redeemed. */
  lemma OneLiveTicketPerSubject(steps: seq<Step>, a: Id, b: Id)
    requires var s := After(steps); a in s.tickets && b in s.tickets && Live(s.tickets[a]) && Live(s.tickets[b])
    ensures var s := After(steps); s.tickets[a].subject == s.tickets[b].subject ==> a == b
  {
    InvRun(steps);
  }

  /** Taking a credential back fails to exactly when the revocation never took effect; beside a winner that makes two. */
  lemma UndoneUnlessLost(s: State, request: nat, answer: Answer)
    requires Inv(s) && request in s.completions && s.completions[request].Undoing?
    requires !s.credentials[s.completions[request].credential].revoked
    ensures var c, t := s.completions[request], Apply(s, Undo(request, answer));
            (c.credential in UsableThrough(t, c.ticket) <==> answer == ErrorBefore) &&
            ((answer == ErrorBefore && c.ticket in s.winners && s.winners[c.ticket] != c.credential &&
              s.winners[c.ticket] in UsableThrough(s, c.ticket)) ==> |UsableThrough(t, c.ticket)| >= 2)
  {
    var c, t := s.completions[request], Apply(s, Undo(request, answer));
    assert CompletionOk(s, c);
    if answer == ErrorBefore && c.ticket in s.winners && s.winners[c.ticket] in UsableThrough(s, c.ticket) {
      SubsetIsNoLarger({c.credential, s.winners[c.ticket]}, UsableThrough(t, c.ticket));
    }
  }

  // The handler

  /** A step of the given request, as opposed to anybody else's. */
  predicate Of(step: Step, request: nat) {
    match step
    case Resolve(n, _, _) => n == request
    case Enrol(n, _) => n == request
    case FailCeremony(n) => n == request
    case Consume(n, _, _) => n == request
    case Undo(n, _) => n == request
    case Die(n) => n == request
    case _ => false
  }

  predicate Mine(s: State, t: State, request: nat) {
    (request in s.completions <==> request in t.completions) && (request in s.endings <==> request in t.endings) &&
    (request in s.completions ==> t.completions[request] == s.completions[request])
  }

  lemma OthersLeaveMine(s: State, step: Step, request: nat)
    requires !Of(step, request)
    ensures Mine(s, Apply(s, step), request)
  {
  }

  /** One ticket is spent on a credential, and no ticket is otherwise changed. */
  predicate SpentOn(before: map<Id, Ticket>, after: map<Id, Ticket>, id: Id, credential: Id) {
    before.Keys == after.Keys && id in before && before[id].consumed.None? &&
    (forall t <- before :: t != id ==> after[t] == before[t]) &&
    after[id] == Ticket(before[id].subject, before[id].expires, Some(credential), false)
  }

  /** An answered write spends the ticket when it can be redeemed, and leaves every ticket alone when it cannot. */
  lemma ConsumeDecides(s: State, request: nat, now: int, answer: Answer)
    requires Inv(s) && request in s.completions && s.completions[request].Enrolled?
    ensures var c, t := s.completions[request], Apply(s, Consume(request, now, answer));
            t.credentials == s.credentials &&
            (request in t.endings <==> answer == Answered && RedeemableAt(s.tickets, c.ticket, now)) &&
            (request in t.endings ==> SpentOn(s.tickets, t.tickets, c.ticket, c.credential)) &&
            (answer == Answered && request !in t.endings ==> t.tickets == s.tickets)
  {
  }

  datatype Reply = NotFound | Refused | Created(credential: Id)

  class Enrolment {
    var s: State
    ghost var trace: seq<Step>

    /** Nobody else is at work, and the store does what it is asked and answers. */
    const quiet: bool

    ghost predicate Valid()
      reads this
    {
      Leads(Apply, START, trace, s) && Inv(s)
    }

    constructor (quiet: bool)
      ensures Valid() && s == START && this.quiet == quiet
    {
      s, trace, this.quiet := START, [], quiet;
    }

    method Take(step: Step)
      requires Valid()
      modifies this
      ensures Valid() && s == Apply(old(s), step)
    {
      Advance(Apply, START, trace, s, step);
      InvStep(s, step);
      s := Apply(s, step);
      trace := trace + [step];
    }

    /** Whatever other requests, administrators and sweeps do. */
    method Others(request: nat)
      requires Valid()
      modifies this
      ensures Valid() && Mine(old(s), s, request) && CredentialsGrow(old(s.credentials), s.credentials)
      ensures quiet ==> s == old(s)
    {
      var steps: seq<Step> := *;
      if quiet {
        steps := [];
      }
      for i := 0 to |steps|
        invariant Valid() && Mine(old(s), s, request) && CredentialsGrow(old(s.credentials), s.credentials)
        invariant quiet ==> s == old(s)
      {
        if !Of(steps[i], request) {
          OthersLeaveMine(s, steps[i], request);
          CredentialsOnlyGrow(s, steps[i]);
          Take(steps[i]);
        }
      }
    }

    /** What comes back from a write. */
    method Answers() returns (answer: Answer)
      ensures quiet ==> answer == Answered
    {
      answer := Answered;
      if !quiet {
        answer := *;
      }
    }

    /** Revokes a credential that nothing authorises; a failure here is logged and not returned. */
    method UndoUnauthorisedEnrolment(request: nat, credential: Id) returns (undone: bool)
      requires Valid() && request in s.completions && s.completions[request].Undoing?
      requires s.completions[request].credential == credential
      modifies this
      ensures Valid() && request in s.endings && credential in s.credentials
      ensures s.endings[request] == if undone then Undone(credential) else LeftBehind(credential)
      ensures undone ==> s.credentials[credential].revoked
      ensures quiet ==> undone && s.tickets == old(s.tickets)
    {
      Others(request);
      var answer := Answers();
      assert CompletionOk(s, s.completions[request]);
      Take(Undo(request, answer));
      undone := answer == Answered;
    }

    /** Spends the ticket on the credential, or takes the credential back whatever the reason it could not be spent. */
    method SpendOrUndo(request: nat, ticket: Id, credential: Id, now: int) returns (reply: Reply)
      requires Valid() && request in s.completions && s.completions[request] == Enrolled(ticket, credential)
      modifies this
      ensures Valid() && request in s.endings && reply != NotFound
      ensures reply.Created? ==> reply.credential == credential && s.endings[request] == Redeemed(credential) &&
                                 ticket in s.winners && s.winners[ticket] == credential &&
                                 ticket in s.tickets && s.tickets[ticket].consumed == Some(credential)
      ensures reply == Refused ==>
                s.endings[request] == LeftBehind(credential) ||
                (s.endings[request] == Undone(credential) && credential in s.credentials && s.credentials[credential].revoked)
      ensures quiet ==> (reply.Created? <==> RedeemableAt(old(s.tickets), ticket, now))
      ensures quiet && reply.Created? ==> s.credentials == old(s.credentials) && SpentOn(old(s.tickets), s.tickets, ticket, credential)
      ensures quiet && reply == Refused ==> s.endings[request] == Undone(credential) && s.tickets == old(s.tickets)
    {
      assert CompletionOk(s, s.completions[request]);
      var answer := Answers();
      ConsumeDecides(s, request, now, answer);
      Take(Consume(request, now, answer));
      if request in s.endings {
        WonTicket(s, request, ticket, credential);
        return Created(credential);
      }
      var undone := UndoUnauthorisedEnrolment(request, credential);
      reply := Refused;
    }

    /** Creates the credential of a ceremony that succeeded, and spends the ticket on it. */
    method EnrolAndSpend(request: nat, ticket: Id, credential: Id, now: int) returns (reply: Reply)
      requires Valid() && request in s.completions && s.completions[request] == Resolved(ticket) && credential !in s.credentials
      modifies this
      ensures Valid() && request in s.endings && reply != NotFound
      ensures reply.Created? ==> reply.credential == credential && s.endings[request] == Redeemed(credential) &&
                                 ticket in s.winners && s.winners[ticket] == credential &&
                                 ticket in s.tickets && s.tickets[ticket].consumed == Some(credential)
      ensures reply == Refused ==>
                s.endings[request] == LeftBehind(credential) ||
                (s.endings[request] == Undone(credential) && credential in s.credentials && s.credentials[credential].revoked)
      ensures quiet ==> (reply.Created? <==> RedeemableAt(old(s.tickets), ticket, now))
      ensures quiet && reply.Created? ==>
                s.credentials == old(s.credentials)[credential := Credential(ticket, false)] &&
                SpentOn(old(s.tickets), s.tickets, ticket, credential)
      ensures quiet && reply == Refused ==> s.endings[request] == Undone(credential) && s.tickets == old(s.tickets)
    {
      Take(Enrol(request, credential));
      Others(request);
      reply := SpendOrUndo(request, ticket, credential, now);
    }

    /**
     Completes a registration against a ticket. A created reply means the ceremony
     succeeded and the ticket was spent on that credential; any other reply leaves none
     that can be used, unless the revocation of one failed. With nobody else at work a
     ticket that is good at both looks is redeemed, and one that has lapsed in between
     takes the credential back with it.
     */
    method Complete(request: nat, ticket: Id, credential: Id, now: int, later: int, ceremonyOk: bool) returns (reply: Reply)
      requires Valid() && request !in s.completions && request !in s.endings && credential !in s.credentials
      modifies this
      ensures Valid() && (reply == NotFound || request in s.endings)
      ensures reply == NotFound <==> !RedeemableAt(old(s.tickets), ticket, now)
      ensures reply == NotFound ==> s == old(s)
      ensures reply.Created? ==> ceremonyOk && reply.credential == credential && s.endings[request] == Redeemed(credential) &&
                                 ticket in s.winners && s.winners[ticket] == credential &&
                                 ticket in s.tickets && s.tickets[ticket].consumed == Some(credential)
      ensures !ceremonyOk && reply != NotFound ==> reply == Refused && s.endings[request] == CeremonyFailed
      ensures reply == Refused ==>
                match s.endings[request]
                case CeremonyFailed => true
                case Undone(c) => c == credential && c in s.credentials && s.credentials[c].revoked
                case LeftBehind(c) => c == credential
                case Redeemed(_) => false
      ensures quiet && ceremonyOk ==>
                (reply.Created? <==> RedeemableAt(old(s.tickets), ticket, now) && RedeemableAt(old(s.tickets), ticket, later))
      ensures quiet && reply.Created? ==>
                SpentOn(old(s.tickets), s.tickets, ticket, credential) && credential in UsableThrough(s, ticket) &&
                forall c <- old(s.credentials) :: c in s.credentials && s.credentials[c] == old(s.credentials[c])
      ensures quiet && reply == Refused ==>
                s.tickets == old(s.tickets) &&
                (ceremonyOk ==> s.endings[request] == Undone(credential)) && (!ceremonyOk ==> s.credentials == old(s.credentials))
    {
      if !(ticket in s.tickets && Redeemable(s.tickets[ticket], now)) {
        return NotFound;
      }
      Take(Resolve(request, ticket, now));
      Others(request);
      if !ceremonyOk || credential in s.credentials {
        Take(FailCeremony(request));
        return Refused;
      }
      reply := EnrolAndSpend(request, ticket, credential, later);
    }
  }

  lemma WonTicket(s: State, request: nat, ticket: Id, credential: Id)
    requires Inv(s) && request in s.endings && s.endings[request] == Redeemed(credential)
    requires credential in s.credentials && s.credentials[credential].ticket == ticket
    ensures ticket in s.winners && s.winners[ticket] == credential
  {
    assert EndingOk(s, s.endings[request]);
  }
}
