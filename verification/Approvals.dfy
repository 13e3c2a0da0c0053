/**
 Dual approval as a system of atomic steps: one administrator asks, another decides, the
 first one redeems, and redemption reads and checks in one step and claims in another.

 Case folding, trimming and the rounding of numbers are parameters. Administrators are
 known by token; rotating a token keeps the principal behind it.
 */
module Approvals {
  import opened Prelude
  import opened Sets
  import opened Runs

  // Payload documents

  datatype Doc =
    | Null
    | Bool(b: bool)
    | Number(n: real)
    | Text(s: string)
    | List(items: seq<Doc>)
    | Object(members: seq<Member>)

  datatype Member = Member(name: string, value: Doc)

  /** What a document decodes to: members by name, and numbers as the float nearest to them. */
  datatype Json =
    | JNull
    | JBool(b: bool)
    | JNumber(n: real)
    | JText(s: string)
    | JList(items: seq<Json>)
    | JObject(members: map<string, Json>)

  type Rounding = real -> real

  function Decode(round: Rounding, d: Doc): Json {
    match d
    case Null => JNull
    case Bool(b) => JBool(b)
    case Number(n) => JNumber(round(n))
    case Text(s) => JText(s)
    case List(items) => JList(seq(|items|, i requires 0 <= i < |items| => Decode(round, items[i])))
    case Object(members) => JObject(DecodeMembers(round, members))
  }

  /** A name given twice keeps its last value. */
  function DecodeMembers(round: Rounding, members: seq<Member>): map<string, Json> {
    if |members| == 0 then map[]
    else DecodeMembers(round, members[..|members| - 1])[members[|members| - 1].name := Decode(round, members[|members| - 1].value)]
  }

  /** What a map reads from, or is written as: an object, or null for no map at all. */
  type Payload = d: Doc | d.Object? || d.Null? witness Null

  predicate SamePayload(round: Rounding, stored: Doc, presented: Payload) {
    (stored.Object? || stored.Null?) && Decode(round, stored) == Decode(round, presented)
  }

  predicate NamesDistinct(members: seq<Member>) {
    forall i, j :: 0 <= i < j < |members| ==> members[i].name != members[j].name
  }

  /** No object in the document names a member twice, as the documents the service writes never do. */
  predicate Plain(d: Doc) {
    match d
    case List(items) => forall i :: 0 <= i < |items| ==> Plain(items[i])
    case Object(members) => NamesDistinct(members) && forall i :: 0 <= i < |members| ==> Plain(members[i].value)
    case _ => true
  }

  /** The same document up to the order of members and the rounding of numbers. */
  predicate Alike(round: Rounding, a: Doc, b: Doc) {
    match (a, b)
    case (Null, Null) => true
    case (Bool(x), Bool(y)) => x == y
    case (Number(x), Number(y)) => round(x) == round(y)
    case (Text(x), Text(y)) => x == y
    case (List(x), List(y)) => |x| == |y| && forall i :: 0 <= i < |x| ==> Alike(round, x[i], y[i])
    case (Object(x), Object(y)) =>
      MembersMatch(round, x, y)
    case _ => false
  }

  function Values(round: Rounding, members: seq<Member>): (v: seq<Json>)
    ensures |v| == |members| && forall i :: 0 <= i < |v| ==> v[i] == Decode(round, members[i].value)
  {
    seq(|members|, i requires 0 <= i < |members| => Decode(round, members[i].value))
  }

  /** The map holds each member's value under its name, and nothing else. */
  ghost predicate HoldsMembers(m: map<string, Json>, members: seq<Member>, values: seq<Json>) {
    |m| == |members| == |values| &&
    (forall i :: 0 <= i < |members| ==> members[i].name in m && m[members[i].name] == values[i]) &&
    forall name <- m :: Names(members, name)
  }

  predicate Names(members: seq<Member>, name: string) {
    exists i :: 0 <= i < |members| && members[i].name == name
  }

  lemma OneMoreMember(m: map<string, Json>, members: seq<Member>, values: seq<Json>, last: Member, v: Json)
    requires HoldsMembers(m, members, values) && last.name !in m
    ensures HoldsMembers(m[last.name := v], members + [last], values + [v])
  {
    var longer, more, all := members + [last], m[last.name := v], values + [v];
    assert more.Keys == m.Keys + {last.name};
    forall i | 0 <= i < |longer|
      ensures longer[i].name in more && more[longer[i].name] == all[i]
    {
      if i < |members| {
        assert longer[i] == members[i] && members[i].name in m && all[i] == values[i];
      }
    }
    forall name | name in more
      ensures Names(longer, name)
    {
      if name == last.name {
        assert longer[|members|].name == name;
      } else {
        assert Names(members, name);
        var i :| 0 <= i < |members| && members[i].name == name;
        assert longer[i].name == name;
      }
    }
  }

  lemma {:induction false} MembersDecoded(round: Rounding, members: seq<Member>)
    requires NamesDistinct(members)
    ensures HoldsMembers(DecodeMembers(round, members), members, Values(round, members))
  {
    if |members| > 0 {
      var n := |members| - 1;
      var init, last := members[..n], members[n];
      MembersDecoded(round, init);
      assert members == init + [last];
      assert last.name !in DecodeMembers(round, init);
      OneMoreMember(DecodeMembers(round, init), init, Values(round, init), last, Decode(round, last.value));
      assert Values(round, members) == Values(round, init) + [Decode(round, last.value)];
    }
  }

  /** Each member of one object has a member of the other with its name and a document like its own. */
  predicate MembersMatch(round: Rounding, x: seq<Member>, y: seq<Member>) {
    |x| == |y| && forall i :: 0 <= i < |x| ==> Matched(round, x, y, i)
  }

  predicate Matched(round: Rounding, x: seq<Member>, y: seq<Member>, i: nat)
    requires i < |x|
  {
    exists j :: 0 <= j < |y| && x[i].name == y[j].name && Alike(round, x[i].value, y[j].value)
  }

  /** The same with decoded values in the place of documents. */
  predicate Paired(x: seq<Member>, vx: seq<Json>, y: seq<Member>, vy: seq<Json>, i: nat)
    requires i < |x| == |vx| && |y| == |vy|
  {
    exists j :: 0 <= j < |y| && x[i].name == y[j].name && vx[i] == vy[j]
  }

  lemma EqualMapsPair(m: map<string, Json>, x: seq<Member>, vx: seq<Json>, y: seq<Member>, vy: seq<Json>, i: nat)
    requires HoldsMembers(m, x, vx) && HoldsMembers(m, y, vy) && i < |x|
    ensures Paired(x, vx, y, vy, i)
  {
    assert Names(y, x[i].name);
    var j :| 0 <= j < |y| && y[j].name == x[i].name;
    assert vy[j] == m[y[j].name];
  }

  /** Objects of one size whose members pair up are one map. */
  lemma PairedMapsAreEqual(dx: map<string, Json>, x: seq<Member>, vx: seq<Json>, dy: map<string, Json>, y: seq<Member>, vy: seq<Json>)
    requires HoldsMembers(dx, x, vx) && HoldsMembers(dy, y, vy) && |x| == |y|
    requires forall i :: 0 <= i < |x| ==> Paired(x, vx, y, vy, i)
    ensures dx == dy
  {
    forall name | name in dx
      ensures name in dy && dx[name] == dy[name]
    {
      assert Names(x, name);
      var i :| 0 <= i < |x| && x[i].name == name;
      assert Paired(x, vx, y, vy, i);
    }
    assert |dx.Keys| == |dx| && |dy.Keys| == |dy|;
    SubsetIsNoLarger(dx.Keys, dy.Keys);
  }

  /** Objects decode alike exactly when their members match. */
  lemma ObjectsAlike(round: Rounding, x: seq<Member>, y: seq<Member>)
    requires NamesDistinct(x) && NamesDistinct(y)
    requires forall i, j :: 0 <= i < |x| && 0 <= j < |y| ==>
               (Values(round, x)[i] == Values(round, y)[j] <==> Alike(round, x[i].value, y[j].value))
    ensures DecodeMembers(round, x) == DecodeMembers(round, y) <==> MembersMatch(round, x, y)
  {
    var dx, dy, vx, vy := DecodeMembers(round, x), DecodeMembers(round, y), Values(round, x), Values(round, y);
    MembersDecoded(round, x);
    MembersDecoded(round, y);
    forall i | 0 <= i < |x|
      ensures Paired(x, vx, y, vy, i) <==> Matched(round, x, y, i)
    {
      if Paired(x, vx, y, vy, i) {
        var j :| 0 <= j < |y| && x[i].name == y[j].name && vx[i] == vy[j];
        assert vx[i] == Values(round, x)[i] && vy[j] == Values(round, y)[j];
        assert Alike(round, x[i].value, y[j].value);
        assert Matched(round, x, y, i);
      }
      if Matched(round, x, y, i) {
        var j :| 0 <= j < |y| && x[i].name == y[j].name && Alike(round, x[i].value, y[j].value);
        assert vx[i] == vy[j];
        assert Paired(x, vx, y, vy, i);
      }
    }
    if dx == dy {
      forall i | 0 <= i < |x|
        ensures Paired(x, vx, y, vy, i)
      {
        EqualMapsPair(dx, x, vx, y, vy, i);
      }
    }
    if MembersMatch(round, x, y) {
      PairedMapsAreEqual(dx, x, vx, dy, y, vy);
    }
  }

  /** Two documents decode alike exactly when they differ in member order and in nothing else but numbers that round alike. */
  lemma {:induction false} DecodesAlike(round: Rounding, a: Doc, b: Doc)
    requires Plain(a) && Plain(b)
    ensures Decode(round, a) == Decode(round, b) <==> Alike(round, a, b)
    decreases a
  {
    match (a, b)
    case (List(x), List(y)) =>
      assert |Decode(round, a).items| == |x| && |Decode(round, b).items| == |y|;
      if |x| == |y| {
        forall i | 0 <= i < |x|
          ensures Decode(round, x[i]) == Decode(round, y[i]) <==> Alike(round, x[i], y[i])
        {
          DecodesAlike(round, x[i], y[i]);
        }
        var dx, dy := Decode(round, a).items, Decode(round, b).items;
        assert Decode(round, a) == JList(dx) && Decode(round, b) == JList(dy);
        assert dx == dy <==> forall i :: 0 <= i < |x| ==> dx[i] == dy[i];
        assert forall i :: 0 <= i < |x| ==> dx[i] == Decode(round, x[i]) && dy[i] == Decode(round, y[i]);
      }
    case (Object(x), Object(y)) =>
      forall i, j | 0 <= i < |x| && 0 <= j < |y|
        ensures Values(round, x)[i] == Values(round, y)[j] <==> Alike(round, x[i].value, y[j].value)
      {
        DecodesAlike(round, x[i].value, y[j].value);
      }
      ObjectsAlike(round, x, y);
    case _ =>
  }

  /**
   A stored document is taken for a presented payload exactly when it is an object or
   null and differs in member order, and in nothing else but numbers that round alike.
   */
  lemma SamePayloadIsAlike(round: Rounding, stored: Doc, presented: Payload)
    requires Plain(stored) && Plain(presented)
    ensures SamePayload(round, stored, presented) <==> Alike(round, stored, presented)
  {
    DecodesAlike(round, stored, presented);
  }

  // The system

  datatype Config = Config(fold: string -> string, trim: string -> string, round: Rounding, ttl: int)

  datatype Status = Pending | Approved | Rejected | Expired | Executed

  datatype Decision = Decision(who: string, at: int)

  datatype Token = Token(tenant: string, principal: string)

  datatype Approval = Approval(
    tenant: string, operation: string, payload: Payload, status: Status,
    requestedBy: string, expiresAt: int, decision: Option<Decision>)

  /** A redemption that has passed its checks: who asked for what, under which approval, and when. */
  datatype Attempt = Attempt(caller: string, id: string, operation: string, payload: Payload, checkedAt: int)

  datatype State = State(
    tokens: map<string, Token>,
    approvals: map<string, Approval>,
    attempts: map<nat, Attempt>,  // checked, and not yet claimed
    released: seq<Attempt>)       // operations let through, in order

  datatype Step =
    | Issue(token: string, tenant: string)
    | Rotate(prior: string, token: string)
    | Request(caller: string, id: string, operation: string, payload: Payload, now: int)
    | Decide(caller: string, id: string, approve: bool, now: int)
    | Expire(before: int)
    | Check(attempt: nat, what: Attempt, stored: Doc)
    | Claim(attempt: nat, answered: bool)

  /** Whether two identifiers name one administrator: case and surrounding space do not matter. */
  predicate Same(c: Config, a: string, b: string) {
    c.fold(c.trim(a)) == c.fold(c.trim(b))
  }

  function Principal(c: Config, s: State, tenant: string, token: string): string {
    var t := c.trim(token);
    if t in s.tokens && s.tokens[t].tenant == tenant then s.tokens[t].principal else token
  }

  /** Token identifiers are generated: trimmed already, and taken for no other token. */
  predicate Unused(c: Config, s: State, token: string) {
    c.trim(token) == token && token != "" && forall t <- s.tokens :: !Same(c, t, token)
  }

  predicate Decidable(c: Config, s: State, caller: string, id: string, now: int) {
    caller in s.tokens && id in s.approvals &&
    var a, tenant := s.approvals[id], s.tokens[caller].tenant;
    a.tenant == tenant && a.status == Pending && now < a.expiresAt &&
    !Same(c, Principal(c, s, tenant, a.requestedBy), Principal(c, s, tenant, caller))
  }

  /** The store may hand the payload back with its members in another order. */
  predicate Redeemable(c: Config, s: State, w: Attempt, stored: Doc) {
    w.caller in s.tokens && w.id in s.approvals &&
    var a := s.approvals[w.id];
    a.tenant == s.tokens[w.caller].tenant && SamePayload(c.round, stored, a.payload) &&
    a.operation == w.operation && Same(c, a.requestedBy, w.caller) && a.status == Approved &&
    w.checkedAt < a.expiresAt && SamePayload(c.round, stored, w.payload)
  }

  function Decided(a: Approval, approve: bool, who: string, now: int): Approval {
    a.(status := if approve then Approved else Rejected, decision := Some(Decision(who, now)))
  }

  function ExpireAll(approvals: map<string, Approval>, before: int): map<string, Approval> {
    map id | id in approvals ::
      if approvals[id].status == Pending && approvals[id].expiresAt < before
      then approvals[id].(status := Expired) else approvals[id]
  }

  function Claimed(s: State, attempt: nat, answered: bool): State
    requires attempt in s.attempts
  {
    var w := s.attempts[attempt];
    var rest := s.(attempts := s.attempts - {attempt});
    if w.id !in s.approvals || s.approvals[w.id].status != Approved then rest
    else
      var spent := rest.(approvals := s.approvals[w.id := s.approvals[w.id].(status := Executed)]);
      if answered then spent.(released := s.released + [w]) else spent
  }

  function Apply(c: Config, s: State, step: Step): State {
    match step
    case Issue(token, tenant) =>
      if Unused(c, s, token) then s.(tokens := s.tokens[token := Token(tenant, token)]) else s
    case Rotate(prior, token) =>
      if prior in s.tokens && Unused(c, s, token) then s.(tokens := s.tokens[token := s.tokens[prior]]) else s
    case Request(caller, id, operation, payload, now) =>
      if caller in s.tokens && id !in s.approvals && operation != "" && c.trim(caller) != ""
      then s.(approvals := s.approvals[id := Approval(s.tokens[caller].tenant, operation, payload, Pending, caller,
                                                      now + c.ttl, None)])
      else s
    case Decide(caller, id, approve, now) =>
      if Decidable(c, s, caller, id, now)
      then s.(approvals := s.approvals[id := Decided(s.approvals[id], approve, caller, now)]) else s
    case Expire(before) => s.(approvals := ExpireAll(s.approvals, before))
    case Check(attempt, w, stored) =>
      if Redeemable(c, s, w, stored) && attempt !in s.attempts then s.(attempts := s.attempts[attempt := w]) else s
    case Claim(attempt, answered) => if attempt in s.attempts then Claimed(s, attempt, answered) else s
  }

  function Next(c: Config): (State, Step) -> State {
    (s, step) => Apply(c, s, step)
  }

  const START := State(map[], map[], map[], [])

  /** The state a run from the start has reached. */
  function After(c: Config, steps: seq<Step>): State {
    Run(Next(c), START, steps)
  }

  // The invariant

  predicate TokensOk(c: Config, s: State) {
    (forall t <- s.tokens :: c.trim(t) == t) &&
    forall t, u :: t in s.tokens && u in s.tokens && Same(c, t, u) ==> t == u
  }

  /** The principals behind a request and behind a decision are different administrators. */
  predicate TwoPeople(c: Config, s: State, a: Approval) {
    a.decision.Some? && a.decision.value.who in s.tokens && a.requestedBy in s.tokens &&
    s.tokens[a.decision.value.who].tenant == a.tenant &&
    !Same(c, s.tokens[a.requestedBy].principal, s.tokens[a.decision.value.who].principal)
  }

  predicate ApprovalOk(c: Config, s: State, a: Approval) {
    a.requestedBy in s.tokens && s.tokens[a.requestedBy].tenant == a.tenant &&
    (a.status == Pending || a.status == Expired ==> a.decision.None?) &&
    (a.status == Approved || a.status == Executed ==> TwoPeople(c, s, a) && a.decision.value.at < a.expiresAt)
  }

  /** What redemption has checked, and what no step takes back. */
  predicate Cleared(c: Config, s: State, w: Attempt) {
    w.id in s.approvals && w.caller in s.tokens &&
    var a := s.approvals[w.id];
    a.operation == w.operation && SamePayload(c.round, a.payload, w.payload) && w.caller == a.requestedBy &&
    w.checkedAt < a.expiresAt && (a.status == Approved || a.status == Executed)
  }

  predicate ReleasesOk(c: Config, s: State) {
    (forall w <- s.released :: Cleared(c, s, w) && s.approvals[w.id].status == Executed) &&
    forall i, j :: 0 <= i < j < |s.released| ==> s.released[i].id != s.released[j].id
  }

  predicate Inv(c: Config, s: State) {
    TokensOk(c, s) && (forall id <- s.approvals :: ApprovalOk(c, s, s.approvals[id])) &&
    (forall n <- s.attempts :: Cleared(c, s, s.attempts[n])) && ReleasesOk(c, s)
  }

  /** Tokens and approvals only ever grow into ones that support what was established before. */
  predicate Supports(s: State, t: State) {
    (forall k <- s.tokens :: k in t.tokens && t.tokens[k] == s.tokens[k]) &&
    forall id <- s.approvals :: id in t.approvals && Advances(s.approvals[id], t.approvals[id])
  }

  predicate Advances(a: Approval, b: Approval) {
    b == a.(status := b.status, decision := b.decision) &&
    (a.status == Approved ==> b.decision == a.decision && (b.status == Approved || b.status == Executed)) &&
    (a.status == Executed ==> b == a)
  }

  lemma ClearedStays(c: Config, s: State, t: State, w: Attempt)
    requires Cleared(c, s, w) && Supports(s, t)
    ensures Cleared(c, t, w)
    ensures s.approvals[w.id].status == Executed ==> t.approvals[w.id].status == Executed
  {
    assert Advances(s.approvals[w.id], t.approvals[w.id]);
  }

  lemma StepSupports(c: Config, s: State, step: Step)
    ensures Supports(s, Apply(c, s, step))
  {
  }

  lemma TokensKeep(c: Config, s: State, step: Step)
    requires TokensOk(c, s)
    ensures TokensOk(c, Apply(c, s, step))
  {
  }

  /** An approval changes by being requested, decided, expired or claimed, one at a time but for expiry. */
  lemma ApprovalIsOldOrMoved(c: Config, s: State, step: Step, id: string)
    requires id in Apply(c, s, step).approvals
    ensures var t := Apply(c, s, step);
            (id in s.approvals && t.approvals[id] == s.approvals[id]) ||
            (id !in s.approvals && step == Request(t.approvals[id].requestedBy, id, t.approvals[id].operation, t.approvals[id].payload,
                                                   t.approvals[id].expiresAt - c.ttl) &&
             step.caller in s.tokens && t.approvals[id].tenant == s.tokens[step.caller].tenant &&
             t.approvals[id].status == Pending && t.approvals[id].decision.None?) ||
            (id in s.approvals && step.Decide? && Decidable(c, s, step.caller, id, step.now) &&
             t.approvals[id] == Decided(s.approvals[id], step.approve, step.caller, step.now)) ||
            (id in s.approvals && s.approvals[id].status == Pending && t.approvals[id] == s.approvals[id].(status := Expired)) ||
            (id in s.approvals && s.approvals[id].status == Approved && t.approvals[id] == s.approvals[id].(status := Executed))
  {
  }

  lemma ApprovalsKeep(c: Config, s: State, step: Step)
    requires Inv(c, s)
    ensures var t := Apply(c, s, step); forall id <- t.approvals :: ApprovalOk(c, t, t.approvals[id])
  {
    var t := Apply(c, s, step);
    StepSupports(c, s, step);
    forall id | id in t.approvals
      ensures ApprovalOk(c, t, t.approvals[id])
    {
      ApprovalIsOldOrMoved(c, s, step, id);
    }
  }

  /** Passing the checks is being cleared: the redeemer is the requester, token for token. */
  lemma CheckClears(c: Config, s: State, w: Attempt, stored: Doc)
    requires TokensOk(c, s) && Redeemable(c, s, w, stored) && ApprovalOk(c, s, s.approvals[w.id])
    ensures Cleared(c, s, w)
  {
  }

  lemma AttemptIsOldOrChecked(c: Config, s: State, step: Step, n: nat)
    requires n in Apply(c, s, step).attempts
    ensures var t := Apply(c, s, step);
            if n in s.attempts then t.attempts[n] == s.attempts[n]
            else step.Check? && Redeemable(c, s, step.what, step.stored) && t == s.(attempts := s.attempts[n := step.what])
  {
  }

  lemma AttemptsKeep(c: Config, s: State, step: Step)
    requires Inv(c, s)
    ensures var t := Apply(c, s, step); forall n <- t.attempts :: Cleared(c, t, t.attempts[n])
  {
    var t := Apply(c, s, step);
    StepSupports(c, s, step);
    forall n | n in t.attempts
      ensures Cleared(c, t, t.attempts[n])
    {
      AttemptIsOldOrChecked(c, s, step, n);
      if n !in s.attempts {
        CheckClears(c, s, step.what, step.stored);
      }
      ClearedStays(c, s, t, t.attempts[n]);
    }
  }

  /** An operation is released only by a claim that finds its approval unspent. */
  lemma ReleaseIsOldOrClaimed(c: Config, s: State, step: Step)
    ensures var t := Apply(c, s, step);
            t.released != s.released ==>
              step.Claim? && step.attempt in s.attempts &&
              var w := s.attempts[step.attempt];
              t.released == s.released + [w] && w.id in s.approvals && s.approvals[w.id].status == Approved &&
              w.id in t.approvals && t.approvals[w.id].status == Executed
  {
  }

  lemma ReleasesKeep(c: Config, s: State, step: Step)
    requires Inv(c, s)
    ensures ReleasesOk(c, Apply(c, s, step))
  {
    var t := Apply(c, s, step);
    StepSupports(c, s, step);
    ReleaseIsOldOrClaimed(c, s, step);
    forall i | 0 <= i < |t.released|
      ensures Cleared(c, t, t.released[i]) && t.approvals[t.released[i].id].status == Executed
      ensures t.released != s.released && i < |s.released| ==> t.released[i].id != s.attempts[step.attempt].id
    {
      if i < |s.released| {
        assert s.released[i] in s.released;
        ClearedStays(c, s, t, s.released[i]);
      } else {
        ClearedStays(c, s, t, s.attempts[step.attempt]);
      }
    }
  }

  lemma InvStep(c: Config, s: State, step: Step)
    requires Inv(c, s)
    ensures Inv(c, Apply(c, s, step))
  {
    TokensKeep(c, s, step);
    ApprovalsKeep(c, s, step);
    AttemptsKeep(c, s, step);
    ReleasesKeep(c, s, step);
  }

  lemma {:induction false} InvRun(c: Config, steps: seq<Step>)
    ensures Inv(c, After(c, steps))
  {
    if |steps| > 0 {
      InvRun(c, steps[..|steps| - 1]);
      InvStep(c, After(c, steps[..|steps| - 1]), steps[|steps| - 1]);
    }
  }

  // What a released operation was

  /** The k-th step of a run is the check of an attempt, and it finds the approval redeemable then and there. */
  ghost predicate CheckedAt(c: Config, steps: seq<Step>, k: nat, w: Attempt) {
    k < |steps| && steps[k].Check? && steps[k].what == w &&
    Redeemable(c, After(c, steps[..k]), w, steps[k].stored)
  }

  ghost predicate Checked(c: Config, steps: seq<Step>, w: Attempt) {
    exists k: nat :: CheckedAt(c, steps, k, w)
  }

  lemma CheckedBefore(c: Config, steps: seq<Step>, w: Attempt)
    requires |steps| > 0 && Checked(c, steps[..|steps| - 1], w)
    ensures Checked(c, steps, w)
  {
    var init := steps[..|steps| - 1];
    var k: nat :| CheckedAt(c, init, k, w);
    assert init[..k] == steps[..k];
    assert CheckedAt(c, steps, k, w);
  }

  ghost predicate AllChecked(c: Config, steps: seq<Step>, s: State) {
    (forall n <- s.attempts :: Checked(c, steps, s.attempts[n])) &&
    forall i :: 0 <= i < |s.released| ==> Checked(c, steps, s.released[i])
  }

  lemma {:induction false} EveryAttemptWasChecked(c: Config, steps: seq<Step>)
    ensures AllChecked(c, steps, After(c, steps))
  {
    if |steps| > 0 {
      var init, step := steps[..|steps| - 1], steps[|steps| - 1];
      var s, t := After(c, init), After(c, steps);
      EveryAttemptWasChecked(c, init);
      forall n | n in t.attempts
        ensures Checked(c, steps, t.attempts[n])
      {
        AttemptIsOldOrChecked(c, s, step, n);
        if n in s.attempts {
          assert Checked(c, init, s.attempts[n]);
          CheckedBefore(c, steps, s.attempts[n]);
        } else {
          assert CheckedAt(c, steps, |steps| - 1, step.what);
        }
      }
      ReleaseIsOldOrClaimed(c, s, step);
      forall i | 0 <= i < |t.released|
        ensures Checked(c, steps, t.released[i])
      {
        CheckedBefore(c, steps, if i < |s.released| then s.released[i] else s.attempts[step.attempt]);
      }
    }
  }

  /** The k-th step of a run is the request an approval came from. */
  predicate RequestedAt(c: Config, steps: seq<Step>, k: nat, id: string, a: Approval) {
    k < |steps| && steps[k].Request? && steps[k].id == id && steps[k].caller == a.requestedBy &&
    steps[k].operation == a.operation && steps[k].payload == a.payload && a.expiresAt == steps[k].now + c.ttl
  }

  /** The k-th step of a run is the approving decision an approval carries. */
  predicate DecidedAt(steps: seq<Step>, k: nat, id: string, a: Approval) {
    k < |steps| && steps[k].Decide? && steps[k].id == id && steps[k].approve &&
    a.decision == Some(Decision(steps[k].caller, steps[k].now))
  }

  ghost predicate Requested(c: Config, steps: seq<Step>, id: string, a: Approval) {
    exists k: nat :: RequestedAt(c, steps, k, id, a)
  }

  /** An approving decision was taken, and before it the request was made. */
  ghost predicate AskedThenApproved(c: Config, steps: seq<Step>, id: string, a: Approval) {
    exists k: nat, d: nat :: k < d && RequestedAt(c, steps, k, id, a) && DecidedAt(steps, d, id, a)
  }

  ghost predicate Documented(c: Config, steps: seq<Step>, id: string, a: Approval) {
    Requested(c, steps, id, a) && (a.status == Approved || a.status == Executed ==> AskedThenApproved(c, steps, id, a))
  }

  /** What a shorter run documents of an approval a longer one does, whatever has become of its status. */
  lemma DocumentedBefore(c: Config, steps: seq<Step>, id: string, a: Approval, b: Approval)
    requires |steps| > 0 && Documented(c, steps[..|steps| - 1], id, a) && b == a.(status := b.status, decision := b.decision)
    ensures Requested(c, steps, id, b)
    ensures (a.status == Approved || a.status == Executed) && b.decision == a.decision ==> AskedThenApproved(c, steps, id, b)
  {
    var init := steps[..|steps| - 1];
    var k: nat :| RequestedAt(c, init, k, id, a);
    assert RequestedAt(c, steps, k, id, b);
    if (a.status == Approved || a.status == Executed) && b.decision == a.decision {
      var k: nat, d: nat :| k < d && RequestedAt(c, init, k, id, a) && DecidedAt(init, d, id, a);
      assert RequestedAt(c, steps, k, id, b) && DecidedAt(steps, d, id, b);
    }
  }

  /** In every run each approval was asked for, and each one approved was approved after that. */
  lemma {:induction false} EveryApprovalIsDocumented(c: Config, steps: seq<Step>, id: string)
    requires id in After(c, steps).approvals
    ensures Documented(c, steps, id, After(c, steps).approvals[id])
  {
    var init, step := steps[..|steps| - 1], steps[|steps| - 1];
    var s, t := After(c, init), After(c, steps);
    ApprovalIsOldOrMoved(c, s, step, id);
    if id !in s.approvals {
      assert RequestedAt(c, steps, |steps| - 1, id, t.approvals[id]);
    } else {
      EveryApprovalIsDocumented(c, init, id);
      DocumentedBefore(c, steps, id, s.approvals[id], t.approvals[id]);
      if t.approvals[id] != s.approvals[id] && t.approvals[id].status == Approved {
        var k: nat :| RequestedAt(c, init, k, id, s.approvals[id]);
        assert RequestedAt(c, steps, k, id, t.approvals[id]) && DecidedAt(steps, |steps| - 1, id, t.approvals[id]);
      }
    }
  }

  /** A run asks for an operation, approves what was asked, and only then checks the redemption. */
  ghost predicate AskedApprovedChecked(c: Config, steps: seq<Step>, k: nat, d: nat, j: nat, w: Attempt, a: Approval) {
    k < d < j && RequestedAt(c, steps, k, w.id, a) && DecidedAt(steps, d, w.id, a) && CheckedAt(c, steps, j, w)
  }

  lemma {:induction false} ApprovalOnlyAdvances(c: Config, steps: seq<Step>, j: nat, id: string)
    requires j <= |steps| && id in After(c, steps[..j]).approvals
    ensures id in After(c, steps).approvals && Advances(After(c, steps[..j]).approvals[id], After(c, steps).approvals[id])
    decreases |steps|
  {
    if j == |steps| {
      assert steps[..j] == steps;
    } else {
      var init := steps[..|steps| - 1];
      assert init[..j] == steps[..j];
      ApprovalOnlyAdvances(c, init, j, id);
      StepSupports(c, After(c, init), steps[|steps| - 1]);
      assert Advances(After(c, init).approvals[id], After(c, steps).approvals[id]);
    }
  }

  lemma CheckedWasApproved(c: Config, steps: seq<Step>, j: nat, w: Attempt)
    requires CheckedAt(c, steps, j, w)
    ensures w.id in After(c, steps).approvals
    ensures exists k: nat, d: nat :: AskedApprovedChecked(c, steps, k, d, j, w, After(c, steps).approvals[w.id])
  {
    var early := steps[..j];
    var a := After(c, early).approvals[w.id];
    EveryApprovalIsDocumented(c, early, w.id);
    ApprovalOnlyAdvances(c, steps, j, w.id);
    var b := After(c, steps).approvals[w.id];
    var k: nat, d: nat :| k < d && RequestedAt(c, early, k, w.id, a) && DecidedAt(early, d, w.id, a);
    assert RequestedAt(c, steps, k, w.id, b) && DecidedAt(steps, d, w.id, b);
    assert AskedApprovedChecked(c, steps, k, d, j, w, b);
  }

  /**
   In every run, an approval releases at most one operation, and a released operation is
   the one its own requester had asked for under that approval: the same name, the same
   document, approved after that and before it expired by a different principal, and then
   checked at a moment of the run when the approval stood approved and unexpired. It
   expires when the lifetime counted from the request is over.
   */
  lemma ReleasedAsApproved(c: Config, steps: seq<Step>, i: nat)
    requires i < |After(c, steps).released|
    ensures var s := After(c, steps);
            var w := s.released[i];
            w.id in s.approvals && w.caller in s.tokens &&
            var a := s.approvals[w.id];
            a.requestedBy == w.caller && a.operation == w.operation && SamePayload(c.round, a.payload, w.payload) &&
            w.checkedAt < a.expiresAt && a.decision.Some? && a.decision.value.at < a.expiresAt &&
            a.decision.value.who in s.tokens &&
            !Same(c, s.tokens[w.caller].principal, s.tokens[a.decision.value.who].principal) &&
            exists k: nat, d: nat, j: nat :: AskedApprovedChecked(c, steps, k, d, j, w, a)
    ensures exists k: nat :: CheckedAt(c, steps, k, After(c, steps).released[i]) &&
              var found := After(c, steps[..k]).approvals[After(c, steps).released[i].id];
              found.status == Approved && steps[k].what.checkedAt < found.expiresAt
    ensures forall j :: 0 <= j < |After(c, steps).released| && j != i ==>
              After(c, steps).released[j].id != After(c, steps).released[i].id
  {
    InvRun(c, steps);
    EveryAttemptWasChecked(c, steps);
    var w := After(c, steps).released[i];
    assert Checked(c, steps, w);
    var j: nat :| CheckedAt(c, steps, j, w);
    CheckedWasApproved(c, steps, j, w);
  }

  /** Every principal is a token there has been, so a token just issued is nobody's second name. */
  lemma {:induction false} PrincipalsAreTokens(c: Config, steps: seq<Step>, token: string)
    requires token in After(c, steps).tokens
    ensures After(c, steps).tokens[token].principal in After(c, steps).tokens
  {
    var init := steps[..|steps| - 1];
    if token in After(c, init).tokens {
      PrincipalsAreTokens(c, init, token);
    } else if steps[|steps| - 1].Rotate? {
      PrincipalsAreTokens(c, init, steps[|steps| - 1].prior);
    }
    StepSupports(c, After(c, init), steps[|steps| - 1]);
  }

  /** In every run, a token just issued can decide whatever its tenant has pending: it is a second person. */
  lemma IssuedIsSecondPerson(c: Config, steps: seq<Step>, token: string, tenant: string, id: string, now: int)
    requires c.trim(token) == token && token != "" && forall t <- After(c, steps).tokens :: !Same(c, t, token)
    requires var s := After(c, steps);
             id in s.approvals && s.approvals[id].tenant == tenant &&
             s.approvals[id].status == Pending && now < s.approvals[id].expiresAt
    ensures Decidable(c, Apply(c, After(c, steps), Issue(token, tenant)), token, id, now)
  {
    InvRun(c, steps);
    PrincipalsAreTokens(c, steps, After(c, steps).approvals[id].requestedBy);
  }

  /** Expiry ends what was still pending past its time, and nothing else. */
  lemma OnlyPendingExpires(c: Config, s: State, before: int, id: string)
    requires id in s.approvals
    ensures var t := Apply(c, s, Expire(before));
            t == s.(approvals := t.approvals) && t.approvals.Keys == s.approvals.Keys &&
            (t.approvals[id] == s.approvals[id] ||
             (s.approvals[id].status == Pending && s.approvals[id].expiresAt < before &&
              t.approvals[id] == s.approvals[id].(status := Expired))) &&
            (s.approvals[id].status == Pending && s.approvals[id].expiresAt < before ==> t.approvals[id].status == Expired)
  {
  }

  /** Nobody decides for themselves, however they write or rotate their token. */
  lemma NobodyDecidesAlone(c: Config, s: State, caller: string, id: string, approve: bool, now: int)
    requires Inv(c, s) && caller in s.tokens && id in s.approvals
    requires s.tokens[caller].principal == s.tokens[s.approvals[id].requestedBy].principal
    ensures Apply(c, s, Decide(caller, id, approve, now)) == s
  {
  }

  /** A rotated token decides exactly what the token it replaced could. */
  lemma RotationIsNoSecondPerson(c: Config, s: State, prior: string, token: string, id: string, approve: bool, now: int)
    requires TokensOk(c, s) && prior in s.tokens && id in s.approvals
    requires c.trim(token) == token && token != "" && forall t <- s.tokens :: !Same(c, t, token)
    requires s.approvals[id].requestedBy in s.tokens
    ensures var t := Apply(c, s, Rotate(prior, token));
            Decidable(c, t, token, id, now) <==> Decidable(c, s, prior, id, now)
  {
  }

  lemma ApprovedIsReleased(c: Config, s: State, id: string, approver: string, returned: Doc, now: int,
                                  attempt: nat, w: Attempt)
    requires Inv(c, s) && Decidable(c, s, approver, id, now) && attempt !in s.attempts
    requires w.id == id && w.caller == s.approvals[id].requestedBy && w.operation == s.approvals[id].operation
    requires w.checkedAt < s.approvals[id].expiresAt
    requires Plain(s.approvals[id].payload) && Plain(returned) && Plain(w.payload)
    requires Alike(c.round, returned, s.approvals[id].payload) && Alike(c.round, returned, w.payload)
    ensures var approved := Apply(c, s, Decide(approver, id, true, now));
            var checked := Apply(c, approved, Check(attempt, w, returned));
            var claimed := Apply(c, checked, Claim(attempt, true));
            claimed.released == s.released + [w] &&
            (forall other, stored: Doc :: !Redeemable(c, claimed, other, stored) || other.id != id) &&
            forall n <- claimed.attempts :: claimed.attempts[n].id == id ==>
              Apply(c, claimed, Claim(n, true)).released == claimed.released
  {
    SamePayloadIsAlike(c.round, returned, s.approvals[id].payload);
    SamePayloadIsAlike(c.round, returned, w.payload);
    var approved := Apply(c, s, Decide(approver, id, true, now));
    assert approved.attempts == s.attempts;
    assert Redeemable(c, approved, w, returned);
  }

  /**
   Asked, approved by another principal of the tenant and repeated in time by the one who
   asked, an operation goes through, once, in whatever order the store hands the payload back.
   */
  lemma RepeatedRequestIsReleased(c: Config, s: State, caller: string, id: string, operation: string, payload: Payload, asked: int,
                                  approver: string, now: int, attempt: nat, repeated: Payload, at: int, returned: Doc)
    requires Inv(c, s) && caller in s.tokens && id !in s.approvals && operation != "" && c.trim(caller) != ""
    requires approver in s.tokens && s.tokens[approver].tenant == s.tokens[caller].tenant && attempt !in s.attempts
    requires !Same(c, s.tokens[caller].principal, s.tokens[approver].principal)
    requires now < asked + c.ttl && at < asked + c.ttl
    requires Plain(payload) && Plain(returned) && Plain(repeated)
    requires Alike(c.round, returned, payload) && Alike(c.round, returned, repeated)
    ensures var requested := Apply(c, s, Request(caller, id, operation, payload, asked));
            var approved := Apply(c, requested, Decide(approver, id, true, now));
            var w := Attempt(caller, id, operation, repeated, at);
            var claimed := Apply(c, Apply(c, approved, Check(attempt, w, returned)), Claim(attempt, true));
            claimed.released == s.released + [w] &&
            (forall other, stored: Doc :: !Redeemable(c, claimed, other, stored) || other.id != id) &&
            forall n <- claimed.attempts :: claimed.attempts[n].id == id ==>
              Apply(c, claimed, Claim(n, true)).released == claimed.released
  {
    var requested := Apply(c, s, Request(caller, id, operation, payload, asked));
    InvStep(c, s, Request(caller, id, operation, payload, asked));
    assert requested == s.(approvals := requested.approvals);
    ApprovedIsReleased(c, requested, id, approver, returned, now, attempt, Attempt(caller, id, operation, repeated, at));
  }

  // The handlers

  datatype Refusal = UnknownApproval | OtherOperation | OtherRequester | NotApproved | TooLate | OtherPayload

  /** The first check a redemption fails, in the order they are made. */
  function FirstRefusal(c: Config, s: State, w: Attempt, stored: Doc): Option<Refusal>
    requires w.caller in s.tokens
  {
    if w.id !in s.approvals || s.approvals[w.id].tenant != s.tokens[w.caller].tenant then Some(UnknownApproval)
    else
      var a := s.approvals[w.id];
      if a.operation != w.operation then Some(OtherOperation)
      else if !Same(c, a.requestedBy, w.caller) then Some(OtherRequester)
      else if a.status != Approved then Some(NotApproved)
      else if w.checkedAt >= a.expiresAt then Some(TooLate)
      else if !SamePayload(c.round, stored, w.payload) then Some(OtherPayload)
      else None
  }

  /** What each refusal says about the redemption; the payload is compared last, with what the store hands back. */
  predicate RefusedFor(c: Config, s: State, w: Attempt, stored: Doc, why: Refusal)
    requires w.caller in s.tokens
  {
    if why == UnknownApproval then w.id !in s.approvals || s.approvals[w.id].tenant != s.tokens[w.caller].tenant
    else
      w.id in s.approvals &&
      match why
      case OtherOperation => s.approvals[w.id].operation != w.operation
      case OtherRequester => !Same(c, s.approvals[w.id].requestedBy, w.caller)
      case NotApproved => s.approvals[w.id].status != Approved
      case TooLate => w.checkedAt >= s.approvals[w.id].expiresAt
      case OtherPayload => !SamePayload(c.round, stored, w.payload)
  }

  /** A redemption is refused for a reason that holds, exactly when one does. */
  lemma RefusedForAReason(c: Config, s: State, w: Attempt, stored: Doc)
    requires w.caller in s.tokens
    ensures var why := FirstRefusal(c, s, w, stored);
            if why.Some? then RefusedFor(c, s, w, stored, why.value) else forall other :: !RefusedFor(c, s, w, stored, other)
  {
  }

  datatype Outcome = Refused(why: Refusal) | AlreadySpent | Unanswered | Released

  lemma SupportsOn(s: State, t: State, u: State)
    requires Supports(s, t) && Supports(t, u)
    ensures Supports(s, u)
  {
    forall id | id in s.approvals
      ensures id in u.approvals && Advances(s.approvals[id], u.approvals[id])
    {
      assert Advances(s.approvals[id], t.approvals[id]) && Advances(t.approvals[id], u.approvals[id]);
    }
  }

  predicate Concerns(step: Step, attempt: nat) {
    (step.Check? || step.Claim?) && step.attempt == attempt
  }

  lemma LeavesAttempt(c: Config, s: State, step: Step, attempt: nat)
    requires attempt in s.attempts && !Concerns(step, attempt)
    ensures var t := Apply(c, s, step); attempt in t.attempts && t.attempts[attempt] == s.attempts[attempt]
  {
  }

  /** One approved request is spent and released, and nothing else moves. */
  predicate ReleasesOne(before: State, after: State, w: Attempt) {
    after.tokens == before.tokens && after.attempts == before.attempts && after.released == before.released + [w] &&
    w.id in before.approvals && before.approvals[w.id].status == Approved &&
    after.approvals == before.approvals[w.id := before.approvals[w.id].(status := Executed)]
  }

  /** One request is queued, and nothing else moves: what was asked, by whom, pending, and good for the configured time. */
  predicate Queues(c: Config, before: State, after: State, id: string, caller: string, operation: string, payload: Payload, now: int) {
    after == before.(approvals := after.approvals) && after.approvals.Keys == before.approvals.Keys + {id} &&
    (forall k <- before.approvals :: k != id ==> after.approvals[k] == before.approvals[k]) &&
    caller in before.tokens &&
    var a := after.approvals[id];
    a.tenant == before.tokens[caller].tenant && a.requestedBy == caller && a.operation == operation && a.payload == payload &&
    a.status == Pending && a.decision == None && a.expiresAt == now + c.ttl
  }

  class Gatekeeper {
    const c: Config
    const dualApproval: bool
    const gated: set<string>
    var s: State
    ghost var trace: seq<Step>

    /** Nobody else is at work, and the store answers. */
    const quiet: bool

    ghost predicate Valid()
      reads this
    {
      Leads(Next(c), START, trace, s)
    }

    constructor (c: Config, dualApproval: bool, gated: set<string>, quiet: bool)
      ensures Valid() && s == START && this.c == c && this.dualApproval == dualApproval && this.gated == gated && this.quiet == quiet
    {
      this.c, this.dualApproval, this.gated, this.quiet := c, dualApproval, gated, quiet;
      s, trace := START, [];
    }

    method Take(step: Step)
      requires Valid()
      modifies this
      ensures Valid() && s == Apply(c, old(s), step)
    {
      Advance(Next(c), START, trace, s, step);
      s := Apply(c, s, step);
      trace := trace + [step];
    }

    /** Whatever other requests do, short of claiming in this request's place. */
    method Others(mine: nat)
      requires Valid() && mine in s.attempts
      modifies this
      ensures Valid() && Supports(old(s), s) && mine in s.attempts && s.attempts[mine] == old(s.attempts[mine])
      ensures quiet ==> s == old(s)
    {
      var steps: seq<Step> := *;
      if quiet {
        steps := [];
      }
      for i := 0 to |steps|
        invariant Valid() && Supports(old(s), s) && mine in s.attempts && s.attempts[mine] == old(s.attempts[mine])
        invariant quiet ==> s == old(s)
      {
        if !Concerns(steps[i], mine) {
          StepSupports(c, s, steps[i]);
          SupportsOn(old(s), s, Apply(c, s, steps[i]));
          LeavesAttempt(c, s, steps[i], mine);
          Take(steps[i]);
        }
      }
    }

    /**
     Records a decision. It is taken exactly on a pending, unexpired request of the
     caller's own tenant raised by somebody else, and moves that request alone; anything
     else changes nothing.
     */
    method DecideApproval(caller: string, id: string, approve: bool, now: int) returns (ok: bool)
      requires Valid() && caller in s.tokens
      modifies this
      ensures Valid() && forall k <- old(s.approvals) :: old(s.approvals[k]).requestedBy in old(s.tokens)
      ensures ok <==> id in old(s.approvals) && old(s.approvals[id]).tenant == old(s.tokens[caller]).tenant &&
                      old(s.approvals[id]).status == Pending && now < old(s.approvals[id]).expiresAt &&
                      !Same(c, old(s.tokens[s.approvals[id].requestedBy]).principal, old(s.tokens[caller]).principal)
      ensures !ok ==> s == old(s)
      ensures ok ==> s == old(s).(approvals := s.approvals) && s.approvals.Keys == old(s.approvals).Keys &&
                     (forall k <- s.approvals :: k != id ==> s.approvals[k] == old(s.approvals[k])) &&
                     s.approvals[id].status == (if approve then Approved else Rejected) &&
                     s.approvals[id].decision == Some(Decision(caller, now)) &&
                     s.approvals[id] == old(s.approvals[id]).(status := s.approvals[id].status, decision := s.approvals[id].decision)
    {
      Arrives(Next(c), START, trace, s);
      InvRun(c, trace);
      ok := Decidable(c, s, caller, id, now);
      Take(Decide(caller, id, approve, now));
    }

    lemma NotReleasedYet(id: string)
      requires Valid() && id in s.approvals && s.approvals[id].status == Approved
      ensures forall r <- s.released :: r.id != id
    {
      Arrives(Next(c), START, trace, s);
      InvRun(c, trace);
    }

    /**
     Spends an approved request. The approval is read and checked, other requests go on,
     and the claim decides: only a request released here is in the list of releases. With
     nobody else at work everything that passes the checks is released.
     */
    method RedeemApproval(w: Attempt, stored: Doc, mine: nat) returns (outcome: Outcome)
      requires Valid() && w.caller in s.tokens && mine !in s.attempts
      requires w.id in s.approvals ==> SamePayload(c.round, stored, s.approvals[w.id].payload)
      modifies this
      ensures Valid() && mine !in s.attempts
      ensures outcome.Refused? <==> exists why :: RefusedFor(c, old(s), w, stored, why)
      ensures outcome.Refused? ==> RefusedFor(c, old(s), w, stored, outcome.why) && s == old(s)
      ensures outcome == Released ==> |s.released| > 0 && s.released[|s.released| - 1] == w
      ensures !outcome.Refused? ==> w.id in s.approvals && s.approvals[w.id].status == Executed
      ensures outcome == Unanswered ==> forall r <- s.released :: r.id != w.id
      ensures quiet && !outcome.Refused? ==> outcome == Released && ReleasesOne(old(s), s, w)
    {
      RefusedForAReason(c, s, w, stored);
      var why := FirstRefusal(c, s, w, stored);
      if why.Some? {
        return Refused(why.value);
      }
      Take(Check(mine, w, stored));
      Others(mine);
      var answered := true;
      if !quiet {
        answered := *;
      }
      assert Advances(old(s.approvals[w.id]), s.approvals[w.id]);
      if s.approvals[w.id].status != Approved {
        Take(Claim(mine, answered));
        return AlreadySpent;
      }
      NotReleasedYet(w.id);
      Take(Claim(mine, answered));
      outcome := if answered then Released else Unanswered;
    }

    /**
     Whether a sensitive operation has to stop here. When it does not, it was released or is
     not gated; when it stops for want of an approval, exactly what was asked is queued.
     */
    method ApprovalGate(caller: string, operation: string, payload: Payload, header: Option<string>, stored: Doc,
                        id: string, now: int, mine: nat) returns (held: bool)
      requires Valid() && caller in s.tokens && mine !in s.attempts
      requires header.Some? && header.value in s.approvals ==>
                 SamePayload(c.round, stored, s.approvals[header.value].payload)
      modifies this
      ensures Valid()
      ensures !dualApproval || operation !in gated ==> !held && s == old(s)
      ensures dualApproval && operation in gated && header.None? ==> held
      ensures dualApproval && operation in gated && header.None? && id !in old(s.approvals) && operation != "" && c.trim(caller) != "" ==>
                Queues(c, old(s), s, id, caller, operation, payload, now)
      ensures dualApproval && operation in gated && header.None? && (id in old(s.approvals) || operation == "" || c.trim(caller) == "") ==>
                s == old(s)
      ensures dualApproval && operation in gated && !held ==>
                header.Some? && |s.released| > 0 &&
                s.released[|s.released| - 1] == Attempt(caller, header.value, operation, payload, now)
      ensures dualApproval && operation in gated && header.Some? ==>
                var w := Attempt(caller, header.value, operation, payload, now);
                ((exists why :: RefusedFor(c, old(s), w, stored, why)) ==> held && s == old(s)) &&
                (quiet && (forall why :: !RefusedFor(c, old(s), w, stored, why)) ==> !held && ReleasesOne(old(s), s, w))
    {
      if !dualApproval || operation !in gated {
        return false;
      }
      if header.Some? {
        var outcome := RedeemApproval(Attempt(caller, header.value, operation, payload, now), stored, mine);
        return outcome != Released;
      }
      Take(Request(caller, id, operation, payload, now));
      held := true;
    }
  }
}
