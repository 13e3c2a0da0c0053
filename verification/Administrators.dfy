/**
 The last-administrator guard, together with rotation: a revocation reads its target,
 takes the lock, counts the full administrators at two instants and writes, while tokens
 are minted and rotated without the lock. Each of these is a step of its own.

 Instants and durations are nanoseconds.
 */
module Administrators {
  import opened Prelude
  import opened Sets
  import opened Runs

  const HOUR := 3_600_000_000_000
  const DAY := 24 * HOUR
  const MAX_GRACE := 168 * HOUR
  const MAX_DAYS := 730

  type Id = string

  datatype Role = Full | Operator | Auditor | Unknown

  datatype Token = Token(role: Role, revoked: bool, expires: Option<int>)

  type Tokens = map<Id, Token>

  /** Whether a token may authenticate at an instant. */
  predicate Usable(t: Token, now: int) {
    !t.revoked && (t.expires.Some? ==> now < t.expires.value) && t.role != Unknown
  }

  function FullAt(tokens: Tokens, now: int): set<Id> {
    set id <- tokens | tokens[id].role == Full && Usable(tokens[id], now)
  }

  function Count(tokens: Tokens, now: int): nat {
    |FullAt(tokens, now)|
  }

  // Rotation

  /** The overlap asked for, the configured one when none is, and nothing when it is out of bounds. */
  function RotationGrace(asked: Option<int>, configured: int): Option<int> {
    if asked.None? then Some(configured)
    else if asked.value < 0 || asked.value > MAX_GRACE then None
    else asked
  }

  datatype Lifetime = Invalid | Unbounded | Until(at: int)

  function ExpiryFromDays(now: int, days: int): Lifetime {
    if days == 0 then Unbounded
    else if days < 0 || days > MAX_DAYS then Invalid
    else Until(now + days * DAY)
  }

  /** The instant given to the store, and the one the predecessor will in fact stop at. */
  function PredecessorCutoff(now: int, grace: int, current: Option<int>): (int, int) {
    var cutoff := now + grace;
    (cutoff, if current.Some? && current.value < cutoff then current.value else cutoff)
  }

  /** a stops no later than b. */
  predicate NoLater(a: Option<int>, b: Option<int>) {
    b.None? || (a.Some? && a.value <= b.value)
  }

  /** The token that replaces another: same role, the inherited expiry or a sooner one, or a refusal. */
  function Successor(predecessor: Token, now: int, days: int): Option<Token> {
    match ExpiryFromDays(now, days)
    case Invalid => None
    case Unbounded => Some(Token(predecessor.role, false, predecessor.expires))
    case Until(at) =>
      if predecessor.expires.Some? && at > predecessor.expires.value then None
      else Some(Token(predecessor.role, false, Some(at)))
  }

  /** A token that stops at an instant at the latest. */
  function Bound(t: Token, cutoff: int): Token {
    if t.expires.None? || t.expires.value > cutoff then t.(expires := Some(cutoff)) else t
  }

  /** The store's part: the predecessor is bounded, never extended, and the successor is inserted with it. */
  function Rotated(tokens: Tokens, predecessor: Id, cutoff: int, id: Id, successor: Token): Option<Tokens> {
    if predecessor !in tokens || tokens[predecessor].revoked then None
    else Some(tokens[predecessor := Bound(tokens[predecessor], cutoff)][id := successor])
  }

  function Revoked(tokens: Tokens, id: Id): Option<Tokens> {
    if id !in tokens || tokens[id].revoked then None else Some(tokens[id := tokens[id].(revoked := true)])
  }

  /** What the response and the audit entry report is the instant the store leaves behind. */
  lemma ReportedCutoffIsStored(tokens: Tokens, predecessor: Id, now: int, grace: int, id: Id, successor: Token)
    requires predecessor in tokens && id != predecessor
    ensures var (cutoff, effective) := PredecessorCutoff(now, grace, tokens[predecessor].expires);
            var after := Rotated(tokens, predecessor, cutoff, id, successor);
            after.Some? ==> after.value[predecessor].expires == Some(effective) &&
                            NoLater(Some(effective), tokens[predecessor].expires) && effective <= now + grace &&
                            (effective == now + grace || tokens[predecessor].expires == Some(effective))
  {
  }

  /**
   A token cannot extend its own life, nor grant itself another role; what replaces it lasts
   as long as it would have, or as long as was asked.
   */
  lemma SuccessorOutlivesNothing(predecessor: Token, now: int, days: int)
    ensures var s := Successor(predecessor, now, days);
            s.Some? ==> s.value.role == predecessor.role && NoLater(s.value.expires, predecessor.expires) &&
                        forall at :: Usable(s.value, at) <==>
                          Usable(predecessor.(revoked := false), at) && (days > 0 ==> at < now + days * DAY)
    ensures Successor(predecessor, now, days).None? <==>
              days < 0 || days > MAX_DAYS || (days > 0 && predecessor.expires.Some? && now + days * DAY > predecessor.expires.value)
  {
  }

  // The system

  /** A rotation on its way to the store: the token as it authenticated, and what was asked. */
  datatype Rotation = Rotation(predecessor: Id, token: Token, now: int, grace: int, days: int)

  datatype Stage = Present | Horizon | Cleared

  /** What mints and rotations do to the tokens. */
  datatype Change = Added(id: Id, token: Token) | Bounded(id: Id, cutoff: int)

  /** The tokens at a moment, and what has been done to them since. */
  datatype Log = Log(seen: Tokens, changes: seq<Change>)

  /**
   The revocation holding the lock: its target as it was listed, the instant the guard
   works with, how far it has got, and the tokens as its first count saw them with what
   was done to them since. `shortened` records that, after the later count, a rotation
   has picked an expiry inside the horizon.
   */
  datatype Guard = Guard(id: Id, target: Token, now: int, stage: Stage, shortened: bool, log: Log) {
    function Later(): int {
      now + MAX_GRACE
    }
  }

  datatype State = State(
    tokens: Tokens,
    clock: int,
    listed: map<nat, (Id, Token)>,
    lock: Option<Guard>,
    rotations: map<nat, Rotation>,
    rotated: map<Id, int>)  // predecessors, and when their rotation was asked for

  datatype Step =
    | Tick(to: int)
    | Mint(id: Id, role: Role, days: int)
    | ListTarget(request: nat, id: Id)
    | Lock(request: nat)
    | CountPresent
    | CountHorizon
    | Write
    | BeginRotation(request: nat, predecessor: Id, asked: Option<int>, configured: int, days: int)
    | FinishRotation(request: nat, id: Id)

  function Locked(s: State, request: nat): State
    requires request in s.listed
  {
    var (id, target) := s.listed[request];
    s.(lock := Some(Guard(id, target, s.clock, if target.role == Full then Present else Cleared, false, Log(s.tokens, []))),
       listed := s.listed - {request})
  }

  function PresentCounted(s: State, g: Guard): State {
    if Usable(g.target, g.now) && Count(s.tokens, g.now) <= 1 then s.(lock := None)
    else s.(lock := Some(g.(stage := Horizon, log := Log(s.tokens, []))))
  }

  function HorizonCounted(s: State, g: Guard): State {
    if g.target.expires.Some? && g.target.expires.value <= g.Later() then s.(lock := Some(g.(stage := Cleared)))
    else if Count(s.tokens, g.Later()) <= 1 then s.(lock := None)
    else s.(lock := Some(g.(stage := Cleared)))
  }

  function Written(s: State, g: Guard): State {
    match Revoked(s.tokens, g.id)
    case None => s.(lock := None)
    case Some(tokens) => s.(tokens := tokens, lock := None)
  }

  function Begun(s: State, request: nat, predecessor: Id, asked: Option<int>, configured: int, days: int): State
    requires predecessor in s.tokens
  {
    var grace := RotationGrace(asked, configured);
    if grace.None? || Successor(s.tokens[predecessor], s.clock, days).None? then s
    else s.(rotations := s.rotations[request := Rotation(predecessor, s.tokens[predecessor], s.clock, grace.value, days)])
  }

  /** A rotation that picks an expiry before an instant. */
  predicate Shortens(r: Rotation, at: int) {
    r.days > 0 && r.now + r.days * DAY <= at
  }

  function Noted(g: Guard, changes: seq<Change>): Guard {
    g.(log := Log(g.log.seen, g.log.changes + changes))
  }

  function Marked(g: Guard, r: Rotation, id: Id, successor: Token): Guard {
    var noted := Noted(g, [Bounded(r.predecessor, r.now + r.grace), Added(id, successor)]);
    if g.stage == Cleared && Shortens(r, g.Later()) then noted.(shortened := true) else noted
  }

  function Finished(s: State, request: nat, id: Id): State
    requires request in s.rotations
  {
    var r := s.rotations[request];
    var rest := s.(rotations := s.rotations - {request});
    var successor := Successor(r.token, r.now, r.days);
    if successor.None? then rest
    else
      match Rotated(s.tokens, r.predecessor, PredecessorCutoff(r.now, r.grace, r.token.expires).0, id, successor.value)
      case None => rest
      case Some(tokens) =>
        rest.(tokens := tokens, rotated := s.rotated[r.predecessor := r.now],
              lock := if s.lock.Some? then Some(Marked(s.lock.value, r, id, successor.value)) else None)
  }

  function Minted(s: State, id: Id, token: Token): State {
    s.(tokens := s.tokens[id := token],
       lock := if s.lock.Some? then Some(Noted(s.lock.value, [Added(id, token)])) else None)
  }

  /** A configured grace is within bounds, and no request is kept waiting for a day. */
  function Apply(s: State, step: Step): State {
    match step
    case Tick(to) => if to >= s.clock then s.(clock := to) else s
    case Mint(id, role, days) =>
      if id !in s.tokens && role != Unknown && ExpiryFromDays(s.clock, days) != Invalid
      then Minted(s, id, Token(role, false, match ExpiryFromDays(s.clock, days)
                                            case Until(at) => Some(at)
                                            case _ => None))
      else s
    case ListTarget(request, id) =>
      if id in s.tokens && !s.tokens[id].revoked then s.(listed := s.listed[request := (id, s.tokens[id])]) else s
    case Lock(request) => if s.lock.None? && request in s.listed then Locked(s, request) else s
    case CountPresent => if s.lock.Some? && s.lock.value.stage == Present then PresentCounted(s, s.lock.value) else s
    case CountHorizon => if s.lock.Some? && s.lock.value.stage == Horizon then HorizonCounted(s, s.lock.value) else s
    case Write => if s.lock.Some? && s.lock.value.stage == Cleared then Written(s, s.lock.value) else s
    case BeginRotation(request, predecessor, asked, configured, days) =>
      if predecessor in s.tokens && Usable(s.tokens[predecessor], s.clock) && 0 <= configured <= MAX_GRACE
      then Begun(s, request, predecessor, asked, configured, days) else s
    case FinishRotation(request, id) =>
      if request in s.rotations && id !in s.tokens && s.clock < s.rotations[request].now + DAY
      then Finished(s, request, id) else s
  }

  /** The state a run has reached. */
  function After(s: State, steps: seq<Step>): State {
    Run(Apply, s, steps)
  }

  /** A deployment with some tokens and nobody at work. */
  predicate Init(s: State) {
    s.listed == map[] && s.lock == None && s.rotations == map[] && s.rotated == map[]
  }

  // What tokens become

  /** Tokens keep their role, stay revoked, and only ever stop sooner. */
  predicate Descends(a: Token, b: Token) {
    b.role == a.role && (a.revoked ==> b.revoked) && NoLater(b.expires, a.expires)
  }

  predicate Follows(s: Tokens, t: Tokens) {
    forall id <- s :: id in t && Descends(s[id], t[id])
  }

  lemma UsableDescends(a: Token, b: Token, now: int)
    requires Descends(a, b) && Usable(b, now)
    ensures Usable(a, now)
  {
  }

  lemma StepFollows(s: State, step: Step)
    ensures Follows(s.tokens, Apply(s, step).tokens) && s.clock <= Apply(s, step).clock
  {
  }

  // The log of a guard

  function Applied(tokens: Tokens, c: Change): Tokens {
    match c
    case Added(id, token) => tokens[id := token]
    case Bounded(id, cutoff) => if id in tokens then tokens[id := Bound(tokens[id], cutoff)] else tokens
  }

  /** The tokens after some changes. */
  function Replay(tokens: Tokens, changes: seq<Change>): Tokens {
    if |changes| == 0 then tokens else Applied(Replay(tokens, changes[..|changes| - 1]), changes[|changes| - 1])
  }

  /** Every token there was or has come, as it came. */
  function Entered(tokens: Tokens, changes: seq<Change>): Tokens {
    if |changes| == 0 then tokens
    else
      var earlier, last := Entered(tokens, changes[..|changes| - 1]), changes[|changes| - 1];
      if last.Added? then earlier[last.id := last.token] else earlier
  }

  /** A rotation has bounded the token to an instant at the latest. */
  predicate Cut(changes: seq<Change>, id: Id, at: int) {
    exists i :: 0 <= i < |changes| && changes[i].Bounded? && changes[i].id == id && changes[i].cutoff <= at
  }

  /** Tokens come once and unrevoked, and only those there are get bounded. */
  predicate Plausible(tokens: Tokens, changes: seq<Change>) {
    |changes| == 0 ||
    (Plausible(tokens, changes[..|changes| - 1]) &&
     var earlier, last := Entered(tokens, changes[..|changes| - 1]), changes[|changes| - 1];
     if last.Added? then last.id !in earlier && !last.token.revoked else last.id in earlier)
  }

  lemma CutGrows(changes: seq<Change>, c: Change, id: Id, at: int)
    ensures Cut(changes + [c], id, at) <==> Cut(changes, id, at) || (c.Bounded? && c.id == id && c.cutoff <= at)
  {
    var longer := changes + [c];
    assert longer[|changes|] == c;
    assert forall i :: 0 <= i < |changes| ==> longer[i] == changes[i];
    if Cut(changes, id, at) {
      var i :| 0 <= i < |changes| && changes[i].Bounded? && changes[i].id == id && changes[i].cutoff <= at;
      assert longer[i] == changes[i];
    }
  }

  lemma {:induction false} CutNeedsEntry(tokens: Tokens, changes: seq<Change>, id: Id, at: int)
    requires Plausible(tokens, changes) && Cut(changes, id, at)
    ensures id in Entered(tokens, changes)
  {
    var n := |changes| - 1;
    assert changes == changes[..n] + [changes[n]];
    CutGrows(changes[..n], changes[n], id, at);
    if Cut(changes[..n], id, at) {
      CutNeedsEntry(tokens, changes[..n], id, at);
    }
  }

  /** A token counts at an instant exactly when it counted as it came and no rotation has bounded it by then. */
  lemma {:induction false} ReplayCounts(tokens: Tokens, changes: seq<Change>, id: Id, at: int)
    requires Plausible(tokens, changes)
    ensures id in Replay(tokens, changes) <==> id in Entered(tokens, changes)
    ensures id in FullAt(Replay(tokens, changes), at) <==> id in FullAt(Entered(tokens, changes), at) && !Cut(changes, id, at)
  {
    if |changes| > 0 {
      var n := |changes| - 1;
      var init, last := changes[..n], changes[n];
      ReplayCounts(tokens, init, id, at);
      assert changes == init + [last];
      CutGrows(init, last, id, at);
      if last.Added? && Cut(init, last.id, at) {
        CutNeedsEntry(tokens, init, last.id, at);
      }
    }
  }

  /** The tokens that come are the ones there were and the ones added. */
  lemma {:induction false} EnteredAreSeenOrAdded(tokens: Tokens, changes: seq<Change>, id: Id)
    requires Plausible(tokens, changes)
    ensures id in Entered(tokens, changes) <==> id in tokens || exists i :: 0 <= i < |changes| && changes[i].Added? && changes[i].id == id
    ensures id in tokens ==> Entered(tokens, changes)[id] == tokens[id]
    ensures forall i :: 0 <= i < |changes| && changes[i].Added? ==>
              changes[i].id !in tokens && !changes[i].token.revoked && changes[i].id in Entered(tokens, changes) &&
              Entered(tokens, changes)[changes[i].id] == changes[i].token
  {
    if |changes| > 0 {
      var n := |changes| - 1;
      var init, last := changes[..n], changes[n];
      assert forall i :: 0 <= i < n ==> init[i] == changes[i];
      EnteredAreSeenOrAdded(tokens, init, id);
      if last.Added? {
        EnteredAreSeenOrAdded(tokens, init, last.id);
      }
    }
  }

  /** The tokens are the ones the first count saw with what was done to them since. */
  predicate LogOk(tokens: Tokens, g: Guard) {
    g.id in g.log.seen && Plausible(g.log.seen, g.log.changes) && tokens == Replay(g.log.seen, g.log.changes)
  }

  // The invariant

  /** Some full administrator other than one is usable at an instant. */
  predicate Another(tokens: Tokens, id: Id, now: int) {
    exists other <- tokens :: other != id && tokens[other].role == Full && Usable(tokens[other], now)
  }

  lemma CountSeesAnother(tokens: Tokens, id: Id, now: int)
    requires Count(tokens, now) > 1
    ensures Another(tokens, id, now)
  {
    var full := FullAt(tokens, now);
    if full <= {id} {
      SubsetIsNoLarger(full, {id});
    }
    var other :| other in full && other != id;
  }

  /** At either instant where a full target counts, somebody else does, unless an expiry was picked before the later one. */
  predicate SparesFor(tokens: Tokens, g: Guard) {
    g.target.role == Full ==>
      (Usable(g.target, g.now) ==> Another(tokens, g.id, g.now)) &&
      (Usable(g.target, g.Later()) && !g.shortened ==> Another(tokens, g.id, g.Later()))
  }

  predicate SnapshotOk(tokens: Tokens, id: Id, t: Token) {
    id in tokens && Descends(t, tokens[id])
  }

  predicate RotationOk(s: State, r: Rotation) {
    SnapshotOk(s.tokens, r.predecessor, r.token) && r.now <= s.clock && 0 <= r.grace <= MAX_GRACE && 0 <= r.days
  }

  /** What the counts of the guard have established, and no step has undone. */
  predicate GuardOk(tokens: Tokens, clock: int, g: Guard) {
    SnapshotOk(tokens, g.id, g.target) && g.now <= clock &&
    (g.target.role == Full && g.stage != Present && Usable(g.target, g.now) ==> Another(tokens, g.id, g.now)) &&
    (g.target.role == Full && g.stage == Cleared && !g.shortened && Usable(g.target, g.Later()) ==>
       Another(tokens, g.id, g.Later()))
  }

  predicate RotatedOk(s: State) {
    forall id <- s.rotated ::
      id in s.tokens && s.rotated[id] <= s.clock && NoLater(s.tokens[id].expires, Some(s.rotated[id] + MAX_GRACE))
  }

  predicate Inv(s: State) {
    (forall n <- s.listed :: SnapshotOk(s.tokens, s.listed[n].0, s.listed[n].1)) &&
    (forall n <- s.rotations :: RotationOk(s, s.rotations[n])) &&
    (s.lock.Some? ==> GuardOk(s.tokens, s.clock, s.lock.value) && LogOk(s.tokens, s.lock.value)) && RotatedOk(s)
  }

  lemma SnapshotStays(s: Tokens, t: Tokens, id: Id, snap: Token)
    requires SnapshotOk(s, id, snap) && Follows(s, t)
    ensures SnapshotOk(t, id, snap)
  {
  }

  /** A rotation replaces one usable administrator by another, unless the expiry it picks comes first. */
  lemma RotationKeepsAnother(s: State, r: Rotation, id: Id, at: int, spare: Id, successor: Token)
    requires RotationOk(s, r) && id !in s.tokens && spare in s.tokens && !Shortens(r, at)
    requires Successor(r.token, r.now, r.days) == Some(successor)
    requires Another(s.tokens, spare, at)
    ensures var after := Rotated(s.tokens, r.predecessor, PredecessorCutoff(r.now, r.grace, r.token.expires).0, id, successor);
            after.Some? ==> Another(after.value, spare, at)
  {
    var after := Rotated(s.tokens, r.predecessor, PredecessorCutoff(r.now, r.grace, r.token.expires).0, id, successor);
    if after.Some? {
      var other :| other in s.tokens && other != spare && s.tokens[other].role == Full && Usable(s.tokens[other], at);
      if other == r.predecessor {
        UsableDescends(r.token, s.tokens[other], at);
        assert Usable(after.value[id], at);
      } else {
        assert after.value[other] == s.tokens[other];
      }
    }
  }

  lemma MoreTokensMoreSpares(s: Tokens, id: Id, t: Token, spare: Id, at: int)
    requires id !in s && Another(s, spare, at)
    ensures Another(s[id := t], spare, at)
  {
    var other :| other in s && other != spare && s[other].role == Full && Usable(s[other], at);
    assert s[id := t][other] == s[other];
  }

  /** A rotation that reaches the store swaps the tokens and marks a guard it shortens; any other does nothing. */
  lemma FinishedShape(s: State, request: nat, id: Id)
    requires request in s.rotations
    ensures var t, r := Finished(s, request, id), s.rotations[request];
            var successor := Successor(r.token, r.now, r.days);
            t.clock == s.clock &&
            ((t.tokens == s.tokens && t.lock == s.lock) ||
             (successor.Some? &&
              Rotated(s.tokens, r.predecessor, PredecessorCutoff(r.now, r.grace, r.token.expires).0, id, successor.value) == Some(t.tokens) &&
              (t.lock.Some? ==> s.lock.Some? && t.lock.value == Marked(s.lock.value, r, id, successor.value))))
  {
  }

  lemma SparesOutlastRotation(s: State, r: Rotation, id: Id, successor: Token, g: Guard)
    requires GuardOk(s.tokens, s.clock, g) && RotationOk(s, r) && id !in s.tokens && s.clock < r.now + DAY
    requires Successor(r.token, r.now, r.days) == Some(successor)
    ensures var after := Rotated(s.tokens, r.predecessor, PredecessorCutoff(r.now, r.grace, r.token.expires).0, id, successor);
            after.Some? && SnapshotOk(after.value, g.id, g.target) ==>
              GuardOk(after.value, s.clock, Marked(g, r, id, successor))
  {
    if Another(s.tokens, g.id, g.now) {
      RotationKeepsAnother(s, r, id, g.now, g.id, successor);
    }
    if Another(s.tokens, g.id, g.Later()) && !Shortens(r, g.Later()) {
      RotationKeepsAnother(s, r, id, g.Later(), g.id, successor);
    }
  }

  lemma FinishKeepsGuard(s: State, request: nat, id: Id)
    requires Inv(s) && request in s.rotations && id !in s.tokens && s.clock < s.rotations[request].now + DAY
    ensures var t := Finished(s, request, id); t.lock.Some? ==> GuardOk(t.tokens, t.clock, t.lock.value)
  {
    var t, r := Finished(s, request, id), s.rotations[request];
    FinishedShape(s, request, id);
    StepFollows(s, FinishRotation(request, id));
    if t.lock.Some? && t.tokens != s.tokens {
      SnapshotStays(s.tokens, t.tokens, s.lock.value.id, s.lock.value.target);
      SparesOutlastRotation(s, r, id, Successor(r.token, r.now, r.days).value, s.lock.value);
    }
  }

  lemma LockStepKeeps(s: State, step: Step)
    requires Inv(s) && (step.Lock? || step.CountPresent? || step.CountHorizon? || step.Write?)
    ensures var t := Apply(s, step); t.lock.Some? ==> GuardOk(t.tokens, t.clock, t.lock.value)
  {
    if s.lock.Some? {
      var g := s.lock.value;
      if Count(s.tokens, g.now) > 1 {
        CountSeesAnother(s.tokens, g.id, g.now);
      }
      if Count(s.tokens, g.Later()) > 1 {
        CountSeesAnother(s.tokens, g.id, g.Later());
      }
    }
  }

  lemma GuardKeeps(s: State, step: Step)
    requires Inv(s)
    ensures var t := Apply(s, step); t.lock.Some? ==> GuardOk(t.tokens, t.clock, t.lock.value)
  {
    StepFollows(s, step);
    match step
    case FinishRotation(request, id) =>
      if Apply(s, step) != s {
        FinishKeepsGuard(s, request, id);
      }
    case Mint(id, role, days) =>
      if s.lock.Some? && Apply(s, step) != s {
        MintKeepsGuard(s, id, Apply(s, step).tokens[id], s.lock.value);
        assert Apply(s, step) == Minted(s, id, Apply(s, step).tokens[id]);
      }
    case Lock(_) => LockStepKeeps(s, step);
    case CountPresent => LockStepKeeps(s, step);
    case CountHorizon => LockStepKeeps(s, step);
    case Write => LockStepKeeps(s, step);
    case _ =>
  }

  lemma MintKeepsGuard(s: State, id: Id, token: Token, g: Guard)
    requires GuardOk(s.tokens, s.clock, g) && id !in s.tokens
    ensures GuardOk(s.tokens[id := token], s.clock, Noted(g, [Added(id, token)]))
  {
    if Another(s.tokens, g.id, g.now) {
      MoreTokensMoreSpares(s.tokens, id, token, g.id, g.now);
    }
    if Another(s.tokens, g.id, g.Later()) {
      MoreTokensMoreSpares(s.tokens, id, token, g.id, g.Later());
    }
  }

  lemma ListedIsOldOrRead(s: State, step: Step, n: nat)
    requires n in Apply(s, step).listed
    ensures var t := Apply(s, step);
            (n in s.listed && t.listed[n] == s.listed[n]) ||
            (step.ListTarget? && step.id in s.tokens && t.listed[n] == (step.id, s.tokens[step.id]))
  {
  }

  lemma RotationIsOldOrBegun(s: State, step: Step, n: nat)
    requires n in Apply(s, step).rotations
    ensures var t := Apply(s, step);
            (n in s.rotations && t.rotations[n] == s.rotations[n]) ||
            (step.BeginRotation? && step.predecessor in s.tokens && t.tokens == s.tokens && t.clock == s.clock &&
             t.rotations[n].predecessor == step.predecessor && t.rotations[n].token == s.tokens[step.predecessor] &&
             t.rotations[n].now == s.clock && 0 <= t.rotations[n].grace <= MAX_GRACE && 0 <= t.rotations[n].days)
  {
  }

  lemma RotatedIsOldOrFinished(s: State, step: Step, id: Id)
    requires id in Apply(s, step).rotated
    ensures var t := Apply(s, step);
            (id in s.rotated && t.rotated[id] == s.rotated[id]) ||
            (exists n <- s.rotations :: s.rotations[n].predecessor == id && t.rotated[id] == s.rotations[n].now &&
               t.clock == s.clock && id in t.tokens &&
               NoLater(t.tokens[id].expires, Some(s.rotations[n].now + s.rotations[n].grace)))
  {
  }

  lemma ListedKeep(s: State, step: Step)
    requires Inv(s)
    ensures var t := Apply(s, step); forall n <- t.listed :: SnapshotOk(t.tokens, t.listed[n].0, t.listed[n].1)
  {
    var t := Apply(s, step);
    StepFollows(s, step);
    forall n | n in t.listed
      ensures SnapshotOk(t.tokens, t.listed[n].0, t.listed[n].1)
    {
      ListedIsOldOrRead(s, step, n);
      if n in s.listed && t.listed[n] == s.listed[n] {
        SnapshotStays(s.tokens, t.tokens, s.listed[n].0, s.listed[n].1);
      }
    }
  }

  lemma RotationsKeep(s: State, step: Step)
    requires Inv(s)
    ensures var t := Apply(s, step); forall n <- t.rotations :: RotationOk(t, t.rotations[n])
  {
    var t := Apply(s, step);
    StepFollows(s, step);
    forall n | n in t.rotations
      ensures RotationOk(t, t.rotations[n])
    {
      RotationIsOldOrBegun(s, step, n);
      if n in s.rotations && t.rotations[n] == s.rotations[n] {
        SnapshotStays(s.tokens, t.tokens, s.rotations[n].predecessor, s.rotations[n].token);
      }
    }
  }

  lemma RotatedKeep(s: State, step: Step)
    requires Inv(s)
    ensures RotatedOk(Apply(s, step))
  {
    var t := Apply(s, step);
    StepFollows(s, step);
    forall id | id in t.rotated
      ensures id in t.tokens && t.rotated[id] <= t.clock && NoLater(t.tokens[id].expires, Some(t.rotated[id] + MAX_GRACE))
    {
      RotatedIsOldOrFinished(s, step, id);
      if id in s.rotated {
        assert Descends(s.tokens[id], t.tokens[id]);
      }
    }
  }

  lemma LogGrows(tokens: Tokens, g: Guard, c: Change)
    requires LogOk(tokens, g)
    requires if c.Added? then c.id !in tokens && !c.token.revoked else c.id in tokens
    ensures LogOk(Applied(tokens, c), Noted(g, [c]))
  {
    var longer := g.log.changes + [c];
    assert longer[..|longer| - 1] == g.log.changes;
    ReplayCounts(g.log.seen, g.log.changes, c.id, 0);
  }

  lemma LogKeepsRotation(tokens: Tokens, g: Guard, r: Rotation, id: Id, successor: Token)
    requires LogOk(tokens, g) && r.predecessor in tokens && id !in tokens && !successor.revoked
    ensures LogOk(tokens[r.predecessor := Bound(tokens[r.predecessor], r.now + r.grace)][id := successor], Marked(g, r, id, successor))
  {
    var bounded, added := Bounded(r.predecessor, r.now + r.grace), Added(id, successor);
    LogGrows(tokens, g, bounded);
    LogGrows(Applied(tokens, bounded), Noted(g, [bounded]), added);
    assert g.log.changes + [bounded] + [added] == g.log.changes + [bounded, added];
  }

  lemma LockKeepsLog(s: State, request: nat)
    requires Inv(s) && request in s.listed
    ensures var t := Locked(s, request); LogOk(t.tokens, t.lock.value)
  {
    assert SnapshotOk(s.tokens, s.listed[request].0, s.listed[request].1);
  }

  lemma CountsKeepLog(s: State, g: Guard)
    requires LogOk(s.tokens, g) && g.id in s.tokens
    ensures var t := PresentCounted(s, g); t.lock.Some? ==> LogOk(t.tokens, t.lock.value)
    ensures var t := HorizonCounted(s, g); t.lock.Some? ==> LogOk(t.tokens, t.lock.value)
  {
  }

  lemma FinishKeepsLog(s: State, request: nat, id: Id)
    requires Inv(s) && request in s.rotations && id !in s.tokens
    ensures var t := Finished(s, request, id); t.lock.Some? ==> LogOk(t.tokens, t.lock.value)
  {
    FinishedShape(s, request, id);
    var t, r := Finished(s, request, id), s.rotations[request];
    if t.lock.Some? && t.tokens != s.tokens {
      LogKeepsRotation(s.tokens, s.lock.value, r, id, Successor(r.token, r.now, r.days).value);
    }
  }

  lemma LogKeeps(s: State, step: Step)
    requires Inv(s)
    ensures var t := Apply(s, step); t.lock.Some? ==> LogOk(t.tokens, t.lock.value)
  {
    var t := Apply(s, step);
    if t != s {
      match step
      case Mint(id, _, _) =>
        if s.lock.Some? {
          LogGrows(s.tokens, s.lock.value, Added(id, t.tokens[id]));
        }
      case FinishRotation(request, id) => FinishKeepsLog(s, request, id);
      case Lock(request) => LockKeepsLog(s, request);
      case CountPresent => CountsKeepLog(s, s.lock.value);
      case CountHorizon => CountsKeepLog(s, s.lock.value);
      case _ =>
    }
  }

  lemma {:induction false} InvRun(s: State, steps: seq<Step>)
    requires Init(s)
    ensures Inv(After(s, steps))
  {
    if |steps| > 0 {
      var before, step := After(s, steps[..|steps| - 1]), steps[|steps| - 1];
      InvRun(s, steps[..|steps| - 1]);
      GuardKeeps(before, step);
      LogKeeps(before, step);
      ListedKeep(before, step);
      RotationsKeep(before, step);
      RotatedKeep(before, step);
    }
  }

  /** A new token has the role it was minted with, for the lifetime it was minted with, and touches no other. */
  lemma MintedIsUsable(s: State, id: Id, role: Role, days: int, at: int)
    requires id !in s.tokens
    ensures var t := Apply(s, Mint(id, role, days)).tokens;
            if role != Unknown && 0 <= days <= MAX_DAYS then
              id in t && t[id].role == role && (Usable(t[id], at) <==> (days > 0 ==> at < s.clock + days * DAY)) &&
              t.Keys == s.tokens.Keys + {id} && forall k <- s.tokens :: t[k] == s.tokens[k]
            else t == s.tokens
  {
  }

  /** A token is revoked only by the write of a guard that was cleared for it, and a rotation starts only from a usable one. */
  lemma OnlyTheGuardedAreRevoked(s: State, step: Step, id: Id, request: nat)
    ensures var t := Apply(s, step);
            id in s.tokens && !s.tokens[id].revoked && t.tokens[id].revoked ==>
              step == Write && s.lock.Some? && s.lock.value.stage == Cleared && s.lock.value.id == id
    ensures var t := Apply(s, step);
            request in t.rotations && request !in s.rotations ==>
              var p := t.rotations[request].predecessor;
              p in s.tokens && !s.tokens[p].revoked && s.tokens[p].role != Unknown &&
              (s.tokens[p].expires.Some? ==> s.clock < s.tokens[p].expires.value)
  {
  }

  // The results

  /** Revoking takes an instant's last full administrator exactly when nobody else counts then. */
  lemma RevokeEmpties(tokens: Tokens, id: Id, at: int)
    requires Revoked(tokens, id).Some?
    ensures var after := Revoked(tokens, id).value;
            FullAt(after, at) == FullAt(tokens, at) - {id} &&
            (Count(tokens, at) > 0 && Count(after, at) == 0 <==> FullAt(tokens, at) == {id})
  {
    var after := Revoked(tokens, id).value;
    assert FullAt(after, at) == FullAt(tokens, at) - {id};
    if FullAt(tokens, at) - {id} == {} && FullAt(tokens, at) != {} {
      assert FullAt(tokens, at) == {id};
    }
  }

  /** A write that takes an instant's full administrators from some to none. */
  predicate Empties(before: State, at: int) {
    Count(before.tokens, at) > 0 && Count(Apply(before, Write).tokens, at) == 0
  }

  /**
   In every run, with rotations and mints between any two of its steps, a guarded
   revocation never empties its own instant; nor, when its target outlives the longest
   grace, any instant up to the end of that, unless a rotation has picked an expiry
   before that end between the later count and the write.
   */
  lemma RevokeLeavesAnAdministrator(s: State, steps: seq<Step>, at: int)
    requires Init(s) && After(s, steps).lock.Some?
    ensures var before, g := After(s, steps), After(s, steps).lock.value;
            !Empties(before, g.now) &&
            (at <= g.Later() && Usable(g.target, g.Later()) && !g.shortened ==> !Empties(before, at)) &&
            (!g.shortened ==> !Empties(before, g.Later()))
  {
    InvRun(s, steps);
    var before := After(s, steps);
    var g := before.lock.value;
    if g.stage == Cleared && Revoked(before.tokens, g.id).Some? {
      RevokeSpares(before.tokens, g.id, g.target, g.now);
      if !g.shortened {
        RevokeSpares(before.tokens, g.id, g.target, g.Later());
        if at <= g.Later() && Usable(g.target, g.Later()) {
          if g.target.role == Full {
            AnotherEarlier(before.tokens, g.id, at, g.Later());
          }
          RevokeSpares(before.tokens, g.id, g.target, at);
        }
      }
    }
  }

  lemma AnotherEarlier(tokens: Tokens, id: Id, at: int, later: int)
    requires Another(tokens, id, later) && at <= later
    ensures Another(tokens, id, at)
  {
    var other :| other in tokens && other != id && tokens[other].role == Full && Usable(tokens[other], later);
    assert Usable(tokens[other], at);
  }

  /** By an instant the token stops of itself, or a rotation has bounded it. */
  predicate Over(t: Token, changes: seq<Change>, id: Id, at: int) {
    (t.expires.Some? && t.expires.value <= at) || Cut(changes, id, at)
  }

  /**
   What the tokens as the guard's first count saw them, and the mints and rotations since,
   say about an instant: the target counts then, every other full administrator counted is
   over by then, and so is everyone minted or rotated in since.
   */
  predicate LastToGo(g: Guard, at: int) {
    g.id in FullAt(g.log.seen, at) && !Cut(g.log.changes, g.id, at) &&
    (forall k <- FullAt(g.log.seen, g.now) :: k != g.id ==> Over(g.log.seen[k], g.log.changes, k, at)) &&
    forall i :: 0 <= i < |g.log.changes| && g.log.changes[i].Added? && g.log.changes[i].token.role == Full ==>
      Over(g.log.changes[i].token, g.log.changes, g.log.changes[i].id, at)
  }

  /** Every other full token that comes is over by an instant. */
  predicate OthersOver(g: Guard, at: int) {
    forall k <- FullAt(Entered(g.log.seen, g.log.changes), at) :: k != g.id ==> Cut(g.log.changes, k, at)
  }

  lemma OthersOverMeans(g: Guard, at: int)
    requires Plausible(g.log.seen, g.log.changes) && g.now <= at && g.id in g.log.seen
    ensures OthersOver(g, at) <==>
            (forall k <- FullAt(g.log.seen, g.now) :: k != g.id ==> Over(g.log.seen[k], g.log.changes, k, at)) &&
            forall i :: 0 <= i < |g.log.changes| && g.log.changes[i].Added? && g.log.changes[i].token.role == Full ==>
              Over(g.log.changes[i].token, g.log.changes, g.log.changes[i].id, at)
  {
    var seen, changes := g.log.seen, g.log.changes;
    var all := Entered(seen, changes);
    EnteredAreSeenOrAdded(seen, changes, g.id);
    if OthersOver(g, at) {
      forall k | k in FullAt(seen, g.now) && k != g.id
        ensures Over(seen[k], changes, k, at)
      {
        EnteredAreSeenOrAdded(seen, changes, k);
        assert k in FullAt(all, at) || (seen[k].expires.Some? && seen[k].expires.value <= at);
      }
      forall i | 0 <= i < |changes| && changes[i].Added? && changes[i].token.role == Full
        ensures Over(changes[i].token, changes, changes[i].id, at)
      {
        assert changes[i].id in FullAt(all, at) || (changes[i].token.expires.Some? && changes[i].token.expires.value <= at);
      }
    } else {
      var k :| k in FullAt(all, at) && k != g.id && !Cut(changes, k, at);
      EnteredAreSeenOrAdded(seen, changes, k);
      if k in seen {
        assert k in FullAt(seen, g.now) && !Over(seen[k], changes, k, at);
      } else {
        var i :| 0 <= i < |changes| && changes[i].Added? && changes[i].id == k;
        assert !Over(changes[i].token, changes, changes[i].id, at);
      }
    }
  }

  /** The target is the only one left exactly when it is there and the others are over. */
  lemma AloneMeans(tokens: Tokens, g: Guard, at: int)
    requires LogOk(tokens, g)
    ensures FullAt(tokens, at) == {g.id} <==> g.id in FullAt(tokens, at) && OthersOver(g, at)
    ensures g.id in FullAt(tokens, at) <==> g.id in FullAt(g.log.seen, at) && !Cut(g.log.changes, g.id, at)
  {
    var seen, changes := g.log.seen, g.log.changes;
    EnteredAreSeenOrAdded(seen, changes, g.id);
    forall k
      ensures k in FullAt(tokens, at) <==> k in FullAt(Entered(seen, changes), at) && !Cut(changes, k, at)
    {
      ReplayCounts(seen, changes, k, at);
    }
  }

  /** From its own instant on, a revocation empties an instant exactly when its target is the last to go. */
  lemma RevokeEmptiesExactly(s: State, steps: seq<Step>, at: int)
    requires Init(s) && After(s, steps).lock.Some? && After(s, steps).lock.value.stage == Cleared
    requires After(s, steps).lock.value.now <= at
    ensures Empties(After(s, steps), at) <==> LastToGo(After(s, steps).lock.value, at)
  {
    InvRun(s, steps);
    var before := After(s, steps);
    var g := before.lock.value;
    OthersOverMeans(g, at);
    AloneMeans(before.tokens, g, at);
    if Revoked(before.tokens, g.id).Some? {
      RevokeEmpties(before.tokens, g.id, at);
    } else {
      assert g.id !in FullAt(before.tokens, at);
    }
  }

  lemma RevokeSpares(tokens: Tokens, id: Id, target: Token, at: int)
    requires SnapshotOk(tokens, id, target) && Revoked(tokens, id).Some?
    requires target.role == Full && Usable(target, at) ==> Another(tokens, id, at)
    ensures Count(tokens, at) > 0 ==> Count(Revoked(tokens, id).value, at) > 0
  {
    RevokeEmpties(tokens, id, at);
    if id in FullAt(tokens, at) {
      UsableDescends(target, tokens[id], at);
      var other :| other in tokens && other != id && tokens[other].role == Full && Usable(tokens[other], at);
      assert other in FullAt(tokens, at);
    }
  }

  /**
   When one rotation lands between the count of an instant and the write, of whichever
   token and with whatever grace, this is exactly when the instant is emptied: nobody but
   the target and the rotated token counted, the successor does not, and the rotated token
   has stopped if it is not the target itself.
   */
  lemma OneRotationInTheWindow(s: State, r: Rotation, target: Id, at: int, id: Id, successor: Token)
    requires RotationOk(s, r) && id !in s.tokens && target in s.tokens && !s.tokens[target].revoked
    requires Successor(r.token, r.now, r.days) == Some(successor) && !s.tokens[r.predecessor].revoked
    ensures var rotated := Rotated(s.tokens, r.predecessor, r.now + r.grace, id, successor).value;
            FullAt(Revoked(rotated, target).value, at) == {} <==>
            FullAt(s.tokens, at) <= {target, r.predecessor} && !(successor.role == Full && Usable(successor, at)) &&
            (r.predecessor in FullAt(s.tokens, at) && r.predecessor != target ==> r.now + r.grace <= at)
  {
    var rotated := Rotated(s.tokens, r.predecessor, r.now + r.grace, id, successor).value;
    RevokeEmpties(rotated, target, at);
    var full, left, bounded := FullAt(s.tokens, at), FullAt(rotated, at) - {target}, r.now + r.grace <= at;
    forall k
      ensures k in left <==> k != target && if k == id then successor.role == Full && Usable(successor, at)
                                            else k in full && (k == r.predecessor ==> !bounded)
    {
    }
    if left == {} {
      assert id !in left && r.predecessor !in left;
      forall k | k in full
        ensures k in {target, r.predecessor}
      {
        assert k !in left;
      }
    } else {
      var k :| k in left;
      assert k == id || k in full;
    }
  }

  /** With the target another token and both counting, that is when the rotation picks an expiry before the instant. */
  lemma ShorteningEmpties(s: State, r: Rotation, target: Id, at: int, id: Id, successor: Token)
    requires RotationOk(s, r) && id !in s.tokens && r.predecessor != target && target in FullAt(s.tokens, at)
    requires Successor(r.token, r.now, r.days) == Some(successor) && r.predecessor in FullAt(s.tokens, at)
    requires r.now + r.grace <= at
    ensures var rotated := Rotated(s.tokens, r.predecessor, r.now + r.grace, id, successor).value;
            FullAt(Revoked(rotated, target).value, at) == {} <==>
            FullAt(s.tokens, at) == {target, r.predecessor} && Shortens(r, at)
  {
    OneRotationInTheWindow(s, r, target, at, id, successor);
    UsableDescends(r.token, s.tokens[r.predecessor], at);
    assert Usable(successor, at) <==> !Shortens(r, at);
  }

  /** Two administrators, one revoked while the other rotates onto a one-day token: a week on there is none. */
  lemma RevokeRacesRotation() returns (s: State, steps: seq<Step>)
    ensures Init(s) && s.clock == 0 && Count(s.tokens, 0) == 2 && Count(s.tokens, MAX_GRACE) == 2
    ensures var t := After(s, steps); Count(t.tokens, MAX_GRACE) == 0 && Count(t.tokens, 0) > 0
  {
    var full := Token(Full, false, None);
    var tokens := map["a" := full, "b" := full];
    s := State(tokens, 0, map[], None, map[], map[]);
    assert FullAt(tokens, 0) == {"a", "b"} && FullAt(tokens, MAX_GRACE) == {"a", "b"};
    steps := [ListTarget(0, "a"), Lock(0), CountPresent, CountHorizon,
              BeginRotation(1, "b", Some(0), 0, 1), FinishRotation(1, "c"), Write];
    var counted := GuardPasses(s, tokens, steps);
    RotatesAndWrites(counted, tokens);
    RunLastThree(Apply, s, steps, 4);
    var t := After(s, steps);
    assert FullAt(t.tokens, MAX_GRACE) == {};
    assert "c" in FullAt(t.tokens, 0);
  }

  lemma GuardPasses(s: State, tokens: Tokens, steps: seq<Step>) returns (t: State)
    requires s == State(tokens, 0, map[], None, map[], map[]) && |steps| >= 4
    requires steps[0] == ListTarget(0, "a") && steps[1] == Lock(0) && steps[2] == CountPresent && steps[3] == CountHorizon
    requires "a" in tokens && tokens["a"].role == Full && Usable(tokens["a"], 0) && Count(tokens, 0) == 2
    requires Count(tokens, MAX_GRACE) == 2 || (tokens["a"].expires.Some? && tokens["a"].expires.value <= MAX_GRACE)
    ensures t == After(s, steps[..4])
    ensures t == State(tokens, 0, map[], Some(Guard("a", tokens["a"], 0, Cleared, false, Log(tokens, []))), map[], map[])
  {
    RunNext(Apply, s, steps, 0);
    RunNext(Apply, s, steps, 1);
    RunNext(Apply, s, steps, 2);
    RunNext(Apply, s, steps, 3);
    var target := tokens["a"];
    var listed := s.(listed := map[0 := ("a", target)]);
    assert Apply(s, steps[0]) == listed;
    assert Apply(listed, steps[1]) == s.(lock := Some(Guard("a", target, 0, Present, false, Log(tokens, []))));
    var present := s.(lock := Some(Guard("a", target, 0, Horizon, false, Log(tokens, []))));
    assert Apply(s.(lock := Some(Guard("a", target, 0, Present, false, Log(tokens, [])))), steps[2]) == present;
    t := Apply(present, steps[3]);
  }

  /**
   Two administrators, one of them stopping between the first count and the write that
   revokes the other: nobody is left at the very instant of the write.
   */
  lemma WriteRacesExpiry() returns (s: State, steps: seq<Step>, before: State)
    ensures Init(s) && s.clock == 0 && Count(s.tokens, 0) == 2
    ensures |steps| > 0 && steps[|steps| - 1] == Write && before == After(s, steps[..|steps| - 1])
    ensures before.lock.Some? && before.lock.value.stage == Cleared && !before.lock.value.shortened
    ensures Empties(before, before.clock)
  {
    var tokens := map["a" := Token(Full, false, Some(2 * DAY)), "b" := Token(Full, false, Some(10))];
    s := State(tokens, 0, map[], None, map[], map[]);
    assert FullAt(tokens, 0) == {"a", "b"};
    steps := [ListTarget(0, "a"), Lock(0), CountPresent, CountHorizon, Tick(20), Write];
    var counted := GuardPasses(s, tokens, steps);
    RunNext(Apply, s, steps, 4);
    before := Apply(counted, Tick(20));
    LateWrite(counted);
  }

  lemma LateWrite(counted: State)
    requires counted.tokens == map["a" := Token(Full, false, Some(2 * DAY)), "b" := Token(Full, false, Some(10))]
    requires counted.clock == 0 && counted.lock.Some? && counted.lock.value.stage == Cleared && counted.lock.value.id == "a"
    ensures Apply(counted, Tick(20)) == counted.(clock := 20) && Empties(counted.(clock := 20), 20)
  {
    assert FullAt(counted.tokens, 20) == {"a"};
    RevokeEmpties(counted.tokens, "a", 20);
  }

  lemma RotatesAndWrites(counted: State, tokens: Tokens)
    requires tokens == map["a" := Token(Full, false, None), "b" := Token(Full, false, None)]
    requires counted == State(tokens, 0, map[], Some(Guard("a", tokens["a"], 0, Cleared, false, Log(tokens, []))), map[], map[])
    ensures Apply(Apply(Apply(counted, BeginRotation(1, "b", Some(0), 0, 1)), FinishRotation(1, "c")), Write).tokens ==
            map["a" := Token(Full, true, None), "b" := Token(Full, false, Some(0)), "c" := Token(Full, false, Some(DAY))]
  {
    var r := Rotation("b", tokens["b"], 0, 0, 1);
    OneDayRotation(counted, r);
    WriteRevokes(Apply(counted.(rotations := map[1 := r]), FinishRotation(1, "c")));
  }

  lemma WriteRevokes(s: State)
    requires s.lock.Some? && s.lock.value.stage == Cleared && s.lock.value.id in s.tokens && !s.tokens[s.lock.value.id].revoked
    ensures var id := s.lock.value.id; Apply(s, Write).tokens == s.tokens[id := s.tokens[id].(revoked := true)]
  {
  }

  lemma OneDayRotation(s: State, r: Rotation)
    requires "b" in s.tokens && s.tokens["b"] == Token(Full, false, None) && "c" !in s.tokens && s.clock == 0
    requires s.rotations == map[] && r == Rotation("b", s.tokens["b"], 0, 0, 1)
    requires s.lock.Some? && s.lock.value.stage == Cleared && s.lock.value.now == 0
    ensures Apply(s, BeginRotation(1, "b", Some(0), 0, 1)) == s.(rotations := map[1 := r])
    ensures var t := Apply(s.(rotations := map[1 := r]), FinishRotation(1, "c"));
            t.tokens == s.tokens["b" := Token(Full, false, Some(0))]["c" := Token(Full, false, Some(DAY))] &&
            t.lock.Some? && t.lock.value == s.lock.value.(shortened := true, log := t.lock.value.log)
  {
  }

  /**
   A rotation never lowers the number of full administrators usable at an instant its own
   expiry does not come before, the one it reaches the store at included: the successor
   is there for as long as the predecessor was.
   */
  lemma RotationLowersNoCount(s: State, request: nat, id: Id, at: int)
    requires Inv(s) && request in s.rotations && id !in s.tokens && !Shortens(s.rotations[request], at)
    ensures Count(Finished(s, request, id).tokens, at) >= Count(s.tokens, at)
  {
    var r := s.rotations[request];
    var t := Finished(s, request, id);
    if t.tokens != s.tokens {
      var before, after := FullAt(s.tokens, at), FullAt(t.tokens, at);
      RotationSwaps(s, r, request, id, at);
      if r.predecessor in before {
        SubsetIsNoLarger(before - {r.predecessor} + {id}, after);
      } else {
        SubsetIsNoLarger(before, after);
      }
    }
  }

  lemma RotationSwaps(s: State, r: Rotation, request: nat, id: Id, at: int)
    requires Inv(s) && request in s.rotations && r == s.rotations[request] && id !in s.tokens && !Shortens(r, at)
    requires Finished(s, request, id).tokens != s.tokens
    ensures var before, after := FullAt(s.tokens, at), FullAt(Finished(s, request, id).tokens, at);
            before - {r.predecessor} <= after && id !in before && (r.predecessor in before ==> id in after)
  {
    if r.predecessor in FullAt(s.tokens, at) {
      UsableDescends(r.token, s.tokens[r.predecessor], at);
    }
  }

  /** A rotated predecessor never counts at the end of the longest grace, whenever a guard looks. */
  lemma PredecessorNeverCountsLater(s: State, steps: seq<Step>, id: Id, now: int)
    requires Init(s) && id in After(s, steps).rotated && now >= After(s, steps).rotated[id]
    ensures id !in FullAt(After(s, steps).tokens, now + MAX_GRACE)
  {
    InvRun(s, steps);
  }

  // The handlers

  datatype Revocation = NoSuchToken | LastAdministrator | RevokedNow

  datatype Replacement = BadRequest | Conflict | Replaced

  /** The token is there and has not been revoked. */
  predicate Live(tokens: Tokens, id: Id) {
    id in tokens && !tokens[id].revoked
  }

  /** A token may be revoked: it is not full, or another full one is usable at either instant it is usable at itself. */
  predicate Dispensable(tokens: Tokens, id: Id, now: int)
    requires id in tokens
  {
    tokens[id].role == Full ==>
      (Usable(tokens[id], now) ==> Another(tokens, id, now)) &&
      (Usable(tokens[id], now + MAX_GRACE) ==> Another(tokens, id, now + MAX_GRACE))
  }

  /** Either count of the guard comes out at one or less. */
  predicate Refuses(tokens: Tokens, target: Token, now: int) {
    target.role == Full &&
    ((Usable(target, now) && Count(tokens, now) <= 1) ||
     (NoLater(Some(now + MAX_GRACE + 1), target.expires) && Count(tokens, now + MAX_GRACE) <= 1))
  }

  lemma CountIsAnother(tokens: Tokens, id: Id, at: int)
    requires id in FullAt(tokens, at)
    ensures Count(tokens, at) > 1 <==> Another(tokens, id, at)
  {
    if Count(tokens, at) > 1 {
      CountSeesAnother(tokens, id, at);
    }
    if Another(tokens, id, at) {
      var other :| other in tokens && other != id && tokens[other].role == Full && Usable(tokens[other], at);
      SubsetIsNoLarger({id, other}, FullAt(tokens, at));
    }
  }

  /** Counting to one and looking for somebody else come to the same for a token that counts itself. */
  lemma GuardRefusesTheIndispensable(tokens: Tokens, id: Id, now: int)
    requires Live(tokens, id)
    ensures Refuses(tokens, tokens[id], now) <==> !Dispensable(tokens, id, now)
  {
    var t := tokens[id];
    if t.role == Full {
      assert Usable(t, now + MAX_GRACE) <==> NoLater(Some(now + MAX_GRACE + 1), t.expires);
      if Usable(t, now) {
        CountIsAnother(tokens, id, now);
      }
      if Usable(t, now + MAX_GRACE) {
        CountIsAnother(tokens, id, now + MAX_GRACE);
      }
    }
  }

  /** A successor has its predecessor's role, and lasts as long as that would have, or the days asked for. */
  predicate Succeeds(predecessor: Token, successor: Token, now: int, days: int) {
    successor.role == predecessor.role && !successor.revoked &&
    successor.expires == if days > 0 then Some(now + days * DAY) else predecessor.expires
  }

  /** A predecessor stays as it was but for stopping at an instant at the latest. */
  predicate Retires(before: Token, after: Token, cutoff: int) {
    after == before.(expires := after.expires) &&
    (after.expires == before.expires || after.expires == Some(cutoff)) &&
    NoLater(after.expires, Some(cutoff)) && NoLater(after.expires, before.expires)
  }

  /** The overlap or the lifetime asked for is one a rotation does not allow. */
  predicate OutOfBounds(t: Token, now: int, asked: Option<int>, days: int) {
    (asked.Some? && !(0 <= asked.value <= MAX_GRACE)) || days < 0 || days > MAX_DAYS ||
    (days > 0 && t.expires.Some? && now + days * DAY > t.expires.value)
  }

  lemma RefusedOutOfBounds(t: Token, now: int, asked: Option<int>, configured: int, days: int)
    ensures OutOfBounds(t, now, asked, days) <==> RotationGrace(asked, configured).None? || Successor(t, now, days).None?
    ensures !OutOfBounds(t, now, asked, days) ==> RotationGrace(asked, configured) == Some(if asked.Some? then asked.value else configured)
  {
    SuccessorOutlivesNothing(t, now, days);
  }

  lemma RotationBegins(s: State, request: nat, r: Rotation, asked: Option<int>, configured: int)
    requires r.predecessor in s.tokens && r.token == s.tokens[r.predecessor] && r.now == s.clock && Usable(r.token, s.clock)
    requires RotationGrace(asked, configured) == Some(r.grace) && Successor(r.token, r.now, r.days).Some? && 0 <= configured <= MAX_GRACE
    ensures Apply(s, BeginRotation(request, r.predecessor, asked, configured, r.days)) == s.(rotations := s.rotations[request := r])
  {
  }

  class AdminDesk {
    var s: State
    ghost const start: State
    ghost var trace: seq<Step>

    /** Nobody else is at work. */
    const quiet: bool

    ghost predicate Valid()
      reads this
    {
      Init(start) && Leads(Apply, start, trace, s)
    }

    constructor (start: State, quiet: bool)
      requires Init(start)
      ensures Valid() && s == start && this.start == start && this.quiet == quiet
    {
      s, this.start, trace, this.quiet := start, start, [], quiet;
    }

    method Take(step: Step)
      requires Valid()
      modifies this`s, this`trace
      ensures Valid() && s == Apply(old(s), step) && trace == old(trace) + [step]
    {
      Advance(Apply, start, trace, s, step);
      s := Apply(s, step);
      trace := trace + [step];
    }

    /** Other requests, while this one holds the lock: they mint, list and rotate. */
    method OthersWhileLocked()
      requires Valid() && s.lock.Some?
      modifies this`s, this`trace
      ensures Valid() && s.lock.Some? && s.lock.value == old(s.lock.value).(shortened := s.lock.value.shortened, log := s.lock.value.log)
      ensures Follows(old(s.tokens), s.tokens)
      ensures quiet ==> s == old(s)
    {
      var steps: seq<Step> := *;
      if quiet {
        steps := [];
      }
      ghost var g := s.lock.value;
      for i := 0 to |steps|
        invariant Valid() && s.lock.Some? && s.lock.value == g.(shortened := s.lock.value.shortened, log := s.lock.value.log)
        invariant Follows(old(s.tokens), s.tokens)
        invariant quiet ==> s == old(s)
      {
        if !OnLock(steps[i]) {
          StepFollows(s, steps[i]);
          FollowsOn(old(s.tokens), s.tokens, Apply(s, steps[i]).tokens);
          LeavesLock(s, steps[i]);
          Take(steps[i]);
        }
      }
    }

    /** Gives the lock back: whoever holds it counts what is left to count and writes. */
    method DriveHolder()
      requires Valid()
      modifies this`s, this`trace
      ensures Valid() && s.lock.None? && s.listed == old(s.listed)
      ensures old(s).lock.None? ==> s == old(s)
    {
      HolderMoves(s);
      Take(CountPresent);
      HolderMoves(s);
      Take(CountHorizon);
      HolderMoves(s);
      Take(Write);
    }

    /** Other requests, while this one has read its target and waits for the lock; they take it and give it back. */
    method OthersBeforeLock(request: nat)
      requires Valid() && request in s.listed
      modifies this`s, this`trace
      ensures Valid() && s.lock.None? && request in s.listed && s.listed[request] == old(s.listed[request])
      ensures quiet && old(s).lock.None? ==> s == old(s)
    {
      var steps: seq<Step> := *;
      if quiet {
        steps := [];
      }
      ghost var target := s.listed[request];
      for i := 0 to |steps|
        invariant Valid() && request in s.listed && s.listed[request] == target
        invariant quiet ==> s == old(s)
      {
        if !OnListing(steps[i], request) {
          LeavesListing(s, steps[i], request);
          Take(steps[i]);
        }
      }
      DriveHolder();
    }

    /** The count of the present, for a full target that is usable then. */
    method CountNow() returns (ok: bool)
      requires Valid() && s.lock.Some? && s.lock.value.stage == Present
      modifies this`s, this`trace
      ensures Valid() && s == old(s).(lock := s.lock) && (ok <==> s.lock.Some?)
      ensures ok ==> s.lock.value == old(s.lock.value).(stage := Horizon, log := s.lock.value.log)
      ensures ok <==> !(Usable(old(s.lock.value).target, old(s.lock.value).now) && Count(s.tokens, old(s.lock.value).now) <= 1)
    {
      Take(CountPresent);
      ok := s.lock.Some?;
    }

    /** The count at the end of the longest grace, for a full target that lasts that long. */
    method CountLater() returns (ok: bool)
      requires Valid() && s.lock.Some? && s.lock.value.stage == Horizon
      modifies this`s, this`trace
      ensures Valid() && s == old(s).(lock := s.lock) && (ok <==> s.lock.Some?)
      ensures ok ==> s.lock.value == old(s.lock.value).(stage := Cleared)
      ensures ok <==> !(NoLater(Some(old(s.lock.value).Later() + 1), old(s.lock.value).target.expires) &&
                        Count(s.tokens, old(s.lock.value).Later()) <= 1)
    {
      Take(CountHorizon);
      ok := s.lock.Some?;
    }

    /**
     Counts at both instants, with other requests in between. When it passes, a full
     target counts at neither instant or somebody else does; when it refuses, a count of
     at most one was seen at an instant, and the lock is given back.
     */
    method GuardLastFullAdministrator(id: Id) returns (ok: bool, ghost seen: State, ghost at: int)
      requires Valid() && s.lock.Some? && s.lock.value.id == id && s.lock.value.stage != Horizon
      requires s.lock.value.target.role == Full <==> s.lock.value.stage == Present
      modifies this`s, this`trace
      ensures Valid() && (ok <==> s.lock.Some?)
      ensures ok ==> s.lock.value == old(s.lock.value).(stage := Cleared, shortened := s.lock.value.shortened, log := s.lock.value.log) &&
                     SparesFor(s.tokens, s.lock.value)
      ensures !ok ==> Count(seen.tokens, at) <= 1 && old(s.lock.value).target.role == Full &&
                      ((at == old(s.lock.value).now && Usable(old(s.lock.value).target, at)) ||
                       (at == old(s.lock.value).Later() && NoLater(Some(at + 1), old(s.lock.value).target.expires)))
      ensures quiet ==> s == old(s).(lock := s.lock) &&
                        (ok <==> !Refuses(old(s.tokens), old(s.lock.value).target, old(s.lock.value).now))
    {
      seen, at := s, s.lock.value.now;
      ok := true;
      if s.lock.value.stage == Present {
        OthersWhileLocked();
        seen := s;
        ok := CountNow();
        if !ok {
          return;
        }
        OthersWhileLocked();
        seen, at := s, s.lock.value.Later();
        ok := CountLater();
      }
      Arrives(Apply, start, trace, s);
      InvRun(start, trace);
    }

    /** Writes the revocation of a guard that was cleared, after whatever others still do. */
    method WriteUnderLock(id: Id) returns (found: bool, ghost before: State)
      requires Valid() && s.lock.Some? && s.lock.value.stage == Cleared && s.lock.value.id == id
      modifies this`s, this`trace
      ensures Valid() && s.lock.None?
      ensures before.lock.Some? && before.lock.value.stage == Cleared && before.lock.value.id == id
      ensures s == Apply(before, Write) && |trace| > 0 && Leads(Apply, start, trace[..|trace| - 1], before)
      ensures id in before.tokens && id in s.tokens && s.tokens[id].revoked && (found <==> !before.tokens[id].revoked)
      ensures !found ==> s.tokens == before.tokens
      ensures quiet ==> before == old(s)
      ensures quiet && found ==> s == old(s).(lock := None, tokens := old(s.tokens)[id := old(s.tokens[id]).(revoked := true)])
    {
      OthersWhileLocked();
      before := s;
      ghost var reached := trace;
      Arrives(Apply, start, trace, s);
      InvRun(start, trace);
      found := Revoked(s.tokens, id).Some?;
      Take(Write);
      assert trace[..|trace| - 1] == reached;
    }

    /**
     Revokes a token under the lock, unless it is the last usable full administrator at
     either instant the guard looks at. Other requests run between the reading of the
     target and the lock, and again between the counts and the write; when a token that was
     listed is answered as missing, one of them has revoked it. With nobody else at work a
     listed token is revoked exactly when it is not full, or not alone at an instant where
     it counts.
     */
    method RevokeAdminToken(id: Id, request: nat) returns (outcome: Revocation, ghost before: State, ghost at: int)
      requires Valid() && request !in s.listed
      modifies this`s, this`trace
      ensures Valid() && (s.lock.None? || s == old(s))
      ensures outcome == RevokedNow ==> id in before.tokens && !before.tokens[id].revoked && id in s.tokens && s.tokens[id].revoked
      ensures outcome == RevokedNow || (outcome == NoSuchToken && Live(old(s.tokens), id)) ==>
                before.lock.Some? && before.lock.value.stage == Cleared && before.lock.value.id == id &&
                s == Apply(before, Write) && |trace| > 0 && Leads(Apply, start, trace[..|trace| - 1], before)
      ensures outcome == NoSuchToken && Live(old(s.tokens), id) ==>
                id in before.tokens && before.tokens[id].revoked && s.tokens == before.tokens
      ensures outcome == LastAdministrator ==>
                Count(before.tokens, at) <= 1 && id in old(s.tokens) && old(s.tokens[id]).role == Full &&
                NoLater(Some(at + 1), old(s.tokens[id]).expires)
      ensures !Live(old(s.tokens), id) ==> outcome == NoSuchToken && s == old(s)
      ensures quiet && old(s).lock.None? && Live(old(s.tokens), id) ==>
                (outcome == RevokedNow <==> Dispensable(old(s.tokens), id, old(s.clock))) &&
                (outcome == LastAdministrator <==> !Dispensable(old(s.tokens), id, old(s.clock))) &&
                s == old(s).(tokens := if outcome == RevokedNow then old(s.tokens)[id := old(s.tokens[id]).(revoked := true)]
                                       else old(s.tokens))
    {
      before, at := s, s.clock;
      if id !in s.tokens || s.tokens[id].revoked {
        return NoSuchToken, before, at;
      }
      GuardRefusesTheIndispensable(s.tokens, id, s.clock);
      Take(ListTarget(request, id));
      OthersBeforeLock(request);
      Take(Lock(request));
      var passes: bool;
      passes, before, at := GuardLastFullAdministrator(id);
      if !passes {
        return LastAdministrator, before, at;
      }
      var found: bool;
      found, before := WriteUnderLock(id);
      outcome := if found then RevokedNow else NoSuchToken;
    }

    /** Other requests, while this one is on its way to the store. */
    method OthersDuringRotation(request: nat)
      requires Valid() && request in s.rotations
      modifies this`s, this`trace
      ensures Valid() && request in s.rotations && s.rotations[request] == old(s.rotations[request])
      ensures quiet ==> s == old(s)
    {
      var steps: seq<Step> := *;
      if quiet {
        steps := [];
      }
      ghost var r := s.rotations[request];
      for i := 0 to |steps|
        invariant Valid() && request in s.rotations && s.rotations[request] == r
        invariant quiet ==> s == old(s)
      {
        if !OnRotation(steps[i], request) {
          LeavesRotation(s, steps[i], request);
          Take(steps[i]);
        }
      }
    }

    /**
     Replaces the caller's own token. A refused request changes nothing here; one that
     reaches the store leaves the successor in place, the predecessor good until the end
     of the grace and no further, and no fewer full administrators, at the write as at the
     instant it was asked for. It reaches the store unless the predecessor was revoked
     meanwhile, its new identifier is taken, or it took a day.
     */
    method RotateOwnToken(predecessor: Id, asked: Option<int>, configured: int, days: int, request: nat, id: Id)
      returns (outcome: Replacement, ghost before: State)
      requires Valid() && predecessor in s.tokens && Usable(s.tokens[predecessor], s.clock)
      requires 0 <= configured <= MAX_GRACE && request !in s.rotations
      modifies this`s, this`trace
      ensures Valid()
      ensures outcome == BadRequest <==> OutOfBounds(old(s.tokens[predecessor]), old(s.clock), asked, days)
      ensures outcome == BadRequest ==> s == old(s)
      ensures outcome != BadRequest ==>
                predecessor in before.tokens &&
                (outcome == Conflict <==> before.tokens[predecessor].revoked || id in before.tokens ||
                                          before.clock >= old(s.clock) + DAY)
      ensures quiet ==> before == old(s).(rotations := before.rotations)
      ensures outcome == Conflict ==> s.tokens == before.tokens
      ensures outcome == Replaced ==>
                id !in before.tokens && id in s.tokens && predecessor in s.tokens &&
                s.tokens.Keys == before.tokens.Keys + {id} &&
                (forall k <- before.tokens :: k != predecessor ==> s.tokens[k] == before.tokens[k]) &&
                Succeeds(old(s.tokens[predecessor]), s.tokens[id], old(s.clock), days) &&
                Retires(before.tokens[predecessor], s.tokens[predecessor],
                        old(s.clock) + if asked.Some? then asked.value else configured) &&
                predecessor in s.rotated && s.rotated[predecessor] == old(s.clock) &&
                s.clock == before.clock && Count(s.tokens, s.clock) >= Count(before.tokens, s.clock) &&
                Count(s.tokens, old(s.clock)) >= Count(before.tokens, old(s.clock))
    {
      before := s;
      RefusedOutOfBounds(s.tokens[predecessor], s.clock, asked, configured, days);
      if RotationGrace(asked, configured).None? || Successor(s.tokens[predecessor], s.clock, days).None? {
        return BadRequest, before;
      }
      ghost var r := Rotation(predecessor, s.tokens[predecessor], s.clock, RotationGrace(asked, configured).value, days);
      RotationBegins(s, request, r, asked, configured);
      Take(BeginRotation(request, predecessor, asked, configured, days));
      OthersDuringRotation(request);
      before := s;
      Arrives(Apply, start, trace, s);
      InvRun(start, trace);
      var found := predecessor in s.tokens && !s.tokens[predecessor].revoked && id !in s.tokens &&
                   s.clock < s.rotations[request].now + DAY;
      FinishReplaces(before, r, request, id);
      if found {
        FinishedSwaps(before, r, request, id);
      }
      Take(FinishRotation(request, id));
      outcome := if found then Replaced else Conflict;
    }
  }

  /** A rotation that reaches the store puts the successor beside the predecessor and moves nothing else. */
  lemma FinishedSwaps(s: State, r: Rotation, request: nat, id: Id)
    requires Inv(s) && request in s.rotations && s.rotations[request] == r && Successor(r.token, r.now, r.days).Some?
    requires id !in s.tokens && !s.tokens[r.predecessor].revoked
    ensures var t := Finished(s, request, id);
            t.clock == s.clock && t.tokens.Keys == s.tokens.Keys + {id} &&
            (forall k <- s.tokens :: k != r.predecessor ==> t.tokens[k] == s.tokens[k]) &&
            r.predecessor in t.rotated && t.rotated[r.predecessor] == r.now && Succeeds(r.token, t.tokens[id], r.now, r.days) &&
            Retires(s.tokens[r.predecessor], t.tokens[r.predecessor], r.now + r.grace)
  {
  }

  /** It reaches the store unless the predecessor is revoked, the identifier taken or a day gone, and lowers no count of the moment. */
  lemma FinishReplaces(s: State, r: Rotation, request: nat, id: Id)
    requires Inv(s) && request in s.rotations && s.rotations[request] == r && Successor(r.token, r.now, r.days).Some?
    ensures var t := Apply(s, FinishRotation(request, id));
            if id !in s.tokens && !s.tokens[r.predecessor].revoked && s.clock < r.now + DAY then
              t == Finished(s, request, id) &&
              Count(t.tokens, s.clock) >= Count(s.tokens, s.clock) && Count(t.tokens, r.now) >= Count(s.tokens, r.now)
            else t.tokens == s.tokens
  {
    if id !in s.tokens && s.clock < r.now + DAY {
      RotationLowersNoCount(s, request, id, s.clock);
      RotationLowersNoCount(s, request, id, r.now);
    }
  }

  predicate OnRotation(step: Step, request: nat) {
    (step.BeginRotation? || step.FinishRotation?) && step.request == request
  }

  lemma LeavesRotation(s: State, step: Step, request: nat)
    requires request in s.rotations && !OnRotation(step, request)
    ensures var t := Apply(s, step); request in t.rotations && t.rotations[request] == s.rotations[request]
  {
  }

  predicate OnListing(step: Step, request: nat) {
    (step.ListTarget? || step.Lock?) && step.request == request
  }

  lemma LeavesListing(s: State, step: Step, request: nat)
    requires request in s.listed && !OnListing(step, request)
    ensures var t := Apply(s, step); request in t.listed && t.listed[request] == s.listed[request]
  {
  }

  /** The holder of the lock counts, counts again and writes, and reads no list. */
  lemma HolderMoves(s: State)
    ensures s.lock.None? ==> Apply(s, CountPresent) == s && Apply(s, CountHorizon) == s && Apply(s, Write) == s
    ensures var t := Apply(s, CountPresent); t.listed == s.listed && (t.lock.Some? ==> t.lock.value.stage != Present)
    ensures var t := Apply(s, CountHorizon);
            t.listed == s.listed && (t.lock.Some? && s.lock.value.stage != Present ==> t.lock.value.stage == Cleared)
    ensures var t := Apply(s, Write);
            t.listed == s.listed && (s.lock.Some? && s.lock.value.stage == Cleared ==> t.lock.None?)
  {
  }

  predicate OnLock(step: Step) {
    step.Lock? || step.CountPresent? || step.CountHorizon? || step.Write?
  }

  lemma FollowsOn(a: Tokens, b: Tokens, c: Tokens)
    requires Follows(a, b) && Follows(b, c)
    ensures Follows(a, c)
  {
  }

  lemma LeavesLock(s: State, step: Step)
    requires s.lock.Some? && !OnLock(step)
    ensures var t := Apply(s, step);
            t.lock.Some? && t.lock.value == s.lock.value.(shortened := t.lock.value.shortened, log := t.lock.value.log)
  {
  }

  /** Whatever a desk has been through, all this holds of the revocation it has just written. */
  lemma DeskLeavesAnAdministrator(start: State, trace: seq<Step>, before: State, at: int)
    requires Init(start) && Leads(Apply, start, trace, before) && before.lock.Some?
    ensures var g := before.lock.value;
            !Empties(before, g.now) && (g.stage == Cleared && g.now <= at ==> (Empties(before, at) <==> LastToGo(g, at))) &&
            (at <= g.Later() && Usable(g.target, g.Later()) && !g.shortened ==> !Empties(before, at))
  {
    Arrives(Apply, start, trace, before);
    RevokeLeavesAnAdministrator(start, trace, at);
    if before.lock.value.stage == Cleared && before.lock.value.now <= at {
      RevokeEmptiesExactly(start, trace, at);
    }
  }
}
