/**
 The rewrap pass: a paged walk over every sealed record that moves each onto the current
 key and format, while other requests keep changing the rows.

 Sealed values are symbolic: what a value opens to, and with what, is part of it, and two
 values are equal when their bytes are. An identifier is a 128-bit number in the order
 the store sorts them, and the empty cursor is zero.
 */
module Rewrap {
  import opened Prelude

  const MAX_ID := 0x1_0000_0000_0000_0000_0000_0000_0000_0000
  const PAGE_SIZE := 200

  type Id = n: int | 0 < n < MAX_ID witness 1

  datatype Kind = Totp | SubjectRef

  /** A row: its table and its identifier. */
  datatype Key = Key(kind: Kind, id: Id)

  // Envelopes

  /** Where a value was sealed for. A subject is its own subject. */
  datatype Binding = Binding(kind: Kind, tenant: string, row: Id, subject: string)

  const MAX_FIELD := 4096

  predicate Complete(b: Binding) {
    b.tenant != "" && (b.kind == Totp <==> b.subject != "") &&
    |b.tenant| <= MAX_FIELD && |b.subject| <= MAX_FIELD
  }

  /** What the ciphertext of an envelope holds: nothing that authenticates, or a payload and its binding. */
  datatype Content = Broken | Box(binding: Option<Binding>, plaintext: string)

  /** Legacy envelopes are those of the format that has no binding. */
  datatype Sealed = Empty | Malformed | Envelope(version: nat, legacy: bool, content: Content, nonce: nat)

  /** The keys a process holds: the version it seals under, and every version it can open. */
  datatype Ring = Ring(current: nat, available: set<nat>)

  predicate Usable(ring: Ring) {
    ring.current in ring.available
  }

  function Unseal(ring: Ring, s: Sealed, bind: Binding): Option<string> {
    if !Complete(bind) || !s.Envelope? || s.version !in ring.available || s.content.Broken? then None
    else if s.content.binding != (if s.legacy then None else Some(bind)) then None
    else Some(s.content.plaintext)
  }

  /** Opens a value, and seals it again under the current key when the key or the format is not current. */
  function Resealed(ring: Ring, s: Sealed, bind: Binding, nonce: nat): Option<Sealed> {
    match Unseal(ring, s, bind)
    case None => None
    case Some(plaintext) =>
      if s.version == ring.current && !s.legacy then Some(s)
      else Some(Envelope(ring.current, false, Box(Some(bind), plaintext), nonce))
  }

  /**
   Resealing succeeds exactly where opening does, keeps what the value opens to under the
   same binding, leaves a current value alone and makes any other current.
   */
  lemma ResealKeepsPlaintext(ring: Ring, s: Sealed, bind: Binding, nonce: nat)
    requires Usable(ring)
    ensures var r := Resealed(ring, s, bind, nonce);
            (r.Some? <==> Unseal(ring, s, bind).Some?) &&
            (r.Some? ==> Unseal(ring, r.value, bind) == Unseal(ring, s, bind) &&
                         r.value.version == ring.current && !r.value.legacy &&
                         (r.value == s <==> s.version == ring.current && !s.legacy))
    ensures forall other :: other != bind && s.Envelope? && !s.legacy ==> !(Unseal(ring, s, bind).Some? && Unseal(ring, s, other).Some?)
  {
  }

  /** A value opens under a complete binding, a held key and the very binding it was sealed for, and then to its payload. */
  lemma OpensExactly(ring: Ring, s: Sealed, bind: Binding, plaintext: string)
    ensures Unseal(ring, s, bind) == Some(plaintext) <==>
            s.Envelope? && s.version in ring.available && s.content == Box(if s.legacy then None else Some(bind), plaintext) &&
            bind.tenant != "" && (bind.kind == Totp <==> bind.subject != "") && |bind.tenant| <= 4096 && |bind.subject| <= 4096
  {
  }

  // Rows

  datatype Row = Row(tenant: string, subject: string, sealed: Sealed, revoked: bool)

  type Rows = map<Key, Row>

  function BindingOf(key: Key, row: Row): Binding {
    Binding(key.kind, row.tenant, key.id, if key.kind == Totp then row.subject else "")
  }

  /** The walk lists rows in use: a revoked secret and an empty reference are passed over. */
  predicate Listed(key: Key, row: Row) {
    match key.kind
    case Totp => !row.revoked
    case SubjectRef => row.sealed != Empty
  }

  /** Under the current key and format, and opening under its own row's binding. */
  predicate Good(ring: Ring, key: Key, row: Row) {
    row.sealed.Envelope? && row.sealed.version == ring.current && !row.sealed.legacy &&
    Unseal(ring, row.sealed, BindingOf(key, row)).Some?
  }

  /** What other requests can have made of a row: nothing, its removal or revocation, a value sealed now, or no reference. */
  predicate Evolved(ring: Ring, key: Key, before: Option<Row>, after: Option<Row>) {
    after == before || after == None || Good(ring, key, after.value) ||
    (key.kind == SubjectRef && after.value.sealed == Empty) ||
    (before.Some? && after.value == before.value.(revoked := true))
  }

  function At(rows: Rows, key: Key): Option<Row> {
    if key in rows then Some(rows[key]) else None
  }

  lemma EvolvedIsTransitive(ring: Ring, key: Key, a: Option<Row>, b: Option<Row>, c: Option<Row>)
    requires Evolved(ring, key, a, b) && Evolved(ring, key, b, c)
    ensures Evolved(ring, key, a, c)
  {
  }

  /** What the pass itself can have made of a row. */
  predicate Kept(ring: Ring, key: Key, before: Row, after: Row) {
    after == before ||
    (after == before.(sealed := after.sealed) && Good(ring, key, after) &&
     Unseal(ring, after.sealed, BindingOf(key, after)) == Unseal(ring, before.sealed, BindingOf(key, before)))
  }

  // The report

  datatype Report = Report(examined: nat, rewrapped: nat, alreadyCurrent: nat, failed: nat)

  function FailedOnce(r: Report): Report {
    r.(examined := r.examined + 1, failed := r.failed + 1)
  }

  predicate AddsUp(r: Report) {
    r.examined == r.rewrapped + r.alreadyCurrent + r.failed
  }

  /** The row is as it should be, or the report owns up to it: a failure, and the version it is still on. */
  predicate Accounted(ring: Ring, key: Key, row: Row, failed: nat, inUse: set<nat>) {
    Good(ring, key, row) || (failed > 0 && (row.sealed.Envelope? ==> row.sealed.version in inUse))
  }

  predicate VersionsOk(ring: Ring, failed: nat, inUse: set<nat>) {
    failed == 0 ==> inUse <= {ring.current}
  }

  // Pages

  /** What the walk remembers of a row it has read. */
  datatype Record = Record(id: Id, tenant: string, subject: string, sealed: Sealed)

  function RecordOf(key: Key, row: Row): Record {
    Record(key.id, row.tenant, if key.kind == Totp then row.subject else "", row.sealed)
  }

  /** Where the cursor stands once i records have been read. */
  function CursorAt(page: seq<Record>, after: nat, i: nat): nat
    requires i <= |page|
  {
    if i == 0 then after else page[i - 1].id
  }

  predicate Increasing(page: seq<Record>, after: nat) {
    (forall i :: 0 <= i < |page| ==> after < page[i].id) &&
    forall i, j :: 0 <= i < j < |page| ==> page[i].id < page[j].id
  }

  predicate Reads(rows: Rows, kind: Kind, r: Record) {
    var key := Key(kind, r.id);
    key in rows && Listed(key, rows[key]) && r == RecordOf(key, rows[key])
  }

  /** How far a page reaches: to its last record when it is full, and to the end when it is not. */
  function Reach(page: seq<Record>): int {
    if |page| < PAGE_SIZE then MAX_ID else page[|page| - 1].id
  }

  predicate InPage(page: seq<Record>, id: Id) {
    exists i :: 0 <= i < |page| && page[i].id == id
  }

  /** Every listed row past the cursor and up to an identifier is in the page. */
  ghost predicate Covers(rows: Rows, kind: Kind, after: nat, upTo: int, page: seq<Record>) {
    forall key <- rows :: key.kind == kind && after < key.id <= upTo && Listed(key, rows[key]) ==> InPage(page, key.id)
  }

  /** The listed rows past the cursor, in order, without a gap as far as the page reaches. */
  ghost predicate IsPage(rows: Rows, kind: Kind, after: nat, page: seq<Record>) {
    |page| <= PAGE_SIZE && Increasing(page, after) && (forall r <- page :: Reads(rows, kind, r)) &&
    Covers(rows, kind, after, Reach(page), page)
  }

  /** The listed keys of a kind past an identifier. */
  function Ahead(rows: Rows, kind: Kind, after: nat): set<Key> {
    set key <- rows | key.kind == kind && key.id > after && Listed(key, rows[key])
  }

  lemma {:induction false} LeastKey(keys: set<Key>) returns (least: Key)
    requires keys != {}
    ensures least in keys && forall k <- keys :: least.id <= k.id
  {
    var k :| k in keys;
    if keys == {k} {
      least := k;
    } else {
      least := LeastKey(keys - {k});
      if k.id < least.id {
        least := k;
      }
    }
  }

  lemma NothingAhead(rows: Rows, kind: Kind, after: nat, cursor: nat, page: seq<Record>)
    requires Covers(rows, kind, after, cursor, page) && Ahead(rows, kind, cursor) == {}
    ensures Covers(rows, kind, after, MAX_ID, page)
  {
    forall k | k in rows && k.kind == kind && after < k.id && Listed(k, rows[k])
      ensures InPage(page, k.id)
    {
      assert k !in Ahead(rows, kind, cursor);
    }
  }

  lemma PageGrows(rows: Rows, kind: Kind, after: nat, page: seq<Record>, key: Key)
    requires var cursor := CursorAt(page, after, |page|);
             Increasing(page, after) && Covers(rows, kind, after, cursor, page) &&
             key in Ahead(rows, kind, cursor) && forall k <- Ahead(rows, kind, cursor) :: key.id <= k.id
    ensures var longer := page + [RecordOf(key, rows[key])];
            Increasing(longer, after) && Covers(rows, kind, after, key.id, longer)
  {
    var longer := page + [RecordOf(key, rows[key])];
    var cursor := CursorAt(page, after, |page|);
    assert longer[|page|].id == key.id;
    forall k | k in rows && k.kind == kind && after < k.id <= key.id && Listed(k, rows[k])
      ensures InPage(longer, k.id)
    {
      if k.id <= cursor {
        var i :| 0 <= i < |page| && page[i].id == k.id;
        assert longer[i].id == k.id;
      } else {
        assert k in Ahead(rows, kind, cursor);
      }
    }
  }

  // The store

  datatype WriteOutcome = Replaced | NotFound | Stale | WriteFailed

  /** One row moved by somebody other than the pass. */
  datatype Move = Move(key: Key, before: Option<Row>, after: Option<Row>)

  function Moves(before: Rows, after: Rows): set<Move> {
    set key | key in before.Keys + after.Keys && At(before, key) != At(after, key) :: Move(key, At(before, key), At(after, key))
  }

  function Touched(moves: set<Move>): set<Key> {
    set m <- moves :: m.key
  }

  lemma MovesTouch(moves: set<Move>, before: Rows, after: Rows)
    ensures Touched(moves + Moves(before, after)) >= Touched(moves)
    ensures forall key :: key in Touched(moves + Moves(before, after)) <==> key in Touched(moves) || At(before, key) != At(after, key)
  {
    var all := moves + Moves(before, after);
    forall key | key in Touched(moves) || At(before, key) != At(after, key)
      ensures key in Touched(all)
    {
      if key in Touched(moves) {
        var m :| m in moves && m.key == key;
        assert m in all;
      } else {
        assert Move(key, At(before, key), At(after, key)) in all;
      }
    }
  }

  /** Each row as somebody other than the pass last left it. */
  function Origin(origin: Rows, before: Rows, after: Rows): Rows {
    map key | key in origin.Keys + after.Keys && (if At(before, key) != At(after, key) then key in after else key in origin) ::
      if At(before, key) != At(after, key) then after[key] else origin[key]
  }

  class Store {
    var rows: Rows
    ghost var origin: Rows
    ghost var moves: set<Move>

    /** Nobody else is at work, and no read or write fails. */
    const quiet: bool

    constructor (rows: Rows, quiet: bool)
      ensures this.rows == rows && origin == rows && moves == {} && this.quiet == quiet
    {
      this.rows, origin, moves, this.quiet := rows, rows, {}, quiet;
    }

    /** Other requests, which seal under the same ring. */
    method Others(ring: Ring)
      modifies this
      ensures forall key :: Evolved(ring, key, At(old(rows), key), At(rows, key))
      ensures moves == old(moves) + Moves(old(rows), rows) && origin == Origin(old(origin), old(rows), rows)
      ensures quiet ==> rows == old(rows)
    {
      if !quiet {
        var next: Rows := *;
        if forall key <- rows.Keys + next.Keys :: Evolved(ring, key, At(rows, key), At(next, key)) {
          rows := next;
        }
      }
      moves := moves + Moves(old(rows), rows);
      origin := Origin(origin, old(rows), rows);
    }

    /** One page of the rows in use. */
    method ListSealed(kind: Kind, after: nat) returns (page: seq<Record>)
      ensures IsPage(rows, kind, after, page)
    {
      page := [];
      var cursor := after;
      while |page| < PAGE_SIZE && Ahead(rows, kind, cursor) != {}
        invariant |page| <= PAGE_SIZE && Increasing(page, after) && after <= cursor == CursorAt(page, after, |page|)
        invariant (forall r <- page :: Reads(rows, kind, r)) && Covers(rows, kind, after, cursor, page)
        decreases PAGE_SIZE - |page|
      {
        ghost var least := LeastKey(Ahead(rows, kind, cursor));
        var key :| key in Ahead(rows, kind, cursor) && forall k <- Ahead(rows, kind, cursor) :: key.id <= k.id;
        PageGrows(rows, kind, after, page, key);
        page := page + [RecordOf(key, rows[key])];
        cursor := key.id;
      }
      if |page| < PAGE_SIZE {
        NothingAhead(rows, kind, after, cursor, page);
      }
    }

    /** Writes over a value only while it is still the one that was read; a failed write may have landed. */
    method ReplaceSealed(key: Key, expected: Sealed, replacement: Sealed) returns (outcome: WriteOutcome)
      modifies this`rows
      ensures outcome == Replaced ==>
                key in old(rows) && old(rows)[key].sealed == expected &&
                rows == old(rows)[key := old(rows)[key].(sealed := replacement)]
      ensures outcome == NotFound ==> key !in rows && rows == old(rows)
      ensures outcome == Stale ==> key in rows && rows[key].sealed != expected && rows == old(rows)
      ensures outcome == WriteFailed ==>
                rows == old(rows) || (key in old(rows) && old(rows)[key].sealed == expected &&
                                      rows == old(rows)[key := old(rows)[key].(sealed := replacement)])
      ensures quiet && key in old(rows) && old(rows)[key].sealed == expected ==> outcome == Replaced
    {
      var fails, lands := false, true;
      if !quiet {
        fails, lands := *, *;
      }
      if fails && !lands {
        return WriteFailed;
      }
      if key !in rows {
        return NotFound;
      }
      if rows[key].sealed != expected {
        return Stale;
      }
      rows := rows[key := rows[key].(sealed := replacement)];
      outcome := if fails then WriteFailed else Replaced;
    }
  }

  // The pass

  /** The identifier up to which each table has been walked. */
  datatype Progress = Progress(totp: int, refs: int) {
    function UpTo(kind: Kind): int {
      if kind == Totp then totp else refs
    }

    function To(kind: Kind, id: int): Progress {
      if kind == Totp then Progress(id, refs) else Progress(totp, id)
    }
  }

  /** Every listed row the walk has got past is accounted for. */
  ghost predicate Settled(ring: Ring, rows: Rows, p: Progress, failed: nat, inUse: set<nat>) {
    forall key <- rows :: key.id <= p.UpTo(key.kind) && Listed(key, rows[key]) ==>
                            Accounted(ring, key, rows[key], failed, inUse)
  }

  /** Rows past the cursor are what others have made of the rows the page was read from. */
  ghost predicate Pending(ring: Ring, snap: Rows, rows: Rows, kind: Kind, cursor: int) {
    forall key: Key :: key.kind == kind && key.id > cursor ==> Evolved(ring, key, At(snap, key), At(rows, key))
  }

  /** Every row is where others last left it, and holds what they put there. */
  ghost predicate Preserved(ring: Ring, origin: Rows, rows: Rows) {
    forall key: Key :: (key in origin <==> key in rows) && (key in origin ==> Kept(ring, key, origin[key], rows[key]))
  }

  /** Only a row that was really moved counts as touched, and any other is as it was before the pass. */
  ghost predicate Recorded(initial: Rows, origin: Rows, moves: set<Move>) {
    (forall m <- moves :: m.before != m.after) &&
    forall key: Key :: key !in Touched(moves) ==> At(origin, key) == At(initial, key)
  }

  /** No row was visited twice, and no listed row that stayed as it was is behind the walk unvisited. */
  ghost predicate Toured(initial: Rows, touched: set<Key>, visited: seq<Key>, p: Progress) {
    (forall i, j :: 0 <= i < j < |visited| ==> visited[i] != visited[j]) &&
    (forall key <- visited :: key.id <= p.UpTo(key.kind)) &&
    forall key <- initial :: key !in touched && Listed(key, initial[key]) && key.id <= p.UpTo(key.kind) ==> key in visited
  }

  /** A row the walk has not reached is where it was unless somebody else touched it. */
  ghost predicate Unwalked(initial: Rows, rows: Rows, touched: set<Key>, p: Progress) {
    forall key: Key :: key.id > p.UpTo(key.kind) && key !in touched ==> At(rows, key) == At(initial, key)
  }

  /** What others do between two rows leaves the walked part accounted for. */
  lemma SettledEvolves(ring: Ring, before: Rows, after: Rows, p: Progress, failed: nat, inUse: set<nat>)
    requires Settled(ring, before, p, failed, inUse)
    requires forall key: Key :: Evolved(ring, key, At(before, key), At(after, key))
    ensures Settled(ring, after, p, failed, inUse)
  {
    forall key | key in after && key.id <= p.UpTo(key.kind) && Listed(key, after[key])
      ensures Accounted(ring, key, after[key], failed, inUse)
    {
      assert Evolved(ring, key, At(before, key), At(after, key));
    }
  }

  lemma PendingEvolves(ring: Ring, snap: Rows, before: Rows, after: Rows, kind: Kind, cursor: int, next: int)
    requires Pending(ring, snap, before, kind, cursor) && cursor <= next
    requires forall key: Key :: key.kind == kind && key.id > next ==> Evolved(ring, key, At(before, key), At(after, key))
    ensures Pending(ring, snap, after, kind, next)
  {
    forall key: Key | key.kind == kind && key.id > next
      ensures Evolved(ring, key, At(snap, key), At(after, key))
    {
      EvolvedIsTransitive(ring, key, At(snap, key), At(before, key), At(after, key));
    }
  }

  lemma PreservedEvolves(ring: Ring, origin: Rows, before: Rows, after: Rows)
    requires Preserved(ring, origin, before)
    ensures Preserved(ring, Origin(origin, before, after), after)
  {
    forall key: Key
      ensures var now := Origin(origin, before, after);
              (key in now <==> key in after) && (key in now ==> Kept(ring, key, now[key], after[key]))
    {
      assert At(before, key) == At(after, key) ==> (key in before <==> key in after);
    }
  }

  lemma RecordedEvolves(initial: Rows, origin: Rows, moves: set<Move>, before: Rows, after: Rows)
    requires Recorded(initial, origin, moves)
    ensures Recorded(initial, Origin(origin, before, after), moves + Moves(before, after))
    ensures Touched(moves) <= Touched(moves + Moves(before, after))
    ensures forall key :: key !in Touched(moves + Moves(before, after)) ==> At(after, key) == At(before, key)
  {
    MovesTouch(moves, before, after);
  }

  /** No row between two cursors was listed when the page was read. */
  ghost predicate Gap(snap: Rows, kind: Kind, cursor: int, next: int) {
    forall key <- snap :: key.kind == kind && cursor < key.id < next ==> !Listed(key, snap[key])
  }

  /** Past a gap and a row that is accounted for, the walk is settled that much further. */
  lemma SettledAdvances(ring: Ring, snap: Rows, before: Rows, after: Rows, p: Progress, key: Key,
                        failed: nat, inUse: set<nat>, failed': nat, inUse': set<nat>)
    requires Settled(ring, before, p, failed, inUse) && failed <= failed' && inUse <= inUse'
    requires Pending(ring, snap, before, key.kind, p.UpTo(key.kind)) && p.UpTo(key.kind) < key.id
    requires Gap(snap, key.kind, p.UpTo(key.kind), key.id)
    requires forall k: Key :: k != key ==> Evolved(ring, k, At(before, k), At(after, k))
    requires key in after && Listed(key, after[key]) ==> Accounted(ring, key, after[key], failed', inUse')
    ensures Settled(ring, after, p.To(key.kind, key.id), failed', inUse')
    ensures Pending(ring, snap, after, key.kind, key.id)
  {
    PendingEvolves(ring, snap, before, after, key.kind, p.UpTo(key.kind), key.id);
    forall k | k in after && k.id <= p.To(key.kind, key.id).UpTo(k.kind) && Listed(k, after[k])
      ensures Accounted(ring, k, after[k], failed', inUse')
    {
      if k != key {
        assert Evolved(ring, k, At(before, k), At(after, k));
        if k.kind == key.kind && k.id > p.UpTo(k.kind) {
          EvolvedIsTransitive(ring, k, At(snap, k), At(before, k), At(after, k));
        }
      }
    }
  }

  lemma UnwalkedAdvances(initial: Rows, before: Rows, after: Rows, touched: set<Key>, touched': set<Key>, p: Progress, key: Key)
    requires Unwalked(initial, before, touched, p) && touched <= touched' && p.UpTo(key.kind) < key.id
    requires forall k :: k != key && k !in touched' ==> At(after, k) == At(before, k)
    ensures Unwalked(initial, after, touched', p.To(key.kind, key.id))
  {
  }

  lemma TouredAdvances(initial: Rows, snap: Rows, touched: set<Key>, visited: seq<Key>, kind: Kind, p: Progress, key: Key)
    requires Toured(initial, touched, visited, p) && key.kind == kind && p.UpTo(kind) < key.id
    requires Gap(snap, kind, p.UpTo(kind), key.id)
    requires Unwalked(initial, snap, touched, p)
    ensures Toured(initial, touched, visited + [key], p.To(kind, key.id))
  {
    forall k | k in initial && k !in touched && Listed(k, initial[k]) && k.id <= p.To(kind, key.id).UpTo(k.kind)
      ensures k in visited + [key]
    {
      assert k.kind == kind && p.UpTo(kind) < k.id ==> At(snap, k) == At(initial, k);
      assert k.kind == kind && k.id == key.id ==> k == key;
    }
  }

  /** What a row opens to is not yet where it should be, and can be moved there. */
  predicate Movable(ring: Ring, key: Key, row: Row) {
    !Good(ring, key, row) && Unseal(ring, row.sealed, BindingOf(key, row)).Some?
  }

  /** What became of one row and of the report when nobody interfered: it was current, or was moved, or could not be opened. */
  predicate Handled(ring: Ring, key: Key, read: Row, before: Rows, after: Rows, r: Report, s: Report, used: set<nat>, used': set<nat>) {
    if Good(ring, key, read) then
      after == before && s == r.(examined := r.examined + 1, alreadyCurrent := r.alreadyCurrent + 1) && used' == used + {ring.current}
    else if Movable(ring, key, read) then
      key in after && after[key] != read && Good(ring, key, after[key]) && after == before[key := after[key]] &&
      s == r.(examined := r.examined + 1, rewrapped := r.rewrapped + 1) && used' == used + {ring.current}
    else
      after == before && s == r.(examined := r.examined + 1, failed := r.failed + 1) &&
      used' == if read.sealed.Envelope? then used + {read.sealed.version} else used
  }

  function MovableAmong(ring: Ring, initial: Rows, visited: seq<Key>): set<Key> {
    set key <- initial | key in visited && Movable(ring, key, initial[key])
  }

  function CurrentAmong(ring: Ring, initial: Rows, visited: seq<Key>): set<Key> {
    set key <- initial | key in visited && Good(ring, key, initial[key])
  }

  /** The versions that seal a visited row. */
  function SealingAmong(rows: Rows, visited: seq<Key>): set<nat> {
    set key <- rows | key in visited && rows[key].sealed.Envelope? :: rows[key].sealed.version
  }

  /**
   With nobody else at work the figures count rows, those moved and those found current,
   exactly the former changed, and the versions are those that seal a row now.
   */
  ghost predicate Tallied(ring: Ring, initial: Rows, rows: Rows, visited: seq<Key>, r: Report, used: set<nat>) {
    used == SealingAmong(rows, visited) &&
    (forall key <- visited :: key in initial && Listed(key, initial[key])) && rows.Keys == initial.Keys &&
    (forall key <- initial :: rows[key] != initial[key] <==> key in MovableAmong(ring, initial, visited)) &&
    r.rewrapped == |MovableAmong(ring, initial, visited)| && r.alreadyCurrent == |CurrentAmong(ring, initial, visited)|
  }

  lemma FiguresGrow(ring: Ring, initial: Rows, visited: seq<Key>, key: Key)
    requires key in initial && key !in visited
    ensures var m, n := MovableAmong(ring, initial, visited), MovableAmong(ring, initial, visited + [key]);
            key !in m && n == (if Movable(ring, key, initial[key]) then m + {key} else m) &&
            |n| == |m| + if Movable(ring, key, initial[key]) then 1 else 0
    ensures var m, n := CurrentAmong(ring, initial, visited), CurrentAmong(ring, initial, visited + [key]);
            key !in m && |n| == |m| + if Good(ring, key, initial[key]) then 1 else 0
  {
    var c := CurrentAmong(ring, initial, visited);
    assert CurrentAmong(ring, initial, visited + [key]) == if Good(ring, key, initial[key]) then c + {key} else c;
  }

  lemma SealingGrows(ring: Ring, key: Key, read: Row, before: Rows, after: Rows, r: Report, s: Report,
                     used: set<nat>, used': set<nat>, visited: seq<Key>)
    requires Handled(ring, key, read, before, after, r, s, used, used') && key !in visited && At(before, key) == Some(read)
    requires used == SealingAmong(before, visited)
    ensures used' == SealingAmong(after, visited + [key])
  {
    forall v | v in used
      ensures v in SealingAmong(after, visited + [key])
    {
      var k :| k in before && k in visited && before[k].sealed.Envelope? && before[k].sealed.version == v;
      assert k in after && k in visited + [key] && after[k] == before[k];
    }
    forall v | v in SealingAmong(after, visited + [key])
      ensures v in used'
    {
      var k :| k in after && k in visited + [key] && after[k].sealed.Envelope? && after[k].sealed.version == v;
      if k != key {
        assert k in before && after[k] == before[k] && v in used;
      }
    }
    assert key in after && key in visited + [key];
  }

  lemma TallyAdvances(ring: Ring, initial: Rows, before: Rows, after: Rows, visited: seq<Key>, key: Key, r: Report, s: Report,
                      used: set<nat>, used': set<nat>)
    requires Tallied(ring, initial, before, visited, r, used) && key !in visited
    requires key in initial && Listed(key, initial[key]) && At(before, key) == Some(initial[key])
    requires Handled(ring, key, initial[key], before, after, r, s, used, used')
    ensures Tallied(ring, initial, after, visited + [key], s, used')
  {
    SealingGrows(ring, key, initial[key], before, after, r, s, used, used', visited);
    FiguresGrow(ring, initial, visited, key);
  }

  /** One pass, and the report it fills in. */
  class Pass {
    const store: Store
    const ring: Ring
    var report: Report
    var inUse: set<nat>
    ghost const initial: Rows
    ghost var visited: seq<Key>

    constructor (store: Store, ring: Ring)
      requires store.moves == {} && store.origin == store.rows
      ensures this.store == store && this.ring == ring && initial == store.rows
      ensures Usable(ring) ==> Valid() && Walked(Progress(0, 0))
      ensures report == Report(0, 0, 0, 0) && inUse == {} && visited == []
    {
      this.store, this.ring, this.initial := store, ring, store.rows;
      report, inUse, visited := Report(0, 0, 0, 0), {}, [];
    }

    /** What the report and the store satisfy throughout. */
    ghost predicate Valid()
      reads this, store
    {
      Usable(ring) && AddsUp(report) && VersionsOk(ring, report.failed, inUse) &&
      (store.quiet ==> store.moves == {}) && Preserved(ring, store.origin, store.rows) &&
      Recorded(initial, store.origin, store.moves)
    }

    /** How far the walk has got, and what it has seen of the rows on the way. */
    ghost predicate Walked(p: Progress)
      reads this, store
    {
      Settled(ring, store.rows, p, report.failed, inUse) && Toured(initial, Touched(store.moves), visited, p) &&
      Unwalked(initial, store.rows, Touched(store.moves), p) && report.examined <= |visited| &&
      (store.quiet ==> report.examined == |visited| && Tallied(ring, initial, store.rows, visited, report, inUse))
    }

    /** Counts a row that was left alone, under the version it is still sealed with. */
    method Fail(version: nat)
      requires AddsUp(report)
      modifies this`report, this`inUse
      ensures report == FailedOnce(old(report)) && inUse == old(inUse) + {version}
    {
      report := FailedOnce(report);
      inUse := inUse + {version};
    }

    /** Handles the next record of a page. */
    method Step(kind: Kind, page: seq<Record>, i: nat, ghost snap: Rows, ghost after: nat, ghost p: Progress)
      requires Valid() && Walked(p) && i < |page| && IsPage(snap, kind, after, page)
      requires p.UpTo(kind) == CursorAt(page, after, i) && Pending(ring, snap, store.rows, kind, p.UpTo(kind))
      requires Unwalked(initial, snap, Touched(store.moves), p)
      modifies this, store
      ensures Valid() && Walked(p.To(kind, page[i].id)) && Pending(ring, snap, store.rows, kind, page[i].id)
      ensures Touched(store.moves) >= old(Touched(store.moves))
    {
      ghost var rows, failed, used, seen, key := store.rows, report.failed, inUse, visited, Key(kind, page[i].id);
      ghost var tally := report;
      assert Reads(snap, kind, page[i]);
      PageHasNoGap(snap, kind, after, page, i);
      RewrapOne(kind, page[i], snap[key]);
      visited := visited + [key];
      SettledAdvances(ring, snap, rows, store.rows, p, key, failed, used, report.failed, inUse);
      TouredGrows(initial, old(Touched(store.moves)), Touched(store.moves), seen, p);
      TouredAdvances(initial, snap, Touched(store.moves), seen, kind, p, key);
      UnwalkedAdvances(initial, rows, store.rows, old(Touched(store.moves)), Touched(store.moves), p, key);
      if store.quiet {
        assert At(snap, key) == At(initial, key) && At(rows, key) == At(initial, key);
        TallyAdvances(ring, initial, rows, store.rows, seen, key, tally, report, used, inUse);
      }
    }

    /** Handles every record of a page. */
    method WalkPage(kind: Kind, page: seq<Record>, ghost after: nat, ghost p: Progress)
      requires Valid() && Walked(p) && IsPage(store.rows, kind, after, page) && p.UpTo(kind) == after < MAX_ID
      modifies this, store
      ensures Valid() && Walked(p.To(kind, Reach(page)))
    {
      ghost var snap, at := store.rows, p;
      for i := 0 to |page|
        invariant Valid() && Walked(at) && at == p.To(kind, CursorAt(page, after, i))
        invariant Pending(ring, snap, store.rows, kind, at.UpTo(kind)) && Unwalked(initial, snap, Touched(store.moves), at)
      {
        Step(kind, page, i, snap, after, at);
        at := p.To(kind, page[i].id);
      }
      if |page| < PAGE_SIZE {
        PageHasNoGap(snap, kind, after, page, |page|);
        SettledToEnd(ring, snap, store.rows, kind, at, report.failed, inUse);
        TouredToEnd(initial, snap, Touched(store.moves), visited, kind, at);
      }
    }

    /** What others do between two accesses to the store. */
    method Interfere()
      requires Valid()
      modifies store
      ensures Valid() && Touched(store.moves) >= old(Touched(store.moves))
      ensures forall key :: Evolved(ring, key, At(old(store.rows), key), At(store.rows, key))
      ensures forall key :: key !in Touched(store.moves) ==> At(store.rows, key) == At(old(store.rows), key)
      ensures store.quiet ==> store.rows == old(store.rows)
    {
      ghost var rows, origin, moves := store.rows, store.origin, store.moves;
      store.Others(ring);
      PreservedEvolves(ring, origin, rows, store.rows);
      RecordedEvolves(initial, origin, moves, rows, store.rows);
    }

    /** The same between two pages, which takes the walk neither back nor on. */
    method Yield(ghost p: Progress)
      requires Valid() && Walked(p)
      modifies store
      ensures Valid() && Walked(p)
    {
      ghost var rows, moves := store.rows, store.moves;
      Interfere();
      SettledEvolves(ring, rows, store.rows, p, report.failed, inUse);
      TouredGrows(initial, Touched(moves), Touched(store.moves), visited, p);
    }

    /** Whether the context was cancelled or a read failed, which does not happen while all is quiet. */
    method Interrupted() returns (yes: bool)
      ensures store.quiet ==> !yes
    {
      yes := false;
      if !store.quiet {
        yes := *;
      }
    }

    /** Walks one table page by page. */
    method WalkKind(kind: Kind, ghost p: Progress) returns (ok: bool, ghost reached: Progress)
      requires Valid() && Walked(p) && p.UpTo(kind) == 0
      modifies this, store
      ensures Valid() && Walked(reached) && (ok ==> reached == p.To(kind, MAX_ID))
      ensures store.quiet ==> ok
    {
      var after, more := 0, true;
      reached := p;
      while more
        invariant Valid() && Walked(reached) && 0 <= after < MAX_ID
        invariant reached == p.To(kind, if more then after else MAX_ID)
        decreases more, MAX_ID - after
      {
        var stop := Interrupted();
        if stop {
          return false, reached;
        }
        Yield(reached);
        var page := store.ListSealed(kind, after);
        WalkPage(kind, page, after, reached);
        reached := p.To(kind, Reach(page));
        if |page| < PAGE_SIZE {
          more := false;
        } else {
          after := page[|page| - 1].id;
        }
      }
      ok := true;
    }

    /**
     Walks both tables. However it ends, the report adds up and every row holds what
     others last put there. A pass that ends without an error has accounted for every row
     in use: with nothing failed each is current and opens, under its own binding, to what
     others last put there, and in any case a key version that is neither current nor
     reported seals no row in use.
     */
    method RewrapAll() returns (ok: bool, versionsInUse: seq<nat>)
      requires Valid() && Walked(Progress(0, 0))
      modifies this, store
      ensures Valid() && Ascending(versionsInUse) && (forall v :: v in versionsInUse <==> v in inUse)
      ensures forall i, j :: 0 <= i < j < |visited| ==> visited[i] != visited[j]
      ensures report.examined <= |visited|
      ensures ok ==> forall key <- store.rows :: Listed(key, store.rows[key]) ==>
                       Accounted(ring, key, store.rows[key], report.failed, inUse)
      ensures ok && report.failed == 0 ==>
                inUse <= {ring.current} &&
                forall key <- store.rows :: Listed(key, store.rows[key]) ==> Sound(ring, store.origin, key, store.rows[key])
      ensures ok ==> forall key <- store.rows :: Listed(key, store.rows[key]) && store.rows[key].sealed.Envelope? ==>
                       store.rows[key].sealed.version in inUse + {ring.current}
      ensures ok ==> forall key <- initial :: key !in Touched(store.moves) && Listed(key, initial[key]) ==> key in visited
      ensures store.quiet ==>
                ok && (forall key :: key in visited <==> key in initial && Listed(key, initial[key])) &&
                report.examined == |visited| && Tallied(ring, initial, store.rows, visited, report, inUse)
    {
      versionsInUse := [];
      var stop := Interrupted();
      if stop {
        versionsInUse := SortedVersions(inUse);
        return false, versionsInUse;
      }
      ghost var reached;
      ok, reached := WalkKind(Totp, Progress(0, 0));
      if ok {
        ok, reached := WalkKind(SubjectRef, reached);
      }
      if ok {
        CleanPass(ring, store.origin, store.rows, report.failed, inUse);
      }
      versionsInUse := SortedVersions(inUse);
    }

    /** Opens one record, moves it on when it has to be, and accounts for it. */
    method RewrapOne(kind: Kind, r: Record, ghost read: Row)
      requires Valid() && r == RecordOf(Key(kind, r.id), read)
      requires Evolved(ring, Key(kind, r.id), Some(read), At(store.rows, Key(kind, r.id)))
      modifies this`report, this`inUse, store
      ensures Valid() && report.failed >= old(report.failed) && inUse >= old(inUse) && Touched(store.moves) >= old(Touched(store.moves))
      ensures report.examined <= old(report.examined) + 1
      ensures store.quiet && At(old(store.rows), Key(kind, r.id)) == Some(read) ==>
                Handled(ring, Key(kind, r.id), read, old(store.rows), store.rows, old(report), report, old(inUse), inUse)
      ensures forall key :: key != Key(kind, r.id) ==> Evolved(ring, key, At(old(store.rows), key), At(store.rows, key))
      ensures forall key :: key != Key(kind, r.id) && key !in Touched(store.moves) ==> At(store.rows, key) == At(old(store.rows), key)
      ensures var key := Key(kind, r.id);
              key in store.rows && Listed(key, store.rows[key]) ==>
                Accounted(ring, key, store.rows[key], report.failed, inUse)
    {
      var key := Key(kind, r.id);
      if r.sealed == Empty || r.sealed == Malformed {
        report := FailedOnce(report);
        return;
      }
      var bind := Binding(kind, r.tenant, r.id, r.subject);
      var nonce: nat := *;
      var replacement := Resealed(ring, r.sealed, bind, nonce);
      ResealKeepsPlaintext(ring, r.sealed, bind, nonce);
      if replacement.None? {
        Fail(r.sealed.version);
        return;
      }
      if replacement.value == r.sealed {
        report := report.(examined := report.examined + 1, alreadyCurrent := report.alreadyCurrent + 1);
        inUse := inUse + {ring.current};
        return;
      }
      WriteBack(key, r, read, replacement.value);
    }

    /** Writes a resealed value over the one that was read, unless that one has gone. */
    method WriteBack(key: Key, r: Record, ghost read: Row, replacement: Sealed)
      requires Valid() && r == RecordOf(key, read) && r.sealed.Envelope?
      requires Evolved(ring, key, Some(read), At(store.rows, key)) && !Good(ring, key, read)
      requires Good(ring, key, read.(sealed := replacement))
      requires Unseal(ring, replacement, BindingOf(key, read)) == Unseal(ring, read.sealed, BindingOf(key, read))
      modifies this`report, this`inUse, store
      ensures Valid() && report.failed >= old(report.failed) && inUse >= old(inUse) && Touched(store.moves) >= old(Touched(store.moves))
      ensures report.examined <= old(report.examined) + 1
      ensures store.quiet && At(old(store.rows), key) == Some(read) ==>
                Handled(ring, key, read, old(store.rows), store.rows, old(report), report, old(inUse), inUse)
      ensures forall k :: k != key ==> Evolved(ring, k, At(old(store.rows), k), At(store.rows, k))
      ensures forall k :: k != key && k !in Touched(store.moves) ==> At(store.rows, k) == At(old(store.rows), k)
      ensures key in store.rows && Listed(key, store.rows[key]) ==>
                Accounted(ring, key, store.rows[key], report.failed, inUse)
    {
      Interfere();
      EvolvedIsTransitive(ring, key, Some(read), At(old(store.rows), key), At(store.rows, key));
      ghost var rows := store.rows;
      var outcome := store.ReplaceSealed(key, r.sealed, replacement);
      if store.rows != rows {
        Overwrites(ring, store.origin, rows, key, read, replacement);
      }
      match outcome
      case Replaced =>
        report := report.(examined := report.examined + 1, rewrapped := report.rewrapped + 1);
        inUse := inUse + {ring.current};
      case NotFound =>
      case Stale => Fail(r.sealed.version);
      case WriteFailed => Fail(r.sealed.version);
    }
  }

  /** Nothing is listed between two records that follow each other in a page, nor past the last of a short one. */
  lemma PageHasNoGap(snap: Rows, kind: Kind, after: nat, page: seq<Record>, i: nat)
    requires IsPage(snap, kind, after, page) && i <= |page|
    ensures Gap(snap, kind, CursorAt(page, after, i), if i < |page| then page[i].id else Reach(page))
  {
  }

  lemma TouredGrows(initial: Rows, touched: set<Key>, touched': set<Key>, visited: seq<Key>, p: Progress)
    requires Toured(initial, touched, visited, p) && touched <= touched'
    ensures Toured(initial, touched', visited, p)
  {
  }

  /** The last page reaches the end of the table. */
  lemma SettledToEnd(ring: Ring, snap: Rows, rows: Rows, kind: Kind, p: Progress, failed: nat, inUse: set<nat>)
    requires Settled(ring, rows, p, failed, inUse) && Pending(ring, snap, rows, kind, p.UpTo(kind))
    requires Gap(snap, kind, p.UpTo(kind), MAX_ID)
    ensures Settled(ring, rows, p.To(kind, MAX_ID), failed, inUse)
  {
    forall key | key in rows && key.id <= p.To(kind, MAX_ID).UpTo(key.kind) && Listed(key, rows[key])
      ensures Accounted(ring, key, rows[key], failed, inUse)
    {
      if key.kind == kind && key.id > p.UpTo(kind) {
        assert Evolved(ring, key, At(snap, key), At(rows, key));
      }
    }
  }

  lemma TouredToEnd(initial: Rows, snap: Rows, touched: set<Key>, visited: seq<Key>, kind: Kind, p: Progress)
    requires Toured(initial, touched, visited, p) && p.UpTo(kind) < MAX_ID
    requires Gap(snap, kind, p.UpTo(kind), MAX_ID) && Unwalked(initial, snap, touched, p)
    ensures Toured(initial, touched, visited, p.To(kind, MAX_ID))
  {
    forall key | key in initial && key !in touched && Listed(key, initial[key]) && key.id <= p.To(kind, MAX_ID).UpTo(key.kind)
      ensures key in visited
    {
      assert key.kind == kind && key.id > p.UpTo(kind) ==> At(snap, key) == At(initial, key);
    }
  }

  /** The write lands on the very value that was read, so it keeps what the row held. */
  lemma Overwrites(ring: Ring, origin: Rows, rows: Rows, key: Key, read: Row, replacement: Sealed)
    requires Preserved(ring, origin, rows) && key in rows && rows[key].sealed == read.sealed
    requires Evolved(ring, key, Some(read), Some(rows[key])) && !Good(ring, key, read)
    requires Good(ring, key, read.(sealed := replacement))
    requires Unseal(ring, replacement, BindingOf(key, read)) == Unseal(ring, read.sealed, BindingOf(key, read))
    ensures var after := rows[key := rows[key].(sealed := replacement)];
            Preserved(ring, origin, after) && Good(ring, key, after[key])
  {
  }

  // What a pass says about the rows

  /** A row in use is as a clean pass leaves it: current, and opening to what others last put there. */
  predicate Sound(ring: Ring, origin: Rows, key: Key, row: Row) {
    Good(ring, key, row) && key in origin && BindingOf(key, row) == BindingOf(key, origin[key]) &&
    Unseal(ring, row.sealed, BindingOf(key, row)) == Unseal(ring, origin[key].sealed, BindingOf(key, row))
  }

  lemma CleanPass(ring: Ring, origin: Rows, rows: Rows, failed: nat, inUse: set<nat>)
    requires VersionsOk(ring, failed, inUse) && Preserved(ring, origin, rows)
    requires forall key <- rows :: Listed(key, rows[key]) ==> Accounted(ring, key, rows[key], failed, inUse)
    ensures failed == 0 ==> inUse <= {ring.current} && forall key <- rows :: Listed(key, rows[key]) ==> Sound(ring, origin, key, rows[key])
    ensures forall key <- rows :: Listed(key, rows[key]) && rows[key].sealed.Envelope? ==>
              rows[key].sealed.version in inUse + {ring.current}
  {
    forall key | key in rows && Listed(key, rows[key]) && failed == 0
      ensures Sound(ring, origin, key, rows[key])
    {
      assert Kept(ring, key, origin[key], rows[key]);
    }
  }

  /** A key version can be given up without losing any stored value. */
  predicate Retirable(rows: Rows, ring: Ring, version: nat) {
    version != ring.current && forall key <- rows :: rows[key].sealed.Envelope? ==> rows[key].sealed.version != version
  }

  /**
   The promise that nothing stored depends on an older key after a clean pass holds
   exactly when no revoked secret does: the walk passes those over and does not report
   them.
   */
  lemma CleanPassRetiresKeys(ring: Ring, rows: Rows, inUse: set<nat>)
    requires VersionsOk(ring, 0, inUse)
    requires forall key <- rows :: Listed(key, rows[key]) ==> Accounted(ring, key, rows[key], 0, inUse)
    ensures (forall version :: version != ring.current ==> Retirable(rows, ring, version)) <==>
            forall key <- rows :: key.kind == Totp && rows[key].revoked && rows[key].sealed.Envelope? ==>
                                    rows[key].sealed.version == ring.current
  {
    if key :| key in rows && rows[key].sealed.Envelope? && rows[key].sealed.version != ring.current {
      assert !Retirable(rows, ring, rows[key].sealed.version);
      assert !Listed(key, rows[key]);
    }
  }

  /** One revoked secret on an old key: there is nothing to walk, and the old key is still needed to open it. */
  lemma RevokedSecretIsPassedOver() returns (ring: Ring, rows: Rows, key: Key)
    ensures Usable(ring) && key in rows && (forall k <- rows :: !Listed(k, rows[k]))
    ensures IsPage(rows, Totp, 0, []) && IsPage(rows, SubjectRef, 0, [])
    ensures Unseal(ring, rows[key].sealed, BindingOf(key, rows[key])).Some? && !Retirable(rows, ring, 1)
    ensures Unseal(ring.(available := {2}), rows[key].sealed, BindingOf(key, rows[key])).None?
  {
    ring, key := Ring(2, {1, 2}), Key(Totp, 1);
    rows := map[key := Row("t", "s", Envelope(1, false, Box(Some(Binding(Totp, "t", 1, "s")), "p"), 0), true)];
    assert rows[key].sealed.version == 1;
  }

  predicate Ascending(s: seq<nat>) {
    forall i, j :: 0 <= i < j < |s| ==> s[i] < s[j]
  }

  /** The versions in ascending order, each once. */
  method SortedVersions(versions: set<nat>) returns (s: seq<nat>)
    ensures Ascending(s) && forall v :: v in s <==> v in versions
  {
    s := [];
    var todo := versions;
    while todo != {}
      invariant Ascending(s) && todo <= versions && forall v :: v in s <==> v in versions - todo
    {
      var v :| v in todo;
      s := InsertVersion(s, v);
      todo := todo - {v};
    }
  }

  function InsertVersion(s: seq<nat>, v: nat): (r: seq<nat>)
    requires Ascending(s) && v !in s
    ensures Ascending(r) && forall x :: x in r <==> x in s || x == v
  {
    if |s| == 0 || v < s[0] then [v] + s
    else
      assert s[0] in s;
      var rest := InsertVersion(s[1..], v);
      assert forall i :: 0 <= i < |rest| ==> rest[i] in rest;
      [s[0]] + rest
  }

  /** There is only one such order, so two passes over the same versions answer alike. */
  lemma {:induction false} AscendingIsUnique(a: seq<nat>, b: seq<nat>)
    requires Ascending(a) && Ascending(b) && forall v :: v in a <==> v in b
    ensures a == b
  {
    assert |b| > 0 ==> b[0] in b;
    if |a| > 0 {
      assert a[0] in a;
      var i :| 0 <= i < |b| && b[i] == a[0];
      var j :| 0 <= j < |a| && a[j] == b[0];
      forall v
        ensures v in a[1..] <==> v in b[1..]
      {
        assert v in a <==> v == a[0] || v in a[1..];
        assert v in b <==> v == b[0] || v in b[1..];
      }
      AscendingIsUnique(a[1..], b[1..]);
    }
  }
}
