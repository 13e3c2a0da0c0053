/**
 What no interleaving of the delivery protocol can break.

 The join between two batches is checked by hash and not by number, so safety rests on
 no two hashes in the log being equal. Each result therefore holds or the log itself
 exhibits two different hashed byte strings with one hash.
 */
module DeliverySafety {
  import opened Prelude
  import opened Chain
  import opened Records
  import opened Delivery

  // Hashes of the log

  /** The hash the log has reached after k records, and the bytes it was taken over. */
  function HashAt(h: HashFn, log: seq<Record>, k: nat): Bytes
    requires k <= |log|
  {
    if k == 0 then Genesis(h) else log[k - 1].entryHash
  }

  function InputAt(log: seq<Record>, k: nat): seq<Byte>
    requires k <= |log|
  {
    if k == 0 then GENESIS_INPUT else RecordInput(log[k - 1])
  }

  predicate CollisionAt(h: HashFn, log: seq<Record>, i: nat, j: nat)
    requires i < j <= |log|
  {
    InputAt(log, i) != InputAt(log, j) && h(InputAt(log, i)) == h(InputAt(log, j))
  }

  /** Two different byte strings hashed for this very log have the same hash. */
  predicate Collides(h: HashFn, log: seq<Record>) {
    exists i: nat, j: nat :: i < j <= |log| && CollisionAt(h, log, i, j)
  }

  predicate ChainOk(h: HashFn, log: seq<Record>) {
    Accepted(h, log, Genesis(h)) && forall r <- log :: r.number > 0
  }

  lemma ChainLink(h: HashFn, log: seq<Record>, i: nat)
    requires ChainOk(h, log) && i < |log|
    ensures log[i].prevHash == HashAt(h, log, i) && |log[i].entryHash| == HASH_SIZE
    ensures log[i].entryHash == h(RecordInput(log[i])) && log[i].number > 0
    ensures i > 0 ==> log[i].number > log[i - 1].number
  {
    assert Continues(h, log, Genesis(h), i);
  }

  lemma {:induction false} NumbersIncrease(h: HashFn, log: seq<Record>, i: nat, j: nat)
    requires ChainOk(h, log) && i <= j < |log|
    ensures log[i].number <= log[j].number && (i < j ==> log[i].number < log[j].number)
    decreases j - i
  {
    if i < j {
      ChainLink(h, log, j);
      NumbersIncrease(h, log, i, j - 1);
    }
  }

  /** Different places in a chain hash different bytes, because the numbers differ. */
  lemma DistinctInputs(h: HashFn, log: seq<Record>, i: nat, j: nat)
    requires ChainOk(h, log) && i < j <= |log|
    ensures InputAt(log, i) != InputAt(log, j)
  {
    var b := log[j - 1];
    if i == 0 {
      DomainsAreDisjoint(Rebuilt(b), b.prevHash, Rebuilt(b));
    } else {
      var a := log[i - 1];
      NumbersIncrease(h, log, i - 1, j - 1);
      ChainInputInjective(Rebuilt(a), a.prevHash, Rebuilt(b), b.prevHash);
    }
  }

  lemma HashOfInput(h: HashFn, log: seq<Record>, k: nat)
    requires ChainOk(h, log) && k <= |log|
    ensures HashAt(h, log, k) == h(InputAt(log, k))
  {
    if k > 0 {
      ChainLink(h, log, k - 1);
    }
  }

  /** Equal hashes at two places of the log are a collision, shown. */
  lemma EqualHashesCollide(h: HashFn, log: seq<Record>, i: nat, j: nat)
    requires ChainOk(h, log) && i < j <= |log| && HashAt(h, log, i) == HashAt(h, log, j)
    ensures Collides(h, log)
  {
    DistinctInputs(h, log, i, j);
    HashOfInput(h, log, i);
    HashOfInput(h, log, j);
    assert CollisionAt(h, log, i, j);
  }

  /** A record of the log that chains onto the hash at k is the one after it, unless hashes collide. */
  lemma NextIsUnique(h: HashFn, log: seq<Record>, k: nat, r: Record)
    requires ChainOk(h, log) && k <= |log| && r in log && r.prevHash == HashAt(h, log, k)
    requires !Collides(h, log)
    ensures k < |log| && r == log[k]
  {
    var i :| 0 <= i < |log| && log[i] == r;
    ChainLink(h, log, i);
    if i < k {
      EqualHashesCollide(h, log, i, k);
    } else if k < i {
      EqualHashesCollide(h, log, k, i);
    }
  }

  lemma CollidesGrows(h: HashFn, log: seq<Record>, r: Record)
    ensures Collides(h, log) ==> Collides(h, log + [r])
  {
    if Collides(h, log) {
      var i: nat, j: nat :| i < j <= |log| && CollisionAt(h, log, i, j);
      assert InputAt(log + [r], i) == InputAt(log, i) && InputAt(log + [r], j) == InputAt(log, j);
      assert CollisionAt(h, log + [r], i, j);
    }
  }

  lemma ChainGrows(c: Config, log: seq<Record>, r: Record)
    requires ChainOk(c.hash, log) && Chains(c, log, r)
    ensures ChainOk(c.hash, log + [r])
  {
    var longer := log + [r];
    forall i | 0 <= i < |longer|
      ensures Continues(c.hash, longer, Genesis(c.hash), i)
    {
      if i < |log| {
        assert Continues(c.hash, log, Genesis(c.hash), i);
      }
    }
    if |log| > 0 {
      assert log[|log| - 1] in log;
    }
  }

  // The receiver

  /** b is the stretch of the log that starts after a records. */
  predicate Window(log: seq<Record>, b: seq<Record>, a: nat) {
    a + |b| <= |log| && b == log[a..a + |b|]
  }

  /** A batch that leaves no hole behind a receiver holding the first n records. */
  predicate Joins(log: seq<Record>, n: nat, b: seq<Record>) {
    exists a: nat :: a <= n && Window(log, b, a)
  }

  predicate HeldByNumber(held: seq<Record>, r: Record) {
    exists q <- held :: q.number == r.number
  }

  lemma HeldWithinPrefix(h: HashFn, log: seq<Record>, n: nat, i: nat)
    requires ChainOk(h, log) && n <= |log| && i < |log|
    ensures HeldByNumber(log[..n], log[i]) <==> i < n
  {
    if i < n {
      assert log[..n][i] == log[i];
      assert log[i] in log[..n];
    } else if HeldByNumber(log[..n], log[i]) {
      var q :| q in log[..n] && q.number == log[i].number;
      var j :| 0 <= j < n && log[..n][j] == q;
      NumbersIncrease(h, log, j, i);
    }
  }

  lemma DedupNext(h: HashFn, log: seq<Record>, arrived: seq<Record>, m: nat, i: nat)
    requires ChainOk(h, log) && m <= |log| && i < |log| && i <= m && Dedup(arrived) == log[..m]
    ensures Dedup(arrived + [log[i]]) == log[..if i == m then m + 1 else m]
  {
    var longer := arrived + [log[i]];
    assert longer[..|longer| - 1] == arrived;
    HeldWithinPrefix(h, log, m, i);
    assert HeldByNumber(log[..m], log[i]) <==> exists r <- log[..m] :: r.number == log[i].number;
  }

  /** Storing a batch that joins on extends the de-duplicated prefix and never bends it. */
  lemma {:induction false} DedupWindow(h: HashFn, log: seq<Record>, arrived: seq<Record>, n: nat, b: seq<Record>, a: nat)
    requires ChainOk(h, log) && n <= |log| && Dedup(arrived) == log[..n]
    requires a <= n && Window(log, b, a)
    ensures Dedup(arrived + b) == log[..if a + |b| > n then a + |b| else n]
    decreases |b|
  {
    if |b| == 0 {
      assert arrived + b == arrived;
    } else {
      WindowTail(log, b, a);
      DedupNext(h, log, arrived, n, a);
      DedupWindow(h, log, arrived + [log[a]], if a == n then n + 1 else n, b[1..], a + 1);
      RegroupFirst(arrived, b);
    }
  }

  lemma WindowTail(log: seq<Record>, b: seq<Record>, a: nat)
    requires |b| > 0 && Window(log, b, a)
    ensures Window(log, b[1..], a + 1) && b[0] == log[a]
  {
  }

  lemma RegroupFirst(arrived: seq<Record>, b: seq<Record>)
    requires |b| > 0
    ensures arrived + b == (arrived + [b[0]]) + b[1..]
  {
  }

  // The invariant

  /** The mark names nothing, or the k-th record of the log. */
  predicate MarkAt(log: seq<Record>, m: Mark, k: nat) {
    k <= |log| &&
    if k == 0 then m.number == 0
    else m.number == log[k - 1].number && (m.hash == [] || m.hash == log[k - 1].entryHash)
  }

  /** The mark names something the receiver holds. */
  predicate MarkOk(log: seq<Record>, n: nat, m: Mark) {
    exists k: nat :: k <= n && MarkAt(log, m, k)
  }

  predicate FromTheLog(log: seq<Record>, q: seq<Record>) {
    forall r <- q :: r in log
  }

  predicate WorkerOk(log: seq<Record>, n: nat, w: Worker) {
    match w
    case Idle(pending) => FromTheLog(log, pending)
    case Posting(b, _) => |b| > 0 && Joins(log, n, b)
    case Acknowledged(b, _) => |b| > 0 && MarkOk(log, n, MarkOf(b))
    case Saved(b, _) => |b| > 0 && MarkOk(log, n, MarkOf(b))
    case _ => true
  }

  predicate Inv(c: Config, s: State) {
    var n := |Dedup(s.arrived)|;
    ChainOk(c.hash, s.log) &&
    n <= |s.log| && Dedup(s.arrived) == s.log[..n] &&
    s.trimmed <= n &&
    MarkOk(s.log, n, s.mark) && MarkOk(s.log, n, s.disk) &&
    FromTheLog(s.log, s.queue) && WorkerOk(s.log, n, s.worker) &&
    (forall b <- s.wire :: Joins(s.log, n, b))
  }

  // Growth: a longer log and a longer prefix keep every part of the invariant

  lemma WindowGrows(log: seq<Record>, r: Record, b: seq<Record>, a: nat)
    requires Window(log, b, a)
    ensures Window(log + [r], b, a)
  {
    assert (log + [r])[a..a + |b|] == log[a..a + |b|];
  }

  lemma JoinsGrows(log: seq<Record>, r: Record, n: nat, m: nat, b: seq<Record>)
    requires Joins(log, n, b) && n <= m
    ensures Joins(log, m, b) && Joins(log + [r], m, b)
  {
    var a: nat :| a <= n && Window(log, b, a);
    WindowGrows(log, r, b, a);
  }

  lemma MarkGrows(log: seq<Record>, r: Record, n: nat, m: nat, mark: Mark)
    requires MarkOk(log, n, mark) && n <= m
    ensures MarkOk(log, m, mark) && MarkOk(log + [r], m, mark)
  {
    var k: nat :| k <= n && MarkAt(log, mark, k);
    assert MarkAt(log + [r], mark, k);
  }

  lemma WorkerGrows(log: seq<Record>, r: Record, n: nat, m: nat, w: Worker)
    requires WorkerOk(log, n, w) && n <= m
    ensures WorkerOk(log, m, w) && WorkerOk(log + [r], m, w)
  {
    match w
    case Posting(b, _) => JoinsGrows(log, r, n, m, b);
    case Acknowledged(b, _) => MarkGrows(log, r, n, m, MarkOf(b));
    case Saved(b, _) => MarkGrows(log, r, n, m, MarkOf(b));
    case _ =>
  }

  // The steps

  lemma AppendKeeps(c: Config, s: State, r: Record)
    requires Inv(c, s)
    ensures Inv(c, Apply(c, s, Append(r)))
  {
    if Chains(c, s.log, r) {
      var n := |Dedup(s.arrived)|;
      ChainGrows(c, s.log, r);
      assert (s.log + [r])[..n] == s.log[..n];
      MarkGrows(s.log, r, n, n, s.mark);
      MarkGrows(s.log, r, n, n, s.disk);
      WorkerGrows(s.log, r, n, n, s.worker);
      forall b | b in s.wire
        ensures Joins(s.log + [r], n, b)
      {
        JoinsGrows(s.log, r, n, n, b);
      }
    }
  }

  lemma DeliverKeeps(c: Config, s: State, b: seq<Record>)
    requires Inv(c, s)
    ensures Inv(c, Apply(c, s, Deliver(b)))
  {
    if b in s.wire {
      var n := |Dedup(s.arrived)|;
      var a: nat :| a <= n && Window(s.log, b, a);
      DedupWindow(c.hash, s.log, s.arrived, n, b, a);
      var m := if a + |b| > n then a + |b| else n;
      assert |s.log[..m]| == m;
      var r := Record(0, [], 0, [], [], [], [], [], [], [], [], [], []);
      MarkGrows(s.log, r, n, m, s.mark);
      MarkGrows(s.log, r, n, m, s.disk);
      WorkerGrows(s.log, r, n, m, s.worker);
      forall b' | b' in s.wire
        ensures Joins(s.log, m, b')
      {
        JoinsGrows(s.log, r, n, m, b');
      }
    }
  }

  lemma {:induction false} ArrivedIsHeld(arrived: seq<Record>, r: Record)
    requires r in arrived
    ensures HeldByNumber(Dedup(arrived), r)
  {
    var init, last := arrived[..|arrived| - 1], arrived[|arrived| - 1];
    assert arrived == init + [last];
    if r in init {
      ArrivedIsHeld(init, r);
      var q :| q in Dedup(init) && q.number == r.number;
      assert q in Dedup(arrived);
    } else if !HeldByNumber(Dedup(init), last) {
      assert Dedup(arrived) == Dedup(init) + [last];
      assert last in Dedup(arrived);
    } else {
      assert Dedup(arrived) == Dedup(init);
    }
  }

  /** A batch whose records have all arrived ends at a record the receiver holds. */
  lemma AnswerKeeps(c: Config, s: State)
    requires Inv(c, s)
    ensures Inv(c, Apply(c, s, Answer))
  {
    if s.worker.Posting? && s.worker.batch in s.wire && (forall r <- s.worker.batch :: r in s.arrived) {
      var b, n := s.worker.batch, |Dedup(s.arrived)|;
      var a: nat :| a <= n && Window(s.log, b, a);
      assert b[|b| - 1] in b;
      ArrivedBatch(c.hash, s.log, s.arrived, b, a);
    }
  }

  lemma ArrivedBatch(h: HashFn, log: seq<Record>, arrived: seq<Record>, b: seq<Record>, a: nat)
    requires ChainOk(h, log) && |Dedup(arrived)| <= |log| && Dedup(arrived) == log[..|Dedup(arrived)|]
    requires |b| > 0 && Window(log, b, a) && b[|b| - 1] in arrived
    ensures MarkOk(log, |Dedup(arrived)|, MarkOf(b))
  {
    var k := a + |b|;
    assert b[|b| - 1] == log[k - 1];
    ArrivedIsHeld(arrived, b[|b| - 1]);
    HeldWithinPrefix(h, log, |Dedup(arrived)|, k - 1);
    assert MarkAt(log, MarkOf(b), k);
  }

  /** Everything the queue path calls usable is the stretch of the log just past the mark. */
  lemma {:induction false} UsableIsWindow(h: HashFn, log: seq<Record>, pending: seq<Record>, delivered: Int64, k: nat)
    requires ChainOk(h, log) && !Collides(h, log) && FromTheLog(log, pending) && k <= |log|
    ensures var u := UsableBatch(pending, delivered, HashAt(h, log, k)); u.Some? ==> Window(log, u.value, k)
    decreases |pending|
  {
    if |pending| > 0 {
      var r, rest := pending[0], pending[1..];
      assert r in pending;
      if r.number <= delivered {
        UsableIsWindow(h, log, rest, delivered, k);
      } else if r.prevHash == HashAt(h, log, k) {
        NextIsUnique(h, log, k, r);
        UsableIsWindow(h, log, rest, delivered, k + 1);
        var u := UsableBatch(rest, delivered, r.entryHash);
        if u.Some? {
          assert [r] + u.value == log[k..k + 1 + |u.value|];
        }
      }
    }
  }

  lemma UnknownHashIsRefused(pending: seq<Record>, delivered: Int64)
    ensures var u := UsableBatch(pending, delivered, []); u.Some? ==> u.value == []
  {
  }

  /** A usable batch is the stretch of the log just past a mark whose record is known. */
  lemma QueueWindow(h: HashFn, log: seq<Record>, pending: seq<Record>, mark: Mark, k: nat)
    requires ChainOk(h, log) && !Collides(h, log) && FromTheLog(log, pending) && MarkAt(log, mark, k)
    ensures var u := UsableBatch(pending, mark.number, Expected(h, mark));
            u.Some? && |u.value| > 0 ==> Window(log, u.value, k)
  {
    if k > 0 {
      ChainLink(h, log, k - 1);
    }
    if Expected(h, mark) == HashAt(h, log, k) {
      UsableIsWindow(h, log, pending, mark.number, k);
    } else {
      UnknownHashIsRefused(pending, mark.number);
    }
  }

  /** A usable batch leaves out nothing numbered past the mark. */
  lemma {:induction false} UsableKeepsAll(pending: seq<Record>, delivered: Int64, chainOnto: Bytes, r: Record)
    requires r in pending && r.number > delivered
    ensures var u := UsableBatch(pending, delivered, chainOnto); u.Some? ==> r in u.value
    decreases |pending|
  {
    var first, rest := pending[0], pending[1..];
    if first.number <= delivered {
      UsableKeepsAll(rest, delivered, chainOnto, r);
    } else if r in rest {
      UsableKeepsAll(rest, delivered, first.entryHash, r);
    }
  }

  /** A usable batch drawn from records that include the newest of the log ends at it. */
  lemma UsableReachesHead(h: HashFn, log: seq<Record>, pending: seq<Record>, mark: Mark, k: nat)
    requires ChainOk(h, log) && FromTheLog(log, pending) && MarkAt(log, mark, k)
    requires |log| > 0 && log[|log| - 1] in pending && log[|log| - 1].number > mark.number
    ensures var u := UsableBatch(pending, mark.number, Expected(h, mark));
            u.Some? ==> (|u.value| > 0 && u.value == log[k..]) || Collides(h, log)
  {
    var u, newest := UsableBatch(pending, mark.number, Expected(h, mark)), log[|log| - 1];
    UsableKeepsAll(pending, mark.number, Expected(h, mark), newest);
    if u.Some? && !Collides(h, log) {
      QueueWindow(h, log, pending, mark, k);
      var i :| 0 <= i < |u.value| && u.value[i] == newest;
      assert log[k + i] == newest;
      NumbersIncrease(h, log, k + i, |log| - 1);
    }
  }

  lemma DecideKeeps(c: Config, s: State)
    requires Inv(c, s) && !Collides(c.hash, s.log)
    ensures Inv(c, Apply(c, s, Decide))
  {
    if s.worker.Idle? {
      var n, pending := |Dedup(s.arrived)|, s.worker.pending;
      var k: nat :| k <= n && MarkAt(s.log, s.mark, k);
      QueueWindow(c.hash, s.log, pending, s.mark, k);
      var u := UsableBatch(pending, s.mark.number, Expected(c.hash, s.mark));
      assert u.Some? && |u.value| > 0 ==> Joins(s.log, n, u.value);
    }
  }

  /** In a log whose numbers increase, the records from a number on are a tail of it. */
  lemma {:induction false} FromIsTail(h: HashFn, log: seq<Record>, a: nat, from: int) returns (k: nat)
    requires ChainOk(h, log) && a <= |log|
    ensures a <= k <= |log| && From(log[a..], from) == log[k..]
    ensures forall i :: a <= i < k ==> log[i].number < from
    ensures forall i :: k <= i < |log| ==> log[i].number >= from
    decreases |log| - a
  {
    if a == |log| {
      k := a;
    } else {
      assert log[a..][1..] == log[a + 1..];
      k := FromIsTail(h, log, a + 1, from);
      if log[a].number >= from {
        if k > a + 1 {
          NumbersIncrease(h, log, a, a + 1);
        }
        assert log[a..] == [log[a]] + log[a + 1..];
        k := a;
      }
    }
  }

  /** The first k records of the log are those numbered up to the given number. */
  predicate Cut(log: seq<Record>, number: int, k: nat) {
    k <= |log| && forall i :: 0 <= i < |log| ==> (log[i].number <= number <==> i < k)
  }

  lemma MarkCuts(h: HashFn, log: seq<Record>, m: Mark, k: nat)
    requires ChainOk(h, log) && MarkAt(log, m, k)
    ensures m.number >= 0 && Cut(log, m.number, k)
  {
    if k > 0 {
      ChainLink(h, log, k - 1);
    }
    forall i | 0 <= i < |log|
      ensures log[i].number <= m.number <==> i < k
    {
      ChainLink(h, log, i);
      if i < k {
        NumbersIncrease(h, log, i, k - 1);
      } else if k > 0 {
        NumbersIncrease(h, log, k - 1, i);
      }
    }
  }

  function Later(a: nat, b: nat): nat {
    if a > b then a else b
  }

  function Earlier(a: nat, b: nat): nat {
    if a < b then a else b
  }

  /** What a read past a number returns: the log from just past it, or from where retention left off. */
  lemma ReadPast(h: HashFn, log: seq<Record>, trimmed: nat, number: nat, k: nat, limit: int)
    requires ChainOk(h, log) && trimmed <= |log| && Cut(log, number, k)
    ensures var a := Later(trimmed, k);
            From(log[trimmed..], number + 1) == log[a..] &&
            ReadRange(log[trimmed..], number + 1, limit) == log[a..Earlier(a + ClampLimit(limit), |log|)]
  {
    var t := FromIsTail(h, log, trimmed, number + 1);
    var a := Later(trimmed, k);
    assert t == a by {
      assert t < |log| ==> log[t].number > number;
      assert a < |log| ==> log[a].number > number;
    }
    TakeOfTail(log, a, ClampLimit(limit));
  }

  lemma TakeOfTail(log: seq<Record>, a: nat, n: nat)
    requires a <= |log|
    ensures (if |log[a..]| <= n then log[a..] else log[a..][..n]) == log[a..Earlier(a + n, |log|)]
  {
  }

  lemma SliceIsWindow(log: seq<Record>, a: nat, end: nat)
    requires a <= end <= |log|
    ensures Window(log, log[a..end], a)
  {
  }

  lemma PageWindow(h: HashFn, log: seq<Record>, trimmed: nat, number: nat, k: nat, limit: int)
    requires ChainOk(h, log) && trimmed <= |log| && Cut(log, number, k)
    ensures Window(log, ReadRange(log[trimmed..], number + 1, limit), Later(trimmed, k))
  {
    ReadPast(h, log, trimmed, number, k, limit);
    var a := Later(trimmed, k);
    SliceIsWindow(log, a, Earlier(a + ClampLimit(limit), |log|));
  }

  lemma PagePastMarkJoins(h: HashFn, log: seq<Record>, trimmed: nat, mark: Mark, n: nat, limit: int)
    requires ChainOk(h, log) && trimmed <= n <= |log| && MarkOk(log, n, mark)
    ensures Joins(log, n, ReadRange(log[trimmed..], mark.number + 1, limit))
  {
    var k: nat :| k <= n && MarkAt(log, mark, k);
    MarkCuts(h, log, mark, k);
    PageWindow(h, log, trimmed, mark.number, k, limit);
  }

  lemma PageJoins(c: Config, s: State)
    requires Inv(c, s)
    ensures Joins(s.log, |Dedup(s.arrived)|, NextPage(c, s))
  {
    PagePastMarkJoins(c.hash, s.log, s.trimmed, s.mark, |Dedup(s.arrived)|, c.batchSize);
  }

  lemma ReadKeeps(c: Config, s: State, outcome: ReadOutcome)
    requires Inv(c, s)
    ensures Inv(c, Apply(c, s, ReadPage(outcome)))
  {
    if s.worker.Reading? && outcome == Read {
      PageJoins(c, s);
      var t := PageRead(c, s);
      assert t == s.(worker := t.worker);
      assert WorkerOk(s.log, |Dedup(s.arrived)|, t.worker);
    }
  }

  lemma LoadKeeps(h: HashFn, log: seq<Record>, n: nat, m: Mark)
    requires ChainOk(h, log) && MarkOk(log, n, m)
    ensures MarkOk(log, n, Loaded(m)) && MarkOk(log, n, Mark(m.number, [])) && MarkOk(log, n, NO_MARK)
  {
    var k: nat :| k <= n && MarkAt(log, m, k);
    if k > 0 {
      ChainLink(h, log, k - 1);
    }
    assert MarkAt(log, Loaded(m), k) && MarkAt(log, Mark(m.number, []), k) && MarkAt(log, NO_MARK, 0);
  }

  lemma QueueStepKeeps(c: Config, s: State, step: Step)
    requires Inv(c, s) && (step.Trim? || step.Offer? || step.Take? || step.Discard?)
    ensures Inv(c, Apply(c, s, step))
  {
  }

  lemma FileStepKeeps(c: Config, s: State, step: Step)
    requires Inv(c, s) && (step.Crash? || step.Restart? || step.LoseFile? || step.ForgetHash?)
    ensures Inv(c, Apply(c, s, step))
  {
    LoadKeeps(c.hash, s.log, |Dedup(s.arrived)|, s.disk);
  }

  lemma PostStepKeeps(c: Config, s: State, step: Step)
    requires Inv(c, s) && (step.CheckHead? || step.Send? || step.PostFails? || step.ClearResync? || step.HeartbeatFails?)
    ensures Inv(c, Apply(c, s, step))
  {
  }

  lemma PersistKeeps(c: Config, s: State)
    requires Inv(c, s)
    ensures Inv(c, Apply(c, s, Persist))
  {
  }

  lemma PersistFailsKeeps(c: Config, s: State, moved: bool)
    requires Inv(c, s)
    ensures Inv(c, Apply(c, s, PersistFails(moved)))
  {
  }

  lemma RememberKeeps(c: Config, s: State)
    requires Inv(c, s)
    ensures Inv(c, Apply(c, s, Remember))
  {
  }

  lemma InvStep(c: Config, s: State, step: Step)
    requires Inv(c, s) && !Collides(c.hash, s.log)
    ensures Inv(c, Apply(c, s, step))
  {
    match step
    case Append(r) => AppendKeeps(c, s, r);
    case Deliver(b) => DeliverKeeps(c, s, b);
    case Answer => AnswerKeeps(c, s);
    case Decide => DecideKeeps(c, s);
    case ReadPage(outcome) => ReadKeeps(c, s, outcome);
    case Trim(_) => QueueStepKeeps(c, s, step);
    case Offer(_) => QueueStepKeeps(c, s, step);
    case Take => QueueStepKeeps(c, s, step);
    case Discard => QueueStepKeeps(c, s, step);
    case Persist => PersistKeeps(c, s);
    case PersistFails(moved) => PersistFailsKeeps(c, s, moved);
    case Remember => RememberKeeps(c, s);
    case Crash => FileStepKeeps(c, s, step);
    case Restart => FileStepKeeps(c, s, step);
    case LoseFile => FileStepKeeps(c, s, step);
    case ForgetHash => FileStepKeeps(c, s, step);
    case _ => PostStepKeeps(c, s, step);
  }

  lemma LogOnlyGrows(c: Config, s: State, step: Step)
    ensures Collides(c.hash, s.log) ==> Collides(c.hash, Apply(c, s, step).log)
    ensures s.log <= Apply(c, s, step).log
  {
    if step.Append? {
      CollidesGrows(c.hash, s.log, step.record);
    }
  }

  lemma InvInit(c: Config, s: State)
    requires Init(c, s)
    ensures Inv(c, s)
  {
    assert MarkAt(s.log, NO_MARK, 0);
  }

  lemma {:induction false} InvRun(c: Config, s: State, steps: seq<Step>)
    requires Init(c, s)
    ensures Inv(c, After(c, s, steps)) || Collides(c.hash, After(c, s, steps).log)
  {
    if |steps| == 0 {
      InvInit(c, s);
    } else {
      var init := steps[..|steps| - 1];
      InvRun(c, s, init);
      LogOnlyGrows(c, After(c, s, init), steps[|steps| - 1]);
      if !Collides(c.hash, After(c, s, init).log) {
        InvStep(c, After(c, s, init), steps[|steps| - 1]);
      }
    }
  }

  // What can happen to the log

  function Appends(log: seq<Record>): seq<Step> {
    seq(|log|, i requires 0 <= i < |log| => Append(log[i]))
  }

  /** Every log the witness would accept comes about by appends, so the results are about every such log. */
  lemma {:induction false} AnyLogIsWritten(c: Config, start: State, log: seq<Record>)
    requires start.log == [] && ChainOk(c.hash, log)
    ensures After(c, start, Appends(log)) == start.(log := log)
    decreases |log|
  {
    if |log| > 0 {
      var n := |log| - 1;
      ChainShrinks(c, log);
      AnyLogIsWritten(c, start, log[..n]);
      assert Appends(log)[..n] == Appends(log[..n]);
      assert log == log[..n] + [log[n]];
    }
  }

  lemma ChainShrinks(c: Config, log: seq<Record>)
    requires |log| > 0 && ChainOk(c.hash, log)
    ensures var n := |log| - 1; ChainOk(c.hash, log[..n]) && Chains(c, log[..n], log[n])
  {
    var n := |log| - 1;
    AcceptedInit(c.hash, log, Genesis(c.hash));
    assert Continues(c.hash, log, Genesis(c.hash), n);
  }

  /** Retention takes away what the receiver holds, as much of it as it is asked to, and nothing it does not hold. */
  lemma TrimsWhatIsHeld(c: Config, s: State, n: nat)
    requires Inv(c, s)
    ensures Apply(c, s, Trim(n)) == s.(trimmed := if s.trimmed <= n <= |Dedup(s.arrived)| then n else s.trimmed)
  {
  }

  /** A process that dies and starts again knows what the file holds and nothing else, and has the log to read. */
  lemma CrashedStartsOver(c: Config, s: State)
    ensures var t := Apply(c, Apply(c, s, Crash), Restart);
            t == s.(mark := t.mark, disk := t.mark, queue := [], resync := true, worker := Idle([])) &&
            if s.disk.number > 0 then t.mark.number == s.disk.number && t.mark.hash == (if |s.disk.hash| == 32 then s.disk.hash else [])
            else t.mark == Mark(0, [])
  {
  }

  // What the witness can rely on

  /** Every record numbered up to the mark is among those held. */
  predicate Covers(log: seq<Record>, held: seq<Record>, m: Mark) {
    forall r <- log :: r.number <= m.number ==> r in held
  }

  predicate Safe(c: Config, s: State) {
    var held := Dedup(s.arrived);
    held <= s.log && Accepted(c.hash, held, Genesis(c.hash)) &&
    Covers(s.log, held, s.mark) && Covers(s.log, held, s.disk) &&
    s.mark.number <= LastNumber(s.log) && s.disk.number <= LastNumber(s.log)
  }

  lemma MarkIsCovered(h: HashFn, log: seq<Record>, n: nat, m: Mark)
    requires ChainOk(h, log) && n <= |log| && MarkOk(log, n, m)
    ensures Covers(log, log[..n], m) && m.number <= LastNumber(log)
  {
    var k: nat :| k <= n && MarkAt(log, m, k);
    if k > 0 {
      NumbersIncrease(h, log, k - 1, |log| - 1);
    } else if |log| > 0 {
      ChainLink(h, log, |log| - 1);
    }
    forall r | r in log && r.number <= m.number
      ensures r in log[..n]
    {
      var i :| 0 <= i < |log| && log[i] == r;
      if i >= n && k > 0 {
        NumbersIncrease(h, log, k - 1, i);
      }
      assert log[i] in log;
      assert log[..n][i] == r;
    }
  }

  lemma InvIsSafe(c: Config, s: State)
    requires Inv(c, s)
    ensures Safe(c, s)
  {
    var n := |Dedup(s.arrived)|;
    MarkIsCovered(c.hash, s.log, n, s.mark);
    MarkIsCovered(c.hash, s.log, n, s.disk);
    forall i | 0 <= i < n
      ensures Continues(c.hash, s.log[..n], Genesis(c.hash), i)
    {
      assert Continues(c.hash, s.log, Genesis(c.hash), i);
    }
  }

  /**
   In every run, whatever is dropped, reordered, refused, stored without an answer,
   crashed or restarted, the receiver's de-duplicated records are a prefix of the log
   that its own check accepts, that prefix reaches past both watermarks, and neither
   watermark is ever ahead of the log.
   */
  lemma WitnessHasNoHole(c: Config, s: State, steps: seq<Step>)
    requires Init(c, s)
    ensures Safe(c, After(c, s, steps)) || Collides(c.hash, After(c, s, steps).log)
  {
    InvRun(c, s, steps);
    if !Collides(c.hash, After(c, s, steps).log) {
      InvIsSafe(c, After(c, s, steps));
    }
  }

  /** u is the first records numbered past the given number, which a read of as many returns. */
  predicate ReadsAs(log: seq<Record>, trimmed: nat, number: int, u: seq<Record>)
    requires trimmed <= |log|
  {
    u <= From(log[trimmed..], number + 1) &&
    (|u| <= PAGE_CAP ==> u == ReadRange(log[trimmed..], number + 1, |u|))
  }

  /** The stretch past the mark is what a read returns exactly when retention has not gone past the mark. */
  lemma WindowIsRead(h: HashFn, log: seq<Record>, trimmed: nat, number: nat, k: nat, u: seq<Record>)
    requires ChainOk(h, log) && trimmed <= |log| && Cut(log, number, k) && |u| > 0 && Window(log, u, k)
    ensures ReadsAs(log, trimmed, number, u) <==> trimmed <= k
  {
    ReadPast(h, log, trimmed, number, k, |u|);
    if k < trimmed < |log| {
      NumbersIncrease(h, log, k, trimmed);
    }
  }

  /**
   The queue path refines the read of the log: whatever the queue lost, repeated or
   reordered, a usable batch is exactly the first records numbered past the watermark and
   its body passes the receiver's check. A read of as many returns the same exactly when
   retention has not trimmed past the watermark.
   */
  lemma QueueRefinesLog(c: Config, s: State, pending: seq<Record>, k: nat, source: Bytes, sentAt: int)
    requires ChainOk(c.hash, s.log) && FromTheLog(s.log, pending)
    requires MarkAt(s.log, s.mark, k) && s.trimmed <= |s.log|
    ensures var u := UsableBatch(pending, s.mark.number, Expected(c.hash, s.mark));
            u.Some? && |u.value| > 0 ==>
              (ReadsAs(s.log, 0, s.mark.number, u.value) &&
               (ReadsAs(s.log, s.trimmed, s.mark.number, u.value) <==> s.trimmed <= k) &&
               MakeBatch(source, sentAt, u.value).Verify() == Fine) ||
              Collides(c.hash, s.log)
  {
    var u := UsableBatch(pending, s.mark.number, Expected(c.hash, s.mark));
    if u.Some? && |u.value| > 0 && !Collides(c.hash, s.log) {
      QueueWindow(c.hash, s.log, pending, s.mark, k);
      MarkCuts(c.hash, s.log, s.mark, k);
      WindowIsRead(c.hash, s.log, 0, s.mark.number, k, u.value);
      WindowIsRead(c.hash, s.log, s.trimmed, s.mark.number, k, u.value);
      SentBatchVerifies(source, sentAt, u.value);
    }
  }
}
