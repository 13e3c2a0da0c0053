/**
 The shipper and its watermark as the objects they are, moving the steps of the
 delivery protocol one at a time.

 A ghost trace records the steps an object has taken. Validity says that running the
 trace reaches the object's own state, so every result about runs is a result about
 the object. No other goroutine moves inside one call; interleavings are the business
 of the step system.
 */
module Shipper {
  import opened Prelude
  import opened Runs
  import opened Chain
  import opened Records
  import opened Delivery
  import opened DeliverySafety

  /** What lies outside the process: the log, the watermark file and the receiver. */
  class World {
    var log: seq<Record>
    var trimmed: nat
    var disk: Mark
    var wire: set<seq<Record>>
    var arrived: seq<Record>

    /** The receiver stores and answers, the disk writes, the log reads and nobody cancels. */
    var healthy: bool

    constructor (log: seq<Record>, trimmed: nat, disk: Mark, wire: set<seq<Record>>, arrived: seq<Record>, healthy: bool)
      ensures this.log == log && this.trimmed == trimmed && this.disk == disk && this.wire == wire
      ensures this.arrived == arrived && this.healthy == healthy
    {
      this.log, this.trimmed, this.disk, this.wire, this.arrived := log, trimmed, disk, wire, arrived;
      this.healthy := healthy;
    }
  }

  datatype WriteOutcome = Written | Failed(moved: bool)

  class Watermark {
    const world: World
    var number: Int64
    var hash: Bytes

    constructor (world: World, mark: Mark)
      ensures this.world == world && Value() == mark
    {
      this.world, number, hash := world, mark.number, mark.hash;
    }

    function Value(): Mark
      reads this
    {
      Mark(number, hash)
    }

    /** The number last acknowledged and the hash whatever comes next has to chain onto. */
    method Head(h: HashFn) returns (delivered: Int64, prevHash: Bytes)
      ensures delivered == number && prevHash == Expected(h, Value())
    {
      if number == 0 {
        return 0, Genesis(h);
      }
      return number, hash;
    }

    /**
     Records the mark durably and only then in memory. A smaller number is ignored, so
     the mark in memory never moves backwards; a write that fails leaves memory alone,
     whether or not the file was replaced before the failure was reported.
     */
    method Set(mark: Mark) returns (outcome: WriteOutcome)
      modifies this, world`disk
      ensures mark.number < old(number) ==> outcome == Written && Value() == old(Value()) && world.disk == old(world.disk)
      ensures mark.number >= old(number) && outcome == Written ==> Value() == mark && world.disk == mark
      ensures mark.number >= old(number) && outcome.Failed? ==>
                Value() == old(Value()) && world.disk == if outcome.moved then mark else old(world.disk)
      ensures number >= old(number)
      ensures world.healthy ==> outcome == Written
    {
      if mark.number < number {
        return Written;
      }
      if !world.healthy {
        var fails, moved := *, *;
        if fails {
          if moved {
            world.disk := mark;
          }
          return Failed(moved);
        }
      }
      world.disk := mark;
      number := mark.number;
      hash := mark.hash;
      outcome := Written;
    }
  }

  /** A restart keeps how far delivery has got, and the hash there if it can be one; with no number it starts over. */
  predicate Remembers(file: Mark, mark: Mark) {
    if file.number > 0 then mark.number == file.number && mark.hash == (if |file.hash| == 32 then file.hash else [])
    else mark == Mark(0, [])
  }

  /** Reads the file and writes the value straight back; null when that write fails. */
  method LoadWatermark(world: World) returns (w: Watermark?)
    modifies world`disk
    ensures w != null ==> fresh(w) && w.world == world && w.Value() == Loaded(old(world.disk)) && world.disk == w.Value()
    ensures w != null ==> Remembers(old(world.disk), w.Value())
    ensures world.healthy ==> w != null
  {
    var mark := Loaded(world.disk);
    w := new Watermark(world, mark);
    var outcome := w.Set(mark);
    if outcome.Failed? {
      w := null;
    }
  }

  // Backoff

  /** The pause after a failure, doubled as int64 durations double, up to the maximum. */
  function NextBackoff(backoff: Int64, initial: Int64, maximum: Int64): Int64 {
    var current := if backoff <= 0 then initial else backoff;
    var next := Wrap64(current * 2);
    if next <= maximum then next else maximum
  }

  function BackoffAfter(failures: nat, initial: Int64, maximum: Int64): Int64 {
    if failures == 0 then initial else NextBackoff(BackoffAfter(failures - 1, initial, maximum), initial, maximum)
  }

  function Power2(k: nat): (r: nat)
    ensures r > 0
  {
    if k == 0 then 1 else 2 * Power2(k - 1)
  }

  function Capped(k: nat, initial: int, maximum: int): int {
    if initial * Power2(k) <= maximum then initial * Power2(k) else maximum
  }

  lemma CappedStep(k: nat, initial: int, maximum: int)
    requires 0 < initial <= maximum
    ensures Capped(k + 1, initial, maximum) ==
            if 2 * Capped(k, initial, maximum) <= maximum then 2 * Capped(k, initial, maximum) else maximum
    ensures 0 < Capped(k, initial, maximum) <= maximum
  {
    assert initial * Power2(k + 1) == 2 * (initial * Power2(k));
    assert initial * Power2(k) > 0;
  }

  const HALF_RANGE := 0x4000_0000_0000_0000

  lemma {:induction false} BackoffBelowHalfRange(k: nat, initial: Int64, maximum: Int64)
    requires 0 < initial <= maximum < HALF_RANGE
    ensures BackoffAfter(k, initial, maximum) == Capped(k, initial, maximum)
  {
    if k > 0 {
      BackoffBelowHalfRange(k - 1, initial, maximum);
      CappedStep(k - 1, initial, maximum);
    } else {
      assert initial * Power2(0) == initial;
    }
  }

  lemma {:induction false} CappedReachesMaximum(k: nat, initial: int, maximum: int)
    requires 0 < initial <= maximum
    ensures Capped(k, initial, maximum) == maximum || Capped(k, initial, maximum) > k
  {
    if k > 0 {
      CappedReachesMaximum(k - 1, initial, maximum);
      CappedStep(k - 1, initial, maximum);
    }
  }

  /**
   After k failures in a row the next pause is initial * 2^k up to the maximum, for
   every k, exactly when twice the maximum is a duration. Above that the doubling
   overflows, turns negative and is taken for a pause below the maximum.
   */
  lemma BackoffDoubles(initial: Int64, maximum: Int64)
    requires 0 < initial <= maximum
    ensures (forall k: nat :: BackoffAfter(k, initial, maximum) == Capped(k, initial, maximum)) <==> maximum < HALF_RANGE
  {
    if maximum < HALF_RANGE {
      forall k: nat
        ensures BackoffAfter(k, initial, maximum) == Capped(k, initial, maximum)
      {
        BackoffBelowHalfRange(k, initial, maximum);
      }
    } else {
      CappedReachesMaximum(maximum, initial, maximum);
      var k: nat := maximum;
      CappedStep(k, initial, maximum);
      assert Capped(k, initial, maximum) == maximum && Capped(k + 1, initial, maximum) == maximum;
      if BackoffAfter(k, initial, maximum) == maximum {
        assert BackoffAfter(k + 1, initial, maximum) == NextBackoff(maximum, initial, maximum);
        assert Wrap64(maximum * 2) < 0;
      }
    }
  }

  /** With a maximum of 2^62 ns the second pause is negative. */
  lemma BackoffOverflows()
    ensures BackoffAfter(1, HALF_RANGE, HALF_RANGE) < 0
  {
    assert BackoffAfter(0, HALF_RANGE, HALF_RANGE) == HALF_RANGE;
  }

  // Progress of a read past the mark

  /** How many stored records are numbered past the given number. */
  function Owed(log: seq<Record>, trimmed: nat, number: int): nat
    requires trimmed <= |log|
  {
    |From(log[trimmed..], number + 1)|
  }

  lemma DebtAt(h: HashFn, log: seq<Record>, trimmed: nat, number: nat, k: nat)
    requires ChainOk(h, log) && trimmed <= |log| && Cut(log, number, k)
    ensures Owed(log, trimmed, number) == |log| - Later(trimmed, k)
  {
    ReadPast(h, log, trimmed, number, k, 1);
  }

  lemma PageEnd(h: HashFn, log: seq<Record>, trimmed: nat, number: nat, k: nat, limit: int)
    requires ChainOk(h, log) && trimmed <= |log| && Cut(log, number, k)
    ensures var page, a := ReadRange(log[trimmed..], number + 1, limit), Later(trimmed, k);
            |page| == Earlier(|log| - a, ClampLimit(limit)) &&
            (|page| > 0 ==> page[|page| - 1] == log[a + |page| - 1])
  {
    ReadPast(h, log, trimmed, number, k, limit);
  }

  /** Delivering a page leaves that many fewer records owed. */
  lemma PageReducesDebt(h: HashFn, log: seq<Record>, trimmed: nat, number: nat, limit: int)
    requires ChainOk(h, log) && trimmed <= |log|
    ensures var page := ReadRange(log[trimmed..], number + 1, limit);
            var owed := Owed(log, trimmed, number);
            |page| == Earlier(owed, ClampLimit(limit)) &&
            (|page| > 0 ==> page[|page| - 1].number > number &&
                            Owed(log, trimmed, page[|page| - 1].number) == owed - |page|)
  {
    var k := FromIsTail(h, log, 0, number + 1);
    assert Cut(log, number, k);
    DebtAt(h, log, trimmed, number, k);
    PageEnd(h, log, trimmed, number, k, limit);
    var last := Later(trimmed, k) + |ReadRange(log[trimmed..], number + 1, limit)| - 1;
    if last >= Later(trimmed, k) {
      CutAt(h, log, last);
      DebtAt(h, log, trimmed, log[last].number, last + 1);
    }
  }

  lemma CutAt(h: HashFn, log: seq<Record>, i: nat)
    requires ChainOk(h, log) && i < |log|
    ensures log[i].number > 0 && Cut(log, log[i].number, i + 1)
  {
    ChainLink(h, log, i);
    forall j | 0 <= j < |log|
      ensures log[j].number <= log[i].number <==> j < i + 1
    {
      if j <= i {
        NumbersIncrease(h, log, j, i);
      } else {
        NumbersIncrease(h, log, i, j);
      }
    }
  }

  /** What is left after a catch-up that nothing interrupts: nothing, unless a page cannot hold a batch. */
  function DebtLeft(owed: nat, batchSize: nat): nat {
    if batchSize <= PAGE_CAP then 0 else owed - Earlier(owed, PAGE_CAP)
  }

  /** Nothing is owed exactly when the watermark has reached every stored record. */
  lemma NothingOwed(h: HashFn, log: seq<Record>, trimmed: nat, number: nat)
    requires ChainOk(h, log) && trimmed <= |log|
    ensures Owed(log, trimmed, number) == 0 <==> forall i :: trimmed <= i < |log| ==> log[i].number <= number
  {
    var k := FromIsTail(h, log, trimmed, number + 1);
    assert k < |log| ==> log[k].number > number;
  }

  /** So an uninterrupted catch-up reaches the head of the log except when both are over the page cap. */
  lemma CatchUpReachesHead(h: HashFn, log: seq<Record>, trimmed: nat, number: nat, batchSize: nat)
    requires ChainOk(h, log) && trimmed <= |log|
    ensures DebtLeft(Owed(log, trimmed, number), batchSize) == 0 <==>
            batchSize <= PAGE_CAP || |log| <= PAGE_CAP + trimmed || log[|log| - 1 - PAGE_CAP].number <= number
  {
    var k := FromIsTail(h, log, trimmed, number + 1);
    if |log| > PAGE_CAP + trimmed {
      var j := |log| - 1 - PAGE_CAP;
      assert k <= j <==> log[j].number > number;
    }
  }

  /** With batches of 20000 and as much owed, half of it is left. */
  lemma OversizedBatchFallsShort()
    ensures DebtLeft(20000, 20000) == 10000 && DebtLeft(20000, PAGE_CAP) == 0
  {
  }

  lemma {:induction false} UsableFrom(pending: seq<Record>, i: nat, delivered: Int64, chainOnto: Bytes)
    requires i < |pending|
    ensures var r, rest := pending[i], UsableBatch(pending[i + 1..], delivered, pending[i].entryHash);
            UsableBatch(pending[i..], delivered, chainOnto) ==
            if r.number <= delivered then UsableBatch(pending[i + 1..], delivered, chainOnto)
            else if |chainOnto| == 0 || r.prevHash != chainOnto then None
            else if rest.None? then None else Some([r] + rest.value)
  {
    assert pending[i..][1..] == pending[i + 1..];
  }

  /** The queued records that continue the receiver's history exactly, or a refusal. */
  method SelectUsable(pending: seq<Record>, delivered: Int64, prevHash: Bytes) returns (batch: seq<Record>, ok: bool)
    ensures UsableBatch(pending, delivered, prevHash) == if ok then Some(batch) else None
  {
    batch, ok := [], true;
    var chainOnto := prevHash;
    assert pending[0..] == pending;
    assert forall rest: seq<Record> :: [] + rest == rest;
    for i := 0 to |pending|
      invariant var rest := UsableBatch(pending[i..], delivered, chainOnto);
                UsableBatch(pending, delivered, prevHash) == if rest.None? then None else Some(batch + rest.value)
    {
      UsableFrom(pending, i, delivered, chainOnto);
      var r := pending[i];
      if r.number > delivered {
        if |chainOnto| == 0 || r.prevHash != chainOnto {
          return [], false;
        }
        ghost var rest := UsableBatch(pending[i + 1..], delivered, r.entryHash);
        assert rest.Some? ==> batch + ([r] + rest.value) == (batch + [r]) + rest.value;
        batch := batch + [r];
        chainOnto := r.entryHash;
      }
    }
    assert batch + [] == batch;
  }

  /** The steps a write that succeeds stands for; a smaller number is not written. */
  lemma WrittenSteps(c: Config, start: State, trace: seq<Step>, s: State, batch: seq<Record>, origin: Origin)
    returns (longer: seq<Step>)
    requires |batch| > 0 && s.worker == Acknowledged(batch, origin) && Leads(Next(c), start, trace, s)
    ensures var m, after := MarkOf(batch), AfterDelivery(origin);
            Leads(Next(c), start, longer, if m.number < s.mark.number then s.(worker := after)
                                    else s.(disk := m, mark := m, worker := after))
  {
    Advance(Next(c), start, trace, s, Persist);
    longer := trace + [Persist];
    if MarkOf(batch).number >= s.mark.number {
      Advance(Next(c), start, longer, Persisted(s, batch, origin), Remember);
      longer := longer + [Remember];
    }
  }

  lemma FailedWriteStep(c: Config, start: State, trace: seq<Step>, s: State, batch: seq<Record>, origin: Origin, moved: bool)
    returns (why: Step)
    requires |batch| > 0 && s.worker == Acknowledged(batch, origin) && Leads(Next(c), start, trace, s)
    ensures Leads(Next(c), start, trace + [why],
                  s.(disk := if moved then MarkOf(batch) else s.disk, resync := true, worker := Idle([])))
  {
    why := PersistFails(moved);
    Advance(Next(c), start, trace, s, why);
  }

  /** What a flush has in hand: what was pending, filled up from the queue to a batch. */
  function Drained(pending: seq<Record>, queue: seq<Record>, batchSize: nat): seq<Record> {
    (pending + queue)[..Later(|pending|, Earlier(batchSize, |pending + queue|))]
  }

  /** Records that include the newest of the log. */
  predicate HoldsNewest(log: seq<Record>, records: seq<Record>) {
    |log| > 0 && log[|log| - 1] in records
  }

  /** A usable batch that leaves nothing owed once it is delivered, nor takes the mark back. */
  predicate EndsAtHead(log: seq<Record>, trimmed: nat, number: int, usable: Option<seq<Record>>)
    requires trimmed <= |log|
  {
    usable.Some? ==>
      if |usable.value| == 0 then Owed(log, trimmed, number) == 0
      else MarkOf(usable.value).number >= number && Owed(log, trimmed, MarkOf(usable.value).number) == 0
  }

  /** With the newest record in hand a batch is refused or ends at the head of the log. */
  lemma NewestDrained(h: HashFn, log: seq<Record>, trimmed: nat, mark: Mark, k: nat, drained: seq<Record>)
    requires ChainOk(h, log) && trimmed <= |log| && FromTheLog(log, drained) && MarkAt(log, mark, k)
    requires HoldsNewest(log, drained)
    ensures EndsAtHead(log, trimmed, mark.number, UsableBatch(drained, mark.number, Expected(h, mark))) || Collides(h, log)
  {
    MarkCuts(h, log, mark, k);
    var u, newest := UsableBatch(drained, mark.number, Expected(h, mark)), log[|log| - 1];
    if newest.number > mark.number {
      UsableReachesHead(h, log, drained, mark, k);
      HeadOwesNothing(h, log, trimmed, newest.number);
    } else {
      HeadOwesNothing(h, log, trimmed, mark.number);
      NothingUsable(h, log, drained, mark.number, Expected(h, mark));
    }
  }

  lemma HeadOwesNothing(h: HashFn, log: seq<Record>, trimmed: nat, number: nat)
    requires ChainOk(h, log) && trimmed <= |log| && |log| > 0 && log[|log| - 1].number <= number
    ensures Owed(log, trimmed, number) == 0
  {
    forall i | trimmed <= i < |log|
      ensures log[i].number <= number
    {
      NumbersIncrease(h, log, i, |log| - 1);
    }
    NothingOwed(h, log, trimmed, number);
  }

  /** With the mark at the head of the log nothing queued is left to send. */
  lemma {:induction false} NothingUsable(h: HashFn, log: seq<Record>, pending: seq<Record>, delivered: Int64, chainOnto: Bytes)
    requires ChainOk(h, log) && |log| > 0 && log[|log| - 1].number <= delivered && FromTheLog(log, pending)
    ensures UsableBatch(pending, delivered, chainOnto) == Some([])
  {
    if |pending| > 0 {
      assert pending[0] in pending;
      var i :| 0 <= i < |log| && log[i] == pending[0];
      NumbersIncrease(h, log, i, |log| - 1);
      NothingUsable(h, log, pending[1..], delivered, chainOnto);
    }
  }

  // The shipper

  class Shipper {
    const c: Config
    const initialBackoff: Int64
    const maxBackoff: Int64
    const heartbeatEvery: int
    const world: World
    const mark: Watermark

    var queue: seq<Record>
    var resync: bool
    var dropped: nat
    var dropping: bool
    var highest: Int64
    var backoff: Int64
    var nextAttempt: Option<int>
    var lastContact: Option<int>

    ghost const start: State
    ghost var trace: seq<Step>

    ghost function Abs(w: Worker): State
      reads this, mark, world
    {
      State(world.log, world.trimmed, queue, resync, w, mark.Value(), world.disk, world.wire, world.arrived)
    }

    /** The object is where its trace leads, with its worker at the given point. */
    ghost predicate Valid(w: Worker)
      reads this, mark, world
    {
      mark.world == world && c.batchSize >= 1 && 0 < initialBackoff <= maxBackoff && mark.number >= 0 &&
      Leads(Next(c), start, trace, Abs(w))
    }

    /** One more step leads to the same object with a failed attempt on record. */
    ghost predicate FailsBy(why: Step)
      reads this, mark, world
    {
      mark.world == world && c.batchSize >= 1 && 0 < initialBackoff <= maxBackoff && mark.number >= 0 &&
      Leads(Next(c), start, trace + [why], Abs(Idle([])).(resync := true))
    }

    /** The store keeps its promises: the log is a chain, and no more was trimmed than there is. */
    ghost predicate StoreOk()
      reads this, world
    {
      ChainOk(c.hash, world.log) && world.trimmed <= |world.log|
    }

    ghost function Debt(): nat
      requires world.trimmed <= |world.log|
      reads this, mark, world
    {
      Owed(world.log, world.trimmed, mark.number)
    }

    /** A new process over whatever a run has left behind; nothing when the file cannot be written. */
    constructor (c: Config, initialBackoff: Int64, maxBackoff: Int64, heartbeatEvery: int, world: World, mark: Watermark,
                 ghost start: State, ghost past: seq<Step>)
      requires c.batchSize >= 1 && 0 < initialBackoff <= maxBackoff
      requires mark.world == world && world.disk == mark.Value() && mark.number >= 0
      requires Leads(Next(c), start, past, State(world.log, world.trimmed, [], true, Idle([]), mark.Value(), world.disk,
                                           world.wire, world.arrived))
      ensures Valid(Idle([])) && this.c == c && this.world == world && this.mark == mark
      ensures this.start == start && trace == past
      ensures resync && queue == [] && highest == mark.number && backoff == initialBackoff && nextAttempt == None
    {
      this.c, this.initialBackoff, this.maxBackoff, this.heartbeatEvery := c, initialBackoff, maxBackoff, heartbeatEvery;
      this.world, this.mark, this.start := world, mark, start;
      queue, resync, dropped, dropping := [], true, 0, false;
      highest := mark.number;
      backoff, nextAttempt, lastContact := initialBackoff, None, None;
      trace := past;
    }

    /** Hands over a committed record without ever blocking: it is queued, or dropped and resynchronised for. */
    method Offer(record: Record, ghost index: nat, ghost w: Worker)
      requires Valid(w) && index < |world.log| && world.log[index] == record
      modifies this
      ensures Valid(w)
      ensures highest == if record.number > old(highest) then record.number else old(highest)
      ensures |old(queue)| < c.bufferSize ==>
                queue == old(queue) + [record] && resync == old(resync) && dropped == old(dropped)
      ensures |old(queue)| >= c.bufferSize ==>
                queue == old(queue) && resync && dropping && dropped == old(dropped) + 1
    {
      Advance(Next(c), start, trace, Abs(w), Step.Offer(index));
      trace := trace + [Step.Offer(index)];
      if record.number > highest {
        highest := record.number;
      }
      if |queue| < c.bufferSize {
        queue := queue + [record];
      } else {
        dropped := dropped + 1;
        resync := true;
        dropping := true;
      }
    }

    method Succeed()
      modifies this`backoff, this`nextAttempt, this`dropping
      ensures backoff == initialBackoff && nextAttempt == None && !dropping
    {
      backoff := initialBackoff;
      nextAttempt := None;
      dropping := false;
    }

    method Fail(now: int)
      modifies this`resync, this`backoff, this`nextAttempt
      ensures resync
      ensures nextAttempt == Some(now + if old(backoff) <= 0 then initialBackoff else old(backoff))
      ensures backoff == NextBackoff(old(backoff), initialBackoff, maxBackoff)
    {
      resync := true;
      if backoff <= 0 {
        backoff := initialBackoff;
      }
      nextAttempt := Some(now + backoff);
      var next: Int64 := Wrap64(backoff * 2);
      if next <= maxBackoff {
        backoff := next;
      } else {
        backoff := maxBackoff;
      }
    }

    /** Puts one body on the wire. The receiver may store it whether or not an answer follows. */
    method Transmit(batch: seq<Record>, ghost origin: Origin) returns (stored: bool)
      requires Valid(Posting(batch, origin))
      modifies this`trace, world`wire, world`arrived
      ensures Valid(Posting(batch, origin)) && batch in world.wire
      ensures stored ==> forall r <- batch :: r in world.arrived
      ensures world.healthy ==> stored
    {
      Advance(Next(c), start, trace, Abs(Posting(batch, origin)), Send);
      trace := trace + [Send];
      world.wire := world.wire + {batch};
      stored := true;
      if !world.healthy {
        stored := *;
      }
      if stored {
        Advance(Next(c), start, trace, Abs(Posting(batch, origin)), Step.Deliver(batch));
        trace := trace + [Step.Deliver(batch)];
        world.arrived := world.arrived + batch;
      }
    }

    /** One POST: accepted only on an answer, which the network may lose. */
    method Post(now: int, batch: seq<Record>, ghost origin: Origin) returns (accepted: bool)
      requires Valid(Posting(batch, origin))
      modifies this`trace, this`lastContact, world`wire, world`arrived
      ensures accepted ==> Valid(Acknowledged(batch, origin))
      ensures !accepted ==> Valid(Posting(batch, origin))
      ensures lastContact == if accepted then Some(now) else old(lastContact)
      ensures world.healthy ==> accepted
    {
      var stored := Transmit(batch, origin);
      var answered := true;
      if !world.healthy {
        answered := *;
      }
      if !stored || !answered {
        return false;
      }
      Advance(Next(c), start, trace, Abs(Posting(batch, origin)), Answer);
      trace := trace + [Answer];
      lastContact := Some(now);
      return true;
    }

    /** Records how far an acknowledged batch has taken delivery. */
    method Settle(batch: seq<Record>, ghost origin: Origin) returns (ok: bool, ghost why: Step)
      requires |batch| > 0 && Valid(Acknowledged(batch, origin))
      modifies this`trace, mark, world`disk
      ensures ok ==> Valid(AfterDelivery(origin))
      ensures !ok ==> FailsBy(why) && mark.Value() == old(mark.Value())
      ensures ok ==> mark.number == if MarkOf(batch).number < old(mark.number) then old(mark.number) else MarkOf(batch).number
      ensures world.healthy ==> ok
    {
      ghost var before := Abs(Acknowledged(batch, origin));
      var outcome := mark.Set(MarkOf(batch));
      ok := outcome == Written;
      if ok {
        why := Persist;
        trace := WrittenSteps(c, start, trace, before, batch, origin);
      } else {
        why := FailedWriteStep(c, start, trace, before, batch, origin, outcome.moved);
      }
    }

    /** Posts a batch and, only once it is acknowledged, records how far delivery has got. */
    method Deliver(now: int, batch: seq<Record>, ghost origin: Origin) returns (ok: bool, ghost why: Step)
      requires |batch| > 0 && Valid(Posting(batch, origin))
      modifies this`trace, this`lastContact, mark, world`wire, world`arrived, world`disk
      ensures ok ==> Valid(AfterDelivery(origin))
      ensures !ok ==> FailsBy(why) && mark.Value() == old(mark.Value())
      ensures ok ==> mark.number == if MarkOf(batch).number < old(mark.number) then old(mark.number) else MarkOf(batch).number
      ensures ok ==> lastContact == Some(now)
      ensures world.healthy ==> ok
    {
      why := PostFails;
      var accepted := Post(now, batch, origin);
      if !accepted {
        Advance(Next(c), start, trace, Abs(Posting(batch, origin)), PostFails);
        return false, PostFails;
      }
      ok, why := Settle(batch, origin);
    }

    /** Reports a failed attempt and takes the step that goes with it. */
    method GiveUp(now: int, ghost why: Step)
      requires FailsBy(why)
      modifies this`trace, this`resync, this`backoff, this`nextAttempt
      ensures Valid(Idle([])) && resync
      ensures backoff == NextBackoff(old(backoff), initialBackoff, maxBackoff)
      ensures nextAttempt == Some(now + if old(backoff) <= 0 then initialBackoff else old(backoff))
    {
      trace := trace + [why];
      Fail(now);
    }

    /** Refuses to go on when the log cannot be read or has not reached the watermark. */
    method CheckWatermark() returns (ok: bool, ghost why: Step)
      requires Valid(Checking)
      modifies this`trace
      ensures ok ==> Valid(Reading) && mark.number <= LastNumber(world.log)
      ensures !ok ==> FailsBy(why)
      ensures world.healthy ==> (ok <==> mark.number <= LastNumber(world.log))
    {
      var readable := true;
      if !world.healthy {
        readable := *;
      }
      why := CheckHead(readable);
      Advance(Next(c), start, trace, Abs(Checking), why);
      if !readable || mark.number > LastNumber(world.log) {
        return false, why;
      }
      trace := trace + [why];
      ok := true;
    }

    /** Whether the context was cancelled or the read failed, neither of which a healthy world lets happen. */
    method ReadOutcomeNow() returns (outcome: ReadOutcome)
      ensures world.healthy ==> outcome == Read
    {
      outcome := Read;
      if !world.healthy {
        var cancelled, failed := *, *;
        outcome := if cancelled then Cancelled else if failed then ReadFailed else Read;
      }
    }

    /** Reads the next page of the log; nothing when that was not possible. */
    method ReadNext(now: int) returns (page: Option<seq<Record>>)
      requires Valid(Reading) && StoreOk()
      modifies this`trace, this`resync, this`backoff, this`nextAttempt
      ensures page.None? ==> Valid(Idle([]))
      ensures page.Some? ==> page.value == ReadRange(world.log[world.trimmed..], mark.number + 1, c.batchSize)
      ensures page.Some? ==> Valid(if |page.value| == 0 then Clearing
                                   else Posting(page.value, FromLog(|page.value| >= c.batchSize)))
      ensures world.healthy ==> page.Some?
    {
      var outcome := ReadOutcomeNow();
      Advance(Next(c), start, trace, Abs(Reading), ReadPage(outcome));
      match outcome
      case Cancelled =>
        trace := trace + [ReadPage(Cancelled)];
        page := None;
      case ReadFailed =>
        GiveUp(now, ReadPage(ReadFailed));
        page := None;
      case Read =>
        page := Some(ReadRange(world.log[world.trimmed..], mark.number + 1, c.batchSize));
        assert page.value == NextPage(c, Abs(Reading));
        trace := trace + [ReadPage(Read)];
    }

    /** Ends a catch-up that has run out of log to read. */
    method Clear()
      requires Valid(Clearing)
      modifies this`trace, this`resync
      ensures Valid(Idle([])) && !resync
    {
      Advance(Next(c), start, trace, Abs(Clearing), ClearResync);
      trace := trace + [ClearResync];
      resync := false;
    }

    /** One turn of the catch-up loop. */
    method DeliverNextPage(now: int) returns (done: bool)
      requires Valid(Reading) && StoreOk()
      modifies this`trace, this`resync, this`backoff, this`nextAttempt, this`dropping, this`lastContact
      modifies mark, world`wire, world`arrived, world`disk
      ensures Valid(if done then Idle([]) else Reading) && StoreOk()
      ensures !done ==> Debt() < old(Debt()) && c.batchSize <= PAGE_CAP
      ensures world.healthy && done ==>
                !resync && nextAttempt == None && backoff == initialBackoff && Debt() == DebtLeft(old(Debt()), c.batchSize)
    {
      PageReducesDebt(c.hash, world.log, world.trimmed, mark.number, c.batchSize);
      var page := ReadNext(now);
      if page.None? {
        return true;
      }
      if |page.value| == 0 {
        Clear();
        Succeed();
        return true;
      }
      var delivered, fault := Deliver(now, page.value, FromLog(|page.value| >= c.batchSize));
      if !delivered {
        GiveUp(now, fault);
        return true;
      }
      Succeed();
      if |page.value| < c.batchSize {
        Clear();
        return true;
      }
      return false;
    }

    /**
     Reads the log from the watermark on and delivers it page by page. It always
     ends; when nothing outside stands in the way it ends with the resync flag clear
     and nothing owed, except that a configured batch larger than the store's page cap
     makes every page look like the last one, so that only one is delivered.
     */
    method CatchUp(now: int)
      requires Valid(Checking) && StoreOk()
      modifies this`trace, this`resync, this`backoff, this`nextAttempt, this`dropping, this`lastContact
      modifies mark, world`wire, world`arrived, world`disk
      ensures Valid(Idle([])) && StoreOk()
      ensures world.healthy && old(mark.number) <= LastNumber(world.log) ==>
                !resync && nextAttempt == None && backoff == initialBackoff && Debt() == DebtLeft(old(Debt()), c.batchSize)
      ensures old(mark.number) > LastNumber(world.log) ==> resync && mark.Value() == old(mark.Value())
    {
      var ok, why := CheckWatermark();
      if !ok {
        GiveUp(now, why);
        return;
      }
      var done := false;
      while !done
        invariant Valid(if done then Idle([]) else Reading) && StoreOk()
        invariant !done && c.batchSize > PAGE_CAP ==> Debt() == old(Debt())
        invariant world.healthy && done ==>
                    !resync && nextAttempt == None && backoff == initialBackoff &&
                    Debt() == DebtLeft(old(Debt()), c.batchSize)
        decreases !done, Debt()
      {
        done := DeliverNextPage(now);
      }
    }

    /** Moves records from the queue until there is a batch of them or none is left. */
    method Drain(pending: seq<Record>) returns (drained: seq<Record>)
      requires Valid(Idle(pending))
      modifies this`trace, this`queue
      ensures Valid(Idle(drained)) && drained + queue == pending + old(queue)
      ensures drained == Drained(pending, old(queue), c.batchSize)
    {
      drained := pending;
      while |drained| < c.batchSize && |queue| > 0
        invariant Valid(Idle(drained)) && drained + queue == pending + old(queue)
        invariant |pending| <= |drained| && (|drained| <= c.batchSize || drained == pending)
        decreases |queue|
      {
        Advance(Next(c), start, trace, Abs(Idle(drained)), Take);
        trace := trace + [Take];
        assert drained + queue == (drained + [queue[0]]) + queue[1..];
        drained := drained + [queue[0]];
        queue := queue[1..];
      }
      assert drained == (drained + queue)[..|drained|];
    }

    lemma NewestInHand(drained: seq<Record>)
      requires Valid(Idle(drained)) && StoreOk() && Init(c, start) && HoldsNewest(world.log, drained)
      ensures Collides(c.hash, world.log) ||
              (mark.number <= LastNumber(world.log) &&
               EndsAtHead(world.log, world.trimmed, mark.number, UsableBatch(drained, mark.number, Expected(c.hash, mark.Value()))))
    {
      Arrives(Next(c), start, trace, Abs(Idle(drained)));
      InvRun(c, start, trace);
      if !Collides(c.hash, world.log) {
        var n := |Dedup(world.arrived)|;
        MarkIsCovered(c.hash, world.log, n, mark.Value());
        var k: nat :| k <= n && MarkAt(world.log, mark.Value(), k);
        NewestDrained(c.hash, world.log, world.trimmed, mark.Value(), k, drained);
      }
    }

    /** Decides between the queue and the log. */
    method Choose(drained: seq<Record>) returns (batch: seq<Record>, ok: bool)
      requires Valid(Idle(drained))
      modifies this`trace
      ensures UsableBatch(drained, mark.number, Expected(c.hash, mark.Value())) == if ok then Some(batch) else None
      ensures Valid(if resync || !ok then Checking else if |batch| == 0 then Idle([]) else Posting(batch, FromQueue))
    {
      var delivered, prevHash := mark.Head(c.hash);
      batch, ok := SelectUsable(drained, delivered, prevHash);
      Advance(Next(c), start, trace, Abs(Idle(drained)), Decide);
      trace := trace + [Decide];
    }

    /** Delivers a batch that came from the queue. */
    method DeliverQueued(now: int, batch: seq<Record>)
      requires |batch| > 0 && Valid(Posting(batch, FromQueue)) && StoreOk()
      modifies this`trace, this`resync, this`backoff, this`nextAttempt, this`dropping, this`lastContact
      modifies mark, world`wire, world`arrived, world`disk
      ensures Valid(Idle([])) && StoreOk()
      ensures world.healthy ==> resync == old(resync) && nextAttempt == None
      ensures world.healthy ==>
                mark.number == if MarkOf(batch).number < old(mark.number) then old(mark.number) else MarkOf(batch).number
    {
      var sent, fault := Deliver(now, batch, FromQueue);
      if sent {
        Succeed();
      } else {
        GiveUp(now, fault);
      }
    }

    /** Delivers the drained records when they continue the receiver's history, and reads the log when not. */
    method Dispatch(now: int, drained: seq<Record>)
      requires Valid(Idle(drained)) && StoreOk()
      modifies this`trace, this`resync, this`backoff, this`nextAttempt, this`dropping, this`lastContact
      modifies mark, world`wire, world`arrived, world`disk
      ensures Valid(Idle([])) && StoreOk()
      ensures var batch := UsableBatch(drained, old(mark.number), Expected(c.hash, old(mark.Value())));
              !old(resync) && batch.Some? && world.healthy ==>
                !resync && (|batch.value| > 0 && MarkOf(batch.value).number >= old(mark.number) ==> mark.number == MarkOf(batch.value).number)
      ensures var refused := UsableBatch(drained, old(mark.number), Expected(c.hash, old(mark.Value()))).None?;
              world.healthy && (old(resync) || refused) && old(mark.number) <= LastNumber(world.log) ==>
                !resync && nextAttempt == None && Debt() == DebtLeft(old(Debt()), c.batchSize)
      ensures Init(c, start) && world.healthy && HoldsNewest(world.log, drained) ==>
                (!resync && Debt() <= DebtLeft(old(Debt()), c.batchSize)) || Collides(c.hash, world.log)
    {
      if Init(c, start) && HoldsNewest(world.log, drained) {
        NewestInHand(drained);
      }
      var batch, ok := Choose(drained);
      if resync || !ok {
        CatchUp(now);
      } else if |batch| > 0 {
        DeliverQueued(now, batch);
      }
    }

    /**
     Delivers what it can. Nothing is held back in memory: what is not sent now is
     left to a read of the log, and inside the backoff it is dropped and resynchronised
     for.
     */
    method Flush(now: int, pending: seq<Record>) returns (rest: seq<Record>)
      requires Valid(Idle(pending)) && StoreOk()
      modifies this, mark, world`wire, world`arrived, world`disk
      ensures rest == [] && Valid(Idle([])) && StoreOk()
      ensures old(nextAttempt).Some? && now < old(nextAttempt).value ==>
                mark.Value() == old(mark.Value()) && world.arrived == old(world.arrived) &&
                (resync <==> old(resync) || |Drained(pending, old(queue), c.batchSize)| > 0)
      ensures world.healthy && (old(nextAttempt).None? || now >= old(nextAttempt).value) && old(resync) &&
              old(mark.number) <= LastNumber(world.log) ==>
                !resync && nextAttempt == None && Debt() == DebtLeft(old(Debt()), c.batchSize)
      ensures Init(c, start) && world.healthy && (old(nextAttempt).None? || now >= old(nextAttempt).value) &&
              HoldsNewest(world.log, Drained(pending, old(queue), c.batchSize)) ==>
                (!resync && Debt() <= DebtLeft(old(Debt()), c.batchSize)) || Collides(c.hash, world.log)
    {
      var drained := Drain(pending);
      if nextAttempt.Some? && now < nextAttempt.value {
        Advance(Next(c), start, trace, Abs(Idle(drained)), Discard);
        trace := trace + [Discard];
        if |drained| > 0 {
          resync := true;
        }
        return [];
      }
      Dispatch(now, drained);
      return [];
    }

    /** Says where the chain has got to when nothing else has been heard. It acknowledges nothing. */
    method Heartbeat(now: int, ghost pending: seq<Record>)
      requires Valid(Idle(pending))
      modifies this
      ensures Valid(Idle(pending)) && queue == old(queue) && highest == old(highest) && dropped == old(dropped)
      ensures old(resync) ==> resync
      ensures (old(nextAttempt).Some? && now < old(nextAttempt).value) ||
              (old(lastContact).Some? && now - old(lastContact).value < heartbeatEvery) ==>
                resync == old(resync) && lastContact == old(lastContact) && nextAttempt == old(nextAttempt) && backoff == old(backoff)
      ensures !((old(nextAttempt).Some? && now < old(nextAttempt).value) ||
                (old(lastContact).Some? && now - old(lastContact).value < heartbeatEvery)) ==>
                (resync == old(resync) && lastContact == Some(now) && nextAttempt == None && backoff == initialBackoff) ||
                (!world.healthy && resync && lastContact == old(lastContact) && nextAttempt.Some?)
    {
      if (nextAttempt.Some? && now < nextAttempt.value) ||
         (lastContact.Some? && now - lastContact.value < heartbeatEvery) {
        return;
      }
      var reached := true;
      if !world.healthy {
        reached := *;
      }
      if reached {
        lastContact := Some(now);
        Succeed();
      } else {
        Advance(Next(c), start, trace, Abs(Idle(pending)), HeartbeatFails);
        trace := trace + [HeartbeatFails];
        Fail(now);
      }
    }

    /** The last attempt of a process that is stopping ignores the backoff. */
    method FinalFlush(now: int, pending: seq<Record>)
      requires Valid(Idle(pending)) && StoreOk()
      modifies this, mark, world`wire, world`arrived, world`disk
      ensures Valid(Idle([])) && StoreOk()
      ensures world.healthy && old(resync) && old(mark.number) <= LastNumber(world.log) ==>
                !resync && Debt() == DebtLeft(old(Debt()), c.batchSize)
      ensures Init(c, start) && world.healthy && HoldsNewest(world.log, Drained(pending, old(queue), c.batchSize)) ==>
                (!resync && Debt() <= DebtLeft(old(Debt()), c.batchSize)) || Collides(c.hash, world.log)
    {
      nextAttempt := None;
      var rest := Flush(now, pending);
    }
  }

  /** A new process over the state a run has left: null when the watermark file cannot be written. */
  method New(c: Config, initialBackoff: Int64, maxBackoff: Int64, heartbeatEvery: int, world: World,
             ghost start: State, ghost past: seq<Step>)
    returns (s: Shipper?)
    requires c.batchSize >= 1 && 0 < initialBackoff <= maxBackoff
    requires var before := After(c, start, past);
             before.worker == Stopped && before.log == world.log && before.trimmed == world.trimmed &&
             before.disk == world.disk && before.wire == world.wire && before.arrived == world.arrived
    modifies world`disk
    ensures s != null ==> fresh(s) && s.Valid(Idle([])) && s.resync && s.start == start && s.c == c && s.world == world
    ensures s != null ==> s.mark.Value() == Loaded(old(world.disk)) && Remembers(old(world.disk), s.mark.Value())
    ensures world.healthy ==> s != null
  {
    s := null;
    ghost var before := After(c, start, past);
    var mark := LoadWatermark(world);
    if mark != null {
      Arrives(Next(c), start, past, before);
      Advance(Next(c), start, past, before, Restart);
      s := new Shipper(c, initialBackoff, maxBackoff, heartbeatEvery, world, mark, start, past + [Restart]);
    }
  }

  /** Whatever a shipper has been through, the witness of its log has no hole. */
  lemma ShipperIsSafe(s: Shipper, w: Worker)
    requires s.Valid(w) && Init(s.c, s.start)
    ensures Safe(s.c, s.Abs(w)) || Collides(s.c.hash, s.world.log)
  {
    Arrives(Next(s.c), s.start, s.trace, s.Abs(w));
    WitnessHasNoHole(s.c, s.start, s.trace);
  }
}
