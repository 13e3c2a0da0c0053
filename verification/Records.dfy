/**
 What is delivered to the witness, and how the witness checks it.
 */
module Records {
  import opened Prelude
  import opened Encoding
  import opened Chain

  const FORMAT := "n0passtemps.audit.v1"
  const KIND_BATCH := "batch"
  const KIND_HEARTBEAT := "heartbeat"

  /** The fields of an entry the chain hash commits to, and no others. */
  datatype Record = Record(
    number: Int64,
    tenantId: Bytes,
    occurredAt: int,
    eventType: Bytes,
    actorType: Bytes,
    actorId: Bytes,
    resourceType: Bytes,
    resourceId: Bytes,
    outcome: Bytes,
    requestId: Bytes,
    piiDigest: Bytes,
    prevHash: Bytes,
    entryHash: Bytes)

  function Project(e: Entry): Record {
    Record(e.number, e.tenantId, e.occurredAt, e.eventType, e.actorType, e.actorId, e.resourceType,
           e.resourceId, e.outcome, e.requestId, e.piiDigest, e.prevHash, e.entryHash)
  }

  function ProjectAll(entries: seq<Entry>): (r: seq<Record>)
    ensures |r| == |entries|
    ensures forall i :: 0 <= i < |r| ==> r[i] == Project(entries[i])
  {
    seq(|entries|, i requires 0 <= i < |entries| => Project(entries[i]))
  }

  /** The hash input a record can be turned back into: an entry with nothing personal in it. */
  function Rebuilt(r: Record): Entry {
    Entry(r.number, r.tenantId, r.occurredAt, r.eventType, r.actorType, r.actorId, [], r.resourceType,
          r.resourceId, r.outcome, [], r.requestId, [], None, r.piiDigest, r.prevHash, r.entryHash)
  }

  predicate RecordVerifies(h: HashFn, r: Record, prevHash: Bytes) {
    VerifyEntry(h, Rebuilt(r), prevHash)
  }

  /** The witness sees every part of an entry's verdict except the personal fields. */
  lemma WitnessVerdict(h: HashFn, e: Entry, prevHash: Bytes)
    ensures VerifyEntry(h, e, prevHash) <==> RecordVerifies(h, Project(e), prevHash) && PersonalFieldsVerify(h, e)
    ensures Project(Erased(e)) == Project(e)
    ensures RecordVerifies(h, Project(e), prevHash) <==> VerifyEntry(h, Erased(e), prevHash)
  {
    assert ChainItems(Rebuilt(Project(e)), prevHash) == ChainItems(e, prevHash);
    assert ChainItems(Erased(e), prevHash) == ChainItems(e, prevHash);
  }

  // The receiver's check

  /** Whether record i continues what comes before it: a larger number, chained onto its hash. */
  predicate Continues(h: HashFn, records: seq<Record>, prevHash: Bytes, i: nat)
    requires i < |records|
  {
    (i > 0 ==> records[i].number > records[i - 1].number) &&
    RecordVerifies(h, records[i], if i == 0 then prevHash else records[i - 1].entryHash)
  }

  predicate Accepted(h: HashFn, records: seq<Record>, prevHash: Bytes) {
    forall i :: 0 <= i < |records| ==> Continues(h, records, prevHash, i)
  }

  /**
   The receiver's check. A verdict of zero means accepted, unless a record numbered
   zero is itself the break; any other verdict is the number of the first break.
   */
  method CheckSequence(h: HashFn, records: seq<Record>, prevHash: Bytes) returns (brokenAt: Int64)
    ensures Accepted(h, records, prevHash) ==> brokenAt == 0
    ensures !Accepted(h, records, prevHash) ==>
              exists i :: 0 <= i < |records| && brokenAt == records[i].number && !Continues(h, records, prevHash, i) &&
                          forall j :: 0 <= j < i ==> Continues(h, records, prevHash, j)
    ensures (forall r <- records :: r.number > 0) ==> (brokenAt == 0 <==> Accepted(h, records, prevHash))
  {
    var cur, last := prevHash, 0;
    for i := 0 to |records|
      invariant cur == if i == 0 then prevHash else records[i - 1].entryHash
      invariant i > 0 ==> last == records[i - 1].number
      invariant forall j :: 0 <= j < i ==> Continues(h, records, prevHash, j)
    {
      var r := records[i];
      if i > 0 && r.number <= last {
        assert !Continues(h, records, prevHash, i);
        return r.number;
      }
      if !RecordVerifies(h, r, cur) {
        assert !Continues(h, records, prevHash, i);
        return r.number;
      }
      cur := r.entryHash;
      last := r.number;
    }
    return 0;
  }

  predicate Increasing(entries: seq<Entry>) {
    forall i, j :: 0 <= i < j < |entries| ==> entries[i].number < entries[j].number
  }

  /** A verified, increasing log is one the witness accepts, erased in part or not. */
  lemma WitnessAcceptsLog(h: HashFn, entries: seq<Entry>, which: set<nat>, prevHash: Bytes)
    requires Intact(h, entries, prevHash) && Increasing(entries)
    ensures Accepted(h, ProjectAll(entries), prevHash)
    ensures ProjectAll(EraseAt(entries, which)) == ProjectAll(entries)
  {
    var records := ProjectAll(entries);
    forall i | 0 <= i < |records|
      ensures Continues(h, records, prevHash, i)
    {
      assert LinkVerifies(h, entries, prevHash, i);
      WitnessVerdict(h, entries[i], Before(entries, prevHash, i));
    }
  }

  // Tamper evidence

  function RecordInput(r: Record): seq<Byte> {
    ChainInput(Rebuilt(r), r.prevHash)
  }

  /** Every byte string the check of a list from genesis hashes. */
  function HashedInputs(records: seq<Record>): set<seq<Byte>> {
    (set r <- records :: RecordInput(r)) + {GENESIS_INPUT}
  }

  function LastHash(records: seq<Record>, prevHash: Bytes): Bytes {
    if |records| == 0 then prevHash else records[|records| - 1].entryHash
  }

  /**
   Walks two lists back from their common end to the first place where what was
   hashed differs, and returns the two byte strings found there.
   */
  function FindCollision(a: seq<Record>, b: seq<Record>): Option<(seq<Byte>, seq<Byte>)> {
    if |a| == 0 && |b| == 0 then None
    else if |a| == 0 then Some((GENESIS_INPUT, RecordInput(b[|b| - 1])))
    else if |b| == 0 then Some((RecordInput(a[|a| - 1]), GENESIS_INPUT))
    else
      var x, y := RecordInput(a[|a| - 1]), RecordInput(b[|b| - 1]);
      if x != y then Some((x, y)) else FindCollision(a[..|a| - 1], b[..|b| - 1])
  }

  /** Everything but the spelling of the instant, which is committed to modulo 2^64 ns. */
  predicate SameRecord(a: Record, b: Record) {
    Committed(Rebuilt(a)) == Committed(Rebuilt(b)) && a.prevHash == b.prevHash && a.entryHash == b.entryHash
  }

  predicate SameHistory(a: seq<Record>, b: seq<Record>) {
    |a| == |b| && forall i :: 0 <= i < |a| ==> SameRecord(a[i], b[i])
  }

  lemma AcceptedInit(h: HashFn, records: seq<Record>, prevHash: Bytes)
    requires |records| > 0 && Accepted(h, records, prevHash)
    ensures var init, last := records[..|records| - 1], records[|records| - 1];
            Accepted(h, init, prevHash) && last.prevHash == LastHash(init, prevHash) &&
            last.entryHash == h(RecordInput(last))
    ensures HashedInputs(records[..|records| - 1]) <= HashedInputs(records)
    ensures RecordInput(records[|records| - 1]) in HashedInputs(records)
  {
    var n := |records| - 1;
    assert Continues(h, records, prevHash, n);
    forall i | 0 <= i < n
      ensures Continues(h, records[..n], prevHash, i)
    {
      assert Continues(h, records, prevHash, i);
    }
  }

  /**
   Tamper evidence as a reduction. Two accepted lists of any lengths that end in the
   same hash are the same history, or FindCollision produces two different byte
   strings with one hash, each of them among the strings its own list hashes.
   */
  lemma {:induction false} TamperEvidence(h: HashFn, a: seq<Record>, b: seq<Record>)
    requires Accepted(h, a, Genesis(h)) && Accepted(h, b, Genesis(h))
    requires LastHash(a, Genesis(h)) == LastHash(b, Genesis(h))
    ensures match FindCollision(a, b)
            case None => SameHistory(a, b)
            case Some((x, y)) => x != y && h(x) == h(y) && x in HashedInputs(a) && y in HashedInputs(b)
    decreases |a|
  {
    if |a| > 0 {
      AcceptedInit(h, a, Genesis(h));
    }
    if |b| > 0 {
      AcceptedInit(h, b, Genesis(h));
    }
    if |a| == 0 && |b| > 0 {
      DomainsAreDisjoint(Rebuilt(b[|b| - 1]), b[|b| - 1].prevHash, Rebuilt(b[|b| - 1]));
    } else if |a| > 0 && |b| == 0 {
      DomainsAreDisjoint(Rebuilt(a[|a| - 1]), a[|a| - 1].prevHash, Rebuilt(a[|a| - 1]));
    } else if |a| > 0 && |b| > 0 {
      var ra, rb := a[|a| - 1], b[|b| - 1];
      if RecordInput(ra) == RecordInput(rb) {
        SameInputSameRecord(ra, rb);
        TamperEvidence(h, a[..|a| - 1], b[..|b| - 1]);
        SameHistoryStep(a, b);
      }
    }
  }

  lemma SameInputSameRecord(a: Record, b: Record)
    requires RecordInput(a) == RecordInput(b) && a.entryHash == b.entryHash
    ensures SameRecord(a, b)
  {
    ChainInputInjective(Rebuilt(a), a.prevHash, Rebuilt(b), b.prevHash);
  }

  lemma SameHistoryStep(a: seq<Record>, b: seq<Record>)
    requires |a| > 0 && |b| > 0 && SameRecord(a[|a| - 1], b[|b| - 1])
    ensures SameHistory(a[..|a| - 1], b[..|b| - 1]) ==> SameHistory(a, b)
  {
    if SameHistory(a[..|a| - 1], b[..|b| - 1]) {
      forall i | 0 <= i < |a|
        ensures SameRecord(a[i], b[i])
      {
        if i < |a| - 1 {
          assert SameRecord(a[..|a| - 1][i], b[..|b| - 1][i]);
        }
      }
    }
  }

  /** With instants an int64 of nanoseconds can hold, the same history is the same list. */
  lemma SameHistoryIsEquality(a: seq<Record>, b: seq<Record>)
    requires SameHistory(a, b)
    requires forall r <- a + b :: -TWO_63 <= r.occurredAt < TWO_63
    ensures a == b
  {
    forall i | 0 <= i < |a|
      ensures a[i] == b[i]
    {
      assert a[i] in a + b && b[i] in a + b;
      assert SameRecord(a[i], b[i]);
      InstantCommitment(a[i].occurredAt, b[i].occurredAt);
    }
  }

  // Bodies

  datatype Verdict = Fine | Malformed

  datatype Batch = Batch(
    format: string, kind: string, source: Bytes, sentAt: int, fromSeq: Int64, toSeq: Int64, count: int,
    entries: seq<Record>)
  {
    function Verify(): Verdict {
      if format != FORMAT then Malformed
      else if kind != "" && kind != KIND_BATCH then Malformed
      else if count != |entries| then Malformed
      else if |entries| == 0 then Malformed
      else if entries[0].number != fromSeq || entries[|entries| - 1].number != toSeq then Malformed
      else Fine
    }
  }

  /** The body deliver builds around a batch. */
  function MakeBatch(source: Bytes, sentAt: int, records: seq<Record>): Batch
    requires |records| > 0
  {
    Batch(FORMAT, KIND_BATCH, source, sentAt, records[0].number, records[|records| - 1].number, |records|, records)
  }

  /** The receiver takes a body exactly when it is a batch of this format and declares the entries it carries. */
  lemma FineIsDeclared(b: Batch)
    ensures b.Verify() == Fine <==>
            b.format == "n0passtemps.audit.v1" && (b.kind == "" || b.kind == "batch") && b.entries != [] &&
            b.count == |b.entries| && b.fromSeq == b.entries[0].number && b.toSeq == b.entries[|b.entries| - 1].number
  {
  }

  lemma SentBatchVerifies(source: Bytes, sentAt: int, records: seq<Record>)
    requires |records| > 0
    ensures MakeBatch(source, sentAt, records).Verify() == Fine
  {
  }

  /**
   The body deliver sends passes the receiver's check, and a body cut short or padded
   without its declaration being changed does not, nor does one read as a heartbeat.
   */
  lemma SentBatchIsWhole(source: Bytes, sentAt: int, records: seq<Record>, kept: seq<Record>)
    requires |records| > 0
    ensures var sent := MakeBatch(source, sentAt, records);
            sent.Verify() == Fine &&
            (sent.(entries := kept).Verify() == Fine ==> |kept| == |records|) &&
            sent.(kind := KIND_HEARTBEAT).Verify() == Malformed
  {
    assert KIND_HEARTBEAT[0] != KIND_BATCH[0];
  }
}
