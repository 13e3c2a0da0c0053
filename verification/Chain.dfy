/**
 The hash chain of the audit log.

 SHA-256 is a parameter about which nothing but the length of its sums is known,
 so every claim here holds whatever the function does.
 */
module Chain {
  import opened Prelude
  import opened Encoding

  const SALT_SIZE := 16

  const CHAIN_DOMAIN: Bytes := Ascii("n0passtemps/audit-chain/v1")
  const PII_DOMAIN: Bytes := Ascii("n0passtemps/audit-pii/v1")
  const GENESIS_INPUT: Bytes := Ascii("n0passtemps/audit-chain/v1/genesis")

  const ERASED_DOCUMENT: Bytes := Ascii("{}")

  function Genesis(h: HashFn): Digest {
    h(GENESIS_INPUT)
  }

  /**
   The value of one audit entry. An instant is a count of nanoseconds since the
   Unix epoch with no bound on it, because a Go time.Time reaches further than
   the int64 count the hash commits to. A nil salt and an empty one are told
   apart, because the code that fills the salt in tells them apart.
   */
  datatype Entry = Entry(
    number: Int64,
    tenantId: Bytes,
    occurredAt: int,
    eventType: Bytes,
    actorType: Bytes,
    actorId: Bytes,
    subjectId: Bytes,
    resourceType: Bytes,
    resourceId: Bytes,
    outcome: Bytes,
    sourceIp: Bytes,
    requestId: Bytes,
    detail: Bytes,
    piiSalt: Option<Bytes>,
    piiDigest: Bytes,
    prevHash: Bytes,
    entryHash: Bytes)

  function SaltBytes(e: Entry): Bytes {
    match e.piiSalt
    case None => []
    case Some(salt) => salt
  }

  function UnixNano(instant: int): Int64 {
    Wrap64(instant)
  }

  function PiiItems(e: Entry): seq<Item> {
    [Sized(PII_DOMAIN), Sized(SaltBytes(e)), Sized(e.subjectId), Sized(e.sourceIp), Sized(e.detail)]
  }

  function ChainItems(e: Entry, prevHash: Bytes): seq<Item> {
    [Sized(CHAIN_DOMAIN), Sized(prevHash), Word(e.number), Sized(e.tenantId), Word(UnixNano(e.occurredAt)),
     Sized(e.eventType), Sized(e.actorType), Sized(e.actorId), Sized(e.resourceType), Sized(e.resourceId),
     Sized(e.outcome), Sized(e.requestId), Sized(e.piiDigest)]
  }

  function ChainInput(e: Entry, prevHash: Bytes): seq<Byte> {
    Encode(ChainItems(e, prevHash))
  }

  function PiiDigest(h: HashFn, e: Entry): Digest {
    h(Encode(PiiItems(e)))
  }

  function EntryHash(h: HashFn, e: Entry, prevHash: Bytes): Digest {
    h(ChainInput(e, prevHash))
  }

  /** What the chain hash is meant to fix about an entry, besides its predecessor. */
  datatype Commitment = Commitment(
    number: Int64,
    tenantId: Bytes,
    nanoseconds: Int64,
    eventType: Bytes,
    actorType: Bytes,
    actorId: Bytes,
    resourceType: Bytes,
    resourceId: Bytes,
    outcome: Bytes,
    requestId: Bytes,
    piiDigest: Bytes)

  function Committed(e: Entry): Commitment {
    Commitment(e.number, e.tenantId, UnixNano(e.occurredAt), e.eventType, e.actorType, e.actorId,
               e.resourceType, e.resourceId, e.outcome, e.requestId, e.piiDigest)
  }

  /** The bytes hashed for an entry fix its predecessor and every committed field. */
  lemma ChainInputInjective(e: Entry, p: Bytes, f: Entry, q: Bytes)
    ensures ChainInput(e, p) == ChainInput(f, q) <==> p == q && Committed(e) == Committed(f)
  {
    var xs, ys := ChainItems(e, p), ChainItems(f, q);
    EncodeInjective(xs, ys);
    if xs == ys {
      assert forall i :: 0 <= i < 13 ==> xs[i] == ys[i];
      assert xs[1] == ys[1] && xs[2] == ys[2] && xs[3] == ys[3] && xs[4] == ys[4] && xs[5] == ys[5] && xs[6] == ys[6];
      assert xs[7] == ys[7] && xs[8] == ys[8] && xs[9] == ys[9] && xs[10] == ys[10] && xs[11] == ys[11] && xs[12] == ys[12];
    }
  }

  /** Two instants are committed to alike exactly when they are a whole number of 2^64 ns apart. */
  lemma InstantCommitment(a: int, b: int)
    ensures UnixNano(a) == UnixNano(b) <==> (a - b) % TWO_64 == 0
    ensures -TWO_63 <= a < TWO_63 && -TWO_63 <= b < TWO_63 ==> (UnixNano(a) == UnixNano(b) <==> a == b)
  {
  }

  /** So an entry moved by 2^64 ns, some 584 years, keeps its hash. */
  lemma MovedEntryKeepsHash(h: HashFn, e: Entry, prevHash: Bytes)
    ensures var moved := e.(occurredAt := e.occurredAt + TWO_64);
            moved != e && EntryHash(h, moved, prevHash) == EntryHash(h, e, prevHash)
  {
    InstantCommitment(e.occurredAt + TWO_64, e.occurredAt);
  }

  /** The bytes under the personal-field digest fix the salt and all three fields. */
  lemma PiiInputInjective(e: Entry, f: Entry)
    ensures Encode(PiiItems(e)) == Encode(PiiItems(f)) <==>
            SaltBytes(e) == SaltBytes(f) && e.subjectId == f.subjectId && e.sourceIp == f.sourceIp && e.detail == f.detail
  {
    var xs, ys := PiiItems(e), PiiItems(f);
    EncodeInjective(xs, ys);
    if xs == ys {
      assert xs[1] == ys[1] && xs[2] == ys[2] && xs[3] == ys[3] && xs[4] == ys[4];
    }
  }

  /** No digest of one kind is ever taken over the bytes of another kind. */
  lemma DomainsAreDisjoint(e: Entry, p: Bytes, f: Entry)
    ensures ChainInput(e, p) != Encode(PiiItems(f))
    ensures ChainInput(e, p) != GENESIS_INPUT
    ensures Encode(PiiItems(f)) != GENESIS_INPUT
  {
    EncodeHead(ChainItems(e, p), []);
    EncodeHead(PiiItems(f), []);
    var c, d := ChainInput(e, p), Encode(PiiItems(f));
    assert c == c + [] && d == d + [];
    BigEndian64RoundTrip(26);
    BigEndian64RoundTrip(24);
    assert c[..8] == BigEndian(26, 8);
    assert d[..8] == BigEndian(24, 8);
    LeadingByte(26);
    LeadingByte(24);
    assert c[0] == BigEndian(26, 8)[0] && d[0] == BigEndian(24, 8)[0];
    assert GENESIS_INPUT[0] == 'n' as int % 256;
  }

  lemma LeadingByte(v: nat)
    requires v < 256
    ensures BigEndian(v, 8)[0] == 0
  {
    assert v / 256 == 0;
    assert BigEndian(0, 1)[0] == 0;
    assert BigEndian(0, 3)[0] == BigEndian(0, 1)[0];
    assert BigEndian(0, 5)[0] == BigEndian(0, 3)[0];
    assert BigEndian(0, 7)[0] == BigEndian(0, 5)[0];
    assert BigEndian(v, 8)[0] == BigEndian(0, 7)[0];
  }

  method ComputePiiDigest(h: HashFn, e: Entry) returns (d: Digest)
    ensures d == PiiDigest(h, e)
  {
    var state := new HashState(h);
    state.WriteField(PII_DOMAIN);
    state.WriteField(SaltBytes(e));
    state.WriteField(e.subjectId);
    state.WriteField(e.sourceIp);
    state.WriteField(e.detail);
    d := state.Sum();
    assert state.items == PiiItems(e);
  }

  method ComputeHash(h: HashFn, e: Entry, prevHash: Bytes) returns (d: Digest)
    ensures d == EntryHash(h, e, prevHash)
  {
    var state := new HashState(h);
    WriteOrigin(state, e, prevHash);
    WriteAction(state, e);
    d := state.Sum();
    assert state.items == ChainItems(e, prevHash);
  }

  /** The first half of the fields ComputeHash writes. */
  method WriteOrigin(state: HashState, e: Entry, prevHash: Bytes)
    requires state.Valid()
    modifies state
    ensures state.Valid() && state.items == old(state.items) + ChainItems(e, prevHash)[..6]
  {
    state.WriteField(CHAIN_DOMAIN);
    state.WriteField(prevHash);
    state.WriteUint64(e.number);
    state.WriteField(e.tenantId);
    state.WriteUint64(UnixNano(e.occurredAt));
    state.WriteField(e.eventType);
  }

  /** The second half. */
  method WriteAction(state: HashState, e: Entry)
    requires state.Valid()
    modifies state
    ensures state.Valid() && state.items == old(state.items) + ChainItems(e, [])[6..]
  {
    state.WriteField(e.actorType);
    state.WriteField(e.actorId);
    state.WriteField(e.resourceType);
    state.WriteField(e.resourceId);
    state.WriteField(e.outcome);
    state.WriteField(e.requestId);
    state.WriteField(e.piiDigest);
  }

  // Verification

  predicate ErasedDetail(detail: Bytes) {
    |detail| == 0 || detail == ERASED_DOCUMENT
  }

  predicate PersonalFieldsErased(e: Entry) {
    |e.subjectId| == 0 && |e.sourceIp| == 0 && ErasedDetail(e.detail)
  }

  predicate PersonalFieldsVerify(h: HashFn, e: Entry) {
    if |SaltBytes(e)| == SALT_SIZE then PiiDigest(h, e) == e.piiDigest
    else if |SaltBytes(e)| == 0 then PersonalFieldsErased(e)
    else false
  }

  predicate WellSized(e: Entry) {
    |e.entryHash| == HASH_SIZE && |e.prevHash| == HASH_SIZE && |e.piiDigest| == HASH_SIZE
  }

  predicate VerifyEntry(h: HashFn, e: Entry, prevHash: Bytes) {
    WellSized(e) && e.prevHash == prevHash && PersonalFieldsVerify(h, e) && EntryHash(h, e, prevHash) == e.entryHash
  }

  /** The personal half of the check: the digest reproduced, or nothing personal left, or a salt that is neither. */
  method CheckPersonalFields(h: HashFn, e: Entry) returns (ok: bool)
    ensures ok <==> PersonalFieldsVerify(h, e)
  {
    if |SaltBytes(e)| == SALT_SIZE {
      var digest := ComputePiiDigest(h, e);
      return digest == e.piiDigest;
    }
    if |SaltBytes(e)| == 0 {
      return e.subjectId == [] && e.sourceIp == [] && (e.detail == [] || e.detail == ERASED_DOCUMENT);
    }
    ok := false;
  }

  method CheckEntry(h: HashFn, e: Entry, prevHash: Bytes) returns (ok: bool)
    ensures ok <==> VerifyEntry(h, e, prevHash)
  {
    if |e.entryHash| != HASH_SIZE || |e.prevHash| != HASH_SIZE || |e.piiDigest| != HASH_SIZE {
      return false;
    }
    if e.prevHash != prevHash {
      return false;
    }
    var personal := CheckPersonalFields(h, e);
    if !personal {
      return false;
    }
    var hash := ComputeHash(h, e, prevHash);
    ok := hash == e.entryHash;
  }

  /** The hash a run leaves for whatever follows it. */
  function HeadHash(entries: seq<Entry>, prevHash: Bytes): Bytes {
    if |entries| == 0 then prevHash else entries[|entries| - 1].entryHash
  }

  /** The hash entry i of a run is expected to chain onto. */
  function Before(entries: seq<Entry>, prevHash: Bytes, i: nat): Bytes
    requires i <= |entries|
  {
    if i == 0 then prevHash else entries[i - 1].entryHash
  }

  predicate LinkVerifies(h: HashFn, entries: seq<Entry>, prevHash: Bytes, i: nat)
    requires i < |entries|
  {
    VerifyEntry(h, entries[i], Before(entries, prevHash, i))
  }

  /** Every entry verifies against the one before it. */
  predicate Intact(h: HashFn, entries: seq<Entry>, prevHash: Bytes) {
    forall i :: 0 <= i < |entries| ==> LinkVerifies(h, entries, prevHash, i)
  }

  /** The index of the first entry that does not verify, or the length of the run. */
  function FirstBroken(h: HashFn, entries: seq<Entry>, prevHash: Bytes): (r: nat)
    ensures r <= |entries|
  {
    if |entries| == 0 || !VerifyEntry(h, entries[0], prevHash) then 0
    else 1 + FirstBroken(h, entries[1..], entries[0].entryHash)
  }

  /** FirstBroken is what it says: everything before it verifies and it does not. */
  lemma {:induction false} FirstBrokenIsFirst(h: HashFn, entries: seq<Entry>, prevHash: Bytes)
    ensures var r := FirstBroken(h, entries, prevHash);
            (forall i :: 0 <= i < r ==> LinkVerifies(h, entries, prevHash, i)) &&
            (r < |entries| ==> !LinkVerifies(h, entries, prevHash, r))
    ensures FirstBroken(h, entries, prevHash) == |entries| <==> Intact(h, entries, prevHash)
  {
    var r := FirstBroken(h, entries, prevHash);
    if |entries| > 0 && VerifyEntry(h, entries[0], prevHash) {
      var rest, next := entries[1..], entries[0].entryHash;
      FirstBrokenIsFirst(h, rest, next);
      forall i | 0 <= i < r
        ensures LinkVerifies(h, entries, prevHash, i)
      {
        if i > 0 {
          assert LinkVerifies(h, rest, next, i - 1);
        }
      }
    }
  }

  /** Verification composes: a run is checked by checking its parts against the hash carried over. */
  lemma {:induction false} FirstBrokenConcat(h: HashFn, a: seq<Entry>, b: seq<Entry>, prevHash: Bytes)
    ensures FirstBroken(h, a + b, prevHash) ==
            if FirstBroken(h, a, prevHash) < |a| then FirstBroken(h, a, prevHash)
            else |a| + FirstBroken(h, b, HeadHash(a, prevHash))
  {
    if |a| == 0 {
      assert a + b == b;
    } else if VerifyEntry(h, a[0], prevHash) {
      assert (a + b)[1..] == a[1..] + b;
      FirstBrokenConcat(h, a[1..], b, a[0].entryHash);
      assert HeadHash(a[1..], a[0].entryHash) == HeadHash(a, prevHash);
    }
  }

  lemma IntactConcat(h: HashFn, a: seq<Entry>, b: seq<Entry>, prevHash: Bytes)
    ensures Intact(h, a + b, prevHash) <==> Intact(h, a, prevHash) && Intact(h, b, HeadHash(a, prevHash))
  {
    FirstBrokenConcat(h, a, b, prevHash);
    FirstBrokenIsFirst(h, a + b, prevHash);
    FirstBrokenIsFirst(h, a, prevHash);
    FirstBrokenIsFirst(h, b, HeadHash(a, prevHash));
  }

  /** What VerifySequence reports: the number of the first entry that fails, zero when none does. */
  function BrokenAt(h: HashFn, entries: seq<Entry>, prevHash: Bytes): Int64 {
    var r := FirstBroken(h, entries, prevHash);
    if r == |entries| then 0 else entries[r].number
  }

  method VerifySequence(h: HashFn, entries: seq<Entry>, prevHash: Bytes) returns (brokenAt: Int64)
    ensures brokenAt == BrokenAt(h, entries, prevHash)
  {
    var cur := prevHash;
    for i := 0 to |entries|
      invariant cur == Before(entries, prevHash, i)
      invariant FirstBroken(h, entries, prevHash) == i + FirstBroken(h, entries[i..], cur)
    {
      assert entries[i..][0] == entries[i];
      var ok := CheckEntry(h, entries[i], cur);
      if !ok {
        return entries[i].number;
      }
      assert entries[i..][1..] == entries[i + 1..];
      cur := entries[i].entryHash;
    }
    return 0;
  }

  /**
   Zero means intact exactly when the first failing entry, if there is one, does
   not itself carry the number zero; numbers above zero rule that out.
   */
  lemma ZeroMeansIntact(h: HashFn, entries: seq<Entry>, prevHash: Bytes)
    ensures BrokenAt(h, entries, prevHash) == 0 <==>
            (Intact(h, entries, prevHash) ||
             (var r := FirstBroken(h, entries, prevHash); r < |entries| && entries[r].number == 0))
    ensures (forall e <- entries :: e.number > 0) ==>
            (BrokenAt(h, entries, prevHash) == 0 <==> Intact(h, entries, prevHash))
  {
    FirstBrokenIsFirst(h, entries, prevHash);
  }

  /** An entry without a hash, numbered zero: the check says zero and the run is not intact. */
  lemma BrokenNumberedZero(h: HashFn) returns (entries: seq<Entry>)
    ensures !Intact(h, entries, Genesis(h)) && BrokenAt(h, entries, Genesis(h)) == 0
  {
    entries := [Entry(0, [], 0, [], [], [], [], [], [], [], [], [], [], None, [], Genesis(h), [])];
    assert !LinkVerifies(h, entries, Genesis(h), 0);
  }

  // Building a chain

  function TruncateToMicrosecond(instant: int): (r: int)
    ensures r % 1000 == 0 && r <= instant < r + 1000
  {
    instant - instant % 1000
  }

  /** The entry with its place in the chain and both digests filled in. */
  function Sealed(h: HashFn, e: Entry, number: Int64, prevHash: Bytes): Entry {
    var placed := e.(number := number, prevHash := prevHash);
    var digested := placed.(piiDigest := PiiDigest(h, placed));
    digested.(entryHash := EntryHash(h, digested, prevHash))
  }

  /** The entry as the store will hold it, with the salt drawn for it if it had none. */
  function Prepared(h: HashFn, e: Entry, number: Int64, prevHash: Bytes, drawn: Bytes): Entry {
    var salted := e.(occurredAt := TruncateToMicrosecond(e.occurredAt),
                     piiSalt := if e.piiSalt.None? then Some(drawn) else e.piiSalt);
    Sealed(h, salted, number, prevHash)
  }

  /** One append: the caller's entry, the number the store drew and the salt drawn for it. */
  datatype Draft = Draft(entry: Entry, number: Int64, drawn: Bytes)

  function Build(h: HashFn, drafts: seq<Draft>, prevHash: Bytes): (log: seq<Entry>)
    ensures |log| == |drafts|
  {
    if |drafts| == 0 then []
    else
      var e := Prepared(h, drafts[0].entry, drafts[0].number, prevHash, drafts[0].drawn);
      [e] + Build(h, drafts[1..], e.entryHash)
  }

  /** The salts a prepared entry verifies with: drawn here, 16 bytes long, or empty with nothing to protect. */
  predicate SaltUsable(d: Draft) {
    match d.entry.piiSalt
    case None => |d.drawn| == SALT_SIZE
    case Some(salt) => |salt| == SALT_SIZE || (|salt| == 0 && PersonalFieldsErased(d.entry))
  }

  /** Neither digest covers itself, so filling both in leaves both right. */
  lemma SealedReproduces(h: HashFn, e: Entry, number: Int64, prevHash: Bytes)
    ensures var s := Sealed(h, e, number, prevHash);
            PiiDigest(h, s) == s.piiDigest && EntryHash(h, s, prevHash) == s.entryHash
  {
    var s := Sealed(h, e, number, prevHash);
    var placed := e.(number := number, prevHash := prevHash);
    assert PiiItems(s) == PiiItems(placed);
    assert ChainItems(s, prevHash) == ChainItems(placed.(piiDigest := s.piiDigest), prevHash);
  }

  lemma PreparedVerifies(h: HashFn, d: Draft, prevHash: Bytes)
    requires |d.drawn| == SALT_SIZE
    ensures VerifyEntry(h, Prepared(h, d.entry, d.number, prevHash, d.drawn), prevHash) <==>
            |prevHash| == HASH_SIZE && SaltUsable(d)
  {
    var salted := d.entry.(occurredAt := TruncateToMicrosecond(d.entry.occurredAt),
                           piiSalt := if d.entry.piiSalt.None? then Some(d.drawn) else d.entry.piiSalt);
    SealedReproduces(h, salted, d.number, prevHash);
  }

  /** A caller's own salt of one byte is kept, and what is prepared with it does not verify. */
  lemma OneByteSaltFails(h: HashFn, drawn: Bytes) returns (d: Draft)
    requires |drawn| == SALT_SIZE
    ensures d.drawn == drawn && d.entry.piiSalt == Some([7])
    ensures !VerifyEntry(h, Prepared(h, d.entry, d.number, Genesis(h), d.drawn), Genesis(h))
  {
    d := Draft(Entry(1, [], 0, [], [], [], [], [], [], [], [], [], [], Some([7]), [], [], []), 1, drawn);
    PreparedVerifies(h, d, Genesis(h));
  }

  /**
   A history built by repeated preparation verifies exactly when no caller preset a
   salt that verification does not know how to read.
   */
  lemma {:induction false} BuiltHistoryVerifies(h: HashFn, drafts: seq<Draft>, prevHash: Bytes)
    requires |prevHash| == HASH_SIZE
    requires forall d <- drafts :: |d.drawn| == SALT_SIZE
    ensures Intact(h, Build(h, drafts, prevHash), prevHash) <==> forall d <- drafts :: SaltUsable(d)
  {
    var log := Build(h, drafts, prevHash);
    if |drafts| > 0 {
      var d := drafts[0];
      var e := Prepared(h, d.entry, d.number, prevHash, d.drawn);
      PreparedVerifies(h, d, prevHash);
      assert drafts == [d] + drafts[1..];
      BuiltHistoryVerifies(h, drafts[1..], e.entryHash);
      IntactConcat(h, [e], Build(h, drafts[1..], e.entryHash), prevHash);
      assert Intact(h, [e], prevHash) <==> LinkVerifies(h, [e], prevHash, 0);
    }
  }

  // Erasure

  function Erased(e: Entry): Entry {
    e.(subjectId := [], sourceIp := [], detail := [], piiSalt := None)
  }

  /** The log with the entries at the given indices erased. */
  function EraseAt(entries: seq<Entry>, which: set<nat>): (r: seq<Entry>)
    ensures |r| == |entries|
  {
    seq(|entries|, i requires 0 <= i < |entries| => if i in which then Erased(entries[i]) else entries[i])
  }

  lemma ErasedVerifies(h: HashFn, e: Entry, prevHash: Bytes)
    requires VerifyEntry(h, e, prevHash)
    ensures VerifyEntry(h, Erased(e), prevHash)
  {
    assert ChainItems(Erased(e), prevHash) == ChainItems(e, prevHash);
  }

  lemma ErasedLinkVerifies(h: HashFn, entries: seq<Entry>, which: set<nat>, prevHash: Bytes, i: nat)
    requires i < |entries|
    requires LinkVerifies(h, entries, prevHash, i)
    ensures LinkVerifies(h, EraseAt(entries, which), prevHash, i)
  {
    ErasedVerifies(h, entries[i], Before(entries, prevHash, i));
  }

  /** Erasing any subset of a verified log leaves it verified, with the same head. */
  lemma ErasurePreservesChain(h: HashFn, entries: seq<Entry>, which: set<nat>, prevHash: Bytes)
    requires Intact(h, entries, prevHash)
    ensures Intact(h, EraseAt(entries, which), prevHash)
    ensures BrokenAt(h, EraseAt(entries, which), prevHash) == 0
    ensures HeadHash(EraseAt(entries, which), prevHash) == HeadHash(entries, prevHash)
  {
    var erased := EraseAt(entries, which);
    forall i | 0 <= i < |erased|
      ensures LinkVerifies(h, erased, prevHash, i)
    {
      ErasedLinkVerifies(h, entries, which, prevHash, i);
    }
    FirstBrokenIsFirst(h, erased, prevHash);
  }

  /**
   An entry whose salt is gone verifies exactly when its link does and nothing
   personal is left in it, so nobody can be named on an erased entry.
   */
  lemma UnsaltedEntryMustBeErased(h: HashFn, e: Entry, prevHash: Bytes)
    requires |SaltBytes(e)| == 0
    ensures VerifyEntry(h, e, prevHash) <==>
            VerifyEntry(h, Erased(e), prevHash) && e.subjectId == [] && e.sourceIp == [] && (e.detail == [] || e.detail == Ascii("{}"))
  {
    assert ChainItems(Erased(e), prevHash) == ChainItems(e, prevHash);
  }

  // Tamper evidence for the personal fields

  /** The entry still holds a salt of the right size. */
  predicate Salted(e: Entry) {
    e.piiSalt.Some? && |e.piiSalt.value| == SALT_SIZE
  }

  predicate SamePerson(e: Entry, f: Entry) {
    SaltBytes(e) == SaltBytes(f) && e.subjectId == f.subjectId && e.sourceIp == f.sourceIp && e.detail == f.detail
  }

  /** Two different byte strings with one hash. */
  predicate Collision(h: HashFn, x: seq<Byte>, y: seq<Byte>) {
    x != y && h(x) == h(y)
  }

  /** Entries that verify under one digest name the same person, or their digests were taken over colliding bytes. */
  lemma SameDigestSamePerson(h: HashFn, e: Entry, f: Entry)
    requires Salted(e) && Salted(f) && PersonalFieldsVerify(h, e) && PersonalFieldsVerify(h, f) && e.piiDigest == f.piiDigest
    ensures SamePerson(e, f) <==> !Collision(h, Encode(PiiItems(e)), Encode(PiiItems(f)))
  {
    PiiInputInjective(e, f);
  }

  /** Rewriting the personal fields of a verified entry, salt and digests left alone, makes it fail, or exhibits a collision. */
  lemma AlteredPersonFails(h: HashFn, e: Entry, f: Entry, prevHash: Bytes)
    requires Salted(e) && VerifyEntry(h, e, prevHash)
    requires f == e.(subjectId := f.subjectId, sourceIp := f.sourceIp, detail := f.detail) && f != e
    ensures VerifyEntry(h, f, prevHash) ==> Collision(h, Encode(PiiItems(e)), Encode(PiiItems(f)))
  {
    if VerifyEntry(h, f, prevHash) {
      SameDigestSamePerson(h, e, f);
    }
  }

  /** So the check of the log stops at that entry. */
  lemma AlteredEntryIsReported(h: HashFn, entries: seq<Entry>, prevHash: Bytes, i: nat, f: Entry)
    requires Intact(h, entries, prevHash) && i < |entries| && Salted(entries[i])
    requires f == entries[i].(subjectId := f.subjectId, sourceIp := f.sourceIp, detail := f.detail) && f != entries[i]
    ensures (BrokenAt(h, entries[i := f], prevHash) == f.number && FirstBroken(h, entries[i := f], prevHash) == i) ||
            Collision(h, Encode(PiiItems(entries[i])), Encode(PiiItems(f)))
  {
    var altered := entries[i := f];
    forall j | 0 <= j < i
      ensures LinkVerifies(h, altered, prevHash, j)
    {
      assert LinkVerifies(h, entries, prevHash, j) && Before(altered, prevHash, j) == Before(entries, prevHash, j);
    }
    assert LinkVerifies(h, entries, prevHash, i);
    assert LinkVerifies(h, altered, prevHash, i) <==> VerifyEntry(h, f, Before(entries, prevHash, i));
    AlteredPersonFails(h, entries[i], f, Before(entries, prevHash, i));
    FirstBrokenIsFirst(h, altered, prevHash);
  }

  /** What two entries were hashed over, where it differs: for the chain, or for the personal digest of two salted ones. */
  function Differing(e: Entry, f: Entry): Option<(seq<Byte>, seq<Byte>)> {
    if ChainInput(e, e.prevHash) != ChainInput(f, f.prevHash) then Some((ChainInput(e, e.prevHash), ChainInput(f, f.prevHash)))
    else if Salted(e) && Salted(f) && Encode(PiiItems(e)) != Encode(PiiItems(f)) then Some((Encode(PiiItems(e)), Encode(PiiItems(f))))
    else None
  }

  /** The committed fields agree, and the personal ones where both still hold the salt. */
  predicate SameEntry(e: Entry, f: Entry) {
    Committed(e) == Committed(f) && e.prevHash == f.prevHash && e.entryHash == f.entryHash &&
    (Salted(e) && Salted(f) ==> SamePerson(e, f))
  }

  /** Verified entries with one hash are one entry, or what they were hashed over collides. */
  lemma SameHashSameEntry(h: HashFn, e: Entry, f: Entry)
    requires VerifyEntry(h, e, e.prevHash) && VerifyEntry(h, f, f.prevHash) && e.entryHash == f.entryHash
    ensures match Differing(e, f)
            case None => SameEntry(e, f)
            case Some((x, y)) => Collision(h, x, y)
  {
    ChainInputInjective(e, e.prevHash, f, f.prevHash);
    PiiInputInjective(e, f);
  }

  /**
   Walks two logs back from their common end to the first place where what was hashed
   differs, for the chain or for the personal digest, and returns the two strings there.
   */
  function FindEntryCollision(a: seq<Entry>, b: seq<Entry>): Option<(seq<Byte>, seq<Byte>)> {
    if |a| == 0 && |b| == 0 then None
    else if |a| == 0 then Some((GENESIS_INPUT, ChainInput(b[|b| - 1], b[|b| - 1].prevHash)))
    else if |b| == 0 then Some((ChainInput(a[|a| - 1], a[|a| - 1].prevHash), GENESIS_INPUT))
    else if Differing(a[|a| - 1], b[|b| - 1]).Some? then Differing(a[|a| - 1], b[|b| - 1])
    else FindEntryCollision(a[..|a| - 1], b[..|b| - 1])
  }

  /** One history, told about the same people wherever both logs still hold the salt. */
  predicate SamePast(a: seq<Entry>, b: seq<Entry>) {
    |a| == |b| && forall i :: 0 <= i < |a| ==> SameEntry(a[i], b[i])
  }

  lemma IntactInit(h: HashFn, entries: seq<Entry>, prevHash: Bytes)
    requires |entries| > 0 && Intact(h, entries, prevHash)
    ensures var init, last := entries[..|entries| - 1], entries[|entries| - 1];
            Intact(h, init, prevHash) && VerifyEntry(h, last, last.prevHash) && last.prevHash == HeadHash(init, prevHash) &&
            last.entryHash == h(ChainInput(last, last.prevHash))
  {
    var n := |entries| - 1;
    assert entries == entries[..n] + [entries[n]];
    IntactConcat(h, entries[..n], [entries[n]], prevHash);
    assert LinkVerifies(h, [entries[n]], HeadHash(entries[..n], prevHash), 0);
  }

  lemma SamePastStep(a: seq<Entry>, b: seq<Entry>)
    requires |a| > 0 && |b| > 0 && SameEntry(a[|a| - 1], b[|b| - 1]) && SamePast(a[..|a| - 1], b[..|b| - 1])
    ensures SamePast(a, b)
  {
    forall i | 0 <= i < |a|
      ensures SameEntry(a[i], b[i])
    {
      if i < |a| - 1 {
        assert SameEntry(a[..|a| - 1][i], b[..|b| - 1][i]);
      }
    }
  }

  /** A log with entries never ends in the hash of one without, short of a collision with the genesis bytes. */
  lemma GenesisIsNoHead(h: HashFn, entries: seq<Entry>)
    requires |entries| > 0 && Intact(h, entries, Genesis(h)) && HeadHash(entries, Genesis(h)) == Genesis(h)
    ensures var last := entries[|entries| - 1];
            Collision(h, GENESIS_INPUT, ChainInput(last, last.prevHash)) && Collision(h, ChainInput(last, last.prevHash), GENESIS_INPUT)
  {
    var last := entries[|entries| - 1];
    IntactInit(h, entries, Genesis(h));
    DomainsAreDisjoint(last, last.prevHash, last);
  }

  /**
   Tamper evidence for whole logs, personal fields included. Two intact logs from genesis
   with one head hash tell one history, and about the same people wherever both still
   hold the salt, or the walk back produces two different byte strings with one hash.
   */
  lemma {:induction false} PersonalTamperEvidence(h: HashFn, a: seq<Entry>, b: seq<Entry>)
    requires Intact(h, a, Genesis(h)) && Intact(h, b, Genesis(h)) && HeadHash(a, Genesis(h)) == HeadHash(b, Genesis(h))
    ensures match FindEntryCollision(a, b)
            case None => SamePast(a, b)
            case Some((x, y)) => Collision(h, x, y)
    decreases |a|
  {
    if |a| == 0 && |b| > 0 {
      GenesisIsNoHead(h, b);
    } else if |a| > 0 && |b| == 0 {
      GenesisIsNoHead(h, a);
    } else if |a| > 0 && |b| > 0 {
      IntactInit(h, a, Genesis(h));
      IntactInit(h, b, Genesis(h));
      SameHashSameEntry(h, a[|a| - 1], b[|b| - 1]);
      if Differing(a[|a| - 1], b[|b| - 1]).None? {
        PersonalTamperEvidence(h, a[..|a| - 1], b[..|b| - 1]);
        if SamePast(a[..|a| - 1], b[..|b| - 1]) {
          SamePastStep(a, b);
        }
      }
    }
  }

  // The mutable entry

  /** The entry object the recorder hands to the store, whose fields are filled in where it stands. */
  class AuditEntry {
    var number: Int64
    var tenantId: Bytes
    var occurredAt: int
    var eventType: Bytes
    var actorType: Bytes
    var actorId: Bytes
    var subjectId: Bytes
    var resourceType: Bytes
    var resourceId: Bytes
    var outcome: Bytes
    var sourceIp: Bytes
    var requestId: Bytes
    var detail: Bytes
    var piiSalt: Option<Bytes>
    var piiDigest: Bytes
    var prevHash: Bytes
    var entryHash: Bytes

    function Value(): Entry
      reads this
    {
      Entry(number, tenantId, occurredAt, eventType, actorType, actorId, subjectId, resourceType, resourceId,
            outcome, sourceIp, requestId, detail, piiSalt, piiDigest, prevHash, entryHash)
    }

    /** `drawn` is what the random source yields: 16 bytes, or nothing when it fails. */
    method Prepare(h: HashFn, number: Int64, prevHash: Bytes, drawn: Option<Bytes>) returns (ok: bool)
      modifies this
      ensures ok <==> old(piiSalt).Some? || drawn.Some?
      ensures ok ==> Value() == Prepared(h, old(Value()), number, prevHash, if drawn.Some? then drawn.value else [])
      ensures !ok ==> Value() == old(Value()).(occurredAt := TruncateToMicrosecond(old(occurredAt)))
    {
      occurredAt := TruncateToMicrosecond(occurredAt);
      if piiSalt.None? {
        if drawn.None? {
          return false;
        }
        piiSalt := drawn;
      }
      Seal(h, number, prevHash);
      ok := true;
    }

    /** The half of Prepare that cannot fail. */
    method Seal(h: HashFn, number: Int64, prevHash: Bytes)
      modifies this
      ensures Value() == Sealed(h, old(Value()), number, prevHash)
    {
      this.number := number;
      this.prevHash := prevHash;
      piiDigest := ComputePiiDigest(h, Value());
      entryHash := ComputeHash(h, Value(), prevHash);
    }

    method Erase()
      modifies this
      ensures Value() == Erased(old(Value()))
    {
      subjectId := [];
      sourceIp := [];
      detail := [];
      piiSalt := None;
    }
  }

  /** The comparison the chain uses: every difference is accumulated before the verdict. */
  method Equal(a: seq<bv8>, b: seq<bv8>) returns (same: bool)
    ensures same <==> a == b
  {
    if |a| != |b| {
      return false;
    }
    var diff: bv8 := 0;
    for i := 0 to |a|
      invariant diff == 0 <==> a[..i] == b[..i]
    {
      assert a[..i + 1] == a[..i] + [a[i]] && b[..i + 1] == b[..i] + [b[i]];
      diff := diff | (a[i] ^ b[i]);
    }
    assert a[..|a|] == a && b[..|b|] == b;
    same := diff == 0;
  }
}
