# n0passtemps: what the service keeps true

A Dafny model of the parts of the service whose correctness spans several operations,
with proofs. `dafny verify dfyconfig.toml` checks all of it.

The audit log and its witness:

- `Encoding`, `Chain`: the serialisation under the audit hashes, the salted commitment to
  personal fields, building, verifying and erasing a chained log. SHA-256 is a parameter of
  which only the length of its sums is known.
- `Checkpoint`: the marker a retention trim leaves, and the boundary it attests.
- `Recorder`: replacing U+0000 in a serialised detail, against a reader of JSON text.
- `Records`: what is sent to the witness and how the witness checks it; tamper evidence as
  a reduction that yields the colliding byte strings.
- `Delivery`, `DeliverySafety`: the delivery protocol as a system of atomic steps, and its
  safety in every run.
- `Shipper`: the shipper and its watermark as objects that take those steps.

The assertion token:

- `Segment`: base64url segments, and the service's and the Python client's decoders.
- `Naming`, `Assertion`: published keys, issuing, and verification across a rotation of the
  signing key. The signature scheme and the JSON codec are parameters; a result says in its
  `requires` what it needs of them.

State kept by the administrative and enrolment interfaces:

- `RejectionTally`: folding refusals into reports, with eviction.
- `Rewrap`: the walk that moves sealed records to the current key.
- `Runs`, `Sets`: runs of a step system and counting, shared by the step systems.
- `Approvals`: dual approval from request to redemption.
- `Administrators`: the last-administrator guard and rotation.
- `Tickets`: redeeming an enrolment ticket, with undo.

Where an object's methods run among other requests, a method `Others` stands for whatever
they do, and a ghost trace ties the object to a run of its step system. What an operation must
achieve is stated for an object marked quiet (or a world marked healthy), where nobody else
is at work and nothing fails. Randomness,
identifiers and clocks are arguments.

## What turned out not to hold

Each of these is the code as it is. The member named states exactly when the property does
hold, and where it says so a second member gives an input on which it does not.

- An instant is committed to by the chain modulo 2^64 nanoseconds (`Chain.InstantCommitment`, `Chain.MovedEntryKeepsHash`).
- A prepared entry does not verify when its caller preset a salt that is neither 16 bytes
  nor empty, or an empty one with personal fields filled in (`Chain.PreparedVerifies`,
  `Chain.OneByteSaltFails`).
- A verdict of zero from `VerifySequence` is ambiguous for entries numbered zero
  (`Chain.ZeroMeansIntact`, `Chain.BrokenNumberedZero`).
- A configured batch above the store's page cap of 10000 makes every page look like the
  last, so a catch-up ends after one page with the resync flag clear
  (`Shipper.CatchUpReachesHead`, `Shipper.OversizedBatchFallsShort`). Configuration sets no such bound.
- The retry pause overflows when its maximum is 2^62 ns or more, which configuration
  allows (`Shipper.BackoffDoubles`, `Shipper.BackoffOverflows`).
- `WithRetiredKeys` checks each call against itself only, so a key given in two options is
  published twice (`Naming.PublishedKidsDistinct`, `Naming.ListedTwiceIsPublishedTwice`).
- The refusal tally uses the empty key and the zero instant for "none", so its bound and
  its choice of an oldest run depend on neither occurring (`RejectionTally.BoundIsKept`,
  `RejectionTally.EmptyNameIsNeverEvicted`, `RejectionTally.ChoiceIsOldest`,
  `RejectionTally.ZeroInstantIsPassedOver`).
- The comment on the rewrap handler promises that after a clean pass no stored record
  depends on an older key. Revoked TOTP secrets are not walked, so they may
  (`Rewrap.CleanPassRetiresKeys`, `Rewrap.RevokedSecretIsPassedOver`).
- The guard's comment asks for an administrator the moment the call returns. A full
  administrator that stops between the count and the write takes that away
  (`Administrators.RevokeEmptiesExactly`, `Administrators.WriteRacesExpiry`).
- The guard's count at the end of the longest grace can be emptied by a rotation that lands
  between the count and the write and picks an expiry of a few days
  (`Administrators.OneRotationInTheWindow`, `Administrators.ShorteningEmpties`,
  `Administrators.RevokeRacesRotation`).
- A queue batch and a read of the log differ when retention has trimmed past the watermark
  (`DeliverySafety.QueueRefinesLog`).
- A ticket's second credential stays usable when its revocation is lost or the process dies
  before it (`Tickets.TwoCredentialsWhen`, `Tickets.DeathLeavesTwo`,
  `Tickets.LostUndoLeavesTwo`).

## Model

| member | source | states |
|---|---|---|
| Encoding.EncodeUniquelyReadable | internal/audit/chain.go:263-274 | the length-prefixed serialisation is prefix-free among inputs of one shape: whatever follows, equal bytes mean equal items and equal rests |
| Encoding.EncodeInjective | internal/audit/chain.go:263-274 | two inputs of one shape serialise alike exactly when they are the same items |
| Encoding.HashState.WriteField | internal/audit/chain.go:263-268 | writing a field appends its 8-byte big-endian length and its bytes to what the digest covers |
| Encoding.HashState.WriteUint64 | internal/audit/chain.go:270-274 | writing a number appends the 8 bytes of its two's-complement pattern |
| Chain.ChainInputInjective | internal/audit/chain.go:110-137 | the bytes hashed for an entry are equal for two entries exactly when the predecessors and every committed field are |
| Chain.InstantCommitment | internal/audit/chain.go:115-137 | an instant is committed to modulo 2^64 ns: two are told apart exactly when they are not a whole number of 2^64 ns from each other, and always inside the int64 range |
| Chain.MovedEntryKeepsHash | internal/audit/chain.go:115-137 | an entry moved by 2^64 ns keeps its hash |
| Chain.PiiInputInjective | internal/audit/chain.go:84-92 | the bytes under the personal-field digest fix the salt and all three personal fields, both ways |
| Chain.DomainsAreDisjoint | internal/audit/chain.go:56-92 | no digest of one kind is ever taken over the bytes of another kind, genesis included |
| Chain.ComputePiiDigest | internal/audit/chain.go:84-92 | writing the fields into the hash state gives the digest of the serialisation the injectivity result is about |
| Chain.ComputeHash | internal/audit/chain.go:110-137 | writing the fields into the hash state gives the digest of the serialisation the injectivity result is about |
| Chain.FirstBrokenIsFirst | internal/audit/chain.go:235-244 | everything before the reported entry verifies and the reported one does not; none is reported exactly when the whole run is intact |
| Chain.FirstBrokenConcat | internal/audit/chain.go:235-244 | checking a concatenation reports what checking the first part reports, or else what checking the second part against the hash carried over does |
| Chain.IntactConcat | internal/audit/chain.go:235-244 | a run is intact exactly when its parts are, the second against the head of the first |
| Chain.VerifySequence | internal/audit/chain.go:235-244 | the loop reports the number of the first entry that fails its check, zero when none does |
| Chain.ZeroMeansIntact | internal/audit/chain.go:235-244 | zero means intact exactly when the first failing entry is not itself numbered zero; for numbers above zero it means just that |
| Chain.BrokenNumberedZero | internal/audit/chain.go:235-244 | a run of one broken entry numbered zero gets the verdict zero |
| Chain.PreparedVerifies | internal/audit/chain.go:145-168 | a prepared entry verifies exactly when the predecessor has the size of a hash and its salt is one verification can read |
| Chain.OneByteSaltFails | internal/audit/chain.go:145-168 | an entry prepared with a preset salt of one byte does not verify |
| Chain.BuiltHistoryVerifies | internal/audit/chain.go:145-168 | a history of any length built by repeated preparation verifies exactly when no caller preset an unreadable salt |
| Chain.AuditEntry.Prepare | internal/audit/chain.go:145-168 | the entry object ends with every field as specified; when no salt can be drawn it fails with nothing but the instant cut to a microsecond |
| Chain.AuditEntry.Erase | internal/audit/chain.go:252-257 | erasing clears the personal fields and the salt and nothing else |
| Chain.ErasurePreservesChain | internal/audit/chain.go:191-257 | erasing any subset of a verified log leaves it verified, the check at zero and the head unchanged |
| Chain.UnsaltedEntryMustBeErased | internal/audit/chain.go:207-227 | an entry without a salt verifies exactly when its link does and subject, address and detail are blank, the detail up to an empty document |
| Chain.AlteredPersonFails | internal/audit/chain.go:207-218 | a verified, salted entry whose personal fields are rewritten, salt and digests left alone, no longer verifies, or two different byte strings with one hash are exhibited |
| Chain.AlteredEntryIsReported | internal/audit/chain.go:235-244 | so checking an intact log with such an entry in it reports that entry, or a collision is exhibited |
| Chain.SameHashSameEntry | internal/audit/chain.go:191-218 | verified entries with one hash agree on everything committed to, and on the personal fields where both still hold the salt, or what they were hashed over collides |
| Chain.PersonalTamperEvidence | internal/audit/chain.go:191-244 | two intact logs from genesis with one head hash tell one history, and about the same people wherever both still hold the salt, or the walk back produces two different byte strings with one hash |
| Chain.Equal | internal/audit/chain.go:279-288 | accumulating every difference decides equality |
| Chain.CheckEntry | internal/audit/chain.go:191-227 | sizes, predecessor, personal fields and hash are checked one after another, and decide exactly what verifying an entry means |
| Records.WitnessVerdict | internal/auditsink/record.go:156-199 | a record verifies exactly where its entry does apart from the personal fields, and erasing an entry changes no record |
| Records.CheckSequence | internal/auditsink/record.go:240-255 | the loop returns zero for an accepted list and otherwise the number of the first record that does not continue the list |
| Records.WitnessAcceptsLog | internal/auditsink/record.go:156-255 | a verified increasing log is accepted by the witness, and erasing any subset of it does not change what the witness gets |
| Records.TamperEvidence | internal/auditsink/record.go:240-255 | two accepted lists of any lengths from genesis with the same last hash are the same history, or the walk back produces two different byte strings with one hash, each hashed for its own list |
| Records.SameHistoryIsEquality | internal/auditsink/record.go:68-90 | with instants inside the int64 range the same history is the same list of records |
| Records.SentBatchVerifies | internal/auditsink/sink.go:738-776 | a non-empty batch as deliver declares it passes the receiver's check of the body |
| Records.FineIsDeclared | internal/auditsink/record.go:263-287 | the receiver takes a body exactly when it is a batch of this format and declares the entries it carries |
| Records.SentBatchIsWhole | internal/auditsink/record.go:263-287 | a body cut short or padded without its declaration being changed, or read as a heartbeat, does not pass |
| Checkpoint.HexFoldInjective | internal/audit/checkpoint.go:58-75 | comparing hexadecimal without regard to case still tells every two hashes apart |
| Checkpoint.AttestsOneBoundary | internal/audit/checkpoint.go:58-75 | no document, honest or not, attests two different boundaries |
| Checkpoint.MarkerAttestsItsBoundary | internal/audit/checkpoint.go:41-75 | a marker attests exactly the sequence and hash it was written for, in whatever order the store hands its members back |
| Checkpoint.CaseIsIgnored | internal/audit/checkpoint.go:72-74 | a boundary hash written in upper case, in whole or in part, is taken for the hash it spells |
| Checkpoint.IdleMembersAreSkipped | internal/audit/checkpoint.go:63-70 | a member under another key, or null, changes nothing wherever it stands |
| Checkpoint.MisfitsAreRefused | internal/audit/checkpoint.go:63-70 | a document attests nothing once a member that is read has a value of another kind or a sequence outside the int64 range |
| Checkpoint.AttestsWhatItSays | internal/audit/checkpoint.go:58-75 | a document attests a boundary exactly when no member in it is of the wrong kind and the last word under each key is the prune action, that sequence and that hash in any case; a missing sequence stands for zero |
| Checkpoint.TrimmedLogVerifies | internal/audit/checkpoint.go:41-75 | what a trim leaves of a verified log verifies from whatever boundary its marker attests |
| Recorder.ScrubNul | internal/audit/recorder.go:93-113 | the early return and the index loop both give the scrubbed text, of the same length |
| Recorder.NothingToScrub | internal/audit/recorder.go:98-100 | text without the six characters of the escape is left as it is, so the early return agrees with the loop |
| Recorder.ReadsWhatIsSpelled | internal/audit/recorder.go:93-113 | the reader the scrubbing is held against finds tokens in a text exactly when the text spells them, one after another, as section 7 of RFC 8259 lets strings be spelled |
| Recorder.ScrubbedReading | internal/audit/recorder.go:93-113 | reading the scrubbed text as JSON gives the reading of the text with each U+0000 replaced by U+FFFD and nothing else changed, malformed text included |
| Recorder.NoNulSurvives | internal/audit/recorder.go:93-113 | no U+0000 is left in the reading of scrubbed text |
| Recorder.ScrubIdempotent | internal/audit/recorder.go:93-113 | scrubbing twice is scrubbing once |
| DeliverySafety.WitnessHasNoHole | internal/auditsink/sink.go:389-407 | in every run of appends, offers, drops, reads, posts stored without an answer, failed writes, crashes and restarts, the de-duplicated records of the receiver are a prefix of the log that its own check accepts and that holds everything up to both watermarks, or the log itself exhibits two different byte strings with one hash |
| DeliverySafety.InvStep | internal/auditsink/sink.go:552-776 | every step keeps the invariant behind that |
| DeliverySafety.AnyLogIsWritten | internal/auditsink/sink.go:389-407 | every log the witness would accept comes about by appends, so the results on runs are about every such log |
| DeliverySafety.CrashedStartsOver | internal/auditsink/watermark.go:77-116 | a process that dies and starts again knows what the file holds and nothing else, with the resync flag set |
| DeliverySafety.QueueRefinesLog | internal/auditsink/sink.go:552-628 | whatever the queue lost, repeated or reordered, a usable batch is exactly the first records past the watermark and its body passes the receiver's check; a read of as many returns the same exactly when retention has not trimmed past the watermark |
| DeliverySafety.UsableReachesHead | internal/auditsink/sink.go:615-628 | a usable batch drawn from records that include the newest of the log is the whole log past the mark, unless hashes collide |
| DeliverySafety.UsableIsWindow | internal/auditsink/sink.go:615-628 | a usable batch is the stretch of the log right after the hash it was asked to chain onto, unless hashes collide |
| DeliverySafety.NextIsUnique | internal/auditsink/sink.go:615-628 | only one record of a log can chain onto a given place of it, unless two hashed byte strings of the log collide |
| DeliverySafety.DedupWindow | internal/auditsink/sink.go:738-776 | a batch that leaves no hole, stored any number of times, extends the de-duplicated prefix and never bends it |
| DeliverySafety.ReadPast | internal/store/sqlite/audit.go:232-257 | a read past a number is the log from just past it, or from where retention left off, up to the page limit |
| Delivery.ClampIsNearest | internal/store/sqlite/sqlite.go:650-658 | a page holds what was asked for, at most 10000 entries, and 100 when no number was given |
| Shipper.Watermark.Head | internal/auditsink/watermark.go:132-140 | the number last acknowledged with the hash the next record has to chain onto, genesis before the first |
| Shipper.Watermark.Set | internal/auditsink/watermark.go:157-206 | a smaller number changes nothing; a write that fails leaves memory alone whether or not the file moved; otherwise file and memory hold the mark, so memory never goes back |
| Shipper.LoadWatermark | internal/auditsink/watermark.go:77-116 | a restart keeps how far delivery has got, with its hash when that is 32 bytes long, and starts over only from a file without a positive number; the value is written straight back |
| Shipper.SelectUsable | internal/auditsink/sink.go:615-628 | the loop over pending entries computes the usable batch, or the refusal |
| Shipper.BackoffDoubles | internal/auditsink/sink.go:842-866 | after k failures in a row the pause is initial * 2^k up to the maximum, for all k, exactly when twice the maximum fits a duration |
| Shipper.BackoffOverflows | internal/auditsink/sink.go:842-866 | with a maximum of 2^62 ns the second pause is negative |
| Shipper.Shipper.constructor | internal/auditsink/sink.go:275-335 | a new process is at rest with the resync flag set, nothing queued and the backoff at its start |
| Shipper.Shipper.Offer | internal/auditsink/sink.go:389-420 | an offer is queued when there is room and otherwise dropped, counted and resynchronised for; the highest number offered only grows |
| Shipper.Shipper.Succeed | internal/auditsink/sink.go:830-835 | a success resets the backoff and the time of the next attempt |
| Shipper.Shipper.Fail | internal/auditsink/sink.go:842-866 | a failure sets the resync flag, schedules the next attempt and doubles the pause |
| Shipper.Shipper.Deliver | internal/auditsink/sink.go:738-776 | the watermark moves only after an answer, and not at all when anything fails |
| Shipper.Shipper.CheckWatermark | internal/auditsink/sink.go:710-728 | delivery goes on exactly when the log can be read and has reached the watermark |
| Shipper.Shipper.DeliverNextPage | internal/auditsink/sink.go:644-697 | one turn of the catch-up loop either ends it or leaves fewer records owed |
| Shipper.Shipper.CatchUp | internal/auditsink/sink.go:636-698 | the catch-up ends; undisturbed it ends with the resync flag clear, the backoff reset and nothing owed, up to the page cap; a watermark ahead of the log stops it where it is |
| Shipper.PageReducesDebt | internal/auditsink/sink.go:644-697 | a delivered page is as long as what is owed or the page limit, and leaves exactly that many fewer owed |
| Shipper.NothingOwed | internal/auditsink/sink.go:655-665 | nothing is owed exactly when the watermark has reached every stored record |
| Shipper.CatchUpReachesHead | internal/auditsink/sink.go:693-696 | an undisturbed catch-up reaches the head of the log except when both the configured batch and the debt are over the store's page cap |
| Shipper.OversizedBatchFallsShort | internal/auditsink/sink.go:693-696 | with batches of 20000 and as much owed, half of it is left |
| Shipper.NewestDrained | internal/auditsink/sink.go:615-628 | a batch drawn from records that include the newest of the log is refused, or ends at the head of the log and leaves nothing owed; otherwise hashes collide |
| Shipper.Shipper.Dispatch | internal/auditsink/sink.go:562-590 | the drained records are delivered from the queue when they continue the receiver's history and nothing is to be resynchronised; when they do not, or something is, a healthy world ends clear with nothing owed up to the page cap. So it does, by either way, whenever the drained records include the newest of the log, or hashes collide |
| Shipper.Shipper.Drain | internal/auditsink/sink.go:553-562 | a flush has in hand what was pending, filled up from the queue to a batch and no further |
| Shipper.Shipper.Flush | internal/auditsink/sink.go:552-593 | a flush keeps nothing in memory; inside the backoff it moves neither watermark nor receiver and sets the resync flag exactly when it drops something; outside it and in a healthy world it ends clear with nothing owed, up to the page cap, whenever a resynchronisation was due or it had the newest record of the log in hand, or hashes collide |
| Shipper.Shipper.Heartbeat | internal/auditsink/sink.go:491-531 | a heartbeat leaves the protocol state where it was; inside the backoff or soon after contact it does nothing, and otherwise the receiver has been heard from or a resynchronisation is asked for |
| Shipper.Shipper.FinalFlush | internal/auditsink/sink.go:540-546 | the last flush ignores the backoff and otherwise makes the same promises |
| Shipper.New | internal/auditsink/sink.go:275-335 | a new shipper over what a run left behind keeps the mark the file holds, as above |
| Shipper.ShipperIsSafe | internal/auditsink/sink.go:214-270 | whatever a shipper object has been through, the safety of runs holds of it |
| Segment.DecodeSegment | internal/assertion/assertion.go:813-833 | the alphabet loop and the strict library decoder compute the decoding |
| Segment.SegmentsAreBytes | internal/assertion/assertion.go:797-833 | encoding and decoding are inverse bijections between non-empty byte strings and accepted segments |
| Segment.NewlinesAreInvisible | internal/assertion/assertion.go:802-812 | the library decoder reads the same text with a newline or a carriage return put anywhere, which is what the alphabet loop is for |
| Segment.OnlyLetters | internal/assertion/assertion.go:817-827 | the loop over the alphabet finds exactly the texts that have letters only |
| Segment.ValueOfChar | internal/assertion/assertion.go:797-799 | the alphabet names every sextet once |
| Segment.DecodedPartsFixToken | internal/assertion/assertion.go:531-583 | a token text decodes to given parts exactly when it is the one text made of them |
| Segment.EncodersAgree | examples/python/client.py:96-98 | the client writes the same segment as the service |
| Segment.DecodersAgree | examples/python/client.py:101-118 | the client accepts exactly the segments the service accepts, with the same bytes |
| Naming.SortIsUnique | internal/assertion/assertion.go:250-252 | sorting has one result among keys no two different ones of which share an identifier, repeated keys included |
| Naming.BeforeIsLexicographic | internal/assertion/assertion.go:250-252 | the order of identifiers is the lexicographic one |
| Naming.PublishedKidsDistinct | internal/assertion/assertion.go:230-256 | published identifiers are distinct exactly when no two options share a key, and always with a single option |
| Naming.ListedTwiceIsPublishedTwice | internal/assertion/assertion.go:230-256 | one key given in two options is accepted and published twice |
| Assertion.SameKidSameKey | internal/assertion/assertion.go:471-475 | keys with one identifier are one key, or the hash has collided on their texts |
| Assertion.Issuer.AppendListed | internal/assertion/assertion.go:232-249 | a listing is taken exactly when its keys have the right size, are distinct, and leave out the signing key |
| Assertion.Issuer.WithRetiredKeys | internal/assertion/assertion.go:230-256 | a listing that is taken is published, sorted by identifier, beside what was there |
| Assertion.NewIssuer | internal/assertion/assertion.go:264-307 | an issuer is made exactly when key, issuer, lifetime, skew and every listing are acceptable, and it publishes the keys of all listings |
| Assertion.Issuer.Jwks | internal/assertion/assertion.go:423-434 | the document describes the signing key first and then each retired key in order |
| Assertion.DocumentIgnoresOrder | internal/assertion/assertion.go:230-256 | retired keys given in another order are taken or refused alike, and those taken, repetitions across options included, give the same document, or the hash collides on two of them |
| Assertion.ClaimsAssert | internal/assertion/assertion.go:366-389 | the claims carry the issuer, the subject, audience, tenant and factors of the ceremony, the whole seconds of issue, start and expiry, an identifier that decodes to the random bytes, the credential when there is one, and the assessment the last option gave |
| Assertion.HeaderNamesItsKid | internal/assertion/assertion.go:300-306 | a header names one key identifier |
| Assertion.Issuer.Issue | internal/assertion/assertion.go:345-398 | a token is issued exactly for a ceremony with subject, audience and known factors, and its claims assert that ceremony, by this issuer and at this instant; it is the token the continuity result is about |
| Assertion.LoadKeys | examples/python/client.py:402-437 | every key the client keeps has the right size and stands under its own thumbprint |
| Assertion.ClientHasPublishedKeys | examples/python/client.py:402-437 | from any published document, repetitions included, the client has a published key for exactly the published identifiers |
| Assertion.ClientFindsKey | examples/python/client.py:402-437 | a client has a key under its identifier exactly when it is published, or the document exhibits a hash collision |
| Assertion.TokenOutlivesRotation | internal/assertion/assertion.go:523-631 | an issued token verifies exactly when its key is in the document at hand, repeated or not, and the instant in the lifetime widened by the tolerance, unless the document exhibits a hash collision; what comes back are the claims issued, and they assert the ceremony |
| Assertion.LaterIssuerHonoursTokens | internal/assertion/assertion.go:230-307 | an issuer made later that lists the old key as retired, in one listing or in several, publishes a document the old tokens verify against for as long as they would have |
| Assertion.VerifyAcceptsExactly | internal/assertion/assertion.go:523-631 | a token verifies exactly when it is the one text of three parts that are genuine together: the key its identifier names signed the first two as sent, no critical extension, the pinned issuer and audience, and in time |
| Assertion.OneAudience | internal/assertion/assertion.go:593-611 | a token verifies for one audience and one issuer only, with the same claims whenever it does |
| Assertion.LifetimeIsCovered | internal/assertion/assertion.go:598-631 | in nanoseconds, a token under a published key verifies from its start to within a second of its expiry, both widened by the tolerance, unless the hash collides |
| Assertion.LifetimeEnds | internal/assertion/assertion.go:598-631 | outside that it is refused |
| RejectionTally.RejectionFolder.Observe | internal/api/auth.go:293-326 | observing moves the tally and the report exactly as specified, along some walk of the map |
| RejectionTally.RejectionFolder.Evict | internal/api/auth.go:335-353 | the eviction loop leaves the open runs, less the chosen one when there are still too many |
| RejectionTally.NothingIsLost | internal/api/auth.go:293-353 | for every source and every sequence of calls, refusals and credentials observed are those reported, plus those folded, plus those eviction discarded |
| RejectionTally.ReportIsBooked | internal/api/auth.go:293-326 | what is returned is what the books record as reported, and a report covers at least one refusal |
| RejectionTally.UnreportedOnlyWithinWindow | internal/api/auth.go:293-326 | a refusal goes unreported only when the same source was reported less than a window earlier, and with a clock that does not go back that report lies in the past |
| RejectionTally.FoldedExactlyWithinWindow | internal/api/auth.go:293-326 | while a source is held, its refusals are folded exactly while its last report is less than a window old |
| RejectionTally.FirstIsReported | internal/api/auth.go:322-325 | the first refusal of a source is reported at once, as one |
| RejectionTally.BoundIsKept | internal/api/auth.go:335-353 | one call keeps the map within its bound exactly when it does not meet a full map of open runs whose chosen key is the empty one |
| RejectionTally.NeverMoreThanMaximum | internal/api/auth.go:335-374 | with keys that name an event type, as recordRejection builds them, the map never exceeds its bound |
| RejectionTally.EmptyNameIsNeverEvicted | internal/api/auth.go:350-352 | calls from the start fill the map with the empty key as the oldest, and one more source then gets in |
| RejectionTally.ElapsedGoFirst | internal/api/auth.go:335-353 | an open run is dropped only when no elapsed one is left and there are too many, and then an oldest one unless the zero instant is involved |
| RejectionTally.AtMostOneOpenGoes | internal/api/auth.go:335-353 | below the bound nothing is dropped; at it every elapsed run is, and of the open ones at most one, when there are too many and the walk has not settled on the empty key |
| RejectionTally.ChoiceIsOldest | internal/api/auth.go:340-349 | the walk settles on an oldest run exactly when no run was opened at the zero instant or the one walked last was |
| RejectionTally.ZeroInstantIsPassedOver | internal/api/auth.go:340-349 | a run opened at the zero instant is passed over for a younger one |
| Rewrap.ResealKeepsPlaintext | internal/crypto/envelope/envelope.go:298-378 | resealing succeeds exactly where opening does, keeps the content under the same binding, leaves a current value alone and makes any other current |
| Rewrap.OpensExactly | internal/crypto/envelope/envelope.go:298-345 | a value opens exactly under a complete binding, a held key version and the binding it was sealed for |
| Rewrap.Store.Others | internal/api/bulk.go:386-403 | other requests are recorded move by move: a row counts as touched only when it was moved, and its origin is what they left there |
| Rewrap.Store.ListSealed | internal/store/sqlite/sealed.go:67-93 | a page is the listed rows past the cursor in order, without a gap as far as it reaches |
| Rewrap.Store.ReplaceSealed | internal/store/sqlite/sealed.go:101-143 | a value is written over only while it is still the one that was read; a missing row and a moved one are told apart |
| Rewrap.Pass.RewrapOne | internal/api/bulk.go:341-404 | the row read is accounted for: as it should be, gone or out of use, or counted as failed under the version it is still on; every row goes on holding what others last put there |
| Rewrap.Pass.WriteBack | internal/api/bulk.go:386-403 | the compare-and-swap lands only on the value that was read, so it never writes over what another request sealed |
| Rewrap.Pass.WalkPage | internal/api/bulk.go:281-283 | handling a page takes the walk as far as the page reaches, with everything on the way accounted for |
| Rewrap.Pass.WalkKind | internal/api/bulk.go:265-288 | the paging loop ends, at the end of the table unless it was interrupted |
| Rewrap.Pass.RewrapAll | internal/api/bulk.go:254-293 | the counts add up, no row is visited twice and every row holds what others last put there, however the pass ends; without an error every row in use is accounted for and every one others did not move was visited, and no version missing from the report seals a row in use; with nothing failed each row in use is current and opens, under its own binding, to what others last put there; with nobody else at work the rows written are exactly those listed that open and are not current, and the figures count them and the ones found current, and the versions reported are exactly those that seal a listed row |
| Rewrap.CleanPassRetiresKeys | internal/api/bulk.go:178-182 | the promise that nothing stored depends on an older key holds exactly when no revoked secret does |
| Rewrap.RevokedSecretIsPassedOver | internal/store/sqlite/sealed.go:36-42 | a revoked secret on an old key is not walked, and removing that key loses it |
| Rewrap.SortedVersions | internal/api/bulk.go:297-304 | the versions come out ascending, each once |
| Rewrap.AscendingIsUnique | internal/api/bulk.go:295-304 | there is only one such order, so two passes over the same versions answer alike |
| Approvals.SamePayloadIsAlike | internal/api/admin.go:1091-1113 | a stored document is taken for a presented payload exactly when it is an object or null and differs in the order of members, and in nothing else but numbers that round alike |
| Approvals.ReleasedAsApproved | internal/api/admin.go:983-1089 | in every interleaving an approval releases at most one operation, and it is the one its own requester asked for under it: a step of the run requested that name and document, a later one approved it before it expired and by a different principal, and a still later one checked it while it stood approved; it expires when the configured time from the request is over |
| Approvals.EveryApprovalIsDocumented | internal/api/admin.go:1007-1014 | in every run each approval came from a request step with its requester, name, document and lifetime, and each approved one was approved by a later step |
| Approvals.EveryAttemptWasChecked | internal/api/admin.go:1049-1071 | every attempt under way and every released operation was checked at some step of the run, against the approval as it stood there |
| Approvals.InvStep | internal/api/admin.go:885-1089 | every step keeps the invariant behind that |
| Approvals.NobodyDecidesAlone | internal/store/sqlite/approval.go:136-206 | a decision by any token of the requester's principal changes nothing |
| Approvals.RotationIsNoSecondPerson | internal/store/sqlite/approval.go:300-312 | a rotated token can decide exactly what the token it replaced could |
| Approvals.IssuedIsSecondPerson | internal/store/sqlite/approval.go:288-312 | in every run a token just issued can decide whatever its tenant has pending |
| Approvals.OnlyPendingExpires | internal/store/sqlite/approval.go:262-279 | expiry ends exactly what was pending past its time |
| Approvals.RepeatedRequestIsReleased | internal/api/admin.go:950-982 | asked, approved by another principal of the tenant and repeated in time, an operation is released, once, in whatever order the store hands the payload back |
| Approvals.ReleaseIsOldOrClaimed | internal/store/sqlite/approval.go:214-258 | an operation is released only by a claim that finds its approval approved and leaves it executed |
| Approvals.RefusedForAReason | internal/api/admin.go:1054-1067 | a redemption is refused exactly when some reason to refuse it holds, and for one that does |
| Approvals.Gatekeeper.DecideApproval | internal/api/admin.go:885-940 | a decision is recorded exactly on a pending, unexpired request of the caller's tenant raised by another principal; it sets that request's status and who decided when, and leaves every other request, token and release as it was |
| Approvals.Gatekeeper.RedeemApproval | internal/api/admin.go:1029-1089 | a redemption is refused exactly when a reason holds and then changes nothing; otherwise the claim decides among other requests, and with none it releases the operation and spends the approval |
| Approvals.Gatekeeper.ApprovalGate | internal/api/admin.go:983-1026 | an operation that is not gated passes untouched; without an approval it is held, and exactly what was asked, by whom and until when is queued and nothing else moves; with one it is held when a reason to refuse holds, and passes only with its own release, as it does when nobody interferes |
| Administrators.ReportedCutoffIsStored | internal/api/rotate.go:77-84 | the instant reported for the predecessor is the one the store leaves: the end of the grace, or its own expiry when that is sooner |
| Administrators.SuccessorOutlivesNothing | internal/api/rotate.go:299-322 | a successor has the same role and is usable exactly as long as its predecessor would have been, or as long as was asked; it is refused exactly for a lifetime out of bounds or past the predecessor's |
| Administrators.MintedIsUsable | internal/api/admin.go:1232-1284 | a new token has the role and the lifetime it was minted with, and no other token changes |
| Administrators.RevokeLeavesAnAdministrator | internal/api/admin.go:1363-1484 | in every run a guarded revocation never takes the full administrators of its own instant from some to none; nor, unless a rotation in between picked an expiry before it, those at the end of the longest grace; nor then, when the target outlives that, those of any instant before it, the write included |
| Administrators.RevokeEmptiesExactly | internal/api/admin.go:1438-1484 | in every run and for every instant from the guard's own on, the write included, the revocation empties it exactly when the target counts then and every other full administrator the first count saw, and every one minted or rotated in since, has an expiry or has been bounded by a rotation no later than it |
| Administrators.WriteRacesExpiry | internal/api/admin.go:1438-1484 | two administrators, one of them stopping between the count and the write that revokes the other: nobody is left at the instant of the write |
| Administrators.RevokeEmpties | internal/api/admin.go:1399-1436 | a revocation empties an instant exactly when its target is the only full administrator there |
| Administrators.OnlyTheGuardedAreRevoked | internal/api/admin.go:1363-1414 | a token is revoked only by a write whose guard was cleared for that token, and a rotation starts only from a usable one |
| Administrators.OneRotationInTheWindow | internal/api/admin.go:1470-1482 | with one rotation of any token and any grace between the count of an instant and the write, the instant is left empty exactly when nobody but the target and the rotated token counted, the successor does not, and the rotated token has stopped if it is not the target itself |
| Administrators.ShorteningEmpties | internal/api/admin.go:1470-1482 | when the rotated token is another and both counted, that is when they were alone and the rotation picked an expiry before the instant |
| Administrators.RevokeRacesRotation | internal/api/admin.go:1470-1482 | two administrators, one revoked while the other rotates onto a one-day token: a week on there is none |
| Administrators.RotationLowersNoCount | internal/api/rotate.go:250-323 | a rotation never lowers the number of full administrators usable at any instant the expiry it picks does not come before, the one it reaches the store at included |
| Administrators.PredecessorNeverCountsLater | internal/api/rotate.go:53-84 | in every run a rotated predecessor is not counted one maximum grace after any later instant |
| Administrators.GuardRefusesTheIndispensable | internal/api/admin.go:1453-1484 | the two counts refuse a token exactly when it is full and, at one of the two instants, usable with no other full one beside it |
| Administrators.AdminDesk.GuardLastFullAdministrator | internal/api/admin.go:1453-1484 | when the guard passes, a full target counts at neither instant or somebody else does, a shortening rotation aside; when it refuses, the target is full and a count of at most one was seen at an instant it counts at; with nobody else at work it refuses exactly then |
| Administrators.AdminDesk.RevokeAdminToken | internal/api/admin.go:1363-1414 | with other requests before the lock, between the counts and before the write, the handler writes only as the last step of a guarded run, refuses a full target only after a count of at most one at an instant it is usable at, and answers a listed token as missing only when it was revoked before the write; with nobody else at work a listed token is revoked, and nothing else changes, exactly when the guard can spare it |
| Administrators.AdminDesk.RotateOwnToken | internal/api/rotate.go:250-333 | the handler refuses exactly an overlap or a lifetime out of bounds; otherwise it replaces the token unless that was revoked meanwhile, the new identifier is taken or a day has passed, and leaves the successor, a predecessor good until the end of the grace, every other token as it was, and no fewer full administrators at the write and at the instant it was asked for |
| Administrators.DeskLeavesAnAdministrator | internal/api/admin.go:1363-1414 | both results on runs, the safe instants and the exact condition for every other, hold of what the handler writes |
| Tickets.OneCredentialPerTicket | internal/api/tickets.go:516-614 | in every run the usable credentials a ticket brought about are the one it was spent on and those still in hand or not taken back; without the latter there is at most one |
| Tickets.InvStep | internal/api/tickets.go:516-654 | every step keeps the invariant behind that |
| Tickets.LosersLeaveNothing | internal/api/tickets.go:548-577 | a refused redemption has left no usable credential unless taking it back failed or the process died |
| Tickets.OnlyLiveTicketsAreSpent | internal/store/sqlite/ticket.go:115-156 | a ticket is spent exactly when it is there, unspent, unrevoked and unexpired at the write |
| Tickets.SecondConsumerLoses | internal/store/sqlite/ticket.go:115-156 | of two completions that have both enrolled, the one that consumes second never redeems, however its write is answered |
| Tickets.UndoneUnlessLost | internal/api/tickets.go:627-654 | a credential being taken back stays usable exactly when its revocation never took effect, and beside a usable winner that makes two |
| Tickets.TwoCredentialsWhen | internal/api/tickets.go:548-577 | in every run a ticket has more than one usable credential exactly when one besides another is in hand or was not taken back |
| Tickets.DeathLeavesTwo | internal/api/tickets.go:545-579 | a run from the start in which a process dies between enrolment and undo leaves a ticket with two usable credentials |
| Tickets.LostUndoLeavesTwo | internal/api/tickets.go:639-643 | so does a run in which the revocation never reaches the store |
| Tickets.OneLiveTicketPerSubject | internal/store/sqlite/ticket.go:28-77 | a subject never holds two tickets that could both be redeemed |
| Tickets.ReplacementStands | internal/store/sqlite/ticket.go:28-77 | a new ticket can be redeemed until it lapses and ends whatever its subject held; nobody else's changes |
| Tickets.WithdrawnAndSwept | internal/store/sqlite/ticket.go:158-222 | withdrawing a ticket ends that one alone; a sweep takes away exactly what had lapsed |
| Tickets.StartedAndRevoked | internal/api/tickets.go:677-752 | a completion starts only on a ticket that can be redeemed then, and revoking a credential takes that one alone out of use |
| Tickets.Enrolment.UndoUnauthorisedEnrolment | internal/api/tickets.go:627-654 | the revocation either takes or leaves the credential recorded as left behind, and the request is over |
| Tickets.Enrolment.SpendOrUndo | internal/api/tickets.go:548-579 | a created reply means the ticket is spent on that credential; any other ending has taken it back or records it as left behind; with nobody else at work it is created exactly when the ticket can be redeemed at the write |
| Tickets.Enrolment.Complete | internal/api/tickets.go:516-614 | a completion is not found exactly when its ticket cannot be redeemed when read; a failed ceremony ends it without a credential and is the only such ending but a clash of identifiers; otherwise it ends as above with anything going on before enrolment, consumption and undo. With nobody else at work it is created exactly when the ceremony succeeded and the ticket is good at both looks, which leaves the credential usable and every other ticket and credential alone |

## Left out

- DeliverySafety.WitnessHasNoHole: holds given that retention trims only what the receiver already has, and that the receiver answers only for what it stored.
- Shipper.Shipper.CatchUp: progress is stated for a catch-up during which nothing is appended, offered, trimmed or lost. The class runs without interference; every interleaving is in the step system. A drop between the last read and the clearing of the flag is recovered, as in the code, only once a later append is drained, which `Shipper.Shipper.Flush` shows.
- Shipper.Shipper.Offer: the queue holds projected records where the code holds entries, and the compare-and-swap loop on the highest number is one assignment.
- Shipper.Shipper.Heartbeat: what a heartbeat says is not modelled, only that it acknowledges nothing.
- Shipper.Watermark.Set: temporary file, fsync and rename are one write that may report failure after taking effect.
- Records.WitnessAcceptsLog: the JSON text of a batch is not modelled; a record is its fields.
- Checkpoint.MarkerAttestsItsBoundary: a document is what its text parses to; the JSON grammar of a marker is not modelled.
- Segment.DecodersAgree: the library decoders both sides call are written out from section 5 of RFC 4648, because their code is not in the repository.
- Assertion.TokenOutlivesRotation: asks that a signature verifies under its own key and that the claims and header at hand survive the JSON codec, which invalid UTF-8 in a claim would not; instants and durations are unbounded. Unforgeability is not stated.
- Assertion.ClientHasPublishedKeys: members of a published entry are text or absent; entries of another JSON type are not modelled.
- Assertion.Issuer.Issue: the only claim option is the risk assessment, as in the code, and options are applied in order.
- RejectionTally.UnreportedOnlyWithinWindow: the saturation of time differences at 292 years is not modelled; it does not change a comparison with one minute.
- Rewrap.Pass.RewrapAll: other requests seal under the same ring, as replicas restarted with one keyring do. Cancellation and unreadable pages are one interruption. Ciphertext is symbolic. They insert, delete, revoke, reseal and clear rows; a row goes out of use for good unless it is sealed anew.
- Approvals.ReleasedAsApproved: token identifiers are generated, so no two are alike up to case and space. Numbers are reals with an arbitrary rounding. Requests that fail to be written change nothing. A null payload, which no caller passes, is handed back as it was given, where the store hands back an empty object.
- Administrators.RevokeLeavesAnAdministrator: one process holds the lock; a rotation does not take a day to reach the store; a target past the 500 tokens the store lists is refused in the code and may be revoked here.
- Administrators.SuccessorOutlivesNothing: the refusal of a token that holds a console passkey is not modelled.
- Tickets.OneCredentialPerTicket: completing a ceremony creates a credential or fails without one; the limiter's reservation is not modelled beyond one ending per request.
- Tickets.Enrolment.Complete: the secret half of a ticket, the subject's status and the checks before a ticket is issued are branches without state of their own.
- API keys rotate by the same store transaction as administrative tokens and add no case.
- HTTP plumbing, SQL, the two database engines, WebAuthn, TOTP, risk, throttling, configuration, key files and logging are not part of this model.
- Bulk credential revocation, erasure requests and alert listings are single conditional updates.
