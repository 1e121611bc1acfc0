# OstrichPKI: verified model

A Dafny model of the protocols and text algorithms at the core of OstrichPKI, with proofs of what
they guarantee. `dafny verify dfyconfig.toml` checks everything.

- **Audit log.** Any number of writers, in any number of services, run the database sink's `record`
  step by step: begin and take the chain lock, read the head, link, re-stamp, hash, sign, commit.
  Every step may fail or time out, the server may end a session and release the lock at any moment,
  and a commit may be applied although its caller gave up or was told that it failed. The committed
  rows, as the microsecond column holds them, always form one unforked chain with strictly
  increasing times. Success reports are true, failures before the commit wrote nothing, and a commit
  reported as failed wrote a row exactly when the server applied it. The original event times can be
  read back. Two logs that verify and end in the same hash are equal in everything the hash pins
  down, or hold a SHA-256 collision, or a year beyond 9999 where the other holds an earlier one.
  (`Rfc3339`, `AuditEvents`, `AuditSink`, `TamperEvidence`, `AuditChain`, `AuditReports`)
- **ACME.** newOrder writes, repeated challenge POSTs, the validation tasks they spawn and finalize
  interleave freely, one repository call per step. The status columns are neither atomic nor
  monotone, so the safety theorem does not rest on them: it carries the history of successful
  validations, and shows that nothing reaches the CA without proof of control of every identifier,
  and that every acceptable order can reach it. What the status "ready" does mean is stated exactly.
  Around it: identifier parsing, the list rules, challenge offers, the finalize checks, the CSR
  comparison and the SAN conversion to the CA; and new-account as a protocol of its own.
  (`IpAddresses`, `DnsNames`, `TxtMatch`, `Identifiers`, `Finalize`, `AcmeState`, `AcmeLifecycle`,
  `AcmeReadiness`, `AcmeRuns`, `AcmeProvenance`, `NewAccount`)
- **CA.** Revocations, full CRLs and delta CRLs interleave between their database calls: numbers are
  allocated as `MAX + 1` under a UNIQUE constraint. Approval requests are objects with whole-history
  invariants, and the approval gate of `issue` is a protocol of its own. (`Crl`, `CrlRuns`, `CrlHistory`,
  `Approval`, `IssuanceGate`)
- **Common.** The circuit breaker over whole call histories and between its two unguarded writes, the
  retry loop with its sleeps in closed form, alone and with many calls sharing one breaker, and the RFC 4514 printer with a reader that undoes it.
  (`GrpcClient`, `CircuitRaces`, `RetryRuns`, `DistinguishedName`)

Protocols are state machines: `Enabled`, `Next` and `After(events)`, the state after a run, `None`
when some event was not possible. Results quantify over every run. Objects that change in place
are classes whose methods are proved against functions on their value; the loops of the source
are loops with invariants.

## Where code and comments differ, and what was found

- **CRL window.** The comment on delta CRLs says that a delta lists what changed since the base's
  `this_update` (`crates/ostrich-ca/src/revocation.rs:706`). A full CRL reads the revoked certificates
  first and takes `this_update` later, and a revocation's `NOW()` is read before it commits. A
  certificate revoked in between is in neither the full CRL nor any delta on it. Later full CRLs list
  it exactly if they read the table after the revocation had committed (`CrlRuns.FullCrlIsExact`);
  generations already under way may omit it too. `CrlRuns.WindowHidesRevocation` is such a run, `CrlRuns.DeltaCompletesBase` the exact condition,
  `CrlRuns.QuietDeltasAreComplete` the case without overlap.
- **CRL overtaking.** Nothing serialises generations. One that read the table earlier can be stored
  later, with the larger number and the later `this_update`, and then the full CRL that supersedes
  (section 5.2.3 of RFC 5280) takes a revoked certificate off the list
  (`CrlRuns.OvertakenFullCrlUnlists`). A later full CRL lists all that an earlier one lists if and only
  if it did not read the table earlier (`CrlRuns.LaterFullCrlSupersedes`), as it always does when
  operations do not overlap (`CrlRuns.QuietFullCrlsSupersede`).
- **"Ready" is no proof.** The code says that an order is ready once all its authorizations are valid
  (`crates/ostrich-acme/src/rest.rs:1329-1333`). It keeps this exactly while no step takes one of four
  branches: a new or an invalidated authorization for an order that is already ready, or an order set
  to ready while an authorization is not valid (`AcmeReadiness.StepBreaksReadyExactly`,
  `AcmeReadiness.ThroughoutIffNeverBreaks`). Both kinds happen: a second POST fails after all were seen
  valid (`AcmeRuns.ReadyDoesNotMeanValid`; from any ready order, `AcmeReadiness.FailedPostUnsettlesReady`),
  or newOrder is overtaken and adds a pending authorization to a ready order
  (`AcmeRuns.PartialOrderBecomesReady`). Finalize reads every row again and refuses.
- **"Not written".** The comment in `record` says that on timeout or error the record is not written
  (`crates/ostrich-audit/src/sink.rs:397-399`), and an error of the commit is logged so. A connection
  lost while the server commits is such an error, and then the row may be there
  (`AuditChain.FailedCommitMayBeWritten`, with the exact condition in
  `AuditChain.FailedCommitWroteExactlyIfApplied`).
- **Years beyond 9999.** The hash covers the fields without lengths. The timestamp text at its end can
  still be told from what precedes it, unless one record is dated beyond year 9999 and the other
  whole ten thousands of years earlier (`Rfc3339.RenderSuffixDecodable`); that confusion is real
  (`TamperEvidence.LongYearsAreConfused`).
- **Breaker race.** `record_failure` and `record_success` update the counter outside the state lock. When
  a success and a failure that reaches the threshold overlap there, the circuit can stay open with a
  counter of zero (`CircuitRaces.OpenWithoutFailures`); without that overlap it cannot
  (`CircuitRaces.SeparateRunsAgree`, `CircuitRaces.OverlapCanDisagree`).
- **Backoff.** The doubled backoff wraps in 64 bits; `GrpcClient.BackoffIsSleepExactly` says for which
  configurations the sleeps are still the intended ones.
- **Approval use.** `mark_request_completed` does not look at the row it updates. An approval backs at
  most one successful issue among calls that do not overlap; overlapping calls may share one
  (`IssuanceGate.SharersOverlap`, `IssuanceGate.OverlappingIssuesBothSucceed`). A certificate is stored
  before the approval is marked, so a call that ends in between leaves the approval unused: without
  overlap a second certificate is stored only after such a call, and after such a call it can be
  (`IssuanceGate.SecondCertificateMeansLostMark`, `IssuanceGate.LostMarkAllowsSecond`).
- **Trailing space.** The printer tests for a trailing `\ ` to see whether a space is already escaped,
  which also holds for a value that itself ends in a backslash and a space, such as the one in
  `DistinguishedName.BareTrailingSpace`. Reading back is unaffected; conformance to section 2.4 of RFC 4514 fails for exactly those values and values with a NUL
  (`DistinguishedName.ConformsExactly`).
- **Order of TXT answers.** With two CNAME records for one owner only the first is followed, so the
  order of the answer section can decide (`TxtMatch.OrderMattersWithTwoTargets`).

## Model

| member | source | states |
|---|---|---|
| Rfc3339.CivilRoundTrip | crates/ostrich-audit/src/event.rs:303-341 | Days-to-calendar conversion is undone by calendar-to-days for every instant, with all fields in range (the dates behind the hashed timestamp text). |
| Rfc3339.YearStarts | crates/ostrich-audit/src/event.rs:303-341 | The calendar is the Gregorian one: the days before a year follow the closed form of its leap rule. |
| Rfc3339.InstantRoundTrip | crates/ostrich-audit/src/event.rs:303-341 | Every date and time that exists is the civil time of its instant; with `Rfc3339.CivilRoundTrip`, a bijection. |
| Rfc3339.UnixEpoch | crates/ostrich-audit/src/event.rs:303-341 | Midnight of 1 January 1970 is 62,167,219,200 seconds into the count. |
| Rfc3339.LeapDayText | crates/ostrich-audit/src/event.rs:303-341 | A leap-day time is written out in both renderings, which fixes every field, separator and width. |
| Rfc3339.ParseMicrosOfRendered | crates/ostrich-audit/src/sink.rs:562-567 | The microsecond text the sink writes as `occurred_at` reads back to the same instant, in any year. |
| Rfc3339.RenderInjective | crates/ostrich-audit/src/event.rs:303-341 | Two instants with the same RFC 3339 text, with 0, 3, 6 or 9 fraction digits and any year, are equal. |
| Rfc3339.RenderSuffixDecodable | crates/ostrich-audit/src/event.rs:303-341 | A text that ends in a rendered timestamp ends in exactly one, when the years are all up to 9999 or all beyond; otherwise the two readings are whole ten thousands of years apart and the text before differs by exactly the sign and first digits of the longer year. |
| Rfc3339.MyriadsAreAmbiguous | crates/ostrich-audit/src/event.rs:303-341 | For every two such instants the second reading is real: the longer text ends in the shorter one. |
| AuditEvents.DbRoundTrip | crates/ostrich-audit/src/sink.rs:321-371 | Loading the stored row gives back every event, type and outcome texts included. |
| AuditEvents.InColumns | crates/ostrich-audit/src/sink.rs:379-383 | The row the table holds is the inserted one exactly when its time is in whole microseconds. |
| AuditEvents.ComputeHash | crates/ostrich-audit/src/event.rs:303-341 | Feeding the hasher field by field digests exactly the concatenation of id, type, actor, target, action, outcome, optional fields, link and timestamp text of the row the event is stored as; that each of these counts is `TamperEvidence.EveryFieldIsHashed`. |
| AuditEvents.Sha256.UpdateIfSome | crates/ostrich-audit/src/event.rs:303-341 | An absent optional field feeds nothing, a present one its octets. |
| AuditSink.ChainTimestamp | crates/ostrich-audit/src/sink.rs:533-541 | The record's time is kept unless it is not after the head's, and the result is after the head. |
| AuditSink.ChainTimestampIsLeast | crates/ostrich-audit/src/sink.rs:526-541 | The chain time is the least microsecond time, not before the event, that may follow the head. |
| AuditSink.AuditEventRef.ApplyChainTimestamp | crates/ostrich-audit/src/sink.rs:562-602 | In place, the event becomes its re-stamped form: new time, original time under `occurred_at`, the caller's differing value moved, non-object details wrapped. |
| AuditSink.RestampKeepsEventTime | crates/ostrich-audit/src/sink.rs:543-602 | `occurred_at` is present exactly when the time was moved, and the original time is read back whatever the caller put there. |
| AuditSink.RestampKeepsDetails | crates/ostrich-audit/src/sink.rs:555-602 | Every other caller detail is kept; a differing caller `occurred_at` survives only as `caller_occurred_at`. |
| AuditSink.StoreKeepsHash | crates/ostrich-audit/src/sink.rs:379-385 | A record comes back from the database as it was exactly when its time is in whole microseconds, and then its hash recomputes. |
| TamperEvidence.ColumnChangesHash | crates/ostrich-audit/src/sink.rs:379-385 | A row whose time the column changes has other hashed octets: its stored hash recomputes only if the two rows collide. |
| TamperEvidence.EveryFieldIsHashed | crates/ostrich-audit/src/event.rs:303-341 | For each of id, event type, actor, target, action, outcome, details text, address, user agent, session, link and time: two rows that differ in the octets of that field alone have different preimages, so equal digests are a collision. |
| AuditSink.ExtendChain | crates/ostrich-audit/src/sink.rs:662-694 | Appending a record that links to the head, is later than it and carries its own hash keeps the log a chain. |
| AuditSink.LinkedFits | crates/ostrich-audit/src/sink.rs:378-489 | Linking, re-stamping, hashing and then signing always yields such a record. |
| AuditSink.SealNotHashed | crates/ostrich-audit/src/event.rs:303-341 | Hash, signature and key label are not hashed: rows that differ only in them have one preimage. |
| AuditSink.MemoryAuditSink.constructor | crates/ostrich-audit/src/sink.rs:628-634 | A new in-memory log is empty and a chain. |
| AuditSink.MemoryAuditSink.Record | crates/ostrich-audit/src/sink.rs:662-694 | The log stays a chain and grows by exactly the linked, re-stamped, hashed event with the signer's signature and key label; a failed signature stores nothing. |
| AuditSink.MemoryAuditSink.VerifyIntegrity | crates/ostrich-audit/src/sink.rs:696-723 | True exactly when every record links to its predecessor, the first to nothing, and every hash recomputes. |
| TamperEvidence.PreimageDecodes | crates/ostrich-audit/src/event.rs:303-341 | Equal hash preimages have equal ids, and equal timestamps and content up to the link, although no field is length-prefixed, unless a year beyond 9999 is confused with an earlier one. |
| TamperEvidence.PreimageDecodesLink | crates/ostrich-audit/src/event.rs:303-341 | With links of equal length they also have equal links, with the same exception. |
| TamperEvidence.LongYearsAreConfused | crates/ostrich-audit/src/event.rs:303-341 | The exception is real for every first record beyond year 9999: another record, dated whole ten thousands of years earlier, has the same preimage and verifies as well. |
| TamperEvidence.AgreeFromEnd | crates/ostrich-audit/src/sink.rs:696-723 | Two verified logs with the same last hash agree record by record from the end, or the first disagreement is a hash collision or a confusion of years, whose distance from the end is returned. |
| TamperEvidence.TamperEvident | crates/ostrich-audit/src/sink.rs:696-723 | Two verified logs of equal length with the same last hash have equal preimages, ids, links and times at every index, or some index holds two different preimages with one digest, or a year beyond 9999 on one side only. |
| AuditChain.NewestIsHead | crates/ostrich-db/src/repository/audit.rs:220-238 | The row `ORDER BY timestamp DESC LIMIT 1` selects is the last committed one. |
| AuditChain.OrderIsCommitOrder | crates/ostrich-db/src/repository/audit.rs:305-320 | Sorting the log by timestamp gives commit order. |
| AuditChain.CommitKeepsInv | crates/ostrich-db/src/repository/audit.rs:96-118 | A commit under the lock keeps the whole invariant: the head it links to is still the head. |
| AuditChain.OtherStepKeepsInv | crates/ostrich-audit/src/sink.rs:378-489 | So does every other step of every call: failures, timeouts, lost locks and commits reported as failed while their request is pending or applied. |
| AuditChain.ChainSafety | crates/ostrich-audit/src/sink.rs:378-489 | Over every run of any number of writers the committed rows, truncated by the column, are one unforked chain with strictly increasing times, timestamp order is chain order, and the verifier that reads them accepts. |
| AuditChain.ReportsAreTrue | crates/ostrich-audit/src/sink.rs:378-489 | Over every run no call wrote two rows; success means written; a failure to begin or to sign means not written; an unknown outcome or a failed commit means written exactly when the server applied it; the last check before the insert never refuses. |
| AuditReports.RowsAreSigned | crates/ostrich-audit/src/sink.rs:378-489 | Over every run each stored row carries the signature and key label that the signer answered for its call; a call reports a failed signature exactly when the signer gave none, and then wrote nothing. |
| AuditReports.ReportsFollowEvents | crates/ostrich-audit/src/sink.rs:378-489 | Over every run a call reports a failure to begin or an unknown outcome exactly when that happened to it, and success when the server applied its commit and the answer arrived. |
| AuditReports.AnswerFreesTheLock | crates/ostrich-db/src/repository/audit.rs:96-118 | Over every run a call whose commit the server has answered, applied or refused, no longer holds the chain lock. |
| AuditChain.FailedCommitWroteExactlyIfApplied | crates/ostrich-audit/src/sink.rs:450-467 | Over every run a call that reported a failed commit wrote a row exactly when the server processed its commit, and then the report came from an error and not from the server, whose refusals write nothing. |
| AuditChain.FailedCommitMayBeWritten | crates/ostrich-db/src/repository/audit.rs:96-118 | From every reachable state with the lock free there is a run that writes the event and reports a failed commit. |
| AuditChain.LogOnlyGrows | crates/ostrich-audit/src/sink.rs:378-489 | Rows are never changed or removed and a report, once made, stands. |
| AuditChain.EventTimesKept | crates/ostrich-audit/src/sink.rs:533-602 | Over every run the original time is read back from every row, `occurred_at` marks exactly the moved rows, and a row is moved only when its time was not after the row before. |
| AuditChain.DetailsKept | crates/ostrich-audit/src/sink.rs:555-602 | Over every run each row keeps its caller's other details, and a caller's differing `occurred_at` never stands under that key. |
| AuditChain.UncontendedCallCommits | crates/ostrich-audit/src/sink.rs:378-489 | From any reachable state with the lock free, a call that meets no failure appends exactly its linked and signed event and reports success. |
| IpAddresses.EmbeddedIsPrefixTest | crates/ostrich-acme/src/identifier.rs:209-215 | The segment test equals membership in ::ffff:0:0/96 or in ::/96 without :: and ::1. |
| DnsNames.JoinSplit | crates/ostrich-acme/src/validation.rs:376-381 | Splitting at dots and rejoining gives the text back. |
| DnsNames.SplitJoin | crates/ostrich-acme/src/validation.rs:376-381 | Joining dot-free labels and splitting gives the labels back. |
| DnsNames.NoViolationIffIdentifier | crates/ostrich-acme/src/validation.rs:362-390 | The early checks (empty, trailing dot) refuse nothing the label rules would accept: a violation is absent exactly for identifiers in the declarative sense. |
| DnsNames.IdentifierIsLabels | crates/ostrich-acme/src/validation.rs:362-390 | Acceptable means: at most 253 octets, no address literal, and labels joined by dots, each of 1 to 63 letters, digits and inner hyphens, the last not all digits. |
| DnsNames.DnsIdentifierViolation | crates/ostrich-acme/src/validation.rs:362-390 | The label loop reports the specified violation, and none exactly for acceptable identifiers. |
| DnsNames.WireLenOfSplit | crates/ostrich-acme/src/validation.rs:450-475 | A name takes its text length plus two octets on the wire, however it splits into labels. |
| DnsNames.Dns01QueryNameExact | crates/ostrich-acme/src/validation.rs:450-475 | The dns-01 query name exists for exactly the acceptable identifiers of at most 237 octets; its labels after `_acme-challenge` rejoin to the identifier, and it takes 18 octets more on the wire. The address error is given exactly for address literals. |
| DnsNames.LongIdentifiersHaveNoQueryName | crates/ostrich-acme/src/identifier.rs:88-97 | An acceptable identifier of 238 to 253 octets fits the wire itself but has no query name. |
| TxtMatch.NothingNewAfterStop | crates/ostrich-acme/src/validation.rs:651-667 | Once the walk meets a name it has seen, or no CNAME, further hops reach no new owner. |
| TxtMatch.OwnersAreReachable | crates/ostrich-acme/src/validation.rs:651-667 | The names collected by the walk are exactly the owners reachable within the hop limit. |
| TxtMatch.TxtAnswersMatch | crates/ostrich-acme/src/validation.rs:644-681 | True exactly when some TXT record's concatenated strings equal the digest and its owner is the query name or at most eight first-CNAME hops from it. |
| TxtMatch.CaseDoesNotMatter | crates/ostrich-acme/src/validation.rs:644-681 | The letter case of the query name, the owners and the CNAME targets never changes a match. |
| TxtMatch.ChainsOfEight | crates/ostrich-acme/src/validation.rs:644-681 | For every chain of different names, a digest below its last name is found exactly when the chain has at most eight hops. |
| TxtMatch.AppendingKeepsMatch | crates/ostrich-acme/src/validation.rs:644-681 | Appending records never turns a match into a non-match. |
| TxtMatch.OrderDoesNotMatter | crates/ostrich-acme/src/validation.rs:644-681 | When no owner the walk can reach has two CNAME targets, sections with the same records match alike, whatever the other owners have. |
| TxtMatch.OrderMattersWithTwoTargets | crates/ostrich-acme/src/validation.rs:656-660 | For any three different names and any digest, two targets for one owner and a digest below one of them match in one order and not in the other. |
| Identifiers.ParseKeepsIdentifier | crates/ostrich-acme/src/identifier.rs:121-206 | A parsed identifier writes back to the order's own identifier: nothing is lost but the split of a leading `*.`. |
| Identifiers.ParsesExactly | crates/ostrich-acme/src/identifier.rs:121-206 | What is accepted and as what, in full: names of at most 253 octets without `*`; wildcards of a dotted base of at most 237 octets; canonical address texts outside ::ffff:0:0/96 and ::/96. |
| Identifiers.RefusedExactly | crates/ostrich-acme/src/identifier.rs:121-206 | Which error a refused identifier gets: unsupported for other types, rejected for a misplaced `*`, a single-label wildcard or an embedded IPv4 address, malformed for the rest. |
| Common.ToLowerFolds | crates/ostrich-acme/src/identifier.rs:249-258 | Lower-casing equates exactly the texts that are equal letter by letter up to ASCII case. |
| Identifiers.KeyDeterminesIdentifier | crates/ostrich-acme/src/identifier.rs:249-258 | Two accepted identifiers have the same key if and only if they have the same type and the same text up to ASCII case. |
| Identifiers.OffersArePermitted | crates/ostrich-acme/src/rest.rs:1227-1247 | Every offered challenge is permitted, and for wildcards and addresses the offered set is exactly the permitted one. |
| Identifiers.PermittedExactly | crates/ostrich-acme/src/rest.rs:1227-1247 | A challenge may validate an authorization exactly when it is dns-01 for a wildcard, http-01 for an address and the stored value has no `*`. |
| Identifiers.ChallengeTypes | crates/ostrich-acme/src/identifier.rs:88-97 | Every authorization is offered at least one challenge. |
| Identifiers.ValidateOrderIdentifiers | crates/ostrich-acme/src/identifier.rs:235-265 | Accepts exactly the lists of 1 to 100 entries that all parse with pairwise distinct keys, returns the parses in order, and otherwise reports the first refused entry's error. |
| Identifiers.AcceptedKeysOneToOne | crates/ostrich-acme/src/identifier.rs:235-265 | In an accepted list, different positions have different keys and differ in type or in value beyond case. |
| Finalize.BindRows | crates/ostrich-acme/src/rest.rs:1477-1539 | Removing keys from the expected set row by row succeeds exactly when the rows' keys are a permutation of the identifiers' keys. |
| Finalize.CheckOrderFinalizable | crates/ostrich-acme/src/rest.rs:1477-1539 | Accepts exactly when the order is ready and unexpired, every identifier has exactly one row and every row is some identifier's, every row is valid and unexpired, and each address row has a challenge in the list with its id, type http-01 and status valid; not-ready or unauthorized otherwise, each exactly when stated. |
| Finalize.VerdictExactly | crates/ostrich-acme/src/rest.rs:1477-1539 | The verdict by its first failing guard, each guard in plain terms. |
| Finalize.BindingIsOneToOne | crates/ostrich-acme/src/rest.rs:1490-1513 | The binding is a bijection: every identifier has exactly one row of its type, case-folded base value and wildcard flag, and every row is some identifier's. |
| Finalize.VerdictIgnoresOrder | crates/ostrich-acme/src/rest.rs:1477-1539 | Verdict and error kind do not change under any permutation of identifiers, rows or challenges. |
| Finalize.ValidateCsrIdentifiers | crates/ostrich-acme/src/rest.rs:1389-1432 | Accepts exactly when every SAN is a DNS or address name of some identifier of the order, DNS names up to ASCII case, and every identifier is named by some SAN. |
| Finalize.ConvertSansToProto | crates/ostrich-acme/src/ca_integration.rs:239-274 | The loop forwards exactly the SANs with a known prefix, in order. |
| Finalize.DerivedCnIsFirstUsable | crates/ostrich-acme/src/ca_integration.rs:224-236 | The derived CN is the text of the first DNS SAN of 1 to 64 octets, and is absent only when there is none. |
| Finalize.SubjectIsKept | crates/ostrich-acme/src/ca_integration.rs:201-236 | An empty subject gets the derived CN, any other is forwarded unchanged. |
| Finalize.CaReadsExactly | crates/ostrich-ca/src/grpc.rs:276-295 | For an accepted CSR the CA reads one name for each SAN: the DNS name or the address of an identifier of the order, and every identifier is read. |
| Finalize.AcceptedCsrForwarded | crates/ostrich-acme/src/ca_integration.rs:201-274 | When the CSR is accepted no SAN is dropped, every forwarded name is DNS or IP, the CA's conversion cannot fail, the forwarded set is the order's identifiers up to DNS case, and a CN derived for an empty subject is one of them with 1 to 64 octets. |
| Finalize.OrderAddressParses | crates/ostrich-ca/src/grpc.rs:276-295 | An IP SAN that names an identifier of an acceptable order is an address the CA's conversion parses. |
| AcmeState.JustifiedStays | crates/ostrich-acme/src/rest.rs:1541-1657 | What justified a CA call is never undone by later history. |
| AcmeState.TaskInvStays | crates/ostrich-acme/src/rest.rs:1250-1336 | What a handler has read stays usable whatever the others do. |
| AcmeLifecycle.NewOrderKeepsInv | crates/ostrich-acme/src/rest.rs:698-808 | Every newOrder write, and stopping after any of them, keeps the invariant. |
| AcmeLifecycle.NewRowsAreThese | crates/ostrich-acme/src/rest.rs:698-808 | newOrder writes a pending order with the request's identifiers, a pending authorization of it and a pending challenge of that; orders and authorizations live seven days. |
| AcmeLifecycle.ValidationKeepsInv | crates/ostrich-acme/src/rest.rs:1054-1336 | Every step of a challenge POST and its validation, failed writes and lost replies included, keeps the invariant; an authorization becomes valid only after a proof by a permitted challenge. |
| AcmeLifecycle.FinalizeKeepsInv | crates/ostrich-acme/src/rest.rs:1541-1657 | Every step of finalize keeps the invariant; a CA call is justified by the history before it. |
| AcmeLifecycle.RunKeepsInv | crates/ostrich-acme/src/rest.rs:698-1657 | The invariant holds in every reachable state. |
| AcmeLifecycle.IssuanceSafety | crates/ostrich-acme/src/rest.rs:1541-1657 | Over every run, each CA call is made for the order's own account, forwards every SAN, each naming an identifier of its order and each read by the CA as such, and every identifier has its own authorization of that order, read as valid and unexpired and proven earlier for that account by a permitted challenge (dns-01 for wildcards; http-01 for addresses, with a valid http-01 challenge read again at finalize); an order with missing authorizations is never issued. |
| AcmeProvenance.EveryCallHasAPast | crates/ostrich-acme/src/rest.rs:1541-1657 | Over every run, each CA call belongs to one finalize: begun by an account for an order with these SANs and this subject, which then read the order as it stood and found the account to be the order's, listed the order's authorizations, passed the checks and sent this call, in this order of events. |
| AcmeProvenance.CallerOwnsTheOrder | crates/ostrich-acme/src/rest.rs:1581-1586 | So the account that posted finalize is the account of the order as stored when it was read. |
| AcmeProvenance.ValidMeansIssued | crates/ostrich-acme/src/ca_integration.rs:69-165 | Over every run an order is valid only if the CA was called for it. |
| AcmeReadiness.StepBreaksReadyExactly | crates/ostrich-acme/src/rest.rs:1329-1333 | For every step from a state that satisfies the invariant: "ready means all valid" is kept if and only if the step takes none of the four failing branches, which are told by what is stored before it. |
| AcmeReadiness.ThroughoutIffNeverBreaks | crates/ostrich-acme/src/rest.rs:1329-1333 | Over every run, a ready order has only valid authorizations at every moment if and only if no step takes a failing branch. |
| AcmeReadiness.UndisturbedReadyMeansValid | crates/ostrich-acme/src/rest.rs:1329-1333 | Over every run in which no authorization of the order is invalidated and none is added after all were listed valid, ready implies all valid. |
| AcmeReadiness.FailedPostInvalidates | crates/ostrich-acme/src/rest.rs:1054-1155 | From every reachable state, any stored challenge can be posted and fail: its authorization becomes invalid and no order changes. |
| AcmeReadiness.FailedPostUnsettlesReady | crates/ostrich-acme/src/rest.rs:1130-1155 | So from every reachable state a ready order can be left ready with an invalid authorization. |
| AcmeReadiness.LostReplyFails | crates/ostrich-acme/src/rest.rs:1329-1336 | A ready write whose reply is lost leaves the order ready while its validation goes on to fail. |
| AcmeRuns.ReadyDoesNotMeanValid | crates/ostrich-acme/src/rest.rs:1329-1333 | For every acceptable order and any of its authorizations, a run in which the order becomes ready after that authorization was invalidated, and finalize refuses it. |
| AcmeRuns.PartialOrderBecomesReady | crates/ostrich-acme/src/rest.rs:745-790 | For every acceptable order of two or more identifiers and any proper part of newOrder's writes, a run in which the part is proven, the order becomes ready, and newOrder adds a pending authorization. |
| AcmeRuns.AcceptableIsProvable | crates/ostrich-acme/src/identifier.rs:88-97 | In every acceptable order the first offered challenge of each authorization may validate it. |
| AcmeRuns.ChallengeIsAnswered | crates/ostrich-acme/src/rest.rs:1250-1336 | From every reachable state a permitted challenge can be posted and answered: it and its authorization become valid and no order changes. |
| AcmeRuns.ProvenOrderReachesCa | crates/ostrich-acme/src/rest.rs:1541-1657 | For every acceptable order, addresses and wildcards included, and every CSR that names exactly its identifiers, there is a run in which it is proven and its finalize reaches the CA, safely, with those SANs and that subject, for the account that ordered. |
| AcmeRuns.ProvenOrderIsIssued | crates/ostrich-acme/src/ca_integration.rs:69-165 | And the run goes on until the order is valid. |
| NewAccount.OneAccountPerKey | crates/ostrich-acme/src/rest.rs:583-663 | Over every run a key has at most one account and every 200 or 201 for the key names it. |
| NewAccount.CreatedOnce | crates/ostrich-acme/src/rest.rs:614-663 | Over every run at most one call per key is answered 201. |
| NewAccount.CreatorsWereAllowed | crates/ostrich-acme/src/rest.rs:602-619 | Every account was created by a call for its key that agreed to the terms and did not ask for existing accounts only. |
| NewAccount.RefusalsFollowTheRequest | crates/ostrich-acme/src/rest.rs:606-619 | accountDoesNotExist answers only lookups of existing accounts, userActionRequired only creations without agreement. |
| NewAccount.LaterCallsFindIt | crates/ostrich-acme/src/rest.rs:595-604 | Once a key has an account it stays, and every call for the key that arrives later is answered with it and 200, unless a query of that call fails in the run, or still waits. |
| NewAccount.LookUpDecides | crates/ostrich-acme/src/rest.rs:595-619 | The first lookup decides: a key with an account gets it; without one, accountDoesNotExist if only an existing account was asked for, else userActionRequired without agreement, else an insert. |
| NewAccount.AnswerIsDecided | crates/ostrich-acme/src/rest.rs:595-663 | Over every run each call that has looked up stands where its lookup, at some moment of the run, put it, or its query failed. |
| NewAccount.ErrorsAreFailures | crates/ostrich-acme/src/rest.rs:614-663 | Over every run a server error means that a query of that call failed, or that its insert failed or was refused and it then found no account for its key. |
| NewAccount.RaceLoserIsAnswered | crates/ostrich-acme/src/rest.rs:633-643 | A call that loses the insert race is answered with the winner's account. |
| NewAccount.FirstCallCreates | crates/ostrich-acme/src/rest.rs:614-663 | A call alone with a new key inserts exactly its account and is answered 201. |
| Crl.FromI32 | crates/ostrich-x509/src/parser.rs:1298-1312 | Reason codes 0 to 10 except 7 are read, each to the reason with that code. |
| Crl.MaxNumber | crates/ostrich-db/src/repository/crl.rs:118-134 | The largest stored number, 0 for none. |
| Crl.LatestFull | crates/ostrich-db/src/repository/crl.rs:84-111 | The full CRL with the largest number; absent exactly when there is no full CRL. |
| Crl.ListedExactly | crates/ostrich-ca/src/revocation.rs:498-517 | The list of a log holds exactly the revocations that qualify, each with its own time and reason. |
| Crl.SelectionIsListed | crates/ostrich-ca/src/revocation.rs:498-517 | Filtering the certificate table gives exactly the entries of the committed revocations, later than the base's time for a delta. |
| Crl.InsertAppends | crates/ostrich-db/src/repository/crl.rs:44-77 | The insert under UNIQUE appends the next number or is refused. |
| Crl.DeltaFindsLatestFull | crates/ostrich-ca/src/revocation.rs:687-720 | A delta starts from the stored full CRL with the largest number, with that number and time, and without one is not generated. |
| Crl.GenerationKeepsItsReads | crates/ostrich-ca/src/revocation.rs:492-609 | From its reads to the store a generation keeps base, entries, number and time as read. |
| Crl.StepKeepsInv | crates/ostrich-ca/src/revocation.rs:284-800 | Every step of every revocation and generation keeps the invariant of tables, generations in progress and stored CRLs. |
| CrlRuns.NumbersAreContiguous | crates/ostrich-ca/src/revocation.rs:522-531 | Over every run stored numbers are 1, 2, 3, ... in store order and `this_update` strictly increases with them. |
| CrlRuns.StoreTakesNextNumber | crates/ostrich-ca/src/revocation.rs:592-609 | A store succeeds exactly when its number is the current maximum plus one, and otherwise stores nothing. |
| CrlRuns.FullCrlIsExact | crates/ostrich-ca/src/revocation.rs:492-609 | Over every run a full CRL lists exactly the certificates whose revocation had committed when it read the table, times and reasons unchanged; no revocation that commits later is in it. |
| CrlRuns.LaterFullCrlSupersedes | crates/ostrich-ca/src/revocation.rs:492-609 | Over every run, of two full CRLs the one with the larger number and later `this_update` lists all that the other lists if and only if it did not read the table earlier, and then with the same times and reasons. |
| CrlRuns.DeltaCompletesBase | crates/ostrich-ca/src/revocation.rs:687-784 | Over every run a delta refers to a stored full CRL with a smaller number, shares no certificate with it, and together they are exactly the certificates revoked so far if and only if no revocation that committed after the base read the table is dated up to the base's `this_update`; what is missing is exactly those. |
| CrlRuns.QuietDeltasAreComplete | crates/ostrich-ca/src/revocation.rs:284-784 | In every run without overlapping operations a delta and its base are disjoint and together exactly the certificates revoked so far. |
| CrlRuns.QuietFullCrlsSupersede | crates/ostrich-ca/src/revocation.rs:492-609 | In every run without overlapping operations a later full CRL lists all that an earlier one lists. |
| CrlRuns.WindowHidesRevocation | crates/ostrich-ca/src/revocation.rs:498-541 | A run in which a certificate revoked between the table read and `this_update` is in neither the full CRL nor the delta on it. |
| CrlRuns.OvertakenFullCrlUnlists | crates/ostrich-ca/src/revocation.rs:498-609 | For every serial and reason, a run whose full CRL 2 omits a revocation that full CRL 1 lists. |
| CrlHistory.RevocationsWereCommitted | crates/ostrich-db/src/repository/certificate.rs:160-180 | Over every run each revocation in force was begun with its time and reason and committed later with nothing ending it in between: a failed one is never in force. |
| CrlHistory.CommitRevokes | crates/ostrich-db/src/repository/certificate.rs:160-180 | From every reachable state the commit of a revocation of an issued certificate leaves it revoked, by it exactly when it was not revoked before. |
| CrlHistory.ReportedIsStored | crates/ostrich-ca/src/revocation.rs:592-609 | Over every run a generation reports a stored CRL exactly when its insert was applied and the reply arrived; one that failed stays failed. |
| Approval.Permitted | crates/ostrich-ca/src/approval.rs:331-396 | A user may decide exactly when not the requestor, holding the permission, on a pending and unexpired request; the first failed check names the error. |
| Approval.ReloadKeepsAllButDecisions | crates/ostrich-ca/src/approval.rs:479-508 | Writing a request to its record and reading it back loses the decision list and nothing else. |
| Approval.RunIsSound | crates/ostrich-ca/src/approval.rs:407-474 | Over every run of decisions, completions, expiry checks and reloads: inconclusive decisions then at most one approval or rejection, status agreeing with the last, none by the requestor, each by a holder of the permission, stamps agreeing with the status. |
| Approval.StatusMovesExactly | crates/ostrich-ca/src/approval.rs:407-474 | Every move of the status and its reason: approved or rejected by a permitted decision to that effect, expired only past the deadline, completed only from approved; nothing else moves it. |
| Approval.DecisionsAreRecorded | crates/ostrich-ca/src/approval.rs:407-450 | A recorded decision is the one made: who, what, why, when; an approval is stamped, nothing else changes. |
| Approval.DecisionsAreTheHistory | crates/ostrich-ca/src/approval.rs:407-450 | Between reloads the object's own list is the whole history. |
| Approval.ConclusionsStand | crates/ostrich-ca/src/approval.rs:340-366 | A request that is no longer pending records no decision, and its status stands except that approved may become completed. |
| Approval.NothingDecidedAfterDeadline | crates/ostrich-ca/src/approval.rs:314-316 | After the deadline nothing is decided, whether or not the expiry check ever ran. |
| Approval.CompletedWasApproved | crates/ostrich-ca/src/approval.rs:454-467 | A completed request was approved by someone other than its requestor who held the permission. |
| Approval.ApprovalRequest.CanApprove | crates/ostrich-ca/src/approval.rs:331-364 | The checks decide as specified, error included. |
| Approval.ApprovalRequest.CanReject | crates/ostrich-ca/src/approval.rs:372-396 | The same for rejection. |
| Approval.ApprovalRequest.AddDecision | crates/ostrich-ca/src/approval.rs:407-450 | The object takes the specified step; a refused decision changes nothing. |
| Approval.ApprovalRequest.MarkCompleted | crates/ostrich-ca/src/approval.rs:454-467 | Only an approved request is completed, with certificate and time. |
| Approval.ApprovalRequest.ExpireIfNeeded | crates/ostrich-ca/src/approval.rs:470-474 | Exactly a pending request past its deadline expires. |
| Approval.ApprovalRequest.FromRecord | crates/ostrich-ca/src/approval.rs:479-508 | Rebuilds the request from its record; unknown texts read as pending and issuance. |
| Approval.ApprovalEngine.CreateRequest | crates/ostrich-ca/src/approval.rs:534-543 | A created request is new, pending and expires a lifetime after now. |
| Approval.ApprovalEngine.Approve | crates/ostrich-ca/src/approval.rs:556-590 | On success the request is approved with exactly the returned decision appended; otherwise unchanged with the check's error. |
| Approval.ApprovalEngine.Reject | crates/ostrich-ca/src/approval.rs:599-635 | The same for rejection, under its own permission. |
| IssuanceGate.Gate | crates/ostrich-ca/src/issuance.rs:515-584 | A row passes exactly when it exists, reads as approved, is for issuance and names no certificate. |
| IssuanceGate.RefusalsInOrder | crates/ostrich-ca/src/issuance.rs:515-584 | Which refusal a row gets: not found, not approved, wrong type, already used, by the first that applies. |
| IssuanceGate.MarkedIsUsed | crates/ostrich-db/src/repository/approval.rs:174-199 | A marked row is completed with its certificate, otherwise unchanged, and refused whatever is written to its status. |
| IssuanceGate.MarkedIsRefused | crates/ostrich-ca/src/issuance.rs:515-584 | Over every run, once an approval has been marked, by a call whose reply arrived or not or by anyone else, no call that reads it afterwards passes. |
| IssuanceGate.IssuesAreApproved | crates/ostrich-ca/src/issuance.rs:509-584 | Over every run a successful issue read an approved, unused issuance approval and marked it afterwards. |
| IssuanceGate.SharersOverlap | crates/ostrich-ca/src/issuance.rs:843-863 | Over every run two successful issues on one approval each read it before the other marked it, and issued different certificates. |
| IssuanceGate.ApprovalIsUsedOnce | crates/ostrich-ca/src/issuance.rs:509-863 | In every sequential run each approval backs at most one successful issue; certificates stored by calls that fail are the subject of `IssuanceGate.SecondCertificateMeansLostMark`. |
| IssuanceGate.SecondCertificateMeansLostMark | crates/ostrich-ca/src/issuance.rs:843-863 | In every sequential run, when two certificates are stored on one approval, the call behind the earlier one ended between storing and marking. |
| IssuanceGate.ApprovalHasOneCertificate | crates/ostrich-ca/src/issuance.rs:843-863 | In every sequential run in which no call ended there, each approval has at most one stored certificate, successful or not. |
| IssuanceGate.LostMarkAllowsSecond | crates/ostrich-ca/src/issuance.rs:843-863 | From every reachable sequential state in which a call is about to mark a usable approval, its end there leads to a second stored certificate, sequentially. |
| IssuanceGate.TwoCertificatesWithoutMark | crates/ostrich-ca/src/issuance.rs:843-863 | From every reachable sequential state at rest a usable approval can get two stored certificates while neither call has succeeded. |
| IssuanceGate.UndisturbedIssueSucceeds | crates/ostrich-ca/src/issuance.rs:509-863 | From any reachable state an approved, unused approval backs an undisturbed issue, and its row then names the certificate. |
| IssuanceGate.OverlappingIssuesBothSucceed | crates/ostrich-db/src/repository/approval.rs:174-199 | Two calls that both read an unused approval before either mark both succeed. |
| GrpcClient.StateIsHistory | crates/ostrich-common/src/grpc_client.rs:266-322 | Over every history the breaker is closed exactly when the failures since the last success are fewer than max(1, threshold); otherwise open since the last failure until a request comes a timeout later, then half-open. |
| GrpcClient.ProbeDecides | crates/ostrich-common/src/grpc_client.rs:299-322 | One failure after a half-open probe reopens the breaker; one success resets it completely. |
| GrpcClient.RefusedExactly | crates/ostrich-common/src/grpc_client.rs:278-296 | Over every history a request at `now` is refused exactly when the timeout is positive, the failures since the last success have reached max(1, threshold), `now` is before the time of the last failure plus the timeout, and so was every request since. |
| GrpcClient.CircuitBreaker.IsRequestAllowed | crates/ostrich-common/src/grpc_client.rs:278-296 | The object takes the specified step and admits as specified. |
| GrpcClient.CircuitBreaker.RecordSuccess | crates/ostrich-common/src/grpc_client.rs:299-303 | Closes and forgets the failures. |
| GrpcClient.CircuitBreaker.RecordFailure | crates/ostrich-common/src/grpc_client.rs:308-322 | Counts, and opens at the threshold. |
| GrpcClient.NextSleep | crates/ostrich-common/src/grpc_client.rs:473-474 | Doubling under the cap, step by step, is min(initial * 2^k, cap) when nothing wraps. |
| GrpcClient.BackoffIsSleepExactly | crates/ostrich-common/src/grpc_client.rs:473-474 | In 64-bit arithmetic every sleep is min(initial * 2^k, cap), after the first, if and only if the initial backoff is zero, or the cap is below 2^63 and the initial backoff is too or wraps to the cap or more. |
| GrpcClient.WithRetry | crates/ostrich-common/src/grpc_client.rs:428-478 | A refused call attempts and records nothing; an admitted one makes the attempts up to the first that ends it, 1 to max(1, max_retries), sleeps the initial backoff and then the doubled one in 64 bits, which is min(initial * 2^k, cap) when it fits, answers with the last attempt and records exactly one outcome. |
| GrpcClient.EndsExactly | crates/ostrich-common/src/grpc_client.rs:483-491 | The loop goes on only after the four transient codes, while attempts remain. |
| RetryRuns.EachCallRecordsOnce | crates/ostrich-common/src/grpc_client.rs:428-478 | Over every interleaving of calls on one shared breaker: a refused call records nothing, an admitted one nothing while it tries and exactly its own outcome after 1 to max(1, max_retries) attempts, and the breaker is what all these make it. |
| RetryRuns.ArrivalsAreJudged | crates/ostrich-common/src/grpc_client.rs:428-440 | Over every interleaving whoever arrives is turned away exactly when the recorded outcomes of all calls say so, in the terms of `GrpcClient.RefusedExactly`. |
| RetryRuns.StopsWhereTheLoopEnds | crates/ostrich-common/src/grpc_client.rs:428-478 | A call stops trying exactly where the retry loop does, with that attempt's result. |
| CircuitRaces.WholeCallsAreSteps | crates/ostrich-common/src/grpc_client.rs:299-322 | A recording call that nothing comes between does what the one-step breaker does. |
| CircuitRaces.SeparateRunsAgree | crates/ostrich-common/src/grpc_client.rs:299-322 | Over every interleaving of the halves of all calls in which no success overlaps a failure that reached the threshold, the circuit is closed exactly when the counter is below max(1, threshold), whenever nothing is in flight. |
| CircuitRaces.OverlapCanDisagree | crates/ostrich-common/src/grpc_client.rs:299-322 | From every reachable state with that overlap some continuation ends with nothing in flight and state and counter in disagreement. |
| CircuitRaces.OpenWithoutFailures | crates/ostrich-common/src/grpc_client.rs:299-322 | For every threshold there is a run that ends with an open circuit and a counter of zero. |
| DistinguishedName.EscapeRdnValue | crates/ostrich-common/src/types.rs:80-105 | The loop and the trailing-space step escape exactly the special characters, a leading `#` or space, and a trailing space not preceded by a backslash. |
| DistinguishedName.EscapedOnlyIfNeeded | crates/ostrich-common/src/types.rs:80-105 | The printer escapes nothing that section 2.4 of RFC 4514 does not ask for. |
| DistinguishedName.ToStringRfc4514 | crates/ostrich-common/src/types.rs:44-70 | Pushes and joins exactly the present attributes in the order CN, OU, O, L, ST, C, SERIALNUMBER. |
| DistinguishedName.FullNameAttributes | crates/ostrich-common/src/types.rs:44-70 | Which type each attribute prints under, and in which order. |
| DistinguishedName.TwoAttributesText | crates/ostrich-common/src/types.rs:44-70 | How two attributes are written and joined, for all values. |
| DistinguishedName.PiecesOfText | crates/ostrich-common/src/types.rs:80-105 | Escaped text reads back character by character, escapes recognised. |
| DistinguishedName.ConformsExactly | crates/ostrich-common/src/types.rs:80-105 | The printed value meets section 2.4 of RFC 4514 exactly when the value has no NUL and does not end in a backslash and a space. |
| DistinguishedName.BareTrailingSpace | crates/ostrich-common/src/types.rs:100-103 | The value of a backslash and a space prints with its space bare, which section 2.4 of RFC 4514 does not allow. |
| DistinguishedName.PrintingIsUndone | crates/ostrich-common/src/types.rs:44-105 | For every name, with values of any characters, splitting at unescaped commas and removing escapes gives the same name. |
| DistinguishedName.PrintingIsInjective | crates/ostrich-common/src/types.rs:44-105 | Distinct names print differently. |

## Left out

- TamperEvidence.TamperEvident: instants from year 0 without leap seconds; logs of different length are compared only from the end (`TamperEvidence.AgreeFromEnd`). Rows that differ in several fields at once are pinned only in the concatenation of those fields, which is all the hash covers; single fields by `TamperEvidence.EveryFieldIsHashed`.
- Rfc3339.RenderInjective: instants count from year 0 without leap seconds, so earlier years and leap seconds are not modelled.
- Rfc3339.RenderSuffixDecodable: the same, and so for everything stated of timestamps in `AuditEvents`, `AuditSink`, `TamperEvidence` and `AuditChain`.
- TamperEvidence.PreimageDecodes: the same.
- DnsNames.Dns01QueryNameExact: the DNS library's name parser is modelled without escapes, which acceptable identifiers cannot contain.
- GrpcClient.StateIsHistory: each breaker method is one step here; `CircuitRaces` takes the recording methods apart.
- GrpcClient.WithRetry: this contract is for a call whose breaker no other call uses meanwhile; `RetryRuns` interleaves calls, each use of the breaker one step. A build with overflow checks, which stops at the wrap, is not modelled.
- CrlRuns.DeltaCompletesBase: CRL entries are maps from serial to entry, so their order is not modelled; one strictly advancing clock stands for the database's and the service's; deleting or directly editing certificate rows is not modelled.
- IssuanceGate.IssuesAreApproved: approval is required and a repository configured; the other checks of `issue` (profile, CSR, proof of possession) are a step that may fail.
- SHA-256, JSON serialisation and IP address text are parameters: results hold for any choice of them. Signatures, DER, JWS, JWK thumbprints, PEM and base64 are not modelled.
- The key reordering PostgreSQL applies to JSON columns.
- HTTP, gRPC, TLS and DNS transport, timers and tasks: nondeterministic outcomes, or clock readings as arguments.
- At most one certificate per order: the code does not decide it.
- The contents of a CSR subject that is not empty, beyond being forwarded.
- Decision ids, user names, metadata and request details of approvals, and the REST handlers that persist decisions.
- Audit records of ACME, issuance and CRL handlers (the log itself is modelled), signature verification of the audit chain, OCSP, EST, SCMS, KRA, TAMP, configuration and the web portal.
- Widths of the attempt, failure and CRL number counters.
