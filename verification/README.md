# Evidence plane, relay, ratchet and desk pet: models and proofs

This project models the bookkeeping machines of a cabinet of agents and proves
what they guarantee over whole runs, interleavings and histories.

- **Mirror** (`TrialNames`, `MirrorReservation`, `MirrorProtocol`, `MirrorRuns`,
  `MirrorWitnesses`): receipts of chokepoint events are mirrored into day trials by
  many threads of many processes. Reserving and noting are critical sections; the
  append between them is not guarded.
- **Signing broker** (`RateLimiter`, `MintedMemory`, `SigningBroker`,
  `BrokerAnswers`, `BrokerRuns`): a process that signs event hashes, refuses to sign two hashes for
  one (trial, sequence) it still remembers, limits each uid by a token bucket, and
  logs before it answers.
- **Recompute and fuel integrity** (`EvidencePlane`, `RecomputeWindow`,
  `RecomputeRecording`, `RecomputeRuns`, `ActDerivation`, `RecomputeReport`,
  `FuelIndexes`, `FuelIntegrity`, `FuelTheorems`, `FuelScan`, `FuelCheck`,
  `FuelVerdicts`, `FuelRecompute`): one service re-derives outcomes and records what it finds in
  rolling day trials, once per claim; the other works out which trials to read and
  joins those recordings back into a six-signal verdict on every confirmed row.
- **External anchor** (`StoreLedger`, `AnchorJournal`, `LabelRecount`,
  `AnchorCheck`): the proof that a label journal only ever grew, its cross-join with
  the store, and the comparison of store snapshots along a chain of anchors.
- **Calibration** (`LatestRows`, `Calibration`, `CalibrationPairs`): Captain labels and detector
  verdicts are paired per trial, last one wins, and every pair is re-counted
  against the store.
- **Relay** (`Xrange`, `Relay`, `RelayRuns`, `RelayLoss`, `RelayLimits`): rows of an
  outbox are read as text, posted to another cabinet and deleted once acknowledged.
- **Cost rollup** (`CostFields`, `CostRollup`), **baseline ratchet**
  (`BaselineRatchet`), **freeze marker** (`FreezeMarker`) and **desk pet**
  (`PetPixels`, `PetWalk`).

Where the source works step by step there is a class or a method with a loop,
proved against a specification function; the theorems are about that function, or
about a state machine whose steps are the source's critical sections, requests or
system calls.

## Assumptions

- SHA-256 is collision free. Canonical digests are carried as fields of what they
  digest, or given by a function assumed injective where injectivity matters.
- The recorder's append is atomic: it returns the next sequence number, from 1 on,
  or fails without effect, and refuses when the trial's envelope is full.
- Clocks never run back, and reals stand for floats.
- Constants of modules outside this model (the closure bar, the minimum number of
  pairs) are parameters, as are clocks, random numbers, number parsing, the
  luminance curve and every answer of the network, the store or the operating
  system.
- Lists of findings whose order is only that of a sorted listing are sets here.

## Where the code does not do what its documentation says

- **Mirror cap.** The mirror's own cap is a count per process and does not hold by
  itself: with P process lifetimes and K slots each it lets `499 + P * K` receipts
  into a trial. What holds the cap is the recorder's envelope of 500: a trial holds
  at most the smaller of the two and every P, K and envelope reaches it
  (`ReceiptBound`, `BoundIsReached`), so never more than 500 (`NeverAboveCap`).
- **Chaining.** A segment that a process has chained past is full in every run
  exactly when slots are taken one at a time (`FullBehindExactly`); with K slots it
  can hold as few as the larger of `501 - K` and 251 and never fewer
  (`LeftBehindHolds`, `FewestIsReached`). A process at a trial whose envelope is
  full, with nothing left to note, never chains exactly when it has counted fewer
  than 500 receipts or is gone (`NeverChainsExactly`). So one that starts after a
  trial is full records nothing more of that class that day
  (`LateStarterNeverChains`), and with one slot at a time only the lifetime that
  wrote receipt 500 ever chains (`OnlyTheFillerChains`).
- **Recording once.** A claim dated after the run that records it can be recorded
  again (`FutureDatedClaimRecordedTwice`); `RecordedAgainExactly` says exactly when
  any claim is, and `ForgottenExactly` when a run no longer reads its record.
- **Anchor checks** of neighbouring records do not see a trial that is purged and
  comes back shorter (`PurgeHidesRollback`); `ChecksCompose` gives the condition.
- **First freeze wins** only among freezers that check after the first rename; of
  two that check before it, the later rename stands (`LaterRenameCanStand`,
  `FirstFreezersWin`). The temporary file a crashed freezer leaves behind makes a
  later freezer with the same pid raise without freezing anything
  (`AloneFreezesExactly`, `CrashLeavesTemp`).
- **The relay's parser** documents numbered and quoted lines; what it reads is plain
  text, one line each for ids, names and values. Entries survive it exactly when
  every value is one trimmed line (`RoundTripExactly`), and no run over a set of rows
  alters one exactly when all their values are (`UnalteredExactly`). Whatever is
  queued, no row vanishes without an acknowledgement under its id (`NoRowVanishes`);
  content is lost in some run exactly when some of the rows print so that another
  entry is read under a row's id (`LossExactly`), as when a message quotes such a row
  (`QuotedRowCanBeLost`). A handoff whose reason has two lines is read with content
  exactly when its second line is empty or the word "content"
  (`ContentReadExactly`); otherwise, if that line does not itself open an entry, the
  handoff stays in the outbox through every run and harms no row beside it
  (`TwoLineHandoffNeverArrives`).
- **Costs per project** file fields without a project under "null", which is also a
  valid project slug (`ProjectBucketExactly`, `NullIsASlug`).

## Model

| member | source | states |
|---|---|---|
| TrialNames.SameIdExactly | framework/evidence_mirror.py:410-412 | two trial ids coincide exactly when day and class-with-chain-marker do |
| TrialNames.DistinctTrials | framework/evidence_mirror.py:410-412 | classes without a dash never share a trial across class, segment and day |
| TrialNames.DashMarksChain | framework/evidence_mirror.py:410-412 | a dash in the class token tells a chain segment from the base trial |
| TrialNames.DashedClassCollides | framework/evidence_mirror.py:410-412 | the dash-free condition is needed: a dashed class collides with a chain segment |
| MirrorReservation.Reserve | framework/evidence_mirror.py:415-440 | the slot is the first segment not seen full, none when all six are; other days and classes keep their pointer |
| MirrorReservation.OpenFromPointer | framework/evidence_mirror.py:415-440 | starting the scan at the remembered pointer skips no open segment |
| MirrorReservation.Noted | framework/evidence_mirror.py:508-515 | an observed sequence raises the count, an older or missing one adds one; the count always grows |
| MirrorReservation.Process.ReserveSlot | framework/evidence_mirror.py:415-440 | the locked reservation loop over the two module dictionaries is the specified reservation |
| MirrorReservation.Process.NoteSequence | framework/evidence_mirror.py:508-515 | the locked note is the specified note |
| MirrorProtocol.StepKeepsInv | framework/evidence_mirror.py:415-440 | every reserve, append, failed append, note, start and crash of any process keeps the slot, cap and count invariants |
| MirrorProtocol.ReceiptBound | framework/evidence_mirror.py:415-537 | under every interleaving of P lifetimes with K slots a day trial holds at most the smaller of the recorder's envelope and 499 + P * K receipts |
| MirrorProtocol.NeverAboveCap | framework/evidence/recorder.py:733-745 | with the recorder's envelope of 500, or with one lifetime and one slot, no trial ever holds more than 500 |
| MirrorWitnesses.BoundIsReached | framework/evidence_mirror.py:415-440 | for every P, K and envelope some run puts exactly that many receipts into one trial |
| MirrorRuns.NothingMovesBack | framework/evidence_mirror.py:508-515 | counts never decrease, whatever order notes arrive in, and segment pointers never move back |
| MirrorRuns.LeftBehindHolds | framework/evidence_mirror.py:415-440 | a segment some process has chained past holds at least max(501 - K, 251) receipts, in every run |
| MirrorWitnesses.FewestIsReached | framework/evidence_mirror.py:508-515 | for every K and every envelope that allows it some run leaves a segment with exactly that many |
| MirrorWitnesses.FullBehindExactly | framework/evidence_mirror.py:415-440 | all segments left behind are full in every run if and only if K is at most 1 or nothing can be left behind |
| MirrorRuns.OnlyTheFillerChains | framework/evidence/recorder.py:733-745 | with envelope 500 and one slot at a time only the lifetime that wrote receipt 500 chains |
| MirrorWitnesses.NeverChainsExactly | framework/evidence_mirror.py:517-537 | a process at a full trial never chains in any continuation if and only if it counted fewer than 500 or is gone |
| MirrorRuns.LateStarterNeverChains | framework/evidence_mirror.py:517-537 | in every run a process that starts after the trial is full never chains and lands nothing in it, in any continuation |
| RateLimiter.Limiter.AllowAt | framework/evidence_signing_broker.py:166-180 | the method updates one bucket and answers as specified |
| RateLimiter.StaysValid | framework/evidence_signing_broker.py:166-180 | tokens stay between zero and capacity through every run |
| RateLimiter.CallPays | framework/evidence_signing_broker.py:166-180 | an allowed request costs its uid exactly one token and no other uid anything |
| RateLimiter.WindowBound | framework/evidence_signing_broker.py:166-180 | in any window of any run a uid is allowed at most capacity + refill * elapsed requests |
| RateLimiter.UidsIndependent | framework/evidence_signing_broker.py:166-180 | a uid is answered as if no other uid had ever called |
| RateLimiter.AllowsExactly | framework/evidence_signing_broker.py:166-180 | a uid is allowed if and only if it has a whole token, and pays one; the bucket it is left with, and no other changed |
| RateLimiter.LevelExactly | framework/evidence_signing_broker.py:174-175 | an unseen uid has a full bucket, a seen one what it kept plus what flowed in, up to the capacity |
| MintedMemory.Minted.DivergenceCheck | framework/evidence_signing_broker.py:312-319 | a different hash for a remembered key is refused and changes nothing; anything else is stored, moved to the end and the memory cut to size |
| MintedMemory.Minted.ForgetOldest | framework/evidence_signing_broker.py:318-319 | the loop drops oldest entries until MINTED_MEMORY are left |
| MintedMemory.MemoryIsNewest | framework/evidence_signing_broker.py:312-319 | the bounded memory is the newest part of the unbounded record of every key's last acceptance |
| MintedMemory.OnlyAcceptedRemembered | framework/evidence_signing_broker.py:312-319 | at most MINTED_MEMORY keys, each once, each accepted |
| MintedMemory.RemembersExactly | framework/evidence_signing_broker.py:312-319 | a key is remembered, with its latest hash, exactly while fewer than MINTED_MEMORY other keys were accepted since |
| MintedMemory.DivergenceSeparated | framework/evidence_signing_broker.py:312-319 | two acceptances of one key with different hashes are separated by MINTED_MEMORY other keys |
| MintedMemory.AcceptsExactly | framework/evidence_signing_broker.py:312-319 | over an accepted history an event is accepted if and only if its key is new, was followed by MINTED_MEMORY other keys, or last carried the same hash |
| MintedMemory.RetryIsAccepted | framework/evidence_signing_broker.py:312-319 | the same hash is accepted again after anything else, until the key is accepted with another |
| SigningBroker.BrokerCore.HandleRequest | framework/evidence_signing_broker.py:330-386 | identity, rate, shape, verb: the handler's answer and new state are the specified ones |
| SigningBroker.BrokerCore.MintEvent | framework/evidence_signing_broker.py:341-350 | a sign-event is checked, answered and remembered, or refused with memory unchanged |
| SigningBroker.OnlyMintingRemembers | framework/evidence_signing_broker.py:330-350 | refusals leave the memory alone, and without an identity the buckets too; only an answered sign-event changes the memory |
| SigningBroker.SignsOnlyFrozenShapes | framework/evidence_signing_broker.py:258-386 | whatever is signed is a well-shaped event or a frozen anchor object for a known identity |
| BrokerAnswers.AdmissionExactly | framework/evidence_signing_broker.py:322-334 | the refusals of unattested, unmapped and over-rate peers, each if and only if it applies |
| BrokerAnswers.SignEventAnswers | framework/evidence_signing_broker.py:341-350 | over any history a well-formed sign-event is answered with its digest and remembered if and only if the history allows it, else refused as divergent with nothing remembered |
| BrokerAnswers.VerifyEventAnswers | framework/evidence_signing_broker.py:351-360 | a well-formed verify-event is answered valid if and only if its signature is the digest of its triple |
| BrokerAnswers.SignObjectAnswers | framework/evidence_signing_broker.py:361-375 | a sign-object is answered for exactly the anchors that fit, and each other case refused under its own code |
| BrokerAnswers.VerifyObjectAnswers | framework/evidence_signing_broker.py:376-385 | a verify-object is answered valid if and only if its signature is the digest of its purpose and payload |
| BrokerAnswers.SignThenVerify | framework/evidence/signing.py:134-151 | whatever sign-event answered, verify-event of the triple is valid for that string and invalid for every other of its shape, for any later state and peer |
| BrokerAnswers.SignThenVerifyObject | framework/evidence/signing.py:139-157 | the same round trip for anchors |
| BrokerAnswers.RetryIsAnswered | framework/evidence_signing_broker.py:312-350 | a repeated sign-event is answered with the same signature, whatever other keys came between |
| BrokerAnswers.AnsweredExactly | framework/evidence_signing_broker.py:330-386 | a request is answered if and only if its peer is admitted and it is, field by field, one of the four forms |
| BrokerAnswers.EnvelopeRefusals | framework/evidence_signing_broker.py:335-341 | wrong identity, unknown verb and wrong keys, each if and only if it is what is wrong |
| BrokerAnswers.EventRefusals | framework/evidence_signing_broker.py:341-360 | each refusal of an event verb names the first wrong field |
| BrokerAnswers.ObjectRefusals | framework/evidence_signing_broker.py:361-385 | each refusal of an object verb names the first thing wrong; an unhashable purpose raises |
| BrokerAnswers.AnchorsExactly | framework/evidence_signing_broker.py:293-310 | the anchor schema admits exactly the objects built from a triple, a signature and a time |
| BrokerAnswers.ShapesExactly | framework/evidence_signing_broker.py:258-283 | what a trial id and a digest are, and that neither holds a line break |
| BrokerAnswers.MessagesTell | framework/evidence/signing.py:107-116 | signed messages differ for different triples, and no object message is an event message |
| BrokerAnswers.SignatureServesOneTriple | framework/evidence/signing.py:107-151 | short of a digest collision a signature answered for one triple verifies for no other |
| BrokerAnswers.AnchorSignatureServesNoEvent | framework/evidence/signing.py:107-157 | nor does one answered for an anchor verify for any event |
| BrokerRuns.ServeOne | framework/evidence_signing_broker.py:444-576 | one connection: read, handle, log, then send; an unwritable log turns the answer into a refusal |
| BrokerRuns.Serve | framework/evidence_signing_broker.py:444-576 | the loop emits the specified trace until an exception stops it |
| BrokerRuns.EmissionsExactly | framework/evidence_signing_broker.py:520-576 | what a connection logs and says, exactly: answer, refusal, reading failure, unwritable log or nothing |
| BrokerRuns.RowExactly | framework/evidence_signing_broker.py:403-420 | what a log row says, field by field |
| BrokerRuns.SignaturesLoggedFirst | framework/evidence_signing_broker.py:539-570 | over every run, no signature is sent without the log row that records it just before |
| BrokerRuns.ConflictingCommitmentsFarApart | framework/evidence_signing_broker.py:312-350 | over every run, two hashes for one (trial, sequence) are at least MINTED_MEMORY other committed keys apart |
| RecomputeWindow.WindowDays | framework/evidence_recompute.py:213-234 | the window is exactly the days from since to now, widened by a day, unless it is too long |
| RecomputeWindow.WindowExactly | framework/evidence_recompute.py:213-234 | the first and last day of the window, and when it is cut to 401 days |
| RecomputeWindow.CoversPast | framework/evidence_recompute.py:213-234 | every run between since and now falls on a day of the window |
| RecomputeRecording.Recording.RecordTarget | framework/evidence_recompute.py:814-888 | duplicates are skipped, full segments chained past, failures degrade; counters and state change as specified |
| RecomputeRuns.RecordExactly | framework/evidence_recompute.py:821-829 | without a store a target only counts as such, a known claim as a repeat |
| RecomputeRuns.RecordFromExactly | framework/evidence_recompute.py:856-888 | by the first answer that is not a full segment: landed is recorded there, purged is skipped, anything else or no segment left fails; one counter moves |
| RecomputeRuns.EventSaysItsTarget | framework/evidence_recompute.py:830-871 | the appended event carries the claim, the agreement and the details of its target |
| RecomputeRecording.ExistingClaims | framework/evidence_recompute.py:344-358 | the claims already recorded are exactly those in readable day trials of the window |
| RecomputeRecording.DayTrials | framework/evidence_recompute.py:331-341 | the trials scanned are every segment of every day of the window |
| RecomputeRuns.ScannedExactly | framework/evidence_recompute.py:331-358 | a trial is scanned if and only if it is a readable recompute segment of a window day |
| RecomputeReport.CheckRecompute | framework/evidence_recompute.py:895-997 | the run targets the act leg's rows and the other legs' and records each in turn, or none when not recording; three agreement counters and five recording counters over them |
| RecomputeReport.CountersShareOut | framework/evidence_recompute.py:954-957 | agree + disagree + underivable is the number of targets if and only if every agreement has one of the three forms |
| RecomputeReport.ActVerdictsShareOut | framework/evidence_recompute.py:954-957 | over any act-leg targets the three counters add up to all of them |
| RecomputeRuns.EveryTargetCounted | framework/evidence_recompute.py:814-888 | targets equal the sum of the recording counters when recording, which are zero otherwise |
| RecomputeRuns.RecordedAtMostOnce | framework/evidence_recompute.py:344-358 | over any sequence of timely runs, a claim is appended at most once, in whatever day or segment |
| RecomputeRuns.StepKeepsOnce | framework/evidence_recompute.py:814-888 | a run with any targets and failures keeps a claim's one record, if it reads back the day it was made on |
| RecomputeRuns.RecordedAgainExactly | framework/evidence_recompute.py:814-888 | however often a claim stands, a run with any targets and failures adds it once more if and only if it records, reads back no trial that holds it and the recorder takes an append for it |
| RecomputeRuns.StandsAsOftenAsAdded | framework/evidence_recompute.py:942-952 | over any sequence of runs a claim stands exactly once more for each such run |
| RecomputeRuns.ForgottenExactly | framework/evidence_recompute.py:213-234 | a recorded claim's trial is not read back if and only if it is unreadable or the window starts after its day |
| RecomputeRuns.FutureDatedClaimRecordedTwice | framework/evidence_recompute.py:895-952 | a claim dated after its recording run is recorded twice |
| ActDerivation.CollectActTargets | framework/evidence_recompute.py:460-508 | the loop over ledger rows collects exactly the rows that make a target |
| ActDerivation.AbsenceNeverContradicts | framework/evidence_recompute.py:412-457 | losing the journal row, the probe or its answer never turns a claim into a contradicted one; a contradiction that needed no probe stands; agree means the claim was derived, disagree that another outcome was |
| ActDerivation.OnlyTheClockHeals | framework/evidence_recompute.py:412-457 | a survival claim once contradicted is contradicted for good, unless only its time to live had not run out |
| ActDerivation.SurvivalExactly | framework/evidence_recompute.py:412-444 | a survival claim is agreed to if and only if executed, not undone and past its time; contradicted if and only if ineligible, undone, void or within its time |
| ActDerivation.RevertExactly | framework/evidence_recompute.py:445-457 | a revert claim is agreed to if and only if the row counts and the journal shows it undone or the probe finds the artifact gone or archived; contradicted if and only if ineligible or standing |
| ActDerivation.RederivedExactly | framework/evidence_recompute.py:412-457 | which outcome is rederived, each if and only if |
| ActDerivation.TargetExactly | framework/evidence_recompute.py:460-508 | a row makes a target if and only if it lies in the window and makes one of the two claims; its time, claim digest and verdict |
| ActDerivation.TargetDetailsExactly | framework/evidence_recompute.py:486-498 | the target's details are the row's own |
| ActDerivation.TargetsExactly | framework/evidence_recompute.py:460-508 | the targets are those of the ledger rows |
| ActDerivation.CollectedExactly | framework/evidence_recompute.py:460-508 | each collected target agrees and contradicts exactly as its claim and joined journal row do |
| ActDerivation.TargetsWellFormed | framework/evidence_recompute.py:460-508 | targets lie in the window and are agree, disagree or underivable with a reason |
| ActDerivation.ContradictionNamesJid | framework/evidence_recompute.py:479-498 | a contradicted target always carries a journal id of its own row |
| FuelIndexes.ReceiptIndex | framework/evidence_fuel_integrity.py:294-323 | the receipt index of the candidate day trials |
| FuelIndexes.AnswersExactly | framework/evidence_fuel_integrity.py:268-291 | what the reader answers for a trial |
| FuelIndexes.MirrorsExactly | framework/evidence_fuel_integrity.py:305-322 | which events are receipts of a digest, and how attested |
| FuelIndexes.CaptainLabelExactly | framework/evidence_fuel_integrity.py:347-357 | which events are Captain labels |
| FuelIndexes.AnchorsExactly | framework/evidence_fuel_integrity.py:368-384 | when a digest anchors an event |
| FuelIndexes.VerifiesExactly | framework/evidence_fuel_integrity.py:470-485 | which events verify with an agreement |
| FuelIndexes.ReceiptExactly | framework/evidence_fuel_integrity.py:294-323 | a digest is indexed exactly when a readable event mirrors it, under the first that does |
| FuelIndexes.LabelIndex | framework/evidence_fuel_integrity.py:360-395 | journal ids and trials are indexed exactly when an anchored, scoreable label of a verified trial names them |
| FuelIndexes.RecomputeIndex | framework/evidence_fuel_integrity.py:457-497 | recompute agreements by journal id and by row digest, in scan order |
| FuelIndexes.IndexHolds | framework/evidence_fuel_integrity.py:457-497 | an agreement is under a key exactly when a readable event verifies it there |
| FuelIntegrity.DegradationExplains | framework/evidence_fuel_integrity.py:504-520 | the first consequence degradation within a day of the row, if any |
| FuelIntegrity.ComputeCells | framework/evidence_fuel_integrity.py:553-590 | every row's cell is present, under the floors of its own tally |
| FuelIntegrity.EvaluateRow | framework/evidence_fuel_integrity.py:597-762 | the stepwise ladder gives the specified verdict; what withholds, looks tampered and contradicts follows from it |
| FuelIntegrity.ThirdLeg | framework/evidence_fuel_integrity.py:672-719 | the third leg's joins, in the source's order of precedence |
| FuelTheorems.GroundedExactly | framework/evidence_fuel_integrity.py:597-762 | grounded if and only if all six signals hold |
| FuelTheorems.DegradationsGroundNothing | framework/evidence_fuel_integrity.py:504-520 | changing the degradation ledger never changes which rows are grounded or contradicted |
| FuelTheorems.HitsExactly | framework/evidence_fuel_integrity.py:672-696 | what the third leg sees of the recompute plane, said of raw events |
| FuelTheorems.ContradictionExactly | framework/evidence_fuel_integrity.py:672-696 | a recompute contradiction surfaces if and only if the mirror holds, no anchored label speaks, and a disagreement joins by journal id, or by digest with no agreement by journal id |
| FuelTheorems.DigestOnlyDisagreementCanLose | framework/evidence_fuel_integrity.py:672-696 | on events no recompute leg writes, a digest-only disagreement is shadowed by an agreement joined by journal id |
| FuelTheorems.DisagreementNeverGrounds | framework/evidence_fuel_integrity.py:672-696 | one more disagreement, anywhere, never grounds a row |
| FuelScan.CandidateTrials | framework/evidence_fuel_integrity.py:824-835 | claimed trials and nearby consequence segments of each fuel row, each once, in the order they come up |
| FuelScan.FuelRowsAre | framework/evidence_fuel_integrity.py:798-811 | the rows and fuel rows of a report: in the window, both ends taken in, and confirmed by the Captain |
| FuelScan.CandidatesExactly | framework/evidence_fuel_integrity.py:186-195 | receipts are searched for exactly in claimed trials and consequence segments within a day of a fuel row |
| FuelScan.RecomputeTrialsExactly | framework/evidence_fuel_integrity.py:421-454 | recompute verdicts are searched for exactly in the segments of the window's days, if there is a fuel row |
| FuelCheck.CheckFuel | framework/evidence_fuel_integrity.py:772-926 | from ledger, window and store: one report per confirmed human row of the window; grounded + ungrounded + inconclusive = checked |
| FuelCheck.FoundExactly | framework/evidence_fuel_integrity.py:294-323 | a digest is found if and only if a readable trial that a fuel row claims or lies near holds its receipt |
| FuelCheck.ClaimedReceiptCounts | framework/evidence_fuel_integrity.py:824-837 | a receipt held in a row's last claimed trial always carries the row through its mirror |
| FuelVerdicts.LastClaimedExactly | framework/evidence_fuel_integrity.py:209-220 | the last claimed trial is the one no other ref names for the first time after |
| FuelVerdicts.MirrorVerdictsExactly | framework/evidence_fuel_integrity.py:611-668 | each verdict on the mirror if and only if the store's state of that trial, the receipts and the degradations say so |
| FuelVerdicts.TamperExactly | framework/evidence_fuel_integrity.py:629-668 | tamper-shaped if and only if that trial failed integrity, is missing, or read back without a receipt and without a degradation within a day |
| FuelVerdicts.ThirdLegVerdictsExactly | framework/evidence_fuel_integrity.py:672-719 | each verdict on the third leg if and only if the anchored labels, recompute events and in-store labels say so |
| FuelVerdicts.LegExactly | framework/evidence_fuel_integrity.py:672-719 | what the report says the third leg rests on, exactly |
| FuelVerdicts.LastVerdictsExactly | framework/evidence_fuel_integrity.py:721-743 | the verdicts on attestation and floors, and grounded, each if and only if |
| FuelVerdicts.TallyCounts | framework/evidence_fuel_integrity.py:553-567 | a tally counts row positions |
| FuelVerdicts.FloorsExactly | framework/evidence_fuel_integrity.py:570-589 | each state of a cell's floors if and only if the counts say so |
| FuelCheck.GroundedMeans | framework/evidence_fuel_integrity.py:772-926 | grounded, in raw evidence: a process-attested receipt event, a label or recompute leg, a cell above both floors |
| FuelRecompute.RunsWrite | framework/evidence_recompute.py:814-888 | every event any sequence of runs leaves is a verdict of one of their legs |
| FuelRecompute.DisagreementAlwaysWins | framework/evidence_fuel_integrity.py:672-696 | on such events a disagreement joined by journal id or by digest surfaces, whatever else is recorded, if and only if the mirror holds and no anchored label speaks |
| FuelRecompute.ContradictedExactly | framework/evidence_fuel_integrity.py:839-852 | over all runs and checks of their plane: a fuel row is contradicted if and only if its mirror holds, no anchored label speaks and a trial read back holds a disagreement about it |
| FuelRecompute.RecordedContradictionWithholds | framework/evidence_recompute.py:814-888 | a contradiction the act leg recorded withholds, in every check whose window reaches back to the run and that reads its trial, every row of the same bytes or with the recorded journal id |
| FuelRecompute.RecordingDayIsScanned | framework/evidence_fuel_integrity.py:430-454 | the window takes a run's day in if and only if it does not start later, and always for a row dated no later than the run unless cut short |
| AnchorJournal.NewlinePrefixDigests | framework/evidence_anchor.py:499-523 | the running hash lists exactly the newline-boundary prefixes, the empty and the whole file included |
| AnchorJournal.CheckAppendOnly | framework/evidence_anchor.py:657-680 | an anchor is reported exactly when no prefix has its digest or it regresses; anchored = matched + rewritten |
| AnchorJournal.CleanMeansAppendOnly | framework/evidence_anchor.py:657-680 | no finding if and only if the anchored contents are boundary prefixes of the journal, each extending the one before |
| AnchorJournal.FindingsExactly | framework/evidence_anchor.py:657-680 | each finding if and only if the anchored content is gone, or is there after a longer one |
| AnchorJournal.HonestHistoriesAreClean | framework/evidence_anchor.py:499-512 | every history of whole-line appends, anchored at any points, yields no finding |
| LabelRecount.JoinRow | framework/evidence_anchor.py:698-731 | one digest row is backed, excused or reported, and its channel claim compared with the store |
| LabelRecount.CrossJoin | framework/evidence_anchor.py:691-758 | digest rows = backed + excused + unbacked; store labels = journaled + unjournaled; findings exactly as specified |
| LabelRecount.FindingsExactly | framework/evidence_anchor.py:691-758 | each finding if and only if a row is orphaned, hollow or contradicted, or a label is in no row |
| StoreLedger.StoredChannelExactly | framework/evidence_anchor.py:724-728 | the stored channel is that of the last readable event with the hash |
| LabelRecount.CleanMeansConsistent | framework/evidence_anchor.py:691-758 | no finding if and only if every row has its events, no claim is contradicted and no label escaped the journal |
| AnchorCheck.Check | framework/evidence_anchor.py:210-297 | the findings of a comparison, and none exactly when it is clean |
| AnchorCheck.CleanExactly | framework/evidence_anchor.py:210-297 | clean if and only if nothing was lost, moved back or moved sideways |
| AnchorCheck.TrialFindingsExactly | framework/evidence_anchor.py:231-264 | each finding on a trial if and only if it was lost without receipt, unreadable, behind or diverged |
| AnchorCheck.MarkFindingsExactly | framework/evidence_anchor.py:266-284 | each finding on the watermarks, likewise |
| AnchorCheck.ReceiptFindingsExactly | framework/evidence_anchor.py:286-297 | each finding on the receipts, likewise |
| AnchorCheck.ReceiptNamesOneDigest | framework/evidence_anchor.py:204-207 | a purge receipt excuses only trials that share its sixteen digits |
| AnchorCheck.SameRecordIsClean | framework/evidence_anchor.py:210-297 | a record compared with itself is clean |
| AnchorCheck.ChecksCompose | framework/evidence_anchor.py:231-290 | two clean checks make the end-to-end check clean if and only if purged trials stay away or return intact |
| AnchorCheck.ChainIsClean | framework/evidence_anchor.py:231-290 | the same along a chain of any length |
| AnchorCheck.PurgeHidesRollback | framework/evidence_anchor.py:231-264 | pairwise checks miss a purged trial that returns shorter |
| LatestRows.SortHolds | framework/evidence_calibration.py:456-456 | the sort keeps every row position |
| LatestRows.BeforeExactly | framework/evidence_calibration.py:456-456 | a text comes before another where it ends or has the smaller character at the first difference |
| LatestRows.SortIsAscending | framework/evidence_calibration.py:456-456 | and puts timestamps in ascending string order |
| LatestRows.SortedLastIsLatest | framework/evidence_calibration.py:456-476 | stable sort then last-wins selects the latest surviving row |
| LatestRows.LatestExactly | framework/evidence_calibration.py:453-476 | latest: no surviving row of the trial is later, ties go to the last in the input |
| LatestRows.SurvivorsDecide | framework/evidence_calibration.py:447-472 | rows that do not survive neither win nor shadow |
| Calibration.CollectLabels | framework/evidence_calibration.py:453-472 | the winning label of each trial; each counter exact, and together all label rows |
| CalibrationPairs.FatesExactly | framework/evidence_calibration.py:456-471 | each fate of a label row if and only if its channel, verdict and timestamp say so |
| CalibrationPairs.FatesCount | framework/evidence_calibration.py:453-472 | the counters count label positions |
| Calibration.CollectMachines | framework/evidence_calibration.py:474-476 | the winning machine row of each trial |
| Calibration.CollectPairs | framework/evidence_calibration.py:478-502 | the list of pairs, in order of trial, of exactly the trials named by both sides, each joining its latest rows |
| CalibrationPairs.PairsSayTheirRows | framework/evidence_calibration.py:478-502 | each pair says what its two latest rows say: judge is wrong if and only if the machine row is a flag, agree if and only if both say wrong or both do not |
| CalibrationPairs.CleanedExactly | framework/evidence_calibration.py:426-428 | cleaning replaces the two separators character by character |
| Calibration.PairingNoninterference | framework/evidence_calibration.py:447-472 | unattested, unscoreable and out-of-window labels have no influence on any pair |
| Calibration.PairsNoninterference | framework/evidence_calibration.py:447-502 | nor on the list of pairs |
| Calibration.SameStratumExactly | framework/evidence_calibration.py:426-430 | two clusters share a stratum key exactly when both cleaned axes agree |
| Calibration.VerifyPairs | framework/evidence_calibration.py:525-603 | counted pairs and every exclusion bucket as specified; together all candidate pairs |
| CalibrationPairs.ExclusionsExactly | framework/evidence_calibration.py:576-602 | each exclusion if and only if the store's answer and ledger say so, and none otherwise |
| CalibrationPairs.BucketsCount | framework/evidence_calibration.py:576-603 | the buckets count pair positions |
| CalibrationPairs.CountedExactly | framework/evidence_calibration.py:576-603 | a pair counts if and only if no exclusion applies |
| Calibration.CountedMeansAttested | framework/evidence_calibration.py:606-617 | a counted pair rests on events of a verified trial that carry the claimed, attested channel |
| Calibration.ByStratum | framework/evidence_calibration.py:667-669 | buckets hold exactly their stratum's pairs, in order |
| Calibration.BucketsConserve | framework/evidence_calibration.py:667-678 | over all strata the buckets add up to the counted pairs |
| Xrange.ParseXrangeEntry | cabinet/scripts/cabinet-mcp-relay.py:253-296 | the nested index loops compute the specified entries |
| Xrange.ClassesExactly | cabinet/scripts/cabinet-mcp-relay.py:253-296 | white space, line boundaries and digits by code point |
| Xrange.HeadersExactly | cabinet/scripts/cabinet-mcp-relay.py:265-290 | which lines start an entry and which end its fields |
| Xrange.SplitJoin | cabinet/scripts/cabinet-mcp-relay.py:349 | splitting the text of one-line items gives the items back |
| Xrange.RoundTripExactly | cabinet/scripts/cabinet-mcp-relay.py:253-296 | reading the printed stream returns the entries if and only if every value is one trimmed line |
| Relay.Receive | cabinet/mcp-server/server.py:608-738 | a trigger carries the payload under the proven sender, for a known role, only for the receiver itself and never without content and agent |
| Relay.RepliesExactly | cabinet/mcp-server/server.py:608-806 | each reply if and only if; queued only when a known peer took it onward, an unknown peer answered as such |
| Relay.RolesExactly | cabinet/mcp-server/server.py:654-685 | who may be addressed |
| Relay.PayloadExactly | cabinet/scripts/cabinet-mcp-relay.py:307-334 | the payload of an entry, field by field, fallbacks and omissions |
| Relay.HandoffArrivesWhole | cabinet/scripts/cabinet-mcp-relay.py:307-334 | content, agent, kind and slug of a handoff pass unchanged from row to trigger |
| Relay.ChatArrivesAsChat | cabinet/scripts/cabinet-mcp-relay.py:307-334 | a chat row becomes a trigger with its content, agent and reply reference, under the proven sender, and is not taken for a handoff |
| RelayRuns.Outbox.DrainPeer | cabinet/scripts/cabinet-mcp-relay.py:337-367 | a row leaves exactly when an entry with its id was acknowledged and deleted; the count is of those entries |
| RelayRuns.AcknowledgedExactly | cabinet/scripts/cabinet-mcp-relay.py:188-244 | an entry counts as acknowledged if and only if an answer came back and the receiver confirmed the append or passed it on to a peer that took it |
| RelayRuns.CountIsOfConfirmed | cabinet/scripts/cabinet-mcp-relay.py:337-367 | the delivered count is of entries acknowledged and deleted |
| RelayRuns.StepKeepsInv | cabinet/scripts/cabinet-mcp-relay.py:337-367 | every enqueue, read, post, deletion and crash of any run keeps rows accounted for, whatever is queued |
| RelayRuns.NoRowVanishes | cabinet/scripts/cabinet-mcp-relay.py:188-244 | over all overlapping runs and failures, whatever is queued, a row is in the outbox or an entry with its id was acknowledged |
| RelayRuns.RelayLosesNothing | cabinet/scripts/cabinet-mcp-relay.py:188-244 | when every queued value is one trimmed line no content is lost or invented |
| RelayLoss.UnalteredExactly | cabinet/scripts/cabinet-mcp-relay.py:253-296 | no run over a set of rows alters one of them if and only if every value is one trimmed line |
| RelayLoss.LossExactly | cabinet/scripts/cabinet-mcp-relay.py:337-367 | some run loses the content of a row if and only if some of the rows print so that a sendable entry other than a row is read under its id |
| RelayLoss.CleanIsNeverLost | cabinet/scripts/cabinet-mcp-relay.py:337-367 | which never happens to rows of single trimmed lines |
| RelayRuns.DeliveredHandoffIsWhole | cabinet/mcp-server/server.py:820-860 | a handoff acknowledged as delivered stands whole in the receiver's stream |
| RelayLimits.ContentReadExactly | cabinet/mcp-server/server.py:820-836 | a handoff whose reason has two lines is read under its id, with content if and only if the second line is empty or the word itself |
| RelayLimits.TwoLineHandoffNeverArrives | cabinet/scripts/cabinet-mcp-relay.py:253-296 | among any clean rows and other such handoffs it stays in the outbox and unheard of through every run, and no row is lost to it |
| RelayLimits.QuotedRowCanBeLost | cabinet/scripts/cabinet-mcp-relay.py:337-367 | a message that quotes another row's id can make the relay delete that row undelivered |
| CostFields.ParseExactly | cabinet/mcp-server/server.py:944-974 | a name is read as a field if and only if that field, with valid slugs, prints as the name |
| CostFields.SlugExactly | cabinet/mcp-server/server.py:873-885 | what a slug is, and that it holds no separator |
| CostFields.KeyExactly | cabinet/mcp-server/server.py:987-987 | officer and project are recovered from a bucket key |
| CostRollup.ParseCostHset | cabinet/mcp-server/server.py:915-992 | a day's buckets hold its accepted values under every selection of keys |
| CostRollup.AcceptExactly | cabinet/mcp-server/server.py:944-986 | a field contributes if and only if it prints a well-formed field, passes the filters and holds a number |
| CostRollup.AllAcceptedExactly | cabinet/mcp-server/server.py:915-992 | a day's values are what its fields contribute |
| CostRollup.CombineDays | cabinet/mcp-server/server.py:1043-1054 | so do the buckets of several days |
| CostRollup.CostSummary | cabinet/mcp-server/server.py:1056-1088 | both rollups are the combined buckets regrouped |
| CostRollup.EveryViewConserves | cabinet/mcp-server/server.py:1056-1088 | in every dimension officers, projects and officer-project buckets all sum to the accepted values |
| CostRollup.OfficerBucketExactly | cabinet/mcp-server/server.py:1077-1081 | an officer's bucket holds exactly that officer's values |
| CostRollup.ProjectBucketExactly | cabinet/mcp-server/server.py:1083-1088 | a project's bucket is exact unless it is "null", which also takes values without a project |
| CostRollup.NullIsASlug | cabinet/mcp-server/server.py:1083-1088 | that name is a valid slug, so the two can meet |
| BaselineRatchet.EvaluateClass | cabinet/scripts/baseline-set-ratchet.py:307-354 | the failures of one class, exactly |
| BaselineRatchet.Evaluate | cabinet/scripts/baseline-set-ratchet.py:284-366 | the failures of all classes; ok if and only if every class passes rules A, B and C |
| BaselineRatchet.PassesExactly | cabinet/scripts/baseline-set-ratchet.py:307-354 | the three rules on the sets themselves; a removal the tree still carries pays for nothing |
| BaselineRatchet.FailuresExactly | cabinet/scripts/baseline-set-ratchet.py:307-354 | each failure if and only if |
| BaselineRatchet.SurplusIsKept | cabinet/scripts/baseline-set-ratchet.py:309-329 | what the tree holds beyond its baseline grows by what it gained and by uncredited removals |
| BaselineRatchet.RenamesTraceBack | cabinet/scripts/baseline-set-ratchet.py:330-354 | for paths, rules B and C map the new baseline one to one into the old |
| BaselineRatchet.RenamesImplyNonGrowth | cabinet/scripts/baseline-set-ratchet.py:320-354 | for paths rule A follows from B and C |
| BaselineRatchet.ChainNeverGrows | cabinet/scripts/baseline-set-ratchet.py:284-366 | along a chain of passing steps the baseline never grows |
| BaselineRatchet.ChainTracesBack | cabinet/scripts/baseline-set-ratchet.py:341-354 | for paths every later member descends by renames from its own first member |
| BaselineRatchet.NewClassMustBeEmpty | cabinet/scripts/baseline-set-ratchet.py:293-316 | a class with no baseline before passes exactly when it names nothing |
| BaselineRatchet.SwapExactly | cabinet/scripts/baseline-set-ratchet.py:320-354 | a swap passes exactly when the newcomer is no path or is the rename of what it replaces |
| FreezeMarker.PayloadClips | framework/evidence_freeze.py:161-171 | whatever is asked for, the payload is within its bounds and says the start of it, all of it where that fits |
| FreezeMarker.MarkerIsWhole | framework/evidence_freeze.py:156-194 | for all races, crashes and arguments the marker is absent or the complete, clipped payload one freezer made of its arguments |
| FreezeMarker.UnfreezesExactly | framework/evidence_freeze.py:91-110 | only unlinking a mutable marker unfreezes |
| FreezeMarker.ContentChangesExactly | framework/evidence_freeze.py:175-193 | a standing marker changes exactly when a freezer past its check renames over a mutable one |
| FreezeMarker.FirstFreezersWin | framework/evidence_freeze.py:156-160 | presence is permanent until unlinked, and only freezers already in flight can still replace it |
| FreezeMarker.ProtectedIsFixed | framework/evidence_freeze.py:113-122 | with the immutable flag on, nothing changes until it is lifted |
| FreezeMarker.ReturningFreezes | framework/evidence_freeze.py:156-194 | a freezer that returns leaves judging frozen |
| FreezeMarker.FailuresExactly | framework/evidence_freeze.py:174-187 | a freezer fails if and only if its write fails, or its rename does with no marker standing |
| FreezeMarker.FailureRaises | framework/evidence_freeze.py:185-192 | a failing freezer is cleaned up after and raises, the marker as it was |
| FreezeMarker.LaterRenameCanStand | framework/evidence_freeze.py:175-193 | of two freezers that both checked first, the later rename stands |
| FreezeMarker.AloneFreezesExactly | framework/evidence_freeze.py:172-174 | an undisturbed freeze works unless a temporary file of its pid was left behind |
| FreezeMarker.CrashLeavesTemp | framework/evidence_freeze.py:172-192 | a crash leaves one, and the pid's next freeze raises |
| FreezeMarker.Disk.Freeze | framework/evidence_freeze.py:142-194 | the program's steps do what the undisturbed protocol run does |
| FreezeMarker.Disk.CaptainClear | framework/evidence_freeze.py:242-290 | the marker goes exactly for an accepted token over an existing store when the unlink works; earlier refusals change nothing, a failed unlink leaves the flag lifted |
| PetPixels.Buffer.Blit | cabinet/companion/pet.swift:278-310 | every covered pixel is blended, every other kept; premultiplied buffers stay so and every pixel is the general formula |
| PetPixels.MixedExactly | cabinet/companion/pet.swift:294-307 | a mixed channel is the source over the background's share, in parts of 255, rounded down |
| PetPixels.ClampNeverFiresExactly | cabinet/companion/pet.swift:296-307 | a channel needs no clamp over any background exactly when it is at most its alpha |
| PetPixels.ShortWaysAgree | cabinet/companion/pet.swift:287-294 | the shortcuts for alpha 0 and 255 equal the general formula on premultiplied sources |
| PetPixels.SkipAgreesExactly | cabinet/companion/pet.swift:287-288 | when the alpha-0 shortcut differs otherwise |
| PetPixels.BlendedStaysPremultiplied | cabinet/companion/pet.swift:278-310 | blending premultiplied pixels gives a premultiplied one |
| PetPixels.Buffer.Desaturated | cabinet/companion/pet.swift:317-333 | every visible pixel becomes its capped grey, every other stays |
| PetPixels.GreyStaysPremultiplied | cabinet/companion/pet.swift:325-330 | grey keeps alpha and never exceeds it, whatever the curve |
| PetPixels.Buffer.Keyline | cabinet/companion/pet.swift:348-365 | paints exactly the invisible pixels that touch the art, down to the given row |
| PetPixels.Buffer.LineFacesEdge | cabinet/companion/pet.swift:348-387 | every pixel of the line touches the art's own edge |
| PetPixels.Buffer.EdgeFacesLine | cabinet/companion/pet.swift:371-387 | an edge pixel touches the line exactly when exposed within the buffer |
| PetWalk.Pet.RecomputeTrack | cabinet/companion/pet.swift:772-796 | the track beside the largest inset, never inverted; pet and target move to its nearest point |
| PetWalk.Pet.Roam | cabinet/companion/pet.swift:853-875 | each frame rests, picks a new target or takes one step, and never leaves the track, however narrow |
| PetWalk.Pet.Wander | cabinet/companion/pet.swift:843-851 | so does any number of frames |
| PetWalk.ArrivesExactly | cabinet/companion/pet.swift:859-874 | a leg arrives after exactly floor(distance / speed) frames and never overshoots |

## Left out

- Gate and graduation lanes of the recompute service: their probes and evaluations are not part of this model; the act lane is.
- The recorder, the verifier, the HMAC and the graduation and judge calibration arithmetic: not part of this model beyond the stated assumptions.
- Report rendering, weekly lines, command lines, series files and status files: formatting and I/O.
- `evidence_mirror.py` degradation markers and rate-limited warnings: they never touch counts or segments.
- `stratum_state` and `compute_agreement`: a threshold on numbers computed elsewhere.
- `collect_anchor`, `_parse_jsonl_dicts`, `_raw_trial_events`: reading files into the records the anchor checks compare; symbolic links and unreadable files are absent records here.
- Peer files, consent lookups and the outbound branch of `send_message`: a peer's consent enters as a flag, an onward queue as an answer.
- Xrange.ParseXrangeEntry: takes only the ASCII digits for digits, because stream ids and field names are ASCII.
- Calibration.CollectPairs: a label channel that is neither text nor null is not modelled.
- FuelCheck.CheckFuel: instants are numbers, so window bounds and row timestamps that name no day are not modelled; how a day prints is a parameter, and the summary's counts of gate rows and of distinct recompute events are left out.
- AnchorCheck.Check: returns findings as a set, because the source's order is that of sorted names.
- RelayRuns.RelayLosesNothing: says nothing about how often a row is delivered; a lost answer makes it arrive again, and the receiver is to recognise it.
- PetPixels.Buffer.Blit: pixels are records in a two-dimensional array, so the row-major byte index is not modelled.
- PetWalk.Pet.Roam: the frame counter is unbounded, where the source wraps at 64 bits.
- FreezeMarker.MarkerIsWhole: foreign objects put at the marker path by hand are not modelled; they read frozen like every answer but a missing entry.
- Sockets, peer credentials, file modes, redis and HTTP calls: replaced by steps that succeed or fail.
