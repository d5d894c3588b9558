# Vectis: a verified model of its cores

This project models the hard parts of Vectis in Dafny and proves what they promise:

- **Secret sharing over GF(2^8)** (`ShiftRing`, `GF256`, `Polynomials`, `Sharing`, `SharingTheorems`, `ShareEnvelope`):
  the byte loops are shown to be the arithmetic of the field of section 4.2 of FIPS 197, interpolation is shown correct
  over any field of characteristic two, and recovery, secrecy, soundness and error detection follow for `split` and `combine`.
- **The hash-chained audit log** (`AuditRecord`, `AuditWriter`, `AuditSystem`, `AuditAccounting`, `AuditProvenance`,
  `AuditChronicle`, `AuditShutdown`, `AuditVerifier`, `AuditLines`, `AuditSplicing`, `AuditAgreement`, `AuditRuns`,
  `AuditService`, `AuditCadence`): the group-commit writer runs as a class, and as one participant of an
  interleaving with record, confirm and shutdown calls over a bounded channel and a file whose every write, clock reading,
  signature and sync may fail. The offline verifier runs as a loop and as a fold.
- **Printers and parsers** (`Strings`, `Aad`, `Base64Url`, `TokenCodec`, `Fpe`): associated-data strings and the domain
  separation built on them, deterministic tokens, and the format layer of format-preserving encryption.
- **Small state machines** (`Limiter`, `LimiterOutcomes`, `Files`): the bounded admission queue over two fair semaphores, and the atomic
  creation of a file with rollback, with a fault or a stop possible at every system call.

`Text` and `Sequences` hold what the others share. Randomness, clocks, the hash, the ciphers and the tags are parameters;
where a theorem needs a law of one of them, the law is a hypothesis that names it. Source paths below are relative to the
root of the Vectis repository.

## Model

| member | source | states |
|---|---|---|
| GF256.GfMul | src/core/sharing.rs:650-660 | the eight masked rounds give the bit-selected sum of repeated doublings, for every pair of bytes |
| GF256.TimesIsRemainder | src/core/sharing.rs:650-660 | that sum is the carry-less product of the two bytes up to a multiple of x^8+x^4+x^3+x+1, so it is the product of FIPS 197 |
| GF256.FieldLaws | src/core/sharing.rs:650-682 | bytes under xor and this product are a field: associative, commutative, distributive, units, and every non-zero byte has an inverse |
| GF256.GfInverse | src/core/sharing.rs:671-682 | the masked square-and-multiply loop gives the 254th power, and that power inverts every non-zero byte |
| GF256.GfDiv | src/core/sharing.rs:662-669 | quotient in the field, and an error exactly for divisor zero |
| GF256.MaskSelects | src/core/sharing.rs:684-686 | masking with the mask of a bit adds the operand exactly when the bit is set |
| Polynomials.EvalIsPowerSum | src/core/sharing.rs:627-632 | the fold of evaluate_polynomial computes the sum of the terms c[i]*x^i |
| Polynomials.Uniqueness | src/core/sharing.rs:627-632 | two coefficient vectors of length n whose evaluations agree at n distinct points are equal |
| Polynomials.LagrangeInterpolates | src/core/sharing.rs:634-648 | what interpolate_at sums up is, at every x, the value of one polynomial with as many coefficients as points, and that polynomial goes through all of them |
| Polynomials.LagrangeRecovers | src/core/sharing.rs:634-648 | from n distinct points of a polynomial with n coefficients, the sum gives that polynomial's value at every x |
| Sharing.ValidateThreshold | src/core/sharing.rs:308-326 | accepts exactly 2 <= threshold <= shares <= 32 |
| Sharing.Split | src/core/sharing.rs:376-401 | errors for an empty or too long secret, otherwise shares numbered from 1 of which every byte lies on the polynomial of its secret byte and random bytes |
| Sharing.ValidateRawShares | src/core/sharing.rs:593-610 | accepts exactly non-empty lists of equally long shares with distinct non-zero indexes |
| Sharing.CoefficientAt | src/core/sharing.rs:636-644 | the inner loop gives the basis coefficient, or an error exactly when another share has the same index |
| Sharing.InterpolateAt | src/core/sharing.rs:634-648 | succeeds exactly for distinct indexes and then gives the value at x of any polynomial of matching length through the shares |
| Sharing.Combine | src/core/sharing.rs:403-431 | succeeds exactly when the shares are well formed and at every offset all lie on one polynomial with threshold coefficients, and returns its values at 0 |
| SharingTheorems.Recovery | src/core/sharing.rs:376-431 | any at least threshold distinct shares of one split, in any order and whatever the random bytes, meet the condition of combine with the secret itself |
| SharingTheorems.SplitThenCombine | src/core/sharing.rs:376-431 | running split and then combine on any sufficient choice of its shares returns exactly the secret |
| SharingTheorems.SecretIsUnique | src/core/sharing.rs:403-431 | no list of shares meets the condition for two secrets |
| SharingTheorems.AnyChoiceRecovers | src/core/sharing.rs:413-428 | taking another basis or fewer shares, down to the threshold, never changes the secret |
| SharingTheorems.OrderIrrelevant | src/core/sharing.rs:403-431 | permuting the shares changes neither acceptance nor secret |
| SharingTheorems.ErrorsDetected | src/core/sharing.rs:420-428 | with e shares beyond the threshold, altering the values of 1 to e shares always makes combine refuse |
| SharingTheorems.ErrorBoundIsExact | src/core/sharing.rs:420-428 | that bound cannot be raised: some alteration of e+1 shares is accepted with a different secret, for every split |
| SharingTheorems.SecretByteOpen | src/core/sharing.rs:386-398 | given values at threshold-1 distinct non-zero indexes, each candidate secret byte is explained by exactly one choice of random bytes |
| SharingTheorems.CoalitionLearnsNothing | src/core/sharing.rs:376-401 | the same for a whole split: whatever threshold-1 holders see, every secret of that length is explained by exactly one choice of all random bytes |
| ShareEnvelope.ShareTextFits | src/core/sharing.rs:433-462 | every share of a valid profile is encoded, in at most 8414 characters, below the 16384 the decoder allows |
| ShareEnvelope.ShareRoundTrip | src/core/sharing.rs:433-499 | decoding an encoded share gives back the set id and the share |
| ShareEnvelope.DecodeShareIff | src/core/sharing.rs:464-499 | a text decodes to a share exactly when it has the prefix and at most 16384 characters and encodes an envelope with the share's and the profile's values each in its own field, the tag of these fields, a set id of 16 bytes and a share in bounds |
| ShareEnvelope.SameTagSameShare | src/core/sharing.rs:464-499 | two accepted texts with equal tags decode to the same set and share, or the tags of these two shares collide |
| AuditRecord.SanitizedText | src/core/audit_chain.rs:869-875 | a sanitized field has no control character, at most 256 characters and at most 1026 JSON bytes, and clean short text is unchanged |
| AuditRecord.ControlsAreDropped | src/core/audit_chain.rs:869-875 | a control character anywhere in a text makes no difference to what is recorded |
| AuditRecord.LongTextIsCut | src/core/audit_chain.rs:869-875 | of a longer clean text the first 256 characters are recorded |
| AuditRecord.WriterRecordsFit | src/core/audit_chain.rs:730-754 | whatever the event, the record serialises to at most 9683 bytes, so write_event never fails on the 16384 limit |
| AuditRecord.WriterRecordsValidate | src/core/audit_chain.rs:884-949 | a record the writer builds passes the verifier's single-record checks exactly when its sanitized event and outcome are not empty |
| AuditWriter.WriterLoop.constructor | src/core/audit_chain.rs:471-474 | the writer starts from a file that holds the synced genesis record |
| AuditWriter.WriterLoop.WriteEvent | src/core/audit_chain.rs:725-769 | leaves state, file and result as the step function says, for every clock and write fault; on success the last line is the record of this event, field by field, with this clock reading |
| AuditWriter.WriterLoop.AppendCheckpoint | src/core/audit_chain.rs:771-807 | leaves state, file and result as the step function says, for every clock, signing and write fault |
| AuditWriter.WriterLoop.Receive | src/core/audit_chain.rs:654-680 | one command of a batch, with its failure cells, barriers and shutdown reply, as the step function says; AuditService.TakeOutcome says what that means |
| AuditWriter.WriterLoop.Commit | src/core/audit_chain.rs:685-704 | checkpoint when due and one sync per batch, and no sync of a poisoned or clean sink |
| AuditWriter.WriterLoop.EndBatch | src/core/audit_chain.rs:685-717 | the end of a batch, as the step function says; AuditService.EndOutcome says what that means |
| AuditWriter.WriterLoop.Run | src/core/audit_chain.rs:624-719 | the nested loops leave exactly what the fold over the received commands leaves |
| AuditSystem.DriveIsARun | src/core/audit_chain.rs:624-719 | whatever that loop does is one of the interleavings all system theorems speak about |
| AuditSystem.StepKeepsInv | src/core/audit_chain.rs:485-719 | every call, receive, seal, batch end, hang-up and drop keeps the bookkeeping, placement, barrier and durability invariant |
| AuditSystem.ConfirmMeansDurable | src/core/audit_chain.rs:499-516 | in every run and fault schedule, if a confirm has returned and its cell is empty, every record accepted before it with that cell is on a line of its own in the synced prefix |
| AuditSystem.PoisonIsAbsorbing | src/core/audit_chain.rs:631-716 | from a poisoned state the file never changes, nothing is placed, every record taken and every barrier answered later has its cell marked, and no shutdown succeeds |
| AuditService.CallIff | src/core/audit_chain.rs:485-516 | a command enters the channel exactly while the receiver lives and fewer than 1024 wait, and otherwise only a refused record or confirm marks its cell |
| AuditService.DropOutcome | src/core/audit_chain.rs:499-525 | a command dropped with the receiver: a confirm returns with its cell marked, a shutdown with an error, a record silently |
| AuditService.ReceiverSteps | src/core/audit_chain.rs:632-716 | when the writer takes a command, ends a batch (queue empty, or 256 commands and no shutdown) and drops the receiver |
| AuditService.TakeOutcome | src/core/audit_chain.rs:654-680 | a command taken in a reachable healthy state fails exactly when it is a record and the clock or the write fails or no sequence number is left; then its cell is marked, otherwise none is and a record is placed |
| AuditService.EndOutcome | src/core/audit_chain.rs:685-713 | a healthy batch end fails exactly when a due checkpoint or a needed sync fails, and then tells every confirm; otherwise it adds a checkpoint exactly when due, syncs exactly when that or a command of the batch asks for it, returns every confirm and marks no cell |
| AuditService.EverybodyIsAnswered | src/core/audit_chain.rs:654-717 | in every reachable state the open batch has a sync coming exactly when it holds a confirm, a shutdown or a placed standalone record, and every confirm and shutdown of an ended batch has been answered |
| AuditService.NoFalseAlarm | src/core/audit_chain.rs:624-719 | in every run without a fault the writer stays healthy and the marked cells are exactly those of calls the full or closed channel refused or dropped |
| AuditService.ConfirmSucceeds | src/core/audit_chain.rs:499-516 | in such a run a confirm of an ended batch has returned, with its cell as the channel left it, and with an empty cell all its records are synced |
| AuditService.StandaloneIsDurable | src/core/audit_chain.rs:211-227 | once the batch of a standalone record has ended and the writer is healthy, the record is on a synced line, with no confirm |
| AuditService.StandaloneSurvivesPowerFailure | src/core/audit_chain.rs:211-227 | and it is still there, on a line of its own, after whatever happens later and a power failure |
| AuditAccounting.SequenceNeverReused | src/core/audit_chain.rs:755-768 | in every reachable state the records in the file, a torn write included, are numbered 0..n-1, and next_sequence - 1 is the last checkpointed sequence plus events_since_checkpoint |
| AuditAccounting.CheckpointsKeepUp | src/core/audit_chain.rs:685-697 | before a shutdown is served, no stretch of the file has more than event_count + 255 records after its last checkpoint |
| AuditCadence.NoCheckpointTooEarly | src/core/audit_chain.rs:685-697 | in every reachable state each checkpoint follows at least event_count records after the previous one, save that of a shutdown, which is the last line and follows at least one |
| AuditAccounting.ShutdownCoversHead | src/core/audit_chain.rs:676-717 | a successful shutdown served every command queued before it, left the whole file synced, and left the head under a genuine checkpoint unless only genesis exists |
| AuditShutdown.AcceptedIsServedIff | src/core/audit_chain.rs:676-683 | of the commands the channel accepts, a stopped writer has served exactly those accepted before the drain of the shutdown found the queue empty |
| AuditShutdown.RecordKeptIff | src/core/audit_chain.rs:485-497 | once a shutdown has succeeded, an accepted record is on a synced line when it was accepted before that moment; otherwise every record line of the file after genesis was written for another command, one that was served |
| AuditShutdown.LateRecordLost | src/core/audit_chain.rs:682-719 | the input that loses a record: accepted while the writer winds down, shutdown successful, cell empty, file without it |
| AuditProvenance.EveryLineHasASource | src/core/audit_chain.rs:654-671 | in every reachable state each record line after genesis carries the event of a command the writer took, placed there or reported as failed, and a healthy writer has placed every record it took |
| AuditChronicle.FileTellsTheQueue | src/core/audit_chain.rs:654-671 | in every reachable state the file holds the genesis record, field by field, and then one record for each of the first commands taken, in queue order, none skipped or invented, each field of the event in its own place and each timestamp the clock reading of that write; with no failure these are all commands taken |
| AuditVerifier.VerifiedChain.FromGenesis | src/core/audit_chain.rs:960-970 | the state of a chain of one record |
| AuditVerifier.VerifiedChain.Push | src/core/audit_chain.rs:972-986 | refuses another chain, a sequence that is not the next and a wrong previous hash, and then changes nothing |
| AuditVerifier.VerifiedChain.Checkpoint | src/core/audit_chain.rs:988-1002 | refuses a checkpoint of another chain, sequence or head, and then changes nothing |
| AuditVerifier.VerifyFile | src/core/audit_chain.rs:304-429 | the loop over the lines gives the verdict of the fold, which AuditLines.AcceptedIff states on the lines alone |
| AuditVerifier.AcceptedChains | src/core/audit_chain.rs:363-410 | each chain of an accepted file is linked from a genesis record by hash, sequence and chain id, and its summary has its length, last sequence and head |
| AuditLines.AcceptedIff | src/core/audit_chain.rs:304-429 | a file is accepted exactly when it has a line and every line is in order after the lines before it: a well-formed record that hashes to its event hash and starts a chain or continues the last record, or a checkpoint with a verifying signature that names the last record |
| AuditLines.CheckpointsAreSigned | src/core/audit_chain.rs:809-859 | every checkpoint of an accepted file has a verifying signature, the version, type, key id and hash of a checkpoint, and the chain id, sequence and hash of the record before it |
| AuditLines.SummariesAreExact | src/core/audit_chain.rs:960-1014 | every field of every summary of an accepted file, from the records and checkpoints of its chain |
| AuditVerifier.SameHeadSameChain | src/core/audit_chain.rs:950-986 | two linked chains with one head hash are equal record by record, or a record of the one and a different record of the other have the same hash |
| AuditVerifier.HeadPinsChain | src/core/audit_chain.rs:363-429 | chains of two accepted files that report one head hash hold the same records, or records of these two chains collide |
| AuditVerifier.CheckpointPinsHistory | src/core/audit_chain.rs:392-410 | two accepted files that carry checkpoints of one head have the same records from the genesis of that chain up to them, or records of these two stretches collide |
| AuditVerifier.TamperingIsSeen | src/core/audit_chain.rs:304-429 | a file that carries a checkpoint of an accepted file in a chain with edited, dropped, inserted or moved records before it is refused, unless records of the two chains collide; other chains of the file are not covered |
| AuditSplicing.ExchangeUnseenIff | src/core/audit_chain.rs:363-410 | the first part of an accepted file can be exchanged for y unseen exactly when y is empty or accepted and the rest is empty, starts with a genesis record, or continues the chain y leaves open, unless records of the two open chains collide |
| AuditSplicing.CutUnseenIff | src/core/audit_chain.rs:363-410 | lines can be cut from an accepted file unseen exactly when nothing or a genesis record follows, or the chain open after them is the one open before, unless records of these two chains collide |
| AuditSplicing.JoinedFilesVerify | src/core/audit_chain.rs:372-383 | two accepted files, joined in either order, are accepted with the summaries of both |
| AuditAgreement.RunsReplay | src/core/audit_chain.rs:304-429 | files of several runs, appended, replay to one summary per run from any verifier state, exactly when no line is torn and none after genesis is unacceptable |
| AuditAgreement.ClearIsAboutEvents | src/core/audit_chain.rs:884-927 | the verifier can take all lines of a reachable file exactly when it can take every event that reached the file |
| AuditAgreement.WriterVerifierAgree | src/core/audit_chain.rs:304-429 | for any number of runs with any calls and faults on one file: accepted exactly when no run left a torn line and every event on file keeps a name and an outcome and is not named like genesis; then one summary per run, the writer's final state |
| AuditAgreement.HealthyRunsAgree | src/core/audit_chain.rs:304-429 | with no failed write or sync, acceptance depends exactly on the events the writers took, and every summary is the writer's final state |
| AuditAgreement.SummaryIsFinalState | src/core/audit_chain.rs:1004-1014 | of a healthy run, records, last_sequence, head_hash, chain_id and last checkpoint equal the writer's fields |
| AuditAgreement.LoopIsFromRun | src/core/audit_chain.rs:624-719 | what the writer loop leaves is the final state of a run, so the results above hold of it |
| AuditAgreement.BadEventSpoilsFile | src/core/audit_chain.rs:725-769 | for every reachable state of a healthy writer and every event the verifier cannot take: it is recorded without error, and whatever follows in this run, and whatever runs share the file, the file is refused |
| AuditAgreement.BadEvents | src/core/audit_chain.rs:869-875 | two such inputs: a name of control characters only, and the name of the genesis event |
| AuditRuns.RunsCanBeMoved | src/core/audit_chain.rs:372-383 | an accepted file of any runs is accepted as well with runs left out, repeated or reordered |
| AuditRuns.FirstRunForgotten | src/core/audit_chain.rs:372-383 | two runs of one record and one checkpoint each: without the first the file is still accepted and ends in the same genuine checkpoint |
| AuditRuns.PowerFailureIsAnEarlierStop | src/core/audit_chain.rs:624-719 | whatever complete lines a power failure keeps beyond the synced ones, they are the whole file the same run had at an earlier moment |
| AuditRuns.ConfirmedSurvivesPowerFailure | src/core/audit_chain.rs:499-516 | after a power failure every record before a confirm that returned with an empty cell is on a line of its own among those left, and the verifier accepts these exactly when it can take every event on them |
| Strings.SplitJoin | src/core/validation.rs:110-111 | splitting what was joined gives back the parts, when none holds the delimiter |
| Aad.ParseAadFields | src/core/validation.rs:106-123 | the loop returns the fields exactly when every part is one valid key=value pair |
| Aad.ParseBuildInverse | src/core/validation.rs:60-123 | a string parses to a list of fields exactly when the list is non-empty and builds to that string |
| Aad.ValidateLabels | src/core/validation.rs:345-391 | the seen-set loop accepts exactly bounded text of well-formed labels with distinct keys |
| Aad.LabelsIff | src/core/validation.rs:345-391 | such a text is printable, within the limit, and exactly a join of pairs of a key and a non-empty text with distinct keys and no delimiter inside a part |
| Aad.BuildMacDomainAad | src/core/mac.rs:346-370 | the loop builds base fields followed by one context field per label |
| Aad.DomainSeparation | src/core/mac.rs:346-370 | when no base key starts with "context.", the string determines both the base fields and the context |
| Aad.KeyInfosSeparate | src/core/deterministic_tokenization.rs:138-146 | keys derived for different purposes, profiles, key ids, algorithms or contexts never share an info string |
| Aad.KeyInfoParses | src/core/deterministic_tokenization.rs:138-146 | an info string parses back to purpose, profile, key id and last field, each under its own name, and the context labels |
| Aad.ReadWithShorterBaseIff | src/core/mac.rs:346-370 | a domain string can also be read with a shorter base exactly when its last base field could be the first label of the context |
| Aad.ReadWithLongerBaseIff | src/core/mac.rs:346-370 | it can be read with a longer base exactly when the context has two or more labels |
| Aad.OneReadingIff | src/core/mac.rs:346-370 | a domain string determines its base fields and its context exactly when its last base field could not be the first label of the context and the context has one label |
| Aad.ContextKeyAmbiguous | src/core/mac.rs:346-370 | two different calls that give the same string |
| Base64Url.DecodeInverse | src/core/deterministic_tokenization.rs:286-296 | a text decodes to given bytes exactly when it is their encoding |
| Base64Url.EncodeIsBase64 | src/core/deterministic_tokenization.rs:286-296 | the text is that of section 5 of RFC 4648 without padding: URL-safe alphabet, and each group of three bytes spelled by its four characters as one 24-bit number |
| TokenCodec.ValidateProfiles | src/core/deterministic_tokenization.rs:80-127 | accepts exactly lists of admissible profiles with distinct names, and the map then holds them all and nothing else |
| TokenCodec.SegmentInverse | src/core/deterministic_tokenization.rs:286-296 | the re-encoding check refuses nothing the strict decoder accepts |
| TokenCodec.AadFits | src/core/deterministic_tokenization.rs:205-217 | the associated data of every valid profile has 1 to 1248 bytes |
| TokenCodec.EncodeTotal | src/core/deterministic_tokenization.rs:240-250 | every in-bounds plaintext gets a token, of at most 89068 characters: encode never trips its own checks |
| TokenCodec.EncodeIff | src/core/deterministic_tokenization.rs:240-250 | a plaintext gets a token exactly when its length is within the bounds of the profile |
| TokenCodec.CodecInverse | src/core/deterministic_tokenization.rs:240-262 | a token decodes to an in-bounds plaintext exactly when that plaintext encodes to the token |
| TokenCodec.OneTokenPerPlaintext | src/core/deterministic_tokenization.rs:251-262 | two accepted tokens that decode to the same text are the same string, in bounds or not |
| Fpe.DomainIsLargeEnough | src/core/fpe.rs:954-964 | the early-exit saturating loop is true exactly when radix^len >= 1000000 over unbounded integers |
| Fpe.ValidateAlphabet | src/core/fpe.rs:847-866 | accepts exactly printable alphabets of 2 to 65536 distinct characters |
| Fpe.PrepareAlphabet | src/core/fpe.rs:868-880 | accepts exactly up to 65536 characters and maps each to the last place where it stands, which is the inverse of the alphabet exactly when its characters are distinct |
| Fpe.ValidatePreserveCharacters | src/core/fpe.rs:772-787 | accepts exactly at most 32 distinct characters without controls |
| Fpe.ValidatePreserved | src/core/fpe.rs:789-798 | accepts exactly such characters that do not overlap the alphabet |
| Fpe.ParseValue | src/core/fpe.rs:693-734 | accepts exactly values in bounds and format with a large enough domain, and separates digits from preserved characters with their positions |
| Fpe.Assemble | src/core/fpe.rs:1049-1067 | preserved characters go back to their positions and the digits fill the others in order |
| Fpe.Transform | src/core/fpe.rs:1008-1068 | encryption and decryption are parse, cipher and reassembly, errors included |
| Fpe.TransformKeepsFormat | src/core/fpe.rs:1020-1068 | the output has the same length, preserved characters in place and alphabet characters elsewhere, its digits are the cipher's, and it passes the same parser and domain test unless it is blank |
| Fpe.RoundTrip | src/core/fpe.rs:1008-1018 | encryption succeeds, its output is accepted by decryption, and decryption returns the plaintext |
| Fpe.RoundTripIff | src/core/fpe.rs:1008-1018 | a value round-trips under every lawful cipher exactly when no alphabet character is whitespace or it has a preserved character that is not |
| Fpe.RoundTripCanFail | src/core/fpe.rs:693-734 | a valid profile, an accepted value and a lawful cipher for which the round trip fails |
| Limiter.CryptoLimiter.TryExecute | src/core/blocking.rs:41-48 | the first attempt is the arrival step, which LimiterOutcomes.ArriveIff states in terms of permit holders, and keeps the invariant |
| Limiter.CryptoLimiter.TryPosition | src/core/blocking.rs:49-58 | the second attempt is the position step, which LimiterOutcomes.PositionIff states in terms of position holders, and keeps the invariant |
| Limiter.CryptoLimiter.StartWaiting | src/core/blocking.rs:59-63 | the wait guard and the request on the execution semaphore are the join step and keep the invariant |
| Limiter.CryptoLimiter.Admit | src/core/blocking.rs:64-92 | a granted caller drops both guards and is dispatched with its permit |
| Limiter.CryptoLimiter.TimeOut | src/core/blocking.rs:70-76 | a deadline takes the caller out of the line, or hands its permit on |
| Limiter.CryptoLimiter.Abandon | src/core/metrics.rs:82-86 | a cancelled wait gives back position, gauge and permit |
| Limiter.CryptoLimiter.Complete | src/core/blocking.rs:79-92 | a closure that ends, however it ends, gives its permit to the first in line or to the pool |
| Limiter.AdmissionSafety | src/core/blocking.rs:41-92 | under every interleaving both permit counts are conserved, at most max run and at most queued wait, the gauge equals the number of waiters, each caller is in exactly one place, and no permit idles while someone waits |
| Limiter.RefusalIsFinal | src/core/blocking.rs:41-77 | a rejected, timed-out or cancelled caller is never dispatched |
| Limiter.PermitHeldUntilEnd | src/core/blocking.rs:79-92 | a dispatched closure keeps its permit until it ends |
| Limiter.FirstInFirstOut | src/core/blocking.rs:62-63 | while a waiter is in line, nobody behind it has been granted a permit or dispatched |
| LimiterOutcomes.ArriveIff | src/core/blocking.rs:41-48 | an arriving caller is dispatched at once exactly when the limiter is open and fewer than max hold a permit, is refused exactly when it is closed, and otherwise goes on to the queue; nobody else is affected |
| LimiterOutcomes.PositionIff | src/core/blocking.rs:49-58 | a caller gets a position exactly when the queue is open and fewer than its size are held; it is refused and counted as full exactly when all are held |
| LimiterOutcomes.JoinIff | src/core/blocking.rs:59-63 | a queued caller is granted a permit exactly when fewer than max are held, is otherwise the last in line, and is refused exactly when the limiter is closed |
| LimiterOutcomes.ResumeOutcome | src/core/blocking.rs:64-68 | a granted caller that is polled runs with its permit, and its position is free |
| LimiterOutcomes.LeaveOutcome | src/core/blocking.rs:62-76 | a caller that times out, is cancelled or is woken by closing is refused, frees its position and passes a permit it was given to the first in line; only a timeout counts as one |
| LimiterOutcomes.EndOutcome | src/core/blocking.rs:79-92 | the permit of a closure that ends goes to the first in line of an open limiter, and otherwise to the pool |
| LimiterOutcomes.ClosingTurnsAway | src/core/blocking.rs:41-69 | closing takes no permit back, and turns away arrivals, queued callers and waiters |
| LimiterOutcomes.EveryWaiterCanBeServed | src/core/blocking.rs:59-92 | whoever is in line of an open limiter is dispatched after ends of closures and polls of granted callers alone |
| Files.TempName | src/core/files.rs:65-70 | the temporary name differs from the destination |
| Files.TempNamesDiffer | src/core/files.rs:65-70 | attempts for one file with another process id or counter have different temporary names |
| Files.FileSystem.WriteTemporary | src/core/files.rs:73-82 | the temporary file is created exclusively, in any partial state on a fault, and complete and synced on success |
| Files.FileSystem.Publish | src/core/files.rs:83-86 | the destination appears complete or not at all, and success leaves it on disk |
| Files.FileSystem.RollBack | src/core/files.rs:88-118 | undoing restores the directory, on disk too, or reports a failure, and exactly when an undo step that was needed failed |
| Files.FileSystem.WriteNewFileAtomically | src/core/files.rs:35-121 | at every crash point, and after a power failure at any of them, the destination is absent, as it was, or complete; success needs a free name and no fault and leaves exactly the new file; an error without a rollback failure leaves the directory as it was; a rollback failure is reported exactly when a needed undo step failed |

## Findings

Properties that the code does not have on all inputs, each with an input and the exact condition.

| property | input that fails | it holds exactly when |
|---|---|---|
| a record the channel accepts is processed by the writer (`AuditShutdown.LateRecordLost`) | shutdown is called, its drain finds the queue empty, and a record comes in before the receiver is dropped: `record` reports nothing, the shutdown succeeds, the record is lost | it was accepted before that last look into the queue (`AuditShutdown.AcceptedIsServedIff`, `AuditShutdown.RecordKeptIff`). A caller that confirms is told: `AuditSystem.ConfirmMeansDurable` |
| the verifier accepts what the writer wrote (`AuditAgreement.BadEventSpoilsFile`, `AuditAgreement.BadEvents`) | an event whose name or outcome consists of control characters, or that is named `audit.chain.started` | no line is torn and every event on file keeps a name and an outcome and is not named like genesis (`AuditAgreement.WriterVerifierAgree`) |
| a checkpoint shows that records before it are missing, added or moved (`AuditRuns.FirstRunForgotten`, `AuditRuns.RunsCanBeMoved`) | two runs of one record and one checkpoint each in one file: with the first run cut off, the file is accepted and still ends in the same checkpoint; so are runs in another order | seen, absent a collision, exactly when something follows the cut, it does not start with a genesis record, and the chain open at that point is another one (`AuditSplicing.CutUnseenIff`, `AuditSplicing.ExchangeUnseenIff`) |
| decryption undoes format-preserving encryption (`Fpe.RoundTripCanFail`) | alphabet ` 0123456789`, nothing preserved, value `123456`, and a cipher that maps it to blanks, which decryption refuses | no alphabet character is whitespace, or the value has a preserved character that is not (`Fpe.RoundTripIff`) |
| a domain string determines its base fields and context (`Aad.ContextKeyAmbiguous`) | base `context.a=1` with context `b=2`, and an empty base with context `a=1;b=2` | the last base field could not be the first label of the context, and the context has a single label (`Aad.OneReadingIff`). Among calls whose bases hold no key with `context.` in front it always does (`Aad.DomainSeparation`), and derived keys have such bases (`Aad.KeyInfosSeparate`) |

Where comment and code differ: the comment in the writer loop (src/core/audit_chain.rs:676-677) says that what is enqueued
after the shutdown command is still persisted. The model follows the code, which persists what is enqueued until the drain
finds the queue empty.

## Left out

- JSON: parsing and canonical form are not modelled. A line of the audit file is its parsed form or unreadable; where a size matters, the length of the canonical bytes is computed field by field.
- Hash, signatures, AES-SIV, FF1 and tags: foreign code. The hash is any function to 64 hexadecimal characters, a checkpoint line carries whether its signature verifies, and the ciphers and the rendering of a share envelope are pairs of functions with an inverse law.
- Expected heads and expected runs: the verifier takes neither, so nothing is claimed about lines cut off at the end of a file or about whole runs; AuditSplicing says exactly what goes unseen.
- AuditRuns.ConfirmedSurvivesPowerFailure: a power failure is taken to leave complete lines; a line it tears is unreadable and the file is then refused, like any torn line.
- The batch end of the writer is one step of the interleaving: calls that come in during checkpoint, sync and replies are placed before or after it, which changes no outcome, since that step reads neither the queue nor a failure cell.
- A buffered writer that completes a torn line when it is dropped: covered only as the case in which the failed write left the whole line.
- AuditRuntime::start: a genesis record that cannot be written or synced ends the start with an error; runs are modelled from a successful start.
- Error texts: refusals are one value per operation, except in secret sharing, where the model keeps the kinds of error.
- FPE authentication tags, subject modes, presets and profile loading, and MAC profile validation: table lookups and single checks around the modelled layer.
- Key derivation: only the info strings are modelled; the derivation function and subject seeds are not.
- Limiter.CryptoLimiter.TimeOut: time itself is not modelled; a deadline may pass at any step of the interleaving.
- Files.FileSystem.WriteNewFileAtomically: permission bits are not modelled, and other processes do not change the directory during the call.
- Zeroization and constant-time behaviour: not observable in a functional model.
- HTTP, command line, storage back ends, masking, permissions, routes and configuration loading: plumbing and table lookups that would add easy members.
