# Milestone-loop orchestrator: a verified model of its evidence tooling

The repository qualifies an orchestrator by running jobs and auditing what they leave behind. This project models the
parts of that tooling that carry an algorithm or a protocol, and proves what they are relied on for.

* **The job channel.** A coordinator on the host starts a virtual machine; a guest program inside it runs the job. They
  talk over a byte stream in newline-terminated JSON frames. The guest reports progress, sends an observation of its
  environment, waits to be admitted, runs its matrix, exports an archive in numbered base64 chunks, claims completion and
  waits for shutdown; if anything raises, a handler reports the failure and exports what there is. The coordinator
  reassembles frames from arbitrary reads, checks and answers them, rebuilds the archive, cleans up and decides its exit
  code. `HostJob` and `GuestJob` are the two programs, `JobChannel` puts them together over two byte queues under every
  schedule, `JobScript`, `JobWire` and `JobInvariant` show what every step keeps, and `JobGuarantees`, `JobTransfer`
  and `JobProgress` hold the results about all runs, `JobHandler`, `JobRescue`, `JobFailure` and `TornWrite` those about
  failures, and `JobWitness` builds runs that exist. `HostTranscript` and `HostVerdict` say what the
  coordinator's verdict means for a guest about which nothing is known. `HostRules` and `JobRules` spell out, with every
  constant, what the two programs and the channel do.
* **The frames.** `JsonText` prints values as the programs do, `JsonReading` reads JSON by the grammar of RFC 8259,
  `FrameReading` finds in it what the coordinator looks for, and `FrameText` shows what each frame says and that this is
  all the channel results assume. `JsonNesting` is about torn frames, `FrameSizes` about what the frame limit holds.
* **The input preparation's resolver** (`DependencyClosure`): a worklist over package alternatives. `ResolutionRules` says
  over the package lists themselves what it records.
* **The readers of `git cat-file --batch` output** (`BatchReader`) and **the pin inventories** (`PinInventory`): the change
  list between two inventories and the repair that applies one.
* **The proposal audit**: JSON Pointers for the leaves of a value (`JsonLeaves`), the mapping table checked against them
  (`MappingCheck`), the review of the normative files (`ProposalReview`), the seal over it (`ApprovalSeal`), the
  script's tests of itself (`MutationTests`), and in plain terms what is reviewed and accepted when (`SealRules`).
* **The audits' reconciliations and measurements** (`CasePreservation`, `ClockSamples`, `ExecutionIntervals`,
  `LiveSampling`).

## How it is written

A loop or an object that the source updates in place is a method or a class here, proved against a function, and the
results are lemmas about that function. The coordinator is `HostJob.Coordinator`; its specification is a state after a
sequence of lines (`HostJob.After`), and every result about it ends at that state. Input and output, clocks, hashing and
foreign programs are parameters: `HostJob.World` holds the texts of messages, the JSON reader, SHA-256 and whether a
reply can be sent; all results hold for every such world, under `JobChannel.Faithful` where texts matter.

## What the code does not do

Four expectations are false of the code. Each comes with an input and the exact condition under which it holds.

* Exit code 0 does not mean that no failure was reported. The inner loop goes on after a completion claim, and a failure
  message in the same read sets the flag but leaves the status (`HostVerdict.SuccessDespiteFailure`,
  `SuccessWithoutFailureIff`, `FrameSizes.SuccessDespiteFailureInJson`). The repository's own guest can bring this about:
  if its read of the shutdown raises, it reports a failure after its claim (`JobWitness.SuccessWithFailure`). The flag
  then says exactly whether anything came after the claim, and the archive is right all the same
  (`JobTransfer.SuccessMeansExactTransfer`). Success is clean when a read ends with the claim's newline
  (`HostVerdict.ClaimEndsItsRead`), and in every run in which that last read does not fail early
  (`JobTransfer.SuccessIsClean`).
* Exit code 0 does not by itself mean that the guest was admitted; it does exactly when an observation came before the
  claim, or one after it still passed (`HostVerdict.SuccessWithAdmissionIff`; in `SuccessDespiteFailure` none comes).
* A guest's handler cannot always export its evidence. If its archive passes its own size check and its export raises
  nothing, the coordinator takes it exactly when the observation, if it was sent, was admitted, the guest's own export had
  not begun, and the archive is not empty; otherwise the coordinator raises (`JobFailure.FailureIsReportedIff`,
  `JobWitness.EvidenceCanBeLost`). If the size check or the export raises, the coordinator is told so and is done, again
  under an exact condition (`JobFailure.ExportFailureIsReportedIff`, `JobWitness.EvidenceTooLarge`).
* A guest's handler cannot always report: the cut to 8000 and 16000 characters does not bound the escaped text
  (`FrameSizes.FailureTooLongToReport`, `SilentGuest`, `FailureFitsIff`).

## Model

| member | source | states |
|---|---|---|
| `Framing.IndexOf` | docs/runtime-qualification/ORCH-AUTH-01-C3/run-host.py:203-204 | the position at which a line is cut: the first newline, nothing before it is one |
| `Framing.JoinLines` | docs/runtime-qualification/ORCH-AUTH-01-C3/run-host.py:203-204 | cutting a stream into lines loses nothing: lines and tail spell the stream again, and neither holds a newline |
| `Framing.LinesOfJoin` | docs/runtime-qualification/ORCH-AUTH-01-C3/guest-job.py:28-34 | newline framing is unambiguous: newline-free lines and tail are read back from the stream they form, exactly |
| `Framing.LinesAppend` | docs/runtime-qualification/ORCH-AUTH-01-C3/run-host.py:201-204 | bytes that arrive later only add lines after those already complete; they join the old tail |
| `Framing.PrefixOfJoin` | docs/runtime-qualification/ORCH-AUTH-01-C3/run-host.py:203-204 | if the lines of one stream, followed by anything, spell another stream of lines, they are its first lines and the remainder spells the others |
| `HostTranscript.DrainReceives` | docs/runtime-qualification/ORCH-AUTH-01-C3/run-host.py:203-244 | the inner loop keeps: every byte is in a handled line or in the buffer, in order, and the state is the one those lines lead to |
| `HostTranscript.RunIsFraming` | docs/runtime-qualification/ORCH-AUTH-01-C3/run-host.py:189-205 | framing refinement: for every cutting of a stream into reads, the lines handled are its complete lines in order and the buffer is its unterminated tail; after an exception they are a prefix and no byte is lost |
| `HostTranscript.SlicingIsIrrelevant` | docs/runtime-qualification/ORCH-AUTH-01-C3/run-host.py:199-205 | two cuttings of one stream handle the same lines, except that one may stop earlier; if neither stops they end in the same state |
| `HostJob.Coordinator.constructor` | docs/runtime-qualification/ORCH-AUTH-01-C3/run-host.py:187-188 | the loop starts with an empty buffer, nothing expected, nothing sent and the error status |
| `HostJob.Coordinator.Send` | docs/runtime-qualification/ORCH-AUTH-01-C3/run-host.py:81-84 | a reply is recorded as sent, or the send raises and nothing was transmitted |
| `HostJob.Coordinator.WriteChunk` | docs/runtime-qualification/ORCH-AUTH-01-C3/run-host.py:208-214 | a chunk is appended only in sequence, decodable, at most 32768 bytes and within the announced size; the size is checked after the write |
| `HostJob.Coordinator.OpenArchive` | docs/runtime-qualification/ORCH-AUTH-01-C3/run-host.py:230-232 | an announcement is refused while an archive is open or outside 1 to 64 MiB less one byte; a second file is never created, but the announcement replaces the first before that raises |
| `HostJob.Coordinator.CloseArchive` | docs/runtime-qualification/ORCH-AUTH-01-C3/run-host.py:233-238 | an archive closes only at its announced size with matching announced, final and computed digests, and ends a failed job |
| `HostJob.Coordinator.HandleLine` | docs/runtime-qualification/ORCH-AUTH-01-C3/run-host.py:205-244 | one line changes exactly the fields its message names, for every message and every error |
| `HostJob.Coordinator.Receive` | docs/runtime-qualification/ORCH-AUTH-01-C3/run-host.py:199-244 | one read: the bound on the buffer, then every complete line in it, going on past completion and stopping at an exception |
| `HostJob.Coordinator.Serve` | docs/runtime-qualification/ORCH-AUTH-01-C3/run-host.py:189-244 | the read loop is the refinement target: it makes reads until completion or an exception, and no more |
| `HostRules.LineIff` | docs/runtime-qualification/ORCH-AUTH-01-C3/run-host.py:205-206 | a line counts if and only if it is read as a message with the run's id and nonce; any other raises |
| `HostRules.OnlyOurLines` | docs/runtime-qualification/ORCH-AUTH-01-C3/run-host.py:203-206 | a transcript that raised nothing holds only lines of this run |
| `HostRules.ReadIff` | docs/runtime-qualification/ORCH-AUTH-01-C3/run-host.py:199-204 | in any reachable state a read raises if and only if it fills the buffer to 524288 bytes, and then none of it is handled, or a line it completes raises, and then that line is the last one handled |
| `HostRules.AdmissionIff` | docs/runtime-qualification/ORCH-AUTH-01-C3/run-host.py:218-229 | an observation whose every field has its required value (platform, interface, three versions, the bound image, commit and tree, empty status and private refs, no forbidden path, three controllers) is stored and answered by an admission if that can be sent; with any one field different it raises and changes nothing |
| `HostRules.FailuresAreKept` | docs/runtime-qualification/ORCH-AUTH-01-C3/run-host.py:239-241 | a failure is kept with its text, a failed export also ends the job, and notes leave no trace |
| `HostRules.SealedIff` | docs/runtime-qualification/ORCH-AUTH-01-C3/run-host.py:208-238 | one sealed archive, spelled out: an announcement of more than 0 and less than 67108864 bytes, chunks numbered from zero whose decoded pieces are at most 32768 bytes each and together have the announced size and digest, and an end that repeats the digest |
| `HostTranscript.QuietTranscript` | docs/runtime-qualification/ORCH-AUTH-01-C3/run-host.py:208-238 | messages without failure or completion claim raise nothing if and only if every observation is admissible and admitted and the archive messages are an announcement, chunks numbered from zero within it and at most one matching end; the fields then spell out the bytes, size, digest and next number |
| `HostTranscript.ObservedIff` | docs/runtime-qualification/ORCH-AUTH-01-C3/run-host.py:239-244 | the status says success if and only if some completion claim is preceded by no failure, only admitted observations and one sealed archive; what follows cannot take it back |
| `HostTranscript.StatusIff` | docs/runtime-qualification/ORCH-AUTH-01-C3/run-host.py:203-245 | the same for the lines of any byte stream: none before the claim may be malformed or carry another run id or nonce |
| `HostVerdict.ExitZeroIff` | docs/runtime-qualification/ORCH-AUTH-01-C3/run-host.py:189-294 | exit code 0 if and only if a handled line completes such a transcript and every cleanup check holds |
| `HostVerdict.FileIsSettled` | docs/runtime-qualification/ORCH-AUTH-01-C3/run-host.py:208-238 | once an archive is closed its file never changes again, whatever is received |
| `HostVerdict.SuccessMeansSealedFile` | docs/runtime-qualification/ORCH-AUTH-01-C3/run-host.py:208-244 | after success the file is the in-order concatenation of the decoded chunks 0..k-1 before the claim, of the announced size and digest |
| `HostVerdict.SuccessDespiteFailure` | docs/runtime-qualification/ORCH-AUTH-01-C3/run-host.py:239-245 | counterexample: in one read, a failure message after the completion claim is handled and the status stays at success; no admission was sent either |
| `HostVerdict.SuccessWithoutFailureIff` | docs/runtime-qualification/ORCH-AUTH-01-C3/run-host.py:203-245 | exactly when it goes wrong: after success the failure flag is set if and only if a line handled after the claim reports a failure |
| `HostVerdict.ClaimEndsItsRead` | docs/runtime-qualification/ORCH-AUTH-01-C3/run-host.py:199-245 | a condition on the reads alone: if some read ends with the claim's own newline, nothing is handled after the claim, the status is success and no failure was reported |
| `HostVerdict.FailedFrom` | docs/runtime-qualification/ORCH-AUTH-01-C3/run-host.py:239-241 | the failure flag is set by exactly the failure messages handled, those before any point and those after it |
| `HostVerdict.AdmissionSent` | docs/runtime-qualification/ORCH-AUTH-01-C3/run-host.py:218-229 | whatever the lines, an admission was sent if and only if some line handled was an observation that passed and could be answered |
| `HostVerdict.SuccessWithAdmissionIff` | docs/runtime-qualification/ORCH-AUTH-01-C3/run-host.py:218-244 | at the claim an admission had been sent if and only if an observation came before it; in the end if and only if one came before it, or one after it still passed |
| `HostCleanup.GuestDirectory.ReadOwner` | docs/runtime-qualification/ORCH-AUTH-01-C3/run-host.py:273-274 | the record found is the content of owner.json, for every possible content |
| `HostCleanup.GuestDirectory.Remove` | docs/runtime-qualification/ORCH-AUTH-01-C3/run-host.py:273-282 | deletes everything if and only if the directory bears its own record and holds only the allowed regular files and sockets; otherwise deletes nothing |
| `HostCleanup.GuestDirectory.Finalize` | docs/runtime-qualification/ORCH-AUTH-01-C3/run-host.py:257-294 | exit code 0 if and only if the status is success and every check held, each named, with the eight allowed names; nothing is deleted unless process, unit and control group are gone and the directory is the run's own |
| `Base64.RoundTrip` | docs/runtime-qualification/ORCH-AUTH-01-C3/guest-job.py:86 | whatever the guest encodes (section 4 of RFC 4648) the coordinator decodes to the same bytes |
| `Base64.EncodedShape` | docs/runtime-qualification/ORCH-AUTH-01-C3/guest-job.py:86 | four characters for every three bytes, rounded up, all from the alphabet: what the frame limit must hold |
| `Base64.DecodedShape` | docs/runtime-qualification/ORCH-AUTH-01-C3/run-host.py:210 | strict decoding accepts only whole groups of four and yields at most three bytes for each |
| `Base64.EncodesBits` | docs/runtime-qualification/ORCH-AUTH-01-C3/guest-job.py:86 | each group of four characters stands for the 24 bits of its three bytes, six by six in the order of the alphabet, with padding for what is missing |
| `Base64.DecodesIff` | docs/runtime-qualification/ORCH-AUTH-01-C3/run-host.py:210 | exactly the texts of whole groups are decoded whose characters are of the alphabet, up to two at the end that may be padding |
| `Base64.ValueIff` | docs/runtime-qualification/ORCH-AUTH-01-C3/run-host.py:210 | the alphabet is the letters A to Z and a to z, the digits, plus and slash, valued in this order |
| `GuestJob.Port.Write` | docs/runtime-qualification/ORCH-AUTH-01-C3/guest-job.py:32 | one write takes some positive part of what it is given |
| `GuestJob.Port.Send` | docs/runtime-qualification/ORCH-AUTH-01-C3/guest-job.py:28-34 | for every pattern of partial writes the wire gains exactly the line and its newline, or nothing if they are 262144 bytes or more |
| `GuestJob.Port.SendChunks` | docs/runtime-qualification/ORCH-AUTH-01-C3/guest-job.py:84-86 | the wire gains the chunk messages of the whole archive in order, if and only if each fits |
| `GuestJob.Port.Export` | docs/runtime-qualification/ORCH-AUTH-01-C3/guest-job.py:81-87 | an export is sent whole if and only if the archive is under 64 MiB and every frame fits |
| `JobGuarantees.PayloadOfChunks` | docs/runtime-qualification/ORCH-AUTH-01-C3/guest-job.py:84-86 | the first n chunk messages carry the first n slices of the archive, numbered from zero, each at most 32768 bytes |
| `JobGuarantees.LastPosition` | docs/runtime-qualification/ORCH-AUTH-01-C3/guest-job.py:85 | the ceiling division makes the last chunk end where the archive ends |
| `GuestJob.Last` | docs/runtime-qualification/ORCH-AUTH-01-C3/guest-job.py:220 | the cut of an error text is its end: all of it, or its last n characters |
| `JobRules.MainSays` | docs/runtime-qualification/ORCH-AUTH-01-C3/guest-job.py:200-217 | everything the try block sends, in order: the setup notes, the observation, the matrix notes, the announcement, the chunks, the end and the claim |
| `JobRules.MainWaits` | docs/runtime-qualification/ORCH-AUTH-01-C3/guest-job.py:200-217 | it waits for the admission right behind the observation and for the shutdown at its end, nowhere else, and checks the archive's size before it exports |
| `JobRules.SlicesAre` | docs/runtime-qualification/ORCH-AUTH-01-C3/guest-job.py:84-86 | the i-th chunk message carries number i and the bytes from 32768 i on, at most 32768 of them |
| `JobRules.HandlerSays` | docs/runtime-qualification/ORCH-AUTH-01-C3/guest-job.py:218-223 | an exception in the try block: the handler sends the last 8000 and 16000 characters of the two texts, a note if they could not be written down, and then the whole export behind the same check |
| `JobRules.SecondException` | docs/runtime-qualification/ORCH-AUTH-01-C3/guest-job.py:223-226 | an exception in the handler's export is reported once; any other ends the guest |
| `JobRules.BytesMoveFreely` | docs/runtime-qualification/ORCH-AUTH-01-C3/guest-job.py:31-34 | a write moves any part of the line being sent and nothing else; a read moves any part of what is in flight up to 262144 bytes, unless the coordinator is done or has raised |
| `JobRules.ExceptionsComeFreely` | docs/runtime-qualification/ORCH-AUTH-01-C3/run-host.py:190-192 | the coordinator can be stopped at any time before it is done, and the guest can raise in any read and between any two other instructions |
| `JobRules.NextInstruction` | docs/runtime-qualification/ORCH-AUTH-01-C3/guest-job.py:28-40 | what each instruction does: a message whose line is under 262144 bytes is sent whole, a check passes if it holds, a read takes one line and accepts only the reply waited for; everything else raises |
| `JobInvariant.InvAlways` | docs/runtime-qualification/ORCH-AUTH-01-C3/guest-job.py:28-40 | in every reachable state: no byte is lost, reordered or invented between guest and coordinator, replies are in flight or were read in order, and the guest has sent a front of its main messages followed at most by its handler's |
| `JobWire.HostFollows` | docs/runtime-qualification/ORCH-AUTH-01-C3/run-host.py:203-205 | the coordinator's state is the one a front of the guest's messages leads to, and the rest of them is exactly what is still in buffer, queue and writer |
| `JobWire.RepliesAnswer` | docs/runtime-qualification/ORCH-AUTH-01-C3/run-host.py:218-244 | an admission answers an observation that was stored and is admissible; a shutdown answers a completion claim |
| `JobInvariant.HistoryShape` | docs/runtime-qualification/ORCH-AUTH-01-C3/guest-job.py:200-226 | what the guest has sent contains its observation and its claim only at their places in the main script |
| `JobInvariant.WaitingPoint` | docs/runtime-qualification/ORCH-AUTH-01-C3/guest-job.py:202-217 | a guest waits only for admission right after its observation and for shutdown after all its messages |
| `JobInvariant.ReadFindsItsReply` | docs/runtime-qualification/ORCH-AUTH-01-C3/guest-job.py:36-40 | no mistyped receive: the next reply is the one a waiting guest expects |
| `JobGuarantees.FrameBoundNeverFires` | docs/runtime-qualification/ORCH-AUTH-01-C3/run-host.py:199-202 | against this guest no read ever reaches the coordinator's bound of 524288 bytes |
| `JobGuarantees.AdmissionPrecedesDispatch` | docs/runtime-qualification/ORCH-AUTH-01-C3/guest-job.py:200-205 | in every run, a guest past its first read was admitted: its own observation is stored, exactly one admission was sent, first, and every field of that observation is the required one: commit, tree and image of the binding, empty status and private refs, the literal platform, interface and versions, none of the five forbidden paths, the three controllers |
| `JobGuarantees.NoStuckReceive` | docs/runtime-qualification/ORCH-AUTH-01-C3/guest-job.py:36-40 | a waiting guest faces a coordinator that raised, or has bytes in flight to one still reading, or has exactly the awaited line in flight to it |
| `JobTransfer.SuccessMeansExactTransfer` | docs/runtime-qualification/ORCH-AUTH-01-C3/run-host.py:199-245 | in any schedule of writes, reads and faults on either side, failing reads included, reported success means that the file is the guest's archive byte for byte with its size and digest, that the lines handled begin with the main messages, and that the failure flag is set if and only if more than these were handled |
| `JobTransfer.SuccessIsClean` | docs/runtime-qualification/ORCH-AUTH-01-C3/run-host.py:199-245 | success means that no failure was reported and only the main messages were handled, in every run in which no read after the claim fails while the coordinator is still reading |
| `JobWitness.SuccessWithFailure` | docs/runtime-qualification/ORCH-AUTH-01-C3/guest-job.py:216-220 | every healthy job has a run that ends in success with the failure flag set: the read of the shutdown raises, and one read brings the claim's newline and the report of the failure |
| `JobProgress.NothingRaises` | docs/runtime-qualification/ORCH-AUTH-01-C3/run-host.py:203-245 | no front of a healthy job's messages makes the coordinator raise |
| `JobProgress.Progress` | docs/runtime-qualification/ORCH-AUTH-01-C3/guest-job.py:200-217 | without outside faults a job that is not finished always has an enabled step |
| `JobProgress.RunsAreShort` | docs/runtime-qualification/ORCH-AUTH-01-C3/guest-job.py:31-34 | every schedule ends: effective steps are bounded by the work at the start |
| `JobProgress.FinishedMeansObserved` | docs/runtime-qualification/ORCH-AUTH-01-C3/run-host.py:242-244 | a guest that ran its script to the end faces a coordinator that reported success |
| `JobProgress.MaximalRunsDeliver` | docs/runtime-qualification/ORCH-AUTH-01-C3/guest-job.py:75-87 | end to end: for every archive of 1 byte to 64 MiB less one, every pattern of partial writes and every slicing, a run that cannot go on has delivered the archive, size and digest |
| `JobProgress.EveryRunCanDeliver` | docs/runtime-qualification/ORCH-AUTH-01-C3/guest-job.py:200-217 | every fault-free run can be carried on to delivery |
| `JobHandler.ShapeAlways` | docs/runtime-qualification/ORCH-AUTH-01-C3/guest-job.py:218-226 | in every run a guest that left its try block has sent a front of its main messages, then its failure report, perhaps a note, and a front of its export or the report that it failed; it announces an archive only if that passed the size check |
| `JobHandler.FailureLeads` | docs/runtime-qualification/ORCH-AUTH-01-C3/guest-job.py:218-220 | the first message after the main ones is the failure report |
| `JobRescue.RescueIff` | docs/runtime-qualification/ORCH-AUTH-01-C3/guest-job.py:218-224 | what the handler sends after k main messages: an archive that passes its size check is taken whole with the failure report if and only if the observation, if sent, passed, the guest's own export had not begun and the archive is not empty; one that does not pass leaves both errors recorded if and only if the observation passed and an own export was of an allowed size; otherwise the coordinator raises |
| `JobRescue.ExportFailureIff` | docs/runtime-qualification/ORCH-AUTH-01-C3/guest-job.py:223-224 | an export that raises after any number of its messages: both errors are recorded if and only if the observation passed and at most one archive, of an allowed size, was announced; otherwise the coordinator raises |
| `JobFailure.FailureIsReportedIff` | docs/runtime-qualification/ORCH-AUTH-01-C3/guest-job.py:218-226 | in every run that is not stopped from outside: once a handler has run to its end and the coordinator can read no more, it has the failure report and the whole archive if and only if the observation, if sent, passed, the own export had not begun and the archive is not empty; otherwise it has raised |
| `JobFailure.ExportFailureIsReportedIff` | docs/runtime-qualification/ORCH-AUTH-01-C3/guest-job.py:223-226 | the same for a handler whose export raised and that said so: the coordinator is done with both errors recorded, or has raised, under the exact condition |
| `JobFailure.CutOffIsNotDone` | docs/runtime-qualification/ORCH-AUTH-01-C3/guest-job.py:218-226 | a handler that raises without being able to say so leaves a coordinator that has raised or waits, never success |
| `JobFailure.HandlerEnds` | docs/runtime-qualification/ORCH-AUTH-01-C3/guest-job.py:218-226 | these are all the ways a failed guest ends |
| `JobWitness.EvidenceCanBeLost` | docs/runtime-qualification/ORCH-AUTH-01-C3/guest-job.py:223 | every healthy job has a run that loses its evidence: the guest fails right after announcing its own archive, every frame of its handler fits and is read out, and the coordinator has raised |
| `JobWitness.EvidenceTooLarge` | docs/runtime-qualification/ORCH-AUTH-01-C3/guest-job.py:223-224 | a run in which the rescued archive is 64 MiB or more: the coordinator ends without an exception and without the archive, told of both failures |
| `TornWrite.TornWriteIsHarmless` | docs/runtime-qualification/ORCH-AUTH-01-C3/guest-job.py:31-34 | a write that fails part-way through a frame, anywhere in any run: whatever follows, if it begins with a frame of the guest, and however it is cut into reads, success still means that the archive arrived exactly, a success already reported stands, and there is none unless the guest had sent its claim whole |
| `JobRescue.Twins` | docs/runtime-qualification/ORCH-AUTH-01-C3/run-host.py:239 | a failure report changes nothing in how later archive messages are handled, except that the archive's end completes the job |
| `JsonReading.TextBack` | docs/runtime-qualification/ORCH-AUTH-01-C3/guest-job.py:29 | a reader written by the grammar of RFC 8259 reads every compact text back, whatever delimiter follows it |
| `JsonReading.JsonBack` | docs/runtime-qualification/ORCH-AUTH-01-C3/run-host.py:205 | and every value from its whole text |
| `JsonReading.StringBack` | docs/runtime-qualification/ORCH-AUTH-01-C3/guest-job.py:29 | it reads every quoted string back, escapes and surrogate pairs included |
| `JsonReading.TextUnique` | docs/runtime-qualification/ORCH-AUTH-01-C3/guest-job.py:29 | compact `json.dumps` text is uniquely readable: equal texts, even followed by more, come from equal values |
| `JsonReading.EscapeUnique` | docs/runtime-qualification/ORCH-AUTH-01-C3/guest-job.py:29 | escaped characters are uniquely readable, surrogate pairs included |
| `JsonReading.DecimalUnique` | docs/runtime-qualification/ORCH-AUTH-01-C3/guest-job.py:29 | printed integers are uniquely readable before anything that is not a digit |
| `FrameText.FrameSays` | docs/runtime-qualification/ORCH-AUTH-01-C3/guest-job.py:28-29 | what the bytes of each frame say when read as JSON: the literal kind of the message, the run's id and nonce, and each value of the message under its literal name |
| `FrameText.ObservationSays` | docs/runtime-qualification/ORCH-AUTH-01-C3/guest-job.py:200-202 | and of an observation: every inspected value under its literal name |
| `FrameText.FrameReadsBack` | docs/runtime-qualification/ORCH-AUTH-01-C3/run-host.py:205-207 | the coordinator's reading of a frame, by those names, gives back the message |
| `FrameText.ReplySays` | docs/runtime-qualification/ORCH-AUTH-01-C3/run-host.py:81-82 | the coordinator's line is an object of exactly three members, its literal kind, the run's id and the nonce: what the guest compares it with |
| `FrameText.FrameUnique` | docs/runtime-qualification/ORCH-AUTH-01-C3/guest-job.py:29 | different messages have different frames |
| `FrameText.JsonWorldIsFaithful` | docs/runtime-qualification/ORCH-AUTH-01-C3/guest-job.py:29-40 | what the channel results assume of texts is met by JSON: no newline in a frame or reply, reading by the JSON grammar and the literal names inverts writing, the replies differ |
| `JsonNesting.NoObjectEndsInAnother` | docs/runtime-qualification/ORCH-AUTH-01-C3/guest-job.py:29 | something that begins like an object, followed by the whole text of an object, is no JSON text |
| `FrameText.JsonTornUnreadable` | docs/runtime-qualification/ORCH-AUTH-01-C3/guest-job.py:28-34 | what the result about torn writes assumes is met by JSON: a torn frame followed by a frame is no frame |
| `FrameSizes.ChunkFits` | docs/runtime-qualification/ORCH-AUTH-01-C3/guest-job.py:85-86 | every archive chunk frame is under 44000 bytes, far below the guest's limit of 262144 |
| `FrameSizes.ExportFits` | docs/runtime-qualification/ORCH-AUTH-01-C3/guest-job.py:83-87 | the whole export passes the guest's frame limit, whatever the archive holds |
| `FrameSizes.JsonJobIsHealthy` | docs/runtime-qualification/ORCH-AUTH-01-C3/guest-job.py:200-217 | the end-to-end results apply to JSON frames as soon as the notes and the observation fit |
| `FrameSizes.FailureFitsIff` | docs/runtime-qualification/ORCH-AUTH-01-C3/guest-job.py:218-220 | a failure report fits if and only if its escaped texts leave room for the rest of the frame |
| `FrameSizes.BasicFailureFits` | docs/runtime-qualification/ORCH-AUTH-01-C3/guest-job.py:220 | texts of the basic plane, cut to 8000 and 16000 characters, always fit |
| `FrameSizes.FailureTooLongToReport` | docs/runtime-qualification/ORCH-AUTH-01-C3/guest-job.py:218-226 | counterexample, at every reachable state in which the try block can raise: a traceback of characters beyond the basic plane survives the cut and exceeds the frame, so the handler raises and the guest ends without another message |
| `FrameSizes.SilentGuest` | docs/runtime-qualification/ORCH-AUTH-01-C3/guest-job.py:91-94 | such a run right after the first message: that message is all the coordinator gets, and it never hears of the failure |
| `FrameSizes.SuccessDespiteFailureInJson` | docs/runtime-qualification/ORCH-AUTH-01-C3/run-host.py:199-245 | the stray failure as JSON text fits one read and leaves the status at success |
| `LiveSampling.LimitNeverExceeded` | docs/runtime-qualification/ORCH-AUTH-01-C3/run-host.py:188-197 | at most 121 samples in any run, even though each turn reads the clock four times: the assertion cannot fire |
| `LiveSampling.LimitIsReached` | docs/runtime-qualification/ORCH-AUTH-01-C3/run-host.py:193-196 | 121 is exact: a run with that many samples exists |
| `LiveSampling.LiveList.constructor` | docs/runtime-qualification/ORCH-AUTH-01-C3/run-host.py:188 | the list starts empty with the last sample at zero |
| `LiveSampling.LiveList.Sample` | docs/runtime-qualification/ORCH-AUTH-01-C3/run-host.py:190-196 | one turn samples if and only if 1800 seconds have not passed and 15 have since the last sample was saved, and always passes its own assertion of at most 121 |
| `DependencyClosure.BestIsFirstNewest` | docs/runtime-qualification/ORCH-AUTH-01-C3/prepare-inputs.py:113-117 | the scan keeps the first of the newest candidates: none is newer, every earlier one is older |
| `DependencyClosure.PickIsFirstNewest` | docs/runtime-qualification/ORCH-AUTH-01-C3/prepare-inputs.py:108-118 | a selected candidate is one of its package's, within its pin, and the first of the newest there |
| `DependencyClosure.Provider` | docs/runtime-qualification/ORCH-AUTH-01-C3/prepare-inputs.py:122-127 | a clause has no provider if and only if no alternative is available and no installed available package provides one |
| `DependencyClosure.ProviderRule` | docs/runtime-qualification/ORCH-AUTH-01-C3/prepare-inputs.py:123-126 | the precedence by position: first installed and available alternative, else first available, else first installed package that provides one |
| `ResolutionRules.PickNone` | docs/runtime-qualification/ORCH-AUTH-01-C3/prepare-inputs.py:108-112 | a name stands for no candidate if and only if none is listed for it or none of its pinned version is |
| `ResolutionRules.PickIff` | docs/runtime-qualification/ORCH-AUTH-01-C3/prepare-inputs.py:108-118 | otherwise for exactly one: unpinned, the first in the whole list than which none in the list is newer; pinned, the first in the list of the pinned version |
| `ResolutionRules.ProviderMeans` | docs/runtime-qualification/ORCH-AUTH-01-C3/prepare-inputs.py:122-126 | the three rules of precedence over the lists themselves: first alternative that is listed and installed, else first listed, else first installed package that is listed and offers one |
| `ResolutionRules.NoProvider` | docs/runtime-qualification/ORCH-AUTH-01-C3/prepare-inputs.py:122-127 | a clause has no provider if and only if nothing of it is listed and nothing listed and installed offers any of it |
| `DependencyClosure.Asked` | docs/runtime-qualification/ORCH-AUTH-01-C3/prepare-inputs.py:120-128 | a record asks for exactly the providers of its non-blank clauses, and fails if and only if one has none |
| `DependencyClosure.Select` | docs/runtime-qualification/ORCH-AUTH-01-C3/prepare-inputs.py:113-117 | the loop selects the candidate the scan's specification names |
| `DependencyClosure.Append` | docs/runtime-qualification/ORCH-AUTH-01-C3/prepare-inputs.py:120-128 | the loop over clauses appends exactly the providers asked for, in order, or fails |
| `DependencyClosure.TakeLast` | docs/runtime-qualification/ORCH-AUTH-01-C3/prepare-inputs.py:106-128 | one turn of the worklist on its last name |
| `DependencyClosure.TakeKeeps` | docs/runtime-qualification/ORCH-AUTH-01-C3/prepare-inputs.py:105-128 | handling any pending name keeps: roots and needs are recorded or pending, and both lie inside every closed set over the roots |
| `DependencyClosure.TakeFails` | docs/runtime-qualification/ORCH-AUTH-01-C3/prepare-inputs.py:108-127 | where handling a name raises, no set over the roots is closed |
| `DependencyClosure.Turn` | docs/runtime-qualification/ORCH-AUTH-01-C3/prepare-inputs.py:105-128 | each turn keeps the invariant and lowers (available names not yet recorded, pending names) |
| `DependencyClosure.Resolve` | docs/runtime-qualification/ORCH-AUTH-01-C3/prepare-inputs.py:102-128 | terminates; returns the least closed set over the roots with each name's selected candidate, or fails only if no closed set exists |
| `DependencyClosure.ResolutionIsUnique` | docs/runtime-qualification/ORCH-AUTH-01-C3/prepare-inputs.py:105-128 | there is at most one resolution, and the order of the roots is irrelevant |
| `DependencyClosure.AnyOrderResolves` | docs/runtime-qualification/ORCH-AUTH-01-C3/prepare-inputs.py:106 | emptying the worklist in any order gives the same resolution |
| `DependencyClosure.Prepare` | docs/runtime-qualification/ORCH-AUTH-01-C3/prepare-inputs.py:102-129 | the preparation goes on with the resolution if and only if it exists and has more than 1 and fewer than 160 packages |
| `ResolutionRules.ResolutionIff` | docs/runtime-qualification/ORCH-AUTH-01-C3/prepare-inputs.py:102-129 | what is recorded, over the lists: for each name the candidate at the chosen place of its list, the roots, the provider of every clause, and nothing that any closed set over the roots could do without |
| `BatchReader.HeaderIfPrinted` | docs/source-authority/ORCH-AUTH-01-C6e/inspect-revised-input.ts:185-187 | the header test accepts every printed header and finds its id |
| `BatchReader.HeaderOnlyIf` | docs/source-authority/ORCH-AUTH-01-C6e/inspect-revised-input.ts:185-187 | and nothing else: an accepted header is the printed one |
| `BatchReader.RecordIs` | docs/source-authority/ORCH-AUTH-01-C6e/inspect-revised-input.ts:183-193 | the bytes of one printed object: id, the word blob, the decimal size, a newline, the content, a newline |
| `BatchReader.PeelBatch` | docs/source-authority/ORCH-AUTH-01-C6e/inspect-revised-input.ts:182-194 | a buffer is a batch for some rows if and only if its front is a record for the first and the remainder a batch for the others |
| `BatchReader.ReadRecord` | docs/source-authority/ORCH-AUTH-01-C6e/inspect-revised-input.ts:183-193 | one turn finds the record at the offset or fails, for every buffer |
| `BatchReader.ReadRevised` | docs/source-authority/ORCH-AUTH-01-C6e/inspect-revised-input.ts:171-196 | accepts if and only if the buffer is the print of objects, one for each pin, each with an id of forty hexadecimal digits and content of the pinned size and hash, whatever bytes it holds |
| `BatchReader.ReadEntries` | docs/source-authority/ORCH-AUTH-01-C6e/inspect-frozen-inputs.ts:195-237 | the second loop walks the same records and adds up exactly the object bytes and the pinned bytes |
| `BatchReader.ReadFrozen` | docs/source-authority/ORCH-AUTH-01-C6e/inspect-frozen-inputs.ts:190-238 | accepts if and only if the buffer is the print of objects, one for each entry: the named object, of the expected size and hash, and where raw bytes are retained these have the pinned size and hash, are UTF-8 without zero bytes, and differ from the content in nothing but CR LF for LF |
| `BatchReader.ReplaceIff` | docs/source-authority/ORCH-AUTH-01-C6e/inspect-frozen-inputs.ts:227-229 | the replacement turns one text into another if and only if they are the same pieces, none of which holds CR LF, joined by CR LF and by LF |
| `BatchReader.PrintedIsUnique` | docs/source-authority/ORCH-AUTH-01-C6e/inspect-revised-input.ts:182-195 | a buffer has one reading: two lists of objects for the same rows with the same print are equal |
| `BatchReader.OnlyOneLength` | docs/source-authority/ORCH-AUTH-01-C6e/inspect-revised-input.ts:195 | no proper prefix or extension of an accepted buffer is accepted |
| `BatchReader.CheckoutKeepsCrlfIff` | docs/source-authority/ORCH-AUTH-01-C6e/inspect-frozen-inputs.ts:227-229 | a checkout form still holds CR LF if and only if the raw bytes hold CR CR LF |
| `PinInventory.ComputeChanges` | docs/source-authority/ORCH-AUTH-01-C6e/inspect-revised-input.ts:104-118 | the loop computes the specification's list, or fails where it does |
| `PinInventory.DiffIff` | docs/source-authority/ORCH-AUTH-01-C6e/inspect-revised-input.ts:104-117 | a list exists if and only if both inventories have the same paths at the same places and no size changes under an unchanged hash |
| `PinInventory.DiffLists` | docs/source-authority/ORCH-AUTH-01-C6e/inspect-revised-input.ts:106-118 | it lists exactly the places whose hashes differ, in order, each with its path and both sizes and hashes |
| `PinInventory.DiffDescribes` | docs/source-authority/ORCH-AUTH-01-C6e/inspect-revised-input.ts:106-121 | the list holds for each path exactly the row of that place and nothing for any other path |
| `PinInventory.IndexChanges` | docs/source-authority/ORCH-AUTH-01-C6e/inspect-dependency-repair.ts:50-52 | the map built from the rows holds the last row for each path |
| `PinInventory.RepairPin` | docs/source-authority/ORCH-AUTH-01-C6e/inspect-dependency-repair.ts:56-73 | a pin is repaired if and only if its change starts from it and every file involved has the stated size and hash |
| `PinInventory.PinHoldsIff` | docs/source-authority/ORCH-AUTH-01-C6e/inspect-dependency-repair.ts:56-73 | a pin without a row needs its own file; one with rows is repaired by the last of them, if and only if that starts from the pin, both retained versions are as it says and the file is already the later one |
| `PinInventory.ApplyRepair` | docs/source-authority/ORCH-AUTH-01-C6e/inspect-dependency-repair.ts:50-78 | accepts if and only if every pin can be repaired and no path occurs twice, and returns the patched inventory |
| `PinInventory.CountPaths` | docs/source-authority/ORCH-AUTH-01-C6e/inspect-dependency-repair.ts:77-78 | as many file entries as pins means that no path occurs twice |
| `PinInventory.DiffThenPatch` | docs/source-authority/ORCH-AUTH-01-C6e/inspect-dependency-repair.ts:53-76 | applying the computed list to the original inventory yields the revised one |
| `PinInventory.AnyOrderPatches` | docs/source-authority/ORCH-AUTH-01-C6e/inspect-revised-input.ts:119-121 | so does any reordering of the list, which is all the sorted comparison accepts |
| `PinInventory.PatchThenDiff` | docs/source-authority/ORCH-AUTH-01-C6e/inspect-revised-input.ts:106-118 | comparing an inventory with its repair gives back every applied row that changed a hash; it fails if and only if a row changes a size under an unchanged hash |
| `PinInventory.RepairWithoutComparison` | docs/source-authority/ORCH-AUTH-01-C6e/inspect-dependency-repair.ts:67 | about the assignment alone, without the file checks around it: a change of size under an unchanged hash is applied, and the comparison of the two inventories then fails |
| `PinInventory.AcceptedRepairCompares` | docs/source-authority/ORCH-AUTH-01-C6e/inspect-dependency-repair.ts:55-76 | for every accepted repair and a collision-free hash, comparing the repaired inventory with the original gives back, path by path, every applied row that changes anything and no other |
| `PinInventory.AcrossBothIff` | docs/source-authority/ORCH-AUTH-01-C6e/inspect-revised-input.ts:111-117 | the list across two revisions exists if and only if no file returns to its first hash at another size |
| `PinInventory.ChangesCompose` | docs/source-authority/ORCH-AUTH-01-C6e/inspect-revised-input.ts:106-118 | the list across two revisions holds for each path the merge of the two lists' rows |
| `PinInventory.RepairsCompose` | docs/source-authority/ORCH-AUTH-01-C6e/inspect-dependency-repair.ts:50-76 | two repairs with any lists compose: the two lists in turn, the second's rows taken from where the first's started, do in one repair what the two do one after the other |
| `JsonLeaves.EscapeRoundTrip` | docs/proposals/ORCH-AUTH-01-r2/verify-proposal.ts:32 | key escaping is undone by section 4 of RFC 6901 and leaves no slash |
| `JsonLeaves.EscapeFirst` | docs/proposals/ORCH-AUTH-01-r2/verify-proposal.ts:32 | character by character: tilde becomes tilde zero, slash becomes tilde one, nothing else changes |
| `JsonLeaves.TokensOfPointer` | docs/proposals/ORCH-AUTH-01-r2/verify-proposal.ts:32 | reading a pointer gives back the keys it was built from |
| `JsonLeaves.LeavesRender` | docs/proposals/ORCH-AUTH-01-r2/verify-proposal.ts:30-35 | the leaves are the trails of keys to the scalars, in order, written as pointers |
| `JsonLeaves.TrailIff` | docs/proposals/ORCH-AUTH-01-r2/verify-proposal.ts:30-35 | a trail is listed if and only if its keys lead to its value and the value is a scalar |
| `JsonLeaves.LeavesEvaluate` | docs/proposals/ORCH-AUTH-01-r2/verify-proposal.ts:30-35 | evaluating a listed pointer against the value yields its leaf |
| `JsonLeaves.EveryScalarIsListed` | docs/proposals/ORCH-AUTH-01-r2/verify-proposal.ts:30-35 | every scalar of the value is listed, wherever it is |
| `JsonLeaves.PointersAreDistinct` | docs/proposals/ORCH-AUTH-01-r2/verify-proposal.ts:30-35 | no two leaves share a pointer, so each scalar is listed once |
| `MappingCheck.PassesMeansPermutation` | docs/proposals/ORCH-AUTH-01-r2/verify-proposal.ts:114-122 | counts that agree and a row for every leaf make the rows a permutation of the leaves |
| `MappingCheck.PermutationPasses` | docs/proposals/ORCH-AUTH-01-r2/verify-proposal.ts:114-122 | and every explained permutation passes |
| `MappingCheck.IndexRows` | docs/proposals/ORCH-AUTH-01-r2/verify-proposal.ts:114 | the map of rows by pointer holds the last row for each |
| `MappingCheck.CheckMapping` | docs/proposals/ORCH-AUTH-01-r2/verify-proposal.ts:112-122 | accepts if and only if rows and leaves are permutations of each other as pairs of pointer and value, and every row has a disposition and an explanation that are not empty |
| `SealRules.RoleIs` | docs/proposals/ORCH-AUTH-01-r2/proposal-review.ts:3-15 | the role of a path: one of the thirteen normative names; else under baseline/ or one of three names; else ending in .ts or .mjs; else advisory |
| `SealRules.LessIff` | docs/proposals/ORCH-AUTH-01-r2/proposal-review.ts:20 | the order of paths is the order of strings |
| `SealRules.SegmentsAre` | docs/proposals/ORCH-AUTH-01-r2/proposal-review.ts:23 | the segments looked at are exactly what stands between the slashes |
| `SealRules.ReviewIff` | docs/proposals/ORCH-AUTH-01-r2/proposal-review.ts:16-26 | an inventory is reviewed if and only if its scope is the thirteen names and no more, its paths rise, none of the thirteen is missing, and each entry has a path that stays inside, the path's role, 64 hexadecimal digits and a safe size |
| `SealRules.ReviewHolds` | docs/proposals/ORCH-AUTH-01-r2/proposal-review.ts:27-32 | what a review holds: the baseline with exactly the normative entries in order, its digest, and under that the whole inventory and its digest |
| `ProposalReview.OrderedAll` | docs/proposals/ORCH-AUTH-01-r2/proposal-review.ts:19-20 | paths that are distinct and sorted rise between any two places |
| `ProposalReview.PayloadIff` | docs/proposals/ORCH-AUTH-01-r2/proposal-review.ts:27-30 | accepted inventories with one baseline have the same payload if and only if they have the same normative entries; the digest then agrees whatever else they hold |
| `ProposalReview.PayloadPaths` | docs/proposals/ORCH-AUTH-01-r2/proposal-review.ts:21-29 | the payload lists exactly the declared normative paths, in order |
| `ApprovalSeal.RefreshIff` | docs/proposals/ORCH-AUTH-01-r2/verify-proposal.ts:339-341 | a refresh is accepted if and only if baseline and normative entries are the stored ones |
| `ApprovalSeal.ReviewManifest.constructor` | docs/proposals/ORCH-AUTH-01-r2/verify-proposal.ts:337 | the directory starts without a manifest |
| `ApprovalSeal.ReviewManifest.Audit` | docs/proposals/ORCH-AUTH-01-r2/verify-proposal.ts:321-342 | one invocation of seal, refresh or check, with its effect on the stored manifest; a check and whatever is not accepted leave it as it was |
| `ApprovalSeal.ApprovalNeverMoves` | docs/proposals/ORCH-AUTH-01-r2/verify-proposal.ts:336-342 | over every run with any edits of the reviewed files in between, a stored payload and its digest stay, and both stored digests are those of what is stored |
| `ApprovalSeal.OneApproval` | docs/proposals/ORCH-AUTH-01-r2/verify-proposal.ts:336-342 | from an empty directory, everything stored later approves the payload of the first accepted seal |
| `ApprovalSeal.StoredIsLastAccepted` | docs/proposals/ORCH-AUTH-01-r2/verify-proposal.ts:336-342 | what is stored is always the review of the inventory accepted last; nothing is stored before one is |
| `SealRules.CheckIff` | docs/proposals/ORCH-AUTH-01-r2/verify-proposal.ts:342 | after any run a plain check changes nothing, and is accepted if and only if its own tests pass and something was accepted before, the last of it with the same entries and baseline |
| `SealRules.SealIff` | docs/proposals/ORCH-AUTH-01-r2/verify-proposal.ts:336-338 | after any run a seal is accepted if and only if its own tests pass and nothing was accepted before |
| `SealRules.RefreshAfterIff` | docs/proposals/ORCH-AUTH-01-r2/verify-proposal.ts:339-341 | after any run a refresh is accepted if and only if its own tests pass and something was accepted before, the last of it with the same baseline and normative entries |
| `SealRules.RefreshOfStored` | docs/proposals/ORCH-AUTH-01-r2/proposal-review.ts:34-40 | whatever the manifest holds, a refresh needs both its digests to be those of its payloads and its payload to be the new one |
| `MutationTests.NegativeTests` | docs/proposals/ORCH-AUTH-01-r2/verify-proposal.ts:332-334 | dropping the goal, reclassifying it or shrinking the scope is refused for every accepted inventory |
| `MutationTests.SelfTestsIff` | docs/proposals/ORCH-AUTH-01-r2/verify-proposal.ts:323-334 | with a collision-free digest the script's mutation tests pass if and only if CHECK-DESIGN.md and proposed/PROJECT_GOAL.md are there and do not already carry the mutant hash of 64 ones and 64 twos |
| `CasePreservation.RemovalIsInclusion` | docs/source-authority/ORCH-AUTH-01-C6b/audit.ts:312-317 | removing each old case succeeds if and only if the old cases are a sub-multiset of the new, and leaves the exact multiset difference |
| `CasePreservation.RemovalIsScan` | docs/source-authority/ORCH-AUTH-01-C6b/audit.ts:312-317 | what remains is what a single scan leaves: of each identity its first occurrences go, as many as are named |
| `CasePreservation.OrderOfRemovals` | docs/source-authority/ORCH-AUTH-01-C6b/audit.ts:313 | the order of the old cases changes neither the verdict nor what remains |
| `CasePreservation.RemovalSplits` | docs/source-authority/ORCH-AUTH-01-C6b/audit.ts:312-317 | every place of the new list is removed for one old case or kept, never both, and kept places stay in order |
| `CasePreservation.PreserveCases` | docs/source-authority/ORCH-AUTH-01-C6b/audit.ts:312-317 | the loop, with all of the above |
| `CasePreservation.Reconcile` | docs/candidate-runtime/ORCH-AUTH-01-C6c/audit.ts:259-273 | accepts if and only if both runs hold the renamed identities often enough and dropping their first occurrences leaves the same tests in the same order |
| `CasePreservation.ReconciledBijection` | docs/candidate-runtime/ORCH-AUTH-01-C6c/audit.ts:247-273 | an accepted reconciliation is a bijection between the runs that does nothing but the declared renames |
| `ClockSamples.FindJumps` | docs/source-authority/ORCH-AUTH-01-C6a/audit.ts:228-247 | accepts samples if and only if each reading is in order and none starts before the one before it, and lists, in order and each once, exactly the steps on which the clocks differ by more than 100000000 ns, with their differences |
| `ClockSamples.JumpsAccountForDrift` | docs/source-authority/ORCH-AUTH-01-C6a/audit.ts:235-246 | the listed differences account for the drift of the whole run up to 100000000 ns for each step not listed |
| `ClockSamples.CheckOrder` | docs/source-authority/ORCH-AUTH-01-C6a/audit.ts:296-306 | accepts if and only if each epoch is at least the one before and each reading starts after the one before ended |
| `ClockSamples.EpochsRise` | docs/source-authority/ORCH-AUTH-01-C6a/audit.ts:297-301 | accepted epochs never go back between any two samples |
| `ClockSamples.ReadingsAreApart` | docs/source-authority/ORCH-AUTH-01-C6a/audit.ts:302-305 | accepted readings that are themselves in order are apart between any two samples |
| `ClockSamples.BracketingDecides` | docs/source-authority/ORCH-AUTH-01-C6a/audit.ts:302-305 | without that the neighbour check does not reach further: a reading keeps all readings around it apart if and only if it is itself in order |
| `ExecutionIntervals.CheckExecutions` | docs/source-authority/ORCH-AUTH-01-C6e/inspect-linux-precommit.ts:203-241 | accepts if and only if every execution is sound, is recorded as longer than nothing and shorter than its outer timeout, starts no earlier than the one before finished, ends after it starts, and lasts to within 1000 ms what is recorded |
| `ExecutionIntervals.NeverOverlap` | docs/source-authority/ORCH-AUTH-01-C6e/inspect-linux-precommit.ts:228-230 | each accepted execution finishes no later than any later one starts |
| `ExecutionIntervals.DurationsFitTheSpan` | docs/source-authority/ORCH-AUTH-01-C6e/inspect-linux-precommit.ts:228-230 | the recorded durations together are less than the whole span plus a second each |

## Left out

- TornWrite.TornWriteIsHarmless: says what the coordinator concludes after a torn write. That write is not a step of
  the composed system, so the results about waiting, progress and rescue do not cover what follows it.
- What a read that raises has taken from the channel: no guest reads again after one, so it is left there. A channel
  closed by the guest leaves the coordinator waiting.
- HostJob.Coordinator.Send: a failing send transmits nothing and leaves no record. In the source `sendall` can transmit a
  part before it raises, and the log written after it can raise when the whole reply is out; the log written for each
  received message can raise too. The guest accepts exactly the text the coordinator sends rather than any JSON with the
  same members.
- HostJob.Coordinator.HandleLine: a message that lacks a member the coordinator reads, or has it at another type, counts
  as unreadable. The source acts before it finds out: a failure without `error` has set the failure flag, an announcement
  without `sha256` has created the file, and an archive end without it has closed the file.
- The deadline, QEMU's exit and the log sizes: they appear as one step that stops the coordinator at any time, and the
  waiting of `select` as the schedule.
- FrameText.FrameSays: members that nobody inspects. A note keeps its kind and one text; the kernel in `boot`, the
  numbers in `heartbeat` and the volumes in `oci-completed` are not there, nor the uninspected members of the observation.
- JsonReading.JsonBack: the reader takes the grammar's ASCII texts, with integers for numbers, and rejects a lone
  surrogate that Python would accept. Results about an arbitrary guest do not use it: there the reader is a parameter.
- Base64.DecodedShape: padding that follows a complete group is rejected here; versions of Python differ on it.
- SHA-256 is an uninterpreted function; freedom from collisions is assumed only where a lemma says so.
- QEMU, systemd, `/proc`, control groups, namespaces and the Docker matrix itself. The finalizer's observations are
  truth values, and failures of its directory listing and deletions are not modelled.
- HostCleanup.GuestDirectory.Finalize: the report's other fields and the paths before the cleanup's own checks (closing
  sockets, asking QEMU to quit, stopping the unit) are not part of the model.
- Debian version comparison (any strict weak order), the parsing of dependency fields and index files, signatures and
  downloads.
- The fixed counts the audits also assert (331 pins, 87 leaves, 46 and 36 remaining cases, 40 tests).
- JavaScript's comparison of strings by UTF-16 units and the object order of integer-like keys; strings here are
  sequences of characters and members keep their order. The results about leaves do not depend on that order.
- `git check-attr` is a truth value, UTF-8 validity a parameter, and file reads in the repair are lookups in maps.
- The construction and sorting of test identities; `CasePreservation.OrderOfRemovals` shows that their order is
  irrelevant to the removal.
- ExecutionIntervals.CheckExecutions: the checks of names, arguments, users and exit codes are one truth value, durations
  are real numbers without rounding, and the output streams are not read.
- LiveSampling.LiveList.Sample: what a sample holds is not modelled, only when it is taken.
- BatchReader.PeelBatch: `indexOf` returning -1 is the same failure as an empty header, because both fail one assertion.
- JobFailure.FailureIsReportedIff: speaks of failures before the completion claim; after it, the coordinator's verdict
  is that of `JobTransfer.SuccessMeansExactTransfer`.
- JsonReading.TextUnique: characters are Unicode scalar values. A Python string may also hold lone surrogates, and two of
  them can have the same `json.dumps` text as one character beyond the basic plane.
- DependencyClosure.ProviderRule: the installed packages are a list in the dictionary's order; that the dictionary keeps
  the last stanza of a name at the place of its first is not modelled.
- ApprovalSeal.ApprovalNeverMoves: the edits between invocations are edits of the reviewed files, the baseline and the
  scope; an edit of review-manifest.json itself is not part of the model. A refresh refuses one whose digests do not fit
  their payloads (proposal-review.ts:36-37), and a check one that differs in anything.
- Lease, recovery and state-generation protocols that the repository describes; their code is not part of this model.
