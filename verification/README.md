# Norite: logs, configuration, credentials and sign-in, proved

This project models the stateful parts of Norite's daemon and backend in Dafny and proves what their code and comments
promise, for every input, every run and every interleaving. `dafny verify dfyconfig.toml` checks all of it.

- **The daemon's log** (`Bytes`, `LogLines`, `LogSplitter`, `LogTail`, `LogTailFacts`, `LogFollow`, `LogRuns`,
  `LogExact`, `LogFilter`). The specification is the lines of a byte sequence. The chunked splitter, the backward
  newline search, the window compacted in place, `Tail` and the follower are classes and loops proved against it, and
  the runs put a follower beside a daemon that writes, rotates, empties and prunes. `MaxLine`, `readChunk`, `maxBatch`
  and `maxScan` are parameters.
- **The config editor** (`Splice`, `TomlKeys`, and the modules named `Toml` and `Config...`). A document is its scanned
  lines: table headers and keys with the text they were written as, and everything else. `Toml` says which documents are
  valid, after the sections "Keys" and "Table" of TOML v1.0.0. The planner, the stable sort, the single pass over the
  bytes, the scan, unset, export, import and the merge of two clients' files are methods from text to text, equal to the
  byte to specifications on documents. The theorems are about those: setting all keys against one read is setting them
  one at a time, what reads back, round trips, ownership.
- **Writing the file** (`AtomicFile`, `Links`, `ConfigUpdate`, `ConfigLock`, `ConfigToggle`). A file system in which what has not
  been flushed may be lost by a crash after any step, and a bounded optimistic retry loop with an editor that takes no lock.
- **The credential store** (`Credentials`, `CredentialRuns`, `DeviceId`). One record, two secret backends that
  processes choose between on their own, a device-id file, and any call failing; renewals are a read, a wait and a swap,
  interleaved with logins and logouts.
- **The local socket** (`IpcFrame`, `IpcClient`). Length-prefixed frames on a byte stream, and the request
  multiplexer as steps of many callers and one reader.
- **Versions and device codes** (`Text`, `Version`, `UserCode`, `DeviceFlow`). Semantic-version precedence, typed
  codes, and the device-code flow as guarded updates of rows by several actors.

## Where the code and its promises part

Each of these is stated by the lemmas named, as a law with its exact condition or as an input on which it happens.

- A `Tail` that wants no entries of a log whose last, terminated line is longer than `maxScan` leaves the follower
  skipping, and the next line written is dropped (`LeftOverFaithful`, `TailOfNothingDropsALine`).
- A followed, unfiltered `Tail` of n lines returns n-1 entries when the file ends in an unfinished line; with a filter that
  keeps everything it returns n (`FoundExact`, `BackwardAgreesWithForward`).
- A follower's poll is right for every content it may find exactly under the condition of `FollowableIff`. Among what that
  rules out: a file emptied and grown back to the offset (`RegrownIff`), and one emptied, written and then renamed
  between two polls, which `finish` reads from the old offset (`EmptiedThenRotatedIff`).
- `setAll` differs from one edit at a time when an edit takes away the file's last CRLF and a later one adds a line: the
  batch writes CRLF, the single calls a plain newline (`AllAtOnceIsOneByOne`, `EndingIsLost`).
- Map keys made by joining a path with a NUL character take two paths for one when a key holds that character
  (`TakenForAnotherIff`, `ByIdIff`, `ValueOfAnother`).
- Taking stale keys out of a file before a merge leaves their table's header, so a table its owner turned into a value can
  make the merge fail, although a comment says that it is then out of the way, `daemon/config/inspect.go:438-440`
  (`MergesIff`, `HeaderInTheWay`).
- A save between the second look at a config file and the rename is overwritten (`NoLostEditIff`, `SaveInTheGapIsLost`).
- A login that stores its token and then cannot write the record leaves a token that nothing speaks of (`StepStraysIff`,
  `ALoginThatStrays`), and one to another instance leaves a record that names a secret which is gone
  (`FailedLoginStrandsIff`, `ALoginThatStrands`).
- A device id answered from a write that was not flushed may be another one after a crash (`ACrashMayTakeItBack`).
- `WriteEncoded` sends an empty payload that `ReadFrame` refuses (`IpcFrame.ReadsBack`).
- `DeviceDenyTooLate` is documented as an approval already redeemed, and is reported for codes with which nobody signed
  in (`TooLateMeansSignedInIff`, `DenyTwiceSaysTooLate`).

## Model

| member | source | states |
|---|---|---|
| LogSplitter.RunConcat | daemon/logfile/tail.go:296-331 | Reading two pieces one after the other emits the same lines, with the same flags, and ends in the same state as reading their concatenation: how a stream is cut into chunks is invisible. |
| LogSplitter.RunIsLines | daemon/logfile/tail.go:296-331 | From the fresh state the emitted lines are exactly the terminated lines of the bytes, each cut to `MaxLine` and less a trailing carriage return, and the state left is the unfinished line cut the same way. |
| LogSplitter.FlushedIsLast | daemon/logfile/tail.go:332-338 | Flushing at the end of a stream emits exactly the unfinished last line, when there is one, so that together with what came before every line has come out. |
| LogSplitter.RunSkipping | daemon/logfile/tail.go:305-331 | While `skip` is set, everything up to and including the next newline is dropped and what follows is read as a fresh stream. |
| LogSplitter.Splitter.Feed | daemon/logfile/tail.go:305-331 | The bulk-copying loop emits and leaves exactly what the byte-at-a-time specification does, and the buffer never exceeds `MaxLine`. |
| LogSplitter.Splitter.Flush | daemon/logfile/tail.go:332-338 | Emits the unfinished line, if any, and leaves the splitter fresh. |
| LogSplitter.SplitChunks | daemon/logfile/tail.go:272-295 | A stream fed in any division into chunks and then flushed yields the cut lines of the whole byte sequence. |
| LogLines.LinesRejoin | daemon/logfile/tail.go:305-331 | The specification itself loses nothing: its lines, rejoined with newlines, are the bytes they came from. |
| LogLines.CutIs | daemon/logfile/tail.go:299-331 | What is kept of a line: all of its first `MaxLine` bytes but for one carriage return that ends them, and a flag set exactly when the line is longer. |
| LogTail.LineStart | daemon/logfile/tail.go:237-271 | The backward search in chunks of any size stops where the nth newline from the end of the last `maxScan` bytes is, or at the bound with `cut` set. |
| LogTail.NthBeginsLastLines | daemon/logfile/tail.go:237-271 | What follows the nth newline from the end is exactly the last n lines of the bytes, an unfinished one included. |
| LogTail.FeedRange | daemon/logfile/tail.go:272-295 | Feeding a range of a file chunk by chunk reads exactly that range, stopping where the file does. |
| LogTail.Window.Collect | daemon/logfile/tail.go:196-217 | The window compacted in place always ends with the newest n entries seen, and never holds more than 2n. |
| LogTail.Window.Newest | daemon/logfile/tail.go:218-236 | What is returned is the newest n of everything collected. |
| LogTail.KeptAreChosen | daemon/logfile/tail.go:207-217 | The filter: the entries of some lines are the parsed lines at an increasing list of positions, which are exactly those whose entry is wanted; without a filter all are. |
| LogTail.KeptIff | daemon/logfile/tail.go:207-217 | An entry comes of some lines if and only if it is wanted and is the entry of one of them. |
| LogTail.ReadNewest | daemon/logfile/tail.go:173-236 | The whole read returns exactly the entries the specification finds and every one of them wanted by the filter, and leaves the splitter in the state a follower goes on from. |
| LogTailFacts.FoundIsSuffix | daemon/logfile/tail.go:173-236 | For any file, bound and n, the entries found are a contiguous end of the kept lines; read from the first byte they are exactly the last n of them. |
| LogTailFacts.FoundExact | daemon/logfile/tail.go:173-236 | When the file is within `maxScan`, how many of the last kept lines come back, for every file, exactly: n, or n-1 when nothing is filtered, the read is followed and the file ends in an unfinished line. |
| LogTailFacts.BackwardAgreesWithForward | daemon/logfile/tail.go:189-195 | Counting newlines backwards (no filter) and scanning everything (a filter that keeps all) agree if and only if the read is flushed, or the file has no unfinished last line, or it has fewer than n terminated ones. |
| LogTailFacts.LeftOverFaithful | daemon/logfile/tail.go:173-189 | The state left for the follower is the one reading from the first byte would have left if and only if the search was not cut inside the last line. |
| LogTailFacts.TailOfNothingDropsALine | daemon/logfile/tail.go:181-189 | The other case happens: with no entries wanted and a terminated last line longer than the bound, the next line written is dropped. |
| LogFollow.Tail | daemon/logfile/tail.go:123-158 | Returns the live file's newest entries, preceded by the newest backup's when the live one was read from its first byte and came up short, at most as many as were asked for and never more than ten thousand, every one wanted by the filter; and a follower placed at the live file's end. |
| LogFollow.TailHidesNoGap | daemon/logfile/tail.go:123-158 | The result of a Tail is always a contiguous end of the kept lines of the newest backup followed by those of the live file, and at most n of them. |
| LogFollow.TailExact | daemon/logfile/tail.go:123-158 | Within `maxScan`, exactly how many entries of that list come back. |
| LogFollow.Follower.FinishRenamed | daemon/logfile/tail.go:496-515 | Emits the unread rest of the renamed file, its unfinished last line included, and leaves a fresh splitter; with the copy gone, only what was buffered is flushed. |
| LogFollow.Follower.Next | daemon/logfile/tail.go:451-495 | One call's entries, which are exactly the wanted ones of the lines it read, and the follower's whole new state, in each of the three cases: same file, rotated, shorter than the offset. |
| LogRuns.RunKeeps | daemon/logfile/tail.go:451-515 | Whatever the daemon writes, rotates, empties and prunes between polls that can be right, a follower has read its file exactly up to its offset, holds exactly that line's beginning, and has returned exactly the lines promised so far. |
| LogRuns.FollowedFromTail | daemon/logfile/tail.go:123-158 | Over every run, what Tail returned followed by what every poll returned is one contiguous end of the kept lines of the newest backup and of each successive file, each once, whole and in order. |
| LogRuns.FollowedFromNothing | daemon/logfile/tail.go:443-495 | From a path with no log yet, the polls return everything from the first line of the first file. |
| LogRuns.PollsCatchUp | daemon/logfile/tail.go:467-485 | However `maxBatch` cuts the reads, a bounded number of polls of an undisturbed file reads it to its end. |
| LogExact.FollowableIff | daemon/logfile/tail.go:451-515 | The condition the runs put on a poll is exact: it holds if and only if the poll is right whatever the bytes the follower has not read may be, for a reader that keeps every line. |
| LogExact.RegrownIff | daemon/logfile/tail.go:462-473 | After a file is emptied in place and written again, the next poll is sure to be right exactly until the file has grown back to the offset, for every size. |
| LogExact.EmptiedThenRotatedIff | daemon/logfile/tail.go:462-515 | After a file is emptied, written again and renamed before the next poll, exactly when that poll is right: `finish` resumes at the old offset of the renamed copy. |
| LogFilter.TailIsChosen | daemon/logfile/tail.go:123-236 | Within the bound, what a Tail returns is the newest of the wanted entries of all the lines of the newest backup and the live file, as many as `TailExact` says of the number asked for or of ten thousand, whichever is less. |
| LogFilter.FollowedAreChosen | daemon/logfile/tail.go:451-515 | Over every run from a path with no log, an entry has been returned if and only if the filter wants it and it is the entry of a line read so far, of any file since. |
| Version.ParseIsGrammar | backend/gatewayproto/version.go:27-58 | Text parses to a version if and only if it is an optional "v", that version as printed, and build metadata or none, with every part in range. |
| Version.RoundTrip | backend/gatewayproto/version.go:39-67 | Parsing a printed version gives it back, with and without the "v". |
| Version.IdentifierCharsAre | backend/gatewayproto/version.go:27-29 | The characters an identifier may hold are the hyphen, the ten digits and the letters of ASCII in both cases, one by one. |
| Version.NumeralsCompareByValue | backend/gatewayproto/version.go:185-212 | Comparing digit strings by length and then as text is comparing the numbers they spell, at any length. |
| Version.CompareIsPrecedence | backend/gatewayproto/version.go:158-204 | Compare is negative exactly when precedence, as section 11 of Semantic Versioning 2.0.0 defines it, says so. |
| Version.CompareIsAntisymmetric | backend/gatewayproto/version.go:158-184 | Compare is zero exactly for the same version, and swapping the arguments negates it. |
| Version.CompareIsTransitive | backend/gatewayproto/version.go:158-184 | Compare is transitive: with antisymmetry, a total order on parsed versions. |
| UserCode.NormalizeTypedCode | backend/internal/auth/device.go:452-478 | The loop that gives up at the first bad character returns the typed characters, upper-cased and less separators, exactly when they are the wanted number of letters of the alphabet. |
| UserCode.FormatParses | backend/internal/auth/device.go:507-520 | A code shown and typed back as shown is the code. |
| UserCode.PresentationIgnored | backend/internal/auth/device.go:452-478 | Separators anywhere and lower case change nothing about which code is meant. |
| UserCode.ParseIsStable | backend/internal/auth/device.go:507-515 | What the parser returns is stored form: parsing it again gives it back. |
| UserCode.RandomCode | backend/internal/auth/device.go:479-506 | The code is the first letters the random bytes draw, rejected bytes drawing none, and fails exactly when the source runs out first. |
| UserCode.NoLetterIsFavoured | backend/internal/auth/device.go:479-506 | Each letter of the alphabet is drawn by exactly twelve of the 256 byte values. |
| UserCode.CodesAreReadable | backend/internal/auth/device.go:75-101 | The alphabet is twenty different capital letters, none of them A, E, I, O, U or L, and a code of eight is shown as two groups of four with a hyphen between. |
| DeviceFlow.RunKeeps | backend/internal/auth/device.go:218-437 | Every interleaving of starts, polls, redemptions, approvals, denials, revocations and sweeps keeps rows, approvals, sessions and denial reports consistent. |
| DeviceFlow.OneSessionPerCode | backend/internal/auth/device.go:218-300 | Over every run at most one session exists per device code, it is of the one account that approved it, and carries the device id and name given at issue. |
| DeviceFlow.DeniedIsDenied | backend/internal/auth/device.go:409-437 | Once a denial has reported Stopped or Revoked, no later step creates a session for that code, even for a poll that had already seen the approval. |
| DeviceFlow.DenyReports | backend/internal/auth/device.go:409-437 | Which of Stopped, Revoked and TooLate the two statements of a denial report, read off the row as it was. |
| DeviceFlow.TooLateMeansSignedInIff | backend/internal/auth/device.go:386-437 | Over every run, a TooLate report comes with a session if and only if the code's row, or the row as it was swept, is spent and no revocation spent it; in every other case nobody is signed in, although the outcome is documented as an approval already redeemed. |
| DeviceFlow.DenyTwiceSaysTooLate | backend/internal/auth/device.go:409-437 | The other case happens: a second denial of a denied code reports TooLate, with no session. |
| DeviceFlow.ApprovedPollSignsIn | backend/internal/auth/device.go:218-300 | A poll of an approved, unspent, unexpired code that is not too soon does create the session, with the approver's account. |
| DeviceFlow.PollIsTold | backend/internal/auth/device.go:218-250 | Over every run, which answer a poll gets, by the log of what happened: Gone when no unspent, unexpired row is there; SlowDown when the last poll that touched it was less than the interval before; else Denied exactly when a denial stopped it, Approved exactly when an account approved it, and Pending exactly when neither happened. |
| DeviceFlow.Service.PollDeviceCode | backend/internal/db/queries/device.sql:59-95 | Records the poll's time under the query's guard, and answers from the row as it was before it; which answer that is over a run, `PollIsTold` says. |
| DeviceFlow.Service.ConsumeDeviceCode | backend/internal/db/queries/device.sql:97-110 | Spends the code and creates the session in one transaction, only for an approved, undenied, unspent, unexpired row. |
| DeviceFlow.Service.ApproveDeviceAuthorization | backend/internal/auth/device.go:366-385 | One guarded update: an undecided, unexpired row is approved for the account, any other is left alone. |
| DeviceFlow.Service.DenyDeviceCode | backend/internal/db/queries/device.sql:46-57 | One guarded update: an undecided row is denied, any other is left alone. |
| DeviceFlow.Service.RevokeApprovedDeviceCode | backend/internal/db/queries/device.sql:148-162 | An unspent row this account approved is denied and reported Revoked; otherwise TooLate. |
| IpcFrame.Stream.WriteEncoded | daemon/ipc/frame.go:49-64 | Appends the length, most significant byte first, and the payload; refuses a payload whose length needs more than 32 bits and then writes nothing. |
| IpcFrame.Stream.ReadFrame | daemon/ipc/frame.go:65-93 | Consumes exactly one frame, or says whether the stream was over, cut inside a frame, over the limit (nothing of the payload read) or without a payload. |
| IpcFrame.ReadsBack | daemon/ipc/frame.go:49-93 | A written frame reads back, leaving what follows untouched, if and only if it is not empty and within the limit; the two refusals are said exactly. |
| IpcFrame.LengthsInOrder | daemon/ipc/frame.go:49-64 | The length is written most significant byte first: two lengths compare as their four bytes do from the first on. |
| IpcFrame.CutAnywhere | daemon/ipc/frame.go:65-93 | A stream of frames cut at any byte yields exactly the frames it holds whole, then a clean end exactly when the cut is between two. |
| IpcClient.RunKeeps | daemon/ipc/client.go:287-446 | Every interleaving of calls, cancellations, deliveries and the connection's end keeps: an id that can still be answered has not been, and is in one place only. |
| IpcClient.AnswersAreOwn | daemon/ipc/client.go:287-361 | Over every run, a call that returned an answer returned the single response that bore its own id: its error, or its status with the body's own bytes, or with none exactly when the body is `null` with blanks around it; one that returned the connection's error had been sent nothing. |
| IpcClient.ResultAnswers | daemon/ipc/client.go:342-357 | Every response has exactly one answer by its own fields: declined with its error, malformed without error and status, answered with its status and body otherwise. |
| IpcClient.DeliveryNeverBlocks | daemon/ipc/client.go:407-446 | Whenever the reader holds a response, the waiter's one-place channel is empty. |
| IpcClient.RegisteringIsSafe | daemon/ipc/client.go:287-310 | While no error is set `pending` is not nil, and the next id has never been used. |
| IpcClient.CallsStay | daemon/ipc/client.go:287-340 | Ids only grow, and what a call was sent and what it returned never change afterwards. |
| IpcClient.NobodyWaitsForever | daemon/ipc/client.go:320-340 | Once the connection has ended every waiting call can return, with the response it was sent before the end when there is one. |
| IpcClient.Attached.RegisterRequest | daemon/ipc/client.go:287-310 | The locked section of Do: a fresh id entered into `pending`, or the connection's error. |
| IpcClient.Attached.FindWaiter | daemon/ipc/client.go:407-446 | The reader's locked section: the id leaves `pending`, and says whether someone waited. |
| IpcClient.Attached.SendAnswer | daemon/ipc/client.go:407-446 | The send that follows: the waiter's channel, which had room, holds that response, and the reader goes on. |
| IpcClient.Attached.AfterDone | daemon/ipc/client.go:320-340 | What Do returns after the end: the response that came just before it, if one did, and the connection's error otherwise. |
| IpcClient.Attached.EndConnection | daemon/ipc/client.go:385-406 | Sets the error, once, and `pending` to nil. |
| Credentials.Store.SaveSession | daemon/credentials/credentials.go:285-334 | The whole new state of record and secrets, which notices are given, and the error, for every combination of failing calls. |
| Credentials.Store.RemovePrevious | daemon/credentials/credentials.go:335-366 | Removes the superseded secret, reporting what cannot be reached when the backend is another process's, and failing when it is this one's own. |
| Credentials.Store.LoadSession | daemon/credentials/credentials.go:367-396 | The stored record and the secret of the backend it names, or which error. |
| Credentials.Store.ClearSession | daemon/credentials/credentials.go:408-446 | Removes the record's secret and the record; absent is success. |
| Credentials.Store.ReplaceSessionToken | daemon/credentials/credentials.go:471-513 | Swaps the token only of the very session that was read, under the lock; what each refusal means, `ReplaceAnswers` says. |
| CredentialRuns.RunKeeps | daemon/credentials/credentials.go:285-513 | Every run of logins, logouts and renewals, by processes with different backends and with any call failing, keeps records stamped and every token at rest or in a renewal's hands one that was used before. |
| CredentialRuns.StepStraysIff | daemon/credentials/credentials.go:285-334 | A step leaves a secret at rest that nothing has spoken of if and only if it is a login that passes every check, stores its secret under a key the readable record does not name, and cannot write the record; its error does not mention the token. |
| CredentialRuns.ALoginThatStrays | daemon/credentials/credentials.go:285-334 | It happens: a first login that cannot write the record. |
| CredentialRuns.NothingLeftUntold | daemon/credentials/credentials.go:335-366 | Over every run without such a login, each secret at rest is the one the record names, or a notice or the error of a logout from an unreadable record spoke of that very token, unless the record is unreadable now. |
| CredentialRuns.NoticesAreEnough | daemon/credentials/credentials.go:335-366 | And when nothing damages the record, each leftover was reported through Notify. |
| CredentialRuns.SecretsAreTheRecords | daemon/credentials/credentials.go:285-446 | When every call works, the secrets at rest are exactly the (backend, instance) the record names, and none after a logout. |
| CredentialRuns.SpentStaysSpent | daemon/credentials/credentials.go:471-513 | A token that was used and is no longer the session's is never the session's again. |
| CredentialRuns.RenewalReplacesWhatItRead | daemon/credentials/credentials.go:471-513 | Over every run between a renewal's load and its success: the session's token is still the one that was loaded, it is replaced where it is, and nothing else changes. |
| CredentialRuns.RenewalNeverOverwrites | daemon/credentials/credentials.go:471-513 | After a login, a logout or another renewal succeeded in the window, the waiting renewal fails and changes nothing, whatever happens in between. |
| CredentialRuns.RenewalAloneSucceeds | daemon/credentials/credentials.go:471-513 | Left alone, a renewal goes through. |
| CredentialRuns.ReplaceAnswers | daemon/credentials/credentials.go:471-513 | A renewal is told that its session is gone or another only if it is: a store that cannot be read is answered as unavailable; and where the session is the one that was read, which of the failing calls is named. |
| CredentialRuns.UndisturbedRenewalIsNotRefused | daemon/credentials/credentials.go:471-513 | Over every run between a renewal's load and its end in which nothing else is stored or damaged, it is never told that its session is gone or changed, whatever calls fail. |
| CredentialRuns.LoadAnswers | daemon/credentials/credentials.go:367-396 | Exactly when a load says that nobody is signed in, and that what it returns otherwise is the record with the secret under its own key. |
| CredentialRuns.RecordsAreUsable | daemon/credentials/credentials.go:285-300 | Every record a run leaves names an instance that can be used and a device, and no session has an empty token. |
| CredentialRuns.LoginSucceedsIff | daemon/credentials/credentials.go:285-366 | Exactly when a login succeeds, whose calls it needs included, what it then leaves, and what each error says stood in its way. |
| CredentialRuns.LogoutSucceedsIff | daemon/credentials/credentials.go:408-446 | Exactly when a logout succeeds; one that fails leaves a readable record in place, and a record that cannot be read is removed and said so. |
| CredentialRuns.SavedLoadsAnywhere | daemon/credentials/credentials.go:239-246 | After a successful login and any run of renewals, the session loads in a process whose own probe would have chosen another backend, as the record that was saved with the login's or a renewal's token. |
| CredentialRuns.LoggedOutStaysOut | daemon/credentials/credentials.go:408-513 | After a successful logout, over every run without a login, renewals under way included: the record is gone with exactly the secret it named, nothing comes back, and nothing loads for any process. |
| CredentialRuns.FailedLoginStrandsIff | daemon/credentials/credentials.go:285-334 | One failing login, by its cases: exactly when it leaves a record naming a secret that is gone, whether or not the record says which backend has it. |
| CredentialRuns.ALoginThatStrands | daemon/credentials/credentials.go:285-334 | It happens: signing in to another instance while the record cannot be written. |
| DeviceId.NormalizedIff | daemon/credentials/credentials.go:554-585 | A stored id is accepted exactly when it is an acceptable one with nothing but white space around it. |
| DeviceId.NormalizedTwice | daemon/credentials/credentials.go:581-593 | Writing an accepted id and reading it back yields the same trimmed value. |
| DeviceId.WidthIsLeast | daemon/credentials/credentials.go:554-585 | The bound counts bytes: each character takes the fewest that have room for it in UTF-8. |
| DeviceId.Identity.GetDeviceId | daemon/credentials/credentials.go:514-553 | The id answered and the file left, in every case of a missing, unusable or unreadable file and of a write that fails or is not flushed. |
| DeviceId.IdentityIsStable | daemon/credentials/credentials.go:514-553 | Once an id was answered without an error, its write flushed or not, every later call in any run of saves, logouts and renewals answers it. |
| DeviceId.ACrashMayTakeItBack | daemon/credentials/credentials.go:639-648 | After a crash that undoes an unflushed write, the same id is answered exactly when the record carries it by then, or carries none and the same one is minted. |
| DeviceId.AnsweredIsAcceptable | daemon/credentials/credentials.go:514-553 | Whatever id is answered, recorded or not, is one an instance accepts and sees unchanged. |
| DeviceId.BlankIsNotAdopted | daemon/credentials/credentials.go:525-553 | White space in a record is not adopted: a new id is minted instead. |
| DeviceId.Adopted | daemon/credentials/credentials.go:525-553 | With no usable file, an acceptable id in the record is adopted. |
| DeviceId.IdentityOutlivesItsFile | daemon/credentials/credentials.go:525-553 | A session saved under an id, renewed any number of times and not ended, brings it back when the file is lost. |
| DeviceId.MintedIsAcceptable | daemon/credentials/credentials.go:183-191 | A new id is one an instance accepts and is stored unchanged. |
| AtomicFile.FileSystem.Write | daemon/atomicfile/atomicfile.go:63-142 | After every prefix of its steps and a crash there the target holds the complete old or the complete new contents, no other name is touched, and the new contents are in place and durable when it returns no error; its permission is then the old file's, when that is kept and there was one, and the given one otherwise. |
| AtomicFile.FileSystem.WritePath | daemon/atomicfile/atomicfile.go:63-142 | The same when links are followed: the file the links lead to is the one replaced, and a path that leads nowhere, or in circles, touches nothing. |
| AtomicFile.FileSystem.Publish | daemon/atomicfile/atomicfile.go:104-136 | Rename, then flush the directory: the target stays old-or-new at every step, and only the flush makes the new contents certain. |
| AtomicFile.AnswerMeans | daemon/atomicfile/atomicfile.go:63-136 | What each answer means; a destination is refused as read-only if and only if its permission is to be kept and its owner's octal digit does not allow writing. |
| AtomicFile.RenameIsSafe | daemon/atomicfile/atomicfile.go:100-120 | Renaming a file that is flushed leaves the target old or new after any crash and touches no third name. |
| AtomicFile.RenamedTooSoon | daemon/atomicfile/atomicfile.go:100-112 | Without the flush before it, a crash after the rename may leave anything under the name. |
| AtomicFile.RenameMayBeLost | daemon/atomicfile/atomicfile.go:113-136 | Until the directory is flushed, a crash may bring the old contents back. |
| Links.Resolve | daemon/atomicfile/atomicfile.go:143-173 | The end of the chain of links within the bound, the first node that is no link, or an error, whichever comes first. |
| Links.LoopIsTooMany | daemon/atomicfile/atomicfile.go:143-173 | A loop of links ends with an error and not never. |
| ConfigUpdate.ConfigFile.Update | daemon/config/file.go:72-129 | The bounded retry loop, with editors saving at every gap, leaves the file and the history its specification says. |
| ConfigUpdate.WritesOnceOrNever | daemon/config/file.go:72-129 | It always ends; it has made exactly one change, its last, when it reports success and none otherwise, errors included. |
| ConfigUpdate.NoLostEditIff | daemon/config/file.go:72-129 | For every schedule of saves and failures, the change written starts from the contents fn was given if and only if the writing attempt's gap between second look and rename leaves the contents as they were; then it takes the file from c to fn(c) for the c present. |
| ConfigUpdate.NoLostEdit | daemon/config/file.go:93-126 | So with the second look and the rename taken as one step no edit is lost. |
| ConfigUpdate.SaveInTheGapIsLost | daemon/config/file.go:93-126 | The other case happens: one save in the gap is overwritten unseen. |
| ConfigUpdate.GivesUpIff | daemon/config/file.go:72-129 | For any schedule, fn and failures: it gives up exactly when every attempt gets as far as its second look and finds other contents; otherwise the first attempt that does not decides the answer and the file. |
| ConfigUpdate.AnswerMeans | daemon/config/file.go:72-129 | What each answer says of the file as it is left: fn refuses it, or asks for nothing else, it or what fn makes of it is too large, a call failed, or it was saved during every attempt. |
| ConfigLock.RunKeeps | daemon/config/file.go:72-129 | However the steps of programs under the lock and the saves of an editor interleave, a program inside holds the lock and every write so far started from what the change before it left. |
| ConfigLock.LockedWritesCompose | daemon/config/file.go:307-325 | Over every such interleaving, a write that directly follows another program's is made of exactly what that one left: no program's change is lost to another's. |
| ConfigToggle.Client.UpdateFor | daemon/config/file.go:251-279 | Chooses the file under its lock and tries again when the toggle moved, as its specification says. |
| ConfigToggle.WritesWhatIsRead | daemon/config/file.go:251-279 | Over every run the one write there may be is to the file the client reads at that moment, made of what that file held; the other file is never written. |
| ConfigToggle.FlipsAreTriedAgain | daemon/config/file.go:251-279 | A write whose file moved is tried again: a refusal is always fn's own of the file the client reads by then, and giving up means that the toggle was flipped in every round or an editor saved the file during every attempt of one. |
| ConfigToggle.OwnFileIffSplit | daemon/config/file.go:251-279 | The write lands in the client's own file when the config is split and in the shared one otherwise, and fn is told which. |
| TomlKeys.WriteBasicString | daemon/config/edit.go:506-539 | The loop that escapes a string spells it as the specification does. |
| TomlKeys.BasicStringReads | daemon/config/edit.go:506-539 | A spelled string reads back, by the rules of section "String" of TOML v1.0.0, as the string, whatever follows it. |
| TomlKeys.PathReads | daemon/config/edit.go:491-505 | A spelled path reads back, by the rules of section "Keys", as the path. |
| TomlKeys.SpelledAlike | daemon/config/edit.go:491-505 | Two different paths are never spelled alike. |
| TomlKeys.EscapedIsOneLine | daemon/config/edit.go:506-539 | A spelled string holds no newline of either kind. |
| TomlKeys.NothingRemovedIsRaw | daemon/config/edit.go:506-539 | A spelled string holds no control character, and none that is to be kept from a terminal unless it is printable ASCII. |
| TomlKeys.PlainIsItself | daemon/config/edit.go:506-539 | And nothing else is escaped: printable text without a quote or a backslash is spelled as it is. |
| Splice.SortsStably | daemon/config/edit.go:220-232 | The sort orders changes by start and keeps those that start together in the order asked for. |
| Splice.MakeChanges | daemon/config/edit.go:232-262 | The one pass over sorted changes writes what making them one by one means, and refuses exactly when two overlap. |
| Splice.PassFillsSlots | daemon/config/edit.go:199-262 | For changes planned at distinct slots the pass never refuses, every byte outside a replaced value survives in order, and each slot holds what was planned for it. |
| ConfigScan.AfterEquals | daemon/config/edit.go:120-133 | Finds where a value begins, past the equals sign and the blanks behind it. |
| ConfigDocument.ScanDocument | daemon/config/edit.go:74-119 | The scan collects every table and key of the document, in order, with the byte offsets they have in its text. |
| Toml.AsInTheStandard | daemon/config/edit.go:446-466 | Which documents the read-back takes: at the examples of TOML v1.0.0, sections "Keys" and "Table", keys and tables stand together or not as that says, in either order. |
| ConfigSetAll.Index | daemon/config/edit.go:378-391 | The map has the first assignment of each path. |
| ConfigSetAll.IndexFinds | daemon/config/edit.go:378-391 | Looking a path up finds exactly the first key that sets it, when no key holds the separator character. |
| ConfigSetAll.TakenForAnotherIff | daemon/config/edit.go:378-391 | A path is taken for another one of plain parts if and only if one of its own parts holds the separator character. |
| ConfigSetAll.IdsCollide | daemon/config/edit.go:378-391 | It happens: two paths of a section have one map key. |
| ConfigSetAll.ByIdIff | daemon/config/edit.go:175-198 | Keeping one edit for each map key is keeping one for each path if and only if no two edited paths have one key. |
| ConfigSamples.ValueOfAnother | daemon/config/edit.go:175-198 | And then an edit is lost: of two settings of a new file the second is not written, and its value is given to the first. |
| ConfigSetAll.ReachableIs | daemon/config/edit.go:363-377 | The two loops over the scan say exactly that a path is neither inside a value nor under an array of tables. |
| ConfigSetAll.FirstFaultIs | daemon/config/edit.go:178-187 | The first unsound edit decides, by its own fault: no key of a section, not one value, or inside a value or an array of tables. |
| ConfigLocate.Place | daemon/config/edit.go:392-435 | The offset is where the section that the structural rule picks ends, and the line is the key spelled from that section's table on. |
| ConfigPlace.FitsIffFree | daemon/config/edit.go:392-435 | Where the planner puts a key never makes a valid document invalid: it fits exactly when no value is on its way and its path is no table. |
| ConfigPlace.SiblingsTogether | daemon/config/edit.go:405-428 | Dotted-key siblings of a table are all in one section, so "beside them" is one place. |
| ConfigEdit.ValidAfterIff | daemon/config/edit.go:436-445 | One edit leaves a valid document exactly when it replaces a value or the path is free. |
| ConfigEdit.ValidBefore | daemon/config/edit.go:436-445 | No edit repairs an invalid document: what is valid after it was valid before. |
| ConfigBatch.PlaceStays | daemon/config/edit.go:167-269 | An edit does not move where another path goes, except to a table the first one started. |
| ConfigSame.EachIsPlanned | daemon/config/edit.go:167-269 | A plan made against one read leaves the document the same edits leave one at a time, in one style. |
| ConfigSetAll.PlanIsReady | daemon/config/edit.go:167-198 | Edits that are not refused can be planned: each has a place in the document as read. |
| ConfigSetter.Collect | daemon/config/edit.go:167-198 | The first refused edit's fault, or the edits with a repeated path keeping its first place and its last value. |
| ConfigSetter.MakePlan | daemon/config/edit.go:199-231 | The changes, and the tables to start with their keys, are the plan's, at the byte offsets of its places. |
| ConfigSetter.SetAll | daemon/config/edit.go:167-269 | The whole call, from bytes to bytes: the result is the rendered planned document to the byte, or the fault; the overlap branch is unreachable. |
| ConfigRender.PlannedText | daemon/config/edit.go:199-269 | The text of the planned document is the old text with its slots filled, then each new table behind a blank line. |
| ConfigEnding.AllAtOnceIsOneByOne | daemon/config/edit.go:167-269 | `setAll` of any edits succeeds exactly when one call an edit does, repeats and nested paths included, and leaves the same bytes if and only if the file still has its line ending when the first new line is written. |
| ConfigSamples.EndingIsLost | daemon/config/edit.go:481-486 | The other case happens: on a file whose only CRLF is inside an array that an earlier edit replaces, both ways succeed and leave different bytes. |
| ConfigOneByOne.SucceedsIff | daemon/config/edit.go:167-269 | `setAll` succeeds exactly when the file is valid, no edit is refused, no path lies inside another, and each path is set or free. |
| ConfigOneByOne.NestedFails | daemon/config/edit.go:446-466 | Edits one of whose paths lies inside another's never succeed. |
| ConfigOneByOne.ReadsBack | daemon/config/edit.go:446-466 | Each edited path reads back as its last literal and every other path, set or not, as before. |
| ConfigFrame.NothingElseChanges | daemon/config/edit.go:167-269 | On the text alone: a call for one key leaves every byte but the value it replaces; or adds one line, behind the last key of the section it belongs to or under a new header at the end, in the file's own line ending, and nothing else but the line ending a last line lacks and a blank line before a new header. |
| ConfigUnset.PrunedHolds | daemon/config/edit.go:317-359 | Exactly the other keys are left, each on the line it had. |
| ConfigPruned.PrunedIsValid | daemon/config/edit.go:317-359 | Taking keys out never leaves an invalid document, so the read-back cannot fail. |
| ConfigPruned.PrunedReads | daemon/config/edit.go:317-359 | Every other path reads as before, and those taken out are not set. |
| ConfigUnset.PrunedTwice | daemon/config/edit.go:317-359 | Taking out some keys and then others is taking out both at once. |
| ConfigPruned.SetThenUnset | daemon/config/edit.go:167-359 | For a path that is not set, exactly when setting and then unsetting it restores the original bytes. |
| ConfigCuts.UnsetAll | daemon/config/edit.go:317-359 | The whole call, from bytes to bytes: the text less exactly the lines of those keys, or the fault; asking for a key twice changes nothing. |
| ConfigInspect.KeysAreGood | daemon/config/keys.go:69-84 | No key's name lies inside another's. |
| ConfigInspect.NamesApart | daemon/config/keys.go:69-107 | Two different names are never on each other's way in a file. |
| ConfigInspect.LiteralReads | daemon/config/edit.go:540-560 | A value that was read from a file is written in a spelling that reads as the same value: colour numbers, hex colours in lower case, enums and strings. |
| ConfigInspect.AcceptsIff | daemon/config/load.go:283-329 | What a file can hold for a key: a value of its enumeration, a palette number up to 255 or six hexadecimal digits in lower case behind a hash sign, or any text. |
| ConfigInspect.TypedReads | daemon/config/edit.go:540-560 | Exactly which input is refused, and that what is written for any other reads back as accepted and as what was typed, but for a number's spelling and a colour's case. |
| ConfigInspect.RawAfter | daemon/config/load.go:196-272 | After `setAll`, inspecting an edited path gives its literal's value, and any path apart from the edits, inline tables included, as before. |
| ConfigImport.PlanFiles | daemon/config/inspect.go:295-336 | The plan: what is written, what is kept, and the first machine-local key, which stops an import: exactly when, `StopsIff` says, and what is listed as written and as kept, `PlanListsIff`. |
| ConfigImport.StopsIff | daemon/config/inspect.go:305-309 | An import is stopped by a name if and only if the file is not this machine's own and it is the first of the names that the file sets and whose key is not portable. |
| ConfigImport.PortableKeysAreImported | daemon/config/inspect.go:305-309 | So with the keys there are, all portable, an import is never stopped. |
| ConfigImport.PlanListsIff | daemon/config/inspect.go:310-330 | Exactly which changes are listed as written and which as kept, by what the two files hold. |
| ConfigImport.ImportReads | daemon/config/inspect.go:548-566 | After an import each setting holds the incoming value if the file had none or the import overwrites, and what it held otherwise. |
| ConfigImport.ImportTwice | daemon/config/inspect.go:548-566 | A second import of the same file plans nothing to write and changes no byte, with overwrite or without. |
| ConfigImport.ExportSucceeds | daemon/config/inspect.go:165-190 | An export can always be written, whatever the values. |
| ConfigNames.WalkFindsAll | daemon/config/load.go:242-272 | What walking the tables of some sections finds, table entries and inline tables included, is exactly the settings the file has there. |
| ConfigImport.ExportRoundTrip | daemon/config/inspect.go:165-190 | Inspecting an export yields exactly the portable settings that were gone through, each as it was, and nothing else. |
| ConfigNames.ExportsEverything | daemon/config/inspect.go:165-190 | And when what the walk finds is gone through, exactly the file's portable settable settings of those sections. |
| ConfigMerger.ImportFile | daemon/config/inspect.go:548-566 | The plan and the edited bytes, or why nothing is written; for portable keys it always plans. |
| ConfigMerger.ExportFile | daemon/config/inspect.go:165-190 | The loop that collects a file's portable settings writes the exported document. |
| ConfigMerger.CollectOwn | daemon/config/inspect.go:411-436 | What the other client's section writes, what of it cannot be placed, and which paths it sets, from the scan's own bytes. |
| ConfigMerger.MergeClients | daemon/config/inspect.go:366-457 | The whole call, from two files to one: bytes, what was kept and what was skipped, or whose file or which edit is at fault. |
| ConfigMerge.MergeOwns | daemon/config/inspect.go:398-457 | Whichever file is newer, every path of the other client's section is set in the result as its own file sets it, removals included, unless it is listed as skipped; and it is skipped exactly when that file sets it under an array of tables or to a value that spans lines. |
| ConfigMerge.MergeOwnsValues | daemon/config/inspect.go:398-457 | The same for settings as they are inspected, through inline tables and dotted keys alike. |
| ConfigMerge.MergeKeeps | daemon/config/inspect.go:366-457 | Every section that is neither shared nor the other client's is the newer file's, untouched. |
| ConfigMerge.MergeShares | daemon/config/inspect.go:380-396 | Of the shared settings that are gone through, one that only one file has is kept; where both have one the newer file's stays. |
| ConfigNames.MergeSharesEverything | daemon/config/inspect.go:380-396 | And when what the walk finds is gone through, that holds of every shared setting. |
| ConfigMerge.MergesIff | daemon/config/inspect.go:366-457 | A merge fails exactly when a file is not valid; an array of tables of the newer file has a stale key or is in the way of a carried one; a carried key has no section above it, as `tui = 5` has none; a table's header stands at or below a path that the owner's file gives a value; or a shared setting that is to be added cannot be placed. |
| ConfigMerge.UnreadIff | daemon/config/inspect.go:366-380 | A file that is not valid stops a merge, and the answer says which: the newer one first. |
| ConfigMerge.MergeWithItself | daemon/config/inspect.go:366-457 | Merging a file with itself plans nothing and returns it byte for byte. |
| ConfigSamples.HeaderInTheWay | daemon/config/inspect.go:438-441 | Taking the stale keys out does not always clear the way: a header left behind makes two valid files impossible to merge. |

## Left out

What the model takes as given:

- TOML and JSON parsing: a document is its lines as a scan yields them; that the library's parser splits a file that way, and
  which spellings are a value, are parameters. Rules for what stands inside an array of tables are a parameter too.
- The byte-order mark at the start of a config file, and an inline comment's contents.
- A literal that starts with a blank, and invalid UTF-8 in a string to be spelled.
- The order in which an import, export or merge goes through a file's names is any: a sequence of names is given, or listed
  from what the walk finds. That the source sorts them, and so in which order new lines are written, is not modelled. The
  sections a client's file is read for are given too.
- Warnings, skipped-entry messages, their limit of fifty and their sanitising; what was kept and, in a merge, which paths
  were skipped are modelled.
- Methods of the config editor are about keys without a NUL character; `IdsCollide` says why.
- Plans are computed in a merge on the document left by the unset; reading that document's text again is not repeated.
- Log parsing of one line into an entry is a function that is given; a file that cannot be opened or read part of the way, and
  the names of backups, are not modelled. A file's identity is a number.
- The state-file read that says whether the config toggle is on never fails here.
- A lock makes the operation under it one step; its own failures are one flag. Directory creation is not modelled.
- A relative target of a symbolic link, and links that change while they are followed: `Links` is about what follows what, and
  `AtomicFile.FileSystem.WritePath` is given the links. Files in different directories have one disk.
- Closing a temporary file has no effect of its own; whether it fails is one of the faults.
- The keyring, the token files' names and their permissions: a backend is a map that may fail. The white space around a
  token in its file is not modelled. That a URL names an instance is a predicate.
- Request ids are unbounded: their wrap-around after 2^64 requests is not modelled. Event channels, the handshake and
  deadlines are not modelled; a deadline is a cancellation.
- Random bytes, clocks and the time between polls are parameters. Tokens are new each time.
- Web pages, account names shown on them, rate limits and audit rows of the device flow.
- `Check`, the compatibility of a server's and a client's version: a few comparisons with `Compare`.
- Everything else in the repository: HTTP handlers, voice, the clients' interfaces, password hashing and token signing.

Where the source's own form is not kept:

- LogRuns, CredentialRuns, ConfigLock, DeviceFlow and IpcClient state runs on values; the classes beside all but ConfigLock are
  proved to do what one step of such a run does.
- ConfigMerger.MergeClients and ConfigSetter.SetAll take the scanned document and its text together, not the text alone.

Hypotheses a theorem carries, and why:

- LogRuns.FollowedFromTail: every poll is one that can be right; `FollowableIff` proves that each part of that condition is
  needed. Where Tail stopped is faithful, which `LeftOverFaithful` makes exact.
- LogExact.FollowableIff: its converse is about readers that keep every line and tell lines apart; a filter may drop exactly the
  lines that are lost.
- LogTailFacts.FoundExact: within `maxScan`; beyond it `FoundIsSuffix` is what is promised.
- ConfigMerge.MergeOwns: for paths under no array of tables in the newer file, where a path names one thing.
- ConfigImport.ExportSucceeds: the library takes every spelled string and number for a value.
- CredentialRuns.NothingLeftUntold: no login of the run strays in the sense of `StepStraysIff`, and tokens are new each time.
- CredentialRuns.RunKeeps: runs begin where records say which backend has their secret, as every saved one does; a record from
  before that field existed is covered only by the lemmas about one operation.
