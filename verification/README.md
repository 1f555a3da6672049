# IBM MQ container supervisor: a verified model

This project models the parts of the container's main process and its libraries that carry their own
logic, and proves what they promise. `dafny verify dfyconfig.toml` checks all of it.

- **Redaction of MQSC commands** (`RedactSpec`, `RedactPieces`, `RedactValues`, `RedactTheorems`,
  `RedactVerbs`, `RedactLaws`, `Redact`).
  `Redact` is the character-level scanner as it is written: a reader and seven variables that change at
  every character, here the fields of `Redactor`. The specification knows nothing of these variables. It
  divides a command into stretches of text and parameters, and masks a parameter when a verb of the text
  before it holds a keyword. The theorems are about the specification: secrets do not show, redacting is
  idempotent, the division is unique, and a verb is sensitive exactly when a keyword can be spelled along it.
  `RedactValues` says where a value ends in terms of strings and lines alone, and `RedactLaws` gives the
  output of whole families of commands with keywords, mask, comments and joints spelled out.
- **Shutdown** (`Shutdown`, `ShutdownOrder`). The main thread, the signal handler, the goroutine that stops the queue
  manager and the metrics goroutines are one interleaved state machine with a rendezvous channel, two
  contexts, two signal channels and a buffered stop channel. Safety and progress hold over every run, and
  `ShutdownOrder` says which scripts the goroutines go through whatever the interleaving.
- **Tailing** (`Tailer`). The reader of `mirrorLog` against a writer that appends whole lines and rotates.
- **Log rotation** (`LogRotation`, `LogHistory`). `RotatingLogger` works on a directory of byte strings;
  `LogHistory` sets it against a log that never drops a file.
- **Cleaning a volume** (`VolumeCleaner`). The upward closure of the skip paths and the pruned walk, with
  deletions that fail half way and directories that cannot be listed.
- **Wiped buffers** (`Sensitive`). Go slices over arrays, `append` in place or by moving, and `trimKey`.
- **Probe state** (`Probes`) and **metrics** (`Metrics`, `MetricsExporter`). Bounded state against the
  whole stream of events or publications.
- **Two parsers** (`Stanza`, `Version`). The stanza filter of INI files, and versions of four parts.

`GoStrings` holds the functions of Go's standard library that the redactor and the stanza filter call,
and `Basics` what several components share: options, bytes, and facts about sequences.

Some of the results are worth knowing when the code is read:

- The comment in `mirror.go` at lines 163-166 warns that a second rotation between stat and open skips
  messages. It also mirrors messages twice: the remembered file information is that of the file which was
  found, not of the one which was opened, so the next pass opens the same file again
  (`Tailer.RaceLosesAndRepeats`). The first open has the same race, and a reopen also loses what is written
  to the old file after its last drain. `Tailer.RunIsExactIff` says of every run exactly when none of this
  happens.
- The upward loop over skip paths in `crtmqvol.go` never ends for the volume "/", since the parent of "/"
  is "/" (`VolumeCleaner.ClimbEndsIff`). `SkipPathsMap` therefore asks for another volume.
- A startup completion that arrives before any INCOMPLETE event keeps the attempt count that its sender
  put in it, and later attempts are counted on from there (`Probes.AttemptsSoFar`).
- The map of last messages gives "" for a socket that is not in it, so a first message of information that
  is empty is not emitted (`Probes.InformationIsDestuttered`).
- A second describe allocates new counters, so sums start anew there (`MetricsExporter.Exporter.Describe`).
  Two values whose names give the same label values are added up in a counter, and one of them wins in a
  gauge; `Displays` says so, and `DisplaysEachValueIff` says exactly when every value is shown.
- Writing to an empty `Sensitive` indexes its first byte and panics, so `Write` asks for a byte.

## Model

| member | source | states |
|---|---|---|
| `Redact.Redact` | mq-container-master/internal/mqscredact/mqscredact.go:122-251 | the labelled loops over the moving reader terminate on every input and return exactly the redaction that the division into text and parameters defines |
| `RedactTheorems.SecretsDoNotShow` | mq-container-master/internal/mqscredact/mqscredact.go:32-142 | noninterference: two commands that differ only in the value of a parameter after a sensitive verb give the same output; a value is any sequence of plain characters and strings in either quote, with their parentheses, continued lines and comment lines |
| `RedactTheorems.UnclosedSecretsDoNotShow` | mq-container-master/internal/mqscredact/mqscredact.go:86-108 | a secret that no parenthesis ends is masked up to the end of the command, whatever it is |
| `RedactTheorems.UnclosedInContext` | mq-container-master/internal/mqscredact/mqscredact.go:89-94 | the whole output around a parameter that is never closed |
| `RedactTheorems.ParameterInContext` | mq-container-master/internal/mqscredact/mqscredact.go:130-247 | the output around one parameter, given by its value: masked exactly when a sensitive verb was completed before it, and what follows is redacted from one constant scanner state |
| `RedactTheorems.DivisionIsUnique` | mq-container-master/internal/mqscredact/mqscredact.go:86-108 | the trimmed command divides into text and parameters in exactly one way, the one the scanner finds |
| `RedactTheorems.RedactIsIdempotent` | mq-container-master/internal/mqscredact/mqscredact.go:122-251 | redacting an output again changes nothing, for every command |
| `RedactTheorems.UnchangedCommand` | mq-container-master/internal/mqscredact/mqscredact.go:226-250 | the output is the trimmed command, with nothing lost, doubled or reordered, exactly when no parameter is masked |
| `RedactVerbs.SensitiveIffSpelled` | mq-container-master/internal/mqscredact/mqscredact.go:171-264 | a text makes the next parameter secret exactly when a keyword can be picked out of its verb characters in any case, glued across continuation characters, new lines, line prefixes and comment lines |
| `RedactTheorems.MaskIsParameter` | mq-container-master/internal/mqscredact/mqscredact.go:30 | the mask is itself read back as one closed parameter |
| `RedactValues.ValueEndsIff` | mq-container-master/internal/mqscredact/mqscredact.go:86-108 | a parameter ends after n characters exactly when these are plain characters and whole strings, and a closing parenthesis; a string ends at the first quote like its own that is on no comment line |
| `RedactValues.NeverEndsIff` | mq-container-master/internal/mqscredact/mqscredact.go:86-108 | a parameter is never closed exactly when there is no such n |
| `RedactValues.ModeStep` | mq-container-master/internal/mqscredact/mqscredact.go:32-82 | inside a string the scanner's state at a position is what the line of that position makes it: line prefix, comment line or text |
| `RedactLaws.QuotedSecret` | mq-container-master/internal/mqscredact/mqscredact.go:98-108 | a keyword and a quoted value: the output is the keyword and the mask for every value without its own quote or a line feed, whatever parentheses and other quotes it holds |
| `RedactLaws.SecretCommand` | mq-container-master/internal/mqscredact/mqscredact.go:122-251 | a command of one keyword, in any case and perhaps split at a joint, and any value prints the keyword and the mask |
| `RedactLaws.KeywordMasks` | mq-container-master/internal/mqscredact/mqscredact.go:130-248 | the same in the middle of any command that can stand before it: a joint is a continuation character, blanks, and perhaps a new line with line prefixes and comment lines |
| `RedactLaws.SimpleTextIff` | mq-container-master/internal/mqscredact/mqscredact.go:223-264 | text without continuations, comments and new lines makes the next parameter secret exactly when one of the three keywords stands in it, in any case |
| `RedactLaws.SimpleCommand` | mq-container-master/internal/mqscredact/mqscredact.go:130-248 | after such text a parameter is masked exactly then and printed as it is otherwise |
| `RedactLaws.FillerIsPrinted` | mq-container-master/internal/mqscredact/mqscredact.go:155-218 | line prefixes and comment lines at the start are printed unchanged and make nothing secret, whatever keywords and parentheses they hold |
| `RedactLaws.CommentAfterParameter` | mq-container-master/internal/mqscredact/mqscredact.go:191-218 | right after a parameter a star starts a comment too |
| `RedactLaws.StarInWord` | mq-container-master/internal/mqscredact/mqscredact.go:191-247 | within a word a star starts no comment |
| `RedactLaws.TrimmedCommand` | mq-container-master/internal/mqscredact/mqscredact.go:123 | white space around a command is dropped |
| `Redact.GetParameterString` | mq-container-master/internal/mqscredact/mqscredact.go:86-108 | reads exactly a value and the parenthesis that ends it, which stands outside strings, or everything when none does |
| `Redact.FindEndOfParameterString` | mq-container-master/internal/mqscredact/mqscredact.go:32-82 | reads exactly to the end of a quoted string, over continued lines and comment lines |
| `Redact.IsSensitiveCommand` | mq-container-master/internal/mqscredact/mqscredact.go:256-264 | true exactly when one of the keywords occurs in the verb |
| `Redact.StreamIsRedactText` | mq-container-master/internal/mqscredact/mqscredact.go:130-250 | reading from left to right with one verb and one flag gives what the division into whole pieces gives |
| `Redact.Redactor.constructor` | mq-container-master/internal/mqscredact/mqscredact.go:122-128 | the initial variables owe the whole redaction |
| `Redact.Redactor.ReadParameter` | mq-container-master/internal/mqscredact/mqscredact.go:133-142 | prints or masks one parameter, resets the variables, and what is still owed is unchanged |
| `Redact.Redactor.ResetAllParameters` | mq-container-master/internal/mqscredact/mqscredact.go:110-118 | the variables after a parameter are constant, except what was printed |
| `Redact.Redactor.ReadText` | mq-container-master/internal/mqscredact/mqscredact.go:155-247 | one character of text keeps what is owed, or the output is complete at an unterminated comment |
| `Redact.Redactor.ReadVerb` | mq-container-master/internal/mqscredact/mqscredact.go:223-247 | a verb character or an opening parenthesis keeps what is owed |
| `Redact.Redactor.OpenParameter` | mq-container-master/internal/mqscredact/mqscredact.go:186-247 | an opening parenthesis completes the verb, and the parameter is masked exactly when a sensitive verb stands before it |
| `Redact.Redactor.ReadVerbCharacter` | mq-container-master/internal/mqscredact/mqscredact.go:223-247 | a verb character judges the verb before a gap and makes the current one longer |
| `Redact.Redactor.CompleteVerb` | mq-container-master/internal/mqscredact/mqscredact.go:228-244 | a completed verb is judged in upper case and the text held back is printed unchanged |
| `Redact.Redactor.ReadComment` | mq-container-master/internal/mqscredact/mqscredact.go:191-218 | a comment line is passed over whole; without a line end it ends the output |
| `Redact.Redactor.ReadBlank` | mq-container-master/internal/mqscredact/mqscredact.go:174-183 | white space opens a gap unless the line is continued |
| `Redact.Redactor.ReadContinuation` | mq-container-master/internal/mqscredact/mqscredact.go:167-171 | a continuation character closes the gap before it |
| `Redact.Redactor.Hold` | mq-container-master/internal/mqscredact/mqscredact.go:156-161 | a held character is printed unchanged |
| `Redact.Redactor.Finish` | mq-container-master/internal/mqscredact/mqscredact.go:145-150 | at the end of input the text held back completes the output |
| `Shutdown.Safety` | mq-container-master/cmd/runmqserver/signals.go:43-112 | in every reachable state of every interleaving: the control channel is closed at most once, only after startup is over and never while main may send on it; the queue manager is stopped at most once and only after startup; nothing is reaped before main asks or startup is over |
| `Shutdown.FinalReceive` | mq-container-master/cmd/runmqserver/main.go:514-525 | main's last receive returns only after the queue manager has stopped and the final reap is done |
| `Shutdown.MetricsAreStoppedFirst` | mq-container-master/cmd/runmqserver/signals.go:88-94 | in every reachable state in which the queue manager is being stopped, the metrics have been told to stop and their server was shut down, exactly when they were enabled at the handler's check |
| `Shutdown.EnabledMetricsAreStopped` | mq-container-master/internal/metrics/metrics.go:190-205 | metrics that are enabled when the handler comes to its check are stopped before the queue manager is, in every run |
| `Shutdown.FailuresAreReported` | mq-container-master/internal/metrics/metrics.go:79-83 | a metrics goroutine that has failed has sent its stop request when it ends |
| `Shutdown.ProcessorIsStopped` | mq-container-master/internal/metrics/update.go:79-95 | once a stop was requested and nothing can move, no processing of metrics goes on |
| `Shutdown.JobsAreDone` | mq-container-master/cmd/runmqserver/main.go:507-515 | both jobs reach the handler in order before startup succeeds; after the first it listens for SIGCHLD until its end, and after the second it has reaped |
| `Shutdown.ReapsAreCounted` | mq-container-master/cmd/runmqserver/signals.go:43-111 | in any run every SIGCHLD received, every request and the handler's end reap once |
| `ShutdownOrder.StopsInOrder` | mq-container-master/cmd/runmqserver/signals.go:63-104 | in every interleaving the stop sequence of handler and stopper goes through one script, which has the metrics' part exactly when they were enabled at the check, and the handler is done exactly at its end |
| `ShutdownOrder.MainInOrder` | mq-container-master/cmd/runmqserver/main.go:500-525 | main fails to start, or sends its two jobs, ends startup, and waits for the channel to close unless readiness cannot be set; metrics are gathered exactly when it asks for them |
| `ShutdownOrder.MetricsInOrder` | mq-container-master/internal/metrics/metrics.go:66-205 | gathering and serving go through one of a few scripts: every failure is followed by the stop request and by shutting the server down, a panic by neither |
| `Shutdown.Shutdown` | mq-container-master/cmd/runmqserver/signals.go:61-111 | after a stop signal every run takes a bounded number of steps other than SIGCHLD ones, and when none is left main has returned |
| `Shutdown.CanShutDown` | mq-container-master/cmd/runmqserver/signals.go:74-87 | from every state in which a stop signal has come, also one in the middle of startup, some run returns from main |
| `Shutdown.NeverStuck` | mq-container-master/cmd/runmqserver/signals.go:74-103 | after a stop signal some goroutine can move until main has returned, also while main is about to send on the control channel |
| `Shutdown.MeasureFalls` | mq-container-master/cmd/runmqserver/signals.go:61-111 | every step except SIGCHLD ones and new signals lowers one well-founded measure |
| `Shutdown.RunsAreBounded` | mq-container-master/cmd/runmqserver/signals.go:61-111 | the steps of any run are bounded by that measure, whatever signals come between them |
| `Shutdown.StopChannelNeverBlocks` | mq-container-master/internal/metrics/update.go:38 | a send on the stop channel always finds room in its two places: at most two of the three senders ever send |
| `Shutdown.GatherKeeps` | mq-container-master/internal/metrics/metrics.go:66-84 | the gathering goroutine sends at most once, and never when the metrics server runs |
| `Shutdown.ServerKeeps` | mq-container-master/internal/metrics/metrics.go:171-205 | the metrics server's failure path sends at most once |
| `Shutdown.MainKeeps` | mq-container-master/cmd/runmqserver/main.go:101-109 | every step of the main thread keeps the protocol's invariant, error returns included |
| `Shutdown.SignalsKeep` | mq-container-master/cmd/runmqserver/signals.go:43-52 | every step of the handler's selects keeps the invariant |
| `Shutdown.StopKeeps` | mq-container-master/cmd/runmqserver/signals.go:71-104 | every step of the stop sequence and of the stopper keeps the invariant |
| `Tailer.TailsExactlyOnce` | mq-container-master/cmd/runmqserver/mirror.go:103-184 | from the first line when told to start there or when the file was missing, else from the first line written after the start: if each open found the next generation, the mirrored lines are the written history from there up to the reader's place, once each and in order |
| `Tailer.RunIsExactIff` | mq-container-master/cmd/runmqserver/mirror.go:114-184 | for every run from a start: the mirrored lines are exact in every state of it if and only if no open in it, the first one included, passes over a line or goes back over one |
| `Tailer.StepIsExactIff` | mq-container-master/cmd/runmqserver/mirror.go:151-184 | every step keeps the mirrored lines exact, except exactly the opens that pass over a line or go back over one |
| `Tailer.OpenIsExactIff` | mq-container-master/cmd/runmqserver/mirror.go:161-184 | an open keeps that exactness if and only if all of the open file has been read and the files in between are empty, or, when the same file is opened again, nothing of it has been read; a first open, if and only if the files before are empty |
| `Tailer.RaceLosesAndRepeats` | mq-container-master/cmd/runmqserver/mirror.go:163-181 | a run in which a second rotation between stat and open loses one line and mirrors another twice |
| `Tailer.ShutdownIsComplete` | mq-container-master/cmd/runmqserver/mirror.go:150-196 | the goroutine returns at the second select after the cancellation, no sooner and no later; then, unless an open has broken exactness, everything written from that same start up to the cancellation has been mirrored |
| `Tailer.CancelledAt` | mq-container-master/cmd/runmqserver/mirror.go:150-196 | what counts as written before the cancellation is the history at that moment |
| `Tailer.ReaderMoves` | mq-container-master/cmd/runmqserver/mirror.go:28-50 | a cancelled reader never waits for the writer, and no reader waits for anything but a missing file |
| `Tailer.StagesAreBounded` | mq-container-master/cmd/runmqserver/mirror.go:150-197 | whatever the writer does, a cancelled reader takes at most sixteen steps other than reading lines |
| `Tailer.ReaderRunsAreBounded` | mq-container-master/cmd/runmqserver/mirror.go:150-197 | while the writer rests, every step of a cancelled reader uses up a bounded measure |
| `Tailer.ReaderEnds` | mq-container-master/cmd/runmqserver/mirror.go:150-197 | a cancelled reader can always be brought to its end by its own steps, within that measure |
| `Tailer.FullStep` | mq-container-master/cmd/runmqserver/mirror.go:151-197 | every step of reader, writer and cancellation keeps the invariant |
| `Tailer.DrainReaches` | mq-container-master/cmd/runmqserver/mirror.go:55-72 | at the end of a drain the reader is at the end of its generation, and if the mirrored lines are exact they are the whole history up to there |
| `LogRotation.RotatingLogger.Append` | mq-container-master/pkg/logrotation/logrotation.go:81-158 | the whole new directory after one request: duplicate, appended, or rotated and appended; without deduplication file 1 ends in the trimmed message and a line feed |
| `LogRotation.RotatingLogger.PerformLogRotation` | mq-container-master/pkg/logrotation/logrotation.go:160-186 | the descending rename loop moves each file up by one, drops the last and leaves the first empty, for any files present or missing and any count |
| `LogRotation.RotatedFile` | mq-container-master/pkg/logrotation/logrotation.go:160-186 | the contents of each instance after a rotation, and which instances exist |
| `LogRotation.RotatedWithoutRoom` | mq-container-master/pkg/logrotation/logrotation.go:160-186 | the same for a count below one |
| `LogRotation.Shift` | mq-container-master/pkg/logrotation/logrotation.go:168-175 | a rename never overwrites live content: its target is free |
| `LogRotation.RotatingLogger.GetLogLastLine` | mq-container-master/pkg/logrotation/logrotation.go:222-270 | the backward scan and the reversal give the last line |
| `LogRotation.LastLineIs` | mq-container-master/pkg/logrotation/logrotation.go:240-268 | the last line is the last nonempty run of bytes without a line end |
| `LogRotation.LastLineExists` | mq-container-master/pkg/logrotation/logrotation.go:240-268 | there always is such a run, possibly empty when there are only line ends |
| `LogRotation.RotatingLogger.CheckIfMessageShouldBeAppended` | mq-container-master/pkg/logrotation/logrotation.go:199-220 | whether a line is appended: always without deduplication |
| `LogRotation.ShouldAppendIff` | mq-container-master/pkg/logrotation/logrotation.go:199-220 | a line is appended exactly when it need not be deduplicated or its text is not that of the last line, where a line feed counts as a blank |
| `LogRotation.TrimsWhiteSpace` | mq-container-master/pkg/logrotation/logrotation.go:86 | trimming takes off a code point, as its UTF-8 bytes, exactly when it is white space |
| `LogHistory.RotatesOnlyWhenFull` | mq-container-master/pkg/logrotation/logrotation.go:117-157 | the size check decides rightly: without a rotation file 1 is below the limit after the line; with one its old contents are whole in file 2 and would have reached the limit with the line |
| `LogRotation.RotatingLogger.Init` | mq-container-master/pkg/logrotation/logrotation.go:61-79 | creates what is missing and changes no contents |
| `LogRotation.TrimLine` | mq-container-master/pkg/logrotation/logrotation.go:86 | a terminated line trims back to its message |
| `LogHistory.FilesAreASuffix` | mq-container-master/pkg/logrotation/logrotation.go:81-186 | after any requests the files N down to 1 are the end of the initial contents followed by every accepted line, cut where a file ends, for every N from 1 |
| `LogHistory.NoMessageIsLost` | mq-container-master/pkg/logrotation/logrotation.go:81-158 | when no request is deduplicated the files are the end of the initial contents followed by every message |
| `LogHistory.EveryLineIsAccepted` | mq-container-master/pkg/logrotation/logrotation.go:199-203 | then the accepted lines are all of them |
| `LogHistory.RingAfter` | mq-container-master/pkg/logrotation/logrotation.go:81-186 | each file holds one whole file of a log that never drops any, and rotations are counted exactly |
| `LogHistory.GensAfterAll` | mq-container-master/pkg/logrotation/logrotation.go:81-158 | that log holds the initial contents and every accepted line, once each and in order |
| `LogHistory.AppendedFile` | mq-container-master/pkg/logrotation/logrotation.go:117-157 | what one request does to each instance |
| `LogHistory.ByteBounds` | mq-container-master/pkg/logrotation/logrotation.go:117-197 | with lines of at most m < max bytes every file stays below max and all of them below N*max, and after N-1 rotations at least (N-1)*(max-m) bytes are kept |
| `LogHistory.OnlyALongLineExceeds` | mq-container-master/pkg/logrotation/logrotation.go:188-197 | with no bound on lines, a file is below max unless it is empty or exactly one accepted line |
| `LogHistory.DeduplicatesAcrossRotations` | mq-container-master/pkg/logrotation/logrotation.go:81-220 | with deduplication the files are the end of the messages with consecutive repeats collapsed, across rotations |
| `LogHistory.FirstFileEndsInNewest` | mq-container-master/pkg/logrotation/logrotation.go:106-157 | file 1 always ends in the newest message, and the accepted lines are the messages without repeats |
| `LogHistory.ReadsBack` | mq-container-master/pkg/logrotation/logrotation.go:222-270 | the backward scan reads back the line that was written last |
| `VolumeCleaner.Volume.CleanVolumeBestEffort` | mq-container-master/cmd/runmqserver/crtmqvol.go:45-77 | whatever fails, nothing outside the volume, no skip path and nothing above one is removed; anything else survives only if its own deletion is refused and was reported, or below a directory that cannot be listed; when nothing is refused and all can be listed the survivors are exactly the protected paths and nothing is reported |
| `VolumeCleaner.SkipPathsMap` | mq-container-master/cmd/runmqserver/crtmqvol.go:46-55 | the map holds the volume and every path from a skip path upwards that still starts with the volume's path |
| `VolumeCleaner.ClimbEndsIff` | mq-container-master/cmd/runmqserver/crtmqvol.go:50-55 | the upward loop ends if and only if the volume is not the root |
| `VolumeCleaner.SkippedIsClosed` | mq-container-master/cmd/runmqserver/crtmqvol.go:50-55 | inside the volume the map is closed upwards |
| `VolumeCleaner.ProtectedIff` | mq-container-master/cmd/runmqserver/crtmqvol.go:43-55 | the map and the outside of the volume are the protected paths |
| `VolumeCleaner.Volume.WalkDir` | mq-container-master/cmd/runmqserver/crtmqvol.go:59-75 | the pruned walk leaves below a path only what is skipped, refused and reported, or hidden, also where a deletion failed half way |
| `VolumeCleaner.Volume.Visit` | mq-container-master/cmd/runmqserver/crtmqvol.go:59-75 | one call of the walk's callback: a path outside the skip paths is deleted with all below it unless that is refused, and reported exactly if it is |
| `VolumeCleaner.EntryTowards` | mq-container-master/cmd/runmqserver/crtmqvol.go:59-75 | every path below a directory lies in the subtree of one of its entries |
| `VolumeCleaner.WithinDir` | mq-container-master/cmd/runmqserver/crtmqvol.go:52 | lying below a path is what going up directory by directory makes it |
| `Sensitive.Sensitive.Write` | mq-container-master/internal/sensitive/sensitive.go:45-56 | the contents grow by what is written; in place nothing that was held changes; after a move the old place is wiped and every place left before still is |
| `Sensitive.Sensitive.Append` | mq-container-master/internal/sensitive/sensitive.go:62-64 | the contents grow by the other buffer's, which is unchanged if it lies outside this one's room; a buffer may be appended to itself |
| `Sensitive.Sensitive.Clear` | mq-container-master/internal/sensitive/sensitive.go:67-69 | wipes what is held and nothing else |
| `Sensitive.Sensitive.constructor` | mq-container-master/internal/sensitive/sensitive.go:37-41 | takes over the buffer |
| `Sensitive.Zero` | mq-container-master/internal/sensitive/sensitive.go:91-98 | zeroes exactly the length of the slice |
| `Sensitive.GoAppend` | mq-container-master/internal/sensitive/sensitive.go:46 | Go's append: in place exactly when there is room, else a new array |
| `Sensitive.TrimKey` | mq-container-master/internal/tls/tls_web.go:85-126 | gives nil exactly when there is no valid byte, else the first maximal run of valid bytes, unaltered and in place, with every other byte of the key zeroed |
| `Sensitive.FirstRunExists` | mq-container-master/internal/tls/tls_web.go:98-125 | there is such a run exactly when there is a valid byte, and only one |
| `Sensitive.KeyIsFirstRun` | mq-container-master/internal/tls/tls_web.go:85-126 | line feeds, blanks and zero bytes before a key are passed over, and the first one after it ends it |
| `Probes.ProbeLoggingSocket.HandleConnection` | mq-container-master/internal/probes/probesocket.go:142-235 | after any stream of events the current run and the two slots are the last three runs, and startup state, log and remembered messages are those of the whole stream |
| `Probes.ProbeLoggingSocket.HandleLivenessProbe` | mq-container-master/internal/probes/probesocket.go:166-204 | one liveness event moves the three runs on |
| `Probes.ProbeLoggingSocket.HandleStartupProbe` | mq-container-master/internal/probes/probesocket.go:210-235 | one startup event moves the startup state on |
| `Probes.ProbeLoggingSocket.DedupLog` | mq-container-master/internal/probes/probesocket.go:241-250 | what is emitted and remembered for each kind of probe |
| `Probes.ProbeLoggingSocket.StartupProbeDedupLogHelper` | mq-container-master/internal/probes/probesocket.go:255-269 | no errors, and no message that is the same as the one remembered |
| `Probes.ProbeLoggingSocket.LivenessProbeDedupLogHelper` | mq-container-master/internal/probes/probesocket.go:274-287 | every error, and no information that is the same as the message remembered |
| `Probes.GroupsDivide` | mq-container-master/internal/probes/probesocket.go:176-204 | the runs divide the liveness events in order, each started by an INCOMPLETE event except perhaps the first |
| `Probes.LivenessSnoc` | mq-container-master/internal/probes/probesocket.go:176-204 | an event starts a run, completes the current one, or does neither |
| `Probes.LivenessEvent` | mq-container-master/internal/probes/probesocket.go:176-204 | which event becomes the current run, and that a completion gives it its status, end, duration, message and level and leaves its start |
| `Probes.SupersededRun` | mq-container-master/internal/probes/probesocket.go:178-188 | a run superseded while INCOMPLETE is kept with the time since its start, any other as it is |
| `Probes.StartupEvent` | mq-container-master/internal/probes/probesocket.go:220-234 | an INCOMPLETE event adds an attempt, a completion leaves their number |
| `Probes.LogEvent` | mq-container-master/internal/probes/probesocket.go:241-287 | which event is emitted and which is remembered, for each kind, level and message |
| `Probes.LogIsEmitted` | mq-container-master/internal/probes/probesocket.go:255-287 | remembering only what is emitted is enough: the log is every liveness error and each other message that differs from the one before it on its socket, and no startup error |
| `Probes.SocketLog` | mq-container-master/internal/probes/probesocket.go:255-287 | whatever happens on other sockets, the log of a socket is every liveness error on it and every other counted message that differs from the counted one before it there |
| `Probes.InformationIsDestuttered` | mq-container-master/internal/probes/probesocket.go:255-287 | in any stream, on a socket without liveness errors the log is the counted messages with repeats collapsed, an empty first message included |
| `Probes.AttemptsSoFar` | mq-container-master/internal/probes/probesocket.go:221-234 | the attempt count is the number of INCOMPLETE events, plus what a completion brought that came before all of them |
| `Probes.AttemptsAreStarts` | mq-container-master/internal/probes/probesocket.go:221-234 | when senders leave the count alone it is the number of INCOMPLETE events |
| `Metrics.Gatherer.HandleRequest` | mq-container-master/internal/metrics/update.go:82-86 | a collect takes everything pending as its batch and empties the caches; a describe moves nothing; each publication is pending or in exactly one batch |
| `Metrics.Gatherer.UpdateMetrics` | mq-container-master/internal/metrics/update.go:196-226 | every cache is normalised into its metric and emptied |
| `Metrics.Gatherer.Publish` | mq-container-master/internal/metrics/update.go:72-75 | a publication joins what is pending |
| `Metrics.CachedDeltaIsSum` | mq-container-master/internal/metrics/update.go:211-224 | what a collect takes for a delta is the sum of what was published for each label |
| `Metrics.CachedIsLatest` | mq-container-master/internal/metrics/update.go:211-224 | what it takes for any other element is the latest value for each label |
| `MetricsExporter.Exporter.Collect` | mq-container-master/internal/metrics/exporter.go:83-156 | every counter is the sum of the batches of all collects but the first, and every gauge shows exactly the latest batch |
| `MetricsExporter.Exporter.Describe` | mq-container-master/internal/metrics/exporter.go:56-80 | allocates empty vectors and moves nothing; what was counted before is forgotten |
| `MetricsExporter.Exporter.AddValues` | mq-container-master/internal/metrics/exporter.go:97-116 | each counter sample grows by all values that go to it, in whatever order |
| `MetricsExporter.Exporter.SetValues` | mq-container-master/internal/metrics/exporter.go:128-147 | after a reset the samples are the values of the batch and nothing else |
| `MetricsExporter.SumWithout` | mq-container-master/internal/metrics/exporter.go:97-116 | the sum of a batch does not depend on the order of its labels |
| `MetricsExporter.BatchSumOfOne` | mq-container-master/internal/metrics/exporter.go:97-116 | a value that alone goes to a sample is the sum there, and where none goes the sum is zero |
| `MetricsExporter.LabelsOf` | mq-container-master/internal/metrics/exporter.go:101-108 | the queue manager's values go to its own sample, those of a native HA instance to the instance without the prefix and the queue manager, any others to the object and the queue manager |
| `MetricsExporter.DisplaysEachValueIff` | mq-container-master/internal/metrics/exporter.go:128-147 | a gauge shows every value as it is if and only if no two different values go to the same sample |
| `Stanza.RemoveTracingExitINIEntry` | mq-container-master/cmd/runmqserver/opentracing.go:41-85 | the line loop computes the stanza filter: a flag exactly when a group was dropped, the kept groups in order, the input verbatim otherwise |
| `Stanza.GroupsDivide` | mq-container-master/cmd/runmqserver/opentracing.go:50-72 | the groups are all lines in order, each but the first with a header at its front and nowhere else |
| `Stanza.DroppedIff` | mq-container-master/cmd/runmqserver/opentracing.go:62-66 | a group is dropped exactly when some line that is not a header mentions the exit |
| `Stanza.StanzaIsRemovedIff` | mq-container-master/cmd/runmqserver/opentracing.go:41-85 | a line with a colon and the lines without one that follow are removed, and everything around them kept, when one of the latter mentions the exit; otherwise nothing changes |
| `Stanza.KeptAreKept` | mq-container-master/cmd/runmqserver/opentracing.go:54-61 | no kept line mentions the exit |
| `Stanza.SecondRunChangesNothing` | mq-container-master/cmd/runmqserver/opentracing.go:41-85 | a second run finds nothing and changes nothing, also after carriage returns were dropped |
| `Stanza.LinesOfRender` | mq-container-master/cmd/runmqserver/opentracing.go:42-43 | scanning what was written gives the lines back, except for a carriage return at the end of one |
| `Stanza.CarriageReturnIsDropped` | mq-container-master/cmd/runmqserver/opentracing.go:42-43 | one carriage return at the end of a line is no part of it |
| `Version.ParseVRMF` | mq-container-master/internal/mqversion/mqversion.go:72-97 | the loop over the parts gives the four numbers or the error of the first wrong part |
| `Version.RoundTripIff` | mq-container-master/internal/mqversion/mqversion.go:56-97 | printing and parsing gives a value back exactly when no part is negative and the first is positive |
| `Version.AcceptedIsVersion` | mq-container-master/internal/mqversion/mqversion.go:84-94 | every accepted string gives such a value |
| `Version.AtoiOfDecimal` | mq-container-master/internal/mqversion/mqversion.go:85 | reading a printed number gives it back |
| `Version.PartOfDigits` | mq-container-master/internal/mqversion/mqversion.go:81-94 | a part of digits stands for its decimal value, with a plus sign too; too large, zero in front or negative it is an error |
| `Version.PartOfOther` | mq-container-master/internal/mqversion/mqversion.go:81-87 | any other character in a part is an error, and so is an empty part |
| `Version.Compare` | mq-container-master/internal/mqversion/mqversion.go:60-70 | compares at the first part where two versions differ |
| `Version.FirstPartDecides` | mq-container-master/internal/mqversion/mqversion.go:60-70 | a smaller part decides whatever follows it, after equal ones |
| `Version.ComparisonIsTotal` | mq-container-master/internal/mqversion/mqversion.go:60-70 | zero exactly for equal versions, and the other sign the other way round |
| `Version.ComparisonIsTransitive` | mq-container-master/internal/mqversion/mqversion.go:60-70 | the order is transitive |

## Left out

- External commands and MQ binaries: steps that finish, with a result where one matters.
- TLS keystores, certificate watching, HTTP, audit wrapping, sockets, JSON, console formatting and
  timestamps: decided elsewhere, or plumbing.
- Lookup tables and switches read from the environment: they would only add easy members.
- Invalid UTF-8 in the redactor and the stanza filter: a string is a sequence of code points. The
  one-byte peek of the redactor is a peek at a code point, which its two tests cannot tell apart.
- Errors of the redactor's reader: a reader over a string returns none but the end of input, so `Redact`
  has no error result.
- Lines longer than the limits of `bufio.Scanner`: the tailer and the stanza filter read whole lines.
- Shutdown: logging, the probe summary, the wait for the probe socket and time are left out. The metrics
  library may fail, serve or panic at any time. A termination signal after `signal.Stop` is not delivered.
- Tailer: the first stat and open are one step, as nothing can rotate the file before the queue manager
  starts. A stat or open that fails ends the reader in `Failed`; errors of `Stat`, `Seek` and `Close` on an
  open file, and the result of the mirroring function, which is only counted, are left out.
- Log rotation: failing file operations, the lock, and file names. Instances are taken to have different
  names. The theorems of `LogHistory` are for a file count of at least one; the methods are for any count.
- Volume cleaning: a path whose deletion is refused is refused whenever it is tried, with any part of what
  lies below it removed. Paths are clean and absolute, symbolic links are files, and nobody else changes the
  volume. The entries of a directory are visited in any order, of which Go's sorted one is a case.
- Wiped buffers: the `meta` object, finalizers, pinning and the string view of the memory. `New` and
  `setMeta` are the assignment of the slice.
- Probes: a JSON `null` event and missing state objects. The run that is updated in place is a value that
  is replaced; each event is decoded into a fresh object, so no other reference to it is lost. An entry of
  the log keeps its socket, which the printed line does not show.
- Metrics: one connection, with unique keys, as within `initialiseMetrics`. The elements that
  `updateMetrics` skips are not part of the model. Values are real numbers, `Normalise` is any function and
  the exporter is the only client of the request channel. Publications arrive one at a time, with a delta
  added to what is cached, as the metrics library does it. The library stops at negative values and a
  counter never gets one, so the panic of `Add` is left out.
- Versions: `Get` and the exported `Compare`, which run a command.
