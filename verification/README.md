# Verified model of CEC control

CEC control lets Home Assistant speak HDMI-CEC to a television, through an adapter
on the same machine (`LocalBackend`) or through a small HTTP daemon on another one
(`DaemonBackend` and `cec_daemon.py`). This project models the parts of it that are
easy to get wrong and proves what they promise. `dafny verify dfyconfig.toml` checks
all of it.

## The parts

**Access to the adapter.** libcec must not be used by two threads at once, opening it
may block forever, and a thread that is stuck in an open cannot be stopped.
`CecAdapter` and `LocalBackend` share one protocol for this: a first-come-first-served
lock, an open under a bounded wait, and an `OpenGuard` that imposes a cooldown after a
timeout. `AdapterProtocol.dfy` is that protocol as a machine over its atomic steps: any
number of tasks, a monotone clock, executor jobs that end independently of the task
that awaits them (a job may already have ended when the wait for it expires), and a
record of everything asked of the drivers. `Sequential.dfy` is one call executed
alone; it is the reference.

- `AdapterSafety.dfy`: driver methods never overlap and belong to the holder of the lock.
- `Serialisation.dfy`: every run has the outcomes, the fields and the record of a
  sequential execution in the order in which the lock was taken.
- `AdapterTiming.dfy`: abandoned threads appear once in 80 seconds at most, a bound that
  is reached; during the cooldown everybody fails at once and the queue drains.
- `AdapterProgress.dfy`: nobody waits forever. While no time passes the steps run out,
  and only when everybody is done; and if driver calls are bounded, a task is done within
  a time its place in the queue determines, whatever opens do.
- `LibcecObjects.dfy`: every libcec object that was made and not closed is accounted for,
  with the opens that were given up and succeed later.
- `AdapterClosing.dfy`: no driver is used after its close has begun or closed twice.
- `KeyPresses.dfy`, `KeyClients.dfy`: a local key is pressed and released without
  anything in between; through the daemon each key is a press and then its release.
- `OpenGuard.dfy`, `LocalBackend.dfy`: the two classes with their fields, updated in
  place; the guard is proved against its whole history, the backend against the reference.

**The driver.** `SwigDriver.dfy` follows every libcec object from its creation to its
close, with a binding that may raise anywhere. `Scans.dfy` covers scanning with both
bindings, and the python-cec mapping that must always be emptied. `Bindings.dfy` says
what each driver method asks of the bus.

**The two transports.** `Transports.dfy` puts the direct path and the path through
client, HTTP handler and adapter side by side, for whatever a call of the adapter comes to;
`TransportRuns.dfy` puts both on top of the protocol, with the opening of the adapter, and
compares one key on both. `HexCodec.dfy`, `RawCommand.dfy`,
`PythonInt.dfy`, `Numerals.dfy` and `Text.dfy` are the codecs under it. The press and
the release of a key are the Remote Control Pass Through feature of CEC (HDMI
Specification 1.3a, Supplement 1, section CEC 13.13).

**Releases.** `VersionPattern.dfy` models the two regular expressions of
`scripts/version.py`, whose captures may span lines; `VersionSync.dfy` proves that
rewriting creates no second match and loses none, and ties `sync_version` to
`check_versions`, and `VersionCheck.dfy` says of all trees when each of them succeeds.
`StableVersion.dfy` covers format and order (sections 2 and 11 of
SemVer 2.0.0).

**Entities.** `MediaPlayer.dfy` (reported state), `RemoteLoop.dfy` and `RemoteCommands.dfy`
(repeated commands and what they ask for), `Channels.dfy` (typing a channel number).

## Where the code and its documentation part

The model follows the code.

- `raw:` followed by separators only is not reported as an invalid command: `parse_raw`
  indexes an empty list (`custom_components/cec_control/remote.py:50-59`). Shown, with
  the exact condition, by `CrashesOnSeparatorsOnly`.
- The entities are said not to be able to tell the transports apart (`README.md:31-34`).
  Both succeed or neither does, but `LocalBackend._call` opens the driver outside of its
  `try` (`custom_components/cec_control/backend.py:201`), so a `DriverUnavailable` raised
  while opening leaves it untranslated, while the daemon makes a 503 of it.
  `LocalFailureIsBackendError` says exactly when an exception escapes;
  `UnpluggedAdapterEscapes` is one.
- Nor are failures always of one kind: a send the bus refuses is a plain `BackendError`
  locally and a `BackendUnavailable` through the daemon. `FailureKindAgrees` gives the
  exact condition, `RefusedSendDiffersInKind` such a send.
- A key whose press is refused is still released by the local driver, but not through the
  daemon (`custom_components/cec_control/backend.py:139-145`). `KeyTransportsAgree` says
  exactly when the bus is asked for the same, whichever bindings the two ends have;
  `RefusedPressIsReleasedLocally` is such a key.
- libcec is not to be driven from several threads at once
  (`custom_components/cec_control/backend.py:151-153`, `daemon/cec_daemon.py:63-65`). It
  is, after a wait has expired: `OneThreadButForAbandoned` says how far that goes,
  `MethodBesideStuckOpen` is a run with a driver method beside an open that is stuck.
- `/health` is said to be always 200 (`docs/daemon-contract.md:60`), but `health` catches
  only `DriverError`, and anything else becomes a 500. `StatusTellsWhoseFault` gives the
  exact condition, `HealthCanFail` an input.
- `sync_version` accepts a README whose bootstrap sentence is not alone on its line, and
  `check_versions` then turns its result down. `SyncThenCheck` and `SyncTwice` hold
  exactly for the READMEs called `Orderly`; `SentenceNotAloneFailsCheck` is a tree with
  another one.
- `SwigDriver.open` leaves its libcec object behind when the binding raises;
  `RunBalances` counts such objects exactly, `RaisingOpenAbandons` shows one.

## Model

| member | source | states |
|---|---|---|
| OpenGuards.OpenGuard.Blocked | custom_components/cec_control/libcec_driver.py:125-132 | answers what the whole history says: the latest failure's reason if no success followed and less than the cooldown has passed, else empty; clears an expired failure |
| OpenGuards.OpenGuard.RecordFailure | custom_components/cec_control/libcec_driver.py:134-137 | the failure is remembered with its time and reason |
| OpenGuards.OpenGuard.RecordSuccess | custom_components/cec_control/libcec_driver.py:139-142 | everything is forgotten |
| OpenGuards.FieldsRemember | custom_components/cec_control/libcec_driver.py:109-142 | after any history the two fields hold exactly the deciding failure, unless a question found it expired |
| OpenGuards.VerdictIsHistory | custom_components/cec_control/libcec_driver.py:125-132 | under a monotone clock the lazy clearing inside a question is never observable |
| OpenGuards.DecidingFailureIsUnique | custom_components/cec_control/libcec_driver.py:125-132 | at most one failure can decide the answer |
| AdapterSafety.InvStep | daemon/cec_daemon.py:86-111 | every step of the protocol keeps the lock, outcome, job and await invariants |
| AdapterSafety.DriverJobsNeverOverlap | custom_components/cec_control/backend.py:198-209 | in every run: one driver-method job at most is running, it is the lock holder's, only abandoned opens run beside it, the lock is taken in the order of arrival |
| Serialisation.RunIsSerialisable | daemon/cec_daemon.py:86-111 | every run is explained by a sequential execution of the requests in lock order plus the holder's unfinished one |
| Serialisation.IdleRunIsSequential | custom_components/cec_control/backend.py:175-209 | with the lock free: record, stored driver, guard and every outcome are those of the sequential execution, at times that do not overlap |
| Serialisation.StepMatches | daemon/cec_daemon.py:86-111 | each step of the machine keeps the match with the sequential execution |
| LocalBackends.LocalBackend.AsyncDriver | custom_components/cec_control/backend.py:175-196 | the stored driver; else the guard's refusal, or one open that succeeds, raises or expires, each with its new fields; a TimeoutError raised by the open is recorded like an expired wait |
| LocalBackends.LocalBackend.Call | custom_components/cec_control/backend.py:198-209 | outcome, new fields and record of the reference execution |
| LocalBackends.LocalBackend.AsyncClose | custom_components/cec_control/backend.py:250-255 | the driver is forgotten, and closed if there was one, as in the reference execution |
| AdapterTiming.AbandonedThreadsAreRare | daemon/cec_daemon.py:86-104 | n timed-out opens take at least 20 + 80(n-1) seconds, whatever happens between; every abandoned thread is one of them |
| AdapterTiming.RateIsReached | custom_components/cec_control/libcec_driver.py:50-54 | for every n some run has n abandoned threads at exactly that time |
| AdapterTiming.OneThreadButForAbandoned | custom_components/cec_control/backend.py:151-153 | libcec is in the hands of the abandoned opens and of one job beside them at most, the one the lock holder awaits; of one at most in all if none was abandoned |
| AdapterTiming.MethodBesideStuckOpen | custom_components/cec_control/backend.py:186-205 | a run in which a driver method runs beside a stuck open |
| AdapterTiming.CooldownBegins | daemon/cec_daemon.py:94-103 | the guard remembers a failure exactly after an expired wait or a TimeoutError out of the open, and the task that awaited it is refused |
| AdapterTiming.CooldownFailsFast | daemon/cec_daemon.py:88-110 | from any point of a cooldown until it ends nothing is started, and every later task waits, is about to be refused, or failed with the recorded message |
| AdapterTiming.BacklogDrains | daemon/cec_daemon.py:106-111 | in the cooldown each step of the lock lowers the backlog by one, such a step is possible until it is zero, and at zero every task is done |
| AdapterTiming.QueueCanDrainAtOnce | daemon/cec_daemon.py:106-111 | the whole queue can be gone at the instant of the timeout |
| AdapterProgress.StepsRunOut | daemon/cec_daemon.py:86-111 | from every reachable state, whatever jobs do: a bounded number of steps can follow before time passes or somebody arrives, and one is possible until every task is done |
| AdapterProgress.EverybodyCanFinish | custom_components/cec_control/backend.py:198-209 | from every reachable state some run has every task done without any more time passing |
| AdapterProgress.PromptRunsCanFinish | daemon/cec_daemon.py:106-111 | wherever a run with a prompt event loop and bounded calls has come, it can go on at the same instant until every task is done and time may pass |
| AdapterProgress.NobodyWaitsLong | daemon/cec_daemon.py:106-111 | with a prompt event loop and driver calls of L seconds at most, a task with k tasks ahead is done, or k+1 turns of 20+L seconds have not passed yet, whatever opens do and whoever arrives |
| AdapterProgress.TurnsAreProduct | custom_components/cec_control/libcec_driver.py:53 | k turns are k times 20 seconds and the bound on driver calls |
| AdapterClosing.CloseStep | custom_components/cec_control/backend.py:250-255 | each step keeps the invariant behind the next row |
| AdapterClosing.ClosedDriversRest | custom_components/cec_control/backend.py:198-209 | no driver is closed twice, none is used once its close has begun, a call after a close acts on a driver opened after it |
| KeyPresses.PressAndReleaseAreAdjacent | custom_components/cec_control/backend.py:230-235 | on the local transport a key's release directly follows its press on the bus, unless the binding raised in between |
| KeyPresses.AnsweredKeyWasReleased | custom_components/cec_control/libcec_driver.py:222-233 | every answered send_key pressed and released, even when the press was refused, and answers whether both were accepted |
| KeyPresses.ExecutionOf | daemon/cec_daemon.py:106-111 | a finished task is one uninterrupted block of the record |
| KeyClients.TaskSends | custom_components/cec_control/libcec_driver.py:343-364 | what a finished task put on the bus is a prefix of its method's messages, all of them if it was answered; an unserved task sent nothing |
| KeyClients.DaemonKeyIsPressThenRelease | custom_components/cec_control/backend.py:139-145 | through the daemon each key's own messages are a press and then at most its release, sent only for an accepted press and at least 0.2 seconds after it, both if the key succeeded, whatever other callers do |
| KeyClients.HeldKeyCanBeReleased | custom_components/cec_control/backend.py:144-145 | after 0.2 seconds the release can be requested, and is the message 0x45 without parameters |
| Bindings.ProgramMeans | custom_components/cec_control/libcec_driver.py:343-451 | what each driver method asks of the bus, in order, with either binding: waking and standby, press and release, the poll and the claim are told apart |
| Bindings.KeyIsTwoTransmits | custom_components/cec_control/libcec_driver.py:222-233 | whichever bindings two ends have, a key asks the bus for what its press and release transmits ask for; with python-cec it is the frames 0x44 and 0x45, and standby is 0x36 |
| KeyClients.TrafficTellsRequest | custom_components/cec_control/libcec_driver.py:343-451 | in every run two answered tasks put the same on the bus exactly if they were asked for the same, or for the two ways of standby with python-cec |
| SwigDrivers.TryPort | custom_components/cec_control/libcec_driver.py:295-302 | the port opens exactly if one of three attempts succeeds, at Open or at the ping behind a failed Open, with nothing raised before; an exception comes through exactly if one raises; the calls made are Open, a ping behind a failed Open, a sleep between two attempts |
| SwigDrivers.OpensWhenSomeAttemptSucceeds | custom_components/cec_control/libcec_driver.py:295-304 | the same, said of the binding's answers to Open and to the ping alone |
| SwigDrivers.CountsOfPortCalls | custom_components/cec_control/libcec_driver.py:295-302 | n attempts make n Opens, n-1 sleeps, and a ping for each Open that failed |
| SwigDrivers.PortCallsAreDetermined | custom_components/cec_control/libcec_driver.py:295-302 | what is asked of the port is determined by the binding's answers, and is eight calls at most |
| SwigDrivers.SwigDriver.Configure | custom_components/cec_control/libcec_driver.py:245-270 | a new libcec object, or the failure that prevented it |
| SwigDrivers.SwigDriver.DetectAdapters | custom_components/cec_control/libcec_driver.py:272-278 | the object made for detecting is closed even if detecting raises, and the stored one is kept |
| SwigDrivers.SwigDriver.Open | custom_components/cec_control/libcec_driver.py:280-304 | succeeds exactly if an object is stored afterwards; once the port is tried, exactly if one of three attempts opens it or answers the ping; which failure means what; which calls are made; an open driver is left alone |
| SwigDrivers.SwigDriver.Close | custom_components/cec_control/libcec_driver.py:306-311 | the stored object is closed once and forgotten |
| SwigDrivers.RunBalances | custom_components/cec_control/libcec_driver.py:245-311 | after any sequence of calls: nothing closed twice, the stored object is open, and beside it exactly the objects abandoned by a raising binding |
| SwigDrivers.NothingIsAbandoned | custom_components/cec_control/libcec_driver.py:245-311 | with a binding that returns, the objects created and not closed are exactly the stored one |
| SwigDrivers.RaisingOpenAbandons | custom_components/cec_control/libcec_driver.py:287-304 | an Open that raises leaves an object that nothing closes |
| LibcecObjects.FatesAreBooks | custom_components/cec_control/libcec_driver.py:280-311 | what an open makes of its object is what the driver does to its own books: stored, closed, or abandoned |
| LibcecObjects.ObjectsAreAccountedFor | custom_components/cec_control/backend.py:169-196 | in every run of the protocol over SWIG drivers the objects made and not closed are exactly the stored one, the one in hand, those of given-up opens that have not failed, and those a raising binding lost, no object twice; of the first two one at most, and n of the third take 20 + 80(n-1) seconds |
| LibcecObjects.StraysStay | custom_components/cec_control/backend.py:186-194 | the object of a given-up open that succeeded is never closed |
| LibcecObjects.EveryRunHasObjects | custom_components/cec_control/backend.py:175-209 | every run of the protocol is the core of such a run |
| Scans.ScanSwig | custom_components/cec_control/libcec_driver.py:318-341 | one entry for each active address 0..14, in strictly increasing order, with what the device says; not open is an error |
| Scans.StatusFollowsScan | custom_components/cec_control/backend.py:211-219 | the status of a SWIG scan has a device exactly at the active addresses, the one that was listed |
| Scans.SortedListsKeys | custom_components/cec_control/libcec_driver.py:427 | the addresses of a mapping in strictly increasing order, each once |
| Scans.ListDevices | custom_components/cec_control/libcec_driver.py:418-428 | an entry per device in address order; if reading a device raises, in any of its properties, it was the last one read |
| Scans.ScanPython | custom_components/cec_control/libcec_driver.py:414-431 | the same, and the mapping is empty afterwards whether it returned or raised |
| Scans.TurnOnPython | custom_components/cec_control/libcec_driver.py:437-447 | the device's answer, false if there is none, and the mapping is empty afterwards whether it returned or raised |
| Scans.StatusFollowsMapping | custom_components/cec_control/backend.py:211-219 | the status of a python-cec scan is the mapping, device by device |
| Transports.StatusHasEveryDevice | custom_components/cec_control/backend.py:213-219 | a scan in address order gives one device per entry, and looking one up agrees with a linear search |
| Transports.StatusFieldByField | custom_components/cec_control/backend.py:78-88 | which field of a scan entry is which field of the device |
| Transports.RejectionSays | daemon/cec_daemon.py:119-130 | what the two ends say of a refused power command or message |
| Transports.DecodeEncode | custom_components/cec_control/backend.py:329-353 | the daemon understands each request in range as the call it was made for, and turns every other one down with 400 |
| Transports.TransportsAgree | custom_components/cec_control/backend.py:198-353 | in range both transports ask the adapter for the same call with the same arguments, and whatever that comes to, both give the same result or neither succeeds, with the same text |
| Transports.SameCallExactlyInRange | daemon/cec_daemon.py:179-203 | the driver calls are the same exactly in range; out of range the daemon makes none and reports a plain error |
| Transports.FailureKindAgrees | daemon/cec_daemon.py:282-289 | two BackendErrors are of one kind exactly if the guard refused or the driver raised DriverUnavailable |
| Transports.RefusedSendDiffersInKind | custom_components/cec_control/backend.py:225-228 | a refused send is a plain BackendError locally and BackendUnavailable through the daemon |
| Transports.DecodeIsAsks | daemon/cec_daemon.py:251-273 | the handlers read a request as a call exactly if its fields say that call: integers or their texts in range, a hex text, on or off |
| Transports.StatusTellsWhoseFault | daemon/cec_daemon.py:225-305 | 404 exactly without an endpoint, 400 exactly if an endpoint's request asks for no call, neither reaches the adapter; otherwise exactly the call asked for is made, 200 if it succeeds, 500 if something unexpected is raised, else 503; /health is 200 exactly unless something unexpected is raised |
| Transports.HealthTellsAdapter | daemon/cec_daemon.py:137-145 | a 200 from /health says the adapter is usable exactly if a scan was answered, and otherwise why, in the words of the guard or of the exception |
| Transports.BadRequestNamesFirstBadField | daemon/cec_daemon.py:179-222 | a 400 names the first field that is wrong |
| Transports.ErrorsSaySomething | docs/daemon-contract.md:34-42 | exactly the responses other than 200 have an error sentence, and it is never empty |
| Transports.HealthCanFail | daemon/cec_daemon.py:137-145 | an exception that is no DriverError makes /health a 500 |
| TransportRuns.LocalFailureIsBackendError | custom_components/cec_control/backend.py:175-209 | for every stored driver, guard and opening: both transports succeed or neither does, the daemon's client always raises a BackendError, the local backend exactly unless the open raised something other than a TimeoutError or the method something other than a DriverError |
| TransportRuns.HealthFollowsOpening | daemon/cec_daemon.py:106-145 | /health calls the adapter usable exactly if it has a driver, or gets one, and the scan returns |
| TransportRuns.UnpluggedAdapterEscapes | custom_components/cec_control/libcec_driver.py:289-292 | an adapter that is not there escapes locally and is BackendUnavailable through the daemon |
| TransportRuns.KeyTransportsAgree | custom_components/cec_control/backend.py:139-145 | one key with the same answers of the two bindings, whichever they are: both transports succeed or neither does; the bus is asked for the same exactly unless a refused press was released locally |
| TransportRuns.RefusedPressIsReleasedLocally | custom_components/cec_control/libcec_driver.py:229-233 | a refused press, for which it is not |
| HexCodec.HexRoundTrip | custom_components/cec_control/backend.py:339 | bytes survive hex() and fromhex |
| HexCodec.DecoratedHexDecodes | daemon/cec_daemon.py:206-222 | they survive however many colons and blanks are put anywhere, even inside a byte |
| HexCodec.RequireHexIsInverse | daemon/cec_daemon.py:216-217 | every text is read as p exactly if, up to separators and letter case, it is what hex() prints for p with nothing but white space between the bytes |
| PythonInt.PlainDigits | custom_components/cec_control/remote.py:52 | int(text, base) reads plain digits as their value |
| PythonInt.SignedDigits | custom_components/cec_control/remote.py:52 | digits behind a sign are their value with that sign |
| PythonInt.PrefixedDigits | custom_components/cec_control/remote.py:52 | 0x in front changes nothing in base 16 |
| PythonInt.UnderscoredDigits | custom_components/cec_control/remote.py:52 | an underscore between two digits changes nothing |
| PythonInt.OnlySignedIsNegative | custom_components/cec_control/media_player.py:142 | int(text, base) is negative only with a minus sign |
| RawCommand.RawIsTokenByToken | custom_components/cec_control/remote.py:45-59 | a command is turned down exactly if its body is empty or some token is no byte; otherwise its tokens are opcode and parameters in order |
| RawCommand.UnsignedIsNeverTooSmall | custom_components/cec_control/remote.py:57-58 | without a minus sign a command of readable numbers is turned down exactly for a number above 255 |
| RawCommand.CrashesOnSeparatorsOnly | custom_components/cec_control/remote.py:45-59 | parse_raw raises IndexError exactly on a non-empty body of separators |
| RawCommand.SeparatorsOnlyExample | custom_components/cec_control/remote.py:50-59 | one such command |
| RawCommand.RawUnderstandsBytes | custom_components/cec_control/remote.py:38-59 | two-digit bytes in either case with any non-empty run of colons and blanks between them are read as opcode and parameters |
| RawCommand.RawReadsFrame | custom_components/cec_control/libcec_driver.py:343-350 | raw: plus a frame text behind its header is read as that frame's opcode and parameters |
| RawCommand.FrameHeader | custom_components/cec_control/libcec_driver.py:346-347 | the header is initiator and destination |
| RawCommand.FrameTextIsUnique | custom_components/cec_control/libcec_driver.py:346-349 | the frame text determines initiator, destination, opcode and parameters |
| Numerals.NumeralIsDec | scripts/version.py:18 | a numeral without superfluous zeros is the printed form of its value |
| Numerals.DecLength | custom_components/cec_control/keymap.py:129 | the number of decimal digits |
| StableVersion.ParseIsInverseOfPrint | scripts/version.py:34-42 | a text is parsed as a triple exactly if it is the triple printed |
| StableVersion.NewerComparesNumbers | scripts/version.py:132-135 | require_newer accepts exactly a greater major, or the same and a greater minor, or both the same and a greater patch number |
| StableVersion.NewerIsStrictTotalOrder | scripts/version.py:132-135 | irreflexive, transitive, total on distinct valid versions |
| VersionPattern.MatchAtIsMatch | scripts/version.py:19-24 | the greedy attempt at a position finds the match the expression describes, if there is one |
| VersionPattern.FindNone | scripts/version.py:64-69 | finditer yields nothing exactly if there is no match |
| VersionPattern.FindOne | scripts/version.py:64-69 | finditer yields one match exactly if it is the only one |
| VersionPattern.RewriteKeepsOneMatch | scripts/version.py:90-103 | rewriting the only match leaves exactly one match, at the same place, capturing the new version |
| VersionSync.RepositoryFormatSuits | scripts/version.py:19-27 | the repository's two patterns and its sentence are safe to rewrite |
| VersionSync.BootstrapFindsLine | scripts/version.py:92-93 | replacing the bootstrap sentence makes exactly one match if it stood alone on its line, none otherwise |
| VersionSync.RewriteMakesNoSentence | scripts/version.py:89-91 | no bootstrap sentence can appear around a rewritten version |
| VersionSync.SyncPatternKeepsRest | scripts/version.py:100-103 | only the captured version is exchanged |
| VersionSync.SyncReadmeWrites | scripts/version.py:87-98 | the synced README holds exactly the new version if it was orderly, none otherwise |
| VersionSync.SyncReadmeTwice | scripts/version.py:87-98 | syncing the README again is syncing it once with the later version, if it was orderly |
| VersionCheck.CheckExactly | scripts/version.py:114-129 | for every tree: check_versions returns v exactly if v is a version and VERSION, manifest, README and daemon all say v, the last two with exactly one match |
| VersionCheck.OutOfStepFails | scripts/version.py:120-128 | a checkout that checks fails as soon as one of its four files says another version |
| VersionCheck.CheckoutChecks | scripts/version.py:114-129 | a checkout in the repository's own format, for every version |
| VersionCheck.SyncExactly | scripts/version.py:79-103 | sync_version succeeds exactly if the version is one, the manifest has one, the README has one release line and no bootstrap sentence or the other way round, and the daemon has one VERSION line |
| VersionCheck.FirstReleaseSyncs | scripts/version.py:92-93 | the bootstrap sentence alone becomes the release line, and the checkout then checks |
| VersionSync.SyncThenCheck | scripts/version.py:114-129 | after a sync check_versions returns the version exactly if the README was orderly |
| VersionSync.SentenceBehindCharacter | scripts/version.py:92-93 | a bootstrap sentence with another character before it on its line is replaced but not orderly |
| VersionSync.SentenceNotAloneFailsCheck | scripts/version.py:92-98 | for every version, a sync of such a tree succeeds and check_versions then fails |
| VersionSync.SyncTwice | scripts/version.py:79-111 | syncing v and then w leaves what syncing w leaves, exactly for an orderly README |
| VersionSync.SyncKeepsTheRest | scripts/version.py:105-111 | what is exchanged are the captured versions, or the bootstrap sentence; text outside of them and every other manifest key are kept |
| VersionSync.Repository.SyncVersion | scripts/version.py:79-111 | a VersionError leaves every file untouched; otherwise the files are the synced ones, and check_versions then returns the new version if the README was orderly |
| MediaPlayers.CecMediaPlayer.State | custom_components/cec_control/media_player.py:64-80 | the last successful power command's state for 12 seconds after it; otherwise On or Off exactly if the last scan's device at the player's address says it is on or off |
| MediaPlayers.CecMediaPlayer.Turn | custom_components/cec_control/media_player.py:82-103 | asks the backend for the power command of that state; success opens the window, failure raises and leaves it alone |
| MediaPlayers.CecMediaPlayer.Update | custom_components/cec_control/media_player.py:77-80 | a scan is taken over without ending the window |
| MediaPlayers.ScanIsReported | custom_components/cec_control/media_player.py:77-80 | behind a scan with no command since, On and Off are what the scan's entry for the address says |
| MediaPlayers.OnlyEssentialsCount | custom_components/cec_control/media_player.py:64-86 | reads and failed commands change no later answer |
| RemoteCommands.RawCommandAsks | custom_components/cec_control/remote.py:38-59 | raw: in any case and bytes in hexadecimal ask for the first as opcode with all the others as parameters, blanks around the whole or not |
| RemoteCommands.RawCommandResolves | custom_components/cec_control/remote.py:103-109 | any raw command: turned down, broken by an exception, or its tokens, each exactly when |
| RemoteCommands.KeyCommandAsks | custom_components/cec_control/keymap.py:105-122 | any other command asks for the key it spells, and is turned down if the table has none |
| RemoteCommands.SentIsAsked | custom_components/cec_control/remote.py:100-114 | every action of a run is what the command at its place asks for, and was carried out |
| RemoteCommands.RawIsSent | custom_components/cec_control/remote.py:104-109 | a raw command goes out with its opcode and all its parameters |
| RemoteCommands.KeyIsSent | custom_components/cec_control/remote.py:110-115 | a key goes out with its code |
| RemoteCommands.OnceByDefault | custom_components/cec_control/remote.py:97 | no number of repeats, or 0, means once; a negative one means never |
| RemoteLoop.SendCommands | custom_components/cec_control/remote.py:90-118 | the run goes through the r-fold list up to its end or the first command that does not succeed, with one pause between any two actions |
| RemoteLoop.SendUnderstood | custom_components/cec_control/remote.py:90-118 | the same for any meaning of the commands |
| RemoteLoop.SendRound | custom_components/cec_control/remote.py:98-114 | one repetition carries the run on from where it stood |
| RemoteLoop.RunIsDetermined | custom_components/cec_control/remote.py:90-118 | trace and outcome follow from the list and the backend |
| RemoteLoop.CountsOfRun | custom_components/cec_control/remote.py:97-114 | all succeed: one action per command, one delay less; action k fails: k actions, k delays, strictly alternating |
| RemoteLoop.CompletedRun | custom_components/cec_control/remote.py:97-114 | r repeats of the commands that all succeed send each command's own action at its place in each repeat, with one delay less than actions, none after the last |
| RemoteLoop.RepeatedAt | custom_components/cec_control/remote.py:97-98 | the list to go through has r times n commands, the index-th of each repetition being the index-th command |
| RemoteLoop.SpellingDoesNotMatter | custom_components/cec_control/keymap.py:105-113 | two names mean the same key exactly if, without the blanks around them, they agree up to capitals and up to hyphens and blanks for underscores |
| Channels.KeysSpellChannel | custom_components/cec_control/keymap.py:125-129 | the keys lie in 0x20..0x29, decode back to the channel, are as many as its digits, and start with zero for channel 0 only |
| Channels.ChannelIsDecimal | custom_components/cec_control/media_player.py:142 | a decimal number with blanks around it is that channel, with a minus sign a negative one |
| Channels.PlayMedia | custom_components/cec_control/media_player.py:133-154 | each kind of bad input exactly when, a negative one only with a minus sign; otherwise the keys go out in order up to the first failure, and a decimal number n tunes to n |

## Left out

- Cancellation of tasks: it releases the lock while the thread still runs, and every claim about access to the adapter assumes there is none.
- The size of the executor's thread pool: a job is taken to start when it is submitted.
- Timer resolution: a bounded wait expires at its deadline or later, never earlier.
- The inside of libcec, python-cec and the kernel lock: their answers are parameters, and whether an adapter is held is one of them.
- Exceptions out of `ICECAdapter.Close` and out of the driver's `close`: closing is taken to return.
- aiohttp routing, sockets, JSON text and malformed bodies: the model begins with parsed fields and ends with a status and an error value.
- Loss of connection and the client's own timeout, except that a key's client may give up at any time in `KeyClients`.
- The class name of a `TimeoutError` subclass in the text of a 500: it is written as `TimeoutError`.
- HEAD requests, which aiohttp serves like GET.
- How a SWIG scan renders vendor numbers and physical addresses, and optional fields of a device's JSON.
- RawCommand.FrameTextIsUnique: for a nibble as initiator and destination, because without a logical address libcec reports an initiator of -1.
- Text outside of ASCII, and Python's limit on the digits of a number.
- Newline translation when `scripts/version.py` reads and writes files, the JSON text of the manifest, and failing writes.
- VersionSync.Repository.SyncVersion: the four writes are one step, because a failing write is not part of this model.
- Turning a device on through python-cec is one bus operation, and the scan before it none of its own.
- `open` and `close` of `PythonCecDriver`, `set_stream_path`, `create_driver`, `flavour`: one branch each.
- Sources, volume and mute of the media player, the key tables themselves, message texts of entities.
- Config flow, coordinator, diagnostics, translations: glue of Home Assistant.
