# PiShock Switcher, modelled in Dafny

PiShock Switcher is a command-line tool. It reflashes a PiShock hub between the
stock PiShock firmware and the OpenShock firmware, keeping the hub's settings
across the swap.

Its core workflow:

- find the hub's serial port by USB vendor and product id;
- work out which firmware is running by racing two settings probes over the
  serial line;
- back up the running firmware's settings (the Wi-Fi networks of PiShock, the
  JSON configuration of OpenShock);
- download the other firmware's image;
- check and truncate the image;
- burn it with the external `esptool` flasher;
- restore the saved settings by sending serial commands.

This project models that core:

| file | module | what it holds |
|---|---|---|
| `base.dfy` | `Base` | option and result types, truthiness, ASCII case mapping, decimal rendering of integers, `split`/`join` |
| `json.dfy` | `Json` | JSON values, `JSON.stringify`, and the reversibility of its string escaping |
| `records.dfy` | `Records` | the firmware names, the serial command vocabulary and the shapes of the data the hub prints |
| `commands.dfy` | `Commands` | what `sendCommand` writes, and the commands a restore sends |
| `probes.dfy` | `Probes` | the two probes as a class driven by tick, chunk and timeout events, with the two frame patterns written out |
| `detection.dfy` | `Detection` | port selection, and the firmware-detection race as a class with a counter |
| `pishock.dfy` | `PiShock` | the PiShock image URL, and the check-and-truncate of a downloaded image |
| `openshock.dfy` | `OpenShock` | version trimming, board choices and the OpenShock image URL |
| `esptool.dfy` | `EspTool` | the flasher wrapper: initialisation, the shared instance, the flash guard and arguments, progress extraction, the exit code |
| `session.dfy` | `Session` | the `Device` class: `sendCommand`, `findPort`, `detectFirmware` and `flash` |

`flash` is stated twice:

- as a reference function, `FlashRun`, over the session's state and an effect
  log;
- as the imperative `Device.Flash`, proved equal to it.

The lemmas about `FlashRun` carry the workflow's promises. They cover:

- when a backup is written;
- that a failed flash leaves the image in place and the port closed;
- that a PiShock hub's networks come back, in order, after a successful flash.

Places where the code and the written description of the tool differ follow
the code:

- A probe sends its first request on the first tick of its interval, one
  second after it starts, not immediately.
- When the flasher fails, `flash` rejects straight away. The temporary image
  is not removed and the port is not reopened.
- A backup can come back empty and the user can still choose to flash. If the
  data is then `undefined` (a PiShock hub that did not answer),
  `writeFileSync` throws and `flash` rejects.
- An OpenShock backup that timed out is `null`, and `null` is saved as the
  text `null`.
- The image is checked and truncated for both targets. The guard at
  `src/index.ts:300` tests a constant enum member, so it is always true.

## Model

| member | source | states |
|---|---|---|
| Base.LowerOfUpper | src/index.ts:118-120 | lower-casing an upper-cased id gives the same text as lower-casing the id, so `toLocaleLowerCase` comparison ignores case |
| Base.Split | src/openshock.ts:10 | `split("\n")` yields at least one piece, no piece holds the separator, and joining the pieces gives back the text |
| Base.SplitJoin | src/openshock.ts:10 | splitting the join of separator-free pieces gives back exactly those pieces |
| Base.IntToStringInjective | src/esptool.ts:116 | distinct integers render as distinct decimal texts |
| Base.LeftmostNone | src/index.ts:59 | a left-to-right scan finds nothing exactly when no position in range gives a value (the same call is at `src/index.ts:93`) |
| Base.LeftmostFirst | src/index.ts:59 | a left-to-right scan returns the value at the first position in range that gives one (the same call is at `src/index.ts:93`) |
| Json.PrintableStringify | src/index.ts:145 | the text `JSON.stringify` produces has no control characters, so in particular no line feed |
| Json.UnescapeEscape | src/index.ts:145 | the string escaping of `JSON.stringify` is undone by JSON string unescaping: the round trip gives back the string |
| Json.QuoteInjective | src/index.ts:145 | two strings with the same JSON text are the same string |
| Commands.Encode | src/index.ts:140-146 | a string is always accepted and goes out as itself plus one line feed (a single line when it holds none); an object is accepted exactly when its `cmd` is truthy, is refused with the missing-`cmd` error otherwise, and when accepted goes out as its JSON text plus a line feed, which is exactly one line |
| Commands.ObjectIsOneLine | src/index.ts:145 | an accepted command object is written as exactly one line |
| Commands.TypedCommandIsOneLine | src/index.ts:140-146 | every typed serial command has its `cmd`, so it is always written, as one line |
| Commands.RestoreCommands | src/index.ts:325-338 | OpenShock restores exactly one command; PiShock restores one `addnetwork` object per entry `for...of` visits, in order, and fails, reporting the saved value, exactly when that value is not iterable; every command of a restore is accepted by `sendCommand` and written as a single line |
| Commands.RestoreNetworksInOrder | src/index.ts:330-337 | restoring saved networks sends the typed `addnetwork` command of each network, in saved order, and nothing else |
| Commands.RestoreOpenShockIsOneLine | src/index.ts:328 | an OpenShock restore writes the single line `jsonconfig ` + configuration JSON + line feed |
| Probes.LastOwner | src/index.ts:36 | the greedy `.*` backtracks to a position in the line where `ownerId":\d+}` fits, and to the last such position: none fits after it, and none is found only when none fits anywhere in the line |
| Probes.LastClose | src/index.ts:37 | the greedy `.*` of `\{.*\}\}` backtracks to the last end in the line with `}}` just before it: no later end in range has one, and none is found only when no end in range has one |
| Probes.FrameAtIsSlice | src/index.ts:36-37 | the pattern matches at a position exactly when the look-behind ends there, the position holds `{` and the tail fits on its line; the match is the text from that `{` up to the end `FrameEnd` finds |
| Probes.FrameAtSound | src/index.ts:36-37 | a match at a position has the pattern's shape and is preceded by the look-behind text |
| Probes.Frame | src/index.ts:59 | `String.match` of a frame pattern yields a text of the frame's shape that occurs right after the look-behind (the same call is at `src/index.ts:93`) |
| Probes.FrameIsLeftmost | src/index.ts:59 | `String.match` returns the match at the leftmost position where the pattern matches, and nothing exactly when it matches at no position (the same call is at `src/index.ts:93`) |
| Probes.FindFrameSkip | src/index.ts:36-37 | when the search only steps forward at each position from `i` up to `j`, searching from `i` finds what searching from `j` finds |
| Probes.FrameEndIsLastTail | src/index.ts:36-37 | a frame ends on the line of its `{`: for a configuration at the last `}}` of that line, with no frame when the line has none after the `{`; for terminal information there is no frame exactly when `ownerId":\d+}` fits nowhere on that line |
| Probes.InfoFrameEndIsLastOwner | src/index.ts:36 | a terminal-information frame ends where the tail `ownerId":\d+}` ends when it starts at the last position on the line where it fits |
| Probes.FindFrameScans | src/index.ts:59 | the search from a position is the left-to-right scan that tries the pattern at each start in turn (the same call is at `src/index.ts:93`) |
| Probes.FindFrameNone | src/index.ts:59 | the search from a position finds nothing exactly when the pattern matches at no position from there on (the same call is at `src/index.ts:93`) |
| Probes.FindFrameFirst | src/index.ts:59 | the search from a position returns the match at the first position, from there on, where the pattern matches (the same call is at `src/index.ts:93`) |
| Probes.FindFrameSound | src/index.ts:59 | what the search finds has the frame's shape and comes right after the look-behind (the same call is at `src/index.ts:93`) |
| Probes.ConfigFrameOfLine | src/index.ts:58-64 | an OpenShock configuration printed on one line after its marker is exactly the frame the probe takes, whatever was printed before, as long as that holds no `JsonConfig\|{` |
| Probes.NoFrameBeforeLead | src/index.ts:36-37 | when the text before the lead holds no look-behind followed by `{`, the match is the one that starts right after the lead |
| Probes.FrameInPre | src/index.ts:36-37 | a match could start inside earlier output only where that output holds the look-behind followed by `{` |
| Probes.InfoFrameOfLine | src/index.ts:92-98 | a PiShock terminal-information object ending in `ownerId":<digits>}`, printed on one line after `TERMINALINFO: `, is exactly the frame the probe takes, whatever was printed before, as long as that holds no `TERMINALINFO: {` |
| Probes.InfoMarkerImplied | src/index.ts:92-93 | for the PiShock probe, the `includes("TERMINALINFO")` pre-check passes whenever the pattern matches, so the listener accepts exactly when there is a frame |
| Probes.Probe.constructor | src/index.ts:51-77 | a new probe has an empty buffer, is pending, listens, and has its timeout and interval running |
| Probes.Probe.OnTick | src/index.ts:54 | each tick of a running interval sends the probe's request (`jsonconfig`, or the `info` command of `src/index.ts:82-88`); a stopped interval sends nothing |
| Probes.Probe.OnChunk | src/index.ts:56-67 | a chunk is appended to the buffer; once the marker and a frame are present the buffer is cleared, the timeout is cleared, the listener detaches, the interval keeps running, and the probe settles with the parsed frame, or is marked crashed when the parse throws (the exception escapes the listener and ends the process); the same listener serves `src/index.ts:90-101` |
| Probes.Probe.OnTimeout | src/index.ts:69-73 | an armed timeout detaches the listener, stops the interval and settles with `null`; a cleared one changes nothing |
| Probes.PollingOutlivesSuccess | src/index.ts:54-65 | after an OpenShock probe has settled with a configuration, the next tick still sends `jsonconfig` |
| Detection.FindPiShockPort | src/index.ts:116-122 | the chosen port is the first whose vendor and product ids match case-insensitively; none is chosen exactly when no port matches |
| Detection.PortIdsIgnoreCase | src/index.ts:116-122 | a port reporting its ids upper-cased is selected exactly when one reporting them as given is |
| Detection.MissingIdNeverMatches | src/index.ts:118-120 | a port without a vendor or product id is never chosen |
| Detection.ProbeVerdict | src/index.ts:133-138 | a settled probe's completion names that probe's firmware, and is positive exactly when the probe found a value other than `null`; a timed-out probe is never positive |
| Detection.FirstPositive | src/index.ts:150-175 | the first positive completion, and none exactly when no completion is positive |
| Detection.Detected | src/index.ts:150-175 | a detected firmware is the firmware of a positive completion; `null` exactly when both completions are in and both are negative; still open when fewer than two came in and none was positive |
| Detection.Race.constructor | src/index.ts:150-151 | the race starts with the counter at zero and the promise unsettled |
| Detection.Race.OnCompletion | src/index.ts:159-174 | a completion increments the counter; a positive one resets it and settles with its firmware; a negative one settles with `null` when it makes the counter reach 2; a settled promise never changes |
| Detection.RunRace | src/index.ts:150-175 | running the race over the completions in arrival order settles exactly as `Detected` says: first positive firmware, `null` after two negatives, otherwise still open |
| Detection.DetectedStep | src/index.ts:159-174 | how one more completion moves the detection result |
| Detection.FirmwareIsFinal | src/index.ts:159-174 | once a firmware is detected, later completions never change the result |
| Detection.NullIffBothNegative | src/index.ts:152-158 | detection yields `null` exactly when both probes came back without an answer |
| Detection.OrderDoesNotMatterForOneAnswer | src/index.ts:150-175 | when only one probe answers, its firmware is detected whichever order they arrive in |
| Detection.FirstAnswerWins | src/index.ts:159-174 | when both probes answer, the first to arrive wins |
| PiShock.EveryMeansAll | src/pishock.ts:28 | `every(byte => byte === 0xff)` holds exactly when every byte of the tail is `0xff` |
| PiShock.RejectedIffNotPadding | src/pishock.ts:28 | the two-part guard (`new Set(rest).size > 1` or not all `0xff`) rejects exactly when the tail is not all `0xff` |
| PiShock.TruncateBinary | src/pishock.ts:21-37 | the image is accepted exactly when every byte from `0x3ff000` on is `0xff`; an accepted image keeps its first `min(size, 0x3ff000)` bytes; a rejected one reports the tail |
| PiShock.ShortImageUnchanged | src/pishock.ts:25-28 | an image no longer than `0x3ff000` bytes is written back unchanged |
| PiShock.TruncateIdempotent | src/pishock.ts:21-37 | truncating an already truncated image changes nothing |
| PiShock.NonPaddingRejected | src/pishock.ts:28-33 | any non-`0xff` byte past `0x3ff000` makes the truncation reject with the tail |
| PiShock.FirmwareUrl | src/pishock.ts:18 | the URL is the fixed base followed by one digit, `3` exactly for a USB-C hub and `4` exactly otherwise |
| OpenShock.RemoveFirst | src/openshock.ts:7 | `replace("\n", "")` removes only the first line feed, and leaves a text without one unchanged |
| OpenShock.TrimVersion | src/openshock.ts:7 | a version text without a line feed is kept as it is; otherwise it loses exactly its first line feed and nothing else |
| OpenShock.TrimVersionKeepsLaterLineFeeds | src/openshock.ts:7 | only the first line feed of the version text is dropped; later ones stay |
| OpenShock.Boards | src/openshock.ts:10 | the lines of `boards.txt`: at least one, none holds a line feed, and joined with line feeds they give back the text |
| OpenShock.Choices | src/openshock.ts:17-19 | the choices are the boards whose lower-cased name contains `pishock`, each with title equal to value, and every such board is offered |
| OpenShock.ChoicesAppend | src/openshock.ts:17-19 | filtering then mapping distributes over concatenation of the board list, so order is kept |
| OpenShock.ChoicesFor | src/openshock.ts:17-19 | each choice offered is a line of `boards.txt` naming a PiShock board, and every such line is offered |
| OpenShock.FirmwareUrl | src/openshock.ts:24 | the URL starts with the firmware host and is as long as host, version, board and the two path pieces together |
| OpenShock.FirmwareUrlSegments | src/openshock.ts:24 | the URL splits at `/` into scheme, empty, host, version, board and `firmware.bin` |
| EspTool.EspTool.constructor | src/esptool.ts:9-14 | a new wrapper has no path and is not initialised |
| EspTool.EspTool.Init | src/esptool.ts:23-36 | a no-op once initialised; otherwise records the search result and exits the process when it is empty, else becomes initialised with a non-empty path |
| EspTool.EspTool.GetPath | src/esptool.ts:66-71 | returns the path exactly when initialised, and the "not initialized" error otherwise |
| EspTool.EspTool.Flash | src/esptool.ts:72-119 | refuses with the guard error unless initialised with a path and given a port path; otherwise runs `--port <path> write_flash`, the target's flags and the image, and settles by the exit code |
| EspTool.Registry.GetInstance | src/esptool.ts:16-21 | the first call creates a fresh uninitialised wrapper; later calls return that same object |
| EspTool.GetInstanceTwice | src/esptool.ts:16-21 | two calls of `getInstance` return one object |
| EspTool.CodeTextInjective | src/esptool.ts:116 | different exit codes (or a signal's `null`) give different texts in the message |
| EspTool.ExitStatusDeterminesCode | src/esptool.ts:111-118 | only exit code 0 resolves, and the rejection message determines the code |
| EspTool.ExitStatus | src/esptool.ts:111-118 | the flash resolves exactly for exit code 0; any other code, or a signal, rejects with a message that starts `ESPTool exited with code ` and goes on with the code |
| EspTool.ExtractProgress | src/esptool.ts:101 | a match yields a run of digits that occurs in a full `Writing at 0x<hex>... (<digits> %)` report; there is no match exactly when the pattern matches at no position, and otherwise the result is the leftmost match's capture |
| EspTool.LeftmostFrom | src/esptool.ts:101 | scanning from a position finds no match exactly when none starts there or later, and otherwise the first one |
| EspTool.NoneFrom | src/esptool.ts:101 | scanning from a position finds nothing exactly when the pattern matches at no position from there on |
| EspTool.FirstFrom | src/esptool.ts:101 | scanning from a position stops at the first position where the pattern matches and captures what it captures there |
| EspTool.MatchAtSound | src/esptool.ts:101 | a match at a position captures the percentage of a complete `Writing at 0x<hex>... (<digits> %)` report in the text |
| EspTool.ExtractFromSound | src/esptool.ts:101 | whatever the scan from a position finds is the percentage of a complete report in the text |
| EspTool.MatchOfReport | src/esptool.ts:101 | a full report starting at a position is matched there, capturing its own percentage |
| EspTool.ReportFound | src/esptool.ts:101 | text holding a full report always yields a percentage, and that report's one when no match starts before it |
| EspTool.ProgressOfReport | src/esptool.ts:101-104 | a report line yields its own percentage, whatever follows it |
| EspTool.TrimEndKeepsPrefix | src/esptool.ts:97 | trimming the output keeps a prefix that does not end in white space |
| EspTool.ProgressOfChunk | src/esptool.ts:96-104 | a chunk that starts with a report sets the progress to that report's percentage |
| EspTool.ProgressOf | src/esptool.ts:96-104 | a progress value read from a chunk is a run of digits of a full report in the trimmed chunk; none is read exactly when the pattern matches nowhere in it |
| Session.ImageUrlNotEmpty | src/index.ts:233-251 | the image URL is never empty, so the "could not get firmware url" exit cannot happen |
| Session.BackupData | src/index.ts:199-210 | OpenShock saves whatever the probe read, and still has a value to save when it read nothing; PiShock saves the `networks` property of the terminal information, and the data is `undefined` exactly when nothing was read, it is not an object, or it has no `networks` |
| Session.Backup | src/index.ts:187-231 | no backup exactly without a known firmware or when the user declines; with both, a probe whose parse threw stops there; falsy data with no wish to continue returns; `undefined` data with the wish to continue rejects at `JSON.stringify`/`writeFileSync`; any other data, truthy or kept because the user chose to continue, is saved for that firmware |
| Session.TerminalInfoBackup | src/index.ts:204-208 | of a whole terminal-information object, the PiShock backup keeps exactly its networks |
| Session.BackupStopsBeforeDownload | src/index.ts:211-228 | an empty backup ends `flash` before any download: it returns when the user declines, and rejects at `writeFileSync` when the data is `undefined` |
| Session.FlashRun | src/index.ts:184-342 | `flash` exits exactly when no flasher is ready or found; it ends with `ParseThrew` exactly when a backup of a known firmware is asked for and the backup probe's parse threw; in both cases nothing is done; otherwise it only appends to the effect log and never loses a saved file |
| Session.Fetch | src/index.ts:232-300 | the download is the first effect, of the target's image URL; saved files are unchanged; it returns only when the download worked and the image passed truncation |
| Session.Burn | src/index.ts:302-307 | saved files are unchanged and effects are only appended; it returns only with a port and exit code 0, leaving the port open; a flasher failure with a port leaves it closed |
| Session.Restore | src/index.ts:309-341 | saved files are unchanged and the port is open; it returns or rejects with the restore error, a rejection writes nothing, and a restore that writes ends with the 20-second wait |
| Session.BackupSavedFirst | src/index.ts:197-231 | a backup that is saved is the first effect of `flash`, and it is recorded under the firmware's file name |
| Session.PiShockBackupIsNetworks | src/index.ts:204-208 | a PiShock backup saves the `networks` member of the terminal information |
| Session.TimedOutConfigSavedAsNull | src/index.ts:201-203 | an OpenShock backup that timed out is saved as `null` when the user flashes anyway |
| Session.TruncationForEveryTarget | src/index.ts:300 | for either target, an image with a non-`0xff` byte past `0x3ff000` is rejected before the port is closed |
| Session.FlashSucceeds | src/index.ts:302-307 | with a port and exit code 0, `flash` closes the port, runs the flasher with the target's arguments, removes the image and reopens the port, in that order |
| Session.FlashFailsWithoutCleanup | src/index.ts:302-305 | when the flasher fails, `flash` rejects with its message right after running it, leaving the image in place and the port closed |
| Session.NoPortNoFlash | src/index.ts:303-304 | without a port path the flasher is never run and `flash` rejects with the guard error |
| Session.NoRestoreNoWait | src/index.ts:309-320 | with no saved file, or a declined restore, nothing is written and there is no wait |
| Session.RestoreOpenShock | src/index.ts:326-340 | an OpenShock restore writes the one `jsonconfig` line, then waits 20 seconds |
| Session.RestorePiShockNetworks | src/index.ts:330-340 | a PiShock restore writes one `addnetwork` line per saved network, in order, then waits 20 seconds |
| Session.RestoreOfNullThrows | src/index.ts:332 | restoring a saved PiShock `null` rejects, because `for...of` cannot iterate it |
| Session.NetworksSurviveReflash | src/index.ts:184-342 | reflashing a PiShock hub with backup and restore writes back one `addnetwork` line per network the backup read, in order, followed by the restart wait |
| Session.ReflashReachesRestore | src/index.ts:184-341 | a successful PiShock reflash with a networks backup arrives at the restore step with that backup saved |
| Session.Device.constructor | src/index.ts:47-49 | a new device has no port, no firmware and an empty effect log |
| Session.Device.SendCommand | src/index.ts:140-146 | an object without `cmd` throws and writes nothing; with no port it throws and writes nothing; otherwise exactly the encoded line is written |
| Session.Device.FindPort | src/index.ts:113-132 | without a matching port it schedules another look in 1000 ms; with one it opens the first match at 115200 baud |
| Session.Device.DetectFirmware | src/index.ts:147-178 | in debug mode the firmware is untouched; otherwise it becomes what the race settles on; a race left open means a probe's parse threw, which ends the process before anything is stored |
| Session.Device.Flash | src/index.ts:184-342 | the outcome, the effect log, the saved files and the port state are exactly those of the reference run `FlashRun`; an initialised flasher stays initialised |
| Session.Device.FetchAndBurn | src/index.ts:232-307 | downloading, truncating and burning follow the reference run `Fetch` |
| Session.Device.BurnImage | src/index.ts:302-307 | burning follows the reference run `Burn` |
| Session.Device.CleanUpAndRestore | src/index.ts:305-341 | after a successful burn the image is removed, the port reopened, and the restore follows the reference run `Restore` |
| Session.Device.RestoreSaved | src/index.ts:309-341 | the restore follows the reference run `Restore`: the same lines are written, in the same order, one `sendCommand` at a time |

## Left out

- Serial I/O, timers, HTTP downloads and process spawning are left out.
  These become events (ticks, chunks, timeouts), inputs (the port listing,
  downloaded bytes, the flasher's exit code) or entries in an effect log.
- Prompts, the spinner and the terminal UI are left out. Prompt answers are
  inputs to `flash`.
- Logging is left out, including the debug echo of flasher output and the
  stderr forwarding.
- The download's percentage display uses floating point and is not modelled.
- The search for the flasher executable (`findESPToolPath`) runs shell
  commands and checks the file system. Its result is an input to `Init`.
- The data directory, its creation and the file system are left out. Saved
  files are held as a map from firmware to the saved JSON value.
- Reading a saved file gives back that value, so no disk round trip is
  modelled.
- `JSON.parse` is not modelled. It is a function each probe is given. A
  parse that throws does so inside a serial listener, where nothing catches
  it, so the process ends: the probe is marked `Crashed`, `flash` ends with
  `ParseThrew` and `DetectFirmware` reports `crashed`. Nothing after that is
  modelled.
- `JSON.stringify` writes integer-like keys ("0", "17") first, in ascending
  order. That reordering is not modelled: objects are written in member
  order, which is the same for every object the tool builds.
- Serial output and the flasher's output are decoded chunk by chunk
  (`chunk.toString()` at `src/index.ts:57` and `src/esptool.ts:97`). A
  multi-byte UTF-8 character split across two chunks becomes U+FFFD there.
  Chunks are text here, so that replacement is not modelled.
- The truncation error's hex rendering of the rejected tail is not modelled.
  The error carries the tail's bytes.
- The fetches of `version-stable.txt` and `boards.txt` are inputs: their
  texts are given to `TrimVersion`, `Boards` and `ChoicesFor`.
- The OpenShock `JsonConfig` frame is not given a record type. It is saved
  and restored as whatever JSON value was parsed.
- The probes' one-second poll and ten-second timeout are not constants here.
  They appear only as the order of tick and timeout events.
- JSON numbers are integers only.
- A JSON object is a list of members. Duplicate keys are not collapsed.
- Case mapping is ASCII only. `toLocaleLowerCase` on non-ASCII letters is not
  modelled.
- The requests a probe sends while polling are results of `OnTick`. They are
  not entered in the `Device` effect log.
- The module-level default `ESPTool` instance (`src/esptool.ts:123`) is not
  modelled. `flash` uses one `EspTool` object that the device holds.
- The `rootPrompt` menu loop and the `tui` and `logs` modules are not part of
  this model.
- The `SerialCommandNoValues` type (`src/types/pishock/others.ts`) is not
  part of this model. Its commands carry only `cmd`.
- The device constructor calls `findPort` without awaiting it. Here that call
  is the separate `FindPort` method.
- Session.Device.FindPort: the retry is returned as a delay to wait. The
  timer-driven re-entry into `findPort` is left out.
- The `detectFirmware` call that `findPort` makes is `DetectFirmware`.
- The 8 random bytes in the temporary file name are not modelled. The image
  path is an input.
- Session.Device.DetectFirmware: the race's completions come in as a
  sequence. Interleavings with other session activity are not modelled.
