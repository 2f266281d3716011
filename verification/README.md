# A verified model of the thermal interlock

The program watches a worker node's temperatures and takes the node out of service when one is over the
limit of its mainboard, or when the temperature can no longer be known. It fails closed, and that promise
is spread over five parts that the model carries and composes:

- **Chip names.** A sysfs device name is parsed, its address folded, and the result printed the way
  libsensors prints it (`numerals.dfy`, `chip_names.dfy`, `device_names.dfy`); the `device` links are walked
  to find the device that owns the sensors (`sysfs.dfy`); sensors are discovered, ordered, read and
  re-confirmed (`ordering.dfy`, `hwmon.dfy`) and selected by reference (`selection.dfy`).
- **The board table.** A declarative grammar on the outline of a file (`board_table.dfy`), the single-pass
  parser (`board_parser.dfy`), what the table's meaning does not depend on (`board_laws.dfy`), and a
  canonical printer with the order of sections (`board_sections.dfy`). Temperatures go through binary
  floating point in `rounding.dfy`. `board_lines.dfy` reads the same table line by line, in raw text, and shows
  that the grammar, the parser's errors and the boards are exactly that.
- **The guard.** One verdict per pass, a retry budget, the log and the status line (`guard.dfy`).
- **The watchdog.** Go tickers, the gated keep-alive and systemd's deadline, in time (`watchdog.dfy`).
- **The exit protocol.** Arming, waiting while suspended, the check loop and the exit code (`service.dfy`,
  `exit_protocol.dfy`), and the classifier that picks the response (`failure_kind.dfy`).

`interlock.dfy` joins them: from the tree a guard was armed in to the verdict of any later pass.

The environment is arbitrary throughout. A `Tree` is one state of sysfs, and every reading of a pass may see another; an
`Observation` is all one pass can see; `Wake` and `Turn` are what the two loops meet. The floating point unit
is a parameter of which only correct rounding is asked (IEEE 754-2019 section 4.3.1), and
`ExactArithmeticIsFaithful` shows that the assumption can be met. Loops over an endless environment are
followed through any finite beginning of it, so that every claim is about every prefix of every run.

Code that updates state in the program does so here: the table parser, sensor selection, the link walk and
the loops are methods with loops, the guard, the status reporter and the keep-alive are classes. Each is
proved against a specification function or predicate, and the lemmas are about those.

Findings:

- Composed names are uniquely decodable for *every* driver name, dashed ones included
  (`ComposedNamesDecode`). References are not so robust: a full name also matches chips of any driver whose
  own name starts with that full name and a dash (`FullReferenceMatches` gives the exact condition,
  `DashedDriverIsCaptured` an instance). On the assumption that no driver name on the node has a dash, which
  the program does not check, references are exact (`ReferencesAreExact`).
- The self-link test in the walk up the `device` links changes nothing about its result; the bound of eight
  alone makes it terminate and decides what it finds (`ComposeChipName`, `ChipNameIsOwn`).
- The two runs of the classifier look at environments of their own. Told the same ending they always agree
  on exactly one response, but on the fallback path an exit 2 can get none, or both, if `systemctl show`
  works for one run and fails for the other (`ResponsesOfTwoRuns`, `ExitTwoWithoutResponse`,
  `ExitTwoWithBothResponses`).
- A loop that overran its window is killed exactly if its next pass comes after a computable instant
  (`KilledAtFirstLateness`); late passes before that leave no trace.
- A live loop survives longer passes than one interval: anything up to the staleness window less one
  interval is enough (`LiveLoopIsNeverKilled`).

## Model

| member | source | states |
|---|---|---|
| Numerals.ParseIntOfFormat | internal/hwmon/hwmon.go:299-313 | Parsing in an explicit base gives back every number the range admits, whatever sign and zero padding it was printed with. |
| Numerals.ParseIntIsExact | internal/hwmon/hwmon.go:299-313 | In an explicit base exactly the texts of an optional sign and digits parse, to the number they stand for digit by digit, if it fits 32 or 64 bits. |
| Numerals.ParseIntByPrefix | internal/hwmon/hwmon.go:282-293 | Where the text chooses its base, exactly a sign and a decimal, 0x, 0o, 0b or 0-octal numeral parse. |
| Numerals.UnderscoresOnlySeparate | internal/hwmon/hwmon.go:282-293 | There underscores are refused unless they separate digits, and then change nothing. |
| Text.TrimIsMiddle | internal/config/config.go:111 | What is left of a text is what stands between the whitespace at its ends. |
| Text.WhitespaceByCodePoint | internal/config/config.go:111 | Which code points are whitespace, the newline and the carriage return among them. |
| Numerals.PaddedToWidth | internal/hwmon/hwmon.go:264-293 | A number that fits in the padded width is printed with exactly that many digits. |
| ChipNames.ComposedNamesDecode | internal/hwmon/hwmon.go:205-296 | Two composed names are equal exactly when driver, bus kind and folded address all are, for all drivers and addresses. |
| ChipNames.ComposedNamesArePrefixFree | internal/hwmon/hwmon.go:205-296 | A composed name and a dash begin another composed name exactly when that other driver's own name already begins with them. |
| ChipNames.FullReferenceMatches | internal/hwmon/match.go:15-38 | A full chip name matches its own chip, and otherwise exactly the chips of drivers whose name extends it past a dash. |
| ChipNames.MatchesReference | internal/hwmon/match.go:33-38 | A reference matches exactly the chip of that name and the chips whose name goes on with a dash after it. |
| ChipNames.DriverReferenceMatches | internal/hwmon/match.go:15-38 | A dash-free reference matches the driver of that name, and otherwise exactly the drivers whose name extends it past a dash. |
| ChipNames.ReferencesAreExact | internal/hwmon/match.go:15-38 | Among dash-free drivers a full name matches one chip name only and a driver name one driver only. |
| ChipNames.DashedDriverIsCaptured | internal/hwmon/match.go:33-38 | A concrete dashed driver whose chip a full reference to another driver's chip selects. |
| DeviceNames.PciFolds | internal/hwmon/hwmon.go:315-333 | The shifts and ors of the PCI address add up to 256 bus + 8 slot + function for slots below 32 and functions below 8. |
| DeviceNames.OrIsBitwise | internal/hwmon/hwmon.go:315-333 | The or is taken bit by bit, whatever the operands. |
| DeviceNames.KernelNamesResolve | internal/hwmon/hwmon.go:246-333 | Every device name the kernel prints on i2c, SPI, PCI, ACPI and platform parses to the address it stands for. |
| DeviceNames.AddressesAreExact | internal/hwmon/hwmon.go:246-333 | Exactly which device names have an address on which subsystem, malformed ones included, and which address. |
| DeviceNames.NamesIdentifyDevices | internal/hwmon/hwmon.go:205-333 | Two kernel devices compose to the same name exactly when driver and identity agree; only the PCI domain, ACPI paths and a platform device's own name are lost. |
| DeviceNames.AddressesAreSpelledOut | internal/hwmon/hwmon.go:256-293 | The suffix of a kernel device: bus keyword, decimal bus, and lower-case hexadecimal digits that spell the folded address, padded to two or four and never with a further leading zero. |
| Sysfs.OwnAddressIsUnique | internal/hwmon/hwmon.go:215-244 | The nearest addressable device among the first eight on the chain is unique. |
| Sysfs.NamedChips | internal/hwmon/hwmon.go:205-213 | A chip has no name exactly if its driver name cannot be read or is blank. |
| Sysfs.ChipNameIsOwn | internal/hwmon/hwmon.go:199-244 | A chip is named after its driver and the address of the nearest device with one along the first eight `device` links, and the virtual one exactly when there is none. |
| Sysfs.OtherBusesArePassed | internal/hwmon/hwmon.go:224-249 | A device on any other subsystem than the six known ones, or on none, never ends the walk. |
| Sysfs.ChipIsNamedAfterItsDevice | internal/hwmon/hwmon.go:199-296 | If the first device on a known bus within eight links is one the kernel names, the chip is called after its driver and that device's folded address. |
| Sysfs.ChipIsVirtual | internal/hwmon/hwmon.go:215-243 | With no addressable device within eight links the name is the driver's and `-virtual-0`. |
| Sysfs.ComposeChipName | internal/hwmon/hwmon.go:205-244 | The bounded walk terminates on any link graph and finds that name, whichever way it stops. |
| Hwmon.AttributeFilesAreTemperatures | internal/hwmon/hwmon.go:163-192 | Exactly the files named temp, digits, _input are sensors, with the number as index unless it does not fit, and the trimmed label file as label. |
| Hwmon.ChipSensors | internal/hwmon/hwmon.go:163-192 | Every sensor among the device's files, in listing order, or nothing when the directory cannot be listed. |
| Hwmon.SortSensors | internal/hwmon/hwmon.go:154-159 | The same sensors, none before a lesser one by chip and then index. |
| Hwmon.Discover | internal/hwmon/hwmon.go:126-161 | Fails only if the class cannot be listed; otherwise every sensor of every device that has a name, in order. |
| Hwmon.DiscoveryIsComplete | internal/hwmon/hwmon.go:126-192 | A sensor is discovered exactly when a class device exports it, and it carries that device's composed name. |
| Hwmon.DiscoveryOrder | internal/hwmon/hwmon.go:154-159 | Of two discovered sensors the earlier has the chip name that is smaller where the two first differ, or the same and no greater index. |
| Hwmon.ReadingsAreExact | internal/hwmon/hwmon.go:78-122 | A sensor reads v exactly if its attribute can be read, is a signed decimal for the 64-bit number v between whitespace, and the directory still composes to the selected chip; in every other case it has no reading. |
| Hwmon.KernelReadingsReadBack | internal/hwmon/hwmon.go:78-122 | Any 64-bit number the kernel prints, in whatever whitespace, is read back as that number if the directory then still composes to the selected chip, and is refused if it does not. |
| Hwmon.KernelLinesReadBack | internal/hwmon/hwmon.go:78-90 | In particular a number and a newline, as the kernel ends an attribute. |
| Selection.Select | internal/hwmon/match.go:28-79 | The loops compute the specified selection, with each of the three errors exactly where it applies. |
| Selection.EveryMatchingDeviceIsWatched | internal/hwmon/match.go:21-66 | With no sensor named, each device with a matching chip is watched by exactly one sensor, its lowest-numbered, even when devices share a name; the result is a subsequence of discovery order. |
| Selection.EqualFoldIsUpToCase | internal/hwmon/match.go:21-24 | A label matches a reference exactly when they differ at most in the case of their letters. |
| Selection.NamedSelectionIsExact | internal/hwmon/match.go:68-78 | A sensor reference selects exactly the sensors on matching chips whose label equals it up to case or whose attribute is it, in discovery order, and fails exactly when there is none. |
| Selection.NothingSelectedIsAnError | internal/hwmon/match.go:26-79 | Each of the three errors is given exactly when its reason holds and no earlier one does, and a success is never empty. |
| Rounding.MilliIsExact | internal/guard/guard.go:318 | Two roundings of relative error 2^-53 never move a decimal off its own millidegree. |
| Rounding.RoundsToNearestExactly | internal/guard/guard.go:318 | Rounding gives the nearest integer, and of two the one further from zero. |
| Rounding.ThresholdsAreExact | internal/config/config.go:188-206 | A limit is accepted exactly if it parses to a finite number from 20 to 150, as the nearest millidegree; an empty text and one that is no number have errors of their own. |
| Rounding.AcceptedLimitsArePlausible | internal/config/config.go:188-206 | Every accepted limit lies in 20000 to 150000 millidegrees, however it was written. |
| Rounding.DecimalThreshold | internal/config/config.go:188-206 | A limit with up to three fractional digits is accepted exactly when it is in range, and then exactly. |
| Rounding.DecimalsAreExact | internal/config/config.go:188-206 | What a decimal of a sign, whole digits and up to three more stands for in thousandths. |
| Rounding.OverridesAreExact | internal/guard/guard.go:294-319 | The override reads m exactly if its file can be read and holds a finite number from absolute zero to 10000 whose nearest millidegree is m; unreadable, empty, torn or non-numeric contents give no reading. |
| Rounding.DecimalOverride | internal/guard/guard.go:294-319 | An override with up to three fractional digits is read exactly, or refused exactly when it is no temperature. |
| Rounding.DrillTripsEveryLimit | internal/guard/guard.go:275-284 | The documented drill value of 999 is over every limit a table can hold. |
| Rounding.ExactArithmeticIsFaithful | internal/guard/guard.go:294-319 | The rounding assumption has a model. |
| BoardTable.SectionsHaveHeaders | internal/config/config.go:116-132 | Every section of the outline carries the name and the number of its own header line. |
| BoardTable.FaultsPersist | internal/config/config.go:109-168 | A line that is wrong given the lines before it stays wrong whatever follows. |
| BoardParser.BoardNames | internal/config/config.go:59-67 | The configured names, each once, in ascending order. |
| Ordering.AscendingIsUnique | internal/config/config.go:59-67 | The sorted list of names is determined by the names alone. |
| Ordering.LessIsFirstDifference | internal/config/config.go:59-67 | The order of names is decided by the first differing character, or by length when there is none. |
| BoardParser.AddEntry | internal/config/config.go:134-167 | One pair is accepted exactly when its section, key and value allow it, and the parser's state still describes all lines read. |
| BoardParser.FindIncomplete | internal/config/config.go:173-181 | The board reported as incomplete is the first in name order, and none is reported only if all are complete. |
| BoardParser.Parse | internal/config/config.go:99-186 | A table is accepted exactly when it meets the grammar, means exactly what the grammar says, and an error names the first wrong line and what is wrong with it. |
| BoardLaws.BoardsRecordTheirHeaders | internal/config/config.go:124-130 | Each accepted board's line is the line of its header in the file. |
| BoardLaws.AcceptedBoardsCanGuard | internal/config/config.go:7-12 | Every board of an accepted table has a chip and a plausible limit. |
| BoardLaws.BlanksAndCommentsAreFree | internal/config/config.go:109-114 | Acceptance and meaning, line numbers aside, depend only on the lines that mean something. |
| BoardLaws.InsertedBlankIsFree | internal/config/config.go:109-114 | Inserting a blank line or a comment anywhere changes nothing but line numbers. |
| BoardLaws.SpacingIsFree | internal/config/config.go:111 | Whitespace around lines changes nothing. |
| BoardSections.BlocksAreIndependent | internal/config/config.go:109-185 | A run of sections is a table exactly when each stands on its own and no two share a name. |
| BoardSections.SectionOrderIsFree | internal/config/config.go:109-185 | Permuting whole sections changes nothing but line numbers. |
| BoardSections.PrintedTablesReadBack | internal/config/config.go:99-206 | Printing any list of distinct well-formed boards and parsing it gives back every one of them, on the line its header was printed on, and no other. |
| BoardSections.PrintedTextScansBack | internal/config/config.go:106-111 | Written out as text, with no line break inside a name or value, the printed lines are the lines the scanner finds. |
| BoardSections.EitherLineEnding | internal/config/config.go:106-111 | A line ends in a newline or in a carriage return and a newline. |
| BoardLines.SkipLinesAreSkipped | internal/config/config.go:109-114 | A line means nothing exactly if it is blank or its first non-space character is a number sign or a semicolon. |
| BoardLines.HeaderLinesAreHeaders | internal/config/config.go:116-132 | A line is the header of a name exactly if it is that name in brackets, with whitespace anywhere but inside the name. |
| BoardLines.EntryLinesAreEntries | internal/config/config.go:134-139 | A line sets a key to a value exactly if it is the two around its first equals sign, with whitespace on any side. |
| BoardLines.FaultsAreRefused | internal/config/config.go:116-137 | An unterminated header, an empty one, or a line with no equals sign that is neither header nor comment refuses the table, at that line if none before it does. |
| BoardLines.TablesAreExact | internal/config/config.go:99-186 | The accepted tables, line by line and without sections: each line is free, a new header, or a known key with a usable value that its section did not have, and every header gets a chip and a limit. |
| BoardLines.FirstFaultIsFirstMisfit | internal/config/config.go:99-168 | The line an error points at is the first that does not fit where it stands. |
| BoardLines.BoardsAreRead | internal/config/config.go:124-167 | A board of an accepted table is what the lines of its section set: chip, sensor or none, and the limit to the nearest millidegree. |
| BoardLines.BoardsHaveHeaders | internal/config/config.go:124-130 | An accepted table has no board without a header line of that name. |
| Guarding.HottestIsMaximum | internal/guard/guard.go:341-358 | The sensors' reading is the true maximum, and exists exactly when there is a sensor and none fails. |
| Guarding.HottestPermutes | internal/guard/guard.go:341-358 | The reading does not depend on the order of the sensors. |
| Guarding.HottestExceeds | internal/guard/guard.go:159-167 | Comparing the hottest with the limit asks whether any sensor exceeds it. |
| Guarding.ReadSensors | internal/guard/guard.go:341-358 | The loop, stopping at the first failure, returns that maximum. |
| Guarding.CounterIsWindow | internal/guard/guard.go:99-100 | The counter reaches n exactly when the last n passes were all failed readings. |
| Guarding.VerdictByCounter | internal/guard/guard.go:138-169 | Deciding by the counter is deciding by the window of the last passes. |
| Guarding.TruthTable | README.md:253-289 | Rows 1 to 10 of the specification's truth table, decided on what the pass sees: whether the two files can be stated, what the override holds, and what each attribute and its chip read. |
| Guarding.PassesAreExact | internal/guard/guard.go:133-158 | A pass is suspended exactly by the disable file, and takes m exactly if the override says m or, without one, every sensor reads and m is the greatest reading. |
| Guarding.SourcesAreNamed | internal/guard/guard.go:138-145 | A pass names the disable file, the override file or the sensors, whichever decided it. |
| Guarding.NamesAreJoined | internal/guard/guard.go:332-339 | The sensors are named by chip and label, or attribute without one, joined by plus signs. |
| Guarding.Guard.Check | internal/guard/guard.go:133-169 | Each pass extends the history by what it saw, yields the window's verdict on it, and the counter stays the trailing run of failures whatever the source. |
| Guarding.Guard.Report | internal/guard/guard.go:206-253 | The last logged event names the current verdict and source, at most one event is added, and one is left out only when neither changed. |
| Guarding.LoggingKeepsTransitions | internal/guard/guard.go:206-253 | Suppressed or repeated, the log tells the same sequence of changes as the results. |
| Guarding.Guard.TakePass | internal/guard/guard.go:187-195 | A pass is checked, logged, recorded for the keep-alive exactly once and then told as a status, whatever its verdict. |
| Guarding.OnePassPerTurn | cmd/slurm-temperature-check/main.go:216-221 | The passes the keep-alive knows of are the turns of the loop, one each, at the time each was done. |
| Guarding.EveryTickFires | cmd/slurm-temperature-check/main.go:380-397 | Every tick that comes during a turn fires, once and in order. |
| Guarding.Guard.Run | internal/guard/guard.go:171-204 | The loop ends at the first trip or stop, with that outcome, having taken exactly those passes; log, status and keep-alive agree with them. |
| Guarding.EndIsUnique | internal/guard/guard.go:171-204 | The same turns cannot end any other way. |
| Guarding.FailuresEndTheLoop | internal/guard/guard.go:149-156 | A whole retry window of failed readings ends the loop by its last pass. |
| Guarding.StatusReporter.Observe | cmd/slurm-temperature-check/main.go:329-347 | The last STATUS sent is the line of the current result, and what was sent is the lines without consecutive repeats. |
| Guarding.DedupHasNoRepeats | cmd/slurm-temperature-check/main.go:325-328 | No two consecutive STATUS messages are equal. |
| Guarding.LinesIdentifyStandings | cmd/slurm-temperature-check/main.go:331-340 | Two results share a status line exactly when their source and their standing (suspended, failing, watching) agree. |
| Guarding.StatusOfPass | cmd/slurm-temperature-check/main.go:331-340 | The line shown after a pass, from what the pass saw: the disable file, the source that failed within the budget, or the source watched and its limit. |
| Watchdog.IntervalIsHalfTheDeadline | internal/sdnotify/sdnotify.go:67-83 | The keep-alive goes out every half of the deadline of usec microseconds, in nanoseconds, exactly if the deadline is for this process and its text is that positive number, and otherwise not at all. |
| Watchdog.StartsAreClose | cmd/slurm-temperature-check/main.go:252-260 | Iterations of a ticker loop are at most a period apart, or as long as their work, with ticks that come meanwhile kept or dropped as the channel does. |
| Watchdog.StartsAreTicks | cmd/slurm-temperature-check/main.go:252-260 | An iteration starts when the last one's work is done, if a tick came meanwhile, and else at the first tick after. |
| Watchdog.SentWhileFresh | cmd/slurm-temperature-check/main.go:373-395 | In a steady loop a tick is sent exactly while the last pass is no older than the window. |
| Watchdog.LiveLoopIsNeverKilled | cmd/slurm-temperature-check/main.go:349-400 | If every pass fits in the window less one interval, the deadline never runs out. |
| Watchdog.ShortPassesAreLively | cmd/slurm-temperature-check/main.go:373-377 | Passes shorter than an interval do, their completions are less than two intervals apart, and they go on past any instant. |
| Watchdog.WedgedLoopIsKilled | cmd/slurm-temperature-check/main.go:349-400 | A loop still alive at its last pass p is killed once, after p plus the window plus half the deadline and no later than p plus the window plus the deadline, however late its earlier passes were. |
| Watchdog.AliveIffPunctual | cmd/slurm-temperature-check/main.go:349-400 | A loop is alive at its last pass exactly if each pass came no later than the kill time of the passes before it. |
| Watchdog.KilledAtFirstLateness | cmd/slurm-temperature-check/main.go:349-400 | For every chronological run of passes, systemd kills at one instant and no other: the kill time of the passes before the first late one, or of all of them. |
| Watchdog.WedgeToKill | README.md:231-240 | With two intervals inside the deadline, a loop alive at its last pass that wedges within an interval of it is killed more than one and at most two deadlines after the wedge. |
| Watchdog.WedgeToKillAsShipped | README.md:231-240 | With the shipped sixty seconds and a ten second interval that is between 60 and 120 seconds. |
| Watchdog.RearmPeriodIsShorter | cmd/slurm-temperature-check/main.go:245-252 | The suspended loop wakes at the check interval or the keep-alive period, whichever is shorter. |
| Watchdog.HandOverIsSeamless | cmd/slurm-temperature-check/main.go:239-271 | No gap between keep-alives reaches the deadline from READY through the suspended loop into the watchdog of the guard it arms, if arming and starting the new ticker take less than half the deadline. |
| Watchdog.KeepAlive.Pass | cmd/slurm-temperature-check/main.go:357-360 | Recording a pass extends the interleaving by it and sends nothing; without a deadline it does nothing. |
| Watchdog.KeepAlive.Tick | cmd/slurm-temperature-check/main.go:387-395 | The shared object sends what the interleaving of passes and ticks so far calls for. |
| Watchdog.InterleavingSendsOnTime | cmd/slurm-temperature-check/main.go:370-399 | Under any time-ordered interleaving a tick is sent exactly when the timed model says so. |
| Watchdog.AliveIsOnSchedule | cmd/slurm-temperature-check/main.go:380-397 | Over a whole such interleaving the keep-alives sent are the ones of the timed model, in order. |
| Service.Arm | cmd/slurm-temperature-check/main.go:274-319 | A guard is armed exactly when the table is accepted and holds the board, and some exported sensor is one its entry asks for; it watches the selection of those under that limit. |
| Service.RearmWhenResumed | cmd/slurm-temperature-check/main.go:239-272 | The wait ends at the first stop or at the first tick without the disable file, and then arms or refuses; one keep-alive per tick. |
| Service.StartService | cmd/slurm-temperature-check/main.go:154-214 | Before the check loop the service only announces that it is suspended and keeps itself alive once per tick; it starts, refuses or stops as arming, the disable file and the wake-ups call for. |
| Service.EveryPassIsRecorded | cmd/slurm-temperature-check/main.go:216-221 | Each pass of a run is recorded for the keep-alive once, and every tick fires, those after the last pass of a loop that stopped turning included. |
| Service.ArmedEffects | cmd/slurm-temperature-check/main.go:216-231 | READY is the first thing an armed service tells, each pass follows, and a trip status is the last exactly when the exit is 1. |
| Service.WatchNode | cmd/slurm-temperature-check/main.go:216-231 | The armed service: READY, passes and trip status in order, the STATUS lines without repeats, and the keep-alives of the interleaving of its passes with the ticks. |
| Service.ServeNode | cmd/slurm-temperature-check/main.go:154-231 | The exit and the passes of a whole service run; READY, suspended keep-alives, passes and trip status in order; and, as sequences of their own, the STATUS lines and the armed keep-alives. |
| ExitProtocol.ExitReflectsTheRun | cmd/slurm-temperature-check/main.go:38-52 | Exit 2 exactly for a refusal to start, and then without a single pass; exit 1 exactly if the loop ended in its first trip; exit 0 exactly if a stop ended the wait, or the loop before any trip; and no other. |
| ExitProtocol.RefusalMeansUnarmable | cmd/slurm-temperature-check/main.go:154-214 | The service refuses to start exactly when the node cannot be armed while checking is not suspended, at once or at the first wake-up without the disable file, and no stop had come by then. |
| ExitProtocol.DisableFileOutranksAll | README.md:255-281 | While the disable file is present no run exits 1 or 2 and none takes a reading. |
| ExitProtocol.ResponseFollowsTheRun | packaging/libexec/failure-kind:14-27 | However each classifier run is told of a run's ending: the node is drained exactly for a refusal to start, hence never after a pass, stopped exactly for a trip, a dump or a kill, and left alone exactly after a clean stop or a signal that counts as one; the script exits 0 for the response due and 1 for the other. |
| ExitProtocol.WatchdogFollowsTheRun | cmd/slurm-temperature-check/main.go:206-221 | In an armed run the watchdog knows of exactly the run's passes, and its keep-alives are the timed model's. |
| ExitProtocol.WedgedRunIsStopped | README.md:231-240 | An armed run that was alive at its last pass and wedges there is killed within the window after it, and gets the emergency stop and not the drain. |
| ExitProtocol.Command | cmd/slurm-temperature-check/main.go:135-197 | Exit codes of the other modes: 2 for bad flags, listing, and a one-shot check in which any failed reading exits 1. |
| FailureKind.Classify | packaging/libexec/failure-kind:36-74 | One run of the script in its environment exits with the status its argument calls for. |
| FailureKind.ConditionsOfARun | packaging/libexec/failure-kind:58-74 | A run that sees an exit 2 meets the drain's condition and skips the stop, any other the reverse, and a wrong argument fails the unit. |
| FailureKind.Respond | packaging/systemd/slurm-temperature-check-drain.service:45-56 | The two runs, each in an environment of its own, decide the drain and the stop independently, by whether each sees an exit 2. |
| FailureKind.OneEndingOneResponse | packaging/libexec/failure-kind:5-27 | Told the same ending, by either path each, the two runs admit exactly one response, the drain exactly for an exit with status 2. |
| FailureKind.ResponsesOfTwoRuns | packaging/libexec/failure-kind:36-56 | Over any two environments: one response exactly if both or neither show an exit 2, none if only the stop's does, both if only the drain's does. |
| FailureKind.SameMonitorOneResponse | packaging/libexec/failure-kind:33-37 | With the same MONITOR variables set for both runs there is exactly one response. |
| FailureKind.ExitTwoWithoutResponse | packaging/libexec/failure-kind:38-40 | An exit 2 gets no response if `systemctl show` fails for the drain and works for the stop. |
| FailureKind.ExitTwoWithBothResponses | packaging/libexec/failure-kind:38-40 | An exit 2 gets both responses the other way round. |
| FailureKind.OneRunUninformed | packaging/libexec/failure-kind:24-27 | If one run learns nothing and the other is told of an ending, there is exactly one response unless the ending is an exit 2. |
| FailureKind.NothingKnownIsArmed | packaging/libexec/failure-kind:24-27 | A run that can learn nothing takes the guard to have been armed: its drain condition is not met and its stop condition is. |
| FailureKind.BothPathsAgree | packaging/libexec/failure-kind:33-56 | Told either way, an ending is a drain exactly if it is a normal exit with status 2; a signal numbered 2 is not. |
| Interlock.ArmableNodes | cmd/slurm-temperature-check/main.go:273-303 | A node can be guarded exactly if its table is one, it knows its board, and that board's section asks for a sensor the node exports. |
| Interlock.EveryMatchedDeviceIsGuarded | cmd/slurm-temperature-check/main.go:275-298 | An armed guard with no sensor named watches the lowest-numbered temperature, and no other, of every device that matched. |
| Interlock.WatchedDevicesWereMatched | cmd/slurm-temperature-check/main.go:275-298 | Every watched sensor was exported at arming by a device that matched, and has the name asked for if one was. |
| Interlock.EveryNamedSensorIsGuarded | cmd/slurm-temperature-check/main.go:275-298 | With a sensor named, it is watched on every matched device that has it. |
| Interlock.UnlabelledDeviceIsUnwatched | internal/hwmon/match.go:68-78 | A matched device without the named sensor is not watched at all. |
| Interlock.NoSilentOk | internal/guard/guard.go:13-16 | With no sensor named, an OK on the sensors' word means every device matched at arming had its lowest temperature's file readable in this pass, holding a number within the limit, and was confirmed to be the same chip. |
| Interlock.NoSilentOkNamed | internal/guard/guard.go:13-16 | With a sensor named, it means the same of every sensor of that name on every matched device. |
| Interlock.FullReferenceSelectsOneName | internal/hwmon/match.go:15-19 | Without dashed drivers, a full reference selects only sensors of devices composing to exactly that name. |
| Interlock.DriverReferenceSelectsOneDriver | internal/hwmon/match.go:15-19 | Without dashed drivers, a driver reference selects only that driver's devices. |
| Interlock.RecycledIndexTrips | internal/hwmon/hwmon.go:93-122 | Once a watched directory holds another chip no sensor pass is OK, and a retry window of uninterrupted passes ends the loop. |

## Left out

- Real sysfs and file I/O: a tree is maps from paths to contents, listings and resolved links, and a missing key is any failure.
- Paths: a directory and a file name joined by a slash, with no cleaning of dots or doubled slashes.
- Hwmon.Discover: reads the whole class in one state of the tree; a device that changes between the listing and its own reads is not modelled.
- A line is any string; only `EitherLineEnding` and `PrintedTextScansBack` speak of line breaks, the latter with none inside names and values.
- Text is a sequence of Unicode characters; invalid UTF-8, and folding of labels beyond ASCII, are not modelled.
- The log keeps the events above debug level with their kind and source, not their wording, numbers or handlers.
- `--help`, `--version`, flag syntax, the log flags and the table `--list` prints: interface without a deep property.
- The notification socket: only the trace of messages sent to it; the unit files, the RPM and the commands of the two response units.
- Durations are unbounded integers: overflow of `2 * interval` and of a huge `WATCHDOG_USEC` is not modelled.
- The line length limit of the scanner is one way reading the table can break off, which the parser model takes as a flag.
- `strconv.ParseFloat` on texts that are not decimals with up to three fractional digits: any result is allowed.
- The order of elements that compare equal in `sort.Slice`: any order is allowed, and nothing depends on it.
- Watchdog.KeepAlive.Tick: reads the clock and the shared record in one step; a pass recorded between the two only makes the loop look fresher.
- Guarding.Guard.Run: takes the times its passes are done as given; that they follow from the work of each pass and the loop's own ticker is the account of the timed model.
- ExitProtocol.ResponseFollowsTheRun: which signals systemd takes for a clean end is left open; it holds for any set of them.
- ExitProtocol.WedgedRunIsStopped: that systemd kills the process when its deadline runs out, and reports it as a kill or a dump, is systemd's doing and taken as given.
- Watchdog.LiveLoopIsNeverKilled: ideal tickers, no scheduling delay beyond the work of a pass.
- Service.Arm: which of several arming errors is reported first is left open, since each refuses alike.
