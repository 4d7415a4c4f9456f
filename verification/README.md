# power4 in Dafny

power4 is the firmware of a solar-site controller (relays, batteries over Bluetooth, a Lua policy)
with two host clients, `power4ctl` in C and `power4d` in Swift. This project models its protocols,
codecs and dead-man state machines and proves what they are relied on for. `dafny verify
dfyconfig.toml` checks everything.

The modules, by subject:

- **Bluetooth recovery** - `BleRecovery` is the reset protocol between the scanner task and the
  NimBLE host task as interleaved atomic steps, and `BleProgress` what can still happen from each
  state. `Radio` is an adversarial stack that keeps a log of every call, `RadioLaws` reads that log;
  `Disconnect` and `ProbeScanner` are the disconnect loops and the scanner's cleanup rule over it.
- **Responses and reports** - `DotFrame`, `DotStream` and `DotReceive` are the dot-stuffed framing
  and its encoder; `LogJson`, `JsonBuffer`, `LogReport` and `P4J1` the log report and its line;
  `LineReader`, `Responses` and `CtlResponse` the two clients; `ResponseDelivery` the whole way of a
  response with the echo of its command, and `LogDelivery` that of a log report; `LogLaws` says what
  reports, lines and frames are byte by byte, and `ClientLaws` what a response is worth by the text of its
  lines.
- **Policy upload** - `Base64`, `PolicySend`, `LineInput`, `PolicyReceive`, and `PolicyDelivery`
  for the whole way; `UploadLaws` has the alphabet, the texts that decode, and uploads that are not in order.
- **Digests** - `ShaSpec` is SHA-1, SHA-256 and HMAC as FIPS 180-4 and RFC 2104 define them,
  `BlockFold` padding and the fold over blocks, `ShaContext` and `ShaHash` the streaming code. `ShaLaws`
  takes the functions bit by bit and the constants from the primes, and `ShaVectors` runs through the
  digests of "abc", word by word.
- **Calendar** - `Calendar`, `RtcClock` and `RtcLaws`: day numbers, weekdays, epochs and clock registers.
- **Dead-man state** - `DeadlineTable`, `ConfigNvs`, `ConfigView` and `ConfigFlags` are parameters
  with a lifetime, across crashes, and `ConfigLaws` what their calls leave; `ConfigLife` follows one parameter through the history of calls,
  and `ConfigRuns` says what holds in every run; `RelayBoard`, `RelayTimer` and `RelayManager` the relays;
  `PolicyState`, `ShedPolicy` and `PolicyRuns` the policy memory and the transfer latches, `ShedLaws`
  which way each reading pulls and where the lines are.
- **Batteries** - `Jbd` and `JbdReceiver` are the battery frames and their reassembly, `JbdLaws` which
  of them are valid;
  `BatteryTable` and `BatteryStore` the bounded table of recent batteries.

How to read it: code that changes state is a class or a method whose contract ties the new state to
a function of the old one; what is promised of that function over whole histories is a lemma.
Calls whose code is elsewhere (NimBLE, NVS, sockets, GPIO and I2C, clocks) answer
nondeterministically. Where a contract speaks of `reliable`, it says what holds when none of them
fails (in the parameter store, in that one call; `flawless` is a store in which none ever does);
everything else holds however they fail.

Results worth knowing before changing the code, because an obvious claim is false:

- A completion bit and the synced flag can both be seen set while a fresh reset request has not
  been dispatched (`BleRecovery.StaleBitsAreSeen`); the last look at `g_reset_pending` is what makes
  OK trustworthy.
- The stale bits can let ble_manager_reset return OK a moment before the sync callback has published
  the new state, with g_ble_synced still down (`BleProgress.OkBeforePublish`).
- A permanent set over a value with a lifetime that stops after its first commit leaves the old
  value permanent (`ConfigNvs.PermanentSetTrap`); a set with a lifetime that stops there puts the
  lifetime on the old value (`ConfigNvs.LifetimeOnOldValue`).
- Expire looks at the first 32 lifetime entries only, and after a restart there can be more, with no
  call failing (`ConfigRuns.SetAfterRestart`); a due value beyond them stays
  (`ConfigRuns.GoneExactlyWhenReached`).
- A log with a NUL in it loses its tail in the report, while its `length` still counts it
  (`LogJson.ReportKeepsText`).
- Over TCP a response line that ends in CR loses the CR, and power4ctl loses what follows a NUL in a
  line (`DotReceive.ResponseRoundTrip`).
- Over a serial line neither client ever recognises the echo of its command: the console ends it in
  CR LF and the driver makes that CR CR LF, of which a client drops one CR
  (`ResponseDelivery.EchoSkipped`). Reports get through all the same
  (`ResponseDelivery.EchoIsIgnored`); a passthrough command of power4ctl prints its own echo first
  (`ResponseDelivery.CtlPassesThrough`).
- power4ctl accepts a response in which a good frame follows a damaged one, power4d does not; and
  power4d accepts upper-case digests, power4ctl does not (`LogDelivery.SwiftIsStricter`,
  `P4J1.ClientsAgree`).
- The weekday formula is wrong for January and February of year 0, where its 16-bit year wraps
  (`Calendar.WeekdayAgrees`); the clock chip never holds that year.
- A battery frame with one changed payload byte is accepted when the new byte is the old one less
  the command byte (`Jbd.DamagedByte`), because two forms of the checksum are allowed.
- A battery that takes an evicted slot can inherit the old battery's cell voltages
  (`BatteryTable.StaleCells`).
- A tick counter that wraps all the way round reads as no time at all
  (`Disconnect.TicksBetweenIsElapsed`).

## Model

| member | source | states |
|---|---|---|
| `BleRecovery.ConsistentStep` | main/ble_manager.cpp:127-188 | every step of either task keeps a pending request in exactly one place: being enqueued, queued, started, or being released |
| `BleRecovery.ConsistentAt` | main/ble_manager.cpp:267-287 | that holds at every moment of every interleaving |
| `BleRecovery.NothingLeftOver` | main/ble_manager.cpp:275-278 | without a pending reset the queue is empty and both host flags are down; never two events queued |
| `BleRecovery.Conservation` | main/ble_manager.cpp:142-188 | raises, queued events, dispatches, scheduled host resets and releases are counted against each other at every moment |
| `BleRecovery.OneResetPerRequest` | main/ble_manager.cpp:275-287 | a new request is raised only when every earlier one caused exactly one host reset and was released once |
| `BleRecovery.OkMeansRecovered` | main/ble_manager.cpp:267-287 | ble_manager_reset returns OK only after raise, dispatch, host reset callback, and a successful sync begun after it, in this order |
| `BleRecovery.GateMeansRecovered` | main/ble_manager.cpp:248-265 | ble_manager_wait_until_synced opens only with no request ever raised or the latest one recovered, even after its caller timed out; that it does open is `BleProgress.GateCanOpen` |
| `BleRecovery.StaleBitsAreSeen` | main/ble_manager.cpp:161-172 | the race in which the previous recovery's completion bit survives the clearing by a new request is reachable |
| `BleProgress.FlagIsLastWrite` | main/ble_manager.cpp:127-188 | at every moment of every interleaving each of the flags (synced bit, done bit, g_ble_synced, the host's two) is up exactly when a step has raised it and no later step has taken it down |
| `BleProgress.AnswersAreSeen` | main/ble_manager.cpp:248-287 | OK is returned only after a wait that saw the completion bit and a later look that saw g_ble_synced set; the gate opens only after the same with the sync bit |
| `BleProgress.ResetCanComplete` | main/ble_manager.cpp:142-188 | from every reachable state, whatever each task is in the middle of, some continuation of the two tasks alone brings a reset to its OK with nothing pending |
| `BleProgress.GateCanOpen` | main/ble_manager.cpp:248-265 | and after it ble_manager_wait_until_synced opens: the scanner is never shut out for good |
| `BleProgress.SyncOpensGate` | main/ble_manager.cpp:161-172 | with both tasks idle and nothing pending, at start-up above all, one undisturbed sync callback is enough to open the gate |
| `BleProgress.OkBeforePublish` | main/ble_manager.cpp:280-286 | a reachable state in which ble_manager_reset returns OK while g_ble_synced is still down |
| `Radio.SafeMeansEveryProbe` | main/battery_scanner.cpp:1008-1056 | the running total kept of the call log says of every probe and connection attempt that nothing was outstanding before it |
| `RadioLaws.OutstandingMeansLeftOver` | main/battery_scanner.cpp:817-835 | a connection counts as outstanding exactly when the log's last accepted attempt was for that peer and since then no reset completed and no lookup missed the peer with no attempt in progress |
| `RadioLaws.IdleMeansQuiet` | main/battery_scanner.cpp:798-802 | no attempt counts as in progress exactly when the last call that tells said so |
| `RadioLaws.BookCounts` | main/ble_disconnect.cpp:22-64 | delays, terminations, attempts and scans of the book are those in the log |
| `Disconnect.TicksBetweenIsElapsed` | main/ble_disconnect.cpp:57-57 | the unsigned tick difference is the elapsed time modulo 2^32, across wraps |
| `Disconnect.TimedOut` | main/ble_disconnect.cpp:57-57 | however long ago the start was, the comparison of wrapped tick counts says whether the time since, less whole wraps, is five seconds or more |
| `Disconnect.Poll` | main/ble_disconnect.cpp:50-61 | at most 20 delays; true only if the last lookup found the peer absent, false only after a failed lookup or five seconds |
| `Disconnect.Attempt` | main/ble_disconnect.cpp:27-64 | one attempt: at most one termination request, for the connection just found, and 20 delays; with a stack that answers, it gives up only after five seconds |
| `Disconnect.DisconnectPeer` | main/ble_disconnect.cpp:20-68 | ends, with at most 3 termination requests, each for the connection just found, and 62 quarter-second delays; returns true exactly when its last lookup found the peer absent; a stack that answers every call is given up on only after three requests and five seconds for each |
| `ProbeScanner.Scanner.CancelPendingConnect` | main/battery_scanner.cpp:798-815 | an attempt in progress is cancelled, and exactly an accepted cancellation is waited for |
| `ProbeScanner.Scanner.DisconnectProbe` | main/battery_scanner.cpp:817-835 | succeeds exactly when no connection is outstanding any more, resets the stack only with an attempt still in progress or the peer not found gone, and gives up only after a failed reset |
| `ProbeScanner.Scanner.ProbeBattery` | main/battery_scanner.cpp:1008-1132 | makes one connection attempt, for the candidate, with nothing outstanding before it, and records what it leaves outstanding |
| `ProbeScanner.Scanner.RunScan` | main/battery_scanner.cpp:1214-1272 | scans once and probes what the scan found, in its order, all of it unless a cleanup fails; a cleanup that still fails comes first and stops it |
| `ProbeScanner.Scanner.Task` | main/battery_scanner.cpp:1274-1290 | over any number of cycles a probe is replaced and a connection attempted only when the last one is known to be gone |
| `DotFrame.StuffSplit` | main/console.cpp:275-301 | stuffing a text in two pieces with the carried flag is stuffing the whole |
| `DotFrame.FrameIsLines` | main/console.cpp:303-310 | a framed response is the stuffed lines of the text, then a line with a single dot |
| `LogLaws.FrameOfDots` | main/console.cpp:275-310 | frames in full: of two lines that start with dots, the second without a line end, of one line, and of nothing |
| `LogLaws.UnstuffLines` | power4ctl/power4ctl.c:594-598 | a line that starts with a dot must go on with another, and loses the first |
| `DotStream.DotStuffStream.Write` | main/console.cpp:275-301 | one write sends the stuffed piece and leaves the right flag; after a short write what is out is a prefix of it |
| `DotStream.DotStuffStream.Finish` | main/console.cpp:303-310 | the terminator goes out on a line of its own |
| `DotStream.Respond` | main/console.cpp:2819-2860 | output printed in any pieces leaves as one frame of the whole text; after a short write the rest and the terminator are sent all the same |
| `DotReceive.FrameArrives` | power4ctl/power4ctl.c:562-617 | for either client, on either transport, whatever the text, the first lone dot is the terminator and there is one line for each line sent |
| `DotReceive.ResponseRoundTrip` | power4d/Sources/Power4DCore/DeviceSession.swift:75-115 | unstuffing gives exactly the lines of the text if and only if the transport sends CR LF or no line ends in CR, and, for power4ctl, no line holds a NUL; otherwise those lines without that CR and from their NUL on |
| `LogJson.CStringIsWhole` | main/console.cpp:1822-1822 | the part of a text before a NUL is all of it exactly when it holds no NUL |
| `LogJson.ScanEscaped` | main/console.cpp:1815-1837 | an escaped string of any bytes scans back to those bytes, each `\u00hh` read as a byte |
| `LogJson.DecimalRoundTrip` | main/json_output.cpp:21-21 | a number printed in decimal reads back |
| `LogJson.ReportRoundTrip` | main/console.cpp:1969-2025 | a report reads back as the snapshot's length and its text up to the first NUL |
| `LogJson.ReportKeepsText` | main/console.cpp:1969-2025 | the whole text survives if and only if it holds no NUL |
| `LogJson.MeasuredCapacitySuffices` | main/console.cpp:1980-1993 | the capacity measured before allocation always holds the report and its NUL; a report has at most 98344 bytes |
| `LogJson.ReportIsPrintable` | main/console.cpp:1815-1837 | a report is one line of printable ASCII |
| `LogLaws.EscapedBytes` | main/console.cpp:1815-1837 | quote and backslash are escaped by a backslash, other printable bytes stand for themselves, the rest become \u00 and two digits |
| `LogLaws.ReportOfThree` | main/console.cpp:1969-2025 | the report, in full, of a log that holds a quote, a line feed and the byte 200 |
| `JsonBuffer.Buffer.Append` | main/console.cpp:1796-1813 | appends whole or not at all, with a NUL behind, never outside the buffer |
| `JsonBuffer.Buffer.AppendString` | main/console.cpp:1815-1837 | appends the quoted, escaped C string exactly when it fits |
| `LogReport.MeasureEscaped` | main/console.cpp:1980-1991 | the measured size is the length of the escaped text |
| `LogReport.ReportLogs` | main/console.cpp:1969-2025 | for every snapshot the buffer suffices and the printed line carries the whole report |
| `P4J1.LineRoundTrip` | main/json_output.cpp:15-22 | both clients' parsers take from a line exactly the JSON text it was made from |
| `P4J1.CReadsFields` | power4ctl/power4ctl.c:508-554 | on a line of size, digest and text, power4ctl accepts exactly the lower-case digest of the text |
| `P4J1.SwiftAccepts` | power4d/Sources/Power4DCore/P4J1.swift:4-47 | what power4d accepts is a size, a digest and a text that match |
| `P4J1.ClientsAgree` | power4ctl/power4ctl.c:508-554 | of the lines power4d accepts power4ctl accepts those with a lower-case digest, with the same text, and reports the others as damaged |
| `LogLaws.LineText` | main/json_output.cpp:15-22 | a line is P4J1, the length, the digest and the text with single spaces between |
| `LogLaws.HexTextAt` | main/json_output.cpp:15-22 | a digest is printed with two digits for each byte, the high one first |
| `LogLaws.HexDigitsRead` | main/checksum.cpp:9-22 | a hexadecimal digit is read in either case, and nothing else as that digit |
| `LogLaws.StrtoulSign` | power4ctl/power4ctl.c:514-520 | strtoul takes a sign, negates as unsigned numbers do, and stops at the largest unsigned long |
| `LogLaws.StrtoulBlank` | power4ctl/power4ctl.c:514-520 | strtoul passes over leading space |
| `LineReader.ReadLineFd` | power4ctl/power4ctl.c:119-144 | takes the next line without its CR, if it and its CR fit the buffer, and no byte beyond its LF |
| `LineReader.Connection.ReadMore` | power4d/Sources/Power4DCore/POSIXConnection.swift:134-153 | moves bytes from the wire to the buffer; the stream is unchanged |
| `LineReader.Connection.ReadLine` | power4d/Sources/Power4DCore/POSIXConnection.swift:98-113 | takes the next line of the stream however it was chunked; too long only when no LF is among the first maximumBytes |
| `Responses.ReadSwift` | power4d/Sources/Power4DCore/DeviceSession.swift:75-115 | takes the lines up to the terminator and no byte more; one bad line spoils the response, otherwise the last payload is its result |
| `CtlResponse.ReadC` | power4ctl/power4ctl.c:562-617 | for each kind of command and any bytes, status and printed lines are those of the whole response, taken as C strings, or reading stopped at an ill-stuffed line that is not the echo, with the lines before it printed |
| `CtlResponse.StoppedIsIllStuffed` | power4ctl/power4ctl.c:594-598 | a response that ends is stopped at only if a line of it that is not the echo is ill stuffed, so a well-stuffed one is always taken whole |
| `ClientLaws.SwiftVerdict` | power4d/Sources/Power4DCore/DeviceSession.swift:75-115 | power4d: one bad line spoils a response, otherwise its last payload is taken, and without any it is missing |
| `ClientLaws.JsonStatus` | power4ctl/power4ctl.c:585-607 | power4ctl with a JSON command: the last frame among the lines decides, good or damaged, and 0 without any |
| `ClientLaws.UploadStatus` | power4ctl/power4ctl.c:585-617 | power4ctl with an upload: it failed exactly when a line holds " failed:" and none "uploaded staged configuration:" |
| `ClientLaws.UploadPrints` | power4ctl/power4ctl.c:608-611 | an upload prints exactly the lines that say that it was stored |
| `ClientLaws.JsonPrints` | power4ctl/power4ctl.c:602-607 | a JSON command prints exactly the texts of good frames |
| `ClientLaws.PassesAll` | power4ctl/power4ctl.c:585-601 | power4ctl with a passthrough command prints every line, unstuffed, and succeeds |
| `ClientLaws.BodyDropsEcho` | power4ctl/power4ctl.c:579-583 | the first line, and only it, may be the echo |
| `ClientLaws.ContainsMeans` | power4ctl/power4ctl.c:608-615 | a text contains a part exactly when the part stands somewhere in it |
| `LogDelivery.LogLineIsShort` | power4ctl/power4ctl.c:288-291 | the report line of any log has at most 98396 printable bytes |
| `ResponseDelivery.EchoOnWire` | main/console.cpp:2732-2734 | the echo of a command over a serial line ends in CR CR LF |
| `ResponseDelivery.TakesSent` | main/console.cpp:2819-2860 | for either client, either transport and any text, what is taken from the wire is the line of the echo, with a CR too many over a serial line, and the lines of the response |
| `ResponseDelivery.SentFits` | power4ctl/power4ctl.c:288-291 | with lines that are short enough none on the wire is too long for a client |
| `ResponseDelivery.EchoSkipped` | power4ctl/power4ctl.c:579-583 | a client that waits for the echo of its command skips it if and only if the transport leaves LF alone |
| `ResponseDelivery.SerialEchoStays` | power4d/Sources/Power4DCore/DeviceSession.swift:84-88 | over a serial line the echo stays in front of the response, with a CR behind it |
| `ResponseDelivery.EchoIsIgnored` | power4ctl/power4ctl.c:579-605 | skipped or not, the echo of a command that is no frame and does not start with a dot changes neither client's verdict on any response, nor the report it takes |
| `ResponseDelivery.CtlPassesThrough` | power4ctl/power4ctl.c:562-617 | power4ctl run with a passthrough command prints the lines of the output as they arrive, and before them, over a serial line, its own command with a CR |
| `LogDelivery.LogArrives` | main/console.cpp:1969-2025 | every log, over either transport, with or without the console's echo, and whatever echo the client waits for, is on the wire as a response that both clients take whole, whatever bytes follow, and whose report reads back |
| `LogDelivery.SerialReport` | power4d/Sources/Power4DCore/DeviceSession.swift:40-45 | the serial case is among these: the clients' own command is echoed and waited for, and not recognised |
| `LogDelivery.CtlGetsLog` | power4ctl/power4ctl.c:562-617 | power4ctl run on that wire, serial with its echo or TCP, returns 1, prints exactly the report, and leaves the bytes after the response |
| `LogDelivery.SwiftGetsLog` | power4d/Sources/Power4DCore/DeviceSession.swift:75-115 | power4d run on it, serial with its echo or TCP, in chunks of any sizes, succeeds with exactly the report and leaves the bytes after the response |
| `LogDelivery.SwiftIsStricter` | power4d/Sources/Power4DCore/DeviceSession.swift:75-115 | for the lines of any response: power4d takes it exactly when no line is bad and power4ctl finds a frame; power4ctl then takes the same text exactly when the last frame's digest is in lower case, and calls it damaged otherwise |
| `LogDelivery.DamagedThenGood` | power4ctl/power4ctl.c:602-606 | a damaged frame followed by a good one: power4d fails, power4ctl succeeds |
| `Base64.Base64RoundTrip` | power4ctl/power4ctl.c:380-419 | decoding undoes encoding, for all lengths (section 4 of RFC 4648) |
| `UploadLaws.Alphabet` | power4ctl/power4ctl.c:380-419 | the 64 symbols in the order of Table 1 of RFC 4648 |
| `UploadLaws.VectorF` | power4ctl/power4ctl.c:380-419 | "f" is "Zg==" (section 10 of RFC 4648); likewise `VectorFo` and `VectorFoo` |
| `UploadLaws.DecodesPadded` | main/console.cpp:2135-2242 | a text decodes exactly when it is whole quads of symbols, the last with up to two pads at its end |
| `PolicySend.SendBase64` | power4ctl/power4ctl.c:380-419 | writes the encoding in its lines, each ended by CR, and a blank line |
| `PolicySend.LinesFromStart` | power4ctl/power4ctl.c:403-411 | those lines are the encoding cut every 76 characters |
| `UploadLaws.LinesOf76` | power4ctl/power4ctl.c:403-411 | every line but the last has 76 characters |
| `LineInput.SocketStream.Read` | main/network_console.cpp:302-333 | what reads of any sizes give, and what is still to come, is one normalised text; a read ends at a line end, or early only when the connection fails |
| `LineInput.AnyLineEnding` | main/network_console.cpp:317-330 | CR, LF and CR LF give the console the same lines |
| `LineInput.SerialReadsTheSame` | main/console.cpp:2631-2631 | without LF from the host, serial and TCP input read the same |
| `PolicyReceive.AppendBase64Line` | main/console.cpp:2122-2133 | a line is appended with its NUL, or nothing changes when it does not fit |
| `PolicyReceive.Stdin.Fgets` | main/network_console.cpp:404-419 | the next line of the normalised text of the socket, or as much as fits, and no byte of the text is lost or read twice |
| `PolicyReceive.ReceivePolicy` | main/console.cpp:2135-2242 | stages only what has the expected digest and at most 16 KiB, stays inside its buffer, and while the connection holds gathers exactly the lines before the first blank or invalid one |
| `UploadLaws.GathersOrEnds` | main/console.cpp:2135-2242 | a line of up to 158 bytes is gathered when it is not empty and holds only symbols and pads, and ends the upload otherwise |
| `UploadLaws.LinesOf159` | main/console.cpp:2135-2160 | a longer line is taken 159 bytes at a time |
| `UploadLaws.Verdicts` | main/console.cpp:2162-2242 | an upload is too large exactly beyond 21848 characters, invalid when it does not decode or has more than 16384 octets, and otherwise staged exactly when its digest is the expected one |
| `PolicyDelivery.HexRoundTrip` | main/checksum.cpp:45-64 | the digest in the command parses back |
| `UploadLaws.CommandText` | power4ctl/power4ctl.c:471-474 | the command is p4exec policy upload, a space, and the digest in hexadecimal |
| `PolicyDelivery.UploadArrives` | main/console.cpp:2135-2242 | the burst of power4ctl, as the console reads it, is a command line with the digest and lines that gather and decode to the policy if and only if it has at most 16 KiB; the host's next bytes are left for the next command |
| `PolicyDelivery.UploadPolicy` | power4ctl/power4ctl.c:380-419 | the two programs run over one connection: what power4ctl writes is read byte by byte through the console's stream, and the policy is staged unchanged if and only if it has at most 16 KiB |
| `PolicyDelivery.BurstFits` | main/console.cpp:72-80 | command, lines and line ends of any such policy fit the receive ring with 600 bytes to spare |
| `BlockFold.FoldSplit` | power4d/Sources/Power4DSystem/sha256.c:100-119 | folding over two runs of blocks is folding over both |
| `BlockFold.PadZerosIsLeast` | power4d/Sources/Power4DSystem/sha256.c:121-140 | the zero bytes complete the last block and no smaller number does (section 5.1.1 of FIPS 180-4) |
| `BlockFold.PaddedParts` | power4d/Sources/Power4DSystem/sha256.c:121-140 | a padded message starts with the message and ends with its bit count |
| `BlockFold.LengthFieldRoundTrip` | power4d/Sources/Power4DSystem/sha256.c:137-139 | the length field reads back as the number of bits |
| `BlockFold.PaddedIsInjective` | power4d/Sources/Power4DSystem/sha1.c:70-84 | different messages have different padded texts |
| `ShaContext.Context.Update` | power4d/Sources/Power4DSystem/sha256.c:100-119 | appends the data to the message hashed so far, whatever the buffer held |
| `ShaContext.Context.Final` | power4d/Sources/Power4DSystem/sha256.c:121-140 | the result is the fold over the padded message, in both padding branches |
| `ShaHash.FillSchedule` | power4d/Sources/Power4DSystem/sha256.c:40-49 | the array filled in place is the recursive message schedule |
| `ShaHash.CompressSha256` | power4d/Sources/Power4DSystem/sha256.c:34-86 | the loop computes the compression function of SHA-256 |
| `ShaHash.CompressSha1` | power4d/Sources/Power4DSystem/sha1.c:10-39 | the loop computes the compression function of SHA-1 |
| `ShaHash.HashPieces` | power4d/Sources/Power4DSystem/sha1.c:52-92 | a message in any pieces hashes to the digest of the whole |
| `ShaHash.HmacSha256` | power4d/Sources/Power4DSystem/sha256.c:150-191 | HMAC of section 2 of RFC 2104 for every key length |
| `ShaVectors.Sha256OfAbc` | power4ctl/test_sha256.c:19-31 | the SHA-256 of "abc" is ba7816bf...f20015ad, all 32 bytes |
| `ShaVectors.Sha1OfAbc` | power4d/Sources/Power4DSystem/sha1.c:10-39 | the SHA-1 of "abc" is a9993e36...9cd0d89d, all 20 bytes |
| `ShaLaws.ChooseBits` | power4d/Sources/Power4DSystem/sha256.c:62-62 | where e has a bit it is f's that is chosen, elsewhere g's |
| `ShaLaws.MajorityBits` | power4d/Sources/Power4DSystem/sha256.c:65-65 | where two words agree theirs is the majority, where they differ the third decides |
| `ShaLaws.ParityBits` | power4d/Sources/Power4DSystem/sha1.c:30-32 | a bit of the parity is set exactly when an odd number of the three are |
| `ShaLaws.RotrAgain` | power4d/Sources/Power4DSystem/sha256.c:40-61 | a rotation by n + 1 is one by n and one by 1, which moves the last bit to the front (`RotrOnce`) |
| `ShaLaws.RotlUndoesRotr` | power4d/Sources/Power4DSystem/sha1.c:8-8 | the left rotation is the inverse of the right one |
| `ShaLaws.CubeRoots0` | power4d/Sources/Power4DSystem/sha256.c:7-24 | the first eight round constants are the first 32 bits of the fractions of the cube roots of the first eight primes; `CubeRoots1` to `CubeRoots7` go on to the 64th |
| `ShaLaws.SquareRoots` | power4d/Sources/Power4DSystem/sha256.c:88-98 | the initial state is the fractions of the square roots of the first eight primes |
| `ShaLaws.HmacPads` | power4d/Sources/Power4DSystem/sha256.c:150-191 | the zero-filled key goes in xored with 0x36 in front of the text and with 0x5c in front of the first digest |
| `ShaLaws.HmacLongKey` | power4d/Sources/Power4DSystem/sha256.c:150-168 | a key longer than a block stands for its digest |
| `Calendar.DaysFromMarch` | main/time_manager.cpp:141-151 | the era arithmetic is the plain count of leap days, in every year |
| `Calendar.Epoch` | main/time_manager.cpp:141-151 | 1 January 1970 is day 0 |
| `Calendar.DayStep` | main/time_manager.cpp:141-151 | the calendar's next day is one more, in every year |
| `Calendar.StrictlyIncreasing` | main/time_manager.cpp:141-151 | later dates have larger day numbers |
| `Calendar.PredecessorIsValid` | main/rtc_manager.cpp:46-58 | every valid date has a valid day before it |
| `Calendar.DatesAreDayNumbers` | main/time_manager.cpp:141-151 | day numbers and valid dates correspond one to one |
| `Calendar.WeekdayAgrees` | main/rtc_manager.cpp:173-187 | the weekday formula equals (day number + 4) mod 7 if and only if its 16-bit year does not wrap |
| `RtcClock.EpochIncreases` | main/time_manager.cpp:153-180 | later clock values are later epochs |
| `RtcClock.EpochRoundTrip` | main/time_manager.cpp:165-204 | an epoch decodes to a clock value if and only if that value encodes to the epoch |
| `RtcClock.BcdRoundTrip` | main/rtc_manager.cpp:29-44 | a value whose tens digit fits under the mask survives binary-coded decimal |
| `RtcClock.RegistersRoundTrip` | main/rtc_manager.cpp:82-136 | every valid clock value written to the registers is read back |
| `RtcClock.WeekdayRegister` | main/rtc_manager.cpp:128-136 | the weekday register holds the weekday of the day number |
| `RtcLaws.EpochRange` | main/time_manager.cpp:165-204 | the clock can hold exactly the seconds from 946684800 to 4102444799, the years 2000 to 2099 |
| `RtcLaws.LeapDay` | main/rtc_manager.cpp:128-136 | the seven registers, in full, for 29 February 2024 |
| `RtcLaws.ReadingIsSensible` | main/rtc_manager.cpp:82-125 | what is read is a valid time and weekday, and bit 7 of the seconds says that the oscillator stopped |
| `RtcLaws.UnderMask` | main/rtc_manager.cpp:34-44 | what the chip keeps above the mask of a register makes no difference |
| `RtcLaws.HexDigitsRead` | main/rtc_manager.cpp:34-44 | a register reads as its two hexadecimal digits, and a digit above nine as nothing |
| `DeadlineTable.Remaining` | main/config_flags.cpp:123-126 | nothing remains exactly from the deadline on |
| `ConfigLaws.RemainingReaches` | main/config_flags.cpp:123-126 | the seconds left are the least whole number of seconds that reaches the deadline |
| `DeadlineTable.ClearSlot` | main/config_flags.cpp:69-79 | clearing a slot removes its name from the map and nothing else |
| `DeadlineTable.WriteSlot` | main/config_flags.cpp:87-105 | writing a name's own or a free slot sets its deadline in the map and nothing else |
| `DeadlineTable.Table.Drop` | main/config_flags.cpp:69-79 | the name is gone from the map, the rest stays |
| `DeadlineTable.Table.Refresh` | main/config_flags.cpp:83-109 | sets the deadline; fails exactly for a new name when all 32 slots are used |
| `DeadlineTable.Table.Query` | main/config_flags.cpp:113-142 | tells the time left, or starts the full lifetime at the first sighting |
| `ConfigNvs.LifetimeSurvives` | main/config_flags.cpp:190-225 | over every list of commits from any start, a value written with a lifetime is never stored without its lifetime entry until a permanent set of the name begins to commit |
| `ConfigNvs.PermanentSetTrap` | main/config_flags.cpp:318-343 | a permanent set leaves the old value without a lifetime exactly when it stops after its first commit |
| `ConfigNvs.TrapIsReached` | main/config_flags.cpp:318-343 | from a blank store a set with a lifetime and a permanent one that is cut short make the first value permanent |
| `ConfigNvs.LifetimeOnOldValue` | main/config_flags.cpp:318-343 | a set with a lifetime puts it on the old value exactly when it stops after its first commit |
| `ConfigLaws.SetThrough` | main/config_flags.cpp:318-343 | a set that is through leaves the value with the lifetime it was given, or with none |
| `ConfigLaws.UnsetThrough` | main/config_flags.cpp:377-405 | an unset takes the value first and its lifetime entry after it |
| `ConfigLaws.OrphanThrough` | main/config_flags.cpp:661-683 | a lifetime entry is cleaned up only without a value, and no value ever is |
| `ConfigLaws.OnlyTheName` | main/config_flags.cpp:318-405 | a call that has committed nothing changes nothing, and none touches another name |
| `ConfigLaws.LeasedMeans` | main/config_flags.cpp:190-225 | a value is leased exactly when a set with a lifetime went through and no permanent set of the name has committed anything after it |
| `ConfigLaws.NamesAreKeys` | main/config_flags.cpp:34-57 | names are 1 to 15 ASCII letters, digits, dashes and underscores |
| `ConfigFlags.Flags.Lease` | main/config_flags.cpp:194-217 | countdown and lifetime entry are both set, or the call says it failed |
| `ConfigFlags.Flags.Set` | main/config_flags.cpp:318-375 | wherever the call ends NVS is in one of the three states of a set, other names are untouched and the call is in the history; without failures it succeeds exactly when there is room for the countdown, and adds a lifetime entry exactly for a new name with room |
| `ConfigFlags.Flags.Unset` | main/config_flags.cpp:377-405 | wherever the call ends NVS is in one of the three states of an unset and other names are untouched; on success the name is gone everywhere |
| `ConfigFlags.Flags.ExpireOne` | main/config_flags.cpp:661-683 | one listed name: an orphan goes, a due value goes, an undue one stays, one that stays keeps its lifetime entry whatever fails, other names are untouched |
| `ConfigFlags.Flags.ListTtl` | main/config_flags.cpp:632-659 | up to 32 entries, each once, those that cannot be read passed over; all of them when they fit and nothing fails |
| `ConfigView.AnyoneLeftOut` | main/config_flags.cpp:636-636 | with more than 32 entries any one of them can be missing from a listing of 32 |
| `ConfigFlags.Flags.Expire` | main/config_flags.cpp:616-686 | whatever fails or crashes, values go only when due, those that stay keep their lifetime entries and countdowns, a countdown that begins is one of the full lifetime, and names not listed are untouched; a call in which nothing fails deals with the first 32 entries, with all of them if they fit |
| `ConfigRuns.StaysUntilDue` | main/config_flags.cpp:616-686 | in every run of the store, after a set for L seconds at t the value is there and counts down to t+L as long as every expire ended before t+L or did not list it, failed ones included |
| `ConfigRuns.RemovedWhenDue` | main/config_flags.cpp:616-686 | in every run, the first expire that begins at t+L or later, reaches the name and does not fail removes the value, whatever other calls, expires among them, have failed or crashed, and it stays away through calls about other names |
| `ConfigRuns.GoneExactlyWhenReached` | main/config_flags.cpp:616-686 | so, when no expire fails, the value is gone if and only if one has reached it since t+L; with at most 32 names every expire reaches it |
| `ConfigRuns.SurvivesRestarts` | main/config_flags.cpp:22-23 | a value with a lifetime, set in the run or in NVS before it, lives through any number of restarts, whatever fails, as long as the expires between two of them take less than the lifetime |
| `ConfigRuns.CountsAnewAfterRestart` | main/config_flags.cpp:22-23 | after the last of any number of restarts, the first expire that does not fail and has room has the full lifetime of the value counting down, from some moment between the first expire since that restart and itself |
| `ConfigRuns.RemovedAfterRestart` | main/config_flags.cpp:22-23 | and the first expire that begins a full lifetime later or more, reaches it and does not fail removes it, for good |
| `ConfigRuns.NeverPermanent` | main/config_flags.cpp:190-225 | in every run, however calls failed or crashed, a value whose last set gave a lifetime has its lifetime entry or is gone, unless a permanent set of the name has begun |
| `ConfigRuns.NeverPermanentInNvs` | main/config_flags.cpp:190-225 | the same of the commits to NVS, also in the middle of a call |
| `ConfigRuns.InStepFits` | main/config_flags.cpp:636-636 | when nothing ever fails: from a store without entries, or after an expire with room for all, and without a restart since, there are never more than 32 entries and each has its countdown, so every expire lists all |
| `ConfigRuns.SetAfterRestart` | main/config_flags.cpp:83-109 | the state in which that fails, with nothing failing: 32 entries, a restart, a set of a new name gives 33 entries, and for each a listing that leaves it out |
| `RelayBoard.UniqueChannels` | main/board_config.cpp:84-94 | true exactly when no two relays share a channel |
| `RelayBoard.ValidateRelays` | main/board_config.cpp:150-188 | accepts exactly the relay configurations the relay manager relies on |
| `RelayBoard.WithBitBits` | main/relay_manager.cpp:185-191 | setting or clearing one bit of the output byte leaves the other seven |
| `RelayBoard.BitIsShift` | main/relay_manager.cpp:185-191 | channel c is bit c of the output byte, counted from the least significant |
| `RelayBoard.Outputs.Set` | main/relay_manager.cpp:177-200 | on success the channel is high for an active level of 1 and a relay that is on, or 0 and one that is off, and no other channel changed; on failure none did |
| `RelayManager.Manager.ApplyOutput` | main/relay_manager.cpp:202-241 | every line mirrors its output_on, unmapped bits keep their level, and an output differs from what is wanted only if that relay's latest write failed; what is wanted is fixed by `RunTurn` |
| `RelayManager.Manager.ExpireTimers` | main/relay_manager.cpp:243-253 | every timer that is due ends, forces stay, the mirror is kept |
| `RelayManager.Manager.HandleMessage` | main/relay_manager.cpp:255-304 | one relay's timer or force changes as asked, no other relay's, and the mirror is kept |
| `RelayManager.Manager.RunTurn` | main/relay_manager.cpp:306-321 | after each turn every relay whose latest write did not fail is on if the last message about its force in the history was ForceOn, off if it was ForceOff, and otherwise on exactly when some request for it is live; every line has the level that makes it so |
| `RelayTimer.StandsNext` | main/relay_manager.cpp:269-281 | a message and an expiry keep the timer equal to the last end of the live requests |
| `RelayTimer.TimerStandsForRequests` | main/relay_manager.cpp:243-281 | over every history with time not running back, the timer is active exactly when a request is live and ends with the last of them |
| `RelayTimer.OneRequest` | main/relay_manager.cpp:269-281 | a single request for s seconds keeps its relay on for exactly s million microseconds |
| `RelayTimer.TakenBack` | main/relay_manager.cpp:269-281 | a request for no time takes an earlier one back if it is for the same relay, and only then |
| `RelayTimer.LastForceDecides` | main/relay_manager.cpp:282-293 | of two messages that set or clear a force the last decides |
| `PolicyState.Store.BeginCycle` | main/policy_state.cpp:29-36 | memory is kept for the same program and emptied for another |
| `PolicyState.Store.FinishCycle` | main/policy_state.cpp:38-43 | a failed cycle leaves nothing |
| `PolicyState.Store.Get` | main/policy_state.cpp:45-56 | the stored value of a valid name, else the default |
| `PolicyState.Store.Set` | main/policy_state.cpp:58-76 | stores, and fails exactly on a bad name or a ninth one |
| `ShedPolicy.Transfer` | examples/shed.lua:155-242 | the two demands and the relay command are those of the start, hold, external-charge and source-low conditions; the `ShedLaws` below say what those are |
| `ShedLaws.LowIsRecovering` | examples/shed.lua:108-126 | a cell that counts as low has not recovered |
| `ShedLaws.StartsHolds` | examples/shed.lua:176-196 | what begins a demand also keeps it |
| `ShedLaws.FullerSourceGives` | examples/shed.lua:193-226 | a higher charge or fresh cell voltage of the 48 V bank never ends a demand and never turns the command from on to anything else |
| `ShedLaws.FullerBanksAskLess` | examples/shed.lua:162-206 | a higher charge or cell voltage of the 24 V banks never makes a demand |
| `ShedLaws.BanksCountEqually` | examples/shed.lua:128-131 | the two 24 V banks may be exchanged |
| `ShedLaws.OnlyTheAverageCounts` | examples/shed.lua:128-131 | charge moved from one 24 V bank to the other changes no demand |
| `ShedLaws.ExternalChargeStops` | examples/shed.lua:163-206 | more current into either 24 V bank never makes a demand, and above the limit there is none |
| `ShedLaws.StaleIsIgnored` | examples/shed.lua:104-126 | a reading that is too old is no reading |
| `ShedLaws.BadSettings` | examples/shed.lua:75-96 | settings that are refused, and the extreme ones that are not |
| `ShedLaws.ChargeLines` | examples/shed_test.lua:123-165 | with the default settings charging begins below 50 on average and ends at 70, both values exact |
| `ShedLaws.SourceLines` | examples/shed_test.lua:166-196 | at 20 or below the 48 V bank gives nothing, whatever is known of the others |
| `ShedLaws.CellLines` | examples/shed_test.lua:216-260 | a cell is low at 3.10 V and counts for 900 s, both values exact |
| `ShedLaws.CellHoldLines` | examples/shed_test.lua:240-253 | a cell has recovered at 3.25 V, not below |
| `ShedLaws.AlarmLines` | examples/shed_test.lua:222-239 | an undervoltage alarm begins and keeps a charge |
| `ShedLaws.CurrentLines` | examples/shed_test.lua:144-160 | up to 10 A into each bank is the converter's own, more in either ends both demands |
| `ShedLaws.SurplusLines` | examples/shed.lua:193-196 | surplus transfer begins above 95 with the 24 V banks below 90 on average |
| `ShedLaws.SurplusHoldLines` | examples/shed.lua:193-196 | and ends at 90, or with the 24 V banks above 90 |
| `ShedLaws.DemandsLiveApart` | examples/shed.lua:176-197 | either demand may end while the other goes on, and neither latches the other |
| `ShedLaws.UnknownLines` | examples/shed.lua:208-242 | with a bank unknown nothing begins or is switched off, and what runs is remembered |
| `ShedLaws.ForceSwitchesOn` | examples/shed.lua:233-242 | a force switches on whatever else is known and leaves the demands alone |
| `ShedLaws.SettingsMoveLines` | examples/shed_test.lua:329-356 | each setting moves its own line |
| `PolicyRuns.RunShed` | examples/shed.lua:155-242 | a completed run stores both demands, its two stores never fail, and every run that gets to the relay, even one that fails behind it, commands what the demands found before it say |
| `PolicyRuns.RunPolicyCycle` | main/policy_task.cpp:557-600 | a cycle keeps, replaces or clears the memory as the program, its digest and its success say, and commands the relay from the memory before it |
| `PolicyRuns.LatchedNext` | examples/shed.lua:157-232 | after a cycle a demand is remembered exactly when the cycle begins it, or it was remembered and the cycle carries it |
| `PolicyRuns.LatchedMeansChain` | main/policy_task.cpp:557-600 | over every run a demand is remembered if and only if an unbroken chain of completed cycles leads back to its own beginning |
| `PolicyRuns.SwitchedOnMeansChain` | examples/shed.lua:233-242 | over every run, a cycle that may fail afterwards switches the converter on if and only if it is forced, or all banks are known, the 48 V bank is not low, and the cycle ends such a chain for one of the demands |
| `Jbd.ComputeChecksum` | main/jbd_protocol.cpp:44-51 | the 16-bit loop gives the negated sum, which `JbdLaws.ZerosAreChecked` and `EachByteCounts` settle for every payload |
| `Jbd.FindPacket` | main/jbd_protocol.cpp:53-87 | finds the first valid frame with everything before it ruled out, and fails only when there is none |
| `Jbd.OnePacket` | main/jbd_protocol.cpp:53-87 | there is at most one such frame |
| `Jbd.PacketStays` | main/jbd_protocol.cpp:53-87 | a found frame is found at the same place however many bytes follow |
| `Jbd.ParseCells` | main/jbd_protocol.cpp:128-154 | accepts exactly valid answers with the expected number of cells |
| `Jbd.CellsRoundTrip` | main/jbd_protocol.cpp:128-154 | an encoded answer is parsed back to its voltages |
| `Jbd.CellFrameIsFound` | main/jbd_protocol.cpp:53-87 | after bytes without a start byte, and before any others, an answer is found whole |
| `Jbd.DamagedByte` | main/jbd_protocol.cpp:17-28 | in the answer to any command, one changed payload byte goes unnoticed if and only if it dropped by the command byte |
| `JbdLaws.ZerosAreChecked` | main/jbd_protocol.cpp:17-28 | with a payload of n zeros a checksum is valid exactly when it and n, or it, n and the command byte, add up to a multiple of 65536 |
| `JbdLaws.EachByteCounts` | main/jbd_protocol.cpp:44-51 | whatever the payload, a byte that grows by d is matched by a checksum that is d less, modulo 65536 |
| `JbdLaws.OneCell` | main/jbd_protocol.cpp:128-154 | the bytes dd 04 00 02 0c e4 ff 0e 77 are one cell of 3300 mV |
| `JbdLaws.FourCells` | tests/test_jbd_protocol.cpp:66-78 | an answer of four cells, given in bytes, parses to its four voltages |
| `JbdLaws.FourCellsDamaged` | tests/test_jbd_protocol.cpp:80-93 | and not with its checksum damaged |
| `JbdReceiver.Receiver.Consume` | main/battery_scanner.cpp:682-733 | appends a notification within 128 bytes and searches again; otherwise says why not |
| `JbdReceiver.Receiver.ReceiveAll` | main/battery_scanner.cpp:682-733 | notifications of any sizes up to 128 bytes in all give the packet that a search of the whole would |
| `BatteryTable.StaleCells` | main/battery_store.cpp:58-93 | exactly when a record carries cell voltages older than the observation |
| `BatteryStore.InheritCells` | main/battery_store.cpp:136-166 | a run of the store that ends with a battery that has the cell voltages of another |
| `BatteryTable.PutKeepsTable` | main/battery_store.cpp:136-166 | overwriting the own, an empty, or the least recently seen slot keeps the table the most recent part of the observations |
| `BatteryTable.TableIsMostRecent` | main/battery_store.cpp:136-166 | a battery with fewer others seen at its time or later than slots is in the table, one with as many seen later is not; without equal times that is an equivalence |
| `BatteryTable.LatestIsLast` | main/battery_store.cpp:136-166 | what a record is compared with is the battery's last observation |
| `BatteryStore.Store.FindLeastRecentlySeen` | main/battery_store.cpp:46-56 | a slot no other slot is older than |
| `BatteryStore.Store.RecordObservation` | main/battery_store.cpp:136-166 | for every sequence of observations with time not running back the table holds the most recently seen batteries, without duplicates, each with the scalar fields of its latest observation; equal times are decided by the slots |

## Left out

- `Radio.STALL`: no single call of the stack takes 2^30 ticks (four months) or more; a longer one could make the disconnect timeout start over, which `TicksBetweenIsElapsed` shows.
- Bluetooth advertising in `ble_on_sync`, which only reads the flags; GATT discovery, subscription and requests are single nondeterministic exchanges.
- NimBLE's own code: its return codes ENOTCONN and EALREADY are taken with the values NimBLE gives them, and a host reset is taken to end every connection. That `Radio.Stack.ResetManager` leaves none on OK rests on this and on `BleRecovery.OkMeansRecovered`, by which OK means such a reset; the two models are not joined further.
- Memory exhaustion: `malloc` succeeds in the report and upload models.
- SHA messages are values, so pointers and overlapping buffers are not modelled; the compression state is a value inside the context object. The digests that the firmware and power4d take from libraries are taken to be SHA-1.
- `LogJson.ReadReport`: reads the escapes the firmware writes; other escapes of RFC 8259 do not occur in a report. Section 7 of RFC 8259 makes `\u00hh` the code point U+00hh, so a JSON reader finds the bytes of the log as Latin-1 characters, also when the log was UTF-8.
- `gmtime_r` is modelled as the inverse of the day count; libraries' `strtod`, `strtoll` and time zone rules are not modelled, so whether a parameter's text is a number is an input.
- Short writes of `power4ctl` on a blocking descriptor, which it does not check, are not modelled.
- The mbedTLS base64 decoder is the decoder of RFC 4648; only its size limit is the firmware's.
- Deadlines of clients and consoles are failures of a read at any time.
- Log lines that other tasks print on the serial console in the middle of a response; only the capturing task's output is framed, so such a line reaches a client as it is.
- Commands of 256 characters or more and editing keys, which the serial console does not echo as they were sent.
- `DotStream.Respond`: what goes out after a short write, between it and the terminator, is not described.
- The upload is read from the TCP console; over a serial port the drivers give the same text (`LineInput.SerialReadsTheSame`). The command line is taken to be the command's name, one space, and the digest.
- Replies, usage texts and logging of the modelled functions, and printing while a policy is uploaded.
- Collisions of SHA-1: a policy program is taken to be known by its digest.
- The generator, camera and service-computer parts of the shed policy: the generator has one latch of the same shape, read back from its relay.
- Lua itself: a program run is what it reads, what it stores, when it switches the converter, and where it stops.
- Overlapping calls of the parameter store: its value and lifetime are not locked together, so only one call at a time means anything. Reading and listing parameters is left out, because listing only adds countdowns that expire adds too.
- `ConfigFlags.Flags.Expire`: with more than 32 lifetime entries only the first 32 in the order of NVS are dealt with, each time; nothing moves on to the others, and a due value among them stays until enough of the first are gone. Which entries come first is not modelled: any 32 may be listed.
- 64-bit overflow of microsecond clocks and deadlines.
- The parser of the battery's basic information, whose fields are floating-point quotients; readings are reals in the battery table.
- Battery banks, snapshots and listings, Ethernet, authentication, password storage, console editing and dispatch, board configuration beyond relays, solar geometry, and the rolling log buffer itself.
