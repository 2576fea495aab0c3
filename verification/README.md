# wd-broker: a verified model

`wd-broker` feeds a hardware watchdog only while every registered or announced client sends its
heartbeat in time. Clients talk to it in a line-based text protocol over a Unix domain socket;
`libwd-client` prints and reads that protocol for applications, `wd-ctrl` for the administrator.
This project models the broker, the client library and the control program, and proves what the
system is for: a feed certifies every live client, a dead client leads to a reset within a bound,
while clients are punctual, system calls succeed and passes are prompt the device does not fire, and
the two ends of the socket undo each other.

## How the model is laid out

| file | what it holds |
|---|---|
| `Clock.dfy` | normalised timespecs, C division, the 32-bit age in milliseconds and its verdict |
| `CText.dfy` | character classes, `sscanf` conversions with field widths, decimal text, `strtok_r` |
| `Table.dfy` | client slots, identifiers, the two table lookups, the documented decision table |
| `Protocol.dfy` | parsing of one command, its effect on the table (`Exec`), the text of the reply |
| `Wire.dfy` | what the texts on the socket mean, told without the parser: the shape of every accepted command, the fate of every other text, how refusals read |
| `Registry.dfy` | a slot-free reference model (a map from ID to client, the replies it allows) and the refinement |
| `Device.dfy` | the hardware watchdog as a fold over the calls made on it |
| `Machine.dfy` | the process as a state machine: one pass, signals, the reset-pending loop, shutdown; invariants of every run |
| `Supervision.dfy` | the history of exchanges as a legal trace, slot conservation, feed safety |
| `Deadlines.dfy` | the reset bound for a dead client and the feed cadence for live ones |
| `Broker.dfy` | the broker as a class that updates its array and flags in place, method by method as in the C source |
| `ConfigFile.dfy` | `trim` and `parse_config` in place, against a declarative account of the file |
| `ConfigText.dfy` | what each line of the file means, told without the classifier, and which complaint a refused file gets |
| `Client.dfy` | `libwd-client` with its record, and the round trips through the broker's parser |
| `Ctrl.dfy` | `wd-ctrl`: splitting and scanning the STATUS reply, resolving `<clientID\|name>` |
| `CtrlUnregister.dfy` | `wd-ctrl unregister` from the STATUS reply to the broker's table, and exactly when it frees the right client |
| `EndToEnd.dfy` | results that need several programs, and the whole broker process |

A run is a sequence of events: a pass of the main loop, a signal, or the end of the shutdown path.
The operating system enters only through them: what `select`, `accept` and the read of the message
yield, the peer's credentials, the clock readings, eight random bytes, the outcome of the timer read
and of the device write. `WD_MAX_CLIENTS` is a parameter (`capacity`). The imperative code
(`Broker.Broker`, `ConfigFile.ParseConfig`, `Client.WdClient`, the loops of `Ctrl`) is proved equal
to functions on values; all statements about whole runs are proved about those functions, and
`EndToEnd.WdBroker` joins the two for the complete process.

## Premises of the results

* IDs: `make_clientID` never looks for collisions. Results that speak of "the client with this ID"
  assume that each drawn ID differs from those in use (`Supervision.FreshRun`,
  `ConfigFile.GoodOracle`). `Machine.InvInRun`, `Machine.OwnedSlotKept`,
  `Machine.StrictBudget` and `Machine.DeviceEndState` need no such premise.
* Clock: the readings of a run ascend, and a client is checked at most `gapMs` after its previous
  check with 300001 + `gapMs` < 2^32. That no reachable age wraps is then proved, not assumed
  (`Supervision.VerdictsExact`, `Supervision.TimeInvInRun`). `Clock.AgeExactIff` says when the
  narrowing is harmless, and `Clock.WrapHidesMiss` shows that a premise is needed.
* Cadence: a pass lasts at most 500 ms (the read timeout for one command) plus `extraMs`, and
  2 * (500 + `extraMs`) < 1000 * (`wd_timeout_s` - `wd_timeout_s` / 2). Expiries that coalesce do no
  harm, so their absence is not a premise; nor do passes interrupted by a signal handler. Clients are
  checked within their timeout, `accept`, `select`, the timer read and the device write succeed, and
  there is no signal and no accepted REBOOT. That the loop goes on is then a conclusion, not a premise.
  `Machine.LoopingIff` states exactly which runs stay in the loop, and
  `Deadlines.AcceptFailureStarves` shows what a failing `accept` does.
* STATUS: the whole reply fits the 4096-byte buffers, which it does whenever at most 39 clients are
  registered or announced, however long their names (`Ctrl.StatusFits`).
* Configuration: a line holds no NUL, and a newline only at its end, as `fgets` delivers it.
* Numbers too large for their type follow the GNU C library: saturation at 64 bits, then truncation
  to 32.

## Where the code and its documentation differ

The model follows the code.

* `doc/ConfigurationFile.md` lists `service_user`; `parse_config` refuses it as an unknown key
  (`ConfigFile.ServiceUserRefused`). The service user is a command line option.
* `doc/ConfigurationFile.md` allows every printable character but `]` in an announced name. A name
  that starts with a blank, or has a `=` among its first 56 characters, is not read back
  (`ConfigFile.SectionRoundTripIff`, exact). A name with a blank inside is accepted but no REGISTER
  can ever carry it (`EndToEnd.BlankNameNeverRegisters`, `EndToEnd.RegistrableIff`). A missing `]`
  is accepted (`ConfigFile.UnclosedSectionAccepted`).
* The row of an announced client is read back by `wd-ctrl` exactly if its name holds no white space
  (`Ctrl.RowRoundTripIff`, `Ctrl.StatusRoundTripIff`). Otherwise the row is dropped, or, if what
  follows the first word reads as a number or is blank, taken for a client named by that word.
* Because of such rows `wd-ctrl unregister x` can free the wrong client. When it sends anything, it frees
  the right one if and only if this holds: if x is a clientID, the row of that client is read; otherwise
  somebody is named x (`CtrlUnregister.CtrlUnregistersExactlyOne`). It fails in two ways. A row read under
  a wrong name: `[client a 7 x]` is accepted, and `wd-ctrl unregister a` frees it
  (`CtrlUnregister.DeceptiveNameMisleads`, `CtrlUnregister.DeceptiveSection`). A dropped row: when a client
  announced as two words has the clientID x, and another has registered under the name x, `wd-ctrl
  unregister x` frees the other (`CtrlUnregister.HiddenIdMisleads`, `CtrlUnregister.HiddenIdExample`). A
  client whose row is dropped cannot be unregistered by its clientID at all
  (`CtrlUnregister.UnregisterByIdIff`). With names free of white space neither can happen
  (`CtrlUnregister.CleanNamesAreSafe`).
* A `wd_timeout_s` beyond 32 bits is judged by what is left of it: 4294967306 counts as 10
  (`ConfigText.WrappedTimeoutAccepted`); the same holds for the other numbers.
* `README.md` ties the reset to clients that do not respond. A failing `accept` or `select`
  also ends the loop for good, with every client alive (`Machine.PassOutcome`, exact;
  `Machine.AcceptFailureIsFinal`; `Deadlines.AcceptFailureStarves` for a broker without any client).
* `doc/Protocol.md` gives `OK <seconds>` for REBOOT and `daemon_version=` for VERSION; the code
  answers `OK, <seconds>` and `wd-broker_version=`.
* `doc/Protocol.md` says the PID of a PING must match the one stored at registration. An announced
  slot has no stored PID: a PING with its ID is accepted from every process and moves its deadline,
  which is why `Supervision.FeedImpliesRecentAnnouncement` counts such PINGs.
* `wd-ctrl unregister <clientID>` is refused as ambiguous when two clients listed before that ID
  bear it as their name (`Ctrl.ResolveSound` states exactly when; `Ctrl.ListedIdRefused` is such a
  listing).
* A signal that arrives after a miss ends the wait for the reset and disarms the device: the promise
  "wait for the system reset" holds until a signal (`Machine.ResetPending`), and the end state
  is that of `Machine.DeviceEndState`.

## Model

| member | source | states |
|---|---|---|
| Clock.AgeBracketsElapsed | src/wd-broker.c:816-820 | for ordered readings the age is non-negative and lies between the floor and the ceiling of the elapsed milliseconds, although the nanosecond part truncates toward zero on negative differences |
| Clock.AgeRounding | src/wd-broker.c:816-820 | the exact age: the elapsed milliseconds, rounded down when the nanosecond field has grown and up when it has gone down |
| Clock.MissedIff | src/wd-broker.c:1100-1101 | without a wrap, the exact nanosecond from which a client counts as missed |
| Clock.AgeMonotone | src/wd-broker.c:816-820 | a later reading never gives a smaller age |
| Clock.VerdictWithinOneMs | src/wd-broker.c:1100-1101 | a client is never missed while the elapsed time is at most its timeout and always once it reaches the timeout plus 1 ms |
| Clock.MissedIsExact | src/wd-broker.c:816-820 | the same for the 32-bit age that is really compared, while the elapsed time stays below 2^32 ms |
| Clock.AgeExactIff | src/wd-broker.c:816-820 | for ordered readings the narrowing to 32 bits is harmless exactly if the age is below 2^32 ms |
| Clock.WrapHidesMiss | src/wd-broker.c:816-820 | a client silent for exactly 2^32 ms passes the check whatever its timeout |
| Table.HexId | src/wd-broker.c:269-275 | an ID is sixteen lower-case hex digits |
| Table.HexIdInjective | src/wd-broker.c:269-275 | different random bytes give different IDs |
| Table.HexIdBytes | src/wd-broker.c:269-273 | each byte is read back from its two digits, high digit first |
| Table.MakeClientId | src/wd-broker.c:241-276 | the loop fills the 17-byte buffer with the hex text of the bytes and a NUL |
| Table.SelectMeetsDecisionTable | src/wd-broker.c:494-561 | for every table, name and mode a slot is handed out exactly when the commented decision table permits one; it is the first announced slot of that name if there is one, else the first free slot |
| Table.CountsPartition | src/wd-broker.c:1099 | free, announced and active slots add up to the table when no slot is both |
| Protocol.CheckName | src/wd-broker.c:632-637 | the loop accepts exactly the names of printable non-blank characters |
| Protocol.ParseRegister | src/wd-broker.c:608-637 | whatever the text, a REGISTER that gets past parsing has a name of 1 to 63 clean characters and a timeout from 5000 to 300000 |
| Protocol.ParseId | src/wd-broker.c:463-492 | whatever the text, an ID that gets past parsing is sixteen lower-case hex digits |
| Protocol.LowerId | src/wd-broker.c:481-491 | the loop fails exactly on a non-hex digit and else leaves the lower-cased ID in the caller's buffer |
| Protocol.Parse | src/wd-broker.c:599-813 | every request that the dispatch lets through is well formed |
| Wire.CLocale | src/wd-broker.c:633 | white space, printable characters and hex digits of the "C" locale |
| Wire.RegisterMeaning | src/wd-broker.c:607-637 | all texts after `REGISTER `: another form than name, number and optional `ignorepid` is a syntax error; of this form, the timeout is checked first, then the name, and the rest is accepted as written |
| Wire.UnsignedValue | src/wd-broker.c:608 | a number is kept modulo 2^32 up to 64 bits, negative ones included, and is 2^32 - 1 beyond |
| Wire.IdMeaning | src/wd-broker.c:463-492 | all texts after `PING ` and `UNREGISTER `: other than one word of at most 16 characters is a syntax error, a shorter one has the wrong length, 16 characters must be hex digits, and the ID has their value in lower case |
| Wire.RegisterCommand | src/wd-broker.c:599 | `REGISTER ` hands the rest to its argument |
| Wire.PingCommand | src/wd-broker.c:664-669 | `PING ` with a good ID is a PING of it, otherwise refused as the ID is |
| Wire.UnregisterCommand | src/wd-broker.c:687-692 | the same for `UNREGISTER ` |
| Wire.RebootMeaning | src/wd-broker.c:730-735 | `REBOOT` followed by blanks only is a REBOOT, by anything else a syntax error |
| Wire.StatusMeaning | src/wd-broker.c:748-757 | the same for `STATUS` |
| Wire.VersionMeaning | src/wd-broker.c:795-802 | the same for `VERSION` |
| Wire.PlainRequestsOnly | src/wd-broker.c:730-802 | no other text gives one of these three requests |
| Wire.OtherText | src/wd-broker.c:811-813 | text that starts with none of the six keywords is an unknown command |
| Wire.LongMessage | src/wd-broker.c:593-597 | at most 127 bytes are read, and an empty message is no input |
| Wire.RefusalText | src/wd-broker.c:588-812 | how each of the thirteen refusals reads |
| Wire.RefusalsDiffer | src/wd-broker.c:588-812 | different refusals read differently |
| Registry.SelectNone | src/wd-broker.c:517-561 | when no slot is found, the slot-free model must reject: the name is in use in unique mode, or it is not reserved and the mode is strict or the table full |
| Registry.SelectReserved | src/wd-broker.c:535-538 | an announced slot that is found is an admission the model allows, under that slot's ID |
| Registry.SelectFree | src/wd-broker.c:540-558 | a free slot that is found is an admission the model allows under a new ID: nothing was reserved, the mode is not strict, and there was room |
| Registry.RegisterEffect | src/wd-broker.c:639-657 | a REGISTER changes the ID-to-client map exactly as its reply tells an observer, and IDs stay distinct |
| Registry.PingRefines | src/wd-broker.c:664-685 | a PING gets the reply the model prescribes and moves that client's heartbeat only |
| Registry.UnregisterRefines | src/wd-broker.c:687-729 | an UNREGISTER gets the reply the model prescribes in all cases of mode, PID and root, and removes that client only |
| Registry.ExecRefines | src/wd-broker.c:579-814 | every command refines the slot-free reference model: allowed reply (a STATUS reply reports exactly the configuration and the current clients), and the new table stands for what the exchange tells |
| Registry.RoomIff | src/wd-broker.c:540-558 | with distinct IDs the map has room exactly when the array has a free slot |
| Registry.RegisteredIsAlive | src/wd-broker.c:640-658 | after any history, a registration not taken back is alive with its registered data, and its deadline runs from the last accepted REGISTER or PING |
| Registry.AnnouncedIsAlive | src/wd-broker.c:569-570 | after any history, an announced client neither registered nor unregistered is still supervised, from startup or the last accepted PING on its ID |
| Machine.InvInRun | src/wd-broker.c:1068-1136 | in every reachable state: no slot is both active and announced, occupied slots have valid IDs and timeouts in 5000..300000, active ones valid names; in unique mode all occupied slots, active and announced together, have distinct names; `reboot` implies not `running` |
| Machine.RegisterKeepsNamesDistinct | src/wd-broker.c:521-543 | a REGISTER in unique mode never creates a second occupied slot of a name, reserved names included |
| Machine.ReservationHonoured | src/wd-broker.c:517-561 | in every state the invariant allows and all four modes, a REGISTER with the name of a still-announced slot succeeds, in an announced slot of that name; in unique mode in exactly that slot |
| Machine.OnlyEntitledChange | src/wd-broker.c:563-577 | one command changes a PID-checked client's slot only if it is a PING or UNREGISTER of its own process or an UNREGISTER by root, and then it moves the heartbeat or frees the slot, nothing else |
| Machine.OwnedSlotKept | src/wd-broker.c:664-729 | over every run in which neither its own process nor root unregisters it, a PID-checked client's slot stays as it is but for the heartbeat, which is moved only by served PINGs of its own process, to the times at which they were accepted; no premise on IDs |
| Machine.StrictCommand | src/wd-broker.c:545-549 | in strict mode a slot only moves from announced to active to free; every accepted REGISTER or UNREGISTER lowers 2 * announced + active |
| Machine.StrictBudget | src/wd-broker.c:545-549 | in strict mode the occupied set never grows over any run, and accepted REGISTERs never exceed the number of `[client]` sections |
| Machine.StrictKeepsConfigured | src/wd-broker.c:694-728 | in strict mode without an UNREGISTER by root exactly the configured clients stay supervised, under their IDs and names |
| Machine.DeviceEndState | src/wd-broker.c:1155-1189 | in every run: `reboot` is set exactly if root asked for it; when main has returned the device is armed, at `reboot_timeout_s`, exactly if `reboot`, otherwise disarmed; while serving it is armed at `wd_timeout_s` |
| Machine.StoppedReturns | src/wd-broker.c:1155-1194 | the way out: from every reachable state in which the process is stopped it returns, and leaves the device armed, with the whole reboot timeout ahead, exactly if root asked for a REBOOT, and disarmed otherwise |
| Machine.SignalReturns | src/wd-broker.c:822-825 | a signal makes any serving process return, in the loop as well as while a reset is pending |
| Machine.EitherWayDisarms | src/wd-broker.c:1174-1187 | without a reboot the closing `V` and the disable call are both made, and either of them disarms the device alone |
| Machine.PassOutcome | src/wd-broker.c:1077-1135 | exactly what keeps `all_ok` through a pass: no failing select or accept, and no occupied slot that misses |
| Machine.LoopingIff | src/wd-broker.c:1068-1136 | exactly which runs stay in the main loop: no signal, no accepted REBOOT, no failing system call, every client in time at every check |
| Machine.AcceptFailureIsFinal | src/wd-broker.c:1089-1093 | after a failing accept the loop never runs again and, until a signal, nothing is written to the device, whatever the clients do |
| Machine.ResetPending | src/wd-broker.c:1138-1153 | after a miss with `running` still true no event but a signal changes anything, so nothing is written to the device |
| Machine.MissIsFinal | src/wd-broker.c:1112-1127 | once a miss is seen no later pass of any run writes the device |
| Supervision.RunRefinesModel | src/wd-broker.c:1068-1136 | along every run with fresh IDs the table stands for exactly the clients the history says are alive, and every reply in the history was allowed |
| Supervision.NotRegisteredTwice | src/wd-broker.c:647-650 | in a legal history the ID of a live registration is not given out again |
| Supervision.SlotsConserved | src/wd-broker.c:639-718 | over every run, active slots are the accepted REGISTERs minus the accepted UNREGISTERs of registered clients, announced slots are the configured ones minus those claimed or dropped, nothing becomes announced later, and free + announced + active is the table size |
| Supervision.VerdictsExact | src/wd-broker.c:1097-1116 | at every check the heartbeat precedes the reading, the 32-bit age has not wrapped, and the verdict is exact up to one millisecond |
| Supervision.TimeInvInRun | src/wd-broker.c:1068-1136 | in every reachable state with `all_ok`, each occupied slot was within its timeout at its last check, which is what excludes a wrap at the next |
| Supervision.FeedCertifiesEveryClient | src/wd-broker.c:1119-1131 | feed safety: at every write of the main loop, each client alive by the history was checked in that pass, no later than the write, less than timeout + 1 ms after its last accepted heartbeat |
| Supervision.FeedImpliesRecentHeartbeat | src/wd-broker.c:1119-1131 | the same on the trace: an accepted REGISTER not taken back is followed by an accepted REGISTER or PING recent enough |
| Supervision.FeedImpliesRecentAnnouncement | src/wd-broker.c:1099-1131 | the same for announced clients: startup or an accepted PING on their ID is recent enough |
| Supervision.MissIsReal | src/wd-broker.c:1077-1135 | no false alarm: a pass gives up only if accept or select failed or a client has been silent for longer than its timeout |
| Deadlines.DeadClientForcesReset | src/wd-broker.c:1097-1153 | in every run without REBOOT or signal, with the last heartbeat of a registered client at p, the device stays armed and fires by p + timeout + 1 ms + delay + `wd_timeout_s` (or `wd_timeout_s` after it was opened), where delay bounds check-to-write time in one pass |
| Deadlines.AbsentClientForcesReset | src/wd-broker.c:1097-1153 | the same bound for an announced client that never registers |
| Deadlines.PassKeepsCadence | src/wd-broker.c:1069-1131 | a prompt pass after which the loop goes on writes the device if the timer has expired and leaves the state from which the next pass is in time |
| Deadlines.HealthyRunLoops | src/wd-broker.c:1068-1136 | while every check falls within its client's timeout, system calls succeed and nobody stops the broker, the loop goes on |
| Deadlines.SlackForEveryTimeout | src/wd-broker.c:918-919 | the feed interval is half the watchdog timeout, rounded down, which leaves slack for every timeout the file accepts if a pass adds less than two seconds to the read |
| Deadlines.NoFalseReset | src/wd-broker.c:914-922 | for every configured timeout, while every check falls within its client's timeout, system calls succeed, nobody stops the broker and passes are prompt, the loop goes on and the device does not fire; an expiry is served within 2 * (500 + e) ms and consecutive writes are less than `wd_timeout_s` apart, even if expiries coalesce or passes are interrupted |
| Deadlines.AcceptFailureStarves | src/wd-broker.c:1089-1093 | without "system calls succeed" this is false: one failing accept on a broker without any client lets the device fire `wd_timeout_s` after it was opened |
| Broker.ReadId | src/wd-broker.c:463-492 | the imperative parse of an ID, buffer and all, is the parsing function |
| Broker.ReadRegister | src/wd-broker.c:599-637 | the imperative parse of REGISTER, with its checks in source order, is the parsing function |
| Broker.ReadRequest | src/wd-broker.c:593-813 | reading a message of any length classifies it as the parsing function does |
| Broker.Broker.constructor | src/wd-broker.c:986-1063 | the process starts in the start state of the state machine on the configured table |
| Broker.Broker.FindByName | src/wd-broker.c:517-561 | the two scans over the array return the slot of the decision table, or -1 |
| Broker.Broker.FindById | src/wd-broker.c:563-577 | the scan returns the first occupied slot with the ID and whether the PID is accepted |
| Broker.Broker.BuildStatus | src/wd-broker.c:765-790 | the message assembled line by line is the header followed by one row per occupied slot in table order |
| Broker.Broker.DoRegister | src/wd-broker.c:639-662 | updates the array in place to the state the command function prescribes, with its reply |
| Broker.Broker.DoPing | src/wd-broker.c:671-685 | the same for PING |
| Broker.Broker.DoUnregister | src/wd-broker.c:694-729 | the same for UNREGISTER |
| Broker.Broker.DoReboot | src/wd-broker.c:730-746 | clears `running` and sets `reboot` exactly for root, and leaves the table alone |
| Broker.Broker.DoStatus | src/wd-broker.c:748-794 | the table is reported to a peer with UID 0 or PID 0 only, and the text is the rendered reply |
| Broker.Broker.HandleCommand | src/wd-broker.c:579-814 | one message of any text: new table, flags, history and the text written back are those of the state machine |
| Broker.Broker.ServeConnection | src/wd-broker.c:1084-1094 | what is written to the peer in every outcome of accept, credentials and read, and the state after it |
| Broker.Broker.CheckClients | src/wd-broker.c:1096-1117 | the scan with its early exit clears `all_ok` exactly when some occupied slot has missed |
| Broker.Broker.FeedIfDue | src/wd-broker.c:1118-1131 | the device is written exactly if the timer expired, all is well and the device is open; a failed read or write ends the process |
| Broker.Broker.OnePass | src/wd-broker.c:1069-1135 | one iteration of the loop is one pass of the state machine |
| Broker.Broker.Shutdown | src/wd-broker.c:1155-1189 | the calls made on the device on the way out |
| Broker.Broker.Serve | src/wd-broker.c:1064-1195 | the whole process from its loop on is the run of the state machine |
| ConfigFile.StripCuts | src/wd-broker.c:191-206 | trimming removes white space only, and only at the two ends |
| ConfigFile.Trim | src/wd-broker.c:191-206 | the in-place trim leaves the stripped text at the returned position of the buffer |
| ConfigFile.ReadLine | src/wd-broker.c:311-401 | one line, with its three trims and two formats in order, means what the classification says |
| ConfigFile.SectionLinesSound | src/wd-broker.c:383-384 | the sections of a file are exactly its section lines, in file order |
| ConfigFile.FoldReflects | src/wd-broker.c:310-406 | after any accepted lines, slot k is what section k says (name, fresh ID, last `timeout_ms` of the section or five minutes), the rest of the table is zero, and each setting is the last value given |
| ConfigFile.FoldAcceptsIff | src/wd-broker.c:310-406 | the lines are accepted exactly if none is bad, every `timeout_ms` stands in a section and is in range, and the sections fit the table |
| ConfigFile.AcceptedConfig | src/wd-broker.c:282-435 | exactly which files are accepted, with the final strict and unique checks wherever those keys stand, and what they leave behind |
| ConfigFile.HasDuplicates | src/wd-broker.c:421-432 | the quadratic check finds a duplicate announced name exactly if there is one |
| ConfigFile.Apply | src/wd-broker.c:324-400 | one directive updates settings and array in place as the fold does |
| ConfigFile.ReadLines | src/wd-broker.c:298-406 | the line loop, updating settings and array in place, is in the state of the fold after every line, or left with its complaint |
| ConfigFile.FinalChecks | src/wd-broker.c:408-432 | the checks after the last line complain exactly as the declarative conclusion does |
| ConfigFile.ParseConfig | src/wd-broker.c:282-435 | the in-place reading of the whole file yields the settings, the array and the complaint of the fold, too many sections noticed before an overlong section line |
| ConfigFile.AcceptedFileStarts | src/wd-broker.c:326-432 | every accepted file yields a table from which all results about runs start, with every numeric setting in range |
| ConfigFile.SettingRoundTrip | src/wd-broker.c:319-322 | a setting written as key=value is read back as that key and value |
| ConfigText.CoreIsStrip | src/wd-broker.c:191-206 | trimming finds the one part of a line that white space surrounds and does not bound |
| ConfigText.StrictLine | src/wd-broker.c:342-350 | a `strict_clients` line sets strict mode on or off, and another value is complained of as such |
| ConfigText.UniqueLine | src/wd-broker.c:351-359 | the same for `unique_clients` and unique mode |
| ConfigText.WdTimeoutNumber | src/wd-broker.c:326-333 | of all 32-bit numbers exactly 10 to 60 are accepted as `wd_timeout_s`, as written |
| ConfigText.RebootTimeoutNumber | src/wd-broker.c:334-341 | of all 32-bit numbers exactly 10 to 300 are accepted as `reboot_timeout_s`, as written |
| ConfigText.ClientTimeoutNumber | src/wd-broker.c:360-373 | of all 32-bit numbers, negative ones included, exactly 5000 to 300000 are a valid `timeout_ms`, as written |
| ConfigText.SocketPathLine | src/wd-broker.c:324-325 | a `socket_path` line sets the path, cut to 107 characters |
| ConfigText.OtherKeyLine | src/wd-broker.c:374-378 | every other key is unknown |
| ConfigText.AtoiMeaning | src/wd-broker.c:327 | the number at the start of a value counts whatever follows it, and without one it is 0 |
| ConfigText.WrappedTimeoutAccepted | src/wd-broker.c:327-333 | a number beyond 32 bits passes the range check by what is left of it |
| ConfigText.SilentIff | src/wd-broker.c:314-317 | exactly blank lines and lines starting with `#` say nothing |
| ConfigText.SectionMeaning | src/wd-broker.c:382-405 | of the other lines, exactly those that open with `[client` and a name open a section, unless more than two characters besides stand on them; the rest is invalid |
| ConfigText.LastTimeoutCounts | src/wd-broker.c:360-373 | the last `timeout_ms` of a section counts |
| ConfigText.DefaultTimeout | src/wd-broker.c:394-396 | a section without one has five minutes |
| ConfigText.FirstComplaint | src/wd-broker.c:360-405 | the first line that does not fit decides the complaint, and which one it is |
| ConfigText.ClosingComplaint | src/wd-broker.c:408-432 | when every line fits, exactly when the file is refused, and as what |
| ConfigFile.ServiceUserRefused | src/wd-broker.c:374-377 | the documented option `service_user` is refused as an unknown key |
| ConfigFile.AnnouncedNameShape | src/wd-broker.c:383-393 | an announced name has 1 to 63 characters, no newline, and does not start with a blank, whatever the line |
| ConfigFile.UnclosedSectionAccepted | src/wd-broker.c:383-393 | a section line without its `]` says the same |
| ConfigFile.SectionRoundTripIff | src/wd-broker.c:319-401 | a documented announced name is read back exactly if it does not start with a blank and has no `=` among its first 56 characters |
| Client.Find | src/wd-client.c:102-103 | the first occurrence of a piece of text, or none |
| Client.WdClient.Register | src/wd-client.c:121-177 | what is sent, what is returned and what is stored as the client ID in every outcome of the two connections |
| Client.WdClient.Send | src/wd-client.c:179-268 | the same for PING and UNREGISTER, which store nothing |
| Client.RegisterRoundTrip | src/wd-client.c:145-147 | for every valid name, timeout and flag the printed line fits both 128-byte buffers and the broker recovers exactly these three values |
| Client.IdRoundTrip | src/wd-broker.c:463-492 | an ID followed by a newline is read back as itself |
| Client.PingRoundTrip | src/wd-client.c:192-193 | the printed PING is parsed as a PING of that ID |
| Client.UnregisterRoundTrip | src/wd-client.c:238-239 | the printed UNREGISTER is parsed as an UNREGISTER of that ID |
| Client.ReplyIdRoundTrip | src/wd-client.c:166-168 | the 16-byte copy of the broker's OK reply is the ID the broker stored |
| Client.VersionAccepted | src/wd-client.c:102-118 | the broker's VERSION reply passes the client's version check |
| Client.ForeignVersion | src/wd-client.c:109-115 | a broker of another protocol version is refused with the version code, one that starts with the same version accepted |
| Client.NoVersion | src/wd-client.c:95-108 | a reply without a version, and no reply, is an error |
| Client.RefusalIsError | src/wd-client.c:166-176 | every refusal of the broker is an error to REGISTER, PING and UNREGISTER, and no refusal is taken for a clientID |
| Client.CodesTell | src/wd-client.c:200-222 | success exactly on a reply that starts as expected; timeout, failed write, failed read, failed connection and refusal have their codes |
| Ctrl.SplitReply | src/wd-ctrl.c:171-175 | the `strtok_r` loop yields the first lines of the reply up to its limit |
| Ctrl.RowReading | src/wd-ctrl.c:212 | what the row scan makes of the row of any slot a reachable table can hold |
| Ctrl.RowRoundTripIff | src/wd-ctrl.c:212 | a printed row is scanned back to the slot's ID, PID, name and timeout exactly if the name holds no white space; it is taken for another client exactly if what follows the first word reads as a number or is blank; otherwise it is dropped |
| Ctrl.TwoWordsDropped | src/wd-ctrl.c:212 | a name of two words, the second of which is no number, makes a row that is dropped |
| Ctrl.StatusFits | src/wd-broker.c:751-790 | the STATUS reply fits its 4096 bytes whenever at most 39 clients are registered or announced |
| Ctrl.NumberedNameDeceives | src/wd-ctrl.c:212 | a word followed by a blank and a number is a name that reads as that word |
| Ctrl.HeaderUnbroken | src/wd-broker.c:765-783 | each of the seven header lines is one unbroken short piece of text |
| Ctrl.WdTimeoutTold | src/wd-broker.c:769-770 | `wd-ctrl status` reads the watchdog timeout back under its name |
| Ctrl.RebootTimeoutTold | src/wd-broker.c:771-772 | the same for the reboot timeout |
| Ctrl.StrictTold | src/wd-broker.c:773-774 | the same for strict mode |
| Ctrl.UniqueTold | src/wd-broker.c:775-776 | the same for unique mode |
| Ctrl.ActiveTold | src/wd-broker.c:777-783 | the same for the number of active clients |
| Ctrl.FlagTold | src/wd-ctrl.c:57-58 | a row of a name without white space shows the PID check as on exactly if it is on |
| Ctrl.UnbrokenLineIsNoRow | src/wd-ctrl.c:212 | an unbroken piece of at most 79 characters is never taken for a client row |
| Ctrl.StatusRows | src/wd-ctrl.c:171-212 | splitting the STATUS reply and scanning its lines drops all seven header lines, and the line limit loses no row |
| Ctrl.StatusRoundTripIff | src/wd-ctrl.c:171-212 | the listing is exactly the occupied slots in table order if and only if no occupied slot's name holds white space |
| Ctrl.RebootReplyRoundTrip | src/wd-ctrl.c:177-182 | the seconds read from the REBOOT reply are those the broker sent |
| Ctrl.ResolveTarget | src/wd-ctrl.c:203-229 | the loop with its early exit computes the resolution function on the scanned rows |
| Ctrl.ResolveSound | src/wd-ctrl.c:208-229 | the resolution, completely: the ambiguity error exactly when two rows bear the argument as name before any row bears it as ID; unknown exactly when it is neither ID nor name; else the argument itself if it is a listed ID, and otherwise the ID of the only client of that name |
| Ctrl.ListedIdRefused | src/wd-ctrl.c:225-226 | a listing on which a listed ID is refused as ambiguous |
| CtrlUnregister.Mirrored | src/wd-ctrl.c:208-212 | the listing holds one row for every slot whose row is read, in table order, under its ID and the first word of its name |
| CtrlUnregister.ResolutionOfId | src/wd-ctrl.c:208-226 | in terms of the broker's table: the ambiguity error exactly when two rows are read with the name x before any is read with the ID x; a read ID without that doubt is sent |
| CtrlUnregister.ResolutionOfWord | src/wd-ctrl.c:217-229 | if no row is read with the ID x, an UNREGISTER is sent exactly if one row alone is read with the name x, and for that slot |
| CtrlUnregister.RootUnregisterFrees | src/wd-broker.c:694-718 | root's printed UNREGISTER frees exactly the slot with that ID |
| CtrlUnregister.CtrlUnregistersExactlyOne | src/wd-ctrl.c:202-232 | from STATUS reply to table: if `wd-ctrl unregister x` sends anything, the broker frees exactly one slot, and that is the client x denotes (its clientID, or failing that its name alone) if and only if the row of the client with the ID x is read, or, x being no ID, somebody is named x |
| CtrlUnregister.CleanNamesAreSafe | src/wd-ctrl.c:202-232 | with names free of white space that condition holds whenever anything is sent |
| CtrlUnregister.UnregisterByIdIff | src/wd-ctrl.c:208-232 | a client can be unregistered by its clientID exactly if its row is read and the listing leaves no doubt about that ID |
| CtrlUnregister.UnregisterByNameIff | src/wd-ctrl.c:208-232 | a client can be unregistered by its name, that being no clientID, exactly if the name holds no white space and no other row is read with it |
| CtrlUnregister.DeceptiveNameMisleads | src/wd-ctrl.c:202-232 | a deceptive name misleads: if its first word is no ID and no other row is read with it as name, `wd-ctrl unregister` of that word frees the client with the deceptive name, although nobody is named so |
| CtrlUnregister.HiddenIdMisleads | src/wd-ctrl.c:202-232 | a dropped row misleads: if its client has the ID x and one row alone is read with the name x, `wd-ctrl unregister x` frees that other client and leaves the one with the ID x |
| CtrlUnregister.HiddenIdExample | src/wd-ctrl.c:202-232 | a table of two clients on which this happens, for every name whose row is dropped |
| CtrlUnregister.DeceptiveSection | src/wd-broker.c:383-401 | the section `[client a 7 x]` is accepted, and its name is deceptive with first word `a` |
| EndToEnd.PingFindsClient | src/wd-broker.c:563-577 | in every run, a client registered and not unregistered is found by its ID in an active slot that accepts its process |
| EndToEnd.RegisterThenPing | src/wd-client.c:166-193 | register-then-ping across both programs and any run in between: the copied and reprinted ID is the stored one, the ping is answered OK, moves exactly that slot's heartbeat, and the client sees success |
| EndToEnd.VersionHandshake | src/wd-client.c:89-118 | the client's version request is answered to anybody, changes nothing, and the answer is accepted |
| EndToEnd.RebootHandshake | src/wd-ctrl.c:177-182 | root's REBOOT text stops the broker, and the seconds shown are the configured ones |
| EndToEnd.StatusHandshake | src/wd-ctrl.c:167-175 | root's STATUS text is answered with the report on the current table |
| EndToEnd.ReservedClientRegisters | src/wd-client.c:145-147 | in every run a client whose valid name is still reserved is let in by the text it prints |
| EndToEnd.RegistrableIff | src/wd-broker.c:608-637 | some message registers a name exactly if it is printable, blank-free and 1 to 63 characters long |
| EndToEnd.BlankNameNeverRegisters | src/wd-broker.c:383-401 | an announced name with a blank inside is accepted by the file and carried by no REGISTER |
| EndToEnd.StrictFeedCertifiesConfigured | src/wd-broker.c:1097-1131 | in strict mode without an UNREGISTER by root every feed certifies every configured client |
| EndToEnd.WdBroker | src/wd-broker.c:912-1195 | the complete process: the configuration is refused with the complaint of the fold, or the broker ends in the run of the state machine from the configured table, and all premises on the start hold |

## Left out

- Sockets, file permissions, dropping of privileges, forking, logging and option parsing: system calls without a property of their own.
- Probing for a stale socket at startup, boot status, help texts, and how `wd-ctrl status` prints its table: input and output only.
- The source of the random bytes (`/dev/urandom`, `random()`): the bytes are a parameter, see the premises.
- STATUS replies over 4095 bytes, which need more than 39 clients: `snprintf` truncation makes the offset run past the buffer; the model covers replies that fit.
- NUL bytes inside a message or a line, and bytes above 127 in `isprint` and `isspace`: text is taken up to the first NUL and in the "C" locale.
- Lines of the configuration file over 255 bytes, which `fgets` delivers in pieces: the lines are taken as read.
- Binding and connecting to `socket_path`, of which the model keeps the 107 characters the source keeps.
- Failing device calls on the shutdown path, which are logged or fatal: the end state is proved for calls that succeed.
- The kernel's behaviour when the process dies with the device open: a failed timer read or device write ends the model's run with the device armed.
- The client's socket path and status text, and the version text stored with an incompatible version: no effect on the protocol.
- Time between the STATUS and the UNREGISTER of `wd-ctrl`: the end-to-end result is for an unchanged table.
- The buffer that `strtok_r` cuts in place: the tokens are values, so their aliasing of the buffer is not captured.
- Clock.MissedIsExact: stated for ages below 2^32 ms, beyond which the verdict wraps (`Clock.WrapHidesMiss`); that no reachable check is beyond is `Supervision.VerdictsExact`.
- Machine.ReservationHonoured: outside unique mode it is the first announced slot of the name that is given out, not necessarily the one asked about, because the code prefers the lowest index.
- EndToEnd.RegisterThenPing: the broker must still be serving when the ping arrives; the result is about the command it then executes.
