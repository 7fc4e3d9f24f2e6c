# NuggetNuclear/CIT-2010 in Dafny

A model of the sequential logic of three operating-systems assignments, with
proofs of what that logic promises.

- **T1, a chat relay over named pipes.**
  - The broker (`central`) decodes `[<pid>]-<body>` envelopes from a shared inbound channel.
  - It opens a delivery channel for each new sender.
  - It rebroadcasts chat to every other registered peer and acknowledges the sender.
  - It forwards `reportar <n>` commands to the moderator.
  - The moderator counts reports per target pid and kills a target at the tenth report, then forgets it.
  - The client frames what the user types and interprets `/leave`, `/share` and `/report <pid>`.
  - Modules: `Decimal` (`std::stoi`, `std::stol`, `std::to_string`), `Lines` (the `find('\n')` line split), `Central`, `Moderator`, `Client`, and `Relay` (properties that span two programs).
- **T3, a paging simulator (`Paging`).**
  - `Simulador` keeps a RAM and a SWAP frame table, the process table, a page-fault counter and a logical clock.
  - Creating a process places its pages first-fit, RAM first, and rolls back when both tables are full.
  - Finishing a process frees its frames.
  - An access either hits or faults. A fault brings the page into RAM and, when RAM is full, swaps out the least recently used page.
  - The invariant `Simulador.Valid` holds across every operation. It says every page record names the one frame that holds that page, and every occupied frame holds a page whose record names that frame.
- **T2, heroes against monsters (`Config`, `Game`).**
  - `Config` models `leerConfig` over a token sequence (`Tok`): the keyword loop, the HERO and MONSTER records and the PATH lists. It also models the game types and bounds of `config.h`.
  - `Game` models the helpers of `main.c` (distance, counting active heroes, end-of-game detection, alerting) and one locked iteration of each thread loop.
  - A thread iteration is `TickHeroe` or `TickMonstruo`. Each is a method on the game's arrays, proved equal to a function (`HeroTick`, `MonsterTick`) whose own contract states the game rules.

In the source, functions that compute a value become Dafny functions. Code that
updates state in place becomes methods on classes (`Central.Broker`,
`Moderator.Moderator`, `Paging.Simulador`, `Config.GameConfig`) or on their
arrays. Each such method's `ensures` ties the new state to a specification
function, and lemmas state the properties of that function.

The environment is passed in as parameters:
- the outcome of every write, and the descriptor an `open` returns;
- the wall-clock stamp;
- the iteration order of an `unordered_map`;
- the random choices of the simulator;
- the line the user typed.

Writes and kills are recorded as events instead of being performed.

## Model

| member | source | states |
|---|---|---|
| Decimal.DigitChar | T1/src/central.cpp:33 | the digit character of a value below ten is a digit that reads back as that value |
| Decimal.SkipSpace | T1/src/central.cpp:67 | the leading-whitespace skip of `stoi` stops at the first non-space character and skips only spaces |
| Decimal.SkipDigits | T1/src/central.cpp:67 | the digit run that `stoi` consumes is maximal: all digits, followed by a non-digit or the end |
| Decimal.StrToIntStops | T1/src/central.cpp:66-69 | a successful conversion consumes at least one digit, and stops right after a digit at a non-digit or the end |
| Decimal.Stoi | T1/src/central.cpp:67 | `stoi` succeeds only within the 32-bit range, and exactly when the unbounded conversion does and fits; it then agrees with it (out of range means the exception) |
| Decimal.Stol | T1/src/central.cpp:172 | the same for `stol` over the 64-bit `long` range |
| Decimal.NatToString | T1/src/central.cpp:33 | `to_string` of a natural number is a non-empty digit string without a leading zero |
| Decimal.ToString | T1/src/client.cpp:71 | `to_string` of any integer is non-empty |
| Decimal.NatToStringValue | T1/src/central.cpp:33 | the digits printed for n read back as n |
| Decimal.ToStringParses | T1/src/central.cpp:67 | a converter reading `to_string(n)` followed by a non-digit reads back n and consumes exactly the printed digits |
| Decimal.StoiToString | T1/src/central.cpp:64-74 | `stoi(to_string(n))` returns n with every character consumed, for every 32-bit n |
| Decimal.StolToString | T1/src/moderator.cpp:56 | `stol(to_string(n) + rest)` returns n for every 64-bit n when rest starts with a non-digit |
| Decimal.ToStringInjective | T1/src/central.cpp:33 | different integers print differently |
| Lines.Find | T1/src/central.cpp:228 | `find(c, from)` returns the first position at or after `from` that holds c, or -1 when none does |
| Lines.SplitLinesJoin | T1/src/central.cpp:227-235 | the complete lines joined with `\n`, plus the unterminated rest, give back the input; no line and no rest contains `\n` |
| Lines.SplitLinesUnique | T1/src/central.cpp:227-235 | any decomposition into newline-free lines and a newline-free rest is the one the scan produces |
| Lines.SplitLinesAppend | T1/src/moderator.cpp:45-53 | splitting a + b equals splitting a, then splitting a's rest followed by b |
| Lines.JoinAppend | T1/src/central.cpp:227-235 | joining concatenated line lists concatenates the joins |
| Lines.LinesFromSuffix | T1/src/central.cpp:227-235 | the lines the loop still yields from `pos` are the lines of the suffix at `pos` |
| Lines.RestFromSuffix | T1/src/moderator.cpp:75 | the text the loop leaves after `pos` is the rest of the suffix at `pos` |
| Central.PidField | T1/src/central.cpp:62-77 | the bracket interior is accepted exactly when `stoi` consumes all of it and the value is positive, and the pid is that value |
| Central.ParseMessage | T1/src/central.cpp:55-87 | an accepted envelope has a pid in 1..INT_MAX and a body shorter than the line |
| Central.ParseMessageMeaning | T1/src/central.cpp:55-87 | `parseMessage` accepts exactly the lines framed as the first `[`, the next `]` not adjacent to it, a fully consumed positive pid, then a `-` after the `]`; the body is everything after that `-` |
| Central.ParseMessageFramed | T1/src/central.cpp:56-85 | an accepted line is framed at the positions the three `find` calls return |
| Central.ParseMessageAccepts | T1/src/central.cpp:56-82 | acceptance implies the `[`, a non-adjacent `]`, a valid pid and a later `-` are all found |
| Central.FramedParses | T1/src/central.cpp:55-87 | every framing of a line is the result `parseMessage` returns |
| Central.FramedFound | T1/src/central.cpp:56-85 | a framing sits at the positions the three `find` calls return |
| Central.ParseMessageNeedsBracket | T1/src/central.cpp:56-57 | a line without `[` is rejected |
| Central.ParseMessageRejectsPartialPid | T1/src/central.cpp:62-71 | a bracket interior that `stoi` rejects or does not fully consume rejects the line |
| Central.ParseMessageEnvelope | T1/src/central.cpp:79-85 | `[pid]` + any text without `-` + `-` + body decodes to (pid, body), so the `-` need not follow the `]` directly |
| Central.DeliveryPath | T1/src/central.cpp:33 | `getO2cPathFor` names the channel with the prefix `/tmp/orch_o2c_` and the suffix `.fifo`, with something between them; DeliveryPathInjective states that the middle tells pids apart |
| Central.DeliveryPathInjective | T1/src/central.cpp:33 | different pids get different delivery channel paths |
| Central.ReportRequest | T1/src/central.cpp:165-185 | a message is a report exactly when it starts with `reportar `; it is forwarded only when `stol` reads a target above zero, and ignored otherwise |
| Central.VisitedStep | T1/src/central.cpp:106-119 | visiting one entry removes it exactly when it is not the sender and its write fails |
| Central.VisitedAll | T1/src/central.cpp:106-119 | once every key has been visited, the registry is the survivors of the broadcast |
| Central.VisitedNone | T1/src/central.cpp:106 | before the loop the registry is unchanged |
| Central.LineRejected | T1/src/central.cpp:192-195 | a line that does not decode appends no write and leaves the registry alone |
| Central.DeliveriesTargets | T1/src/central.cpp:103-120 | every delivery goes to a registered pid other than the sender; every such pid in the visit order gets one; no pid gets two when the order has no repeats |
| Central.BroadcastReaches | T1/src/central.cpp:103-120 | a broadcast writes exactly once to each registered pid except the sender; the entries kept are the sender's and those whose write succeeded, each with its old descriptor |
| Central.InvalidLineIgnored | T1/src/central.cpp:192-195 | an undecodable line causes no registration, no broadcast and no ack |
| Central.NewSender | T1/src/central.cpp:197-207 | an unseen sender whose channel opens gets the welcome as the line's first write; if the open fails, it is not registered and nothing is addressed to it |
| Central.ReportNotBroadcast | T1/src/central.cpp:165-185 | a report is never broadcast; a report line is written exactly when the target is positive and the moderator channel is open; the ack to a registered sender is the last write; the registry gains no pid other than the sender |
| Central.ChatAckedLast | T1/src/central.cpp:90-101 | a chat line's last write is the ack to a registered sender, and the sender stays registered exactly when the ack succeeds |
| Central.TrailingBytesDropped | T1/src/central.cpp:220-236 | bytes after the last `\n` of a chunk never become a line |
| Central.Broker.SendAck | T1/src/central.cpp:90-101 | an unregistered sender gets nothing; otherwise one ack is written, and the entry is erased when that write fails |
| Central.Broker.Broadcast | T1/src/central.cpp:103-120 | the registry becomes the survivors, and the writes are the deliveries in map order (`BroadcastReaches` states what those are) |
| Central.Broker.HandleReportIfAny | T1/src/central.cpp:165-185 | returns true exactly for `reportar ` messages and writes the report line only for a forwarded target |
| Central.Broker.ProcessLine | T1/src/central.cpp:188-218 | the registry and the write trace evolve as `LineMap`/`LineEvents` (properties above) |
| Central.Broker.ProcessChunk | T1/src/central.cpp:220-236 | a chunk is processed as its complete lines in order; an empty or failed read changes nothing |
| Moderator.Wrap32 | T1/src/moderator.cpp:56 | the cast to `pid_t` yields a 32-bit value congruent to its input modulo 2^32, and leaves 32-bit values unchanged |
| Moderator.ReportTarget | T1/src/moderator.cpp:55-56 | a line names a target exactly when `stol` accepts it, and the target is a 32-bit pid |
| Moderator.Feed | T1/src/moderator.cpp:44-76 | after a read, the carry is a newline-free suffix of the old carry plus the chunk |
| Moderator.CountIncrements | T1/src/moderator.cpp:56-59 | a valid report below the threshold raises its target's count by exactly one, an absent entry counting as 0, and kills no one |
| Moderator.CountKills | T1/src/moderator.cpp:61-68 | the report that brings a count to 10 issues one kill for that target and erases its entry |
| Moderator.CountOthers | T1/src/moderator.cpp:57-67 | the counts of every other pid are unchanged |
| Moderator.CountRejected | T1/src/moderator.cpp:55-72 | a line `stol` rejects changes nothing |
| Moderator.CountInRange | T1/src/moderator.cpp:57-68 | after each line every stored count is in 1..9 |
| Moderator.CountKillsGrow | T1/src/moderator.cpp:61-68 | a line issues at most one kill and never retracts one |
| Moderator.CountAllInRange | T1/src/moderator.cpp:48-73 | every stored count stays in 1..9 over any sequence of lines |
| Moderator.CountAllAppend | T1/src/moderator.cpp:48-73 | counting xs then ys equals counting xs + ys |
| Moderator.RepeatedReports | T1/src/moderator.cpp:56-59 | n < 10 reports against a fresh pid leave its count at n and issue no kill |
| Moderator.TenthReport | T1/src/moderator.cpp:57-68 | nine reports leave count 9 and no kill; the tenth issues one kill and leaves the pid absent |
| Moderator.FeedChunks | T1/src/moderator.cpp:45-75 | reading a then b gives the same counts, kills and carry as reading a + b at once |
| Moderator.FeedPartial | T1/src/moderator.cpp:45-75 | a read without a complete line only extends the carry |
| Moderator.FeedInRange | T1/src/moderator.cpp:44-76 | a read keeps every stored count in 1..9 |
| Moderator.Moderator.CountLine | T1/src/moderator.cpp:55-72 | the map update of one line is `Count` |
| Moderator.Moderator.OnRead | T1/src/moderator.cpp:41-87 | a read of n > 0 bytes is `Feed` of those bytes; a zero-length or failed read leaves the counts and the carry unchanged |
| Client.StartsWith | T1/src/client.cpp:95-98 | false when the string is shorter than the prefix |
| Client.StartsWithMeaning | T1/src/client.cpp:95-98 | true exactly when the prefix is a prefix of the string |
| Client.DropLeading | T1/src/client.cpp:104 | the result does not start with whitespace |
| Client.DropTrailing | T1/src/client.cpp:105 | the result does not end with whitespace |
| Client.Trim | T1/src/client.cpp:100-107 | the two index loops compute `Trimmed` |
| Client.TrimmedShape | T1/src/client.cpp:100-107 | the trimmed text is a contiguous slice of the input with only whitespace cut on each side |
| Client.TrimmedEnds | T1/src/client.cpp:100-107 | the trimmed text is empty or begins and ends with non-whitespace |
| Client.TrimmedIdempotent | T1/src/client.cpp:100-107 | trimming twice equals trimming once |
| Client.TrimmedPadded | T1/src/client.cpp:100-107 | trimming whitespace + text + whitespace gives the text back when the text has non-space ends |
| Client.Payload | T1/src/client.cpp:81 | an envelope starts with `[` and ends with `\n` |
| Client.HelloLine | T1/src/client.cpp:70-73 | the connect line starts with `[` and ends with `]-Proceso conectado` and the newline; NoticesArrive states that the broker decodes it to the client's pid |
| Client.ByeLine | T1/src/client.cpp:75-78 | the disconnect line starts with `[` and ends with `]-Proceso desconectado` and the newline; NoticesArrive states that the broker decodes it to the client's pid |
| Client.PayloadInjective | T1/src/client.cpp:71-81 | different (pid, text) pairs give different envelopes |
| Client.PayloadBody | T1/src/client.cpp:81 | the text sits between `]-` and the final newline |
| Client.ReportArgumentMeaning | T1/src/client.cpp:158-163 | `/report` accepts its argument exactly when `stol` of the trimmed argument succeeds with a value above zero, and the target is that value |
| Client.ReportArgumentOf | T1/src/client.cpp:158-165 | `/report` followed by padded digits of a positive n targets n |
| Client.HandleUserInput | T1/src/client.cpp:131-175 | end of input or `/leave` sends the disconnect notice and stops; `/share` spawns and continues, checked before `/report`; `/report` sends `reportar <n>` or prints usage and continues; anything else is sent verbatim and the loop goes on exactly when the write succeeds |
| Relay.ChatArrives | T1/src/client.cpp:81 | a client's chat envelope is one line for the broker, and it decodes to the client's pid and text |
| Relay.NoticesArrive | T1/src/client.cpp:70-78 | the connect and disconnect lines each arrive at the broker as one complete line that decodes to the client's pid and the notice |
| Relay.ChatLineAlone | T1/src/central.cpp:227-235 | a chat envelope with a newline-free text is exactly one complete line |
| Relay.ChatLineParses | T1/src/central.cpp:55-87 | `parseMessage("[" + pid + "]-" + body)` is (pid, body) for every pid > 0 |
| Relay.OneLine | T1/src/client.cpp:81 | an envelope with digits and a newline-free text contains no newline |
| Relay.SingleLine | T1/src/central.cpp:227-235 | a newline-free text followed by `\n` splits as that single line |
| Relay.ReportForwarded | T1/src/client.cpp:164 | the client's report body is the broker's report key, and the broker forwards the target the client sent |
| Relay.ReportCounted | T1/src/central.cpp:175 | the report line the broker writes is one line, and the moderator reads back the target from it |
| Relay.ReportLineAlone | T1/src/central.cpp:175 | a report line is exactly one complete line |
| Relay.ReportTargetWraps | T1/src/moderator.cpp:56 | targets 2^32 - 1 and 2^32 pass the broker, and the moderator counts them against pids -1 and 0 |
| Paging.PageCount | T3/src/main.cpp:45-51 | the page count is the size in KB divided by the page size, rounded up |
| Paging.FreeFrom | T3/src/main.cpp:409-419 | the scan from i returns the first free frame at or after i, or -1 when all are taken |
| Paging.FirstFree | T3/src/main.cpp:409-419 | the lowest free frame, or -1 exactly when every frame is occupied |
| Paging.BuscarMarcoLibre | T3/src/main.cpp:409-419 | the loop returns `FirstFree` |
| Paging.LruUpTo | T3/src/main.cpp:427-434 | among the first n frames, the occupied one with the smallest `ultimoAcceso`, earliest on ties; -1 when none is occupied |
| Paging.Lru | T3/src/main.cpp:421-437 | the victim is an occupied frame with the smallest `ultimoAcceso`, earliest on ties; -1 exactly when RAM is empty |
| Paging.OldestUnique | T3/src/main.cpp:421-437 | the victim is unique |
| Paging.PlacePageWhere | T3/src/main.cpp:145-164 | a page goes to the lowest free RAM frame, else the lowest free SWAP frame; placement fails exactly when both are full |
| Paging.PlacePageKeeps | T3/src/main.cpp:142-164 | placing a page adds only its record, with access time 0, and fills exactly one free frame with it: the frame its record names, in the table its record names |
| Paging.PlacePageConsistent | T3/src/main.cpp:145-164 | placing a new page keeps frames and page records in agreement |
| Paging.PlaceAllKeeps | T3/src/main.cpp:140-188 | placing a process adds exactly its n page records, changes no other record, and fills only free frames, with its own pages |
| Paging.PlaceAllConsistent | T3/src/main.cpp:140-188 | placing all of a process's pages keeps the tables consistent |
| Paging.PlaceAllStuck | T3/src/main.cpp:157-186 | once one page finds no frame, creating the whole process fails |
| Paging.RollbackRestores | T3/src/main.cpp:169-185 | freeing the frames of the pages placed so far gives back the tables as they were before the creation |
| Paging.ReleaseStep | T3/src/main.cpp:218-229 | freeing page j clears exactly the frame that page's record names |
| Paging.NewPidFresh | T3/src/main.cpp:130 | the next counter value names no process yet, so none of its pages exist |
| Paging.FinalizeFrees | T3/src/main.cpp:218-232 | ending a process frees exactly the frames that held its pages, leaves every other frame and page alone, and keeps the tables consistent |
| Paging.TouchNewest | T3/src/main.cpp:263-267 | a hit moves no page and gives the page an access time above every other page's |
| Paging.FaultInWhere | T3/src/main.cpp:270-326 | a fault succeeds exactly when RAM has frames. The page goes to the lowest free frame, else to the LRU victim's frame, and the victim moves to SWAP with its access time kept. No other page changes |
| Paging.FaultInKeeps | T3/src/main.cpp:270-326 | a fault keeps the tables consistent and the set of pages, and leaves the loaded page with the newest access time |
| Paging.FaultInRecords | T3/src/main.cpp:320-324 | a fault stamps only the loaded page with the clock |
| Paging.FaultInFree | T3/src/main.cpp:313-323 | a fault into a free frame keeps the tables consistent |
| Paging.FaultInSwap | T3/src/main.cpp:279-323 | a fault with full RAM keeps the tables consistent, because the page's SWAP slot is freed before the victim is placed |
| Paging.SwapConsistent | T3/src/main.cpp:296-323 | the exchange of the incoming page and the victim keeps the tables consistent |
| Paging.CreateKeeps | T3/src/main.cpp:130-196 | a successful creation keeps the whole simulator invariant, the new process included |
| Paging.RollbackKeeps | T3/src/main.cpp:130-186 | a failed creation keeps the invariant with the counter already advanced |
| Paging.FinalizeKeeps | T3/src/main.cpp:218-232 | removing a process keeps the invariant |
| Paging.HitKeeps | T3/src/main.cpp:263-267 | a hit keeps the invariant |
| Paging.FaultKeeps | T3/src/main.cpp:270-326 | a fault keeps the invariant |
| Paging.Simulador.constructor | T3/src/main.cpp:78-98 | both tables start empty, RAM has memoria KB / page size frames, and all counters are zero |
| Paging.Simulador.LiberarPaginas | T3/src/main.cpp:218-229 | the frame loop computes `Release` |
| Paging.Simulador.DeshacerCreacion | T3/src/main.cpp:169-185 | the rollback loop restores the tables from before the creation |
| Paging.Simulador.ColocarPagina | T3/src/main.cpp:142-164 | one page is placed as `PlacePage`, or nothing changes when both tables are full |
| Paging.Simulador.ColocarPaginas | T3/src/main.cpp:140-188 | all pages are placed as `PlaceAll`, or the tables are as before when one page finds no frame |
| Paging.Simulador.CrearProceso | T3/src/main.cpp:125-199 | the counter always advances. On success the pages are placed first-fit and the process is registered with its page count. On failure the tables and the process table are unchanged and false is returned. The invariant holds either way |
| Paging.Simulador.FinalizarProceso | T3/src/main.cpp:203-236 | with no processes nothing changes; otherwise the process's frames are freed and it leaves `procesos`; the invariant holds |
| Paging.Simulador.AplicarLRU | T3/src/main.cpp:421-437 | the scan returns `Lru` |
| Paging.Simulador.TocarPagina | T3/src/main.cpp:266 | the clock advances by one and the page gets the new time |
| Paging.Simulador.CargarPagina | T3/src/main.cpp:270-326 | the fault counter rises by one; the page is loaded as `FaultIn`, or the access fails when RAM has no frames |
| Paging.Simulador.AccesoAcierto | T3/src/main.cpp:263-267 | a hit keeps `pageFaults` and the invariant and stamps the page with the next clock value |
| Paging.Simulador.AccesoFallo | T3/src/main.cpp:268-327 | a fault raises `pageFaults` by one, loads the page as `FaultIn` and keeps the invariant |
| Paging.Simulador.AccederDireccionVirtual | T3/src/main.cpp:238-328 | with no processes nothing changes; otherwise a hit or a fault on the chosen page, as above, with the invariant kept |
| Config.GameConfig.constructor | T2/src/config.h:45-59 | the game state holds the given contents in tables of MAX_HEROES and MAX_MONSTERS entries |
| Config.ReadInt | T2/src/config.c:25 | `%d` consumes one token exactly when it is a number and stores it; otherwise the field keeps its value |
| Config.ReadPair | T2/src/config.c:21 | `%d %d` consumes zero, one or two number tokens. With none, both fields keep their values. With one, the first field takes it and the second keeps its value. With two, both are stored. The second is read only after the first |
| Config.PathFrom | T2/src/config.c:52-65 | the points read are the leading point tokens in order, at most MAX_PATH; the list stops at MAX_PATH or at a non-point token |
| Config.WithPath | T2/src/config.c:53-59 | the path's first `path_len` entries are the points read, the rest of the array is untouched |
| Config.HeroField | T2/src/config.c:44-65 | a hero field never changes the id, the step, or the combat and finished flags, and keeps the path array size |
| Config.MonsterField | T2/src/config.c:80-89 | a monster field never changes the id, the alert flag or the target |
| Config.HeroRecord | T2/src/config.c:32-66 | an id that does not read or lies outside 1..MAX_HEROES changes nothing. Otherwise only slot id-1 changes: its id is set with step 0 and both flags cleared, and then it receives the named field as `HeroField` reads it |
| Config.MonsterRecord | T2/src/config.c:69-90 | an id outside 1..MAX_MONSTERS changes nothing; otherwise only slot id-1 changes: its id is set, with target -1 and not alerted, and then it receives the named field as `MonsterField` reads it |
| Config.Step | T2/src/config.c:18-91 | GRID_SIZE stores what `%d %d` reads into the grid size, HERO_COUNT and MONSTER_COUNT store what `%d` reads into their count; only HERO changes the hero table and only MONSTER the monster table; every other field is kept, and an unrecognised token is skipped without any change |
| Config.ReadFrom | T2/src/config.c:18-91 | the keyword loop keeps the table sizes and the path array size |
| Config.UntouchedWithoutKeyword | T2/src/config.c:18-29 | a field whose keyword never appears keeps its value to the end of the input |
| Config.CountsStartAtZero | T2/src/config.c:12-15 | without GRID_SIZE, HERO_COUNT or MONSTER_COUNT in the file, the grid, hero count and monster count read as zero |
| Config.PathStored | T2/src/config.c:52-65 | a PATH field stores the points read in order, `path_len` of them, never more than MAX_PATH, and stops before the first non-point token |
| Config.LaterRecordWins | T2/src/config.c:44-87 | every numeric field (HP, ATTACK_DAMAGE, ATTACK_RANGE, VISION_RANGE) overwrites the previous value with the number read, and START and COORDS overwrite the point with the two numbers read |
| Config.RecordSetsField | T2/src/config.c:32-90 | a whole `HERO <id> HP <v>` or `MONSTER <id> HP <v>` record leaves v in slot id-1, whatever the slot held |
| Config.LeerCamino | T2/src/config.c:52-65 | the `path_len` loop writes the points of `PathFrom` into the hero's slot and changes no other slot |
| Config.LeerHeroe | T2/src/config.c:32-66 | the HERO branch is `HeroRecord` |
| Config.LeerMonstruo | T2/src/config.c:69-90 | the MONSTER branch is `MonsterRecord` |
| Config.LeerConfig | T2/src/config.c:5-95 | a file that does not open returns 1 and changes nothing. Otherwise it returns 0, and the state is the counts reset to zero followed by the keyword loop over every token |
| Game.Manhattan | T2/src/main.c:12-14 | the distance is non-negative and zero exactly between equal points |
| Game.ManhattanSymmetric | T2/src/main.c:12-14 | the distance is symmetric |
| Game.ManhattanTriangle | T2/src/main.c:12-14 | the distance obeys the triangle inequality |
| Game.ActiveCount | T2/src/main.c:16-22 | the count is at most the number of heroes and is zero exactly when no hero is alive and not escaped |
| Game.EndCheck | T2/src/main.c:36-53 | only `juegoActivo` changes, and it stays set exactly when it was set and some counted hero is alive and not escaped |
| Game.AllDownNoneActive | T2/src/main.c:24-51 | when all heroes are dead, or all have escaped, no hero is active, so the later two checks add no case |
| Game.Alert | T2/src/main.c:56-74 | only other living, not yet alerted monsters within the alerter's vision change; they become alerted with the seen hero as target; nothing changes when that hero has escaped |
| Game.AlertIdempotent | T2/src/main.c:56-74 | alerting twice equals alerting once |
| Game.NearestUpTo | T2/src/main.c:181-187 | the nearest active hero within the limit, the lowest index on ties, with its distance; -1 and 10^9 when there is none |
| Game.FirstInReach | T2/src/main.c:105-114 | the first living monster in the hero's range in index order, or -1 |
| Game.StepToward | T2/src/main.c:223-226 | one step, along x before y, cuts the distance to the target by exactly one |
| Game.See | T2/src/main.c:180-194 | a monster not yet alerted targets the nearest active hero within its vision and alerts the others; with none visible or already alerted, nothing changes |
| Game.Retarget | T2/src/main.c:198-209 | with the target gone, the monster targets the nearest active hero at any distance, or drops the alert with target -1 when none is left |
| Game.Chase | T2/src/main.c:210-230 | a target in range loses the monster's attack in hp, followed by the end check on its death; otherwise the monster moves one cell, along x before y (`StepToward`), nothing else changes and the distance drops by one |
| Game.Act | T2/src/main.c:196-231 | a calm monster changes nothing; an alerted one retargets (`Retarget`) when its target is gone, dead or escaped, and chases it (`Chase`) otherwise; the counts, the grid and the target invariant are kept |
| Game.MonsterTick | T2/src/main.c:168-233 | the loop stops exactly when the game is over, the monster is dead or no hero is active; stopping changes only `juegoActivo`, which stays set only when the game was on and the monster is dead; a continuing tick is the vision part (`See`) followed by the action (`Act`) |
| Game.Started | T2/src/main.c:82-87 | a starting hero stands at its start with step 0 and all flags cleared, and is active exactly when alive |
| Game.HeroTick | T2/src/main.c:93-142 | the tick stops exactly when the game is over or the hero is inactive. The hero attacks the first monster in range, or takes the next path point, or escapes and triggers the end check. Only that hero and the attacked monster change: hero k gets exactly the combat flag, the new position and step, or the escape flags, and the grid is kept |
| Game.HeroTickMonotone | T2/src/main.c:93-142 | a hero tick never revives a hero, never lowers a path step and never changes any hp of a hero |
| Game.HeroesActivosCount | T2/src/main.c:16-22 | the loop returns `ActiveCount` of the counted heroes |
| Game.TodosMuertos | T2/src/main.c:24-28 | true exactly when every counted hero has hp <= 0 |
| Game.TodosEscapados | T2/src/main.c:30-34 | true exactly when every counted hero has escaped |
| Game.ActualizarEstadoJuego | T2/src/main.c:36-53 | the new state is `EndCheck` of the old |
| Game.AlertarMonstruos | T2/src/main.c:56-74 | the monster table becomes `Alert` of the old one |
| Game.HeroeMasCercano | T2/src/main.c:181-207 | the scan returns `NearestUpTo` |
| Game.Vigilar | T2/src/main.c:180-194 | the vision block is `See` |
| Game.Reapuntar | T2/src/main.c:198-209 | the retarget block is `Retarget` |
| Game.Perseguir | T2/src/main.c:210-230 | the attack-or-move block is `Chase` |
| Game.Actuar | T2/src/main.c:196-231 | the alert action is `Act` |
| Game.TickMonstruo | T2/src/main.c:168-233 | one locked iteration of `hiloMonstruo` is `MonsterTick` |
| Game.IniciarHeroe | T2/src/main.c:82-90 | the hero's slot becomes `Started` and nothing else changes |
| Game.BuscarAtacante | T2/src/main.c:105-114 | the combat scan returns `FirstInReach` |
| Game.TickHeroe | T2/src/main.c:93-142 | one iteration of `hiloHeroe` is `HeroTick` |
| Game.TerminarHeroe | T2/src/main.c:145-150 | a dead hero triggers the end check; a living one changes nothing |

## Left out

- **T1 pipes and processes:** `mkfifo`, `open`/`close`, the `select` loops, `read`, the non-blocking flags, the open retry loops, `fork`/`execlp`, `kill`/SIGTERM and the signal handlers are I/O and process supervision. Writes and opens become the oracles in `Central.Env`, and kills become the `kills` list of `Moderator.Tally`.
- **Console output:** the `std::cout`/`std::cerr`/`perror`/`printf` logging of all three programs, the ANSI colours and the simulator's `mostrarEstadoMemoria` are output only, and are not modelled.
- **Central.Broker.ProcessChunk, Central.Broker.ProcessLine:** `openFd` and `writeOk` are fixed functions of the pid and the descriptor for a whole chunk. So the model does not capture two things. One is a descriptor whose write succeeds for one line and fails for a later line of the same chunk. The other is a pid that is pruned and then reopened within one chunk and gets a different descriptor or outcome. The source performs a fresh `open` and `write` each time.
- **Strings as characters:** `string` is a sequence of characters, while the source writes UTF-8 bytes. The lengths of texts with non-ASCII characters, such as the welcome's `Conexión`, differ from their byte counts. No property depends on those lengths.
- **Wall clock:** `nowHms` is an opaque stamp `hms`, one per chunk. The source reads the clock again for each message.
- **`unordered_map` iteration order:** it is the parameter `order`, assumed to list each key once (`Iterates`).
- **Central.Broker.ProcessLine:** the welcome write's outcome is not recorded, since the source ignores it. `ensureFifoExists` inside `openWriteToClient` is folded into `openFd`.
- **Client.HandleUserInput:** the `fork`/`execlp` of `/share` is reported as `spawn`, and the usage message as `usage`. The disconnect notice's write result is ignored, as in the source. `handleIncomingFromCentral` and `runChatLoop` are terminal and pipe I/O.
- **Decimal.Stoi, Decimal.Stol:** `int` is taken as 32 bits and `long` as 64 bits. Only base 10 with an optional sign is modelled, which is what every call in the source uses.
- **Moderator.Moderator.OnRead:** reopening the channel after a zero-length read is I/O; the model only states that counts and carry survive it.
- **T3 randomness:** the process size, the chosen pid and the page index are parameters of `CrearProceso`, `FinalizarProceso` and `AccederDireccionVirtual`. The real-valued virtual memory factor is replaced by the parameter `numMarcosSwap` of the constructor. The unused `minTamProceso`/`maxTamProceso` range only bounds the size parameter.
- **Paging identities:** a page is identified by `PageId(pid, index)` instead of a pointer, and a `Proceso`'s page list is implicit (`PageId(id, 0)` to `PageId(id, numeroPaginas - 1)`). `tiempoCreacion`, the destructor and the `delete` calls are not modelled.
- **Paging.Lru:** the sentinel `ULLONG_MAX` becomes "no candidate yet". A page whose access time equals `ULLONG_MAX` cannot arise before 2^64 accesses, so the 64-bit wrap of `contadorReloj` is not modelled.
- **Paging.Simulador.AccesoFallo:** the two `throw runtime_error` paths become `ok == false`. The one for a full SWAP is proved unreachable. The one for LRU failure happens only with zero RAM frames.
- **Paging.PageCount:** `tamanio * 1024` is assumed not to overflow `int`.
- **Paging.Simulador.AccederDireccionVirtual:** `direccionVirtual` is computed only for the log line, so it is left out.
- **`ejecutarSimulacion` and `main` of T3:** the timed driver loop with its random choice of operation, and the percentage output.
- **T2 threads:** `pthread_create`/`join`, the mutex and `sleep` are not modelled, and each thread iteration is one atomic step. In `hiloHeroe`, `en_combate` is written outside the lock, a race the model does not capture.
- **Game.HeroTick, Game.MonsterTick:** the loop-exit reads under a separate lock are folded into the tick's result flag. Interleavings between that read and the tick's body are not modelled.
- **Game.See, Game.Retarget, Game.Chase, Game.Act, Game.MonsterTick:** they require every monster's target to be -1 or a counted hero (`TargetsOk`), and the C code would index outside `heroes` otherwise. Every tick keeps it, which the `ensures` of each function states. `leerConfig` sets the target to -1 only for monsters that have a MONSTER record. It does not establish the property for slots without a record, nor after a later HERO_COUNT lowers the count. The model does not capture the out-of-bounds read that such a configuration causes.
- **Game.HeroTick:** it requires `0 <= path_step` and `path_len <= MAX_PATH` (`HeroOk`). The source reads beyond `path` otherwise.
- **Game.Bounded:** `hero_count` and `monster_count` above MAX_HEROES/MAX_MONSTERS are not checked by the source, and would run off the arrays. The model requires them to fit, and `main`'s own check (`hero_count < 1`, a negative `monster_count`) is not modelled.
- **Game.EndCheck:** the three outcomes of `actualizarEstadoJuego` differ only in the message printed, so they are one flag. `TodosMuertos` and `TodosEscapados` are still modelled, and `AllDownNoneActive` shows that their branches add no case.
- **Game.HeroeMasCercano:** the retarget scan (no vision limit, `d < dmin` with `dmin = 1e9`) uses the same scan with the limit 10^9, which selects the same hero.
- **C integer widths:** hp, attack and coordinates are unbounded integers, and the 32-bit overflow of `hp -= attack`, of `abs` and of the distance sum is not modelled. `int` flags (`alertado`, `escapado`, …) are `bool`.
- **Config.LeerConfig:** `fopen`/`fclose` become `Option<seq<Tok>>`, with `None` for a file that does not open. The `fscanf`/`fgetc` character level is replaced by tokens, so these are not modelled:
  - `%63s` truncation;
  - a newline ending a PATH list (a non-point token ends it instead);
  - a point token without `()`;
  - a keyword token read where a number is expected.
- **Config.HeroRecord, Config.MonsterRecord:** when the id after HERO/MONSTER does not read as a number, C uses an uninitialised `id`, which is undefined behaviour. The model skips the keyword, and a missing field name is read as the empty word.
- **Uninitialised storage:** the table contents before `leerConfig` are whatever the constructor of `Config.GameConfig` is given. Fields a config never sets keep those values.
