# TrafficAnalyzer core in Dafny

TrafficAnalyzer is a Windows packet sniffer with a small web backend.

On the desktop side, the capture window opens a capture device. For each captured frame, the device callback can first transmit a mutated packet 1000 times ("manipulation"). It then adds the frame to an ingest queue. A background worker swaps the queue out, numbers each frame, and runs it through a three-box display filter. The accepted frames are shown newest first. The manipulation window holds the field overrides that the callback writes into its synthetic packets. When the window opens, these overrides fill its text boxes. When Send is pressed, the texts are parsed back and the capture window is armed. The device picker names each device by the part of its name after the last backslash.

On the backend side, the model covers four pieces:

- the `/register` and `/login` routes, with their failed-login counter and 15-minute lock;
- the `authenticate` middleware, which takes a bearer token;
- the role guards `authorize`, `isAdmin` and `isSuperAdmin`;
- the Express error handler, which maps errors to HTTP statuses.

The modules follow the source files:

| module | file | form |
|---|---|---|
| `Common` | shared primitives: an `int32` counter that wraps, `Contains`, ASCII `Lower`, `Trim`, `Replace`, JavaScript truthiness | functions and lemmas |
| `Packets` | the values the capture pipeline passes around: frames, decoded layers, `PacketWrapper`, the override template, outgoing packets | datatypes |
| `Filter` | `Filter.cs` | functions and lemmas |
| `DeviceList` | `DeviceListForm.cs` (the device name) | functions and lemmas |
| `Capture` | `CaptureForm.cs` | `class CaptureForm`, with the specification functions beside it |
| `Manipulation` | `ManipulationForm.cs` | `class ManipulationForm` and the method `StringToByteArray` |
| `ErrorHandler` | `backend/src/middleware/errorHandler.js` | functions and lemmas |
| `Accounts` | the User and UserSession rows (`backend/src/models`) | datatypes |
| `AuthRoutes` | `backend/src/routes/auth.js` | `class AccountStore`, with reference functions |
| `AuthMiddleware` | `backend/src/middleware/auth.js` | functions, `class Request` and the method `Authenticate` |

Everything outside the code's own logic is an input to the model:

- **The .NET packet library.** `ParsePacket` with `Extract`, `RandomPacket`, and `SendPacket` faults.
- **The .NET conversions.** `PhysicalAddress.Parse`, `IPAddress.Parse`, `Convert.ToXxx`, and the `ToString` renderings.
- **The clock.** The counter of 100 ns ticks, or milliseconds on the backend.
- **Backend services.** bcrypt, `jwt.verify`, the uuids and the database lookups.

These are function or value parameters. Every exception on the modelled paths is an explicit `Option`/datatype parameter, except the ones listed under "Left out", so the model states both the error path and the normal path.

Two threads touch the capture window's state: the capture callback and the background worker. The model runs their steps one at a time. Each locked section becomes a single method: `EnqueueFrame` and `SwapQueue`. The ghost log `queueOps` records every arrival and every worker turn. The invariant `QueueFollowsOps` ties the live ingest queue to `RunQueue(queueOps)`, whose conservation lemma covers every interleaving.

Two behaviours of the source are modelled as written:

- The UDP section of `buttonSend_Click` (ManipulationForm.cs:179-180) is guarded by the UDP source-port box **and the TCP destination-port box**. The TCP half of that guard is dead code: `Convert.ToUInt16("")` throws a FormatException, so an empty TCP destination box already stops the handler in the TCP section (ManipulationForm.cs:161-175). `UdpGuardReducesToUdpSource` shows that, for such a conversion, the guard reduces to the UDP source-port box once the TCP section has passed.
- In loop mode with a read timeout selected, the code reads `LoopSendingCBox.SelectedValue` and not the read-timeout box's value (ManipulationForm.cs:121). The model takes that converted value as the input `selectedValue`.

`Filter.OutThis` is written as its eight `if` statements, each applied to the value of `answer` from the statements before it. In the nested `Branch` term, the innermost call is the first statement.

## Model

| member | source | states |
|---|---|---|
| Common.Increment32 | CaptureForm.cs:478 | `packetCount++` is two's-complement addition: the result is the `int` congruent to count + 1 modulo 2^32 |
| Common.ContainsIffOccurs | Filter.cs:28 | ordinal `Contains` holds exactly when the text occurs at some position |
| Common.ContainsShorter | Filter.cs:28 | a string only contains texts no longer than itself |
| Common.LowerHasNoCapitals | Filter.cs:49 | `ToLower` keeps the length, leaves no ASCII capital, and keeps every other character in place |
| Common.LowerIdempotent | backend/src/routes/auth.js:21 | lower-casing an already lower-cased email changes nothing |
| Common.TrimStartSuffix | ManipulationForm.cs:132-133 | the leading trim removes only `c`s and leaves a suffix that does not start with `c` |
| Common.TrimEndPrefix | ManipulationForm.cs:132-133 | the trailing trim removes only `c`s and leaves a prefix that does not end with `c` |
| Common.TrimEnds | ManipulationForm.cs:132-133 | `Trim(' ')` gives the middle of the text between a run of leading and a run of trailing spaces; the result neither starts nor ends with a space |
| Common.TrimAbsent | ManipulationForm.cs:168 | trimming a character the text does not contain leaves it unchanged |
| Common.ReplaceCharRemovesAll | ManipulationForm.cs:132-135 | `Replace(':', '-')` keeps the length, leaves no `:`, keeps every other character, and changes nothing in a text without `:` |
| Filter.OutThis | Filter.cs:12-100 | definition: the eight `if` statements, each applied to the answer of the ones before; properties in `OutThisIsConjunction` |
| Filter.Accepts | Filter.cs:12-100 | definition: `OutThis` answers true without throwing; properties in `AcceptsIff` |
| Filter.OutThisIsConjunction | Filter.cs:12-100 | the eight-branch cascade equals "every non-empty box matches". A non-empty IP box on a frame without IP throws |
| Filter.AcceptsIff | Filter.cs:12-100 | a wrapper is accepted if and only if the source box, the destination box and the case-insensitive type box each hold (an empty box always holds) |
| Filter.PassThrough | Filter.cs:92-97 | with all boxes empty, every frame passes, including one without IP |
| Filter.IpCriterionWithoutIp | Filter.cs:28-38 | a non-empty IP box on a frame without an IP layer throws, so the frame is never accepted |
| Filter.NarrowingKeepsRejections | Filter.cs:24-97 | filling in more boxes never turns a rejection into an acceptance |
| Filter.TypeIgnoresCase | Filter.cs:49 | type texts that differ only in letter case give the same verdict |
| Filter.ContainedFirstCharOccurs | Filter.cs:28 | a contained non-empty text has its first character in the string |
| Filter.ContainedCharOccurs | Filter.cs:28 | every character of a contained text occurs in the string |
| Filter.IpCaseSensitive | Filter.cs:28 | the IP boxes compare case-sensitively: a source box holding an ASCII capital ("FE80") rejects every packet whose source address has no capitals |
| Filter.CriteriaNotTrimmed | Filter.cs:20-22 | the discarded `Trim` results leave the boxes untrimmed: a source box that starts with a space rejects every frame whose source address has no space, whatever the other boxes hold |
| DeviceList.LastIndexOf | DeviceListForm.cs:37 | `LastIndexOf('\\')` is -1 or a backslash position with no backslash after it |
| DeviceList.DisplayName | DeviceListForm.cs:37-38 | definition: `Substring(LastIndexOf('\\') + 1)`; properties in `DisplayNameIsSuffix` and the lemmas below |
| DeviceList.DisplayNameIsSuffix | DeviceListForm.cs:37-38 | the shown name is the longest suffix without a backslash: either the whole name or preceded by a backslash |
| DeviceList.NoBackslashShownWhole | DeviceListForm.cs:37-38 | a name without a backslash is shown whole |
| DeviceList.TrailingBackslashShownEmpty | DeviceListForm.cs:37-38 | a name that ends in a backslash is shown as "" |
| DeviceList.NameSplitsAtLastBackslash | DeviceListForm.cs:37-38 | the name is its prefix, the last backslash and the shown name |
| DeviceList.DisplayNameIdempotent | CaptureForm.cs:235-237 | taking the display name twice changes nothing |
| Capture.RunQueue | CaptureForm.cs:381-429 | definition: the ingest queue and drained batches after a log of arrivals and worker turns; properties in `QueueConservesFrames` |
| Capture.QueueConservesFrames | CaptureForm.cs:381-429 | over any interleaving of arrivals and worker swaps, the drained batches followed by the live queue are exactly the arrived frames, in order |
| Capture.BatchesNonEmpty | CaptureForm.cs:409-421 | the worker never takes an empty batch |
| Capture.RunQueueArrive | CaptureForm.cs:381-384 | an arrival appends its frame to the live queue |
| Capture.RunQueueDrain | CaptureForm.cs:407-429 | a worker turn with an empty queue only sleeps; otherwise the whole queue becomes one batch and an empty queue is installed |
| Capture.ProcessBatch | CaptureForm.cs:433-489 | definition: the foreach over a batch, numbering, filtering and stopping at a parse exception; properties in `ProcessBatchSpec` |
| Capture.FirstFailure | CaptureForm.cs:433-486 | the position of the first frame whose parse throws: every earlier frame parses |
| Capture.Numbered | CaptureForm.cs:444 | one wrapper per frame |
| Capture.NumberedAt | CaptureForm.cs:444-478 | the i-th wrapper holds the counter after i increments, the i-th frame, its extracted IP addresses and its Ethernet type name (the default name without an Ethernet layer) |
| Capture.ProcessBatchSpec | CaptureForm.cs:433-489 | a batch numbers the frames before the first parse failure consecutively and keeps those the filter accepts; the counter advances once per numbered frame, accepted or not |
| Capture.FailureDropsRestOfBatch | CaptureForm.cs:433-489 | a parse exception at position k ends the batch: nothing after k is numbered or shown |
| Capture.CountAfterNoWrap | CaptureForm.cs:478 | without overflow, n increments add n |
| Capture.AcceptedNumbersIncrease | CaptureForm.cs:444-478 | without overflow, the accepted numbers of a batch lie in [count, count + batch size) and strictly increase |
| Capture.ProcessBatchStep | CaptureForm.cs:444-478 | one loop step: a throw ends the batch; otherwise the frame is numbered, possibly kept, and the counter steps |
| Capture.KeptMembers | CaptureForm.cs:463-470 | a wrapper is enqueued for display if and only if it is in the batch and the filter accepts it |
| Capture.KeptByFilter | CaptureForm.cs:463-475 | with the display boxes as the filter: a wrapper is shown if and only if each non-empty box matches it |
| Capture.Reversed | CaptureForm.cs:493 | definition of `Reverse()`; properties in `ReversedAt` |
| Capture.ReversedAt | CaptureForm.cs:493 | the grid lists the accepted wrappers newest first |
| Capture.BuildOutgoing | CaptureForm.cs:295-357 | definition: the value of `packet` when the `try` ends, for each fault point; properties in `BuildFollowsTable` and `FaultKeepsEarlierChoice` |
| Capture.BuildFollowsTable | CaptureForm.cs:297-352 | without an exception, the sent layer is: the original unless Ethernet; else UDP if the IP and UDP overrides are set; else TCP if the IP and TCP overrides are set; else IP if the IP overrides are set; else Ethernet. Its fields are the overrides, with the TCP flags inverted |
| Capture.FaultKeepsEarlierChoice | CaptureForm.cs:295-357 | an exception in one part of the construction sends the packet chosen before that part |
| Capture.SentCount | CaptureForm.cs:363-365 | the burst sends all 1000 copies exactly when no send throws within them |
| Capture.RepeatAt | CaptureForm.cs:364-365 | n sends transmit n packets, each the same packet |
| Capture.CaptureForm.constructor | CaptureForm.cs:27-42 | not capturing, not manipulating, read timeout 1000, empty queues and display |
| Capture.CaptureForm.StartCapture | CaptureForm.cs:229-267 | the counter restarts at 0; the display queue is replaced; the device is opened with `readTimeout`; the label shows the device's display name; the stop flag is cleared; the statistics are shown |
| Capture.CaptureForm.Shutdown | CaptureForm.cs:206-227 | with an open device: close it and set the stop flag; otherwise nothing changes |
| Capture.CaptureForm.EnqueueFrame | CaptureForm.cs:381-384 | appends the frame and keeps the queue equal to the interleaving model |
| Capture.CaptureForm.SwapQueue | CaptureForm.cs:423-429 | takes the whole queue as the new batch and installs an empty queue, in step with the interleaving model |
| Capture.CaptureForm.SendBurst | CaptureForm.cs:363-365 | appends as many copies as are sent before the first failing send; succeeds when all 1000 go out |
| Capture.CaptureForm.OnPacketArrival | CaptureForm.cs:290-385 | when armed: parse (a throw leaves the handler), transmit the built packet `SentCount` times, and clear a one-shot arming. Statistics are taken after the 2 s interval. The frame is enqueued exactly when the handler completes |
| Capture.CaptureForm.ProcessQueue | CaptureForm.cs:433-489 | the foreach over a batch appends exactly `ProcessBatch(...).accepted` and leaves the counter at `ProcessBatch(...).nextCount` |
| Capture.CaptureForm.WorkerPass | CaptureForm.cs:401-508 | one worker turn: with the stop flag set, nothing; with an empty queue, only a sleep; otherwise the batch is drained, processed with the current filter boxes and shown newest first, and pending statistics are shown |
| Capture.CaptureForm.RefreshDisplay | CaptureForm.cs:491-500 | the grid shows the reversed display queue, and a pending statistics update is applied and cleared |
| Manipulation.DigitValue | ManipulationForm.cs:88-94 | '0'..'9' and 'A'..'F' give their hex values; a character below '0' wraps to 2^16 minus its distance from '0'; any other 16-bit character above '9' counts from 'A' = 10 (':' is 3, 'a' is 42) |
| Manipulation.LowerCaseDigitsMisread | ManipulationForm.cs:88-96 | lower-case digits are misread: 'a' is 42, 'f' is 47, and "ab" gives the byte 0xCB |
| Manipulation.ParseHex | ManipulationForm.cs:82-100 | definition of the bytes `StringToByteArray` returns; properties in `ParseHexLength`, `SeparatorIgnored` and `ParseFormatRoundTrip` |
| Manipulation.ReadsInBounds | ManipulationForm.cs:84-93 | with (length+1)/3 bytes, both digit positions 3i and 3i+1 are inside the string, so the loop never indexes out of range |
| Manipulation.ParseHexLength | ManipulationForm.cs:84-85 | the result has (length+1)/3 bytes; an empty or one-character string gives none |
| Manipulation.StringToByteArray | ManipulationForm.cs:82-100 | the array holds, at each i, the byte made from the digits at 3i and 3i+1, truncated to a byte |
| Manipulation.SeparatorIgnored | ManipulationForm.cs:86-96 | the character after each digit pair is never read |
| Manipulation.HexDigit | ManipulationForm.cs:240 | a digit value below 16 renders as '0'..'9' or 'A'..'F' |
| Manipulation.FormatHex | ManipulationForm.cs:240 | definition of `BitConverter.ToString`; properties in `FormatHexLength`, `FormatHexAt` and `FormatHexHasNoSpace` |
| Manipulation.FormatHexLength | ManipulationForm.cs:240 | `BitConverter.ToString` gives three characters per byte, minus one |
| Manipulation.FormatHexAt | ManipulationForm.cs:240 | byte i is its high and low hex digit at 3i and 3i+1, followed by '-' |
| Manipulation.DigitValueOfHexDigit | ManipulationForm.cs:88-94 | reading a rendered digit gives its value back |
| Manipulation.RoundTripAt | ManipulationForm.cs:96 | each byte is read back from its two rendered digits |
| Manipulation.DigitsMakeByte | ManipulationForm.cs:96 | 16·high + low is the byte |
| Manipulation.ParseFormatRoundTrip | ManipulationForm.cs:82-100 | `StringToByteArray(BitConverter.ToString(b)) == b` for every byte array |
| Manipulation.FormatHexHasNoSpace | ManipulationForm.cs:240 | the rendering contains no space |
| Manipulation.PayloadSurvivesReload | ManipulationForm.cs:168 | a payload shown by Load and parsed back by Send, after the space trim, is unchanged |
| Manipulation.LoadThenSendFlipsMode | ManipulationForm.cs:111-127 | Load selects index 0 for one-send and 1 for loop, and Send reads index 0 as loop and 1 as one-send, so opening the window and pressing Send without touching the box inverts the send mode |
| Manipulation.TcpStop | ManipulationForm.cs:161-175 | the TCP section fails exactly when one of its five conversions fails |
| Manipulation.EthStop | ManipulationForm.cs:130-142 | the Ethernet section fails exactly when a hardware address does not parse |
| Manipulation.UdpStop | ManipulationForm.cs:177-191 | the UDP section fails exactly when its guard holds and a port does not convert |
| Manipulation.SectionStop | ManipulationForm.cs:129-191 | definition: the first failing section in handler order (Ethernet, TCP, UDP); properties in `SendArmsIff` |
| Manipulation.SendStop | ManipulationForm.cs:102-201 | reference definition of the handler's outcome: the error title, or None when it arms; properties in `SendArmsIff` and `IpBoxesNeverDecide` |
| Manipulation.SentOverrides | ManipulationForm.cs:129-191 | definition of the overrides after a Send that armed; properties in `ArmedSendCarriesOverrides` and `ReadSections` |
| Manipulation.ArmedSendCarriesOverrides | ManipulationForm.cs:129-193 | once Send arms, the callback's packet follows the decision table over the sent overrides and carries the parsed hardware addresses, the converted TCP fields and, when the UDP section ran, the converted UDP ports (else the ports already held) |
| Manipulation.SendArmsIff | ManipulationForm.cs:102-201 | Send arms the capture window if and only if: the mode value converts when it is read; both hardware addresses parse; all TCP boxes convert; and, when the UDP section runs, both UDP ports convert |
| Manipulation.IpBoxesNeverDecide | ManipulationForm.cs:144-159 | the IP boxes never change whether Send arms or which error it shows |
| Manipulation.EmptyUdpSourceSkipsUdp | ManipulationForm.cs:179-184 | with an empty UDP source box, the UDP destination box does not matter |
| Manipulation.UdpGuardReducesToUdpSource | ManipulationForm.cs:161-180 | when `Convert.ToUInt16("")` throws a FormatException, an empty TCP destination box fails the TCP section, and once the TCP section passes the UDP guard holds exactly when the UDP source box is non-empty |
| Manipulation.IpAfter | ManipulationForm.cs:144-159 | definition of the IP section's assignments up to its first failure; properties in `IpAfterTouchesIpOnly` |
| Manipulation.IpAfterTouchesIpOnly | ManipulationForm.cs:144-159 | the IP section changes only the three IP overrides |
| Manipulation.LoadedTexts | ManipulationForm.cs:225-249 | definition of the box texts Load writes, up to its first null reference; properties in `LoadedPayloadReadsBack` and `LoadWithoutEthernetKeepsTexts` |
| Manipulation.LoadedPayloadReadsBack | ManipulationForm.cs:212-250 | when all reference overrides are set, the payload Load shows is read back unchanged by Send |
| Manipulation.LoadWithoutEthernetKeepsTexts | ManipulationForm.cs:225-249 | with no hardware address set, Load's exception leaves every box unchanged |
| Manipulation.ManipulationForm.constructor | ManipulationForm.cs:44-49 | no override set, send mode index 0, window open |
| Manipulation.ManipulationForm.Load | ManipulationForm.cs:212-250 | selects the send mode from the capture window's flag and fills the boxes up to the first null reference |
| Manipulation.ManipulationForm.ApplySendMode | ManipulationForm.cs:106-127 | index -1 shows "Select send mode"; index 0 sets loop mode and the read timeout (1000 when no timeout is selected); index 1 sets one-send |
| Manipulation.ManipulationForm.ReadEthernet | ManipulationForm.cs:130-142 | assigns the hardware addresses up to the first failure, and reports that failure's message box |
| Manipulation.ManipulationForm.ReadIp | ManipulationForm.cs:144-159 | assigns the IP fields up to the first failure and never stops the handler |
| Manipulation.ManipulationForm.ReadTcp | ManipulationForm.cs:161-175 | each TCP field takes its converted value when it and every conversion before it succeed; the payload is parsed when all do |
| Manipulation.ManipulationForm.ReadUdp | ManipulationForm.cs:177-191 | under the guard, assigns the UDP ports up to the first failure |
| Manipulation.ManipulationForm.ReadSections | ManipulationForm.cs:129-191 | stops at the first failing section, in handler order; on success the overrides are every converted field |
| Manipulation.ManipulationForm.ButtonSend | ManipulationForm.cs:102-201 | arms and closes exactly when `SendStop` is None; otherwise one error box is shown. The send mode and read timeout are always applied |
| Manipulation.ManipulationForm.ButtonClose | ManipulationForm.cs:203-210 | disarms the capture window and closes |
| ErrorHandler.Handle | backend/src/middleware/errorHandler.js:3-56 | definition of the response for each error; properties in the lemmas below |
| ErrorHandler.ValidationErrorIs400 | backend/src/middleware/errorHandler.js:12-19 | a validation error is a 400 listing every field and message |
| ErrorHandler.UniqueConstraintIs409 | backend/src/middleware/errorHandler.js:22-27 | a unique-constraint error is a 409 listing every message |
| ErrorHandler.TokenErrorsAre401 | backend/src/middleware/errorHandler.js:30-40 | both JWT errors are 401s with their own messages |
| ErrorHandler.NamesTakePrecedence | backend/src/middleware/errorHandler.js:12-48 | for the four recognised names, the status code, details, message and environment do not matter |
| ErrorHandler.StatusCodeUsed | backend/src/middleware/errorHandler.js:43-48 | any other error with a truthy `statusCode` gets that status and its message, with details exactly when they are truthy |
| ErrorHandler.FallbackIs500 | backend/src/middleware/errorHandler.js:51-55 | everything else is a 500 whose message is hidden in production |
| ErrorHandler.ProductionHidesInternalErrors | backend/src/middleware/errorHandler.js:51-55 | in production, all unclassified errors get the same response |
| ErrorHandler.ZeroStatusCodeIsFallback | backend/src/middleware/errorHandler.js:43 | a status code of 0 is falsy and falls through to 500 |
| ErrorHandler.StatusIsClassified | backend/src/middleware/errorHandler.js:12-55 | the status is 400, 409, 401, 500 or the error's own code |
| AuthRoutes.LoginReply | backend/src/routes/auth.js:62-101 | definition of the status and error text of each /login outcome (a thrown error goes to `Handle`); properties in `UnknownAndWrongLookAlike` |
| AuthRoutes.RegisterReply | backend/src/routes/auth.js:14-54 | definition of the status and error text of each /register outcome; properties in `RegisterConflictIs409` |
| AuthRoutes.AfterWrongPassword | backend/src/routes/auth.js:80-85 | definition of the counted row; properties in `WrongPasswordCounts` |
| AuthRoutes.AfterLogin | backend/src/routes/auth.js:104-107 | definition of the reset row; properties in `LoginResets` |
| AuthRoutes.LoginSpec | backend/src/routes/auth.js:58-142 | reference definition of /login; properties in the lemmas below and `AccountStore.Login` |
| AuthRoutes.RegisterSpec | backend/src/routes/auth.js:10-55 | reference definition of /register; properties in `RegisterNeedsFields`, `DuplicateEmailRejected`, `RegisteredUserFound` and `AccountStore.Register` |
| AuthRoutes.UnknownAndWrongLookAlike | backend/src/routes/auth.js:72-88 | an unknown email and a wrong password get the same 401 response |
| AuthRoutes.WrongPasswordCounts | backend/src/routes/auth.js:78-89 | a wrong password adds one attempt, locks for 15 minutes from the fifth attempt, and touches no other column |
| AuthRoutes.AttemptsAccumulate | backend/src/routes/auth.js:80 | n wrong passwords, handled one after another, add n attempts |
| AuthRoutes.LockFollowsLastFailure | backend/src/routes/auth.js:80-85 | at or above the threshold the lock is 15 minutes after the last failure; below it the lock is untouched |
| AuthRoutes.LockUntouchedBelowThreshold | backend/src/routes/auth.js:83-85 | below five attempts the lock column is untouched |
| AuthRoutes.FiveFailuresLock | backend/src/routes/auth.js:82-97 | five wrong passwords from a clean row, handled one after another, lock it for the 15 minutes after the fifth |
| AuthRoutes.LockExpires | backend/src/routes/auth.js:92 | a lock whose time has passed no longer locks |
| AuthRoutes.LoginResets | backend/src/routes/auth.js:103-108 | a successful login clears the counter and the lock, records time and IP, and touches nothing else |
| AuthRoutes.LoginNeedsCredentials | backend/src/routes/auth.js:62-66 | the "Email and password are required" outcome occurs if and only if the email or password is missing, and then nothing changes (the session insert can also give a 400; see `LoginBadRequestIs400`) |
| AuthRoutes.LoginBadRequestIs400 | backend/src/routes/auth.js:58-142 | /login answers 400 exactly when the email or password is missing, or a correct password on an unlocked, active row reaches the session insert and its error is handled as a 400 |
| AuthRoutes.WrongPasswordSaved | backend/src/routes/auth.js:76-89 | a wrong password saves the counted row, whatever the lock and active flag, and changes no other row |
| AuthRoutes.LockedAfterCorrectPassword | backend/src/routes/auth.js:91-97 | a correct password on a locked row is a 423 carrying the lock time, and nothing is saved |
| AuthRoutes.LockedImpliesCorrectPassword | backend/src/routes/auth.js:76-97 | a 423 is only ever given for a correct password |
| AuthRoutes.InactiveNotReset | backend/src/routes/auth.js:99-101 | an inactive row with a correct password is a 403 and is not reset |
| AuthRoutes.SuccessfulLogin | backend/src/routes/auth.js:103-118 | resets the row and opens an active session for 24 hours with the user's id, the fresh token, the IP and the user agent; a failed session insert keeps the reset |
| AuthRoutes.OnlySuccessOpensSessions | backend/src/routes/auth.js:58-142 | no outcome except a login adds a session |
| AuthRoutes.RegisterNeedsFields | backend/src/routes/auth.js:14-18 | the "Email, username, and password are required" outcome occurs if and only if the email, username or password is missing, and then nothing is stored (the insert can also give a 400; see `RegisterBadRequestIs400`) |
| AuthRoutes.RegisterBadRequestIs400 | backend/src/routes/auth.js:10-55 | /register answers 400 exactly when a required field is missing, or the email is new and the insert's error is handled as a 400 |
| AuthRoutes.DuplicateEmailRejected | backend/src/routes/auth.js:20-26 | with all fields given, the "Email already registered" outcome occurs if and only if the lower-cased email is already stored, and then nothing is stored (other 409s come from the insert; see `RegisterConflictIs409`) |
| AuthRoutes.RegisterConflictIs409 | backend/src/routes/auth.js:20-54 | /register answers 409 exactly when the fields are given and the lower-cased email is stored, or the insert's error is handled as a 409 |
| AuthRoutes.RegisteredUserFound | backend/src/routes/auth.js:20-35 | a registration stores, under the lower-cased email, the new id, the username and the hashed password, with role "user", active, unverified, 0 attempts, no lock and the verification token; a login with that email in any case finds the row |
| AuthRoutes.AccountStore.Login | backend/src/routes/auth.js:58-142 | the outcome and the new tables are `LoginSpec`'s; emails stay lower-cased keys |
| AuthRoutes.AccountStore.Register | backend/src/routes/auth.js:10-55 | the outcome and the new table are `RegisterSpec`'s; emails stay lower-cased keys |
| AuthMiddleware.BearerToken | backend/src/middleware/auth.js:7 | definition of `authorization?.split(' ')[1]`; properties in `TokenIsSecondWord` and `OneWordHasNoToken` |
| AuthMiddleware.FailureReply | backend/src/middleware/auth.js:9-25 | definition: every rejection of `authenticate` is a 401 with its own message |
| AuthMiddleware.AuthenticateSpec | backend/src/middleware/auth.js:5-26 | reference definition of `authenticate`; properties in `AcceptedUserIsActive`, `NoTokenRejected` and `Authenticate` |
| AuthMiddleware.Authorize | backend/src/middleware/auth.js:28-40 | definition of `authorize(roles)`; properties in `AuthorizeIff` |
| AuthMiddleware.IsAdmin | backend/src/middleware/auth.js:42-47 | definition of `isAdmin`; properties in `IsAdminIff` |
| AuthMiddleware.IsSuperAdmin | backend/src/middleware/auth.js:49-54 | definition of `isSuperAdmin`; properties in `SuperAdminIsAdmin` |
| AuthMiddleware.Split | backend/src/middleware/auth.js:7 | `split` always gives at least one piece |
| AuthMiddleware.JoinSplit | backend/src/middleware/auth.js:7 | joining the pieces with the separator gives the header back |
| AuthMiddleware.SplitPiecesClean | backend/src/middleware/auth.js:7 | no piece contains the separator |
| AuthMiddleware.SplitWithoutSeparator | backend/src/middleware/auth.js:7 | a text without the separator is one piece |
| AuthMiddleware.SplitConcat | backend/src/middleware/auth.js:7 | splitting at a separator concatenates the pieces of both sides |
| AuthMiddleware.TokenIsSecondWord | backend/src/middleware/auth.js:7 | the token of "scheme token" is the word after the space; the scheme is not checked |
| AuthMiddleware.OneWordHasNoToken | backend/src/middleware/auth.js:7-11 | a one-word header has no token |
| AuthMiddleware.AcceptedUserIsActive | backend/src/middleware/auth.js:5-26 | an accepted user is active and is the row the verified token names |
| AuthMiddleware.NoTokenRejected | backend/src/middleware/auth.js:7-11 | "No token provided" if and only if the header has no non-empty second word |
| AuthMiddleware.Request.constructor | backend/src/middleware/auth.js:5-7 | a request starts without a user |
| AuthMiddleware.Authenticate | backend/src/middleware/auth.js:5-26 | the result is `AuthenticateSpec`'s; the user is attached exactly on acceptance |
| AuthMiddleware.AuthorizeIff | backend/src/middleware/auth.js:28-40 | passes if and only if a user is loaded and its role is listed (or the list is empty); otherwise 401 without a user, 403 for an unlisted role |
| AuthMiddleware.IsAdminIff | backend/src/middleware/auth.js:42-47 | passes exactly the admin and superadmin roles |
| AuthMiddleware.SuperAdminIsAdmin | backend/src/middleware/auth.js:49-54 | passes exactly superadmins, each of whom `isAdmin` also passes |
| AuthMiddleware.IsAdminAgreesWithAuthorize | backend/src/middleware/auth.js:28-47 | `isAdmin` admits what `authorize(['admin','superadmin'])` admits, but answers a missing user with 403 instead of 401 |
| AuthMiddleware.AuthenticatedNeverUnauthenticated | backend/src/middleware/auth.js:16-32 | after a successful `authenticate`, `authorize` never answers "Not authenticated" |

## Left out

- **Threads and locks.** The two threads, `QueueLock` and `BeginInvoke` are modelled as atomic steps in sequence. The interleaving argument lives in `RunQueue`/`QueueConservesFrames`. The filter delegate, which the source runs later on the UI thread, is applied at once, with the filter boxes as they were at the start of the worker turn.
- **The packet and capture library.** PacketDotNet and SharpPcap are inputs: parsing, `RandomPacket`, `UpdateCalculatedValues`, `SendPacket`, device open/close/statistics and events. A synthetic packet is a tag, its seed and the fields the code assigns.
- **The .NET conversions and `ToString` renderings.** These are oracles; their own formats are not modelled.
- **The Ethernet fault.** `BuildOutgoing` uses one fault, `EthStep`, both for `RandomPacket` throwing and for it returning null (CaptureForm.cs:299-301).
- **UI effects.** Opacity fades, icons, labels, cell fonts and message box contents are left out; only the titles are kept as `messages`. Logging (`logWriting`, `logger`) and `device_OnCaptureStopped` are also left out.
- **The grid handlers and menus of CaptureForm.cs (525-772).** These include `manipulationToolStripMenuItem_Click` (CaptureForm.cs:572-627), which prefills the overrides from a selected frame. The model's `ManipulationForm` starts from `NoOverrides`, and any override value can be given to `Load`.
- **`LoopSendingCBox_SelectedIndexChanged` (ManipulationForm.cs:258-272).** It only enables or disables a box.
- **The designer file.** It is not part of this model. The initial box texts and the read-timeout selection are constructor parameters.
- **`StringToByteArray`.** An out-of-range `s[3 * i]` cannot happen, as `ReadsInBounds` shows, so the model has no index exception.
- **Text outside the Basic Multilingual Plane.** `StringToByteArray`, `ParseHex` and `DigitValue` read box texts as Unicode scalar values, while C# `Length` and `s[i]` count UTF-16 code units. A text with a surrogate pair (an emoji, say) is not modelled as C# reads it.
- **Capture.CaptureForm.OnPacketArrival.** Its template `t` stands for the manipulation window's override fields at the time of arrival. The model does not link the two objects; `ArmedSendCarriesOverrides` states what the callback sends when `t` is the overrides a Send left behind.
- **ManipulationForm.ButtonSend.** On failure, its contract does not restate which overrides were already assigned. `ReadEthernet`, `ReadIp`, `ReadTcp` and `ReadUdp` state those partial assignments one section at a time.
- **Capture.CaptureForm.StartCapture.** It does not clear the ingest queue, as the source does not. The background thread is not modelled as an object; `WorkerPass` is one turn of its loop.
- **Capture.CaptureForm.WorkerPass.** An exception outside the inner `try` ends the worker thread for good, because the outer `try` wraps the whole `while` loop (CaptureForm.cs:403-507). Examples are `BeginInvoke` on a disposed form and the statistics update. The model does not capture this: `WorkerPass` can always be run again.
- **Logout, refresh-token and `/me` routes (backend/src/routes/auth.js:145-202) and the other backend routes and services.** They are outside the modelled core.
- **JWT signing and the token in the reply.** JWT verification is the oracle `verify`. bcrypt hashing and comparison are the oracles `hash` and `passwordMatches`. A throw of `jwt.sign` is not modelled: in `/register` (backend/src/routes/auth.js:37-41) it would come after `User.create`, so the row is stored and the reply is a 500; in `/login` (backend/src/routes/auth.js:120-124) it would come after the reset and the session insert, which both stay.
- **Non-string body fields.** The request fields of `/register` and `/login` are modelled as optional strings. In the source, a JSON body may carry a number or an object instead. Then `email.toLowerCase()` (backend/src/routes/auth.js:21, 69) or bcrypt's comparison throws, and `next(error)` answers with the handler's 500. The model does not include this path.
- **Concurrent backend requests.** The model runs each request to completion, one after another. In the source, concurrent /login requests on the same row can interleave between `findOne` and `save` (backend/src/routes/auth.js:68-87). Each then saves the count it read plus one, so failed attempts can be lost: five parallel failures on a clean row store 1 and set no lock. `AttemptsAccumulate` and `FiveFailuresLock` hold for requests handled in sequence only.
- **Database failures in `/login`.** The model covers the failure of the session insert (`sessionFault`). A failure of the lookup or of the two `save` calls is not modelled. In `/register`, a failure of the insert is `createFault`; a failed lookup is not modelled.
- **ErrorHandler.Handle.** `err.details` is modelled by its text. `err.errors` is assumed to be present for the two Sequelize names, as the source assumes.
- **Common.Lower.** It lower-cases the ASCII letters only; the .NET and JavaScript Unicode case mappings are not modelled.
- **Time.** `DateTime` differences are plain integers. The Date objects of the backend are millisecond counts.
