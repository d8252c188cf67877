# Verified core of the device repository

Most of the repository configures a device. This project models the parts of it that compute:
the Wi-Fi HAL (`wifi_hal/`), the MediaTek driver text commands
(`wpa_supplicant_8_lib/mediatek_driver_cmd_nl80211.c`), the binary patchers (`tools/`,
`patches/`) and the OMX component filter (`omx/`). To verify the whole
project, run `dafny verify dfyconfig.toml` in this directory.

| module | what it holds |
|---|---|
| `HandlerTables` | the two tables of `hal_info` as arrays with counts, proved against sequences; every event key is a FIFO queue of its own; the draining loop of cleanup |
| `Lifecycle`, `LifecycleProof`, `LifecycleProgress`, `LifecycleHandover`, `LifecycleCalls` | two threads, reference counts and both tables as a step machine; its invariant and what holds in every run, including the Exit/Done handshake and cleanup; when cleanup can complete; whose callback an unregister call takes out; what whole calls and whole events leave behind |
| `Options`, `Bytes`, `Netlink` | optional values, bytes, TLV attributes, the attribute iterator and the request builder |
| `ScanSetup` | the gscan set-up request: built attribute by attribute, read back by walking it |
| `ScanResults`, `ScanContents` | bounded retrieval of scan results over up to ten rounds against a fold without bounds; what the fold stores, said about the attributes |
| `Rtt`, `RttStreams` | accumulation, single delivery and self-termination of an RTT command; when a stream completes it and with which results, said about the attributes |
| `DriverCommand`, `P2pCommands` | in-place tokenizer; print, dispatch, tokenize and parse of two P2P commands |
| `SharedFreqs` | the bounded collector of distinct frequencies |
| `Overwrite`, `ElfPatch`, `PatchScripts`, `SampleImages` | overwriting bytes, ELF address translation, patching against loading, the RIL and the audio script, and files that meet or miss their premises |
| `HwcPatch` | the converging hardware composer patcher |
| `Roaming` | the cache of roaming limits |
| `OmxFilter` | index translation over the hidden components |

Objects that the source updates in place are classes here; algorithms with loops are methods
with invariants; what they compute is said with functions on values, and the lemmas are about
those functions: each of them is also described without its own definition, by the attributes,
bytes or table entries it is about, or run on input made from given values.

The lifetime machine assumes what the HAL relies on: API calls do not overlap each other (they
interleave freely with the event thread), each table operation is one step, a new command does
not use the request id of a live one, and a command is not started while a callback is
registered under one of its event keys. The last keeps the event keys in the table distinct.
It is a condition on registered callbacks only: a command whose callbacks a stop call took out
stays in the table, and the same kind of command can be started again beside it
(`LifecycleProgress.StopThenStart`). It does not prevent an older command from unregistering
the newer one's handler afterwards, as the second result below shows. A step that touches
a deleted command, or `hal_info` after it was freed, is not forbidden in the machine: it raises
a fault, and the theorem is that no run does.

Some results say that something fails, and exactly when it holds:

- A successful roaming reply without both capability attributes makes the HAL cache whatever
  the caller's struct held (`Roaming.MissingAttributesAreCached`). Over any sequence of calls
  the cached limits are within the maxima if and only if the get that was cached had both words
  reported or small beforehand (`Roaming.CacheWithinMaxima`); a caller is safe from every reply
  if and only if its own two words are within the maxima (`Roaming.CallerCanMakeSure`).
- Unregistering removes the first entry with the key, whoever registered it. An unregister call
  takes out only the caller's own callback if and only if no other command holds the key at that
  moment (`LifecycleHandover.UnregisterIsOwn`). A failed start never takes another's
  (`LifecycleHandover.UnwindIsOwn`), but the callback of an RTT command that was cancelled while
  it ran can: it removes the handler of the next RTT command, which is then alive and in the
  table with no callback (`LifecycleHandover.StaleUnregister`).
- The RIL script accepts its own output unchanged if and only if the address shows the patch in
  that output (`PatchScripts.ProxyRunsAgain`). Before the run it is enough that the file is
  already patched or that the patch lies away from the headers; there is a file the script
  accepts once and then refuses (`SampleImages.RerunCanFail`). The audio script refuses its own
  output whenever the three patches lie away from the headers, overlapping segments or not
  (`PatchScripts.AudioRunsOnce`).
- Cleanup can be completed after a run if and only if the event loop has not left by hang-up
  (`LifecycleProgress.CleanupCanFinish`).
- The RTT result array is never overrun if and only if at most 1024 results arrive up to the
  completing event (`Rtt.StreamFits`); one event with 1025 empty results already overruns it
  (`Rtt.OneEventFits`). The records of a scan are read inside their attribute
  if and only if a driver record is no larger than a HAL one (`ScanResults.RecordsInside`).

## Model

| member | source | states |
|---|---|---|
| HandlerTables.MoveDown | wifi_hal/common.cpp:119-121 | memmove over a slot of the used part removes exactly that entry and leaves the unused part alone |
| HandlerTables.HalInfo.RegisterHandler | wifi_hal/common.cpp:52-75 | append at the end if and only if there is room; the result tells which; the command table is untouched |
| HandlerTables.HalInfo.RegisterVendorHandler | wifi_hal/common.cpp:77-101 | the same for a vendor key |
| HandlerTables.HalInfo.UnregisterHandler | wifi_hal/common.cpp:103-127 | removes the first entry of a plain key, keeps the order of the others, and refuses the vendor command |
| HandlerTables.HalInfo.UnregisterVendorHandler | wifi_hal/common.cpp:129-150 | removes the first entry of the vendor key and no other |
| HandlerTables.HalInfo.LookUp | wifi_hal/wifi_hal.cpp:517-544 | an event finds the first entry whose key matches, vendor id and subcommand mattering for vendor events only |
| HandlerTables.HalInfo.RegisterCmd | wifi_hal/common.cpp:153-173 | append to the command table if and only if there is room |
| HandlerTables.HalInfo.UnregisterCmdById | wifi_hal/common.cpp:175-198 | removes and returns the first command with the id, or nothing |
| HandlerTables.HalInfo.GetCmd | wifi_hal/common.cpp:200-214 | finds the first command with the id and changes nothing |
| HandlerTables.HalInfo.UnregisterCmd | wifi_hal/common.cpp:216-229 | removes the first entry of the given command |
| HandlerTables.EachKeyIsAQueue | wifi_hal/common.cpp:52-150 | after any history of calls the table is, for every key, a FIFO queue fed by the registrations that found room; the event goes to its head or to nobody; the count never exceeds the capacity |
| HandlerTables.StepOnQueue | wifi_hal/common.cpp:52-150 | one call on the whole table is one step of the queue of its own key and none of any other |
| HandlerTables.DispatchIsHead | wifi_hal/wifi_hal.cpp:517-544 | the look-up yields the head of the key's queue, and nothing exactly when that is empty |
| HandlerTables.ArgsOfRemove | wifi_hal/common.cpp:129-150 | a removal pops the queue of its key and leaves the other queues as they were |
| HandlerTables.RemoveKeyMembers | wifi_hal/common.cpp:135-147 | without repeated keys, exactly the entry of the removed key is gone |
| HandlerTables.HalInfo.CancelNext | wifi_hal/wifi_hal.cpp:384-400 | one round of the draining loop takes the entry at the position and counts it as bad exactly when its cancel left it in the table |
| HandlerTables.HalInfo.Drain | wifi_hal/wifi_hal.cpp:376-400 | terminates; cancels and releases every outstanding command exactly once in table order, whether or not a cancel removes its own entry; only entries that did not remove themselves stay |
| HandlerTables.DrainStep | wifi_hal/wifi_hal.cpp:384-400 | the next entry at the loop position is the next one of the original table, and removal by pointer hits that one |
| LifecycleProof.EveryRunIsSafe | wifi_hal/wifi_hal.cpp:513-547 | in every interleaving no deleted command and no freed hal_info is touched; a count is the owner share plus the callbacks in flight; a command is deleted exactly at zero; its owner share is given up at most once; table entries point to live owned commands |
| LifecycleProof.RunKeeps | wifi_hal/cpp_bindings.h:253-265 | every run of any length keeps the invariant |
| LifecycleProof.CleanupLeavesNothing | wifi_hal/wifi_hal.cpp:374-409 | after a completed cleanup the callback table is empty and every command ever created is deleted, its owner share given up exactly once |
| LifecycleProof.LoopIsGoneBeforeDraining | wifi_hal/wifi_hal.cpp:422-480 | from the first drained command on the event loop has returned and none of its steps is possible, so the final free comes last |
| LifecycleProof.NeverStuck | wifi_hal/wifi_hal.cpp:348-409 | in every reachable state each thread can step, except where it has ended or cleanup waits for Done |
| LifecycleProgress.CleanupCanFinish | wifi_hal/wifi_hal.cpp:348-409 | after any run cleanup can still be brought to its end if and only if the event loop has not left by hang-up; otherwise it waits for Done for ever |
| LifecycleProgress.RunToFinished | wifi_hal/wifi_hal.cpp:348-409 | from every state whose loop has not hung up there is a run that completes cleanup, by a measure over both threads' positions |
| LifecycleProgress.HangUpShows | wifi_hal/wifi_hal.cpp:455-457 | the loop is gone without an answer exactly when a hang-up occurred in the run |
| LifecycleProgress.StopThenStart | wifi_hal/gscan.cpp:733-751 | a stop call through a temporary command runs to its end, takes out exactly the callbacks under its keys, deletes the temporary command, changes nothing else, and leaves the way free for another start of the same kind |
| LifecycleProgress.CancelRuns | wifi_hal/gscan.cpp:651-669 | cancel on any command, run to its end, takes out every callback under its keys and nothing else, and gives up one share of it |
| LifecycleCalls.CancelById | wifi_hal/common.cpp:231-244 | wifi_cancel_cmd for any entry of the table, in any reachable state between calls: exactly that entry goes, exactly the callbacks under the command's keys go, the owner share is given up once, and the command stays alive only while its callback is running |
| LifecycleCalls.CancelFinds | wifi_hal/common.cpp:231-239 | the command registered under the id is found, its entry and no other is taken out, and its cancel begins with its own keys |
| LifecycleCalls.CancelFindsNothing | wifi_hal/common.cpp:235-243 | without an entry of that id nothing changes |
| LifecycleCalls.StartSucceeds | wifi_hal/gscan.cpp:599-731 | a start call whose requests succeed leaves the command owned and in the table, with one callback for each key of its cancel behind the callbacks that were there, and changes nothing else |
| LifecycleCalls.StartFails | wifi_hal/gscan.cpp:640-729 | a start call failing at any of its requests leaves both tables as they were, in order, and deletes its command |
| LifecycleCalls.StartRefused | wifi_hal/gscan.cpp:717-723 | a start call that finds the command table full deletes its command and changes no table |
| LifecycleCalls.NobodyIsCalled | wifi_hal/wifi_hal.cpp:515-547 | an event under whose key nothing is registered changes nothing |
| LifecycleCalls.OneIsCalled | wifi_hal/wifi_hal.cpp:515-535 | an event calls the callback registered under its key, with one reference taken and nothing else changed |
| LifecycleCalls.CallReturns | wifi_hal/wifi_hal.cpp:515-547 | a callback that does not end its command leaves the whole state as it was |
| LifecycleCalls.CallEnds | wifi_hal/rtt.cpp:608-618 | a completing event takes out exactly the command's handler and entry, gives its owner share up once and deletes it |
| LifecycleCalls.NothingStale | wifi_hal/wifi_hal.cpp:513-547 | at any point of any run the commands the next step dereferences are alive, and hal_info is not freed when it is used |
| LifecycleCalls.FaultIs | wifi_hal/cpp_bindings.h:253-265 | the fault of the machine is exactly a step that reads a deleted command or a freed hal_info |
| LifecycleHandover.UnregisterIsOwn | wifi_hal/common.cpp:129-150 | at any point of any run an unregister call takes out only the callback of the command that makes it if and only if no other command holds the key then; steps without such a call take out nothing |
| LifecycleHandover.UnwindIsOwn | wifi_hal/gscan.cpp:641-647 | in any run the handlers a failed start removes are its own |
| LifecycleHandover.StaleUnregister | wifi_hal/rtt.cpp:608-656 | a run that meets every guard: start A, its completing event arrives, A is cancelled through a temporary command, B is started, then A's callback unregisters B's handler, B being alive and in the table |
| LifecycleProof.ScriptsAreWellFormed | wifi_hal/gscan.cpp:599-669 | every start/cancel pair registers each key once and under a key cancel removes; a failing request removes all handlers so far and no other key; an RTT command registers last |
| LifecycleProof.StartKeeps | wifi_hal/gscan.cpp:707-731 | allocating and registering a command, or releasing it when the table is full, keeps the invariant, also beside live commands of the same kind that have no callback registered |
| LifecycleProof.RegisterKeeps | wifi_hal/gscan.cpp:636-638 | registering a handler during start keeps the invariant, also when the table is full |
| LifecycleProof.RequestKeeps | wifi_hal/gscan.cpp:640-648 | a driver request during start, succeeding or failing, keeps the invariant |
| LifecycleProof.UnwindKeeps | wifi_hal/gscan.cpp:641-647 | each handler removed after a failed start keeps the invariant |
| LifecycleProof.FailUnregisterKeeps | wifi_hal/gscan.cpp:723-729 | a failed start takes out its own command and nobody else's |
| LifecycleProof.CancelKeeps | wifi_hal/common.cpp:231-244 | taking a command out by id, or finding nothing, keeps the invariant; what it does is LifecycleCalls.CancelById |
| LifecycleProof.CancelOpKeeps | wifi_hal/gscan.cpp:651-669 | each step of cancel on a command that may have a callback in flight keeps the invariant |
| LifecycleProof.ReleaseKeeps | wifi_hal/cpp_bindings.h:258-265 | the API thread's release gives up the owner share and deletes only when no callback is in flight |
| LifecycleProof.StopKeeps | wifi_hal/wifi_hal.cpp:1178-1194 | a temporary command built to run cancel is not owned by any table |
| LifecycleProof.DispatchKeeps | wifi_hal/wifi_hal.cpp:515-535 | look-up and addRef under the lock: the command found is alive and gets one more reference |
| LifecycleProof.EndUnregisterKeeps | wifi_hal/rtt.cpp:608-609 | a command that ends itself removes its own handler while the other thread may be cancelling it |
| LifecycleProof.EndCommandKeeps | wifi_hal/rtt.cpp:616-616 | its look-up by id finds itself or, when a cancel won the race, nothing |
| LifecycleProof.EndReleaseKeeps | wifi_hal/rtt.cpp:617-618 | giving up the owner share inside the callback cannot delete the running command |
| LifecycleProof.FinishKeeps | wifi_hal/wifi_hal.cpp:536-540 | the event thread's release drops the in-flight reference and deletes exactly when it was the last |
| LifecycleProof.DrainOpKeeps | wifi_hal/wifi_hal.cpp:384-399 | draining one command hands its share from the table to cleanup |
| LifecycleProof.ReadDoneKeeps | wifi_hal/wifi_hal.cpp:363-382 | when Done is read the loop has ended, and every command the log loop reads is alive |
| Netlink.AttrsInBounds | wifi_hal/cpp_bindings.h:91-131 | on arbitrary bytes the walk visits attributes inside its range, in order and without overlap, also when padding runs past the end |
| Netlink.NestedInBounds | wifi_hal/gscan.cpp:954-961 | an iterator started on an attribute of another walk stays inside that attribute |
| Netlink.WalkIsMaximal | wifi_hal/cpp_bindings.h:99-104 | on arbitrary bytes the walk follows the headers without a gap and stops only where no header fits, or a length is under 4 or beyond the end |
| Netlink.NlIterator.constructor | wifi_hal/cpp_bindings.h:95-98 | the iterator starts with all attributes inside the given one |
| Netlink.NlIterator.HasNext | wifi_hal/cpp_bindings.h:99-101 | true exactly when attributes are left |
| Netlink.NlIterator.Next | wifi_hal/cpp_bindings.h:102-104 | drops the first attribute left and lowers the remaining length by at least 4 |
| Netlink.NlIterator.Get | wifi_hal/cpp_bindings.h:105-128 | type and payload of the first attribute left |
| Netlink.WifiRequest.Put | wifi_hal/cpp_bindings.h:176-178 | appends the padded attribute if and only if the message has room, otherwise changes nothing |
| Netlink.WifiRequest.PutU32 | wifi_hal/cpp_bindings.h:185-187 | the same for a 32-bit number |
| Netlink.WifiRequest.AttrStart | wifi_hal/cpp_bindings.h:198-200 | opens a nest with an empty header if there is room |
| Netlink.WifiRequest.AttrEnd | wifi_hal/cpp_bindings.h:201-203 | turns an open header and the attributes written behind it into one attribute whose payload is exactly those attributes |
| Netlink.CloseNest | wifi_hal/cpp_bindings.h:198-203 | patching the length of an open header makes the encoding of one nest, its length covering exactly the children |
| Netlink.EncodedBytes | wifi_hal/cpp_bindings.h:176-178 | every byte of an attribute: its length and type, least significant byte first, the payload, and zeros up to a multiple of four |
| Netlink.WalkFindsItems | wifi_hal/cpp_bindings.h:91-131 | walking encoded attributes finds exactly those, with their types and bytes |
| Netlink.WalkFindsNested | wifi_hal/cpp_bindings.h:95-98 | walking into a nest finds exactly its children |
| Netlink.ReadsU32 | wifi_hal/cpp_bindings.h:117-119 | a number put is the number read, modulo 2^32 |
| ScanSetup.PutFields | wifi_hal/gscan.cpp:498-536 | a run of numbers is written whole, or the failure is reported |
| ScanSetup.PutChannels | wifi_hal/gscan.cpp:538-550 | the channel nest holds channel j under type j, and nothing for a negative count |
| ScanSetup.PutBucket | wifi_hal/gscan.cpp:497-552 | one bucket nest holds its seven numbers and its channels |
| ScanSetup.CheckAndPutBucket | wifi_hal/gscan.cpp:507-536 | a band outside 0 to 7 becomes 3 in the caller's struct, any other band and every other field stay, and the bucket as it then is gets written |
| ScanSetup.PutData | wifi_hal/gscan.cpp:485-556 | the vendor data holds base period, bucket count and every bucket in order |
| ScanSetup.RoundTrip | wifi_hal/gscan.cpp:479-557 | a request read back by position, recursing into nests, yields exactly the base period, the bucket count, each bucket's fields and its channels, number by number |
| ScanSetup.CreateSetupRequest | wifi_hal/gscan.cpp:479-557 | success if and only if the whole request fits the message; then the message reads back as the parameters field by field, a band from 0 to 7 as itself and any other as 3, the same in the caller's struct; on failure only a beginning of the buckets is corrected |
| ScanSetup.RequestRoom | wifi_hal/gscan.cpp:479-557 | the number of bytes a request needs |
| ScanResults.GetScanResultsCommand.Store | wifi_hal/gscan.cpp:983-1000 | the next free slot gets the scan; the slots filled stay a prefix of everything reported |
| ScanResults.GetScanResultsCommand.HandleNest | wifi_hal/gscan.cpp:958-1005 | one result nest adds its scans, with id, flags and mask as last seen, as far as there is room |
| ScanResults.GetScanResultsCommand.HandleResponse | wifi_hal/gscan.cpp:926-1013 | one reply adds what the capacity-free fold over its attributes adds, and sets the completion flag likewise |
| ScanResults.GetScanResultsCommand.RequestResponse | wifi_hal/cpp_bindings.cpp:594-626 | any number of replies to one request |
| ScanResults.GetScanResultsCommand.OneRound | wifi_hal/gscan.cpp:893-919 | a round asks for exactly mMax - mRetrieved and goes on if and only if there was no error, something new and no completion flag |
| ScanResults.GetScanResultsCommand.Execute | wifi_hal/gscan.cpp:889-924 | the slots are the first mMax scans of the fold over all rounds; at most ten requests, each asking for exactly what is missing; the error of the last round is returned, and mNum reported on success only |
| ScanResults.RunsUntilIsExact | wifi_hal/gscan.cpp:893-919 | the replies determine how many requests are sent: no smaller number satisfies the stopping condition |
| ScanResults.MsgsAppend | wifi_hal/gscan.cpp:954-1010 | replies only ever add scans behind those reported before |
| ScanResults.StaysFull | wifi_hal/gscan.cpp:975-978 | a full array stays the right prefix whatever else is reported |
| ScanResults.RecordsInside | wifi_hal/gscan.cpp:979-987 | the capped count, stepped by the driver's record size, stays inside the attribute for all replies if and only if that size is at most the HAL's |
| ScanContents.ScansOfNest | wifi_hal/gscan.cpp:957-1005 | the scans of a nest are made by its lists of records for which the count is not 0, in order; id, flags and bucket mask are those of the last attribute of their type before it, 0 without one; the count is the last one announced, cut by every list since; the records are the bytes at their offsets |
| ScanContents.ScansOfAttr | wifi_hal/gscan.cpp:954-1008 | an attribute of a reply adds the scans inside it if its type is from 30 to 36, and nothing otherwise |
| ScanContents.LastFlag | wifi_hal/gscan.cpp:955-957 | the completion flag is the byte of the last attribute of its type, or what it was without one |
| ScanContents.ReplyAt | wifi_hal/gscan.cpp:926-954 | a reply counts only as a vendor reply with data, and its attributes are those behind its first header |
| ScanContents.RoundAt | wifi_hal/gscan.cpp:893-911 | a round whose request cannot be made brings nothing, any other brings its replies, also when it fails |
| ScanContents.RequestsSent | wifi_hal/gscan.cpp:893-919 | requests are sent until ten are, the array is full, or a round ends with an error, nothing new or the completion flag |
| ScanContents.NestBringsScan | wifi_hal/gscan.cpp:957-1005 | a nest made of a given id, flags, mask and records yields the slot with exactly these |
| ScanContents.ReplyBrings | wifi_hal/gscan.cpp:926-1013 | a reply made of any list of scans and a flag adds exactly those scans in order and sets the flag |
| Rtt.RttCommand.Keep | wifi_hal/rtt.cpp:548-602 | a result is kept and both counters move together, or a failed allocation marks completion |
| Rtt.RttCommand.HandleTarget | wifi_hal/rtt.cpp:535-604 | one target's nest adds its results in order |
| Rtt.RttCommand.Collect | wifi_hal/rtt.cpp:528-607 | one event adds what the fold over its attributes adds, which RttStreams describes |
| Rtt.RttCommand.FreeAll | wifi_hal/rtt.cpp:611-615 | each kept result is freed once, in order, and the counters return to zero |
| Rtt.RttCommand.HandleEvent | wifi_hal/rtt.cpp:521-621 | on completion: one delivery of all results, all freed, handler and command out of the tables; otherwise tables and deliveries are untouched |
| Rtt.RttCommand.DispatchAll | wifi_hal/rtt.cpp:521-621 | over any stream of events the handler is called at most once, with everything collected, every result is freed exactly once, the command found by its id is released once, and after completion no event reaches the command |
| Rtt.StreamInOrder | wifi_hal/rtt.cpp:528-607 | with memory available the collected results are those of all events up to the completing one, in arrival order |
| Rtt.StreamFits | wifi_hal/rtt.cpp:548-602 | with memory available no write misses the result array if and only if at most 1024 results arrive up to the completing event |
| Rtt.OneEventFits | wifi_hal/rtt.cpp:548-602 | a single event with n empty results stays inside the result array if and only if n is at most 1024, so overrunning streams exist |
| RttStreams.TargetOutcome | wifi_hal/rtt.cpp:535-604 | a target adds its results up to the first failed allocation, which marks completion and ends the target |
| RttStreams.ResultsOfTarget | wifi_hal/rtt.cpp:551-602 | the results of a target are the bytes of its result attributes, in order |
| RttStreams.ResultsOfAttr | wifi_hal/rtt.cpp:532-535 | an attribute of an event adds the results inside it if it is a target, and nothing otherwise |
| RttStreams.CompletedBy | wifi_hal/rtt.cpp:529-560 | after an event completion is what the last attribute to decide says: a completion flag its value, a target without memory 1; unchanged when none decides |
| RttStreams.FlagDecides | wifi_hal/rtt.cpp:529-531 | with memory completion is the value of the event's last completion flag, or unchanged without one |
| RttStreams.StreamEnds | wifi_hal/rtt.cpp:528-608 | with memory a stream is completed if and only if the last flag of some event is not 0, and what was collected are the results up to the first such event |
| RttStreams.EventBrings | wifi_hal/rtt.cpp:528-607 | an event made of given results and a flag adds exactly those results and sets the flag |
| RttStreams.DeliverOne | wifi_hal/rtt.cpp:521-621 | such an event with a flag other than 0 brings exactly one delivery of exactly these results, each freed once, and takes the command out of both tables; with flag 0 it brings none |
| DriverCommand.TokensAreSplit | wpa_supplicant_8_lib/mediatek_driver_cmd_nl80211.c:1205-1232 | the tokens are the pieces between separators, one trailing empty piece dropped |
| DriverCommand.SplitJoins | wpa_supplicant_8_lib/mediatek_driver_cmd_nl80211.c:1205-1232 | the pieces contain no space and no newline, and joined by spaces and newlines they are the text |
| DriverCommand.StartsCount | wpa_supplicant_8_lib/mediatek_driver_cmd_nl80211.c:1212-1229 | there is at most one more token than separators, so 63 separators fit 64 arguments |
| DriverCommand.WordsInBuffer | wpa_supplicant_8_lib/mediatek_driver_cmd_nl80211.c:1212-1229 | the C strings at the noted positions of the overwritten buffer are the tokens |
| DriverCommand.TokenizeSpace | wpa_supplicant_8_lib/mediatek_driver_cmd_nl80211.c:1205-1232 | terminates, notes the start of every token, and changes the buffer only where a separator becomes NUL |
| P2pCommands.AtoiInvertsDecimal | wpa_supplicant_8_lib/mediatek_driver_cmd_nl80211.c:1271-1273 | parsing a printed number gives the number |
| P2pCommands.AtoiReads | wpa_supplicant_8_lib/mediatek_driver_cmd_nl80211.c:1271-1273 | white space in front, a sign, leading zeros and whatever follows the digits do not disturb the number read |
| P2pCommands.DigitsAre | wpa_supplicant_8_lib/mediatek_driver_cmd_nl80211.c:2044-2053 | each printed digit is the decimal one of its place, and the first is not 0 except for 0 |
| P2pCommands.PrintedText | wpa_supplicant_8_lib/mediatek_driver_cmd_nl80211.c:2044-2073 | the text handed to the dispatcher is the name and the three numbers in order, separated by spaces |
| P2pCommands.FourWords | wpa_supplicant_8_lib/mediatek_driver_cmd_nl80211.c:1258-1263 | a printed command tokenizes to its name and its three numbers |
| P2pCommands.PrintedWhole | wpa_supplicant_8_lib/mediatek_driver_cmd_nl80211.c:2044-2073 | the command buffer never cuts a printed command short |
| P2pCommands.NotCaughtEarlier | wpa_supplicant_8_lib/mediatek_driver_cmd_nl80211.c:1585-1920 | no branch tried earlier catches text that begins with P2P_SET_ |
| P2pCommands.SetBit7Sets | wpa_supplicant_8_lib/mediatek_driver_cmd_nl80211.c:1318-1320 | bit 7 is on afterwards and no other bit changes |
| P2pCommands.HandleNoa | wpa_supplicant_8_lib/mediatek_driver_cmd_nl80211.c:1234-1282 | the handler on the buffer it overwrites sends the numbers of the four tokens, or rejects |
| P2pCommands.HandlePs | wpa_supplicant_8_lib/mediatek_driver_cmd_nl80211.c:1284-1329 | likewise, with bit 7 set when the third token is not zero |
| P2pCommands.DriverCmd | wpa_supplicant_8_lib/mediatek_driver_cmd_nl80211.c:1917-1920 | dispatch and handling together are the meaning of the command text |
| P2pCommands.MeaningIs | wpa_supplicant_8_lib/mediatek_driver_cmd_nl80211.c:1234-1329 | any text that begins with one of the two names is rejected unless it has exactly four words, and otherwise sends the numbers of words two to four, bit 7 of the last forced on if the third is not zero; no other text sends anything here |
| P2pCommands.NoaRoundTrip | wpa_supplicant_8_lib/mediatek_driver_cmd_nl80211.c:2044-2053 | for every count, start and duration the printed text means exactly these numbers modulo 2^32 |
| P2pCommands.PsRoundTrip | wpa_supplicant_8_lib/mediatek_driver_cmd_nl80211.c:2064-2073 | for every legacy_ps, opp_ps and ctwindow the text means ctwindow, bit 7 forced on if and only if opp_ps is not zero |
| P2pCommands.SetP2pNoa | wpa_supplicant_8_lib/mediatek_driver_cmd_nl80211.c:2044-2053 | the setter, run through buffer, dispatcher, tokenizer and parser, sends its own arguments |
| P2pCommands.SetP2pPs | wpa_supplicant_8_lib/mediatek_driver_cmd_nl80211.c:2064-2073 | likewise for power save |
| SharedFreqs.Distinct | wpa_supplicant_8_lib/mediatek_driver_cmd_nl80211.c:1514-1561 | effective frequencies in first-occurrence order, pairwise distinct |
| SharedFreqs.DistinctIs | wpa_supplicant_8_lib/mediatek_driver_cmd_nl80211.c:1533-1550 | the list has each frequency in use by an associated interface, its own as AP or group owner and that of its association otherwise, in the order of their first users |
| SharedFreqs.MarkOf | wpa_supplicant_8_lib/mediatek_driver_cmd_nl80211.c:1552-1556 | the mark of a frequency is that of the last infrastructure station on it, 2 for a P2P client and 1 otherwise, 0 without one |
| SharedFreqs.SeenIs | wpa_supplicant_8_lib/mediatek_driver_cmd_nl80211.c:1530-1531 | the interfaces looked at are the shortest beginning that fills the array, or all |
| SharedFreqs.SeenIsEnough | wpa_supplicant_8_lib/mediatek_driver_cmd_nl80211.c:1514-1561 | stopping when the array is full cuts the list of distinct frequencies and does not change it |
| SharedFreqs.Find | wpa_supplicant_8_lib/mediatek_driver_cmd_nl80211.c:1545-1547 | finds the slot that already has the frequency, or the end |
| SharedFreqs.SharedFreqsData | wpa_supplicant_8_lib/mediatek_driver_cmd_nl80211.c:1514-1561 | returns exactly the first min(len, number of distinct) frequencies with the marks of their last station interface; the rest is zero |
| SharedFreqs.CopyFreqs | wpa_supplicant_8_lib/mediatek_driver_cmd_nl80211.c:1563-1582 | the integer array agrees with that list and is zero beyond it; -1 without memory |
| ElfPatch.VirtualToFileOffset | tools/patch_librilmtk_proxy_channel.py:24-37 | the loop computes the translation by the first covering LOAD segment, or fails as the script does |
| ElfPatch.TranslateIsFirst | tools/patch_librilmtk_proxy_channel.py:24-37 | on any file: translation fails unless the first six bytes are those expected, and otherwise gives the offset by the first header whose LOAD segment holds the address, or fails when there is none or a header before it is cut off |
| ElfPatch.TranslateIsTheSegment | tools/patch_librilmtk_proxy_channel.py:30-36 | with disjoint segments the translation is that of the covering segment, whichever header describes it |
| ElfPatch.TranslateInjective | tools/patch_librilmtk_proxy_channel.py:30-36 | with disjoint segments no byte of the file is loaded at two addresses |
| ElfPatch.HeadersSame | tools/patch_librilmtk_proxy_channel.py:52-52 | an overwrite away from the headers changes no field of them, also when it makes the file longer |
| ElfPatch.PatchCommutesWithLoading | tools/patch_librilmtk_proxy_channel.py:47-57 | loading the patched file is loading the original and overwriting exactly the patched addresses; all translations stay the same |
| ElfPatch.PatchAllCommutesWithLoading | tools/patch_audio_dc_calibration.py:82-86 | the same for any number of sites patched one after the other |
| ElfPatch.LoadIsTranslate | tools/patch_librilmtk_proxy_channel.py:24-37 | for an image with disjoint segments the scripts' translation gives the byte that the segments alone say is loaded, and fails where nothing is loaded |
| SampleImages.RilSample | tools/patch_librilmtk_proxy_channel.py:40-57 | a 64-bit file that the RIL script accepts and that meets the premises about loading |
| SampleImages.AudioSample | tools/patch_audio_dc_calibration.py:63-87 | a 32-bit file that the audio script accepts and that meets the premises about loading |
| SampleImages.RerunCanFail | tools/patch_librilmtk_proxy_channel.py:47-57 | a file the RIL script accepts, with the patch reaching into the ELF header, whose patched form it refuses |
| ElfPatch.OrderDoesNotMatter | tools/patch_audio_dc_calibration.py:82-86 | sites without a common address can be patched in either order, byte for byte |
| PatchScripts.PatchProxyChannel | tools/patch_librilmtk_proxy_channel.py:40-57 | accepts exactly files that contain the build ID and show the original or the patch at the translated address; the file written has the patch in these eight bytes and every other byte as before; otherwise nothing is written |
| PatchScripts.BuildIdSurvives | tools/patch_librilmtk_proxy_channel.py:44-52 | the build ID cannot overlap the prologue that is overwritten, so it is still found afterwards |
| PatchScripts.ProxyRunsAgain | tools/patch_librilmtk_proxy_channel.py:47-57 | running the script on its own output is accepted and changes nothing if and only if the address shows the patch in that output; it does when the file was already patched or the patch lies away from the headers |
| PatchScripts.ProxyChannelPinned | tools/patch_librilmtk_proxy_channel.py:47-57 | in memory exactly the eight bytes at the function's address change |
| PatchScripts.PatchAudio | tools/patch_audio_dc_calibration.py:63-87 | accepts exactly files that contain the build ID and show the three expected code sequences; every byte written is that of the last of the three patches that lies there, else as before |
| PatchScripts.AudioIsPatchAll | tools/patch_audio_dc_calibration.py:70-86 | translating all addresses first is as good as translating before each overwrite |
| PatchScripts.AudioPatched | tools/patch_audio_dc_calibration.py:70-87 | in memory exactly the three patched ranges change, to the intended bytes |
| PatchScripts.AudioRunsOnce | tools/patch_audio_dc_calibration.py:74-75 | the script refuses its own output for every accepted file whose three patches lie away from the headers, also with overlapping segments and patches past the end |
| HwcPatch.PatchesSpaced | patches/patch-hwc-retire-fence.py:16-23 | the six sites do not overlap and no stock instruction is a NOP |
| HwcPatch.Normalise | patches/patch-hwc-retire-fence.py:33-43 | accepts exactly files all of whose sites are known, and computes the file with all of them stock |
| HwcPatch.ApplyNops | patches/patch-hwc-retire-fence.py:55-59 | turns all sites into NOPs and counts exactly those that were not |
| HwcPatch.PatchFile | patches/patch-hwc-retire-fence.py:26-67 | for any table of non-overlapping sites, in any order: accepted if and only if every site shows its stock instruction or a NOP and the file with all of them stock has the digest; then every site is a NOP, every other byte is as before, and the count is the number of stock sites; rejection leaves the file alone |
| HwcPatch.PatchHwc | patches/patch-hwc-retire-fence.py:26-67 | the same for the six sites of the script |
| HwcPatch.OnlyMixtures | patches/patch-hwc-retire-fence.py:45-53 | for a digest that only one stock file has, exactly the mixtures of its patched and unpatched sites are accepted |
| HwcPatch.LastFillingWins | patches/patch-hwc-retire-fence.py:43-58 | rewriting the sites hides whatever they held before |
| HwcPatch.Converges | patches/patch-hwc-retire-fence.py:45-58 | two files end up the same if and only if their normalised forms are the same |
| HwcPatch.MixturesConverge | patches/patch-hwc-retire-fence.py:45-58 | every mixture of patched and unpatched sites of one stock file is accepted like it and leads to the same bytes |
| HwcPatch.OnlyTheSites | patches/patch-hwc-retire-fence.py:55-59 | length and all bytes outside the sites are unchanged; all sites are NOPs |
| HwcPatch.SecondRun | patches/patch-hwc-retire-fence.py:61-63 | a second run is accepted, changes zero sites and leaves the file as it is |
| Roaming.HandleResponse | wifi_hal/wifi_hal.cpp:984-1001 | the first two capability attributes become the limits, each capped by its maximum; later ones are ignored; missing ones leave the caller's words |
| Roaming.ValuesOf | wifi_hal/wifi_hal.cpp:993-996 | what is reported are the numbers of the capability attributes, in order |
| Roaming.LimitsAre | wifi_hal/wifi_hal.cpp:990-1001 | the blacklist limit is the first capability of the last reply that has one, the whitelist limit the second; a value up to the maximum is taken as it is, a larger one becomes the maximum |
| Roaming.ReplySets | wifi_hal/wifi_hal.cpp:984-1001 | a reply made of two numbers sets exactly these limits |
| Roaming.RoamingInfo.GetRoamingCapabilities | wifi_hal/wifi_hal.cpp:1196-1229 | asks the driver only while both cached limits are zero, caches only on success, and otherwise repeats the cache |
| Roaming.RoamingInfo.ConfigureRoaming | wifi_hal/wifi_hal.cpp:1231-1259 | a configuration is sent if and only if both counts are within the cached limits and the request could be built |
| Roaming.CacheIsFirstAnswer | wifi_hal/wifi_hal.cpp:1213-1226 | after any sequence of calls the cache is the first successful answer other than zero |
| Roaming.LaterGetsRepeat | wifi_hal/wifi_hal.cpp:1224-1226 | later gets repeat that answer |
| Roaming.WithinMaxima | wifi_hal/wifi_hal.cpp:990-1001 | one reply leaves a limit within its maximum if and only if it reports that limit or the caller's word was small enough |
| Roaming.CacheWithinMaxima | wifi_hal/wifi_hal.cpp:1213-1226 | after any sequence of calls the cached limits are within the maxima if and only if there was no successful nonzero get, or the first one had each word reported or small beforehand |
| Roaming.CallerCanMakeSure | wifi_hal/wifi_hal.cpp:1213-1223 | every reply leaves the cache within the maxima if and only if the caller's own two words are within them |
| Roaming.CarefulCallers | wifi_hal/wifi_hal.cpp:1196-1229 | callers who always see to that keep the cache within the maxima over any sequence of calls, whatever the driver replies |
| Roaming.MissingAttributesAreCached | wifi_hal/wifi_hal.cpp:1216-1223 | a successful reply without attributes makes the HAL cache and later accept the caller's own words |
| Roaming.LimitsRespected | wifi_hal/wifi_hal.cpp:1241-1258 | if successful replies carry both attributes, the limits stay within the maxima over any sequence of calls and every configuration sent respects the first answer; before it only empty ones are sent |
| OmxFilter.RawIndex | omx/MtkOMXPlugin.cpp:69-75 | the plugin's index i belongs to a usable component of the core with exactly i usable ones before it |
| OmxFilter.RawIndexIncreases | omx/MtkOMXPlugin.cpp:69-75 | counting up meets the components in the order of the core |
| OmxFilter.EachUsableOnce | omx/MtkOMXPlugin.cpp:69-75 | a component is met if and only if it is usable, at exactly one index |
| OmxFilter.EnumerateComponents | omx/MtkOMXPlugin.cpp:62-76 | succeeds if and only if the index is below the number of usable components, with the index-th of them; otherwise passes the core's own error on |
| OmxFilter.VisibleMembers | omx/MtkOMXPlugin.cpp:98-106 | a name is enumerated if and only if it is one of the core's, is not the AVC encoder and does not begin with OMX.MTK.VIDEO.DECODER. |
| OmxFilter.MakeComponentInstance | omx/MtkOMXPlugin.cpp:44-55 | exactly these names are refused, a missing name not; of the core's names exactly the enumerated ones pass |
| OmxFilter.InstantiateAt | omx/MtkOMXPlugin.cpp:44-76 | enumerating an index and instantiating the name found gives the core's own answer for exactly the index-th usable component; no enumerated name is refused |

## Left out

- libnl, sockets, poll, locks and malloc themselves: replaced by the TLV format, by replies given as parameters and by atomic steps.
- `wifi_hal.h` and `nl80211_copy.h` are not part of the repository: band values, list maxima, error codes and nl80211 numbers are the ones Android publishes; so is `MAX_DRV_CMD_SIZE` (248), which the driver commands use and the repository does not define; a `feature_set` is taken to be one 32-bit word.
- Reads past the end of a buffer: the model reads zeros there, so results that depend on memory behind a message are not captured.
- Netlink.WifiRequest.Put: the message holds attributes only, its headers are not modelled; messages are shorter than 65536 bytes, as the allocation of one page guarantees.
- ScanSetup.CreateSetupRequest: a channel count larger than the caller's array is not modelled; with a negative count and no room for even the header of the channel nest the source hands NULL to libnl, which the model reports as a failure; an empty nest is kept, as the format allows.
- ScanResults.GetScanResultsCommand.HandleNest: an access point is kept as its record, byte for byte; the conversion of a record to the HAL's struct is not modelled, and the two record sizes are parameters.
- Rtt.RttCommand.DispatchAll: streams that overrun the result array (exactly those of Rtt.StreamFits) and events without vendor data, on which the source reads through NULL, are excluded; the LCI/LCR pointers inside a result are not modelled.
- Rtt.RttCommand.HandleEvent: whether a malloc succeeds is a parameter; a delivery and a free are recorded in the order they happen.
- LifecycleProof.EveryRunIsSafe: starting a command under the id of a live one, or while a callback is registered under one of its keys, overlapping API calls and cleanup's fallback after a failed write are outside the machine.
- LifecycleCalls.CancelById: this result, and those about whole start calls and whole events, are about calls and events during which the other thread takes no step, a callback possibly being in the middle; for all interleavings the invariant is what is proved.
- HandlerTables.HalInfo.Drain: no command appears twice in the table and none is NULL; a NULL entry would make the loop in the source run forever.
- DriverCommand.TokenizeSpace: the text ends where its length says and its tokens fit the argument array; the source does not check either.
- P2pCommands.Dispatch: the other branches of the dispatcher are told apart only as far as needed to show that they do not catch the two commands.
- P2pCommands.HandleNoa: numbers that do not fit an int, on which atoi is undefined, are parsed without overflow.
- PatchScripts.AudioPatched: the premises (disjoint segments, patches inside one segment and away from the headers) are not checked by the script.
- HwcPatch.PatchFile: SHA-256 is any function from files to strings; messages, the usage check and file access are left out.
- Roaming.RoamingInfo.ConfigureRoaming: the lists are represented by their lengths; the bytes of the request are not modelled.
- OmxFilter.EnumerateComponents: names fit the caller's buffer, the core has a first error, and 32-bit indices do not wrap.
- Logging, the dummy HAL functions, interface discovery, statistics and struct copying, channel tables, the other patch scripts, shims, apps and configuration data: they would only add easy members or need other systems.
