# Models of four Windows drivers and tools, with proofs

This project models the parts of the repository that carry algorithms or protocols and proves what they promise.

**SkeletonI2C**, the controller driver sample. `SpbDriver` holds its device, target and request contexts as classes and
its callbacks as methods; the recursion between completing a transfer and configuring the next one terminates and is
proved equal to a closed form (`SpbCore`). `SpbRuns` is the transition system of every interleaving: dispatches by the
sequential queue, lock and unlock, the delay timer with stale callbacks, interrupts and their deferred callbacks,
cancels, and completions that happen after the lock has been released. `SpbWorld` and `SpbRefinement` tie the two
together: a callback run on the objects is a step of the runs. `SpbInvariant` and `SpbSafety` prove what all runs keep,
`SpbProgress` that every request is completed after finitely many deliveries. `SpbSteps` says what a step does to one
request; with it `SpbCallbacks` tells what each interrupt flag and a cancel come to, `SpbDelays` and `SpbTimers` when a
delay is waited out, `SpbCancel` and `SpbOvercount` when a cancelled request reports no more than its length, and
`SpbReports` what the status of a completed request says. `MdlChain` are the byte accessors over a chain of memory
descriptors.

**devcon**. `WildCard` is the greedy matcher against a declarative glob relation; `MultiSz` writes and indexes
multi-strings; `ClassFilter` and `HardwareIds` are the two edit-script interpreters, with `TextLists` for lists that are
compared without regard to case.

**hclient**. `UsageArray` packs and extracts values of any bit size (`BitArithmetic` is its arithmetic of numbers and
bytes); `Reports` and `ReportTransfer` group data items into reports; `DeviceInfo` expands ranges of usages into slots;
`LinkedList` and `DeviceList` are the circular list and the messages that edit it.

**ezTouchFilter**. `HidItems` reads a report descriptor as short items and gives them their meaning to a parser
(Device Class Definition for HID 1.11, sections 6.2.2.2 and 6.2.2.7); `TiltBlock` is the inserted block, `TiltFilter` the
scan for its place, `TiltDriver` the requests the filter completes, `TiltSuffix` what the block changes for the items behind
it, and `TiltFields` what a parser then reads out of the reports.

What the proofs found, where code and expectation part:

- A timer callback that is already due when its request is cancelled starts the next request's transfer while that
  request's own delay is still running (`StaleCallbackCutsDelayShort`). A request waits for its timer, whatever comes other
  than an interrupt with something to say for it, exactly when no timer callback is queued at its dispatch and no such
  interrupt flag is left over (`DelayExact`, `HeldExact`): a cancel alone harms no later delay, as long as no timer
  callback is queued when its callback runs (`CancelsHarmless`).
- Between a failed unmark and the cancel callback, interrupts count the current transfer again: a read of four bytes can be
  completed as cancelled with eight (`OvercountedRun`). A cancelled request stays within its length as long as no interrupt
  moves data after one of its transfers has ended (`CancelledWithin`). From any reachable state it does so in every run
  exactly when each flag for data or completion is an error flag too, or its current transfer and all at which it will stop
  are empty; otherwise its count can pass every bound (`CancelExact`, `CancelledOver`). Requests that are not cancelled
  never report more than their length.
- Extraction of a usage value does not mask when the element ends beyond bit 32 of its window; the value comes back
  exactly if and only if it ends inside or nothing is set above it, and the sizes for which that can fail are 27, 29, 30
  and 31 (`RoundTripExact`, `MaskedSizes`).
- The packing loop's 16-bit byte index reaches 65536 bytes. The buffer holds the array exactly when the packed number fits
  them (`ConvertUlongListToValueList`); past them there are always values that it loses (`IndexOverflowLosesBits`).
- The tilt block changes report size and report count outside its Push. A descriptor is read as before behind the block
  exactly when no Input, Output or Feature item there comes before both have been set again, counting what a Pop brings back
  (`SuffixExact`, `TiltedReport`); every continuation is only where they were 16 and 1 already (`SizesMatter`).
- The tilt goes into a pen report behind 8 or 9 bytes, whatever the descriptor says. A parser reads it and all other values
  right exactly when the block lies in that report, the input bits before it fill those bytes, and the inputs behind it keep
  their layout (`OffsetFits`).
- The help text of sethwid says that an id without prefix goes behind the previous one. Behind any command that inserts,
  from any list and mark, it does so exactly when it is another id and, of the ids behind, as many as were taken out in
  front of that one are the new id too (`BehindThePrevious`, `NotBehindThePrevious`).
- The comment of cmdClassFilter says that the cursor is reset after any other command and does not list `=`
  (devcon/cmds.cpp:1697-1702); the code resets it on `=` only, and the model follows the code. The help text says the
  cursor only moves forward; it moves back where `-` adds a service before the one it is on (`MovesForward`).
- A value range that ends at usage 0xFFFF makes the 16-bit expansion loop run into its guard, so FillDeviceInfo fails
  (`FillInput`, `FillFeature`). The feature section counts without a check and may leave slots empty (`FeatureFull`).
- The comment on `g_TransferSettings` names request types, but the table is indexed by sequence position; the model
  follows the code.

The framework under SkeletonI2C keeps the rules that `SpbRuns.Enabled` lists: the queue is sequential, presents the
locking target's transfers only between a lock and an unlock and single transfers and sequences otherwise, and every
request has a transfer; lock, unlock and power transitions come when nothing is outstanding; a cancel callback comes at
most once, for a request that is cancelable and has not been unmarked. Within these rules every order is a run.

Environments are parameters. Registry writes, the service manager, SetupAPI, the HID parser and the framework appear as
outcomes that the caller of a model chooses; allocations succeed. The status flags of the controller stay abstract sets of
bits, and the part of `ControllerTransferData` that is left to be written moves any number of bytes, of which at most the
remaining ones count. The report descriptor is assumed to be tiled exactly by short items and to have the length that was
declared, a written report to have at least 14 readable bytes, and the first byte of a feature report that comes back to be
the report id that was asked for.

## Model

| member | source | states |
|---|---|---|
| SpbCore.SequenceSettings | SkeletonI2C/controller.cpp:19-31 | the start condition holds at transfer 0 only, the stop condition at the last only, and the bus is held in between |
| SpbCore.NextDelayed | SkeletonI2C/device.cpp:1930-1970 | all transfers from i up to the result run without the timer, and the one there, if any, waits for it |
| SpbCore.ProceedStep | SkeletonI2C/controller.cpp:561-586 | the closed form of going on with a transfer is loading it and starting it |
| SpbCore.AdvanceStep | SkeletonI2C/controller.cpp:556-631 | passing the turn loads and starts the next transfer, or ends the request |
| SpbDriver.Request.MarkCancelable | SkeletonI2C/device.cpp:836-854 | marking fails exactly for a request cancelled before, and otherwise makes it cancelable |
| SpbDriver.Request.UnmarkCancelable | SkeletonI2C/controller.cpp:590-612 | unmarking fails exactly when the cancel callback is on its way |
| SpbDriver.PbcRequestConfigureForIndex | SkeletonI2C/device.cpp:1812-1904 | the context is loaded with the transfer at the index; a sequence gets its position from the index |
| SpbDriver.PbcRequestDoTransfer | SkeletonI2C/device.cpp:1906-1973 | a delayed transfer starts the timer, another one runs on to the closed form of the recursion; terminates |
| SpbDriver.ControllerConfigureForTransfer | SkeletonI2C/controller.cpp:89-189 | settings by position, status and interrupt status cleared, and the transfer completed at once; equals the closed form |
| SpbDriver.ControllerCompleteTransfer | SkeletonI2C/controller.cpp:512-659 | counts the transfer's bytes, then ends the request or runs all transfers up to the next delayed one; equals the closed form |
| SpbDriver.AdvanceTransfer | SkeletonI2C/controller.cpp:556-586 | the recursion into the next transfer equals the closed form, with the remaining transfers as measure |
| SpbDriver.EndRequest | SkeletonI2C/controller.cpp:588-654 | the request ends, with mask, current request and target given up as due, unless its cancel callback is to do that |
| SpbDriver.ControllerTransferData | SkeletonI2C/controller.cpp:443-510 | moves some bytes, never more than the transfer has left |
| SpbDriver.ControllerProcessInterrupts | SkeletonI2C/controller.cpp:191-441 | each combination of flags has its outcome: NACKs and errors abort, data moves, completion completes |
| SpbDriver.ControllerProcessData | SkeletonI2C/controller.cpp:319-437 | without an error flag: data first, then the end of the transfer, with a failed move aborting |
| SpbDriver.OnControllerLock | SkeletonI2C/device.cpp:502-562 | the locking target becomes the current one |
| SpbDriver.OnControllerUnlock | SkeletonI2C/device.cpp:564-628 | there is no current target any more |
| SpbDriver.PbcRequestValidate | SkeletonI2C/device.cpp:1558-1613 | refuses a request exactly when one of its transfers is too long |
| SpbDriver.PbcRequestConfigureForNonSequence | SkeletonI2C/device.cpp:1615-1810 | a request that fits and is not cancelled is taken on and started; any other is answered at once and nothing else changes |
| SpbDriver.OnSequence | SkeletonI2C/device.cpp:718-905 | the same for a sequence of transfers |
| SpbDriver.OnDelayTimerExpired | SkeletonI2C/device.cpp:1975-2079 | starts the transfer of whatever request is current, and does nothing when none is |
| SpbDriver.OnInterruptIsr | SkeletonI2C/device.cpp:1223-1298 | recognizes an interrupt by a flag and keeps all flags seen |
| SpbDriver.OnInterruptDpc | SkeletonI2C/device.cpp:1300-1459 | takes the flags once and processes them for the current request, if there is one |
| SpbDriver.OnCancel | SkeletonI2C/device.cpp:1070-1214 | gives up exactly when its request is not current; otherwise the request is aborted as cancelled and is to be completed |
| SpbDriver.PbcRequestComplete | SkeletonI2C/device.cpp:2081-2116 | completes with the status and the byte count the context has then |
| SpbInvariant.SettleKeeps | SkeletonI2C/controller.cpp:588-654 | the end leaves a request live with its cancel callback due, or done with its accounts in order |
| SpbInvariant.ProceedKeeps | SkeletonI2C/controller.cpp:561-586 | after going on, the request is live and has something to wait for, or it is done |
| SpbInvariant.BurstKeeps | SkeletonI2C/controller.cpp:115-186 | a run of undelayed transfers adds no bytes and finishes exactly its transfers |
| SpbInvariant.CompleteKeeps | SkeletonI2C/controller.cpp:512-659 | the same for the end of a transfer by an interrupt or a cancel |
| SpbInvariant.ConfigureKeeps | SkeletonI2C/controller.cpp:89-189 | the same for the start of a transfer |
| SpbInvariant.InterruptKeeps | SkeletonI2C/controller.cpp:191-441 | the same whatever flags an interrupt carries, and however often one comes |
| SpbInvariant.CancelKeeps | SkeletonI2C/device.cpp:1140-1200 | a cancel callback that finds its request current ends it for good |
| SpbInvariant.ErrorDropsBytes | SkeletonI2C/controller.cpp:230-320 | in the interrupt callback an address NACK or generic error adds nothing to the total and aborts the transfer with no byte |
| SpbInvariant.SumBounded | SkeletonI2C/controller.cpp:553-554 | the bytes of finished transfers never exceed their lengths |
| SpbInvariant.LengthsOfPrefix | SkeletonI2C/controller.cpp:553-586 | transfers that ran in order add up to a prefix of the request |
| SpbRuns.PutKeeps | SkeletonI2C/controller.cpp:633-654 | a critical section that leaves its request live or done keeps the whole invariant |
| SpbSafety.StepKeeps | SkeletonI2C/device.cpp:502-2116 | every step of every callback, in any order, keeps the invariant |
| SpbSafety.CompletedOnceNeverLost | SkeletonI2C/controller.cpp:588-654 | in every run each request is completed at most once, and until then its completion is due or it is current with the timer, a timer callback or a cancel callback to come |
| SpbSafety.CancelExitsUnreachable | SkeletonI2C/device.cpp:1110-1150 | in every run the cancel callback finds its request current, so its two early exits are never taken |
| SpbSafety.OneOutstanding | SkeletonI2C/driver.cpp:219 | in every run at most one request is outstanding, and only the current target has a current request |
| SpbSafety.OwnershipAssertions | SkeletonI2C/device.cpp:535-609 | the assertions about the current target and request in lock, unlock, read, write and sequence hold in every run |
| SpbSafety.ReportedBytes | SkeletonI2C/device.cpp:2108-2114 | the byte count at completion is the sum over finished transfers, within the total length unless cancelled; `SpbOvercount` has the exact condition for cancelled requests |
| SpbSafety.TransfersInOrder | SkeletonI2C/device.cpp:1868-1886 | a request that is not cancelled finishes its transfers in order and each once, all of them unless aborted, each configured as its place asks, with the length and the direction of its descriptor |
| SpbReports.ReportedStatus | SkeletonI2C/controller.cpp:230-420 | in every run the status at completion tells how the last transfer ended; no-such-device needs an address NACK flag and unsuccessful a generic error flag, and after either the transfer was aborted with no byte and the count is that of the transfers before it; invalid-parameter exactly when a transfer is longer than 4096 bytes |
| SpbCallbacks.ErrorReported | SkeletonI2C/controller.cpp:227-331 | an address NACK, a data NACK or a generic error for a cancelable current request has it reported, in every run from there, as no such device, success or unsuccessful, the bytes of the transfer counted for the data NACK only; the first of them wins |
| SpbCallbacks.ErrorStatus | SkeletonI2C/controller.cpp:227-331 | the callback ends that request there and then, with that status, its transfer traced as aborted and its completion due |
| SpbCallbacks.MoveFails | SkeletonI2C/controller.cpp:337-362 | without an error flag, a move of ready data that fails aborts the transfer with what was moved |
| SpbCallbacks.DataMoves | SkeletonI2C/controller.cpp:337-381 | ready data is moved as far as it fits and the request goes on otherwise unchanged; its data interrupts are masked exactly when all has been moved; without any flag nothing changes |
| SpbCallbacks.TransferEnds | SkeletonI2C/controller.cpp:387-434 | a completion flag moves what is left and ends the transfer in order with those bytes, or aborts it if that move fails |
| SpbCallbacks.EndMasks | SkeletonI2C/controller.cpp:633-640 | whenever a callback lets go of its request all interrupts are masked, and none stays pending when one configures or ends a transfer |
| SpbCallbacks.InterruptsAddUp | SkeletonI2C/device.cpp:1262-1298 | until they are processed exactly the flags of all interrupts are kept |
| SpbCallbacks.NothingToDo | SkeletonI2C/device.cpp:1340-2040 | a timer or interrupt callback that finds no request, or no flag, leaves everything as it is |
| SpbCallbacks.CancelStops | SkeletonI2C/device.cpp:1150-1190 | after every enabled cancel callback the timer is stopped, no interrupt is pending, all are masked and no request is current |
| SpbCallbacks.CancelStopsTimer | SkeletonI2C/device.cpp:1150-1190 | so it is in every run |
| SpbCallbacks.SettingsAsked | SkeletonI2C/device.cpp:1812-1904 | whatever happens after a dispatch, each transfer is configured with start, stop and bus condition as the kind and the position of the dispatch and its own index ask |
| SpbOvercount.OvercountedRun | SkeletonI2C/controller.cpp:553-612 | a run from the initial state in which a four-byte read is completed as cancelled with eight bytes |
| SpbCancel.CancelledWithin | SkeletonI2C/controller.cpp:553-612 | a cancelled request reports no more than its length in every run in which no interrupt moves data after one of its transfers has ended |
| SpbOvercount.CancelledOver | SkeletonI2C/controller.cpp:588-612 | for a request of any run that can count again, some continuation of its cancel reports more than any bound |
| SpbOvercount.CancelExact | SkeletonI2C/controller.cpp:588-612 | in every reachable state, all continuations of a cancel report within the length if and only if each data or completion flag is an error flag, or the current transfer and all later stops are empty |
| SpbSteps.CurrentMoves | SkeletonI2C/device.cpp:1070-2079 | a step changes the current request as its own timer, interrupt or cancel section says, and otherwise not at all |
| SpbSteps.OtherStays | SkeletonI2C/device.cpp:502-2116 | a request that is not current never becomes current again, and its context, cancel state and trace never change |
| SpbSteps.CoreKept | SkeletonI2C/device.cpp:1070-2079 | a step leaves the current request the same request, live or done |
| SpbProgress.DeliveryDecreases | SkeletonI2C/device.cpp:1975-2079 | every delivery of a due callback or completion lowers a rank |
| SpbProgress.DeliveriesComplete | SkeletonI2C/device.cpp:1975-2116 | deliveries alone end, in any order, and then every request has been completed |
| SpbProgress.CompletionReached | SkeletonI2C/device.cpp:2081-2116 | from every state a request is completed within a bounded number of deliveries |
| SpbDelays.DelaysHeld | SkeletonI2C/device.cpp:1935-1960 | after any run without interrupts and cancels nothing is left over, so every request with a delay waits for its timer |
| SpbDelays.CancelsHarmless | SkeletonI2C/device.cpp:1150-1165 | the same after any run without interrupts, cancels included, in which no timer callback is queued when a cancel callback runs |
| SpbTimers.DelaysRespected | SkeletonI2C/device.cpp:1930-1973 | in every run each transfer with a delay that the controller is configured for takes a timer callback of its own, and a request that is current and not cancelled always waits for a transfer with a delay, so the others never wait |
| SpbDelays.HeldExact | SkeletonI2C/device.cpp:1935-2079 | until its timer runs out, no transfer of the current request is configured or ended in any run, but by a cancel, if and only if no timer callback is queued and no pending flag acts on it |
| SpbDelays.DelayExact | SkeletonI2C/device.cpp:1935-2079 | a request with a delay waits for its timer in every run if and only if nothing of the kind is left over at its dispatch |
| SpbProgress.StaleCallbackCutsDelayShort | SkeletonI2C/device.cpp:2007-2076 | a run in which a stale timer callback starts the next request's transfer while its timer is running |
| SpbRefinement.RunCallback | SkeletonI2C/device.cpp:1070-2079 | the timer callback, the deferred interrupt callback and the cancel callback, run on the objects, are steps of the runs |
| SpbRefinement.RunDispatch | SkeletonI2C/device.cpp:718-905 | so is the dispatch of a request, taken on or refused |
| SpbRefinement.RunComplete | SkeletonI2C/device.cpp:2081-2116 | so is the completion after the lock |
| SpbRefinement.RunInterrupt | SkeletonI2C/device.cpp:1223-1298 | so is an interrupt |
| SpbRefinement.RunLock | SkeletonI2C/device.cpp:502-562 | so is a lock |
| SpbRefinement.RunUnlock | SkeletonI2C/device.cpp:564-628 | so is an unlock |
| SpbWorld.PutRefines | SkeletonI2C/device.cpp:1975-2079 | a critical section changes the state of its request, its target and the device, and nothing else |
| MdlChain.GetByte | SkeletonI2C/device.h:177-243 | the byte at an index of the concatenated buffers, and a failure exactly beyond the length, the chain or a mapped segment |
| MdlChain.SetByte | SkeletonI2C/device.h:245-311 | changes exactly that byte of the concatenation, or nothing, and succeeds in exactly the same cases |
| MdlChain.FlatUpdate | SkeletonI2C/device.h:265-310 | writing into a segment is writing into the concatenation |
| MdlChain.WalkFound | SkeletonI2C/device.h:197-242 | where the walk stops is where the index is in the concatenation |
| WildCard.WildCardMatch | devcon/devcon.cpp:622-758 | the greedy search succeeds exactly when the glob relation holds between pattern and item, or the texts agree when there is no wild character; it terminates |
| WildCard.LeftmostIsEnough | devcon/devcon.cpp:700-758 | a run followed by a wild character may be matched at its first place: any later match can be traded for it |
| WildCard.LastRun | devcon/devcon.cpp:679-695 | after a wild character the last run has to be the end of the item |
| WildCard.NoMatchHere | devcon/devcon.cpp:700-750 | where a run does not match, the search may move on by one |
| WildCard.GetIdType | devcon/devcon.cpp:316-358 | the entry's wild mark is the first wild character of the text |
| WildCard.IdentifierMeaning | devcon/devcon.cpp:340-356 | an identifier is a glob unless quoted, and the instance-id mark is no part of it |
| WildCard.WildCompareHwIds | devcon/devcon.cpp:760-788 | true exactly when some string of the list is selected |
| CaseFold.FoldExact | devcon/devcon.cpp:659-696 | two characters fold alike exactly when they are equal or the same letter of A-Z and a-z |
| WildCard.CaseIgnored | devcon/devcon.cpp:659-744 | whether an identifier selects an item does not change when any letters of either are put into the other case |
| WildCard.StarNowhere | devcon/devcon.cpp:640-664 | an identifier without a wild character selects exactly the same text, in any case |
| WildCard.StarBehind | devcon/devcon.cpp:659-675 | text and a wild character select exactly what begins with the text |
| WildCard.StarInFront | devcon/devcon.cpp:679-695 | a wild character and text select exactly what ends with the text |
| WildCard.StarAround | devcon/devcon.cpp:700-750 | text between two wild characters selects exactly what has the text somewhere |
| WildCard.QuotedSelects | devcon/devcon.cpp:340-356 | a quoted identifier selects exactly its text, wild characters included |
| MultiSz.RoundTrip | devcon/devcon.cpp:402-464 | writing a list and reading it back is the identity exactly when no string is empty |
| MultiSz.ReadBack | devcon/devcon.cpp:383-457 | the strings of any buffer survive writing and reading |
| MultiSz.SerialisedText | devcon/devcon.cpp:421-457 | each string is written with one NUL behind it, and one NUL ends the list |
| MultiSz.SafeWithTwoNuls | devcon/devcon.cpp:540-543 | reading stays inside any contents that are followed by two NULs |
| MultiSz.SafeSerialised | devcon/devcon.cpp:421-457 | and inside every written list |
| MultiSz.GetMultiSzIndexArray | devcon/devcon.cpp:360-400 | the slots are the buffer, the start of each string, and null, with no access outside the buffer |
| MultiSz.IndexFinds | devcon/devcon.cpp:360-400 | with the index of a written list a caller finds the buffer, each string of the list with its NUL, and null |
| MultiSz.CopyMultiSz | devcon/devcon.cpp:402-464 | the buffer is the written list and the index is that of its strings |
| MultiSz.Fill | devcon/devcon.cpp:435-457 | the copies fill the buffer exactly; the fallback for a full buffer is never needed |
| MultiSz.JoinedLength | devcon/devcon.cpp:423-427 | the length is the sum of the string lengths, each plus one |
| MultiSz.CommittedLength | devcon/cmds.cpp:1934-1941 | the committed length is that sum plus one |
| ClassFilter.ClassFilter | devcon/cmds.cpp:1688-1974 | the registry value is written or deleted only if every sub-command succeeded and something changed, and holds the list the script makes; the exit code says which |
| ClassFilter.Execute | devcon/cmds.cpp:1785-1929 | one argument does to index and span what the cursor interpreter does, keeps them in range and the strings non-empty |
| ClassFilter.FindService | devcon/cmds.cpp:1814-1850 | finds the next service of the name behind the cursor, and deletes it for '!' |
| ClassFilter.AddService | devcon/cmds.cpp:1853-1929 | adds an existing service behind or before the cursor and puts the cursor on it |
| ClassFilter.InsertAt | devcon/cmds.cpp:1907-1919 | the rebuilt array has the service at the mark and everything else in order |
| ClassFilter.RemoveAt | devcon/cmds.cpp:1834-1838 | shifting in place takes exactly one entry out |
| ClassFilter.Conservation | devcon/cmds.cpp:1778-1930 | after any script each service is there as often as before, plus additions, minus deletions |
| ClassFilter.OthersKept | devcon/cmds.cpp:1778-1930 | the services a script neither adds nor deletes stay, in their order |
| ClassFilter.MovesForward | devcon/cmds.cpp:1853-1874 | what is ahead of the cursor only gets shorter, except exactly where a service is added before the one it is on |
| ClassFilter.PlusAndMinus | devcon/cmds.cpp:1853-1929 | from the argument text: `+` puts an existing service behind the one the cursor is on or at the end of the list, `-` before it or at the head, and the cursor on to it; one that does not exist fails |
| ClassFilter.AtAndBang | devcon/cmds.cpp:1814-1850 | `@` moves to the next service of the name in any case and leaves the list, `!` takes that one out, and both fail exactly when there is none |
| ClassFilter.EqualsAndOthers | devcon/cmds.cpp:1785-1812 | `=` puts the cursor in front of the list, alone or before an operator, and every other argument is a usage error |
| ClassFilter.InTurn | devcon/cmds.cpp:1778-1930 | a script is its parts one after the other |
| HardwareIds.SettledBy | devcon/cmds.cpp:2041-2118 | the last command naming an id, or the last clearing one, decides: the id is there once or not at all |
| HardwareIds.Unsettled | devcon/cmds.cpp:2041-2118 | an id no command names and no clearing touches occurs as often as before |
| HardwareIds.StaysDuplicateFree | devcon/cmds.cpp:2092-2110 | a list without duplicates, up to case, stays one |
| HardwareIds.NeverNamed | devcon/cmds.cpp:2092-2110 | without a clearing command the ids never named keep their order |
| HardwareIds.BehindThePrevious | devcon/cmds.cpp:2041-2118 | after any inserting command, from any list and mark, exactly when an id without prefix lands directly behind the id inserted before it |
| HardwareIds.NotBehindThePrevious | devcon/msg.mc:980-985 | a script after which it does not, against the help text |
| HardwareIds.HeadAndEnd | devcon/cmds.cpp:2053-2064 | from the argument text, after any script: `+id` puts the id at the head of the list and `-id` at its end, taken out wherever it was |
| HardwareIds.ClearAndDelete | devcon/cmds.cpp:2045-2068 | `=id` leaves that id alone, `!id` all others |
| HardwareIds.PlainListed | devcon/cmds.cpp:2069-2078 | any other argument is listed as it is |
| HardwareIds.EditedExact | devcon/cmds.cpp:2042-2079 | a script fails exactly when an argument is empty or nothing but a prefix |
| HardwareIds.Rebuild | devcon/cmds.cpp:2080-2111 | the rebuilt array is the list without the id, with the id at the mark |
| HardwareIds.EditOnce | devcon/cmds.cpp:2042-2118 | one sub-command does what the script says, or fails for an empty id |
| HardwareIds.SetHwidCallback | devcon/cmds.cpp:1976-2185 | the property is written only for known root-enumerated devices whose whole script succeeds, with the list the script makes; counters and result as they should |
| UsageArray.ConvertUlongListToValueList | hclient/ecdisp.c:4160-4310 | the buffer, read as a little-endian number, is the sum of the values modulo 2^bits at their places, if and only if that number fits the bytes the 16-bit index reaches |
| UsageArray.PackedField | hclient/ecdisp.c:4249-4298 | field i of that number is value i modulo 2^bits |
| UsageArray.PackedBound | hclient/ecdisp.c:4224-4248 | the number fits the elements' bits |
| UsageArray.PutValue | hclient/ecdisp.c:4255-4295 | storing a value leaves everything stored before undisturbed and writes only its own bits |
| UsageArray.RoundToNearestByte | hclient/ecdisp.c:243 | the least number of bytes that holds the bits |
| UsageArray.Mask | hclient/hclient.c:3600-3626 | the mask has exactly the bits of one value |
| UsageArray.IndexOverflowLosesBits | hclient/ecdisp.c:4224-4301 | for every array longer than these bytes there are values the buffer does not hold |
| UsageArray.ExtractedField | hclient/hclient.c:3556-3635 | extraction is a field of the buffer's number, and an error exactly when its window leaves the buffer |
| UsageArray.RoundTrip | hclient/hclient.c:3526-3644 | what extraction gives back for a packed element, for every bit size |
| UsageArray.RoundTripModulo | hclient/hclient.c:3526-3644 | it is the value modulo 2^bits in the low bits |
| UsageArray.RoundTripExact | hclient/hclient.c:3600-3635 | it is exactly that value if and only if the element ends inside the window or nothing is set above it |
| UsageArray.MaskedSizes | hclient/hclient.c:3600-3635 | all elements end inside for every size from 1 to 32 but 27, 29, 30 and 31 |
| LinkedList.InitializeList | hclient/list.h:107-115 | the empty circle |
| LinkedList.InsertHead | hclient/list.h:125-135 | the circle with the node in front |
| LinkedList.InsertTail | hclient/list.h:146-156 | the circle with the node at the end |
| LinkedList.RemoveNode | hclient/list.h:165-173 | the circle without the node, wherever it was |
| LinkedList.RemoveHead | hclient/list.h:183-185 | the first node, and the circle without it |
| LinkedList.IsListEmpty | hclient/list.h:205-206 | true exactly for the empty circle |
| LinkedList.LinksAreInverse | hclient/list.h:114-185 | following a link and then the opposite one leads back |
| DeviceList.PhysicalDeviceList.OnArrival | hclient/hclient.c:1689-1855 | earlier nodes of the device that are not open go away, and it gets a new node unless it is open already |
| DeviceList.PhysicalDeviceList.OnQueryRemove | hclient/hclient.c:1858-1911 | the device of the notification is closed and its path dropped |
| DeviceList.PhysicalDeviceList.OnRemoveComplete | hclient/hclient.c:1914-2000 | its node leaves the list, and no other, and is closed and has its notification taken back |
| DeviceList.PhysicalDeviceList.Destroy | hclient/list.h:273-280 | every node is visited once from head to tail and closed, its notification taken back, and the list is empty; it terminates |
| DeviceList.PhysicalDeviceList.DestroyHead | hclient/hclient.c:3668-3692 | the callback closes the device and takes back a notification that is registered |
| DeviceList.CloseHidDevice | hclient/pnp.c:896-993 | neither path nor file is left |
| DeviceList.RunKeeps | hclient/hclient.c:1685-2000 | over any run of messages the paths of listed devices differ, and a device is marked open exactly while it has a file |
| DeviceList.SearchedOne | hclient/hclient.c:1709-1760 | with different paths there is one earlier node at most, which stays if open and makes room if not |
| DeviceList.ArrivalListed | hclient/hclient.c:1709-1843 | after an arrival exactly one node has the device's path |
| DeviceList.QueryCloses | hclient/hclient.c:1858-1911 | after a query the first device of the notification, if it was open, has neither file nor path and is not open, and nothing else in the list differs |
| DeviceList.StaysClosed | hclient/hclient.c:1858-1911 | over any run with distinct notifications a device that was asked to go has no file until it arrives again |
| DeviceList.RemoveDrops | hclient/hclient.c:1914-2000 | a removal takes the first device of the notification out of the list and leaves the others in their order |
| DeviceList.ArrivalAppends | hclient/hclient.c:1775-1843 | a device that arrives is listed last, with its path, file and notification and open exactly with a file, behind all other ones in their order; an earlier node of it makes room, or, if open, stays and nothing changes |
| DeviceList.RegisteredExact | hclient/hclient.c:3668-3692 | the notifications that destroying the list takes back are exactly the handles its devices have |
| Reports.SendsBounded | hclient/report.c:152-197 | even when packing fails there is at least one send for each report id and at most one for each item |
| Reports.SentAgain | hclient/report.c:152-197 | a report is sent at an item exactly when every one begun before for its id had an item rejected |
| Reports.PackedItems | hclient/report.c:485-600 | its items are those of the id from there on, up to the first that is rejected, in order and each once |
| Reports.SendsWanted | hclient/report.c:152-197 | when packing succeeds exactly one report is sent for each id, in order of first occurrence, with all items of the id |
| Reports.WantedOnce | hclient/report.c:587-594 | every item is then in exactly one report, that of its id |
| Reports.WantedDiffer | hclient/report.c:152-197 | no two of them have the same id |
| Reports.RequestsBounded | hclient/report.c:292-344 | even when something fails each id is asked for and no item asks twice |
| Reports.AskedAgain | hclient/report.c:292-344 | an item asks exactly when no answer to an earlier request for its id got as far as it |
| Reports.RequestsFirsts | hclient/report.c:292-344 | when nothing fails each id is asked for once, at its first item |
| ReportTransfer.Write | hclient/report.c:128-199 | the loop sends exactly those reports, says whether all arrived, and marks exactly the items of complete reports; SetFeature is the same loop |
| ReportTransfer.PackReport | hclient/report.c:485-600 | the report has the items of its id up to the first that is rejected, and marks them only if none is |
| ReportTransfer.GetFeature | hclient/report.c:269-347 | the loop asks exactly for those items, says whether all went well, and leaves each item as the answers filled it |
| ReportTransfer.UnpackReport | hclient/report.c:350-482 | fills the items of the report's id up to the first that is rejected, which may keep its plain value, and changes no other |
| ReportTransfer.ContentOnce | hclient/report.c:292-344 | when nothing fails an item holds the answer to the one request for its id |
| ReportTransfer.ValueRead | hclient/report.c:445-482 | whatever failed before, a value whose turn it is in an answer gets the plain and the scaled value and is marked; rejected, it gets a plain value that was accepted and nothing else |
| ReportTransfer.ButtonsRead | hclient/report.c:395-443 | buttons whose turn it is get exactly the pressed usages of their range; rejected, they stay as they were |
| ReportTransfer.NotRead | hclient/report.c:350-482 | an item whose turn it is not stays as it was |
| ReportTransfer.Compact | hclient/report.c:425-438 | the usages of the range move to the front in order, a zero follows if there is room, the rest stays |
| ReportTransfer.CompactedListed | hclient/report.c:409-438 | readers find them again exactly when none is zero |
| DeviceInfo.FillInput | hclient/pnp.c:474-580 | succeeds exactly when every range is ordered and ends before 0xFFFF, and then every slot is filled in order: buttons, then each usage once |
| DeviceInfo.FillFeature | hclient/pnp.c:769-869 | succeeds exactly when ranges end in time and the 32-bit count is enough; what it counted too many stays empty |
| DeviceInfo.CountInput | hclient/pnp.c:486-503 | refuses exactly a range without usages, and otherwise counts the slots of the expansion |
| DeviceInfo.FillRange | hclient/pnp.c:547-565 | each usage of the range in order, or a failure exactly when there are too few slots or the range does not end |
| DeviceInfo.WidthsExact | hclient/pnp.c:487-580 | the count is the number of slots exactly when no range ends more than one below its start |
| DeviceInfo.FeatureFull | hclient/pnp.c:769-869 | when the feature section fills every slot, and that it succeeds where the input section does |
| DeviceInfo.ButtonListed | hclient/pnp.c:507-535 | each set of buttons is listed with its page, report and bounds: the ends of a range, or one usage twice |
| DeviceInfo.ValueListed | hclient/pnp.c:540-580 | a value is listed exactly when it is a usage of a capability with that page and report |
| DeviceInfo.RangeInOrder | hclient/pnp.c:547-565 | the usages of a range stand one behind the other |
| HidItems.ParseBytes | ezTouchFilter/ezTouchFilter.sys.c:1011-1046 | items of the sizes their prefixes announce are read back from their bytes |
| HidItems.BytesParse | ezTouchFilter/ezTouchFilter.sys.c:1011-1046 | and what is read stands for exactly the bytes |
| HidItems.ItemMeanings | ezTouchFilter/ezTouchFilter.sys.c:89-91 | the prefixes for size, count, id, Push, Pop, usage and input mean what sections 6.2.2.4 to 6.2.2.8 of the HID definition say |
| TiltBlock.BlockConstants | ezTouchFilter/ezTouchFilter.sys.c:89-91 | the three 128-bit constants are the 48 bytes of 20 items |
| TiltBlock.BlockMeaning | ezTouchFilter/ezTouchFilter.sys.c:89-91 | in any state the block declares its three inputs and gives back the stack and all globals but report size and count |
| TiltBlock.BlockInputBits | ezTouchFilter/ezTouchFilter.sys.c:847 | the block declares the 48 bits that the read path inserts |
| TiltFilter.ScanDescriptor | ezTouchFilter/ezTouchFilter.sys.c:997-1145 | the offset is an item boundary, behind the later of the first inputs after the two digitizer usages and a Pop that follows, or the front |
| TiltFilter.PlaceUnique | ezTouchFilter/ezTouchFilter.sys.c:1118-1143 | that place and the report offset are determined by the items |
| TiltFilter.PenPlaces | ezTouchFilter/ezTouchFilter.sys.c:1046-1143 | literal descriptors: usage 0x30 of page 13 alone gives offset 8, usage 0x3B 9, with both the later input and the Pop behind it count, and on another page there is no place |
| TiltDriver.SplicedParse | ezTouchFilter/ezTouchFilter.sys.c:1145-1159 | the output is the items before, the block's items, the items behind; 48 bytes longer; taking the block out restores the original |
| TiltDriver.TiltedMeaning | ezTouchFilter/ezTouchFilter.sys.c:1145-1159 | a parser accepts the output exactly when it accepts the original, and reads the prefix, the three inputs and then the rest |
| TiltDriver.TiltedRejected | ezTouchFilter/ezTouchFilter.sys.c:1145-1159 | what was rejected in the prefix stays rejected |
| TiltDriver.TiltedReport | ezTouchFilter/ezTouchFilter.sys.c:845-853 | for every accepted descriptor everything behind the block keeps its meaning if and only if nothing there is exposed, and then the input report grows by six bytes |
| TiltSuffix.SuffixExact | ezTouchFilter/ezTouchFilter.sys.c:89-91 | any items behind the block are read alike with and without it if and only if they are rejected or no data item among them uses the changed size or count |
| TiltSuffix.SizesMatter | ezTouchFilter/ezTouchFilter.sys.c:89-91 | every continuation is read alike if and only if the values were 16 and 1 |
| TiltDriver.DeviceContext.constructor | ezTouchFilter/ezTouchFilter.sys.c:1656-1666 | a new device has no tilt |
| TiltDriver.DeviceContext.PatchLength | ezTouchFilter/ezTouchFilter.sys.c:785-859 | the length field, low byte at index 7, reads back 48 larger, modulo 65536, with the carry going into index 8, and nothing else of the descriptor changes |
| TiltDriver.DeviceContext.SpliceDescriptor | ezTouchFilter/ezTouchFilter.sys.c:902-1183 | the output is the descriptor with the block at its place |
| TiltDriver.DeviceContext.CaptureWrite | ezTouchFilter/ezTouchFilter.sys.c:1352-1469 | exactly the writes that carry tilt are kept, the others fail or are passed on as their fault says |
| TiltDriver.DeviceContext.SpliceRead | ezTouchFilter/ezTouchFilter.sys.c:1223-1317 | over any run, a pen report gets bytes 8 to 13 of the latest kept write, zeros before the first, and other reports stay as they are |
| TiltDriver.TiltFits | ezTouchFilter/ezTouchFilter.sys.c:1276-1303 | the inserted bytes are the bits the block declares, and without them the report is the original |
| TiltFields.OffsetFits | ezTouchFilter/ezTouchFilter.sys.c:1118-1143 | for every accepted descriptor, every report that went through the read path gives its old values, and a pen report the three tilt values between them, if and only if the block lies in the pen report, the input bits before it fill the bytes before the offset, and the inputs behind keep their layout |
| TiltFields.LatestTilt | ezTouchFilter/ezTouchFilter.sys.c:1276-1303 | the three numbers that a parser reads are bytes 8 and 9, 10 and 11, 12 and 13 of the latest write, low byte first, and zero before any |

## Left out

- SpbSafety.ReportedBytes: the bound by the total length is not claimed for cancelled requests, because it does not hold for all of them; `SpbOvercount.CancelExact` says for which.
- SpbRefinement.RunCallback: the remaining events (a target connects, the timer runs out, a cancel is requested, a power cycle) are the framework's own and are steps of the runs only.
- SpbCore.ProceedStep: the transfer index is unbounded; its 32-bit wrap after very many failed unmarks is not modelled.
- SpbDriver.ControllerConfigureForTransfer: the code that is left to be written there, among it which interrupts to enable, is not modelled.
- ReportTransfer.UnpackReport: the status of the last accessor call of an item is not kept.
- UsageArray.ExtractedField: formatting the value as text is not modelled.
- WildCard.WildCardMatch: case is folded as in the "C" locale; other locales are not modelled.
- TiltFilter.ScanDescriptor: long items and descriptors whose items do not tile them are outside the model, as is a returned length other than the declared one.
- TiltDriver.DeviceContext.SpliceRead: the path on which copying the report back fails, and completes the request twice, is not modelled.
- DeviceList.PhysicalDeviceList.OnArrival: failed allocations and the message boxes they raise are not modelled; freed nodes are simply no longer listed.
- The Output section of FillDeviceInfo: it has another range check and no guard.
- Other requests of SkeletonI2C (OnOther), its power, resource and connection setup, and hw.h.
- BuildReportIDList of hclient, which is never called.
- Dialogs, printing, help texts, and the other commands of hclient and devcon; dump.cpp, buffers.c, InstDrv.
- Locks are modelled as atomic critical sections; what a callback does between them touches only its own request.
