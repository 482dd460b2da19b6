# Unwinding, proved

This project models the hard parts of `libunwindstack` and `libbacktrace` in Dafny and proves what
they are for. `dafny verify dfyconfig.toml` takes in every file.

- **Call-frame rows and their caches.** `DwarfCfa.dfy` is the interpreter that turns CIE and FDE
  programs into rows (section 6.4.2 of DWARF 4), `CieCache.dfy` the CIE rules that FDEs share,
  `FdeIndex.dfy` the interval map of FDEs that grows as the section is read, `DwarfEval.dfy` the
  in-place evaluation of a row, and `DwarfSection.dfy` puts them together in `Step`: over every
  history of calls, a cached row has the rules a computation from nothing gives.
- **Cross-thread unwinding.** `Handshake.dfy` is the protocol between any number of threads that call
  `UnwindThread` on each other and their signal handlers, with its three kinds of mutex and one inductive
  invariant kept by each of its 30 steps; `HandshakeRuns.dfy` states what that means over whole runs.
  `HandshakeProgress.dfy` proves that a run makes at most 26 steps for each call, and that all calls can
  be finished if and only if no thread has been interrupted while it holds `list_mutex_`;
  `HandshakeDeadlock.dfy` is a run in which that happens. `ThreadEntry.dfy` is the reference-counted
  intrusive list on the heap.
- **Two byte-code machines.** `ArmExidx.dfy`, `ArmPrologue.dfy` and `ArmEntry.dfy` are the ARM EHABI
  unwinder (section 9.3 of ARM IHI 0038B): from the index table entry of a function to the registers of
  its caller, it undoes the function's prologue. `DwarfOp.dfy` and `DwarfExpression.dfy` are the stack
  machine of section 2.5.1 of DWARF 4, down to its bytes, `Bits.dfy` its bitwise operations, and
  `DwarfMemory.dfy` the LEB128 numbers of section 7.6.
- **Indexes that must agree with a simple scan.** `MemoryCache.dfy`, `Maps.dfy` and `Symbols.dfy`.

Memory is a fixed partial map from addresses to bytes, given as a parameter; reading `/proc`, the ELF
symbol table and the signal and mutex calls of the system are parameters or steps of the model. Integers
are unbounded, and every cast, wrap-around and truncation the code relies on is written out. Where C++
leaves a result undefined (a shift by the full width, `pick` one past the stack) the model has an outcome
of its own for it, except that negating the least signed value is taken to wrap.

Code that works step by step is a class with the code's own fields, proved against a function or a
predicate; the laws are lemmas about those.

Where the code and what is said about it differ, the model follows the code, a lemma gives an input, and
another says exactly when the promise holds:

- `cfa_restore_state` brings back an old `pc_start`, and locations can move back, so a row can claim too
  much (`RestoreAtEndOverstatesRow`, `BackwardsLocationOverstatesRow`): `RowValidExactly` for every
  program and pc, `AllRowsValidExactly` for all rows of a program whose locations ascend. Such a row is
  cached and used for the other pc too (`UnsoundRowExists`, `AskTwice`): `RowsServeExactly`.
- A CIE program that sets rules after it has moved, or leaves a remembered state, makes caching visible
  (`MovingCieIsNotTransparent`): `CieCacheTransparentForAllFdesExactly` for every CIE,
  `AdvancingCieTransparentExactly` for those that only advance.
- A signal that interrupts the last `Remove` of a call while it holds `list_mutex_` leaves everyone
  waiting (`DeadlockIsReachable`): `FinishesExactly`.
- `InsertFde` drops the piece before the first existing range (`LeadingPieceIsDropped` and
  `LeadingPieceTrips`, the example in its own comment), so pcs are lost: `FindsFirstExactly` for every
  section, `AgreesWithScanExactly` for FDEs that do not overlap.
- A function inside another hides the rest of the outer one once both are cached (`NestedIsLost`):
  `SearchCompleteExactly`.
- DW_CFA_offset_extended is not scaled by the data alignment factor, unlike section 6.4.2.3 of DWARF 4
  (`OffsetExtendedIsNotFactored`): `OffsetExtendedIsFactoredExactly`.
- DW_OP_bra on zero branches backwards instead of going on, unlike section 2.5.1.5 of DWARF 4
  (`UntakenBranchFails`): `BranchIsStandardExactly`.
- The dex pc depends on the order of a hash map (`DexPcDependsOnOrder`): `DexPcOrderIndependentExactly`.
- `ReadSLEB128` shifts by 70 for ten-byte negative numbers: `SlebRoundTripExactly`, in which every such
  number is an input.
- `ExtractEntryData` takes an operand byte 0xb0 at the end for a finish instruction
  (`OperandLooksLikeFinish`): `ImplicitFinishExactly`.
- `MemoryCache::Read` goes on at address 0 when a read passes 2^64 (`ReadPastTheEndDiffers`):
  `CacheAgreesExactly`.
- `Reparse` reads through a null pointer or loses maps when a new map lies behind the last old one
  (`MapBehindTheLastIsUnsafe`): `Reparse`, with `Safe` as the exact condition. Even a safe update frees a
  map that the next new map is linked to (`NewMapHasDeadLink`): `LinksLiveExactly`.

## Model

| member | source | states |
|---|---|---|
| DwarfCfa.RunIsAfterStop | libunwindstack/DwarfCfa.cpp:41-143 | the interpreter loop is: execute up to the first instruction whose location is past the pc, then close the row there |
| DwarfCfa.StartIsOrigin | libunwindstack/DwarfCfa.cpp:55-65 | where a row starts, told from the program alone: at the last location, or at that of the remember_state which a restoring last instruction goes back to, whose rules it then has |
| DwarfCfa.RowValidExactly | libunwindstack/DwarfCfa.cpp:41-143 | for every program, also one that moves back, and every pc: all pcs of the reported row have its rules if and only if each earlier point at which a pc of the row would stop has the rules of the last one |
| DwarfCfa.AllRowsValidExactly | libunwindstack/DwarfCfa.cpp:41-143 | all rows of a program with ascending locations are valid if and only if it does not end in a restoring restore_state, or every location left since the matching remember_state was left under the remembered rules |
| DwarfCfa.RowValidity | libunwindstack/DwarfCfa.cpp:41-143 | rows of ascending programs are valid over their whole range unless the program runs to its end and ends in a restoring restore_state |
| DwarfCfa.RowContainsPc | libunwindstack/DwarfCfa.cpp:55-65 | the row contains the pc it was computed for |
| DwarfCfa.RestoreUndoesBlock | libunwindstack/DwarfCfa.cpp:388-403 | remember, any well-nested body, restore leaves the rules and the state stack exactly as before |
| DwarfCfa.OriginIsMatch | libunwindstack/DwarfCfa.cpp:388-403 | a restore_state goes back to the remember_state with a well-nested body in between |
| DwarfCfa.RestoreAtEndOverstatesRow | libunwindstack/DwarfCfa.cpp:394-403 | a program ending in restore_state whose row claims a pc with other rules |
| DwarfCfa.BackwardsLocationOverstatesRow | libunwindstack/DwarfCfa.cpp:321-334 | the same for a set_loc that moves back |
| DwarfCfa.OffsetExtendedIsFactoredExactly | libunwindstack/DwarfCfa.cpp:342-347 | DW_CFA_offset_extended sets the rule of DW_CFA_offset if and only if the operand times the factor minus one is zero in the address width and, for 32 bits, the operand is below 2^31 |
| DwarfCfa.OffsetExtendedIsNotFactored | libunwindstack/DwarfCfa.cpp:342-347 | with factor -8, operand 2 gives offset 2 and not -16 |
| DwarfCfa.Interpreter.constructor | libunwindstack/DwarfCfa.h:75 | an interpreter for one FDE with no CIE rules set |
| DwarfCfa.Interpreter.Execute | libunwindstack/DwarfCfa.cpp:316-515 | every handler edits the rules, the location and the state stack as the instruction's specification says, or fails with its error |
| DwarfCfa.Interpreter.GetLocationInfo | libunwindstack/DwarfCfa.cpp:41-143 | the loop that edits the caller's row in place computes the specified row, and fails exactly when it fails |
| CieCache.CieCacheTransparentExactly | libunwindstack/DwarfSection.cpp:553-574 | for a CIE program that is settled wherever it can stop, cached and computed CIE rules give the same result if and only if the pc is not before the FDE or the CIE sets no rules |
| CieCache.CieCacheTransparentForAllFdesExactly | libunwindstack/DwarfSection.cpp:553-574 | for every CIE, over all FDEs of it and all pcs inside them and whichever pair filled the cache: caching is invisible if and only if, wherever the CIE program can stop, it has its final rules and no remembered state, or it always fails before |
| CieCache.StopsAtAdvances | libunwindstack/DwarfSection.cpp:553-574 | a CIE program that only advances can stop exactly at its advances and at its end |
| CieCache.AdvancingCieTransparentExactly | libunwindstack/DwarfSection.cpp:553-574 | for a CIE program that only advances, caching is invisible to all FDEs and pcs inside them if and only if at each advance the rules are already final and no state is remembered, and none is left at the end |
| CieCache.MovingCieIsNotTransparent | libunwindstack/DwarfSection.cpp:553-574 | a CIE that sets a rule after an advance: of two pcs of one FDE, the first asked leaves rules in the cache that the second would not compute |
| CieCache.LateMoveIsTransparent | libunwindstack/DwarfSection.cpp:553-574 | one that advances after its last rule is |
| FdeIndex.GapBeforeFirstIndexed | libunwindstack/DwarfSection.cpp:618-653 | the pcs that InsertFde skips are the leading gap before the first indexed range, told from the entries read so far alone |
| FdeIndex.FoundContains | libunwindstack/DwarfSection.cpp:772-803 | after any history an FDE that is returned is one of the section's and contains the pc |
| FdeIndex.AdjacentDescentLoses | libunwindstack/DwarfSection.cpp:618-653 | when an FDE is read after the one that starts where it ends, a pc of one of the two is lost for good |
| FdeIndex.FindsFirstExactly | libunwindstack/DwarfSection.cpp:609-653 | for every section, with FDEs in any order, overlapping or empty: over every history each lookup gives the first FDE that contains the pc, if and only if no FDE starts outside all FDEs before it while one of these starts inside it or at its end |
| FdeIndex.TripLoses | libunwindstack/DwarfSection.cpp:618-653 | the first such FDE is not found for its own start once everything is read |
| FdeIndex.LeadingPieceTrips | libunwindstack/DwarfSection.cpp:609-617 | the comment's two FDEs are such a section, and 0x100 is not found |
| FdeIndex.AgreesWithScanExactly | libunwindstack/DwarfSection.cpp:618-653 | the same for FDEs that do not overlap: lookups agree with a linear scan over every history if and only if no FDE is read after the one that starts where it ends |
| FdeIndex.AscendingAgrees | libunwindstack/DwarfSection.cpp:772-803 | sections in ascending order are looked up faithfully over every history |
| FdeIndex.LeadingPieceIsDropped | libunwindstack/DwarfSection.cpp:609-617 | the comment's example: [0x100, 0x500) over an indexed [0x200, 0x400) gets only [0x400, 0x500) |
| FdeIndex.Reader.constructor | libunwindstack/DwarfSection.cpp:594-607 | a reader that has read nothing |
| FdeIndex.Reader.InsertFde | libunwindstack/DwarfSection.cpp:618-653 | ranges stay non-empty and disjoint, no covered pc changes its FDE, and the new FDE gets exactly its uncovered pcs but for the leading gap |
| FdeIndex.Reader.GetNextCieOrFde | libunwindstack/DwarfSection.cpp:655-734 | the next entry of the section, once each |
| FdeIndex.Reader.ReadNext | libunwindstack/DwarfSection.cpp:786-796 | the next entry is read and indexed, and the index stays the one the entries read determine |
| FdeIndex.Reader.GetFdeFromPc | libunwindstack/DwarfSection.cpp:772-803 | the answer is the owner among the entries read so far, or else the first later FDE with the pc; the index stays the one the entries read determine |
| FdeIndex.Reader.GetFdes | libunwindstack/DwarfSection.cpp:736-770 | all FDEs in section order, however many had been read before |
| DwarfEval.RegsInfo.constructor | libunwindstack/RegsInfo.h:30-34 | no register is saved |
| DwarfEval.RegsInfo.Save | libunwindstack/RegsInfo.h:43-52 | the register's value goes to the shadow, where it is read from then on |
| DwarfEval.EvalRegister | libunwindstack/DwarfSection.cpp:414-470 | the rule's value on the registers as the shadow shows them is stored in the register, and in no other; an expression without a defined result is told from a failure |
| DwarfEval.Eval | libunwindstack/DwarfSection.cpp:472-551 | a simultaneous assignment: each register gets its rule's value on the old registers and the CFA, then pc, sp and finished; without success, what the first rule without a value has instead |
| DwarfEval.TroubleExactly | libunwindstack/DwarfSection.cpp:472-551 | success is the same for every iteration order: all rules have a value on the old registers |
| DwarfEval.SetPcAndSp | libunwindstack/DwarfSection.cpp:538-550 | pc is the new return address or 0 if undefined, sp is the CFA, finished if and only if pc is 0 |
| DwarfEval.DexPcOrderIndependentExactly | libunwindstack/DwarfSection.cpp:439-459 | the dex pc is the same for all iteration orders if and only if all marked expressions agree |
| DwarfEval.DexPcDependsOnOrder | libunwindstack/DwarfSection.cpp:439-459 | two marked expressions in the bytes of a section, with dex pc 2 in one order and 1 in the other |
| DwarfSection.WarmRowIsValid | libunwindstack/DwarfSection.cpp:553-574 | a row computed for one pc lies in the FDE and has the rules of every pc it claims |
| DwarfSection.RowsServeExactly | libunwindstack/DwarfSection.cpp:39-63 | for an FDE whose locations ascend inside it and whose CIE caching is invisible: every row has the rules of all pcs it claims if and only if the program ends soundly |
| DwarfSection.UnsoundRowExists | libunwindstack/DwarfSection.cpp:39-63 | in a section with such an FDE that does not, the row of one pc claims another and has not its fresh rules |
| DwarfSection.AskTwice | libunwindstack/DwarfSection.cpp:39-63 | two calls on a new section: the row computed for the first pc is used for any pc it claims |
| DwarfSection.ComputedRowIsFresh | libunwindstack/DwarfSection.cpp:39-63 | a row put in the cache has, for every pc it claims, the rules a computation from nothing gives |
| DwarfSection.SameEndSameRules | libunwindstack/DwarfSection.cpp:57-58 | keeping an existing row with the same end loses nothing |
| DwarfSection.Section.constructor | libunwindstack/DwarfSection.cpp:37 | a section with empty caches and nothing read |
| DwarfSection.Section.GetCfaLocationInfo | libunwindstack/DwarfSection.cpp:553-574 | the cached or computed result, and what the CIE cache becomes |
| DwarfSection.Section.ComputeRow | libunwindstack/DwarfSection.cpp:43-59 | after a miss the row is computed and put in the cache unless one with the same end is there, which is then used; in a sound section it has the fresh rules |
| DwarfSection.Section.FindRow | libunwindstack/DwarfSection.cpp:39-59 | a hit gives the cached row, a miss the one computed for the FDE found; in a sound section the row used has the fresh rules after any history, and none is found exactly when there is none |
| DwarfSection.Section.Step | libunwindstack/DwarfSection.cpp:39-63 | one unwinding step restores the registers by the fresh rules of the pc, whatever was asked before |
| Handshake.InitInv | libbacktrace/BacktraceCurrent.cpp:150-232 | the protocol invariant holds when no call is under way |
| Handshake.OwnersDiffer | libbacktrace/ThreadEntry.h:36-46 | two unwinders never both own an entry of the same target |
| Handshake.UnownedIsQuiet | libbacktrace/ThreadEntry.h:36-46 | an entry nobody has locked belongs to a thread that no signal is on its way to and whose handler is not at work |
| Handshake.CallKeepsInv | libbacktrace/BacktraceCurrent.cpp:150-153 | a new call keeps the invariant |
| Handshake.FailureKeepsInv | libbacktrace/BacktraceCurrent.cpp:163-184 | so do the failures of sigaction and tgkill |
| Handshake.WaitKeepsInv | libbacktrace/BacktraceCurrent.cpp:186-218 | so do the ends of the unwinder's waits |
| Handshake.MutexKeepsInv | libbacktrace/BacktraceCurrent.cpp:153-205 | so do taking and releasing g_sigaction_mutex |
| Handshake.InstallKeepsInv | libbacktrace/BacktraceCurrent.cpp:158-163 | so does installing the handler, which saves the old action |
| Handshake.PutBackKeepsInv | libbacktrace/BacktraceCurrent.cpp:180-201 | so does putting the saved action back, after the wait or after tgkill failed |
| Handshake.LockListKeepsInv | libbacktrace/ThreadEntry.cpp:50-74 | so does taking list_mutex_ in Get or Remove |
| Handshake.UnlockListKeepsInv | libbacktrace/ThreadEntry.cpp:66-78 | so does releasing it |
| Handshake.GetKeepsInv | libbacktrace/ThreadEntry.cpp:51-65 | so does the search in ThreadEntry::Get, which counts an existing entry or makes a new one |
| Handshake.LockEntryKeepsInv | libbacktrace/ThreadEntry.h:36-42 | so does locking the entry |
| Handshake.ResetKeepsInv | libbacktrace/ThreadEntry.h:39-41 | so does resetting the wait value |
| Handshake.KillKeepsInv | libbacktrace/BacktraceCurrent.cpp:171-184 | so does sending the signal |
| Handshake.FinishUnwindKeepsInv | libbacktrace/BacktraceCurrent.cpp:209-212 | so does the unwinder's Wake |
| Handshake.UnlockEntryKeepsInv | libbacktrace/ThreadEntry.cpp:72 | so does unlocking the entry in Remove |
| Handshake.DropReferenceKeepsInv | libbacktrace/ThreadEntry.cpp:75-77 | so does dropping the reference, which frees the entry only with its last one |
| Handshake.DeliverKeepsInv | libbacktrace/BacktraceCurrent.cpp:121-122 | so does the delivery of the signal, also to a thread that holds list_mutex_ |
| Handshake.HandlerLockListKeepsInv | libbacktrace/ThreadEntry.cpp:50 | so does taking list_mutex_ in the handler's Get |
| Handshake.HandlerGetKeepsInv | libbacktrace/BacktraceCurrent.cpp:124-129 | so does the handler's search |
| Handshake.HandlerUnlockListKeepsInv | libbacktrace/ThreadEntry.cpp:66 | so does releasing the mutex there |
| Handshake.HandlerCopyKeepsInv | libbacktrace/BacktraceCurrent.cpp:131 | so does the handler's copy of the context |
| Handshake.HandlerWakeKeepsInv | libbacktrace/BacktraceCurrent.cpp:133-134 | so does the handler's first Wake |
| Handshake.HandlerWait2KeepsInv | libbacktrace/BacktraceCurrent.cpp:140 | so does the end of the handler's Wait(2) |
| Handshake.HandlerWakeAgainKeepsInv | libbacktrace/BacktraceCurrent.cpp:141-143 | so does the handler's last Wake |
| Handshake.QuietActionsKeepInv | libbacktrace/BacktraceCurrent.cpp:144-148 | so do the handler's return and a thread's own work |
| HandshakeRuns.RunKeepsInv | libbacktrace/BacktraceCurrent.cpp:121-232 | the invariant holds after every run, whatever the interleaving and the number of threads |
| HandshakeRuns.UnwindingIsSafe | libbacktrace/BacktraceCurrent.cpp:207-212 | while an unwinder walks the stack its target is blocked in Wait(2), the entry is live, holds the context the target is stopped in, and no other unwinder has this target |
| HandshakeRuns.SignalActionIsSafe | libbacktrace/BacktraceCurrent.cpp:158-205 | when the mutex is free the original action is installed again, since every call saves and puts back what it found, and a signal under way always meets SignalHandler |
| HandshakeRuns.HandlerFindsEntry | libbacktrace/BacktraceCurrent.cpp:124-129 | a handler always finds an entry, and it is the one its sender waits on |
| HandshakeRuns.EntriesInUseAreLive | libbacktrace/ThreadEntry.cpp:49-79 | no unwinder or handler uses a freed entry, and each count is the number of its users plus the references handlers keep, at least 1 |
| HandshakeRuns.HandlerEntryIsNeverFreed | libbacktrace/BacktraceCurrent.cpp:141-143 | an entry a handler has got stays live for the rest of every run |
| HandshakeRuns.RoundsFollowScript | libbacktrace/ThreadEntry.cpp:99-125 | in every run the wait value counts the wakes since the last reset, these are handler, unwinder, handler of one single round in this order, and the entry is removed only after all three |
| HandshakeProgress.RunsAreBounded | libbacktrace/BacktraceCurrent.cpp:121-232 | a run makes at most 26 steps of the protocol for each call, whatever the interleaving |
| HandshakeProgress.LockedOutInRemove | libbacktrace/BacktraceCurrent.cpp:229 | a thread can be interrupted while it holds list_mutex_ only in the Remove after g_sigaction_mutex was released |
| HandshakeProgress.StepKeepsLockedOut | libbacktrace/ThreadEntry.cpp:49-79 | a thread whose handler waits for the list_mutex_ the thread itself holds stays so at every step |
| HandshakeProgress.LockedOutForEver | libbacktrace/ThreadEntry.cpp:49-79 | from then on, in every continuation, that round never ends, its sender stays in Wait(1) and holds g_sigaction_mutex |
| HandshakeProgress.StepKeepsOrder | libbacktrace/BacktraceCurrent.cpp:171-188 | a thread that is stopped by a stopped thread ranks below it, before and after every step |
| HandshakeProgress.StepLocksNobodyOut | libbacktrace/BacktraceCurrent.cpp:121-122 | no step locks a thread out but the delivery of a signal to a thread that holds list_mutex_ |
| HandshakeProgress.SomethingCanStep | libbacktrace/BacktraceCurrent.cpp:121-232 | as long as no thread is locked out and some call or handler is unfinished, a step is possible that locks no thread out |
| HandshakeProgress.FinishesExactly | libbacktrace/BacktraceCurrent.cpp:121-232 | after every run, all calls and handlers can be brought to their end if and only if no thread has been interrupted by the signal while it holds list_mutex_ |
| HandshakeProgress.DeadlockOnlyWhenLockedOut | libbacktrace/BacktraceCurrent.cpp:121-232 | a reachable state with unfinished work and no enabled step has such a thread |
| HandshakeDeadlock.DeadlockIsReachable | libbacktrace/ThreadEntry.cpp:49-79 | for any two threads, a run of 36 steps: one has unwound the other and is inside Remove when the other's signal interrupts it, and both wait for ever |
| ThreadEntry.Entry.constructor | libbacktrace/ThreadEntry.cpp:33-41 | a new entry has one reference and points to the old head |
| ThreadEntry.EntryList.constructor | libbacktrace/ThreadEntry.cpp:28 | an empty list |
| ThreadEntry.EntryList.Get | libbacktrace/ThreadEntry.cpp:49-69 | the thread's entry with one more reference, a new one at the head if wanted, else null; the chain stays acyclic and doubly linked but for the head, one entry for a thread, and every count is Gets minus Removes |
| ThreadEntry.EntryList.Insert | libbacktrace/ThreadEntry.cpp:33-47 | a new entry links itself in at the head |
| ThreadEntry.EntryList.Remove | libbacktrace/ThreadEntry.cpp:71-79 | one reference less; with the last one the entry leaves the chain, all others stay in order |
| ThreadEntry.EntryList.Unlink | libbacktrace/ThreadEntry.cpp:83-97 | the destructor closes the chain around the entry, also at the head, whose `prev_` may be stale |
| ArmExidx.Unwinder.constructor | libunwindstack/ArmExidx.h:56-57 | an unwinder over these registers and bytes |
| ArmExidx.Unwinder.GetByte | libunwindstack/ArmExidx.cpp:176-184 | the first byte is taken, or the status is truncated |
| ArmExidx.Unwinder.PopHigh | libunwindstack/ArmExidx.cpp:186-257 | pops r4-r15 by mask, takes a popped sp for the vsp, notes a popped pc, refuses an empty mask |
| ArmExidx.Unwinder.MoveVsp | libunwindstack/ArmExidx.cpp:259-287 | vsp from a register, with r13 and r15 reserved |
| ArmExidx.Unwinder.PopFromR4 | libunwindstack/ArmExidx.cpp:290-347 | pops r4 up to r[4+n] and r14 |
| ArmExidx.Unwinder.PopLow | libunwindstack/ArmExidx.cpp:365-431 | pops r0-r3 by mask; other masks are spare |
| ArmExidx.Unwinder.AddUleb | libunwindstack/ArmExidx.cpp:442-471 | adds 0x204 and four times a uleb128, the 32-bit accumulation equal to the exact sum |
| ArmExidx.DigitIsAdded | libunwindstack/ArmExidx.cpp:453 | or-ing in the next seven bits adds their value in 32 bits |
| ArmExidx.Unwinder.SkipDoubles | libunwindstack/ArmExidx.cpp:473-500 | skips the double registers an operand counts |
| ArmExidx.Unwinder.SkipControl | libunwindstack/ArmExidx.cpp:592-628 | skips the control registers of an operand mask |
| ArmExidx.Unwinder.Prefix1011 | libunwindstack/ArmExidx.cpp:546-564 | dispatch of 1011xxxx |
| ArmExidx.Unwinder.Prefix10 | libunwindstack/ArmExidx.cpp:536-564 | dispatch of 10xxxxxx |
| ArmExidx.Unwinder.Prefix11 | libunwindstack/ArmExidx.cpp:566-772 | dispatch of 11xxxxxx |
| ArmExidx.Unwinder.DecodeNext | libunwindstack/ArmExidx.cpp:774-822 | one instruction, decoded and performed as specified, with the status when it stops |
| ArmExidx.Unwinder.Evaluate | libunwindstack/ArmExidx.cpp:824-828 | the loop ends, with the specified status and registers |
| ArmPrologue.DecodesBack | libunwindstack/ArmExidx.cpp:774-822 | every instruction for a prologue step is decoded as it was meant, whatever follows |
| ArmPrologue.PopsSaved | libunwindstack/ArmExidx.cpp:237-245 | popping registers that lie in order at the stack pointer gives their values and moves over them |
| ArmPrologue.PrologueLays | libunwindstack/ArmExidx.cpp:186-257 | a prologue that has run has laid down everything it saves |
| ArmPrologue.EvalUndoesPrologue | libunwindstack/ArmExidx.cpp:824-828 | the code of any prologue of pushes, decrements and VFP pushes undoes it and goes on with what follows the code |
| ArmPrologue.EvalRestoresCaller | libunwindstack/ArmExidx.cpp:824-828 | closed by finish it gives back the caller's sp and every saved register, leaves the others alone, and sets the pc flag exactly when the pc was saved |
| ArmPrologue.EvalWithoutFinish | libunwindstack/ArmExidx.cpp:176-184 | without finish it ends truncated |
| ArmEntry.ExtractGivesCode | libunwindstack/ArmExidx.cpp:44-174 | from each of the four forms of entry the instructions come back in order, closed by a finish unless the last byte is one |
| ArmEntry.UnwindsFrame | libunwindstack/ArmExidx.cpp:44-174 | from the index table entry to the caller's registers: extracting and evaluating undoes the prologue |
| ArmEntry.ImplicitFinishExactly | libunwindstack/ArmExidx.cpp:165-168 | when the code fills its entry, the frame is unwound if and only if the last byte is not 0xb0; else evaluation ends truncated |
| ArmEntry.OperandLooksLikeFinish | libunwindstack/ArmExidx.cpp:165-168 | a push of d11 is such a prologue |
| ArmEntry.EntryReader.constructor | libunwindstack/ArmExidx.h:56-57 | a reader over this ELF memory |
| ArmEntry.EntryReader.AppendWords | libunwindstack/ArmExidx.cpp:152-163 | the bytes of the following words, most significant first, or the address that could not be read |
| ArmEntry.EntryReader.Complete | libunwindstack/ArmExidx.cpp:147-168 | at most five words, then the closing finish |
| ArmEntry.EntryReader.ReadTable | libunwindstack/ArmExidx.cpp:103-145 | personalities 0, 1, 2 and the generic model; others are invalid |
| ArmEntry.EntryReader.ExtractEntryData | libunwindstack/ArmExidx.cpp:44-174 | the specified bytes, or the specified failure |
| DwarfOp.TableCovers | libunwindstack/DwarfOp.cpp:100-1435 | every table entry asks for the operands its handler uses and for the stack values it uses without a check of its own, which only pick has |
| DwarfOp.EvalRuns | libunwindstack/DwarfOp.cpp:1482-1531 | at most 1001 operations are decoded, success is leaving the expression after at most 1000, and the dex flag is set if and only if the first two are the marker |
| DwarfOp.LeavingSucceeds | libunwindstack/DwarfOp.cpp:1482-1531 | leaving the expression after at most 1000 operations is enough for success |
| DwarfOp.ApplyStuckExactly | libunwindstack/DwarfOp.cpp:1612-1935 | with negation taken to wrap, the only operations without a result are a pick one past the stack, a shift by the full width or more, and dividing the least value by -1 |
| DwarfOp.StackBound | libunwindstack/DwarfOp.cpp:1482-1567 | for any bytes and branches the stack never holds more values than operations decoded |
| DwarfOp.BranchIsStandardExactly | libunwindstack/DwarfOp.cpp:1816-1829 | DW_OP_bra does what section 2.5.1.5 of DWARF 4 says if and only if the value is not zero or the offset is |
| Bits.BitwiseBits | libunwindstack/DwarfOp.cpp:1709-1814 | and, or and xor are the operations bit by bit |
| Bits.SameBits | libunwindstack/DwarfOp.cpp:1709-1814 | which determines their results |
| DwarfOp.Evaluator.constructor | libunwindstack/DwarfOp.h:46-47 | an empty stack at offset 0 |
| DwarfOp.Evaluator.StackPop | libunwindstack/DwarfOp.h:77-81 | the top value is taken |
| DwarfOp.Evaluator.HandleBinary | libunwindstack/DwarfOp.cpp:1709-1872 | two values are replaced by their result in the address width |
| DwarfOp.Evaluator.HandleShuffle | libunwindstack/DwarfOp.cpp:1653-1697 | dup, drop, over, pick, swap and rot on the stack in place |
| DwarfOp.Evaluator.HandleDeref | libunwindstack/DwarfOp.cpp:1611-1642 | a value read from memory, or the failure |
| DwarfOp.Evaluator.Handle | libunwindstack/DwarfOp.cpp:1611-1935 | every handler answers as its operation's specification |
| DwarfOp.Evaluator.DecodeAsInfo | libunwindstack/DwarfOp.cpp:1547-1567 | the stack size is required, the operands are read, then the handler is called |
| DwarfOp.Evaluator.DecodeNext | libunwindstack/DwarfOp.cpp:1533-1567 | one operation, or its error |
| DwarfOp.Evaluator.Evaluate | libunwindstack/DwarfOp.cpp:1481-1531 | the counted loop with its special first two operations gives the specified outcome |
| DwarfExpression.DecodeBinary | libunwindstack/DwarfOp.cpp:1709-1814 | a binary operation on the residues of two integers gives the residue of the integers' result |
| DwarfExpression.CompiledPushes | libunwindstack/DwarfOp.cpp:1533-1567 | from any stack, the bytes of an expression push its value and nothing else |
| DwarfExpression.EvalPreservesMeaning | libunwindstack/DwarfOp.cpp:1482-1567 | the postfix bytes of any expression of at most 1000 operations evaluate to exactly one value, the expression's over the integers, modulo the address width |
| DwarfExpression.MarkedEvaluates | libunwindstack/DwarfOp.cpp:1492-1511 | const4u DEX1, drop and a literal evaluate to the literal with the dex pc flag |
| DwarfExpression.UntakenBranchFails | libunwindstack/DwarfOp.cpp:1816-1829 | lit0, bra over one byte, lit1: the operand of the branch is taken for an illegal operation |
| DwarfMemory.UlebRoundTrip | libunwindstack/DwarfMemory.cpp:47-60 | any v < 2^64 comes back from its standard encoding, the offset past exactly that encoding, whatever follows |
| DwarfMemory.SlebRoundTripExactly | libunwindstack/DwarfMemory.cpp:62-79 | any int64_t comes back if and only if it is at least -2^62; below that the code shifts by 70 |
| DwarfMemory.SignBitsAreAdded | libunwindstack/DwarfMemory.cpp:73-76 | or-ing in the sign bits of a number of up to nine digits takes 128 to that power off, modulo 2^64 |
| DwarfMemory.Cursor.constructor | libunwindstack/DwarfMemory.cpp:29-36 | a cursor at offset 0 |
| DwarfMemory.Cursor.ReadByte | libunwindstack/DwarfMemory.cpp:29-36 | the byte at the offset, which moves only if it is there |
| DwarfMemory.Cursor.ReadULEB128 | libunwindstack/DwarfMemory.cpp:47-60 | the accumulating loop gives the sum of the seven-bit digits modulo 2^64 |
| DwarfMemory.Cursor.ReadSLEB128 | libunwindstack/DwarfMemory.cpp:62-79 | the same with the sign extended |
| MemoryCache.CacheAgreesExactly | libunwindstack/Memory.cpp:409-453 | the cache returns the same count and bytes as the memory if and only if the read does not run from a readable last page over 2^64 into a readable byte at 0 |
| MemoryCache.ReadPastTheEndDiffers | libunwindstack/Memory.cpp:428-452 | with the last page and address 0 mapped, two bytes at the last address come back where the memory has one |
| MemoryCache.ReadFromPageIsCachedRead | libunwindstack/Memory.cpp:428-452 | reading from one page or across two is one read of the memory, but for the wrap |
| MemoryCache.Cache.constructor | libunwindstack/Memory.cpp:409-453 | an empty cache |
| MemoryCache.Cache.Clear | libunwindstack/include/unwindstack/Memory.h:65 | an empty cache again |
| MemoryCache.Cache.GetPage | libunwindstack/Memory.cpp:415-427 | the whole page or none, and only whole pages stay cached |
| MemoryCache.Cache.ReadCached | libunwindstack/Memory.cpp:428-452 | the bytes copied out of one or two pages, the rest of the buffer untouched |
| MemoryCache.Cache.Read | libunwindstack/Memory.cpp:409-453 | after any history of reads and clears the count and the buffer depend on the memory alone |
| Maps.OldObjectsAreConserved | libunwindstack/Maps.cpp:121-183 | every old object ends up in the maps or aside and never in both, unchanged maps keep their old object, and both lists ascend |
| Maps.SortsToUpdated | libunwindstack/Maps.cpp:170-180 | sorting the slots and cutting off the nulls gives the new parse with old objects where nothing changed |
| Maps.RanOffIsUnsafe | libunwindstack/Maps.cpp:137-160 | an inner loop that runs off the end means that the last old map is gone and a new one does not start before it |
| Maps.NeverRanOffIsSafe | libunwindstack/Maps.cpp:137-160 | and conversely |
| Maps.MapBehindTheLastIsUnsafe | libunwindstack/Maps.cpp:137-160 | one old map and another new one behind it |
| Maps.LinksLiveExactly | libunwindstack/Maps.cpp:121-183 | after an update every kept map's prev_map is null or kept, if and only if no changed map comes right after an unchanged one in the new parse |
| Maps.NewMapHasDeadLink | libunwindstack/Maps.cpp:137-146 | one map stays and a new one follows: the new one is linked to a freed duplicate |
| Maps.MapInfo.constructor | libunwindstack/include/unwindstack/MapInfo.h:43-52 | the fields that are compared, the offset and the link to the previous map |
| Maps.LocalUpdatableMaps.VisitOld | libunwindstack/Maps.cpp:138-156 | one old map is the same, starts later, or is put aside because no new map equals it |
| Maps.LocalUpdatableMaps.FindOld | libunwindstack/Maps.cpp:137-157 | the inner loop finds the old map, stops before a later one, or runs off the end |
| Maps.LocalUpdatableMaps.SearchAll | libunwindstack/Maps.cpp:129-161 | the outer loop deals with all maps or reads through a null slot, the latter only in an unsafe update |
| Maps.LocalUpdatableMaps.PutAside | libunwindstack/Maps.cpp:163-168 | the remaining old maps are moved aside |
| Maps.LocalUpdatableMaps.Reparse | libunwindstack/Maps.cpp:121-183 | a failed parse changes nothing; a safe update gives exactly the new parse with conserved objects; an unsafe one crashes or loses maps |
| Symbols.SearchFinds | libunwindstack/Symbols.cpp:40-57 | in a sorted cache the binary search finds a function that contains the address, if none lies inside the one to be found; equal and overlapping ranges are allowed |
| Symbols.SearchCompleteExactly | libunwindstack/Symbols.cpp:40-57 | the search misses nothing, whichever of a set of functions are cached, if and only if none of them lies inside another |
| Symbols.NestedIsLost | libunwindstack/Symbols.cpp:40-104 | a function inside another, both cached: an address of the outer one has no name any more |
| Symbols.OverlapDependsOnHistory | libunwindstack/Symbols.cpp:59-104 | with overlapping functions the cache can answer differently from the table |
| Symbols.SortSorts | libunwindstack/Symbols.cpp:99-102 | sorting gives a cache sorted by start |
| Symbols.Table.FoundExactly | libunwindstack/Symbols.cpp:59-104 | where no function lies inside another, after any history a function is found if and only if a scan of the whole table finds one |
| Symbols.Table.FoundIsAlike | libunwindstack/Symbols.cpp:59-104 | where functions overlap only with equal ranges, what is found has the range of what a scan finds |
| Symbols.Table.AnswerIsLookup | libunwindstack/Symbols.cpp:59-104 | in a well-formed table the answer after any history is that of a scan, name and offset |
| Symbols.Symbols.constructor | libunwindstack/Symbols.cpp:31-38 | nothing read yet |
| Symbols.Symbols.ClearCache | libunwindstack/Symbols.h:52-55 | nothing read yet, again |
| Symbols.Symbols.GetInfoFromCache | libunwindstack/Symbols.cpp:40-57 | the loop is the binary search |
| Symbols.Symbols.ReadOn | libunwindstack/Symbols.cpp:70-97 | reading on from the last stop finds the first later function that covers the address, and caches every function it passes |
| Symbols.Symbols.GetName | libunwindstack/Symbols.cpp:59-104 | for every readable table, overlapping or not: what the search finds among the functions read so far, else the first later one that covers the address, by name; for a well-formed table the answer of a scan of the whole table, after any history |

## Left out

- FdeIndex.Reader.GetNextCieOrFde: the bytes of CIE and FDE headers and failures to read them are not modelled; a section is a sequence of entries, and a CFA program a sequence of decoded instructions with their operands.
- `DwarfEhFrameWithHdr` and `GetFdeOffsetFromPc`: a plain binary search that would only add easy members.
- DwarfEval.Eval: at most 64 registers, the size of the saved-register array; the code aborts beyond that.
- DwarfSection.Section.Step: rows are the fresh ones for sections whose FDEs do not overlap, whose locations ascend inside the FDE, and whose programs meet the exact conditions of `RowsServeExactly` and `CieCacheTransparentForAllFdesExactly`; outside of these the rows can be wrong, as `UnsoundRowExists`, `BackwardsLocationOverstatesRow` and `MovingCieIsNotTransparent` show.
- Handshake.InitInv: the invariant is about runs in which no wait times out and only `UnwindThread` sends the signal; `SignalLogOnly`, late signals and the clock are not modelled.
- HandshakeProgress.LockedOutForEver: in the code the sender gives up `Wait(1)` after five seconds and then waits for `list_mutex_` in `Remove`; with no timeouts it stays in `Wait(1)` here.
- The condition variable: a wait ends once the wait value is the one awaited, so a wake that reaches no waiter is not modelled.
- ThreadEntry.EntryList.Remove: the entry's own mutex and wait value are in `Handshake` and not in the list.
- ArmExidx.Unwinder.DecodeNext: the logging modes, `log_cfa_offset_` and `log_regs_` are not modelled.
- ArmPrologue.EvalRestoresCaller: prologues that move the stack pointer through another register, and the Intel Wireless MMX pushes, are decoded and performed but not among the prologue steps.
- ArmEntry.ExtractGivesCode: `FindEntry`, the search for the index table entry of a pc, is left out as a plain binary search.
- DwarfOp.ApplyStuckExactly: `abs` and `neg` of the least signed value, an overflow that C++ leaves undefined, are taken to wrap, so that `neg` has its value modulo the address width.
- MemoryCache.Cache.Read: the cached memory does not change between reads, and its own read returns the longest readable prefix.
- Maps.LocalUpdatableMaps.Reparse: what parsing `/proc/self/maps` appends is a parameter, in ascending order as the kernel gives it.
- Symbols.Symbols.GetName: after an entry that cannot be read the answers are modelled but not stated.
- `Symbols::GetGlobal`, `Maps::Find`, ELF and dex file parsing, build ids, decompression, the per-architecture registers and the `Unwinder` loop: glue or plain searches that would only add easy members.
- Logging and display everywhere.
