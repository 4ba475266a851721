# gbarecomp runtime core, modelled and proved

A Dafny model of the state-heavy parts of gbarecomp, a static recompiler for the Game Boy
Advance, and of the storage and transport protocols around them. `dafny verify dfyconfig.toml`
checks the whole project. Each file is one module.

**ARM execution state** (`src/armv4t/runtime_arm.cpp`). `ArmCpu` is the register file with its
lazily stale bank copies, `FlatRegisters` the architecture's flat register file it refines.
`SwiLedger` and `CallStack` are the two bounded stacks, `Machine` the whole resumable machine with
its interrupt continuations, `MachineRefinement` relates machine runs to the flat registers and
to an unbounded SWI stack, `IrqPaths` compares the two interrupt deliveries, and `Runtime` is the
same machine updated in place. `Dispatch` holds the two lookup caches, `Flags` the condition
flags.

**Cycle arithmetic** (`WaitModel`): the wait table, the GamePak prefetch loop, and the bound that
admits native regions.

**Replay writer**: `ReplayHash` is the streaming hash; `ReplayRing` the single-producer
single-consumer byte ring with producer and worker interleaved step by step, where a load of an
atomic may return any value stored since the last one seen; `ReplayRuns` what holds over whole
runs; `ReplayChannel` the two ends as they
run; `ReplayWriter` what travels through it, from requests to files.

**Durability**: `Crc`, `Sidecar` and `SidecarSlot` (checksums, the sidecar envelope and its
replacement protocol), `FileReplace`, `SnapshotIo`, `SnapshotCpu`, `SnapshotContainer`,
`ModCatalog` and `Snapshot` (save states), `SaveStore` (browser persistence) and `SaveAnswers`
(what a visitor's change is answered, over whole runs).

**Co-simulation**: `Cosim` (checkpoints and their ring) and `CosimStep` (the step handshake).

Code that updates state in place is a class or a method here, proved against functions on
values; protocols between threads, or between a program and a disk that may refuse, are state
machines over their steps, and their theorems hold for every sequence of steps.

Where the code does less than its documentation says, or than a reader might expect, the model
follows the code and a lemma gives the input or the exact condition:

- `src/debug/file_replace.h` says that no step destroys the only complete copy. Two steps may.
  When `exists` overlooks the destination and a stale backup could not be removed, restoring that
  backup overwrites it (`FileReplace.StaleBackupOverwrites`). And a call that could neither
  rename nor restore leaves the only old copy as the backup, which the next call removes before
  it knows whether it can rename (`FileReplace.ParkedCopyRemoved`). `FileReplace.NeverLostExact`
  and `FileReplace.RunHeldExact` say that there is no third way, for one call and for any
  sequence of calls and crashes.
- `src/debug/mod_state.cpp:271` tests the stream before its closing flush, so a write may answer
  true with a short file; what is read then is `SidecarSlot.LostTailExact`, what is read after
  any history `SidecarSlot.CrashSafeExact`, and a history that leaves nothing to read
  `SidecarSlot.LostTailThenCrash`.
- `src/debug/cosim.cpp:139` stops waiting after a time limit and may then report a guest parked
  that is about to leave, for every positive grant (`CosimStep.GaveUpAnswer`); the answer can be
  relied on whatever the schedule exactly if nothing is granted (`CosimStep.AnswerExact`).
- A prefetch head an odd number of bytes ahead moves back when one fetch covers the wait or there
  is room for one only (`WaitModel.HeadStaysAhead`, `WaitModel.OddHeadMovesBack`). Stalls of
  halfword-aligned code leave even heads only; an odd one comes from a snapshot, whose head
  `src/gba/gba_bus.cpp:114` takes as it is.
- A snapshot of a machine whose pending timing is out of range is written but cannot be loaded
  (`Snapshot.LoadOfSave`), and a load leaves the call-return floor as it was
  (`Snapshot.RestoredCalls`).

## Model

| member | source | states |
|---|---|---|
| `ArmCpu.Registers.SaveBank` | src/armv4t/runtime_arm.cpp:1324-1338 | saving a bank writes exactly R13, R14 and the R8-R12 copy of the mode being left, in place |
| `ArmCpu.Registers.LoadBank` | src/armv4t/runtime_arm.cpp:1340-1354 | loading a bank writes exactly the live R8-R14 from the copies of the mode being entered |
| `ArmCpu.Registers.Switch` | src/armv4t/runtime_arm.cpp:1420-1431 | a mode change moves registers only when the bank changes; otherwise copies stay stale and only CPSR changes |
| `ArmCpu.Registers.WriteCpsr` | src/armv4t/runtime_arm.cpp:1408-1432 | an MSR merges the fields of its mask, only the flag byte in User mode, and switches banks |
| `ArmCpu.Registers.WriteSpsr` | src/armv4t/runtime_arm.cpp:1434-1447 | an MSR to SPSR changes only the current bank's SPSR, and nothing in User and System modes |
| `ArmCpu.Registers.WriteUserReg` | src/armv4t/runtime_arm.cpp:1375-1397 | a user-bank store lands in the live slot or the User copy, and nowhere else |
| `ArmCpu.Registers.ReadUserReg` | src/armv4t/runtime_arm.cpp:1356-1373 | a user-bank load reads the live slot or the User copy |
| `ArmCpu.Registers.Enter` | src/armv4t/runtime_arm.cpp:1632-1649 | exception entry: new bank, SPSR of the target bank, link, ARM state with IRQs masked, vector |
| `ArmCpu.Registers.RestoreFromSpsr` | src/armv4t/runtime_arm.cpp:1551-1564 | CPSR comes back from the current SPSR with its bank; User and System modes have none to restore |
| `FlatRegisters.SwitchKeepsCell` | src/armv4t/runtime_arm.cpp:1311-1354 | no mode switch changes the content of any physical register, wherever its fresh copy lies |
| `FlatRegisters.SwiEntryArchitecture` | src/armv4t/runtime_arm.cpp:1632-1649 | SWI entry is that of section A2.6.4 of the ARM ARM, register by register: LR_svc, SPSR_svc, mode 13h, state and mask bits, vector, and nothing else |
| `FlatRegisters.IrqEntryArchitecture` | src/armv4t/runtime_arm.cpp:1755-1783 | IRQ entry likewise, with LR_irq four past the return address and the vector at 18h |
| `FlatRegisters.MsrCpsrFields` | src/armv4t/runtime_arm.cpp:1408-1432 | an MSR replaces exactly the fields its mask names, in User mode at most the flag field, and changes no physical register whatever mode it selects |
| `FlatRegisters.MsrSpsrFields` | src/armv4t/runtime_arm.cpp:1434-1447 | an MSR to SPSR replaces exactly the fields its mask names in the SPSR of the present mode, nothing in the modes that share the User registers, and no other register |
| `FlatRegisters.StepSimulates` | src/armv4t/runtime_arm.cpp:1356-1446 | every register operation on the lazily banked CPU does to its cells what it does to a flat machine with one cell per physical register, results included |
| `FlatRegisters.RunRefinesFlat` | src/armv4t/runtime_arm.cpp:1311-1446 | so does every sequence of PSR writes, user transfers, SWI and IRQ entries and exception returns: the results read and the final registers are those of the flat machine of section A2.4 of the ARM ARM (DDI 0100) |
| `FlatRegisters.CellsDoNotAlias` | src/armv4t/runtime_arm.cpp:1311-1354 | in no mode do two register names share a physical register |
| `FlatRegisters.UserReadExact` | src/armv4t/runtime_arm.cpp:1356-1373 | a user-bank read returns the User cell of every register file exactly when the register is not R13 or R14 or the mode is one of 10h, 11h, 12h, 13h, 17h, 1Bh and 1Fh |
| `FlatRegisters.UserWriteExact` | src/armv4t/runtime_arm.cpp:1375-1397 | a user-bank store writes the User cell of its register and no other, under the same condition |
| `FlatRegisters.ModeTable` | src/armv4t/runtime_arm.cpp:1311-1322 | which of the 32 mode numbers have registers and an SPSR of their own: 11h, 12h, 13h, 17h and 1Bh; 10h and 1Fh share the User registers and have no SPSR |
| `FlatRegisters.RegisterTable` | src/armv4t/runtime_arm.cpp:1311-1354 | when two modes share a register: R0-R7 and R15 always, R8-R12 unless exactly one is FIQ, R13 and R14 when they are the same mode or neither has registers of its own |
| `FlatRegisters.SpsrTable` | src/armv4t/runtime_arm.cpp:1311-1322 | two modes share an SPSR exactly when they are the same mode or neither has registers of its own |
| `FlatRegisters.SwitchCopies` | src/armv4t/runtime_arm.cpp:1420-1431 | which stored copies a mode change refreshes: those of the bank left, and none when the bank stays |
| `FlatRegisters.ReturnCopies` | src/armv4t/runtime_arm.cpp:1551-1564 | an exception return refreshes them even within one bank, and in User and System mode changes nothing but R15 |
| `SwiLedger.Ledger.Enter` | src/armv4t/runtime_arm.cpp:461-471 | a push appends, dropping the oldest entry when 64 are held |
| `SwiLedger.Ledger.Leave` | src/armv4t/runtime_arm.cpp:447-459 | a Supervisor return pops the top entry and takes its continuation unless the guest asked for it modulo bit 0; an empty ledger changes nothing |
| `SwiLedger.Ledger.Restore` | src/armv4t/runtime_arm.cpp:1876-1881 | a restore of up to 64 entries replaces the ledger, a longer list is refused and changes nothing |
| `SwiLedger.LedgerIsSuffix` | src/armv4t/runtime_arm.cpp:447-471 | over every sequence of entries and returns the bounded ledger is a top-aligned suffix of a stack that never drops |
| `SwiLedger.BalancedLedger` | src/armv4t/runtime_arm.cpp:447-471 | a balanced script nested d deep leaves exactly the newest 64 - d entries it found |
| `SwiLedger.BalancedRun` | src/armv4t/runtime_arm.cpp:447-471 | where every return of a balanced script lands, from every starting ledger: its own continuation while fewer than 64 SWIs nest inside it, the requested PC beyond |
| `SwiLedger.ReturnsHome` | src/armv4t/runtime_arm.cpp:447-471 | a Supervisor return lands on its own recorded continuation whatever PC the guest asked for and whatever ledger it started from, exactly when at most 64 SWIs are nested, its own included |
| `SwiLedger.LandingsHome` | src/armv4t/runtime_arm.cpp:447-471 | so with at most 64 nested every return of a balanced script lands on its own continuation, bit 0 apart |
| `SwiLedger.LegalReturns` | src/armv4t/runtime_arm.cpp:447-459 | a return that asks for its own continuation, bit 0 apart, is never redirected, however deep it is nested |
| `CallStack.CallReturnStack.Push` | src/armv4t/runtime_arm.cpp:1201-1234 | a push onto a full stack first evicts the older half of the host-less run above the floor, and fails only when there is none |
| `CallStack.CallReturnStack.Matches` | src/armv4t/runtime_arm.cpp:1236-1259 | a return cuts the stack at the topmost equal entry at or above the floor, or finds none |
| `CallStack.CallReturnStack.Cancel` | src/armv4t/runtime_arm.cpp:1261-1275 | a cancelled call drops its own top entry above the floor unless a dispatch is suspended |
| `CallStack.CallReturnStack.Restore` | src/armv4t/runtime_arm.cpp:1294-1301 | a restore keeps the first 1024 entries at most, makes every one host-less and leaves the floor; the stack is then within its bounds exactly when that floor is not above the new depth |
| `CallStack.TopMatchExact` | src/armv4t/runtime_arm.cpp:1236-1259 | a hit is the topmost equal entry and a miss means there is none at or above the floor |
| `CallStack.PushExact` | src/armv4t/runtime_arm.cpp:1201-1234 | a push aborts exactly when the stack is full of entries a host frame waits on; it never evicts one of those nor one below the floor |
| `CallStack.OperationsKeepBelow` | src/armv4t/runtime_arm.cpp:1201-1275 | no call-stack operation touches an entry below the IRQ floor, and all keep floor <= depth <= 1024 and hostless <= depth |
| `CallStack.PushThenReturn` | src/armv4t/runtime_arm.cpp:1201-1275 | after the push of a call that evicted nothing, the return to that address or to one differing from it in bit 0 hits and gives back the stack the call found, and so does the cancellation |
| `CallStack.ReturnHits` | src/armv4t/runtime_arm.cpp:1236-1259 | a return hits exactly when some entry at or above the floor is its address up to bit 0, and then cuts the stack at the topmost such entry |
| `CallStack.CancelExact` | src/armv4t/runtime_arm.cpp:1261-1275 | a cancellation drops the top entry exactly when that lies above the floor, is its address up to bit 0, and no dispatch is suspended |
| `CallStack.OperationsKeepEven` | src/armv4t/runtime_arm.cpp:1201-1275 | every entry a push stores is even, and every operation keeps all entries so |
| `Common.EvenExact` | src/armv4t/runtime_arm.cpp:1202 | clearing bit 0 leaves an even address, and two addresses become the same exactly when they differ at most in bit 0 |
| `Machine.StepKeepsInv` | src/armv4t/runtime_arm.cpp:1201-1275 | every step of the resumable machine keeps the invariant: chained continuations, floor <= depth <= 1024, hostless <= depth, one frame per nesting level |
| `Machine.ReachableInv` | src/armv4t/runtime_arm.cpp:1509-1527 | that invariant holds in every reachable state, whose captured context a restore accepts |
| `Machine.ReachableFromStart` | src/armv4t/runtime_arm.cpp:1509-1527 | in particular in every state reachable from the start of the program |
| `Machine.ChainMonotone` | src/armv4t/runtime_arm.cpp:1899-1924 | the return depths of the frames ascend along the chain and stay below the floor |
| `Machine.RestoreOfCapture` | src/armv4t/runtime_arm.cpp:1882-1924 | restoring a captured context gives back the machine, with every call-return entry host-less |
| `Machine.RunProtects` | src/armv4t/runtime_arm.cpp:1509-1527 | while an interrupt has not returned, its frame and the whole stack below it stay as they were |
| `Machine.IrqIsTransparent` | src/armv4t/runtime_arm.cpp:1792-1811 | whatever runs inside an interrupt, evictions, reloads and nested interrupts included, its return finds the call-return stack, floor, nest and iret depths, outer frames, R0-R3 and R12 of its entry |
| `Machine.ReturnEnds` | src/armv4t/runtime_arm.cpp:1509-1527 | an IRQ-mode return pops one continuation and restores exactly what it holds |
| `Machine.SwiRecords` | src/armv4t/runtime_arm.cpp:1632-1670 | an SWI records the address its entry puts in LR_svc, which is the R15 it was entered with, as the continuation, and that less the width of the instruction as the return PC |
| `Machine.IrqBegins` | src/armv4t/runtime_arm.cpp:1755-1811 | an interrupt leaves for its return exactly R0-R3, R12, the floor, the depth and the iret depth, raises the floor to the live depth and suspends, in mode 12h at 18h with LR four past the return address |
| `Machine.OtherReturn` | src/armv4t/runtime_arm.cpp:1470-1529 | a return from a mode that is neither IRQ nor Supervisor goes where it asks and touches neither ledger nor continuations |
| `Machine.SuspensionExact` | src/armv4t/runtime_arm.cpp:1261-1275 | between a suspension and its end a cancelled call leaves the call-return stack alone; after it the cancellation is the call stack's own |
| `Machine.RestoreExact` | src/armv4t/runtime_arm.cpp:1882-1924 | a context is refused exactly when it has more than 64 SWI or 1024 call-return entries, a floor above them, a nesting depth other than its number of frames or a frame whose marks do not fit; otherwise it is restored as it is, with every entry host-less |
| `MachineRefinement.RunIsRegisters` | src/armv4t/runtime_arm.cpp:1470-1529 | the register file after a machine run is the register file after the register operations of that run |
| `MachineRefinement.MachineRefinesFlat` | src/armv4t/runtime_arm.cpp:1311-1446 | whole machine runs, with SWIs, nested interrupts and context reloads, refine the flat register file |
| `MachineRefinement.RunLedger` | src/armv4t/runtime_arm.cpp:433-471 | interrupts, nesting and reloads leave the ledger alone: over every machine run it is a suffix of the unbounded SWI stack |
| `MachineRefinement.SupervisorReturnLands` | src/armv4t/runtime_arm.cpp:1496-1502 | a Supervisor return in any machine state goes where the ledger says and pops it |
| `MachineRefinement.BlocksAreRun` | src/armv4t/runtime_arm.cpp:1470-1529 | reading a balanced machine run as SWIs with their returns and what lies between loses nothing: it is the same run, operation by operation |
| `MachineRefinement.BalancedExact` | src/armv4t/runtime_arm.cpp:433-471 | such readings are all the runs whose SWIs and Supervisor returns balance when they are counted, and no others |
| `MachineRefinement.BalancedMachine` | src/armv4t/runtime_arm.cpp:433-471 | in every machine run whose SWIs are balanced, with interrupts and SWIs in their handlers, reloads and mode changes, from any ledger: 64 - d of the entries found are left for SWIs nested d deep; with at most 64 nested every return lands, up to bit 0, on the R15 its own SWI was entered with; and one that asks for that address is not redirected however deep it is |
| `MachineRefinement.BalancedReturnsHome` | src/armv4t/runtime_arm.cpp:433-471 | the same of every operation sequence that balances in that count |
| `MachineRefinement.EntriesRecorded` | src/armv4t/runtime_arm.cpp:1590-1672 | the continuations recorded in a run are the R15 values at its SWIs, in order |
| `IrqPaths.LoopExit` | src/armv4t/runtime_arm.cpp:1812-1849 | the drive loop's exit test is false throughout a handler, nested interrupts included, and true at that handler's own return |
| `IrqPaths.ResumableRestoresCalls` | src/armv4t/runtime_arm.cpp:1792-1811 | the explicit path gives back the whole call-return stack, floor and host-less mark |
| `IrqPaths.RecursiveKeepsCalls` | src/armv4t/runtime_arm.cpp:1812-1849 | the recursive path keeps the stack it found and may leave entries on top |
| `IrqPaths.PathsAgree` | src/armv4t/runtime_arm.cpp:1792-1849 | for every finite script of arbitrarily nested interrupts the two deliveries end with the same registers in every bank, CPSR, ledger, floor, nest and iret depths; they differ at most in entries above the entry depth |
| `IrqPaths.HintsRunExact` | src/armv4t/runtime_arm.cpp:1201-1275 | a list of call-stack operations runs to its end exactly when no push meets a full stack without host-less entries above the floor |
| `IrqPaths.RunsOnBoth` | src/armv4t/runtime_arm.cpp:1792-1849 | a script with any call-stack operations on either path runs to its end on one path exactly when it does on the other, if neither path overflows its call stack with entries a host frame waits on |
| `IrqPaths.OtherPathExact` | src/armv4t/runtime_arm.cpp:1792-1849 | a script that runs to its end on one path does so on the other exactly when it does not overflow the call stack there |
| `IrqPaths.NoHintsFit` | src/armv4t/runtime_arm.cpp:1792-1849 | with no call-stack operations nothing overflows and both paths run exactly the same scripts |
| `IrqPaths.ResumableItemExact` | src/armv4t/runtime_arm.cpp:1470-1529 | which items of a script run with explicit continuations: a plain return in any mode but IRQ, call-stack operations that do not overflow, and an interrupt whose handler runs to its end in IRQ mode, whose return is then the machine's |
| `IrqPaths.RecursiveItemExact` | src/armv4t/runtime_arm.cpp:1792-1849 | the same by recursion: an interrupt ends exactly when its handler does, in IRQ mode, with the caller-saved registers, floor, nest and iret depths of its entry |
| `IrqPaths.HintIsStep` | src/armv4t/runtime_arm.cpp:1201-1275 | a call-stack operation of a script is the machine's step |
| `Runtime.Runtime.Swi` | src/armv4t/runtime_arm.cpp:1590-1672 | SWI entry per section A2.6.4 of the ARM ARM, then the continuation is recorded |
| `Runtime.Runtime.DeliverResumable` | src/armv4t/runtime_arm.cpp:1792-1811 | delivery with explicit continuations: the frame holds R0-R3, R12, floor, depth and iret depth of the interrupted code |
| `Runtime.Runtime.ReturnResumable` | src/armv4t/runtime_arm.cpp:1470-1529 | an exception return with continuations equals the model's step; a return no interrupt waits for fails |
| `Runtime.Runtime.RunHandler` | src/armv4t/runtime_arm.cpp:1812-1845 | the drive loop ends, exactly when the handler's script runs to its return, in the state after that return and at its own depth |
| `Runtime.Runtime.DriveIrq` | src/armv4t/runtime_arm.cpp:1710-1850 | the recursive delivery equals the model of a nested interrupt, failing exactly when that does |
| `Dispatch.FirstEntryFound` | src/armv4t/runtime_arm.cpp:883-905 | the linear reference answers None exactly when no entry from the starting index on has the address and instruction set, and otherwise the least such index |
| `Dispatch.TableLookup.Search` | src/armv4t/runtime_arm.cpp:883-905 | the binary search over a table sorted by address answers the least index of an entry with the address and instruction set, and None exactly when there is none, duplicates and both sets included |
| `Dispatch.TableLookup.Lookup` | src/armv4t/runtime_arm.cpp:883-905 | after any history of lookups on both tables the shared 4096-slot cache answers the least index of an equal entry of the table asked, None exactly when it has none, and keeps only valid entries |
| `Dispatch.TableLookup.Resolve` | src/armv4t/runtime_arm.cpp:1062-1067 | the same of the BIOS table below 4000h and of the cart table from there on |
| `Dispatch.MatchingKey` | tools/gba_recompile/main.cpp:616-625 | a template that matches live memory under its mask is filed under one of the keys the lookup searches |
| `Dispatch.RamLookup.Register` | src/armv4t/runtime_arm.cpp:1166-1174 | registration replaces the tables and empties the cache |
| `Dispatch.RamLookup.SearchKey` | src/armv4t/runtime_arm.cpp:976-994 | the scan from the lower bound of a key returns an entry of that key that matches, or none does |
| `Dispatch.RamLookup.Lookup` | src/armv4t/runtime_arm.cpp:936-996 | every hit, cached or not, satisfies base + offset = pc in the region of pc, with live bytes equal to the template under its mask; outside the two RAMs, the cartridge and the alignment there is none; and inside, with well-formed keys, a miss means that no entry of the table matches at pc |
| `Dispatch.MatchesExact` | src/armv4t/runtime_arm.cpp:942-954 | an entry matches exactly when its template exists, is of the processor's state, has a body for the region and is longer than the offset, and live memory holds all of it: the same bits wherever the mask keeps one, the same bytes where there is no mask |
| `Dispatch.UnmaskedMatch` | src/armv4t/runtime_arm.cpp:951 | a template without masks matches exactly its own bytes |
| `Dispatch.GeneratedKey` | tools/gba_recompile/main.cpp:616-625 | an entry with the generator's key is well formed: the opcode with the state bit below it, or the opcode with a masked 12-bit immediate cleared |
| `Flags.SubDecides` | src/armv4t/runtime_arm.cpp:851-860 | after a compare each of the sixteen conditions decides its signed or unsigned comparison |
| `Flags.ConditionTable` | src/armv4t/runtime_arm.cpp:685-722 | for every CPSR the sixteen conditions by the flag nibble, the odd ones the negation of the even ones before them |
| `Flags.AdcFlags` | src/armv4t/runtime_arm.cpp:838-849 | carry and overflow of an addition with carry-in are the unsigned and the signed overflow |
| `Flags.SbcFlags` | src/armv4t/runtime_arm.cpp:862-874 | the carry of a subtraction is NOT borrow and its overflow the signed overflow |
| `Flags.AddWordsExact` | src/armv4t/runtime_arm.cpp:826-849 | an ADD/ADC chain through CPSR.C is exact addition for every number of words |
| `Flags.SubWordsExact` | src/armv4t/runtime_arm.cpp:851-874 | a SUB/SBC chain through CPSR.C is exact subtraction for every number of words |
| `Flags.StatusRegister.Add` | src/armv4t/runtime_arm.cpp:826-836 | given the sum, N and Z are its sign and being zero, C the unsigned and V the signed overflow, and the other CPSR bits stay |
| `Flags.StatusRegister.Adc` | src/armv4t/runtime_arm.cpp:838-849 | the same for a sum with carry-in |
| `Flags.StatusRegister.Sub` | src/armv4t/runtime_arm.cpp:851-860 | given the difference, N and Z are its sign and being zero, C is NOT borrow and V the signed overflow, the other CPSR bits stay, and each of the sixteen conditions then decides its comparison |
| `Flags.StatusRegister.Sbc` | src/armv4t/runtime_arm.cpp:862-874 | the same flags for a difference with borrow |
| `WaitModel.WaitTable.ApplyWaitcnt` | src/gba/gba_waitstates.cpp:52-69 | WAITCNT sets the waits of the three cartridge windows and of save memory, a 32-bit access being two halfword accesses, and nothing else |
| `WaitModel.WaitcntExact` | src/gba/gba_waitstates.cpp:52-69 | first and second access of each window by their WAITCNT bits: 4, 3, 2 or 8, and 2, 4 or 8 or else 1, with a word as two halfwords |
| `WaitModel.CodeWaitExact` | src/armv4t/runtime_wait_model.h:14-22 | an opcode fetch is charged as halfword in Thumb and word in ARM state; from a cartridge window the word is one halfword fetch, a cycle and a sequential halfword fetch |
| `WaitModel.WaitTable.ApplyMemctl` | src/gba/gba_waitstates.cpp:71-78 | the memory control sets the EWRAM waits unless they would be zero, and nothing else |
| `WaitModel.WaitTable.Reset` | src/gba/gba_waitstates.cpp:41-50 | the power-on table: the base waits with WAITCNT zero and two EWRAM wait states |
| `WaitModel.WaitTable.Control` | src/gba/gba_waitstates.cpp:52-78 | every write to WAITCNT and to the memory control keeps what the region bound needs of the table |
| `WaitModel.PrefetchBuffer.Stall` | src/armv4t/runtime_wait_model.h:32-67 | the stall loop makes the fewest fetches that cover the wait, at least one and at most the room left; its result is max(0, wait - (loads*s + 1)) - (n - s) and the head moves accordingly |
| `WaitModel.StallAccounts` | src/armv4t/runtime_wait_model.h:45-66 | the account of a stall: what it is charged, the next fetch at its non-sequential price and the further fetches already done add up to one less than the longer of the wait and the buffer's fetches |
| `WaitModel.PreviousExact` | src/armv4t/runtime_wait_model.h:38-46 | halfwords found in the buffer: half the distance of the head from the pipeline PC below sixteen bytes, and none from there on |
| `WaitModel.LoadsExact` | src/armv4t/runtime_wait_model.h:45-57 | the stall loop's fetches in closed form: its result and the new head are determined by the wait, the sequential wait and the room left |
| `WaitModel.HeadStaysAhead` | src/armv4t/runtime_wait_model.h:38-58 | after a stall the head is 0 to 14 bytes past the pipeline PC, an even distance; a warm head keeps its place or gets ahead exactly when its distance was even, or was below 14 with a wait that one fetch does not cover |
| `WaitModel.OddHeadMovesBack` | src/armv4t/runtime_wait_model.h:38-58 | counterexample: a head one byte ahead moves back on any wait that one fetch covers |
| `WaitModel.AdjustmentBounds` | src/armv4t/runtime_wait_model.h:60-66 | an adjustment adds at most one sequential fetch |
| `WaitModel.AdmittedInBounds` | src/armv4t/runtime_native_region.h:228-243 | an admitted access stays inside its memory, off the GPIO registers and in the regions the bound counts |
| `WaitModel.AdmittedExact` | src/armv4t/runtime_native_region.h:228-243 | and exactly those accesses are admitted: within 256 KiB of EWRAM or 32 KiB of IWRAM after mirroring, or a read of existing cartridge bytes in regions 8 to 12, none of them a GPIO register |
| `WaitModel.RegionBound` | src/armv4t/runtime_native_region.h:13-23 | the bound is the instruction count times the dearest fetch, dearest admitted data wait, one sequential fetch and eight, in 32-bit arithmetic |
| `WaitModel.BoundsAttained` | src/armv4t/runtime_native_region.h:13-23 | the dearest fetch and the dearest access of the bound are waits of the table, of the region and of an admitted region |
| `WaitModel.CostExact` | src/armv4t/runtime_native_region.h:274-283 | what an instruction costs by its access: fixed cycles, fetch and data wait by width and region, and a prefetch adjustment only with prefetch on, code in the cartridge and the access outside it |
| `WaitModel.Tick` | src/armv4t/runtime_native_region.h:274-283 | one instruction moves the 32-bit counter by its cost, negative prefetch adjustments included |
| `WaitModel.RunRegion` | src/armv4t/runtime_native_region.h:274-283 | a region's counter is the sum of its instructions' costs modulo 2^32 |
| `WaitModel.RegionWithinBound` | src/armv4t/runtime_native_region.h:10-23 | straight-line admitted code costs at most the bound that admitted it, wherever the prefetch buffer was |
| `WaitModel.CounterWithinBound` | src/armv4t/runtime_native_region.h:10-23 | so the 32-bit counter is the exact cost and within the 32-bit bound |
| `WaitModel.DerivedBounds` | src/gba/gba_waitstates.cpp:29-78 | in a table set by WAITCNT and the memory control no halfword is dearer than a word, and an instruction is bounded by 64 cycles |
| `WaitModel.RunAdmitted` | src/runtime/runtime_bus_bridge.cpp:1523-1542 | a region of up to 64 admitted instructions in one cartridge window, stopped before any unsupported access, ends with the counter at exactly its cost and at most the bound it was admitted under, which never wraps |
| `ReplayHash.StreamingHash.Feed` | src/debug/replay_writer.cpp:59-74 | an update with its tail buffer absorbs the whole words of tail and data together and keeps the rest |
| `ReplayHash.StreamingHash.FinishHash` | src/debug/replay_writer.cpp:76-84 | finishing folds in the length and the tail without changing the running hash |
| `ReplayHash.UpdateAppend` | src/debug/replay_writer.cpp:59-74 | two updates are one update with the bytes joined |
| `ReplayHash.ChunkIndependent` | src/debug/replay_writer.cpp:59-90 | however a byte string is cut into updates the running hash is that of the whole string |
| `ReplayHash.OneByteChangesHash` | src/debug/replay_writer.cpp:59-90 | changing any one byte of a string changes its hash |
| `ReplayHash.MixInjective` | src/debug/replay_writer.cpp:30-34 | mixing a word loses nothing: it is injective in the state and in the word |
| `ReplayHash.KnownHash` | src/debug/replay_writer.cpp:24-90 | the hash of "123456789", one word and one byte of tail, as a number |
| `ReplayRing.CommandRoundTrip` | src/debug/replay_writer.cpp:45-53 | a command read back from its 136 bytes is the command written, whatever its padding held |
| `ReplayRing.CommandLayout` | src/debug/replay_writer.cpp:45-53 | the 136 bytes field by field: op, count, size, frame, kind, twelve sizes from byte 32 on and the mask at byte 128 |
| `ReplayRing.StartStepExact` | src/debug/replay_writer.cpp:122-135 | how an enqueue begins, by the free space it sees: refused after a shutdown or a seen error, an error when the ring can never hold it, a full mark when it does not fit now |
| `ReplayRing.PublishStepExact` | src/debug/replay_writer.cpp:136-147 | how it ends: a bad part is an error and publishes nothing, otherwise the head moves past the record and the full mark goes |
| `ReplayRing.FreeSpaceExact` | src/debug/replay_writer.cpp:106-109 | the free-space formula is exact while at most N - 1 bytes are unread |
| `ReplayRing.StaleTailIsSafe` | src/debug/replay_writer.cpp:106-109 | a stale read position shows only space that is there |
| `ReplayRing.NoOverwrite` | src/debug/replay_writer.cpp:110-147 | the slot the producer writes is never one the worker may still read |
| `ReplayRing.EmptyExact` | src/debug/replay_writer.cpp:217-218 | head equals tail exactly when every accepted command has been taken |
| `ReplayRing.ReadsToTheEnd` | src/debug/replay_writer.cpp:219-221 | the length the worker goes by is that of the accepted command |
| `ReplayRing.StepKeeps` | src/debug/replay_writer.cpp:92-334 | every step of either thread, with stale loads, missed flags, frames refused for too many parts and failing closes, keeps the ring's invariant |
| `ReplayRuns.DecodedIsPrefix` | src/debug/replay_writer.h:3-7 | under every interleaving the commands and payload bytes the worker has decoded are a prefix of those the producer had accepted |
| `ReplayRuns.ExitMeansDrained` | src/debug/replay_writer.h:88-90 | a worker that leaves its loop without error after a shutdown has taken every accepted record |
| `ReplayRuns.DrainedExits` | src/debug/replay_writer.cpp:314-322 | and it does leave: with the flag set and everything taken it exits after loading the head, the flag and the head again |
| `ReplayRuns.CleanShutdown` | src/debug/replay_writer.cpp:467-481 | a shutdown that answers no error means that every accepted record was taken and that nothing failed under way: no frame, part or size was invalid and no record, flush or close went wrong |
| `ReplayRuns.UnreadBytesStay` | src/debug/replay_writer.cpp:143-147 | no step changes a byte the worker has yet to release |
| `ReplayRuns.ErrorSticks` | src/debug/replay_writer.cpp:118-121 | the first error code stays for good |
| `ReplayRuns.ErrorExact` | src/debug/replay_writer.cpp:92-334 | a run that starts without an error ends without one exactly when no frame, part or size was invalid and no record, flush or close went wrong |
| `ReplayRuns.RefusedForGood` | src/debug/replay_writer.cpp:124-126 | a producer refused for an error is never accepted again and publishes nothing more |
| `ReplayRuns.TakenWritten` | src/debug/replay_writer.cpp:110-156 | what was laid into the ring is what is taken out, wherever it wraps |
| `ReplayRuns.EnqueueExact` | src/debug/replay_writer.cpp:122-146 | an enqueue is accepted exactly when the writer runs without error, no part is bad and the record fits the free space; otherwise nothing is published |
| `ReplayRuns.TakeExact` | src/debug/replay_writer.cpp:217-313 | left alone the worker takes exactly the oldest command not taken and releases its bytes |
| `ReplayChannel.Ring.Put` | src/debug/replay_writer.cpp:110-117 | two copies at the wrap are the byte-by-byte write |
| `ReplayChannel.Ring.Get` | src/debug/replay_writer.cpp:149-156 | two copies at the wrap are the byte-by-byte read |
| `ReplayChannel.Ring.HashRing` | src/debug/replay_writer.cpp:157-161 | hashing a payload that wraps equals hashing it contiguously |
| `ReplayChannel.Ring.Enqueue` | src/debug/replay_writer.cpp:122-146 | the enqueue that copies in pieces ends in the state of the interleaved model's steps, and answers true exactly when it published |
| `ReplayChannel.Ring.Take` | src/debug/replay_writer.cpp:217-313 | the worker's turn copies out the command at the tail and moves the read position past it |
| `ReplayChannel.NextCommand` | src/debug/replay_writer.cpp:217-313 | in every reachable state that is the oldest accepted command not taken, or none |
| `ReplayWriter.SegmentRoundTrip` | src/debug/replay_writer.cpp:357-380 | a begin request is parsed back to the same path, header, sidecars and inline texts |
| `ReplayWriter.SegmentLayout` | src/debug/replay_writer.cpp:357-380 | the begin blob field by field: path and header behind their lengths, both counts, then both lists |
| `ReplayWriter.CommandExact` | src/debug/replay_writer.cpp:383-440 | each request's command: its code from 1 to 6, the bytes it announces, and count, frame, mask, sizes and kind where it has them |
| `ReplayWriter.ReadSegment` | src/debug/replay_writer.cpp:170-180 | the worker's index-driven pass over a begin blob reads what the definition reads and fails where it fails |
| `ReplayWriter.BuildFrame` | src/debug/replay_writer.cpp:410-428 | the pass over a frame's parts builds its mask, sizes and payload |
| `ReplayWriter.SendFrame` | src/debug/replay_writer.cpp:408-429 | a frame of more than twelve parts sets the sticky error without touching the ring, any other is enqueued as built |
| `ReplayWriter.MaskBit` | src/debug/replay_writer.cpp:417-421 | each bit of the reuse mask is its part's flag |
| `ReplayWriter.PartFound` | src/debug/replay_writer.cpp:283-289 | the worker finds each part's bytes where the producer laid them |
| `ReplayWriter.HashFrame` | src/debug/replay_writer.cpp:283-294 | hashing a frame's parts straight out of the ring leaves, part by part, the new hash or the remembered one |
| `ReplayWriter.FrameHashes` | src/debug/replay_writer.cpp:278-294 | a frame leaves for each part the hash of the bytes last supplied for it in the segment |
| `ReplayWriter.ProcessExact` | src/debug/replay_writer.cpp:223-308 | each of the worker's turns does what its request asks and fails by itself only on a write outside a segment |
| `ReplayWriter.WorkerLog` | src/debug/replay_writer.cpp:203-314 | for every sequence of accepted requests the worker's log, state file and remembered hashes are exactly those told from the requests |
| `ReplayWriter.LogExact` | src/debug/replay_writer.cpp:223-308 | those requests line by line: what each line carries, a frame's hashes being of the bytes supplied or the ones remembered |
| `ReplayWriter.CheckpointLocated` | src/debug/replay_writer.cpp:262-273 | every checkpoint line locates its image in the state file and carries its hash, whatever is written later in the segment |
| `ReplayWriter.ReplayEndToEnd` | src/debug/replay_writer.h:3-7 | from requests to files under every interleaving: the worker has written to its files what the first so many accepted requests ask for, and all of them once it has exited; a close that then fails is an error of the shutdown |
| `Crc.ShiftIsLinear` | src/gba/crc32.cpp:16-18 | one division step is linear over exclusive or |
| `Crc.TableStep` | src/gba/crc32.cpp:28-35 | eight steps of a word equal the table entry of its low byte exclusive-or its high bytes |
| `Crc.BuildTable` | src/gba/crc32.cpp:11-22 | the table holds eight steps of every byte |
| `Crc.TableCrc` | src/gba/crc32.cpp:28-35 | the table-driven checksum equals the bitwise definition on every byte string |
| `Crc.BitwiseCrc` | src/debug/mod_state.cpp:62-70 | so does the bit-at-a-time one; the two therefore agree |
| `Crc.AbsorbInjective` | src/debug/mod_state.cpp:64-68 | one byte step is injective in the state and in the byte |
| `Crc.OneByteChangesCrc` | src/debug/mod_state.cpp:62-70 | changing any one byte changes the checksum |
| `Crc.KnownCrc` | src/gba/crc32.cpp:28-35 | the checksum of "123456789" is CBF43926h, the published check value of this CRC |
| `Sidecar.BuildFile` | src/debug/mod_state.cpp:264-270 | appending, checksumming and patching the field builds the envelope |
| `Sidecar.ReadExact` | src/debug/mod_state.cpp:112-141 | a file reads as a payload under an identity exactly when it is their envelope |
| `Sidecar.EnvelopeLayout` | src/debug/mod_state.cpp:264-270 | the file field by field: "GBAMODS1", version 1, both lengths, the checksum of the file with zeroes in its place, identity and payload |
| `Sidecar.SizesExact` | src/debug/mod_state.cpp:112-133 | an envelope reads back exactly when its identity has at most 256 bytes and its payload at most 16 MiB |
| `Sidecar.OtherIdentity` | src/debug/mod_state.cpp:137-138 | an intact file under another identity is reported as such |
| `Sidecar.OneByteCorrupts` | src/debug/mod_state.cpp:120-136 | changing any one byte of an intact file is reported corrupt under every identity |
| `Sidecar.TruncationCorrupts` | src/debug/mod_state.cpp:120-133 | so is cutting it short anywhere |
| `SidecarSlot.StepKeeps` | src/debug/mod_state.cpp:271-280 | every step of a slot write, refused, interrupted or short, keeps the committed file, whole or not, as the primary or as the backup of a missing primary |
| `SidecarSlot.ReadSlotExact` | src/debug/mod_state.cpp:285-301 | a slot reads as a payload exactly when its primary is that envelope, or is missing or corrupt and its backup is |
| `SidecarSlot.OtherIdentityRefused` | src/debug/mod_state.cpp:294-297 | a slot whose primary is intact under another identity reads as nothing, whatever its backup holds |
| `SidecarSlot.FilesExact` | src/debug/mod_state.cpp:271-280 | what each step does to the three files: the primary is replaced only by a rename of the temporary and set aside only as the backup, which nothing else replaces |
| `SidecarSlot.PhasesExact` | src/debug/mod_state.cpp:258-281 | the order of the steps, each refusal at the first step that fails, and what an attempt is logged as |
| `SidecarSlot.AnythingMayHappen` | src/debug/mod_state.cpp:271-280 | no outcome is left out: any step may be refused and the program may stop anywhere in a write, with any part of the temporary on disk |
| `SidecarSlot.CrashSafeExact` | src/debug/mod_state.cpp:247-301 | from any slot, valid, absent or corrupt, through any number of writes refused, interrupted or cut short on disk anywhere and at any moment between: a read gives the payload of the last write that took effect exactly when its file is whole or a whole file of that payload is its backup; a short file leaves the answer to the backup of a present primary, and an absent slot with no write in effect to its backup |
| `SidecarSlot.CrashSafe` | src/debug/mod_state.cpp:247-301 | so with streams that report truthfully a read gives the payload of the last write that took effect |
| `SidecarSlot.CompletedIsHeld` | src/debug/mod_state.cpp:278-280 | once a write has completed there is something to read, and it is that write unless a later interrupted one was renamed |
| `SidecarSlot.LostTailExact` | src/debug/mod_state.cpp:271 | a write whose closing flush loses data answers true, into any slot: the new payload is then read exactly when nothing was lost or the file kept as backup is the same; otherwise that file answers, so a slot that held a payload still reads it, and one that held none reads its stale backup, if any |
| `SidecarSlot.LostTailThenCrash` | src/debug/mod_state.cpp:271-276 | counterexample: after such a write an interrupted next one leaves nothing to read |
| `SidecarSlot.Disk.WriteSlot` | src/debug/mod_state.cpp:247-281 | the write step by step, with any part of the file reaching the disk: the slot it leaves, true exactly when every step reported success, and what is read then; false leaves what was read before |
| `FileReplace.NeverLostExact` | src/debug/file_replace.cpp:10-39 | no state on the way loses the new data or the copy held, in the destination or parked as the backup of a missing one, exactly unless a stale backup with other contents is restored over a file that exists() overlooked, or the parked copy is removed |
| `FileReplace.OnlyCopyExact` | src/debug/file_replace.cpp:10-39 | the contents held are in no file at all exactly in those two cases, with other contents in the temporary |
| `FileReplace.SafeToReplace` | src/debug/file_replace.cpp:18-31 | what a caller can check: nothing is lost whatever is refused, with an exact exists() exactly when the destination is there or no backup is, and with one that may overlook the destination exactly when no backup is or the destination is there and the backup is a copy of it or of the temporary |
| `FileReplace.RunHeldExact` | src/debug/file_replace.cpp:10-39 | over every sequence of rewritten temporaries and calls, with any refusals and the program stopping anywhere: at every point the data last put in place is held, exactly unless some call goes one of the two ways |
| `FileReplace.RunHolds` | src/debug/file_replace.cpp:10-39 | so without such a call a run ends with the data last put in place still held |
| `FileReplace.Directory.Replace` | src/debug/file_replace.cpp:10-39 | with every refusal: the states passed are those of the trace, each one atomic operation apart, and lose nothing exactly unless one of the two cases applies; true means the destination is new, false that the temporary still is |
| `FileReplace.StaleBackupOverwrites` | src/debug/file_replace.cpp:19-31 | counterexample: the input on which the only copy of the old data is overwritten |
| `FileReplace.ParkedCopyRemoved` | src/debug/file_replace.cpp:18-36 | counterexample: a refused call that parks the old copy, then a second refused call that removes it, with no crash and an exact exists() |
| `SaveStore.Page.StartSync` | packaging/web/save_store.js:169-173 | a sync records the newest change and makes one call |
| `SaveStore.Page.SyncedWithSuccess` | packaging/web/save_store.js:176-181 | success stores up to the recorded change; with nothing coalesced every old waiter is resolved and every other promise stays, otherwise the next sync begins |
| `SaveStore.Page.SyncedWithError` | packaging/web/save_store.js:182-194 | a race is retried by timer up to three times and leaves the waiters waiting; any other failure rejects every old waiter and no other promise |
| `SaveStore.Page.PersistNow` | packaging/web/save_store.js:164-168 | a request while busy is coalesced; without storage it is declined |
| `SaveStore.Page.Notice` | packaging/web/save_store.js:157-162 | a successful runtime write is counted and persisted, a failed one changes nothing |
| `SaveStore.Page.SettleWaiters` | packaging/web/save_store.js:195-199 | a store that is not busy settles every waiter, with a rejection after an error and without one otherwise, and leaves every other promise alone; a busy one settles none |
| `SaveStore.MountExact` | packaging/web/save_store.js:54-67 | opening the storage: a load begins, or without one the queued changes are counted, nobody waits and nothing will ever be stored |
| `SaveStore.LoadedExact` | packaging/web/save_store.js:57-86 | the end of a load: a sync is asked for exactly when a queued change was applied or one was coalesced, otherwise every waiter is resolved; a failed load leaves no storage |
| `SaveStore.StepKeeps` | packaging/web/save_store.js:157-257 | every event keeps: one callback or timer outstanding while busy after the load, none otherwise; waiters are exactly the pending promises; what is claimed stored is |
| `SaveStore.StepCovers` | packaging/web/save_store.js:244-257 | every event keeps each waiting change covered by the sync under way or the one that must follow |
| `SaveStore.TruthfulPersistence` | packaging/web/save_store.js:28-31 | under every interleaving of writes, changes, callbacks, retries and failures: unsaved() is true exactly while busy or a change is newer than those stored, nothing unsaved means everything is stored, "persisted" is answered only for stored changes and "memory-only" only without storage |
| `SaveStore.NobodyForgotten` | packaging/web/save_store.js:201-205 | a pending flush always has something outstanding to wake it |
| `SaveStore.NothingStuck` | packaging/web/save_store.js:169-205 | and whatever is outstanding can come back, with any outcome, after which the change goes on |
| `SaveStore.ComesToRest` | packaging/web/save_store.js:174-194 | every callback and timer brings the store nearer to rest, in at most fifteen |
| `SaveAnswers.FailureExact` | packaging/web/save_store.js:182-199 | storage reports an error exactly on the events listed: a refusal, or a race after three retries; that rejects the promises that wait then, and nothing else rejects any |
| `SaveAnswers.AppliedExact` | packaging/web/save_store.js:248-255 | a change is numbered as it is applied and its sync asked for; it fails at once when it cannot be applied or its sync is refused, and is in memory only without storage |
| `SaveAnswers.ReplyExact` | packaging/web/save_store.js:256-257 | a change whose promise is settled can be answered: an error when rejected, "persisted" exactly when its number has been stored |
| `SaveAnswers.AnswersExact` | packaging/web/save_store.js:244-257 | over every run: a change is answered "queued" exactly when made before there was a file system; with an error exactly when made while a game ran, when it could not be applied, or when a sync ended in an error while it waited; and otherwise "memory-only" exactly without storage and "persisted" with it, and then it is stored |
| `SaveAnswers.WaitIsStored` | packaging/web/save_store.js:195-257 | from any moment of a run: a waiting change whose wait no failed sync ends is answered "persisted" and is stored |
| `Cosim.CrossedExact` | src/debug/cosim.cpp:288-295 | the recorded cycles are start + k*stride up to the clock and the next boundary is past it |
| `Cosim.PartitionIndependent` | src/debug/cosim.cpp:282-295 | however the clock's advance is cut into ticks the recorded cycles depend only on start, stride and its final value |
| `Cosim.Recorder.OnTick` | src/debug/cosim.cpp:288-295 | one tick appends exactly the boundaries crossed |
| `Cosim.Recorder.Window` | src/debug/cosim.cpp:167-180 | the report is the newest checkpoints, oldest first, as many as asked for and held by the ring |
| `CosimStep.StepKeeps` | src/debug/cosim.cpp:80-146 | every step of either thread keeps budget and checkpoints adding up to the grant |
| `CosimStep.GrantLetsOut` | src/debug/cosim.cpp:87-95 | a positive budget lets a waiting guest out within four of its moves, whatever it was doing |
| `CosimStep.GuestProgress` | src/debug/cosim.cpp:87-95 | every guest step brings a granted guest nearer to its next stop |
| `CosimStep.GuestParks` | src/debug/cosim.cpp:87-95 | whatever the server does meanwhile, a granted guest is parked again at the end of its grant after at most its rank of own moves, and stays so |
| `CosimStep.StepParks` | src/debug/cosim.cpp:133-146 | liveness of `step N` under every schedule: two server moves write the grant, four guest moves for each checkpoint and nine more park the guest at exactly the last, and seven server moves answer; the answer says "parked" and names that checkpoint if the server never stops waiting |
| `CosimStep.StepParksExactly` | src/debug/cosim.cpp:133-146 | `step N` to a parked guest, under every interleaving of single reads and writes: it crosses exactly as many checkpoints as the budget allows, and an answer "parked" names the last of them unless the server had stopped waiting |
| `CosimStep.StepCount` | src/debug/cosim.cpp:133-136 | that is N checkpoints for every N from 1 below 2^63 and none for any other N |
| `CosimStep.GaveUpAnswer` | src/debug/cosim.cpp:138-145 | counterexample for every positive grant: a server that stops waiting answers "parked" and names the checkpoint the guest started from |
| `CosimStep.AnswerExact` | src/debug/cosim.cpp:133-146 | with the time limits of the wait, the answer "parked" to a parked guest names the last checkpoint granted under every schedule exactly when nothing is granted; otherwise any answer lies between the present checkpoint and the last granted |
| `SnapshotIo.Reader.U32` | src/debug/snapshot.h:71-109 | a field read is the little-endian value at the cursor, or zero bytes and a lowered flag past the end |
| `SnapshotIo.Reader.Take` | src/debug/snapshot.h:89-93 | a block read is the bytes at the cursor, or zeroes and a lowered flag |
| `SnapshotIo.ReadU64Inside` | src/debug/snapshot.h:82-85 | a 64-bit read inside the data is its little-endian value |
| `SnapshotIo.FailureSticks` | src/debug/snapshot.h:67-71 | once a read has failed the flag stays down |
| `SnapshotIo.Writer.U64` | src/debug/snapshot.h:45-65 | a 64-bit write appends the little-endian bytes |
| `SnapshotCpu.CpuRoundTrip` | src/debug/snapshot.cpp:79-109 | the CPU section of a machine within its bounds reads back |
| `SnapshotCpu.ImageLayout` | src/debug/snapshot.cpp:79-81 | the register image word by word: R0-R15, CPSR, six banked R13, six banked R14, six SPSRs, and the User and FIQ copies of R8-R12 |
| `SnapshotCpu.StacksLayout` | src/debug/snapshot.cpp:82-89 | behind it from byte 180 each stack as a count and its words, a ledger entry being its continuation and then its return PC |
| `SnapshotCpu.CpuExact` | src/debug/snapshot.cpp:91-109 | an accepted CPU section is the section of the machine it yields: no gap, nothing left over |
| `SnapshotCpu.DeserializeCpu` | src/debug/snapshot.cpp:91-102 | the cursor-driven reader accepts exactly those sections and builds nothing before its length checks |
| `SnapshotContainer.ContainerExact` | src/debug/snapshot.cpp:208-288 | a blob is accepted as some sections exactly when it is their container, with distinct tags, behind a hash that passes the gate |
| `SnapshotContainer.FillBytes` | src/debug/snapshot.cpp:58-66 | the hash field byte by byte: the hash as far as it goes, then zeroes |
| `SnapshotContainer.FillExact` | src/debug/snapshot.cpp:58-66 | two hashes fill alike exactly when their first forty characters are the same |
| `SnapshotContainer.GateExact` | src/debug/snapshot.cpp:231-239 | the container of one hash is refused under every hash that fills differently, and accepted under its own and without one |
| `SnapshotContainer.ContainerLayout` | src/debug/snapshot.cpp:147-172 | the blob field by field: "GBAS", version 5, forty bytes of hash, the number of sections, and each section's tag, length and bytes |
| `SnapshotContainer.ReadTable` | src/debug/snapshot.cpp:260-288 | the section loop refuses exactly the tables the definition refuses and otherwise indexes every section by tag |
| `SnapshotContainer.ParseContainer` | src/debug/snapshot.cpp:215-288 | the container checks in the program's order accept what the definition accepts |
| `SnapshotContainer.WriteContainer` | src/debug/snapshot.cpp:147-172 | writing header and sections through the sink prints the container |
| `ModCatalog.CatalogExact` | src/debug/mod_state.cpp:162-211 | a MODS section is accepted as some provider states exactly when it is what this catalog prints for them |
| `ModCatalog.CatalogLayout` | src/debug/mod_state.cpp:162-178 | the section: format 1, the number of providers, then each in turn |
| `ModCatalog.EntryLayout` | src/debug/mod_state.cpp:162-178 | one provider field by field: length and bytes of its name, schema, length and bytes of its state |
| `ModCatalog.ReadCatalog` | src/debug/mod_state.cpp:179-211 | the cursor-driven pass over the providers accepts exactly those sections |
| `Snapshot.CheckMods` | src/debug/snapshot.cpp:300-317 | the MODS preflight refuses a missing section of an active catalog, another catalog, and a state its provider does not accept |
| `Snapshot.TimingRoundTrip` | src/debug/snapshot.cpp:327-341 | a timing section reads back exactly when its pending timing is in range |
| `Snapshot.LoadOfSave` | src/debug/snapshot.cpp:128-371 | loading what was saved restores registers, call-return stack, SWI ledger, timing, devices and providers exactly when the saved timing is in range, and is refused otherwise |
| `Snapshot.OtherRomRefused` | src/debug/snapshot.cpp:231-239 | a snapshot saved under one 40-character hash cannot be loaded under another |
| `Snapshot.OneRefusalRefuses` | src/debug/snapshot.cpp:300-317 | a snapshot with one provider state that its provider does not accept cannot be loaded |
| `Snapshot.SectionTags` | src/debug/snapshot.cpp:147-172 | the sections of a save in order, by their tags, with what each holds |
| `Snapshot.TimingLayout` | src/debug/snapshot.cpp:157-162 | the timing section field by field, and the range a load accepts: pending cycles and budget of at most one frame, 280896 cycles |
| `Snapshot.AcceptedExact` | src/debug/snapshot.cpp:208-372 | a blob is accepted as a machine exactly when it is a header and distinct sections that describe that machine: registers, stack and ledger, timing in range, devices, the MODS section of this catalog with states its providers accept, and the counters if it has any |
| `Snapshot.RestoredCalls` | src/debug/snapshot.cpp:103-107 | the restored call-return stack satisfies its invariant exactly when the floor left in place is not above it |
| `Snapshot.Live.LoadState` | src/debug/snapshot.cpp:208-372 | a load is all or nothing: false leaves the machine unchanged, true leaves exactly what the blob holds |
| `Snapshot.Live.SaveState` | src/debug/snapshot.cpp:128-174 | the save writes the container of the machine's sections |

## Left out

- FlatRegisters.RunRefinesFlat: user-bank transfers of R13 and R14 are taken to happen in one of the seven architectural modes; UserReadExact says exactly which reads go astray otherwise.
- WaitModel.CounterWithinBound: an instruction that accesses data is taken to be charged a non-sequential fetch (src/armv4t/runtime_arm.h:145-151) and to report no longer a stall than the wait it is charged (src/armv4t/runtime_wait_model.h:24-31); the generated code that does so is not part of this model. RegionWithinBound needs neither, and DerivedBounds gives the rest.
- WaitModel.RunAdmitted: the same two properties of the instructions run; the other tests of an admission, on observers, events and the code range, are left out.
- SidecarSlot.CrashSafe: a stream that reports success has written the whole file; CrashSafeExact does without.
- ReplayWriter.CheckpointLocated: state-file offsets are unbounded where the code wraps at 2^64 bytes.
- Cosim.CrossedExact: the next boundary is unbounded where the code wraps at 2^64 cycles.
- CosimStep.StepParksExactly: the two threads' volatile accesses are taken in one order, and the budget does not overflow downwards.
- ReplayRuns.EnqueueExact: the sizes of one enqueue add up to less than the address space.
- Snapshot.LoadOfSave: each section is shorter than 2^32 bytes, and device sections are opaque, each device's state being what it serializes to.
- The declarations of ArmCpuState and RuntimeWaitTable, and the decoder, interpreter, code generator, bus, PPU, audio and I/O implementations are not part of this model; the register image is the 45 words whose fields are hashed in src/debug/cosim_state.cpp:62-72.
- The order of the banks in the bank arrays is not in the sources; the model fixes one.
- Dispatch through force-interpreter bridges, RAM hooks, self-heal overlays and dispatch misses.
- The BIOS high-level-emulation hook, the ticks inside SWI entry, and runtime_note_interpreted_exception_return, which pops the ledger for interpreted returns.
- The IRQ abandon path after 4,000,000 dispatches, environment watchpoints, logs, traces and profiling.
- Guest memory behind executable views is a map from addresses to bytes, rewritten arbitrarily between lookups.
- Sign tests written with exclusive or in the source are comparisons of sign bits here.
- File systems are three files per slot with atomic renames; a file that exists can be read, and durability after a successful flush is taken for granted.
- Slot-key canonicalization and the creation of the sidecar directory.
- Copying sidecars and writing inline texts inside a replay begin, the 100 ms flush timer and text formatting of replay lines; a failing file operation is one outcome of the worker's turn.
- Registration and callbacks of native mod providers; a provider's preflight is a predicate on its payload, and its restore takes the payload.
- Reading and writing snapshot files around save_state_bytes and load_state_bytes; the file replacement itself is in FileReplace.
- Legacy save migration, Web Locks, persistence requests, export and import of save files, and user-interface text of the browser store; a visitor operation that fails part-way counts as a change that is not stored.
- The co-simulation's state hash, its chain and the TCP commands other than step and window.
- ReplayWriter.Process: the worker's turn is a function of its files, its frame loop alone being a method; the text of a line is the value printed.
- The register dumps, oracles and command-line tools.
