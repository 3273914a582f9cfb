# Verified models of Cheat Engine for Linux

A Dafny 4.11 model of the parts of the program whose correctness rests on protocols, on parsers and
printers that undo each other, or on machine arithmetic. `dafny verify dfyconfig.toml` checks everything.
Each module models one component; methods and classes follow the program's loops and fields and are
proved against specification functions, and the lemmas are about those functions.

**All-stop debugger** (`DebugModel`, `DebugSession`, `DebugTransparency`, `DebugEffects`, `DebugStepping`,
`DebugCounterexample`, `CommandQueue`, `CommandProgress`, `BreakpointManager`, `BreakpointRuns`, `BreakpointFilters`). One tracer thread owns the target; software
breakpoints are 0xCC bytes laid over live code, lifted and re-armed around single steps. The main result
simulates every debugged run by a run of the undebugged program. A program is a map of code bytes, an
instruction length at each address and a deterministic effect; peeking and poking, stopping, stepping and
resuming succeed as the kernel documents them. The command queue is a state machine over the steps of
posters, of the detaching thread and of the tracer.

**Auto-assembler** (`ScriptText`, `TokenCuts`, `WordMeanings`, `SymbolOrder`, `SymbolSubstitution`; `Layout`,
`LooseLabels`, `LayoutAgreement`, `LabelReferences`, `RepeatedLabels`, `LayoutCounterexample`, `AutoAssembly`,
`EmittedPatches`, `ScriptArguments`, `WrittenLines`;
`TryExcept`, `UndoLog`). The instruction assembler and the data-directive parser are deterministic functions of
text and address. The sizing pass, its iteration and the emission pass are modelled line by line, down to the
text that symbol substitution hands to the assembler.

**Pointer expressions** (`PointerText`, `ExpressionParser`, `ExpressionSums`, `PointerChain`). Printing and parsing of bracketed
chains, the general expression parser, and what a sum and a printed chain evaluate to.

**Cheat tables** (`XmlTokens`, `XmlFields`, `TableRecord`, `TableXml`, `TableWriter`, `TableForest`,
`TableSave`; `JsonParser`, `JsonText`, `JsonTable`, `JsonRoundTrip`). XML is a row of tags and texts, and the
loader's substring searches are proved to meet tags only where they stand; JSON is specified on what is left
of the input, and the parser object moves a position over it.

**Indent lists** (`Ascents`, `AddressList`, `AddressMoves`), **guest memory** (`GuestScan`, `GuestSnapshots`) and
**scalars** (`Words`, `ValueCodec`, `ByteSeqs`, `ScalarBits`, `ScalarText`). Trees kept as lists of depths, windowed
scans, and the codec, byte-order and text pipeline. `Words` gives the bit operations by their effect on
binary digits, so that the rotations are the shifts, ors and masks of 64-bit words. `Text` holds strings,
searching and the library routines that read and print numerals.

## What turned out not to hold

Where a property fails on some inputs, the code is kept as it is, a lemma names an input, and the exact
condition is proved:

- Freezing threads looks only at the byte behind a thread, so a breakpoint one byte before an instruction is
  mistaken for a hit (`UnsafeBreakpointRepeats`; `UnsafeIsNeverTransparent` for every program and address);
  `FreezeKeepsPlaceIff` is the condition, and transparency asks for breakpoints that no instruction follows at
  one byte. Step Over, Step Out and RunToCursor can stop past a user breakpoint (`RunToCursorStopsPast`).
- Detaching does not rewind a thread that has trapped and was not collected (`DetachLosesInstruction`,
  `DetachTransparentIff`).
- Disabling a breakpoint does not reach a hit that is already past its first section (`DisabledYetDelivered`).
- READMEM with a source that does not resolve is sized but not copied, and everything after it is emitted
  too early (`UnresolvedReadMemShiftsLabel`); a declared label that no line defines is sized as an address but
  emitted as it stands (`UndefinedLabelShifts`). `AgreementIff` is the condition on each line.
- Replacing a name in place is not replacing its whole tokens for names such as `$` (`DollarIsLeft`);
  `ReplacementIff` says for which names it is. A label that is called like the address of another and replaced
  after it takes that label's references over (`CalledLikeAnAddress`, `ReferenceKeepsAddressIff`).
- A deallocation that frees a byte before a surviving one of a patched range leaves the survivor patched
  (`CutPatchIsNotRestored`, `CutIsRestoredIff`). A name known from an earlier script that an activation uses again
  is forgotten by its rollback (`NameIsLost`, `NamesComeBackIff`).
- An operator behind a name that ends in an x is taken for part of a hexadecimal mark (`XSwallowsOperator`,
  `TermEndIff`).
- An offset of a single hex letter is read as a symbol or module of that name (`LetterIsSymbol`,
  `OffsetReadIff`); chains of more than 64 levels have no value (`ChainTooDeep`).
- A new group swallows deeper rows that follow the selection, against the comment above the function
  (`GroupSwallows`, `GroupIsExactlySelectionIff`).
- Sizes in JSON pass through a double (`RoundKeepsIff`, `FirstLost`).

## Model

| member | source | states |
|---|---|---|
| `DebugTransparency.Transparency` | src/debug/debug_session.cpp:136-227 | Through every interleaving of threads, kernel stops, Continue, Step Into, thread selection and breakpoint changes (made while stopped, only at safe addresses), the sequence of executed instructions is a run of the unpatched program: nothing is skipped or repeated, and data, registers and place of every thread are those of that run, a trapped thread counting as one byte back. |
| `DebugTransparency.RunKeepsOverlay` | src/debug/debug_session.cpp:192-227 | Between commands of any such run the text is the original with 0xCC exactly at the active breakpoints and every saved byte is the original; at no moment of the run could two threads execute while a byte was lifted. |
| `DebugTransparency.ApplyGood` | src/debug/debug_session.cpp:471-621 | One event of the protocol (a thread executes, a stop is handled, a command is performed) keeps the overlay, the simulation and the bookkeeping. |
| `DebugTransparency.StepOverBpGood` | src/debug/debug_session.cpp:192-217 | Lift, single-step, re-arm: the text comes back exactly and one instruction of the original program has run. |
| `DebugTransparency.ContinueGood` | src/debug/debug_session.cpp:219-227 | Stepping every thread off its breakpoint before any thread is resumed keeps the simulation for all of them. |
| `DebugTransparency.AllStopGood` | src/debug/debug_session.cpp:136-161 | Stopping the world leaves every thread held at the instruction the original program would execute next. |
| `DebugTransparency.FreezeKeepsPlaceIff` | src/debug/debug_session.cpp:141-159 | Freezing a running thread keeps its place if and only if no armed breakpoint is one byte behind it: the exact condition under which the rewind test is right. |
| `DebugTransparency.StepToKeepsOverlay` | src/debug/debug_session.cpp:678-775 | A temporary breakpoint leaves the text as it was, whether its target is the current instruction, a user breakpoint or neither, and wherever the run ends. |
| `DebugTransparency.LiftPlantClear` | src/debug/debug_session.cpp:680-713 | Lifting the current breakpoint, planting the temporary one, clearing it and re-arming give the same text back for every pair of addresses. |
| `DebugTransparency.StepKeepsOverlay` | src/debug/debug_session.cpp:670-775 | All four step modes restore the overlay and never expose a changed text to two threads. |
| `DebugEffects.HitStopsTarget` | src/debug/debug_session.cpp:596-601 | When the trap of a thread on an armed int3 is collected, the target is stopped: that thread is active and held on the breakpoint, every other thread is held at the instruction the program would execute next, and nothing else has changed. |
| `DebugEffects.BreakSignalStopsTarget` | src/debug/debug_session.cpp:623-648 | So it is, around the signalled thread, at a signal that is to break. |
| `DebugEffects.OtherStopsRunOn` | src/debug/debug_session.cpp:602-621 | Any other trap or signal of a running thread leaves the session as it was, running on. |
| `DebugEffects.StepIntoExecutesOne` | src/debug/debug_session.cpp:670-730 | Step Into executes exactly one instruction of the original program, in the active thread, on a breakpoint or off it. |
| `DebugEffects.ContinueLeavesBreakpoints` | src/debug/debug_session.cpp:192-227 | Continue sets every thread free, after exactly those that stood on a breakpoint have executed the instruction under it, each once and in the order of the thread list. |
| `DebugEffects.SetArms` | src/debug/debug_session.cpp:322-338 | Setting a breakpoint puts its int3 into the text at once, under a fresh id; one that is there keeps its id; at an unmapped address nothing happens and the answer is -1. |
| `DebugEffects.RemoveDisarms` | src/debug/debug_session.cpp:340-350 | Removing a breakpoint by its id puts the program's byte back, at its address and nowhere else. |
| `DebugStepping.StepToIsRun` | src/debug/debug_session.cpp:670-780 | Step Over on a call, Step Out and RunToCursor run the original program in the active thread, alone, to the first instruction with an int3, unless interrupted: the thread ends on the target, or one byte past another breakpoint of the user, with the history, registers and data of that run, and no other thread moves. |
| `DebugTransparency.CleanupRestores` | src/debug/debug_session.cpp:231-250 | Cleanup gives the target its original text back, forgets all breakpoints and leaves every thread free. |
| `DebugTransparency.DetachTransparentIff` | src/debug/debug_session.cpp:231-250 | After any run of Continue, Step Into, thread selection and breakpoint changes as in Transparency, detaching restores the text and leaves every thread where the original program would be if and only if no thread has trapped on an int3 that was not collected: cleanup does not rewind such a thread. |
| `DebugTransparency.CleanupKeepsPlacesIff` | src/debug/debug_session.cpp:231-248 | For a session in any state: cleanup leaves every thread that is not trapped where it is, and moves the place of each that is. |
| `DebugTransparency.DetachWhenStopped` | src/debug/debug_session.cpp:231-250 | Detaching from a target that such a run left stopped is transparent. |
| `DebugCounterexample.UnsafeBreakpointRepeats` | src/debug/debug_session.cpp:141-158 | A concrete run with a breakpoint one byte before an instruction on which a thread executes an instruction it was not at: why breakpoints must be set at safe addresses. |
| `DebugCounterexample.UnsafeIsNeverTransparent` | src/debug/debug_session.cpp:141-158 | For every program and every mapped address one byte before an instruction: a run in which only setting that breakpoint is not admissible, after which a thread stands at the breakpoint it never reached. |
| `DebugCounterexample.UnsafeIsNeverFaithful` | src/debug/debug_session.cpp:141-158 | For every such address whose own byte is no int3: that run, stepped once more, executes an instruction the original program does not. |
| `DebugCounterexample.DetachLosesInstruction` | src/debug/debug_session.cpp:231-250 | A concrete admissible run (set, continue, reach the breakpoint) whose trapped thread detaching lets go one byte past the instruction it was to execute. |
| `DebugCounterexample.RunToCursorStopsPast` | src/debug/debug_session.cpp:678-775 | A concrete run to a cursor that meets a user breakpoint on the way and leaves the thread held one byte past it: why transparency is said of Continue and Step Into only. |
| `DebugSession.RemoveUndoesSet` | src/debug/debug_session.cpp:322-350 | Removing a breakpoint by the id that setting it returned gives text and bookkeeping back. |
| `DebugSession.DebugSession.DoSetSoftBp` | src/debug/debug_session.cpp:322-333 | The session after the call is the protocol's set step: an existing breakpoint keeps its id, a failed poke changes nothing and returns -1. |
| `DebugSession.DebugSession.DoRemoveSoftBp` | src/debug/debug_session.cpp:340-350 | The session after the call is the protocol's remove step: the byte is restored if active, the entry erased, an unknown id does nothing. |
| `DebugSession.DebugSession.StopOtherThreads` | src/debug/debug_session.cpp:136-161 | The loop over the traced threads ends in the protocol's all-stop state. |
| `DebugSession.DebugSession.StepThreadOverBp` | src/debug/debug_session.cpp:192-217 | Reports whether the thread sat on an armed int3, and if so leaves the protocol's stepped-over state. |
| `DebugSession.DebugSession.ResumeAllThreads` | src/debug/debug_session.cpp:219-227 | Both phases together are the protocol's resume step. |
| `DebugSession.DebugSession.DoContinue` | src/debug/debug_session.cpp:437-441 | A continue command resumes a stopped session as the protocol does and leaves a running one alone. |
| `DebugSession.DebugSession.HandleTrapStop` | src/debug/debug_session.cpp:556-621 | A SIGTRAP at one of our int3s rewinds, stops the world and stays stopped (as HitStopsTarget says of the step it performs); any other is resumed. |
| `DebugSession.DebugSession.HandleSignalStop` | src/debug/debug_session.cpp:623-648 | A signal to break on stops the world; any other is delivered and the thread goes on. |
| `DebugSession.DebugSession.DoStep` | src/debug/debug_session.cpp:670-780 | Each step mode, its temporary breakpoints and re-arming included, is the protocol's step. |
| `DebugSession.DebugSession.TracerCleanup` | src/debug/debug_session.cpp:231-250 | Stop, restore, let go: the protocol's cleanup. |
| `DebugSession.DebugSession.DoSelectThread` | src/debug/debug_session.cpp:185-190 | Only a stopped thread becomes the active one. |
| `CommandQueue.InOnePlaceInOrder` | src/debug/debug_session.cpp:258-275 | At every moment of every interleaving of posters, detach, exit and tracer, what was pushed is exactly what is completed, in hand or queued, in that order; performed commands are a first-in first-out prefix. |
| `CommandQueue.ExactlyOnceAtEnd` | src/debug/debug_session.cpp:251-275 | Once the tracer has ended every pushed command has been completed exactly once, performed or failed with -1, and the queue is empty. |
| `CommandQueue.AnswersAreOwn` | src/debug/debug_session.cpp:258-275 | A caller's answer is the completion value of its own command; a caller turned away was never queued. |
| `CommandQueue.NothingAfterEnd` | src/debug/debug_session.cpp:250-275 | After the end nothing can be pushed or completed any more, whatever posters still do. |
| `CommandQueue.DetachEndsTracer` | src/debug/debug_session.cpp:95-108 | Once the attached flag is clear the tracer ends within five of its own steps, whatever the others do. |
| `CommandQueue.RunKeepsInv` | src/debug/debug_session.cpp:471-520 | Conservation and the posters' bookkeeping are kept by every step of every run. |
| `CommandProgress.FrontIsPerformed` | src/debug/debug_session.cpp:473-487 | With a command queued, the draining tracer takes the front one, and its next step completes it as performed, with the value that step returned. |
| `CommandProgress.QueuedIsPerformed` | src/debug/debug_session.cpp:471-487 | While the target lives and nobody detaches, the command at position k of the queue is performed within 3k + 4 steps of the tracer, whatever the posters do meanwhile. |
| `CommandProgress.PostedIsPerformed` | src/debug/debug_session.cpp:258-275 | A call made while the target is served is queued, performed after those before it, and returns the value that performing it returned. |
| `CommandQueue.Queue.TryPush` | src/debug/debug_session.cpp:268-272 | The locked half of posting re-reads the flag and pushes at the back, or refuses. |
| `CommandQueue.Queue.Drain` | src/debug/debug_session.cpp:476-481 | The locked section takes the front of the queue, if there is one, as the step does that FrontIsPerformed is about. |
| `CommandQueue.Queue.Flush` | src/debug/debug_session.cpp:252-255 | Cleanup fails every queued command with -1, in order, and empties the queue. |
| `BreakpointRuns.OneShotDeliversOnce` | src/debug/breakpoint_manager.cpp:307-364 | Under any interleaving of hits, removals and enabling around the unlocked condition check, at most one recordHit on a one-shot breakpoint returns true. |
| `BreakpointRuns.HitCountIsDeliveries` | src/debug/breakpoint_manager.cpp:307-364 | The hit count of a breakpoint still in the table is what it was added with plus its deliveries. |
| `BreakpointRuns.LogIsRecentDeliveries` | src/debug/breakpoint_manager.cpp:307-376 | A hit log never exceeds 10000 entries and holds the most recent deliveries since it was cleared, in order. |
| `BreakpointRuns.GapDecision` | src/debug/breakpoint_manager.cpp:316-364 | What decides a call in the gap between the two sections is only whether the breakpoint is still there. |
| `BreakpointRuns.DisabledYetDelivered` | src/debug/breakpoint_manager.cpp:223-227 | A concrete run in which a hit is delivered although its breakpoint was disabled before: disabling does not reach a call in the gap. |
| `BreakpointRuns.RunKeepsInv` | src/debug/breakpoint_manager.cpp:204-364 | Ids are never reused, counts match deliveries and logs stay capped through every run. |
| `BreakpointFilters.OnlyFilteredThread` | src/debug/breakpoint_manager.cpp:307-364 | Under every interleaving, a breakpoint with a thread filter delivers hits of that thread only. |
| `BreakpointFilters.HitIsDeliveredIff` | src/debug/breakpoint_manager.cpp:307-364 | A call that nothing interrupts delivers its hit if and only if the breakpoint is enabled, for that thread or for all, and its condition holds; otherwise the table stays as it is. |
| `BreakpointFilters.AddingIs` | src/debug/breakpoint_manager.cpp:204-212 | Adding puts the breakpoint last, under the next id; one that asks for a debug register gets the lowest free one, or none when all four are held. |
| `BreakpointFilters.EnablingIs` | src/debug/breakpoint_manager.cpp:223-227 | Enabling and disabling change the flag of that breakpoint and nothing else. |
| `BreakpointManager.Manager.FindFreeHwRegister` | src/debug/breakpoint_manager.cpp:241-249 | The smallest debug register no enabled breakpoint holds, or -1 exactly when all four are held. |
| `BreakpointManager.Manager.AddBreakpoint` | src/debug/breakpoint_manager.cpp:204-212 | Appends the breakpoint under a new id, giving a hardware breakpoint without register a free one. |
| `BreakpointManager.Manager.RemoveBreakpoint` | src/debug/breakpoint_manager.cpp:214-221 | Erases the breakpoint and its log, nothing else. |
| `BreakpointManager.Manager.SetBreakpointEnabled` | src/debug/breakpoint_manager.cpp:223-227 | Changes the flag of that breakpoint only. |
| `BreakpointManager.Manager.CommitHit` | src/debug/breakpoint_manager.cpp:316-364 | The second locked section: false and no change when the breakpoint is gone; else count, capped log, and erase when one-shot. |
| `BreakpointManager.Manager.RecordHit` | src/debug/breakpoint_manager.cpp:307-364 | Without interference the two sections and the condition act as one step. |
| `LayoutAgreement.EmissionFollowsSizing` | src/core/autoasm.cpp:1716-1757 | When the labels converge, every name a label stands for is defined by a line and every READMEM copies, emission reaches every line at the address of the last sizing pass, unless it stopped before. A label may be declared twice or share an allocation's name, provided names are identifiers that do not look like addresses and definitions bring no quotes. |
| `LayoutAgreement.AgreementIff` | src/core/autoasm.cpp:1716-1757 | A script emitted up to a line agreed with sizing at every line so far if and only if at each of them READMEM copied (its source resolved or its size was 0) and the text sized with placeholders assembles to as many bytes, modulo 2^64, as the emitted text. Nothing is asked of the labels. |
| `LayoutAgreement.DefinedAgreementIff` | src/core/autoasm.cpp:2009-2042 | When every name has a definition, the passes agreed throughout if and only if every READMEM copied. |
| `LabelReferences.LabelsLandWhereUsed` | src/core/autoasm.cpp:2114-2147 | At a line of data or code that names a label outside its literals, what is written is the assembly of a text with, in the name's place, the very address at which emission meets the label's definition, when every name has a definition, every READMEM copies, no define has the name and the label's address stands for it in the end. |
| `LabelReferences.ReferenceBecomesAddress` | src/core/autoasm.cpp:1052-1122 | In a substituted line a reference to a label becomes one address: the label's own, followed through the labels that are replaced after it and called like the address that stands there. The text on both sides becomes what it would by itself, whatever defines, allocations and other labels there are. |
| `LabelReferences.ReferenceKeepsAddressIff` | src/core/autoasm.cpp:1096-1100 | The reference becomes the label's own address if and only if that walk ends at it. |
| `LabelReferences.AddressStaysIff` | src/core/autoasm.cpp:1061-1100 | It does when no label replaced later is called like the address and has another; and only then, unless a later label leads back to the address under a third name. |
| `LabelReferences.ReplacedBefore` | src/core/autoasm.cpp:1061-1070 | A label called like the address of one with a shorter name is replaced before it and takes nothing over. |
| `LabelReferences.ThereAndBack` | src/core/autoasm.cpp:1061-1100 | Three labels of which the last leads back: the reference is taken over and returned. |
| `LabelReferences.CalledLikeAnAddress` | src/core/autoasm.cpp:1096-1100 | Two labels of which the second, replaced later and called like the address of the first, takes the reference to the first over. |
| `RepeatedLabels.SecondDefinition` | src/core/autoasm.cpp:1197-1210 | A label defined in two places converges only if both places get the same address. |
| `RepeatedLabels.SameAddressIff` | src/core/autoasm.cpp:1174-1345 | In a settled pass two lines of one block have the same address if and only if the lines from one to the other take a multiple of 2^64 bytes: code, data, NOP, DS, READMEM and all. |
| `RepeatedLabels.DefinedTwiceNeverConverges` | src/core/autoasm.cpp:1174-1345 | A label defined twice within a block never converges, however many passes are made, when the lines from one definition to the other cannot take a multiple of 2^64 bytes; each of those lines has its own bounds, over every address and all addresses of the labels. |
| `RepeatedLabels.FillerNeverConverges` | src/core/autoasm.cpp:1174-1345 | With NOP, DS, READMEM, FILLMEM and directives between, nothing is asked of the assembler: it never converges unless the sizes written there add up to a multiple of 2^64. |
| `LayoutAgreement.ResolvedIsSettled` | src/core/autoasm.cpp:1340-1341 | Success is a fixed point: the labels returned size to themselves and keep their names. |
| `LayoutAgreement.LabelIsWhereDefined` | src/core/autoasm.cpp:1197-1210 | In a settled pass a label has the address of the line that defines it, and that is never 0. |
| `LayoutAgreement.LineStep` | src/core/autoasm.cpp:1223-1337 | A line that sizing takes from one address to another, emission takes there too if and only if the line fits: its READMEM copies and its placeholders keep its size. |
| `LooseLabels.SizingTextIsEmissionText` | src/core/autoasm.cpp:1134-1171 | A line whose substituted text names no label without an address outside its literals is sized by the very text that is emitted. |
| `LooseLabels.BoundIsTight` | src/core/autoasm.cpp:1090-1100 | Once the labels that stand for their names have addresses, no substituted line names one that has none, not even a second declaration or a label with an allocation's name. |
| `LayoutCounterexample.UnresolvedReadMemShiftsLabel` | src/core/autoasm.cpp:2029-2041 | A script with a READMEM whose source does not resolve: its label is emitted at 0x1008, and the eight bytes written for the reference to it hold 0x100c. |
| `LayoutCounterexample.UndefinedLabelShifts` | src/core/autoasm.cpp:1139-1152 | A script without READMEM that emission lays out otherwise than sizing did: a declared label that no line defines is sized as an address and emitted as the register it names. |
| `AutoAssembly.ResolveForwardLabels` | src/core/autoasm.cpp:1125-1346 | The loop of at most eight passes, with labels updated in place, computes the iterated sizing pass. |
| `AutoAssembly.EmitLines` | src/core/autoasm.cpp:1716-2147 | The emission loop computes the emission that EmissionWrites is about: final address, labels and every patch, or that it stopped. |
| `EmittedPatches.EmissionWrites` | src/core/autoasm.cpp:1855-2147 | A script emitted up to a line has written, in the order of its lines and nothing else: for NOP its count of 0x90, for DS its characters, for data and code what assembling them gives, all where the script is; for READMEM the bytes found at its source; for FILLMEM its value, its size many times, at its target; for LOADBINARY the file at its target. The script moves on by what is written where it is. |
| `WrittenLines.NopIsWritten` | src/core/autoasm.cpp:2076-2087 | The line nop n writes n bytes 0x90 where the script is and takes it n bytes on. |
| `WrittenLines.DsIsWritten` | src/core/autoasm.cpp:2088-2101 | The line ds with a quoted text writes the codes of its characters. |
| `WrittenLines.FillMemIsWritten` | src/core/autoasm.cpp:2044-2075 | FILLMEM with a target, a decimal size and a hexadecimal value writes that many of that byte at the target. |
| `WrittenLines.ReadMemIsWritten` | src/core/autoasm.cpp:2009-2042 | READMEM with a source that resolves and a decimal size writes the bytes found there where the script is. |
| `WrittenLines.LoadBinaryIsWritten` | src/core/autoasm.cpp:1911-1960 | LOADBINARY writes what the file holds at its target and leaves the script where it is. |
| `ScriptArguments.NopCounts` | src/core/autoasm.cpp:420-432 | A NOP's count is its numeral, decimal or marked hexadecimal, one when it has none, and never zero. |
| `ScriptArguments.FirstPart` | src/core/autoasm.cpp:51-72 | Arguments are cut at their commas, up to the number of parts asked for. |
| `ScriptArguments.OffsetIsAdded` | src/core/autoasm.cpp:1029-1042 | A name that is none of the known ones and has a plus sign in it resolves to its base plus the hexadecimal offset, modulo 2^64, when the base resolves. |
| `ScriptArguments.NameResolves` | src/core/autoasm.cpp:1001-1027 | Known names resolve first: allocations, then labels, then defines with an address, then symbols. |
| `ScriptArguments.NumberIsAddress` | src/core/autoasm.cpp:1044-1049 | A hexadecimal number that is no name is that address. |
| `AutoAssembly.Assemble` | src/core/autoasm.cpp:1657-1757 | Sizing and then emitting: when the lines fit, emission was at every line where the last sizing pass had been and ends with the labels sizing gave it; when every name has a definition, they fit if and only if every READMEM copies. |
| `TokenCuts.ReplacementIff` | src/core/autoasm.cpp:1075-1089 | The find-and-replace loop amounts to cutting the original text at all its whole tokens of the name and joining the pieces with the value, in every text and by every value, if and only if the name starts with an identifier character and none of its overlaps with itself stands between two other characters. |
| `TokenCuts.ReplacesWholeTokens` | src/core/autoasm.cpp:1075-1089 | For such a name: the result is the original text with all its whole tokens, and nothing else, replaced. |
| `TokenCuts.DollarIsLeft` | src/core/autoasm.cpp:1079-1088 | A name outside the condition: of two dollar signs, both whole tokens, the second is left. |
| `WordMeanings.NoneLeftIff` | src/core/autoasm.cpp:1075-1089 | Replacing an identifier leaves none of it in any text if and only if the value has none. |
| `WordMeanings.WordStandsFor` | src/core/autoasm.cpp:1090-1122 | Outside literals a whole word becomes what the first replacement of its name, and the later ones on its value, make of it; the text around it is rewritten by itself. |
| `WordMeanings.RewritesOn` | src/core/autoasm.cpp:1106-1122 | From any place outside the literals where no identifier is cut, the rewriting goes on as if the line began there. |
| `WordMeanings.QuotedStays` | src/core/autoasm.cpp:1106-1117 | A quoted literal is returned unchanged whatever the replacements and whatever stands around it. |
| `WordMeanings.UnclosedStays` | src/core/autoasm.cpp:1112-1117 | So is a literal that is never closed. |
| `SymbolOrder.SortKeepsAll` | src/core/autoasm.cpp:1061-1070 | Sorting longest names first loses nothing, and of two symbols with one name the one declared first is still replaced first. |
| `SymbolSubstitution.ReplaceWholeToken` | src/core/autoasm.cpp:1075-1089 | The loop that edits the text in place replaces all whole tokens of a name within the condition, and leaves none of an identifier that the value does not have. |
| `SymbolSubstitution.SubstituteOutsideQuotes` | src/core/autoasm.cpp:1104-1122 | The scanning loop computes the rewriting that the lemmas on literals, words and borders are about. |
| `ScriptText.NothingToReplace` | src/core/autoasm.cpp:1106-1122 | Without replacements the quote-aware rewriting is the identity, unterminated quotes included. |
| `TryExcept.SelectFlattened` | src/core/autoasm.cpp:1406-1472 | On the flattening of any tree of blocks the index-scanning selector returns exactly the structured evaluation, choosing at each block by whether the flattened try part can execute. |
| `TryExcept.EvaluateSucceeds` | src/core/autoasm.cpp:1406-1472 | A well-nested tree is always selected successfully. |
| `TryExcept.SelectedAreUnmarked` | src/core/autoasm.cpp:1406-1472 | Any successful selection, also from ill-formed input, has no marker left. |
| `TryExcept.BlockExtent` | src/core/autoasm.cpp:1425-1441 | The scan finds a block's own except and end markers past any nested blocks. |
| `TryExcept.FindExtent` | src/core/autoasm.cpp:1425-1441 | The scanning loop finds the first closing marker at depth one and the last except marker before it, or reports none. |
| `TryExcept.SelectTryExceptBranches` | src/core/autoasm.cpp:1406-1472 | The loop with its recursive calls on shorter slices computes the selection, its log and its errors. |
| `UndoLog.ReplayRestores` | src/core/autoasm.cpp:1676-1714 | After any sequence of overlapping, partial or failed patches, and deallocations that free no byte before a surviving one of a logged range, writing the log back in reverse restores the contents memory had at entry, outside caves already freed. |
| `UndoLog.RestoredIff` | src/core/autoasm.cpp:1676-1714 | After any run at all: memory is restored if and only if at each mapped address the oldest logged write that still gets there holds the byte of the start, or none does and the byte never changed. |
| `UndoLog.ReplayAt` | src/core/autoasm.cpp:1677-1679 | Writing the log back leaves at each address the byte of the oldest entry whose write gets that far. |
| `UndoLog.CutIsRestoredIff` | src/core/autoasm.cpp:1855-1880 | One patch and one deallocation: memory is restored if and only if no surviving byte that the patch changed has a freed byte before it in the patch. |
| `UndoLog.RollbackUndoesActivation` | src/core/autoasm.cpp:1676-1689 | Rollback, and disable after a completed run, give back exactly the memory the activation started from, empty the log and the list of caves, and leave known exactly the names that no cave of the activation bears. |
| `UndoLog.NamesComeBackIff` | src/core/autoasm.cpp:1605-1689 | From the allocations to the rollback: memory comes back in full, and the names known before if and only if no cave was given one of them. |
| `UndoLog.NameIsLost` | src/core/autoasm.cpp:1605-1685 | A concrete name of an earlier script that the activation uses again and that is not known after its rollback. |
| `UndoLog.AllocateOwned` | src/core/autoasm.cpp:1605-1614 | Allocating caves keeps what rollback relies on: every new address lies in a logged cave. |
| `UndoLog.CutPatchIsNotRestored` | src/core/autoasm.cpp:1855-1880 | A concrete run in which deallocating the front of a patched range leaves the byte behind it changed. |
| `UndoLog.Activation.DoPatch` | src/core/autoasm.cpp:1691-1714 | Logs the old bytes, writes, lifts protection and retries, with the answer that PatchLands is about; nothing is logged when the old bytes cannot be read. |
| `UndoLog.PatchLands` | src/core/autoasm.cpp:1691-1714 | The answer is true if and only if the whole range is mapped and writable, as it is or once the protection is lifted, and then every byte has landed; otherwise those before the first that is not writable have. Bytes outside the range never change. |
| `UndoLog.LoadLands` | src/core/autoasm.cpp:1935-1952 | The same for LOADBINARY, which lifts no protection. |
| `UndoLog.ShortWriteIsReported` | src/core/autoasm.cpp:1706-1711 | A concrete write that stays short after the protection was lifted answers false. |
| `UndoLog.Activation.WriteLogBack` | src/core/autoasm.cpp:1677-1679 | The reverse loop over the log is the replay. |
| `UndoLog.Activation.DoRollback` | src/core/autoasm.cpp:1676-1689 | Replay, free the caves, forget the matching names. |
| `PointerChain.ChainMeaning` | src/core/expression.cpp:69-113 | A built chain of at most 64 offsets over a bracket-free base evaluates to its walk: dereference and add from the last offset to the first modulo 2^64, none exactly when a dereference fails. |
| `PointerChain.ChainTooDeep` | src/core/expression.cpp:72-73 | One offset more than the cap and a chain has no value at all. |
| `PointerChain.OffsetReadIff` | src/core/expression.cpp:34-60 | A printed offset is read as itself if and only if it is not a single hex letter that names a symbol or module. |
| `PointerChain.OutermostOffsetIff` | src/core/expression.cpp:104-111 | The outermost offset is added as itself exactly when no one-letter name shadows it. |
| `PointerChain.LetterIsSymbol` | src/core/expression.cpp:34-60 | With a symbol named a, the offset 10 is read as that symbol's address, and a chain with it does not evaluate to its walk. |
| `PointerChain.ChainClose` | src/core/expression.cpp:83-91 | The bracket that opens a chain is matched by the one its own suffix starts with. |
| `ExpressionParser.ParseImpl` | src/core/expression.cpp:69-193 | The recursive parser with its loops computes the specified value, the cap on depth included. |
| `ExpressionParser.SumTerms` | src/core/expression.cpp:126-190 | The splitting loop computes the sum that SumIsTotal is about. |
| `ExpressionSums.SumIsTotal` | src/core/expression.cpp:115-192 | A text of terms with plus and minus signs between them evaluates to the signed sum of what the terms stand for, modulo 2^64, when each term separates from what follows it. |
| `ExpressionSums.TermEndIff` | src/core/expression.cpp:126-155 | A term, plain or a module's name, ends where the parser cuts it if and only if no module name runs on past it and, unless it is a module's name, the operator behind it does not follow an x (at the start of the text excepted). |
| `ExpressionSums.PlainSum` | src/core/expression.cpp:115-192 | So sums of plain terms, none of which but the last ends in an x, evaluate as written when no module name has an operator in it. |
| `ExpressionSums.LongestModule` | src/core/expression.cpp:135-142 | The module name taken is the longest that stands there as a whole term. |
| `ExpressionSums.NumeralTokens` | src/core/expression.cpp:17-38 | Marked hexadecimal, marked decimal and bare hexadecimal numerals stand for their number, or for 0 when it does not fit in 64 bits, whatever symbols and modules there are. |
| `ExpressionSums.NameTokens` | src/core/expression.cpp:40-60 | Any other name stands for its symbol, else for the first module of that name, else for 0. |
| `ExpressionSums.SymbolMinusNumber` | src/core/expression.cpp:178-187 | hp-8 with hp at 0x1000 is 0xff8. |
| `ExpressionSums.XSwallowsOperator` | src/core/expression.cpp:149-152 | max-8 with a symbol max is read as one unknown name and gives 0: the guard for hexadecimal marks takes the x for one. |
| `ExpressionParser.FindModuleLength` | src/core/expression.cpp:135-142 | The loop over the modules finds the length that LongestModule is about. |
| `PointerText.RoundTrip` | src/core/ct_file.cpp:1085-1151 | Parsing a built chain returns exactly its base and offsets, for every non-empty list of printable offsets and every plain base. |
| `PointerText.Canonical` | src/core/ct_file.cpp:1131-1151 | Whatever parses, prints and parses again to the same. |
| `PointerText.BuildPointerExpression` | src/core/ct_file.cpp:1085-1098 | The loop builds the chain inside out. |
| `PointerText.ParseSignedHexOffset` | src/core/ct_file.cpp:1109-1128 | The accumulating loop reads a signed hexadecimal offset with 64-bit wrap-around and rejects anything else. |
| `PointerText.ParsePointerExpression` | src/core/ct_file.cpp:1131-1151 | The peeling loop computes the specified parse. |
| `TableForest.ForestRoundTrip` | src/core/ct_file.cpp:430-468 | When the parent links form a forest, loading the saved text gives every record with all modelled fields and its parent unchanged, in depth-first order: the roots in table order, every record followed by exactly its children. |
| `TableForest.TableRoundTrip` | src/core/ct_file.cpp:510-652 | For any parent links at all, loading gives every record exactly once, unchanged but for a parent that is dropped only for a record written at the outermost level. |
| `TableWriter.SaveCoversAll` | src/core/ct_file.cpp:434-467 | For cycles, self-parents, repeated ids and missing parents alike, the root pass and the sweep write every record exactly once. |
| `TableForest.NothingCut` | src/core/ct_file.cpp:449-467 | The done mark never cuts short a branch written from fresh siblings: the root pass writes full subtrees on any graph. |
| `TableForest.ForestIsDepthFirst` | src/core/ct_file.cpp:463-467 | Without cycles the sweep writes nothing and the text is the depth-first walk from the roots. |
| `TableXml.ForestReadsBack` | src/core/ct_file.cpp:530-652 | Parsing the text of any forest of records, at any nesting depth, gives its records in depth-first order, each under its parent. |
| `TableXml.TableReadsBack` | src/core/ct_file.cpp:1070-1080 | The outermost list is found between any header and footer and loads to the records that were written. |
| `TableXml.ForestBalanced` | src/core/ct_file.cpp:510-528 | Nested records and lists never end a scan for an outer close tag. |
| `TableXml.ParseCheatEntriesBlock` | src/core/ct_file.cpp:530-652 | The loop with its recursion appends exactly the specified records. |
| `TableRecord.RecordReadsBack` | src/core/ct_file.cpp:558-605 | Every modelled field of a record reads back from its own text: id, description, group, collapsed, active, hex, signed, freeze mode, scripts and colour, whatever the escaped texts contain. |
| `TableRecord.PartIsFound` | src/core/ct_file.cpp:477-486 | First-match search finds a record's field under its own name and nothing under the name of one that was left out. |
| `XmlFields.GetTagIs` | src/core/ct_file.cpp:477-486 | The substring search for a tag's text returns the text between the first such tags of the document. |
| `XmlFields.UnescapeEscaped` | src/core/ct_file.cpp:78-90 | Unescaping undoes escaping for every text, whatever follows it. |
| `XmlFields.XmlEscape` | src/core/ct_file.cpp:78-90 | The escaping loop computes the escaped text. |
| `XmlFields.XmlUnescape` | src/core/ct_file.cpp:654-668 | The unescaping loop computes the specified text, unknown entities kept. |
| `XmlTokens.FindTagIs` | src/core/ct_file.cpp:1007-1008 | Searching for a tag's text finds the tag and nothing else, in any text whose pieces hold no stray bracket. |
| `XmlTokens.ScanCloseIs` | src/core/ct_file.cpp:510-528 | The position-based scan for the matching close tag is the depth count over the tags. |
| `XmlTokens.FindMatchingClose` | src/core/ct_file.cpp:510-528 | The loop finds the specified close tag or none. |
| `TableSave.WriteEntries` | src/core/ct_file.cpp:434-467 | The array-based save, child lists and done marks included, writes the specified text. |
| `TableSave.WriteEntry` | src/core/ct_file.cpp:450-461 | The recursive writer marks and writes exactly what the specification does, and terminates on every graph. |
| `TableSave.IndexIds` | src/core/ct_file.cpp:434-436 | Each non-zero id maps to the first record that has it. |
| `TableSave.CollectChildren` | src/core/ct_file.cpp:437-448 | Each record's child list, in table order, and the child marks. |
| `Text.DecimalReads` | src/core/ct_file.cpp:560-561 | A 32-bit number printed into the ID or freeze-mode tag reads back through the library routine the loader calls on it. |
| `JsonRoundTrip.JsonReadsBack` | src/core/ct_file.cpp:1234-1326 | Loading a saved table gives every written field back: all texts, flags, 64-bit addresses and 32-bit numbers unchanged, sizes and offsets rounded to the nearest double; groups lose address, type and value, negative parents become none, comments without address are dropped. |
| `JsonRoundTrip.SavedTextParses` | src/core/ct_file.cpp:1155-1232 | What the writer writes is accepted by the parser within its cap on nesting. |
| `JsonRoundTrip.RoundKeepsIff` | src/core/ct_file.cpp:896-904 | A whole number survives the double if and only if it is a multiple of the power of two its size leaves no digits below. |
| `JsonRoundTrip.FirstLost` | src/core/ct_file.cpp:1172-1174 | The concrete size 2^53+1 that does not survive. |
| `JsonRoundTrip.EntryReadsBack` | src/core/ct_file.cpp:1299-1321 | Every field of an entry is found under its key among the optional members and read as written. |
| `JsonText.NodeReads` | src/core/ct_file.cpp:721-858 | The parser reads the text of any value, however its blanks are placed, up to 128 levels deep. |
| `JsonTable.TypeNamesRead` | src/core/ct_file.cpp:924-935 | Each name of a value type is read as its number. |
| `JsonText.EscapedReads` | src/core/ct_file.cpp:757-798 | An escaped text reads back for all characters. |
| `JsonText.NumberReads` | src/core/ct_file.cpp:800-812 | A printed 64-bit number is read as the double nearest to it and the input is left behind its last digit. |
| `JsonText.JsonEscape` | src/core/ct_file.cpp:671-684 | The escaping loop computes the escaped text. |
| `JsonParser.Parser.ReadAll` | src/core/ct_file.cpp:701-706 | The parser object accepts exactly the specified documents and leaves the specified value. |
| `JsonParser.Parser.ReadValue` | src/core/ct_file.cpp:721-755 | One value from the current position: the value, the new position, the depth restored, refused beyond 128 levels. |
| `JsonParser.Parser.ReadObject` | src/core/ct_file.cpp:835-858 | The member loop reads the specified object. |
| `JsonParser.Parser.ReadString` | src/core/ct_file.cpp:757-798 | The character loop with its escapes reads the specified text. |
| `AddressList.HiddenByCollapse` | src/core/address_list.hpp:35-48 | A row is marked hidden exactly when some earlier collapsed row has it in its subtree, for all indent lists, by a stack of strictly growing indents. |
| `AddressList.DescendantRange` | src/core/address_list.hpp:21-28 | The range holds exactly the rows in the subtree. |
| `AddressList.ExpandGroupDeletion` | src/core/address_list.hpp:134-147 | Ascending, and exactly the rows that are selected or lie under a selected row. |
| `AddressList.DeletionIsClosed` | src/core/address_list.hpp:126-133 | What goes takes its whole subtree along. |
| `AddressList.DeletionKeepsParents` | src/core/address_list.hpp:126-133 | In the compacted list every surviving row has the same parent row as before, and no other. |
| `AddressMoves.MoveRangePermutation` | src/core/address_list.hpp:56-73 | The plan is the identity for bad arguments and else names for each position the row that belongs there. |
| `AddressMoves.MoveIsPermutation` | src/core/address_list.hpp:50-55 | Every row lands in one place and every place gets one row. |
| `AddressMoves.MoveMeaning` | src/core/address_list.hpp:50-55 | The block stays in one piece and lands right before the row that was at the target; the others keep their order. |
| `AddressMoves.MoveIsIdentityIff` | src/core/address_list.hpp:50-55 | Nothing moves exactly when the drop is inside or next to the block, or past an end it touches. |
| `AddressMoves.MoveBackUndoes` | src/core/address_list.hpp:50-55 | Dragging the block back undoes the move. |
| `AddressMoves.MovedSubtreeKeepsParents` | src/core/address_list.hpp:50-55 | Dragging a header with its subtree keeps every parent inside it. |
| `AddressMoves.GroupSelection` | src/core/address_list.hpp:91-124 | The plan is rows before the selection, header, selected rows one deeper, other rows; not ok exactly when nothing valid is selected. |
| `AddressMoves.GroupingKeepsRows` | src/core/address_list.hpp:75-84 | The new list has the header and every old row and nothing twice. |
| `AddressMoves.MembersUnderHeader` | src/core/address_list.hpp:75-84 | Every selected row is under the new header, and a selected child of a selected parent stays its child. |
| `AddressMoves.GroupIsExactlySelectionIff` | src/core/address_list.hpp:75-84 | The new group holds exactly the selection if and only if the first unselected row after the first selected one, if any, is no deeper than the shallowest selected row; the comment in the source promises it always. |
| `AddressMoves.GroupSwallows` | src/core/address_list.hpp:75-84 | Depths 0, 1, 0 with the first and last row selected: the row between falls into the group, not below it. |
| `GuestScan.ScanExact` | src/core/guest_view.hpp:83-109 | The windowed scan with its reused buffer returns in ascending order exactly the offsets on the grid of their window whose bytes were delivered and equal the needle, for any short reads and any alignment. |
| `GuestScan.WindowedIsNaive` | src/core/guest_view.hpp:78-82 | With full reads and an alignment dividing the stride, that is what a scan of the whole region finds, matches across windows included. |
| `GuestScan.GridsAgreeIff` | src/core/guest_view.hpp:93-105 | The windows' grids make up the region's grid if and only if the alignment divides 2^20. |
| `GuestScan.ContainsIff` | src/core/guest_view.hpp:36-38 | The bounds check in 64-bit arithmetic is right for all addresses and lengths. |
| `GuestScan.ByteswapTwice` | src/core/guest_view.hpp:42-48 | Swapping the byte order twice gives the value back. |
| `GuestSnapshots.ReadRegion` | src/core/guest_view.hpp:154-166 | The chunked reads return the longest prefix they can deliver. |
| `GuestSnapshots.SnapshotEnd` | src/core/guest_view.hpp:150-166 | A snapshot ends early exactly where a read delivers nothing. |
| `GuestSnapshots.CompareBuffers` | src/core/guest_view.hpp:171-193 | The loop returns the survivors of two snapshots at the aligned offsets. |
| `GuestSnapshots.NextCompare` | src/core/guest_view.hpp:129-148 | The loop keeps the candidates that can be read (in range, and delivered whole) and compare so, with their current values. |
| `GuestSnapshots.CompareIsNextScan` | src/core/guest_view.hpp:168-193 | A next scan over every aligned offset of a snapshot finds what comparing it with a second snapshot finds, but for values that cannot be read one by one; also when the snapshots differ in length. |
| `GuestSnapshots.SurvivorsAreCurrent` | src/core/guest_view.hpp:124-127 | Survivors carry current values: asking for unchanged ones right away keeps them all. |
| `GuestSnapshots.ScansPartition` | src/core/guest_view.hpp:138-144 | Changed and unchanged split the readable candidates; increased and decreased split the changed. |
| `GuestSnapshots.NextKeeps` | src/core/guest_view.hpp:129-148 | A next scan keeps exactly the candidates that can be read and whose number is, as asked, other than before, the same, larger or smaller, with their present values. |
| `ScalarBits.StoredReadsBack` | src/core/value_transform.hpp:42-53 | Reading back what was written gives the value cut to its width, for every scalar type, byte order, codec and key. |
| `ScalarBits.BytesInOrder` | src/core/value_transform.hpp:128-136 | Without a codec the bytes are the value's digits to the base 256, lowest first for a little-endian target and highest first for a big-endian one. |
| `ScalarBits.ReadWritesBack` | src/core/value_transform.hpp:126-136 | Writing back what was read leaves the stored bytes as they were. |
| `ScalarBits.EncodeScalarBits` | src/core/value_transform.hpp:128-136 | The in-place writer fills exactly the width's bytes, reversed for a big-endian target. |
| `ScalarBits.DecodeScalarBits` | src/core/value_transform.hpp:42-53 | The reader copies, reverses and decodes as specified. |
| `ValueCodec.DecodeEncode` | src/core/value_codec.hpp:52-77 | Encoding and decoding undo each other up to the width, for xor, add, rol and ror and every 64-bit key. |
| `ValueCodec.RotateLeftIs` | src/core/value_codec.hpp:37-43 | The masked shifts in 64-bit words move the top digits of the value to the bottom. |
| `ValueCodec.RotateRound` | src/core/value_codec.hpp:44-50 | Rotating right undoes rotating left at every width and count. |
| `ValueCodec.Directions` | src/core/value_codec.hpp:52-77 | Adding stores the sum and shows the difference, modulo the width; rotating left stores the value turned left by the key; rotating right shows it turned left. |
| `Words.AndMask` | src/core/value_codec.hpp:34-36 | Masking with n ones is the remainder modulo 2^n. |
| `ScalarText.DisplayReadsBack` | src/core/value_transform.hpp:82-112 | Parsing a displayed integer and casting it to the width gives the displayed bits back, signed, unsigned or hexadecimal, in either edit mode for a hexadecimal display. |
| `ScalarText.DecimalReadsBack` | src/core/value_transform.hpp:69-80 | Every signed 64-bit number reads back from its decimal text, the smallest one included. |
| `ScalarText.ParseIntegerScalar` | src/core/value_transform.hpp:87-112 | The accumulating loop computes the specified value modulo 2^64 and rejects the specified texts. |

## Left out

- DebugTransparency.Transparency: covers Continue and Step Into, not Step Over, Step Out and RunToCursor, because those rewind only at the temporary address and may stop one byte past a user breakpoint (RunToCursorStopsPast); for them the overlay is proved. Breakpoints change only while the target is stopped, and code does not modify itself.
- Debugger: hardware watchpoints, register edits, new and exiting threads, signals pending while the world is stopped, failed ptrace calls, the exposure of a lifted byte to a thread created during a single step.
- DebugStepping.StepToIsRun: the target cuts no instruction in two; a thread interrupted one byte past the target is moved onto it, as in the source, and no place is stated for it.
- CommandQueue.InOnePlaceInOrder: a command posted from the tracer thread itself runs inline and is not queued; it is not part of the state machine. Waiting with a time limit is a step that changes nothing.
- BreakpointManager: conditions are an uninterpreted deterministic function; applying breakpoints to threads is not modelled.
- LayoutAgreement.EmissionFollowsSizing: scripts with REASSEMBLE or UNREGISTERSYMBOL are excluded, because those read or change state during emission; so are blank lines, which parsing never leaves. Anything that makes emission stop for reasons outside the two passes is a flag per line.
- LabelReferences.LabelsLandWhereUsed: names of labels, allocations and defines are identifiers. For names that are not, the rewriting of one name is characterised (TokenCuts.ReplacementIff), not the rewriting of a whole line.
- Layout: replacements of equal name length are applied in order of declaration; the order std::sort leaves them in is unspecified. Parsing of scripts into lines, structures, conditionals, Lua and C blocks, hooks, AOB scans, custom commands and anonymous labels are not modelled.
- DebugTransparency.DetachWhenStopped: covers the same commands as Transparency.
- UndoLog: a write lands a prefix; addresses do not wrap; caves of one activation have distinct names; effects of injected libraries and created threads on memory are not modelled. Saving and restoring is by the same function for rollback and disable; the symbols disable removes are not modelled.
- PointerText.RoundTrip: the smallest 64-bit offset is excluded, because printing its magnitude overflows in the source.
- PointerChain.ChainMeaning: memory is a map of the eight-byte values that can be read.
- TableRecord.RecordReadsBack: address, type, length, offsets, value, options, choices and hotkeys are carried as opaque elements that do not repeat a modelled field's tag; their own round trip depends on which other tags are present and is not stated. A record that is no group loses its collapsed mark. A colour with an opening bracket in it, which the source writes raw, is not covered; atoi and stoi are modelled for 32-bit numbers.
- TableXml.TableReadsBack: table-level tags, structures, comments and forms are opaque header and footer.
- JsonRoundTrip.JsonReadsBack: address text, offsets, length, options and cascade flags are not written by the source and so not part of it. The value of a number with a fraction or an exponent is a parameter of loading, the spellings inf and nan after a minus sign are not modelled, and casts of out-of-range doubles are taken as the number itself.
- GuestScan.ScanExact: offsets do not wrap, so regions within one window of 2^64 bytes are not covered. Values are given by their bytes; floating point comparison is not modelled.
- ScalarText.DecimalReadsBack: negation is in two's complement also for the smallest number, where the source's negation overflows.
- ValueCodec: parsing and describing codec specifications and floating-point display are not modelled.
- The graphical and command-line interfaces, scripting, instruction encoding and decoding, process enumeration, managed-runtime readers, trainers and protected tables.
