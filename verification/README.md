# Axoloty embedded: verification model

A Dafny model of the tools and transports that carry the most logic in the repository, with proofs about whole
runs, all interleavings and all inputs. `dafny verify dfyconfig.toml` checks everything.

## What is modelled

**The stack-bound interpreter** (`Words`, `AbstractValues`, `Machine`, `Transfers`, `CallGraph`, `Refusals`,
`IntervalEngine`, `StepCoverage`, `JumpCoverage`, `StackBound`, `StageProtocol`, `StraightLine`, the meaning of
instructions and rules in `InstructionMeaning`, `EngineRules` and `JumpRules`, and the concrete programs in
`ScopeWitness`, `BranchWitness`, `SpillWitness`, `StageWitness` and `StaleCache`). The engine runs RISC-V code over sets
of at most 32 values. Beside it stands a 32-bit machine with byte memory. An accepted analysis leaves a certificate:
recorded states that already contain everything one more transfer could add, and nothing without a reason. A refused
one leaves a reason: a derived state that cannot go on, or a callee refused in turn. The main theorem is
`StackBound.StackBounded`: no in-scope run goes deeper than the accepted maximum. The scope is stated as
preconditions, in three parts:

- `WellFormed` is what the engine relies on about the image: even 32-bit code addresses, encodable operands,
  branches whose target is not their fall-through, and code that leaves gp and tp alone.
- `Disciplined` can be read off the recorded states: stack addresses change only by moves and immediate adds and
  are not operands of other arithmetic with a known result, returns go through x1 with a zero offset, links are x0,
  x1 or x5, a callback given to a one-time initialiser is a code address, and a tested stack address lies in the
  window.
- `InScope` speaks of the run: the stack window is mapped away from address zero, the return address lies outside
  the code, linked read-only data keeps its value, and no store hits a stack word of known content of a caller, or
  of its own frame without the engine seeing it. This is asked of the activation stacks the run itself builds.

`ScopeWitness.BoundReached` and `SpillWitness.CallInScope` show that all of this can be met, calls and stores
included, and that the bound is tight there. `SpillWitness.BoundFails` shows that the memory clause is needed. They
speak of the analyses a fresh engine leaves for these programs: `LeafAnalysed`, `CallAnalysed` and `StageAnalysed`
state exactly what it answers and keeps.

Machine and engine share their operators. `InstructionMeaning` ties the machine to plain arithmetic on words, bits and
bytes. `EngineRules` and `JumpRules` state in sets of integers what soundness leaves open: exactly when a value is
known, when a state is refused, and what each instruction records.

**The frame walker** (`FrameWalker`, `FrameFlow`, `FrameExits`). A search over pairs of program counter and sp
change. A clean report is proved equivalent to a property of all walks, cycles included, and the search is proved to
end on every body. Where control goes is tied to the decoded instructions, kind by kind. What a clean report says
about leaving the body is stated apart.

**The disassembly binder** (`Disassembly`, `ElfBinding`, `ImageMeaning`). A heap sweep against a naive scan, and
acceptance of a listing against the bytes of the image.

**Storage accounting** (`Ranges`, `SymbolConflicts`, `Padding`). Sweeps, coverage, charging and the padding loop
against plain sets of addresses.

**The carriers** (`KeyExpression`, `CarrierCounters`, `ZenohCarrier`, `MqttEvents`, `FilterTable`,
`MqttCarrier`). Each carrier is a class whose methods take the answers of the code that is not modelled: facade
results and router counts for Zenoh; for MQTT, the outcomes of client calls and the event-task steps that fall
between the steps of an API call, so that every interleaving is a choice of arguments. Ghost histories record
what each session pulled, delivered, accepted and dropped. What an MQTT call does to the shared state is stated
exactly, as the effect of the event-task steps it met and of its own.

**The bounded JSON writers** (`JsonText`, `CarrierReport`, `CounterReport`). Two fixed-buffer sinks refine an
unbounded text, and a reader recovers what was written.

`Basics` and `Sets` hold vocabulary the modules share.

## Where the code and its claims part

- The conflict sweep groups symbols by section index, the charging by section name. With two sections of one name
  the charges can exceed the joined union: `SymbolConflicts.TwoSectionsOneName`. `JoinInventory` gives the exact
  condition, `CleanReportCharges` the usual case.
- A topic with an embedded NUL is compared in full but stored truncated, so adding it twice stores it twice:
  `FilterTable.TruncationDuplicates`. `AddedDistinct` gives the exact condition.
- A second MQTT connect on a live client clears the connect count before it can fail; the baseline stays.
  `MqttCarrier.SecondConnect` gives the exact condition under which they still agree. In `MqttCarrier.StaleBaseline`,
  run from a fresh carrier through the callbacks, the client then reconnects; the CONNECTED callback takes this for a
  first connection and renews no filter, and a reconnect wait fails even after the filter is subscribed again. The
  pacing claims hold for sessions without such a connect (`orderly`) while fewer than 2^32 - 1 connections were
  counted. At that number the expected count wraps and a wait succeeds without a connection of its own
  (`MqttCarrier.ExpectedWraps`); one later the count itself wraps (`MqttCarrier.CountWraps`). A CONNECTED event renews
  the filters exactly when the count since it was cleared is above one modulo 2^32 (`MqttCarrier.Carrier.OnConnected`),
  so not at the two events around the wrap (`MqttCarrier.RenewalWraps`).
- An empty message on a topic in bounds whose event has no payload pointer is discarded without being counted; with a
  pointer it is accepted: `MqttEvents.EmptyWithoutPointer`. `MessageDecidedOnce` gives the exact condition.
- Stage checks do not count as special, so a staged call of `analyze` without other options can be answered from
  the cache of an unstaged one. `IntervalEngine.Engine.Analyze` states when the returned certificate was made under
  the caller's stages; in `StaleCache.StagedCalls` a call is refused on a fresh engine and accepted after an unstaged
  one.
- One indirect jump that may reach two stages advances the phase for both: `StageWitness.OneJumpTwoPhases`. In
  `StageWitness.StageSkipped` an accepted analysis has an in-scope run that never calls the first stage and reaches
  the stop point. The stage claim is therefore about direct stage calls: `StackBound.AllFollow` shows that, jump by
  jump, this is exactly when the recorded phase is right for every destination.
- A comment at `Tools/EmbeddedApplicationMacros/initialization_interval.py:409-411` says facts about pointed-to
  output are forgotten after a call; the code keeps them. The model follows the code, and the scope asks for it.
- A comment at `Transports/zenoh-pico/main/ZenohCarrier.swift:538-539` says polling resumes after the last slot that
  produced a frame; it also resumes after one whose answer closed or failed the poll.
- In the frame walker `jal x0` to a target outside the body is neither an exit nor an issue, and an unresolved
  direct jump is both. The model keeps both. `FrameExits.SilentExit` is a clean body that is left that way with sp
  moved by 16; `FrameExits.LeavesRestored` shows that nothing else leaves a clean body with sp moved.

## Model

| member | source | states |
|---|---|---|
| `StackBound.StackBounded` | Tools/EmbeddedApplicationMacros/initialization_interval.py:215-562 | For every in-scope run of the machine from the entry of an accepted analysis, at every step and through nested calls, tail jumps and alternate-link helpers, sp lies between the entry sp minus the accepted maximum and the entry sp |
| `StackBound.BoundFunction` | Tools/EmbeddedApplicationMacros/initialization_interval.py:215-225 | Analysing one function in default mode: a returned number bounds the stack of every in-scope run from that function, and a refusal has one of the reasons below, from states and call-graph edges the function leads to |
| `StackBound.Explained` | Tools/EmbeddedApplicationMacros/initialization_interval.py:249-538 | At every step of a run, the activation stack the run has built explains the machine: the innermost activation is described by a recorded abstract state, every suspended caller by the state it will resume in |
| `StackBound.Advance` | Tools/EmbeddedApplicationMacros/initialization_interval.py:294-538 | One machine step moves an explained configuration to an explained one along a recorded successor, into a recorded callee or back, or returns from the root with its sp and saved registers checked; the phase follows stage calls |
| `StackBound.AdvancePlain` | Tools/EmbeddedApplicationMacros/initialization_interval.py:413-500 | Straight-line instructions: the recorded successor describes the next configuration, and no caller loses a tracked stack word |
| `StackBound.AdvanceBranch` | Tools/EmbeddedApplicationMacros/initialization_interval.py:297-306 | Both branch outcomes: whichever way the machine goes, the matching refined state describes it |
| `StackBound.AdvanceJump` | Tools/EmbeddedApplicationMacros/initialization_interval.py:307-412 | Jumps: the machine destination is among the recorded destinations and is handled as a return, an inlined transfer or a separate call; with direct stages the phase follows |
| `StackBound.AdvanceWalk` | Tools/EmbeddedApplicationMacros/initialization_interval.py:340-412 | A jump that is not a return goes on in the recorded successor or enters the recorded callee of its machine destination |
| `StackBound.AllFollow` | Tools/EmbeddedApplicationMacros/initialization_interval.py:356-361 | After an unrefused jump the phase is right for every destination if and only if no destination is a stage or there is exactly one |
| `StackBound.AdvanceCall` | Tools/EmbeddedApplicationMacros/initialization_interval.py:374-383 | A call pushes an activation whose own bound fits under the caller depth, and leaves the caller resumable at the fall-through address |
| `StackBound.AdvanceReturn` | Tools/EmbeddedApplicationMacros/initialization_interval.py:329-339 | A return pops an activation: sp and callee-saved registers are what the caller had, so its recorded state describes the machine again |
| `StackBound.TopDepth` | Tools/EmbeddedApplicationMacros/initialization_interval.py:270-278 | The machine stack pointer is the entry stack pointer minus the depth the engine computed at that location |
| `StackBound.DefaultStart` | Tools/EmbeddedApplicationMacros/initialization_interval.py:224-234 | Any configuration at a function entry is a legal start of the claim: the entry registers are the frame of reference |
| `InstructionMeaning.BranchMeaning` | Tools/EmbeddedApplicationMacros/initialization_interval.py:515-521 | For every register file and condition the machine goes to the branch target exactly when the two words are equal, unequal, ordered as signed or ordered as unsigned numbers, in plain arithmetic; otherwise behind the branch |
| `InstructionMeaning.BranchZeroMeaning` | Tools/EmbeddedApplicationMacros/initialization_interval.py:507-511 | The same for the compressed zero tests |
| `InstructionMeaning.AluMeaning` | Tools/EmbeddedApplicationMacros/initialization_interval.py:450-497 | Register instructions put the sum, difference, bitwise, shifted or compared value of the 32-bit words into their register, bit by bit for the bitwise ones, and change nothing else |
| `InstructionMeaning.LoadMeaning` | Tools/EmbeddedApplicationMacros/initialization_interval.py:413-440 | Loads read little-endian bytes at wrapping addresses, bytes and halves with or without their sign |
| `InstructionMeaning.StoreMeaning` | Tools/EmbeddedApplicationMacros/initialization_interval.py:441-449 | A word store changes four bytes, little-endian at wrapping addresses, and no other byte |
| `InstructionMeaning.JumpMeaning` | Tools/EmbeddedApplicationMacros/initialization_interval.py:307-324 | A jump goes to its target or the computed address with the low bit cleared and links unless it is to x0 |
| `BranchWitness.BranchAnalysed` | Tools/EmbeddedApplicationMacros/initialization_interval.py:515-527 | A function that loads two words, branches on them and goes 64 bytes deep on the taken edge only: for every condition and all words a fresh engine answers 64 when the comparison holds of the words in plain arithmetic, and 0 otherwise |
| `EngineRules.EvalMeans` | Tools/EmbeddedApplicationMacros/initialization_interval.py:458-497 | What each operation does to two unbounded integers, bit by bit for the bitwise ones |
| `EngineRules.ArithmeticExact` | Tools/EmbeddedApplicationMacros/initialization_interval.py:45-51 | A result is unknown exactly for an unknown operand, an integer below -2^32 or more than 32 results; otherwise it is the set of results, reduced to 32 bits when both operands are below 2^32 in magnitude |
| `EngineRules.UnionExact` | Tools/EmbeddedApplicationMacros/initialization_interval.py:38-42 | A union is unknown exactly for an unknown operand or more than 32 members |
| `EngineRules.MergeExact` | Tools/EmbeddedApplicationMacros/initialization_interval.py:78-84 | A join fails exactly when the stack pointers differ; otherwise registers and common facts are joined and the phase stays |
| `EngineRules.LocationsApart` | Tools/EmbeddedApplicationMacros/initialization_interval.py:236-239 | Two states share a worklist location exactly when program counter, x1, x5, sp and phase agree |
| `EngineRules.EntryMeans` | Tools/EmbeddedApplicationMacros/initialization_interval.py:224-232 | An unseeded analysis starts with zero in x0, named values in x1, sp and the callee-saved registers, the callback in x11 and nothing else known |
| `EngineRules.ReadMeans` | Tools/EmbeddedApplicationMacros/initialization_interval.py:191-196 | Linked bytes are read where exactly one section holds all of them, the lowest first |
| `EngineRules.StopMeans` | Tools/EmbeddedApplicationMacros/initialization_interval.py:258-276 | At a stop point the path ends, or is refused while stages are left; elsewhere it is refused unless there is a decoded instruction of a function and one known sp at most 2^20 below the entry |
| `EngineRules.PlainMeans` | Tools/EmbeddedApplicationMacros/initialization_interval.py:450-504 | Register instructions: the one successor with its register, or a refusal exactly when sp would become unknown or, for computed results, not a single value |
| `EngineRules.LoadRule` | Tools/EmbeddedApplicationMacros/initialization_interval.py:413-440 | Loads are refused exactly when some address lies in the window under sp; otherwise they put the joined recorded or linked values, sign-extended if told |
| `EngineRules.StoreRule` | Tools/EmbeddedApplicationMacros/initialization_interval.py:441-449 | A word store to one window address replaces the facts of words that share a byte with it; any other store leaves the facts alone |
| `EngineRules.EdgeMeans` | Tools/EmbeddedApplicationMacros/initialization_interval.py:515-523 | Of two comparable operands an edge keeps exactly the integers that some value of the other operand lets take it; without any there is no edge |
| `EngineRules.EdgeLimits` | Tools/EmbeddedApplicationMacros/initialization_interval.py:524-527 | Otherwise nothing is refined, except that an unsigned comparison with one number up to 31 bounds an unknown right operand |
| `EngineRules.ZeroEdgeMeans` | Tools/EmbeddedApplicationMacros/initialization_interval.py:507-514 | A zero test keeps exactly the integers that take the edge; without any there is no edge |
| `EngineRules.BranchMeans` | Tools/EmbeddedApplicationMacros/initialization_interval.py:297-306 | A branch has one successor behind it and one at its target, each with the registers its edge keeps |
| `EngineRules.JumpMeans` | Tools/EmbeddedApplicationMacros/initialization_interval.py:307-412 | A jump is refused exactly for an unknown destination, for a return that moved sp or a saved register or stands between hook and end, or for a blocked destination; otherwise depth, return, successors, callees and call-graph edges are what its destinations add up to |
| `JumpRules.JumpToMeans` | Tools/EmbeddedApplicationMacros/initialization_interval.py:345-412 | One destination: when it is refused, and what it adds to registers, targets, phase, callees and edges |
| `JumpRules.WalkMeans` | Tools/EmbeddedApplicationMacros/initialization_interval.py:344-412 | All destinations in order: refused exactly when one is blocked by then; calls forget the caller-saved registers for later ones, stages advance the phase, and every call or tail jump to another function entry is an edge |
| `ScopeWitness.BoundReached` | Tools/EmbeddedApplicationMacros/initialization_interval.py:258-278 | The scope is inhabited and the bound is tight: in the analysis the engine leaves for a leaf function with a 16-byte frame (`LeafAnalysed`), its run is in scope, returns, and goes exactly 16 bytes deep |
| `ScopeWitness.LeafAnalysed` | Tools/EmbeddedApplicationMacros/initialization_interval.py:215-236 | Asked about that function a fresh engine answers 16 and leaves exactly that analysis |
| `SpillWitness.CallInScope` | Tools/EmbeddedApplicationMacros/initialization_interval.py:413-449 | A caller spills its return address, calls a function that stores through an unknown pointer, reloads and returns. In the analysis the engine leaves for it (`CallAnalysed`), when the pointer misses the spilled word the run is in scope, returns, and reaches the bound |
| `SpillWitness.BoundFails` | Tools/EmbeddedApplicationMacros/initialization_interval.py:381-383 | In the same analysis, when the pointer hits the spilled word, every clause but the memory one holds and the answered bound is exceeded |
| `SpillWitness.CallAnalysed` | Tools/EmbeddedApplicationMacros/initialization_interval.py:374-383 | Asked about that caller a fresh engine answers 16 and leaves exactly that analysis, the callee included |
| `IntervalEngine.Engine.Analyze` | Tools/EmbeddedApplicationMacros/initialization_interval.py:215-222 | An accepted analysis leaves a post-fixpoint: every successor, depth and callee of every recorded state is covered, every recorded state is derived, the maximum is the depth of a derived state or that depth plus the bound of its callee, and the call graph is acyclic. Without seed, stop or inlining it is cached and some derived state returns. Only direct and indirect callees are analysed separately. A cached key is answered with the cached bound and certificate, so it is stated exactly when the certificate was made under the stages asked for. A refusal has a reason: re-entry, no function, a derived state whose transfer is rejected or that meets another sp, more than 100000 derived states, a refused callee, a cycle, or no return |
| `IntervalEngine.Engine.Explore` | Tools/EmbeddedApplicationMacros/initialization_interval.py:240-278 | The worklist loop: when it ends normally only settled locations remain; otherwise a derived state says why; at most 100000 iterations |
| `IntervalEngine.Engine.AnalyzeCalls` | Tools/EmbeddedApplicationMacros/initialization_interval.py:376-380 | The maximum covers caller depth plus the bound of every callee of a jump, and is exactly one of those sums when it rises; a refusal names the refused callee |
| `IntervalEngine.ExploringAdvances` | Tools/EmbeddedApplicationMacros/initialization_interval.py:253-254 | Handling the head of the worklist keeps the invariant that only queued locations may be unsettled |
| `IntervalEngine.RecordAll` | Tools/EmbeddedApplicationMacros/initialization_interval.py:505-538 | Successors are joined into the recorded states: recorded states only grow, and every changed one is queued again |
| `IntervalEngine.Record` | Tools/EmbeddedApplicationMacros/initialization_interval.py:529-538 | A join is refused exactly when a state is already recorded at that location with a different sp value |
| `IntervalEngine.CertifiedExtends` | Tools/EmbeddedApplicationMacros/initialization_interval.py:557-560 | A new cached bound leaves every earlier cached bound justified |
| `IntervalEngine.TransferKeepsWindow` | Tools/EmbeddedApplicationMacros/initialization_interval.py:441-449 | Facts are only ever recorded for words of the stack window |
| `Refusals.TracedJoin` | Tools/EmbeddedApplicationMacros/initialization_interval.py:529-538 | A joined state is derived from earlier ones and differs from everything derived before |
| `Refusals.GraphGrewInside` | Tools/EmbeddedApplicationMacros/initialization_interval.py:350-351 | Call-graph edges come from derived states of the task or of its direct and indirect callees |
| `StaleCache.StagedCalls` | Tools/EmbeddedApplicationMacros/initialization_interval.py:216-219 | A concrete function: its staged analysis is refused on a fresh engine and accepted, from the cache, after an unstaged one |
| `StaleCache.NotRefused` | Tools/EmbeddedApplicationMacros/initialization_interval.py:249-538 | No reason for a refusal holds of that function without stages, so it is accepted |
| `StaleCache.NoStagedCert` | Tools/EmbeddedApplicationMacros/initialization_interval.py:356-360 | With the stages no certificate for it exists |
| `StraightLine.OneCertificate` | Tools/EmbeddedApplicationMacros/initialization_interval.py:249-278 | Where the states follow each other in one line, a closed certificate whose states are derived and whose maximum is earned is the only one |
| `StraightLine.NotRefused` | Tools/EmbeddedApplicationMacros/initialization_interval.py:249-538 | Where a function and everything it calls run in lines, no reason for a refusal holds |
| `StraightLine.SmoothLeaves` | Tools/EmbeddedApplicationMacros/initialization_interval.py:350-380 | In that case only the functions called along the lines are analysed separately, and only their edges recorded |
| `Transfers.MergeAbove` | Tools/EmbeddedApplicationMacros/initialization_interval.py:78-84 | The merged state is above both merged states: registers, memory facts and phase |
| `StageProtocol.StagesInOrder` | Tools/EmbeddedApplicationMacros/initialization_interval.py:356-361 | With direct stage calls, the stage calls of every in-scope run form a prefix of begin, hook, end; no run returns with exactly two of them made; the stop point is reached only after all of them |
| `StageProtocol.PhaseCounts` | Tools/EmbeddedApplicationMacros/initialization_interval.py:258-262 | Along every run the recorded phase of the root counts the stage calls made so far |
| `StageProtocol.ReturnPhase` | Tools/EmbeddedApplicationMacros/initialization_interval.py:335-336 | A root return is accepted only when the phase is not two |
| `StageWitness.OneJumpTwoPhases` | Tools/EmbeddedApplicationMacros/initialization_interval.py:344-361 | A jump with the first two stages as destinations, visited in ascending order, advances the phase by two |
| `StageWitness.StageSkipped` | Tools/EmbeddedApplicationMacros/initialization_interval.py:258-262 | The analysis the engine leaves for a staged root (`StageAnalysed`) has an in-scope run that reaches the stop point after hook and end, without begin |
| `StageWitness.StageAnalysed` | Tools/EmbeddedApplicationMacros/initialization_interval.py:356-361 | Asked about that seeded and staged root a fresh engine answers zero and leaves exactly that analysis |
| `CallGraph.CheckAcyclic` | Tools/EmbeddedApplicationMacros/initialization_interval.py:540-553 | The memoised depth-first search succeeds if and only if the recorded call graph has no directed cycle |
| `CallGraph.Visit` | Tools/EmbeddedApplicationMacros/initialization_interval.py:540-547 | One visit either completes a set of nodes closed under edges and free of cycles, or a cycle exists |
| `CallGraph.SearchedExtends` | Tools/EmbeddedApplicationMacros/initialization_interval.py:545-547 | Completing a node all of whose targets are complete adds no cycle |
| `AbstractValues.ArithmeticCovers` | Tools/EmbeddedApplicationMacros/initialization_interval.py:45-51 | Every concrete result of two words outside the stack is in the abstract result, also when more than 32 values collapse to the unknown value |
| `AbstractValues.AluCovers` | Tools/EmbeddedApplicationMacros/initialization_interval.py:460-497 | Two-register operations, also on a stack address when the other operand is unknown |
| `AbstractValues.AluImmediateCovers` | Tools/EmbeddedApplicationMacros/initialization_interval.py:473-497 | Immediate shifts, or, xor and comparisons with a signed immediate |
| `AbstractValues.AddImmediateCovers` | Tools/EmbeddedApplicationMacros/initialization_interval.py:458-459 | Immediate adds follow words modulo 2^32 and stack addresses exactly |
| `AbstractValues.MaskCovers` | Tools/EmbeddedApplicationMacros/initialization_interval.py:464-469 | Masking with an immediate keeps the concrete result in the set |
| `AbstractValues.SmallMaskCovers` | Tools/EmbeddedApplicationMacros/initialization_interval.py:470-471 | An unknown operand under a mask of at most 31 yields a listed sub-mask |
| `AbstractValues.JumpTargetCovers` | Tools/EmbeddedApplicationMacros/initialization_interval.py:323-323 | The computed jump destination is in the abstract one, low bit cleared after wrap-around |
| `AbstractValues.UnionAbove` | Tools/EmbeddedApplicationMacros/initialization_interval.py:38-42 | The union is above both operands |
| `StepCoverage.LoadCovers` | Tools/EmbeddedApplicationMacros/initialization_interval.py:426-440 | A load of one, two or four bytes: what the machine reads is in the value recorded, from a tracked word or from the one read-only section that contains the address |
| `StepCoverage.ExtendedCovers` | Tools/EmbeddedApplicationMacros/initialization_interval.py:437-439 | Sign and zero extension of a narrow load act on the recorded values as on the machine word |
| `StepCoverage.ExecuteLoadCovers` | Tools/EmbeddedApplicationMacros/initialization_interval.py:413-440 | Word, halfword and byte loads leave the machine described |
| `StepCoverage.LinkedIsIntact` | Tools/EmbeddedApplicationMacros/initialization_interval.py:191-196 | A memory that holds the bytes of every read-only section reads back whatever the engine reads, at every width |
| `StepCoverage.StoreCovers` | Tools/EmbeddedApplicationMacros/initialization_interval.py:441-449 | After a store every remaining stack fact still holds of memory: a known slot holds the stored value, and an untracked store may hit slots of unknown content |
| `StepCoverage.RefineBranchCovers` | Tools/EmbeddedApplicationMacros/initialization_interval.py:515-527 | Branch refinement never drops a pair of values that takes the edge, on either edge |
| `StepCoverage.RefineZeroCovers` | Tools/EmbeddedApplicationMacros/initialization_interval.py:507-514 | Refinement of compressed zero tests never drops the value that takes the edge |
| `StepCoverage.ExecuteRegsCovers` | Tools/EmbeddedApplicationMacros/initialization_interval.py:450-500 | Every modelled non-store instruction leaves machine registers described by the abstract ones |
| `StepCoverage.ExecuteStoreCovers` | Tools/EmbeddedApplicationMacros/initialization_interval.py:413-449 | A word store leaves registers and tracked slots described |
| `JumpCoverage.JumpAllHandles` | Tools/EmbeddedApplicationMacros/initialization_interval.py:345-412 | When the loop over destinations ends, each destination has been given its own target, callee bound and register effects |
| `Machine.StepKeepsValid` | Tools/EmbeddedApplicationMacros/initialization_interval.py:320-324 | The concrete machine keeps a 32-register file of 32-bit words with x0 zero |
| `Words.AndWordMask` | Tools/EmbeddedApplicationMacros/initialization_interval.py:464-469 | The conjunction with a signed immediate agrees with the 32-bit mask it encodes to |
| `Words.LoadAfterStore` | Tools/EmbeddedApplicationMacros/initialization_interval.py:441-449 | A stored word is read back, address wrap-around included |
| `Words.LoadAfterStoreApart` | Tools/EmbeddedApplicationMacros/initialization_interval.py:441-449 | A word that shares no byte with the stored one is unchanged |
| `FrameWalker.AnalyzeFrame` | Tools/EmbeddedApplicationMacros/first_init_stack.py:251-310 | On every non-empty body the search ends; no issue is reported if and only if the body is laid out without gaps, every reachable instruction is understood, every reachable exit is at delta 0, every walk returning to an instruction has net change 0 and some exit is reachable; frameBytes is then the greatest drop over all walks and always a drop some walk attains; the exits counted for a clean report are the exits walks reach |
| `FrameWalker.NoMovingCycle` | Tools/EmbeddedApplicationMacros/first_init_stack.py:301-307 | A finite closed set of visited pairs excludes any reachable cycle that moves sp, also cycles the search itself never went round |
| `FrameWalker.Pump` | Tools/EmbeddedApplicationMacros/first_init_stack.py:301-307 | Going round a cycle k times moves sp by k times its net change |
| `FrameWalker.WithinUniverse` | Tools/EmbeddedApplicationMacros/first_init_stack.py:269-273 | Paths that repeat no instruction reach only pairs of a fixed finite set, whatever the body does to sp |
| `FrameWalker.DeltaBounded` | Tools/EmbeddedApplicationMacros/first_init_stack.py:285-286 | The stack change of a walk is bounded by its length times the largest single move |
| `FrameWalker.Expand` | Tools/EmbeddedApplicationMacros/first_init_stack.py:301-307 | Each successor is queued, already seen, or reported; a report always has a faulty walk behind it |
| `FrameWalker.MovingCycleFaulty` | Tools/EmbeddedApplicationMacros/first_init_stack.py:303-305 | A reported stack-changing cycle is a real walk that comes back with another delta |
| `FrameWalker.SearchAdvances` | Tools/EmbeddedApplicationMacros/first_init_stack.py:269-307 | One popped pair folded into the search keeps every claim about seen pairs, exits and the least delta |
| `FrameWalker.SearchComplete` | Tools/EmbeddedApplicationMacros/first_init_stack.py:308-310 | An empty worklist means everything reachable was looked at |
| `FrameWalker.CheckLayout` | Tools/EmbeddedApplicationMacros/first_init_stack.py:262-268 | Layout issues are reported exactly for duplicate addresses, a wrong first address or a gap |
| `FrameWalker.NextDecoded` | Tools/EmbeddedApplicationMacros/first_init_stack.py:189-248 | Every successor is a decoded instruction of the body |
| `FrameFlow.NextExact` | Tools/EmbeddedApplicationMacros/first_init_stack.py:189-248 | From an understood instruction the walker goes exactly to its target in the body, if it is a jump, a branch or a `jal x0`, and to the contiguous next instruction, if it is a branch, a linking call or linear |
| `FrameFlow.MovesExact` | Tools/EmbeddedApplicationMacros/first_init_stack.py:159-180 | An understood instruction moves sp by its immediate when it writes sp and not at all otherwise |
| `FrameFlow.ExitsExact` | Tools/EmbeddedApplicationMacros/first_init_stack.py:193-211 | An understood instruction is an exit exactly when it is a return, `jr ra`, a known `jr t0` or a direct jump out of the body |
| `FrameFlow.UnderstoodExact` | Tools/EmbeddedApplicationMacros/first_init_stack.py:189-248 | Exactly when an instruction is understood: sp changes by an immediate only, the link register is not written, and control goes to known places or a known exit |
| `FrameFlow.LaidMeans` | Tools/EmbeddedApplicationMacros/first_init_stack.py:262-268 | Exactly when there is no layout issue: right start, distinct addresses, no gap |
| `FrameFlow.CleanMeans` | Tools/EmbeddedApplicationMacros/first_init_stack.py:251-309 | Exactly when a report is clean, spelled out over all walks: layout, understood instructions, sp restored on exits, no moving cycle, some exit |
| `FrameFlow.SinkingReported` | Tools/EmbeddedApplicationMacros/first_init_stack.py:298-305 | A concrete loop whose backward jump lowers sp by 16 each time round gets an issue |
| `FrameExits.LeavesOrLinks` | Tools/EmbeddedApplicationMacros/first_init_stack.py:189-248 | Whatever is understood and may leave the body is an exit for the walker or a `jal x0` to the outside, never both |
| `FrameExits.LeavesRestored` | Tools/EmbeddedApplicationMacros/first_init_stack.py:189-248 | A clean body is left with sp restored on every way out if and only if it is on every such `jal x0`, so always when none is reachable |
| `FrameExits.SilentExit` | Tools/EmbeddedApplicationMacros/first_init_stack.py:209-213 | A clean report on a body that a `jal x0` leaves 16 bytes down |
| `Disassembly.Sweep` | Tools/EmbeddedApplicationMacros/first_init_stack.py:122-136 | The sweep with a heap of endings gives each function exactly what a naive scan gives it: each decoded instruction of its extent as often as it was decoded, in address order, those of one address in the order they were read |
| `Disassembly.SweepOne` | Tools/EmbeddedApplicationMacros/first_init_stack.py:126-134 | After opening what has started and closing what has ended, one instruction is given to exactly the extents that hold it |
| `Disassembly.Push` | Tools/EmbeddedApplicationMacros/first_init_stack.py:127-130 | Every function that has started is open, and the heap holds exactly the endings of the open ones |
| `Disassembly.Pop` | Tools/EmbeddedApplicationMacros/first_init_stack.py:131-133 | What stays open is exactly what still holds the address |
| `Disassembly.ScanSorted` | Tools/EmbeddedApplicationMacros/first_init_stack.py:135-136 | Scanning the sorted listing equals sorting the scanned one |
| `Disassembly.ScanMeans` | Tools/EmbeddedApplicationMacros/first_init_stack.py:126-136 | The same said of the naive scan, sorted |
| `Disassembly.SortedAt` | Tools/EmbeddedApplicationMacros/first_init_stack.py:126-136 | Sorting leaves instructions of one address in the order they were read |
| `ElfBinding.ValidateLinkedInputs` | Tools/EmbeddedApplicationMacros/first_init_stack.py:637-690 | A listing is accepted if and only if every listed symbol is one of the image, every function at the address of an in-image symbol has the largest extent there and passes its checks, and no other function claims code. So in an accepted listing every function that claims code has a function symbol of the image at its start with its size, inside one section, and its sorted encodings are the bytes of that section over the whole extent |
| `ElfBinding.AcceptedIsImage` | Tools/EmbeddedApplicationMacros/first_init_stack.py:655-690 | An accepted in-image function has the largest extent at its address, and its instructions in address order tile the extent and concatenate to the bytes the image holds there |
| `ElfBinding.AcceptedClaim` | Tools/EmbeddedApplicationMacros/first_init_stack.py:655-690 | The same for one accepted function that claims code, whether or not it was known to be placed |
| `ImageMeaning.ValidMeans` | Tools/EmbeddedApplicationMacros/first_init_stack.py:649-664 | What is asked of one function, in addresses and sizes: without a function symbol of the image at its start it must not claim code; with one it must have the largest size there and pass the checks |
| `ImageMeaning.BoundMeans` | Tools/EmbeddedApplicationMacros/first_init_stack.py:670-679 | An instruction is accepted exactly when one and only one section holds it, byte j there is digit j of the printed value in base 256, and nothing of the value is left |
| `ImageMeaning.ByteMeans` | Tools/EmbeddedApplicationMacros/first_init_stack.py:678-679 | The byte at place j of a printed encoding is digit j of its value in base 256, lowest first |
| `ImageMeaning.TilesMeans` | Tools/EmbeddedApplicationMacros/first_init_stack.py:680-690 | Tiling: the first starts the extent, each ends where the next starts, the last ends the extent |
| `ImageMeaning.SizeMeans` | Tools/EmbeddedApplicationMacros/first_init_stack.py:120-120 | An encoding has one byte for two hex digits; a line without one counts four bytes |
| `ElfBinding.ValidateFunction` | Tools/EmbeddedApplicationMacros/first_init_stack.py:665-690 | Accepted exactly when no address repeats, every instruction is bound to one section, and the sorted instructions tile the extent |
| `ElfBinding.CheckBytes` | Tools/EmbeddedApplicationMacros/first_init_stack.py:670-679 | Accepted exactly when one and only one executable section holds the instruction and has its printed encoding there in little-endian order |
| `ElfBinding.TilesSpell` | Tools/EmbeddedApplicationMacros/first_init_stack.py:680-690 | Bound instructions laid end to end inside a section spell its bytes |
| `ElfBinding.TilesOnce` | Tools/EmbeddedApplicationMacros/first_init_stack.py:680-690 | Every address of a tiled extent lies in one instruction and no other |
| `ElfBinding.LittleEndianValue` | Tools/EmbeddedApplicationMacros/first_init_stack.py:678-679 | The compared bytes determine the printed value |
| `ElfBinding.Extents` | Tools/EmbeddedApplicationMacros/first_init_stack.py:649-653 | For each address the largest in-image function symbol, and no other address |
| `Ranges.MergedBytes` | Tools/EmbeddedApplicationMacros/linked_storage_audit.py:203-213 | For proper ranges in any order and overlap, the number of addresses in their union |
| `Ranges.MeasureNext` | Tools/EmbeddedApplicationMacros/linked_storage_audit.py:206-212 | What one more range in start order adds to the measure |
| `Ranges.IntersectionsMeasure` | Tools/EmbeddedApplicationMacros/linked_storage_audit.py:340-341 | All pairwise intersections cover exactly the intersection of the two unions |
| `Ranges.SymbolBytesInside` | Tools/EmbeddedApplicationMacros/linked_storage_audit.py:339-341 | Symbol bytes inside the object measure the intersection of the unions and never exceed the conservative debit |
| `Ranges.CheckCoverage` | Tools/EmbeddedApplicationMacros/linked_storage_audit.py:273-287 | A non-empty section with a matching output row is accepted if and only if every input lies inside it and every byte of it belongs to some input |
| `Ranges.SortedOrdered` | Tools/EmbeddedApplicationMacros/linked_storage_audit.py:281-281 | Sorting orders by start and stop and keeps the multiset |
| `SymbolConflicts.Sweep` | Tools/EmbeddedApplicationMacros/linked_storage_audit.py:235-242 | The sweep with an active list reports exactly what comparing every pair of a sorted group reports, in the same order |
| `SymbolConflicts.ConflictingOverlaps` | Tools/EmbeddedApplicationMacros/linked_storage_audit.py:229-243 | Grouping, sorting and sweeping gives the conflicts of every section in order of first appearance |
| `SymbolConflicts.ArrangedOrdered` | Tools/EmbeddedApplicationMacros/linked_storage_audit.py:235-235 | A group is sorted by start, then stop, then name, and keeps its symbols |
| `SymbolConflicts.NameOrder` | Tools/EmbeddedApplicationMacros/linked_storage_audit.py:235-235 | Names compare as text: a prefix first, otherwise by the first different character |
| `SymbolConflicts.ReportExact` | Tools/EmbeddedApplicationMacros/linked_storage_audit.py:238-242 | A pair is reported if and only if both symbols are in one section, their ranges differ and share a byte, and the left one starts first, or starts with it and ends no later |
| `SymbolConflicts.EmptyReportIsClean` | Tools/EmbeddedApplicationMacros/linked_storage_audit.py:251-253 | The report is empty if and only if no two symbols of a section overlap without equal ranges |
| `SymbolConflicts.TouchShares` | Tools/EmbeddedApplicationMacros/linked_storage_audit.py:237-240 | The comparison used is the existence of a shared byte |
| `SymbolConflicts.JoinInventory` | Tools/EmbeddedApplicationMacros/linked_storage_audit.py:511-537 | A symbol is charged its size unless an earlier one has its section name, address and size. The joined union is the number of bytes covered, told apart by section name. The charges sum to at least that, and to exactly that if and only if no two ranges under one section name overlap without being equal |
| `SymbolConflicts.JoinedCounts` | Tools/EmbeddedApplicationMacros/linked_storage_audit.py:530-537 | Measuring the ranges section name by section name counts each covered byte once |
| `SymbolConflicts.ChargedIsJoined` | Tools/EmbeddedApplicationMacros/linked_storage_audit.py:514-537 | The same statement for the specification functions |
| `SymbolConflicts.CleanReportCharges` | Tools/EmbeddedApplicationMacros/linked_storage_audit.py:251-253 | With one section per name an empty conflict report makes the charges of any joined symbols equal the joined union |
| `SymbolConflicts.TwoSectionsOneName` | Tools/EmbeddedApplicationMacros/linked_storage_audit.py:229-234 | A concrete pair of symbols in two sections of one name passes the conflict report and is charged more than the union |
| `Padding.Charge` | Tools/EmbeddedApplicationMacros/linked_storage_audit.py:291-310 | The repeated passes end with the least set of rows that holds the object own sized rows and is closed under adjacent fill rows: exactly the rows at the end of a chain that starts at such a row and goes on through fill touching the row before at either end. So fill on both sides of an own row is charged |
| `Padding.ChargedByChain` | Tools/EmbeddedApplicationMacros/linked_storage_audit.py:297-310 | The least closed set is what those chains reach |
| `Padding.Pass` | Tools/EmbeddedApplicationMacros/linked_storage_audit.py:301-310 | One pass adds only rows every closed set has, and leaves the selection alone only when it is closed |
| `Padding.OrderIndependent` | Tools/EmbeddedApplicationMacros/linked_storage_audit.py:297-310 | Listing the same rows in another order selects the same rows |
| `CarrierReport.WriteLine` | Transports/zenoh-pico/main/zenoh_carrier_report.c:86-121 | For any sequence of report calls with results ignored: a line is emitted if and only if the buffer exists, no key or escaped string has a control character and the unbounded text with its terminator fits; the buffer then holds exactly that text and a NUL |
| `CarrierReport.LineMeans` | Transports/zenoh-pico/main/zenoh_carrier_report.c:69-121 | How one more call shows in the line: behind a comma unless it is the first, the quoted escaped key, a colon, and the quoted text, the digits or the raw text, before the closing brace |
| `CarrierReport.RefusedMeans` | Transports/zenoh-pico/main/zenoh_carrier_report.c:35-52 | A line is refused for a character before the space in a key or a quoted text, and for nothing else |
| `CarrierReport.Sink.End` | Transports/zenoh-pico/main/zenoh_carrier_report.c:115-121 | The same statement for the closing call |
| `CarrierReport.Sink.KeyString` | Transports/zenoh-pico/main/zenoh_carrier_report.c:97-103 | A string member is appended to the unbounded text; the result says whether the line can still be emitted |
| `CarrierReport.Sink.KeyUnsigned` | Transports/zenoh-pico/main/zenoh_carrier_report.c:105-108 | An unsigned member, likewise |
| `CarrierReport.Sink.KeyRaw` | Transports/zenoh-pico/main/zenoh_carrier_report.c:110-113 | A verbatim member, likewise |
| `CarrierReport.Sink.KeyPrefix` | Transports/zenoh-pico/main/zenoh_carrier_report.c:69-84 | Separator and escaped key; overflow is sticky and the first flag is right even after it |
| `CarrierReport.Sink.AppendEscaped` | Transports/zenoh-pico/main/zenoh_carrier_report.c:35-52 | Escapes quotes and backslashes; a control character refuses the line |
| `CarrierReport.CollectDigits` | Transports/zenoh-pico/main/zenoh_carrier_report.c:54-60 | Ten places hold the digits of every 32-bit number, least significant first |
| `CarrierReport.LineReadsBack` | Transports/zenoh-pico/main/zenoh_carrier_report.c:31-34 | A line without refusal parses to exactly the keys and values the calls gave, raw members included when they are written values |
| `JsonText.UnescapeEscape` | Transports/zenoh-pico/main/zenoh_carrier_report.c:35-52 | Reading a string (section 7 of RFC 8259) undoes the escaping, whatever follows |
| `JsonText.ParseWrite` | Transports/zenoh-pico/main/zenoh_carrier_report.c:86-121 | A written value of strings, numbers and nested objects parses to itself |
| `JsonText.NumberRead` | Transports/zenoh-pico/main/zenoh_carrier_report.c:54-67 | Decimal digits read back as the number and stop where it stops |
| `JsonText.TenDigits` | Transports/zenoh-pico/main/carrier_diagnostics.c:191-193 | A 32-bit number has at most ten digits |
| `CounterReport.WriteJson` | Transports/zenoh-pico/main/carrier_diagnostics.c:201-236 | With a buffer of the declared capacity the whole object is written and terminated, and below it nothing is touched |
| `CounterReport.CapacityIsExact` | Transports/zenoh-pico/main/carrier_diagnostics.c:183-199 | Every report with its terminator fits the declared capacity, and the report of saturated counters fills it |
| `CounterReport.CountersReadBack` | Transports/zenoh-pico/main/carrier_diagnostics.c:201-236 | The report parses back to the same twelve values, each under its own name, in order |
| `CounterReport.CountersSpelled` | Transports/zenoh-pico/main/carrier_diagnostics.c:169-231 | The report spelled out character by character: names, digits, commas and braces |
| `CounterReport.JsonSink.Append` | Transports/zenoh-pico/main/carrier_diagnostics.c:132-147 | Appends whole or overflows and stays overflowed |
| `CounterReport.JsonSink.AppendUnsigned` | Transports/zenoh-pico/main/carrier_diagnostics.c:149-165 | Appends the decimal digits |
| `CarrierCounters.AddsAreLinear` | Transports/zenoh-pico/main/carrier_diagnostics.c:57-68 | Over every interleaving of compare-and-swap loops, with spurious failures, the counter is the saturated sum of the finished increments |
| `CarrierCounters.PeakIsMaximum` | Transports/zenoh-pico/main/carrier_diagnostics.c:107-118 | Over every interleaving of gauge updates the peak is at least every settled value and is itself the start or a value being set |
| `CarrierCounters.Note` | Transports/zenoh-pico/main/carrier_diagnostics.c:96-100 | One counter rises by one, saturating; no other field changes |
| `CarrierCounters.NoteMeans` | Transports/zenoh-pico/main/carrier_diagnostics.c:75-100 | Each metric names its own counter, which rises by one and stops at 2^32 - 1 |
| `KeyExpression.IsValid` | Transports/zenoh-pico/main/ZenohCarrier.swift:184-227 | The index scanner accepts exactly the documented grammar, in both modes |
| `KeyExpression.ScanMatchesGrammar` | Transports/zenoh-pico/main/ZenohCarrier.swift:163-172 | A byte string is scanned successfully if and only if it is a slash-separated list of well-formed chunks |
| `KeyExpression.PublicationIsWildcardFree` | Transports/zenoh-pico/main/ZenohCarrier.swift:174-182 | Publication keys are exactly the subscription keys with neither star nor dollar |
| `KeyExpression.SubscriptionPlaces` | Transports/zenoh-pico/main/ZenohCarrier.swift:163-172 | Subscription keys byte by byte: no stretch between separators is empty, and each is `*`, `**`, or has no `#` or `?`, `$` only before `*` and not right behind a `$*`, and `*` only behind `$` |
| `KeyExpression.PublicationPlaces` | Transports/zenoh-pico/main/ZenohCarrier.swift:163-182 | Publication keys byte by byte: not empty, no separator at an end or beside another, and no `#`, `?`, `*` or `$` |
| `KeyExpression.ChunkIsValid` | Transports/zenoh-pico/main/ZenohCarrier.swift:203-227 | One chunk: the index loop agrees with the recursive reading |
| `ZenohCarrier.Carrier.Poll` | Transports/zenoh-pico/main/ZenohCarrier.swift:584-643 | A poll serves the pending frame before asking the facade; otherwise it asks the active slots round-robin until one stops it. Not-open gives closed; a drop notice or another failure gives failed; a frame is handed over exactly when its key is not empty and both parts fit, and kept otherwise; frames pulled equal frames delivered in order plus the pending one. Received, dropped, oversized, error and session-failure counters rise exactly by what the answers say |
| `ZenohCarrier.Carrier.PollFacade` | Transports/zenoh-pico/main/ZenohCarrier.swift:600-643 | The part that reaches the facade: one turn is recorded, a pulled frame is delivered or retained, and outcome, cursor and counters follow from the answer that stops it, answer by answer |
| `ZenohCarrier.Carrier.AskRound` | Transports/zenoh-pico/main/ZenohCarrier.swift:603-641 | The round that ends a poll is the first whose active slot answers other than empty or too large; the cursor stands at that slot, and each oversized notice on the way is counted |
| `ZenohCarrier.Carrier.AskUntil` | Transports/zenoh-pico/main/ZenohCarrier.swift:603-641 | The loop over the slots: the cursor, the stopping answer and the counters after the rounds before it |
| `ZenohCarrier.Carrier.AskSlot` | Transports/zenoh-pico/main/ZenohCarrier.swift:604-641 | One round: the cursor moves on by one slot, and an active slot is asked |
| `ZenohCarrier.Carrier.NotePollOutcome` | Transports/zenoh-pico/main/ZenohCarrier.swift:114-130 | Which counters one answer without a frame moves |
| `ZenohCarrier.Carrier.CopyPendingFrame` | Transports/zenoh-pico/main/ZenohCarrier.swift:645-678 | A frame whose key is not empty and fits is handed over and counted when its payload fits too; any other is kept, uncounted |
| `ZenohCarrier.Carrier.Connect` | Transports/zenoh-pico/main/ZenohCarrier.swift:377-412 | Opens only from idle or disconnected; a refused open leaves the phase alone; opens and refusals are counted |
| `ZenohCarrier.Carrier.Subscribe` | Transports/zenoh-pico/main/ZenohCarrier.swift:419-457 | Exactly when it succeeds, that the first free slot takes exactly that key, without duplicates, and that the gauge shows the slots in use or a failure is counted |
| `ZenohCarrier.Carrier.Declare` | Transports/zenoh-pico/main/ZenohCarrier.swift:441-449 | The declared key takes the first free slot, the phase becomes subscribed and the gauge follows |
| `ZenohCarrier.Carrier.Unsubscribe` | Transports/zenoh-pico/main/ZenohCarrier.swift:464-489 | Exactly when it succeeds, that exactly the slot of that key is cleared, and that the gauge follows or a failure is counted |
| `ZenohCarrier.Carrier.Publish` | Transports/zenoh-pico/main/ZenohCarrier.swift:497-530 | Exactly when it succeeds; every attempt and failure is counted, saturating, and a failure of an admitted publish as a session failure too |
| `ZenohCarrier.Carrier.WaitForReconnect` | Transports/zenoh-pico/main/ZenohCarrier.swift:689-736 | Succeeds exactly when the session is subscribed and a router is counted at once, or later in time after nothing but silence; recoveries never exceed observed losses, and the counter shows them |
| `ZenohCarrier.Carrier.ObserveRouters` | Transports/zenoh-pico/main/ZenohCarrier.swift:695-706 | A loss is remembered once and its recovery counted once |
| `ZenohCarrier.Carrier.Disconnect` | Transports/zenoh-pico/main/ZenohCarrier.swift:743-769 | Clears slots, pending frame, router flags, cursor and gauge whatever the facade answers; the close and each refused removal are counted |
| `ZenohCarrier.Carrier.FindSlot` | Transports/zenoh-pico/main/ZenohCarrier.swift:326-339 | An active slot with exactly the key, if and only if there is one |
| `ZenohCarrier.BoundedBypass` | Transports/zenoh-pico/main/ZenohCarrier.swift:603-606 | While a slot stays active and is not polled, at most seven polls that stop elsewhere happen, whatever other slots come and go |
| `ZenohCarrier.BypassShrinks` | Transports/zenoh-pico/main/ZenohCarrier.swift:603-606 | Each such poll brings the cursor strictly closer to the slot |
| `MqttEvents.MessageDecidedOnce` | Transports/mqtt-espidf/main/mqtt_event_validation.c:5-26 | However a message is cut, empty pieces, a topic-only first event and a lost end included: it is accepted once with its own topic and payload, counted oversized once, or neither, and neither if and only if it has no topic or is whole, in bounds and reported without a payload pointer |
| `MqttEvents.StreamAccounted` | Transports/mqtt-espidf/main/mqtt_event_validation.c:9-25 | Over a stream, the accepted frames are the admissible messages in order, and every other message is counted oversized once unless it is one of those |
| `MqttEvents.ContinuationsDiscarded` | Transports/mqtt-espidf/main/mqtt_event_validation.c:9-11 | Events behind the first are never accepted nor counted, at offset zero too |
| `MqttEvents.EmptyWithoutPointer` | Transports/mqtt-espidf/main/mqtt_event_validation.c:23-24 | An empty message without a payload pointer is neither accepted nor counted; the same message with one is accepted |
| `MqttEvents.TopicAlone` | Transports/mqtt-espidf/main/mqtt_event_validation.c:19-22 | A topic-only first event followed by the payload at offset zero is counted once |
| `MqttEvents.VerdictMeans` | Transports/mqtt-espidf/main/mqtt_event_validation.c:5-26 | Exactly which data events are accepted and which are counted oversized |
| `FilterTable.Table.Add` | Transports/mqtt-espidf/main/mqtt_carrier_espidf.c:285-303 | Adds the topic up to its first NUL at the end, keeps an existing entry, refuses a new topic when four are held; while no topic with an embedded NUL was added the table is duplicate-free, whatever calls were made |
| `FilterTable.Table.Remove` | Transports/mqtt-espidf/main/mqtt_carrier_espidf.c:326-350 | Removes the first match, keeps the order of the others and stays duplicate-free |
| `FilterTable.Table.ShiftDown` | Transports/mqtt-espidf/main/mqtt_carrier_espidf.c:343-345 | The in-place compaction over the removed entry |
| `FilterTable.AddedDistinct` | Transports/mqtt-espidf/main/mqtt_carrier_espidf.c:290-301 | The table stays duplicate-free if and only if the stored truncation is new or nothing is stored; always for NUL-free topics (section 1.5.3 of MQTT 3.1.1) |
| `FilterTable.TruncationDuplicates` | Transports/mqtt-espidf/main/mqtt_carrier_espidf.c:290-301 | A concrete topic with an embedded NUL is stored twice when added twice |
| `FilterTable.RemovedDistinct` | Transports/mqtt-espidf/main/mqtt_carrier_espidf.c:341-349 | Removing keeps the table duplicate-free and removes nothing else |
| `FilterTable.RemoveUndoesAdd` | Transports/mqtt-espidf/main/mqtt_carrier_espidf.c:285-350 | Unsubscribing a newly subscribed topic restores the table |
| `MqttCarrier.Carrier.ConnectWait` | Transports/mqtt-espidf/main/mqtt_carrier_espidf.c:219-277 | Exactly when it succeeds and what it leaves of the shared state, for every interleaving of event steps; success sets the baseline to the connect count, a failed wait leaves no live client |
| `MqttCarrier.Carrier.ReconnectWait` | Transports/mqtt-espidf/main/mqtt_carrier_espidf.c:385-405 | Exactly when it succeeds: at its last loads both bits are up and the count has passed the baseline. Success raises the baseline by one; queue, overflow bit and histories change only by the event steps met |
| `MqttCarrier.Carrier.SubscribeWait` | Transports/mqtt-espidf/main/mqtt_carrier_espidf.c:279-316 | The topic is reserved even when the wait fails; succeeds exactly when one more acknowledgement than before was counted; queue, overflow bit and histories change only by the event steps met |
| `MqttCarrier.Carrier.Unsubscribe` | Transports/mqtt-espidf/main/mqtt_carrier_espidf.c:318-353 | Exactly when it succeeds, and the table afterwards |
| `MqttCarrier.Carrier.Poll` | Transports/mqtt-espidf/main/mqtt_carrier_espidf.c:407-428 | A raised overflow bit is reported and cleared before anything else; then the outcome is not connected, no frame, delivered or refused, exactly by what each look sees, and what is left of the shared state follows; an unreported drop stays until a poll refuses |
| `MqttCarrier.Carrier.Receive` | Transports/mqtt-espidf/main/mqtt_carrier_espidf.c:419-427 | The oldest queued frame is delivered when it fits and refused otherwise, consumed either way |
| `MqttCarrier.Carrier.OnData` | Transports/mqtt-espidf/main/mqtt_carrier_espidf.c:144-180 | An accepted event is queued, or dropped with the overflow bit raised; an oversized one is counted; any other changes nothing. The callback is the stated sequence of event-task steps |
| `MqttCarrier.Carrier.OnStream` | Transports/mqtt-espidf/main/mqtt_carrier_espidf.c:144-180 | A whole stream of fragmented messages: the accepted frames grow by the admissible messages in order, the oversized count by all the others except those neither accepted nor counted |
| `MqttCarrier.Carrier.OnEvents` | Transports/mqtt-espidf/main/mqtt_carrier_espidf.c:144-180 | Any data events in order: the accepted frames are those the accepted events carry, each oversized event is counted |
| `MqttCarrier.Carrier.OnDisconnected` | Transports/mqtt-espidf/main/mqtt_carrier_espidf.c:134-135 | Takes the connected and the subscribed bit down together and changes nothing else |
| `MqttCarrier.Carrier.OnConnected` | Transports/mqtt-espidf/main/mqtt_carrier_espidf.c:117-133 | Raises the connected bit and counts. Clears acknowledgements, lowers the subscribed bit and renews every filter exactly when the connections since the count was cleared, this one included, are above one modulo 2^32; otherwise renews nothing |
| `MqttCarrier.Carrier.OnSubscribed` | Transports/mqtt-espidf/main/mqtt_carrier_espidf.c:136-143 | The acknowledgement is counted modulo 2^32 and the subscribed bit goes up exactly when there is a filter and the count has reached the number of filters; nothing else changes |
| `MqttCarrier.Acknowledge` | Transports/mqtt-espidf/main/mqtt_carrier_espidf.c:136-143 | From a lowered bit and a cleared count, the bit is up after some acknowledgements exactly when there were at least as many as filters |
| `MqttCarrier.Carrier.Disconnect` | Transports/mqtt-espidf/main/mqtt_carrier_espidf.c:434-444 | Ends the session whatever the client answers; a raised overflow bit stays |
| `MqttCarrier.Carrier.ResetState` | Transports/mqtt-espidf/main/mqtt_carrier_espidf.c:95-102 | No filter, acknowledgement, baseline, connection or queued frame is left |
| `MqttCarrier.Carrier.Prepare` | Transports/mqtt-espidf/main/mqtt_carrier_espidf.c:450-463 | The queue exists and is empty, and no filter is left |
| `MqttCarrier.Carrier.Interrupt` | Transports/mqtt-espidf/main/mqtt_carrier_espidf.c:114-181 | Any number of event-task steps have exactly their combined effect, keep the accounting and the pacing, add only behind what is queued and never touch the API state |
| `MqttCarrier.SuccessesBounded` | Transports/mqtt-espidf/main/mqtt_carrier_espidf.c:385-405 | Successful reconnect waits never exceed the connections made since the session was established |
| `MqttCarrier.InboundBalance` | Transports/mqtt-espidf/main/mqtt_carrier_espidf.c:161-180 | Accepted frames are those delivered in order, refused for capacity, queued, and dropped on a full queue |
| `MqttCarrier.EffectsGrow` | Transports/mqtt-espidf/main/mqtt_carrier_espidf.c:114-181 | Event-task steps never take a queued frame, an accepted frame, an unreported drop or a raised overflow bit away |
| `MqttCarrier.SecondConnect` | Transports/mqtt-espidf/main/mqtt_carrier_espidf.c:235-239 | A connect on a live client whose identification fails: baseline and connect count still agree if and only if the events after the clearing reach the old baseline |
| `MqttCarrier.StaleBaseline` | Transports/mqtt-espidf/main/mqtt_carrier_espidf.c:390-403 | From a fresh carrier, through the callbacks: connect, subscribe, fail a second connect, lose the connection and get it back. Nothing is renewed, and with the filter subscribed again and both bits up a reconnect wait fails |
| `MqttCarrier.ExpectedWraps` | Transports/mqtt-espidf/main/mqtt_carrier_espidf.c:393-402 | After 2^32 - 2 reconnects, each with a successful wait, one more wait succeeds without a connection: successes outnumber reconnects |
| `MqttCarrier.CountWraps` | Transports/mqtt-espidf/main/mqtt_carrier_espidf.c:118-119 | 2^32 - 1 reconnects from a fresh carrier: the count is zero, the last callback renews nothing, and with the filter subscribed again a reconnect wait fails although none has succeeded |
| `MqttCarrier.RenewalWraps` | Transports/mqtt-espidf/main/mqtt_carrier_espidf.c:118-131 | The CONNECTED event behind the wrap renews nothing either |

## Left out

- Instructions whose result the engine leaves unknown (arithmetic right shift, multiply, divide, remainder, negate,
  not, zero tests, control registers, atomics) are one instruction with an unknown result. Narrow stores are not
  modelled, because the engine keeps an untruncated value for them; so no stack fact is narrower than a word.
- `skip_calls`, `summaries` effects, exported return values and the byte-copy effect of the pinned ROM routine are
  not modelled; `summaries` only decides which calls are inlined.
- Symbol names, paths and reports of the engine (`maximum_path`, `dispatches`, `accesses`, `stage_sites`) are left
  out; recognised functions are given as sets of addresses.
- StackBound.StackBounded: says nothing about the configuration at a stop point, whose depth the engine does not add
  to the maximum.
- IntervalEngine.Engine.Analyze: a refusal has a reason, but a reason need not lead to a refusal, because transfers
  are not monotone; after a refusal the list of active addresses is left as the exception left it.
- StageProtocol.StagesInOrder: is for direct stage calls, see above; no claim that a run gets past the first stage.
- FrameWalker.AnalyzeFrame: issues are a set of kinds with addresses instead of sorted text; operand text is parsed
  before the model starts.
- Regular expressions, ELF headers and symbol strings are not modelled: instructions, sections, symbols and map rows
  are the inputs.
- ElfBinding.CheckBytes: an encoding that does not fit its byte count is a refusal here; the code leaves with an
  overflow error.
- Disassembly.Sweep: the heap is a finite set from which the least ending is taken; aliases share the list of their
  function and are not modelled.
- Padding.Charge: rows are identified by their place in the list, as the code identifies them by object.
- Manifest checks and budgets compare one field after another and are left out; hashing, command lines, evidence
  files and the Wi-Fi, NVS, scheduler and heap lifecycle are foreign calls.
- ZenohCarrier.Carrier.Poll: the facade always answers with a frame or a code; keep-alives and partly written output
  buffers of a refused copy are not modelled.
- ZenohCarrier.Carrier.WaitForReconnect: the clock is a list of readings; no claim that a wait ends in time.
- The application adapter with its topic and payload size checks, the last-will refusal and scheduler tick rounding
  are not modelled.
- MqttCarrier.Carrier.ConnectWait: the resets at its start are two atomic groups around which event steps fall;
  addresses, topics and client configuration are left out, and so is a client handle lost by a second connect.
- MqttCarrier.Carrier.ReconnectWait: no claim that a wait succeeds; deadlines are the number of looks taken.
- MqttCarrier.Carrier.SubscribeWait: no claim that a wait succeeds; a reconnect can clear acknowledgements under it.
- Loopback waits, last-will configuration and publishing over MQTT are not modelled.
- CarrierReport.WriteLine: the text of a raw member is arbitrary; only written values are read back.
- CounterReport.WriteJson: the snapshot is a value; reading twelve counters one by one while they change is not
  modelled.
