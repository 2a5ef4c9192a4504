# Subtraction by NAND programming, verified

The system subtracts 64-bit numbers with NAND flash. A flash cell can only be programmed from 1
to 0, so a byte that is programmed several times holds the AND of everything written into it,
and a cell can be copied inverted: that is enough logic for a subtractor. The repository
compiles a borrow-lookahead circuit into a schedule of page programs, stores the schedule as
microcode in the same flash, runs it on a small processor, offers the result through a server
that puts two requests into one round, and runs a SUBLEQ machine on top.

This project models that stack and proves it correct from top to bottom.

* **Circuit** (`Graph`, `Borrow`, `Circuit`, `Lane`, `Builder`). A netlist cell is the AND of its
  sources under their polarities. The lookahead formula equals the ripple borrow for any width;
  groups compose; every lane of 16 to 64 bits the builder makes computes `b - a` modulo a power
  of two and the sign test.
* **Scheduler** (`Cells`, `Schedule`, `Cycles`, `Worklist`, `Netlist`). The worklist succeeds
  exactly on netlists without a cycle, and its greedy order is optimal: no schedule settles any
  cell earlier.
* **Compiler** (`Microcode`, `Compile`, `CodeSize`, `RoundPlan`, `Rom`). The emitted code leaves
  every cell equal to the AND of its sources, although the page buffer is edited in place and a
  freshly edited byte reads back without the AND; the code fits into the ROM and the cells on a page.
* **Machine** (`Machine`, `RomWord`, `Voting`, `Runs`, `Control`, `Round`, `Wear`, `Levelling`).
  The processor as a function on states, and its instruction word bit by bit. A round computes both
  lanes even if up to three of the eight bit columns misbehave arbitrarily, and with four it loses
  no 1; over whole runs each page serves one round per erase.
* **Objects** (`Nand`, `Install`, `Cpu`, `Server`, `Clients`, `Subleq`, `SubleqRuns`). The classes
  and loops of the source, each proved against the functions above: installation on any prior
  contents, the processor, batching, the client table and the interpreter; and what well-known
  SUBLEQ programs do on it.
* **Devices** (`Spi`, `SpiTrace`, `SpiIdle`, `SpiLazy`, `SpiFlat`, `SpiSteps`, `SpiDevice`,
  `FlatMemory`, `SpiCalls`, `OneChip`, `BusLock`, `BusOverlap`, `Quad`). Striping over any number of
  chips with pipelined programs: what every call sends, in terms of how each command and wait ends,
  that it meets no busy chip of its own making and waits for none too early, and what it does to the
  flat memory, with the 32-bit numbers of the code. The processor on one such chip. The bus lock in
  every interleaving, without deadlock and no longer than it must, and the four-bit transfer.

Some promises hold only under a condition; each condition is stated exactly, with an input that
shows the failure:

* striped reads, writes and erases that reach 2^32: `SpiFlat.ReadIsExact`, `SpiFlat.WriteIsExact`,
  `SpiFlat.EraseIsExact`; sixteen and seventeen chips show it (`SpiFlat.EraseMissesTheTop`,
  `SpiFlat.SeventeenChips`), and for 32768 and more, `SpiFlat.EraseReachesTooFar`;
* a chip left busy by a wait that times out: from idle chips no command of a call meets a busy chip,
  whatever fails; a call can meet one exactly if it uses a chip that was left busy before it
  (`SpiCalls.CallFindsIdle`), and a sequence of calls exactly if two of them use the same chip
  (`SpiCalls.CallsFindIdle`); a write and a read with one timeout show it (`SpiTrace.TimeoutMeetsRead`);
* the processor's erases on striped chips: `FlatMemory.ProcessorErases` (one or five chips);
* the client table beyond 32 clients: `Clients.ExactIffFew`, `Clients.FullTableForgets`;
* the vote of the output: four good columns are enough for a 1, five are needed for a 0
  (`Voting.ColumnsThatDecide`, `Round.FourColumnsKeepOnes`).

The end-of-round test has a limit of its arithmetic, 2^32 - 2048 bytes (`Wear.EraseDueIsExact`,
`Levelling.LevellingNeedsSafeSize`, `Levelling.ArithmeticLimit`). No device meets it, because flash
comes in whole blocks (`Levelling.BlocksAreSafe`): `Server.Serve` and `Subleq.Launch` hold on every
device of whole blocks.

As long as its commands and waits succeed, a striped device of one chip gives what the in-memory
flash under the processor gives, and stays equal to it (`FlatMemory.OneChipIsNand`); the accesses of
the processor's constructor and rounds are of the kind that this is about (`OneChip.InstallIsAccesses`,
`OneChip.RoundOnOneChip`).

Where the repository's text says that stale ROM contents need a reload of the flash simulator, the
model follows the code, which erases and rewrites.

`dafny verify dfyconfig.toml` checks everything.

## Model

| member | source | states |
|---|---|---|
| Netlist.Counters.IncAddr | src/server/ROM.cpp:10-13 | the ROM address moves on by one word and the new value is returned |
| Netlist.Counters.GetCalcAddr | src/server/ROM.cpp:15-18 | every calculation address is handed out once |
| Netlist.Netlist.NewInput | src/server/ROM.cpp:70-74 | appends an input to the logic and changes nothing else |
| Netlist.Netlist.NewCell | src/server/ROM.cpp:75-79 | appends one unscheduled cell without sources at the next address |
| Netlist.Netlist.Wire | src/server/ROM.cpp:80-83 | adds one source, its polarity combined with the flag, to one cell |
| Netlist.Netlist.AndOf | src/server/ROM.cpp:91-104 | the result is the conjunction of the sources; one source needs no cell |
| Netlist.Netlist.OrOf | src/server/ROM.cpp:106-115 | the result is the disjunction of the sources, read inverted from one cell |
| Netlist.Netlist.XorOf | src/server/ROM.cpp:117-122 | the result is the exclusive or, from three cells, read straight |
| Netlist.Netlist.Buf | src/server/ROM.cpp:124-133 | an inverted signal becomes a cell that is read straight; a straight one stays |
| Graph.StateIsUnique | src/server/ROM.cpp:39-46 | inputs determine the value of every cell of an ordered netlist |
| Graph.AndMeans | src/server/ROM.cpp:90-104 | in every consistent state the AND signal reads as the conjunction |
| Graph.OrMeans | src/server/ROM.cpp:105-115 | in every consistent state the OR signal reads as the disjunction |
| Graph.XorMeans | src/server/ROM.cpp:116-122 | in every consistent state the XOR signal reads as the exclusive or |
| Cells.BuiltIsOrdered | src/server/ROM.cpp:70-104 | what the builder makes has every source before its cell |
| Borrow.LookaheadIsChain | src/server/ROM.cpp:231-257 | the lookahead sum of products equals the borrow carried position by position, for any number of positions |
| Borrow.ChainOfGroups | src/server/ROM.cpp:258-287 | generate and propagate of groups of four carry the same borrow as the single positions |
| Borrow.ChainInsideGroup | src/server/ROM.cpp:294-317 | a borrow into a group continues inside it as in the whole chain |
| Borrow.DifferenceIsSubtraction | src/server/ROM.cpp:303-317 | the bits x xor borrow are b - a modulo 2^n, for every n |
| Lane.BorrowMeans | src/server/ROM.cpp:231-257 | the circuit of claBorrow reads as the borrow chain of its generate and propagate signals |
| Lane.GroupMeans | src/server/ROM.cpp:258-274 | the circuit of claGroup reads as generate and propagate of its four positions |
| Lane.JumpMeans | src/server/ROM.cpp:319-331 | the jump signal is true exactly when all sum bits are 0 or the top one is 1 |
| Lane.LaneSubtracts | src/server/ROM.cpp:206-332 | every consistent state of a lane of 16, 32, 48 or 64 bits has the difference on its sum and the test on its flag |
| Lane.SubtractsMeans | src/server/ROM.cpp:319-331 | in numbers: (b - a) mod 2^n, and the flag says that it is at most 0 as a signed number |
| Builder.ClaBorrow | src/server/ROM.cpp:232-257 | builds the borrow circuit for any k without touching existing cells |
| Builder.ClaGroup | src/server/ROM.cpp:259-274 | builds generate and propagate of a group |
| Builder.MakeInputs | src/server/ROM.cpp:212-216 | the inputs of a lane are its first cells, a and b alternating |
| Builder.HalfAdderRow | src/server/ROM.cpp:221-229 | one exclusive or, generate and propagate per bit |
| Builder.GroupRow | src/server/ROM.cpp:276-287 | one level of groups over four signals each |
| Builder.TopBorrowRow | src/server/ROM.cpp:288-293 | the borrow into every supergroup |
| Builder.BorrowRow | src/server/ROM.cpp:294-302 | the borrow into every group from its supergroup |
| Builder.SumRow | src/server/ROM.cpp:303-317 | every sum bit from its half sum and its borrow, the first one straight |
| Builder.ZeroRow | src/server/ROM.cpp:319-329 | one cell per byte of the sum that is 1 when the byte is 0 |
| Builder.BuildJump | src/server/ROM.cpp:319-331 | the jump logic, ending in a signal that is read straight |
| Builder.BuildLane | src/server/ROM.cpp:206-332 | appends a complete lane of the shape that LaneSubtracts is about, leaving earlier lanes alone |
| Worklist.CollectReaders | src/server/ROM.cpp:146-162 | the readers of every cell with their multiplicity, the pending counts, and a queue of exactly the inputs |
| Worklist.ReleaseReaders | src/server/ROM.cpp:187-193 | every reader is counted down, and exactly those that reach 0 are queued, once |
| Worklist.AssignSteps | src/server/ROM.cpp:178-184 | each write gets the first step after its source is settled and after the write before it |
| Worklist.ScheduleCell | src/server/ROM.cpp:170-186 | the cell keeps its sources and becomes greedily scheduled |
| Schedule.SortIsSorted | src/server/ROM.cpp:172-177 | the sort orders the writes by the completion of their sources |
| Schedule.SortIsStable | src/server/ROM.cpp:172-177 | writes whose sources settle at the same step keep their order |
| Netlist.Netlist.Schedule | src/server/ROM.cpp:137-197 | the final assert holds exactly when the netlist has no cycle; then all cells are scheduled greedily and the result is the deepest completion |
| Cycles.ScheduledHasNoCycle | src/server/ROM.cpp:164-196 | a netlist with a complete schedule has no cycle |
| Cycles.StuckIsCyclic | src/server/ROM.cpp:187-195 | cells that wait for each other contain a cycle |
| Schedule.GreedyIsFeasible | src/server/ROM.cpp:135-136 | only settled sources are read, and a cell is written at most once per step, in increasing steps |
| Schedule.GreedyIsEarliest | src/server/ROM.cpp:170-186 | among all feasible schedules of the netlist none settles any cell earlier |
| Worklist.FewestSteps | src/server/ROM.cpp:170-196 | hence none needs fewer program steps |
| Rom.BackwardHasNoCycle | src/server/ROM.cpp:195-195 | a netlist whose sources precede their cells has no cycle |
| Rom.BuiltIsSchedulable | src/server/ROM.cpp:153-195 | what the builder makes trips neither the input asserts nor the loop assert |
| Rom.ScheduleKeepsLogic | src/server/ROM.cpp:173-177 | reordering the writes does not change the states of the netlist |
| Compile.SourceIntact | src/server/cpu.cpp:49-70 | in the middle of a step every source still reads as it was settled |
| Compile.StepsRun | src/server/ROM.cpp:363-378 | after each step every cell is the AND of the writes due so far |
| Compile.EmittedCodeComputes | src/server/ROM.cpp:362-378 | the code of any feasible schedule leaves every gate equal to the AND of its sources and the inputs as loaded |
| Rom.ScheduledCodeComputes | src/server/ROM.cpp:363-378 | the same for any netlist that can be scheduled, in terms of the netlist as built |
| CodeSize.StepsSize | src/server/ROM.cpp:363-378 | the code has exactly one instruction per write due and one per step |
| CodeSize.DepthIsBounded | src/server/ROM.cpp:178-185 | a greedy schedule is no deeper than the writes before a cell allow |
| Rom.CodeFits | src/server/ROM.cpp:411-411 | the program of a round fits into the ROM |
| Rom.PushOp | src/server/ROM.cpp:20-35 | appends one instruction linked to the address after it |
| Rom.EmitLoads | src/server/ROM.cpp:354-361 | one load per bit and lane, b as destination and a as source |
| Rom.EmitStep | src/server/ROM.cpp:363-378 | the writes of one step, cell by cell, then one program operation |
| Rom.EmitAllSteps | src/server/ROM.cpp:363-378 | the code of steps 2 to the last |
| Rom.EmitPushes | src/server/ROM.cpp:380-386 | one output per bit and lane, lowest bit first |
| Rom.EmitRaises | src/server/ROM.cpp:387-391 | one flag per lane |
| Rom.EmitRound | src/server/ROM.cpp:353-391 | the code of the whole round |
| Rom.BuildLanes | src/server/ROM.cpp:341-346 | the lanes lie one after the other, each with the shape of a subtractor |
| Rom.LanesPlanned | src/server/ROM.cpp:341-350 | built lanes under a greedy schedule are all that the machine relies on: feasible, on one page, subtracting, fitting the ROM |
| Rom.PlanRound | src/server/ROM.cpp:336-350 | building and scheduling succeed, and the cells fit on one page |
| Rom.BuildRound | src/server/ROM.cpp:334-395 | the code of a planned round with the fewest steps |
| Rom.RomInit | src/server/ROM.cpp:399-418 | the ROM is a planned round whose last instruction leads back to the first |
| RoundPlan.PlanLoadable | src/server/ROM.cpp:352-391 | the program runs from ROM and only its last instruction ends the round |
| Machine.DecodeEncode | include/cpu.hpp:29-32 | every instruction survives its ROM word |
| RomWord.EncodeIffLayout | include/cpu.hpp:27-33 | a word is the one of an instruction if and only if bits 0-19 are those of its next address, 20-39 of its source, 40-59 of its destination, bit 60 is 0, and 61-63 number its operation in the order of the enumeration |
| RomWord.DecodeReads | src/server/cpu.cpp:98-101 | every word is decoded from those bits, whatever bit 60 is |
| Machine.FromToBytes | include/cpu.hpp:27-33 | every word survives its eight bytes |
| RomWord.ByteAt | include/cpu.hpp:27-33 | byte b of a stored word holds its bits 8b to 8b + 7 |
| RomWord.FromBytesAt | src/server/cpu.cpp:95-95 | bits 8b to 8b + 7 of a word that is read are byte b |
| RomWord.ImageLaysOut | include/cpu.hpp:25-34 | instruction i of a program lies in bytes 8i to 8i + 7 of the image, bit by bit in the layout of the word |
| RomWord.BytesDecode | src/server/cpu.cpp:95-101 | any eight bytes of the cached page are decoded by that layout |
| Machine.ProgramAt | include/nandInterface.hpp:26-33 | byte by byte, programming ANDs and touches nothing outside the range |
| Nand.NandInterface.constructor | include/nandInterface.hpp:13-15 | one megabyte of erased flash |
| Nand.NandInterface.Erase | include/nandInterface.hpp:16-20 | the range becomes 0xff and nothing else changes |
| Nand.NandInterface.Read | include/nandInterface.hpp:21-25 | the buffer becomes the contents of the range |
| Nand.NandInterface.Write | include/nandInterface.hpp:26-33 | the flash becomes the AND of its contents and the data |
| Nand.ProgramErased | include/cpu.hpp:41-45 | programming stores the data if the range is erased or holds the data already |
| Install.Vote | src/server/cpu.cpp:21-32 | true exactly if the set of the bits that are 1 has four elements or more |
| Install.StoreWord | include/cpu.hpp:27-33 | a word goes into its eight bytes, lowest first, and nothing else changes |
| Install.Assemble | include/cpu.hpp:21-34 | the buffer is the image of the program, whose words are those of ImageLaysOut and whose other bytes are erased |
| Install.InstallRom | include/cpu.hpp:46-73 | from any prior contents the ROM region ends as the image, the rest is untouched, and the verification succeeds |
| Cpu.LoadRom | include/cpu.hpp:17-73 | generates a planned round and installs its image |
| Cpu.CPU.constructor | include/cpu.hpp:14-83 | from any prior flash the processor ends ready for its first round, with one erase made |
| Cpu.CPU.EraseNand | src/server/cpu.cpp:34-47 | the calculation area and the buffer become erased and the first page is next |
| Cpu.CPU.EditCell | src/server/cpu.cpp:56-70 | one byte of the buffer changes, after clearing it if the page is a new one |
| Cpu.CPU.ProgramPage | src/server/cpu.cpp:76-78 | the page becomes its AND with the buffer, and the buffer becomes the page |
| Cpu.CPU.WriteNand | src/server/cpu.cpp:72-84 | programs the page that the wear-levelled address lies on |
| Cpu.CPU.Fetch | src/server/cpu.cpp:86-109 | caches the ROM page at its start and decodes the word at pc |
| Cpu.CPU.GetInput | src/server/cpu.cpp:133-144 | the lowest bits of the current lane go to two cells and leave the registers |
| Cpu.CPU.PushBit | src/server/cpu.cpp:148-152 | the voted bit enters the lane's output from the top |
| Cpu.CPU.RaiseFlag | src/server/cpu.cpp:153-168 | the voted flag; the last lane signals and moves to the next page, erasing when the test says so |
| Cpu.CPU.Execute | src/server/cpu.cpp:111-181 | one instruction of the machine |
| Machine.EraseWipes | src/server/cpu.cpp:34-47 | ERASE leaves 0xff in the whole calculation area and the buffer, the first page next, and everything else as it was |
| Machine.LanesTakeTurns | src/server/cpu.cpp:136-137 | each lane takes its turn for 64 loads, and the last one keeps it |
| Runs.FetchDecodes | src/server/cpu.cpp:86-109 | every fetch through the cached page decodes exactly instruction pc/8 of the installed program |
| Control.AdvanceExactly | src/server/cpu.cpp:111-181 | every instruction but the last leads to the next without a signal and leaves the ROM alone |
| Control.ProgramRuns | src/server/cpu.cpp:86-181 | a run executes the program once, in order, in one round, whatever the bad columns do |
| Round.ComputeColumn | src/server/cpu.cpp:49-84 | data instructions act on each bit column separately, as the column semantics says |
| Voting.VoteIsFour | src/server/cpu.cpp:21-32 | the vote is true if and only if at least four of the eight bits are 1 |
| Voting.MajorityOfGood | src/server/cpu.cpp:21-32 | five agreeing columns decide the vote |
| Voting.ColumnsThatDecide | src/server/cpu.cpp:21-32 | a set of columns decides a 1, whatever the others read, if and only if it has at least four members, and a 0 if and only if it has at least five |
| Round.LoadsRun | src/server/cpu.cpp:133-144 | the loading section puts every input bit of both lanes into its cell and consumes the registers |
| Round.CodeRuns | src/server/cpu.cpp:121-147 | all good columns go through the code together |
| Round.AllPushed | src/server/cpu.cpp:148-152 | after 64 pushes a register holds the votes on the sum bits, nothing of what was there; with five good columns exactly the sum bits |
| Round.RaisesRun | src/server/cpu.cpp:153-168 | the flags are the votes on those of the page and the signal comes with the last |
| Round.RoundVotes | src/server/cpu.cpp:111-181 | from any erased page, for all inputs and any number of good columns: every bit of an output is a vote on that bit of the difference, the flag a vote on its test, the signal comes exactly at the end |
| Round.RoundComputes | src/server/cpu.cpp:111-181 | from any erased page, for all inputs, with at most three bad columns: differences, flags, signal exactly at the end, pc back at 0 |
| Round.FourColumnsKeepOnes | src/server/cpu.cpp:148-168 | with four good columns no 1 of a difference is lost, and a difference of at most zero still raises its flag |
| Round.LanesAreIndependent | src/server/ROM.cpp:339-361 | a lane's outputs depend only on its own inputs |
| Wear.BetweenIsErased | src/server/cpu.cpp:56-67 | between rounds the next page is erased and the buffer is, or will be, erased |
| Wear.RoundKeepsFlash | src/server/cpu.cpp:72-84 | within a round nothing outside its page changes |
| Wear.BufferOfRound | src/server/cpu.cpp:56-70 | after the first load the buffer belongs to the page in use |
| Wear.EraseDueIsExact | src/server/cpu.cpp:163-163 | the 32-bit test recognises the last page, and no other, if and only if the page after it ends below 2^32 |
| Wear.RoundRenews | src/server/cpu.cpp:153-168 | a round keeps the ROM and renews the invariant, except from the last page of a device that is too large |
| Levelling.WearLevels | src/server/cpu.cpp:160-166 | round k works on page k mod P after k div P erases |
| Levelling.EveryRoundComputes | src/server/cpu.cpp:111-181 | every round of every run is correct and leaves the ROM as installed |
| Levelling.OneRoundPerPage | src/server/cpu.cpp:160-166 | a page serves at most one round between two erases |
| Levelling.EveryPageServes | src/server/cpu.cpp:160-166 | and every page serves one |
| Levelling.LevellingNeedsSafeSize | src/server/cpu.cpp:162-166 | the round on the last page hands over to a page of the device if and only if the size is safe |
| Levelling.ArithmeticLimit | src/server/cpu.cpp:163-163 | the sizes on which the test works are exactly those below 2^32 - 2048 |
| Levelling.BlocksAreSafe | src/server/cpu.cpp:163-163 | every device of whole 128 KB blocks is among them |
| Levelling.BlockDeviceComputes | src/server/cpu.cpp:111-181 | on such a device every round of every run is correct, on page k mod P after k div P erases |
| Server.DirectIsDifference | src/server/server.cpp:331-336 | the direct answer is the true difference unless that overflows, then it is off by 2^64 |
| Server.OneInstruction | src/server/server.cpp:344-345 | one fetch and execution extends the run by one step and signals exactly at the last instruction |
| Server.RunRound | src/server/server.cpp:343-348 | the loop runs the program exactly once |
| Server.SetInputs | src/server/server.cpp:339-342 | requests fill the first lanes, zeros the others |
| Server.RunBatch | src/server/server.cpp:337-348 | after a round every lane holds the result for its inputs and the processor is ready again |
| Server.AnswerByRound | src/server/server.cpp:337-353 | processor mode answers every request as direct computation would |
| Server.AnswerDirectly | src/server/server.cpp:331-336 | boost mode answers every request directly |
| Server.ProcessRequests | src/server/server.cpp:329-353 | for every batch both modes give the same answers; boost leaves the processor alone |
| Server.Serve | src/server/server.cpp:381-403 | a worker on any device of whole blocks, whatever it held: every request of every batch gets its own answer, in any sequence of modes |
| Clients.ClientTracker.Scan | src/server/server.cpp:243-256 | refreshes the client, counts the active entries and finds the first expired slot |
| Clients.ClientTracker.Touch | src/server/server.cpp:239-267 | the table becomes the touched table and the result is its answer |
| Clients.TouchTracks | src/server/server.cpp:246-265 | a touch keeps the table exact unless it finds it full of other active clients |
| Clients.FullMeansMany | src/server/server.cpp:257-265 | a table full of other active clients means that 33 are active |
| Clients.TableTracks | src/server/server.cpp:239-267 | the table agrees with the whole history while at most 32 clients are active |
| Clients.TouchCounts | src/server/server.cpp:238-267 | every touch of such a history returns the number of clients seen less than 1,000,000,000 nanoseconds ago |
| Clients.FullTableForgets | src/server/server.cpp:257-265 | beyond that two new clients get the same answer although the second makes one more |
| Clients.ExactIffFew | src/server/server.cpp:238-267 | after one more touch every next answer is right if and only if at most 32 clients are active |
| Subleq.ProtectedRun | src/subleq/subleq.cpp:348-378 | protected words change only through input and the Ctrl-C check |
| Subleq.TestsAgree | src/subleq/subleq.cpp:378-382 | the disabled test of the stored word agrees with the server's flag for all operands if and only if the word is not protected |
| Subleq.StoppedStays | src/subleq/subleq.cpp:245-245 | a stopped machine stays as it is |
| SubleqRuns.SelfSubtractionJumps | src/subleq/subleq.cpp:371-391 | `z z c` goes to c, or halts if c is -1, and leaves 0 in z below 0x600000 |
| SubleqRuns.AddProgramAdds | src/subleq/subleq.cpp:371-391 | the three-instruction addition leaves the sum modulo 2^64, for all words |
| SubleqRuns.CountdownCounts | src/subleq/subleq.cpp:371-391 | a loop that counts down from n > 0 runs its body exactly n times and halts after 3n - 1 instructions |
| SubleqRuns.OutputsByte | src/subleq/subleq.cpp:283-289 | an output instruction writes one byte, the cell modulo 256, and changes nothing else |
| SubleqRuns.PrintsFromTable | src/subleq/subleq.cpp:240-242 | a program finds byte i at address 0x600000 + i from its first instruction on |
| SubleqRuns.ReadsKeys | src/subleq/subleq.cpp:300-346 | input instructions put the keys into their cell one by one, and the machine halts if and only if one of them is the third Ctrl-C with no other key since the first |
| SubleqRuns.ChecksCtrlC | src/subleq/subleq.cpp:348-353 | the check stores 1 if the latest key was a Ctrl-C, else 0, and forgets it |
| SubleqRuns.RefusedStops | src/subleq/subleq.cpp:246-281 | an instruction outside the memory, or with an operand behind it or of no meaning, ends the run |
| Subleq.Interpreter.constructor | src/subleq/subleq.cpp:224-245 | the program in memory, the table of 0 to 255 in the protected words |
| Subleq.Interpreter.Read | src/subleq/subleq.cpp:300-346 | a key goes to its word; Ctrl-C is noted and the third in a row stops |
| Subleq.Interpreter.SubtractAndBranch | src/subleq/subleq.cpp:371-391 | stores and branches as native subtraction would |
| Subleq.Interpreter.Step | src/subleq/subleq.cpp:245-391 | one turn of the loop is one native instruction |
| Subleq.Interpreter.Run | src/subleq/subleq.cpp:245-392 | a well-addressed run over the flash equals the native run, for any number of instructions, any companions in the lanes and either mode |
| Subleq.Launch | src/subleq/subleq.cpp:224-392 | a program started on any device of whole blocks leaves and prints what the native machine does |
| Spi.StripingIsBijective | include/W25NSpiFlashDevice.hpp:50-51 | logical pages and (chip, physical page) correspond one to one |
| Spi.IssueView | include/W25NSpiFlashDevice.hpp:145-151 | issuing a chunk changes exactly its bytes of the flat memory, by AND |
| Spi.WaitKeepsView | include/W25NSpiFlashDevice.hpp:119-128 | a wait changes nothing more in the flat memory, unless a program or an erase failed |
| SpiTrace.ReadTells | include/W25NSpiFlashDevice.hpp:95-113 | a read returns true exactly if every wait and transfer it makes succeeds, however the commands end |
| SpiTrace.WriteTells | include/W25NSpiFlashDevice.hpp:115-163 | a write returns true exactly if every load, issue and wait it makes succeeds |
| SpiTrace.EraseTells | include/W25NSpiFlashDevice.hpp:172-191 | an erase returns true exactly if it is aligned and every block erase it makes succeeds |
| SpiIdle.ReadFindsIdle | include/W25NSpiFlashDevice.hpp:95-113 | a read whose pages lie on no busy chip sends every command to an idle chip, whatever fails |
| SpiIdle.WriteFindsIdle | include/W25NSpiFlashDevice.hpp:115-163 | a write whose pages lie on no busy chip loads and issues to idle chips only, whatever fails: a chip is waited for before its next page, and after a failure nothing more is sent |
| SpiLazy.WriteIsLazy | include/W25NSpiFlashDevice.hpp:115-163 | whatever fails, each wait of a write is followed at once by a command to the chip that was waited for, or by no more commands |
| SpiLazy.AllSentFirst | include/W25NSpiFlashDevice.hpp:115-163 | a write with at most one page on each chip sends all its commands before its first wait |
| SpiIdle.EraseFindsIdle | include/W25NSpiFlashDevice.hpp:172-191 | an erase sends every command to an idle chip, whatever fails, unless it starts with a busy chip in the device |
| SpiCalls.CallFindsIdle | include/W25NSpiFlashDevice.hpp:95-191 | all commands of a call find their chip idle, however they end, if and only if the call uses no chip that was left busy before |
| SpiCalls.CallsFindIdle | include/W25NSpiFlashDevice.hpp:95-191 | over any sequence of calls after opening, all commands find their chip idle, however they end, if and only if no two of the calls use the same chip |
| SpiCalls.NextFindsIdle | include/W25NSpiFlashDevice.hpp:95-191 | as long as every call has returned true, the next one finds all its chips idle, whatever becomes of it |
| SpiCalls.IdleUnlessTimedOut | include/W25NSpiFlashDevice.hpp:95-191 | after opening, all commands of all calls find their chip idle if and only if none was sent to a chip after a wait for it had timed out |
| SpiTrace.TimeoutMeetsRead | src/server/cpu.cpp:76-78 | a write whose one wait times out returns false with its chip busy, and the read after it is sent to the busy chip |
| SpiFlat.ReadIsExact | include/W25NSpiFlashDevice.hpp:95-113 | a read of any size of device is the range asked for, for all contents, if and only if it ends by 2^32 |
| SpiFlat.WriteIsExact | include/W25NSpiFlashDevice.hpp:131-158 | a write programs its range, for all contents and data, if and only if it ends by 2^32 |
| SpiFlat.EraseIsExact | include/W25NSpiFlashDevice.hpp:173-190 | an accepted erase on any number of chips wipes its range and nothing else if and only if it ends below 2^32 on fewer than 32768 chips, or what it gets wrong is erased already |
| SpiFlat.EraseMissesTheTop | include/W25NSpiFlashDevice.hpp:180-190 | sixteen chips, last group: accepted and not erased |
| SpiFlat.SeventeenChips | include/W25NSpiFlashDevice.hpp:95-191 | seventeen chips: read and write go on at address 0 after 2^32 - 1, and the group around 2^32 is accepted and not erased |
| SpiFlat.EraseReachesTooFar | include/W25NSpiFlashDevice.hpp:173-190 | 32769 chips: an erase of one block erases more |
| SpiFlat.GroupIsRange | include/W25NSpiFlashDevice.hpp:165-182 | one block on every chip is one consecutive range of addresses |
| SpiDevice.W25NSpiFlashDevice.Send | src/spi/w25n_spidev.c:182-208 | an idle chip takes the command unless the transfer fails; a busy one stays busy and keeps nothing for certain |
| SpiDevice.W25NSpiFlashDevice.Wait | src/spi/w25n_spidev.c:140-222 | the work is completed, or has failed where it works, or goes on |
| SpiDevice.W25NSpiFlashDevice.WaitChip | include/W25NSpiFlashDevice.hpp:119-128 | waits exactly if a page is pending, forgets it, and returns true exactly if nothing was pending or the wait is done |
| SpiDevice.W25NSpiFlashDevice.LoadAndIssue | include/W25NSpiFlashDevice.hpp:145-152 | issues only after a successful load; true, and the page pending, exactly if both succeed |
| SpiDevice.W25NSpiFlashDevice.WaitAll | include/W25NSpiFlashDevice.hpp:160-162 | every pending chip is waited for, also after a failure; then a chip is busy exactly if its wait timed out |
| SpiDevice.W25NSpiFlashDevice.Write | include/W25NSpiFlashDevice.hpp:115-163 | for any number of chips, offset and length: true exactly if everything it sent succeeded, and then, from idle chips, every byte is ANDed in; from idle chips every command finds its chip idle and pages not reached keep their bytes, even if it fails; a chip is busy afterwards exactly if the latest wait for it timed out |
| SpiDevice.W25NSpiFlashDevice.Read | include/W25NSpiFlashDevice.hpp:95-113 | true exactly if everything it sent succeeded, and then, from idle chips, with the bytes of the flat memory; from idle chips every command finds its chip idle and the flat memory stays, even if it fails |
| SpiDevice.W25NSpiFlashDevice.EraseGroup | include/W25NSpiFlashDevice.hpp:183-188 | the same block on every chip in turn, up to the first failure |
| SpiDevice.W25NSpiFlashDevice.Erase | include/W25NSpiFlashDevice.hpp:172-191 | misaligned calls change nothing; others return true exactly if everything they sent succeeded, and then have the effect of EraseEffect; from idle chips every command finds its chip idle and groups not reached keep their bytes, even if it fails |
| FlatMemory.RunIsFlat | include/W25NSpiFlashDevice.hpp:95-191 | without a 32-bit wrap-around any sequence of calls is that sequence on a flat memory |
| FlatMemory.CallsTell | include/W25NSpiFlashDevice.hpp:95-191 | all calls of a sequence return true exactly if their erases are aligned and all their commands and waits succeed |
| FlatMemory.ApplyAll | include/W25NSpiFlashDevice.hpp:95-191 | any sequence of calls, each made whatever became of the others, makes the commands of CallsTrace; if all return true it reads and leaves what DeviceRun says |
| FlatMemory.OneChipIsNand | include/W25NSpiFlashDevice.hpp:95-191 | the same accesses are made on one chip and on the in-memory flash; if all commands and waits succeed they read the same and leave the same |
| OneChip.StepIsAccesses | src/server/cpu.cpp:72-181 | the flash after an instruction, and what it takes over from its reads, are those of its accesses, all of a kind that one chip takes |
| OneChip.InstallIsAccesses | include/cpu.hpp:46-80 | so are those of the constructor, from any prior contents: the image, verified, and an erased calculation area |
| OneChip.RoundOnOneChip | include/W25NSpiFlashDevice.hpp:95-191 | a round of the processor on one chip reads what it reads from the in-memory flash and leaves the flash of its last state |
| FlatMemory.ProcessorErases | include/W25NSpiFlashDevice.hpp:172-193 | the processor's own erases, with the 32-bit size, are accepted by n striped chips if and only if n is 1 or 5 modulo 32768 |
| BusLock.StepIsSafe | include/W25NFlashDevice.hpp:78-141 | every step of every worker keeps the bus safe and what each worker will have in the end |
| BusLock.LoadsNeverOverlap | include/W25NFlashDevice.hpp:103-110 | in no interleaving does a load overlap another worker's bus operation |
| BusOverlap.ExclusiveIsOneLoad | include/W25NFlashDevice.hpp:78-141 | in any sequence of calls the lock is held exclusively for exactly one load at a time, and shared by everything else |
| BusOverlap.WriteByPages | include/W25NFlashDevice.hpp:97-124 | a write takes the lock twice for every page that it touches: exclusively to load the part on that page, then shared to commit the page |
| BusOverlap.OperationsMeet | include/W25NFlashDevice.hpp:78-141 | any two operations of two workers that are not loads are on the bus at once in some interleaving |
| BusOverlap.ReadDuringCommit | include/W25NFlashDevice.hpp:112-119 | in particular one chip can be read while another one programs |
| BusLock.WritesFlat | include/W25NFlashDevice.hpp:97-124 | the sections of a write, on their own, AND the data into the chip |
| BusLock.ReadsFlat | include/W25NFlashDevice.hpp:78-95 | the sections of a read, on their own, read the range |
| BusLock.ErasesFlat | include/W25NFlashDevice.hpp:126-141 | the sections of an erase, on their own, erase the range |
| BusLock.EachChipAlone | include/W25NFlashDevice.hpp:78-141 | in every interleaving each chip ends, and has been read, as if its worker were alone |
| BusLock.SomeoneMoves | include/W25NFlashDevice.hpp:78-141 | no deadlock: while a call is unfinished some worker can move |
| BusLock.RunLength | include/W25NFlashDevice.hpp:78-141 | every interleaving is finite: it makes at most the steps there were at the start, and exactly those if and only if all calls are made |
| BusLock.StuckIsDone | include/W25NFlashDevice.hpp:78-141 | an interleaving that cannot be continued has made every call of every worker |
| Quad.QuadDevice.constructor | src/qspi/w25n_pio.c:265-270 | the table maps every nibble to its word |
| Quad.QuadDevice.HeldBits | src/qspi/w25n_pio.c:389-398 | collects the protected pins of the other registered devices inside the span |
| Quad.QuadDevice.BuildWords | src/qspi/w25n_pio.c:385-403 | the buffer holds the words that WordsAt describes, for the devices that OthersAre names |
| Quad.QuadDevice.Extract | src/qspi/w25n_pio.c:725-733 | every byte comes from its two samples |
| Quad.HeldAt | src/qspi/w25n_pio.c:389-398 | the held bits are exactly the other devices' /WP and /HOLD pins inside the span |
| Quad.OthersAre | src/qspi/w25n_pio.c:390-392 | the other devices are exactly those in the registry under another number |
| Quad.WordsAt | src/qspi/w25n_pio.c:385-403 | a pin is 1 in a word if and only if it is the data pin of a bit that is 1, high half of the byte first, or another device's /WP or /HOLD inside the span; every other pin is 0 |
| Quad.SamplesAt | src/qspi/w25n_pio.c:725-733 | each bit of a byte is what its data pin shows in the sample of its half, and there are no other bits |
| Quad.BytesArrive | src/qspi/w25n_pio.c:385-403 | for any clear pin assignment every byte string arrives as it was sent |
| Quad.ClashCorrupts | src/qspi/w25n_pio.c:387-398 | if another device's /WP or /HOLD is a data pin, a zero byte does not arrive |
| Quad.FaithfulIffClear | src/qspi/w25n_pio.c:385-403 | every byte arrives, whatever other pins show, if and only if no other device's /WP or /HOLD is a data pin |
| Quad.WordsHold | src/qspi/w25n_pio.c:387-403 | every word keeps the other devices' in-span /WP and /HOLD pins at 1 |
| Quad.BoardIsClear | src/qspi/w25n_pio.h:23-24 | the two chips of the board satisfy the condition |

## Left out

- Flash failures in the processor: program, read and erase are ideal there, apart from faulty bit columns; failing commands are modelled for the striped device.
- Accesses beyond the end of the in-memory flash: they fail and change nothing, as on the real devices; the stub does not check.
- Cpu.CPU.constructor: devices without room for one calculation page, on which the length of the first erase would underflow.
- The display copy of the flash (`mtd_data`), the GUI and its threads.
- UDP transport, retries, the waiting time for companions: a batch is a parameter, and the client's call returns the server's answer to its own request.
- How many requests a batch takes from the socket, and which: `ProcessRequests` holds for every batch of 1 to LANES.
- The clock of the client table: times are parameters and non-decreasing; the source reads the clock before it takes the mutex, so two threads may touch in the other order.
- Interpreter runs that leave memory (`code[pc + 2]` past the end, negative operands of the output and input instructions): undefined in the source, required not to happen.
- Terminal modes, signal handlers, tracing, the memory dump and the parsing of the program file; keys are a list, its end reads as -1.
- The x1 paths of the PIO driver, its timing, DMA, FIFO polling and pin directions.
- Striped devices of 2^32 or more chips, whose number the source casts to 32 bits.
- SpiDevice.W25NSpiFlashDevice.Erase: not for numbers of chips that are multiples of 32768, for which the group size is 0 and the source divides by it.
- What a busy chip does with a command: its contents are left open. The transfers of page reads and block erases, which the driver does not check, are taken to succeed; only their waits can fail.
- Wall-clock bounds of waits: a wait completes, fails or times out.
- Widths other than 64 bits in the ROM: the circuit is proved for 16, 32, 48 and 64 bits, the generated program for the configured 64 bits and two lanes.
- The compiler patch for Higher Subleq.
