# Verified model of the actionc compiler's self-contained cores

The compiler translates a dialect of Action! for the 6502. This project models six of its cores and proves what they
are for.

* **Generated division code.** `Isa` and `Cpu` are the documented NMOS 6502 instructions and their effect on the
  machine; `IsaPattern` reads the opcode table off the bits of the opcodes. `Restoring` is restoring division in
  registers of any width. `Division` and `NarrowDivision` build the division routines line by line, run them on the
  machine and show that they divide, whatever the operands, flags and memory. `HelperText` hands their text to the
  assembler, `HelperBytes` shows that the bytes and the lines run alike, and `DivisionBlock` puts it together: the bytes
  the assembler delivers are accepted and divide.
* **Inline assembler.** `ConstExpr` reads constant expressions, whose operators `ConstLaws` describes; `Assembler` is
  the two-pass assembler from labelled lines to items, bytes and relocations. `AsmLayout` relates the two passes, labels
  and branches; `AsmRelocate` relates the two encodings of a block; `AsmForms` says which mode each form of operand gets
  and what it acts on, `AsmMeaning` that the final bytes hold what was written, and `AsmUse` what operands are used for.
  `AsmAccept` joins the assembler and the analysis, and `AsmJumps` finds the jumps the analysis is told of.
* **Flow analysis of emitted bytes.** `AsmGraph` decodes a block and builds its control-flow graph, `AsmSweep` is the
  sweep that is repeated until nothing changes, `AsmAnalyze` sums up. `AsmFixpoint` and `AsmDepth` say what the sweeps
  settle on. `AsmReads` and `AsmTaken` say what the register report means for paths, `AsmStack` and `AsmBalance` what
  the stack report means for runs, and `AsmBytes` which byte strings are balanced at all. `CpuChange` lists what an
  instruction changes; `AsmTable` says where the effect table is exact, and `AsmBlind`, `AsmFlags` and `AsmLockstep`
  what it means on the machine. `AsmLimits` gives blocks that are misreported or never finish.
* **Source loading.** `Includes` says what textual inclusion yields and when it succeeds, and `SourceLoader` is the
  loader with its position map. `Modules` is the theory of USE graphs, `ModuleNames` says where modules come from, and
  `ModuleLoader` is the depth-first loader.
* **Linking.** `Linker` is the worklist closure with its reasons, `LinkGraphs` builds the graph of a program,
  `LinkSelect` filters the program from the roots that `LinkRoots` describes, and `LinkManifest` is the textual form of
  a link graph. `EmbeddedImage` is the digest over embedded sources.
* **Constants and expressions.** `AtariReal` and `AtariRealText` turn decimal spellings into base-100 floating point.
  `ExprParser` is the precedence-climbing expression parser with the compound-assignment rewrite, and `ExprOrder` says
  how its operators bind.

Code that changes state step by step is modelled by methods and classes. Each is proved equal to a specification function
or to have the stated property outright, and the theorems are about those.

Where the code falls short of what it seems to promise, the condition under which it does not is proved, together with an
input that shows the difference:

* Selecting a byte in a two-byte operand makes pass two emit fewer bytes than pass one laid out. A block keeps its layout
  if and only if it has no such operand (`AsmLayout.LayoutExact`, `AsmLayout.WideBlockIsShort`).
* The stack report looks at exits alone. On a block whose branches and jumps go to instruction starts or out of it, and
  whose instructions have a consistent depth labelling, being reported balanced means being balanced if and only if
  branches out of the block and edges back to the entry are at depth zero, should all exits be at zero and none of them be
  an orphan, one that only unreachable code leads to; and nothing but an orphan makes a balanced block be reported
  unbalanced (`AsmBalance.LabelledReportIsExact`). A block fails each of the three: `AsmLimits.EntryLoopMisreported`,
  `AsmLimits.LostBranchMisreported`, `AsmLimits.OrphanAlarm`.
* Without a labelling no block from everywhere in which a way leads out is balanced (`AsmBalance.BalancedHasLabels`), but
  the report can call one so (`AsmLimits.ConflictMisreported`), or the sweeps never end
  (`AsmLimits.GrowingLoopNeverSettles`). Code that branches into an operand is not in the graph
  (`AsmLimits.OperandBranchMisreported`); for any bytes at all the runs are balanced if and only if the bytes have depths
  that every step keeps (`AsmBytes.AnyBlockBalanced`).
* The effect table omits the accumulator for BIT (`AsmBlind.BitReadsA`). It takes all flags for one register, which is
  right for PLP alone (`AsmFlags.FlagsReplacedExactly`); CLC followed by BEQ shows the difference (`AsmFlags.FlagsAreOne`).
* A register is reported as taken in not only when a path from the entry brings it to a reader unwritten, but also when
  unreachable code or a cycle that nowhere writes it does; these are the only cases (`AsmTaken.ReportIsCarried`), and the
  report is right for paths where neither occurs (`AsmTaken.PathExact`). A9 01 85 80 D0 FC 60 is reported to take A in
  although every path loads it first (`AsmTaken.StoreLoopReported`).
* A selected program may refer to what was dropped, namely in a layout that stays without being reached; that is the only
  way (`LinkSelect.SelfContainedExactly`, `LinkSelect.SpareMention`).
* Line-end normalization is idempotent exactly on texts without CR CR LF (`EmbeddedImage.IdempotentExactly`).
* The embedded image depends on the order of its inputs exactly when two sources share a key and differ
  (`EmbeddedImage.OrderExactly`).
* A manifest is read back as it was written if and only if, besides being well formed, none of its node names ends in a
  carriage return (`LinkManifest.RoundTripExactly`). Reading can yield such a name, and then writing and reading it again
  loses it; the node `A` followed by a carriage return is one (`LinkManifest.StrayReturn`).

## Model

| member | source | states |
|---|---|---|
| `Restoring.CarrySuffices` | src/integer6502.rs:84-92 | one step on registers that wrap, with the carry out of the remainder register, does what it would do on an unbounded remainder |
| `Restoring.CarryNeeded` | src/integer6502.rs:84-86 | when the carry is set, what is left in the remainder register would call for no subtraction |
| `Restoring.DivisionAtAnyWidth` | src/integer6502.rs:84-92 | these steps, one per dividend bit, give remainder and quotient for any dividend and nonzero divisor, for registers of any widths; the remainder register need only have room for the divisor |
| `Division.DivisionBody` | src/integer6502.rs:73-110 | the builder appends exactly the specified program, for every choice of signedness and results |
| `Division.UnsignedDivision` | src/integer6502.rs:73-110 | from every machine state with a nonzero divisor the unsigned routine runs to its end with quotient and remainder of the words passed; only $82..$87 change and the stack pointer, Y and all other memory are as before |
| `Division.SignedDivision` | src/integer6502.rs:73-118 | likewise for the signed routine: truncated quotient, remainder with the dividend's sign, and with both results quotient in A:X and remainder in $86:$87; only the scratch cells and $C2..$C3 change |
| `Division.TruncatingExists` | src/integer6502.rs:73-110 | the quotient and remainder named by the signed theorem satisfy the division law, with a remainder smaller than the divisor and of the dividend's sign |
| `Division.TruncatingUnique` | src/integer6502.rs:73-110 | that law determines them |
| `Division.OnlyOneWrap` | src/integer6502.rs:73-118 | the signed quotient fits a word except for -32768 / -1, which gives -32768 again; the remainder always fits |
| `Division.ZeroDivisorCallsError` | src/integer6502.rs:32-38 | a zero divisor reaches the call of Error with 101, 0, 101 in A, X, Y |
| `Division.FaultNeverReturns` | src/integer6502.rs:32-38 | whatever state Error leaves, the routine never leaves its fault text |
| `NarrowDivision.NarrowDivisionBody` | src/integer6502.rs:122-150 | the builder appends exactly the specified byte-divisor program |
| `NarrowDivision.NarrowDivisionCorrect` | src/integer6502.rs:120-150 | the 8/8 and 16/8 routines end with quotient or remainder for every dividend and nonzero divisor, and change only their scratch cells |
| `NarrowDivision.NarrowZeroCallsError` | src/integer6502.rs:122-136 | a zero byte divisor reaches the call of Error |
| `NarrowDivision.NarrowFaultNeverReturns` | src/integer6502.rs:32-38 | and never gets past it |
| `HelperText.TextAssembles` | src/integer6502.rs:36-58 | every text of the routines' kind, whose branches reach at most 40 lines, assembles; the addresses left to fill in are those of its calls of Error, one relocation each |
| `HelperBytes.BytesFollowLines` | src/asm6502.rs:146-295 | however far the lines of such a text run, its bytes run to the same place with the same registers, flags and memory |
| `DivisionBlock.LinesFollowBytes` | src/asm6502.rs:146-295 | and every run of the bytes is a run of the lines, up to a call of Error or to decimal arithmetic, where the lines stand still and nothing more is said |
| `DivisionBlock.NeverRefused` | src/asm6502.rs:296-320 | the checks after assembly never refuse such a block, and its analysis ends |
| `DivisionBlock.UnsignedBytesDivide` | src/integer6502.rs:36-110 | the bytes of the unsigned routine, for every choice of results: they are assembled and accepted with Error as the only open address, and run from every state with a nonzero divisor to their end with quotient and remainder, changing scratch cells only |
| `DivisionBlock.SignedBytesDivide` | src/integer6502.rs:36-118 | likewise the bytes of the signed routine, with truncated quotient and the dividend's sign on the remainder |
| `DivisionBlock.NarrowBytesDivide` | src/integer6502.rs:36-150 | likewise the bytes of the byte-divisor routines |
| `DivisionBlock.ZeroDivisorBytesCall` | src/integer6502.rs:32-110 | with a zero divisor the bytes run to the one call whose address is open, with 101, 0, 101 in A, X, Y |
| `DivisionBlock.NarrowZeroBytesCall` | src/integer6502.rs:32-150 | and so do those of the byte-divisor routines |
| `DivisionBlock.FaultBytesNeverReturn` | src/integer6502.rs:32-38 | whatever state Error returns with, the bytes never leave the five instructions behind the call |
| `DivisionBlock.NarrowFaultBytesNeverReturn` | src/integer6502.rs:32-38 | the same for the byte-divisor routines |
| `Isa.OpcodeRoundTrip` | src/asm6502.rs:540-545 | the opcode the assembler looks up decodes to the instruction it was looked up for |
| `IsaPattern.DecodeIsLaid` | src/codegen/emitter.rs:2014-2169 | every opcode means what the three bit fields of its byte say in the layout of the 6502: family, operation and addressing mode; the others mean nothing |
| `AsmGraph.DecodeBlock` | src/asm6502.rs:1430-1453 | the linear decoding loop yields the specified instruction list, or nothing when a byte is no opcode or an instruction runs past the end |
| `AsmGraph.DecodedTiles` | src/asm6502.rs:1430-1453 | decoded instructions lie end to end over all the bytes |
| `AsmGraph.TilesDecode` | src/asm6502.rs:1430-1453 | and the only instructions that do are the decoded ones |
| `AsmGraph.BuildGraph` | src/asm6502.rs:1454-1507 | the flow graph is built as specified: successors of branches, jumps and other instructions, and exits |
| `AsmGraph.GraphWellFormed` | src/asm6502.rs:1454-1507 | every successor is an instruction of the block |
| `AsmSweep.PredsExact` | src/asm6502.rs:1502-1507 | the predecessor lists hold exactly the sources of edges |
| `AsmSweep.Visit` | src/asm6502.rs:1521-1568 | the body of the sweep assigns what changes at one instruction and leaves the rest alone; it notes a change exactly when there is one |
| `AsmSweep.SweepOnce` | src/asm6502.rs:1517-1571 | one sweep over the vectors in place equals the specified sweep, and `changed` tells whether it did anything |
| `AsmSweep.MeetOver` | src/asm6502.rs:1522-1535 | the loop over predecessors computes their intersection, starting from nothing at the entry |
| `AsmSweep.Settle` | src/asm6502.rs:1517-1571 | repeating the sweep stops at a state that a sweep leaves alone, or reports that every sweep so far changed something |
| `AsmFixpoint.DefsSettle` | src/asm6502.rs:1517-1545 | on every block the definitions stop changing, after at most eleven sweeps per instruction |
| `AsmFixpoint.SettledSolves` | src/asm6502.rs:1517-1545 | what they settle on solves the flow equations |
| `AsmFixpoint.AfterIsLeast` | src/asm6502.rs:1517-1545 | and lies below every other solution |
| `AsmDepth.SweepsSettle` | src/asm6502.rs:1517-1571 | if the reachable instructions have any consistent depth labelling, the whole loop stops |
| `AsmDepth.SettledDepthIsLabelling` | src/asm6502.rs:1546-1571 | and its depths are that labelling, on exactly the reachable instructions |
| `AsmStack.RunIsPath` | src/asm6502.rs:1509-1571 | every point of every run is at the end of a path of the graph, at the depth that adds up on the way |
| `AsmStack.RunOnPath` | src/asm6502.rs:1470-1500 | conversely a run follows every path of the graph |
| `AsmStack.RunAtLabels` | src/asm6502.rs:1509-1571 | where edges back to the entry come back at depth zero, every point of every run is a reachable instruction at its label |
| `AsmStack.RunToLabel` | src/asm6502.rs:1470-1571 | whatever they do, some run comes to each reachable instruction at its label |
| `AsmStack.BalancedOnLabels` | src/asm6502.rs:1583-1612 | with settled depths the report says balanced if and only if every reachable exit is at depth zero and no exit is an orphan |
| `AsmStack.RunsOnLabels` | src/asm6502.rs:1509-1612 | all runs of every length leave with net depth zero if and only if every reachable exit and every reachable branch out of the block is at depth zero and, if control can get out at all, every edge back to the entry comes back at zero |
| `AsmStack.ReportIsExact` | src/asm6502.rs:1583-1612 | depths settled at every reachable instruction are such a labelling, on exactly the reachable instructions |
| `AsmBalance.LabelledReportIsExact` | src/asm6502.rs:1509-1612 | on a block with a consistent depth labelling the sweeps stop within a fixed number, and saying balanced implies balanced runs if and only if zero exits without orphans imply that branches out and edges back to the entry are at zero; the two agree if and only if, exits being at zero, that holds exactly when there is no orphan |
| `AsmBalance.BalancedHasLabels` | src/asm6502.rs:1546-1571 | a block from everywhere in which a way leads out, all of whose runs leave with net depth zero, has a labelling consistent on every edge |
| `AsmBalance.BalancedIsReported` | src/asm6502.rs:1509-1612 | so the sweeps stop on it, and it is reported balanced if and only if no exit is an orphan |
| `AsmBalance.BalancedExactly` | src/asm6502.rs:1546-1612 | all runs are balanced if and only if some labelling consistent on every edge is zero wherever control may leave |
| `AsmBytes.AnyBlockBalanced` | src/asm6502.rs:1509-1612 | for any bytes, wherever they branch to: all runs are balanced if and only if the bytes from which control gets out have depths that every step keeps and every way out ends at zero |
| `AsmLimits.EntryLoopMisreported` | src/asm6502.rs:1548-1549 | a back edge into the first instruction is not checked: an unbalanced block, whose only fault is that it does not come back at depth zero, is reported balanced |
| `AsmLimits.ConflictMisreported` | src/asm6502.rs:1551-1564 | a conflicting predecessor is skipped like an unvisited one: an unbalanced block without any labelling is reported balanced |
| `AsmLimits.LostBranchMisreported` | src/asm6502.rs:1474-1480 | a branch to the end of the block is neither an edge nor an exit: an unbalanced block, whose only fault is the depth of that branch, is reported balanced |
| `AsmLimits.OperandBranchMisreported` | src/asm6502.rs:1474-1480 | a branch into an operand is no edge either: the code it runs is not analyzed, and an unbalanced block is reported balanced |
| `AsmLimits.OrphanAlarm` | src/asm6502.rs:1583-1612 | RTS, NOP, RTS: an exit that only unreachable code leads to makes a balanced block reported unbalanced |
| `AsmLimits.GrowingLoopNeverSettles` | src/asm6502.rs:1517-1571 | on a growing loop every sweep changes a depth, so the analysis does not terminate |
| `AsmAnalyze.SumRegisters` | src/asm6502.rs:1573-1581 | the reported registers are what reached instructions read beyond their incoming definitions, and all they write |
| `AsmAnalyze.SumExits` | src/asm6502.rs:1583-1612 | the common depth of the exits, and whether all leave at depth zero |
| `AsmAnalyze.Analyze` | src/asm6502.rs:1419-1619 | the whole analysis: everything for bytes that do not decode, else the summary of a settled state |
| `AsmReads.ReadsExact` | src/asm6502.rs:1573-1581 | a register is reported as read if and only if some instruction reads it behind a self-supporting set of instructions that leave it undefined |
| `AsmReads.PathSound` | src/asm6502.rs:1509-1581 | on every path of any length an unreported register is written before it is read, and all written registers are reported |
| `AsmTaken.ReportIsCarried` | src/asm6502.rs:1509-1581 | a register is reported as read if and only if a walk brings it to a reader unwritten, from the entry, from an instruction without predecessors, or from a cycle that nowhere writes it |
| `AsmTaken.PathExact` | src/asm6502.rs:1509-1581 | where every instruction is reachable and every cycle writes it, that means: if and only if some path from the entry reads it before writing it |
| `AsmTaken.StoreLoopReported` | src/asm6502.rs:1517-1545 | the seven bytes of a loop after LDA are reported to read A, although every path loads A first |
| `AsmBlind.InstructionBlind` | src/asm6502.rs:1621-1768 | an instruction that does not read A, X or Y by the effect table acts the same whatever that register holds; BIT on A and JSR excepted |
| `AsmBlind.BitReadsA` | src/asm6502.rs:1643-1733 | Z after BIT, in both of its modes, depends on A, though the table does not list A |
| `CpuChange.ExecApplies` | src/asm6502.rs:1621-1768 | what an instruction does is to set the registers, flags and cell listed for it, each to a value computed before |
| `AsmFlags.FlagsOneByOne` | src/asm6502.rs:1643-1733 | a flag that an instruction does not use is replaced if the instruction sets it, and otherwise passes through and changes nothing else |
| `AsmFlags.FlagKept` | src/asm6502.rs:1643-1733 | a flag that an instruction does not set is as before |
| `AsmFlags.WritesSomeFlag` | src/asm6502.rs:1643-1733 | the table lists the flags as written exactly where some flag is set, JSR and RTI excepted |
| `AsmFlags.FlagsReplacedExactly` | src/asm6502.rs:1643-1733 | but the flags after an instruction are independent of those before it if and only if it is PLP |
| `AsmFlags.FlagsAreOne` | src/asm6502.rs:1643-1733 | CLC counts as defining what BEQ reads, yet leaves Z as it was |
| `AsmTable.ReadsOfA` | src/asm6502.rs:1643-1733 | A is listed as read if and only if in some state a change of A alone makes the instruction end differently in more than A, or branch differently; BIT is the one omission, and JSR, which runs other code, is left to CallsAndReturns |
| `AsmTable.ReadsOfIndex` | src/asm6502.rs:1643-1733 | likewise X and Y, whether as operand or as index, for every opcode but JSR |
| `AsmTable.ReadsOfS` | src/asm6502.rs:1643-1733 | S is listed as read exactly where it makes such a difference, and for the calls and returns |
| `AsmTable.ReadsOfFlags` | src/asm6502.rs:1676-1690 | the flags are listed as read if and only if in some state a change of one flag alone makes the instruction end differently in more than that flag, or branch differently |
| `AsmTable.WritesOfRegister` | src/asm6502.rs:1643-1733 | A, X and Y are listed as written exactly where the instruction sets them, and keep their value where they are not listed |
| `AsmTable.WritesOfS` | src/asm6502.rs:1643-1768 | S is listed as written exactly where some state is left with another S |
| `AsmTable.ChangesOfS` | src/asm6502.rs:1735-1768 | the depth change of an instruction is by how much it moves S in every state; only TXS and the returns have none |
| `AsmTable.CallsAndReturns` | src/asm6502.rs:1650-1733 | a call counts as reading and writing what the called code may use |
| `AsmLockstep.UnreportedIsIrrelevant` | src/asm6502.rs:1509-1581 | machines that differ only in an unreported A, X or Y run through the block in lockstep for any number of steps, and agree on all other registers and memory, until they leave it or both go astray into an operand; BIT, for A, and JSR only where the register is surely defined |
| `AsmLockstep.NeverAstray` | src/asm6502.rs:1470-1500 | they never go astray where branches and jumps go to instruction starts or out of the block |
| `ConstExpr.Parser.Run` | src/asm6502.rs:736-743 | the parser object, advancing its position, computes the specified value or error for every text |
| `ConstExpr.Parser.ParseOr` | src/asm6502.rs:745-751 | one level of the cascade: reads a longest chain of its operators, left to right |
| `ConstExpr.Parser.ParseShift` | src/asm6502.rs:769-791 | shifts fail on negative or too large amounts |
| `ConstExpr.Parser.ParseUnary` | src/asm6502.rs:830-844 | prefix operators, with the checked negation |
| `ConstExpr.Parser.ParsePrimary` | src/asm6502.rs:846-892 | numbers in three bases, quoted characters, names and parentheses |
| `ConstExpr.ShowParses` | src/asm6502.rs:745-892 | any tree, written with parentheses where the levels of its operators ask for them, parses at any level and before any text that ends it to its value and that text |
| `ConstExpr.WrittenThenEvaluated` | src/asm6502.rs:719-920 | writing a tree and evaluating it gives its value, an error exactly when some 32-bit operation on the way fails, and no number exactly when a name is unknown |
| `ConstLaws.OperatorsCompute` | src/asm6502.rs:745-828 | an operator has a result exactly on the operands for which it is defined; sums, differences and products are inverse or exact, division leaves less than the divisor on the side of the dividend, shifts multiply modulo 2^32 or divide rounding down, and the others combine the 32 bits one by one |
| `ConstLaws.PrefixesCompute` | src/asm6502.rs:830-844 | a sign keeps the number, gives the one that adds up with it to zero, or turns each bit; only the least number cannot be negated |
| `ConstLaws.OperatorReads` | src/asm6502.rs:745-828 | between any two operands each operator sign computes its own operator |
| `ConstLaws.OperatorsBind` | src/asm6502.rs:745-828 | of two operators in a row the first is computed first unless the second is of a tighter class, the classes being bar, caret, ampersand, shifts, plus and minus, star and slash |
| `ConstLaws.EveryOperatorWritten` | src/asm6502.rs:745-828 | these classes hold every operator |
| `ConstLaws.NormalizeCapitalizes` | src/asm6502.rs:1411-1413 | names are compared with the 26 letters in upper case and nothing else changed |
| `ConstLaws.CharactersAre` | src/asm6502.rs:846-892 | the characters that numbers and names are made of |
| `ConstLaws.DigitsCount` | src/asm6502.rs:846-892 | the sixteen digits have their values in either case |
| `ConstLaws.SpaceExactly` | src/asm6502.rs:913-915 | what is skipped is the white space of Unicode |
| `Assembler.Place` | src/asm6502.rs:238-272 | an instruction line gets its encoding, its operand label and its offset as specified |
| `Assembler.PassOne` | src/asm6502.rs:166-273 | the loop over lines fills labels, anonymous labels, constants and instructions as specified |
| `Assembler.PassTwo` | src/asm6502.rs:279-293 | the loop over instructions emits items and relocations as specified |
| `Assembler.TemplateOf` | src/asm6502.rs:1367-1384 | the bytes of the items with every address zero |
| `Assembler.AssembleBlock` | src/asm6502.rs:146-332 | both passes together |
| `AsmForms.ModesAct` | src/asm6502.rs:557-632 | any mode a form of operand may get acts on what the form names, in every state of the machine: the accumulator, the byte itself, the cell, the cell an index further on, or the cell behind a pointer, indexed before or after |
| `AsmForms.ChosenExactly` | src/asm6502.rs:514-632 | an instruction is assembled in exactly one mode or refused: the short form of a cell if and only if the mnemonic has it and either .Z asks for it or, without suffix, the value is already known to be a byte; a branch is relative; operands that cannot be read or start with a parenthesis out of place are refused |
| `AsmForms.LinesInstructed` | src/asm6502.rs:166-273 | the instructions of a block are those of its lines, each once and in order, in the mode chosen with the constants defined before the line |
| `AsmLayout.LayoutExact` | src/asm6502.rs:166-295 | pass two emits as many bytes as pass one laid out if and only if no two-byte operand selects a byte; then decoding the bytes recovers exactly the assembled instructions at their offsets |
| `AsmLayout.WideBlockIsShort` | src/asm6502.rs:1273-1288 | a block with such an operand is accepted with two bytes where three were laid out |
| `AsmLayout.LabelMeansLine` | src/asm6502.rs:172-262 | a label has a value exactly when a line defines it there |
| `AsmLayout.LineStartsInstruction` | src/asm6502.rs:166-273 | the instructions from a line on start where that line's labels point |
| `AsmLayout.AnonymousListed` | src/asm6502.rs:172-175 | the list of anonymous labels holds each anonymous line once, in order |
| `AsmLayout.TargetNamed` | src/asm6502.rs:1198-1231 | a locally resolved operand is the place it names: a label's line, the nearest anonymous line in its direction, or an offset from the instruction |
| `AsmLayout.BranchExact` | src/asm6502.rs:1008-1020 | every branch byte of an accepted block, read back as the analysis reads it, leads to the place its operand names |
| `AsmLayout.FarBranchRefused` | src/asm6502.rs:1008-1020 | a branch to no place or out of reach rejects the block |
| `AsmRelocate.AddressCounted` | src/codegen/machine.rs:643-680 | an address puts out as many bytes as its opcode waits for, or the selected one, low byte first |
| `AsmRelocate.InstructionResolves` | src/codegen/machine.rs:643-680 | resolving the items of one instruction appends its opcode and its final operand, for symbols whose values fit |
| `AsmRelocate.InstructionFills` | src/mir6502/emit.rs:3239-3347 | filling its bytes by its relocation appends the same |
| `AsmRelocate.EncodingsAgree` | src/asm6502.rs:1262-1307 | for a whole block, resolving the items and filling the bytes by the relocations succeed together with the same bytes, at every load address and for all symbols whose values fit |
| `AsmRelocate.PatchesDisjoint` | src/asm6502.rs:1262-1307 | relocations are in order, do not overlap, and each covers exactly the operand of one instruction |
| `AsmMeaning.AssembledExactly` | src/asm6502.rs:279-295 | a block under 64 KB that pass one has laid out is assembled if and only if every operand can be read and fits: a number its bytes, a place in the block two bytes or a selected one, a symbol any but a half in two bytes; and every branch stands for a place within reach |
| `AsmMeaning.OperandAsWritten` | src/asm6502.rs:989-1149 | in the resolved bytes of a block every instruction is as it was written: its opcode at its place, and then the value of the operand's expression, with each name worth its constant, the address of its label or that of its symbol, anonymous labels and the current place counted from the load address, and the selected byte taken; with that operand the instruction acts, in any state of the machine, on what the form of the operand names |
| `AsmMeaning.BranchAsWritten` | src/asm6502.rs:1008-1020 | and every branch, read back as the analysis reads it, goes to the place its expression stands for |
| `AsmMeaning.JumpAsWritten` | src/asm6502.rs:1783-1793 | the analysis is given a target for exactly the direct jumps written to a label, an anonymous label or a place relative to the instruction, and it is the place the expression stands for |
| `AsmMeaning.RelocationValue` | src/mir6502/emit.rs:3239-3347 | a relocation has a value exactly when its target is known and the sum with the addend fits, in a byte where it must |
| `AsmUse.UseIsEffect` | src/asm6502.rs:1309-1349 | an operand is reported as read, written or changed according to what the instruction does to the cell in every state: nothing, a register stored, or a new value the flags tell of; and as indexed exactly where an index moves the cell |
| `AsmUse.OtherUses` | src/asm6502.rs:1309-1349 | calls, direct jumps, pointers and immediate addresses are reported as such, and nothing else is |
| `AsmUse.ShortAddresses` | src/asm6502.rs:1138-1145 | a symbol must be in page zero exactly for the one-byte operands that are addresses |
| `AsmAccept.AssembleAnalyzed` | src/asm6502.rs:296-320 | what is accepted was assembled and reported balanced; what is rejected was not |
| `AsmAccept.AcceptedRunsBalanced` | src/asm6502.rs:296-320 | the runs of an accepted block that has a depth labelling, selects no byte in a two-byte operand and goes to instruction starts or out, all leave the stack as deep as they found it if and only if its branches out and, if it can be left, its edges back to the entry are at depth zero |
| `AsmAccept.BalancedIsAccepted` | src/asm6502.rs:296-320 | such a block, all of whose runs are balanced and from everywhere in which a way leads out, is accepted by the stack analysis if and only if no exit is an orphan |
| `Includes.ByStartAscends` | src/includes.rs:651 | includes are processed in the order of their places in the text |
| `Includes.ExpansionExact` | src/includes.rs:574-720 | whatever the include tree, segments are ordered and disjoint, each repeats its file's text, only line feeds lie outside them, and every file is a real one |
| `Includes.MapIsFaithful` | src/includes.rs:124-140 | each position is covered by at most one segment and holds the character at the mapped place, or is an inserted line feed |
| `Includes.ExpandedText` | src/includes.rs:616-720 | a file's own parts of the expansion are its text without the includes, in order, and each include is replaced by its own expansion |
| `Includes.PartedExactly` | src/includes.rs:676-684 | behind an included text whose last line is not ended one line feed is added exactly if the including text goes on directly with something other than white space |
| `Includes.SpliceProblems` | src/includes.rs:651-720 | every include is tried, and the problems of all of them are reported in order |
| `Includes.ProblemIsReal` | src/includes.rs:574-720 | for every reported problem there is a way along includes to the file it blames; a recursive include is a way that comes back |
| `Includes.ExpandsExactly` | src/includes.rs:574-720 | expansion succeeds if and only if every way along includes can be read and none comes back to a file |
| `SourceLoader.SourceMap.Location` | src/includes.rs:124-140 | a position is answered from the first segment that covers it, with file, line, column and excerpt of the mapped place |
| `SourceLoader.SourceMap.AppendShifted` | src/includes.rs:169-181 | another map's files and segments are added, moved by the offset |
| `SourceLoader.LocationParts` | src/includes.rs:946-973 | the line is one more than the line feeds before the place, the column counts from the last of them, the excerpt is that line |
| `SourceLoader.AppendSourceSlice` | src/includes.rs:821-835 | text and map grow together by a part of the file |
| `SourceLoader.AppendExpandedSource` | src/includes.rs:837-856 | text and map grow together by an included expansion |
| `SourceLoader.Loader.LoadExpandedSource` | src/includes.rs:574-593 | pushing and popping the active files, the loader computes the specified expansion or problems; files of a success are numbered without gaps |
| `SourceLoader.Loader.ExpandSourceIncludes` | src/includes.rs:616-720 | the loop with cursor, growing text and growing map computes the specified expansion |
| `Modules.OpenedSane` | src/includes.rs:398-413 | starting on a module keeps the tables sane: the active modules form a chain of uses from the root, finished ones have all their dependencies before them |
| `Modules.DependencySane` | src/includes.rs:347-357 | so does recording a dependency |
| `Modules.ClosedSane` | src/includes.rs:414-417 | so does finishing a module whose dependencies are complete |
| `Modules.DependsOneMore` | src/includes.rs:347-357 | dependencies are the modules used, each once, in the order of first use |
| `Modules.CycleIsReal` | src/includes.rs:359-371 | the chain of a reported cycle consists of real uses, closes, and can be reached from the root |
| `Modules.FinishedLoadable` | src/includes.rs:288-322 | a graph that can be finished has no cycle of uses, and every reachable module is available |
| `Modules.FinishedExactly` | src/includes.rs:288-322 | its modules are exactly the reachable ones |
| `Modules.UsedEarlier` | src/includes.rs:46-47 | a used module comes before its user in the order |
| `Modules.RealBlocks` | src/includes.rs:359-460 | a real fault means that no complete load exists |
| `ModuleLoader.CompilationLoader.LoadUse` | src/includes.rs:359-418 | the depth-first step finds or loads a module, keeps the tables, text and map sane, and reports only real faults |
| `ModuleLoader.CompilationLoader.LoadNamed` | src/includes.rs:376-396 | a file that a USE resolves to must declare a module of just that name |
| `ModuleLoader.CompilationLoader.LoadUnit` | src/includes.rs:462-493 | a unit's expansion is appended behind a line feed and its span holds exactly that expansion |
| `ModuleLoader.CompilationLoader.LoadDependencies` | src/includes.rs:347-357 | afterwards a module's dependencies are complete |
| `ModuleLoader.CompilationLoader.LoadImplicitSys` | src/includes.rs:324-345 | the root's implicit use of SYS, unless the root is SYS |
| `ModuleLoader.CompilationLoader.Load` | src/includes.rs:288-322 | loading terminates, succeeds if and only if all reachable modules are available and acyclic, and then yields each once with dependencies first and the root last, exact spans and an exact map; otherwise the fault is real |
| `ModuleNames.NamedExactly` | src/includes.rs:376-460 | a name leads to a unit if and only if that unit is embedded under it or, when nothing is and the name does not begin with SYS or ATARI, is the one the search finds, and the unit declares just that name |
| `ModuleNames.FaultExactly` | src/includes.rs:376-460 | a name is refused with a fault if and only if what the fault says is lacking: a failed lookup, a reserved name without its embedded module, nothing found, a file that does not expand or parse, or one of no module or of another |
| `ModuleNames.LoadedComesFrom` | src/includes.rs:376-460 | every loaded module but the root is such a unit |
| `ModuleNames.LoadedDepends` | src/includes.rs:324-357 | the dependencies of a loaded module are the names it uses, each once in the order of first use, with SYS in front for a root that is not SYS |
| `ModuleNames.RootUsedAgain` | src/includes.rs:359-371 | a reachable module that uses the root blocks any load |
| `ModuleNames.ReservedBlocks` | src/includes.rs:432-442 | a reserved name in use that is not embedded blocks any load, whatever the search would find |
| `ModuleNames.SearchesLoadAlike` | src/includes.rs:420-460 | what the search says about reserved and embedded names makes no difference to what can be loaded and how |
| `Linker.LinkGraph.AddNode` | src/linker.rs:80-82 | one more node and the same arrows; there is still no empty edge set |
| `Linker.LinkGraph.AddEdge` | src/linker.rs:84-91 | both ends become nodes and the arrows are those before and the new one; edges stay between nodes and no edge set is empty |
| `Linker.LinkGraph.Closure` | src/linker.rs:107-141 | draining the worklist in any order yields the least closed set over the roots with a reason for exactly its nodes, or the first missing root |
| `Linker.LeastUnique` | src/linker.rs:107-141 | so the result does not depend on the order of roots or of the worklist |
| `Linker.ClosureIdempotent` | src/linker.rs:107-141 | closing again adds nothing |
| `Linker.ClosureOfUnion` | src/linker.rs:107-141 | closing distributes over union of roots |
| `Linker.ExplanationReachesRoot` | src/linker.rs:120-137 | following recorded sources from any kept node reaches a root in finitely many steps, along edges of the graph |
| `LinkGraphs.Flatten` | src/linker.rs:233-292 | items with their homes and ordinals, in program order |
| `LinkGraphs.GraphBuilder.Symbol` | src/linker.rs:391-402 | adds exactly the edge to the routine or else the storage of a symbol, never to the owner itself |
| `LinkGraphs.GraphBuilder.Walk` | src/linker.rs:428-645 | walking a tree adds exactly the edges for what it mentions |
| `LinkGraphs.AddLayout` | src/linker.rs:279-291 | a body with hidden contents is linked to all the rest of its module, and nothing else is |
| `LinkGraphs.BuildGraph` | src/linker.rs:175-292 | the graph has exactly the program's items as nodes and its references and layout dependencies as edges |
| `LinkSelect.Roots` | src/linker.rs:306-332 | the roots of either policy |
| `LinkRoots.RootsAreItems` | src/linker.rs:306-332 | by the items of the program, the roots are the items outside routines of the root module, the declarations with a routine's address in an initializer, and the entry; or else every item |
| `LinkSelect.KeepItems` | src/linker.rs:336-368 | the retaining loop keeps the specified items of a module in order |
| `LinkSelect.Select` | src/linker.rs:301-381 | selection filters by the least closed set over its roots, and fails exactly when the entry routine does not exist |
| `LinkSelect.EntryStays` | src/linker.rs:369-378 | the check for a removed entry never fires on an existing one |
| `LinkSelect.TopTogether` | src/linker.rs:306-332 | under either policy, top-level items of a module are kept all or not at all, so renumbering them is harmless |
| `LinkSelect.SelectionIsComplete` | src/linker.rs:301-381 | under either policy, whatever a kept item refers to is kept and in the selected program, and a kept hidden body keeps its whole module |
| `LinkSelect.SelfContainedExactly` | src/linker.rs:340-349 | the selected program refers to nothing that was dropped if and only if the layouts that stay unreached refer only to what is reached or to other layouts |
| `LinkSelect.SpareMention` | src/linker.rs:340-349 | a record with an array field whose length mentions an otherwise unused variable stays, and the variable does not |
| `LinkSelect.RetainAllIsIdentity` | src/linker.rs:307 | retaining everything returns the same program |
| `LinkSelect.SelectTwice` | src/linker.rs:301-381 | selecting from a selected program by the same policy changes nothing, although ordinals are assigned anew |
| `LinkSelect.SelectAgain` | src/linker.rs:301-381 | running the selection on its own result succeeds whenever it did the first time, with the same program |
| `LinkManifest.ParseManifest` | src/runtime_link_manifest.rs:95-194 | the loops over lines and pending edges yield the specified manifest or rejection |
| `LinkManifest.HeaderExactly` | src/runtime_link_manifest.rs:95-116 | the first line is accepted if and only if it is the magic word, a tab and the number one, with any zeros before it and perhaps a plus sign |
| `LinkManifest.RenderManifest` | src/runtime_link_manifest.rs:219-238 | the text lists every source, node and edge, each source and node once |
| `LinkManifest.RoundTripExactly` | src/runtime_link_manifest.rs:95-238 | parsing the rendering of a manifest, in any order of its entries, gives it back if and only if its source keys hold no tab or line feed, its digests are whole, its edges are between its nodes with no empty edge set, and its node names are non-empty, in upper case, without tab or line feed and not ending in a carriage return |
| `LinkManifest.RoundTrip` | src/runtime_link_manifest.rs:95-238 | and such a manifest is rejected exactly when its sources are not the current ones |
| `LinkManifest.ReadIsWritable` | src/runtime_link_manifest.rs:95-194 | whatever was read has all of these properties but the last |
| `LinkManifest.ReadAgain` | src/runtime_link_manifest.rs:95-238 | so what was read survives being rendered and parsed if and only if no node name ends in a carriage return |
| `LinkManifest.ReadAppend` | src/runtime_link_manifest.rs:117-166 | lines are read independently of how the text is cut between them |
| `LinkManifest.TokenRoundTrip` | src/linker.rs:26-55 | every reason is read back from its token |
| `LinkManifest.WordsRead` | src/linker.rs:41-55 | each of the ten words is read as its reason, and no other word as any |
| `LinkManifest.StrayReturn` | src/runtime_link_manifest.rs:59-69 | a text from which the node `A` with a carriage return at its end is read, and which is not given back by rendering and parsing |
| `EmbeddedImage.NormalizeCrLf` | build_support/embedded_image.rs:51-68 | the loop with its early return computes the specified normalization |
| `EmbeddedImage.NormalizedUndoes` | build_support/embedded_image.rs:51-68 | it undoes a conversion of LF to CR LF, for every byte string |
| `EmbeddedImage.UnchangedExactly` | build_support/embedded_image.rs:51-54 | exactly the byte strings without CR LF stay as they are |
| `EmbeddedImage.IdempotentExactly` | build_support/embedded_image.rs:51-68 | normalizing twice equals normalizing once if and only if there is no CR CR LF |
| `EmbeddedImage.NotIdempotent` | build_support/embedded_image.rs:51-68 | CR CR LF needs two rounds |
| `EmbeddedImage.FieldsSplit` | build_support/embedded_image.rs:70-73 | length-prefixed fields are recovered from their concatenation |
| `EmbeddedImage.SplitFields` | build_support/embedded_image.rs:70-73 | and only those fields have that concatenation |
| `EmbeddedImage.ManifestTells` | build_support/embedded_image.rs:38-44 | equal manifest bytes mean equal kinds, keys, paths and digests, source by source |
| `EmbeddedImage.FieldsPlaced` | build_support/embedded_image.rs:38-44 | the manifest has four fields for each source in order: kind, key, path and the digest of the bytes |
| `EmbeddedImage.PrepareImage` | build_support/embedded_image.rs:22-49 | normalizing in place, sorting and digesting compute the specified image |
| `EmbeddedImage.ByKeySorts` | build_support/embedded_image.rs:29 | the sources are rearranged into ascending key order |
| `EmbeddedImage.AtMostExactly` | build_support/embedded_image.rs:29 | keys are in the order of a dictionary: by the first byte that differs, a key before its continuations |
| `EmbeddedImage.OrderExactly` | build_support/embedded_image.rs:22-49 | the image is the same for every order of the inputs if and only if sources with the same key are the same after normalization |
| `EmbeddedImage.CheckoutDoesNotMatter` | build_support/embedded_image.rs:23-28 | a checkout with CR LF gives the same image if and only if no source had CR LF before |
| `AtariReal.Encode` | src/atari_real.rs:286-329 | filling the digit array and packing it computes the specified result or overflow |
| `AtariReal.RangeExact` | src/atari_real.rs:286-329 | zero exactly below 100^-49 and an overflow exactly from 100^50 on, for decimals of any length |
| `AtariReal.TruncationExact` | src/atari_real.rs:286-329 | otherwise a normalized result that does not exceed the decimal and falls short by less than one unit of its last digit pair |
| `AtariReal.BytesOrdered` | src/atari_real.rs:286-329 | comparing positive results byte by byte compares their values |
| `AtariReal.EncodingMonotone` | src/atari_real.rs:286-329 | encoding never reverses the order of two decimals, whatever their signs |
| `AtariReal.NoDoubleRounding` | src/atari_real.rs:59-97 | below 10^8, rounding the encoded value is rounding the decimal itself, halves away from zero |
| `AtariReal.ExactIsWhole` | src/atari_real.rs:59-97 | the flag of a rounded result is set if and only if the encoded value is an integer, and then that integer is the result |
| `AtariReal.TooLargeExactly` | src/atari_real.rs:59-97 | there is no result exactly when the magnitude is 2^127 or more |
| `AtariRealText.ParseText` | src/atari_real.rs:183-284 | the scanner with its moving position accepts and rejects as specified, with the same offset in errors |
| `AtariRealText.SpelledIsParsed` | src/atari_real.rs:183-284 | every legal spelling is accepted with its meaning |
| `AtariRealText.ParsedIsSpelled` | src/atari_real.rs:183-284 | and nothing else is accepted |
| `AtariRealText.FromDecimal` | src/atari_real.rs:99-102 | parsing followed by encoding |
| `ExprParser.Parser.Expression` | src/parser.rs:3113-3126 | the climbing loop with its moving position parses the specified tree and stops at the specified token |
| `ExprParser.Parser.Prefix` | src/parser.rs:3146-3214 | prefix operators, literals, names and parentheses |
| `ExprParser.Parser.Postfix` | src/parser.rs:3216-3285 | the loop over calls, indices, carets and fields |
| `ExprParser.Parser.AfterLeft` | src/parser.rs:3128-3144 | the variant that starts behind a given left side and operator |
| `ExprParser.ShowParses` | src/parser.rs:3113-3285 | a tree written for an operand of any level is read whole before any text that stops it |
| `ExprParser.WrittenThenRead` | src/parser.rs:3113-3285 | writing any tree with the fewest parentheses and reading it gives the same tree |
| `ExprParser.WrittenShortest` | src/parser.rs:3113-3285 | no shorter text reads as the same tree, so every pair of parentheses in what was written is needed |
| `ExprParser.CompoundIsExpansion` | src/parser.rs:2909-2931 | the compound form parses exactly like target, operator and right side written out, and fails when that does |
| `ExprParser.SimpleCompound` | src/parser.rs:2933-2942 | a value is judged simple if and only if it is target, operator and the right side read on its own, whole |
| `ExprOrder.OperatorsOrdered` | src/parser.rs:3113-3126 | of two operators in a row the first takes its operands first unless the second is of a tighter class, the classes being star, slash, MOD and the shifts; plus and minus; the relations; AND; OR; XOR; each token builds its own operator |
| `ExprOrder.CompoundOrdered` | src/parser.rs:3128-3144 | behind a given left side and operator the same classes decide |
| `ExprOrder.OthersEnd` | src/parser.rs:3368-3379 | a token of no class ends the expression |
| `ExprOrder.PrefixTighter` | src/parser.rs:3146-3214 | a prefix operator takes its operand before any of them |
| `ExprOrder.CaretTighter` | src/parser.rs:3216-3285 | and a caret goes to the operand before the prefix operator |

## Left out

- Decimal mode: the machine that runs lines stands still when it adds or subtracts with the decimal flag set; the machine that runs bytes adds in binary whatever the flag. The routines here clear the flag first.
- Interrupts, timing and undocumented opcodes of the 6502.
- Code that changes its own instructions: operand labels are laid out, but runs take the bytes as they were assembled.
- The entry and exit of fault handling is not followed into Error; its return is modelled by an arbitrary state.
- AsmStack.RunsOnLabels: depths are unbounded integers, so the wrap-around of the 16-bit depth after more than 32767 pushes is not modelled.
- AsmBalance.LabelledReportIsExact: does not say when the report is right about code that branches into operands; that the report can then be wrong is AsmLimits.OperandBranchMisreported, and which such bytes are balanced is AsmBytes.AnyBlockBalanced.
- AsmLockstep.UnreportedIsIrrelevant: covers BIT for A, and JSR, only where the register is surely defined before, because the effect table is wrong for the one and the other runs code outside the block; flags are not covered because the table takes them for one register. A run that goes astray into an operand is not followed further.
- AsmFlags.FlagsReplacedExactly: RTI ends a block, so the flags it loads from the stack are not modelled.
- HelperText.TextAssembles: a label and the instruction behind it on the same line of the text are two lines here.
- AsmSweep.Settle: takes a limit, because the original loop need not end.
- AsmRelocate.EncodingsAgree: assumes values that fit and blocks shorter than 64 KB; otherwise the original's passes report errors.
- Assembler.AssembleBlock: starts from lines already split into labels, mnemonic and operand; comment stripping, line splitting and the order of diagnostics are left out, and all diagnostics are one rejection.
- ConstExpr.Parser.Run: quoted characters have their value from a table, because the character encoding is defined elsewhere.
- Names are compared after ASCII upper-casing; the macro-like directives that the assembler rejects are rejected as unknown mnemonics.
- Includes.ExpandsExactly: resolving origins, canonical keys and include paths are arbitrary functions of the provider, and parsing is an arbitrary function from text to a program whose includes lie within the text.
- SourceLoader.SourceMap.Location: offsets count characters rather than UTF-8 bytes.
- The expansion of includes on syntax trees (`expand_program`), which produces no source map.
- ModuleLoader.CompilationLoader.Load: the 32-bit limits on module and file numbers are not modelled, and display names are the canonical ones.
- Coalescing of search roots and host path lookup: the search for a module is an arbitrary function.
- LinkGraphs.GraphBuilder.Walk: statements and expressions are trees of mentions, calls and hidden parts; the many syntactic forms that lead to the same mention are not told apart.
- LinkManifest.RenderManifest: takes the entries in any order instead of the sorted one.
- LinkSelect.SelectTwice: the 32-bit wrap-around of ordinals is not modelled.
- EmbeddedImage.ManifestTells: SHA-256 is an arbitrary function, and fields are shorter than 2^64 bytes.
- ExprParser.WrittenThenRead: casts, type references, selection expressions, generics and source spans are left out.
- File access, the embedded file system, the command line and listings.
