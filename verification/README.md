# Verified model of an Ethereum execution client

A Dafny model of the parts of the client where a wrong step is hardest to see: the bytecode interpreter,
proof-of-authority consensus, the fork-choice tree, request fees and the exit queue, log filters, and the
bundle auction with its block assembler. `dafny verify dfyconfig.toml` verifies everything.

| file | what it models |
|---|---|
| Words, SignedWords | 256-bit words, bitwise operators, two's complement |
| Opcodes, EvmTypes, EvmMemory, EvmComponents | the instruction set, memory, stack, gas, accounts |
| EvmMachine, EvmRun, EvmInterpreter | one instruction as a function, whole runs, and the mutable interpreter that follows them |
| EvmArithmetic, EvmEffects | what each instruction leaves and costs, said of the words on the stack |
| EvmRollback, EvmJumps, EvmOperands | what failed runs leave behind, where jumps land, and the order of operands |
| Clique, CliqueRuns, CliqueImport, CliqueSteering | the proof-of-authority engine, whole chains under it, headers imported one by one, and what chains can be made to do |
| ForkChoice, ForkAncestors | the block store, pruning, subtree weights, the heaviest-subtree rule and its start |
| FakeExponential, RequestFees, ExitQueue, BaseFee | fees that follow load, the exit queue, the base fee |
| Bloom, LogFilter, LogPolling, LogResults | header filters, log scans, polling over time, and exactly which logs come out |
| Auction, AuctionLaws, BlockBuilder | bundle selection and block assembly |
| Sorting, Wrappers | the stable sort by a key; options and results |

How things are modelled:

- An abort of the process (an oversized word turned into a machine integer, an overflow of a checked
  operation, a vector beyond its capacity, a division by zero) is an outcome of its own: `Panic`, `Crashed`
  or `None`.
- Overflow of 64-bit arithmetic, where it is modelled, is an abort, as in builds with overflow checks; the
  release profile leaves these checks off and wraps instead. Overflow of 256-bit arithmetic aborts in every build.
- A poll that aborts leaves the filter as unwinding does: what it had pushed stays, the position does not move.
- Hashing and signature recovery are parameters; nothing depends on which functions they are.
- A database is a value passed to each call. The auction's deadline is the number of bundles reached before
  it strikes, and every statement holds for all such numbers. An asynchronous method is one step.
- The proof-of-authority engine has no caller for its two update methods. The model takes a block as its
  checks, then the recency update, then the vote, with consecutive block numbers (`Clique.Engine.ImportBlock`).
- The fork-choice tree is assumed acyclic, as hashes guarantee; a depth that rises from parent to child is
  shown to imply it.

Where the code differs from its documentation, its tests or the standards, the model follows the code:

- A gas limit of u64::MAX is never exhausted, so such runs need not end (`EvmRun.EveryRunHaltsUnless`).
- Operands come in the other order than the standard has them for SUB, LT and GT (`EvmOperands.OperandOrder`),
  DIV and MOD (`EvmOperands.DivisionOrder`), SDIV, SMOD, SLT and SGT (`EvmOperands.SignedOperandOrder`), ADDMOD
  and MULMOD (`EvmOperands.TernaryOrder`) and EXP (`EvmOperands.ExpOrder`).
- MSTORE8 stores the most significant byte (`EvmMachine.ByteInstructions`), SIGNEXTEND at byte 31 aborts
  (`SignedWords.SignExtendMeaning`), and opcodes without an arm are free no-ops (`EvmRun.DepthFollowsMetadata`).
- A jump tests only the byte at its target (`EvmJumps.JumpsLandOnInstructions`).
- A failed run keeps what it stored (`EvmRollback.FailedRunsUndoOnlyIfStatic`).
- A validator list with duplicates, or with the zero address, can leave nobody who may sign
  (`CliqueSteering.StuckUnlessRotates`, `CliqueSteering.StuckUnlessDistinct`), and votes of signers since voted off
  still count (`CliqueSteering.ListedCarryChangesUnless`).
- The search for a common ancestor keeps only its last block's answer (`ForkAncestors.CommonToAllUnless`).
- A validator may exit again once its exit was processed (`ExitQueue.ExitsAgain`), and an exit limit of zero
  leaves the search without an end (`ExitQueue.RoomUnlessZero`).
- Topics are looked up in header filters by their own bytes, not their digest (`Bloom.TopicFound`).
- A transaction can be in a block twice, from a bundle and from the mempool (`BlockBuilder.RepeatsExactly`).
- The withdrawal fee stays at its minimum up to an excess of 12, so two unit tests of the fee expect what
  the code does not do (`RequestFees.FeeIsMinimalUpTo12`).
- A payload base fee from 1 to 7 never moves again while blocks use at most twice their target
  (`BaseFee.StuckFees`).
- A filter with an empty, rather than absent, list of addresses finds nothing (`LogFilter.ShortcutIsExact`),
  and a poll that fails half way delivers again what it had found (`LogPolling.PollingIsExact`).
- Pruning to a block older than the last one pruned to loses blocks whose parent links lead to it
  (`ForkChoice.KeptAreTheLineage`).

## Model

| member | source | states |
|---|---|---|
| Words.BitwiseMeaning | crates/evm/src/interpreter.rs:244-267 | The bitwise operators act bit by bit: bit `i` of AND, OR, XOR is the conjunction, disjunction, inequality of the operands' bits |
| SignedWords.SignedDivModMeaning | crates/evm/src/interpreter.rs:792-829 | SDIV and SMOD are quotient and remainder of the two's-complement values, rounding toward zero, the remainder taking the dividend's sign, for every pair with a non-zero divisor but -2^255 / -1 |
| SignedWords.TruncatedDivisionUnique | crates/evm/src/interpreter.rs:792-829 | Rounding toward zero fixes quotient and remainder, so the statement above determines both results |
| SignedWords.SignedDivModEdges | crates/evm/src/interpreter.rs:792-829 | Division by zero gives zero, and -2^255 / -1 wraps round to -2^255 with remainder 0 |
| SignedWords.SignedOrderMeaning | crates/evm/src/interpreter.rs:201-228 | SLT and SGT compare the two's-complement values |
| SignedWords.ArithmeticShiftMeaning | crates/evm/src/interpreter.rs:848-865 | SAR divides the signed value by 2^shift rounding toward minus infinity, for every shift including those of 256 and more |
| SignedWords.SignExtendMeaning | crates/evm/src/interpreter.rs:831-846 | SIGNEXTEND gives the signed value of the low ext+1 bytes below byte 31, is the identity from 32 on, and aborts at 31, where it subtracts one from zero |
| Opcodes.ByteRoundTrip | crates/evm/src/opcodes.rs:177-265 | Every opcode is decoded from the byte it is encoded as |
| Opcodes.ByteInverse | crates/evm/src/opcodes.rs:177-265 | Every byte that is decoded is the byte its opcode is encoded as, so no two bytes share an opcode |
| Opcodes.BytesFrom00 | crates/evm/src/opcodes.rs:177-265 | Which instructions the bytes from 0x00 to 0x0b stand for, one by one |
| Opcodes.BytesFrom10 | crates/evm/src/opcodes.rs:177-265 | The same from 0x10: comparisons, bits and shifts |
| Opcodes.BytesFrom30 | crates/evm/src/opcodes.rs:177-265 | The same from 0x30: what a run knows of its call |
| Opcodes.BytesFrom40 | crates/evm/src/opcodes.rs:177-265 | The same from 0x40: what it knows of its block |
| Opcodes.BytesFrom50 | crates/evm/src/opcodes.rs:177-265 | The same from 0x50: memory, storage, jumps and PUSH0 |
| Opcodes.BytesFromF0 | crates/evm/src/opcodes.rs:177-265 | The same from 0xf0: calls, creation and ends |
| Opcodes.OtherBytes | crates/evm/src/opcodes.rs:177-265 | PUSH, DUP, SWAP and LOG by their distance from 0x5f, 0x80, 0x8f and 0xa0, and the five bytes that stand alone |
| EvmMemory.BigEndianRoundTrip | crates/evm/src/memory.rs:37-59 | A word below 2^(8n) survives its n-byte big-endian form |
| EvmMemory.BigEndianInverse | crates/evm/src/memory.rs:37-59 | Any byte string is the big-endian form of the word it denotes |
| EvmMemory.Memory.Resize | crates/evm/src/memory.rs:14-18 | Growing pads with zeros; a smaller size changes nothing; a size no vector can have aborts |
| EvmMemory.Memory.Get | crates/evm/src/memory.rs:20-35 | A read at any offset and size gives the bytes there, zero past the end |
| EvmMemory.Memory.GetU256 | crates/evm/src/memory.rs:37-40 | A word read is the big-endian value of 32 such bytes |
| EvmMemory.Memory.Set | crates/evm/src/memory.rs:42-53 | A write replaces exactly the bytes from the offset on, growing as needed; an end beyond 64 bits is refused and changes nothing |
| EvmMemory.Memory.SetU256 | crates/evm/src/memory.rs:55-59 | A word write writes its 32 big-endian bytes |
| EvmMemory.Memory.SetByte | crates/evm/src/memory.rs:61-68 | A byte write writes one byte |
| EvmMemory.Memory.CopyWithin | crates/evm/src/memory.rs:70-85 | A copy, overlapping or not, writes what the source range held before |
| EvmMemory.OneOperation | crates/evm/src/memory.rs:14-85 | Each successful operation on the vector is the position-by-position operation on an infinite zero-filled array |
| EvmMemory.MemoryRefinesTape | crates/evm/src/memory.rs:14-85 | After any sequence of stores, byte stores, word stores and copies, failed ones included, every read at any offset and size reads the infinite array, and the vector never shrank |
| EvmMemory.WordStoreLoad | crates/evm/src/memory.rs:37-59 | A stored word is loaded back, and words that do not overlap it are unchanged |
| EvmComponents.Stack.Push | crates/evm/src/stack.rs:18-24 | Push appends unless 1024 words are there |
| EvmComponents.Stack.Pop | crates/evm/src/stack.rs:26-28 | Pop removes and returns the top, or reports underflow |
| EvmComponents.Stack.Swap | crates/evm/src/stack.rs:45-52 | Swap exchanges the top with the word n below it, or reports underflow |
| EvmComponents.Stack.Dup | crates/evm/src/stack.rs:54-64 | Dup pushes a copy of the word n below the top; underflow is reported before overflow |
| EvmComponents.Stack.Require | crates/evm/src/stack.rs:74-80 | Underflow exactly when fewer than n words are there |
| EvmComponents.Stack.LimitCheck | crates/evm/src/stack.rs:82-88 | Overflow exactly when n more words would exceed 1024 |
| EvmComponents.Gas.Consume | crates/evm/src/gas.rs:15-23 | A charge is added, saturating at 2^64 - 1, unless the sum exceeds the limit, and then nothing changes |
| EvmComponents.StateDB.SetStorage | crates/evm/src/state.rs:31-36 | A storage write sets one key of one account, creating an empty account where there is none |
| EvmMachine.Immediate | crates/evm/src/interpreter.rs:659-669 | A PUSH reads the bytes right after it, as many as its size or as the code has, and goes on behind them |
| EvmMachine.ByteInstructions | crates/evm/src/interpreter.rs:275-288 | BYTE counts from the most significant byte; MSTORE8 (lines 574-581) stores the most significant byte, which is the low byte exactly when the first and last bytes agree |
| EvmArithmetic.AddLaw | crates/evm/src/interpreter.rs:79-86 | ADD leaves the sum, less 2^256 if it does not fit |
| EvmArithmetic.SubLaw | crates/evm/src/interpreter.rs:95-102 | SUB takes the top from the word below: top plus result is that word, or 2^256 more |
| EvmArithmetic.AddAndSubAreInverse | crates/evm/src/interpreter.rs:79-102 | SUB undoes ADD and ADD undoes SUB |
| EvmArithmetic.MulLaw | crates/evm/src/interpreter.rs:87-94 | MUL leaves the word that differs from the product by a multiple of 2^256 |
| EvmArithmetic.DivModLaw | crates/evm/src/interpreter.rs:103-126 | DIV and MOD leave the one quotient and remainder of the word below by the top, and zero for a zero divisor |
| EvmArithmetic.SignedDivModLaw | crates/evm/src/interpreter.rs:111-134 | SDIV and SMOD do so for the signed values, rounding toward zero, with the wrap of -2^255 by -1 |
| EvmArithmetic.CompareLaw | crates/evm/src/interpreter.rs:185-236 | LT, GT, SLT, SGT and EQ compare the word below with the top |
| EvmArithmetic.BitwiseLaw | crates/evm/src/interpreter.rs:244-267 | AND, OR and XOR, bit by bit, of the two words on top |
| EvmArithmetic.ShiftLaw | crates/evm/src/interpreter.rs:289-312 | SHL and SHR, bit by bit: each bit of the word below moves by the top, and what leaves the word is lost, for every top |
| EvmArithmetic.SarLaw | crates/evm/src/interpreter.rs:313-320 | SAR is the signed value of the word below divided by 2 to the top, rounded down |
| EvmArithmetic.ByteLaw | crates/evm/src/interpreter.rs:275-288 | BYTE leaves the byte of the word below that the top numbers from the most significant one, zero from the 32nd on |
| EvmArithmetic.SignExtendLaw | crates/evm/src/interpreter.rs:175-182 | SIGNEXTEND reads the low top-and-one bytes of the word below as signed, changes nothing above 31, and aborts at 31 |
| EvmArithmetic.UnaryLaw | crates/evm/src/interpreter.rs:237-274 | ISZERO tells whether the top is zero; NOT turns every one of its 256 bits |
| EvmArithmetic.TernaryLaw | crates/evm/src/interpreter.rs:135-166 | ADDMOD and MULMOD leave the remainder of the untruncated sum or product by the top, zero for a zero modulus |
| EvmArithmetic.ExpLaw | crates/evm/src/interpreter.rs:167-174 | EXP leaves the power of the word below to the top modulo 2^256, a power being one, the word itself, and a product for a sum of exponents |
| EvmEffects.PopLaw | crates/evm/src/interpreter.rs:552-557 | POP drops the top and nothing else |
| EvmEffects.DupLaw | crates/evm/src/interpreter.rs:673-679 | DUP copies the word under n others to the top |
| EvmEffects.SwapLaw | crates/evm/src/interpreter.rs:682-688 | SWAP exchanges the top with the word under n - 1 others below it |
| EvmEffects.PushLaw | crates/evm/src/interpreter.rs:659-670 | PUSH leaves the word whose big-endian form is the bytes behind it, as many as it says or as there are, and goes on behind them |
| EvmEffects.JumpLaw | crates/evm/src/interpreter.rs:611-616 | JUMP goes to the top if a byte 0x5b is there, is refused if not, and aborts beyond 64 bits |
| EvmEffects.JumpiLaw | crates/evm/src/interpreter.rs:617-627 | JUMPI does so exactly when the word below the top is not zero, and otherwise steps on |
| EvmEffects.StepLaw | crates/evm/src/interpreter.rs:646-650 | JUMPDEST only steps on, and so do opcodes without an arm |
| EvmEffects.SstoreLaw | crates/evm/src/interpreter.rs:592-610 | SSTORE puts the word below the top under the top in the executing account; every other read of storage, and every balance and code, stays |
| EvmEffects.SloadLaw | crates/evm/src/interpreter.rs:582-591 | SLOAD leaves what is stored under the top, and reads back what SSTORE put there |
| EvmEffects.MstoreLaw | crates/evm/src/interpreter.rs:566-573 | MSTORE writes the word below the top at the top, most significant byte first, changes no other byte and grows memory just as far; beyond what memory can hold it is refused or aborts |
| EvmEffects.Mstore8Law | crates/evm/src/interpreter.rs:574-581 | MSTORE8 writes the most significant byte of the word below the top at the top, in the same way |
| EvmEffects.LoadLaw | crates/evm/src/interpreter.rs:558-565 | MLOAD leaves the word whose bytes are those of memory from the top on; CALLDATALOAD (lines 370-377) those of the call data; both abort beyond 64 bits |
| EvmEffects.KeccakLaw | crates/evm/src/interpreter.rs:323-332 | KECCAK256 hashes as many bytes of memory as the word below the top says, from the top on |
| EvmEffects.CopyLaw | crates/evm/src/interpreter.rs:384-463 | A copy makes exactly the bytes of memory from the top on those of its source from the word below on, as many as the third word says, zero past the end; return data only within bounds; and what happens for every operand too large |
| EvmEffects.ExtCodeCopyLaw | crates/evm/src/interpreter.rs:427-442 | EXTCODECOPY does so with the code of the account on top, and writes zeros where there is none |
| EvmEffects.AccountLaw | crates/evm/src/interpreter.rs:341-351 | BALANCE, EXTCODESIZE and EXTCODEHASH (lines 420-480) of the account with the low 160 bits of the top, zero where there is none |
| EvmEffects.BlockHashLaw | crates/evm/src/interpreter.rs:483-496 | BLOCKHASH finds the given hashes of the last 256 blocks, and zero for all others |
| EvmEffects.CallValuesLaw | crates/evm/src/interpreter.rs:335-426 | Which value of the call each of eight instructions pushes |
| EvmEffects.BlockValuesLaw | crates/evm/src/interpreter.rs:497-549 | Which value of the block each of seven instructions pushes, zero for a missing base fee |
| EvmEffects.MachineValuesLaw | crates/evm/src/interpreter.rs:628-658 | Counter, memory size, zero, the gas that with the gas used makes up the limit, and the balance of the executing account |
| EvmEffects.LogLaw | crates/evm/src/interpreter.rs:691-718 | LOG takes offset and size from the top and then its topics, the first first, and appends one log of the executing account with those bytes of memory |
| EvmEffects.EndLaw | crates/evm/src/interpreter.rs:721-734 | RETURN and REVERT end the run with as many bytes of memory as the word below the top says, from the top on, STOP with none |
| EvmEffects.ErrorReports | crates/evm/src/interpreter.rs:743-755 | Which halt reason each error is reported as, with the gas used, or all of it when out of gas |
| EvmEffects.ChargeLaw | crates/evm/src/gas.rs:15-23 | A charge goes through exactly when the sum is within the limit or the limit is u64::MAX |
| EvmEffects.GasLaw | crates/evm/src/gas.rs:15-23 | An instruction uses the fixed charge plus that of its operands and is refused exactly when they exceed a limit below u64::MAX; a size too large to charge for aborts if the fixed part can be paid |
| EvmEffects.OperatorCosts | crates/evm/src/interpreter.rs:79-591 | The fixed charges of operators, pushed values and lookups |
| EvmEffects.InstructionCosts | crates/evm/src/interpreter.rs:323-734 | The fixed charges of all other instructions with an arm |
| EvmEffects.FreeParts | crates/evm/src/interpreter.rs:736-739 | Opcodes without an arm are free, and only EXP, hashing, copies and logs are charged by their operands |
| EvmEffects.ExpCostLaw | crates/evm/src/gas.rs:106-128 | EXP costs 10 and 50 for each byte of the exponent without leading zeros |
| EvmEffects.SizeCostLaw | crates/evm/src/gas.rs:106-128 | Hashing and copying cost by the 32-byte words touched, logging by topics and bytes, held at u64::MAX; sizes beyond 64 bits abort |
| EvmEffects.ChargedBy | crates/evm/src/interpreter.rs:167-718 | Which operand the charge of an instruction goes by |
| EvmOperands.OperandOrder | crates/evm/src/interpreter.rs:95-200 | Exactly which operands of SUB, LT and GT give the same in either order |
| EvmOperands.DivisionOrder | crates/evm/src/interpreter.rs:103-126 | Exactly which operands of DIV and MOD give the same in either order |
| EvmOperands.SignedOperandOrder | crates/evm/src/interpreter.rs:111-228 | Exactly which operands of SDIV, SMOD, SLT and SGT give the same in either order |
| EvmOperands.TernaryOrder | crates/evm/src/interpreter.rs:135-166 | Operands for which ADDMOD and MULMOD differ from the standard's order |
| EvmOperands.ExpOrder | crates/evm/src/interpreter.rs:167-174 | Operands for which EXP differs from the standard's order |
| EvmRun.DepthFollowsMetadata | crates/evm/src/opcodes.rs:280-371 | A successful instruction changes the depth by outputs minus inputs exactly when it is not one of the ten opcodes without an arm whose metadata promises a change |
| EvmRun.EffectFrame | crates/evm/src/interpreter.rs:592-610 | An instruction changes accounts only by SSTORE, there one key of the executing account, and logs only by LOG |
| EvmRun.ExecuteProgress | crates/evm/src/interpreter.rs:611-627 | An instruction that does not end the run moves the program counter forward or has paid at least 8 gas, and gas used never falls |
| EvmRun.EveryRunIsSafe | crates/evm/src/interpreter.rs:42-67 | At every point of every run: at most 1024 words, gas used and reported within the limit, and the world unchanged but for the executing account's storage (or a new empty account there); a static run changes nothing and logs nothing |
| EvmRun.HaltsWithinBound | crates/evm/src/interpreter.rs:42-67 | With a gas limit below u64::MAX every run is over after at most (limit / 8 + 1) times the code length instructions |
| EvmRun.EndlessLoop | crates/evm/src/gas.rs:15-23 | With a gas limit of u64::MAX the saturating charge is never refused, and JUMPDEST, PUSH1 0, JUMP runs forever |
| EvmRun.EveryRunHaltsUnless | crates/evm/src/interpreter.rs:42-67 | All runs under a gas limit halt if and only if the limit is not u64::MAX |
| EvmRun.RunEnds | crates/evm/src/interpreter.rs:42-67 | A run ends with success behind its code, and with an invalid-opcode halt on a byte that is no opcode |
| EvmRollback.RevertKeepsStore | crates/evm/src/interpreter.rs:728-734 | A run that stores 1 where 0 was read and reverts leaves the 1 to be read |
| EvmRollback.HaltKeepsStore | crates/evm/src/interpreter.rs:743-755 | A run that stores 1 where 0 was read and fails leaves the 1 to be read |
| EvmRollback.FailedRunsUndoOnlyIfStatic | crates/evm/src/interpreter.rs:728-755 | All runs that end in REVERT leave the accounts as they were if and only if the context is static, and so do all that end in an error |
| EvmJumps.StartsAndOperands | crates/evm/src/interpreter.rs:659-670 | Every byte of a code starts an instruction or is an operand byte of a PUSH, never both |
| EvmJumps.JumpsLandOnInstructions | crates/evm/src/interpreter.rs:757-764 | Every accepted jump target starts an instruction if and only if no operand byte of a PUSH is 0x5b |
| EvmJumps.RunsStayOnInstructions | crates/evm/src/interpreter.rs:42-67 | Then the program counter of every run stays on instruction starts |
| EvmJumps.RunsCanLeaveInstructions | crates/evm/src/interpreter.rs:757-764 | A code with such an operand whose run executes an operand byte |
| EvmInterpreter.ReadSlice | crates/evm/src/interpreter.rs:774-790 | A slice of code or data holds the bytes there and zeros past the end; oversized offsets and sizes abort, except with size zero |
| EvmInterpreter.Interpreter.ExecuteBinary | crates/evm/src/interpreter.rs:79-320 | The arm leaves the machine `EvmMachine.Perform` gives, or its error with accounts and logs untouched: the twenty operators with two operands, from ADD to SAR, the top of the stack on the right (`EvmArithmetic.AddLaw` to `EvmArithmetic.SignExtendLaw`) |
| EvmInterpreter.Interpreter.ExecuteTernary | crates/evm/src/interpreter.rs:135-166 | The arm leaves the machine `EvmMachine.Perform` gives, or its error with accounts and logs untouched: the modulus on top, the intermediate sum or product not truncated (`EvmArithmetic.TernaryLaw`) |
| EvmInterpreter.Interpreter.ExecuteNullary | crates/evm/src/interpreter.rs:335-658 | The arm leaves the machine `EvmMachine.Perform` gives, or its error with accounts and logs untouched: the twenty instructions from ADDRESS to PUSH0 that push a value the machine knows (`EvmEffects.CallValuesLaw`, `BlockValuesLaw`, `MachineValuesLaw`) |
| EvmInterpreter.Interpreter.ExecuteLookup | crates/evm/src/interpreter.rs:237-591 | The arm leaves the machine `EvmMachine.Perform` gives, or its error with accounts and logs untouched: the nine instructions with one operand, ISZERO, NOT, BALANCE, CALLDATALOAD, EXTCODESIZE, EXTCODEHASH, BLOCKHASH, MLOAD and SLOAD (`EvmArithmetic.UnaryLaw`, `EvmEffects.AccountLaw`, `LoadLaw`, `BlockHashLaw`, `SloadLaw`) |
| EvmInterpreter.Interpreter.ExecuteExp | crates/evm/src/interpreter.rs:167-174 | The arm leaves the machine `EvmMachine.Perform` gives, or its error with accounts and logs untouched: charged by the exponent's length (`EvmArithmetic.ExpLaw`) |
| EvmInterpreter.Interpreter.ExecuteKeccak | crates/evm/src/interpreter.rs:323-332 | The arm leaves the machine `EvmMachine.Perform` gives, or its error with accounts and logs untouched: charged by size, hashing a memory range (`EvmEffects.KeccakLaw`) |
| EvmInterpreter.Interpreter.ExecuteCopy | crates/evm/src/interpreter.rs:384-463 | The arm leaves the machine `EvmMachine.Perform` gives, or its error with accounts and logs untouched: call data, code or return data into memory, return data only within bounds (`EvmEffects.CopyLaw`) |
| EvmInterpreter.Interpreter.ExecuteExtCodeCopy | crates/evm/src/interpreter.rs:427-442 | The arm leaves the machine `EvmMachine.Perform` gives, or its error with accounts and logs untouched: another account's code, or zeros, into memory, with two charges (`EvmEffects.ExtCodeCopyLaw`) |
| EvmInterpreter.Interpreter.ExecutePop | crates/evm/src/interpreter.rs:552-557 | The arm leaves the machine `EvmMachine.Perform` gives, or its error with accounts and logs untouched: one pop (`EvmEffects.PopLaw`) |
| EvmInterpreter.Interpreter.ExecuteMstore | crates/evm/src/interpreter.rs:566-573 | The arm leaves the machine `EvmMachine.Perform` gives, or its error with accounts and logs untouched: a word into memory (`EvmEffects.MstoreLaw`) |
| EvmInterpreter.Interpreter.ExecuteMstore8 | crates/evm/src/interpreter.rs:574-581 | The arm leaves the machine `EvmMachine.Perform` gives, or its error with accounts and logs untouched: a byte into memory (`EvmEffects.Mstore8Law`) |
| EvmInterpreter.Interpreter.ExecuteSstore | crates/evm/src/interpreter.rs:592-610 | The arm leaves the machine `EvmMachine.Perform` gives, or its error with accounts and logs untouched: a storage write (`EvmEffects.SstoreLaw`) |
| EvmInterpreter.Interpreter.ExecuteJump | crates/evm/src/interpreter.rs:611-616 | The arm leaves the machine `EvmMachine.Perform` gives, or its error with accounts and logs untouched: a jump to a byte 0x5b, else an error (`EvmEffects.JumpLaw`) |
| EvmInterpreter.Interpreter.ExecuteJumpi | crates/evm/src/interpreter.rs:617-627 | The arm leaves the machine `EvmMachine.Perform` gives, or its error with accounts and logs untouched: a jump only on a non-zero condition (`EvmEffects.JumpiLaw`) |
| EvmInterpreter.Interpreter.ExecuteJumpdest | crates/evm/src/interpreter.rs:646-650 | The arm leaves the machine `EvmMachine.Perform` gives, or its error with accounts and logs untouched: one gas and one step (`EvmEffects.StepLaw`) |
| EvmInterpreter.Interpreter.ExecutePush | crates/evm/src/interpreter.rs:659-670 | The arm leaves the machine `EvmMachine.Perform` gives, or its error with accounts and logs untouched: the immediate operand, right-aligned when the code ends early (`EvmEffects.PushLaw`) |
| EvmInterpreter.Interpreter.ExecuteDup | crates/evm/src/interpreter.rs:673-679 | The arm leaves the machine `EvmMachine.Perform` gives, or its error with accounts and logs untouched: a copy of a word below (`EvmEffects.DupLaw`) |
| EvmInterpreter.Interpreter.ExecuteSwap | crates/evm/src/interpreter.rs:682-688 | The arm leaves the machine `EvmMachine.Perform` gives, or its error with accounts and logs untouched: an exchange with a word below (`EvmEffects.SwapLaw`) |
| EvmInterpreter.Interpreter.ExecuteLog | crates/evm/src/interpreter.rs:691-718 | The arm leaves the machine `EvmMachine.Perform` gives, or its error with accounts and logs untouched: topics popped in a loop, a log appended (`EvmEffects.LogLaw`) |
| EvmInterpreter.Interpreter.ExecuteStop | crates/evm/src/interpreter.rs:75-78 | The arm leaves the machine `EvmMachine.Perform` gives, or its error with accounts and logs untouched: ends the run with success (`EvmEffects.EndLaw`) |
| EvmInterpreter.Interpreter.ExecuteReturn | crates/evm/src/interpreter.rs:721-734 | The arm leaves the machine `EvmMachine.Perform` gives, or its error with accounts and logs untouched: ends the run with a memory range, as success or revert (`EvmEffects.EndLaw`) |
| EvmInterpreter.Interpreter.ExecuteNoArm | crates/evm/src/interpreter.rs:736-739 | The arm leaves the machine `EvmMachine.Perform` gives, or its error with accounts and logs untouched: one free step (`EvmEffects.StepLaw`) |
| EvmInterpreter.Interpreter.ExecuteArm | crates/evm/src/interpreter.rs:73-740 | After the checks in front, the arm of any opcode does what `EvmMachine.Perform` says, and none of its pops, pushes, dups and swaps fails |
| EvmInterpreter.Interpreter.ExecuteOpcode | crates/evm/src/interpreter.rs:69-741 | Checks, write protection and arm together do what `EvmMachine.Execute` says, for every opcode and state, and a stack error comes exactly when the two checks in front say so |
| EvmInterpreter.Interpreter.Step | crates/evm/src/interpreter.rs:43-62 | One turn of the loop is one turn of the run, ending it with the reported result or an abort |
| EvmInterpreter.Interpreter.Run | crates/evm/src/interpreter.rs:42-67 | Whenever the run ends at all, the loop ends with its result, accounts and logs, reports gas within the limit, and leaves the world as `EveryRunIsSafe` says |
| Clique.Engine.HasSignedRecently | crates/consensus/src/clique.rs:77-87 | Whether the signer has an entry at most half the signer list back; an abort exactly when the scan meets an entry later than the block before it finds one |
| Clique.Engine.UpdateRecentSigners | crates/consensus/src/clique.rs:90-103 | The new entry is appended and entries are dropped from the front while beyond the limit; an abort exactly when that reaches an entry later than the block |
| Clique.Engine.CountVotes | crates/consensus/src/clique.rs:120-133 | The two tallies are the numbers of different voters recorded for and against, in whatever order the map is walked |
| Clique.Engine.ClearVotesFor | crates/consensus/src/clique.rs:150-154 | Every voter's vote on the address is removed and nothing else |
| Clique.Engine.Retain | crates/consensus/src/clique.rs:141 | Every occurrence of the address is removed from the list, the order kept |
| Clique.Engine.ProcessVote | crates/consensus/src/clique.rs:106-147 | The vote is recorded, and the list changes, with its votes cleared, exactly at the threshold |
| Clique.Engine.ValidateBlock | crates/consensus/src/clique.rs:177-219 | The verdict: signature, authorisation, recency, period and difficulty, in that order, and an abort exactly when the recency scan aborts; a block is accepted only if no entry is later; when each of them comes is `CliqueImport.AcceptedExactly` and `RefusedBecause` |
| Clique.Engine.ImportBlock | crates/consensus/src/clique.rs:177-195 | A block is checked and, if accepted, recorded in the window and then as a vote; a refused or aborted one changes nothing, and an accepted one never aborts in the updates; for sequences of headers see `CliqueImport.ImportAll` |
| CliqueImport.AcceptedExactly | crates/consensus/src/clique.rs:177-219 | A header is accepted if and only if its signature gives an address that may sign, it is the first block or not earlier than a period, and its difficulty is 1 or 2 |
| CliqueImport.RefusedBecause | crates/consensus/src/clique.rs:177-219 | Exactly when each of the five refusals comes |
| CliqueImport.ImportAll | crates/consensus/src/clique.rs:90-219 | Any headers with consecutive numbers, imported one after the other into a new engine, leave exactly the state after the chain of those accepted, votes to add being those with a non-zero nonce, and every block of that chain passed the signer checks when it came |
| CliqueImport.PrunedIsTight | crates/consensus/src/clique.rs:95-102 | Pruning keeps no entry beyond the limit |
| CliqueImport.WindowIsTight | crates/consensus/src/clique.rs:90-103 | Along every chain the window holds at most N/2 + 1 blocks, all within the last N/2 |
| CliqueImport.WithoutParts | crates/consensus/src/clique.rs:141 | Removing an address removes it from every part of a list and leaves all else in place |
| CliqueRuns.WindowIsSuffix | crates/consensus/src/clique.rs:90-103 | Along every chain the window is a suffix of the history, and every pruned entry lies outside the limit for the next block although the list may have grown |
| CliqueRuns.WindowLosesNothing | crates/consensus/src/clique.rs:77-103 | On every chain and for every address the recency test on the pruned window equals the test on the whole history, and never aborts |
| CliqueRuns.MaySignOnChain | crates/consensus/src/clique.rs:177-195 | An address may sign next if and only if it is listed and none of its blocks is among the last N/2 |
| CliqueRuns.NoEarlyRepeat | crates/consensus/src/clique.rs:190-195 | In every accepted chain two blocks of one signer are more than N/2 apart, N being the list's length before the second |
| CliqueRuns.FixedSignersRotate | crates/consensus/src/clique.rs:190-195 | In every accepted chain nobody signs twice within N/2 + 1 consecutive blocks, N being the number of signers before the last of them |
| CliqueRuns.NeverStuck | crates/consensus/src/clique.rs:77-87 | If after a chain more different addresses that sign are listed than half the list's length, one of them may sign next; the conditions on the configured list are `StuckUnlessRotates` and `StuckUnlessDistinct` |
| CliqueRuns.SignersStayDistinct | crates/consensus/src/clique.rs:136-144 | Votes never put an address on the list twice |
| CliqueRuns.DistinctNeverStuck | crates/consensus/src/clique.rs:20-30 | From a list without duplicates, somebody may sign next if and only if somebody is listed at all |
| CliqueSteering.DuplicatesGetStuck | crates/consensus/src/clique.rs:20-30 | Every configured list that does not rotate has an accepted chain after which the list is not empty and nobody on it may sign |
| CliqueSteering.VoteOut | crates/consensus/src/clique.rs:106-147 | While more different addresses that sign are listed than half the list's length, any listed address but zero can be voted out by blocks that are all let through |
| CliqueSteering.Carry | crates/consensus/src/clique.rs:106-147 | Under the same condition any proposal on an address but zero is carried by blocks that are all let through, the last making the threshold exactly, with all other votes untouched |
| CliqueSteering.StuckUnlessRotates | crates/consensus/src/clique.rs:20-30 | If every listed address can sign: on every accepted chain somebody may sign next unless the list is empty, if and only if the configured list has no duplicates, or holds the zero address exactly once and no address more than twice; without the zero address, if and only if it has no duplicates |
| CliqueSteering.StuckUnlessDistinct | crates/consensus/src/clique.rs:20-30 | If the zero address never signs: somebody may sign next on every accepted chain that lists anybody else, if and only if the configured list has neither duplicates nor the zero address, or nobody but zero |
| CliqueSteering.ZeroAddressMatters | crates/consensus/src/clique.rs:106-111 | `[1, 1, 0]` is kept going only by the zero address, which no vote can remove, and gets stuck if that never signs; `[1, 1, 2]` can get stuck either way |
| CliqueRuns.VotesAreLatest | crates/consensus/src/clique.rs:106-154 | The recorded vote of any voter on any address is its latest on the chain since that address last joined or left |
| CliqueRuns.ChangesAreBacked | crates/consensus/src/clique.rs:106-147 | A block can change only the membership of the non-zero address voted on: it joins (leaves) if and only if it was not (was) listed and the latest votes of at least N/2 + 1 different voters say so |
| CliqueRuns.VoteWasCast | crates/consensus/src/clique.rs:183-188 | Every vote that counts was cast by a signer listed at the time, is that signer's latest on the address, and the address has not joined or left since |
| CliqueRuns.BackersWereListed | crates/consensus/src/clique.rs:106-154 | The same for each voter behind a change, the vote in the block itself included |
| CliqueRuns.UnlistedBackersLeft | crates/consensus/src/clique.rs:120-141 | A voter behind a change who is not listed any more has been voted off since casting that vote |
| CliqueRuns.ListedBackers | crates/consensus/src/clique.rs:120-141 | While nobody has been voted off, all voters behind a change are listed at that time; the exact condition on the configured list is `ListedCarryChangesUnless` |
| CliqueSteering.DepartedVotesCount | crates/consensus/src/clique.rs:120-141 | From `[1, 2, 3]` an accepted chain adds 4 with one voter on a list of two, the other having been voted off |
| CliqueSteering.ListedCarryChangesUnless | crates/consensus/src/clique.rs:106-154 | For every configured list: every change on every accepted chain has N/2 + 1 backers listed at that time, if and only if the list's different addresses are at most half its length, when no change is possible at all |
| ForkChoice.RisingIsAcyclic | crates/consensus/src/fork_choice.rs:323-339 | A store in which a depth rises from parent to child has no cycle |
| ForkChoice.CollectDescendants | crates/consensus/src/fork_choice.rs:357-368 | The worklist, which keeps no visited set and may meet a hash many times, terminates and collects exactly the block and its descendants |
| ForkChoice.WorklistShrinks | crates/consensus/src/fork_choice.rs:362-368 | Replacing a hash by its listed children lowers the worklist's total weight by one |
| ForkChoice.Store.AddBlock | crates/consensus/src/fork_choice.rs:323-339 | The block is stored and listed under its parent; the index stays consistent with the parent links if the block's hash commits to its parent |
| ForkChoice.Store.Prune | crates/consensus/src/fork_choice.rs:357-374 | Exactly the finalized block, if present, and its descendants stay, with their lists and attestations; every hash still listed is still stored |
| ForkChoice.PruneKeepsIndex | crates/consensus/src/fork_choice.rs:370-373 | After pruning what is listed is stored under that parent, and every stored block but the finalized one is listed under its parent |
| ForkChoice.KeptAreTheLineage | crates/consensus/src/fork_choice.rs:357-374 | Descent by the child index agrees with the parent links for every block, if and only if pruning does not go back past the block last pruned to |
| ForkChoice.ForwardIsNotBackward | crates/consensus/src/fork_choice.rs:357-374 | Finality that moves to the same block or a descendant never goes back in that sense |
| ForkChoice.PruneBackwardLoses | crates/consensus/src/fork_choice.rs:357-374 | Adding 7 and 8 under it, pruning to 8 and back to 7 drops block 8 although its parent links lead to 7 |
| ForkChoice.CalculateSubtreeWeight | crates/consensus/src/fork_choice.rs:268-282 | The recursion terminates on every acyclic tree with one plus the sum over the listed children, or aborts exactly when that does not fit 64 bits |
| ForkChoice.SubtreeIsDescent | crates/consensus/src/fork_choice.rs:268-282 | A subtree holds its root's descendants and nothing else |
| ForkChoice.AncestorsAreComparable | crates/consensus/src/fork_choice.rs:213-226 | Of two ancestors of one block, one descends from the other |
| ForkChoice.WeightIsSubtreeSize | crates/consensus/src/fork_choice.rs:268-282 | With every hash listed once, the weight is the number of blocks in the subtree |
| ForkChoice.BuildBlockTree | crates/consensus/src/fork_choice.rs:213-226 | The tree lists the blocks under their parents in the order given |
| ForkChoice.TreeListsBlocks | crates/consensus/src/fork_choice.rs:213-226 | A hash is listed under a parent if and only if some block says so |
| ForkChoice.TreeKeepsOrder | crates/consensus/src/fork_choice.rs:213-226 | The children of a parent are listed in the order of the blocks, one entry for each block |
| ForkChoice.TreeOfIsForest | crates/consensus/src/fork_choice.rs:213-226 | Blocks with different hashes give a tree that lists every hash once |
| ForkChoice.PickHeaviest | crates/consensus/src/fork_choice.rs:128-137 | The child chosen is no lighter than any of its siblings and heavier than those before it; an abort exactly when a child's weight does not fit 64 bits |
| ForkChoice.DescendHeaviest | crates/consensus/src/fork_choice.rs:121-147 | From a start the descent aborts exactly when a weight of the start's children does not fit 64 bits; otherwise it ends at a leaf reached through heaviest children only and returns the block with that hash, or none if and only if the start is a leaf that is no block |
| ForkAncestors.CollectAncestors | crates/consensus/src/fork_choice.rs:237-249 | The first loop collects a block's stored chain and ends where it does |
| ForkAncestors.FindCommonAncestor | crates/consensus/src/fork_choice.rs:229-265 | The search's answer: where the last block's chain meets the first's, or an error for no blocks; what that is, met or not, is `ClimbIsNearest` and `ClimbEnds` |
| ForkAncestors.ClimbIsNearest | crates/consensus/src/fork_choice.rs:252-262 | Climbing a chain ends at its nearest hash in the set, if there is one |
| ForkAncestors.ClimbEnds | crates/consensus/src/fork_choice.rs:237-262 | A climb that meets nothing ends at the one hash of the chain that is not stored, and at the zero hash if and only if all are stored |
| ForkAncestors.ChainIsLineage | crates/consensus/src/fork_choice.rs:237-249 | The chain of a hash is what its parent links lead to before the zero hash |
| ForkAncestors.UnstoredParents | crates/consensus/src/fork_choice.rs:252-262 | Two blocks with unstored parents, for which the answer is the last one's parent |
| ForkAncestors.TwoBlocksMeet | crates/consensus/src/fork_choice.rs:229-265 | For two blocks whose chains meet, the answer is on both, and all else on both lies above it |
| ForkAncestors.CommonToAllUnless | crates/consensus/src/fork_choice.rs:229-265 | For two blocks or more the answer is an ancestor of every block if and only if every block meets the first one's chain where the last block does or below |
| ForkAncestors.AnswerSkipsBlock | crates/consensus/src/fork_choice.rs:252-262 | Three blocks for which the answer is no ancestor of the second |
| ForkAncestors.SelectGhost | crates/consensus/src/fork_choice.rs:115-148 | The whole rule: the search, then the descent from its answer |
| FakeExponential.Compute | crates/consensus/src/eip7002.rs:197-213 | The loop returns the rounded series of 256 terms, and aborts exactly when some step overflows or the denominator is zero |
| FakeExponential.ZeroStays | crates/core/src/eip7691.rs:107-123 | Once a term is zero all later ones are, so stopping early changes nothing |
| FakeExponential.ValueMonotone | crates/consensus/src/eip7002.rs:197-213 | A larger numerator never gives a smaller value, and overflows whenever a smaller one does |
| FakeExponential.SmallNumeratorsFit | crates/consensus/src/eip7002.rs:197-213 | For a numerator up to sixteen denominators and below 2^56, with factor times denominator below 2^128, the loop ends because a term is zero, never by its cap, and nothing reaches 2^256 |
| RequestFees.ExcessIsLargestSuffix | crates/consensus/src/eip7002.rs:164-172 | After any blocks the excess is the largest suffix sum of count minus target, the empty one included |
| RequestFees.ExcessByTwo | crates/consensus/src/eip7002.rs:164-172 | A block moves the excess by its count less 2, down to zero at least |
| RequestFees.CalculateWithdrawalRequestFee | crates/consensus/src/eip7002.rs:188-194 | The fee of an excess, or an abort exactly when its computation overflows |
| RequestFees.FeeFollowsLoad | crates/consensus/src/eip7002.rs:151-176 | The fee never falls after a block at or above target and never rises after one at or below it |
| RequestFees.FeeFitsUpTo272 | crates/consensus/src/eip7002.rs:188-194 | Up to an excess of 272 the fee is computed without overflow |
| RequestFees.FeeIsMinimalUpTo12 | crates/consensus/src/eip7002.rs:448-458 | The fee is never below the minimum and is the minimum if and only if the excess is at most 12; the test expecting more at 10 expects otherwise |
| RequestFees.Contract.AddRequest | crates/consensus/src/eip7002.rs:125-145 | A request is queued unless the fee is short or 16 are queued, in that order; excess and fee are untouched |
| RequestFees.Contract.ProcessRequests | crates/consensus/src/eip7002.rs:151-176 | A block's requests are handed out, the excess becomes the running excess of all blocks so far, and the fee is the fee of that excess |
| RequestFees.Queue.Enqueue | crates/consensus/src/eip7002.rs:374-384 | Appends unless 16 are queued; an abort exactly when the end's index leaves 64 bits |
| RequestFees.Queue.Dequeue | crates/consensus/src/eip7002.rs:386-396 | Removes the oldest |
| RequestFees.Queue.DequeueUpTo | crates/consensus/src/eip7002.rs:398-418 | The oldest requests in order, the rest kept, and the same excess step as the contract's; an abort exactly when that leaves 64 bits |
| RequestFees.CalculateExcessBlobGas | crates/core/src/eip7691.rs:83-95 | The same excess step, for blob gas; an overflow aborts |
| RequestFees.ExcessByBlobs | crates/core/src/eip7691.rs:83-95 | A block moves the excess by its blobs less 3 under the old configuration and less 6 under the new, down to zero at least |
| RequestFees.CalculateBlobBaseFee | crates/core/src/eip7691.rs:98-104 | The blob base fee of an excess, or an abort exactly on overflow |
| RequestFees.BlobFeeFits | crates/core/src/eip7691.rs:98-123 | With either configuration, up to an excess of 53415632, sixteen update fractions, the blob base fee is computed without overflow |
| ExitQueue.Manager.CountExits | crates/consensus/src/eip7002.rs:282-285 | The number of pending exits in an epoch |
| ExitQueue.Manager.CalculateExitEpoch | crates/consensus/src/eip7002.rs:276-295 | The search ends at the earliest epoch with room, from the current one plus 4 |
| ExitQueue.EarliestFreeIsEarliest | crates/consensus/src/eip7002.rs:276-295 | The epoch found has room, every epoch passed over is full, and limit times their number is at most the exits pending |
| ExitQueue.WaitIsBounded | crates/consensus/src/eip7002.rs:276-295 | The epoch found is at most the first considered plus pending / limit |
| ExitQueue.RoomUnlessZero | crates/consensus/src/eip7002.rs:276-295 | There is an epoch with room, at which the search can end, if and only if the limit is not zero |
| ExitQueue.Manager.AddExitRequest | crates/consensus/src/eip7002.rs:247-274 | Refused exactly when the validator has a pending exit; otherwise scheduled there and sorted in |
| ExitQueue.Manager.ProcessEpoch | crates/consensus/src/eip7002.rs:297-311 | Moves exactly the due exits, in order, to processed and returns them; every exit still pending is later than the epoch, and none of those returned is |
| ExitQueue.ProcessTakesDue | crates/consensus/src/eip7002.rs:297-311 | Processed are exactly the pending exits of the epoch or an earlier one, kept exactly the later ones |
| ExitQueue.ProcessKeepsOrder | crates/consensus/src/eip7002.rs:297-311 | Both keep the order of the queue |
| ExitQueue.NewExitLaw | crates/consensus/src/eip7002.rs:247-295 | A new exit carries its request, comes at least 4 epochs on, can be withdrawn 256 after that, and takes the first epoch with fewer than the limit |
| ExitQueue.CountIsNumber | crates/consensus/src/eip7002.rs:282-285 | The count of an epoch is the number of places in the queue with it |
| ExitQueue.NeverOverbooked | crates/consensus/src/eip7002.rs:247-311 | Over every history with a clock that does not go back, pending and processed exits of any epoch are together at most the limit, and pending stays sorted without a validator twice |
| ExitQueue.ExitsAreConserved | crates/consensus/src/eip7002.rs:247-311 | Over every history, whatever its clock does, pending and processed are together exactly the accepted exits |
| ExitQueue.ExitsAgain | crates/consensus/src/eip7002.rs:247-262 | A validator with an earlier exit is accepted again exactly when all its exits were processed |
| ExitQueue.AnotherExitIsLater | crates/consensus/src/eip7002.rs:247-295 | Another exit of a validator is at least the delay after any that was processed |
| ExitQueue.ValidatorExitsTwice | crates/consensus/src/eip7002.rs:247-311 | A history in which a validator exits twice |
| BaseFee.RulesAgree | crates/mev/src/builder.rs:176-199 | The builder's fee equals the payload builder's, aborts included, but is exactly one higher when the fee times the excess gas is less than eight targets, and aborts if that one more does not fit 256 bits |
| BaseFee.EngineStep | crates/engine/src/payload.rs:204-230 | The step is the whole part of fee times distance from the target by eight targets, up above and down below it; none at the target |
| BaseFee.WholePartUnique | crates/engine/src/payload.rs:213-229 | There is only one such whole part |
| BaseFee.BuilderStep | crates/mev/src/builder.rs:176-199 | The builder steps by the same part, but up by one at least |
| BaseFee.EighthExactly | crates/engine/src/payload.rs:213-229 | An empty block takes off fee / 8 and one of twice the target adds fee / 8, exactly |
| BaseFee.ParentDefaults | crates/engine/src/payload.rs:204-211 | A missing fee counts as 1 gwei, and the target is half the limit |
| BaseFee.EngineAborts | crates/engine/src/payload.rs:204-230 | Exactly when it aborts: a zero target that is missed, or a product or sum beyond 256 bits |
| BaseFee.StepBounds | crates/engine/src/payload.rs:204-230 | Up to twice the target a fee of at least 1 stays at least 1 and moves by at most an eighth |
| BaseFee.RiseIsAnEighthExactly | crates/engine/src/payload.rs:213-222 | The rise is at most an eighth for every fee if and only if the gas used is at most twice the target |
| BaseFee.FeeOverManyBlocks | crates/engine/src/payload.rs:204-230 | Over any k such blocks the fee stays at least 1 and 7^k fee_0 <= 8^k fee_k <= 9^k fee_0 |
| BaseFee.SmallFeesAreStuck | crates/engine/src/payload.rs:204-230 | A fee from 1 to 7 stays the same over any blocks that use at most twice their target |
| BaseFee.StuckFees | crates/engine/src/payload.rs:204-230 | No blocks that use at most twice their target can move a fee if and only if it is from 1 to 7 |
| BaseFee.OddLimitMoves | crates/engine/src/payload.rs:204-222 | A block that uses its whole limit of 3 goes beyond twice its target and moves a fee of 4 to 5 |
| Bloom.AddToBloom | crates/filter/src/lib.rs:365-377 | Sets the three bits of the digest in place, those within the filter |
| Bloom.LookUp | crates/filter/src/lib.rs:350-362 | Answers whether the three bits are set, bits beyond the filter counting as set |
| Bloom.IndexBytes | crates/filter/src/lib.rs:350-377 | A bit's index has one digest byte as its low and the next as its high part |
| Bloom.MaskValue | crates/filter/src/lib.rs:350-377 | Its mask is 2 to the index modulo 8 |
| Bloom.AddingIsMonotone | crates/filter/src/lib.rs:350-377 | What was added is found, and what was found before still is |
| Bloom.NoFalseNegatives | crates/filter/src/lib.rs:350-377 | A filter built by any additions never denies one of them |
| Bloom.TopicFound | crates/filter/src/lib.rs:344-377 | A topic, added by its digest and looked up by its own bytes, is found in every filter it was added to if and only if its bits within the filter are among the digest's |
| Bloom.TopicDenied | crates/filter/src/lib.rs:344-377 | A topic and a digest for which it is not found |
| LogFilter.Filter.Matches | crates/filter/src/log_filter.rs:41-61 | A log matches when its address is listed, or no list or an empty one is given, and every constrained topic position holds a listed topic |
| LogFilter.Filter.CollectBlock | crates/filter/src/log_filter.rs:104-120 | The matching logs of a block with their positions, in order; an abort exactly when a matching log has no transaction, with those before it collected |
| LogFilter.Filter.PassesBloom | crates/filter/src/log_filter.rs:87-99 | A block is passed over exactly when a list is given and the filter denies each address on it |
| LogFilter.Filter.GetAllLogs | crates/filter/src/log_filter.rs:76-124 | The range scan with its shortcut, an error for a missing block, an abort for a matching log without a transaction or a number beyond 64 bits; which logs these are, and in what order, is `LogResults.AllLogsAre` |
| LogFilter.SkippedBlockEmpty | crates/filter/src/log_filter.rs:86-99 | A block passed over for a non-empty list has no matching log, if its header filter covers its logs |
| LogFilter.ShortcutIsExact | crates/filter/src/log_filter.rs:76-124 | On every database whose header filters cover their logs the result is the plain block-by-block scan, except that an empty list of addresses finds nothing: the two agree if and only if the list is not empty, the range does not fit 64 bits, the first block of the range that cannot be read is missing, or all can be read and no log in them matches |
| LogFilter.EmptyListMissesLog | crates/filter/src/log_filter.rs:86-99 | A stored, covered and matching log that a filter with an empty list of addresses does not find |
| LogFilter.BuiltFiltersAreExact | crates/filter/src/log_filter.rs:222-280 | For every criteria any calls on the builder can make the result is the plain scan |
| LogFilter.Filter.GetChanges | crates/filter/src/log_filter.rs:69-73 | Hands out everything pending and leaves nothing |
| LogFilter.Filter.PollForChanges | crates/filter/src/log_filter.rs:127-160 | Adds the matching logs of the new blocks and moves on; on a missing block, or a matching log without a transaction, what was found stays pending and the position does not move; which logs these are is `LogResults.PolledLogsAre` |
| LogPolling.PollingIsExact | crates/filter/src/log_filter.rs:127-160 | Over any interleaving of polls and drains on a growing chain, delivered then pending logs are in order exactly the matching logs of blocks 1 to the last polled, if and only if no database polled has, after the last block polled so far, a first block that cannot be read and a matching log up to there |
| LogPolling.CompleteIsExact | crates/filter/src/log_filter.rs:127-160 | Databases that hold every block up to their latest are delivered exactly once |
| LogPolling.FailedPollsDeliverTwice | crates/filter/src/log_filter.rs:127-160 | With block 2 announced but missing, two polls and drains deliver the log of block 1 twice |
| LogResults.WantedIsMatched | crates/filter/src/log_filter.rs:41-61 | A log matches if and only if no address is given or its own is, and at every position with a non-empty list of topics it has one of them |
| LogResults.BlockLogsAre | crates/filter/src/log_filter.rs:104-120 | Of a block exactly the matching logs are collected, each with its block, its transaction and its position in that transaction |
| LogResults.ScanIs | crates/filter/src/log_filter.rs:84-124 | Of a range exactly those of its blocks |
| LogResults.ScanInOrder | crates/filter/src/log_filter.rs:84-124 | They come by block, then transaction, then position, and none twice |
| LogResults.RangeEnds | crates/filter/src/log_filter.rs:163-170 | A number stands for itself, the earliest block for zero, everything else for the latest stored |
| LogResults.AllLogsAre | crates/filter/src/log_filter.rs:76-124 | A filter without an empty list of addresses returns exactly the matching logs of its range, in that order, if the header filters cover their logs |
| LogResults.BuiltLogsAre | crates/filter/src/log_filter.rs:222-280 | The same for every filter the builder makes |
| LogResults.BuilderStarts | crates/filter/src/log_filter.rs:223-230 | A new builder constrains nothing |
| LogResults.RangeAndAddressCalls | crates/filter/src/log_filter.rs:232-250 | What the calls for range and addresses change, and nothing else |
| LogResults.TopicCalls | crates/filter/src/log_filter.rs:252-267 | What the calls for topics change: the given position, and nothing from the fifth on |
| LogResults.PolledLogsAre | crates/filter/src/log_filter.rs:127-160 | While no poll fails half way, delivered and pending logs are exactly the matching logs of blocks 1 to the last polled, in order |
| Auction.ScoringValue | crates/mev/src/bundle.rs:46-52 | The sum over the transactions of the tip above the base fee times the gas limit, or an abort exactly when it does not fit 256 bits |
| Auction.Validate | crates/mev/src/bundle.rs:54-76 | Valid means non-empty, an ordered block range, and no transaction hash twice |
| Auction.SortDescending | crates/mev/src/auction.rs:103-107 | The sorted bundles are in order of falling score and a permutation |
| Auction.HasConflict | crates/mev/src/auction.rs:161-170 | A conflict is a recoverable sender that was used |
| Auction.UpdateUsedAddresses | crates/mev/src/auction.rs:172-182 | All senders are added, or the auction fails if one cannot be recovered |
| Auction.ConsiderNext | crates/mev/src/auction.rs:120-146 | One bundle: gas, then conflict, then value, then its senders, then taken; an abort exactly when one of the sums on the way does not fit |
| Auction.SelectionIsSound | crates/mev/src/auction.rs:109-151 | Whenever the loop stops: disjoint senders, totals equal to sums, gas within the limit, and every exclusion still justified against the winners at that point |
| Auction.SelectionIsAccounted | crates/mev/src/auction.rs:109-151 | Winners come in order of falling score and before everything not reached, and nothing considered is lost |
| Auction.SelectionIsFair | crates/mev/src/auction.rs:88-159 | Both together for the whole auction; if the loop reaches the end below its cap, winners and excluded are exactly the input |
| Auction.Run | crates/mev/src/auction.rs:88-159 | For every moment the deadline may strike the loops compute `Auction.Outcome`: it aborts exactly on overflow, fails exactly when a bundle to be taken has an unrecoverable sender, and otherwise the result has these properties; the condition of the failure is `AuctionLaws.FailsExactly` |
| AuctionLaws.ScoreLaw | crates/mev/src/bundle.rs:46-52 | Each transaction adds to the score its price above 30 gwei, if any, times its gas limit, and to the gas its gas limit |
| AuctionLaws.SumsSplit | crates/mev/src/bundle.rs:46-52 | Score and gas are sums over the transactions |
| AuctionLaws.ConflictIsShared | crates/mev/src/auction.rs:161-182 | A conflict is a known sender shared with a transaction of a winner |
| AuctionLaws.ConsiderLaw | crates/mev/src/auction.rs:115-151 | Of the winners so far exactly when the next bundle is excluded for gas, for a shared sender, for value, fails the auction, or wins, and what then changes |
| AuctionLaws.CapLaw | crates/mev/src/auction.rs:148-150 | At most the cap, or one, are selected, and only that many end the loop early |
| AuctionLaws.FailsExactly | crates/mev/src/auction.rs:115-151 | The auction fails if and only if a bundle reached before cap and deadline has the gas, shares no sender with the winners before it, is worth enough, and has an unknown sender |
| AuctionLaws.WinnersAreValid | crates/mev/src/auction.rs:96-151 | Winners have transactions, a block range, no hash twice and known senders |
| AuctionLaws.InvalidExactly | crates/mev/src/auction.rs:96-101 | Exactly which bundles are excluded as invalid, in order |
| Sorting.SortIsStable | crates/mev/src/auction.rs:103-107 | Bundles of one score keep their order |
| Auction.NothingOverflows | crates/mev/src/auction.rs:104-146 | No auction aborts if each bundle's gas fits 64 bits beside the limit and all scores together fit 256 bits |
| Auction.GasOverflowAborts | crates/mev/src/auction.rs:120-123 | Two transactions of 2^63 gas in one bundle make the auction abort |
| BlockBuilder.EstimateBundleGas | crates/mev/src/builder.rs:238-249 | The sum of gas limits, or an abort exactly when it does not fit 64 bits |
| BlockBuilder.ApplyBundle | crates/mev/src/builder.rs:211-216 | Appends the bundle's transactions in order |
| BlockBuilder.IncludeWinners | crates/mev/src/builder.rs:104-112 | The first phase drops no winner of an auction held to the same limit |
| BlockBuilder.FillFromMempool | crates/mev/src/builder.rs:114-124 | The second phase takes each transaction that still fits, in order of priority; an abort exactly when a sum on the way does not fit 64 bits |
| BlockBuilder.FillIsMaximal | crates/mev/src/builder.rs:118-124 | What is taken fits, and nothing passed over would still fit beside it |
| BlockBuilder.FillConserves | crates/mev/src/builder.rs:118-124 | Taken and passed over are together the mempool |
| BlockBuilder.FillStep | crates/mev/src/builder.rs:118-124 | Each transaction is taken exactly when it fits beside what was taken before it |
| BlockBuilder.FillFits | crates/mev/src/builder.rs:118-124 | The second phase does not abort if every transaction's gas fits 64 bits beside the limit |
| BlockBuilder.AssembledIsRight | crates/mev/src/builder.rs:95-136 | The header's gas is the sum of the included gas limits and within the limit; the winners come first, then mempool transactions in order of priority; these and those passed over are together the mempool, and none passed over would still fit |
| BlockBuilder.WinnersDoNotRepeat | crates/mev/src/auction.rs:129-146 | The winners of an auction share no transaction |
| BlockBuilder.RepeatsExactly | crates/mev/src/builder.rs:104-124 | A block has a transaction twice if and only if one is taken from the mempool twice, or one taken is in a winning bundle as well |
| BlockBuilder.BundledAndPooled | crates/mev/src/builder.rs:104-124 | A transaction in a bundle and in the mempool that is in the block twice |
| BlockBuilder.BuildOptimalBlock | crates/mev/src/builder.rs:95-136 | The block is every winner of the auction in order and then the mempool as far as it fits, with the next number, the gas limit and the base fee in the header; none if the auction fails, and an abort exactly on overflow |

## Left out

- Calls, contract creation, transient storage, memory copy, blob opcodes and self-destruction: the interpreter has no arm for them, and the model has only the free step they take.
- Precompiled contracts, the gas functions and constants no arm uses, and gas refunds.
- Longest-chain selection, a plain maximum, and selection by attestations or checkpoints, whose inputs are fixed placeholders: no attestations, and the zero hash as checkpoint.
- FakeExponential.Compute: the condition under which nothing overflows is the overflow of a step itself; in terms of the inputs only the bounds of SmallNumeratorsFit are given.
- RequestFees.FeeFitsUpTo272: gives a bound and not the first excess that overflows, because that proof would write out every step of the series.
- RequestFees.BlobFeeFits: the same.
- Sealing and producing blocks under proof of authority, and the in-turn timestamp.
- ExitQueue.Manager.AddExitRequest: does not model 64-bit overflow of epoch numbers, and requires a limit of at least one, because otherwise the search has no epoch to end at (RoomUnlessZero).
- ExitQueue.Manager.CalculateExitEpoch: the same.
- BlockBuilder.BuildOptimalBlock: does not model header fields that are copied or constant, nor the coinbase transfer, for which both branches return none.
- Logs pushed into a filter by notification, which bypass the poll position the model follows.
- The bundle pools, the blob pool, sealed bids, relays and payload encoding.
- Validator balances and consolidation, proof of stake, tries, storage engines, networking, synchronisation, remote procedure calls, data availability sampling, history expiry, cryptography and the experimental crates.
