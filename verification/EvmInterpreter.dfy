/**
 The interpreter itself: mutable stack, memory, gas, program counter, logs and accounts, run by a loop
 that executes one arm at a time. Every arm is proved to do what `EvmMachine` says of its instruction, and
 the loop to end as `EvmRun` says the run ends. Arms of the same shape share a method; a failing arm ends
 the run, so whether it pops before or after it charges cannot be observed.
 */
module EvmInterpreter {
  import opened Wrappers
  import opened Words
  import opened EvmTypes
  import opened EvmMemory
  import opened Opcodes
  import opened EvmMachine
  import opened EvmComponents
  import opened EvmRun

  /** The source's slice of code or data, made by copying what there is and resizing. */
  method ReadSlice(data: ByteVec, offset: Word, size: Word) returns (r: EvmResult<ByteVec>)
    ensures r == GetSlice(data, offset, size)
  {
    if size == 0 { return Ok([]); }
    if offset > U64_MAX || size > U64_MAX { return Err(Panic); }
    if size > MAX_VEC { return Err(Panic); }
    if offset >= |data| {
      assert Zeros(size) == Slice(data, offset, size);
      return Ok(Zeros(size));
    }
    var end := if offset + size < |data| then offset + size else |data|;
    var bytes := Resized(data[offset..end], size);
    assert bytes == Slice(data, offset, size);
    return Ok(bytes);
  }

  class Interpreter {
    const context: Context
    const state: StateDB
    const stack: Stack
    const memory: Memory
    const gas: Gas
    var pc: nat
    var returnData: ByteVec
    var logs: seq<Log>
    var result: Option<ExecutionResult>

    constructor (context: Context, state: StateDB)
      ensures this.context == context && this.state == state
      ensures fresh(stack) && fresh(memory) && fresh(gas)
      ensures Valid() && result == None && View() == Initial(state.accounts)
    {
      this.context := context;
      this.state := state;
      stack := new Stack();
      memory := new Memory();
      gas := new Gas(context.gasLimit);
      pc := 0;
      returnData := [];
      logs := [];
      result := None;
    }

    ghost predicate Valid()
      reads this, gas
    {
      gas.limit == context.gasLimit && gas.used <= gas.limit
    }

    /** The machine state the fields stand for. */
    function View(): Machine
      reads this, state, stack, memory, gas
    {
      Machine(stack.data, memory.data, gas.used, pc, returnData, logs, state.accounts)
    }

    /** An arm that was started on `before` and came back with `r` did what `outcome` says. */
    ghost predicate Matches(before: Machine, outcome: Outcome, r: EvmResult<()>)
      reads this, state, stack, memory, gas
    {
      match outcome
      case Next(m) => r == Ok(()) && View() == m && result == None
      case Done(m, res) => r == Ok(()) && View() == m && result == Some(res)
      case Fail(e, used) =>
        && r == Err(e) && state.accounts == before.accounts && logs == before.logs && result == None
        && (e != OutOfGas && e != Panic ==> gas.used == used)
    }

    /** The stack checks have passed for `op` and nothing has happened yet. */
    ghost predicate Ready(op: Opcode)
      reads this, stack, gas
    {
      && Valid() && result == None && pc < |context.code|
      && FrontCheck(op, |stack.data|) == None
    }

    /** Two pops, the top first. */
    method PopTwo() returns (x: EvmResult<Word>, y: Word)
      requires 2 <= |stack.data|
      modifies stack
      ensures x == Ok(Arg(old(stack.data), 0)) && y == Arg(old(stack.data), 1)
      ensures stack.data == Drop(old(stack.data), 2)
    {
      x := stack.Pop();
      var second := stack.Pop();
      y := second.value;
    }

    /** Three pops, the top first. */
    method PopThree() returns (x: EvmResult<Word>, y: Word, z: Word)
      requires 3 <= |stack.data|
      modifies stack
      ensures x == Ok(Arg(old(stack.data), 0)) && y == Arg(old(stack.data), 1) && z == Arg(old(stack.data), 2)
      ensures stack.data == Drop(old(stack.data), 3)
    {
      x := stack.Pop();
      var second := stack.Pop();
      var third := stack.Pop();
      y, z := second.value, third.value;
    }

    /** Four pops, the top first. */
    method PopFour() returns (w: EvmResult<Word>, x: Word, y: Word, z: Word)
      requires 4 <= |stack.data|
      modifies stack
      ensures w == Ok(Arg(old(stack.data), 0)) && x == Arg(old(stack.data), 1)
      ensures y == Arg(old(stack.data), 2) && z == Arg(old(stack.data), 3)
      ensures stack.data == Drop(old(stack.data), 4)
    {
      w := stack.Pop();
      var second: EvmResult<Word>;
      second, y, z := PopThree();
      x := second.value;
    }

    method ReadSource(op: CopyOp, offset: Word, size: Word) returns (r: EvmResult<ByteVec>)
      ensures r == CopiedBytes(context, returnData, op, offset, size)
    {
      match op
      case CALLDATACOPY => r := ReadSlice(context.data, offset, size);
      case CODECOPY => r := ReadSlice(context.code, offset, size);
      case RETURNDATACOPY =>
        if offset + size > |returnData| { return Err(ReturnDataOutOfBounds); }
        r := ReadSlice(returnData, offset, size);
    }

    method ReadMemory(offset: Word, size: Word) returns (r: EvmResult<ByteVec>)
      ensures r == MemoryGet(memory.data, offset, size)
    {
      if offset > U64_MAX || size > U64_MAX { return Err(Panic); }
      r := memory.Get(offset, size);
    }

    method WriteMemory(offset: Word, bytes: ByteVec) returns (r: EvmResult<()>)
      modifies memory
      ensures match MemoryAfter(old(memory.data), offset, bytes)
              case Ok(d) => r == Ok(()) && memory.data == d
              case Err(e) => r == Err(e) && memory.data == old(memory.data)
    {
      if offset > U64_MAX { return Err(Panic); }
      r := memory.Set(offset, bytes);
    }

    method ReadExternalCode(account: Address, offset: Word, size: Word) returns (r: EvmResult<ByteVec>)
      ensures r == ExternalCode(state.accounts, account, offset, size)
    {
      if account in state.accounts {
        r := ReadSlice(state.accounts[account].code, offset, size);
      } else {
        if size > MAX_VEC { return Err(Panic); }
        r := Ok(Zeros(size));
      }
    }

    /** The topics of a log, popped one by one. */
    method PopTopics(n: TopicCount) returns (r: EvmResult<seq<Word>>)
      requires n <= |stack.data|
      modifies stack
      ensures r == Ok(Args(old(stack.data), n))
      ensures stack.data == Drop(old(stack.data), n)
    {
      var topics: seq<Word> := [];
      for k := 0 to n
        invariant |topics| == k && stack.data == Drop(old(stack.data), k)
        invariant forall i :: 0 <= i < k ==> topics[i] == Arg(old(stack.data), i)
      {
        var topic :- stack.Pop();
        topics := topics + [topic];
      }
      assert topics == Args(old(stack.data), n);
      return Ok(topics);
    }

    method ExecuteBinary(op: BinaryOp) returns (r: EvmResult<()>)
      requires Ready(Binary(op))
      modifies this, state, stack, memory, gas
      ensures Valid() && Matches(old(View()), Perform(context, Binary(op), old(View())), r)
    {
      hide BinaryValue, BinaryCost;
      var _ :- gas.Consume(BinaryCost(op));
      var b, a :- PopTwo();
      var v :- BinaryValue(op, a, b);
      var _ :- stack.Push(v);
      pc := pc + 1;
      return Ok(());
    }

    method ExecuteTernary(op: TernaryOp) returns (r: EvmResult<()>)
      requires Ready(Ternary(op))
      modifies this, state, stack, memory, gas
      ensures Valid() && Matches(old(View()), Perform(context, Ternary(op), old(View())), r)
    {
      hide TernaryValue;
      var _ :- gas.Consume(8);
      var n, b, a :- PopThree();
      var _ :- stack.Push(TernaryValue(op, a, b, n));
      pc := pc + 1;
      return Ok(());
    }

    method ExecuteNullary(op: NullaryOp) returns (r: EvmResult<()>)
      requires Ready(Nullary(op))
      modifies this, state, stack, memory, gas
      ensures Valid() && Matches(old(View()), Perform(context, Nullary(op), old(View())), r)
    {
      hide NullaryValue;
      var _ :- gas.Consume(if op == SELFBALANCE then 5 else 2);
      var _ :- stack.Push(NullaryValue(context, View(), op));
      pc := pc + 1;
      return Ok(());
    }

    method ExecuteLookup(op: LookupOp) returns (r: EvmResult<()>)
      requires Ready(Lookup(op))
      modifies this, state, stack, memory, gas
      ensures Valid() && Matches(old(View()), Perform(context, Lookup(op), old(View())), r)
    {
      hide LookupValue, LookupCost;
      var _ :- gas.Consume(LookupCost(op));
      var x :- stack.Pop();
      var v :- LookupValue(context, memory.data, state.accounts, op, x);
      var _ :- stack.Push(v);
      pc := pc + 1;
      return Ok(());
    }

    method ExecuteExp() returns (r: EvmResult<()>)
      requires Ready(EXP)
      modifies this, state, stack, memory, gas
      ensures Valid() && Matches(old(View()), Perform(context, EXP, old(View())), r)
    {
      hide ExpCost, Power;
      var exponent :- stack.Pop();
      var _ :- gas.Consume(ExpCost(exponent));
      var base :- stack.Pop();
      assert stack.data == Drop(old(stack.data), 2);
      var _ :- stack.Push(Power(base, exponent) % TWO_256);
      pc := pc + 1;
      return Ok(());
    }

    method ExecuteKeccak() returns (r: EvmResult<()>)
      requires Ready(KECCAK256)
      modifies this, state, stack, memory, gas
      ensures Valid() && Matches(old(View()), Perform(context, KECCAK256, old(View())), r)
    {
      hide KeccakCost, MemoryGet;
      var offset, size :- PopTwo();
      var cost :- KeccakCost(size);
      var _ :- gas.Consume(cost);
      var data :- ReadMemory(offset, size);
      var _ :- stack.Push(context.keccak(data));
      pc := pc + 1;
      return Ok(());
    }

    method ExecuteCopy(op: CopyOp) returns (r: EvmResult<()>)
      requires Ready(Copy(op))
      modifies this, state, stack, memory, gas
      ensures Valid() && Matches(old(View()), Perform(context, Copy(op), old(View())), r)
    {
      hide CopyCost, CopiedBytes, MemoryAfter;
      var memOffset, dataOffset, size :- PopThree();
      var cost :- CopyCost(size);
      var _ :- gas.Consume(cost);
      var data :- ReadSource(op, dataOffset, size);
      var _ :- WriteMemory(memOffset, data);
      pc := pc + 1;
      return Ok(());
    }

    method ExecuteExtCodeCopy() returns (r: EvmResult<()>)
      requires Ready(EXTCODECOPY)
      modifies this, state, stack, memory, gas
      ensures Valid() && Matches(old(View()), Perform(context, EXTCODECOPY, old(View())), r)
    {
      hide CopyCost, ExternalCode, MemoryAfter;
      var address, memOffset, codeOffset, size :- PopFour();
      var _ :- gas.Consume(2600);
      var cost :- CopyCost(size);
      var _ :- gas.Consume(cost);
      var code :- ReadExternalCode(AddressOf(address), codeOffset, size);
      var _ :- WriteMemory(memOffset, code);
      pc := pc + 1;
      return Ok(());
    }

    method ExecutePop() returns (r: EvmResult<()>)
      requires Ready(POP)
      modifies this, state, stack, memory, gas
      ensures Valid() && Matches(old(View()), Perform(context, POP, old(View())), r)
    {
      var _ :- gas.Consume(2);
      var _ :- stack.Pop();
      pc := pc + 1;
      return Ok(());
    }

    method ExecuteMstore() returns (r: EvmResult<()>)
      requires Ready(MSTORE)
      modifies this, state, stack, memory, gas
      ensures Valid() && Matches(old(View()), Perform(context, MSTORE, old(View())), r)
    {
      hide MemoryAfter;
      var _ :- gas.Consume(3);
      var offset, value :- PopTwo();
      var _ :- WriteMemory(offset, ToBigEndian(value, 32));
      pc := pc + 1;
      return Ok(());
    }

    method ExecuteMstore8() returns (r: EvmResult<()>)
      requires Ready(MSTORE8)
      modifies this, state, stack, memory, gas
      ensures Valid() && Matches(old(View()), Perform(context, MSTORE8, old(View())), r)
    {
      hide MemoryAfter, TopByte;
      var _ :- gas.Consume(3);
      var offset, value :- PopTwo();
      var _ :- WriteMemory(offset, [TopByte(value)]);
      pc := pc + 1;
      return Ok(());
    }

    method ExecuteSstore() returns (r: EvmResult<()>)
      requires Ready(SSTORE)
      modifies this, state, stack, memory, gas
      ensures Valid() && Matches(old(View()), Perform(context, SSTORE, old(View())), r)
    {
      hide WithStorage;
      var key, value :- PopTwo();
      var _ :- gas.Consume(20000);
      state.SetStorage(context.address, key, value);
      pc := pc + 1;
      return Ok(());
    }

    method ExecuteJump() returns (r: EvmResult<()>)
      requires Ready(JUMP)
      modifies this, state, stack, memory, gas
      ensures Valid() && Matches(old(View()), Perform(context, JUMP, old(View())), r)
    {
      var _ :- gas.Consume(8);
      var dest :- stack.Pop();
      var target :- Jump(context, dest);
      pc := target;
      return Ok(());
    }

    method ExecuteJumpi() returns (r: EvmResult<()>)
      requires Ready(JUMPI)
      modifies this, state, stack, memory, gas
      ensures Valid() && Matches(old(View()), Perform(context, JUMPI, old(View())), r)
    {
      hide Jump;
      var _ :- gas.Consume(10);
      var dest, cond :- PopTwo();
      if cond != 0 {
        var target :- Jump(context, dest);
        pc := target;
      } else {
        pc := pc + 1;
      }
      return Ok(());
    }

    method ExecuteJumpdest() returns (r: EvmResult<()>)
      requires Ready(JUMPDEST)
      modifies this, state, stack, memory, gas
      ensures Valid() && Matches(old(View()), Perform(context, JUMPDEST, old(View())), r)
    {
      var _ :- gas.Consume(1);
      pc := pc + 1;
      return Ok(());
    }

    method ExecutePush(size: PushSize) returns (r: EvmResult<()>)
      requires Ready(PUSH(size))
      modifies this, state, stack, memory, gas
      ensures Valid() && Matches(old(View()), Perform(context, PUSH(size), old(View())), r)
    {
      var _ :- gas.Consume(3);
      var (end, data) := Immediate(context.code, pc, size);
      var _ :- stack.Push(WordFromBytes(data));
      pc := end;
      return Ok(());
    }

    method ExecuteDup(n: DupIndex) returns (r: EvmResult<()>)
      requires Ready(DUP(n))
      modifies this, state, stack, memory, gas
      ensures Valid() && Matches(old(View()), Perform(context, DUP(n), old(View())), r)
    {
      var _ :- gas.Consume(3);
      var _ :- stack.Dup(n);
      pc := pc + 1;
      return Ok(());
    }

    method ExecuteSwap(n: SwapDepth) returns (r: EvmResult<()>)
      requires Ready(SWAP(n))
      modifies this, state, stack, memory, gas
      ensures Valid() && Matches(old(View()), Perform(context, SWAP(n), old(View())), r)
    {
      var _ :- gas.Consume(3);
      var _ :- stack.Swap(n);
      pc := pc + 1;
      return Ok(());
    }

    method ExecuteLog(n: TopicCount) returns (r: EvmResult<()>)
      requires Ready(LOG(n))
      modifies this, state, stack, memory, gas
      ensures Valid() && Matches(old(View()), Perform(context, LOG(n), old(View())), r)
    {
      hide LogCost, MemoryGet;
      var offset, size :- PopTwo();
      var topics :- PopTopics(n);
      assert stack.data == Drop(old(stack.data), n + 2);
      var cost :- LogCost(n, size);
      var _ :- gas.Consume(cost);
      var data :- ReadMemory(offset, size);
      logs := logs + [Log(context.address, topics, data)];
      pc := pc + 1;
      return Ok(());
    }

    method ExecuteStop() returns (r: EvmResult<()>)
      requires Ready(STOP)
      modifies this, state, stack, memory, gas
      ensures Valid() && Matches(old(View()), Perform(context, STOP, old(View())), r)
    {
      result := Some(ExecutionResult(Status.Success, gas.used, []));
      return Ok(());
    }

    method ExecuteReturn(op: Opcode) returns (r: EvmResult<()>)
      requires (op == RETURN || op == REVERT) && Ready(op)
      modifies this, state, stack, memory, gas
      ensures Valid() && Matches(old(View()), Perform(context, op, old(View())), r)
    {
      hide MemoryGet;
      var offset, size :- PopTwo();
      var data :- ReadMemory(offset, size);
      result := Some(ExecutionResult(if op == RETURN then Status.Success else Revert, gas.used, data));
      return Ok(());
    }

    method ExecuteNoArm(op: NoArmOp) returns (r: EvmResult<()>)
      requires Ready(NoArm(op))
      modifies this, state, stack, memory, gas
      ensures Valid() && Matches(old(View()), Perform(context, NoArm(op), old(View())), r)
    {
      pc := pc + 1;
      return Ok(());
    }

    /** The arm of an opcode that passed the checks. No pop, push, dup or swap in it fails. */
    method ExecuteArm(op: Opcode) returns (r: EvmResult<()>)
      requires Ready(op)
      modifies this, state, stack, memory, gas
      ensures Valid() && Matches(old(View()), Perform(context, op, old(View())), r)
      ensures r.Err? ==> r.error != StackUnderflow && r.error != StackOverflow
    {
      hide Perform, StackInputs, StackOutputs;
      PerformErrors(context, op, View());
      match op
      case Binary(o) => r := ExecuteBinary(o);
      case Ternary(o) => r := ExecuteTernary(o);
      case Nullary(o) => r := ExecuteNullary(o);
      case Lookup(o) => r := ExecuteLookup(o);
      case Copy(o) => r := ExecuteCopy(o);
      case NoArm(o) => r := ExecuteNoArm(o);
      case STOP => r := ExecuteStop();
      case EXP => r := ExecuteExp();
      case KECCAK256 => r := ExecuteKeccak();
      case EXTCODECOPY => r := ExecuteExtCodeCopy();
      case POP => r := ExecutePop();
      case MSTORE => r := ExecuteMstore();
      case MSTORE8 => r := ExecuteMstore8();
      case SSTORE => r := ExecuteSstore();
      case JUMP => r := ExecuteJump();
      case JUMPI => r := ExecuteJumpi();
      case JUMPDEST => r := ExecuteJumpdest();
      case PUSH(n) => r := ExecutePush(n);
      case DUP(n) => r := ExecuteDup(n);
      case SWAP(n) => r := ExecuteSwap(n);
      case LOG(n) => r := ExecuteLog(n);
      case RETURN => r := ExecuteReturn(op);
      case REVERT => r := ExecuteReturn(op);
    }

    /** The front check, the write protection of SSTORE and LOG, and the arm of the opcode. */
    method ExecuteOpcode(op: Opcode) returns (r: EvmResult<()>)
      requires Valid() && result == None && pc < |context.code|
      modifies this, state, stack, memory, gas
      ensures Valid() && Matches(old(View()), Execute(context, op, old(View())), r)
      ensures r == Err(StackUnderflow) <==> |old(stack.data)| < StackInputs(op)
      ensures r == Err(StackOverflow) <==> FrontCheck(op, |old(stack.data)|) == Some(StackOverflow)
    {
      hide Perform, StackInputs, StackOutputs;
      FrontCheckIsComplete(context, op, View());
      var inputs, outputs := StackInputs(op), StackOutputs(op);
      var _ :- stack.Require(inputs);
      var _ :- stack.LimitCheck(if outputs > inputs then outputs - inputs else 0);
      if context.isStatic && (op == SSTORE || op.LOG?) { return Err(StaticCallStateModification); }
      r := ExecuteArm(op);
    }

    /** One turn of the loop; `Some` when it was the last. */
    method Step() returns (end: Option<EvmResult<ExecutionResult>>)
      requires Valid() && result == None && pc < |context.code|
      modifies this, state, stack, memory, gas
      ensures Valid()
      ensures Turn(context, old(View())) ==
              match end
              case None => Enter(context, View())
              case Some(Ok(res)) => Halted(res, state.accounts, logs)
              case Some(Err(_)) => Crashed
      ensures end == None ==> result == None
    {
      hide Execute, FromByte;
      var byte := context.code[pc];
      var op := FromByte(byte);
      if op == None { return Some(Ok(ExecutionResult(Halt(HaltInvalidOpcode(byte)), gas.used, []))); }
      var r := ExecuteOpcode(op.value);
      if r.Err? {
        return Some(if r.error == Panic then Err(Panic) else Ok(HandleError(context, r.error, gas.used)));
      }
      if result.Some? { return Some(Ok(result.value)); }
      return None;
    }

    /**
     The loop. Whenever the run ends at all, which it does under every limit but u64::MAX
     (`EvmRun.EveryRunHaltsUnless`), the loop ends there, with the same result, accounts and logs.
     */
    method Run() returns (r: EvmResult<ExecutionResult>)
      requires Valid() && result == None && View() == Initial(state.accounts)
      requires Halts(context, state.accounts)
      modifies this, state, stack, memory, gas
      ensures forall n: nat :: !After(context, old(state.accounts), n).Running? ==>
                After(context, old(state.accounts), n) ==
                match r
                case Ok(res) => Halted(res, state.accounts, logs)
                case Err(_) => Crashed
      ensures r.Ok? ==> r.value.gasUsed <= context.gasLimit && Untouched(context, old(state.accounts), state.accounts, logs)
    {
      hide Turn, Untouched;
      ghost var end: nat :| !After(context, state.accounts, end).Running?;
      EveryRunIsSafe(context, state.accounts, end);
      EndIsUnique(context, state.accounts, end);
      ghost var n := 0;
      while pc < |context.code|
        invariant Valid() && result == None
        invariant After(context, old(state.accounts), n) == Enter(context, View())
        invariant n <= end
        decreases end - n
      {
        var stop := Step();
        n := n + 1;
        if stop.Some? {
          assert !After(context, old(state.accounts), n).Running?;
          return stop.value;
        }
      }
      return Ok(ExecutionResult(Status.Success, gas.used, []));
    }
  }
}
