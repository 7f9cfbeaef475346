/**
 One instruction as a function on machine states.

 Every instruction goes through the same stages: the stack checks, the write protection, the gas charge,
 and then its effect. `EvmInterpreter` runs the instructions arm by arm in the source's own order and is
 proved to follow this function.
 */
module EvmMachine {
  import opened Wrappers
  import opened Words
  import opened SignedWords
  import opened EvmTypes
  import opened EvmMemory
  import opened Opcodes

  const STACK_LIMIT: nat := 1024
  const JUMPDEST_BYTE: Byte := 0x5b

  /** The top of the stack is its last element. */
  datatype Machine = Machine(
    stack: seq<Word>,
    memory: ByteVec,
    gasUsed: U64,
    pc: nat,
    returnData: ByteVec,
    logs: seq<Log>,
    accounts: Accounts)

  datatype Outcome =
    | Next(machine: Machine)
    | Done(machine: Machine, result: ExecutionResult)
    | Fail(error: EvmError, gasUsed: U64)

  // ----- gas -----

  /** Gas used after a charge, or nothing if it does not fit. The sum saturates before it is compared. */
  function Charge(limit: U64, used: U64, amount: nat): Option<U64> {
    var sum := if used + amount > U64_MAX then U64_MAX else used + amount;
    if sum > limit then None else Some(sum)
  }

  function BinaryCost(op: BinaryOp): nat {
    match op
    case MUL | DIV | SDIV | MOD | SMOD | SIGNEXTEND => 5
    case _ => 3
  }

  function LookupCost(op: LookupOp): nat {
    match op
    case ISZERO | NOT | CALLDATALOAD | MLOAD => 3
    case BALANCE | EXTCODESIZE | EXTCODEHASH => 2600
    case BLOCKHASH => 20
    case SLOAD => 2100
  }

  /** What an instruction is charged whatever its operands. */
  function FixedCost(op: Opcode): nat {
    match op
    case Binary(o) => BinaryCost(o)
    case Ternary(_) => 8
    case Nullary(o) => if o == SELFBALANCE then 5 else 2
    case Lookup(o) => LookupCost(o)
    case MSTORE | MSTORE8 | PUSH(_) | DUP(_) | SWAP(_) => 3
    case POP => 2
    case EXTCODECOPY => 2600
    case SSTORE => 20000
    case JUMP => 8
    case JUMPI => 10
    case JUMPDEST => 1
    case _ => 0
  }

  /** The number of significant bits. */
  function BitLength(w: nat): nat {
    if w == 0 then 0 else 1 + BitLength(w / 2)
  }

  function ExpCost(exponent: Word): nat {
    10 + 50 * ((BitLength(exponent) + 7) / 8)
  }

  /** Words needed for `size` bytes; a size near or beyond 64 bits aborts. */
  function WordCount(size: Word): (r: EvmResult<nat>)
    ensures r.Err? ==> r.error == Panic
  {
    if size + 31 > U64_MAX then Err(Panic) else Ok((size + 31) / 32)
  }

  function KeccakCost(size: Word): (r: EvmResult<nat>)
    ensures r.Err? ==> r.error == Panic
  {
    var words :- WordCount(size);
    Ok(30 + 6 * words)
  }

  function CopyCost(size: Word): (r: EvmResult<nat>)
    ensures r.Err? ==> r.error == Panic
  {
    var words :- WordCount(size);
    Ok(3 * words)
  }

  function LogCost(topics: TopicCount, size: Word): (r: EvmResult<nat>)
    ensures r.Err? ==> r.error == Panic
  {
    if size > U64_MAX then Err(Panic)
    else
      var cost := 375 + 375 * topics + 8 * size;
      Ok(if cost > U64_MAX then U64_MAX else cost)
  }

  /** What an instruction is charged for its operands. */
  function DynamicCost(op: Opcode, stack: seq<Word>): EvmResult<nat>
    requires StackInputs(op) <= |stack|
  {
    match op
    case EXP => Ok(ExpCost(Arg(stack, 0)))
    case KECCAK256 => KeccakCost(Arg(stack, 1))
    case Copy(_) => CopyCost(Arg(stack, 2))
    case EXTCODECOPY => CopyCost(Arg(stack, 3))
    case LOG(n) => LogCost(n, Arg(stack, 1))
    case _ => Ok(0)
  }

  /** Gas used after both charges. */
  function GasAfter(ctx: Context, op: Opcode, m: Machine): EvmResult<U64>
    requires StackInputs(op) <= |m.stack|
  {
    match Charge(ctx.gasLimit, m.gasUsed, FixedCost(op))
    case None => Err(OutOfGas)
    case Some(used) =>
      var amount :- DynamicCost(op, m.stack);
      match Charge(ctx.gasLimit, used, amount)
      case None => Err(OutOfGas)
      case Some(used') => Ok(used')
  }

  // ----- operands -----

  /** The `i`-th operand from the top. */
  function Arg(stack: seq<Word>, i: nat): Word
    requires i < |stack|
  {
    stack[|stack| - 1 - i]
  }

  /** The top `n` operands, the top first. */
  function Args(stack: seq<Word>, n: nat): (args: seq<Word>)
    requires n <= |stack|
    ensures |args| == n && forall i :: 0 <= i < n ==> args[i] == Arg(stack, i)
  {
    seq<Word>(n, i requires 0 <= i < n => Arg(stack, i))
  }

  function Drop(stack: seq<Word>, n: nat): seq<Word>
    requires n <= |stack|
  {
    stack[..|stack| - n]
  }

  /** A word used as a machine index; one that does not fit aborts. */
  function AsIndex(w: Word): EvmResult<U64> {
    if w > U64_MAX then Err(Panic) else Ok(w)
  }

  function AddressOf(w: Word): Address {
    w % TWO_160
  }

  /** `size` bytes from `offset`, zero-filled past the end. */
  function GetSlice(data: ByteVec, offset: Word, size: Word): EvmResult<ByteVec> {
    if size == 0 then Ok([])
    else if offset > U64_MAX || size > MAX_VEC then Err(Panic)
    else Ok(Slice(data, offset, size))
  }

  function MemoryGet(memory: ByteVec, offset: Word, size: Word): EvmResult<ByteVec> {
    if offset > U64_MAX || size > MAX_VEC then Err(Panic) else Ok(Slice(memory, offset, size))
  }

  // ----- values -----

  function OfBool(b: bool): Word {
    if b then 1 else 0
  }

  /** `b` is the top of the stack and `a` the word below it. */
  function BinaryValue(op: BinaryOp, a: Word, b: Word): EvmResult<Word> {
    match op
    case ADD => Ok((a + b) % TWO_256)
    case MUL => Ok((a * b) % TWO_256)
    case SUB => Ok((a - b) % TWO_256)
    case DIV => Ok(if b == 0 then 0 else Div(a, b))
    case SDIV => Ok(SignedDiv(a, b))
    case MOD => Ok(if b == 0 then 0 else a % b)
    case SMOD => Ok(SignedMod(a, b))
    case SIGNEXTEND =>
      (match SignExtend(b, a)
       case None => Err(Panic)
       case Some(w) => Ok(w))
    case LT => Ok(OfBool(a < b))
    case GT => Ok(OfBool(a > b))
    case SLT => Ok(OfBool(SignedLess(a, b)))
    case SGT => Ok(OfBool(SignedGreater(a, b)))
    case EQ => Ok(OfBool(a == b))
    case AND => Ok(WordAnd(a, b))
    case OR => Ok(WordOr(a, b))
    case XOR => Ok(WordXor(a, b))
    case BYTE => Ok(if b < 32 then a / Pow2(8 * (31 - b)) % 256 else 0)
    case SHL => Ok(if b >= 256 then 0 else ShiftLeft(a, b))
    case SHR => Ok(if b >= 256 then 0 else ShiftRight(a, b))
    case SAR => Ok(ArithmeticShiftRight(a, b))
  }

  /** `n` is the top of the stack. The intermediate sum or product is not truncated. */
  function TernaryValue(op: TernaryOp, a: Word, b: Word, n: Word): Word {
    if n == 0 then 0 else if op == ADDMOD then (a + b) % n else (a * b) % n
  }

  function NullaryValue(ctx: Context, m: Machine, op: NullaryOp): Word
    requires m.pc < |ctx.code|
  {
    match op
    case ADDRESS => ctx.address
    case ORIGIN => ctx.origin
    case CALLER => ctx.caller
    case CALLVALUE => ctx.value
    case CALLDATASIZE => |ctx.data|
    case CODESIZE => |ctx.code|
    case GASPRICE => ctx.gasPrice
    case RETURNDATASIZE => |m.returnData|
    case COINBASE => ctx.block.coinbase
    case TIMESTAMP => ctx.block.timestamp
    case NUMBER => ctx.block.number
    case DIFFICULTY => ctx.block.difficulty
    case GASLIMIT => ctx.block.gasLimit
    case CHAINID => ctx.block.chainId
    case SELFBALANCE => BalanceOf(m.accounts, ctx.address)
    case BASEFEE => if ctx.block.baseFee.Some? then ctx.block.baseFee.value else 0
    case PC => m.pc
    case MSIZE => |m.memory|
    case GAS => if m.gasUsed > ctx.gasLimit then 0 else ctx.gasLimit - m.gasUsed
    case PUSH0 => 0
  }

  function BalanceOf(accounts: Accounts, a: Address): Word {
    if a in accounts then accounts[a].balance else 0
  }

  function StorageAt(accounts: Accounts, a: Address, key: Word): Word {
    if a in accounts && key in accounts[a].storage then accounts[a].storage[key] else 0
  }

  /** Writing storage creates an empty account where there is none. */
  function WithStorage(accounts: Accounts, a: Address, key: Word, value: Word): Accounts {
    var account := if a in accounts then accounts[a] else EMPTY_ACCOUNT;
    accounts[a := account.(storage := account.storage[key := value])]
  }

  function LookupValue(ctx: Context, memory: ByteVec, accounts: Accounts, op: LookupOp, x: Word): EvmResult<Word> {
    match op
    case BALANCE => Ok(BalanceOf(accounts, AddressOf(x)))
    case EXTCODESIZE => Ok(if AddressOf(x) in accounts then |accounts[AddressOf(x)].code| else 0)
    case EXTCODEHASH =>
      Ok(if AddressOf(x) in accounts && accounts[AddressOf(x)].code != []
         then ctx.keccak(accounts[AddressOf(x)].code) else 0)
    case BLOCKHASH =>
      if x >= ctx.block.number || ctx.block.number - x > 256 then Ok(0)
      else
        var index :- AsIndex(x);
        Ok(if index < |ctx.block.blockHashes| then ctx.block.blockHashes[index] else 0)
    case SLOAD => Ok(StorageAt(accounts, ctx.address, x))
    case ISZERO => Ok(OfBool(x == 0))
    case NOT => Ok(Not(x))
    case CALLDATALOAD =>
      var offset :- AsIndex(x);
      Ok(WordFromBytes(Slice(ctx.data, offset, 32)))
    case MLOAD =>
      var offset :- AsIndex(x);
      Ok(WordFromBytes(Slice(memory, offset, 32)))
  }

  // ----- effects -----

  /** The bytes a copy instruction brings in, from `offset` on. */
  function CopiedBytes(ctx: Context, returnData: ByteVec, op: CopyOp, offset: Word, size: Word): EvmResult<ByteVec> {
    match op
    case CALLDATACOPY => GetSlice(ctx.data, offset, size)
    case CODECOPY => GetSlice(ctx.code, offset, size)
    case RETURNDATACOPY =>
      if offset + size > |returnData| then Err(ReturnDataOutOfBounds)
      else GetSlice(returnData, offset, size)
  }

  /** The code of another account; where there is no account, zeros, and the offset is not looked at. */
  function ExternalCode(accounts: Accounts, account: Address, offset: Word, size: Word): EvmResult<ByteVec> {
    if account in accounts then GetSlice(accounts[account].code, offset, size)
    else if size > MAX_VEC then Err(Panic)
    else Ok(Zeros(size))
  }

  /** Memory after writing `bytes` at the word `offset`. */
  function MemoryAfter(memory: ByteVec, offset: Word, bytes: ByteVec): EvmResult<ByteVec> {
    if offset > U64_MAX then Err(Panic)
    else
      match WriteError(memory, offset, |bytes|)
      case Some(e) => Err(e)
      case None => Ok(Written(memory, offset, bytes))
  }

  function Jump(ctx: Context, dest: Word): EvmResult<nat> {
    if dest > U64_MAX then Err(Panic)
    else if dest >= |ctx.code| || ctx.code[dest] != JUMPDEST_BYTE then Err(InvalidJump(dest))
    else Ok(dest)
  }

  /** The immediate operand: up to `size` bytes after the instruction, right-aligned when the code ends early. */
  function Immediate(code: ByteVec, pc: nat, size: PushSize): (r: (nat, seq<Byte>))
    requires pc < |code|
    ensures pc < r.0 <= |code| && r.1 == code[pc + 1..r.0] && |r.1| <= size
    ensures |r.1| < size ==> r.0 == |code|
  {
    var end := if pc + 1 + size < |code| then pc + 1 + size else |code|;
    (end, code[pc + 1..end])
  }

  /** The value a step leaves: the next machine, or the failure with the gas used so far. */
  function Then(m: Machine, r: EvmResult<Machine>): Outcome {
    match r
    case Ok(m') => Next(m')
    case Err(e) => Fail(e, m.gasUsed)
  }

  /** What an instruction does to a charged machine, unless it stops the run. */
  function Effect(ctx: Context, op: Opcode, m: Machine): EvmResult<Machine>
    requires StackInputs(op) <= |m.stack| && m.pc < |ctx.code|
  {
    var s := m.stack;
    match op
    case Binary(o) =>
      var v :- BinaryValue(o, Arg(s, 1), Arg(s, 0));
      Ok(m.(stack := Drop(s, 2) + [v], pc := m.pc + 1))
    case Ternary(o) =>
      Ok(m.(stack := Drop(s, 3) + [TernaryValue(o, Arg(s, 2), Arg(s, 1), Arg(s, 0))], pc := m.pc + 1))
    case Nullary(o) =>
      Ok(m.(stack := s + [NullaryValue(ctx, m, o)], pc := m.pc + 1))
    case Lookup(o) =>
      var v :- LookupValue(ctx, m.memory, m.accounts, o, Arg(s, 0));
      Ok(m.(stack := Drop(s, 1) + [v], pc := m.pc + 1))
    case EXP =>
      Ok(m.(stack := Drop(s, 2) + [Power(Arg(s, 1), Arg(s, 0)) % TWO_256], pc := m.pc + 1))
    case KECCAK256 =>
      var bytes :- MemoryGet(m.memory, Arg(s, 0), Arg(s, 1));
      Ok(m.(stack := Drop(s, 2) + [ctx.keccak(bytes)], pc := m.pc + 1))
    case Copy(o) =>
      var bytes :- CopiedBytes(ctx, m.returnData, o, Arg(s, 1), Arg(s, 2));
      var memory :- MemoryAfter(m.memory, Arg(s, 0), bytes);
      Ok(m.(stack := Drop(s, 3), memory := memory, pc := m.pc + 1))
    case EXTCODECOPY =>
      var bytes :- ExternalCode(m.accounts, AddressOf(Arg(s, 0)), Arg(s, 2), Arg(s, 3));
      var memory :- MemoryAfter(m.memory, Arg(s, 1), bytes);
      Ok(m.(stack := Drop(s, 4), memory := memory, pc := m.pc + 1))
    case MSTORE =>
      var memory :- MemoryAfter(m.memory, Arg(s, 0), ToBigEndian(Arg(s, 1), 32));
      Ok(m.(stack := Drop(s, 2), memory := memory, pc := m.pc + 1))
    case MSTORE8 =>
      var memory :- MemoryAfter(m.memory, Arg(s, 0), [TopByte(Arg(s, 1))]);
      Ok(m.(stack := Drop(s, 2), memory := memory, pc := m.pc + 1))
    case SSTORE =>
      Ok(m.(stack := Drop(s, 2),
            accounts := WithStorage(m.accounts, ctx.address, Arg(s, 0), Arg(s, 1)),
            pc := m.pc + 1))
    case JUMP =>
      var pc :- Jump(ctx, Arg(s, 0));
      Ok(m.(stack := Drop(s, 1), pc := pc))
    case JUMPI =>
      if Arg(s, 1) == 0 then Ok(m.(stack := Drop(s, 2), pc := m.pc + 1))
      else
        var pc :- Jump(ctx, Arg(s, 0));
        Ok(m.(stack := Drop(s, 2), pc := pc))
    case PUSH(size) =>
      var (end, bytes) := Immediate(ctx.code, m.pc, size);
      Ok(m.(stack := s + [WordFromBytes(bytes)], pc := end))
    case DUP(n) => Ok(m.(stack := s + [Arg(s, n)], pc := m.pc + 1))
    case SWAP(n) => Ok(m.(stack := Swapped(s, n), pc := m.pc + 1))
    case LOG(n) =>
      var bytes :- MemoryGet(m.memory, Arg(s, 0), Arg(s, 1));
      Ok(m.(stack := Drop(s, n + 2),
            logs := m.logs + [Log(ctx.address, Args(Drop(s, 2), n), bytes)],
            pc := m.pc + 1))
    case POP => Ok(m.(stack := Drop(s, 1), pc := m.pc + 1))
    case _ => Ok(m.(pc := m.pc + 1))
  }

  /** Byte 31 of a word counted from the least significant one. */
  function TopByte(w: Word): Byte {
    w / Pow2(248) % 256
  }

  function Swapped(s: seq<Word>, n: nat): seq<Word>
    requires n < |s|
  {
    var top := |s| - 1;
    s[top := s[top - n]][top - n := s[top]]
  }

  /** Charge and effect. */
  function Perform(ctx: Context, op: Opcode, m: Machine): Outcome
    requires StackInputs(op) <= |m.stack| && m.pc < |ctx.code|
  {
    match GasAfter(ctx, op, m)
    case Err(e) => Fail(e, m.gasUsed)
    case Ok(used) =>
      var charged := m.(gasUsed := used);
      match op
      case STOP => Done(charged, ExecutionResult(Status.Success, used, []))
      case RETURN | REVERT =>
        (match MemoryGet(m.memory, Arg(m.stack, 0), Arg(m.stack, 1))
         case Err(e) => Fail(e, used)
         case Ok(bytes) =>
           Done(charged.(stack := Drop(m.stack, 2)),
                ExecutionResult(if op == RETURN then Status.Success else Revert, used, bytes)))
      case _ => Then(charged, Effect(ctx, op, charged))
  }

  /** What the stack checks before every instruction say. */
  function FrontCheck(op: Opcode, depth: nat): Option<EvmError> {
    var inputs, outputs := StackInputs(op), StackOutputs(op);
    var growth := if outputs > inputs then outputs - inputs else 0;
    if depth < inputs then Some(StackUnderflow)
    else if depth + growth > STACK_LIMIT then Some(StackOverflow)
    else None
  }

  function Execute(ctx: Context, op: Opcode, m: Machine): Outcome
    requires m.pc < |ctx.code|
  {
    match FrontCheck(op, |m.stack|)
    case Some(e) => Fail(e, m.gasUsed)
    case None =>
      if ctx.isStatic && (op == SSTORE || op.LOG?) then Fail(StaticCallStateModification, m.gasUsed)
      else Perform(ctx, op, m)
  }

  /** The result an error is reported as. A panic is reported to nobody and never gets here. */
  function HandleError(ctx: Context, e: EvmError, used: U64): ExecutionResult {
    match e
    case OutOfGas => ExecutionResult(Halt(HaltOutOfGas), ctx.gasLimit, [])
    case StackOverflow => ExecutionResult(Halt(HaltStackOverflow), used, [])
    case StackUnderflow => ExecutionResult(Halt(HaltStackUnderflow), used, [])
    case InvalidJump(_) => ExecutionResult(Halt(HaltInvalidJump), used, [])
    case StaticCallStateModification => ExecutionResult(Halt(HaltStateModificationInStatic), used, [])
    case _ => ExecutionResult(Halt(HaltInvalidCode), used, [])
  }

  /**
   BYTE takes the byte counted from the most significant one. MSTORE8 stores the most significant byte of
   its operand, so it stores the operand modulo 256, as the instruction is specified, exactly for operands
   whose first and last bytes agree.
   */
  lemma ByteInstructions(w: Word, i: nat)
    requires i < 32
    ensures BinaryValue(BYTE, w, i) == Ok(ToBigEndian(w, 32)[i])
    ensures TopByte(w) == ToBigEndian(w, 32)[0]
    ensures TopByte(w) == w % 256 <==> ToBigEndian(w, 32)[0] == ToBigEndian(w, 32)[31]
  {
    BigEndianByte(w, 32, i);
    BigEndianByte(w, 32, 0);
    BigEndianByte(w, 32, 31);
  }
}
