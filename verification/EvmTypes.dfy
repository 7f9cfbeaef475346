/** Errors, contexts, results and accounts of the virtual machine. */
module EvmTypes {
  import opened Wrappers
  import opened Words

  /**
   `Panic` is not a value of the source's error type: it stands for an abort of the process (an oversized
   word turned into a machine integer, an arithmetic overflow, a vector beyond its capacity), which
   unwinds through every caller.
   */
  datatype EvmError =
    | StackOverflow
    | StackUnderflow
    | InvalidJump(dest: nat)
    | OutOfGas
    | InvalidMemoryAccess
    | ReturnDataOutOfBounds
    | StaticCallStateModification
    | Panic

  datatype EvmResult<+T> = Ok(value: T) | Err(error: EvmError) {
    predicate IsFailure() {
      Err?
    }

    function PropagateFailure<U>(): EvmResult<U> {
      if Err? then Err(error) else Err(Panic)
    }

    function Extract(): T
      requires Ok?
    {
      value
    }
  }

  datatype HaltReason =
    | HaltOutOfGas
    | HaltInvalidOpcode(byte: Byte)
    | HaltStackUnderflow
    | HaltStackOverflow
    | HaltInvalidJump
    | HaltStateModificationInStatic
    | HaltInvalidCode

  datatype Status = Success | Revert | Halt(reason: HaltReason)

  datatype ExecutionResult = ExecutionResult(status: Status, gasUsed: nat, returnData: seq<Byte>)

  datatype Log = Log(address: Address, topics: seq<Word>, data: seq<Byte>)

  /** A vector of bytes is never longer than the allocator allows. */
  type ByteVec = s: seq<Byte> | |s| <= MAX_VEC witness []

  datatype Account = Account(balance: Word, nonce: U64, code: ByteVec, storage: map<Word, Word>)

  const EMPTY_ACCOUNT := Account(0, 0, [], map[])

  type Accounts = map<Address, Account>

  datatype BlockContext = BlockContext(
    coinbase: Address,
    number: Word,
    timestamp: Word,
    difficulty: Word,
    gasLimit: Word,
    baseFee: Option<Word>,
    chainId: Word,
    blockHashes: seq<Word>)

  /** `keccak` is the hash function; nothing below depends on which function it is. */
  datatype Context = Context(
    caller: Address,
    address: Address,
    origin: Address,
    value: Word,
    code: ByteVec,
    data: ByteVec,
    gasPrice: Word,
    gasLimit: U64,
    block: BlockContext,
    isStatic: bool,
    keccak: seq<Byte> -> Word)
}
