/** Whole runs: what every reachable machine keeps, and when a run ends. */
module EvmRun {
  import opened Wrappers
  import opened Words
  import opened EvmTypes
  import opened EvmMemory
  import opened Opcodes
  import opened EvmMachine

  /** Where a run is. `Crashed` means the process aborted. */
  datatype Progress =
    | Running(machine: Machine)
    | Halted(result: ExecutionResult, accounts: Accounts, logs: seq<Log>)
    | Crashed

  /** The loop test: a program counter past the code ends the run with success. */
  function Enter(ctx: Context, m: Machine): Progress {
    if m.pc < |ctx.code| then Running(m)
    else Halted(ExecutionResult(Status.Success, m.gasUsed, []), m.accounts, m.logs)
  }

  /** One turn of the loop. */
  function Turn(ctx: Context, m: Machine): Progress
    requires m.pc < |ctx.code|
  {
    var b := ctx.code[m.pc];
    match FromByte(b)
    case None => Halted(ExecutionResult(Halt(HaltInvalidOpcode(b)), m.gasUsed, []), m.accounts, m.logs)
    case Some(op) =>
      match Execute(ctx, op, m)
      case Next(m') => Enter(ctx, m')
      case Done(m', result) => Halted(result, m'.accounts, m'.logs)
      case Fail(e, used) =>
        if e == Panic then Crashed else Halted(HandleError(ctx, e, used), m.accounts, m.logs)
  }

  function Initial(accounts: Accounts): Machine {
    Machine([], [], 0, 0, [], [], accounts)
  }

  /** Progress after `n` instructions, or fewer if the run ends before. */
  function After(ctx: Context, accounts: Accounts, n: nat): Progress {
    if n == 0 then Enter(ctx, Initial(accounts))
    else
      var p := After(ctx, accounts, n - 1);
      if p.Running? && p.machine.pc < |ctx.code| then Turn(ctx, p.machine) else p
  }

  /** A byte that is no opcode ends the run under that reason, and so does the end of the code, with success. */
  lemma RunEnds(ctx: Context, m: Machine)
    ensures m.pc < |ctx.code| && FromByte(ctx.code[m.pc]) == None ==>
              Turn(ctx, m) == Halted(ExecutionResult(Halt(HaltInvalidOpcode(ctx.code[m.pc])), m.gasUsed, []), m.accounts, m.logs)
    ensures m.pc >= |ctx.code| ==> Enter(ctx, m) == Halted(ExecutionResult(Status.Success, m.gasUsed, []), m.accounts, m.logs)
    ensures m.pc < |ctx.code| ==> Enter(ctx, m) == Running(m)
  {
    hide FromByte, Execute;
  }

  // ----- one instruction -----

  /** Depth and gas stay within their limits. */
  predicate WithinLimits(ctx: Context, m: Machine) {
    |m.stack| <= STACK_LIMIT && m.gasUsed <= ctx.gasLimit
  }

  lemma ChargeBounds(limit: U64, used: U64, amount: nat)
    requires used <= limit
    ensures var r := Charge(limit, used, amount);
            r.Some? ==> used <= r.value <= limit && (limit < U64_MAX ==> r.value == used + amount)
    ensures limit == U64_MAX ==> Charge(limit, used, amount).Some?
  {
  }

  lemma GasAfterBounds(ctx: Context, op: Opcode, m: Machine)
    requires StackInputs(op) <= |m.stack| && m.gasUsed <= ctx.gasLimit
    ensures var r := GasAfter(ctx, op, m);
            r.Ok? ==> && m.gasUsed <= r.value <= ctx.gasLimit
                      && (ctx.gasLimit < U64_MAX ==> r.value >= m.gasUsed + FixedCost(op))
    ensures var r := GasAfter(ctx, op, m); r.Err? ==> r.error == OutOfGas || r.error == Panic
  {
    ChargeBounds(ctx.gasLimit, m.gasUsed, FixedCost(op));
    var first := Charge(ctx.gasLimit, m.gasUsed, FixedCost(op));
    if first.Some? {
      var amount := DynamicCost(op, m.stack);
      if amount.Ok? { ChargeBounds(ctx.gasLimit, first.value, amount.value); }
    }
  }

  /**
   The front check is complete: an instruction reports a stack error exactly when the front check does. That
   no pop, push, dup or swap inside the interpreter's arms fails is part of `Interpreter.ExecuteArm`.
   */
  lemma FrontCheckIsComplete(ctx: Context, op: Opcode, m: Machine)
    requires m.pc < |ctx.code|
    ensures (Execute(ctx, op, m).Fail? && Execute(ctx, op, m).error == StackUnderflow)
            <==> |m.stack| < StackInputs(op)
    ensures (Execute(ctx, op, m).Fail? && Execute(ctx, op, m).error == StackOverflow)
            <==> FrontCheck(op, |m.stack|) == Some(StackOverflow)
  {
    if FrontCheck(op, |m.stack|) == None {
      PerformErrors(ctx, op, m);
    }
  }

  lemma EffectErrors(ctx: Context, op: Opcode, m: Machine)
    requires StackInputs(op) <= |m.stack| && m.pc < |ctx.code|
    ensures var r := Effect(ctx, op, m); r.Err? ==> !r.error.StackUnderflow? && !r.error.StackOverflow?
  {
  }

  lemma PerformErrors(ctx: Context, op: Opcode, m: Machine)
    requires StackInputs(op) <= |m.stack| && m.pc < |ctx.code|
    ensures var o := Perform(ctx, op, m); o.Fail? ==> !o.error.StackUnderflow? && !o.error.StackOverflow?
  {
    hide Effect, StackInputs;
    var g := GasAfter(ctx, op, m);
    if g.Ok? {
      EffectErrors(ctx, op, m.(gasUsed := g.value));
    }
  }

  lemma EffectDepth(ctx: Context, op: Opcode, m: Machine)
    requires StackInputs(op) <= |m.stack| && m.pc < |ctx.code|
    requires op != STOP && op != RETURN && op != REVERT
    requires Effect(ctx, op, m).Ok?
    ensures var m' := Effect(ctx, op, m).value;
            |m'.stack| == if op.NoArm? then |m.stack| else |m.stack| - StackInputs(op) + StackOutputs(op)
  {
  }

  /** An instruction changes accounts only by SSTORE and logs only by LOG, and keeps what was charged. */
  lemma EffectFrame(ctx: Context, op: Opcode, m: Machine)
    requires StackInputs(op) <= |m.stack| && m.pc < |ctx.code| && Effect(ctx, op, m).Ok?
    ensures var m' := Effect(ctx, op, m).value;
            && m'.gasUsed == m.gasUsed && m'.returnData == m.returnData
            && (!op.LOG? ==> m'.logs == m.logs)
            && m'.accounts == if op == SSTORE
                              then WithStorage(m.accounts, ctx.address, Arg(m.stack, 0), Arg(m.stack, 1))
                              else m.accounts
  {
  }

  /** Only jumps move the program counter back, and the memory never shrinks. */
  lemma EffectProgress(ctx: Context, op: Opcode, m: Machine)
    requires StackInputs(op) <= |m.stack| && m.pc < |ctx.code| && Effect(ctx, op, m).Ok?
    ensures var m' := Effect(ctx, op, m).value;
            && (m'.pc > m.pc || op == JUMP || op == JUMPI)
            && |m'.memory| >= |m.memory|
  {
  }

  /** The opcodes without an arm whose metadata promises a change of depth that does not happen. */
  predicate Miscounted(op: Opcode) {
    op.NoArm? &&
    match op.noArm
    case BLOBBASEFEE | TSTORE | MCOPY | CREATE | CALL | CALLCODE => true
    case DELEGATECALL | CREATE2 | STATICCALL | SELFDESTRUCT => true
    case _ => false
  }

  /** A successful instruction changes the depth as its metadata says, exactly when it is not miscounted. */
  lemma DepthFollowsMetadata(ctx: Context, op: Opcode, m: Machine)
    requires m.pc < |ctx.code| && !Execute(ctx, op, m).Fail?
    ensures |Execute(ctx, op, m).machine.stack| == |m.stack| - StackInputs(op) + StackOutputs(op)
            <==> !Miscounted(op)
  {
    var charged := m.(gasUsed := GasAfter(ctx, op, m).value);
    if op != STOP && op != RETURN && op != REVERT {
      EffectDepth(ctx, op, charged);
    }
  }

  // ----- every reachable machine -----

  /** `after` differs from `before` at most in the storage of `self`, or by a new empty account there. */
  ghost predicate OnlyStorageOf(self: Address, before: Accounts, after: Accounts) {
    && (forall a :: a != self ==> (a in after <==> a in before))
    && (forall a :: a != self && a in before ==> after[a] == before[a])
    && (self in before ==> self in after && after[self].(storage := before[self].storage) == before[self])
    && (self !in before && self in after ==> after[self].(storage := map[]) == EMPTY_ACCOUNT)
  }

  lemma StorageWriteFrame(self: Address, before: Accounts, after: Accounts, key: Word, value: Word)
    requires OnlyStorageOf(self, before, after)
    ensures OnlyStorageOf(self, before, WithStorage(after, self, key, value))
  {
  }

  /** What holds of the world at every point of a run started on `accounts`. */
  ghost predicate Untouched(ctx: Context, accounts: Accounts, now: Accounts, logs: seq<Log>) {
    && OnlyStorageOf(ctx.address, accounts, now)
    && (ctx.isStatic ==> now == accounts && logs == [])
  }

  ghost predicate Safe(ctx: Context, accounts: Accounts, p: Progress) {
    match p
    case Running(m) =>
      m.pc < |ctx.code| && WithinLimits(ctx, m) && m.returnData == [] && Untouched(ctx, accounts, m.accounts, m.logs)
    case Halted(result, now, logs) =>
      result.gasUsed <= ctx.gasLimit && Untouched(ctx, accounts, now, logs)
    case Crashed => true
  }

  lemma EffectIsSafe(ctx: Context, accounts: Accounts, op: Opcode, m: Machine)
    requires Safe(ctx, accounts, Running(m)) && FrontCheck(op, |m.stack|) == None
    requires op != STOP && op != RETURN && op != REVERT && Effect(ctx, op, m).Ok?
    requires ctx.isStatic ==> op != SSTORE && !op.LOG?
    ensures var m' := Effect(ctx, op, m).value;
            WithinLimits(ctx, m') && m'.returnData == [] && Untouched(ctx, accounts, m'.accounts, m'.logs)
  {
    EffectDepth(ctx, op, m);
    EffectFrame(ctx, op, m);
    if op == SSTORE {
      StorageWriteFrame(ctx.address, accounts, m.accounts, Arg(m.stack, 0), Arg(m.stack, 1));
    }
  }

  lemma PerformIsSafe(ctx: Context, accounts: Accounts, op: Opcode, m: Machine)
    requires Safe(ctx, accounts, Running(m)) && FrontCheck(op, |m.stack|) == None
    requires ctx.isStatic ==> op != SSTORE && !op.LOG?
    ensures match Perform(ctx, op, m)
            case Next(m') =>
              WithinLimits(ctx, m') && m'.returnData == [] && Untouched(ctx, accounts, m'.accounts, m'.logs)
            case Done(m', result) =>
              result.gasUsed <= ctx.gasLimit && Untouched(ctx, accounts, m'.accounts, m'.logs)
            case Fail(_, used) => used <= ctx.gasLimit
  {
    hide Effect, GasAfter, OnlyStorageOf, MemoryGet, StackOutputs;
    GasAfterBounds(ctx, op, m);
    var g := GasAfter(ctx, op, m);
    if g.Ok? && op != STOP && op != RETURN && op != REVERT {
      var charged := m.(gasUsed := g.value);
      if Effect(ctx, op, charged).Ok? {
        EffectIsSafe(ctx, accounts, op, charged);
      }
    }
  }

  lemma ExecuteIsSafe(ctx: Context, accounts: Accounts, op: Opcode, m: Machine)
    requires Safe(ctx, accounts, Running(m))
    ensures match Execute(ctx, op, m)
            case Next(m') =>
              WithinLimits(ctx, m') && m'.returnData == [] && Untouched(ctx, accounts, m'.accounts, m'.logs)
            case Done(m', result) =>
              result.gasUsed <= ctx.gasLimit && Untouched(ctx, accounts, m'.accounts, m'.logs)
            case Fail(_, used) => used <= ctx.gasLimit
  {
    hide Perform, OnlyStorageOf, StackInputs, StackOutputs;
    if FrontCheck(op, |m.stack|) == None && !(ctx.isStatic && (op == SSTORE || op.LOG?)) {
      PerformIsSafe(ctx, accounts, op, m);
    }
  }

  lemma TurnIsSafe(ctx: Context, accounts: Accounts, m: Machine)
    requires Safe(ctx, accounts, Running(m))
    ensures Safe(ctx, accounts, Turn(ctx, m))
  {
    hide Execute, FromByte;
    var op := FromByte(ctx.code[m.pc]);
    if op.Some? {
      ExecuteIsSafe(ctx, accounts, op.value, m);
    }
  }

  /**
   At every point of every run, whatever the code: the depth is at most 1024, gas used and the gas any
   result reports are within the limit, and the world differs from the one at the start at most in the
   executing account's storage; in a static run it does not differ at all and there are no logs.
   */
  lemma {:induction false} EveryRunIsSafe(ctx: Context, accounts: Accounts, n: nat)
    ensures Safe(ctx, accounts, After(ctx, accounts, n))
  {
    hide Turn;
    if n > 0 {
      EveryRunIsSafe(ctx, accounts, n - 1);
      var p := After(ctx, accounts, n - 1);
      if p.Running? {
        TurnIsSafe(ctx, accounts, p.machine);
      }
    }
  }

  // ----- termination -----

  /** Instructions still affordable: full passes over the code between jumps, and the rest of this one. */
  function Measure(ctx: Context, m: Machine): int
    requires m.gasUsed <= ctx.gasLimit
  {
    (ctx.gasLimit - m.gasUsed) / 8 * |ctx.code| + (|ctx.code| - m.pc)
  }

  lemma ForwardDecreases(left: nat, left': nat, size: nat, pc: nat, pc': nat)
    requires left' <= left && pc < pc'
    ensures left' / 8 * size + (size - pc') < left / 8 * size + (size - pc)
  {
    MulMonotone(left' / 8, left / 8, size);
  }

  lemma JumpDecreases(left: nat, left': nat, size: nat, pc: nat, pc': nat)
    requires left' + 8 <= left && pc < size
    ensures left' / 8 * size + (size - pc') < left / 8 * size + (size - pc)
  {
    MulMonotone(left' / 8 + 1, left / 8, size);
    assert (left' / 8 + 1) * size == left' / 8 * size + size;
  }

  /** An instruction that does not end the run moves forward, or jumps and pays at least 8 for it. */
  lemma ExecuteProgress(ctx: Context, op: Opcode, m: Machine)
    requires ctx.gasLimit < U64_MAX && m.gasUsed <= ctx.gasLimit && m.pc < |ctx.code|
    requires Execute(ctx, op, m).Next?
    ensures var m' := Execute(ctx, op, m).machine;
            && m.gasUsed <= m'.gasUsed <= ctx.gasLimit
            && (m'.pc > m.pc || m'.gasUsed >= m.gasUsed + 8)
  {
    GasAfterBounds(ctx, op, m);
    var charged := m.(gasUsed := GasAfter(ctx, op, m).value);
    EffectFrame(ctx, op, charged);
    EffectProgress(ctx, op, charged);
  }

  lemma MeasureDecreases(ctx: Context, m: Machine, m': Machine)
    requires m.pc < |ctx.code| && m.gasUsed <= m'.gasUsed <= ctx.gasLimit
    requires m'.pc > m.pc || m'.gasUsed >= m.gasUsed + 8
    ensures Measure(ctx, m') < Measure(ctx, m)
  {
    var left, left' := ctx.gasLimit - m.gasUsed, ctx.gasLimit - m'.gasUsed;
    if m'.pc > m.pc {
      ForwardDecreases(left, left', |ctx.code|, m.pc, m'.pc);
    } else {
      JumpDecreases(left, left', |ctx.code|, m.pc, m'.pc);
    }
  }

  lemma TurnDecreases(ctx: Context, m: Machine)
    requires ctx.gasLimit < U64_MAX && m.gasUsed <= ctx.gasLimit && m.pc < |ctx.code|
    requires Turn(ctx, m).Running?
    ensures var m' := Turn(ctx, m).machine;
            m'.pc < |ctx.code| && m'.gasUsed <= ctx.gasLimit && Measure(ctx, m') < Measure(ctx, m)
  {
    ExecuteProgress(ctx, FromByte(ctx.code[m.pc]).value, m);
    MeasureDecreases(ctx, m, Turn(ctx, m).machine);
  }

  lemma MeasurePositive(ctx: Context, m: Machine)
    requires m.gasUsed <= ctx.gasLimit && m.pc < |ctx.code|
    ensures Measure(ctx, m) > 0
  {
    MulMonotone(0, (ctx.gasLimit - m.gasUsed) / 8, |ctx.code|);
  }

  /** The most instructions a run with this much gas can execute. */
  function StepBound(ctx: Context): nat {
    (ctx.gasLimit / 8 + 1) * |ctx.code|
  }

  lemma {:induction false} MeasureFalls(ctx: Context, accounts: Accounts, n: nat)
    requires ctx.gasLimit < U64_MAX && After(ctx, accounts, n).Running?
    ensures var m := After(ctx, accounts, n).machine;
            m.pc < |ctx.code| && m.gasUsed <= ctx.gasLimit && Measure(ctx, m) + n <= StepBound(ctx)
  {
    hide Turn;
    if n == 0 {
      assert (ctx.gasLimit / 8 + 1) * |ctx.code| == ctx.gasLimit / 8 * |ctx.code| + |ctx.code|;
    } else {
      MeasureFalls(ctx, accounts, n - 1);
      TurnDecreases(ctx, After(ctx, accounts, n - 1).machine);
    }
  }

  /** With any gas limit below u64::MAX, a run is over after at most (limit / 8 + 1) * |code| instructions. */
  lemma HaltsWithinBound(ctx: Context, accounts: Accounts, n: nat)
    requires ctx.gasLimit < U64_MAX && n >= StepBound(ctx)
    ensures !After(ctx, accounts, n).Running?
  {
    if After(ctx, accounts, n).Running? {
      RunningIsEarly(ctx, accounts, n);
    }
  }

  lemma RunningIsEarly(ctx: Context, accounts: Accounts, n: nat)
    requires ctx.gasLimit < U64_MAX && After(ctx, accounts, n).Running?
    ensures n < StepBound(ctx)
  {
    MeasureFalls(ctx, accounts, n);
    MeasurePositive(ctx, After(ctx, accounts, n).machine);
  }

  /** A run that is over stays as it ended. */
  lemma {:induction false} AfterStays(ctx: Context, accounts: Accounts, n: nat, k: nat)
    requires n <= k && !After(ctx, accounts, n).Running?
    ensures After(ctx, accounts, k) == After(ctx, accounts, n)
  {
    hide Turn;
    if n < k { AfterStays(ctx, accounts, n, k - 1); }
  }

  /** So a run ends in one way only. */
  lemma EndIsUnique(ctx: Context, accounts: Accounts, end: nat)
    requires !After(ctx, accounts, end).Running?
    ensures forall n: nat :: !After(ctx, accounts, n).Running? ==> After(ctx, accounts, n) == After(ctx, accounts, end)
  {
    hide After;
    forall n: nat | !After(ctx, accounts, n).Running?
      ensures After(ctx, accounts, n) == After(ctx, accounts, end)
    {
      if n <= end { AfterStays(ctx, accounts, n, end); } else { AfterStays(ctx, accounts, end, n); }
    }
  }

  /** JUMPDEST, PUSH1 0, JUMP. */
  const ENDLESS: ByteVec := [0x5b, 0x60, 0x00, 0x56]

  predicate InEndlessLoop(p: Progress) {
    p.Running? &&
    ( || (p.machine.pc == 0 && p.machine.stack == [])
      || (p.machine.pc == 1 && p.machine.stack == [])
      || (p.machine.pc == 3 && p.machine.stack == [0]))
  }

  lemma EndlessJumpdest(ctx: Context, m: Machine)
    requires ctx.gasLimit == U64_MAX && ctx.code == ENDLESS && m.pc == 0 && m.stack == []
    ensures Turn(ctx, m).Running? && Turn(ctx, m).machine.pc == 1 && Turn(ctx, m).machine.stack == []
  {
    assert FromByte(ctx.code[0]) == Some(JUMPDEST);
  }

  lemma EndlessPush(ctx: Context, m: Machine)
    requires ctx.gasLimit == U64_MAX && ctx.code == ENDLESS && m.pc == 1 && m.stack == []
    ensures Turn(ctx, m).Running? && Turn(ctx, m).machine.pc == 3 && Turn(ctx, m).machine.stack == [0]
  {
    assert FromByte(ctx.code[1]) == Some(PUSH(1));
    assert ctx.code[2..3] == [0];
    assert WordFromBytes([0]) == 0;
  }

  lemma EndlessJump(ctx: Context, m: Machine)
    requires ctx.gasLimit == U64_MAX && ctx.code == ENDLESS && m.pc == 3 && m.stack == [0]
    ensures Turn(ctx, m).Running? && Turn(ctx, m).machine.pc == 0 && Turn(ctx, m).machine.stack == []
  {
    assert FromByte(ctx.code[3]) == Some(JUMP);
    assert Jump(ctx, 0) == Ok(0);
  }

  lemma EndlessTurn(ctx: Context, m: Machine)
    requires ctx.gasLimit == U64_MAX && ctx.code == ENDLESS && InEndlessLoop(Running(m))
    ensures InEndlessLoop(Turn(ctx, m))
  {
    if m.pc == 0 { EndlessJumpdest(ctx, m); } else if m.pc == 1 { EndlessPush(ctx, m); } else { EndlessJump(ctx, m); }
  }

  /** With a gas limit of u64::MAX no charge is ever refused, because gas used stops growing there. */
  lemma {:induction false} EndlessLoop(ctx: Context, accounts: Accounts, n: nat)
    requires ctx.gasLimit == U64_MAX && ctx.code == ENDLESS
    ensures InEndlessLoop(After(ctx, accounts, n))
  {
    hide Turn;
    if n > 0 {
      EndlessLoop(ctx, accounts, n - 1);
      EndlessTurn(ctx, After(ctx, accounts, n - 1).machine);
    }
  }

  ghost predicate Halts(ctx: Context, accounts: Accounts) {
    exists n: nat :: !After(ctx, accounts, n).Running?
  }

  /** Every run under a gas limit halts, exactly when the limit is not u64::MAX. */
  lemma EveryRunHaltsUnless(limit: U64)
    ensures (forall c: Context, accounts: Accounts :: c.gasLimit == limit ==> Halts(c, accounts))
            <==> limit != U64_MAX
  {
    if limit != U64_MAX {
      forall c: Context, accounts: Accounts | c.gasLimit == limit
        ensures Halts(c, accounts)
      {
        HaltsWithinBound(c, accounts, StepBound(c));
      }
    } else {
      var endless := Context(0, 0, 0, 0, ENDLESS, [], 0, limit, BlockContext(0, 0, 0, 0, 0, None, 0, []), false, _ => 0);
      var accounts: Accounts := map[];
      forall n: nat
        ensures After(endless, accounts, n).Running?
      {
        EndlessLoop(endless, accounts, n);
      }
      assert !Halts(endless, accounts);
    }
  }
}
