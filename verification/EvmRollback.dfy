/** What a run that fails leaves behind. */
module EvmRollback {
  import opened Wrappers
  import opened Words
  import opened EvmTypes
  import opened EvmMemory
  import opened Opcodes
  import opened EvmMachine
  import opened EvmRun

  /** Every run with this write protection that ends in REVERT leaves the accounts as they were. */
  ghost predicate RevertsUndo(isStatic: bool) {
    forall c: Context, accounts: Accounts, n: nat ::
      var p := After(c, accounts, n);
      c.isStatic == isStatic && p.Halted? && p.result.status == Revert ==> p.accounts == accounts
  }

  /** The same for runs that end in an error. */
  ghost predicate HaltsUndo(isStatic: bool) {
    forall c: Context, accounts: Accounts, n: nat ::
      var p := After(c, accounts, n);
      c.isStatic == isStatic && p.Halted? && p.result.status.Halt? ==> p.accounts == accounts
  }

  /** PUSH1 1, PUSH0, SSTORE: a store of 1 to slot 0 of the executing account; then PUSH0, PUSH0, REVERT. */
  const STORE_REVERT: ByteVec := [0x60, 0x01, 0x5f, 0x55, 0x5f, 0x5f, 0xfd]

  /** The same store, then a POP of nothing. */
  const STORE_UNDERFLOW: ByteVec := [0x60, 0x01, 0x5f, 0x55, 0x50]

  function Plain(code: ByteVec): Context {
    Context(0, 0, 0, 0, code, [], 0, 30000, BlockContext(0, 0, 0, 0, 0, None, 0, []), false, _ => 0)
  }

  /** The machine after the store. */
  function Stored(pc: nat, gasUsed: U64, stack: seq<Word>): Machine {
    Machine(stack, [], gasUsed, pc, [], [], WithStorage(map[], 0, 0, 1))
  }

  lemma PushOne(c: Context, m: Machine)
    requires m.pc + 2 < |c.code| && c.code[m.pc] == 0x60 && c.code[m.pc + 1] == 1
    requires m.stack == [] && m.gasUsed + 3 <= c.gasLimit < U64_MAX
    ensures Turn(c, m) == Running(m.(stack := [1], pc := m.pc + 2, gasUsed := m.gasUsed + 3))
  {
    assert FromByte(c.code[m.pc]) == Some(PUSH(1));
    assert WordFromBytes([1]) == 1;
    hide FromByte, WordFromBytes;
    assert c.code[m.pc + 1..m.pc + 2] == [1];
    assert Immediate(c.code, m.pc, 1) == (m.pc + 2, [1]);
  }

  lemma PushZero(c: Context, m: Machine)
    requires m.pc + 1 < |c.code| && c.code[m.pc] == 0x5f && |m.stack| < 4 && m.gasUsed + 2 <= c.gasLimit < U64_MAX
    ensures Turn(c, m) == Running(m.(stack := m.stack + [0], pc := m.pc + 1, gasUsed := m.gasUsed + 2))
  {
    assert FromByte(c.code[m.pc]) == Some(Nullary(PUSH0));
  }

  lemma StoreOne(c: Context, m: Machine)
    requires c.gasLimit == 30000 && !c.isStatic && c.address == 0
    requires m.pc + 1 < |c.code| && c.code[m.pc] == 0x55 && m.stack == [1, 0] && m.gasUsed == 5
    ensures Turn(c, m) == Running(m.(stack := [], pc := m.pc + 1, gasUsed := 20005, accounts := WithStorage(m.accounts, 0, 0, 1)))
  {
    assert FromByte(c.code[m.pc]) == Some(SSTORE);
  }

  lemma StoreRuns(code: ByteVec)
    requires |code| > 4 && code[..4] == [0x60, 0x01, 0x5f, 0x55]
    ensures After(Plain(code), map[], 3) == Running(Stored(4, 20005, []))
  {
    hide Turn;
    var c, m := Plain(code), Initial(map[]);
    assert code[0] == code[..4][0] && code[1] == code[..4][1] && code[2] == code[..4][2] && code[3] == code[..4][3];
    PushOne(c, m);
    var m1 := m.(stack := [1], pc := 2, gasUsed := 3);
    assert After(c, map[], 1) == Running(m1);
    PushZero(c, m1);
    var m2 := m.(stack := [1, 0], pc := 3, gasUsed := 5);
    assert After(c, map[], 2) == Running(m2);
    StoreOne(c, m2);
  }

  lemma RevertTurn(c: Context, m: Machine)
    requires m.pc < |c.code| && c.code[m.pc] == 0xfd && m.stack == [0, 0] && m.gasUsed <= c.gasLimit < U64_MAX
    ensures Turn(c, m) == Halted(ExecutionResult(Revert, m.gasUsed, []), m.accounts, m.logs)
  {
    assert FromByte(c.code[m.pc]) == Some(REVERT);
  }

  lemma UnderflowTurn(c: Context, m: Machine)
    requires m.pc < |c.code| && c.code[m.pc] == 0x50 && m.stack == []
    ensures Turn(c, m) == Halted(ExecutionResult(Halt(HaltStackUnderflow), m.gasUsed, []), m.accounts, m.logs)
  {
    assert FromByte(c.code[m.pc]) == Some(POP);
  }

  /** A run that stores 1 where 0 was read before, reverts, and leaves the 1 to be read. */
  lemma RevertKeepsStore()
    ensures var p := After(Plain(STORE_REVERT), map[], 6);
            && p.Halted? && p.result.status == Revert
            && StorageAt(map[], 0, 0) == 0 && StorageAt(p.accounts, 0, 0) == 1
  {
    hide Turn;
    var c := Plain(STORE_REVERT);
    StoreRuns(STORE_REVERT);
    PushZero(c, Stored(4, 20005, []));
    assert After(c, map[], 4) == Running(Stored(5, 20007, [0]));
    PushZero(c, Stored(5, 20007, [0]));
    assert After(c, map[], 5) == Running(Stored(6, 20009, [0, 0]));
    RevertTurn(c, Stored(6, 20009, [0, 0]));
  }

  /** A run that stores 1 where 0 was read before, fails, and leaves the 1 to be read. */
  lemma HaltKeepsStore()
    ensures var p := After(Plain(STORE_UNDERFLOW), map[], 4);
            && p.Halted? && p.result.status.Halt?
            && StorageAt(map[], 0, 0) == 0 && StorageAt(p.accounts, 0, 0) == 1
  {
    hide Turn;
    StoreRuns(STORE_UNDERFLOW);
    UnderflowTurn(Plain(STORE_UNDERFLOW), Stored(4, 20005, []));
  }

  /** Failed runs undo their writes exactly when they could not write in the first place. */
  lemma FailedRunsUndoOnlyIfStatic(isStatic: bool)
    ensures RevertsUndo(isStatic) <==> isStatic
    ensures HaltsUndo(isStatic) <==> isStatic
  {
    hide After;
    if isStatic {
      forall c: Context, accounts: Accounts, n: nat | c.isStatic
        ensures var p := After(c, accounts, n); p.Halted? ==> p.accounts == accounts
      {
        EveryRunIsSafe(c, accounts, n);
      }
    } else {
      RevertKeepsStore();
      HaltKeepsStore();
    }
  }
}
