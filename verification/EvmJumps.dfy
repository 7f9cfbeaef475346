/** Where jumps may land: the instruction starts of a code, and the bytes inside PUSH operands. */
module EvmJumps {
  import opened Wrappers
  import opened Words
  import opened EvmTypes
  import opened EvmMemory
  import opened Opcodes
  import opened EvmMachine
  import opened EvmRun

  /** Where the instruction after the one at `pc` starts. */
  function NextStart(code: ByteVec, pc: nat): (r: nat)
    requires pc < |code|
    ensures pc < r <= |code|
  {
    match FromByte(code[pc])
    case Some(PUSH(n)) => Immediate(code, pc, n).0
    case _ => pc + 1
  }

  /** `t` is reached from `from` by going from instruction to instruction. */
  predicate StartFrom(code: ByteVec, from: nat, t: nat)
    decreases if from < t then t - from else 0
  {
    from == t || (from < t && from < |code| && StartFrom(code, NextStart(code, from), t))
  }

  predicate IsStart(code: ByteVec, t: nat) {
    StartFrom(code, 0, t)
  }

  /** `q` is one of the operand bytes of a PUSH instruction. */
  ghost predicate InOperand(code: ByteVec, q: nat) {
    q < |code| && exists p: nat, n: PushSize ::
      p < q <= p + n && IsStart(code, p) && FromByte(code[p]) == Some(PUSH(n))
  }

  lemma {:induction false} StartExtends(code: ByteVec, from: nat, p: nat)
    requires p < |code| && StartFrom(code, from, p)
    ensures StartFrom(code, from, NextStart(code, p))
    decreases p - from
  {
    hide FromByte;
    if from < p { StartExtends(code, NextStart(code, from), p); }
  }

  lemma {:induction false} StartsDoNotOverlap(code: ByteVec, from: nat, p: nat, q: nat)
    requires p < q && p < |code| && StartFrom(code, from, p) && StartFrom(code, from, q)
    ensures NextStart(code, p) <= q
    decreases p - from
  {
    hide FromByte;
    if from < p { StartsDoNotOverlap(code, NextStart(code, from), p, q); }
  }

  lemma {:induction false} StartOrOperand(code: ByteVec, from: nat, q: nat)
    requires from <= q < |code| && IsStart(code, from)
    ensures IsStart(code, q) || InOperand(code, q)
    decreases q - from
  {
    hide FromByte;
    if from < q {
      var next := NextStart(code, from);
      if next <= q {
        StartExtends(code, 0, from);
        StartOrOperand(code, next, q);
      }
    }
  }

  /** Every byte of a code either starts an instruction or is an operand byte, never both. */
  lemma StartsAndOperands(code: ByteVec, q: nat)
    requires q < |code|
    ensures IsStart(code, q) <==> !InOperand(code, q)
  {
    hide FromByte;
    StartOrOperand(code, 0, q);
    if IsStart(code, q) && InOperand(code, q) {
      var p: nat, n: PushSize :| p < q <= p + n && IsStart(code, p) && FromByte(code[p]) == Some(PUSH(n));
      StartsDoNotOverlap(code, 0, p, q);
    }
  }

  /** No operand byte is 0x5b. */
  ghost predicate NoHiddenJumpdest(code: ByteVec) {
    forall q :: 0 <= q < |code| && InOperand(code, q) ==> code[q] != JUMPDEST_BYTE
  }

  /** Jumps land on instructions only, exactly when no operand of a PUSH contains the byte 0x5b. */
  lemma JumpsLandOnInstructions(ctx: Context)
    ensures (forall t: Word :: Jump(ctx, t).Ok? ==> IsStart(ctx.code, t)) <==> NoHiddenJumpdest(ctx.code)
  {
    hide IsStart, InOperand;
    if NoHiddenJumpdest(ctx.code) {
      forall t: Word | Jump(ctx, t).Ok?
        ensures IsStart(ctx.code, t)
      {
        StartsAndOperands(ctx.code, t);
      }
    } else {
      var q :| 0 <= q < |ctx.code| && InOperand(ctx.code, q) && ctx.code[q] == JUMPDEST_BYTE;
      StartsAndOperands(ctx.code, q);
      assert Jump(ctx, q) == Ok(q);
    }
  }

  /** An instruction that does not end the run goes on to the next one, or to an accepted target. */
  lemma EffectPc(ctx: Context, op: Opcode, m: Machine)
    requires m.pc < |ctx.code| && FromByte(ctx.code[m.pc]) == Some(op)
    requires StackInputs(op) <= |m.stack| && Effect(ctx, op, m).Ok?
    ensures var pc' := Effect(ctx, op, m).value.pc;
            pc' == NextStart(ctx.code, m.pc) || exists t: Word :: Jump(ctx, t) == Ok(pc')
  {
    hide FromByte;
  }

  lemma TurnPc(ctx: Context, m: Machine)
    requires m.pc < |ctx.code| && Turn(ctx, m).Running?
    ensures var pc' := Turn(ctx, m).machine.pc;
            pc' == NextStart(ctx.code, m.pc) || exists t: Word :: Jump(ctx, t) == Ok(pc')
  {
    hide Effect, FromByte, NextStart, Jump, StackInputs, StackOutputs;
    var op := FromByte(ctx.code[m.pc]).value;
    EffectPc(ctx, op, m.(gasUsed := GasAfter(ctx, op, m).value));
  }

  /** Then every run executes instructions of the code as laid out and never an operand byte. */
  lemma {:induction false} RunsStayOnInstructions(ctx: Context, accounts: Accounts, n: nat)
    requires NoHiddenJumpdest(ctx.code) && After(ctx, accounts, n).Running?
    ensures IsStart(ctx.code, After(ctx, accounts, n).machine.pc)
  {
    hide Turn, NextStart, NoHiddenJumpdest;
    if n > 0 {
      RunsStayOnInstructions(ctx, accounts, n - 1);
      EveryRunIsSafe(ctx, accounts, n - 1);
      var m := After(ctx, accounts, n - 1).machine;
      TurnPc(ctx, m);
      JumpsLandOnInstructions(ctx);
      StartExtends(ctx.code, 0, m.pc);
    }
  }

  /** PUSH1 4, JUMP, PUSH1 0x5b: the jump lands on the operand of the last instruction. */
  const HIDDEN: ByteVec := [0x60, 0x04, 0x56, 0x60, 0x5b]

  lemma HiddenPush(ctx: Context, m: Machine)
    requires ctx.gasLimit >= 100 && ctx.code == HIDDEN && m.pc == 0 && m.stack == [] && m.gasUsed == 0
    ensures Turn(ctx, m) == Running(m.(pc := 2, stack := [4], gasUsed := 3))
  {
    assert FromByte(ctx.code[0]) == Some(PUSH(1));
    assert ctx.code[1..2] == [4];
    assert WordFromBytes([4]) == 4;
  }

  lemma HiddenJump(ctx: Context, m: Machine)
    requires ctx.gasLimit >= 100 && ctx.code == HIDDEN && m.pc == 2 && m.stack == [4] && m.gasUsed == 3
    ensures Turn(ctx, m).Running? && Turn(ctx, m).machine.pc == 4
  {
    assert FromByte(ctx.code[2]) == Some(JUMP);
    assert Jump(ctx, 4) == Ok(4);
  }

  /** A run that executes an operand byte. */
  lemma RunsCanLeaveInstructions(ctx: Context, accounts: Accounts)
    requires ctx.gasLimit >= 100 && ctx.code == HIDDEN
    ensures var p := After(ctx, accounts, 2); p.Running? && p.machine.pc == 4 && !IsStart(ctx.code, 4)
  {
    hide Turn;
    var m := Initial(accounts);
    HiddenPush(ctx, m);
    assert After(ctx, accounts, 0) == Running(m);
    assert After(ctx, accounts, 1) == Running(m.(pc := 2, stack := [4], gasUsed := 3));
    HiddenJump(ctx, m.(pc := 2, stack := [4], gasUsed := 3));
    HiddenStarts(ctx.code);
  }

  lemma HiddenStarts(code: ByteVec)
    requires code == HIDDEN
    ensures !IsStart(code, 4)
  {
    assert FromByte(code[0]) == Some(PUSH(1)) && FromByte(code[2]) == Some(JUMP) && FromByte(code[3]) == Some(PUSH(1));
    hide FromByte;
    assert NextStart(code, 0) == 2 && NextStart(code, 2) == 3 && NextStart(code, 3) == 5;
    assert !StartFrom(code, 5, 4) && !StartFrom(code, 3, 4) && !StartFrom(code, 2, 4);
  }
}
