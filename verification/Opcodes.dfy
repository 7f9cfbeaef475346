/**
 The instruction set, grouped by the shape of the interpreter's arms, and the stack metadata its front
 check relies on.
 */
module Opcodes {
  import opened Wrappers
  import opened Words

  /** Two operands, one result. */
  datatype BinaryOp =
    | ADD | MUL | SUB | DIV | SDIV | MOD | SMOD | SIGNEXTEND | LT | GT | SLT | SGT | EQ | AND | OR | XOR
    | BYTE | SHL | SHR | SAR

  /** Three operands, one result. */
  datatype TernaryOp =
    | ADDMOD | MULMOD

  /** No operand: push something the machine already knows. */
  datatype NullaryOp =
    | ADDRESS | ORIGIN | CALLER | CALLVALUE | CALLDATASIZE | CODESIZE | GASPRICE | RETURNDATASIZE
    | COINBASE | TIMESTAMP | NUMBER | DIFFICULTY | GASLIMIT | CHAINID | SELFBALANCE | BASEFEE | PC | MSIZE
    | GAS | PUSH0

  /** One operand, one result. */
  datatype LookupOp =
    | ISZERO | NOT | BALANCE | CALLDATALOAD | EXTCODESIZE | EXTCODEHASH | BLOCKHASH | MLOAD | SLOAD

  /** Copies of call data, code or return data into memory. */
  datatype CopyOp =
    | CALLDATACOPY | CODECOPY | RETURNDATACOPY

  /** Opcodes the interpreter has no arm for: they fall through to `pc += 1`. */
  datatype NoArmOp =
    | BLOBHASH | BLOBBASEFEE | TLOAD | TSTORE | MCOPY | CREATE | CALL | CALLCODE | DELEGATECALL | CREATE2
    | STATICCALL | INVALID | SELFDESTRUCT

  type PushSize = n: int | 1 <= n <= 32 witness 1
  type DupIndex = n: int | 0 <= n <= 15
  type SwapDepth = n: int | 1 <= n <= 16 witness 1
  type TopicCount = n: int | 0 <= n <= 4

  /** `PUSH(n)` is PUSHn, `DUP(n)` is DUP(n+1), `SWAP(n)` is SWAPn and `LOG(n)` is LOGn. */
  datatype Opcode =
    | Binary(binary: BinaryOp) | Ternary(ternary: TernaryOp) | Nullary(nullary: NullaryOp)
    | Lookup(lookup: LookupOp) | Copy(copy: CopyOp) | NoArm(noArm: NoArmOp)
    | STOP | EXP | KECCAK256 | EXTCODECOPY | POP | MSTORE | MSTORE8 | SSTORE | JUMP | JUMPI | JUMPDEST
    | RETURN | REVERT
    | PUSH(size: PushSize) | DUP(index: DupIndex) | SWAP(depth: SwapDepth) | LOG(topics: TopicCount)

  /** The opcode of a byte, if it has one. */
  function FromByte(b: Byte): Option<Opcode> {
    if 0x60 <= b <= 0x7f then Some(PUSH(b - 0x60 + 1))
    else if 0x80 <= b <= 0x8f then Some(DUP(b - 0x80))
    else if 0x90 <= b <= 0x9f then Some(SWAP(b - 0x90 + 1))
    else if 0xa0 <= b <= 0xa4 then Some(LOG(b - 0xa0))
    else
      match b
      case 0x00 => Some(STOP)
      case 0x01 => Some(Binary(ADD))
      case 0x02 => Some(Binary(MUL))
      case 0x03 => Some(Binary(SUB))
      case 0x04 => Some(Binary(DIV))
      case 0x05 => Some(Binary(SDIV))
      case 0x06 => Some(Binary(MOD))
      case 0x07 => Some(Binary(SMOD))
      case 0x08 => Some(Ternary(ADDMOD))
      case 0x09 => Some(Ternary(MULMOD))
      case 0x0a => Some(EXP)
      case 0x0b => Some(Binary(SIGNEXTEND))
      case 0x10 => Some(Binary(LT))
      case 0x11 => Some(Binary(GT))
      case 0x12 => Some(Binary(SLT))
      case 0x13 => Some(Binary(SGT))
      case 0x14 => Some(Binary(EQ))
      case 0x15 => Some(Lookup(ISZERO))
      case 0x16 => Some(Binary(AND))
      case 0x17 => Some(Binary(OR))
      case 0x18 => Some(Binary(XOR))
      case 0x19 => Some(Lookup(NOT))
      case 0x1a => Some(Binary(BYTE))
      case 0x1b => Some(Binary(SHL))
      case 0x1c => Some(Binary(SHR))
      case 0x1d => Some(Binary(SAR))
      case 0x20 => Some(KECCAK256)
      case 0x30 => Some(Nullary(ADDRESS))
      case 0x31 => Some(Lookup(BALANCE))
      case 0x32 => Some(Nullary(ORIGIN))
      case 0x33 => Some(Nullary(CALLER))
      case 0x34 => Some(Nullary(CALLVALUE))
      case 0x35 => Some(Lookup(CALLDATALOAD))
      case 0x36 => Some(Nullary(CALLDATASIZE))
      case 0x37 => Some(Copy(CALLDATACOPY))
      case 0x38 => Some(Nullary(CODESIZE))
      case 0x39 => Some(Copy(CODECOPY))
      case 0x3a => Some(Nullary(GASPRICE))
      case 0x3b => Some(Lookup(EXTCODESIZE))
      case 0x3c => Some(EXTCODECOPY)
      case 0x3d => Some(Nullary(RETURNDATASIZE))
      case 0x3e => Some(Copy(RETURNDATACOPY))
      case 0x3f => Some(Lookup(EXTCODEHASH))
      case 0x40 => Some(Lookup(BLOCKHASH))
      case 0x41 => Some(Nullary(COINBASE))
      case 0x42 => Some(Nullary(TIMESTAMP))
      case 0x43 => Some(Nullary(NUMBER))
      case 0x44 => Some(Nullary(DIFFICULTY))
      case 0x45 => Some(Nullary(GASLIMIT))
      case 0x46 => Some(Nullary(CHAINID))
      case 0x47 => Some(Nullary(SELFBALANCE))
      case 0x48 => Some(Nullary(BASEFEE))
      case 0x49 => Some(NoArm(BLOBHASH))
      case 0x4a => Some(NoArm(BLOBBASEFEE))
      case 0x50 => Some(POP)
      case 0x51 => Some(Lookup(MLOAD))
      case 0x52 => Some(MSTORE)
      case 0x53 => Some(MSTORE8)
      case 0x54 => Some(Lookup(SLOAD))
      case 0x55 => Some(SSTORE)
      case 0x56 => Some(JUMP)
      case 0x57 => Some(JUMPI)
      case 0x58 => Some(Nullary(PC))
      case 0x59 => Some(Nullary(MSIZE))
      case 0x5a => Some(Nullary(GAS))
      case 0x5b => Some(JUMPDEST)
      case 0x5c => Some(NoArm(TLOAD))
      case 0x5d => Some(NoArm(TSTORE))
      case 0x5e => Some(NoArm(MCOPY))
      case 0x5f => Some(Nullary(PUSH0))
      case 0xf0 => Some(NoArm(CREATE))
      case 0xf1 => Some(NoArm(CALL))
      case 0xf2 => Some(NoArm(CALLCODE))
      case 0xf3 => Some(RETURN)
      case 0xf4 => Some(NoArm(DELEGATECALL))
      case 0xf5 => Some(NoArm(CREATE2))
      case 0xfa => Some(NoArm(STATICCALL))
      case 0xfd => Some(REVERT)
      case 0xfe => Some(NoArm(INVALID))
      case 0xff => Some(NoArm(SELFDESTRUCT))
      case _ => None
  }

  /** The byte an opcode is encoded as. */
  function ToByte(op: Opcode): Byte {
    match op
    case STOP => 0x00
    case Binary(ADD) => 0x01
    case Binary(MUL) => 0x02
    case Binary(SUB) => 0x03
    case Binary(DIV) => 0x04
    case Binary(SDIV) => 0x05
    case Binary(MOD) => 0x06
    case Binary(SMOD) => 0x07
    case Ternary(ADDMOD) => 0x08
    case Ternary(MULMOD) => 0x09
    case EXP => 0x0a
    case Binary(SIGNEXTEND) => 0x0b
    case Binary(LT) => 0x10
    case Binary(GT) => 0x11
    case Binary(SLT) => 0x12
    case Binary(SGT) => 0x13
    case Binary(EQ) => 0x14
    case Lookup(ISZERO) => 0x15
    case Binary(AND) => 0x16
    case Binary(OR) => 0x17
    case Binary(XOR) => 0x18
    case Lookup(NOT) => 0x19
    case Binary(BYTE) => 0x1a
    case Binary(SHL) => 0x1b
    case Binary(SHR) => 0x1c
    case Binary(SAR) => 0x1d
    case KECCAK256 => 0x20
    case Nullary(ADDRESS) => 0x30
    case Lookup(BALANCE) => 0x31
    case Nullary(ORIGIN) => 0x32
    case Nullary(CALLER) => 0x33
    case Nullary(CALLVALUE) => 0x34
    case Lookup(CALLDATALOAD) => 0x35
    case Nullary(CALLDATASIZE) => 0x36
    case Copy(CALLDATACOPY) => 0x37
    case Nullary(CODESIZE) => 0x38
    case Copy(CODECOPY) => 0x39
    case Nullary(GASPRICE) => 0x3a
    case Lookup(EXTCODESIZE) => 0x3b
    case EXTCODECOPY => 0x3c
    case Nullary(RETURNDATASIZE) => 0x3d
    case Copy(RETURNDATACOPY) => 0x3e
    case Lookup(EXTCODEHASH) => 0x3f
    case Lookup(BLOCKHASH) => 0x40
    case Nullary(COINBASE) => 0x41
    case Nullary(TIMESTAMP) => 0x42
    case Nullary(NUMBER) => 0x43
    case Nullary(DIFFICULTY) => 0x44
    case Nullary(GASLIMIT) => 0x45
    case Nullary(CHAINID) => 0x46
    case Nullary(SELFBALANCE) => 0x47
    case Nullary(BASEFEE) => 0x48
    case NoArm(BLOBHASH) => 0x49
    case NoArm(BLOBBASEFEE) => 0x4a
    case POP => 0x50
    case Lookup(MLOAD) => 0x51
    case MSTORE => 0x52
    case MSTORE8 => 0x53
    case Lookup(SLOAD) => 0x54
    case SSTORE => 0x55
    case JUMP => 0x56
    case JUMPI => 0x57
    case Nullary(PC) => 0x58
    case Nullary(MSIZE) => 0x59
    case Nullary(GAS) => 0x5a
    case JUMPDEST => 0x5b
    case NoArm(TLOAD) => 0x5c
    case NoArm(TSTORE) => 0x5d
    case NoArm(MCOPY) => 0x5e
    case Nullary(PUSH0) => 0x5f
    case NoArm(CREATE) => 0xf0
    case NoArm(CALL) => 0xf1
    case NoArm(CALLCODE) => 0xf2
    case RETURN => 0xf3
    case NoArm(DELEGATECALL) => 0xf4
    case NoArm(CREATE2) => 0xf5
    case NoArm(STATICCALL) => 0xfa
    case REVERT => 0xfd
    case NoArm(INVALID) => 0xfe
    case NoArm(SELFDESTRUCT) => 0xff
    case PUSH(n) => 0x60 + n - 1
    case DUP(n) => 0x80 + n
    case SWAP(n) => 0x90 + n - 1
    case LOG(n) => 0xa0 + n
  }

  lemma BinaryRoundTrip(op: BinaryOp)
    ensures FromByte(ToByte(Binary(op))) == Some(Binary(op))
  {
  }

  lemma NullaryRoundTrip(op: NullaryOp)
    ensures FromByte(ToByte(Nullary(op))) == Some(Nullary(op))
  {
  }

  lemma LookupRoundTrip(op: LookupOp)
    ensures FromByte(ToByte(Lookup(op))) == Some(Lookup(op))
  {
  }

  lemma NoArmRoundTrip(op: NoArmOp)
    ensures FromByte(ToByte(NoArm(op))) == Some(NoArm(op))
  {
  }

  lemma OtherRoundTrip(op: Opcode)
    requires !op.Binary? && !op.Nullary? && !op.Lookup? && !op.NoArm?
    ensures FromByte(ToByte(op)) == Some(op)
  {
  }

  lemma ByteRoundTrip(op: Opcode)
    ensures FromByte(ToByte(op)) == Some(op)
  {
    hide FromByte, ToByte;
    match op
    case Binary(o) => BinaryRoundTrip(o);
    case Nullary(o) => NullaryRoundTrip(o);
    case Lookup(o) => LookupRoundTrip(o);
    case NoArm(o) => NoArmRoundTrip(o);
    case _ => OtherRoundTrip(op);
  }

  lemma ArithmeticInverse(b: Byte)
    requires 0x00 <= b < 0x20
    ensures FromByte(b).Some? ==> ToByte(FromByte(b).value) == b
  {
  }

  lemma EnvironmentInverse(b: Byte)
    requires 0x20 <= b < 0x48
    ensures FromByte(b).Some? ==> ToByte(FromByte(b).value) == b
  {
  }

  lemma FlowInverse(b: Byte)
    requires 0x48 <= b < 0x60
    ensures FromByte(b).Some? ==> ToByte(FromByte(b).value) == b
  {
  }

  lemma RangeInverse(b: Byte)
    requires 0x60 <= b < 0xf0
    ensures FromByte(b).Some? ==> ToByte(FromByte(b).value) == b
  {
  }

  lemma SystemInverse(b: Byte)
    requires 0xf0 <= b < 0x100
    ensures FromByte(b).Some? ==> ToByte(FromByte(b).value) == b
  {
  }

  /** Different bytes are different opcodes: encoding undoes decoding. */
  lemma ByteInverse(b: Byte)
    ensures FromByte(b).Some? ==> ToByte(FromByte(b).value) == b
  {
    hide FromByte, ToByte;
    if b < 0x20 { ArithmeticInverse(b); }
    else if b < 0x48 { EnvironmentInverse(b); }
    else if b < 0x60 { FlowInverse(b); }
    else if b < 0xf0 { RangeInverse(b); }
    else { SystemInverse(b); }
  }

  /** The opcodes in the order of their bytes, from 0x00, 0x10, 0x30, 0x40, 0x50 and 0xf0 on. */
  const FROM_00: seq<Opcode> := [STOP, Binary(ADD), Binary(MUL), Binary(SUB), Binary(DIV), Binary(SDIV), Binary(MOD), Binary(SMOD),
                                 Ternary(ADDMOD), Ternary(MULMOD), EXP, Binary(SIGNEXTEND)]
  const FROM_10: seq<Opcode> := [Binary(LT), Binary(GT), Binary(SLT), Binary(SGT), Binary(EQ), Lookup(ISZERO), Binary(AND), Binary(OR),
                                 Binary(XOR), Lookup(NOT), Binary(BYTE), Binary(SHL), Binary(SHR), Binary(SAR)]
  const FROM_30: seq<Opcode> := [Nullary(ADDRESS), Lookup(BALANCE), Nullary(ORIGIN), Nullary(CALLER), Nullary(CALLVALUE),
                                 Lookup(CALLDATALOAD), Nullary(CALLDATASIZE), Copy(CALLDATACOPY), Nullary(CODESIZE), Copy(CODECOPY),
                                 Nullary(GASPRICE), Lookup(EXTCODESIZE), EXTCODECOPY, Nullary(RETURNDATASIZE), Copy(RETURNDATACOPY),
                                 Lookup(EXTCODEHASH)]
  const FROM_40: seq<Opcode> := [Lookup(BLOCKHASH), Nullary(COINBASE), Nullary(TIMESTAMP), Nullary(NUMBER), Nullary(DIFFICULTY),
                                 Nullary(GASLIMIT), Nullary(CHAINID), Nullary(SELFBALANCE), Nullary(BASEFEE), NoArm(BLOBHASH),
                                 NoArm(BLOBBASEFEE)]
  const FROM_50: seq<Opcode> := [POP, Lookup(MLOAD), MSTORE, MSTORE8, Lookup(SLOAD), SSTORE, JUMP, JUMPI, Nullary(PC), Nullary(MSIZE),
                                 Nullary(GAS), JUMPDEST, NoArm(TLOAD), NoArm(TSTORE), NoArm(MCOPY), Nullary(PUSH0)]
  const FROM_F0: seq<Opcode> := [NoArm(CREATE), NoArm(CALL), NoArm(CALLCODE), RETURN, NoArm(DELEGATECALL), NoArm(CREATE2)]

  /** The bytes of each group count up from its first. */
  lemma BytesFrom00(i: nat)
    requires i < |FROM_00|
    ensures ToByte(FROM_00[i]) == i
  {
  }

  lemma BytesFrom10(i: nat)
    requires i < |FROM_10|
    ensures ToByte(FROM_10[i]) == 0x10 + i
  {
  }

  lemma BytesFrom30(i: nat)
    requires i < |FROM_30|
    ensures ToByte(FROM_30[i]) == 0x30 + i
  {
  }

  lemma BytesFrom40(i: nat)
    requires i < |FROM_40|
    ensures ToByte(FROM_40[i]) == 0x40 + i
  {
  }

  lemma BytesFrom50(i: nat)
    requires i < |FROM_50|
    ensures ToByte(FROM_50[i]) == 0x50 + i
  {
  }

  lemma BytesFromF0(i: nat)
    requires i < |FROM_F0|
    ensures ToByte(FROM_F0[i]) == 0xf0 + i
  {
  }

  /** The bytes of the numbered opcodes and of those on their own. */
  lemma OtherBytes(p: PushSize, d: DupIndex, w: SwapDepth, t: TopicCount)
    ensures ToByte(PUSH(p)) == 0x5f + p && ToByte(DUP(d)) == 0x80 + d && ToByte(SWAP(w)) == 0x8f + w && ToByte(LOG(t)) == 0xa0 + t
    ensures ToByte(KECCAK256) == 0x20 && ToByte(NoArm(STATICCALL)) == 0xfa && ToByte(REVERT) == 0xfd
    ensures ToByte(NoArm(INVALID)) == 0xfe && ToByte(NoArm(SELFDESTRUCT)) == 0xff
  {
  }

  // ----- stack metadata -----

  function StackInputs(op: Opcode): nat {
    match op
    case STOP | Nullary(_) | JUMPDEST | PUSH(_) => 0
    case Binary(_) => 2
    case Ternary(_) => 3
    case EXP | KECCAK256 => 2
    case Lookup(_) => 1
    case Copy(_) => 3
    case EXTCODECOPY => 4
    case POP => 1
    case MSTORE | MSTORE8 | SSTORE => 2
    case JUMP => 1
    case JUMPI => 2
    case DUP(n) => n + 1
    case SWAP(n) => n + 1
    case LOG(n) => n + 2
    case RETURN | REVERT => 2
    case NoArm(o) =>
      match o
      case BLOBHASH | TLOAD | SELFDESTRUCT => 1
      case TSTORE => 2
      case MCOPY | CREATE => 3
      case CREATE2 => 4
      case DELEGATECALL | STATICCALL => 6
      case CALL | CALLCODE => 7
      case BLOBBASEFEE | INVALID => 0
  }

  function StackOutputs(op: Opcode): nat {
    match op
    case STOP | JUMP | JUMPI | RETURN | REVERT | SSTORE | POP | MSTORE | MSTORE8 => 0
    case Copy(_) | EXTCODECOPY | LOG(_) | JUMPDEST => 0
    case Nullary(_) | PUSH(_) => 1
    case DUP(n) => n + 2
    case SWAP(n) => n + 1
    case Binary(_) | Ternary(_) | Lookup(_) | EXP | KECCAK256 => 1
    case NoArm(o) => if o == SELFDESTRUCT || o == TSTORE || o == MCOPY || o == INVALID then 0 else 1
  }
}
