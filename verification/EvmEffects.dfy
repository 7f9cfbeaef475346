/** What the other instructions do to the stack, the memory, the accounts, the counter and the logs. */
module EvmEffects {
  import opened Wrappers
  import opened Words
  import opened EvmTypes
  import opened EvmMemory
  import opened Opcodes
  import opened EvmMachine
  import opened EvmArithmetic

  lemma TakesNone(ctx: Context, o: NullaryOp, m: Machine)
    requires m.pc < |ctx.code|
    ensures Leaves(ctx, Nullary(o), m, m.stack, NullaryValue(ctx, m, o))
  {
    hide NullaryValue;
  }

  lemma TakesOne(ctx: Context, o: LookupOp, m: Machine, rest: seq<Word>, x: Word)
    requires m.stack == rest + [x] && m.pc < |ctx.code| && LookupValue(ctx, m.memory, m.accounts, o, x).Ok?
    ensures Leaves(ctx, Lookup(o), m, rest, LookupValue(ctx, m.memory, m.accounts, o, x).value)
  {
    assert Arg(m.stack, 0) == x && Drop(m.stack, 1) == rest;
    hide LookupValue;
  }

  // ----- the stack -----

  /** POP drops the top. */
  lemma PopLaw(ctx: Context, m: Machine, rest: seq<Word>, x: Word)
    requires m.stack == rest + [x] && m.pc < |ctx.code|
    ensures Effect(ctx, POP, m) == Ok(m.(stack := rest, pc := m.pc + 1))
  {
    assert Drop(m.stack, 1) == rest;
  }

  /** DUP copies the word under `n` others to the top. */
  lemma DupLaw(ctx: Context, m: Machine, rest: seq<Word>, x: Word, above: seq<Word>, n: DupIndex)
    requires m.stack == rest + [x] + above && |above| == n && m.pc < |ctx.code|
    ensures Effect(ctx, DUP(n), m) == Ok(m.(stack := m.stack + [x], pc := m.pc + 1))
  {
    assert Arg(m.stack, n) == x;
  }

  /** SWAP exchanges the top with the word under `n - 1` others below it. */
  lemma SwapLaw(ctx: Context, m: Machine, rest: seq<Word>, x: Word, between: seq<Word>, y: Word, n: SwapDepth)
    requires m.stack == rest + [x] + between + [y] && |between| == n - 1 && m.pc < |ctx.code|
    ensures Effect(ctx, SWAP(n), m) == Ok(m.(stack := rest + [y] + between + [x], pc := m.pc + 1))
  {
    assert Swapped(m.stack, n) == rest + [y] + between + [x];
  }

  /** PUSH reads the bytes behind it, as many as it says or as there are, as a big-endian number and goes on behind them. */
  lemma PushLaw(ctx: Context, m: Machine, n: PushSize) returns (v: Word)
    requires m.pc < |ctx.code|
    ensures var k := if m.pc + 1 + n <= |ctx.code| then n else |ctx.code| - m.pc - 1;
            && Effect(ctx, PUSH(n), m) == Ok(m.(stack := m.stack + [v], pc := m.pc + 1 + k))
            && ToBigEndian(v, k) == ctx.code[m.pc + 1..m.pc + 1 + k] && v < Pow2(8 * k)
  {
    var bytes := Immediate(ctx.code, m.pc, n).1;
    v := WordFromBytes(bytes);
    BigEndianInverse(bytes);
  }

  // ----- the counter -----

  /** What a jump to `y` makes of the machine with the operands gone. */
  function Landed(ctx: Context, m: Machine, y: Word): EvmResult<Machine> {
    if y > U64_MAX then Err(Panic)
    else if y < |ctx.code| && ctx.code[y] == 0x5b then Ok(m.(pc := y))
    else Err(InvalidJump(y))
  }

  /** JUMP goes to the top. */
  lemma JumpLaw(ctx: Context, m: Machine, rest: seq<Word>, y: Word)
    requires m.stack == rest + [y] && m.pc < |ctx.code|
    ensures Effect(ctx, JUMP, m) == Landed(ctx, m.(stack := rest), y)
  {
    assert Arg(m.stack, 0) == y && Drop(m.stack, 1) == rest;
  }

  /** JUMPI goes to the top exactly when the word below it is not zero, and otherwise to the next byte. */
  lemma JumpiLaw(ctx: Context, m: Machine, rest: seq<Word>, x: Word, y: Word)
    requires Two(ctx, m, rest, x, y)
    ensures x != 0 ==> Effect(ctx, JUMPI, m) == Landed(ctx, m.(stack := rest), y)
    ensures x == 0 ==> Effect(ctx, JUMPI, m) == Ok(m.(stack := rest, pc := m.pc + 1))
  {
    assert Arg(m.stack, 0) == y && Arg(m.stack, 1) == x && Drop(m.stack, 2) == rest;
  }

  /** JUMPDEST and the opcodes without an arm only step on. */
  lemma StepLaw(ctx: Context, m: Machine, o: NoArmOp)
    requires m.pc < |ctx.code|
    ensures Effect(ctx, JUMPDEST, m) == Ok(m.(pc := m.pc + 1))
    ensures StackInputs(NoArm(o)) <= |m.stack| ==> Effect(ctx, NoArm(o), m) == Ok(m.(pc := m.pc + 1))
  {
  }

  // ----- storage -----

  /** SSTORE puts the word below the top under the top in the executing account, and every other read is the same. */
  lemma SstoreLaw(ctx: Context, m: Machine, rest: seq<Word>, value: Word, key: Word, a: Address, k: Word)
    requires Two(ctx, m, rest, value, key)
    ensures var r := Effect(ctx, SSTORE, m);
            && r.Ok? && r.value == m.(stack := rest, pc := m.pc + 1, accounts := r.value.accounts)
            && StorageAt(r.value.accounts, a, k) == (if a == ctx.address && k == key then value else StorageAt(m.accounts, a, k))
            && BalanceOf(r.value.accounts, a) == BalanceOf(m.accounts, a)
            && (a in m.accounts ==> a in r.value.accounts && r.value.accounts[a].code == m.accounts[a].code)
  {
    assert Arg(m.stack, 0) == key && Arg(m.stack, 1) == value && Drop(m.stack, 2) == rest;
  }

  /** SLOAD leaves what is read under the top, and what SSTORE put there is read again. */
  lemma SloadLaw(ctx: Context, m: Machine, rest: seq<Word>, value: Word, key: Word, m': Machine, rest': seq<Word>)
    requires Two(ctx, m, rest, value, key)
    requires m'.stack == rest' + [key] && m'.pc < |ctx.code|
    ensures Leaves(ctx, Lookup(SLOAD), m', rest', StorageAt(m'.accounts, ctx.address, key))
    ensures Effect(ctx, SSTORE, m).Ok? && m'.accounts == Effect(ctx, SSTORE, m).value.accounts ==>
              Leaves(ctx, Lookup(SLOAD), m', rest', value)
  {
    assert Arg(m'.stack, 0) == key && Drop(m'.stack, 1) == rest';
    assert Leaves(ctx, Lookup(SLOAD), m', rest', StorageAt(m'.accounts, ctx.address, key));
    SstoreLaw(ctx, m, rest, value, key, ctx.address, key);
  }

  // ----- memory -----

  /** Why `n` bytes cannot be written at `offset` when their end lies beyond what memory can hold. */
  function BeyondMemory(offset: Word, n: nat): EvmError {
    if offset <= U64_MAX < offset + n then InvalidMemoryAccess else Panic
  }

  /** MSTORE writes the word below the top at the top, most significant byte first, and nothing else. */
  lemma MstoreLaw(ctx: Context, m: Machine, rest: seq<Word>, value: Word, offset: Word, i: nat)
    requires Two(ctx, m, rest, value, offset)
    ensures var r := Effect(ctx, MSTORE, m);
            if offset + 32 > MAX_VEC then r == Err(BeyondMemory(offset, 32))
            else
              && r.Ok? && r.value == m.(stack := rest, pc := m.pc + 1, memory := r.value.memory)
              && At(r.value.memory, i) == (if offset <= i < offset + 32 then ToBigEndian(value, 32)[i - offset] else At(m.memory, i))
              && |r.value.memory| == if offset + 32 > |m.memory| then offset + 32 else |m.memory|
  {
    assert Arg(m.stack, 0) == offset && Arg(m.stack, 1) == value && Drop(m.stack, 2) == rest;
    if offset + 32 <= MAX_VEC {
      WrittenAt(m.memory, offset, ToBigEndian(value, 32), i);
      WrittenLength(m.memory, offset, ToBigEndian(value, 32));
    }
    hide Written, ToBigEndian;
  }

  /** MSTORE8 writes the most significant byte of the word below the top at the top, and nothing else. */
  lemma Mstore8Law(ctx: Context, m: Machine, rest: seq<Word>, value: Word, offset: Word, i: nat)
    requires Two(ctx, m, rest, value, offset)
    ensures var r := Effect(ctx, MSTORE8, m);
            if offset + 1 > MAX_VEC then r == Err(BeyondMemory(offset, 1))
            else
              && r.Ok? && r.value == m.(stack := rest, pc := m.pc + 1, memory := r.value.memory)
              && At(r.value.memory, i) == (if i == offset then ToBigEndian(value, 32)[0] else At(m.memory, i))
              && |r.value.memory| == if offset + 1 > |m.memory| then offset + 1 else |m.memory|
  {
    hide Written, ToBigEndian, TopByte;
    Mstore8Writes(ctx, m, rest, value, offset);
    hide Effect;
    if offset + 1 <= MAX_VEC {
      ByteInstructions(value, 0);
      WrittenAt(m.memory, offset, [TopByte(value)], i);
      WrittenLength(m.memory, offset, [TopByte(value)]);
    }
  }

  lemma Mstore8Writes(ctx: Context, m: Machine, rest: seq<Word>, value: Word, offset: Word)
    requires Two(ctx, m, rest, value, offset)
    ensures offset + 1 > MAX_VEC ==> Effect(ctx, MSTORE8, m) == Err(BeyondMemory(offset, 1))
    ensures offset + 1 <= MAX_VEC ==>
              && |Written(m.memory, offset, [TopByte(value)])| <= MAX_VEC
              && Effect(ctx, MSTORE8, m)
                 == Ok(m.(stack := rest, pc := m.pc + 1, memory := Written(m.memory, offset, [TopByte(value)])))
  {
    hide TopByte;
    assert Arg(m.stack, 0) == offset && Arg(m.stack, 1) == value && Drop(m.stack, 2) == rest;
  }

  lemma WordBytes(data: seq<Byte>, offset: nat, i: nat)
    requires i < 32
    ensures ToBigEndian(WordFromBytes(Slice(data, offset, 32)), 32)[i] == At(data, offset + i)
  {
    BigEndianInverse(Slice(data, offset, 32));
  }

  /** MLOAD and CALLDATALOAD leave the word whose bytes are those from the top on, zero past the end. */
  lemma LoadLaw(ctx: Context, m: Machine, rest: seq<Word>, offset: Word, i: nat) returns (w: Word, d: Word)
    requires m.stack == rest + [offset] && m.pc < |ctx.code| && i < 32
    ensures offset <= U64_MAX ==> Leaves(ctx, Lookup(MLOAD), m, rest, w) && ToBigEndian(w, 32)[i] == At(m.memory, offset + i)
    ensures offset <= U64_MAX ==> Leaves(ctx, Lookup(CALLDATALOAD), m, rest, d) && ToBigEndian(d, 32)[i] == At(ctx.data, offset + i)
    ensures offset > U64_MAX ==> Effect(ctx, Lookup(MLOAD), m) == Effect(ctx, Lookup(CALLDATALOAD), m) == Err(Panic)
  {
    if offset > U64_MAX {
      assert Arg(m.stack, 0) == offset;
      w, d := 0, 0;
      return;
    }
    hide ToBigEndian, WordFromBytes, Leaves;
    TakesOne(ctx, MLOAD, m, rest, offset);
    TakesOne(ctx, CALLDATALOAD, m, rest, offset);
    w, d := WordFromBytes(Slice(m.memory, offset, 32)), WordFromBytes(Slice(ctx.data, offset, 32));
    WordBytes(m.memory, offset, i);
    WordBytes(ctx.data, offset, i);
  }

  /** Memory can be read from an offset of 64 bits, as many bytes as a vector can hold; all else aborts. */
  predicate CanRead(offset: Word, size: Word) {
    offset <= U64_MAX && size <= MAX_VEC
  }

  /** `bytes` are the `size` bytes of memory from `offset` on, zero past its end. */
  predicate Reads(m: Machine, offset: Word, size: Word, bytes: seq<Byte>) {
    |bytes| == size && forall i :: 0 <= i < size ==> bytes[i] == At(m.memory, offset + i)
  }

  /** KECCAK256 hashes as many bytes as the word below the top says, from the top on. */
  lemma KeccakLaw(ctx: Context, m: Machine, rest: seq<Word>, size: Word, offset: Word) returns (bytes: seq<Byte>)
    requires Two(ctx, m, rest, size, offset)
    ensures CanRead(offset, size) ==> Reads(m, offset, size, bytes) && Leaves(ctx, KECCAK256, m, rest, ctx.keccak(bytes))
    ensures !CanRead(offset, size) ==> Effect(ctx, KECCAK256, m) == Err(Panic)
  {
    assert Arg(m.stack, 0) == offset && Arg(m.stack, 1) == size && Drop(m.stack, 2) == rest;
    bytes := if CanRead(offset, size) then Slice(m.memory, offset, size) else [];
  }

  /** The source of a copy. */
  function Origin(ctx: Context, m: Machine, op: CopyOp): seq<Byte> {
    match op
    case CALLDATACOPY => ctx.data
    case CODECOPY => ctx.code
    case RETURNDATACOPY => m.returnData
  }

  /**
   A copy takes the place in memory from the top, the place in its source from the word below and the size from
   the next: those bytes of memory become the source's, zero past its end, and no other byte changes.
   */
  lemma CopyLaw(ctx: Context, op: CopyOp, m: Machine, rest: seq<Word>, size: Word, src: Word, dst: Word, i: nat)
    requires m.stack == rest + [size, src, dst] && m.pc < |ctx.code|
    ensures var r := Effect(ctx, Copy(op), m);
            if op == RETURNDATACOPY && src + size > |m.returnData| then r == Err(ReturnDataOutOfBounds)
            else if size == 0 then r == if dst > U64_MAX then Err(Panic) else Ok(m.(stack := rest, pc := m.pc + 1))
            else if src > U64_MAX || size > MAX_VEC then r == Err(Panic)
            else if dst + size > MAX_VEC then r == Err(BeyondMemory(dst, size))
            else
              && r.Ok? && r.value == m.(stack := rest, pc := m.pc + 1, memory := r.value.memory)
              && At(r.value.memory, i) == (if dst <= i < dst + size then At(Origin(ctx, m, op), src + (i - dst)) else At(m.memory, i))
              && |r.value.memory| == if dst + size > |m.memory| then dst + size else |m.memory|
  {
    hide CopiedBytes, Written;
    if op == RETURNDATACOPY && src + size > |m.returnData| {
      CopyRefused(ctx, m, rest, size, src, dst);
    } else if size == 0 || src > U64_MAX || dst + size > MAX_VEC {
      CopyBeyond(ctx, op, m, rest, size, src, dst);
    } else {
      var bytes := Slice(Origin(ctx, m, op), src, size);
      CopyWrites(ctx, op, m, rest, size, src, dst);
      hide Effect;
      WrittenAt(m.memory, dst, bytes, i);
      WrittenLength(m.memory, dst, bytes);
    }
  }

  lemma CopyBeyond(ctx: Context, op: CopyOp, m: Machine, rest: seq<Word>, size: Word, src: Word, dst: Word)
    requires m.stack == rest + [size, src, dst] && m.pc < |ctx.code|
    requires !(op == RETURNDATACOPY && src + size > |m.returnData|) && (size == 0 || src > U64_MAX || dst + size > MAX_VEC)
    ensures var r := Effect(ctx, Copy(op), m);
            if size == 0 then r == if dst > U64_MAX then Err(Panic) else Ok(m.(stack := rest, pc := m.pc + 1))
            else if src > U64_MAX || size > MAX_VEC then r == Err(Panic)
            else r == Err(BeyondMemory(dst, size))
  {
    assert Arg(m.stack, 0) == dst && Arg(m.stack, 1) == src && Arg(m.stack, 2) == size && Drop(m.stack, 3) == rest;
  }

  lemma CopyRefused(ctx: Context, m: Machine, rest: seq<Word>, size: Word, src: Word, dst: Word)
    requires m.stack == rest + [size, src, dst] && m.pc < |ctx.code| && src + size > |m.returnData|
    ensures Effect(ctx, Copy(RETURNDATACOPY), m) == Err(ReturnDataOutOfBounds)
  {
    assert Arg(m.stack, 1) == src && Arg(m.stack, 2) == size;
  }

  lemma CopyWrites(ctx: Context, op: CopyOp, m: Machine, rest: seq<Word>, size: Word, src: Word, dst: Word)
    requires m.stack == rest + [size, src, dst] && m.pc < |ctx.code|
    requires src <= U64_MAX && dst + size <= MAX_VEC && !(op == RETURNDATACOPY && src + size > |m.returnData|)
    ensures var memory := Written(m.memory, dst, Slice(Origin(ctx, m, op), src, size));
            |memory| <= MAX_VEC && Effect(ctx, Copy(op), m) == Ok(m.(stack := rest, pc := m.pc + 1, memory := memory))
  {
    assert Arg(m.stack, 0) == dst && Arg(m.stack, 1) == src && Arg(m.stack, 2) == size && Drop(m.stack, 3) == rest;
    CopiedAre(ctx, m, op, src, size);
    WrittenFits(m.memory, dst, Slice(Origin(ctx, m, op), src, size));
    hide CopiedBytes, Written;
  }

  /** A write grows the memory just as far as it reaches. */
  lemma WrittenLength(data: seq<Byte>, offset: nat, bytes: seq<Byte>)
    ensures |Written(data, offset, bytes)| == if bytes != [] && offset + |bytes| > |data| then offset + |bytes| else |data|
  {
  }

  lemma WrittenFits(data: ByteVec, offset: nat, bytes: seq<Byte>)
    requires offset + |bytes| <= MAX_VEC
    ensures |Written(data, offset, bytes)| <= MAX_VEC
  {
  }

  lemma CopiedAre(ctx: Context, m: Machine, op: CopyOp, src: Word, size: Word)
    requires src <= U64_MAX && size <= MAX_VEC && !(op == RETURNDATACOPY && src + size > |m.returnData|)
    ensures CopiedBytes(ctx, m.returnData, op, src, size) == Ok(Slice(Origin(ctx, m, op), src, size))
  {
  }

  /** EXTCODECOPY does so with the code of the account on top; where there is none it writes zeros whatever the source. */
  lemma ExtCodeCopyLaw(ctx: Context, m: Machine, rest: seq<Word>, size: Word, src: Word, dst: Word, a: Word, i: nat)
    requires m.stack == rest + [size, src, dst, a] && m.pc < |ctx.code|
    ensures var r, id := Effect(ctx, EXTCODECOPY, m), a % TWO_160;
            var code := if id in m.accounts then m.accounts[id].code else [];
            if size == 0 then r == if dst > U64_MAX then Err(Panic) else Ok(m.(stack := rest, pc := m.pc + 1))
            else if (src > U64_MAX && id in m.accounts) || size > MAX_VEC then r == Err(Panic)
            else if dst + size > MAX_VEC then r == Err(BeyondMemory(dst, size))
            else
              && r.Ok? && r.value == m.(stack := rest, pc := m.pc + 1, memory := r.value.memory)
              && At(r.value.memory, i) == (if dst <= i < dst + size then At(code, src + (i - dst)) else At(m.memory, i))
              && |r.value.memory| == if dst + size > |m.memory| then dst + size else |m.memory|
  {
    hide Written, ExternalCode;
    var id := AddressOf(a);
    var code := if id in m.accounts then m.accounts[id].code else [];
    if size == 0 || (src > U64_MAX && id in m.accounts) || dst + size > MAX_VEC {
      ExtCodeBeyond(ctx, m, rest, size, src, dst, a);
    } else {
      var bytes := Slice(code, src, size);
      ExtCodeWrites(ctx, m, rest, size, src, dst, a, code);
      hide Effect;
      WrittenAt(m.memory, dst, bytes, i);
      WrittenLength(m.memory, dst, bytes);
    }
  }

  lemma ExtCodeBeyond(ctx: Context, m: Machine, rest: seq<Word>, size: Word, src: Word, dst: Word, a: Word)
    requires m.stack == rest + [size, src, dst, a] && m.pc < |ctx.code|
    requires size == 0 || (src > U64_MAX && AddressOf(a) in m.accounts) || dst + size > MAX_VEC
    ensures var r := Effect(ctx, EXTCODECOPY, m);
            if size == 0 then r == if dst > U64_MAX then Err(Panic) else Ok(m.(stack := rest, pc := m.pc + 1))
            else if (src > U64_MAX && AddressOf(a) in m.accounts) || size > MAX_VEC then r == Err(Panic)
            else r == Err(BeyondMemory(dst, size))
  {
    assert Arg(m.stack, 0) == a && Arg(m.stack, 1) == dst && Arg(m.stack, 2) == src && Arg(m.stack, 3) == size;
    assert Drop(m.stack, 4) == rest;
  }

  lemma ExtCodeWrites(ctx: Context, m: Machine, rest: seq<Word>, size: Word, src: Word, dst: Word, a: Word, code: ByteVec)
    requires m.stack == rest + [size, src, dst, a] && m.pc < |ctx.code|
    requires size > 0 && dst + size <= MAX_VEC && (src <= U64_MAX || AddressOf(a) !in m.accounts)
    requires code == if AddressOf(a) in m.accounts then m.accounts[AddressOf(a)].code else []
    ensures var memory := Written(m.memory, dst, Slice(code, src, size));
            |memory| <= MAX_VEC && Effect(ctx, EXTCODECOPY, m) == Ok(m.(stack := rest, pc := m.pc + 1, memory := memory))
  {
    assert Arg(m.stack, 0) == a && Arg(m.stack, 1) == dst && Arg(m.stack, 2) == src && Arg(m.stack, 3) == size;
    assert Drop(m.stack, 4) == rest;
    assert ExternalCode(m.accounts, AddressOf(a), src, size) == Ok(Slice(code, src, size)) by {
      if AddressOf(a) !in m.accounts { assert Zeros(size) == Slice(code, src, size); }
    }
    WrittenFits(m.memory, dst, Slice(code, src, size));
    hide ExternalCode, Written;
  }

  // ----- the environment -----

  /** The account lookups go by the low 160 bits of the top, and find nothing where there is no account. */
  lemma AccountLaw(ctx: Context, m: Machine, rest: seq<Word>, x: Word)
    requires m.stack == rest + [x] && m.pc < |ctx.code|
    ensures var a := x % TWO_160;
            var here := a in m.accounts;
            && Leaves(ctx, Lookup(BALANCE), m, rest, if here then m.accounts[a].balance else 0)
            && Leaves(ctx, Lookup(EXTCODESIZE), m, rest, if here then |m.accounts[a].code| else 0)
            && Leaves(ctx, Lookup(EXTCODEHASH), m, rest, if here && m.accounts[a].code != [] then ctx.keccak(m.accounts[a].code) else 0)
  {
    hide Leaves;
    TakesOne(ctx, BALANCE, m, rest, x);
    TakesOne(ctx, EXTCODESIZE, m, rest, x);
    TakesOne(ctx, EXTCODEHASH, m, rest, x);
  }

  /** BLOCKHASH finds the hashes of the 256 blocks before this one, as far as they are given. */
  lemma BlockHashLaw(ctx: Context, m: Machine, rest: seq<Word>, x: Word)
    requires m.stack == rest + [x] && m.pc < |ctx.code|
    ensures x <= U64_MAX && x < ctx.block.number <= x + 256 ==>
              Leaves(ctx, Lookup(BLOCKHASH), m, rest, if x < |ctx.block.blockHashes| then ctx.block.blockHashes[x] else 0)
    ensures x > U64_MAX && x < ctx.block.number <= x + 256 ==> Effect(ctx, Lookup(BLOCKHASH), m) == Err(Panic)
    ensures !(x < ctx.block.number <= x + 256) ==> Leaves(ctx, Lookup(BLOCKHASH), m, rest, 0)
  {
    assert Arg(m.stack, 0) == x && Drop(m.stack, 1) == rest;
  }

  /** Who calls whom with what, and the sizes of what they brought. */
  lemma CallValuesLaw(ctx: Context, m: Machine)
    requires m.pc < |ctx.code|
    ensures Leaves(ctx, Nullary(ADDRESS), m, m.stack, ctx.address) && Leaves(ctx, Nullary(ORIGIN), m, m.stack, ctx.origin)
    ensures Leaves(ctx, Nullary(CALLER), m, m.stack, ctx.caller) && Leaves(ctx, Nullary(CALLVALUE), m, m.stack, ctx.value)
    ensures Leaves(ctx, Nullary(GASPRICE), m, m.stack, ctx.gasPrice)
    ensures Leaves(ctx, Nullary(CALLDATASIZE), m, m.stack, |ctx.data|) && Leaves(ctx, Nullary(CODESIZE), m, m.stack, |ctx.code|)
    ensures Leaves(ctx, Nullary(RETURNDATASIZE), m, m.stack, |m.returnData|)
  {
    hide Leaves;
    TakesNone(ctx, ADDRESS, m);
    TakesNone(ctx, ORIGIN, m);
    TakesNone(ctx, CALLER, m);
    TakesNone(ctx, CALLVALUE, m);
    TakesNone(ctx, GASPRICE, m);
    TakesNone(ctx, CALLDATASIZE, m);
    TakesNone(ctx, CODESIZE, m);
    TakesNone(ctx, RETURNDATASIZE, m);
  }

  /** The block the run is part of; a missing base fee is zero. */
  lemma BlockValuesLaw(ctx: Context, m: Machine)
    requires m.pc < |ctx.code|
    ensures Leaves(ctx, Nullary(COINBASE), m, m.stack, ctx.block.coinbase)
    ensures Leaves(ctx, Nullary(TIMESTAMP), m, m.stack, ctx.block.timestamp)
    ensures Leaves(ctx, Nullary(NUMBER), m, m.stack, ctx.block.number)
    ensures Leaves(ctx, Nullary(DIFFICULTY), m, m.stack, ctx.block.difficulty)
    ensures Leaves(ctx, Nullary(GASLIMIT), m, m.stack, ctx.block.gasLimit)
    ensures Leaves(ctx, Nullary(CHAINID), m, m.stack, ctx.block.chainId)
    ensures ctx.block.baseFee == None ==> Leaves(ctx, Nullary(BASEFEE), m, m.stack, 0)
    ensures forall fee :: ctx.block.baseFee == Some(fee) ==> Leaves(ctx, Nullary(BASEFEE), m, m.stack, fee)
  {
    hide Leaves;
    TakesNone(ctx, COINBASE, m);
    TakesNone(ctx, TIMESTAMP, m);
    TakesNone(ctx, NUMBER, m);
    TakesNone(ctx, DIFFICULTY, m);
    TakesNone(ctx, GASLIMIT, m);
    TakesNone(ctx, CHAINID, m);
    TakesNone(ctx, BASEFEE, m);
  }

  /** The machine itself: its counter, its memory, the gas it has left and the balance of its account. */
  lemma MachineValuesLaw(ctx: Context, m: Machine) returns (left: Word, balance: Word)
    requires m.pc < |ctx.code| && m.gasUsed <= ctx.gasLimit
    ensures Leaves(ctx, Nullary(PC), m, m.stack, m.pc) && Leaves(ctx, Nullary(MSIZE), m, m.stack, |m.memory|)
    ensures Leaves(ctx, Nullary(PUSH0), m, m.stack, 0)
    ensures Leaves(ctx, Nullary(GAS), m, m.stack, left) && left + m.gasUsed == ctx.gasLimit
    ensures Leaves(ctx, Nullary(SELFBALANCE), m, m.stack, balance)
    ensures if ctx.address in m.accounts then balance == m.accounts[ctx.address].balance else balance == 0
  {
    hide Leaves;
    TakesNone(ctx, PC, m);
    TakesNone(ctx, MSIZE, m);
    TakesNone(ctx, PUSH0, m);
    TakesNone(ctx, GAS, m);
    TakesNone(ctx, SELFBALANCE, m);
    left, balance := ctx.gasLimit - m.gasUsed, BalanceOf(m.accounts, ctx.address);
  }

  // ----- logs and ends -----

  /** LOG takes offset and size from the top and then its topics, the first topic first. */
  lemma LogLaw(ctx: Context, m: Machine, rest: seq<Word>, below: seq<Word>, size: Word, offset: Word, n: TopicCount)
    returns (topics: seq<Word>, bytes: seq<Byte>)
    requires m.stack == rest + below + [size, offset] && |below| == n && m.pc < |ctx.code|
    ensures |topics| == n && forall i :: 0 <= i < n ==> topics[i] == below[n - 1 - i]
    ensures CanRead(offset, size) ==>
              && Reads(m, offset, size, bytes)
              && Effect(ctx, LOG(n), m) ==
                 Ok(m.(stack := rest, pc := m.pc + 1, logs := m.logs + [Log(ctx.address, topics, bytes)]))
    ensures !CanRead(offset, size) ==> Effect(ctx, LOG(n), m) == Err(Panic)
  {
    LogTopics(rest, below, n);
    LogOperands(m.stack, rest, below, size, offset);
    topics, bytes := Args(rest + below, n), if CanRead(offset, size) then Slice(m.memory, offset, size) else [];
    hide Args, Arg, Drop;
  }

  lemma LogTopics(rest: seq<Word>, below: seq<Word>, n: TopicCount)
    requires |below| == n
    ensures |Args(rest + below, n)| == n && forall i :: 0 <= i < n ==> Args(rest + below, n)[i] == below[n - 1 - i]
  {
    assert forall i :: 0 <= i < n ==> Arg(rest + below, i) == below[n - 1 - i];
  }

  lemma LogOperands(stack: seq<Word>, rest: seq<Word>, below: seq<Word>, size: Word, offset: Word)
    requires stack == rest + below + [size, offset]
    ensures Arg(stack, 0) == offset && Arg(stack, 1) == size
    ensures Drop(stack, 2) == rest + below && Drop(stack, |below| + 2) == rest
  {
  }

  /** RETURN and REVERT end the run with as many bytes as the word below the top says, from the top on; STOP with none. */
  lemma EndLaw(ctx: Context, m: Machine, rest: seq<Word>, size: Word, offset: Word) returns (bytes: seq<Byte>)
    requires Two(ctx, m, rest, size, offset) && m.gasUsed <= ctx.gasLimit
    ensures CanRead(offset, size) ==>
              && Reads(m, offset, size, bytes)
              && Perform(ctx, RETURN, m) == Done(m.(stack := rest), ExecutionResult(Status.Success, m.gasUsed, bytes))
              && Perform(ctx, REVERT, m) == Done(m.(stack := rest), ExecutionResult(Revert, m.gasUsed, bytes))
    ensures !CanRead(offset, size) ==> Perform(ctx, RETURN, m) == Perform(ctx, REVERT, m) == Fail(Panic, m.gasUsed)
    ensures Perform(ctx, STOP, m) == Done(m, ExecutionResult(Status.Success, m.gasUsed, []))
  {
    assert Arg(m.stack, 0) == offset && Arg(m.stack, 1) == size && Drop(m.stack, 2) == rest;
    bytes := if CanRead(offset, size) then Slice(m.memory, offset, size) else [];
    hide Effect;
  }

  /** How errors are reported: each under its own reason with the gas used, and running out of gas with all of it. */
  lemma ErrorReports(ctx: Context, used: U64, dest: nat)
    ensures HandleError(ctx, OutOfGas, used) == ExecutionResult(Halt(HaltOutOfGas), ctx.gasLimit, [])
    ensures HandleError(ctx, StackOverflow, used) == ExecutionResult(Halt(HaltStackOverflow), used, [])
    ensures HandleError(ctx, StackUnderflow, used) == ExecutionResult(Halt(HaltStackUnderflow), used, [])
    ensures HandleError(ctx, InvalidJump(dest), used) == ExecutionResult(Halt(HaltInvalidJump), used, [])
    ensures HandleError(ctx, StaticCallStateModification, used) == ExecutionResult(Halt(HaltStateModificationInStatic), used, [])
    ensures HandleError(ctx, InvalidMemoryAccess, used) == ExecutionResult(Halt(HaltInvalidCode), used, [])
    ensures HandleError(ctx, ReturnDataOutOfBounds, used) == ExecutionResult(Halt(HaltInvalidCode), used, [])
  {
  }

  // ----- gas -----

  /** A charge goes through exactly when the sum, held at 2^64 - 1, is within the limit, and is then that sum. */
  lemma ChargeLaw(limit: U64, used: U64, amount: nat)
    ensures used + amount <= limit ==> Charge(limit, used, amount) == Some(used + amount)
    ensures limit < used + amount && limit < U64_MAX ==> Charge(limit, used, amount) == None
    ensures limit < used + amount && limit == U64_MAX ==> Charge(limit, used, amount) == Some(limit)
  {
  }

  /**
   An instruction is charged its fixed and its operands' part, and refused exactly when they exceed a limit below
   2^64 - 1. A size too large to be charged for aborts, if the fixed part can be paid.
   */
  lemma GasLaw(ctx: Context, op: Opcode, m: Machine)
    requires StackInputs(op) <= |m.stack|
    ensures var fixed, part, limit := m.gasUsed + FixedCost(op), DynamicCost(op, m.stack), ctx.gasLimit;
            GasAfter(ctx, op, m) ==
              if fixed > limit && limit < U64_MAX then Err(OutOfGas)
              else if part.Err? then Err(Panic)
              else if fixed + part.value <= limit then Ok(fixed + part.value)
              else if limit < U64_MAX then Err(OutOfGas)
              else Ok(limit)
  {
    ChargeLaw(ctx.gasLimit, m.gasUsed, FixedCost(op));
    if DynamicCost(op, m.stack).Err? { PartErrors(op, m.stack); }
    hide FixedCost, DynamicCost, StackInputs;
  }

  lemma PartErrors(op: Opcode, stack: seq<Word>)
    requires StackInputs(op) <= |stack| && DynamicCost(op, stack).Err?
    ensures DynamicCost(op, stack).error == Panic
  {
  }

  /** The fixed charges of operators and lookups by tier. */
  lemma OperatorCosts(b: BinaryOp, t: TernaryOp, z: NullaryOp, l: LookupOp)
    ensures FixedCost(Binary(b)) == if b in {MUL, DIV, SDIV, MOD, SMOD, SIGNEXTEND} then 5 else 3
    ensures FixedCost(Ternary(t)) == 8 && FixedCost(Nullary(z)) == if z == SELFBALANCE then 5 else 2
    ensures l in {ISZERO, NOT, CALLDATALOAD, MLOAD} ==> FixedCost(Lookup(l)) == 3
    ensures l in {BALANCE, EXTCODESIZE, EXTCODEHASH} ==> FixedCost(Lookup(l)) == 2600
    ensures FixedCost(Lookup(BLOCKHASH)) == 20 && FixedCost(Lookup(SLOAD)) == 2100
  {
  }

  /** The fixed charges of the other instructions; hashing, copying, logging and EXP are charged by size alone. */
  lemma InstructionCosts(n: PushSize, d: DupIndex, w: SwapDepth)
    ensures FixedCost(JUMP) == 8 && FixedCost(JUMPI) == 10 && FixedCost(JUMPDEST) == 1 && FixedCost(SSTORE) == 20000
    ensures FixedCost(PUSH(n)) == FixedCost(DUP(d)) == FixedCost(SWAP(w)) == FixedCost(MSTORE) == FixedCost(MSTORE8) == 3
    ensures FixedCost(POP) == 2 && FixedCost(EXTCODECOPY) == 2600
    ensures FixedCost(STOP) == FixedCost(RETURN) == FixedCost(REVERT) == FixedCost(EXP) == FixedCost(KECCAK256) == 0
  {
  }

  /** No other charge than these, and none at all for opcodes without an arm. */
  lemma FreeParts(stack: seq<Word>, o: NoArmOp, c: CopyOp, t: TopicCount, op: Opcode)
    ensures FixedCost(NoArm(o)) == FixedCost(Copy(c)) == FixedCost(LOG(t)) == 0
    ensures StackInputs(op) <= |stack| && op != EXP && op != KECCAK256 && !op.Copy? && op != EXTCODECOPY && !op.LOG? ==>
              DynamicCost(op, stack) == Ok(0)
  {
  }

  lemma {:induction false} BitLengthBounds(w: nat)
    ensures w < Pow2(BitLength(w)) && (w > 0 ==> BitLength(w) > 0 && Pow2(BitLength(w) - 1) <= w)
  {
    if w > 0 { BitLengthBounds(w / 2); }
  }

  /** EXP costs 10 and 50 for each byte of the exponent without leading zeros. */
  lemma ExpCostLaw(exponent: Word) returns (bytes: nat)
    ensures ExpCost(exponent) == 10 + 50 * bytes
    ensures exponent < Pow2(8 * bytes) && (bytes > 0 ==> Pow2(8 * (bytes - 1)) <= exponent)
  {
    var bits := BitLength(exponent);
    bytes := (bits + 7) / 8;
    BitLengthBounds(exponent);
    Pow2Monotone(bits, 8 * bytes);
    if bytes > 0 { Pow2Monotone(8 * (bytes - 1), bits - 1); }
  }

  /** Hashing, copying and logging cost by the words, the words and the bytes they touch; sizes beyond 64 bits abort. */
  lemma SizeCostLaw(size: Word, n: TopicCount) returns (words: nat)
    ensures size <= 32 * words < size + 32
    ensures KeccakCost(size) == if size + 31 <= U64_MAX then Ok(30 + 6 * words) else Err(Panic)
    ensures CopyCost(size) == if size + 31 <= U64_MAX then Ok(3 * words) else Err(Panic)
    ensures size > U64_MAX ==> LogCost(n, size) == Err(Panic)
    ensures size <= U64_MAX ==>
              var sum := 375 * (n + 1) + 8 * size;
              LogCost(n, size) == Ok(if sum <= U64_MAX then sum else U64_MAX)
  {
    words := (size + 31) / 32;
  }

  /** Which operand the charge of an instruction goes by. */
  lemma ChargedBy(rest: seq<Word>, a: Word, b: Word, c: Word, d: Word, n: TopicCount, op: CopyOp)
    ensures DynamicCost(EXP, rest + [b, a]) == Ok(ExpCost(a)) && DynamicCost(KECCAK256, rest + [b, a]) == KeccakCost(b)
    ensures n <= |rest| ==> DynamicCost(LOG(n), rest + [b, a]) == LogCost(n, b)
    ensures DynamicCost(Copy(op), rest + [c, b, a]) == CopyCost(c)
    ensures DynamicCost(EXTCODECOPY, rest + [d, c, b, a]) == CopyCost(d)
  {
    hide ExpCost, KeccakCost, CopyCost, LogCost;
  }
}
