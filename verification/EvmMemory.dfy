/** Byte-addressed memory that grows on writes and reads as zero beyond its end. */
module EvmMemory {
  import opened Wrappers
  import opened Words
  import opened EvmTypes

  // ----- big-endian words -----

  function ToBigEndian(w: nat, n: nat): (s: seq<Byte>)
    ensures |s| == n
  {
    if n == 0 then [] else ToBigEndian(w / 256, n - 1) + [w % 256]
  }

  function FromBigEndian(s: seq<Byte>): (w: nat)
    ensures w < Pow2(8 * |s|)
  {
    if s == [] then 0
    else
      assert Pow2(8 * |s|) == 256 * Pow2(8 * (|s| - 1)) by { PowStep(|s| - 1); }
      FromBigEndian(s[..|s| - 1]) * 256 + s[|s| - 1]
  }

  lemma PowStep(n: nat)
    ensures Pow2(8 * n + 8) == 256 * Pow2(8 * n)
  {
    Pow2Add(8, 8 * n);
    assert Pow2(8) == 256;
  }

  lemma {:induction false} BigEndianRoundTrip(w: nat, n: nat)
    requires w < Pow2(8 * n)
    ensures FromBigEndian(ToBigEndian(w, n)) == w
  {
    if n > 0 {
      PowStep(n - 1);
      BigEndianRoundTrip(w / 256, n - 1);
      var s := ToBigEndian(w, n);
      assert s[..n - 1] == ToBigEndian(w / 256, n - 1);
    }
  }

  lemma {:induction false} BigEndianInverse(s: seq<Byte>)
    ensures ToBigEndian(FromBigEndian(s), |s|) == s
  {
    if s != [] {
      var n := |s| - 1;
      BigEndianInverse(s[..n]);
      var w := FromBigEndian(s);
      assert w / 256 == FromBigEndian(s[..n]) && w % 256 == s[n];
      assert s == s[..n] + [s[n]];
    }
  }

  lemma DivByBytes(w: nat, k: nat)
    ensures w / Pow2(8 * k + 8) == w / 256 / Pow2(8 * k)
  {
    PowStep(k);
    var d := Pow2(8 * k);
    DivShrinks(w / 256, d);
    var q, r := w / 256 / d, w / 256 % d;
    assert w / 256 == q * d + r;
    assert q * (256 * d) == 256 * (q * d);
    DivModUnique(w, 256 * d, q, 256 * r + w % 256);
  }

  /** Byte `i` of the big-endian form, as a shift and a remainder. */
  lemma {:induction false} BigEndianByte(w: nat, n: nat, i: nat)
    requires i < n
    ensures ToBigEndian(w, n)[i] == w / Pow2(8 * (n - 1 - i)) % 256
  {
    if i < n - 1 {
      BigEndianByte(w / 256, n - 1, i);
      DivByBytes(w, n - 2 - i);
    }
  }

  function WordFromBytes(s: seq<Byte>): Word
    requires |s| <= 32
  {
    Pow2Monotone(8 * |s|, 256);
    assert Pow2(256) == TWO_256 by { Pow2Values(); }
    FromBigEndian(s)
  }

  // ----- contents -----

  function Zeros(n: nat): (s: seq<Byte>)
    ensures |s| == n && forall i :: 0 <= i < n ==> s[i] == 0
  {
    seq<Byte>(n, i => 0)
  }

  /** The byte at position `i` of the infinite array the memory stands for. */
  function At(data: seq<Byte>, i: nat): Byte {
    if i < |data| then data[i] else 0
  }

  function Slice(data: seq<Byte>, offset: nat, size: nat): (s: seq<Byte>)
    ensures |s| == size
    ensures forall i :: 0 <= i < size ==> s[i] == At(data, offset + i)
  {
    seq<Byte>(size, i requires 0 <= i => At(data, offset + i))
  }

  function Resized(data: seq<Byte>, size: nat): seq<Byte> {
    if size > |data| then data + Zeros(size - |data|) else data
  }

  function Written(data: seq<Byte>, offset: nat, bytes: seq<Byte>): seq<Byte> {
    if bytes == [] then data
    else
      var d := Resized(data, offset + |bytes|);
      d[..offset] + bytes + d[offset + |bytes|..]
  }

  /** Why a write of `n` bytes at `offset` does not happen, if it does not. */
  function WriteError(data: seq<Byte>, offset: nat, n: nat): Option<EvmError> {
    if n == 0 then None
    else if offset + n > U64_MAX then Some(InvalidMemoryAccess)
    else if offset + n > MAX_VEC && offset + n > |data| then Some(Panic)
    else None
  }

  class Memory {
    var data: ByteVec

    constructor ()
      ensures data == []
    {
      data := [];
    }

    method Resize(newSize: nat) returns (r: EvmResult<()>)
      modifies this
      ensures r == if newSize > |old(data)| && newSize > MAX_VEC then Err(Panic) else Ok(())
      ensures data == if r.Ok? then Resized(old(data), newSize) else old(data)
    {
      if newSize > |data| {
        if newSize > MAX_VEC { return Err(Panic); }
        data := data + Zeros(newSize - |data|);
      }
      return Ok(());
    }

    method Get(offset: nat, size: nat) returns (r: EvmResult<seq<Byte>>)
      requires offset <= U64_MAX && size <= U64_MAX
      ensures r == if size > MAX_VEC then Err(Panic) else Ok(Slice(data, offset, size))
    {
      if size == 0 { return Ok([]); }
      var end := if offset + size > U64_MAX then U64_MAX else offset + size;
      if offset >= |data| {
        if size > MAX_VEC { return Err(Panic); }
        assert Zeros(size) == Slice(data, offset, size);
        return Ok(Zeros(size));
      } else if end > |data| {
        if size > MAX_VEC { return Err(Panic); }
        var result := data[offset..];
        result := Resized(result, size);
        assert result == Slice(data, offset, size);
        return Ok(result);
      } else {
        assert data[offset..end] == Slice(data, offset, size);
        return Ok(data[offset..end]);
      }
    }

    method GetU256(offset: nat) returns (w: Word)
      requires offset <= U64_MAX
      ensures w == WordFromBytes(Slice(data, offset, 32))
    {
      var bytes := Get(offset, 32);
      w := WordFromBytes(bytes.value);
    }

    method Set(offset: nat, bytes: seq<Byte>) returns (r: EvmResult<()>)
      requires offset <= U64_MAX
      modifies this
      ensures match WriteError(old(data), offset, |bytes|)
              case None => r == Ok(()) && data == Written(old(data), offset, bytes)
              case Some(e) => r == Err(e) && data == old(data)
    {
      if bytes == [] { return Ok(()); }
      if offset + |bytes| > U64_MAX { return Err(InvalidMemoryAccess); }
      var end := offset + |bytes|;
      var _ :- Resize(end);
      data := data[..offset] + bytes + data[end..];
      return Ok(());
    }

    method SetU256(offset: nat, value: Word) returns (r: EvmResult<()>)
      requires offset <= U64_MAX
      modifies this
      ensures match WriteError(old(data), offset, 32)
              case None => r == Ok(()) && data == Written(old(data), offset, ToBigEndian(value, 32))
              case Some(e) => r == Err(e) && data == old(data)
    {
      r := Set(offset, ToBigEndian(value, 32));
    }

    method SetByte(offset: nat, byte: Byte) returns (r: EvmResult<()>)
      requires offset <= U64_MAX
      modifies this
      ensures match WriteError(old(data), offset, 1)
              case None => r == Ok(()) && data == Written(old(data), offset, [byte])
              case Some(e) => r == Err(e) && data == old(data)
    {
      if offset + 1 > U64_MAX { return Err(InvalidMemoryAccess); }
      var _ :- Resize(offset + 1);
      data := data[offset := byte];
      assert data == Written(old(data), offset, [byte]);
      return Ok(());
    }

    method CopyWithin(dst: nat, src: nat, len: nat) returns (r: EvmResult<()>)
      requires dst <= U64_MAX && src <= U64_MAX && len <= U64_MAX
      modifies this
      ensures match CopyError(old(data), dst, src, len)
              case None => r == Ok(()) && data == Copied(old(data), dst, src, len)
              case Some(e) => r == Err(e) && data == old(data)
    {
      if len == 0 { return Ok(()); }
      if src + len > U64_MAX { return Err(InvalidMemoryAccess); }
      if dst + len > U64_MAX { return Err(InvalidMemoryAccess); }
      var srcEnd, dstEnd := src + len, dst + len;
      var _ :- Resize(if srcEnd > dstEnd then srcEnd else dstEnd);
      var bytes := Get(src, len);
      CopiedParts(old(data), dst, src, len, data);
      data := data[..dst] + bytes.value + data[dstEnd..];
      return Ok(());
    }
  }

  function CopyError(data: seq<Byte>, dst: nat, src: nat, len: nat): Option<EvmError> {
    var end := if src > dst then src + len else dst + len;
    WriteError(data, end - len, len)
  }

  /** A copy grows the memory over its source too. */
  function Copied(data: seq<Byte>, dst: nat, src: nat, len: nat): seq<Byte> {
    if len == 0 then data
    else Written(Resized(data, src + len), dst, Slice(data, src, len))
  }

  lemma CopiedParts(data: seq<Byte>, dst: nat, src: nat, len: nat, d: seq<Byte>)
    requires len > 0 && d == Resized(data, if src > dst then src + len else dst + len)
    ensures dst + len <= |d|
    ensures d[..dst] + Slice(d, src, len) + d[dst + len..] == Copied(data, dst, src, len)
  {
    assert Slice(d, src, len) == Slice(data, src, len);
    assert d == Resized(Resized(data, src + len), dst + len);
  }

  // ----- the memory refines an infinite array of bytes -----

  type Tape = nat -> Byte

  datatype MemoryOp =
    | Store(offset: nat, bytes: seq<Byte>)
    | StoreByte(offset: nat, byte: Byte)
    | StoreWord(offset: nat, word: Word)
    | CopyRange(dst: nat, src: nat, len: nat)

  /** One operation on the array, defined position by position. */
  function OnTape(tape: Tape, op: MemoryOp): Tape {
    match op
    case Store(offset, bytes) =>
      (i: nat) => if offset <= i < offset + |bytes| then bytes[i - offset] else tape(i)
    case StoreByte(offset, byte) =>
      (i: nat) => if i == offset then byte else tape(i)
    case StoreWord(offset, word) =>
      (i: nat) => if offset <= i < offset + 32 then ToBigEndian(word, 32)[i - offset] else tape(i)
    case CopyRange(dst, src, len) =>
      (i: nat) => if dst <= i < dst + len then tape(src + (i - dst)) else tape(i)
  }

  /** The same operation on the growing vector: what the methods above do to `data`, errors included. */
  function OnVector(data: seq<Byte>, op: MemoryOp): seq<Byte> {
    match op
    case Store(offset, bytes) =>
      if WriteError(data, offset, |bytes|).Some? then data else Written(data, offset, bytes)
    case StoreByte(offset, byte) =>
      if WriteError(data, offset, 1).Some? then data else Written(data, offset, [byte])
    case StoreWord(offset, word) =>
      if WriteError(data, offset, 32).Some? then data else Written(data, offset, ToBigEndian(word, 32))
    case CopyRange(dst, src, len) =>
      if CopyError(data, dst, src, len).Some? then data else Copied(data, dst, src, len)
  }

  predicate Succeeds(data: seq<Byte>, op: MemoryOp) {
    match op
    case Store(offset, bytes) => WriteError(data, offset, |bytes|).None?
    case StoreByte(offset, _) => WriteError(data, offset, 1).None?
    case StoreWord(offset, _) => WriteError(data, offset, 32).None?
    case CopyRange(dst, src, len) => CopyError(data, dst, src, len).None?
  }

  ghost predicate Represents(data: seq<Byte>, tape: Tape) {
    forall i: nat :: At(data, i) == tape(i)
  }

  function VectorAfter(data: seq<Byte>, ops: seq<MemoryOp>): seq<Byte> {
    if ops == [] then data else OnVector(VectorAfter(data, ops[..|ops| - 1]), ops[|ops| - 1])
  }

  /** The array after the operations that did not fail. */
  ghost function TapeAfter(data: seq<Byte>, tape: Tape, ops: seq<MemoryOp>): Tape {
    if ops == [] then tape
    else
      var before, op := ops[..|ops| - 1], ops[|ops| - 1];
      if Succeeds(VectorAfter(data, before), op) then OnTape(TapeAfter(data, tape, before), op)
      else TapeAfter(data, tape, before)
  }

  lemma WrittenAt(data: seq<Byte>, offset: nat, bytes: seq<Byte>, i: nat)
    ensures At(Written(data, offset, bytes), i) ==
            if offset <= i < offset + |bytes| then bytes[i - offset] else At(data, i)
    ensures |Written(data, offset, bytes)| >= |data|
  {
  }

  lemma CopiedAt(data: seq<Byte>, dst: nat, src: nat, len: nat, i: nat)
    ensures At(Copied(data, dst, src, len), i) ==
            if dst <= i < dst + len then At(data, src + (i - dst)) else At(data, i)
    ensures |Copied(data, dst, src, len)| >= |data|
  {
    if len > 0 {
      WrittenAt(Resized(data, src + len), dst, Slice(data, src, len), i);
    }
  }

  lemma OneOperation(data: seq<Byte>, tape: Tape, op: MemoryOp)
    requires Represents(data, tape) && Succeeds(data, op)
    ensures Represents(OnVector(data, op), OnTape(tape, op))
    ensures |OnVector(data, op)| >= |data|
  {
    forall i: nat
      ensures At(OnVector(data, op), i) == OnTape(tape, op)(i) && |OnVector(data, op)| >= |data|
    {
      match op
      case Store(offset, bytes) => WrittenAt(data, offset, bytes, i);
      case StoreByte(offset, byte) => WrittenAt(data, offset, [byte], i);
      case StoreWord(offset, word) => WrittenAt(data, offset, ToBigEndian(word, 32), i);
      case CopyRange(dst, src, len) => CopiedAt(data, dst, src, len, i);
    }
    assert |OnVector(data, op)| >= |data| by { assert At(OnVector(data, op), 0) == OnTape(tape, op)(0); }
  }

  /**
   After any sequence of operations the vector still represents the infinite array, every read at any
   offset and size reads that array, and the vector never shrank.
   */
  lemma {:induction false} MemoryRefinesTape(data: seq<Byte>, tape: Tape, ops: seq<MemoryOp>, offset: nat, size: nat)
    requires Represents(data, tape)
    ensures Represents(VectorAfter(data, ops), TapeAfter(data, tape, ops))
    ensures |VectorAfter(data, ops)| >= |data|
    ensures forall i :: 0 <= i < size ==>
              Slice(VectorAfter(data, ops), offset, size)[i] == TapeAfter(data, tape, ops)(offset + i)
  {
    if ops != [] {
      var before, op := ops[..|ops| - 1], ops[|ops| - 1];
      MemoryRefinesTape(data, tape, before, offset, size);
      if Succeeds(VectorAfter(data, before), op) {
        OneOperation(VectorAfter(data, before), TapeAfter(data, tape, before), op);
      }
    }
  }

  /** A stored word is loaded back, and words that do not overlap it are untouched. */
  lemma WordStoreLoad(data: seq<Byte>, offset: nat, word: Word, other: nat)
    ensures WordFromBytes(Slice(Written(data, offset, ToBigEndian(word, 32)), offset, 32)) == word
    ensures other + 32 <= offset || offset + 32 <= other ==>
              WordFromBytes(Slice(Written(data, offset, ToBigEndian(word, 32)), other, 32))
              == WordFromBytes(Slice(data, other, 32))
  {
    var bytes := ToBigEndian(word, 32);
    var after := Written(data, offset, bytes);
    assert Slice(after, offset, 32) == bytes;
    assert Pow2(256) == TWO_256 by { Pow2Values(); }
    BigEndianRoundTrip(word, 32);
    if other + 32 <= offset || offset + 32 <= other {
      assert Slice(after, other, 32) == Slice(data, other, 32);
    }
  }
}
