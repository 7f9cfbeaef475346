/** The operand stack, the gas counter and the account store the interpreter works on. */
module EvmComponents {
  import opened Words
  import opened EvmTypes
  import opened EvmMachine

  class Stack {
    var data: seq<Word>

    constructor ()
      ensures data == []
    {
      data := [];
    }

    method Push(value: Word) returns (r: EvmResult<()>)
      modifies this
      ensures if |old(data)| >= STACK_LIMIT then r == Err(StackOverflow) && data == old(data)
              else r == Ok(()) && data == old(data) + [value]
    {
      if |data| >= STACK_LIMIT { return Err(StackOverflow); }
      data := data + [value];
      return Ok(());
    }

    method Pop() returns (r: EvmResult<Word>)
      modifies this
      ensures if old(data) == [] then r == Err(StackUnderflow) && data == []
              else r == Ok(Arg(old(data), 0)) && data == Drop(old(data), 1)
    {
      if data == [] { return Err(StackUnderflow); }
      var value := data[|data| - 1];
      data := data[..|data| - 1];
      return Ok(value);
    }

    method Swap(n: nat) returns (r: EvmResult<()>)
      modifies this
      ensures if n >= |old(data)| then r == Err(StackUnderflow) && data == old(data)
              else r == Ok(()) && data == Swapped(old(data), n)
    {
      var len := |data|;
      if n >= len { return Err(StackUnderflow); }
      data := data[len - 1 := data[len - 1 - n]][len - 1 - n := data[len - 1]];
      return Ok(());
    }

    method Dup(n: nat) returns (r: EvmResult<()>)
      modifies this
      ensures if n >= |old(data)| then r == Err(StackUnderflow) && data == old(data)
              else if |old(data)| >= STACK_LIMIT then r == Err(StackOverflow) && data == old(data)
              else r == Ok(()) && data == old(data) + [Arg(old(data), n)]
    {
      if n >= |data| { return Err(StackUnderflow); }
      if |data| >= STACK_LIMIT { return Err(StackOverflow); }
      data := data + [data[|data| - 1 - n]];
      return Ok(());
    }

    method Require(n: nat) returns (r: EvmResult<()>)
      ensures r == if |data| < n then Err(StackUnderflow) else Ok(())
    {
      if |data| < n { return Err(StackUnderflow); }
      return Ok(());
    }

    method LimitCheck(n: nat) returns (r: EvmResult<()>)
      ensures r == if |data| + n > STACK_LIMIT then Err(StackOverflow) else Ok(())
    {
      if |data| + n > STACK_LIMIT { return Err(StackOverflow); }
      return Ok(());
    }
  }

  class Gas {
    const limit: U64
    var used: U64

    constructor (limit: U64)
      ensures this.limit == limit && used == 0
    {
      this.limit := limit;
      used := 0;
    }

    method Consume(amount: nat) returns (r: EvmResult<()>)
      modifies this
      ensures match Charge(limit, old(used), amount)
              case None => r == Err(OutOfGas) && used == old(used)
              case Some(u) => r == Ok(()) && used == u
    {
      var newUsed := if used + amount > U64_MAX then U64_MAX else used + amount;
      if newUsed > limit { return Err(OutOfGas); }
      used := newUsed;
      return Ok(());
    }
  }

  class StateDB {
    var accounts: Accounts

    constructor (accounts: Accounts)
      ensures this.accounts == accounts
    {
      this.accounts := accounts;
    }

    method SetStorage(address: Address, key: Word, value: Word)
      modifies this
      ensures accounts == WithStorage(old(accounts), address, key, value)
    {
      if address !in accounts {
        accounts := accounts[address := EMPTY_ACCOUNT];
      }
      var account := accounts[address];
      accounts := accounts[address := account.(storage := account.storage[key := value])];
    }
  }
}
