/** The token contract itself: storage that its external calls change in place. */
module MockUSDCContract {
  import opened Evm
  import opened Options
  import opened TokenLedger

  /**
   A call answers whether it went through. A checked addition or subtraction
   that fails reverts the whole call, which here means that the storage written
   so far is restored.
   */
  class MockUSDC {
    var totalSupply: Uint256
    var balanceOf: map<Address, Uint256>
    var allowance: map<(Address, Address), Uint256>

    ghost function View(): Ledger
      reads this
    {
      Ledger(totalSupply, balanceOf, allowance)
    }

    /** The storage after a call that should do `effect`, or revert on None. */
    twostate predicate Did(effect: Option<Ledger>, ok: bool)
      reads this
    {
      ok == effect.Some? && View() == if effect.Some? then effect.value else old(View())
    }

    constructor ()
      ensures View() == Ledger(0, map[], map[])
    {
      totalSupply, balanceOf, allowance := 0, map[], map[];
    }

    method BalanceOf(a: Address) returns (balance: Uint256)
      ensures balance == Balance(View(), a)
    {
      balance := if a in balanceOf then balanceOf[a] else 0;
    }

    method Mint(to: Address, amount: Uint256) returns (ok: bool)
      modifies this
      ensures Did(TokenLedger.Mint(old(View()), to, amount), ok)
    {
      if totalSupply + amount >= TWO_256 {
        return false;
      }
      totalSupply := totalSupply + amount;
      var balance := BalanceOf(to);
      if balance + amount >= TWO_256 {
        totalSupply := totalSupply - amount;
        return false;
      }
      balanceOf := balanceOf[to := balance + amount];
      ok := true;
    }

    method Approve(sender: Address, spender: Address, amount: Uint256) returns (ok: bool)
      modifies this
      ensures Did(Some(TokenLedger.Approve(old(View()), sender, spender, amount)), ok)
    {
      allowance := allowance[(sender, spender) := amount];
      ok := true;
    }

    method Transfer(sender: Address, to: Address, amount: Uint256) returns (ok: bool)
      modifies this
      ensures Did(TokenLedger.Transfer(old(View()), sender, to, amount), ok)
    {
      ok := Move(sender, to, amount);
    }

    method TransferFrom(sender: Address, from: Address, to: Address, amount: Uint256) returns (ok: bool)
      modifies this
      ensures Did(TokenLedger.TransferFrom(old(View()), sender, from, to, amount), ok)
    {
      var before := allowance;
      var allowed := if (from, sender) in allowance then allowance[(from, sender)] else 0;
      if allowed != MAX_UINT256 {
        if allowed < amount {
          return false;
        }
        allowance := allowance[(from, sender) := allowed - amount];
      }
      ok := Move(from, to, amount);
      if !ok {
        allowance := before;
      }
    }

    /** The internal `_transfer`: debit first, then credit. */
    method Move(from: Address, to: Address, amount: Uint256) returns (ok: bool)
      modifies this
      ensures Did(TokenLedger.Transfer(old(View()), from, to, amount), ok)
    {
      var before := balanceOf;
      var balance := BalanceOf(from);
      if balance < amount {
        return false;
      }
      balanceOf := balanceOf[from := balance - amount];
      balance := BalanceOf(to);
      if balance + amount >= TWO_256 {
        balanceOf := before;
        return false;
      }
      balanceOf := balanceOf[to := balance + amount];
      ok := true;
    }
  }
}
