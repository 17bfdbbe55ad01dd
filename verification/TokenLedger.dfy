/** The state of one `MockUSDC` token and what its external calls do to it. */
module TokenLedger {
  import opened Evm
  import opened Options
  import opened MapSums

  datatype Ledger = Ledger(
    totalSupply: Uint256,
    balanceOf: map<Address, Uint256>,
    allowance: map<(Address, Address), Uint256>)

  // A Solidity mapping reads as zero at a key that was never written.
  function Balance(l: Ledger, a: Address): Uint256 {
    if a in l.balanceOf then l.balanceOf[a] else 0
  }

  function Allowance(l: Ledger, owner: Address, spender: Address): Uint256 {
    if (owner, spender) in l.allowance then l.allowance[(owner, spender)] else 0
  }

  function Mint(l: Ledger, to: Address, amount: Uint256): Option<Ledger> {
    if l.totalSupply + amount >= TWO_256 || Balance(l, to) + amount >= TWO_256 then None
    else Some(l.(totalSupply := l.totalSupply + amount,
                 balanceOf := l.balanceOf[to := Balance(l, to) + amount]))
  }

  function Approve(l: Ledger, sender: Address, spender: Address, amount: Uint256): Ledger {
    l.(allowance := l.allowance[(sender, spender) := amount])
  }

  /** The debit is written before the credit is read, so a self-transfer is neutral. */
  function Transfer(l: Ledger, from: Address, to: Address, amount: Uint256): Option<Ledger> {
    if Balance(l, from) < amount then None
    else
      var debited := l.(balanceOf := l.balanceOf[from := Balance(l, from) - amount]);
      if Balance(debited, to) + amount >= TWO_256 then None
      else Some(debited.(balanceOf := debited.balanceOf[to := Balance(debited, to) + amount]))
  }

  function TransferFrom(l: Ledger, sender: Address, from: Address, to: Address, amount: Uint256): Option<Ledger> {
    var allowed := Allowance(l, from, sender);
    if allowed == MAX_UINT256 then Transfer(l, from, to, amount)
    else if allowed < amount then None
    else Transfer(l.(allowance := l.allowance[(from, sender) := allowed - amount]), from, to, amount)
  }

  /** Every unit in circulation is on exactly one account. */
  ghost predicate Conserved(l: Ledger) {
    Sum(l.balanceOf) == l.totalSupply
  }

  /** Nobody may spend from `owner`'s account on its behalf. */
  ghost predicate NoAllowance(l: Ledger, owner: Address) {
    forall k :: k in l.allowance && k.0 == owner ==> l.allowance[k] == 0
  }

  lemma MintConserves(l: Ledger, to: Address, amount: Uint256)
    requires Conserved(l)
    ensures Mint(l, to, amount).Some? <==> l.totalSupply + amount < TWO_256
    ensures Mint(l, to, amount).Some? ==> Conserved(Mint(l, to, amount).value)
  {
    SumUpdate(l.balanceOf, to, Balance(l, to) + amount);
    SumCoversOne(l.balanceOf, to);
    assert Get(l.balanceOf, to) == Balance(l, to);
  }

  /** No credit ever overflows: a transfer fails exactly when the sender is short. */
  lemma TransferConserves(l: Ledger, from: Address, to: Address, amount: Uint256)
    requires Conserved(l)
    ensures Transfer(l, from, to, amount).Some? <==> amount <= Balance(l, from)
    ensures Transfer(l, from, to, amount).Some? ==> Conserved(Transfer(l, from, to, amount).value)
  {
    if amount <= Balance(l, from) {
      var debited := l.(balanceOf := l.balanceOf[from := Balance(l, from) - amount]);
      SumUpdate(l.balanceOf, from, Balance(l, from) - amount);
      SumCoversOne(debited.balanceOf, to);
      assert Get(debited.balanceOf, to) == Balance(debited, to);
      assert Get(l.balanceOf, from) == Balance(l, from);
      SumUpdate(debited.balanceOf, to, Balance(debited, to) + amount);
    }
  }

  lemma TransferFromConserves(l: Ledger, sender: Address, from: Address, to: Address, amount: Uint256)
    requires Conserved(l)
    ensures TransferFrom(l, sender, from, to, amount).Some?
            <==> amount <= Balance(l, from) && amount <= Allowance(l, from, sender)
    ensures TransferFrom(l, sender, from, to, amount).Some?
            ==> Conserved(TransferFrom(l, sender, from, to, amount).value)
  {
    TransferConserves(l, from, to, amount);
    if amount <= Allowance(l, from, sender) {
      TransferConserves(l.(allowance := l.allowance[(from, sender) := Allowance(l, from, sender) - amount]),
                        from, to, amount);
    }
  }

  /** What a successful transfer does to every account, the sender's own included. */
  lemma TransferMoves(l: Ledger, from: Address, to: Address, amount: Uint256, a: Address)
    requires Transfer(l, from, to, amount).Some?
    ensures var moved := Transfer(l, from, to, amount).value;
            && Balance(moved, a) == Balance(l, a) - (if a == from then amount else 0)
                                                  + (if a == to then amount else 0)
            && moved.allowance == l.allowance && moved.totalSupply == l.totalSupply
            && moved.balanceOf.Keys == l.balanceOf.Keys + {from, to}
  {
  }

  lemma TransferFromMoves(l: Ledger, sender: Address, from: Address, to: Address, amount: Uint256, a: Address)
    requires TransferFrom(l, sender, from, to, amount).Some?
    ensures var moved := TransferFrom(l, sender, from, to, amount).value;
            && Balance(moved, a) == Balance(l, a) - (if a == from then amount else 0)
                                                  + (if a == to then amount else 0)
            && (NoAllowance(l, a) ==> NoAllowance(moved, a))
  {
  }

  /** Whose allowance an approval sets, and that it moves no tokens. */
  lemma ApproveSets(l: Ledger, sender: Address, spender: Address, amount: Uint256, owner: Address, other: Address)
    ensures var after := Approve(l, sender, spender, amount);
            && Allowance(after, owner, other)
               == (if owner == sender && other == spender then amount else Allowance(l, owner, other))
            && after.balanceOf == l.balanceOf && after.totalSupply == l.totalSupply
  {
  }

  /** What a mint does to every account and to the supply; it touches no allowance. */
  lemma MintMoves(l: Ledger, to: Address, amount: Uint256, a: Address)
    requires Mint(l, to, amount).Some?
    ensures var after := Mint(l, to, amount).value;
            && Balance(after, a) == Balance(l, a) + (if a == to then amount else 0)
            && after.totalSupply == l.totalSupply + amount && after.allowance == l.allowance
  {
  }

  /** A pull spends the puller's own finite allowance, by its amount; it touches no other and no infinite one. */
  lemma TransferFromSpends(l: Ledger, sender: Address, from: Address, to: Address, amount: Uint256,
                           owner: Address, spender: Address)
    requires TransferFrom(l, sender, from, to, amount).Some?
    ensures var moved, before := TransferFrom(l, sender, from, to, amount).value, Allowance(l, owner, spender);
            && Allowance(moved, owner, spender)
               == before - (if owner == from && spender == sender && before != MAX_UINT256 then amount else 0)
            && moved.totalSupply == l.totalSupply
  {
    hide Transfer;
    var allowed := Allowance(l, from, sender);
    TransferMoves(if allowed == MAX_UINT256 then l
                  else l.(allowance := l.allowance[(from, sender) := allowed - amount]), from, to, amount, from);
  }

  /** Two payments out of one account can be made in either order. */
  lemma TransfersCommute(l: Ledger, from: Address, to1: Address, amount1: Uint256, to2: Address, amount2: Uint256)
    requires Transfer(l, from, to1, amount1).Some? && Transfer(l, from, to2, amount2).Some?
    requires Transfer(Transfer(l, from, to1, amount1).value, from, to2, amount2).Some?
    requires Transfer(Transfer(l, from, to2, amount2).value, from, to1, amount1).Some?
    ensures Transfer(Transfer(l, from, to1, amount1).value, from, to2, amount2)
         == Transfer(Transfer(l, from, to2, amount2).value, from, to1, amount1)
  {
    hide Transfer;
    var l1, l2 := Transfer(l, from, to1, amount1).value, Transfer(l, from, to2, amount2).value;
    var l12, l21 := Transfer(l1, from, to2, amount2).value, Transfer(l2, from, to1, amount1).value;
    TransferMoves(l, from, to1, amount1, from);
    TransferMoves(l, from, to2, amount2, from);
    TransferMoves(l1, from, to2, amount2, from);
    TransferMoves(l2, from, to1, amount1, from);
    forall a | a in l12.balanceOf ensures l12.balanceOf[a] == l21.balanceOf[a] {
      TransferMoves(l, from, to1, amount1, a);
      TransferMoves(l, from, to2, amount2, a);
      TransferMoves(l1, from, to2, amount2, a);
      TransferMoves(l2, from, to1, amount1, a);
    }
    assert l12.balanceOf == l21.balanceOf;
  }
}
