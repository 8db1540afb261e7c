/** Account balances and their total. Balances are 256-bit words: additions and subtractions wrap. */
module Ledger {

  type Address = nat
  type Balances = map<Address, nat>

  const WEI_LIMIT: nat := 0x1_0000000000000000_0000000000000000_0000000000000000_0000000000000000

  function Balance(b: Balances, a: Address): nat { if a in b then b[a] else 0 }

  function Credit(b: Balances, a: Address, amount: nat): Balances {
    b[a := (Balance(b, a) + amount) % WEI_LIMIT]
  }

  function Debit(b: Balances, a: Address, amount: nat): Balances {
    b[a := (Balance(b, a) - amount) % WEI_LIMIT]
  }

  ghost function Total(b: Balances): nat
    decreases |b|
  {
    if b == map[] then 0 else
      var a :| a in b;
      b[a] + Total(b - {a})
  }

  lemma {:induction false} TotalWithout(b: Balances, a: Address)
    requires a in b
    ensures Total(b) == b[a] + Total(b - {a})
    decreases |b|
  {
    var c :| c in b && Total(b) == b[c] + Total(b - {c});
    if c != a {
      TotalWithout(b - {c}, a);
      TotalWithout(b - {a}, c);
      assert b - {c} - {a} == b - {a} - {c};
    }
  }

  lemma TotalSet(b: Balances, a: Address, v: nat)
    ensures Total(b[a := v]) == Total(b) - Balance(b, a) + v
  {
    var b' := b[a := v];
    TotalWithout(b', a);
    assert b' - {a} == b - {a};
    if a in b { TotalWithout(b, a); } else { assert b - {a} == b; }
  }

  lemma BalanceWithinTotal(b: Balances, a: Address)
    ensures Balance(b, a) <= Total(b)
  {
    if a in b { TotalWithout(b, a); }
  }

  /** A credit adds its amount to the total as long as the total stays a 256-bit word. */
  lemma CreditTotal(b: Balances, a: Address, amount: nat)
    requires Total(b) + amount < WEI_LIMIT
    ensures Total(Credit(b, a, amount)) == Total(b) + amount
  {
    hide Total;
    BalanceWithinTotal(b, a);
    TotalSet(b, a, Balance(b, a) + amount);
    assert (Balance(b, a) + amount) % WEI_LIMIT == Balance(b, a) + amount;
  }

  lemma DebitTotal(b: Balances, a: Address, amount: nat)
    requires Total(b) < WEI_LIMIT && amount <= Balance(b, a)
    ensures Total(Debit(b, a, amount)) == Total(b) - amount
  {
    hide Total;
    BalanceWithinTotal(b, a);
    TotalSet(b, a, Balance(b, a) - amount);
    assert (Balance(b, a) - amount) % WEI_LIMIT == Balance(b, a) - amount;
  }
}
