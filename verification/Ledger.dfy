/** Account balances and their sum. */
module Ledger {

  type Address = nat

  /** Balances by address; an absent account has none. */
  type Balances = map<Address, int>

  function Balance(b: Balances, a: Address): int {
    if a in b then b[a] else 0
  }

  function Credit(b: Balances, a: Address, amount: int): Balances {
    b[a := Balance(b, a) + amount]
  }

  ghost function Total(b: Balances): int {
    if b.Keys == {} then 0
    else
      var a :| a in b;
      b[a] + Total(b - {a})
  }

  lemma {:induction false} TotalWithout(b: Balances, a: Address)
    requires a in b
    ensures Total(b) == b[a] + Total(b - {a})
    decreases |b|
  {
    var c :| c in b && Total(b) == b[c] + Total(b - {c});
    if a != c {
      assert (b - {c}).Keys == b.Keys - {c} && (b - {a}).Keys == b.Keys - {a};
      TotalWithout(b - {c}, a);
      TotalWithout(b - {a}, c);
      assert b - {c} - {a} == b - {a} - {c};
    }
  }

  /** Crediting one account changes the total by that amount. */
  lemma TotalCredit(b: Balances, a: Address, amount: int)
    ensures Total(Credit(b, a, amount)) == Total(b) + amount
  {
    hide Total;
    TotalWithout(Credit(b, a, amount), a);
    assert Credit(b, a, amount) - {a} == b - {a};
    if a in b {
      TotalWithout(b, a);
    } else {
      assert b - {a} == b;
    }
  }
}
