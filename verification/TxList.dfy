/** txList of core/tx_list.go: the transactions of one account, with running
    caps on cost and gas that let Filter skip its scan. */
module TxLists {
  import opened Basics
  import opened Transactions
  import opened TxSortedMaps

  /** Whether a transaction may enter a list: its nonce is free, or it outbids
      the present holder both strictly and by the configured percentage. */
  predicate Accepts(m: Items, tx: Tx, priceBump: nat) {
    tx.nonce in m ==>
      m[tx.nonce].price < tx.price && m[tx.nonce].price * (100 + priceBump) / 100 <= tx.price
  }

  /** A held nonce is only taken over at a higher price, which exceeds the old one by
      `priceBump` per cent up to less than one. */
  lemma AcceptsExactly(m: Items, tx: Tx, priceBump: nat)
    ensures Accepts(m, tx, priceBump) <==>
      || tx.nonce !in m
      || (m[tx.nonce].price < tx.price && m[tx.nonce].price * (100 + priceBump) < 100 * (tx.price + 1))
  {
    if tx.nonce in m {
      Hundredths(m[tx.nonce].price * (100 + priceBump), tx.price);
    }
  }

  lemma Hundredths(x: nat, y: nat)
    ensures x / 100 <= y <==> x < 100 * (y + 1)
  {
  }

  predicate Unaffordable(t: Tx, costLimit: nat, gasLimit: nat) {
    t.cost > costLimit || t.gas > gasLimit
  }

  function Bad(costLimit: nat, gasLimit: nat): Tx -> bool {
    t => Unaffordable(t, costLimit, gasLimit)
  }

  /** What is too expensive. */
  function Expensive(m: Items, costLimit: nat, gasLimit: nat): (r: Items) {
    map n | n in m && Unaffordable(m[n], costLimit, gasLimit) :: m[n]
  }

  function Affordable(m: Items, costLimit: nat, gasLimit: nat): (r: Items) {
    map n | n in m && !Unaffordable(m[n], costLimit, gasLimit) :: m[n]
  }

  /** What Filter leaves: everything affordable and, in a strict list, below the
      first expensive nonce. */
  function Filtered(m: Items, strict: bool, costLimit: nat, gasLimit: nat): (r: Items) {
    var out := Expensive(m, costLimit, gasLimit);
    if strict && out.Keys != {} then Below(Affordable(m, costLimit, gasLimit), Least(out.Keys))
    else Affordable(m, costLimit, gasLimit)
  }

  /** What a strict list gives up although it is affordable. */
  function Invalidated(m: Items, strict: bool, costLimit: nat, gasLimit: nat): (r: Items) {
    Affordable(m, costLimit, gasLimit) - Filtered(m, strict, costLimit, gasLimit).Keys
  }

  /** No nonce is missing between two present ones. */
  ghost predicate GapFree(m: Items) {
    forall x, y, n :: x in m && y in m && x <= n <= y ==> n in m
  }

  ghost predicate Capped(m: Items, costcap: nat, gascap: nat) {
    forall n :: n in m ==> m[n].cost <= costcap && m[n].gas <= gascap
  }

  /** Caps within the limits mean that a full scan would remove nothing. */
  lemma ShortCircuit(m: Items, strict: bool, costcap: nat, gascap: nat, costLimit: nat, gasLimit: nat)
    requires Capped(m, costcap, gascap) && costcap <= costLimit && gascap <= gasLimit
    ensures Expensive(m, costLimit, gasLimit) == map[]
    ensures Filtered(m, strict, costLimit, gasLimit) == m
    ensures Invalidated(m, strict, costLimit, gasLimit) == map[]
  {
  }

  function Above(nonce: nat): Tx -> bool {
    (t: Tx) => t.nonce > nonce
  }

  lemma DropAbove(m: Items, nonce: nat)
    requires Keyed(m) && nonce !in m
    ensures Keep(m, Above(nonce)) == Below(m, nonce)
    ensures Dropped(m, Above(nonce)) == m - Below(m, nonce).Keys
    ensures Dropped(m, Above(nonce)) == AtLeast(m, nonce + 1)
  {
  }

  /** A gap-free list stays gap-free when it loses a lower or an upper part. */
  lemma GapFreeParts(m: Items, nonce: nat)
    requires GapFree(m)
    ensures GapFree(AtLeast(m, nonce)) && GapFree(Below(m, nonce))
  {
  }

  lemma GapFreeLowest(m: Items, k: nat)
    requires GapFree(m)
    ensures GapFree(Lowest(m, k))
  {
    LowestKeeps(m, k);
    var r := Lowest(m, k);
    forall x, y, n | x in r && y in r && x <= n <= y ensures n in r {
      assert n in m;
    }
  }

  lemma GapFreeFiltered(m: Items, costLimit: nat, gasLimit: nat)
    requires GapFree(m)
    ensures GapFree(Filtered(m, true, costLimit, gasLimit))
  {
    var out := Expensive(m, costLimit, gasLimit);
    var r := Filtered(m, true, costLimit, gasLimit);
    forall x, y, n | x in r && y in r && x <= n <= y ensures n in r {
      assert n in m;
      assert n !in out.Keys;
    }
  }

  class TxList {
    const strict: bool
    const txs: TxSortedMap
    var costcap: nat
    var gascap: nat

    /** The caps bound every stored transaction. */
    ghost predicate Valid()
      reads this, txs
    {
      txs.Valid() && Capped(txs.items, costcap, gascap)
    }

    constructor (strict: bool)
      ensures Valid() && this.strict == strict && txs.items == map[] && fresh(txs)
    {
      this.strict := strict;
      txs := new TxSortedMap();
      costcap, gascap := 0, 0;
    }

    /** Inserts `tx` unless an older transaction of its nonce is priced too close. */
    method Add(tx: Tx, priceBump: nat) returns (inserted: bool, replaced: Option<Tx>)
      requires Valid()
      modifies this, txs
      ensures Valid() && inserted == Accepts(old(txs.items), tx, priceBump)
      ensures inserted <==>
        var held := old(txs.items);
        || tx.nonce !in held
        || (held[tx.nonce].price < tx.price && held[tx.nonce].price * (100 + priceBump) < 100 * (tx.price + 1))
      ensures txs.items == if inserted then old(txs.items)[tx.nonce := tx] else old(txs.items)
      ensures replaced == if inserted && tx.nonce in old(txs.items) then Some(old(txs.items)[tx.nonce]) else None
    {
      AcceptsExactly(txs.items, tx, priceBump);
      var present := txs.Get(tx.nonce);
      if present.Some? {
        var threshold := present.value.price * (100 + priceBump) / 100;
        if present.value.price >= tx.price || threshold > tx.price {
          return false, None;
        }
      }
      txs.Put(tx);
      if costcap < tx.cost { costcap := tx.cost; }
      if gascap < tx.gas { gascap := tx.gas; }
      return true, present;
    }

    method Forward(threshold: nat) returns (removed: seq<Tx>)
      requires Valid()
      modifies txs
      ensures Valid() && txs.items == AtLeast(old(txs.items), threshold)
      ensures removed == InOrder(Below(old(txs.items), threshold))
    {
      removed := txs.Forward(threshold);
    }

    /** Removes what the limits rule out. The short cut taken when the caps are
        within the limits gives the same result as a full scan. */
    method Filter(costLimit: nat, gasLimit: nat) returns (removed: seq<Tx>, invalids: seq<Tx>)
      requires Valid()
      modifies this, txs
      ensures Valid()
      ensures txs.items == Filtered(old(txs.items), strict, costLimit, gasLimit)
      ensures Listing(removed, Expensive(old(txs.items), costLimit, gasLimit))
      ensures Listing(invalids, Invalidated(old(txs.items), strict, costLimit, gasLimit))
    {
      hide Indexed, InOrder, Values, Expensive, Affordable, Filtered, Invalidated, Keep, Dropped, Below;
      NothingListedAt();
      if costcap <= costLimit && gascap <= gasLimit {
        ShortCircuit(txs.items, strict, costcap, gascap, costLimit, gasLimit);
        return [], [];
      }
      costcap, gascap := costLimit, gasLimit;
      ghost var before := txs.items;
      ghost var out := Expensive(before, costLimit, gasLimit);
      IndexedKeyed(txs.items, txs.index);
      FilterParts(before, costLimit, gasLimit);
      removed := txs.Filter(Bad(costLimit, gasLimit));
      NothingListed(removed, out);
      invalids := [];
      if strict && |removed| > 0 {
        var lowest := LowestNonce(removed, out);
        StrictParts(before, costLimit, gasLimit, lowest);
        invalids := txs.Filter(Above(lowest));
      } else {
        LooseParts(before, strict, costLimit, gasLimit);
      }
    }

    method Cap(threshold: nat) returns (drops: seq<Tx>)
      requires Valid()
      modifies txs
      ensures Valid() && txs.items == Lowest(old(txs.items), threshold)
      ensures |drops| == |old(txs.items)| - |txs.items|
      ensures forall i :: 0 <= i < |drops| ==> drops[i] == InOrder(old(txs.items))[|old(txs.items)| - 1 - i]
    {
      LowestKeeps(txs.items, threshold);
      drops := txs.Cap(threshold);
    }

    /** Deletes by nonce; a strict list also gives up everything above it. */
    method Remove(tx: Tx) returns (found: bool, invalids: seq<Tx>)
      requires Valid()
      modifies txs
      ensures Valid() && found == (tx.nonce in old(txs.items))
      ensures txs.items == if found && strict then Below(old(txs.items), tx.nonce) else old(txs.items) - {tx.nonce}
      ensures Listing(invalids, if found && strict then AtLeast(old(txs.items), tx.nonce + 1) else map[])
    {
      hide Indexed, InOrder;
      ghost var before := txs.items;
      assert Values(map[]) == {};
      found := txs.Remove(tx.nonce);
      if !found {
        return false, [];
      }
      if strict {
        IndexedKeyed(txs.items, txs.index);
        DropAbove(txs.items, tx.nonce);
        assert Below(before - {tx.nonce}, tx.nonce) == Below(before, tx.nonce);
        assert AtLeast(before - {tx.nonce}, tx.nonce + 1) == AtLeast(before, tx.nonce + 1);
        invalids := txs.Filter(Above(tx.nonce));
        return true, invalids;
      }
      return true, [];
    }

    method Ready(start: nat) returns (ready: seq<Tx>)
      requires Valid()
      modifies txs
      ensures Valid() && txs.items == old(txs.items) - Run(old(txs.items), start).Keys
      ensures ready == InOrder(Run(old(txs.items), start))
    {
      ready := txs.Ready(start);
    }
  }

  lemma FilterParts(m: Items, costLimit: nat, gasLimit: nat)
    requires Keyed(m)
    ensures Keep(m, Bad(costLimit, gasLimit)) == Affordable(m, costLimit, gasLimit)
    ensures Dropped(m, Bad(costLimit, gasLimit)) == Expensive(m, costLimit, gasLimit)
    ensures Keyed(Affordable(m, costLimit, gasLimit)) && Keyed(Expensive(m, costLimit, gasLimit))
    ensures Capped(Affordable(m, costLimit, gasLimit), costLimit, gasLimit)
  {
  }

  lemma StrictParts(m: Items, costLimit: nat, gasLimit: nat, lowest: nat)
    requires Keyed(m) && Expensive(m, costLimit, gasLimit).Keys != {}
    requires lowest == Least(Expensive(m, costLimit, gasLimit).Keys)
    ensures Keep(Affordable(m, costLimit, gasLimit), Above(lowest)) == Filtered(m, true, costLimit, gasLimit)
    ensures Dropped(Affordable(m, costLimit, gasLimit), Above(lowest)) == Invalidated(m, true, costLimit, gasLimit)
    ensures Capped(Filtered(m, true, costLimit, gasLimit), costLimit, gasLimit)
  {
  }

  lemma LooseParts(m: Items, strict: bool, costLimit: nat, gasLimit: nat)
    requires !strict || Expensive(m, costLimit, gasLimit).Keys == {}
    ensures Filtered(m, strict, costLimit, gasLimit) == Affordable(m, costLimit, gasLimit)
    ensures Invalidated(m, strict, costLimit, gasLimit) == map[]
  {
  }

  lemma NothingListedAt()
    ensures Values(map[]) == {}
  {
  }

  lemma NothingListed(r: seq<Tx>, m: Items)
    requires Listing(r, m)
    ensures r == [] <==> m.Keys == {}
  {
    if m.Keys != {} {
      var n :| n in m.Keys;
      assert m[n] in Values(m);
      assert m[n] in multiset(r);
    } else {
      assert Values(m) == {};
      assert multiset(r) == multiset{};
    }
  }

  method LowestNonce(removed: seq<Tx>, ghost out: Items) returns (lowest: nat)
    requires Keyed(out) && Listing(removed, out) && removed != []
    ensures out.Keys != {} && lowest == Least(out.Keys)
  {
    NothingListed(removed, out);
    lowest := TWO64 - 1;
    ListingHas(removed, out, 0);
    for i := 0 to |removed|
      invariant forall j :: 0 <= j < i ==> lowest <= removed[j].nonce
      invariant (exists j :: 0 <= j < i && lowest == removed[j].nonce) || lowest == TWO64 - 1
    {
      if lowest > removed[i].nonce {
        lowest := removed[i].nonce;
      }
    }
    ListingNonces(removed, out);
    assert forall n :: n in out.Keys ==> n in Nonces(removed);
    assert exists j :: 0 <= j < |removed| && lowest == removed[j].nonce by {
      if lowest == TWO64 - 1 {
        assert lowest == removed[0].nonce;
      }
    }
    var j :| 0 <= j < |removed| && lowest == removed[j].nonce;
    ListingHas(removed, out, j);
  }
}
