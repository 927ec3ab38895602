/** Two branches of the block tree: where they part, what moving the head from one
    to the other does to the number-to-hash map and to the transaction lookup
    table, and how their weights compare. */
module ChainForks {
  import opened Basics
  import opened HashTree

  type TxId = nat

  /** The transactions of the blocks whose body is stored. */
  type Bodies = map<Hash, set<TxId>>

  /* ---------- the fork point ---------- */

  /** The greatest height up to `n` at which `a` and `b` have the same ancestor. */
  function Common(s: Store, a: Hash, b: Hash, n: nat): (c: nat)
    requires a in s && b in s && n <= s[a].number && n <= s[b].number
    ensures c <= n && forall m: nat :: c < m <= n ==> At(s, a, m) != At(s, b, m)
  {
    if n == 0 || At(s, a, n) == At(s, b, n) then n else Common(s, a, b, n - 1)
  }

  function Fork(s: Store, a: Hash, b: Hash): (c: nat)
    requires a in s && b in s
    ensures c <= s[a].number && c <= s[b].number
  {
    Common(s, a, b, Min(s[a].number, s[b].number))
  }

  lemma {:induction false} CommonMeets(s: Store, genesis: Hash, a: Hash, b: Hash, n: nat)
    requires Tree(s, genesis) && a in s && b in s && n <= s[a].number && n <= s[b].number
    ensures At(s, a, Common(s, a, b, n)) == At(s, b, Common(s, a, b, n))
    decreases n
  {
    if n == 0 {
      UpToGenesis(s, genesis, a);
      UpToGenesis(s, genesis, b);
    } else if At(s, a, n) != At(s, b, n) {
      CommonMeets(s, genesis, a, b, n - 1);
    }
  }

  /** Below the fork point the two branches are one. */
  lemma SharedBelow(s: Store, genesis: Hash, a: Hash, b: Hash, m: nat)
    requires Tree(s, genesis) && a in s && b in s && m <= Fork(s, a, b)
    ensures At(s, a, m) == At(s, b, m)
  {
    var c := Fork(s, a, b);
    CommonMeets(s, genesis, a, b, Min(s[a].number, s[b].number));
    hide Tree, At;
    AtBelow(s, genesis, a, c, m);
    AtBelow(s, genesis, b, c, m);
  }

  /** The fork point is where two ancestors first agree, walking down. */
  lemma {:induction false} ForkIs(s: Store, a: Hash, b: Hash, n: nat, c: nat)
    requires a in s && b in s && c <= n <= s[a].number && n <= s[b].number
    requires At(s, a, c) == At(s, b, c) && forall m: nat :: c < m <= n ==> At(s, a, m) != At(s, b, m)
    ensures Common(s, a, b, n) == c
    decreases n
  {
    if c < n {
      ForkIs(s, a, b, n - 1, c);
    }
  }

  /** An extension of the head forks at the head. */
  lemma ExtensionFork(s: Store, genesis: Hash, a: Hash, b: Hash)
    requires Tree(s, genesis) && a in s && b in s && s[b].number == s[a].number + 1 && s[b].parent == a
    ensures Fork(s, a, b) == s[a].number
  {
  }

  /* ---------- the lookup table ---------- */

  function TxsIn(bodies: Bodies, h: Hash): set<TxId> {
    if h in bodies then bodies[h] else {}
  }

  /** The transactions of the ancestors of `h` at heights from `lo` + 1 to `hi`. */
  function TxsOn(s: Store, bodies: Bodies, h: Hash, lo: nat, hi: nat): set<TxId>
    requires h in s && hi <= s[h].number
    decreases hi
  {
    if hi <= lo then {} else TxsOn(s, bodies, h, lo, hi - 1) + TxsIn(bodies, At(s, h, hi))
  }

  lemma {:induction false} TxsOnHas(s: Store, bodies: Bodies, h: Hash, lo: nat, hi: nat, t: TxId)
    requires h in s && hi <= s[h].number
    ensures t in TxsOn(s, bodies, h, lo, hi) <==> exists m: nat :: lo < m <= hi && t in TxsIn(bodies, At(s, h, m))
    decreases hi
  {
    hide At, TxsIn;
    if hi > lo {
      TxsOnHas(s, bodies, h, lo, hi - 1, t);
    }
  }

  /** The lookup table after writing the entries of one block. */
  function WithBlock(lookup: map<TxId, nat>, txs: set<TxId>, n: nat): map<TxId, nat> {
    lookup + map t | t in txs :: n
  }

  /** The lookup table after writing the entries of the ancestors of `h` at heights
      from `lo` + 1 to `hi`, in this order. */
  function Relook(s: Store, bodies: Bodies, lookup: map<TxId, nat>, h: Hash, lo: nat, hi: nat): map<TxId, nat>
    requires h in s && hi <= s[h].number
    decreases hi
  {
    if hi <= lo then lookup else WithBlock(Relook(s, bodies, lookup, h, lo, hi - 1), TxsIn(bodies, At(s, h, hi)), hi)
  }

  lemma {:induction false} RelookGives(s: Store, bodies: Bodies, lookup: map<TxId, nat>, h: Hash, lo: nat, hi: nat,
                                       t: TxId)
    requires h in s && hi <= s[h].number
    ensures
      var r := Relook(s, bodies, lookup, h, lo, hi);
      if t in TxsOn(s, bodies, h, lo, hi) then t in r && lo < r[t] <= hi && t in TxsIn(bodies, At(s, h, r[t]))
      else (t in r <==> t in lookup) && (t in r ==> r[t] == lookup[t])
    decreases hi
  {
    hide At, TxsIn;
    if hi > lo {
      RelookGives(s, bodies, lookup, h, lo, hi - 1, t);
    }
  }

  /** Transaction `t` is in the block at height `n` of the chain of `h`. */
  predicate OnChain(s: Store, bodies: Bodies, h: Hash, t: TxId, n: nat) {
    h in s && n <= s[h].number && t in TxsIn(bodies, At(s, h, n))
  }

  /** The lookup table maps exactly the transactions of the chain of `h` to the
      numbers of their blocks. */
  ghost predicate LookupExact(s: Store, bodies: Bodies, h: Hash, lookup: map<TxId, nat>) {
    forall t: TxId, n: nat :: OnChain(s, bodies, h, t, n) <==> t in lookup && lookup[t] == n
  }

  ghost predicate NoRepeats(s: Store, bodies: Bodies, h: Hash) {
    forall t: TxId, m: nat, n: nat :: OnChain(s, bodies, h, t, m) && OnChain(s, bodies, h, t, n) ==> m == n
  }

  /** The lookup table after the head has moved from `a` to `b`: the new branch is
      written, then what only the old branch held is deleted, then the head block
      is written. */
  function NextLookup(s: Store, bodies: Bodies, lookup: map<TxId, nat>, a: Hash, b: Hash): map<TxId, nat>
    requires a in s && b in s && s[b].number > 0
  {
    var c, top := Fork(s, a, b), s[b].number - 1;
    WithBlock(
      Relook(s, bodies, lookup, b, c, top) - (TxsOn(s, bodies, a, c, s[a].number) - TxsOn(s, bodies, b, c, top)),
      TxsIn(bodies, b), s[b].number)
  }

  /** Moving the head keeps the lookup table exact, if and only if no transaction
      repeats on the new chain. */
  lemma SwitchLookup(s: Store, genesis: Hash, bodies: Bodies, lookup: map<TxId, nat>, a: Hash, b: Hash)
    requires Tree(s, genesis) && a in s && b in s && s[b].number > 0 && LookupExact(s, bodies, a, lookup)
    ensures LookupExact(s, bodies, b, NextLookup(s, bodies, lookup, a, b)) <==> NoRepeats(s, bodies, b)
  {
    var next := NextLookup(s, bodies, lookup, a, b);
    if NoRepeats(s, bodies, b) {
      forall t: TxId, n: nat ensures OnChain(s, bodies, b, t, n) <==> t in next && next[t] == n {
        SwitchOne(s, genesis, bodies, lookup, a, b, t, n);
      }
    }
  }

  /** Where the next lookup table gets the entry of `t` from. */
  lemma NextEntry(s: Store, bodies: Bodies, lookup: map<TxId, nat>, a: Hash, b: Hash, t: TxId)
    requires a in s && b in s && s[b].number > 0
    ensures
      var next := NextLookup(s, bodies, lookup, a, b);
      var c := Fork(s, a, b);
      if OnChain(s, bodies, b, t, s[b].number) then t in next && next[t] == s[b].number
      else if t in TxsOn(s, bodies, b, c, s[b].number - 1) then
        t in next && c < next[t] && OnChain(s, bodies, b, t, next[t])
      else if t in TxsOn(s, bodies, a, c, s[a].number) then t !in next
      else (t in next <==> t in lookup) && (t in next ==> next[t] == lookup[t])
  {
    hide Fork, TxsIn, Relook, TxsOn, At;
    SelfAt(s, b);
    RelookGives(s, bodies, lookup, b, Fork(s, a, b), s[b].number - 1, t);
  }

  lemma SwitchOne(s: Store, genesis: Hash, bodies: Bodies, lookup: map<TxId, nat>, a: Hash, b: Hash, t: TxId, n: nat)
    requires Tree(s, genesis) && a in s && b in s && s[b].number > 0 && LookupExact(s, bodies, a, lookup)
    requires NoRepeats(s, bodies, b)
    ensures
      var next := NextLookup(s, bodies, lookup, a, b);
      OnChain(s, bodies, b, t, n) <==> t in next && next[t] == n
  {
    var c := Fork(s, a, b);
    var next := NextLookup(s, bodies, lookup, a, b);
    hide Tree, Fork, TxsIn, NextLookup, TxsOn, At;
    NextEntry(s, bodies, lookup, a, b, t);
    TxsOnHas(s, bodies, b, c, s[b].number - 1, t);
    TxsOnHas(s, bodies, a, c, s[a].number, t);
    assert t in lookup ==> OnChain(s, bodies, a, t, lookup[t]);
    if n <= c {
      SharedBelow(s, genesis, a, b, n);
    }
    if OnChain(s, bodies, b, t, n) {
      FoundOnNew(s, genesis, bodies, lookup, a, b, t, n);
    }
  }

  lemma FoundOnNew(s: Store, genesis: Hash, bodies: Bodies, lookup: map<TxId, nat>, a: Hash, b: Hash, t: TxId, n: nat)
    requires Tree(s, genesis) && a in s && b in s && s[b].number > 0 && LookupExact(s, bodies, a, lookup)
    requires NoRepeats(s, bodies, b) && OnChain(s, bodies, b, t, n)
    ensures t in NextLookup(s, bodies, lookup, a, b) && NextLookup(s, bodies, lookup, a, b)[t] == n
  {
    var c := Fork(s, a, b);
    hide Tree, Fork, TxsIn, NextLookup, TxsOn, At;
    NextEntry(s, bodies, lookup, a, b, t);
    TxsOnHas(s, bodies, b, c, s[b].number - 1, t);
    TxsOnHas(s, bodies, a, c, s[a].number, t);
    if n <= c {
      SharedBelow(s, genesis, a, b, n);
      assert OnChain(s, bodies, a, t, n);
      forall m: nat | c < m <= s[b].number - 1 ensures t !in TxsIn(bodies, At(s, b, m)) {
        assert OnChain(s, bodies, b, t, m) ==> m == n;
      }
      forall m: nat | c < m <= s[a].number ensures t !in TxsIn(bodies, At(s, a, m)) {
        assert OnChain(s, bodies, a, t, m) ==> m == n;
      }
    }
  }

  /** All blocks of the chain of `h` can be read. */
  ghost predicate Complete(s: Store, bodies: Bodies, h: Hash) {
    h in s && forall n: nat :: n <= s[h].number ==> At(s, h, n) in bodies
  }

  /** Writing another block does not disturb an exact lookup table. */
  lemma GrowLookup(s: Store, genesis: Hash, bodies: Bodies, h: Hash, header: Header, txs: set<TxId>, head: Hash,
                   lookup: map<TxId, nat>)
    requires Tree(s, genesis) && Fits(s, h, header) && (h in bodies ==> bodies[h] == txs)
    requires head in s && LookupExact(s, bodies, head, lookup)
    requires Complete(s, bodies, head)
    ensures LookupExact(s[h := header], bodies[h := txs], head, lookup)
  {
    hide Tree, Complete;
    var s', bodies' := s[h := header], bodies[h := txs];
    forall t: TxId, n: nat ensures OnChain(s', bodies', head, t, n) <==> OnChain(s, bodies, head, t, n) {
      GrowOnChain(s, genesis, bodies, h, header, txs, head, t, n);
    }
  }

  lemma GrowAt(s: Store, genesis: Hash, h: Hash, header: Header, head: Hash, n: nat)
    requires Tree(s, genesis) && Fits(s, h, header) && head in s && n <= s[head].number
    ensures At(s[h := header], head, n) == At(s, head, n)
  {
    hide Tree, Up;
    GrowUp(s, genesis, h, header, head, s[head].number - n);
  }

  lemma GrowOnChain(s: Store, genesis: Hash, bodies: Bodies, h: Hash, header: Header, txs: set<TxId>, head: Hash,
                    t: TxId, n: nat)
    requires Tree(s, genesis) && Fits(s, h, header) && (h in bodies ==> bodies[h] == txs)
    requires Complete(s, bodies, head)
    ensures OnChain(s[h := header], bodies[h := txs], head, t, n) <==> OnChain(s, bodies, head, t, n)
  {
    hide Tree, At;
    if n <= s[head].number {
      GrowAt(s, genesis, h, header, head, n);
    }
  }

  lemma {:induction false} GrowCommon(s: Store, genesis: Hash, h: Hash, header: Header, a: Hash, b: Hash, n: nat)
    requires Tree(s, genesis) && Fits(s, h, header) && a in s && b in s && n <= s[a].number && n <= s[b].number
    ensures Common(s[h := header], a, b, n) == Common(s, a, b, n)
    decreases n
  {
    hide Tree, At;
    GrowAt(s, genesis, h, header, a, n);
    GrowAt(s, genesis, h, header, b, n);
    if n > 0 {
      GrowCommon(s, genesis, h, header, a, b, n - 1);
    }
  }

  /** Nor does it change a chain that is already there. */
  lemma GrowChain(s: Store, genesis: Hash, bodies: Bodies, h: Hash, header: Header, txs: set<TxId>, head: Hash)
    requires Tree(s, genesis) && Fits(s, h, header) && (h in bodies ==> bodies[h] == txs)
    requires Complete(s, bodies, head)
    ensures Complete(s[h := header], bodies[h := txs], head)
    ensures NoRepeats(s[h := header], bodies[h := txs], head) <==> NoRepeats(s, bodies, head)
  {
    hide Tree, At;
    var s', bodies' := s[h := header], bodies[h := txs];
    forall n: nat | n <= s[head].number ensures At(s', head, n) == At(s, head, n) {
      GrowAt(s, genesis, h, header, head, n);
    }
    forall t: TxId, n: nat ensures OnChain(s', bodies', head, t, n) <==> OnChain(s, bodies, head, t, n) {
      GrowOnChain(s, genesis, bodies, h, header, txs, head, t, n);
    }
  }

  /** Extending the head by one block only adds the entries of that block. */
  lemma ExtendLookup(s: Store, genesis: Hash, bodies: Bodies, lookup: map<TxId, nat>, a: Hash, b: Hash)
    requires Tree(s, genesis) && a in s && b in s && s[b].number == s[a].number + 1 && s[b].parent == a && b in bodies
    ensures NextLookup(s, bodies, lookup, a, b) == WithBlock(lookup, bodies[b], s[b].number)
  {
  }

  /* ---------- weights ---------- */

  /** All headers above height `floor` have the same positive difficulty. */
  ghost predicate EvenAbove(s: Store, floor: nat, d: nat) {
    d > 0 && forall h :: h in s && s[h].number > floor ==> s[h].difficulty == d
  }

  lemma {:induction false} WeightAbove(s: Store, genesis: Hash, h: Hash, floor: nat, d: nat, c: nat)
    requires Tree(s, genesis) && EvenAbove(s, floor, d) && h in s && floor <= c <= s[h].number
    ensures At(s, h, c) in s && Weight(s, h) == Weight(s, At(s, h, c)) + Times(s[h].number - c, d)
    decreases s[h].number
  {
    if c < s[h].number {
      assert Linked(s, h);
      WeightAbove(s, genesis, s[h].parent, floor, d, c);
      assert At(s, h, c) == At(s, s[h].parent, c);
    }
  }

  function Times(k: nat, d: nat): nat {
    if k == 0 then 0 else d + Times(k - 1, d)
  }

  lemma {:induction false} TimesGrows(x: nat, y: nat, d: nat)
    requires d > 0 && x < y
    ensures Times(x, d) < Times(y, d)
    decreases y
  {
    if x < y - 1 {
      TimesGrows(x, y - 1, d);
    }
  }

  /** Of two branches that part at or above the floor, the heavier is the longer. */
  lemma HeavierIsLonger(s: Store, genesis: Hash, a: Hash, b: Hash, floor: nat, d: nat)
    requires Tree(s, genesis) && EvenAbove(s, floor, d) && a in s && b in s && floor <= Fork(s, a, b)
    requires Weight(s, a) <= Weight(s, b)
    ensures s[a].number <= s[b].number
  {
    hide Tree, Weight, At, Times;
    var c := Fork(s, a, b);
    SharedBelow(s, genesis, a, b, c);
    WeightAbove(s, genesis, a, floor, d, c);
    WeightAbove(s, genesis, b, floor, d, c);
    if s[b].number < s[a].number {
      TimesGrows(s[b].number - c, s[a].number - c, d);
    }
  }
}
