/** Transactions as the pool sees them, and the nonce-ordered maps that the
    per-account lists of the pool stand for. */
module Transactions {
  import opened Basics

  type Address = nat

  /** Two transactions with the same hash are the same transaction, so a
      transaction value also stands for its hash; `id` is whatever else was signed. */
  datatype Tx = Tx(id: nat, sender: Address, nonce: Uint64, price: nat, cost: nat, gas: nat)

  type Items = map<nat, Tx>

  /** Every transaction is stored under its own nonce. */
  ghost predicate Keyed(m: Items) {
    forall n :: n in m ==> m[n].nonce == n
  }

  /** `t` is stored in `m`. */
  predicate Has(m: Items, t: Tx) {
    t.nonce in m && m[t.nonce] == t
  }

  /* ---------- sets of nonces in increasing order ---------- */

  ghost predicate Increasing(s: seq<nat>) {
    forall i, j :: 0 <= i < j < |s| ==> s[i] < s[j]
  }

  ghost predicate IsLeast(s: set<nat>, x: nat) {
    x in s && forall y :: y in s ==> x <= y
  }

  lemma {:induction false} LeastExists(s: set<nat>)
    requires s != {}
    ensures exists x :: IsLeast(s, x)
    decreases |s|
  {
    var x :| x in s;
    var rest := s - {x};
    if rest == {} {
      assert s == {x};
      assert IsLeast(s, x);
    } else {
      LeastExists(rest);
      var z :| IsLeast(rest, z);
      LeastOf(s, x, z);
    }
  }

  lemma LeastOf(s: set<nat>, x: nat, z: nat)
    requires x in s && IsLeast(s - {x}, z)
    ensures IsLeast(s, if x <= z then x else z)
  {
    forall y | y in s ensures x <= y || z <= y {
      assert y == x || y in s - {x};
    }
  }

  function Least(s: set<nat>): (x: nat)
    requires s != {}
    ensures x in s && forall y :: y in s ==> x <= y
  {
    LeastExists(s);
    assert exists x :: x in s && forall y :: y in s ==> x <= y by {
      var x :| IsLeast(s, x);
    }
    var x :| x in s && forall y :: y in s ==> x <= y;
    x
  }

  function Elements(q: seq<nat>): set<nat> {
    set x | x in q
  }

  /** The elements of `s` in increasing order. */
  function Ascending(s: set<nat>): (r: seq<nat>) {
    if s == {} then [] else [Least(s)] + Ascending(s - {Least(s)})
  }

  lemma {:induction false} AscendingSorts(s: set<nat>)
    ensures |Ascending(s)| == |s| && Increasing(Ascending(s)) && Elements(Ascending(s)) == s
  {
    if s != {} {
      var x := Least(s);
      var rest := Ascending(s - {x});
      AscendingSorts(s - {x});
      assert Elements([x]) == {x};
      IncreasingConcat([x], rest);
    }
  }

  lemma IncreasingConcat(a: seq<nat>, b: seq<nat>)
    requires Increasing(a) && Increasing(b)
    requires forall x, y :: x in Elements(a) && y in Elements(b) ==> x < y
    ensures Increasing(a + b) && Elements(a + b) == Elements(a) + Elements(b)
  {
    forall i, j | 0 <= i < |a| && 0 <= j < |b| ensures a[i] < b[j] {
      assert a[i] in Elements(a) && b[j] in Elements(b);
    }
  }

  /** Order and elements determine the sequence. */
  lemma {:induction false} AscendingUnique(q: seq<nat>)
    requires Increasing(q)
    ensures q == Ascending(Elements(q))
  {
    if q != [] {
      FirstIsLeast(q);
      AscendingUnique(q[1..]);
    }
  }

  lemma FirstIsLeast(q: seq<nat>)
    requires Increasing(q) && q != []
    ensures Elements(q) != {} && Least(Elements(q)) == q[0]
    ensures Elements(q[1..]) == Elements(q) - {q[0]}
  {
    hide Least;
    assert q[0] in Elements(q);
    assert q == [q[0]] + q[1..];
    assert q[0] !in q[1..];
  }

  /* ---------- nonce maps in nonce order ---------- */

  function Pick(m: Items, ks: seq<nat>): (r: seq<Tx>)
    requires Elements(ks) <= m.Keys
    ensures |r| == |ks| && forall i :: 0 <= i < |r| ==> r[i] == m[ks[i]]
  {
    assert forall i :: 0 <= i < |ks| ==> ks[i] in Elements(ks);
    seq(|ks|, i requires 0 <= i < |ks| => m[ks[i]])
  }

  /** The transactions of `m` by increasing nonce. */
  function InOrder(m: Items): (r: seq<Tx>)
    ensures |r| == |m|
  {
    AscendingSorts(m.Keys);
    Pick(m, Ascending(m.Keys))
  }

  function Below(m: Items, threshold: nat): (r: Items) {
    map n | n in m && n < threshold :: m[n]
  }

  function AtLeast(m: Items, threshold: nat): (r: Items) {
    map n | n in m && n >= threshold :: m[n]
  }

  /** The `k` transactions of lowest nonce. */
  function Lowest(m: Items, k: nat): (r: Items) {
    if |m| <= k then m
    else
      AscendingSorts(m.Keys);
      var kept := Elements(Ascending(m.Keys)[..k]);
      map n | n in m && n in kept :: m[n]
  }

  /** First nonce at or after `n` that `m` does not hold. */
  function RunEnd(m: Items, n: nat): (e: nat)
    ensures n <= e && e !in m && forall x :: n <= x < e ==> x in m
    decreases |AtLeast(m, n)|
  {
    if n in m then
      assert AtLeast(m, n + 1) == AtLeast(m, n) - {n};
      RunEnd(m, n + 1)
    else n
  }

  /** What Ready hands out: the maximal run of consecutive nonces that begins at
      the lowest nonce, provided the lowest nonce is not above `start`. */
  function Run(m: Items, start: nat): (r: Items) {
    if m.Keys == {} || Least(m.Keys) > start then map[]
    else Below(m, RunEnd(m, Least(m.Keys)))
  }

  lemma AscendingConcat(lo: set<nat>, hi: set<nat>)
    requires forall x, y :: x in lo && y in hi ==> x < y
    ensures Ascending(lo + hi) == Ascending(lo) + Ascending(hi)
  {
    AscendingSorts(lo);
    AscendingSorts(hi);
    IncreasingConcat(Ascending(lo), Ascending(hi));
    AscendingUnique(Ascending(lo) + Ascending(hi));
  }

  lemma PickConcat(m: Items, lo: Items, hi: Items, a: seq<nat>, b: seq<nat>)
    requires Elements(a) <= lo.Keys <= m.Keys && Elements(b) <= hi.Keys <= m.Keys
    requires forall k :: k in lo ==> m[k] == lo[k]
    requires forall k :: k in hi ==> m[k] == hi[k]
    ensures Elements(a + b) <= m.Keys
    ensures Pick(m, a + b) == Pick(lo, a) + Pick(hi, b)
  {
  }

  lemma InOrderSplit(m: Items, threshold: nat)
    ensures InOrder(m) == InOrder(Below(m, threshold)) + InOrder(AtLeast(m, threshold))
  {
    var lo, hi := Below(m, threshold), AtLeast(m, threshold);
    assert lo.Keys + hi.Keys == m.Keys;
    AscendingConcat(lo.Keys, hi.Keys);
    AscendingSorts(lo.Keys);
    AscendingSorts(hi.Keys);
    PickConcat(m, lo, hi, Ascending(lo.Keys), Ascending(hi.Keys));
  }

  lemma InOrderHead(m: Items)
    requires m.Keys != {}
    ensures InOrder(m) == [m[Least(m.Keys)]] + InOrder(m - {Least(m.Keys)})
  {
    var x := Least(m.Keys);
    var rest := m - {x};
    assert rest.Keys == m.Keys - {x};
    AscendingSorts(rest.Keys);
    PickConcat(m, m, rest, [x], Ascending(rest.Keys));
  }

  lemma PrefixIsLower(ks: seq<nat>, k: nat, x: nat, y: nat)
    requires Increasing(ks) && k <= |ks|
    requires x in Elements(ks[..k]) && y in Elements(ks) && y !in Elements(ks[..k])
    ensures x < y
  {
  }

  /** Lowest keeps exactly the lowest nonces and as many as allowed. */
  lemma LowestKeeps(m: Items, k: nat)
    ensures forall n :: n in Lowest(m, k) ==> n in m && Lowest(m, k)[n] == m[n]
    ensures |Lowest(m, k)| == if |m| <= k then |m| else k
    ensures forall x, y :: x in Lowest(m, k) && y in m && y !in Lowest(m, k) ==> x < y
  {
    if |m| > k {
      var ks := Ascending(m.Keys);
      AscendingSorts(m.Keys);
      var lo := Lowest(m, k);
      LowestAscending(m, k);
      AscendingSorts(lo.Keys);
      assert |lo| == |lo.Keys|;
      forall x, y | x in lo && y in m && y !in lo ensures x < y {
        PrefixIsLower(ks, k, x, y);
      }
    }
  }

  lemma LowestAscending(m: Items, k: nat)
    requires k < |m|
    ensures |Ascending(m.Keys)| == |m|
    ensures Lowest(m, k).Keys == Elements(Ascending(m.Keys)[..k])
    ensures Ascending(Lowest(m, k).Keys) == Ascending(m.Keys)[..k]
  {
    var ks := Ascending(m.Keys);
    AscendingSorts(m.Keys);
    assert Elements(ks[..k]) <= Elements(ks);
    AscendingUnique(ks[..k]);
    assert Lowest(m, k).Keys == Elements(ks[..k]);
  }
}
