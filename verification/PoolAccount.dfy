/** One account of the transaction pool: its executable and its future
    transactions and its virtual nonce, and what each pool operation does to them. */
module PoolAccounts {
  import opened Basics
  import opened Transactions
  import opened TxSortedMaps
  import opened TxLists

  /** `next` is the virtual nonce: the nonce the pool would hand out next. */
  datatype Account = Account(pending: Items, queue: Items, next: nat)

  /** What the head state says about an account, plus the block gas limit. */
  datatype Limits = Limits(nonce: nat, balance: nat, maxGas: nat)

  predicate Holds(acc: Account, t: Tx) {
    Has(acc.pending, t) || Has(acc.queue, t)
  }

  /** Both lists hold transactions of account `a` under their own nonce, and no
      nonce is in both. */
  ghost predicate Sound(a: Address, acc: Account) {
    && (forall n :: n in acc.pending ==> acc.pending[n].nonce == n && acc.pending[n].sender == a)
    && (forall n :: n in acc.queue ==> acc.queue[n].nonce == n && acc.queue[n].sender == a)
    && (forall n :: n in acc.pending ==> n !in acc.queue)
  }

  /** The pending nonces are exactly those from the state nonce up to the
      virtual nonce. */
  ghost predicate Executable(acc: Account, nonce: nat) {
    nonce <= acc.next && forall n :: n in acc.pending <==> nonce <= n < acc.next
  }

  /* ---------- the operations ---------- */

  /** removeTx: deletes by nonce, first looking among the pending ones; what is
      pending above the deleted nonce goes back to the queue. */
  function Remove(acc: Account, nonce: nat): Account {
    if nonce in acc.pending then
      Account(Below(acc.pending, nonce), acc.queue + AtLeast(acc.pending, nonce + 1), Min(acc.next, nonce))
    else
      acc.(queue := acc.queue - {nonce})
  }

  /** The queue after dropping what is too old or too expensive. */
  function Payable(queue: Items, w: Limits): Items {
    Filtered(AtLeast(queue, w.nonce), false, w.balance, w.maxGas)
  }

  /** promoteExecutables for one account; `cap` bounds the remaining queue. */
  function Promote(acc: Account, w: Limits, cap: Option<nat>): Account {
    var queue := Payable(acc.queue, w);
    var ready := Run(queue, acc.next);
    var rest := queue - ready.Keys;
    Account(
      acc.pending + ready,
      if cap.Some? then Lowest(rest, cap.value) else rest,
      if ready.Keys == {} then acc.next else RunEnd(queue, Least(queue.Keys)))
  }

  /** demoteUnexecutables for one account. */
  function Demote(acc: Account, w: Limits): Account {
    var current := AtLeast(acc.pending, w.nonce);
    var kept := Filtered(current, true, w.balance, w.maxGas);
    var queue := acc.queue + Invalidated(current, true, w.balance, w.maxGas);
    if kept.Keys != {} && w.nonce !in kept then
      Account(map[], queue + kept, acc.next)
    else
      Account(kept, queue, acc.next)
  }

  function Greatest(m: Items): (x: nat)
    requires m.Keys != {}
    ensures x in m && forall y :: y in m ==> y <= x
  {
    AscendingSorts(m.Keys);
    var ks := Ascending(m.Keys);
    assert ks[|ks| - 1] in Elements(ks);
    assert forall y :: y in m.Keys ==> y in Elements(ks);
    ks[|ks| - 1]
  }

  /** The last step of runReorg: the virtual nonce follows the pending list. */
  function Refresh(acc: Account): Account {
    if acc.pending.Keys == {} then acc else acc.(next := Greatest(acc.pending) + 1)
  }

  /** truncatePending drops the highest pending nonce. */
  function DropLast(acc: Account): Account
    requires acc.pending.Keys != {}
  {
    var last := Greatest(acc.pending);
    acc.(pending := acc.pending - {last}, next := Min(acc.next, last))
  }

  /* ---------- removal deletes exactly the named transaction ---------- */

  lemma RemoveExactly(a: Address, acc: Account, tx: Tx)
    requires Sound(a, acc) && Holds(acc, tx)
    ensures Sound(a, Remove(acc, tx.nonce))
    ensures forall t :: Holds(Remove(acc, tx.nonce), t) <==> Holds(acc, t) && t != tx
  {
  }

  /* ---------- cutting a pending list ---------- */

  /** `r` has the pending nonces of `acc`, possibly cut off from some pending
      nonce on, and its virtual nonce lowered to that point. */
  ghost predicate Cut(acc: Account, r: Account) {
    || (r.pending.Keys == acc.pending.Keys && r.next == acc.next)
    || exists c :: CutAt(acc, r, c)
  }

  ghost predicate CutAt(acc: Account, r: Account, c: nat) {
    && c in acc.pending && r.next == Min(acc.next, c)
    && forall n :: n in r.pending <==> n in acc.pending && n < c
  }

  lemma CutReflexive(acc: Account)
    ensures Cut(acc, acc)
  {
  }

  lemma SamePending(acc: Account, r: Account)
    requires r.pending == acc.pending && r.next == acc.next
    ensures Cut(acc, r)
  {
  }

  lemma SameNonces(acc: Account, r: Account)
    requires r.pending.Keys == acc.pending.Keys && r.next == acc.next
    ensures Cut(acc, r)
  {
  }

  lemma CutTransitive(x: Account, y: Account, z: Account)
    requires Cut(x, y) && Cut(y, z)
    ensures Cut(x, z)
  {
    if !(y.pending.Keys == x.pending.Keys && y.next == x.next) {
      var c :| CutAt(x, y, c);
      if z.pending.Keys == y.pending.Keys && z.next == y.next {
        assert CutAt(x, z, c);
      } else {
        var d :| CutAt(y, z, d);
        assert CutAt(x, z, d);
      }
    } else if !(z.pending.Keys == y.pending.Keys && z.next == y.next) {
      var d :| CutAt(y, z, d);
      assert CutAt(x, z, d);
    }
  }

  lemma CutKeepsExecutable(acc: Account, r: Account, nonce: nat)
    requires Cut(acc, r) && Executable(acc, nonce)
    ensures Executable(r, nonce)
  {
  }

  lemma CutKeepsGapFree(acc: Account, r: Account)
    requires Cut(acc, r) && GapFree(acc.pending)
    ensures GapFree(r.pending) && r.next <= acc.next
  {
  }

  lemma RemoveCuts(acc: Account, nonce: nat)
    ensures Cut(acc, Remove(acc, nonce))
  {
    if nonce in acc.pending {
      assert CutAt(acc, Remove(acc, nonce), nonce);
    }
  }

  lemma DropLastCuts(a: Address, acc: Account)
    requires Sound(a, acc) && acc.pending.Keys != {}
    ensures Cut(acc, DropLast(acc)) && Sound(a, DropLast(acc))
  {
    assert CutAt(acc, DropLast(acc), Greatest(acc.pending));
  }

  /* ---------- promotion between head changes ---------- */

  ghost predicate Within(m: Items, of: Items) {
    forall n :: n in m ==> n in of && m[n] == of[n]
  }

  lemma PromotePieces(acc: Account, w: Limits, cap: Option<nat>)
    ensures Within(Payable(acc.queue, w), acc.queue)
    ensures forall n :: n in Payable(acc.queue, w) ==> n >= w.nonce
    ensures Within(Run(Payable(acc.queue, w), acc.next), Payable(acc.queue, w))
    ensures Within(Promote(acc, w, cap).queue, Payable(acc.queue, w) - Run(Payable(acc.queue, w), acc.next).Keys)
  {
  }

  lemma ReadyStartsAt(queue: Items, next: nat)
    requires forall n :: n in queue ==> n >= next
    ensures forall n :: n in Run(queue, next) <==> next in queue && next <= n < RunEnd(queue, next)
  {
  }

  /** Promotion appends to the pending run and nothing else. */
  lemma PromoteKeepsExecutable(a: Address, acc: Account, w: Limits, cap: Option<nat>)
    requires Sound(a, acc) && Executable(acc, w.nonce)
    ensures Executable(Promote(acc, w, cap), w.nonce)
  {
    hide Payable, Run, RunEnd, Lowest, Least;
    var queue := Payable(acc.queue, w);
    PromotePieces(acc, w, cap);
    assert forall n :: n in queue ==> n in acc.queue && n >= w.nonce;
    assert forall n :: n in queue ==> n >= acc.next;
    ReadyStartsAt(queue, acc.next);
    if acc.next in queue {
      assert Least(queue.Keys) == acc.next;
      assert acc.next in Run(queue, acc.next);
    } else {
      assert Run(queue, acc.next).Keys == {};
    }
  }

  /* ---------- a head change ---------- */

  /** When the pool turns to a new head, the virtual nonce of the account starts
      from the new state nonce `w.nonce` and may only have been lowered since. A
      queue run that starts there but stops short of a surviving pending
      transaction leaves a hole; a lowered virtual nonce without a surviving
      pending transaction stays wrong. */
  predicate Survives(acc: Account, w: Limits) {
    if acc.next < w.nonce then
      w.nonce in acc.pending && !Unaffordable(acc.pending[w.nonce], w.balance, w.maxGas)
    else
      var queue := Payable(acc.queue, w);
      var above := AtLeast(acc.pending, w.nonce);
      w.nonce in queue && above.Keys != {} ==>
        || RunEnd(queue, w.nonce) == Least(above.Keys)
        || Unaffordable(above[Least(above.Keys)], w.balance, w.maxGas)
  }

  function HeadChange(acc: Account, w: Limits, cap: Option<nat>): Account {
    Refresh(Demote(Promote(acc, w, cap), w))
  }

  lemma DemotePieces(m: Items, w: Limits)
    ensures Within(Filtered(m, true, w.balance, w.maxGas), m)
    ensures Within(Invalidated(m, true, w.balance, w.maxGas), m)
    ensures forall n :: n in Filtered(m, true, w.balance, w.maxGas) ==> n !in Invalidated(m, true, w.balance, w.maxGas)
  {
  }

  /** The lowest nonce of a list decides whether a strict filter leaves anything. */
  lemma FilteredFront(m: Items, w: Limits, low: nat)
    requires low in m && forall n :: n in m ==> n >= low
    ensures low in Filtered(m, true, w.balance, w.maxGas) <==> !Unaffordable(m[low], w.balance, w.maxGas)
    ensures low !in Filtered(m, true, w.balance, w.maxGas) ==> Filtered(m, true, w.balance, w.maxGas).Keys == {}
  {
    var out := Expensive(m, w.balance, w.maxGas);
    if Unaffordable(m[low], w.balance, w.maxGas) {
      assert low in out.Keys;
      assert Least(out.Keys) == low;
    }
  }

  /** The pending list as Demote sees it. */
  function Candidate(acc: Account, w: Limits): Items {
    Filtered(AtLeast(acc.pending + Run(Payable(acc.queue, w), acc.next), w.nonce), true, w.balance, w.maxGas)
  }

  /** What remains pending starts at the state nonce without a gap, or nothing
      remains and the virtual nonce is the state nonce. */
  ghost predicate Settles(acc: Account, w: Limits) {
    if w.nonce in Candidate(acc, w) then GapFree(Candidate(acc, w)) else acc.next == w.nonce
  }

  /** A reorganisation leaves any account in order if and only if it settles. */
  lemma HeadChangeShape(acc: Account, w: Limits, cap: Option<nat>)
    ensures Executable(HeadChange(acc, w, cap), w.nonce) <==> Settles(acc, w)
  {
    hide Promote, Candidate, Demote, Executable, GapFree;
    var kept := Candidate(acc, w);
    CandidateAbove(acc, w);
    HeadChangeIs(acc, w, cap);
    if w.nonce in kept {
      ContiguousIff(kept, w.nonce, HeadChange(acc, w, cap));
    } else {
      EmptyIff(HeadChange(acc, w, cap), w.nonce);
      ReadyIsAbove(acc, w, cap);
      if acc.next == w.nonce {
        NothingReady(acc, w);
      }
    }
  }

  lemma CandidateAbove(acc: Account, w: Limits)
    ensures forall n :: n in Candidate(acc, w) ==> n >= w.nonce
  {
  }

  /** What a head change leaves pending, and the virtual nonce it ends with. */
  lemma HeadChangeIs(acc: Account, w: Limits, cap: Option<nat>)
    ensures
      var r := HeadChange(acc, w, cap);
      var kept := Candidate(acc, w);
      if w.nonce in kept then r.pending == kept && r.next == Greatest(kept) + 1
      else r.pending == map[] && r.next == Promote(acc, w, cap).next
    ensures Run(Payable(acc.queue, w), acc.next) == map[] ==> Promote(acc, w, cap).next == acc.next
  {
  }

  lemma ContiguousIff(kept: Items, nonce: nat, r: Account)
    requires nonce in kept && (forall n :: n in kept ==> n >= nonce) && r.pending == kept
    requires r.next == Greatest(kept) + 1
    ensures Executable(r, nonce) <==> GapFree(kept)
  {
  }

  lemma EmptyIff(r: Account, nonce: nat)
    requires r.pending == map[]
    ensures Executable(r, nonce) <==> r.next == nonce
  {
    if r.next > nonce {
      assert nonce !in r.pending;
    }
  }

  /** A promoted run moves the virtual nonce past the state nonce. */
  lemma ReadyIsAbove(acc: Account, w: Limits, cap: Option<nat>)
    ensures Promote(acc, w, cap).next == acc.next || Promote(acc, w, cap).next > w.nonce
  {
    var queue := Payable(acc.queue, w);
    if Run(queue, acc.next).Keys != {} {
      assert Least(queue.Keys) in queue;
    }
  }

  /** If the state nonce does not survive, nothing was promoted. */
  lemma NothingReady(acc: Account, w: Limits)
    requires acc.next <= w.nonce && w.nonce !in Candidate(acc, w)
    ensures Run(Payable(acc.queue, w), acc.next) == map[]
  {
    var queue := Payable(acc.queue, w);
    var ready := Run(queue, acc.next);
    if ready.Keys != {} {
      assert Least(queue.Keys) == w.nonce;
      var all := AtLeast(acc.pending + ready, w.nonce);
      assert w.nonce in ready && all[w.nonce] == queue[w.nonce];
      FilteredFront(all, w, w.nonce);
      assert false;
    }
  }

  /** A head change leaves a gap-free account in order if and only if it survives. */
  lemma HeadChangeExactly(a: Address, acc: Account, w: Limits, cap: Option<nat>)
    requires Sound(a, acc) && GapFree(acc.pending) && acc.next <= w.nonce
    ensures Executable(HeadChange(acc, w, cap), w.nonce) <==> Survives(acc, w)
    ensures Settles(acc, w) <==> Survives(acc, w)
  {
    HeadChangeShape(acc, w, cap);
    var queue := Payable(acc.queue, w);
    var above := AtLeast(acc.pending, w.nonce);
    PromotePieces(acc, w, cap);
    GapFreeParts(acc.pending, w.nonce);
    if acc.next < w.nonce || w.nonce !in queue {
      QuietHead(acc, w);
    } else {
      ReadyStartsAt(queue, w.nonce);
      if above.Keys == {} {
        RunOnly(acc, w);
      } else {
        RunMeetsPending(a, acc, w);
      }
    }
  }

  /** Nothing to promote: only the old pending run matters. */
  lemma QuietHead(acc: Account, w: Limits)
    requires GapFree(acc.pending) && acc.next <= w.nonce
    requires acc.next < w.nonce || w.nonce !in Payable(acc.queue, w)
    ensures GapFree(Candidate(acc, w))
    ensures w.nonce in Candidate(acc, w) <==>
      w.nonce in acc.pending && !Unaffordable(acc.pending[w.nonce], w.balance, w.maxGas)
  {
    var queue := Payable(acc.queue, w);
    PromotePieces(acc, w, None);
    assert Run(queue, acc.next) == map[];
    var above := AtLeast(acc.pending, w.nonce);
    assert AtLeast(acc.pending + map[], w.nonce) == above;
    GapFreeParts(acc.pending, w.nonce);
    GapFreeFiltered(above, w.balance, w.maxGas);
    DemotePieces(above, w);
    if w.nonce in above {
      FilteredFront(above, w, w.nonce);
    }
  }

  /** Nothing was pending from the state nonce on: the run stands alone. */
  lemma RunOnly(acc: Account, w: Limits)
    requires acc.next == w.nonce && w.nonce in Payable(acc.queue, w)
    requires AtLeast(acc.pending, w.nonce).Keys == {}
    ensures w.nonce in Candidate(acc, w) && GapFree(Candidate(acc, w))
  {
  }

  lemma SplitPending(pending: Items, ready: Items, s: nat)
    requires forall n :: n in ready ==> n >= s
    ensures AtLeast(pending + ready, s) == AtLeast(pending, s) + ready
  {
  }

  lemma RunIsBelow(a: Address, acc: Account, w: Limits)
    requires Sound(a, acc) && GapFree(acc.pending) && acc.next == w.nonce
    requires w.nonce in Payable(acc.queue, w) && AtLeast(acc.pending, w.nonce).Keys != {}
    ensures RunBelow(w, Run(Payable(acc.queue, w), acc.next), AtLeast(acc.pending, w.nonce), w.nonce,
      RunEnd(Payable(acc.queue, w), w.nonce))
  {
    hide Payable, Run, RunEnd, AtLeast, GapFree;
    var queue := Payable(acc.queue, w);
    PromotePieces(acc, w, None);
    ReadyStartsAt(queue, w.nonce);
    GapFreeParts(acc.pending, w.nonce);
    PayableIsCheap(acc.queue, w);
    AboveIsPending(acc.pending, w.nonce);
    SettledRun(w, queue, Run(queue, acc.next), AtLeast(acc.pending, w.nonce), RunEnd(queue, w.nonce));
  }

  lemma AboveIsPending(pending: Items, s: nat)
    ensures forall n :: n in AtLeast(pending, s) ==> n in pending && n >= s
  {
  }

  lemma SettledRun(w: Limits, queue: Items, ready: Items, above: Items, e: nat)
    requires w.nonce in queue && Within(ready, queue) && w.nonce <= e && e !in queue
    requires forall n :: w.nonce <= n < e ==> n in queue
    requires forall n :: n in ready <==> w.nonce <= n < e
    requires forall n :: n in queue ==> !Unaffordable(queue[n], w.balance, w.maxGas)
    requires GapFree(above) && above.Keys != {} && forall n :: n in above ==> n >= w.nonce && n !in queue
    ensures RunBelow(w, ready, above, w.nonce, e)
  {
  }

  lemma PayableIsCheap(queue: Items, w: Limits)
    ensures forall n :: n in Payable(queue, w) ==> !Unaffordable(Payable(queue, w)[n], w.balance, w.maxGas)
  {
  }

  /** The promoted run meets what is pending above it, or leaves a hole. */
  lemma RunMeetsPending(a: Address, acc: Account, w: Limits)
    requires Sound(a, acc) && GapFree(acc.pending) && acc.next == w.nonce
    requires w.nonce in Payable(acc.queue, w) && AtLeast(acc.pending, w.nonce).Keys != {}
    ensures w.nonce in Candidate(acc, w)
    ensures GapFree(Candidate(acc, w)) <==> Survives(acc, w)
  {
    var queue := Payable(acc.queue, w);
    var ready, above := Run(queue, acc.next), AtLeast(acc.pending, w.nonce);
    RunIsBelow(a, acc, w);
    SplitPending(acc.pending, ready, w.nonce);
    RunThenRest(w, ready, above, w.nonce, RunEnd(queue, w.nonce));
  }

  /** A run [s, e) of affordable transactions below the gap-free rest. */
  ghost predicate RunBelow(w: Limits, ready: Items, above: Items, s: nat, e: nat) {
    && s < e && (forall n :: n in ready <==> s <= n < e)
    && (forall n :: n in ready ==> !Unaffordable(ready[n], w.balance, w.maxGas))
    && GapFree(above) && above.Keys != {} && (forall n :: n in above ==> n >= e)
  }

  lemma RunThenRest(w: Limits, ready: Items, above: Items, s: nat, e: nat)
    requires RunBelow(w, ready, above, s, e)
    ensures s in Filtered(above + ready, true, w.balance, w.maxGas)
    ensures GapFree(Filtered(above + ready, true, w.balance, w.maxGas)) <==>
      e == Least(above.Keys) || Unaffordable(above[Least(above.Keys)], w.balance, w.maxGas)
  {
    var low := Least(above.Keys);
    FilteredFront(above + ready, w, s);
    if Unaffordable(above[low], w.balance, w.maxGas) {
      RestLost(w, ready, above, s, e);
    } else if e == low {
      assert GapFree(above + ready);
      GapFreeFiltered(above + ready, w.balance, w.maxGas);
    } else {
      HoleStays(w, ready, above, s, e);
    }
  }

  lemma ExpensiveAbove(w: Limits, ready: Items, above: Items, s: nat, e: nat)
    requires RunBelow(w, ready, above, s, e)
    ensures forall n :: n in Expensive(above + ready, w.balance, w.maxGas).Keys ==> n in above && n >= Least(above.Keys)
  {
  }

  lemma RestLost(w: Limits, ready: Items, above: Items, s: nat, e: nat)
    requires RunBelow(w, ready, above, s, e) && Unaffordable(above[Least(above.Keys)], w.balance, w.maxGas)
    ensures GapFree(Filtered(above + ready, true, w.balance, w.maxGas))
  {
    var low := Least(above.Keys);
    var out := Expensive(above + ready, w.balance, w.maxGas);
    ExpensiveAbove(w, ready, above, s, e);
    assert low in out.Keys && Least(out.Keys) == low;
    assert forall n :: n in Filtered(above + ready, true, w.balance, w.maxGas) <==> s <= n < e;
  }

  lemma HoleStays(w: Limits, ready: Items, above: Items, s: nat, e: nat)
    requires RunBelow(w, ready, above, s, e) && e != Least(above.Keys)
    requires !Unaffordable(above[Least(above.Keys)], w.balance, w.maxGas)
    ensures !GapFree(Filtered(above + ready, true, w.balance, w.maxGas))
  {
    var low := Least(above.Keys);
    var kept := Filtered(above + ready, true, w.balance, w.maxGas);
    ExpensiveAbove(w, ready, above, s, e);
    FilteredFront(above + ready, w, s);
    assert low in kept && s in kept;
    assert e !in above + ready;
    assert e !in kept && s <= e <= low;
  }

  /** A head whose state nonce did not go back, with the noncer untouched, never
      strands a transaction. */
  lemma AdvancingHead(a: Address, acc: Account, base: nat, w: Limits)
    requires Sound(a, acc) && base <= w.nonce && acc.next == w.nonce
    requires forall n :: n in acc.pending ==> n >= base
    requires GapFree(acc.pending) && (acc.pending.Keys != {} ==> base in acc.pending)
    ensures Survives(acc, w)
  {
  }

  /* ---------- what leaves the pool ---------- */

  lemma KeptExactly(m: Items, w: Limits)
    ensures forall n :: n in Filtered(m, true, w.balance, w.maxGas) <==>
      n in m && forall k :: k in m && k <= n ==> m[k].cost <= w.balance && m[k].gas <= w.maxGas
    ensures forall n :: n in Invalidated(m, true, w.balance, w.maxGas) <==>
      && n in m && m[n].cost <= w.balance && m[n].gas <= w.maxGas
      && n !in Filtered(m, true, w.balance, w.maxGas)
    ensures Within(Filtered(m, true, w.balance, w.maxGas), m) && Within(Invalidated(m, true, w.balance, w.maxGas), m)
  {
    var out := Expensive(m, w.balance, w.maxGas);
    assert forall k :: k in m ==> (k in out.Keys <==> !(m[k].cost <= w.balance && m[k].gas <= w.maxGas));
  }

  /** Everything from the state nonce up to `n` can be paid for. */
  ghost predicate PaidUpTo(m: Items, w: Limits, n: nat) {
    forall k :: k in m && w.nonce <= k <= n ==> m[k].cost <= w.balance && m[k].gas <= w.maxGas
  }

  lemma KeptAbove(m: Items, w: Limits, n: nat)
    ensures n in Filtered(AtLeast(m, w.nonce), true, w.balance, w.maxGas) <==>
      n in m && n >= w.nonce && PaidUpTo(m, w, n)
  {
    var current := AtLeast(m, w.nonce);
    KeptExactly(current, w);
    hide Filtered, Invalidated;
    assert forall k :: k in current <==> k in m && k >= w.nonce;
  }

  /** What demotion leaves pending leads on from the state nonce without one that cannot be
      paid for. */
  lemma DemotedPending(acc: Account, w: Limits)
    ensures forall n :: n in Demote(acc, w).pending <==>
      n in acc.pending && w.nonce in acc.pending && n >= w.nonce && PaidUpTo(acc.pending, w, n)
    ensures Within(Demote(acc, w).pending, acc.pending) && Demote(acc, w).next == acc.next
  {
    var kept := Filtered(AtLeast(acc.pending, w.nonce), true, w.balance, w.maxGas);
    KeptExactly(AtLeast(acc.pending, w.nonce), w);
    hide Filtered, Invalidated;
    forall n: nat
      ensures n in kept <==> n in acc.pending && n >= w.nonce && PaidUpTo(acc.pending, w, n)
      ensures n >= w.nonce && PaidUpTo(acc.pending, w, n) ==> PaidUpTo(acc.pending, w, w.nonce)
    {
      KeptAbove(acc.pending, w, n);
    }
    hide PaidUpTo;
    assert forall n :: n in kept ==> n in kept.Keys;
  }

  /** Demotion throws out exactly the pending transactions that are too old or cannot be
      paid for; the others stay pending or go back to the queue. */
  lemma DemoteExactly(a: Address, acc: Account, w: Limits)
    requires Sound(a, acc)
    ensures forall t :: Holds(Demote(acc, w), t) <==>
      || Has(acc.queue, t)
      || (Has(acc.pending, t) && t.nonce >= w.nonce && t.cost <= w.balance && t.gas <= w.maxGas)
  {
    var current := AtLeast(acc.pending, w.nonce);
    KeptExactly(current, w);
    hide Filtered, Invalidated;
    var kept, back := Filtered(current, true, w.balance, w.maxGas), Invalidated(current, true, w.balance, w.maxGas);
    DemoteParts(acc, w, kept, back);
    forall t
      ensures Holds(Demote(acc, w), t) <==>
        || Has(acc.queue, t)
        || (Has(acc.pending, t) && t.nonce >= w.nonce && t.cost <= w.balance && t.gas <= w.maxGas)
    {
      hide Demote;
      assert Has(current, t) <==> Has(acc.pending, t) && t.nonce >= w.nonce;
      assert Has(kept, t) || Has(back, t) <==> Has(current, t) && t.cost <= w.balance && t.gas <= w.maxGas;
    }
  }

  lemma DemoteParts(acc: Account, w: Limits, kept: Items, back: Items)
    requires kept == Filtered(AtLeast(acc.pending, w.nonce), true, w.balance, w.maxGas)
    requires back == Invalidated(AtLeast(acc.pending, w.nonce), true, w.balance, w.maxGas)
    requires forall n :: n in acc.queue ==> n !in kept && n !in back
    requires forall n :: n in kept ==> n !in back
    ensures forall t :: Holds(Demote(acc, w), t) <==> Has(acc.queue, t) || Has(kept, t) || Has(back, t)
  {
    hide Filtered, Invalidated;
  }

  /** The queued transactions that are neither too old nor too dear. */
  lemma PayableExactly(queue: Items, w: Limits)
    ensures forall n :: n in Payable(queue, w) <==>
      n in queue && n >= w.nonce && queue[n].cost <= w.balance && queue[n].gas <= w.maxGas
    ensures Within(Payable(queue, w), queue)
  {
  }

  /** The run that leaves the queue: from its lowest nonce, if that is due, up to the first
      one missing. */
  lemma RunExactly(queue: Items, next: nat)
    ensures forall n :: n in Run(queue, next) <==>
      && n in queue && (exists s :: s in queue && s <= next) && forall s, k :: s in queue && s <= k <= n ==> k in queue
    ensures Within(Run(queue, next), queue)
  {
    if queue.Keys != {} {
      var least := Least(queue.Keys);
      var end := RunEnd(queue, least);
      assert forall s :: s in queue ==> s in queue.Keys && least <= s;
      forall n | n in queue ensures n < end <==> forall s, k :: s in queue && s <= k <= n ==> k in queue {
        if n >= end {
          assert least in queue && least <= end <= n && end !in queue;
        }
      }
    }
  }

  lemma LowestExactly(m: Items, k: nat)
    ensures forall n :: n in Lowest(m, k) <==> n in m && |set x | x in m.Keys && x < n| < k
    ensures Within(Lowest(m, k), m)
  {
    LowestKeeps(m, k);
    hide Lowest;
    forall n | n in m ensures n in Lowest(m, k) <==> |set x | x in m.Keys && x < n| < k {
      LowestOne(m.Keys, Lowest(m, k).Keys, k, n);
    }
  }

  lemma LowestOne(all: set<nat>, lo: set<nat>, k: nat, n: nat)
    requires lo <= all && n in all && |lo| == Min(|all|, k)
    requires forall x, y :: x in lo && y in all && y !in lo ==> x < y
    ensures n in lo <==> |set x | x in all && x < n| < k
  {
    var below := set x | x in all && x < n;
    if n in lo {
      assert below <= lo - {n};
      SubsetSize(below, lo - {n});
    } else {
      SubsetSize(lo, below);
      SubsetSize(lo, all - {n});
    }
  }

  /** Promotion moves a run of payable queued transactions to the pending ones; of the
      other payable ones as many stay queued as the cap allows, lowest nonces first. What
      is too old, too dear or beyond the cap is thrown out. */
  lemma PromoteExactly(acc: Account, w: Limits, cap: Option<nat>)
    ensures
      var ripe := Payable(acc.queue, w);
      var ready := Run(ripe, acc.next);
      var rest := ripe.Keys - ready.Keys;
      && (forall n :: n in ripe <==>
            n in acc.queue && n >= w.nonce && acc.queue[n].cost <= w.balance && acc.queue[n].gas <= w.maxGas)
      && Promote(acc, w, cap).pending == acc.pending + ready && Within(ready, acc.queue)
      && (forall n :: n in Promote(acc, w, cap).queue <==>
            n in rest && (cap.Some? ==> |set x | x in rest && x < n| < cap.value))
      && Within(Promote(acc, w, cap).queue, acc.queue)
  {
    var ripe := Payable(acc.queue, w);
    PayableExactly(acc.queue, w);
    RunExactly(ripe, acc.next);
    hide Payable, Run, Lowest, RunEnd, Least;
    var rest := ripe - Run(ripe, acc.next).Keys;
    assert rest.Keys == ripe.Keys - Run(ripe, acc.next).Keys;
    if cap.Some? {
      LowestExactly(rest, cap.value);
    }
  }

  /** Of what an account holds, promotion throws out only what is queued and too old, too
      dear or, with a cap, beyond it. */
  lemma PromoteHolds(a: Address, acc: Account, w: Limits, cap: Option<nat>)
    requires Sound(a, acc)
    ensures forall t :: Holds(Promote(acc, w, cap), t) ==>
      || Has(acc.pending, t)
      || (Has(acc.queue, t) && t.nonce >= w.nonce && t.cost <= w.balance && t.gas <= w.maxGas)
    ensures cap == None ==> forall t :: Holds(Promote(acc, w, cap), t) <==>
      || Has(acc.pending, t)
      || (Has(acc.queue, t) && t.nonce >= w.nonce && t.cost <= w.balance && t.gas <= w.maxGas)
    ensures forall t :: Has(acc.pending, t) ==> Holds(Promote(acc, w, cap), t)
  {
    PromoteExactly(acc, w, cap);
    hide Payable, Run, Lowest, Promote;
    var r, ripe := Promote(acc, w, cap), Payable(acc.queue, w);
    var ready := Run(ripe, acc.next);
    PayableExactly(acc.queue, w);
    PromotePieces(acc, w, cap);
    PromotedTx(acc, r, ripe, ready, cap == None);
  }

  lemma PromotedTx(acc: Account, r: Account, ripe: Items, ready: Items, all: bool)
    requires r.pending == acc.pending + ready && Within(r.queue, acc.queue) && Within(ripe, acc.queue)
    requires Within(ready, ripe) && forall n :: n in acc.pending ==> n !in acc.queue
    requires forall n :: n in r.queue ==> n in ripe && n !in ready
    requires all ==> forall n :: n in ripe && n !in ready ==> n in r.queue
    ensures forall t :: Holds(r, t) ==> Has(acc.pending, t) || Has(ripe, t)
    ensures forall t :: Has(acc.pending, t) ==> Holds(r, t)
    ensures all ==> forall t :: Has(acc.pending, t) || Has(ripe, t) ==> Holds(r, t)
  {
  }

  /** A payable transaction is only thrown out of a queue that is full of lower nonces. */
  lemma BeyondCap(a: Address, acc: Account, w: Limits, cap: nat, t: Tx)
    requires Sound(a, acc) && Has(acc.queue, t)
    requires !Has(Promote(acc, w, Some(cap)).pending, t) && !Has(Promote(acc, w, Some(cap)).queue, t)
    requires t.nonce >= w.nonce && t.cost <= w.balance && t.gas <= w.maxGas
    ensures |Promote(acc, w, Some(cap)).queue| == cap
    ensures forall n :: n in Promote(acc, w, Some(cap)).queue ==> n < t.nonce
  {
    var ripe := Payable(acc.queue, w);
    var ready := Run(ripe, acc.next);
    PayableExactly(acc.queue, w);
    PromotePieces(acc, w, Some(cap));
    PromoteParts(acc, w, cap, ready, ripe - ready.Keys);
    hide Payable, Run, Promote, Lowest;
    assert t.nonce in ready ==> Has(acc.pending + ready, t);
    FullBelow(ripe - ready.Keys, cap, t.nonce);
  }

  lemma FullBelow(m: Items, k: nat, n: nat)
    requires n in m && n !in Lowest(m, k)
    ensures |Lowest(m, k)| == k && forall x :: x in Lowest(m, k) ==> x < n
  {
    LowestKeeps(m, k);
    hide Lowest;
    var lo := Lowest(m, k);
    assert |lo| == |lo.Keys| && |m| == |m.Keys|;
    SubsetSize(lo.Keys, m.Keys - {n});
  }

  lemma PromoteParts(acc: Account, w: Limits, cap: nat, ready: Items, rest: Items)
    requires ready == Run(Payable(acc.queue, w), acc.next) && rest == Payable(acc.queue, w) - ready.Keys
    ensures Promote(acc, w, Some(cap)).pending == acc.pending + ready
    ensures Promote(acc, w, Some(cap)).queue == Lowest(rest, cap)
  {
  }

  lemma WithinCap(acc: Account, w: Limits, cap: nat)
    ensures |Promote(acc, w, Some(cap)).queue| <= cap
  {
    LowestKeeps(Payable(acc.queue, w) - Run(Payable(acc.queue, w), acc.next).Keys, cap);
    hide Lowest, Payable, Run;
  }

  /** What promotion to `r` did about `t`. */
  ghost predicate PromotedAlike(acc: Account, r: Account, w: Limits, cap: Option<nat>, t: Tx) {
    && (Holds(r, t) ==>
          Has(acc.pending, t) || (t.nonce >= w.nonce && t.cost <= w.balance && t.gas <= w.maxGas))
    && (!Holds(r, t) ==>
          && !Has(acc.pending, t)
          && (t.nonce >= w.nonce && t.cost <= w.balance && t.gas <= w.maxGas ==>
                cap.Some? && |r.queue| == cap.value && forall n :: n in r.queue ==> n < t.nonce))
  }

  lemma PromotedOne(a: Address, acc: Account, w: Limits, cap: Option<nat>, t: Tx)
    requires Sound(a, acc) && Holds(acc, t)
    ensures PromotedAlike(acc, Promote(acc, w, cap), w, cap, t)
  {
    hide Promote;
    PromoteHolds(a, acc, w, cap);
    if !Holds(Promote(acc, w, cap), t) && t.nonce >= w.nonce && t.cost <= w.balance && t.gas <= w.maxGas && cap.Some? {
      BeyondCap(a, acc, w, cap.value, t);
    }
  }

  /** What is queued after a promotion was queued before and can be paid for. */
  lemma PromotedPending(acc: Account, w: Limits, cap: Option<nat>)
    ensures forall t :: Has(Promote(acc, w, cap).queue, t) ==>
      Has(acc.queue, t) && t.nonce >= w.nonce && t.cost <= w.balance && t.gas <= w.maxGas
  {
    PromoteExactly(acc, w, cap);
    hide Payable, Run, Lowest, Promote;
  }

  /** After a whole head change, before any truncation: only payable transactions are
      left, and without a cap all of them. */
  lemma HeadChangeHolds(a: Address, acc: Account, w: Limits, cap: Option<nat>)
    requires Sound(a, acc) && Sound(a, Promote(acc, w, cap))
    ensures forall t :: Holds(Demote(Promote(acc, w, cap), w), t) ==>
      Holds(acc, t) && t.nonce >= w.nonce && t.cost <= w.balance && t.gas <= w.maxGas
    ensures cap == None ==> forall t :: Holds(Demote(Promote(acc, w, cap), w), t) <==>
      Holds(acc, t) && t.nonce >= w.nonce && t.cost <= w.balance && t.gas <= w.maxGas
  {
    PromoteHolds(a, acc, w, cap);
    PromotedPending(acc, w, cap);
    DemoteExactly(a, Promote(acc, w, cap), w);
    hide Promote, Demote;
  }

  /* ---------- truncation and the final refresh ---------- */

  /** `r` comes from `acc` by a cut that keeps at least one pending transaction,
      followed by a refresh of the virtual nonce; its queue may be any. */
  ghost predicate Trimmed(acc: Account, r: Account) {
    exists mid :: Cut(acc, mid) && (mid.pending.Keys == {} ==> acc.pending.Keys == {})
      && r.pending == Refresh(mid).pending && r.next == Refresh(mid).next
  }

  lemma TrimOne(acc: Account, cut: Account, queueCut: Account, r: Account)
    requires Cut(acc, cut) && (cut.pending.Keys == {} ==> acc.pending.Keys == {})
    requires queueCut.pending == cut.pending && queueCut.next == cut.next && r == Refresh(queueCut)
    ensures Trimmed(acc, r)
  {
  }

  lemma RefreshExecutable(acc: Account, nonce: nat)
    requires Executable(acc, nonce)
    ensures Refresh(acc) == acc
  {
    if acc.pending.Keys != {} {
      assert acc.next - 1 in acc.pending;
    }
  }

  lemma TrimmedInOrder(acc: Account, r: Account, nonce: nat)
    requires Trimmed(acc, r) && Executable(Refresh(acc), nonce)
    ensures Executable(r, nonce)
  {
  }

  /** A whole reorganisation of one account after a head change. */
  lemma ReorgInOrder(acc: Account, w: Limits, cap: Option<nat>, r: Account)
    requires Settles(acc, w) && Trimmed(Demote(Promote(acc, w, cap), w), r)
    ensures Executable(r, w.nonce)
  {
    HeadChangeShape(acc, w, cap);
    TrimmedInOrder(Demote(Promote(acc, w, cap), w), r, w.nonce);
  }

  /** `r` comes from `acc` by the refresh alone; its queue may be any. */
  ghost predicate Refreshed(acc: Account, r: Account) {
    r.pending.Keys == acc.pending.Keys && r.next == Refresh(acc).next
  }

  /** Without truncation a reorganisation leaves an account in order exactly if it
      settles. */
  lemma ReorgExactly(acc: Account, w: Limits, cap: Option<nat>, r: Account)
    requires Refreshed(Demote(Promote(acc, w, cap), w), r)
    ensures Executable(r, w.nonce) <==> Settles(acc, w)
  {
    hide Settles, Promote, Demote;
    HeadChangeShape(acc, w, cap);
    var x := HeadChange(acc, w, cap);
    assert r.pending.Keys == x.pending.Keys && r.next == x.next;
    assert forall n :: n in r.pending <==> n in x.pending;
  }

  /** A cut that does not shorten the pending list cuts nothing. */
  lemma FullCut(acc: Account, r: Account)
    requires Cut(acc, r) && |r.pending| == |acc.pending|
    ensures r.pending.Keys == acc.pending.Keys && r.next == acc.next
  {
    assert |r.pending.Keys| == |acc.pending.Keys|;
    if c :| CutAt(acc, r, c) {
      assert r.pending.Keys <= acc.pending.Keys - {c};
      SubsetSize(r.pending.Keys, acc.pending.Keys - {c});
    }
  }

  lemma RefreshedBy(acc: Account, cut: Account, queueCut: Account, r: Account)
    requires cut.pending.Keys == acc.pending.Keys && cut.next == acc.next
    requires queueCut.pending == cut.pending && queueCut.next == cut.next && r == Refresh(queueCut)
    ensures Refreshed(acc, r)
  {
    hide Greatest;
  }

  /** The same without a head change: promotion and truncation keep the order. */
  lemma QuietReorgInOrder(a: Address, acc: Account, w: Limits, cap: Option<nat>, r: Account)
    requires Sound(a, acc) && Executable(acc, w.nonce)
    requires Trimmed(acc, r) || Trimmed(Promote(acc, w, cap), r)
    ensures Executable(r, w.nonce)
  {
    PromoteKeepsExecutable(a, acc, w, cap);
    RefreshExecutable(acc, w.nonce);
    RefreshExecutable(Promote(acc, w, cap), w.nonce);
    if Trimmed(acc, r) {
      TrimmedInOrder(acc, r, w.nonce);
    } else {
      TrimmedInOrder(Promote(acc, w, cap), r, w.nonce);
    }
  }

  /** An account in order whose state nonce did not go back settles. */
  lemma AdvancedAccount(a: Address, was: Account, base: nat, acc: Account, w: Limits)
    requires Sound(a, acc) && Executable(was, base) && base <= w.nonce && acc == was.(next := w.nonce)
    ensures Settles(acc, w)
  {
    hide Settles, Survives;
    AdvancingHead(a, acc, base, w);
    HeadChangeExactly(a, acc, w, None);
  }

  /** If the head state stays the same, an account in order settles exactly if it
      has nothing pending or can still pay for the first pending transaction. */
  lemma SameHeadExactly(a: Address, acc: Account, w: Limits)
    requires Sound(a, acc) && Executable(acc, w.nonce)
    ensures Settles(acc, w) <==>
      acc.pending.Keys == {} || !Unaffordable(acc.pending[w.nonce], w.balance, w.maxGas)
  {
    var queue := Payable(acc.queue, w);
    var all := AtLeast(acc.pending + Run(queue, acc.next), w.nonce);
    PromoteKeepsExecutable(a, acc, w, None);
    PromotePieces(acc, w, None);
    PayableIsCheap(acc.queue, w);
    assert GapFree(all);
    GapFreeFiltered(all, w.balance, w.maxGas);
    DemotePieces(all, w);
    if w.nonce in all {
      FilteredFront(all, w, w.nonce);
    }
  }
}
