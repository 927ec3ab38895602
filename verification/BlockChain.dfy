/** The block chain: blocks are written one by one, and the head moves to the
    heaviest chain unless that would undo too many blocks. */
module BlockChains {
  import opened Basics
  import opened HashTree
  import opened ChainForks

  const IRREVERSIBLE_HEIGHT: nat := 6

  /** What one write depends on besides the chain itself. */
  datatype Env = Env(commitOk: bool, tooManyEvil: bool, currentPreserve: bool, blockPreserve: bool,
                     pbftEngine: bool, coin: bool, signers: nat, blockSigners: nat)

  datatype WriteResult = UnknownAncestor | StateError | TooManyEvil | ReorgFailed | Canonical | SideChain

  /** Whether a block of total difficulty `extern` at number `m` should replace a
      head of total difficulty `here` at number `n`. */
  predicate Prefers(extern: nat, here: nat, m: nat, n: nat, env: Env) {
    || extern > here
    || (extern == here && (m < n ||
        (m == n && !env.currentPreserve && (env.blockPreserve || (!env.pbftEngine && env.coin)))))
  }

  /** Whether undoing `drop` blocks is refused. */
  predicate Refused(pbft: bool, env: Env, drop: nat) {
    if pbft then env.signers > 0 && drop >= IRREVERSIBLE_HEIGHT
    else env.blockSigners > 6 && drop > env.blockSigners / 2
  }

  /** All blocks on the way from `h` down to height `c` can be read. */
  ghost predicate Fetchable(s: Store, bodies: Bodies, h: Hash, c: nat) {
    h in s && forall m: nat :: c <= m < s[h].number ==> At(s, h, m) in bodies
  }

  /** The hashes of `h` and its ancestors, `k` of them. */
  function Ups(s: Store, h: Hash, k: nat): (r: seq<Hash>)
    ensures |r| == k && forall i :: 0 <= i < k ==> r[i] == Up(s, h, i)
  {
    if k == 0 then [] else Ups(s, h, k - 1) + [Up(s, h, k - 1)]
  }

  lemma {:induction false} TxsOnLower(s: Store, bodies: Bodies, h: Hash, lo: nat, hi: nat)
    requires h in s && 0 < lo <= hi <= s[h].number
    ensures TxsOn(s, bodies, h, lo - 1, hi) == TxsOn(s, bodies, h, lo, hi) + TxsIn(bodies, At(s, h, lo))
    decreases hi
  {
    if lo < hi {
      TxsOnLower(s, bodies, h, lo, hi - 1);
    }
  }

  /* ---------- walking down two branches ---------- */

  /** The walk from `h` has come down to `x` at height `n`, having read every block
      on the way. */
  ghost predicate Down(s: Store, bodies: Bodies, h: Hash, x: Hash, n: nat) {
    && h in s && n <= s[h].number && x == At(s, h, n) && x in s && s[x].number == n && x in bodies
    && Fetchable(s, bodies, h, n)
  }

  lemma DownStart(s: Store, bodies: Bodies, h: Hash)
    requires h in s && h in bodies
    ensures Down(s, bodies, h, h, s[h].number)
    ensures TxsOn(s, bodies, h, s[h].number, s[h].number) == {} && Ups(s, h, 0) == []
  {
  }

  lemma DownAt(s: Store, bodies: Bodies, h: Hash, x: Hash, n: nat)
    requires Down(s, bodies, h, x, n)
    ensures h in s && x in s && s[x].number == n <= s[h].number && x == At(s, h, n) && Fetchable(s, bodies, h, n)
    ensures x in bodies
  {
  }

  lemma DownStep(s: Store, genesis: Hash, bodies: Bodies, h: Hash, x: Hash, n: nat)
    requires Tree(s, genesis) && Down(s, bodies, h, x, n) && n > 0
    ensures s[x].parent == At(s, h, n - 1)
    ensures s[x].parent in bodies ==> Down(s, bodies, h, s[x].parent, n - 1)
    ensures s[x].parent !in bodies ==> forall c: nat :: c < n ==> !Fetchable(s, bodies, h, c)
    ensures Ups(s, h, s[h].number - n) + [x] == Ups(s, h, s[h].number - (n - 1))
    ensures x in bodies && TxsOn(s, bodies, h, n - 1, s[h].number) == TxsOn(s, bodies, h, n, s[h].number) + bodies[x]
  {
    hide Tree, TxsOn;
    TxsOnLower(s, bodies, h, n, s[h].number);
    AtBelow(s, genesis, h, n, n - 1);
    AtBelow(s, genesis, h, n - 1, n - 1);
    assert Up(s, x, 1) == s[x].parent;
  }

  /** Both walks are at height `n` and have not met above it. */
  ghost predicate Apart(s: Store, a: Hash, b: Hash, n: nat) {
    && a in s && b in s && n <= s[a].number && n <= s[b].number
    && forall m: nat :: n < m && m <= s[a].number && m <= s[b].number ==> At(s, a, m) != At(s, b, m)
  }

  lemma ForkStart(s: Store, a: Hash, b: Hash)
    requires a in s && b in s
    ensures Apart(s, a, b, Min(s[a].number, s[b].number))
  {
  }

  lemma ForkBelow(s: Store, genesis: Hash, a: Hash, b: Hash, n: nat)
    requires Tree(s, genesis) && Apart(s, a, b, n)
    ensures Fork(s, a, b) <= n
    ensures At(s, a, n) == At(s, b, n) <==> Fork(s, a, b) == n
    ensures At(s, a, n) != At(s, b, n) ==> n > 0 && Apart(s, a, b, n - 1)
  {
    var low := Min(s[a].number, s[b].number);
    CommonMeets(s, genesis, a, b, low);
    UpToGenesis(s, genesis, a);
    UpToGenesis(s, genesis, b);
    if At(s, a, n) == At(s, b, n) {
      ForkIs(s, a, b, low, n);
    }
  }

  /* ---------- writing a branch into the canonical map ---------- */

  /** `canon` is `was` with the ancestors of `h` at heights c + 1 to m written. */
  ghost predicate Overlaid(s: Store, was: map<nat, Hash>, canon: map<nat, Hash>, h: Hash, c: nat, m: nat) {
    && h in s && m <= s[h].number
    && forall n: nat ::
      if c < n <= m then n in canon && canon[n] == At(s, h, n)
      else (n in canon <==> n in was) && (n in canon ==> canon[n] == was[n])
  }

  /** With nothing left above, an overlaid path is the path of the new top. */
  lemma OverlaidPath(s: Store, genesis: Hash, was: map<nat, Hash>, head: Hash, canon: map<nat, Hash>, h: Hash, m: nat,
                     trimmed: map<nat, Hash>)
    requires Tree(s, genesis) && IsPath(s, was, head) && h in s && Fork(s, head, h) <= m <= s[h].number
    requires Overlaid(s, was, canon, h, Fork(s, head, h), m)
    requires forall n: nat :: (n in trimmed <==> n in canon && n <= m) && (n in trimmed ==> trimmed[n] == canon[n])
    ensures At(s, h, m) in s && s[At(s, h, m)].number == m && IsPath(s, trimmed, At(s, h, m))
  {
    hide Tree, Fork, Up;
    AtBelow(s, genesis, h, m, m);
    forall n: nat | n <= m ensures n in trimmed && trimmed[n] == At(s, At(s, h, m), n) {
      AtBelow(s, genesis, h, m, n);
      if n <= Fork(s, head, h) {
        SharedBelow(s, genesis, head, h, n);
      }
    }
  }

  /** The canonical map after the head block itself has been inserted is the path
      of the new head, if and only if nothing above it is left over. */
  lemma InsertedPath(s: Store, genesis: Hash, was: map<nat, Hash>, head: Hash, h: Hash, canon: map<nat, Hash>)
    requires Tree(s, genesis) && IsPath(s, was, head) && h in s && s[h].number > 0
    requires if s[h].number >= Fork(s, head, h) + 2 then IsPath(s, canon, s[h].parent) else canon == was
    ensures IsPath(s, canon[s[h].number := h], h) <==> CleanSwitch(s, head, h)
  {
    hide Tree, Fork, Up, At;
    var m, c := s[h].number, Fork(s, head, h);
    SelfAt(s, h);
    if m >= c + 2 {
      ExtendPath(s, genesis, canon, h);
    } else {
      forall n: nat | n < m ensures n in was && was[n] == At(s, h, n) {
        SharedBelow(s, genesis, head, h, n);
      }
      assert m < s[head].number ==> m + 1 in canon[m := h];
    }
  }

  lemma ExtendPath(s: Store, genesis: Hash, canon: map<nat, Hash>, h: Hash)
    requires Tree(s, genesis) && h in s && s[h].number > 0 && IsPath(s, canon, s[h].parent)
    ensures IsPath(s, canon[s[h].number := h], h)
  {
    Extends(s, genesis, h);
    forall n: nat | n < s[h].number ensures At(s, h, n) == At(s, s[h].parent, n) {
    }
  }

  /** `r` is `canon` without the numbers from `from` up to the first gap. */
  ghost predicate Truncated(canon: map<nat, Hash>, r: map<nat, Hash>, from: nat) {
    && (forall n: nat :: n in r <==> n in canon && !(from <= n && forall m: nat :: from <= m <= n ==> m in canon))
    && (forall n: nat :: n in r ==> r[n] == canon[n])
  }

  lemma SpliceTables(s: Store, bodies: Bodies, was: map<nat, Hash>, lookup0: map<TxId, nat>, head: Hash,
                     canon: map<nat, Hash>, lookup: map<TxId, nat>, added: set<TxId>, current: Hash, h: Hash, c: nat,
                     m: nat)
    requires Inserted(s, bodies, was, lookup0, head, canon, lookup, added, current, h, c, m)
    requires s[h].number > 0 && m == if c == s[h].number then c else s[h].number - 1
    ensures lookup == Relook(s, bodies, lookup0, h, c, s[h].number - 1)
    ensures added == TxsOn(s, bodies, h, c, s[h].number - 1)
    ensures Overlaid(s, was, canon, h, c, m) && current == if s[h].number - 1 > c then At(s, h, m) else head
  {
  }

  lemma SpliceCanon(s: Store, genesis: Hash, was: map<nat, Hash>, head: Hash, overlaid: map<nat, Hash>, current: Hash,
                    h: Hash, canon: map<nat, Hash>, m: nat)
    requires Tree(s, genesis) && IsPath(s, was, head) && h in s && s[h].number > 0
    requires Fork(s, head, h) <= m <= s[h].number
    requires m == if Fork(s, head, h) == s[h].number then Fork(s, head, h) else s[h].number - 1
    requires Overlaid(s, was, overlaid, h, Fork(s, head, h), m)
    requires current == if s[h].number - 1 > Fork(s, head, h) then At(s, h, m) else head
    requires current in s && Truncated(overlaid, canon, s[current].number + 1)
    ensures if s[h].number - 1 > Fork(s, head, h) then IsPath(s, canon, s[h].parent) else canon == was
  {
    var c := Fork(s, head, h);
    if s[h].number - 1 > c {
      hide Tree, Fork, Up;
      AtBelow(s, genesis, h, m, m);
      forall n: nat ensures n in canon <==> n in overlaid && n <= m {
        assert n in overlaid && n > m ==> n in was;
        assert n in was ==> forall k: nat :: m < k <= n ==> k in was && k in overlaid;
      }
      OverlaidPath(s, genesis, was, head, overlaid, h, m, canon);
      UpOne(s, h);
    } else {
      assert s[head].number + 1 !in overlaid;
      assert forall n: nat :: n in canon <==> n in was;
    }
  }

  /** The tables after the blocks of the new branch up to height `m` have been
      inserted. */
  ghost predicate Inserted(s: Store, bodies: Bodies, was: map<nat, Hash>, lookup0: map<TxId, nat>, head: Hash,
                           canon: map<nat, Hash>, lookup: map<TxId, nat>, added: set<TxId>, current: Hash, h: Hash,
                           c: nat, m: nat)
  {
    && h in s && c <= m <= s[h].number && Overlaid(s, was, canon, h, c, m)
    && lookup == Relook(s, bodies, lookup0, h, c, m) && added == TxsOn(s, bodies, h, c, m)
    && current == if m > c then At(s, h, m) else head
  }

  lemma SpliceStart(s: Store, bodies: Bodies, was: map<nat, Hash>, lookup: map<TxId, nat>, head: Hash, h: Hash, c: nat)
    requires h in s && c <= s[h].number
    ensures Inserted(s, bodies, was, lookup, head, was, lookup, {}, head, h, c, c)
  {
  }

  lemma SpliceStep(s: Store, genesis: Hash, bodies: Bodies, was: map<nat, Hash>, lookup0: map<TxId, nat>, head: Hash,
                   canon: map<nat, Hash>, lookup: map<TxId, nat>, added: set<TxId>, current: Hash, h: Hash, c: nat,
                   m: nat)
    requires Tree(s, genesis) && Inserted(s, bodies, was, lookup0, head, canon, lookup, added, current, h, c, m)
    requires Fetchable(s, bodies, h, c) && m + 1 < s[h].number
    ensures
      var x := At(s, h, m + 1);
      && x == Up(s, h, s[h].number - (m + 1)) && x in bodies && x in s && s[x].number == m + 1
      && Inserted(s, bodies, was, lookup0, head, canon[m + 1 := x], WithBlock(lookup, bodies[x], m + 1),
                  added + bodies[x], x, h, c, m + 1)
  {
    hide Tree, Up;
    AtBelow(s, genesis, h, m + 1, m + 1);
  }

  /** When moving the head from `a` to `b` succeeds: every block down to the fork
      can be read, and not too many are undone. */
  ghost predicate Reorganisable(s: Store, bodies: Bodies, a: Hash, b: Hash, pbft: bool, env: Env)
    requires a in s && b in s
  {
    var c := Fork(s, a, b);
    Fetchable(s, bodies, a, c) && Fetchable(s, bodies, b, c) && !Refused(pbft, env, s[a].number - c)
  }

  /** The new head is not below the old one, or at least two blocks above the fork. */
  predicate CleanSwitch(s: Store, head: Hash, h: Hash) {
    head in s && h in s && (s[h].number >= s[head].number || s[h].number >= Fork(s, head, h) + 2)
  }

  lemma GrowSwitch(s: Store, genesis: Hash, hash: Hash, header: Header, head: Hash, h: Hash)
    requires Tree(s, genesis) && Fits(s, hash, header) && head in s && h in s
    ensures CleanSwitch(s[hash := header], head, h) <==> CleanSwitch(s, head, h)
  {
    hide Common;
    GrowCommon(s, genesis, hash, header, head, h, Min(s[head].number, s[h].number));
  }

  /** What a head switch from `head` to `h` leaves behind. The canonical map is the
      path of the new head exactly when the switch is clean. */
  ghost predicate Moved(s: Store, bodies: Bodies, canon0: map<nat, Hash>, lookup0: map<TxId, nat>, head: Hash,
                        canon: map<nat, Hash>, lookup: map<TxId, nat>, h: Hash) {
    && head in s && h in s && s[h].number > 0 && lookup == NextLookup(s, bodies, lookup0, head, h)
    && (IsPath(s, canon0, head) ==> (IsPath(s, canon, h) <==> CleanSwitch(s, head, h)))
  }

  lemma CompleteAfter(s: Store, genesis: Hash, bodies: Bodies, a: Hash, b: Hash, pbft: bool, env: Env)
    requires Tree(s, genesis) && Complete(s, bodies, a) && b in s && b in bodies && s[b].number > 0
    requires s[b].parent == a || Reorganisable(s, bodies, a, b, pbft, env)
    ensures Complete(s, bodies, b)
  {
    SwitchComplete(s, genesis, bodies, a, b);
  }

  lemma Extends(s: Store, genesis: Hash, h: Hash)
    requires Tree(s, genesis) && h in s && s[h].number > 0
    ensures s[h].parent in s && s[s[h].parent].number == s[h].number - 1
  {
    assert Linked(s, h);
  }

  datatype Block = Block(hash: Hash, header: Header, txs: set<TxId>, env: Env)

  /** A block above the floor, of the common difficulty, written while there are
      signers. */
  predicate Regular(b: Block, floor: nat, d: nat) {
    b.hash != EMPTY && b.header.number > floor && b.header.difficulty == d && b.env.signers > 0
  }

  /** What is stored under the hash of `b` is `b`. */
  predicate Agrees(s: Store, bodies: Bodies, b: Block) {
    (b.hash in s ==> s[b.hash] == b.header) && (b.hash in bodies ==> bodies[b.hash] == b.txs)
  }

  predicate SameBlock(a: Block, b: Block) {
    a.header == b.header && a.txs == b.txs
  }

  /** Headers and bodies once `b` has been given to the chain. */
  function Stored(s: Store, bodies: Bodies, b: Block): (Store, Bodies) {
    if HasParent(s, b.header) then (s[b.hash := b.header], bodies[b.hash := b.txs]) else (s, bodies)
  }

  function StoreAll(s: Store, bodies: Bodies, blocks: seq<Block>): (Store, Bodies) {
    if blocks == [] then (s, bodies)
    else
      var (s', bodies') := StoreAll(s, bodies, blocks[..|blocks| - 1]);
      Stored(s', bodies', blocks[|blocks| - 1])
  }

  lemma NothingStored(s: Store, bodies: Bodies)
    ensures StoreAll(s, bodies, []) == (s, bodies)
  {
  }

  lemma StoreOneMore(s: Store, bodies: Bodies, blocks: seq<Block>, i: nat)
    requires i < |blocks|
    ensures
      var (s', bodies') := StoreAll(s, bodies, blocks[..i]);
      StoreAll(s, bodies, blocks[..i + 1]) == Stored(s', bodies', blocks[i])
  {
    assert blocks[..i + 1][..i] == blocks[..i];
  }

  ghost predicate Repeating(s: Store, bodies: Bodies, h: Hash) {
    Complete(s, bodies, h) && !NoRepeats(s, bodies, h)
  }

  lemma InPath(s: Store, canon: map<nat, Hash>, head: Hash)
    requires IsPath(s, canon, head)
    ensures head in s && forall n: nat :: n in canon <==> n <= s[head].number
  {
  }

  lemma Fitting(s: Store, h: Hash, header: Header)
    requires h != EMPTY && (h in s ==> s[h] == header)
    ensures Fits(s, h, header)
  {
  }

  /** A head switch that undoes at most five blocks keeps everything from there
      down, and the new head is not lower. */
  lemma FinalStep(s: Store, genesis: Hash, canon0: map<nat, Hash>, head: Hash, canon: map<nat, Hash>, h: Hash,
                  floor: nat, d: nat, k: nat)
    requires Tree(s, genesis) && IsPath(s, canon0, head) && EvenAbove(s, floor, d) && h in s && s[h].number > 0
    requires Weight(s, head) <= Weight(s, h) && s[head].number - Fork(s, head, h) < IRREVERSIBLE_HEIGHT
    requires IsPath(s, canon, h) <==> CleanSwitch(s, head, h)
    requires floor <= k && k + 5 <= s[head].number
    ensures IsPath(s, canon, h) && s[head].number <= s[h].number && canon[k] == canon0[k]
  {
    hide Tree, Weight, Fork, At;
    HeavierIsLonger(s, genesis, head, h, floor, d);
    SharedBelow(s, genesis, head, h, k);
  }

  /** How writing a block ends. */
  ghost function Verdict(s0: Store, head: Hash, localTd: nat, hash: Hash, header: Header, s: Store, bodies: Bodies,
                         td: map<Hash, nat>, pbft: bool, env: Env): WriteResult
  {
    if !HasParent(s0, header) then UnknownAncestor
    else if !env.commitOk then StateError
    else if env.tooManyEvil then TooManyEvil
    else if !(head in s && hash in s && hash in td) then SideChain
    else if !Prefers(td[hash], localTd, header.number, s[head].number, env) then SideChain
    else if header.parent == head || Reorganisable(s, bodies, head, hash, pbft, env) then Canonical
    else ReorgFailed
  }

  /** If the old chain can be read, and the new branch down to the fork, then so can the
      whole new chain. */
  lemma SwitchComplete(s: Store, genesis: Hash, bodies: Bodies, a: Hash, b: Hash)
    requires Tree(s, genesis) && Complete(s, bodies, a) && b in s && b in bodies && s[b].number > 0
    requires s[b].parent == a || Fetchable(s, bodies, b, Fork(s, a, b))
    ensures Complete(s, bodies, b)
  {
    hide Tree, Up, Fork;
    SelfAt(s, b);
    if s[b].parent == a {
      Extends(s, genesis, b);
      ExtensionFork(s, genesis, a, b);
    }
    forall n: nat | n <= s[b].number ensures At(s, b, n) in bodies {
      if n <= Fork(s, a, b) {
        SharedBelow(s, genesis, a, b, n);
      }
    }
  }

  lemma GrowTables(s: Store, genesis: Hash, bodies: Bodies, h: Hash, header: Header, txs: set<TxId>,
                   canon: map<nat, Hash>, head: Hash, lookup: map<TxId, nat>)
    requires Tree(s, genesis) && Fits(s, h, header) && (h in bodies ==> bodies[h] == txs)
    ensures IsPath(s, canon, head) ==> IsPath(s[h := header], canon, head)
    ensures Complete(s, bodies, head) && LookupExact(s, bodies, head, lookup) ==>
      LookupExact(s[h := header], bodies[h := txs], head, lookup)
    ensures Complete(s, bodies, head) ==> Complete(s[h := header], bodies[h := txs], head)
  {
    if Complete(s, bodies, head) {
      GrowChain(s, genesis, bodies, h, header, txs, head);
    }
    if IsPath(s, canon, head) {
      GrowPath(s, genesis, h, header, canon, head);
    }
    if Complete(s, bodies, head) && LookupExact(s, bodies, head, lookup) {
      GrowLookup(s, genesis, bodies, h, header, txs, head, lookup);
    }
  }

  class BlockChain {
    const genesis: Hash
    const pbftBlock: Option<nat>
    var headers: Store
    var bodies: Bodies
    var td: map<Hash, nat>
    var canonical: map<nat, Hash>
    var lookup: map<TxId, nat>
    var current: Hash

    ghost predicate Valid()
      reads this
    {
      && Tree(headers, genesis) && td.Keys == headers.Keys && bodies.Keys <= headers.Keys
      && (forall h :: h in td ==> td[h] == Weight(headers, h))
      && current in bodies
    }

    constructor (genesis: Hash, header: Header, pbftBlock: Option<nat>)
      requires genesis != EMPTY && header.number == 0
      ensures Valid() && IsPath(headers, canonical, current)
      ensures Complete(headers, bodies, current) && LookupExact(headers, bodies, current, lookup)
      ensures this.genesis == genesis == current && this.pbftBlock == pbftBlock
      ensures headers == map[genesis := header] && bodies == map[genesis := {}]
    {
      this.genesis, this.pbftBlock := genesis, pbftBlock;
      headers, bodies, td := map[genesis := header], map[genesis := {}], map[genesis := header.difficulty];
      canonical, lookup, current := map[0 := genesis], map[], genesis;
      SelfAt(map[genesis := header], genesis);
    }

    predicate IsPbft(n: nat) {
      pbftBlock.Some? && pbftBlock.value <= n
    }

    /** Deletes the canonical numbers from `from` on up to the first gap. */
    method DeleteAbove(from: nat)
      modifies this`canonical
      ensures Truncated(old(canonical), canonical, from)
    {
      var batch: set<nat> := {};
      var i := from;
      while i in canonical
        invariant i >= from && (forall n: nat :: n in batch <==> from <= n < i) && batch <= canonical.Keys
        decreases canonical.Keys - batch
      {
        batch := batch + {i};
        i := i + 1;
      }
      canonical := canonical - batch;
    }

    /** Makes `h` the head block. */
    method Insert(h: Hash)
      requires h in headers
      modifies this`canonical, this`current
      ensures canonical == old(canonical)[headers[h].number := h] && current == h
    {
      canonical := canonical[headers[h].number := h];
      current := h;
    }

    /** Walks from both heads down to their common ancestor. */
    method FindFork(oldHead: Hash, newHead: Hash)
      returns (found: bool, dropped: nat, deletedTxs: set<TxId>, newChain: seq<Hash>)
      requires Valid() && oldHead in bodies && newHead in bodies
      ensures found <==>
        var c := Fork(headers, oldHead, newHead);
        Fetchable(headers, bodies, oldHead, c) && Fetchable(headers, bodies, newHead, c)
      ensures found ==>
        var c := Fork(headers, oldHead, newHead);
        && dropped == headers[oldHead].number - c
        && deletedTxs == TxsOn(headers, bodies, oldHead, c, headers[oldHead].number)
        && newChain == Ups(headers, newHead, headers[newHead].number - c)
    {
      hide Tree, Weight, Down, Apart, Fork, Fetchable, TxsOn, Ups, Up;
      var a, b := oldHead, newHead;
      DownStart(headers, bodies, oldHead);
      DownStart(headers, bodies, newHead);
      ForkStart(headers, oldHead, newHead);
      dropped, deletedTxs, newChain := 0, {}, [];
      if headers[a].number > headers[b].number {
        found, a, dropped, deletedTxs := LowerOld(oldHead, headers[b].number, Fork(headers, oldHead, newHead));
      } else {
        found, b, newChain := LowerNew(newHead, headers[a].number, Fork(headers, oldHead, newHead));
      }
      if found {
        found, dropped, deletedTxs, newChain :=
          LowerBoth(oldHead, newHead, a, b, Min(headers[oldHead].number, headers[newHead].number),
                    dropped, deletedTxs, newChain);
      }
    }

    /** The old branch is longer: brings it down to height `n`. */
    method LowerOld(oldHead: Hash, n: nat, ghost c: nat)
      returns (found: bool, a: Hash, dropped: nat, deletedTxs: set<TxId>)
      requires Valid() && oldHead in bodies && c <= n <= headers[oldHead].number
      ensures !found ==> !Fetchable(headers, bodies, oldHead, c)
      ensures found ==>
        && Down(headers, bodies, oldHead, a, n) && dropped == headers[oldHead].number - n
        && deletedTxs == TxsOn(headers, bodies, oldHead, n, headers[oldHead].number)
    {
      hide Tree, Weight, Down, Fetchable, TxsOn, Ups, Up;
      a, dropped, deletedTxs := oldHead, 0, {};
      DownStart(headers, bodies, oldHead);
      while headers[a].number != n
        invariant a in headers && headers[a].number >= n && Down(headers, bodies, oldHead, a, headers[a].number)
        invariant dropped == headers[oldHead].number - headers[a].number
        invariant deletedTxs == TxsOn(headers, bodies, oldHead, headers[a].number, headers[oldHead].number)
        decreases headers[a].number
      {
        DownStep(headers, genesis, bodies, oldHead, a, headers[a].number);
        dropped, deletedTxs, a := dropped + 1, deletedTxs + bodies[a], headers[a].parent;
        if a !in bodies {
          return false, a, dropped, deletedTxs;
        }
        DownAt(headers, bodies, oldHead, a, headers[oldHead].number - dropped);
      }
      found := true;
    }

    /** The new branch is not shorter: brings it down to height `n`. */
    method LowerNew(newHead: Hash, n: nat, ghost c: nat) returns (found: bool, b: Hash, newChain: seq<Hash>)
      requires Valid() && newHead in bodies && c <= n <= headers[newHead].number
      ensures !found ==> !Fetchable(headers, bodies, newHead, c)
      ensures found ==>
        Down(headers, bodies, newHead, b, n) && newChain == Ups(headers, newHead, headers[newHead].number - n)
    {
      hide Tree, Weight, Down, Fetchable, TxsOn, Ups, Up;
      b, newChain := newHead, [];
      DownStart(headers, bodies, newHead);
      while headers[b].number != n
        invariant b in headers && headers[b].number >= n && Down(headers, bodies, newHead, b, headers[b].number)
        invariant newChain == Ups(headers, newHead, headers[newHead].number - headers[b].number)
        decreases headers[b].number
      {
        DownStep(headers, genesis, bodies, newHead, b, headers[b].number);
        newChain, b := newChain + [b], headers[b].parent;
        if b !in bodies {
          return false, b, newChain;
        }
        DownAt(headers, bodies, newHead, b, headers[newHead].number - |newChain|);
      }
      found := true;
    }

    /** From the same height on, both branches are brought down together. */
    method LowerBoth(oldHead: Hash, newHead: Hash, a0: Hash, b0: Hash, low: nat, dropped0: nat, deletedTxs0: set<TxId>,
                     newChain0: seq<Hash>)
      returns (found: bool, dropped: nat, deletedTxs: set<TxId>, newChain: seq<Hash>)
      requires Valid() && oldHead in bodies && newHead in bodies && low <= headers[oldHead].number
      requires low <= headers[newHead].number
      requires Down(headers, bodies, oldHead, a0, low) && Down(headers, bodies, newHead, b0, low)
      requires Apart(headers, oldHead, newHead, low)
      requires dropped0 == headers[oldHead].number - low
      requires deletedTxs0 == TxsOn(headers, bodies, oldHead, low, headers[oldHead].number)
      requires newChain0 == Ups(headers, newHead, headers[newHead].number - low)
      ensures found <==>
        var c := Fork(headers, oldHead, newHead);
        Fetchable(headers, bodies, oldHead, c) && Fetchable(headers, bodies, newHead, c)
      ensures found ==>
        var c := Fork(headers, oldHead, newHead);
        && dropped == headers[oldHead].number - c
        && deletedTxs == TxsOn(headers, bodies, oldHead, c, headers[oldHead].number)
        && newChain == Ups(headers, newHead, headers[newHead].number - c)
    {
      hide Tree, Weight, Down, Apart, Fork, Fetchable, TxsOn, Ups, Up;
      var a, b := a0, b0;
      dropped, deletedTxs, newChain := dropped0, deletedTxs0, newChain0;
      DownAt(headers, bodies, oldHead, a, low);
      DownAt(headers, bodies, newHead, b, low);
      ghost var n: nat := low;
      while a != b
        invariant a in headers && b in headers && Down(headers, bodies, oldHead, a, n)
        invariant Down(headers, bodies, newHead, b, n)
        invariant Apart(headers, oldHead, newHead, n) && n <= headers[oldHead].number && n <= headers[newHead].number
        invariant dropped == headers[oldHead].number - n
        invariant deletedTxs == TxsOn(headers, bodies, oldHead, n, headers[oldHead].number)
        invariant newChain == Ups(headers, newHead, headers[newHead].number - n)
        decreases n
      {
        DownAt(headers, bodies, oldHead, a, n);
        DownAt(headers, bodies, newHead, b, n);
        ForkBelow(headers, genesis, oldHead, newHead, n);
        DownStep(headers, genesis, bodies, oldHead, a, n);
        DownStep(headers, genesis, bodies, newHead, b, n);
        dropped, deletedTxs, newChain := dropped + 1, deletedTxs + bodies[a], newChain + [b];
        a, b, n := headers[a].parent, headers[b].parent, n - 1;
        if a !in bodies || b !in bodies {
          return false, dropped, deletedTxs, newChain;
        }
        DownAt(headers, bodies, oldHead, a, n);
        DownAt(headers, bodies, newHead, b, n);
      }
      DownAt(headers, bodies, oldHead, a, n);
      DownAt(headers, bodies, newHead, b, n);
      ForkBelow(headers, genesis, oldHead, newHead, n);
      found := true;
    }

    /** Inserts the new branch except for its head, oldest block first, deletes the
        lookup entries that are gone, and cuts off stale canonical numbers. */
    method Splice(newHead: Hash, deletedTxs: set<TxId>, newChain: seq<Hash>)
      requires Valid() && newHead in bodies && headers[newHead].number > 0
      requires
        var c := Fork(headers, current, newHead);
        && Fetchable(headers, bodies, newHead, c)
        && deletedTxs == TxsOn(headers, bodies, current, c, headers[current].number)
        && newChain == Ups(headers, newHead, headers[newHead].number - c)
      modifies this`canonical, this`lookup, this`current
      ensures current in bodies
      ensures
        var c := Fork(headers, old(current), newHead);
        var top := headers[newHead].number - 1;
        && lookup == Relook(headers, bodies, old(lookup), newHead, c, top)
             - (deletedTxs - TxsOn(headers, bodies, newHead, c, top))
        && (old(IsPath(headers, canonical, current)) ==>
          if top > c then IsPath(headers, canonical, headers[newHead].parent) else canonical == old(canonical))
    {
      hide Tree, Weight, Fork, TxsOn, Relook, Ups, At, IsPath, Overlaid;
      ghost var head, was := current, canonical;
      ghost var c := Fork(headers, current, newHead);
      var addedTxs: set<TxId> := {};
      var i := |newChain| - 1;
      SpliceStart(headers, bodies, was, lookup, head, newHead, c);
      while i >= 1
        invariant i <= |newChain| - 1 && (|newChain| > 0 ==> i >= 0) && |newChain| == headers[newHead].number - c
        invariant Inserted(headers, bodies, was, old(lookup), head, canonical, lookup, addedTxs, current, newHead, c,
                           if |newChain| == 0 then c else headers[newHead].number - i - 1)
        decreases i
      {
        SpliceStep(headers, genesis, bodies, was, old(lookup), head, canonical, lookup, addedTxs, current, newHead, c,
                   headers[newHead].number - i - 1);
        Insert(newChain[i]);
        lookup := WithBlock(lookup, bodies[newChain[i]], headers[newChain[i]].number);
        addedTxs := addedTxs + bodies[newChain[i]];
        i := i - 1;
      }
      ghost var m: nat := if |newChain| == 0 then c else headers[newHead].number - 1;
      SpliceTables(headers, bodies, was, old(lookup), head, canonical, lookup, addedTxs, current, newHead, c, m);
      lookup := lookup - (deletedTxs - addedTxs);
      ghost var overlaid := canonical;
      DeleteAbove(headers[current].number + 1);
      if old(IsPath(headers, canonical, current)) {
        SpliceCanon(headers, genesis, was, head, overlaid, current, newHead, canonical, m);
      }
    }

    /** Moves the canonical chain over to the parent of `newHead`, unless a block
        cannot be read or too much would be undone. */
    method Reorg(newHead: Hash, env: Env) returns (ok: bool)
      requires Valid() && newHead in bodies && headers[newHead].number > 0
      modifies this`canonical, this`lookup, this`current
      ensures current in bodies
      ensures !ok ==> canonical == old(canonical) && lookup == old(lookup) && current == old(current)
      ensures ok <==> Reorganisable(headers, bodies, old(current), newHead, IsPbft(headers[newHead].number), env)
      ensures ok <==>
        var c := Fork(headers, old(current), newHead);
        var undone := headers[old(current)].number - c;
        && Fetchable(headers, bodies, old(current), c) && Fetchable(headers, bodies, newHead, c)
        && if IsPbft(headers[newHead].number) then env.signers == 0 || undone <= 5
           else env.blockSigners <= 6 || 2 * undone <= env.blockSigners
      ensures ok ==>
        var c := Fork(headers, old(current), newHead);
        var top := headers[newHead].number - 1;
        && lookup == Relook(headers, bodies, old(lookup), newHead, c, top)
          - (TxsOn(headers, bodies, old(current), c, headers[old(current)].number)
            - TxsOn(headers, bodies, newHead, c, top))
        && (old(IsPath(headers, canonical, current)) ==>
          if top > c then IsPath(headers, canonical, headers[newHead].parent) else canonical == old(canonical))
    {
      hide Tree, Weight, Fork, TxsOn, Relook, Ups, At, IsPath, Fetchable;
      var found, dropped, deletedTxs, newChain := FindFork(current, newHead);
      if !found || Refused(IsPbft(headers[newHead].number), env, dropped) {
        return false;
      }
      Splice(newHead, deletedTxs, newChain);
      ok := true;
    }

    /** The head switch of writeBlockWithState. */
    method SwitchHead(hash: Hash, env: Env) returns (ok: bool)
      requires Valid() && hash in bodies && headers[hash].number > 0
      modifies this`canonical, this`lookup, this`current
      ensures !ok ==> canonical == old(canonical) && lookup == old(lookup) && current == old(current)
      ensures ok <==>
        (headers[hash].parent == old(current)
         || Reorganisable(headers, bodies, old(current), hash, IsPbft(headers[hash].number), env))
      ensures ok <==>
        || headers[hash].parent == old(current)
        || var c := Fork(headers, old(current), hash);
           && Fetchable(headers, bodies, old(current), c) && Fetchable(headers, bodies, hash, c)
           && if IsPbft(headers[hash].number) then env.signers == 0 || headers[old(current)].number - c <= 5
              else env.blockSigners <= 6 || 2 * (headers[old(current)].number - c) <= env.blockSigners
      ensures ok ==>
        current == hash && Moved(headers, bodies, old(canonical), old(lookup), old(current), canonical, lookup, hash)
    {
      hide Tree, Weight, Fork, TxsOn, Relook, At, IsPath, Fetchable, Reorganisable, WithBlock;
      if headers[hash].parent != current {
        ok := Reorg(hash, env);
        if !ok {
          return;
        }
      } else {
        Extends(headers, genesis, hash);
        ExtendLookup(headers, genesis, bodies, lookup, current, hash);
        ExtensionFork(headers, genesis, current, hash);
      }
      if old(IsPath(headers, canonical, current)) {
        InsertedPath(headers, genesis, old(canonical), old(current), hash, canonical);
      }
      lookup := WithBlock(lookup, bodies[hash], headers[hash].number);
      Insert(hash);
      ok := true;
    }

    /** Stores a block and its total difficulty, canonical or not. */
    method Store(hash: Hash, header: Header, txs: set<TxId>, externTd: nat)
      requires Valid() && Fits(headers, hash, header) && HasParent(headers, header)
      requires hash in bodies ==> bodies[hash] == txs
      requires externTd == header.difficulty + td[header.parent]
      modifies this`headers, this`td, this`bodies
      ensures Valid()
      ensures headers == old(headers)[hash := header] && bodies == old(bodies)[hash := txs]
      ensures td == old(td)[hash := externTd]
      ensures td[current] == old(td)[current]
    {
      hide Tree, Weight, Linked;
      NewWeights(headers, genesis, td, hash, header);
      Grow(headers, genesis, hash, header);
      td := td[hash := externTd];
      headers := headers[hash := header];
      bodies := bodies[hash := txs];
    }

    /** writeBlockWithState: the block is stored whatever happens next; the head
        moves to it if it is preferred and the reorganisation is not refused. */
    method WriteBlock(hash: Hash, header: Header, txs: set<TxId>, env: Env) returns (r: WriteResult)
      requires Valid() && Fits(headers, hash, header) && (hash in bodies ==> bodies[hash] == txs)
      modifies this
      ensures Valid()
      ensures r.UnknownAncestor? <==> !HasParent(old(headers), header)
      ensures r.UnknownAncestor? ==> unchanged(this)
      ensures !r.UnknownAncestor? ==> headers == old(headers)[hash := header] && bodies == old(bodies)[hash := txs]
      ensures r == Verdict(old(headers), old(current), old(td)[old(current)], hash, header, headers, bodies, td,
                           IsPbft(header.number), env)
      ensures !r.UnknownAncestor? ==>
        var n, n', was := header.number, headers[old(current)].number, old(current);
        var w, w' := Weight(headers, hash), Weight(headers, was);
        var better :=
          w > w' || (w == w' && (n < n' || (n == n' && !env.currentPreserve
                                            && (env.blockPreserve || (!env.pbftEngine && env.coin)))));
        var c := Fork(headers, was, hash);
        var allowed :=
          || header.parent == was
          || (&& Fetchable(headers, bodies, was, c) && Fetchable(headers, bodies, hash, c)
              && if pbftBlock.Some? && n >= pbftBlock.value then env.signers == 0 || n' - c <= 5
                 else env.blockSigners <= 6 || 2 * (n' - c) <= env.blockSigners);
        r == if !env.commitOk then StateError
             else if env.tooManyEvil then TooManyEvil
             else if !better then SideChain
             else if allowed then Canonical
             else ReorgFailed
      ensures old(current) in td && td[old(current)] == old(td)[old(current)]
      ensures r != Canonical ==> canonical == old(canonical) && lookup == old(lookup) && current == old(current)
      ensures r == Canonical ==>
        current == hash && Moved(headers, bodies, old(canonical), old(lookup), old(current), canonical, lookup, hash)
      ensures old(IsPath(headers, canonical, current)) ==> IsPath(headers, old(canonical), old(current))
      ensures old(Complete(headers, bodies, current) && LookupExact(headers, bodies, current, lookup)) ==>
        if r == Canonical then LookupExact(headers, bodies, hash, lookup) <==> NoRepeats(headers, bodies, hash)
        else LookupExact(headers, bodies, current, lookup)
      ensures old(Complete(headers, bodies, current)) ==> Complete(headers, bodies, current)
    {
      hide Tree, Weight, Fork, IsPath, LookupExact, NoRepeats, NextLookup, Complete, Fits, Reorganisable;
      if !HasParent(headers, header) {
        return UnknownAncestor;
      }
      var localTd := td[current];
      var externTd := header.difficulty + td[header.parent];
      GrowTables(headers, genesis, bodies, hash, header, txs, canonical, current, lookup);
      Store(hash, header, txs, externTd);
      if !env.commitOk {
        return StateError;
      }
      if env.tooManyEvil {
        return TooManyEvil;
      }
      if !Prefers(externTd, localTd, header.number, headers[current].number, env) {
        return SideChain;
      }
      var ok := SwitchHead(hash, env);
      if !ok {
        return ReorgFailed;
      }
      if old(Complete(headers, bodies, current)) {
        CompleteAfter(headers, genesis, bodies, old(current), hash, IsPbft(headers[hash].number), env);
      }
      if old(Complete(headers, bodies, current) && LookupExact(headers, bodies, current, lookup)) {
        SwitchLookup(headers, genesis, bodies, old(lookup), old(current), hash);
      }
      return Canonical;
    }

    /** With signers present and even difficulties, a block written under PBFT never
        touches what lies five or more blocks below the head. */
    method WriteFinal(b: Block, ghost floor: nat, ghost d: nat)
      requires Valid() && IsPath(headers, canonical, current) && EvenAbove(headers, floor, d)
      requires floor + 5 <= headers[current].number
      requires Regular(b, floor, d) && IsPbft(b.header.number) && Agrees(headers, bodies, b)
      modifies this
      ensures Valid() && IsPath(headers, canonical, current) && EvenAbove(headers, floor, d)
      ensures headers == old(headers) || headers == old(headers)[b.hash := b.header]
      ensures bodies == old(bodies) || bodies == old(bodies)[b.hash := b.txs]
      ensures old(headers[current].number) <= headers[current].number
      ensures forall k: nat :: floor <= k && k + 5 <= old(headers[current].number) ==> canonical[k] == old(canonical)[k]
    {
      hide Tree, Weight, IsPath, LookupExact, NoRepeats, Complete, Fits, Fetchable, NextLookup;
      ghost var number := headers[current].number;
      InPath(headers, canonical, current);
      Fitting(headers, b.hash, b.header);
      var r := WriteBlock(b.hash, b.header, b.txs, b.env);
      if r == Canonical {
        if b.header.parent == old(current) {
          Extends(headers, genesis, b.hash);
          ExtensionFork(headers, genesis, old(current), b.hash);
        }
        FinalStep(headers, genesis, old(canonical), old(current), canonical, b.hash, floor, d, floor);
        InPath(headers, canonical, current);
        forall k: nat | floor <= k && k + 5 <= number ensures canonical[k] == old(canonical)[k] {
          FinalStep(headers, genesis, old(canonical), old(current), canonical, b.hash, floor, d, k);
        }
      }
    }

    /** Finality over whole runs: once the head is at height k + 5, no sequence of
        writes changes the canonical block at height k. */
    method Run(blocks: seq<Block>, ghost floor: nat, ghost d: nat, k: nat)
      requires Valid() && IsPath(headers, canonical, current) && EvenAbove(headers, floor, d)
      requires floor <= k && k + 5 <= headers[current].number
      requires forall i :: 0 <= i < |blocks| ==>
        Regular(blocks[i], floor, d) && IsPbft(blocks[i].header.number) && Agrees(headers, bodies, blocks[i])
      requires forall i, j :: 0 <= i < j < |blocks| && blocks[i].hash == blocks[j].hash ==>
        SameBlock(blocks[i], blocks[j])
      modifies this
      ensures Valid() && IsPath(headers, canonical, current)
      ensures k in canonical && canonical[k] == old(canonical)[k]
      ensures old(headers[current].number) <= headers[current].number
    {
      hide Tree, Weight, IsPath;
      InPath(headers, canonical, current);
      for i := 0 to |blocks|
        invariant Valid() && IsPath(headers, canonical, current) && EvenAbove(headers, floor, d)
        invariant old(headers[current].number) <= headers[current].number
        invariant forall j :: i <= j < |blocks| ==> Agrees(headers, bodies, blocks[j])
        invariant k in canonical && canonical[k] == old(canonical)[k]
      {
        WriteFinal(blocks[i], floor, d);
        InPath(headers, canonical, current);
      }
    }

    /** Over every sequence of writes the lookup table stays exact as long as no new
        head repeats a transaction on its chain, and the number map stays the path of
        the head as long as every switch is clean. `heads` is the head before the first
        write and after each. */
    method Import(blocks: seq<Block>) returns (ghost heads: seq<Hash>)
      requires Valid() && Complete(headers, bodies, current) && LookupExact(headers, bodies, current, lookup)
      requires forall i :: 0 <= i < |blocks| ==> blocks[i].hash != EMPTY && Agrees(headers, bodies, blocks[i])
      requires forall i, j :: 0 <= i < j < |blocks| && blocks[i].hash == blocks[j].hash ==>
        SameBlock(blocks[i], blocks[j])
      modifies this
      ensures Valid() && Complete(headers, bodies, current)
      ensures |heads| == |blocks| + 1 && heads[0] == old(current) && heads[|blocks|] == current
      ensures forall i :: 0 <= i < |blocks| ==> heads[i + 1] == heads[i] || heads[i + 1] == blocks[i].hash
      ensures (headers, bodies) == StoreAll(old(headers), old(bodies), blocks)
      ensures (forall i :: 0 <= i < |heads| ==> NoRepeats(headers, bodies, heads[i])) ==>
        LookupExact(headers, bodies, current, lookup)
      ensures
        && old(IsPath(headers, canonical, current))
        && (forall i :: 0 <= i < |blocks| ==> CleanSwitch(headers, heads[i], heads[i + 1])) ==>
          IsPath(headers, canonical, current)
    {
      hide Tree, Weight, LookupExact, NoRepeats, Complete, Verdict, Moved, IsPath, CleanSwitch, StoreAll;
      heads := [current];
      ghost var bad: Option<Hash> := None;
      ghost var skewed: Option<nat> := None;
      NothingStored(headers, bodies);
      for i := 0 to |blocks|
        invariant Valid() && Complete(headers, bodies, current)
        invariant |heads| == i + 1 && heads[0] == old(current) && heads[i] == current
        invariant forall k :: 0 <= k < i ==> heads[k + 1] == heads[k] || heads[k + 1] == blocks[k].hash
        invariant forall j :: i <= j < |blocks| ==> Agrees(headers, bodies, blocks[j])
        invariant (headers, bodies) == StoreAll(old(headers), old(bodies), blocks[..i])
        invariant bad == None ==> LookupExact(headers, bodies, current, lookup)
        invariant bad.Some? ==> bad.value in heads && Repeating(headers, bodies, bad.value)
        invariant forall k :: 0 <= k <= i ==> heads[k] in headers
        invariant skewed == None && old(IsPath(headers, canonical, current)) ==> IsPath(headers, canonical, current)
        invariant skewed.Some? ==>
          skewed.value < i && !CleanSwitch(headers, heads[skewed.value], heads[skewed.value + 1])
      {
        StoreOneMore(old(headers), old(bodies), blocks, i);
        Fitting(headers, blocks[i].hash, blocks[i].header);
        if skewed.Some? {
          GrowSwitch(headers, genesis, blocks[i].hash, blocks[i].header, heads[skewed.value], heads[skewed.value + 1]);
        }
        bad := ImportOne(blocks[i], bad);
        heads := heads + [current];
        if skewed == None && !CleanSwitch(headers, heads[i], heads[i + 1]) {
          skewed := Some(i);
        }
      }
      assert blocks[..|blocks|] == blocks;
    }

    /** One write of a run; `bad` is a former or present head whose chain repeats a
        transaction, if any. */
    method ImportOne(b: Block, ghost bad: Option<Hash>) returns (ghost bad': Option<Hash>)
      requires Valid() && Complete(headers, bodies, current)
      requires b.hash != EMPTY && Agrees(headers, bodies, b)
      requires bad == None ==> LookupExact(headers, bodies, current, lookup)
      requires bad.Some? ==> Repeating(headers, bodies, bad.value)
      modifies this
      ensures Valid() && Complete(headers, bodies, current) && (current == old(current) || current == b.hash)
      ensures (headers, bodies) == Stored(old(headers), old(bodies), b)
      ensures bad' == None ==> LookupExact(headers, bodies, current, lookup)
      ensures bad'.Some? ==> (bad' == bad || bad'.value == current) && Repeating(headers, bodies, bad'.value)
      ensures old(IsPath(headers, canonical, current)) && CleanSwitch(headers, old(current), current) ==>
        IsPath(headers, canonical, current)
    {
      hide Tree, Weight, LookupExact, NoRepeats, Complete, Verdict, IsPath, NextLookup, CleanSwitch;
      Fitting(headers, b.hash, b.header);
      if bad.Some? {
        GrowChain(headers, genesis, bodies, b.hash, b.header, b.txs, bad.value);
      }
      var r := WriteBlock(b.hash, b.header, b.txs, b.env);
      bad' := bad;
      if bad == None && r == Canonical && !NoRepeats(headers, bodies, current) {
        bad' := Some(current);
      }
    }
  }

  /* ---------- six blocks, and not five ---------- */

  /** Two branches from genesis 1, of difficulty 1: hashes 3, 5, 7, ... and 4, 6, 8, ... */
  function MainHash(n: nat): Hash { 2 * n + 1 }

  function SideHash(n: nat): Hash { 2 * n + 2 }

  function BranchHeader(h: Hash): Header {
    if h <= 1 then Header(EMPTY, 0, 1) else Header(if h <= 4 then 1 else h - 2, (h - 1) / 2, 1)
  }

  predicate OnBranches(h: Hash, m: nat, n: nat) {
    if h % 2 == 1 then h <= MainHash(m) else SideHash(1) <= h <= SideHash(n)
  }

  /** The store of the first up to height `m` and the second up to height `n`. */
  ghost predicate Braided(s: Store, m: nat, n: nat) {
    (forall h :: h in s <==> OnBranches(h, m, n)) && forall h :: h in s ==> s[h] == BranchHeader(h)
  }

  lemma {:induction false} AtMain(s: Store, m: nat, n: nat, j: nat, i: nat)
    requires Braided(s, m, n) && i <= j <= m
    ensures At(s, MainHash(j), i) == MainHash(i)
    decreases j
  {
    assert MainHash(j) in s && s[MainHash(j)] == BranchHeader(MainHash(j));
    if i < j {
      AtMain(s, m, n, j - 1, i);
    }
  }

  lemma {:induction false} AtSide(s: Store, m: nat, n: nat, j: nat, i: nat)
    requires Braided(s, m, n) && i <= j <= n && j >= 1
    ensures At(s, SideHash(j), i) == if i == 0 then MainHash(0) else SideHash(i)
    decreases j
  {
    assert SideHash(j) in s && s[SideHash(j)] == BranchHeader(SideHash(j));
    if i < j {
      if j == 1 {
        assert Up(s, SideHash(1), 1) == Up(s, MainHash(0), 0);
      } else {
        AtSide(s, m, n, j - 1, i);
      }
    }
  }

  lemma {:induction false} TimesOne(k: nat)
    ensures Times(k, 1) == k
  {
    if k > 0 {
      TimesOne(k - 1);
    }
  }

  lemma WeightByNumber(s: Store, h: Hash)
    requires Tree(s, MainHash(0)) && EvenAbove(s, 0, 1) && h in s
    ensures Weight(s, h) == Weight(s, MainHash(0)) + s[h].number
  {
    hide Tree, Weight;
    WeightAbove(s, MainHash(0), h, 0, 1, 0);
    UpToGenesis(s, MainHash(0), h);
    TimesOne(s[h].number);
  }

  lemma BraidedEven(s: Store, m: nat, n: nat)
    requires Braided(s, m, n)
    ensures EvenAbove(s, 0, 1)
  {
  }

  lemma BraidFork(s: Store, m: nat, n: nat)
    requires Braided(s, m, n) && 1 <= m < n
    ensures MainHash(m) in s && SideHash(n) in s && Fork(s, MainHash(m), SideHash(n)) == 0
  {
    hide At;
    AtMain(s, m, n, m, 0);
    AtSide(s, m, n, n, 0);
    forall i: nat | 0 < i <= m ensures At(s, MainHash(m), i) != At(s, SideHash(n), i) {
      AtMain(s, m, n, m, i);
      AtSide(s, m, n, n, i);
    }
    ForkIs(s, MainHash(m), SideHash(n), m, 0);
  }

  lemma BraidGrows(s: Store, m: nat, n: nat, h: Hash, m': nat, n': nat)
    requires Braided(s, m, n)
    requires (m' == m + 1 && n' == n && h == MainHash(m')) || (m' == m && n' == n + 1 && h == SideHash(n'))
    ensures Braided(s[h := BranchHeader(h)], m', n') && h !in s && HasParent(s, BranchHeader(h))
  {
    var s' := s[h := BranchHeader(h)];
    assert !OnBranches(h, m, n);
    forall x ensures x in s' <==> OnBranches(x, m', n') {
    }
    var parent := BranchHeader(h).parent;
    assert OnBranches(parent, m, n);
    assert parent in s && s[parent] == BranchHeader(parent);
  }

  lemma AllReadable(s: Store, bodies: Bodies, h: Hash, c: nat)
    requires Tree(s, MainHash(0)) && h in s && bodies.Keys == s.Keys
    ensures Fetchable(s, bodies, h, c)
  {
    hide Tree, Up;
    forall m: nat | c <= m < s[h].number ensures At(s, h, m) in bodies {
      AtBelow(s, MainHash(0), h, m, m);
    }
  }

  /** Writes the next block of the first branch on top of the head. */
  method WriteMain(chain: BlockChain, m: nat, env: Env)
    requires chain.Valid() && chain.genesis == MainHash(0) && Braided(chain.headers, m, 0)
    requires chain.current == MainHash(m)
    requires chain.bodies.Keys == chain.headers.Keys && IsPath(chain.headers, chain.canonical, chain.current)
    requires env.commitOk && !env.tooManyEvil
    modifies chain
    ensures chain.Valid() && Braided(chain.headers, m + 1, 0) && chain.current == MainHash(m + 1)
    ensures chain.bodies.Keys == chain.headers.Keys && IsPath(chain.headers, chain.canonical, chain.current)
  {
    hide Tree, Weight, IsPath, Fork, Braided, LookupExact, NoRepeats, Complete, Fetchable, NextLookup, Verdict,
      HasParent;
    ghost var s := chain.headers[MainHash(m + 1) := BranchHeader(MainHash(m + 1))];
    BraidGrows(chain.headers, m, 0, MainHash(m + 1), m + 1, 0);
    BraidedEven(s, m + 1, 0);
    var r := chain.WriteBlock(MainHash(m + 1), BranchHeader(MainHash(m + 1)), {}, env);
    OnBranch(s, m + 1, 0);
    WeightByNumber(s, MainHash(m + 1));
    WeightByNumber(s, MainHash(m));
  }

  lemma OnBranch(s: Store, m: nat, n: nat)
    requires Braided(s, m, n)
    ensures forall j: nat :: j <= m ==> MainHash(j) in s && s[MainHash(j)].number == j
    ensures forall j: nat :: 1 <= j <= n ==> SideHash(j) in s && s[SideHash(j)].number == j
  {
  }

  /** Writes the next block of the second branch, which takes over once it is longer. */
  method WriteSide(chain: BlockChain, m: nat, n: nat, env: Env)
    requires chain.Valid() && chain.genesis == MainHash(0) && chain.pbftBlock == Some(0)
    requires Braided(chain.headers, m, n) && chain.current == MainHash(m) && 1 <= m <= 5 && n <= m
    requires chain.bodies.Keys == chain.headers.Keys && IsPath(chain.headers, chain.canonical, chain.current)
    requires env.commitOk && !env.tooManyEvil && env.signers > 0 && env.pbftEngine && !env.blockPreserve
    modifies chain
    ensures chain.Valid() && Braided(chain.headers, m, n + 1) && chain.bodies.Keys == chain.headers.Keys
    ensures n < m ==> chain.current == MainHash(m) && chain.canonical == old(chain.canonical)
    ensures n == m ==> chain.current == SideHash(n + 1)
    ensures IsPath(chain.headers, chain.canonical, chain.current)
  {
    hide Tree, Weight, IsPath, Fork, Braided, LookupExact, NoRepeats, Complete, Fetchable, NextLookup, Verdict,
      HasParent,
      At;
    var h := SideHash(n + 1);
    ghost var s := chain.headers[h := BranchHeader(h)];
    BraidGrows(chain.headers, m, n, h, m, n + 1);
    BraidedEven(s, m, n + 1);
    var r := chain.WriteBlock(h, BranchHeader(h), {}, env);
    OnBranch(s, m, n + 1);
    WeightByNumber(s, h);
    WeightByNumber(s, MainHash(m));
    if n == m {
      BraidFork(s, m, n + 1);
      AllReadable(s, chain.bodies, h, 0);
      AllReadable(s, chain.bodies, MainHash(m), 0);
    }
  }

  /** The limit is sharp: under PBFT, with signers and even difficulties, a block that is
      only four below the head can still be replaced. */
  method FinalityIsSharp(env: Env) returns (chain: BlockChain, ghost before: map<nat, Hash>)
    requires env.commitOk && !env.tooManyEvil && env.signers > 0 && env.pbftEngine && !env.blockPreserve
    ensures fresh(chain) && chain.Valid() && IsPath(chain.headers, chain.canonical, chain.current)
    ensures chain.pbftBlock == Some(0) && EvenAbove(chain.headers, 0, 1)
    ensures 1 in before && 5 in before && 6 !in before && 1 in chain.canonical && chain.canonical[1] != before[1]
  {
    hide Tree, Weight, IsPath, Fork, Braided, LookupExact, NoRepeats, Complete, At, EvenAbove;
    chain := new BlockChain(MainHash(0), BranchHeader(MainHash(0)), Some(0));
    BraidStart(chain.headers);
    for m := 0 to 5
      invariant fresh(chain) && chain.Valid() && chain.genesis == MainHash(0) && chain.pbftBlock == Some(0)
      invariant Braided(chain.headers, m, 0) && chain.current == MainHash(m)
      invariant chain.bodies.Keys == chain.headers.Keys && IsPath(chain.headers, chain.canonical, chain.current)
    {
      WriteMain(chain, m, env);
    }
    before := chain.canonical;
    OnBranch(chain.headers, 5, 0);
    AtMain(chain.headers, 5, 0, 5, 1);
    PathAt(chain.headers, chain.canonical, chain.current, 1);
    for n := 0 to 6
      invariant fresh(chain) && chain.Valid() && chain.genesis == MainHash(0) && chain.pbftBlock == Some(0)
      invariant Braided(chain.headers, 5, n) && chain.bodies.Keys == chain.headers.Keys
      invariant n < 6 ==> chain.current == MainHash(5) && chain.canonical == before
      invariant n == 6 ==> chain.current == SideHash(6)
      invariant IsPath(chain.headers, chain.canonical, chain.current)
    {
      WriteSide(chain, 5, n, env);
    }
    OnBranch(chain.headers, 5, 6);
    AtSide(chain.headers, 5, 6, 6, 1);
    PathAt(chain.headers, chain.canonical, chain.current, 1);
    BraidedEven(chain.headers, 5, 6);
  }

  lemma BraidStart(s: Store)
    requires s == map[MainHash(0) := BranchHeader(MainHash(0))]
    ensures Braided(s, 0, 0)
  {
  }

  lemma PathAt(s: Store, canon: map<nat, Hash>, head: Hash, n: nat)
    requires IsPath(s, canon, head) && head in s && n <= s[head].number
    ensures n in canon && canon[n] == At(s, head, n)
    ensures forall k: nat :: k in canon <==> k <= s[head].number
  {
  }

  /* ---------- a number left behind ---------- */

  /** Genesis 1, the head 3 on top of 2, and block 4 beside 2, as heavy as both. */
  const TIED: Store := map[1 := Header(EMPTY, 0, 0), 2 := Header(1, 1, 1), 3 := Header(2, 2, 1), 4 := Header(1, 1, 2)]

  lemma TiedChains(s: Store)
    requires s == TIED
    ensures Weight(s, 3) == Weight(s, 4) == 2 && Fork(s, 3, 4) == 0
    ensures At(s, 3, 0) == At(s, 4, 0) == 1 && At(s, 3, 1) == 2
  {
    assert Up(s, 3, 0) == 3 && Up(s, 3, 1) == Up(s, 2, 0) == 2 && Up(s, 3, 2) == Up(s, 2, 1) == Up(s, 1, 0) == 1;
    assert Up(s, 4, 0) == 4 && Up(s, 4, 1) == Up(s, 1, 0) == 1;
    assert Linked(s, 2) && Linked(s, 3) && Linked(s, 4) && !Linked(s, 1);
    assert Weight(s, 1) == 0 && Weight(s, 2) == 1;
    assert Common(s, 3, 4, 0) == 0 && Common(s, 3, 4, 1) == 0;
  }

  lemma TiedSwitch(s: Store, bodies: Bodies)
    requires s == TIED && bodies.Keys == {1, 2, 3, 4}
    ensures Fetchable(s, bodies, 3, 0) && Fetchable(s, bodies, 4, 0)
  {
    TiedChains(s);
    hide Fork, At;
  }

  lemma ShortWeights(s: Store)
    requires 1 in s && 2 in s && s[1] == Header(EMPTY, 0, 0) && s[2] == Header(1, 1, 1)
    ensures Weight(s, 1) == 0 && Weight(s, 2) == 1
    ensures 3 in s && s[3] == Header(2, 2, 1) ==> Weight(s, 3) == 2
  {
    assert Weight(s, 1) == 0;
    assert Weight(s, 2) == 1;
  }

  /** A lower-numbered tie with a one-block branch leaves a stale number behind: writing
      the four blocks in this order moves the head to block 4, at number 1, while number
      2 still maps to something. */
  method StaleNumberRemains(env: Env) returns (chain: BlockChain)
    requires env.commitOk && !env.tooManyEvil && env.signers == env.blockSigners == 0
    ensures fresh(chain) && chain.Valid() && chain.headers == TIED && chain.current == 4
    ensures !IsPath(chain.headers, chain.canonical, chain.current)
  {
    hide Tree, Weight, Fork, IsPath, LookupExact, NoRepeats, NextLookup, Complete, Verdict, Fetchable;
    chain := new BlockChain(1, TIED[1], None);
    var r := chain.WriteBlock(2, TIED[2], {}, env);
    ShortWeights(chain.headers);
    r := chain.WriteBlock(3, TIED[3], {}, env);
    ShortWeights(chain.headers);
    r := chain.WriteBlock(4, TIED[4], {}, env);
    assert chain.headers == TIED;
    TiedChains(chain.headers);
    TiedSwitch(chain.headers, chain.bodies);
  }
}
