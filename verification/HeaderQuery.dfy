/** How a node answers a GetBlockHeaders request of the Ethereum Wire Protocol. */
module HeaderQueries {
  import opened Basics
  import opened HashTree
  import opened HeaderChains

  const BUDGET: nat := 100
  const MAX_HEADER_FETCH: nat := 192
  const SOFT_RESPONSE_LIMIT: nat := 2 * 1024 * 1024
  const EST_HEADER_SIZE: nat := 500

  /** The origin is a hash, or a number if the hash is empty. */
  datatype Query = Query(hash: Hash, number: Uint64, amount: Uint64, skip: Uint64, reverse: bool)

  /** int(amount): values from 2^63 on turn negative. */
  function Signed(x: Uint64): int {
    if x < TWO63 then x else x - TWO64
  }

  function Add64(x: Uint64, y: Uint64): Uint64 { (x + y) % TWO64 }

  /** skip + 1 as the code computes it. */
  function Stride(q: Query): Uint64 { Add64(q.skip, 1) }

  /** The size of a reply that nothing cuts short. */
  function Limit(q: Query): nat {
    if Signed(q.amount) < 0 then 0 else if q.amount < MAX_HEADER_FETCH then q.amount else MAX_HEADER_FETCH
  }

  ghost predicate Bounded(s: Store) {
    forall h :: h in s ==> s[h].number < TWO64
  }

  /* ---------- what a hash query should return ---------- */

  /** `b` follows `a`: exactly skip + 1 generations away on one ancestor line. */
  predicate Follows(s: Store, canon: map<nat, Hash>, q: Query, a: Hash, b: Hash) {
    a in s && b in s &&
    if q.reverse then s[a].number > q.skip && b == Up(s, a, q.skip + 1)
    else
      var n := s[a].number + q.skip + 1;
      n in canon && canon[n] == b && a == Up(s, b, q.skip + 1)
  }

  ghost predicate HashReply(s: Store, canon: map<nat, Hash>, q: Query, reply: seq<Hash>) {
    && (|reply| > 0 ==> reply[0] == q.hash && q.hash in s)
    && (forall i :: 0 <= i < |reply| - 1 ==> Follows(s, canon, q, reply[i], reply[i + 1]))
    && forall i :: 0 <= i < |reply| ==> Affordable(s, canon, q, reply[i])
  }

  /** Walking back over more than one generation at a time, a reply never gets further
      than the budget off the canonical chain. */
  predicate Affordable(s: Store, canon: map<nat, Hash>, q: Query, h: Hash) {
    q.reverse && q.skip > 0 ==>
      q.hash in s && h in s && Detour(s, canon, q.hash, s[q.hash].number) - Detour(s, canon, h, s[h].number) <= BUDGET
  }

  /** Why a reply that ends with `last` may end before its limit. */
  predicate Exhausted(s: Store, canon: map<nat, Hash>, q: Query, last: Hash)
    requires last in s && q.hash in s
  {
    if q.reverse then s[last].number <= q.skip || Detour(s, canon, q.hash, s[q.hash].number) > BUDGET
    else
      var n := s[last].number;
      n !in canon || canon[n] != last || n + q.skip + 1 !in canon
  }

  ghost predicate HashReplyEnds(s: Store, canon: map<nat, Hash>, q: Query, reply: seq<Hash>) {
    && (reply == [] ==> q.hash !in s)
    && (reply != [] ==> q.hash in s && reply[|reply| - 1] in s && Exhausted(s, canon, q, reply[|reply| - 1]))
  }

  /* ---------- what a number query returns ---------- */

  function Position(q: Query, i: nat): int {
    if q.reverse then q.number - i * Stride(q) else (q.number + i * Stride(q)) % TWO64
  }

  ghost predicate NumberReply(canon: map<nat, Hash>, q: Query, reply: seq<Hash>) {
    forall i :: 0 <= i < |reply| ==> Position(q, i) in canon && reply[i] == canon[Position(q, i)]
  }

  /** `b` is exactly skip + 1 generations below `a`. */
  predicate Apart(s: Store, q: Query, a: Hash, b: Hash) {
    a in s && b in s && s[b].number == s[a].number + q.skip + 1 && Up(s, b, q.skip + 1) == a
  }

  /** One step of a number query towards the head keeps to the requested distance
      exactly when the 64-bit sum does not wrap. */
  lemma NumberStep(s: Store, genesis: Hash, canon: map<nat, Hash>, head: Hash, q: Query, n: Uint64, m: Uint64)
    requires Tree(s, genesis) && IsPath(s, canon, head)
    requires m == Add64(n, Stride(q)) && n in canon && m in canon
    ensures Apart(s, q, canon[n], canon[m]) <==> n + q.skip + 1 < TWO64
  {
    hide Tree, IsPath, Up;
    PathNumbers(s, genesis, canon, head, m);
    PathNumbers(s, genesis, canon, head, n);
    if n + q.skip + 1 < TWO64 {
      PathBelow(s, genesis, canon, head, m, n);
    }
  }

  /** Towards the genesis the same holds unless skip + 1 itself wraps to zero, in
      which case the query repeats one header. */
  lemma NumberStepBack(s: Store, genesis: Hash, canon: map<nat, Hash>, head: Hash, q: Query, n: Uint64, m: Uint64)
    requires Tree(s, genesis) && IsPath(s, canon, head)
    requires m == n - Stride(q) && n in canon && m in canon
    ensures Apart(s, q, canon[m], canon[n]) <==> q.skip + 1 < TWO64
    ensures q.skip + 1 == TWO64 ==> canon[m] == canon[n]
  {
    hide Tree, IsPath, Up;
    PathNumbers(s, genesis, canon, head, m);
    PathNumbers(s, genesis, canon, head, n);
    if q.skip + 1 < TWO64 {
      PathBelow(s, genesis, canon, head, n, m);
    }
  }

  /* ---------- the detour shrinks along the walk ---------- */

  lemma {:induction false} DetourAbove(s: Store, genesis: Hash, canon: map<nat, Hash>, head: Hash, h: Hash, k: nat)
    requires Tree(s, genesis) && IsPath(s, canon, head) && h in s && k <= s[h].number
    ensures Up(s, h, k) in s && s[Up(s, h, k)].number == s[h].number - k
    ensures Detour(s, canon, Up(s, h, k), s[h].number - k)
      == Detour(s, canon, h, s[h].number) - Min(Detour(s, canon, h, s[h].number), k)
    decreases k
  {
    if k > 0 {
      ParentDetour(s, genesis, canon, head, h);
      hide Tree, IsPath, Detour;
      DetourAbove(s, genesis, canon, head, s[h].parent, k - 1);
    }
  }

  lemma ParentDetour(s: Store, genesis: Hash, canon: map<nat, Hash>, head: Hash, h: Hash)
    requires Tree(s, genesis) && IsPath(s, canon, head) && h in s && s[h].number > 0
    ensures s[h].parent in s && s[s[h].parent].number == s[h].number - 1
    ensures Detour(s, canon, s[h].parent, s[h].number - 1)
      == Detour(s, canon, h, s[h].number) - Min(Detour(s, canon, h, s[h].number), 1)
  {
    assert Linked(s, h);
    var n := s[h].number;
    if n in canon && canon[n] == h {
      hide Tree, IsPath, Up;
      PathBelow(s, genesis, canon, head, n, n - 1);
      UpOne(s, h);
    }
  }

  /* ---------- the loop ---------- */

  /** The state of a hash query whose next header is `h` at number `n`. */
  ghost predicate AtHash(s: Store, canon: map<nat, Hash>, q: Query, reply: seq<Hash>, h: Hash, n: nat, left: nat) {
    && (reply == [] ==> h == q.hash) && (reply != [] ==> Follows(s, canon, q, reply[|reply| - 1], h))
    && Reached(s, canon, q, h, n, left)
  }

  /** A header reached with enough of the budget left. */
  ghost predicate Reached(s: Store, canon: map<nat, Hash>, q: Query, h: Hash, n: nat, left: nat) {
    && q.hash in s && h in s && s[h].number == n
    && left + Detour(s, canon, q.hash, s[q.hash].number) - Detour(s, canon, h, n) >= BUDGET
    && (q.reverse && q.skip > 0 ==>
          left + Detour(s, canon, q.hash, s[q.hash].number) - Detour(s, canon, h, n) == BUDGET)
  }

  /** What holds around the loop: the reply is right so far, and the next header
      is at hand or the query has ended. */
  ghost predicate Progress(s: Store, canon: map<nat, Hash>, q: Query, reply: seq<Hash>, h: Hash, n: nat, left: nat,
                           unknown: bool)
  {
    if q.hash != EMPTY then
      && HashReply(s, canon, q, reply)
      && (unknown ==> HashReplyEnds(s, canon, q, reply))
      && (!unknown && reply == [] ==> h == q.hash && left == BUDGET)
      && (!unknown && reply != [] ==> AtHash(s, canon, q, reply, h, n, left))
    else
      && NumberReply(canon, q, reply)
      && if unknown then Position(q, |reply|) < 0 else n == Position(q, |reply|)
  }

  /** The reply to a query. Its length is limited; a hash query returns headers
      exactly skip + 1 generations apart and ends early only where the line or the
      budget ends; a number query returns the canonical headers at its positions. */
  method Answer(chain: HeaderChain, q: Query) returns (reply: seq<Hash>)
    requires chain.Valid() && Bounded(chain.headers)
    ensures |reply| <= Limit(q)
    ensures q.hash != EMPTY ==> HashReply(chain.headers, chain.canonical, q, reply)
    ensures q.hash != EMPTY && |reply| < Limit(q) ==> HashReplyEnds(chain.headers, chain.canonical, q, reply)
    ensures q.hash == EMPTY ==> NumberReply(chain.canonical, q, reply)
    ensures q.hash == EMPTY && |reply| < Limit(q) ==> Position(q, |reply|) !in chain.canonical
    ensures Limit(q) == if q.amount >= TWO63 then 0 else Min(q.amount, 192)
    ensures q.hash != EMPTY && q.reverse && |reply| < Limit(q) && reply != [] ==>
      var origin, last := chain.headers[q.hash], reply[|reply| - 1];
      && last in chain.headers
      && (|| chain.headers[last].number <= q.skip
          || Detour(chain.headers, chain.canonical, q.hash, origin.number) > 100)
    ensures q.hash != EMPTY && q.reverse && q.skip > 0 ==>
      forall i :: 0 <= i < |reply| ==>
        && reply[i] in chain.headers
        && Detour(chain.headers, chain.canonical, q.hash, chain.headers[q.hash].number)
           - Detour(chain.headers, chain.canonical, reply[i], chain.headers[reply[i]].number) <= 100
  {
    hide Tree, IsPath, Weight, Detour, Position, AtHash, Reached;
    PositionZero(q);
    reply := [];
    var hash, number: nat, unknown, first, bytes, left := q.hash, q.number, false, true, 0, BUDGET;
    while !unknown && |reply| < Signed(q.amount) && bytes < SOFT_RESPONSE_LIMIT && |reply| < MAX_HEADER_FETCH
      invariant |reply| <= Limit(q) && bytes == EST_HEADER_SIZE * |reply| && (first <==> reply == [])
      invariant Progress(chain.headers, chain.canonical, q, reply, hash, number, left, unknown)
      decreases Limit(q) - |reply|
    {
      var origin := EMPTY;
      ghost var before := number;
      if q.hash != EMPTY {
        if hash !in chain.headers {
          NothingFound(chain.headers, chain.canonical, q, reply, hash, number, left);
          return;
        }
        if first {
          number := chain.headers[hash].number;
        }
        origin := hash;
      } else {
        if number !in chain.canonical {
          return;
        }
        origin := chain.canonical[number];
      }
      first := false;
      Extend(chain.headers, chain.canonical, q, reply, hash, before, number, left, origin);
      reply := reply + [origin];
      bytes := bytes + EST_HEADER_SIZE;
      hash, number, left, unknown := Advance(chain, q, reply, hash, number, left);
    }
  }

  lemma PositionZero(q: Query)
    ensures Position(q, 0) == q.number
  {
  }

  lemma NextPosition(q: Query, i: nat)
    ensures q.reverse ==> Position(q, i + 1) == Position(q, i) - Stride(q)
    ensures !q.reverse ==> 0 <= Position(q, i) < TWO64 && Position(q, i + 1) == Add64(Position(q, i), Stride(q))
  {
    var x := i * Stride(q);
    assert (i + 1) * Stride(q) == x + Stride(q);
    if !q.reverse {
      Advanced(q.number + x, Stride(q));
    }
  }

  lemma Advanced(x: nat, y: nat)
    ensures (x + y) % TWO64 == (x % TWO64 + y) % TWO64
  {
  }

  /** A known hash never leads to an unknown one. */
  lemma NothingFound(s: Store, canon: map<nat, Hash>, q: Query, reply: seq<Hash>, h: Hash, n: nat, left: nat)
    requires q.hash != EMPTY && Progress(s, canon, q, reply, h, n, left, false) && h !in s
    ensures HashReplyEnds(s, canon, q, reply)
  {
  }

  lemma Extend(s: Store, canon: map<nat, Hash>, q: Query, reply: seq<Hash>, h: Hash, before: nat, n: nat, left: nat,
               origin: Hash)
    requires Progress(s, canon, q, reply, h, before, left, false)
    requires q.hash != EMPTY ==> origin == h && h in s && n == if reply == [] then s[h].number else before
    requires q.hash == EMPTY ==> n == before && n in canon && canon[n] == origin
    ensures q.hash != EMPTY ==> HashReply(s, canon, q, reply + [origin]) && Reached(s, canon, q, h, n, left)
    ensures q.hash == EMPTY ==> NumberReply(canon, q, reply + [origin]) && n == Position(q, |reply|)
  {
  }

  /** The switch at the end of the loop body. */
  method Advance(chain: HeaderChain, q: Query, ghost reply: seq<Hash>, hash: Hash, number: nat, left: nat)
    returns (hash': Hash, number': nat, left': nat, unknown: bool)
    requires chain.Valid() && Bounded(chain.headers) && reply != []
    requires q.hash != EMPTY ==>
      && HashReply(chain.headers, chain.canonical, q, reply) && reply[|reply| - 1] == hash
      && Reached(chain.headers, chain.canonical, q, hash, number, left)
    requires q.hash == EMPTY ==> NumberReply(chain.canonical, q, reply) && number == Position(q, |reply| - 1)
    ensures Progress(chain.headers, chain.canonical, q, reply, hash', number', left', unknown)
  {
    hide Tree, IsPath, Weight, Detour, Position, HashReplyEnds, AtHash, Reached, Stride, Add64, Follows;
    hash', number', left', unknown := hash, number, left, false;
    if q.hash != EMPTY {
      if q.reverse {
        hash', number', left', unknown := StepBack(chain, q, reply, hash, number, left);
      } else {
        hash', number', left', unknown := StepForward(chain, q, reply, hash, number, left);
      }
    } else {
      NextPosition(q, |reply| - 1);
      if q.reverse {
        if number >= Stride(q) {
          number' := number - Stride(q);
        } else {
          unknown := true;
        }
      } else {
        number' := Add64(number, Stride(q));
      }
    }
  }

  /** A hash query towards the genesis. */
  method StepBack(chain: HeaderChain, q: Query, ghost reply: seq<Hash>, hash: Hash, number: nat, left: nat)
    returns (hash': Hash, number': nat, left': nat, unknown: bool)
    requires chain.Valid() && Bounded(chain.headers) && q.reverse && q.hash != EMPTY
    requires reply != [] && reply[|reply| - 1] == hash && Reached(chain.headers, chain.canonical, q, hash, number, left)
    ensures !unknown ==> AtHash(chain.headers, chain.canonical, q, reply, hash', number', left')
    ensures unknown ==> HashReplyEnds(chain.headers, chain.canonical, q, reply)
  {
    hide Tree, IsPath, Weight, Detour, Up;
    if Stride(q) == 0 {
      return hash, number, left, true;
    }
    assert Stride(q) == q.skip + 1;
    var r;
    r, left' := chain.GetAncestor(hash, number, Stride(q), left);
    hash', number' := r.0, r.1;
    unknown := hash' == EMPTY;
    if Stride(q) <= number {
      DetourAbove(chain.headers, chain.genesis, chain.canonical, chain.current, hash, Stride(q));
      EmptyUnknown(chain.headers, chain.genesis);
    }
  }

  /** A hash query towards the head. */
  method StepForward(chain: HeaderChain, q: Query, ghost reply: seq<Hash>, hash: Hash, number: nat, left: nat)
    returns (hash': Hash, number': nat, left': nat, unknown: bool)
    requires chain.Valid() && Bounded(chain.headers) && !q.reverse && q.hash != EMPTY
    requires reply != [] && reply[|reply| - 1] == hash && Reached(chain.headers, chain.canonical, q, hash, number, left)
    ensures !unknown ==> AtHash(chain.headers, chain.canonical, q, reply, hash', number', left')
    ensures unknown ==> HashReplyEnds(chain.headers, chain.canonical, q, reply)
  {
    hide Tree, IsPath, Weight, Detour, Up, Add64, Stride;
    hash', number', left', unknown := hash, number, left, true;
    var next := Add64(Add64(number, q.skip), 1);
    NextNumber(q, number);
    BoundedPath(chain.headers, chain.genesis, chain.canonical, chain.current);
    if next <= number {
      return;
    }
    if next in chain.canonical {
      var nextHash := chain.canonical[next];
      Descends(chain.headers, chain.genesis, chain.canonical, chain.current, number, next);
      var r;
      r, left' := chain.GetAncestor(nextHash, next, Stride(q), left);
      assert r.0 == chain.canonical[number];
      if r.0 == hash {
        hash', number', unknown := nextHash, next, false;
      }
    }
  }

  lemma NextNumber(q: Query, n: Uint64)
    ensures
      var next := Add64(Add64(n, q.skip), 1);
      if n + q.skip + 1 < TWO64 then next == n + q.skip + 1 && Stride(q) == q.skip + 1 else next <= n
  {
  }

  lemma BoundedPath(s: Store, genesis: Hash, canon: map<nat, Hash>, head: Hash)
    requires Tree(s, genesis) && IsPath(s, canon, head) && Bounded(s)
    ensures forall n: nat :: n in canon ==> n < TWO64
  {
  }

  lemma Descends(s: Store, genesis: Hash, canon: map<nat, Hash>, head: Hash, n: nat, m: nat)
    requires Tree(s, genesis) && IsPath(s, canon, head) && n < m && m in canon
    ensures n in canon && canon[m] in s && s[canon[m]].number == m && canon[n] == Up(s, canon[m], m - n)
    ensures Detour(s, canon, canon[m], m) == 0
  {
    PathBelow(s, genesis, canon, head, m, n);
  }
}
