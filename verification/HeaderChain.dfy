/** The header chain: every header ever written, the total difficulty of each, and
    the canonical number-to-hash map of the current header. */
module HeaderChains {
  import opened Basics
  import opened HashTree

  datatype WriteStatus = UnknownAncestor | Canon | Side

  /** The canonical map while the ancestors of a new head `h` are being written:
      right above `n`, still the path of the old head up to `n`. */
  ghost predicate Rewriting(s: Store, was: map<nat, Hash>, canon: map<nat, Hash>, h: Hash, n: nat) {
    && h in s && n < s[h].number
    && (forall m: nat :: m <= n ==> (m in canon <==> m in was) && (m in canon ==> canon[m] == was[m]))
    && (forall m: nat :: n < m < s[h].number ==> m in canon && canon[m] == At(s, h, m))
    && (forall m: nat :: m > s[h].number ==> m !in canon)
  }

  lemma RewriteStep(s: Store, genesis: Hash, was: map<nat, Hash>, head: Hash, canon: map<nat, Hash>, h: Hash, n: nat)
    requires Tree(s, genesis) && IsPath(s, was, head) && Rewriting(s, was, canon, h, n)
    requires !(n in canon && canon[n] == At(s, h, n))
    ensures n > 0 && At(s, h, n) in s && s[At(s, h, n)].number == n
    ensures s[At(s, h, n)].parent == At(s, h, n - 1)
    ensures Rewriting(s, was, canon[n := At(s, h, n)], h, n - 1)
  {
    hide Tree, Up;
    PathRoot(s, genesis, was, head);
    UpToGenesis(s, genesis, h);
    AtBelow(s, genesis, h, n, n);
    AtBelow(s, genesis, h, n, n - 1);
    UpOne(s, At(s, h, n));
  }

  /** The back-walk may stop at the first number that already agrees: all numbers
      below it agree as well. */
  lemma RewriteStops(s: Store, genesis: Hash, was: map<nat, Hash>, head: Hash, canon: map<nat, Hash>, h: Hash, n: nat)
    requires Tree(s, genesis) && IsPath(s, was, head) && Rewriting(s, was, canon, h, n)
    requires n in canon && canon[n] == At(s, h, n)
    ensures IsPath(s, canon[s[h].number := h], h)
  {
    hide Tree, Up;
    SelfAt(s, h);
    Agrees(s, genesis, was, head, canon, h, n);
  }

  lemma Agrees(s: Store, genesis: Hash, was: map<nat, Hash>, head: Hash, canon: map<nat, Hash>, h: Hash, n: nat)
    requires Tree(s, genesis) && IsPath(s, was, head) && Rewriting(s, was, canon, h, n)
    requires n in canon && canon[n] == At(s, h, n)
    ensures forall m: nat :: m <= n ==> m in canon && canon[m] == At(s, h, m)
  {
    hide Tree, At;
    forall m: nat | m <= n ensures m in canon && canon[m] == At(s, h, m) {
      PathBelow(s, genesis, was, head, n, m);
      AtBelow(s, genesis, h, n, m);
    }
  }

  /** How far `h`, at number `n`, is from the canonical chain. */
  function Detour(s: Store, canon: map<nat, Hash>, h: Hash, n: nat): nat
    decreases n
  {
    if n == 0 || h !in s || (n in canon && canon[n] == h) then 0 else 1 + Detour(s, canon, s[h].parent, n - 1)
  }

  /** That many parents up, and not before, the walk from `h` meets the canonical chain. */
  lemma {:induction false} DetourExactly(s: Store, genesis: Hash, canon: map<nat, Hash>, head: Hash, h: Hash, k: nat)
    requires Tree(s, genesis) && IsPath(s, canon, head) && h in s && k <= s[h].number
    ensures s[h].number - k in canon && canon[s[h].number - k] == Up(s, h, k) <==>
      k >= Detour(s, canon, h, s[h].number)
    decreases s[h].number
  {
    var n := s[h].number;
    if n in canon && canon[n] == h {
      PathBelow(s, genesis, canon, head, n, n - k);
    } else if n == 0 {
      UpToGenesis(s, genesis, h);
      PathRoot(s, genesis, canon, head);
    } else {
      assert Linked(s, h);
      if k > 0 {
        DetourExactly(s, genesis, canon, head, s[h].parent, k - 1);
      }
    }
  }

  /** What GetAncestor should find: the plain parent walk, unless it would have to
      walk further off the canonical chain than `budget` allows. */
  function FastAncestor(s: Store, canon: map<nat, Hash>, h: Hash, n: nat, k: nat, budget: nat): (Hash, nat)
    requires h in s
  {
    if k > n then (EMPTY, 0)
    else if k <= 1 || Min(Detour(s, canon, h, n), k) <= budget then (Up(s, h, k), n - k)
    else (EMPTY, 0)
  }

  /** What is left of the budget after walking `steps`. */
  function Spent(steps: nat, budget: nat): nat { if steps <= budget then budget - steps else 0 }

  /** The walk from `hash` has reached `h` at number `n` after `j` steps, all of
      them off the canonical chain. */
  ghost predicate Climbing(s: Store, canon: map<nat, Hash>, hash: Hash, number: nat, h: Hash, n: nat, j: nat) {
    && h in s && s[h].number == n == number - j && h == Up(s, hash, j)
    && Detour(s, canon, hash, number) == j + Detour(s, canon, h, n)
  }

  lemma ClimbStart(s: Store, genesis: Hash, canon: map<nat, Hash>, head: Hash, hash: Hash, number: nat)
    requires Tree(s, genesis) && IsPath(s, canon, head) && (hash in s ==> s[hash].number == number)
    ensures hash in s ==> Climbing(s, canon, hash, number, hash, number, 0)
    ensures hash !in s ==> !(number in canon && canon[number] == hash)
  {
    if number in canon {
      PathNumbers(s, genesis, canon, head, number);
    }
  }

  lemma ClimbStep(s: Store, genesis: Hash, canon: map<nat, Hash>, hash: Hash, number: nat, h: Hash, n: nat, j: nat)
    requires Tree(s, genesis) && Climbing(s, canon, hash, number, h, n, j) && n > 0
    requires !(n in canon && canon[n] == h)
    ensures h in s && Climbing(s, canon, hash, number, s[h].parent, n - 1, j + 1)
    ensures Detour(s, canon, hash, number) > j
  {
    hide Up;
    assert Linked(s, h);
    UpCompose(s, hash, j, 1);
    UpOne(s, h);
  }

  lemma ClimbMet(s: Store, genesis: Hash, canon: map<nat, Hash>, head: Hash, hash: Hash, number: nat, h: Hash, n: nat,
                 j: nat, k: nat)
    requires Tree(s, genesis) && IsPath(s, canon, head) && n in canon && canon[n] == h && k <= n
    ensures n - k in canon && h in s
    ensures Climbing(s, canon, hash, number, h, n, j) ==>
      n == number - j && canon[n - k] == Up(s, hash, j + k) && Detour(s, canon, hash, number) == j
  {
    hide Up, Tree;
    PathBelow(s, genesis, canon, head, n, n - k);
    UpCompose(s, hash, j, k);
  }

  lemma ClimbEnd(s: Store, canon: map<nat, Hash>, hash: Hash, number: nat, h: Hash, n: nat, j: nat)
    requires Climbing(s, canon, hash, number, h, n, j)
    ensures h == Up(s, hash, j) && n == number - j && Detour(s, canon, hash, number) >= j
  {
  }

  class HeaderChain {
    const genesis: Hash
    var headers: Store
    var td: map<Hash, nat>
    var canonical: map<nat, Hash>
    var current: Hash

    /** The canonical map is the path of the current header, total difficulties are
        sums along the path, and no header is heavier than the current one. */
    ghost predicate Valid()
      reads this
    {
      && Tree(headers, genesis) && IsPath(headers, canonical, current)
      && td.Keys == headers.Keys && current in headers
      && (forall h :: h in td ==> td[h] == Weight(headers, h))
      && (forall h :: h in td ==> td[h] <= td[current])
    }

    constructor (genesis: Hash, header: Header)
      requires genesis != EMPTY && header.number == 0
      ensures Valid() && headers == map[genesis := header] && current == genesis
    {
      this.genesis := genesis;
      headers, td := map[genesis := header], map[genesis := header.difficulty];
      canonical, current := map[0 := genesis], genesis;
      SelfAt(map[genesis := header], genesis);
    }

    /** Deletes the canonical numbers from `from` on; the deletions are collected in
        a batch while the map is read. */
    method DeleteAbove(from: nat, ghost top: nat)
      requires forall n: nat :: n in canonical <==> n <= top
      modifies this`canonical
      ensures canonical == map n | n in old(canonical) && n < from :: old(canonical)[n]
    {
      var batch: set<nat> := {};
      var i := from;
      while i in canonical
        invariant i >= from && (i > from ==> i <= top + 1) && batch == set n | n in canonical && from <= n < i
        decreases top + 1 - i
      {
        batch := batch + {i};
        i := i + 1;
      }
      canonical := canonical - batch;
    }

    /** Writes the ancestors of `h` into the canonical map until it agrees. */
    method Rewrite(h: Hash, ghost was: map<nat, Hash>, ghost head: Hash)
      requires Tree(headers, genesis) && IsPath(headers, was, head)
      requires h in headers && headers[h].number > 0 && Rewriting(headers, was, canonical, h, headers[h].number - 1)
      modifies this`canonical
      ensures IsPath(headers, canonical[headers[h].number := h], h)
    {
      hide Tree, IsPath;
      var number: nat := headers[h].number - 1;
      var hash := headers[h].parent;
      UpOne(headers, h);
      while !(number in canonical && canonical[number] == hash)
        invariant hash == At(headers, h, number) && Rewriting(headers, was, canonical, h, number)
        decreases number
      {
        RewriteStep(headers, genesis, was, head, canonical, h, number);
        canonical := canonical[number := hash];
        hash, number := headers[hash].parent, number - 1;
      }
      RewriteStops(headers, genesis, was, head, canonical, h, number);
    }

    /** Writes a header; `coin` decides a tie of total difficulties. */
    method WriteHeader(hash: Hash, header: Header, coin: bool) returns (status: WriteStatus)
      requires Valid() && Fits(headers, hash, header)
      modifies this
      ensures Valid()
      ensures status.UnknownAncestor? <==> !HasParent(old(headers), header)
      ensures status.UnknownAncestor? ==> unchanged(this)
      ensures !status.UnknownAncestor? ==> headers == old(headers)[hash := header]
      ensures !status.UnknownAncestor? ==>
        (status.Canon? <==> td[hash] > td[old(current)] || (td[hash] == td[old(current)] && coin))
      ensures current == if status.Canon? then hash else old(current)
      ensures old(td[current]) <= td[current]
    {
      hide Tree, IsPath, Weight, Linked, Fits;
      if !HasParent(headers, header) {
        return UnknownAncestor;
      }
      var localTd := td[current];
      var externTd := header.difficulty + td[header.parent];
      Store(hash, header, externTd);
      if externTd > localTd || (externTd == localTd && coin) {
        SwitchTo(hash);
        status := Canon;
      } else {
        status := Side;
      }
    }

    /** Records a header and its total difficulty, canonical or not. */
    method Store(hash: Hash, header: Header, externTd: nat)
      requires Valid() && Fits(headers, hash, header) && HasParent(headers, header)
      requires externTd == header.difficulty + td[header.parent]
      modifies this`headers, this`td
      ensures headers == old(headers)[hash := header] && td == old(td)[hash := externTd]
      ensures Tree(headers, genesis) && IsPath(headers, canonical, current)
      ensures forall h :: h in td ==> td[h] == Weight(headers, h)
      ensures forall h :: h in td && h != hash ==> td[h] <= old(td)[current]
      ensures hash in old(td) ==> td == old(td)
    {
      hide Tree, IsPath, Weight, Linked;
      NewWeights(headers, genesis, td, hash, header);
      Grow(headers, genesis, hash, header);
      GrowPath(headers, genesis, hash, header, canonical, current);
      td := td[hash := externTd];
      headers := headers[hash := header];
    }

    /** Makes a stored header the current one. */
    method SwitchTo(hash: Hash)
      requires Tree(headers, genesis) && IsPath(headers, canonical, current) && hash in headers
      requires headers[hash].number > 0
      modifies this`canonical, this`current
      ensures IsPath(headers, canonical, hash) && current == hash
    {
      ghost var was := canonical;
      DeleteAbove(headers[hash].number + 1, headers[current].number);
      Rewrite(hash, was, current);
      canonical := canonical[headers[hash].number := hash];
      current := hash;
    }

    /** Imports a list of headers. It stops at the first whose parent is unknown or
        when interrupted; a known header that is not heavier is skipped. */
    method InsertHeaderChain(chain: seq<(Hash, Header)>, coins: nat -> bool, interrupted: nat -> bool)
      returns (failed: bool, i: nat)
      requires Valid()
      requires forall j :: 0 <= j < |chain| ==> chain[j].0 != EMPTY
      requires forall j :: 0 <= j < |chain| && chain[j].0 in headers ==> headers[chain[j].0] == chain[j].1
      requires forall j, k :: 0 <= j < k < |chain| && chain[j].0 == chain[k].0 ==> chain[j].1 == chain[k].1
      modifies this
      ensures Valid() && i <= |chain| && (failed <==> i < |chain|)
      ensures forall h :: h in headers <==> h in old(headers) || exists j :: 0 <= j < i && chain[j].0 == h
      ensures failed && !interrupted(i) ==> !HasParent(headers, chain[i].1)
      ensures old(td[current]) <= td[current] && old(current) in td
    {
      hide Tree, IsPath, Weight, HasParent;
      i := 0;
      while i < |chain|
        invariant i <= |chain| && Valid()
        invariant forall h :: h in headers <==> h in old(headers) || exists j :: 0 <= j < i && chain[j].0 == h
        invariant forall j :: 0 <= j < |chain| && chain[j].0 in headers ==> headers[chain[j].0] == chain[j].1
        invariant old(td[current]) <= td[current] && old(current) in td
      {
        if interrupted(i) {
          return true, i;
        }
        var hash, header := chain[i].0, chain[i].1;
        if !(hash in headers && td[hash] <= td[current]) {
          var status := WriteHeader(hash, header, coins(i));
          if status.UnknownAncestor? {
            return true, i;
          }
        }
        i := i + 1;
      }
      failed := false;
    }

    /** The ancestor `ancestor` generations above a header, reading the canonical
        map as soon as the walk meets it. */
    method GetAncestor(hash: Hash, number: nat, ancestor: nat, budget: nat) returns (r: (Hash, nat), left: nat)
      requires Valid() && (hash in headers ==> headers[hash].number == number)
      ensures hash in headers ==> r == FastAncestor(headers, canonical, hash, number, ancestor, budget)
      ensures hash in headers ==>
        r == if || ancestor > number
                || (ancestor >= 2 && ancestor > budget && Detour(headers, canonical, hash, number) > budget)
             then (EMPTY, 0) else (Up(headers, hash, ancestor), number - ancestor)
      ensures hash in headers && 2 <= ancestor <= number ==>
        left == Spent(Min(Detour(headers, canonical, hash, number), ancestor), budget)
      ensures hash !in headers ==> r == if ancestor == 0 then (hash, number) else (EMPTY, 0)
      ensures left <= budget && (ancestor < 2 || ancestor > number ==> left == budget)
    {
      hide Tree, IsPath, Weight, Detour;
      left := budget;
      if ancestor > number {
        return (EMPTY, 0), left;
      }
      if ancestor == 1 {
        if hash in headers {
          UpOne(headers, hash);
          return (headers[hash].parent, number - 1), left;
        }
        return (EMPTY, 0), left;
      }
      r, left := Climb(hash, number, ancestor, budget);
    }

    method Climb(hash: Hash, number: nat, ancestor: nat, budget: nat) returns (r: (Hash, nat), left: nat)
      requires Valid() && (hash in headers ==> headers[hash].number == number) && ancestor <= number && ancestor != 1
      ensures hash in headers ==> r == FastAncestor(headers, canonical, hash, number, ancestor, budget)
      ensures hash in headers ==> left == Spent(Min(Detour(headers, canonical, hash, number), ancestor), budget)
      ensures hash !in headers ==> r == if ancestor == 0 then (hash, number) else (EMPTY, 0)
      ensures left <= budget && (ancestor == 0 ==> left == budget)
    {
      hide Tree, IsPath, Weight, Detour, Climbing, Up;
      left := budget;
      var h, n: nat, k: nat := hash, number, ancestor;
      ClimbStart(headers, genesis, canonical, current, hash, number);
      while k != 0
        invariant k <= n && k <= ancestor && left == budget - (ancestor - k)
        invariant hash in headers ==> Climbing(headers, canonical, hash, number, h, n, ancestor - k)
        invariant hash !in headers ==> k == ancestor && h == hash && n == number
      {
        if n in canonical && canonical[n] == h {
          ClimbMet(headers, genesis, canonical, current, hash, number, h, n, ancestor - k, k);
          return (canonical[n - k], n - k), left;
        }
        if hash in headers {
          ClimbStep(headers, genesis, canonical, hash, number, h, n, ancestor - k);
        }
        if left == 0 {
          return (EMPTY, 0), left;
        }
        left, k := left - 1, k - 1;
        if h !in headers {
          return (EMPTY, 0), left;
        }
        h, n := headers[h].parent, n - 1;
      }
      if hash in headers {
        ClimbEnd(headers, canonical, hash, number, h, n, ancestor);
      }
      return (h, n), left;
    }
  }
}
