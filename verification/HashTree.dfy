/** Headers linked by the hash of their parent. A hash is a number that stands for
    the header it names, so equal hashes mean equal headers. */
module HashTree {

  type Hash = nat

  /** The zero hash, which names no header. */
  const EMPTY: Hash := 0

  datatype Header = Header(parent: Hash, number: nat, difficulty: nat)

  type Store = map<Hash, Header>

  /** `s` is a tree: every header except the genesis names a stored parent one
      number below. */
  ghost predicate Tree(s: Store, genesis: Hash) {
    && EMPTY !in s && genesis in s && s[genesis].number == 0
    && forall h {:trigger Linked(s, h)} :: h in s && h != genesis ==> Linked(s, h)
  }

  predicate Linked(s: Store, h: Hash) {
    h in s && s[h].number > 0 && s[h].parent in s && s[s[h].parent].number == s[h].number - 1
  }

  lemma EmptyUnknown(s: Store, genesis: Hash)
    requires Tree(s, genesis)
    ensures EMPTY !in s
  {
  }

  /** The plain parent walk: the k-th parent of `h`. It stops at an unknown hash. */
  function Up(s: Store, h: Hash, k: nat): Hash
    decreases k
  {
    if k == 0 || h !in s then h else Up(s, s[h].parent, k - 1)
  }

  lemma {:induction false} UpInTree(s: Store, genesis: Hash, h: Hash, k: nat)
    requires Tree(s, genesis) && h in s && k <= s[h].number
    ensures Up(s, h, k) in s && s[Up(s, h, k)].number == s[h].number - k
    decreases k
  {
    if k > 0 {
      assert Linked(s, h);
      UpInTree(s, genesis, s[h].parent, k - 1);
    }
  }

  lemma UpToGenesis(s: Store, genesis: Hash, h: Hash)
    requires Tree(s, genesis) && h in s
    ensures Up(s, h, s[h].number) == genesis
  {
    UpInTree(s, genesis, h, s[h].number);
    assert !Linked(s, Up(s, h, s[h].number));
  }

  lemma {:induction false} UpCompose(s: Store, h: Hash, j: nat, k: nat)
    ensures Up(s, Up(s, h, j), k) == Up(s, h, j + k)
    decreases j
  {
    if j > 0 && h in s {
      UpCompose(s, s[h].parent, j - 1, k);
    }
  }

  /** The ancestor of `h` at height `n`. */
  function At(s: Store, h: Hash, n: nat): Hash
    requires h in s && n <= s[h].number
  {
    Up(s, h, s[h].number - n)
  }

  lemma AtBelow(s: Store, genesis: Hash, h: Hash, n: nat, m: nat)
    requires Tree(s, genesis) && h in s && m <= n <= s[h].number
    ensures At(s, h, n) in s && s[At(s, h, n)].number == n
    ensures At(s, At(s, h, n), m) == At(s, h, m)
  {
    hide Up, Tree;
    UpInTree(s, genesis, h, s[h].number - n);
    UpCompose(s, h, s[h].number - n, n - m);
  }

  lemma SelfAt(s: Store, h: Hash)
    requires h in s
    ensures At(s, h, s[h].number) == h
  {
  }

  lemma UpOne(s: Store, h: Hash)
    requires h in s
    ensures Up(s, h, 1) == s[h].parent
  {
  }

  /* ---------- adding a header ---------- */

  /** A header whose hash is new, or names this very header. */
  ghost predicate Fits(s: Store, h: Hash, header: Header) {
    h != EMPTY && (h in s ==> s[h] == header)
  }

  /** What the store must hold for `header` to be linked to it. */
  predicate HasParent(s: Store, header: Header) {
    header.number > 0 && header.parent in s && s[header.parent].number == header.number - 1
  }

  lemma Grow(s: Store, genesis: Hash, h: Hash, header: Header)
    requires Tree(s, genesis) && Fits(s, h, header) && HasParent(s, header)
    ensures Tree(s[h := header], genesis)
  {
    var s' := s[h := header];
    forall x | x in s' && x != genesis ensures Linked(s', x) {
      if x != h {
        assert Linked(s, x);
      }
    }
  }

  lemma {:induction false} GrowUp(s: Store, genesis: Hash, h: Hash, header: Header, x: Hash, k: nat)
    requires Tree(s, genesis) && Fits(s, h, header) && x in s && k <= s[x].number
    ensures Up(s[h := header], x, k) == Up(s, x, k)
    decreases k
  {
    if k > 0 {
      assert Linked(s, x);
      GrowUp(s, genesis, h, header, s[x].parent, k - 1);
    }
  }

  /* ---------- the number-to-hash map ---------- */

  /** `canon` is the ancestor path of `head`, with nothing above it. */
  ghost predicate IsPath(s: Store, canon: map<nat, Hash>, head: Hash) {
    && head in s && (forall n: nat :: n in canon <==> n <= s[head].number)
    && forall n: nat :: n in canon ==> canon[n] == At(s, head, n)
  }

  lemma PathNumbers(s: Store, genesis: Hash, canon: map<nat, Hash>, head: Hash, n: nat)
    requires Tree(s, genesis) && IsPath(s, canon, head) && n in canon
    ensures canon[n] in s && s[canon[n]].number == n
  {
    UpInTree(s, genesis, head, s[head].number - n);
  }

  lemma PathRoot(s: Store, genesis: Hash, canon: map<nat, Hash>, head: Hash)
    requires Tree(s, genesis) && IsPath(s, canon, head)
    ensures 0 in canon && canon[0] == genesis
  {
    UpToGenesis(s, genesis, head);
  }

  /** A block on the path brings all of its ancestors with it. */
  lemma PathBelow(s: Store, genesis: Hash, canon: map<nat, Hash>, head: Hash, n: nat, m: nat)
    requires Tree(s, genesis) && IsPath(s, canon, head) && n in canon && m <= n
    ensures m in canon && canon[n] in s && s[canon[n]].number == n && canon[m] == At(s, canon[n], m)
  {
    AtBelow(s, genesis, head, n, m);
  }

  lemma GrowPath(s: Store, genesis: Hash, h: Hash, header: Header, canon: map<nat, Hash>, head: Hash)
    requires Tree(s, genesis) && Fits(s, h, header) && IsPath(s, canon, head)
    ensures IsPath(s[h := header], canon, head)
  {
    forall n | n in canon ensures canon[n] == At(s[h := header], head, n) {
      GrowUp(s, genesis, h, header, head, s[head].number - n);
    }
  }

  /* ---------- total difficulty ---------- */

  /** The sum of the difficulties of `h` and its ancestors. */
  function Weight(s: Store, h: Hash): nat
    requires h in s
    decreases s[h].number
  {
    if Linked(s, h) then s[h].difficulty + Weight(s, s[h].parent) else s[h].difficulty
  }

  lemma {:induction false} GrowWeight(s: Store, genesis: Hash, h: Hash, header: Header, x: Hash)
    requires Tree(s, genesis) && Fits(s, h, header) && x in s
    ensures Weight(s[h := header], x) == Weight(s, x)
    decreases s[x].number
  {
    if x != genesis {
      assert Linked(s, x);
      GrowWeight(s, genesis, h, header, s[x].parent);
    } else {
      assert !Linked(s, x) && !Linked(s[h := header], x);
    }
  }

  /** Recorded weights stay right when a header is added, and so is the sum that is
      recorded for it. */
  lemma NewWeights(s: Store, genesis: Hash, td: map<Hash, nat>, h: Hash, header: Header)
    requires Tree(s, genesis) && Fits(s, h, header) && HasParent(s, header)
    requires td.Keys == s.Keys && forall x :: x in td ==> td[x] == Weight(s, x)
    ensures header.parent in td && Weight(s[h := header], h) == header.difficulty + td[header.parent]
    ensures forall x :: x in td ==> Weight(s[h := header], x) == td[x]
  {
    forall x | x in td ensures Weight(s[h := header], x) == td[x] {
      GrowWeight(s, genesis, h, header, x);
    }
    assert Linked(s[h := header], h);
  }
}
