/** The chain indexer: it works through the canonical chain one section at a time
    while the chain may be reorganised under it. Each locked region is one step;
    steps of the update loop and of its callers interleave freely. */
module ChainIndexers {
  import opened Basics
  import opened HashTree

  /** What the chain database shows at one moment. */
  datatype View = View(canonical: map<nat, Hash>, stored: set<Hash>)

  function CanonicalHash(v: View, n: nat): Hash {
    if n in v.canonical then v.canonical[n] else EMPTY
  }

  /** The number of the last block of section `i`. */
  function End(i: nat, size: nat): nat
    requires size > 0
  {
    Start(i, size) + size - 1
  }

  function Start(i: nat, size: nat): nat {
    if i == 0 then 0 else Start(i - 1, size) + size
  }

  lemma {:induction false} StartIs(i: nat, size: nat)
    ensures Start(i, size) == i * size
  {
    if i > 0 {
      StartIs(i - 1, size);
      assert i * size == (i - 1) * size + size;
    }
  }

  /** The head of section `i` names the last block of the section, and the block
      one section back is the head of the section before (or nothing at all). */
  predicate Chained(s: Store, heads: map<nat, Hash>, size: nat, i: nat)
    requires size > 0
  {
    && i in heads && heads[i] in s && s[heads[i]].number == End(i, size)
    && Up(s, heads[i], size) == (if i == 0 then EMPTY else Head(heads, i - 1))
  }

  /** SectionHead: the empty hash if nothing is stored. */
  function Head(heads: map<nat, Hash>, i: nat): Hash {
    if i in heads then heads[i] else EMPTY
  }

  /** The head of section `i` is above the checkpoint and not canonical. */
  predicate Rejected(heads: map<nat, Hash>, v: View, size: nat, checkpoint: nat, i: nat)
    requires size > 0
  {
    i >= checkpoint && Head(heads, i) != CanonicalHash(v, End(i, size))
  }

  /** Every head is chained to the one before it or, if in `marks`, was given by a
      checkpoint. The last section has a head, and nothing is stored above it. */
  ghost predicate Consistent(s: Store, heads: map<nat, Hash>, size: nat, marks: set<nat>, stored: nat)
    requires size > 0
  {
    && (forall i: nat :: i in heads ==> i < stored && (Chained(s, heads, size, i) || i in marks))
    && (stored > 0 ==> stored - 1 in heads)
  }

  /** No head above section `i` was given by a checkpoint. */
  ghost predicate Unmarked(marks: set<nat>, i: nat, stored: nat) {
    forall k: nat :: i < k < stored ==> k !in marks
  }

  /** Chained heads have no gap below them. */
  lemma {:induction false} NoGap(s: Store, genesis: Hash, heads: map<nat, Hash>, size: nat, marks: set<nat>,
                                 stored: nat, i: nat)
    requires size > 0 && Tree(s, genesis) && Consistent(s, heads, size, marks, stored) && i < stored
    requires Unmarked(marks, i, stored)
    ensures i in heads
    decreases stored - i
  {
    if i < stored - 1 {
      NoGap(s, genesis, heads, size, marks, stored, i + 1);
      hide Tree, Up;
      HeadBelow(s, genesis, heads, size, i + 1);
    }
  }

  lemma HeadBelow(s: Store, genesis: Hash, heads: map<nat, Hash>, size: nat, i: nat)
    requires size > 0 && Tree(s, genesis) && Chained(s, heads, size, i) && i > 0
    ensures i - 1 in heads
  {
    UpInTree(s, genesis, heads[i], size);
  }

  /** If the last stored head is canonical, so are all of them, back to the last one a
      checkpoint gave. */
  lemma {:induction false} AllCanonical(s: Store, genesis: Hash, heads: map<nat, Hash>, size: nat, marks: set<nat>,
                                        stored: nat, canon: map<nat, Hash>, head: Hash, i: nat)
    requires size > 0 && Tree(s, genesis) && IsPath(s, canon, head) && Consistent(s, heads, size, marks, stored)
    requires stored > 0 && End(stored - 1, size) in canon && Head(heads, stored - 1) == canon[End(stored - 1, size)]
    requires i < stored && Unmarked(marks, i, stored)
    ensures i in heads && End(i, size) in canon && heads[i] == canon[End(i, size)]
    decreases stored - i
  {
    NoGap(s, genesis, heads, size, marks, stored, i);
    if i < stored - 1 {
      AllCanonical(s, genesis, heads, size, marks, stored, canon, head, i + 1);
      hide Tree, IsPath, Up;
      assert Chained(s, heads, size, i + 1);
      PathBelow(s, genesis, canon, head, End(i + 1, size), End(i, size));
      NotEmpty(s, genesis, canon, head, End(i, size));
    }
  }

  lemma NotEmpty(s: Store, genesis: Hash, canon: map<nat, Hash>, head: Hash, n: nat)
    requires Tree(s, genesis) && IsPath(s, canon, head) && n in canon
    ensures canon[n] != EMPTY
  {
    PathNumbers(s, genesis, canon, head, n);
  }

  lemma EndIs(i: nat, size: nat)
    requires size > 0
    ensures End(i, size) == (i + 1) * size - 1
  {
    StartIs(i + 1, size);
  }

  /** Rolling back to `to` sections, past no checkpoint, keeps what is left
      consistent. */
  lemma RollBack(s: Store, genesis: Hash, heads: map<nat, Hash>, size: nat, marks: set<nat>, stored: nat, to: nat,
                 left: map<nat, Hash>)
    requires size > 0 && Tree(s, genesis) && Consistent(s, heads, size, marks, stored) && to <= stored
    requires to > 0 ==> Unmarked(marks, to - 1, stored)
    requires forall i: nat :: (i in left <==> i in heads && i < to) && (i in left ==> left[i] == heads[i])
    ensures Consistent(s, left, size, marks, to)
  {
    hide Tree, Up;
    if to > 0 {
      NoGap(s, genesis, heads, size, marks, stored, to - 1);
    }
    forall i: nat | i in left && i !in marks ensures Chained(s, left, size, i) {
      assert Chained(s, heads, size, i);
    }
  }

  /** The head of the section before `i`. */
  function Before(heads: map<nat, Hash>, i: nat): Hash {
    if i == 0 then EMPTY else Head(heads, i - 1)
  }

  /** A section that was built on the head before it may become the last one. */
  lemma Append(s: Store, genesis: Hash, heads: map<nat, Hash>, size: nat, marks: set<nat>, stored: nat, section: nat,
               h: Hash, heads': map<nat, Hash>)
    requires size > 0 && Tree(s, genesis) && Consistent(s, heads, size, marks, stored)
    requires Produced(s, size, section, Before(heads, section), h)
    requires forall i: nat :: i in heads' <==> (i in heads && i < section) || i == section
    requires forall i: nat :: i in heads' ==> heads'[i] == if i == section then h else heads[i]
    ensures Consistent(s, heads', size, marks - {section}, section + 1) && section <= stored
  {
    hide Tree, Up;
    assert Chained(s, heads', size, section);
    if section > 0 {
      HeadBelow(s, genesis, heads', size, section);
    }
    forall i: nat | i in heads' && i < section && i !in marks ensures Chained(s, heads', size, i) {
      assert Chained(s, heads, size, i);
    }
  }

  /** `h` is the last block of section `i`, and `before` is the block one section
      back. */
  predicate Produced(s: Store, size: nat, i: nat, before: Hash, h: Hash)
    requires size > 0
  {
    h in s && s[h].number == End(i, size) && Up(s, h, size) == before
  }

  /** What the update loop is doing: nothing, processing a section with the lock
      released, or about to take the lock again with the result. */
  datatype Phase =
    | Idle
    | Working(section: nat, before: Hash)
    | Finished(section: nat, before: Hash, result: Option<Hash>)

  /** The steps of the indexer; each carries what it reads from outside. */
  datatype Event =
    | Checkpoint(section: nat, head: Hash)
    | NewHead(number: nat, reorg: bool, view: View)
    | Begin(view: View)
    | Process(resetOk: bool, views: seq<View>, backendOk: seq<bool>)
    | Finish(view: View)
    | Query(view: View, tip: Hash)

  /** What a caller of Sections sees. */
  datatype Answer = Answer(heads: map<nat, Hash>, stored: nat, checkpoint: nat, marks: set<nat>)

  /** If the view is the path of a header and there is a section above the checkpoint,
      then all heads are canonical, back to the last one a checkpoint gave. */
  ghost predicate Trustworthy(s: Store, size: nat, r: Answer, v: View, head: Hash)
    requires size > 0
  {
    IsPath(s, v.canonical, head) && r.stored > r.checkpoint ==>
      forall i: nat :: i < r.stored && (Unmarked(r.marks, i, r.stored) || i + 1 >= r.checkpoint) ==>
        Head(r.heads, i) == CanonicalHash(v, End(i, size))
  }

  lemma CheckpointEnd(sections: nat, size: nat, known: nat)
    requires size > 0
    ensures known < sections ==> sections * size >= 1
  {
  }

  /** The j-th read of a section that starts at `start` finds a stored header that
      continues the one read before. */
  predicate Readable(s: Store, views: seq<View>, start: nat, before: Hash, j: nat)
    requires j < |views|
  {
    var h := CanonicalHash(views[j], start + j);
    h in s && h in views[j].stored && s[h].number == start + j &&
    s[h].parent == (if j == 0 then before else CanonicalHash(views[j - 1], start + j - 1))
  }

  lemma ReadableExactly(s: Store, views: seq<View>, start: nat, before: Hash, j: nat)
    requires j < |views|
    ensures
      var h := if start + j in views[j].canonical then views[j].canonical[start + j] else EMPTY;
      var previous :=
        if j == 0 then before
        else if start + j - 1 in views[j - 1].canonical then views[j - 1].canonical[start + j - 1]
        else EMPTY;
      Readable(s, views, start, before, j) <==>
      h in s && h in views[j].stored && s[h].number == start + j && s[h].parent == previous
  {
  }

  /** Every header of a section can be read, and the backend takes all of them. */
  ghost predicate AllRead(s: Store, views: seq<View>, backendOk: seq<bool>, start: nat, before: Hash) {
    && (forall j :: 0 <= j < |views| ==> Readable(s, views, start, before, j))
    && forall j :: 0 <= j < |backendOk| ==> backendOk[j]
  }

  /** After `j` headers of a section that starts at `start`, the last one read is
      `h`, and the walk back over all of them leads to `before`. */
  ghost predicate Walked(s: Store, before: Hash, h: Hash, start: nat, j: nat) {
    if j == 0 then h == before else h in s && s[h].number == start + j - 1 && Up(s, h, j) == before
  }

  lemma WalkOne(s: Store, before: Hash, last: Hash, start: nat, j: nat, h: Hash)
    requires Walked(s, before, last, start, j) && h in s && s[h].number == start + j && s[h].parent == last
    ensures Walked(s, before, h, start, j + 1)
  {
  }

  lemma NothingAbove(s: Store, heads: map<nat, Hash>, size: nat, marks: set<nat>, stored: nat)
    requires size > 0 && Consistent(s, heads, size, marks, stored)
    ensures forall i: nat :: i >= stored ==> i !in heads
  {
  }

  lemma LastIsCanonical(s: Store, genesis: Hash, heads: map<nat, Hash>, size: nat, marks: set<nat>, stored: nat,
                        v: View)
    requires size > 0 && Tree(s, genesis) && Consistent(s, heads, size, marks, stored) && stored > 0
    requires stored - 1 !in marks
    requires Head(heads, stored - 1) == CanonicalHash(v, End(stored - 1, size))
    ensures End(stored - 1, size) in v.canonical && Head(heads, stored - 1) == v.canonical[End(stored - 1, size)]
  {
    assert Chained(s, heads, size, stored - 1);
  }

  class ChainIndexer {
    const headers: Store // every header the node ever stores
    const genesis: Hash
    const size: nat
    const confirms: nat
    var heads: map<nat, Hash>
    var stored: nat
    var known: nat
    var checkpointSections: nat
    var checkpointHead: Hash
    var phase: Phase
    ghost var marks: set<nat> // sections whose heads were given by a checkpoint

    ghost predicate Valid()
      reads this
    {
      && size > 0 && Tree(headers, genesis) && Consistent(headers, heads, size, marks, stored)
      && (forall m :: m in marks ==> m < checkpointSections)
      && (!phase.Idle? && phase.section == 0 ==> phase.before == EMPTY)
      && (phase.Finished? && phase.result.Some? ==>
            Produced(headers, size, phase.section, phase.before, phase.result.value))
    }

    constructor (headers: Store, genesis: Hash, size: nat, confirms: nat)
      requires size > 0 && Tree(headers, genesis)
      ensures Valid() && stored == known == checkpointSections == 0 && phase.Idle? && marks == {}
      ensures this.headers == headers && this.genesis == genesis && this.size == size && this.confirms == confirms
    {
      this.headers, this.genesis, this.size, this.confirms := headers, genesis, size, confirms;
      heads, stored, known, checkpointSections, checkpointHead := map[], 0, 0, 0, EMPTY;
      phase, marks := Idle, {};
    }

    /** Sets the number of valid sections, removing the heads of the others. */
    method SetValidSections(sections: nat)
      requires forall i: nat :: i >= stored ==> i in heads ==> i < sections
      modifies this`heads, this`stored
      ensures stored == sections
      ensures forall i: nat ::
        (i in heads <==> i in old(heads) && i < sections) && (i in heads ==> heads[i] == old(heads)[i])
    {
      while stored > sections
        invariant stored <= old(stored)
        invariant sections <= stored || stored == old(stored)
        invariant forall i: nat ::
          && (i in heads <==> i in old(heads) && (i < stored || i < sections))
          && (i in heads ==> heads[i] == old(heads)[i])
      {
        stored := stored - 1;
        heads := heads - {stored};
      }
      stored := sections;
    }

    /** verifyLastHead: drops sections from the end until the last head is the
        canonical one, or only the checkpoint is left. */
    method VerifyLastHead(v: View)
      requires Valid()
      modifies this`heads, this`stored
      ensures Valid() && stored <= old(stored)
      ensures stored > checkpointSections ==> Head(heads, stored - 1) == CanonicalHash(v, End(stored - 1, size))
      ensures stored < old(stored) ==> stored >= checkpointSections
      ensures forall i: nat :: stored <= i < old(stored) ==> Rejected(old(heads), v, size, checkpointSections, i)
      ensures forall i: nat :: stored <= i < old(stored) ==>
        i >= checkpointSections && Head(old(heads), i) != CanonicalHash(v, (i + 1) * size - 1)
      ensures forall i: nat :: i < stored ==> Head(heads, i) == Head(old(heads), i)
    {
      hide Tree, Consistent;
      while stored > 0 && stored > checkpointSections
        invariant Valid() && stored <= old(stored) && (stored < old(stored) ==> stored >= checkpointSections)
        invariant forall i: nat :: stored <= i < old(stored) ==> Rejected(old(heads), v, size, checkpointSections, i)
        invariant forall i: nat :: stored <= i < old(stored) ==>
          i >= checkpointSections && Head(old(heads), i) != CanonicalHash(v, (i + 1) * size - 1)
        invariant forall i: nat :: i < stored ==> Head(heads, i) == Head(old(heads), i)
        decreases stored
      {
        EndIs(stored - 1, size);
        if Head(heads, stored - 1) == CanonicalHash(v, stored * size - 1) {
          return;
        }
        Retract(stored - 1);
      }
    }

    /** SetValidSections, going back to a point that is not below the checkpoint. */
    method Retract(sections: nat)
      requires Valid() && checkpointSections <= sections < stored
      modifies this`heads, this`stored
      ensures Valid() && stored == sections
      ensures forall i: nat :: i < sections ==> Head(heads, i) == Head(old(heads), i)
    {
      ghost var was := heads;
      SetValidSections(sections);
      RollBack(headers, genesis, was, size, marks, old(stored), sections, heads);
    }

    /** Takes over a section head from outside, at any time. */
    method AddCheckpoint(section: nat, head: Hash)
      requires Valid()
      modifies this
      ensures Valid() && phase == old(phase) && known == old(known)
      ensures old(checkpointSections) > section || old(stored) > section ==> unchanged(this)
      ensures old(checkpointSections) <= section && old(stored) <= section ==>
        && stored == checkpointSections == section + 1 && checkpointHead == Head(heads, section) == head
        && marks == old(marks) + {section} && forall i: nat :: i < section ==> Head(heads, i) == Head(old(heads), i)
    {
      if checkpointSections >= section + 1 || section < stored {
        return;
      }
      checkpointSections, checkpointHead := section + 1, head;
      ghost var was := heads;
      heads := heads[section := head];
      SetValidSections(section + 1);
      marks := marks + {section};
      forall i: nat | i in heads && i !in marks ensures Chained(headers, heads, size, i) {
        assert Chained(headers, was, size, i);
      }
    }

    /** The number of known sections after a new head. A number above the known one
        counts once the chain has passed the checkpoint and agrees with it. */
    function KnownAfter(head: nat, before: nat, v: View): (r: nat)
      requires size > 0
      reads this
      ensures r >= before
      ensures r > before ==> head >= confirms && r == (head + 1 - confirms) / size && r >= checkpointSections
      ensures r > before && before < checkpointSections ==>
        CanonicalHash(v, checkpointSections * size - 1) == checkpointHead
    {
      if head < confirms then before
      else
        var sections := (head + 1 - confirms) / size;
        if sections < checkpointSections || sections <= before then before
        else if before < checkpointSections && CanonicalHash(v, checkpointSections * size - 1) != checkpointHead
          then before
        else sections
    }

    /** A new chain head, or a reorganisation down to a common ancestor. */
    method HandleNewHead(head: nat, reorg: bool, v: View)
      requires Valid()
      modifies this`heads, this`stored, this`known
      ensures Valid()
      ensures reorg ==> stored == Min(old(stored), Max((head + 1) / size, checkpointSections))
      ensures reorg ==>
        known == Min(old(known), if (head + 1) / size < checkpointSections then 0 else (head + 1) / size)
      ensures !reorg ==> stored == old(stored) && heads == old(heads)
      ensures !reorg ==> known == KnownAfter(head, old(known), v)
      ensures !reorg ==>
        var sections := if head >= confirms then (head + 1 - confirms) / size else 0;
        known
        == if && sections >= checkpointSections && sections > old(known)
              && (old(known) >= checkpointSections
                  || CanonicalHash(v, checkpointSections * size - 1) == checkpointHead)
           then sections else old(known)
      ensures forall i: nat :: i < stored ==> Head(heads, i) == Head(old(heads), i)
    {
      hide Tree, Consistent;
      if reorg {
        var sections := (head + 1) / size;
        var floor := if sections < checkpointSections then checkpointSections else sections;
        if sections < checkpointSections {
          sections := 0;
        }
        if sections < known {
          known := sections;
        }
        if floor < stored {
          Retract(floor);
        }
        return;
      }
      if head >= confirms {
        var sections := (head + 1 - confirms) / size;
        if sections < checkpointSections {
          sections := 0;
        }
        if sections > known {
          CheckpointEnd(checkpointSections, size, known);
          if known < checkpointSections && CanonicalHash(v, checkpointSections * size - 1) != checkpointHead {
            return;
          }
          known := sections;
        }
      }
    }

    /** The first locked region of the update loop. */
    method BeginUpdate(v: View)
      requires Valid() && phase.Idle?
      modifies this`heads, this`stored, this`phase
      ensures Valid() && stored <= old(stored) && (stored < old(stored) ==> stored >= checkpointSections)
      ensures phase == if old(stored) < known then Working(stored, Before(heads, stored)) else Idle
    {
      hide Tree, Consistent;
      if known > stored {
        VerifyLastHead(v);
        var before := EMPTY;
        if stored > 0 {
          before := Head(heads, stored - 1);
        }
        phase := Working(stored, before);
      }
    }

    /** processSection, with the lock released: every header is read from the chain
        as it looks at that moment. */
    method ProcessSection(resetOk: bool, views: seq<View>, backendOk: seq<bool>)
      requires Valid() && phase.Working? && |views| == size && |backendOk| == size + 1
      modifies this`heads, this`stored, this`marks, this`phase
      ensures Valid() && phase.Finished? && phase.section == old(phase).section && phase.before == old(phase).before
      ensures phase.result.Some? <==> resetOk && AllRead(headers, views, backendOk, phase.section * size, phase.before)
      ensures !resetOk ==> stored == 0
      ensures resetOk ==> stored == old(stored) && heads == old(heads) && marks == old(marks)
    {
      if !resetOk {
        SetValidSections(0);
        marks, phase := {}, Finished(phase.section, phase.before, None);
        return;
      }
      var r := ReadSection(phase.section, phase.before, views, backendOk);
      phase := Finished(phase.section, phase.before, r);
    }

    /** Reads a section and hands it to the backend, header by header. */
    method ReadSection(section: nat, before: Hash, views: seq<View>, backendOk: seq<bool>) returns (r: Option<Hash>)
      requires size > 0 && Tree(headers, genesis) && |views| == size && |backendOk| == size + 1
      ensures r.Some? ==> Produced(headers, size, section, before, r.value)
      ensures r.Some? <==> AllRead(headers, views, backendOk, section * size, before)
      ensures r.Some? ==> forall j :: 0 <= j <= size ==> backendOk[j]
    {
      var lastHead := before;
      StartIs(section, size);
      for j := 0 to size
        invariant Walked(headers, before, lastHead, Start(section, size), j)
        invariant forall k :: 0 <= k < j ==> Readable(headers, views, section * size, before, k) && backendOk[k]
        invariant j == 0 ==> lastHead == before
        invariant j > 0 ==> lastHead == CanonicalHash(views[j - 1], section * size + j - 1)
      {
        var number := section * size + j;
        var hash := CanonicalHash(views[j], number);
        if hash == EMPTY || !(hash in headers && hash in views[j].stored && headers[hash].number == number)
          || headers[hash].parent != lastHead {
          assert !Readable(headers, views, section * size, before, j);
          return None;
        }
        if !backendOk[j] {
          return None;
        }
        WalkOne(headers, before, lastHead, Start(section, size), j, hash);
        lastHead := hash;
      }
      r := if backendOk[size] then Some(lastHead) else None;
    }

    /** The second locked region: the section counts if the head it was built on is
        still there. */
    method FinishUpdate(v: View) returns (done: bool)
      requires Valid() && phase.Finished?
      modifies this`heads, this`stored, this`known, this`phase, this`marks
      ensures Valid() && phase.Idle?
      ensures done <==> old(phase).result.Some? && old(phase).before == Before(old(heads), old(phase).section)
      ensures done ==> old(phase).section <= old(stored) && stored == old(phase).section + 1
      ensures done ==> Head(heads, stored - 1) == old(phase).result.value && marks == old(marks) - {stored - 1}
      ensures forall i: nat :: i + 1 < stored ==> Head(heads, i) == Head(old(heads), i)
      ensures !done ==> known == stored <= old(stored)
      ensures old(stored) >= checkpointSections ==>
        (stored >= checkpointSections <==> !done || old(phase).section + 1 >= checkpointSections)
    {
      hide Tree, Consistent, Produced;
      var section := phase.section;
      done := phase.result.Some? && (section == 0 || phase.before == Head(heads, section - 1));
      if done {
        ghost var was, had := heads, stored;
        NothingAbove(headers, heads, size, marks, stored);
        heads := heads[section := phase.result.value];
        SetValidSections(section + 1);
        Append(headers, genesis, was, size, marks, had, section, phase.result.value, heads);
        phase, marks := Idle, marks - {section};
      } else {
        VerifyLastHead(v);
        known, phase := stored, Idle;
      }
    }

    /** Sections: verifies the last head only, yet every stored head is then canonical,
        back to the last one a checkpoint gave. */
    method Sections(v: View, ghost head: Hash) returns (count: nat, number: nat, last: Hash)
      requires Valid()
      modifies this`heads, this`stored
      ensures Valid() && count == stored <= old(stored)
      ensures count > 0 ==> number == End(count - 1, size) && last == Head(heads, count - 1)
      ensures count == 0 ==> number == TWO64 - 1 && last == EMPTY
      ensures Trustworthy(headers, size, Answer(heads, stored, checkpointSections, marks), v, head)
    {
      hide Tree, Consistent, IsPath;
      VerifyLastHead(v);
      count := stored;
      if stored > 0 {
        EndIs(stored - 1, size);
        number, last := stored * size - 1, Head(heads, stored - 1);
      } else {
        number, last := TWO64 - 1, EMPTY;
      }
      if IsPath(headers, v.canonical, head) && stored > checkpointSections {
        LastIsCanonical(headers, genesis, heads, size, marks, stored, v);
        forall i: nat | i < stored && (Unmarked(marks, i, stored) || i + 1 >= checkpointSections)
          ensures Head(heads, i) == CanonicalHash(v, End(i, size))
        {
          AllCanonical(headers, genesis, heads, size, marks, stored, v.canonical, head, i);
        }
      }
    }

    /** Any order of steps the locks allow: those of the update loop follow each other,
        the others may come at any time. */
    method Run(events: seq<Event>) returns (ghost answers: seq<Answer>)
      requires Valid()
      modifies this
      ensures Valid() && |answers| == |events|
      ensures forall i :: 0 <= i < |events| && events[i].Query? ==>
        Trustworthy(headers, size, answers[i], events[i].view, events[i].tip)
    {
      hide Tree, Consistent, Produced, Trustworthy;
      answers := [];
      for i := 0 to |events|
        invariant Valid() && |answers| == i
        invariant forall k :: 0 <= k < i && events[k].Query? ==>
          Trustworthy(headers, size, answers[k], events[k].view, events[k].tip)
      {
        match events[i] {
          case Checkpoint(section, head) =>
            AddCheckpoint(section, head);
          case NewHead(number, reorg, view) => HandleNewHead(number, reorg, view);
          case Begin(view) =>
            if phase.Idle? { BeginUpdate(view); }
          case Process(resetOk, views, backendOk) =>
            if phase.Working? && |views| == size && |backendOk| == size + 1 {
              ProcessSection(resetOk, views, backendOk);
            }
          case Finish(view) =>
            if phase.Finished? { var done := FinishUpdate(view); }
          case Query(view, tip) => var count, number, last := Sections(view, tip);
        }
        answers := answers + [Answer(heads, stored, checkpointSections, marks)];
      }
    }
  }

  /** A checkpoint that arrives while a section below it is being processed is undone
      when that section is finished: the stored sections end up below the checkpoint. */
  method CheckpointOvertaken(head: Hash) returns (indexer: ChainIndexer)
    ensures fresh(indexer) && indexer.Valid() && indexer.phase.Idle?
    ensures indexer.stored == 1 < indexer.checkpointSections == 6 && indexer.checkpointHead == head
    ensures 5 !in indexer.heads
  {
    var headers: Store := map[1 := Header(EMPTY, 0, 0)];
    var view := View(map[0 := 1], {1});
    indexer := new ChainIndexer(headers, 1, 1, 0);
    indexer.HandleNewHead(0, false, view);
    indexer.BeginUpdate(view);
    indexer.AddCheckpoint(5, head);
    assert Readable(headers, [view], 0, EMPTY, 0) && AllRead(headers, [view], [true, true], 0, EMPTY);
    indexer.ProcessSection(true, [view], [true, true]);
    var done := indexer.FinishUpdate(view);
    NothingAbove(headers, indexer.heads, 1, indexer.marks, 1);
  }
}
