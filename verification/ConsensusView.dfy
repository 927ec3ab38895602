/** Who is on duty: the producers take turns by view number. */
module ConsensusViews {
  import opened Basics
  import opened ViewClocks

  /* ---------- taking turns ---------- */

  /** Index of the producer on duty, with 32-bit addition. */
  function DutyIndex(duty: Uint32, offset: Uint32, n: nat): nat
    requires n > 0
  {
    ((duty + offset) % TWO32) % n
  }

  /** Index of the producer on duty `i` views after view `offset`. */
  function DutyAfter(duty: Uint32, offset: Uint32, i: nat, n: nat): nat
    requires n > 0
  {
    DutyIndex(duty, (offset + i) % TWO32, n)
  }

  /** In `n` consecutive views from `offset` on, each of `n` producers is on duty
      exactly once. */
  ghost predicate EachOnce(duty: Uint32, offset: Uint32, n: nat)
    requires n > 0
  {
    && (forall i: nat, j: nat :: i < j < n ==> DutyAfter(duty, offset, i, n) != DutyAfter(duty, offset, j, n))
    && (forall p: nat :: p < n ==> HasTurn(duty, offset, n, p))
  }

  ghost predicate HasTurn(duty: Uint32, offset: Uint32, n: nat, p: nat)
    requires n > 0
  {
    exists i: nat :: i < n && DutyAfter(duty, offset, i, n) == p
  }

  lemma DutyFrom(duty: Uint32, offset: Uint32, i: nat, n: nat)
    requires n > 0
    ensures DutyAfter(duty, offset, i, n) == (((duty + offset) % TWO32 + i) % TWO32) % n
  {
    WrapSum(duty, offset, i);
  }

  lemma WrapSum(x: nat, y: nat, i: nat)
    ensures (x + (y + i) % TWO32) % TWO32 == ((x + y) % TWO32 + i) % TWO32
  {
  }

  lemma ModUnique(x: nat, n: nat, q: nat, r: nat)
    requires n > 0 && x == q * n + r && r < n
    ensures x % n == r
  {
    DivUnique(x, n, q, r);
    assert x == (x / n) * n + x % n;
  }

  lemma ModShift(x: nat, n: nat, q: nat)
    requires n > 0
    ensures (x + q * n) % n == x % n
  {
    assert x == (x / n) * n + x % n;
    assert (x / n + q) * n == (x / n) * n + q * n;
    ModUnique(x + q * n, n, x / n + q, x % n);
  }

  lemma ModApart(x: nat, k: nat, n: nat)
    requires n > 0 && 0 < k < n
    ensures (x + k) % n != x % n
  {
    var q, r := x / n, x % n;
    assert x == q * n + r;
    if r + k < n {
      ModUnique(x + k, n, q, r + k);
    } else {
      assert (q + 1) * n == q * n + n;
      ModUnique(x + k, n, q + 1, r + k - n);
    }
  }

  /** The sum is below 2^32. */
  lemma DutyBelow(duty: Uint32, offset: Uint32, i: nat, n: nat, x: nat)
    requires n > 0 && x == (duty + offset) % TWO32 + i < TWO32
    ensures DutyAfter(duty, offset, i, n) == x % n
  {
    DutyFrom(duty, offset, i, n);
    hide DutyAfter;
    NoWrap(x);
  }

  lemma NoWrap(x: nat)
    requires x < TWO32
    ensures x % TWO32 == x
  {
  }

  /** The sum has wrapped. */
  lemma DutyWrapped(duty: Uint32, offset: Uint32, i: nat, n: nat, x: nat)
    requires n > 0 && x + TWO32 == (duty + offset) % TWO32 + i && x < TWO32
    ensures DutyAfter(duty, offset, i, n) == x % n
  {
    DutyFrom(duty, offset, i, n);
    hide DutyAfter;
    WrapOnce(x);
  }

  lemma WrapOnce(x: nat)
    requires x < TWO32
    ensures (x + TWO32) % TWO32 == x
  {
  }

  /** Without a wrap that matters, duty is plain counting modulo `n`. */
  lemma PlainDuty(duty: Uint32, offset: Uint32, i: nat, n: nat, s: nat)
    requires 0 < n < TWO32 && i < n && s == (duty + offset) % TWO32
    requires s + n <= TWO32 || TWO32 % n == 0
    ensures DutyAfter(duty, offset, i, n) == (s + i) % n
  {
    hide DutyAfter;
    if s + i >= TWO32 {
      var x := s + i - TWO32;
      DutyWrapped(duty, offset, i, n, x);
      var q := TWO32 / n;
      WholeTimes(n, q);
      ModShift(x, n, q);
    } else {
      DutyBelow(duty, offset, i, n, s + i);
    }
  }

  lemma WholeTimes(n: nat, q: nat)
    requires n > 0 && q == TWO32 / n && TWO32 % n == 0
    ensures q * n == TWO32
  {
  }

  lemma TurnOf(s: nat, p: nat, n: nat) returns (i: nat)
    requires p < n
    ensures i < n && (s + i) % n == p
  {
    var q, r := s / n, s % n;
    assert s == q * n + r;
    if r <= p {
      i := p - r;
      ModUnique(s + i, n, q, p);
    } else {
      i := p + n - r;
      assert (q + 1) * n == q * n + n;
      ModUnique(s + i, n, q + 1, p);
    }
  }

  lemma FairTurns(duty: Uint32, offset: Uint32, n: nat)
    requires 0 < n < TWO32
    requires (duty + offset) % TWO32 + n <= TWO32 || TWO32 % n == 0
    ensures EachOnce(duty, offset, n)
  {
    hide DutyAfter;
    var s := (duty + offset) % TWO32;
    forall i: nat, j: nat | i < j < n ensures DutyAfter(duty, offset, i, n) != DutyAfter(duty, offset, j, n) {
      PlainDuty(duty, offset, i, n, s);
      PlainDuty(duty, offset, j, n, s);
      ModApart(s + i, j - i, n);
    }
    forall p: nat | p < n ensures HasTurn(duty, offset, n, p) {
      var i := TurnOf(s, p, n);
      PlainDuty(duty, offset, i, n, s);
    }
  }

  /** If the 32-bit sum wraps inside the window and 2^32 is not a multiple of `n`,
      some producer is on duty twice. */
  lemma UnfairTurns(duty: Uint32, offset: Uint32, n: nat) returns (i: nat, j: nat)
    requires 0 < n < TWO32
    requires (duty + offset) % TWO32 + n > TWO32 && TWO32 % n != 0
    ensures i < j < n && DutyAfter(duty, offset, i, n) == DutyAfter(duty, offset, j, n)
  {
    hide DutyAfter;
    var s, c, r := (duty + offset) % TWO32, TWO32 / n, TWO32 % n;
    var m := TWO32 - s;
    Division(n, c, r);
    if m >= r {
      i, j := m - r, m;
      DutyBelow(duty, offset, i, n, TWO32 - r);
      DutyWrapped(duty, offset, j, n, 0);
      ModUnique(TWO32 - r, n, c, 0);
      ModUnique(0, n, 0, 0);
    } else {
      i, j := 0, r;
      DutyBelow(duty, offset, i, n, s);
      DutyWrapped(duty, offset, j, n, r - m);
      ModUnique(s, n, c, r - m);
      ModUnique(r - m, n, 0, r - m);
    }
  }

  lemma Division(n: nat, c: nat, r: nat)
    requires n > 0 && c == TWO32 / n && r == TWO32 % n
    ensures TWO32 == c * n + r && r < n
  {
  }

  /** Turns are fair in a window of `n` views, if and only if the 32-bit sum does
      not wrap inside it or 2^32 is a multiple of the number of producers. */
  lemma FairTurnsIff(duty: Uint32, offset: Uint32, n: nat)
    requires 0 < n < TWO32
    ensures EachOnce(duty, offset, n) <==> (duty + offset) % TWO32 + n <= TWO32 || TWO32 % n == 0
  {
    if (duty + offset) % TWO32 + n <= TWO32 || TWO32 % n == 0 {
      FairTurns(duty, offset, n);
    } else {
      var i, j := UnfairTurns(duty, offset, n);
    }
  }

  /* ---------- the node ---------- */

  type Key = nat

  /** updateDutyIndex, with 64-bit arithmetic. */
  function DutyOf(height: Uint64, workingHeight: Uint64, n: nat): Uint32
    requires 0 < n < TWO32
  {
    ((height + 1 - workingHeight) % TWO64) % n
  }

  predicate OnDutyAt(producers: seq<Key>, duty: Uint32, offset: Uint32, k: Key) {
    producers != [] && producers[DutyIndex(duty, offset, |producers|)] == k
  }

  /** The producer whose turn it is, by duty index and view number. */
  lemma OnDutyExactly(producers: seq<Key>, duty: Uint32, offset: Uint32, k: Key)
    ensures OnDutyAt(producers, duty, offset, k) <==>
      producers != [] && k == producers[(duty + offset) % 0x1_0000_0000 % |producers|]
  {
  }

  /** From one height to the next, duty moves on by one producer, except where the 64-bit
      difference wraps and 2^64 is not a multiple of the number of producers. */
  lemma DutyAdvances(height: Uint64, workingHeight: Uint64, n: nat)
    requires 0 < n < TWO32 && height + 1 < TWO64
    ensures height + 1 >= workingHeight ==> DutyOf(height, workingHeight, n) == (height + 1 - workingHeight) % n
    ensures DutyOf(height + 1, workingHeight, n) == (DutyOf(height, workingHeight, n) + 1) % n <==>
      (height + 2 != workingHeight && height + 2 != workingHeight + TWO64) || TWO64 % n == 0
  {
    var x := height + 1 - workingHeight;
    var d := if x < 0 then x + TWO64 else x;
    DutyIs(height, workingHeight, n, d);
    hide DutyOf;
    if d + 1 == TWO64 {
      DutyIs(height + 1, workingHeight, n, 0);
      ModUnique(0, n, 0, 0);
    } else {
      DutyIs(height + 1, workingHeight, n, d + 1);
    }
    ModNext(d, n);
  }

  lemma DutyIs(height: Uint64, workingHeight: Uint64, n: nat, d: nat)
    requires 0 < n < TWO32 && d < TWO64
    requires
      var x := height + 1 - workingHeight;
      d == x || d == x + TWO64 || d == x - TWO64
    ensures DutyOf(height, workingHeight, n) == d % n
  {
    Wrap64(height + 1 - workingHeight, d);
  }

  lemma Wrap64(x: int, d: nat)
    requires d < TWO64 && (d == x || d == x + TWO64 || d == x - TWO64)
    ensures x % TWO64 == d
  {
  }

  lemma ModNext(d: nat, n: nat)
    requires n > 0
    ensures (d % n + 1) % n == (d + 1) % n
  {
    var q, r := d / n, d % n;
    assert d == q * n + r;
    if r + 1 < n {
      ModUnique(d + 1, n, q, r + 1);
      ModUnique(r + 1, n, 0, r + 1);
    } else {
      assert d + 1 == (q + 1) * n;
      ModUnique(d + 1, n, q + 1, 0);
      ModUnique(n, n, 1, 0);
    }
  }

  /** The minimum time between blocks, in seconds. */
  const PERIOD: nat := 5

  /** What happens to a node between two blocks: the timer polls, with `current` saying
      whether the node has caught up with the chain, or block production is prepared,
      which starts the consensus unless it is running. */
  datatype Event = Look(now: int, current: bool) | Restart(at: int)

  datatype Node = Node(clock: Clock, running: bool)

  /** The second from which a consensus started at `at` counts its views: that of the
      parent block, or the present one if the next block is overdue. */
  function StartOf(headerTime: int, at: int): int {
    if headerTime + PERIOD < at / SECOND then at / SECOND else headerTime
  }

  /** One event. A change of view that puts the node on duty stops the consensus, to
      produce a block; the view number outlives that. */
  function Happen(n: Node, e: Event, tolerance: nat, headerTime: int, duty: Uint32 -> bool): Node
    requires tolerance > 0
  {
    match e
    case Look(now, current) =>
      if !n.running then n
      else
        var c := Poll(n.clock, now, tolerance);
        var changed := now > n.clock.start + tolerance && OffsetTime(n.clock.start, now, tolerance).0 > 0;
        Node(c, !(changed && current && duty(c.offset)))
    case Restart(at) =>
      if n.running then n else Node(n.clock.(start := StartOf(headerTime, at) * SECOND), true)
  }

  function Life(n: Node, events: seq<Event>, tolerance: nat, headerTime: int, duty: Uint32 -> bool): Node
    requires tolerance > 0
  {
    if events == [] then n
    else
      var before := Life(n, events[..|events| - 1], tolerance, headerTime, duty);
      Happen(before, events[|events| - 1], tolerance, headerTime, duty)
  }

  class ConsensusView {
    const tolerance: nat
    const publicKey: Key
    var running: bool
    var clock: Clock
    var changeTime: int
    var producers: seq<Key>
    var dutyIndex: Uint32
    var workingHeight: Uint64
    var onDuty: bool

    constructor (tolerance: nat, publicKey: Key, producers: seq<Key>, workingHeight: Uint64)
      requires tolerance > 0
      ensures this.tolerance == tolerance && this.producers == producers && this.workingHeight == workingHeight
      ensures clock == Clock(0, 0) && !running && dutyIndex == 0
    {
      this.tolerance, this.publicKey, this.producers, this.workingHeight :=
        tolerance, publicKey, producers, workingHeight;
      running, clock, changeTime, dutyIndex, onDuty := false, Clock(0, 0), 0, 0, false;
    }

    ghost predicate Valid()
      reads this
    {
      tolerance > 0 && |producers| < TWO32
    }

    /** GetNextOnDutyProducer. */
    predicate IsOnDuty(k: Key)
      requires Valid()
      reads this
    {
      OnDutyAt(producers, dutyIndex, clock.offset, k)
    }

    method SetChangeViewTime(seconds: int)
      modifies this`clock, this`changeTime
      ensures clock == Clock(old(clock).offset, seconds * SECOND) && changeTime == seconds * SECOND + tolerance
    {
      changeTime := seconds * SECOND + tolerance;
      clock := clock.(start := seconds * SECOND);
    }

    /** The change time is one tolerance after the start of the view. */
    ghost predicate Timed()
      reads this
    {
      changeTime == clock.start + tolerance
    }

    function NodeNow(): Node
      reads this
    {
      Node(clock, running)
    }

    /** Whether this node is on duty in a given view. */
    ghost function Duty(): Uint32 -> bool
      reads this
    {
      var ps, duty, key := producers, dutyIndex, publicKey;
      (offset: Uint32) => OnDutyAt(ps, duty, offset, key)
    }

    /** Moves to the view that belongs to `now`; `force` starts over from the time
        of the parent block. A node that comes on duty stops to produce a block. */
    method ChangeView(now: int, force: bool, parentTime: int, current: bool)
      requires Valid()
      modifies this`clock, this`changeTime, this`onDuty, this`running
      ensures clock == if force then Clock(0, parentTime * SECOND) else Tick(old(clock), now, tolerance)
      ensures force || old(Timed()) ==> Timed()
      ensures force || clock != old(clock) ==> (onDuty <==> IsOnDuty(publicKey))
      ensures
        running <==>
        old(running)
        && !(!force && OffsetTime(old(clock).start, now, tolerance).0 > 0 && current && IsOnDuty(publicKey))
    {
      hide OffsetTime, OnDutyAt, WholeSecond;
      var (offset, offsetTime) := OffsetTime(clock.start, now, tolerance);
      CutToSecond(now - offsetTime);
      var changed := offset > 0;
      if changed {
        SetChangeViewTime((now - offsetTime) / SECOND);
      }
      clock := clock.(offset := (clock.offset + offset) % TWO32);
      if force {
        changed := true;
        clock := clock.(offset := 0);
        SetChangeViewTime(parentTime);
      }
      if changed {
        onDuty := IsOnDuty(publicKey);
        if !force && current && onDuty {
          running := false;
        }
      }
    }

    /** Polled by the timer. */
    method TryChangeView(now: int, current: bool)
      requires Valid()
      modifies this`clock, this`changeTime, this`onDuty, this`running
      ensures clock == if old(running) && now > old(changeTime) then Tick(old(clock), now, tolerance) else old(clock)
      ensures old(Timed()) ==>
        Timed() && NodeNow() == Happen(old(NodeNow()), Look(now, current), tolerance, 0, old(Duty()))
    {
      if running && now > changeTime {
        ChangeView(now, false, (changeTime - tolerance) / SECOND, current);
      }
    }

    /** The part of block preparation that starts the consensus. */
    method Prepare(headerTime: int, at: int)
      requires Valid()
      modifies this`clock, this`changeTime, this`running
      ensures running && (!old(running) || old(Timed()) ==> Timed())
      ensures NodeNow() == Happen(old(NodeNow()), Restart(at), tolerance, headerTime, old(Duty()))
      ensures !old(running) ==>
        && clock.offset == old(clock).offset
        && clock.start == (if headerTime + 5 < at / SECOND then at / SECOND else headerTime) * SECOND
    {
      if running {
        return;
      }
      SetChangeViewTime(headerTime);
      running := true;
      if headerTime + PERIOD < at / SECOND {
        SetChangeViewTime(at / SECOND);
      }
    }

    method UpdateDutyIndex(height: Uint64)
      requires Valid()
      modifies this`dutyIndex, this`onDuty
      ensures producers != [] ==> dutyIndex == DutyOf(height, workingHeight, |producers|)
      ensures onDuty <==> IsOnDuty(publicKey)
    {
      if |producers| > 0 {
        dutyIndex := DutyOf(height, workingHeight, |producers|);
      }
      onDuty := IsOnDuty(publicKey);
    }

    /** From a finished block on: the views start over from its time, and polls and
        restarts have their effects in the order in which they come. */
    method FollowBlock(now: int, height: Uint64, headerTime: int, events: seq<Event>)
      requires Valid()
      modifies this
      ensures producers == old(producers) && workingHeight == old(workingHeight) && Timed()
      ensures producers != [] ==> dutyIndex == DutyOf(height, workingHeight, |producers|)
      ensures NodeNow() == Life(Node(Clock(0, headerTime * SECOND), false), events, tolerance, headerTime, Duty())
    {
      hide Tick, DutyOf, Happen, OnDutyAt, OffsetTime;
      running := false;
      UpdateDutyIndex(height);
      ChangeView(now, true, headerTime, true);
      ghost var duty := Duty();
      for i := 0 to |events|
        invariant Timed() && producers == old(producers) && workingHeight == old(workingHeight) && Duty() == duty
        invariant producers != [] ==> dutyIndex == DutyOf(height, workingHeight, |producers|)
        invariant
          NodeNow() == Life(Node(Clock(0, headerTime * SECOND), false), events[..i], tolerance, headerTime, duty)
      {
        assert events[..i + 1][..i] == events[..i];
        match events[i] {
          case Look(time, current) =>
            SameLook(NodeNow(), time, current, tolerance, headerTime, duty);
            TryChangeView(time, current);
          case Restart(at) =>
            Prepare(headerTime, at);
        }
      }
      assert events[..|events|] == events;
    }
  }

  lemma SameLook(n: Node, now: int, current: bool, tolerance: nat, headerTime: int, duty: Uint32 -> bool)
    requires tolerance > 0
    ensures Happen(n, Look(now, current), tolerance, 0, duty)
      == Happen(n, Look(now, current), tolerance, headerTime, duty)
  {
  }

  /* ---------- agreement ---------- */

  /** The times of the polls among `events`. */
  function Times(events: seq<Event>): seq<int> {
    if events == [] then []
    else
      var e := events[|events| - 1];
      Times(events[..|events| - 1]) + if e.Look? then [e.now] else []
  }

  ghost predicate OnlyLooks(events: seq<Event>) {
    forall i :: 0 <= i < |events| ==> events[i].Look?
  }

  /** As long as it does not come on duty, a running node only follows its polls. */
  lemma {:induction false} LooksArePolls(n: Node, looks: seq<Event>, tolerance: nat, headerTime: int,
                                         duty: Uint32 -> bool)
    requires tolerance > 0 && OnlyLooks(looks)
    ensures Life(n, looks, tolerance, headerTime, duty).running ==>
      n.running && Life(n, looks, tolerance, headerTime, duty).clock == Polls(n.clock, Times(looks), tolerance)
    ensures !n.running ==> Life(n, looks, tolerance, headerTime, duty) == n
    decreases |looks|
  {
    if looks != [] {
      var front, e := looks[..|looks| - 1], looks[|looks| - 1];
      LooksArePolls(n, front, tolerance, headerTime, duty);
      assert (Times(front) + [e.now])[..|Times(front)|] == Times(front);
    }
  }

  lemma {:induction false} LifeOf(n: Node, first: seq<Event>, second: seq<Event>, tolerance: nat, headerTime: int,
                                  duty: Uint32 -> bool)
    requires tolerance > 0
    ensures Life(n, first + second, tolerance, headerTime, duty)
      == Life(Life(n, first, tolerance, headerTime, duty), second, tolerance, headerTime, duty)
    decreases |second|
  {
    if second == [] {
      assert first + second == first;
    } else {
      var front := second[..|second| - 1];
      LifeOf(n, first, front, tolerance, headerTime, duty);
      assert (first + second)[..|first + second| - 1] == first + front;
    }
  }

  /** A node after a block of time `headerTime`: it was restarted once, at `at`, after some
      polls without effect, and has not been on duty since. */
  ghost predicate RestartedOnce(headerTime: int, at: int, idle: seq<Event>, looks: seq<Event>, tolerance: nat,
                                duty: Uint32 -> bool)
    requires tolerance > 0
  {
    && OnlyLooks(idle) && OnlyLooks(looks)
    && Life(Node(Clock(0, headerTime * SECOND), false), idle + [Restart(at)] + looks, tolerance, headerTime,
         duty).running
  }

  function ClockAfter(headerTime: int, at: int, idle: seq<Event>, looks: seq<Event>, tolerance: nat,
                      duty: Uint32 -> bool): Clock
    requires tolerance > 0
  {
    Life(Node(Clock(0, headerTime * SECOND), false), idle + [Restart(at)] + looks, tolerance, headerTime, duty).clock
  }

  /** Such a node counts from the second of its restart. */
  lemma RestartedClock(headerTime: int, at: int, idle: seq<Event>, looks: seq<Event>, tolerance: nat,
                       duty: Uint32 -> bool)
    requires tolerance > 0 && RestartedOnce(headerTime, at, idle, looks, tolerance, duty)
    ensures ClockAfter(headerTime, at, idle, looks, tolerance, duty)
      == Polls(Clock(0, StartOf(headerTime, at) * SECOND), Times(looks), tolerance)
  {
    hide Poll, Polls;
    var n := Node(Clock(0, headerTime * SECOND), false);
    LifeOf(n, idle + [Restart(at)], looks, tolerance, headerTime, duty);
    LifeOf(n, idle, [Restart(at)], tolerance, headerTime, duty);
    LooksArePolls(n, idle, tolerance, headerTime, duty);
    var started := Node(Clock(0, StartOf(headerTime, at) * SECOND), true);
    assert [Restart(at)][..0] == [];
    assert Life(n, [Restart(at)], tolerance, headerTime, duty) == started;
    LooksArePolls(started, looks, tolerance, headerTime, duty);
  }

  /** The view clock of such a node. */
  function Joined(headerTime: int, at: int): Restarted {
    Restarted(0, StartOf(headerTime, at), at)
  }

  /** Two nodes that were restarted within the period, or in the same second. */
  predicate TogetherAt(headerTime: int, at: int, at': int) {
    || (at / SECOND <= headerTime + PERIOD && at' / SECOND <= headerTime + PERIOD)
    || at / SECOND == at' / SECOND
  }

  /** Nodes that finished the same block with the same producers and working height, and
      were restarted together, agree on who is on duty, however often each of them looked
      at the clock, as long as neither has been on duty and they do not look exactly at
      the end of a view. */
  lemma NodesAgree(m: nat, headerTime: int, now: int, at: int, idle: seq<Event>, looks: seq<Event>,
                   duty: Uint32 -> bool, at': int, idle': seq<Event>, looks': seq<Event>, duty': Uint32 -> bool,
                   height: Uint64, workingHeight: Uint64, n: nat)
    requires 0 < m && 0 < n < TWO32 && TogetherAt(headerTime, at, at')
    requires RestartedOnce(headerTime, at, idle, looks, m * SECOND, duty)
    requires RestartedOnce(headerTime, at', idle', looks', m * SECOND, duty')
    requires Follows(Joined(headerTime, at), Times(looks), now) && Follows(Joined(headerTime, at'), Times(looks'), now)
    requires Steady(Joined(headerTime, at), m * SECOND, now) && Steady(Joined(headerTime, at'), m * SECOND, now)
    ensures
      var index := DutyOf(height, workingHeight, n);
      DutyIndex(index, ClockAfter(headerTime, at, idle, looks, m * SECOND, duty).offset, n)
      == DutyIndex(index, ClockAfter(headerTime, at', idle', looks', m * SECOND, duty').offset, n)
  {
    hide DutyIndex, DutyOf, Polls, Life, Steady, ViewsSince, RestartedOnce, ClockAfter;
    RestartedClock(headerTime, at, idle, looks, m * SECOND, duty);
    RestartedClock(headerTime, at', idle', looks', m * SECOND, duty');
    SteadyView(Joined(headerTime, at), m, now, Times(looks));
    SteadyView(Joined(headerTime, at'), m, now, Times(looks'));
  }

  /** Two nodes restarted once have the same view number at a given moment, whatever their
      schedules, if and only if it is steady for both and the same number of views has
      passed since each was started. */
  lemma RestartsAgreeIff(m: nat, headerTime: int, at: int, at': int, now: int)
    requires 0 < m && Sensible(Joined(headerTime, at), now) && Sensible(Joined(headerTime, at'), now)
    ensures Agreed(Joined(headerTime, at), Joined(headerTime, at'), m * SECOND, now) <==>
      && Steady(Joined(headerTime, at), m * SECOND, now) && Steady(Joined(headerTime, at'), m * SECOND, now)
      && ViewsSince(StartOf(headerTime, at) * SECOND, m * SECOND, now) % TWO32
         == ViewsSince(StartOf(headerTime, at') * SECOND, m * SECOND, now) % TWO32
  {
    hide Agreed, Steady, ViewsSince;
    AgreedIff(Joined(headerTime, at), Joined(headerTime, at'), m, now);
  }

  /** A tolerance of five seconds and a block of time 0: nodes restarted at six and at nine
      seconds look at the clock at twelve, in the middle of a view for both. */
  lemma RestartsDisagree()
    ensures After(Joined(0, 6 * SECOND), [12 * SECOND], 5 * SECOND) == 1
    ensures After(Joined(0, 9 * SECOND), [12 * SECOND], 5 * SECOND) == 0
  {
    SinglePoll(6, 5, 12 * SECOND);
    FirstView(Clock(0, 9 * SECOND), [12 * SECOND], 5 * SECOND);
  }

  /** Two nodes restarted at six seconds. The first is on duty in view 1, produces no
      block, and is restarted at thirteen seconds; at seventeen seconds it is still in
      view 1 and the other in view 2. */
  lemma DutyDisagrees(duty: Uint32 -> bool, duty': Uint32 -> bool)
    requires duty(1) && !duty'(2)
    ensures
      var n := Node(Clock(0, 0), false);
      var events := [Restart(6 * SECOND), Look(12 * SECOND, true), Restart(13 * SECOND), Look(17 * SECOND, true)];
      var events' := [Restart(6 * SECOND), Look(17 * SECOND, true)];
      && Life(n, events, 5 * SECOND, 0, duty) == Node(Clock(1, 13 * SECOND), true)
      && Life(n, events', 5 * SECOND, 0, duty') == Node(Clock(2, 16 * SECOND), true)
  {
    var n, t := Node(Clock(0, 0), false), 5 * SECOND;
    var started := Node(Clock(0, 6 * SECOND), true);
    assert Life(n, [Restart(6 * SECOND)], t, 0, duty) == started by { assert [Restart(6 * SECOND)][..0] == []; }
    assert Life(n, [Restart(6 * SECOND)], t, 0, duty') == started by { assert [Restart(6 * SECOND)][..0] == []; }
    var e1 := [Restart(6 * SECOND), Look(12 * SECOND, true)];
    assert e1[..1] == [Restart(6 * SECOND)];
    assert Life(n, e1, t, 0, duty) == Node(Clock(1, 11 * SECOND), false);
    var e2 := e1 + [Restart(13 * SECOND)];
    assert e2[..2] == e1;
    assert Life(n, e2, t, 0, duty) == Node(Clock(1, 13 * SECOND), true);
    var e3 := e2 + [Look(17 * SECOND, true)];
    assert e3[..3] == e2;
    assert Life(n, e3, t, 0, duty) == Node(Clock(1, 13 * SECOND), true);
    assert e3 == [Restart(6 * SECOND), Look(12 * SECOND, true), Restart(13 * SECOND), Look(17 * SECOND, true)];
    var f := [Restart(6 * SECOND), Look(17 * SECOND, true)];
    assert f[..1] == [Restart(6 * SECOND)];
  }
}
