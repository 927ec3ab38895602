/** The view number, which grows with the time since the last block. Times are in
    nanoseconds. */
module ViewClocks {
  import opened Basics

  const SECOND: nat := 1_000_000_000

  /** time.Time.Sub saturates at the largest duration. */
  function Elapsed(now: int, start: int): int {
    if now - start >= TWO63 then TWO63 - 1 else if now - start < 0 - TWO63 then 0 - TWO63 else now - start
  }

  /** Integer division that truncates towards zero. */
  function Quotient(x: int, y: nat): int
    requires y > 0
  {
    if x >= 0 then x / y else -((-x) / y)
  }

  function ToUint32(x: int): Uint32 { x % TWO32 }

  /** calculateOffsetTime: whole views elapsed, and the time into the last one. */
  function OffsetTime(start: int, now: int, tolerance: nat): (Uint32, int)
    requires tolerance > 0
  {
    var d := Elapsed(now, start);
    (ToUint32(Quotient(d, tolerance)), d - Quotient(d, tolerance) * tolerance)
  }

  /** The last whole second. */
  function WholeSecond(t: int): int { t - t % SECOND }

  lemma CutToSecond(t: int)
    ensures WholeSecond(t) == t / SECOND * SECOND
  {
  }

  /** The view clock: number of the view, and when it started. */
  datatype Clock = Clock(offset: Uint32, start: int)

  /** What an unforced change of view does to the clock. */
  function Tick(c: Clock, now: int, tolerance: nat): Clock
    requires tolerance > 0
  {
    var (offset, offsetTime) := OffsetTime(c.start, now, tolerance);
    Clock((c.offset + offset) % TWO32, if offset > 0 then WholeSecond(now - offsetTime) else c.start)
  }

  /** Before the tolerance has passed nothing changes, so polling early is harmless. */
  lemma EarlyTick(c: Clock, now: int, tolerance: nat)
    requires tolerance > 0 && c.start <= now < c.start + tolerance && now < c.start + TWO63
    ensures Tick(c, now, tolerance) == c
  {
    DivUnique(now - c.start, tolerance, 0, now - c.start);
  }

  /** What TryChangeView does to the clock while the consensus is running: nothing up
      to and including the moment when the tolerance has passed. */
  function Poll(c: Clock, now: int, tolerance: nat): Clock
    requires tolerance > 0
  {
    if now > c.start + tolerance then Tick(c, now, tolerance) else c
  }

  function Polls(c: Clock, times: seq<int>, tolerance: nat): Clock
    requires tolerance > 0
  {
    if times == [] then c else Poll(Polls(c, times[..|times| - 1], tolerance), times[|times| - 1], tolerance)
  }

  /** Polling times that do not go back, none before `from`, and within the range of a
      duration after `start`. */
  ghost predicate Schedule(from: int, start: int, times: seq<int>) {
    && (forall i :: 0 <= i < |times| ==> from <= times[i] < start + TWO63)
    && (forall i, j :: 0 <= i < j < |times| ==> times[i] <= times[j])
  }

  ghost predicate EndsAt(from: int, start: int, times: seq<int>, now: int) {
    Schedule(from, start, times) && times != [] && times[|times| - 1] == now
  }

  /** At `now` every schedule has led to the view number that belongs to it, the whole
      tolerances since the start. */
  ghost predicate OnTime(start: int, tolerance: nat, now: int)
    requires tolerance > 0
  {
    forall times :: EndsAt(start, start, times, now) ==>
      Polls(Clock(0, start), times, tolerance).offset == (now - start) / tolerance % TWO32
  }

  /** Schedules are on time everywhere but at the very end of a view. */
  ghost predicate Punctual(start: int, tolerance: nat)
    requires tolerance > 0
  {
    forall now :: start <= now < start + TWO63 && (now - start) % tolerance != 0 ==> OnTime(start, tolerance, now)
  }

  /** The clock stands at a multiple of the tolerance that agrees with the view
      number, not later than `now`. */
  ghost predicate InTime(start: int, c: Clock, now: int, tolerance: nat, k: nat)
    requires tolerance > 0
  {
    c.start == start + k * tolerance <= now && c.offset == k % TWO32
  }

  lemma AddMod(k: nat, q: nat)
    ensures (k % TWO32 + q % TWO32) % TWO32 == (k + q) % TWO32
  {
  }

  lemma DivShift(k: nat, d: nat, t: nat)
    requires t > 0
    ensures (k * t + d) / t == k + d / t
    ensures (k + d / t) * t == k * t + (d / t) * t
  {
    var q, r := d / t, d % t;
    assert d == q * t + r;
    assert k * t + d == (k + q) * t + r;
    DivUnique(k * t + d, t, k + q, r);
  }

  lemma DivUnique(x: nat, t: nat, q: nat, r: nat)
    requires t > 0 && x == q * t + r && r < t
    ensures x / t == q
  {
    var p := x / t;
    assert x == p * t + x % t;
    Scaled(p, q, t);
    Scaled(q, p, t);
  }

  lemma {:induction false} Scaled(p: nat, q: nat, t: nat)
    ensures p < q ==> p * t + t <= q * t
    decreases q
  {
    if p + 1 < q {
      Scaled(p, q - 1, t);
      assert q * t == (q - 1) * t + t;
    } else if p + 1 == q {
      assert q * t == p * t + t;
    }
  }

  lemma WholeMultiple(a: int, k: nat, m: nat)
    ensures WholeSecond(a * SECOND + k * (m * SECOND)) == a * SECOND + k * (m * SECOND)
  {
    assert a * SECOND + k * (m * SECOND) == (a + k * m) * SECOND;
    assert (a + k * m) * SECOND % SECOND == 0;
  }

  lemma TickValue(c: Clock, now: int, t: nat, d: nat, q: nat)
    requires t > 0 && d == now - c.start && d < TWO63 && q == d / t
    ensures q * t <= d
    ensures Tick(c, now, t)
      == Clock((c.offset + q % TWO32) % TWO32, if q % TWO32 > 0 then WholeSecond(c.start + q * t) else c.start)
  {
    assert d == q * t + d % t;
  }

  /** One tick keeps time if start and tolerance are whole seconds. */
  lemma TickInTime(a: int, m: nat, c: Clock, last: int, now: int, k: nat) returns (k': nat)
    requires m > 0
    requires InTime(a * SECOND, c, last, m * SECOND, k) && last <= now < a * SECOND + TWO63
    ensures InTime(a * SECOND, Tick(c, now, m * SECOND), now, m * SECOND, k')
    ensures Tick(c, now, m * SECOND).offset == (now - a * SECOND) / (m * SECOND) % TWO32
  {
    hide Tick;
    var start, t := a * SECOND, m * SECOND;
    var d := now - c.start;
    var q := d / t;
    DivShift(k, d, t);
    AddMod(k, q);
    TickValue(c, now, t, d, q);
    if q % TWO32 > 0 {
      WholeMultiple(a, k + q, m);
      k' := k + q;
    } else {
      k' := k;
    }
  }

  /** One poll keeps time too, and leads to the view number of the moment unless it
      comes exactly when the view ends. */
  lemma PollInTime(a: int, m: nat, c: Clock, last: int, now: int, k: nat) returns (k': nat)
    requires m > 0
    requires InTime(a * SECOND, c, last, m * SECOND, k) && last <= now < a * SECOND + TWO63
    ensures InTime(a * SECOND, Poll(c, now, m * SECOND), now, m * SECOND, k')
    ensures Poll(c, now, m * SECOND).offset == (now - a * SECOND) / (m * SECOND) % TWO32 <==>
      now != c.start + m * SECOND
    ensures now == c.start + m * SECOND ==> (now - a * SECOND) % (m * SECOND) == 0
  {
    hide Tick;
    var t := m * SECOND;
    if now > c.start + t {
      k' := TickInTime(a, m, c, last, now, k);
    } else {
      k' := k;
      StillIn(now - a * SECOND, k, now - c.start, t);
    }
  }

  lemma StillIn(x: nat, k: nat, d: nat, t: nat)
    requires t > 0 && x == k * t + d && d <= t
    ensures x / t % TWO32 == k % TWO32 <==> d != t
    ensures d == t ==> x % t == 0
  {
    if d == t {
      assert x == (k + 1) * t;
      DivUnique(x, t, k + 1, 0);
      NoRemainder(x, t, k + 1);
    } else {
      DivUnique(x, t, k, d);
    }
  }

  lemma NoRemainder(x: nat, t: nat, q: nat)
    requires t > 0 && x / t == q && x == q * t
    ensures x % t == 0
  {
  }

  /** The last poll, or the start if that is later. */
  function Later(start: int, times: seq<int>): int {
    if times == [] || times[|times| - 1] < start then start else times[|times| - 1]
  }

  lemma {:induction false} PollsInTime(a: int, m: nat, from: int, times: seq<int>) returns (k: nat)
    requires m > 0 && Schedule(from, a * SECOND, times)
    ensures
      InTime(a * SECOND, Polls(Clock(0, a * SECOND), times, m * SECOND), Later(a * SECOND, times), m * SECOND, k)
    ensures times != [] && times[|times| - 1] >= a * SECOND && (times[|times| - 1] - a * SECOND) % (m * SECOND) != 0 ==>
      Polls(Clock(0, a * SECOND), times, m * SECOND).offset == (times[|times| - 1] - a * SECOND) / (m * SECOND) % TWO32
    decreases |times|
  {
    hide Poll;
    if times == [] {
      k := 0;
    } else if times[|times| - 1] < a * SECOND {
      FirstView(Clock(0, a * SECOND), times, m * SECOND);
      k := 0;
    } else {
      var front := times[..|times| - 1];
      k := PollsInTime(a, m, from, front);
      var last := Later(a * SECOND, front);
      k := PollInTime(a, m, Polls(Clock(0, a * SECOND), front, m * SECOND), last, times[|times| - 1], k);
    }
  }

  /** Nothing happens before the first view has ended. */
  lemma {:induction false} FirstView(c: Clock, times: seq<int>, tolerance: nat)
    requires tolerance > 0 && forall i :: 0 <= i < |times| ==> times[i] <= c.start + tolerance
    ensures Polls(c, times, tolerance) == c
    decreases |times|
  {
    if times != [] {
      FirstView(c, times[..|times| - 1], tolerance);
    }
  }

  lemma TwoPolls(c: Clock, t1: int, t2: int, tolerance: nat)
    requires tolerance > 0
    ensures Polls(c, [t1, t2], tolerance) == Poll(Poll(c, t1, tolerance), t2, tolerance)
  {
    hide Poll;
    assert [t1, t2][..1] == [t1] && [t1][..0] == [];
    assert Polls(c, [t1], tolerance) == Poll(Polls(c, [], tolerance), t1, tolerance);
  }

  lemma ThreePolls(c: Clock, t1: int, t2: int, t3: int, tolerance: nat)
    requires tolerance > 0
    ensures Polls(c, [t1, t2, t3], tolerance) == Poll(Poll(Poll(c, t1, tolerance), t2, tolerance), t3, tolerance)
  {
    hide Poll;
    assert [t1, t2, t3][..2] == [t1, t2];
    TwoPolls(c, t1, t2, tolerance);
  }

  /** A poll `e` nanoseconds into the `q`-th view after the present one. */
  lemma PollInto(a: int, m: nat, k: nat, q: nat, e: nat)
    requires m > 0 && q > 0 && q % TWO32 != 0 && 0 < e < m * SECOND && q * (m * SECOND) + e < TWO63
    ensures
      var start := a * SECOND + k * (m * SECOND);
      Poll(Clock(k % TWO32, start), start + q * (m * SECOND) + e, m * SECOND)
      == Clock((k + q) % TWO32, a * SECOND + (k + q) * (m * SECOND))
  {
    var t := m * SECOND;
    var start := a * SECOND + k * t;
    hide Tick;
    Scaled(0, q, t);
    DivUnique(q * t + e, t, q, e);
    TickValue(Clock(k % TWO32, start), start + q * t + e, t, q * t + e, q);
    AddMod(k, q);
    assert (k + q) * t == k * t + q * t;
    WholeMultiple(a, k + q, m);
  }

  /** The later of two moments. */
  function Last(x: int, y: int): int { if x >= y then x else y }

  /** A schedule whose last poll comes exactly at the end of view `j - 1`, the clock
      having been set to the start of that view: it is still there. */
  lemma LateSchedule(a: int, m: nat, from: int, j: nat) returns (times: seq<int>)
    requires m > 0 && j > 0 && j * (m * SECOND) < TWO63
    requires from < a * SECOND + j * (m * SECOND) && from < a * SECOND + TWO32 * SECOND
    ensures EndsAt(from, a * SECOND, times, a * SECOND + j * (m * SECOND))
    ensures Polls(Clock(0, a * SECOND), times, m * SECOND).offset == (j - 1) % TWO32
  {
    var start, t := a * SECOND, m * SECOND;
    var now := start + j * t;
    hide Polls, Tick;
    if j == 1 {
      times := [now];
      FirstView(Clock(0, start), times, t);
    } else if (j - 1) % TWO32 != 0 {
      times := LateByTwo(a, m, from, j);
    } else {
      times := LateByThree(a, m, from, j);
    }
  }

  lemma LateByTwo(a: int, m: nat, from: int, j: nat) returns (times: seq<int>)
    requires m > 0 && j > 1 && j * (m * SECOND) < TWO63 && (j - 1) % TWO32 != 0
    requires from < a * SECOND + j * (m * SECOND)
    ensures EndsAt(from, a * SECOND, times, a * SECOND + j * (m * SECOND))
    ensures Polls(Clock(0, a * SECOND), times, m * SECOND).offset == (j - 1) % TWO32
  {
    var start, t := a * SECOND, m * SECOND;
    var now := start + j * t;
    hide Polls, Tick;
    assert j * t == (j - 1) * t + t;
    var p := Last(from, start + (j - 1) * t + 1);
    times := [p, now];
    TwoPolls(Clock(0, start), p, now, t);
    PollInto(a, m, 0, j - 1, p - (start + (j - 1) * t));
  }

  lemma LateByThree(a: int, m: nat, from: int, j: nat) returns (times: seq<int>)
    requires m > 0 && j > 1 && j * (m * SECOND) < TWO63 && (j - 1) % TWO32 == 0
    requires from < a * SECOND + TWO32 * SECOND
    ensures EndsAt(from, a * SECOND, times, a * SECOND + j * (m * SECOND))
    ensures Polls(Clock(0, a * SECOND), times, m * SECOND).offset == (j - 1) % TWO32
  {
    var start, t := a * SECOND, m * SECOND;
    var now := start + j * t;
    hide Polls, Tick;
    assert j * t == (j - 1) * t + t && (j - 1) * t == (j - 2) * t + t;
    ManyViews(m, j - 1);
    var p := Last(from, start + (j - 2) * t + 1);
    times := [p, start + (j - 1) * t + 1, now];
    ThreePolls(Clock(0, start), p, times[1], now, t);
    PollInto(a, m, 0, j - 2, p - (start + (j - 2) * t));
    PollInto(a, m, j - 2, 1, 1);
  }

  lemma ManyViews(m: nat, k: nat)
    requires m > 0 && k > 0 && k % TWO32 == 0
    ensures k * (m * SECOND) >= TWO32 * SECOND
  {
    AtLeast(k, m);
    assert k * (m * SECOND) == (k * m) * SECOND;
    assert k >= TWO32;
  }

  /** A node that only polls once, after the first view, is on time. */
  lemma SinglePoll(a: int, m: nat, now: int)
    requires m > 0 && a * SECOND + m * SECOND < now < a * SECOND + TWO63
    ensures Polls(Clock(0, a * SECOND), [now], m * SECOND) == Tick(Clock(0, a * SECOND), now, m * SECOND)
    ensures Polls(Clock(0, a * SECOND), [now], m * SECOND).offset == (now - a * SECOND) / (m * SECOND) % TWO32
  {
    hide Tick;
    assert [now][..0] == [];
    assert Polls(Clock(0, a * SECOND), [now], m * SECOND)
      == Poll(Polls(Clock(0, a * SECOND), [], m * SECOND), now, m * SECOND);
    var k := PollInTime(a, m, Clock(0, a * SECOND), a * SECOND, now, 0);
  }

  lemma OffBoundary(a: int, m: nat, now: int)
    requires m > 0 && a * SECOND <= now && (now - a * SECOND) % (m * SECOND) != 0
    ensures OnTime(a * SECOND, m * SECOND, now)
  {
    hide Polls;
    forall times | EndsAt(a * SECOND, a * SECOND, times, now)
      ensures Polls(Clock(0, a * SECOND), times, m * SECOND).offset == (now - a * SECOND) / (m * SECOND) % TWO32
    {
      var k := PollsInTime(a, m, a * SECOND, times);
    }
  }

  lemma ApartByOne(j: nat)
    requires j > 0
    ensures (j - 1) % TWO32 != j % TWO32
  {
  }

  /** At a given moment every schedule has led to the view number that belongs to it,
      if and only if the moment is not exactly the end of a view. */
  lemma OnTimeIff(a: int, m: nat, now: int)
    requires m > 0 && a * SECOND <= now < a * SECOND + TWO63
    ensures OnTime(a * SECOND, m * SECOND, now) <==> now == a * SECOND || (now - a * SECOND) % (m * SECOND) != 0
  {
    var start, t := a * SECOND, m * SECOND;
    if (now - start) % t != 0 {
      OffBoundary(a, m, now);
    } else if now == start {
      forall times | EndsAt(start, start, times, now) ensures Polls(Clock(0, start), times, t) == Clock(0, start) {
        FirstView(Clock(0, start), times, t);
      }
    } else {
      var j := (now - start) / t;
      WholeViews(now - start, t, j);
      assert start < now;
      var times := LateSchedule(a, m, start, j);
      ApartByOne(j);
    }
  }

  lemma WholeViews(x: nat, t: nat, j: nat)
    requires t > 0 && x > 0 && x % t == 0 && j == x / t
    ensures x == j * t && j > 0
  {
  }

  /* ---------- agreement ---------- */

  /** A node whose clock was started at a whole second, with the view number it had by
      then, and which polls from then on. */
  datatype Restarted = Restarted(offset: Uint32, second: int, from: int)

  ghost predicate Follows(r: Restarted, times: seq<int>, now: int) {
    EndsAt(r.from, r.second * SECOND, times, now)
  }

  function After(r: Restarted, times: seq<int>, tolerance: nat): Uint32
    requires tolerance > 0
  {
    Polls(Clock(r.offset, r.second * SECOND), times, tolerance).offset
  }

  /** At `now` two nodes have the same view number, whatever the schedule of either. */
  ghost predicate Agreed(x: Restarted, y: Restarted, tolerance: nat, now: int)
    requires tolerance > 0
  {
    forall times, times' :: Follows(x, times, now) && Follows(y, times', now) ==>
      After(x, times, tolerance) == After(y, times', tolerance)
  }

  /** `now` is not exactly the end of a view after the first, unless it is the very moment
      at which the node starts polling. */
  predicate Steady(r: Restarted, tolerance: nat, now: int)
    requires tolerance > 0
  {
    now <= r.second * SECOND + tolerance || (now - r.second * SECOND) % tolerance != 0 || now == r.from
  }

  /** The view number the node then has. */
  function ViewAt(r: Restarted, tolerance: nat, now: int): Uint32
    requires tolerance > 0
  {
    (r.offset + ViewsSince(r.second * SECOND, tolerance, now)) % TWO32
  }

  /** A node restarted within 2^32 seconds of the second its clock was set to, looking at
      the clock within the range of a duration. */
  predicate Sensible(r: Restarted, now: int) {
    r.from <= now < r.second * SECOND + TWO63 && r.from < r.second * SECOND + TWO32 * SECOND
  }

  /** A clock that does not start at view zero runs like one that does. */
  lemma {:induction false} OffsetShift(o: Uint32, start: int, times: seq<int>, tolerance: nat)
    requires tolerance > 0
    ensures
      var c := Polls(Clock(0, start), times, tolerance);
      Polls(Clock(o, start), times, tolerance) == Clock((o + c.offset) % TWO32, c.start)
    decreases |times|
  {
    if times != [] {
      var front := times[..|times| - 1];
      OffsetShift(o, start, front, tolerance);
      PollShift(o, Polls(Clock(0, start), front, tolerance), times[|times| - 1], tolerance);
    }
  }

  lemma PollShift(o: Uint32, c: Clock, now: int, tolerance: nat)
    requires tolerance > 0
    ensures
      Poll(Clock((o + c.offset) % TWO32, c.start), now, tolerance)
      == Clock((o + Poll(c, now, tolerance).offset) % TWO32, Poll(c, now, tolerance).start)
  {
    var q := OffsetTime(c.start, now, tolerance).0;
    hide OffsetTime;
    ShiftMod(o, c.offset, q);
  }

  lemma ShiftMod(o: nat, x: nat, q: nat)
    ensures ((o + x) % TWO32 + q) % TWO32 == (o + (x + q) % TWO32) % TWO32
  {
  }

  /** Polling again at the same moment changes nothing. */
  lemma {:induction false} SameMoment(a: int, m: nat, now: int, times: seq<int>)
    requires m > 0 && a * SECOND + m * SECOND < now < a * SECOND + TWO63
    requires times != [] && forall i :: 0 <= i < |times| ==> times[i] == now
    ensures Polls(Clock(0, a * SECOND), times, m * SECOND) == Tick(Clock(0, a * SECOND), now, m * SECOND)
    decreases |times|
  {
    hide Tick;
    if |times| == 1 {
      assert times == [now];
      SinglePoll(a, m, now);
    } else {
      SameMoment(a, m, now, times[..|times| - 1]);
      TickOnce(a, m, now);
    }
  }

  lemma TickOnce(a: int, m: nat, now: int)
    requires m > 0 && a * SECOND + m * SECOND < now < a * SECOND + TWO63
    ensures
      var c := Tick(Clock(0, a * SECOND), now, m * SECOND);
      Poll(c, now, m * SECOND) == c
  {
    var start, t := a * SECOND, m * SECOND;
    var q := (now - start) / t;
    hide Tick;
    TickValue(Clock(0, start), now, t, now - start, q);
    WholeMultiple(a, q, m);
    assert now - start < q * t + t;
  }

  /** The whole views elapsed, the first of which ends late. */
  function ViewsSince(start: int, tolerance: nat, now: int): nat
    requires tolerance > 0
  {
    if now <= start + tolerance then 0 else (now - start) / tolerance
  }

  lemma SteadyFromZero(a: int, m: nat, from: int, now: int, times: seq<int>)
    requires m > 0 && EndsAt(from, a * SECOND, times, now)
    requires now <= a * SECOND + m * SECOND || (now - a * SECOND) % (m * SECOND) != 0 || now == from
    ensures
      Polls(Clock(0, a * SECOND), times, m * SECOND).offset == ViewsSince(a * SECOND, m * SECOND, now) % TWO32
  {
    hide Polls, Tick;
    if now <= a * SECOND + m * SECOND {
      FirstView(Clock(0, a * SECOND), times, m * SECOND);
    } else if now == from {
      SameMoment(a, m, now, times);
      SinglePoll(a, m, now);
    } else {
      var k := PollsInTime(a, m, from, times);
    }
  }

  /** At a steady moment every schedule leads to the same view number. */
  lemma SteadyView(r: Restarted, m: nat, now: int, times: seq<int>)
    requires m > 0 && Sensible(r, now) && Steady(r, m * SECOND, now) && Follows(r, times, now)
    ensures After(r, times, m * SECOND) == ViewAt(r, m * SECOND, now)
  {
    hide Polls, ViewsSince;
    OffsetShift(r.offset, r.second * SECOND, times, m * SECOND);
    SteadyFromZero(r.second, m, r.from, now, times);
    AddModLeft(r.offset, ViewsSince(r.second * SECOND, m * SECOND, now));
  }

  lemma AddModLeft(o: nat, x: nat)
    ensures (o + x % TWO32) % TWO32 == (o + x) % TWO32
  {
  }

  /** Otherwise there are two view numbers that schedules can lead to. */
  lemma Unsteady(r: Restarted, m: nat, now: int) returns (late: seq<int>)
    requires m > 0 && Sensible(r, now) && !Steady(r, m * SECOND, now)
    ensures Follows(r, late, now) && Follows(r, [now], now)
    ensures After(r, late, m * SECOND) != After(r, [now], m * SECOND)
  {
    var start, t := r.second * SECOND, m * SECOND;
    hide Polls, Tick;
    var j := (now - start) / t;
    WholeViews(now - start, t, j);
    late := LateSchedule(r.second, m, r.from, j);
    SinglePoll(r.second, m, now);
    OffsetShift(r.offset, start, late, t);
    OffsetShift(r.offset, start, [now], t);
    ApartByOne(j);
    StillApart(r.offset, (j - 1) % TWO32, j % TWO32);
  }

  lemma StillApart(o: Uint32, x: Uint32, y: Uint32)
    requires x != y
    ensures (o + x) % TWO32 != (o + y) % TWO32
  {
  }

  /** At a given moment two nodes have the same view number, whatever their schedules, if
      and only if the moment is steady for both and they are then due in the same view. */
  lemma AgreedIff(x: Restarted, y: Restarted, m: nat, now: int)
    requires m > 0 && Sensible(x, now) && Sensible(y, now)
    ensures Agreed(x, y, m * SECOND, now) <==>
      && Steady(x, m * SECOND, now) && Steady(y, m * SECOND, now)
      && ViewAt(x, m * SECOND, now) == ViewAt(y, m * SECOND, now)
  {
    hide After, ViewAt, Steady;
    assert Follows(x, [now], now) && Follows(y, [now], now);
    if !Steady(x, m * SECOND, now) {
      var late := Unsteady(x, m, now);
    } else if !Steady(y, m * SECOND, now) {
      var late := Unsteady(y, m, now);
    } else {
      hide Follows;
      forall times | Follows(x, times, now) ensures After(x, times, m * SECOND) == ViewAt(x, m * SECOND, now) {
        SteadyView(x, m, now, times);
      }
      forall times | Follows(y, times, now) ensures After(y, times, m * SECOND) == ViewAt(y, m * SECOND, now) {
        SteadyView(y, m, now, times);
      }
    }
  }

  /** Two nodes with a tolerance of five seconds that look at the clock at ten seconds;
      one had looked before. */
  lemma LatePollDisagrees()
    ensures Polls(Clock(0, 0), [5 * SECOND + 1, 10 * SECOND], 5 * SECOND).offset == 1
    ensures Polls(Clock(0, 0), [10 * SECOND], 5 * SECOND).offset == 2
  {
    TwoPolls(Clock(0, 0), 5 * SECOND + 1, 10 * SECOND, 5 * SECOND);
    PollInto(0, 5, 0, 1, 1);
    SinglePoll(0, 5, 10 * SECOND);
  }

  /** A tolerance with a fraction of a second makes some schedule run ahead: the clock
      is set back to the whole second. */
  lemma FractionRunsAhead(a: int, tolerance: nat, k: nat)
    requires tolerance > 1 && 1 <= k <= 2 && k * tolerance % SECOND >= 2 && 3 * tolerance < TWO63
    ensures !Punctual(a * SECOND, tolerance)
  {
    var start := a * SECOND;
    var t1, t2, f := start + k * tolerance + 1, start + k * tolerance + tolerance - 1, k * tolerance % SECOND;
    var q := (tolerance + f - 1) / tolerance;
    hide Tick, Polls, Punctual;
    AheadPolls(a, tolerance, k, k * tolerance, f, q);
    Overshoot(f, tolerance);
    assert tolerance <= k * tolerance <= 2 * tolerance;
    DivUnique(k * tolerance + (tolerance - 1), tolerance, k, tolerance - 1);
    Remains(k * tolerance + (tolerance - 1), tolerance, k, tolerance - 1);
    Ahead(start, tolerance, t1, t2, k, q);
  }

  lemma AheadPolls(a: int, tolerance: nat, k: nat, whole: nat, f: nat, q: nat)
    requires tolerance > 1 && 1 <= k <= 2 && whole == k * tolerance && 3 * tolerance < TWO63
    requires f == whole % SECOND && f >= 2 && q == (tolerance + f - 1) / tolerance
    ensures
      Polls(Clock(0, a * SECOND), [a * SECOND + whole + 1, a * SECOND + whole + tolerance - 1], tolerance).offset
        == k + q
  {
    hide Tick, Polls;
    var start := a * SECOND;
    WholeStart(a, whole);
    FirstTick(start, tolerance, k);
    SecondTick(start + whole - f, tolerance, k, f);
    TwoPolls(Clock(0, start), start + whole + 1, start + whole + tolerance - 1, tolerance);
  }

  lemma Remains(x: nat, t: nat, q: nat, r: nat)
    requires t > 0 && x / t == q && x == q * t + r
    ensures x % t == r
  {
  }

  lemma WholeStart(a: int, x: nat)
    ensures WholeSecond(a * SECOND + x) == a * SECOND + x - x % SECOND
  {
    assert (a * SECOND + x) % SECOND == x % SECOND;
  }

  lemma Ahead(start: int, tolerance: nat, t1: int, t2: int, k: nat, q: nat)
    requires tolerance > 0 && start <= t1 <= t2 < start + TWO63 && k <= 2 && 1 <= q < SECOND
    requires Polls(Clock(0, start), [t1, t2], tolerance).offset == k + q
    requires (t2 - start) / tolerance == k && (t2 - start) % tolerance != 0
    ensures !Punctual(start, tolerance)
  {
    hide Polls;
    assert EndsAt(start, start, [t1, t2], t2);
    assert !OnTime(start, tolerance, t2);
  }

  lemma FirstTick(start: int, tolerance: nat, k: nat)
    requires tolerance > 1 && 1 <= k <= 2 && 3 * tolerance < TWO63
    ensures Tick(Clock(0, start), start + k * tolerance + 1, tolerance) == Clock(k, WholeSecond(start + k * tolerance))
  {
    hide Tick;
    DivUnique(k * tolerance + 1, tolerance, k, 1);
    TickValue(Clock(0, start), start + k * tolerance + 1, tolerance, k * tolerance + 1, k);
  }

  lemma SecondTick(start: int, tolerance: nat, k: nat, f: nat)
    requires tolerance > 0 && 1 <= k <= 2 && 3 * tolerance < TWO63 && 0 < f < SECOND
    ensures Tick(Clock(k, start), start + f + tolerance - 1, tolerance).offset == k + (tolerance + f - 1) / tolerance
  {
    Overshoot(f, tolerance);
  }

  lemma Overshoot(f: nat, t: nat)
    requires 0 < f < SECOND && t > 0
    ensures 1 <= (t + f - 1) / t < SECOND
  {
    DivShift(1, f - 1, t);
    AtMost(f - 1, t);
  }

  lemma AtMost(x: nat, t: nat)
    requires t > 0
    ensures x / t <= x
  {
    var q := x / t;
    assert x == q * t + x % t;
    AtLeast(q, t);
  }

  lemma {:induction false} AtLeast(q: nat, t: nat)
    requires t > 0
    ensures q <= q * t
    decreases q
  {
    if q > 0 {
      AtLeast(q - 1, t);
      assert q * t == (q - 1) * t + t;
    }
  }

  /** Starting from a block time, which is a whole second, every schedule is on time but
      at the very end of a view, if and only if the tolerance is whole seconds. (A
      tolerance of one nanosecond has no other moments.) */
  lemma PunctualIff(a: int, tolerance: nat)
    requires 0 < tolerance && 3 * tolerance < TWO63
    ensures Punctual(a * 1_000_000_000, tolerance) <==> tolerance % 1_000_000_000 == 0 || tolerance == 1
  {
    hide Punctual;
    if tolerance % SECOND == 0 {
      WholePunctual(a, tolerance / SECOND);
    } else if tolerance == 1 {
      assert Punctual(a * SECOND, 1) by { NoMoments(a * SECOND); }
    } else if tolerance % SECOND >= 2 {
      FractionRunsAhead(a, tolerance, 1);
    } else {
      FractionRunsAhead(a, tolerance, 2);
    }
  }

  lemma NoMoments(start: int)
    ensures Punctual(start, 1)
  {
  }

  lemma WholePunctual(a: int, m: nat)
    requires m > 0
    ensures Punctual(a * SECOND, m * SECOND)
  {
    hide OnTime;
    forall now | a * SECOND <= now < a * SECOND + TWO63 && (now - a * SECOND) % (m * SECOND) != 0
      ensures OnTime(a * SECOND, m * SECOND, now)
    {
      OffBoundary(a, m, now);
    }
  }
}
