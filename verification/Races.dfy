/**
 What survives when requests overlap.  The verification and reset services read a row or a count, decide, and write
 later, without a lock.  These machines split the read from the write and let up to `k` requests be in between.  For
 each limit: the bound that holds in every run, a run that meets it, and when the sequential limit survives.
 */
module Races {
  import Verification
  import ResetTokens

  // ---- Count, then insert ----

  /** Creation times of the rows of one key, and the requests that have passed the count and not yet inserted. */
  datatype Gate = Gate(now: int, rows: seq<int>, inFlight: nat)

  datatype GateEvent = Tick(to: int) | Check | Insert | Drop(row: nat)

  function CountIn(rows: seq<int>, a: int, b: int): nat {
    if rows == [] then 0
    else
      var last := rows[|rows| - 1];
      CountIn(rows[..|rows| - 1], a, b) + if a <= last <= b then 1 else 0
  }

  /** The count looks back to `since(now)`; rows are never dated ahead. */
  ghost predicate MayHappen(m: Gate, e: GateEvent, since: int -> int, limit: nat, k: nat) {
    match e
    case Tick(to) => m.now <= to
    case Check => CountIn(m.rows, since(m.now), m.now) < limit && m.inFlight < k
    case Insert => m.inFlight > 0
    case Drop(row) => row < |m.rows|
  }

  function After(m: Gate, e: GateEvent): Gate
    requires e.Insert? ==> m.inFlight > 0
    requires e.Drop? ==> e.row < |m.rows|
  {
    match e
    case Tick(to) => m.(now := to)
    case Check => m.(inFlight := m.inFlight + 1)
    case Insert => m.(rows := m.rows + [m.now], inFlight := m.inFlight - 1)
    case Drop(row) => m.(rows := m.rows[..row] + m.rows[row + 1..])
  }

  ghost predicate MayRun(m: Gate, events: seq<GateEvent>, since: int -> int, limit: nat, k: nat)
    decreases |events|
  {
    events == [] || (MayHappen(m, events[0], since, limit, k)
        && MayRun(After(m, events[0]), events[1..], since, limit, k))
  }

  ghost function RunAll(m: Gate, events: seq<GateEvent>, since: int -> int, limit: nat, k: nat): Gate
    requires MayRun(m, events, since, limit, k)
    decreases |events|
  {
    if events == [] then m else RunAll(After(m, events[0]), events[1..], since, limit, k)
  }

  ghost predicate Reaches(m: Gate, events: seq<GateEvent>, n: Gate, since: int -> int, limit: nat, k: nat) {
    MayRun(m, events, since, limit, k) && RunAll(m, events, since, limit, k) == n
  }

  lemma {:induction false} Chained(m: Gate, a: seq<GateEvent>, n: Gate, b: seq<GateEvent>, o: Gate, since: int -> int,
      limit: nat, k: nat)
    requires Reaches(m, a, n, since, limit, k) && Reaches(n, b, o, since, limit, k)
    ensures Reaches(m, a + b, o, since, limit, k)
    decreases |a|
  {
    if a == [] {
      assert a + b == b;
    } else {
      assert (a + b)[0] == a[0] && (a + b)[1..] == a[1..] + b;
      Chained(After(m, a[0]), a[1..], n, b, o, since, limit, k);
    }
  }

  lemma OneStep(m: Gate, e: GateEvent, since: int -> int, limit: nat, k: nat)
    requires MayHappen(m, e, since, limit, k)
    ensures Reaches(m, [e], After(m, e), since, limit, k)
  {
    assert [e][1..] == [];
    assert MayRun(After(m, e), [], since, limit, k);
  }

  lemma CheckThenInsert(m: Gate, since: int -> int, limit: nat, k: nat)
    requires MayHappen(m, Check, since, limit, k)
    ensures Reaches(m, [Check] + [Insert], After(After(m, Check), Insert), since, limit, k)
  {
    OneStep(m, Check, since, limit, k);
    OneStep(After(m, Check), Insert, since, limit, k);
    Chained(m, [Check], After(m, Check), [Insert], After(After(m, Check), Insert), since, limit, k);
  }

  /** Every count made inside the window looks back at least to its start. */
  ghost predicate Guarded(since: int -> int, a: int, b: int) {
    forall t | a <= t <= b :: since(t) <= a
  }

  /** Rows of a window, with the requests that may still add to it. */
  function Claimed(m: Gate, a: int, b: int): nat {
    CountIn(m.rows, a, b) + if m.now <= b then m.inFlight else 0
  }

  ghost predicate Held(m: Gate, since: int -> int, limit: nat, k: nat) {
    && (forall t | t in m.rows :: t <= m.now)
    && m.inFlight <= k
    && (forall a, b | Guarded(since, a, b) :: Claimed(m, a, b) <= limit + k - 1)
  }

  lemma {:induction false} CountMonotone(rows: seq<int>, a: int, b: int, a': int, b': int)
    requires a' <= a && (b <= b' || forall t | t in rows :: t <= b')
    ensures CountIn(rows, a, b) <= CountIn(rows, a', b')
  {
    if rows != [] {
      var init := rows[..|rows| - 1];
      assert rows[|rows| - 1] in rows;
      assert forall t | t in init :: t in rows;
      CountMonotone(init, a, b, a', b');
    }
  }

  lemma {:induction false} CountAhead(rows: seq<int>, a: int, b: int)
    requires forall t | t in rows :: t < a
    ensures CountIn(rows, a, b) == 0
  {
    if rows != [] {
      var init := rows[..|rows| - 1];
      assert rows[|rows| - 1] in rows;
      assert forall t | t in init :: t in rows;
      CountAhead(init, a, b);
    }
  }

  lemma CountAppend(rows: seq<int>, t: int, a: int, b: int)
    ensures CountIn(rows + [t], a, b) == CountIn(rows, a, b) + if a <= t <= b then 1 else 0
  {
    assert (rows + [t])[..|rows|] == rows;
  }

  lemma {:induction false} CountJoin(x: seq<int>, y: seq<int>, a: int, b: int)
    ensures CountIn(x + y, a, b) == CountIn(x, a, b) + CountIn(y, a, b)
  {
    if y == [] {
      assert x + y == x;
    } else {
      assert (x + y)[..|x + y| - 1] == x + y[..|y| - 1];
      CountJoin(x, y[..|y| - 1], a, b);
    }
  }

  lemma CheckHolds(m: Gate, since: int -> int, limit: nat, k: nat, a: int, b: int)
    requires Held(m, since, limit, k) && MayHappen(m, Check, since, limit, k) && Guarded(since, a, b)
    ensures Claimed(After(m, Check), a, b) <= limit + k - 1
  {
    assert Claimed(m, a, b) <= limit + k - 1;
    if a <= m.now <= b {
      CountMonotone(m.rows, a, b, since(m.now), m.now);
    } else if m.now < a {
      CountAhead(m.rows, a, b);
    }
  }

  lemma DropHolds(m: Gate, since: int -> int, limit: nat, k: nat, row: nat, a: int, b: int)
    requires Held(m, since, limit, k) && row < |m.rows| && Guarded(since, a, b)
    ensures Claimed(After(m, Drop(row)), a, b) <= limit + k - 1
  {
    assert Claimed(m, a, b) <= limit + k - 1;
    assert m.rows == m.rows[..row] + [m.rows[row]] + m.rows[row + 1..];
    CountJoin(m.rows[..row] + [m.rows[row]], m.rows[row + 1..], a, b);
    CountAppend(m.rows[..row], m.rows[row], a, b);
    CountJoin(m.rows[..row], m.rows[row + 1..], a, b);
  }

  lemma StepHolds(m: Gate, e: GateEvent, since: int -> int, limit: nat, k: nat)
    requires Held(m, since, limit, k) && MayHappen(m, e, since, limit, k)
    ensures Held(After(m, e), since, limit, k)
  {
    var n := After(m, e);
    forall t | t in n.rows ensures t <= n.now {
      assert t in m.rows || t == m.now;
    }
    forall a, b | Guarded(since, a, b) ensures Claimed(n, a, b) <= limit + k - 1 {
      assert Claimed(m, a, b) <= limit + k - 1;
      match e {
        case Check => CheckHolds(m, since, limit, k, a, b);
        case Insert => CountAppend(m.rows, m.now, a, b);
        case Drop(row) => DropHolds(m, since, limit, k, row, a, b);
        case Tick(to) =>
      }
    }
  }

  /**
   Count, then insert: over every run in which at most k requests are between their count and their insert, every window
   the counts look back over holds at most the limit plus the k - 1 requests that can slip past it.
   */
  lemma {:induction false} WindowsBounded(m: Gate, events: seq<GateEvent>, since: int -> int, limit: nat, k: nat)
    requires Held(m, since, limit, k) && MayRun(m, events, since, limit, k)
    ensures Held(RunAll(m, events, since, limit, k), since, limit, k)
    decreases |events|
  {
    if events != [] {
      StepHolds(m, events[0], since, limit, k);
      WindowsBounded(After(m, events[0]), events[1..], since, limit, k);
    }
  }

  lemma EmptyHeld(now: int, since: int -> int, limit: nat, k: nat)
    requires limit + k >= 1
    ensures Held(Gate(now, [], 0), since, limit, k)
  {
  }

  // ---- A run that meets the bound ----

  function Copies(n: nat, t: int): seq<int> {
    seq(n, _ => t)
  }

  function Repeat(n: nat, e: GateEvent): seq<GateEvent> {
    seq(n, _ => e)
  }

  lemma {:induction false} CountCopies(n: nat, t: int, a: int, b: int)
    ensures CountIn(Copies(n, t), a, b) == if a <= t <= b then n else 0
  {
    if n > 0 {
      assert Copies(n, t)[..n - 1] == Copies(n - 1, t);
      CountCopies(n - 1, t, a, b);
    }
  }

  lemma CountWithCopies(rows: seq<int>, n: nat, t: int, a: int, b: int)
    ensures CountIn(rows + Copies(n, t), a, b) == CountIn(rows, a, b) + if a <= t <= b then n else 0
  {
    CountJoin(rows, Copies(n, t), a, b);
    CountCopies(n, t, a, b);
  }

  /** Requests one after the other. */
  function OneByOne(n: nat): seq<GateEvent> {
    if n == 0 then [] else OneByOne(n - 1) + ([Check] + [Insert])
  }

  lemma {:induction false} OneByOneReaches(m: Gate, n: nat, since: int -> int, limit: nat, k: nat)
    requires m.inFlight == 0 && k >= 1 && since(m.now) <= m.now
    requires CountIn(m.rows, since(m.now), m.now) + n <= limit
    ensures Reaches(m, OneByOne(n), m.(rows := m.rows + Copies(n, m.now)), since, limit, k)
  {
    if n == 0 {
      assert m.rows + Copies(0, m.now) == m.rows;
    } else {
      OneByOneReaches(m, n - 1, since, limit, k);
      var o := m.(rows := m.rows + Copies(n - 1, m.now));
      CountWithCopies(m.rows, n - 1, m.now, since(m.now), m.now);
      var last := After(After(o, Check), Insert);
      assert last.rows == m.rows + Copies(n, m.now);
      CheckThenInsert(o, since, limit, k);
      Chained(m, OneByOne(n - 1), o, [Check] + [Insert], last, since, limit, k);
    }
  }

  lemma {:induction false} ChecksReach(m: Gate, n: nat, since: int -> int, limit: nat, k: nat)
    requires m.inFlight + n <= k && CountIn(m.rows, since(m.now), m.now) < limit
    ensures Reaches(m, Repeat(n, Check), m.(inFlight := m.inFlight + n), since, limit, k)
    decreases n
  {
    if n > 0 {
      assert Repeat(n, Check)[1..] == Repeat(n - 1, Check);
      ChecksReach(After(m, Check), n - 1, since, limit, k);
    }
  }

  lemma {:induction false} InsertsReach(m: Gate, n: nat, since: int -> int, limit: nat, k: nat)
    requires m.inFlight == n
    ensures Reaches(m, Repeat(n, Insert), Gate(m.now, m.rows + Copies(n, m.now), 0), since, limit, k)
    decreases n
  {
    if n == 0 {
      assert m.rows + Copies(0, m.now) == m.rows;
    } else {
      assert Repeat(n, Insert)[1..] == Repeat(n - 1, Insert);
      InsertsReach(After(m, Insert), n - 1, since, limit, k);
      assert m.rows + [m.now] + Copies(n - 1, m.now) == m.rows + Copies(n, m.now);
    }
  }

  /** All but one of `n` requests one after the other, then k that count before any of them inserts. */
  function Burst(n: nat, k: nat): seq<GateEvent>
    requires n >= 1
  {
    OneByOne(n - 1) + (Repeat(k, Check) + Repeat(k, Insert))
  }

  lemma {:induction false} BurstReaches(m: Gate, n: nat, since: int -> int, limit: nat, k: nat)
    requires m.inFlight == 0 && 1 <= n <= limit && k >= 1 && since(m.now) <= m.now
    requires CountIn(m.rows, since(m.now), m.now) + n <= limit
    ensures Reaches(m, Burst(n, k), m.(rows := m.rows + Copies(n + k - 1, m.now)), since, limit, k)
  {
    OneByOneReaches(m, n - 1, since, limit, k);
    var o := m.(rows := m.rows + Copies(n - 1, m.now));
    CountWithCopies(m.rows, n - 1, m.now, since(m.now), m.now);
    ChecksReach(o, k, since, limit, k);
    var waiting := o.(inFlight := k);
    InsertsReach(waiting, k, since, limit, k);
    var last := m.(rows := m.rows + Copies(n + k - 1, m.now));
    assert o.rows + Copies(k, m.now) == last.rows;
    Chained(o, Repeat(k, Check), waiting, Repeat(k, Insert), last, since, limit, k);
    Chained(m, OneByOne(n - 1), o, Repeat(k, Check) + Repeat(k, Insert), last, since, limit, k);
  }

  /** Nothing passes a limit of zero. */
  lemma {:induction false} NothingPasses(m: Gate, events: seq<GateEvent>, since: int -> int, k: nat)
    requires m.rows == [] && m.inFlight == 0 && MayRun(m, events, since, 0, k)
    ensures RunAll(m, events, since, 0, k).rows == []
    decreases |events|
  {
    if events != [] {
      NothingPasses(After(m, events[0]), events[1..], since, k);
    }
  }

  /** In every run a window holds at most the limit, if nothing overlaps or nothing is allowed. */
  lemma {:induction false} SequentialLimit(now: int, events: seq<GateEvent>, since: int -> int, limit: nat, k: nat,
      a: int, b: int)
    requires MayRun(Gate(now, [], 0), events, since, limit, k) && Guarded(since, a, b) && (k <= 1 || limit == 0)
    ensures CountIn(RunAll(Gate(now, [], 0), events, since, limit, k).rows, a, b) <= limit
  {
    if limit == 0 {
      NothingPasses(Gate(now, [], 0), events, since, k);
    } else {
      EmptyHeld(now, since, limit, k);
      WindowsBounded(Gate(now, [], 0), events, since, limit, k);
      assert Claimed(RunAll(Gate(now, [], 0), events, since, limit, k), a, b) <= limit;
    }
  }

  // ---- Verification codes ----

  function MinuteBack(): int -> int {
    t => t - Verification.MINUTE
  }

  function DayBack(cfg: Verification.Config): int -> int {
    t => Verification.TodayStart(cfg, t)
  }

  /** Codes of the closed minute from t. */
  function InMinute(rows: seq<int>, t: int): nat {
    CountIn(rows, t, t + Verification.MINUTE)
  }

  /** Codes of the calendar day of t. */
  function OnDay(cfg: Verification.Config, rows: seq<int>, t: int): nat {
    CountIn(rows, Verification.TodayStart(cfg, t), Verification.TodayStart(cfg, t) + Verification.DAY - 1)
  }

  lemma MinuteGuarded(t: int)
    ensures Guarded(MinuteBack(), t, t + Verification.MINUTE)
  {
  }

  lemma DayGuarded(cfg: Verification.Config, t: int)
    ensures var start := Verification.TodayStart(cfg, t);
            Guarded(DayBack(cfg), start, start + Verification.DAY - 1) && start <= t <= start + Verification.DAY - 1
  {
    var start := Verification.TodayStart(cfg, t);
    forall u | start <= u <= start + Verification.DAY - 1 ensures DayBack(cfg)(u) <= start {
      assert Verification.DayOf(cfg, u) == Verification.DayOf(cfg, t);
    }
  }

  /** Verification codes of an address in any closed minute, with overlapping sends. */
  lemma {:induction false} OverlappingSendsPerMinute(now: int, events: seq<GateEvent>, limit: nat, k: nat, t: int)
    requires k >= 1 && MayRun(Gate(now, [], 0), events, MinuteBack(), limit, k)
    ensures InMinute(RunAll(Gate(now, [], 0), events, MinuteBack(), limit, k).rows, t) <= limit + k - 1
  {
    EmptyHeld(now, MinuteBack(), limit, k);
    WindowsBounded(Gate(now, [], 0), events, MinuteBack(), limit, k);
    MinuteGuarded(t);
    assert Claimed(RunAll(Gate(now, [], 0), events, MinuteBack(), limit, k), t, t + Verification.MINUTE) <=
        limit + k - 1;
  }

  /** And on the calendar day of t. */
  lemma {:induction false} OverlappingSendsPerDay(cfg: Verification.Config, now: int, events: seq<GateEvent>,
      limit: nat, k: nat, t: int)
    requires k >= 1 && MayRun(Gate(now, [], 0), events, DayBack(cfg), limit, k)
    ensures OnDay(cfg, RunAll(Gate(now, [], 0), events, DayBack(cfg), limit, k).rows, t) <= limit + k - 1
  {
    var start := Verification.TodayStart(cfg, t);
    EmptyHeld(now, DayBack(cfg), limit, k);
    WindowsBounded(Gate(now, [], 0), events, DayBack(cfg), limit, k);
    DayGuarded(cfg, t);
    assert Claimed(RunAll(Gate(now, [], 0), events, DayBack(cfg), limit, k), start, start + Verification.DAY - 1) <=
        limit + k - 1;
  }

  /** Each bound, the limit taken alone, is met in a single millisecond. */
  lemma {:induction false} SendsAttained(cfg: Verification.Config, now: int, limit: nat, k: nat)
    requires limit >= 1 && k >= 1
    ensures MayRun(Gate(now, [], 0), Burst(limit, k), MinuteBack(), limit, k)
    ensures InMinute(RunAll(Gate(now, [], 0), Burst(limit, k), MinuteBack(), limit, k).rows, now) == limit + k - 1
    ensures MayRun(Gate(now, [], 0), Burst(limit, k), DayBack(cfg), limit, k)
    ensures OnDay(cfg, RunAll(Gate(now, [], 0), Burst(limit, k), DayBack(cfg), limit, k).rows, now) == limit + k - 1
  {
    DayGuarded(cfg, now);
    BurstReaches(Gate(now, [], 0), limit, MinuteBack(), limit, k);
    BurstReaches(Gate(now, [], 0), limit, DayBack(cfg), limit, k);
    var start := Verification.TodayStart(cfg, now);
    CountWithCopies([], limit + k - 1, now, now, now + Verification.MINUTE);
    CountWithCopies([], limit + k - 1, now, start, start + Verification.DAY - 1);
  }

  ghost predicate MinuteLimitHolds(now: int, limit: nat, k: nat) {
    forall events, t | MayRun(Gate(now, [], 0), events, MinuteBack(), limit, k) ::
      InMinute(RunAll(Gate(now, [], 0), events, MinuteBack(), limit, k).rows, t) <= limit
  }

  ghost predicate DayLimitHolds(cfg: Verification.Config, now: int, limit: nat, k: nat) {
    forall events, t | MayRun(Gate(now, [], 0), events, DayBack(cfg), limit, k) ::
      OnDay(cfg, RunAll(Gate(now, [], 0), events, DayBack(cfg), limit, k).rows, t) <= limit
  }

  /** The limits hold in every run exactly when sends never overlap, or none is allowed. */
  lemma {:induction false} SendLimitsIff(cfg: Verification.Config, now: int, limit: nat, k: nat)
    ensures MinuteLimitHolds(now, limit, k) <==> k <= 1 || limit == 0
    ensures DayLimitHolds(cfg, now, limit, k) <==> k <= 1 || limit == 0
  {
    if k <= 1 || limit == 0 {
      forall events, t | MayRun(Gate(now, [], 0), events, MinuteBack(), limit, k)
        ensures InMinute(RunAll(Gate(now, [], 0), events, MinuteBack(), limit, k).rows, t) <= limit
      {
        MinuteGuarded(t);
        SequentialLimit(now, events, MinuteBack(), limit, k, t, t + Verification.MINUTE);
      }
      forall events, t | MayRun(Gate(now, [], 0), events, DayBack(cfg), limit, k)
        ensures OnDay(cfg, RunAll(Gate(now, [], 0), events, DayBack(cfg), limit, k).rows, t) <= limit
      {
        DayGuarded(cfg, t);
        var start := Verification.TodayStart(cfg, t);
        SequentialLimit(now, events, DayBack(cfg), limit, k, start, start + Verification.DAY - 1);
      }
    } else {
      SendsAttained(cfg, now, limit, k);
    }
  }

  // ---- Both limits together ----

  /** The service checks both limits before it sends. */
  ghost predicate BothReach(cfg: Verification.Config, m: Gate, events: seq<GateEvent>, n: Gate, k: nat) {
    && Reaches(m, events, n, MinuteBack(), cfg.limitPerMinute, k)
    && Reaches(m, events, n, DayBack(cfg), cfg.limitPerDay, k)
  }

  lemma BothChained(cfg: Verification.Config, m: Gate, a: seq<GateEvent>, n: Gate, b: seq<GateEvent>, o: Gate, k: nat)
    requires BothReach(cfg, m, a, n, k) && BothReach(cfg, n, b, o, k)
    ensures BothReach(cfg, m, a + b, o, k)
  {
    Chained(m, a, n, b, o, MinuteBack(), cfg.limitPerMinute, k);
    Chained(m, a, n, b, o, DayBack(cfg), cfg.limitPerDay, k);
  }

  /** The bound per minute is met although both limits are checked. */
  lemma {:induction false} MinuteAttained(cfg: Verification.Config, now: int, k: nat) returns (n: Gate)
    requires 1 <= cfg.limitPerMinute <= cfg.limitPerDay && k >= 1
    ensures BothReach(cfg, Gate(now, [], 0), Burst(cfg.limitPerMinute, k), n, k)
    ensures InMinute(n.rows, now) == cfg.limitPerMinute + k - 1
  {
    DayGuarded(cfg, now);
    var m, size := Gate(now, [], 0), cfg.limitPerMinute + k - 1;
    BurstReaches(m, cfg.limitPerMinute, MinuteBack(), cfg.limitPerMinute, k);
    BurstReaches(m, cfg.limitPerMinute, DayBack(cfg), cfg.limitPerDay, k);
    n := m.(rows := m.rows + Copies(size, now));
    CountWithCopies([], size, now, now, now + Verification.MINUTE);
  }

  const PAUSE: int := Verification.MINUTE + 1

  /** The time after n pauses. */
  function Paused(now: int, n: nat): (t: int)
    ensures t >= now
  {
    if n == 0 then now else Paused(now, n - 1) + PAUSE
  }

  function SendAndWait(to: int): seq<GateEvent> {
    ([Check] + [Insert]) + [Tick(to)]
  }

  lemma SendAndWaitReaches(m: Gate, to: int, since: int -> int, limit: nat, k: nat)
    requires m.inFlight == 0 && k >= 1 && m.now <= to && CountIn(m.rows, since(m.now), m.now) < limit
    ensures Reaches(m, SendAndWait(to), Gate(to, m.rows + [m.now], 0), since, limit, k)
  {
    var sent := After(After(m, Check), Insert);
    CheckThenInsert(m, since, limit, k);
    OneStep(sent, Tick(to), since, limit, k);
    Chained(m, [Check] + [Insert], sent, [Tick(to)], Gate(to, m.rows + [m.now], 0), since, limit, k);
  }

  /** Codes sent one by one, each when the last has left the minute looked back over. */
  function Spaced(now: int, n: nat): seq<GateEvent> {
    if n == 0 then [] else Spaced(now, n - 1) + SendAndWait(Paused(now, n))
  }

  function SpacedTimes(now: int, n: nat): seq<int> {
    if n == 0 then [] else SpacedTimes(now, n - 1) + [Paused(now, n - 1)]
  }

  function SpacedGate(now: int, n: nat): Gate {
    Gate(Paused(now, n), SpacedTimes(now, n), 0)
  }

  lemma {:induction false} SpacedCount(now: int, n: nat, a: int, b: int)
    requires a <= now && Paused(now, n) <= b
    ensures CountIn(SpacedTimes(now, n), a, b) == n
  {
    if n > 0 {
      SpacedCount(now, n - 1, a, b);
      CountAppend(SpacedTimes(now, n - 1), Paused(now, n - 1), a, b);
    }
  }

  /** The spaced codes lie before the last pause. */
  lemma {:induction false} NoneAfterPause(now: int, n: nat, a: int, b: int)
    requires Paused(now, n) - PAUSE < a
    ensures CountIn(SpacedTimes(now, n), a, b) == 0
  {
    if n > 0 {
      NoneAfterPause(now, n - 1, a, b);
      CountAppend(SpacedTimes(now, n - 1), Paused(now, n - 1), a, b);
    }
  }

  function CountAt(now: int, j: nat, since: int -> int): nat {
    CountIn(SpacedTimes(now, j), since(Paused(now, j)), Paused(now, j))
  }

  /** A gate whose every count on the way is below the limit lets the spaced codes pass. */
  ghost predicate LetsPass(now: int, n: nat, since: int -> int, limit: nat) {
    forall j: nat | j < n :: CountAt(now, j, since) < limit
  }

  lemma OneMoreSpaced(now: int, n: nat, since: int -> int, limit: nat, k: nat)
    requires k >= 1 && CountAt(now, n, since) < limit
    ensures Reaches(SpacedGate(now, n), SendAndWait(Paused(now, n + 1)), SpacedGate(now, n + 1), since, limit, k)
  {
    SendAndWaitReaches(SpacedGate(now, n), Paused(now, n + 1), since, limit, k);
  }

  lemma {:induction false} SpacedReaches(now: int, n: nat, since: int -> int, limit: nat, k: nat)
    requires k >= 1 && LetsPass(now, n, since, limit)
    ensures Reaches(SpacedGate(now, 0), Spaced(now, n), SpacedGate(now, n), since, limit, k)
  {
    if n > 0 {
      SpacedReaches(now, n - 1, since, limit, k);
      OneMoreSpaced(now, n - 1, since, limit, k);
      Chained(SpacedGate(now, 0), Spaced(now, n - 1), SpacedGate(now, n - 1), SendAndWait(Paused(now, n)),
          SpacedGate(now, n), since, limit, k);
    }
  }

  lemma {:induction false} PausedGrows(now: int, j: nat, n: nat)
    requires j <= n
    ensures Paused(now, j) <= Paused(now, n)
  {
    if j < n { PausedGrows(now, j, n - 1); }
  }

  lemma SameDayStart(cfg: Verification.Config, a: int, b: int, c: int)
    requires a <= b <= c && Verification.TodayStart(cfg, a) == Verification.TodayStart(cfg, c)
    ensures Verification.TodayStart(cfg, b) == Verification.TodayStart(cfg, a) <= a
  {
  }

  /** Counts since the start of the day, while the day lasts. */
  lemma DayCount(cfg: Verification.Config, now: int, j: nat, n: nat)
    requires j <= n && Verification.TodayStart(cfg, now) == Verification.TodayStart(cfg, Paused(now, n))
    ensures CountIn(SpacedTimes(now, j), Verification.TodayStart(cfg, Paused(now, j)), Paused(now, j)) == j
  {
    PausedGrows(now, j, n);
    SameDayStart(cfg, now, Paused(now, j), Paused(now, n));
    SpacedCount(now, j, Verification.TodayStart(cfg, now), Paused(now, j));
  }

  /** All but one of the day's codes a minute apart, and then k at once. */
  function DayBurst(now: int, limit: nat, k: nat): seq<GateEvent>
    requires limit >= 1
  {
    Spaced(now, limit - 1) + Burst(1, k)
  }

  /** The rows that run leaves. */
  function DayRows(now: int, limit: nat, k: nat): seq<int>
    requires limit >= 1
  {
    SpacedTimes(now, limit - 1) + Copies(k, Paused(now, limit - 1))
  }

  function DayGate(now: int, limit: nat, k: nat): Gate
    requires limit >= 1
  {
    Gate(Paused(now, limit - 1), DayRows(now, limit, k), 0)
  }

  lemma LastBurst(now: int, size: nat, since: int -> int, limit: nat, k: nat)
    requires size >= 1 && k >= 1 && CountAt(now, size - 1, since) < limit
    requires since(Paused(now, size - 1)) <= Paused(now, size - 1)
    ensures Reaches(SpacedGate(now, size - 1), Burst(1, k), DayGate(now, size, k), since, limit, k)
  {
    BurstReaches(SpacedGate(now, size - 1), 1, since, limit, k);
  }

  lemma {:induction false} DayBurstReaches(now: int, size: nat, since: int -> int, limit: nat, k: nat)
    requires size >= 1 && k >= 1 && LetsPass(now, size, since, limit)
    requires since(Paused(now, size - 1)) <= Paused(now, size - 1)
    ensures Reaches(SpacedGate(now, 0), DayBurst(now, size, k), DayGate(now, size, k), since, limit, k)
  {
    SpacedReaches(now, size - 1, since, limit, k);
    LastBurst(now, size, since, limit, k);
    Chained(SpacedGate(now, 0), Spaced(now, size - 1), SpacedGate(now, size - 1), Burst(1, k), DayGate(now, size, k),
        since, limit, k);
  }

  lemma DayRowsCounted(cfg: Verification.Config, now: int, limit: nat, k: nat)
    requires limit >= 1 && Verification.TodayStart(cfg, now) == Verification.TodayStart(cfg, Paused(now, limit - 1))
    ensures OnDay(cfg, DayRows(now, limit, k), now) == limit + k - 1
  {
    var start, last := Verification.TodayStart(cfg, now), Paused(now, limit - 1);
    DayGuarded(cfg, now);
    DayGuarded(cfg, last);
    SpacedCount(now, limit - 1, start, start + Verification.DAY - 1);
    CountWithCopies(SpacedTimes(now, limit - 1), k, last, start, start + Verification.DAY - 1);
  }

  lemma BothLetPass(cfg: Verification.Config, now: int, n: nat)
    requires cfg.limitPerMinute >= 1 && 1 <= n <= cfg.limitPerDay
    requires Verification.TodayStart(cfg, now) == Verification.TodayStart(cfg, Paused(now, n - 1))
    ensures LetsPass(now, n, MinuteBack(), cfg.limitPerMinute) && LetsPass(now, n, DayBack(cfg), cfg.limitPerDay)
  {
    forall j: nat | j < n ensures CountAt(now, j, MinuteBack()) < cfg.limitPerMinute {
      NoneAfterPause(now, j, Paused(now, j) - Verification.MINUTE, Paused(now, j));
    }
    forall j: nat | j < n ensures CountAt(now, j, DayBack(cfg)) < cfg.limitPerDay {
      DayCount(cfg, now, j, n - 1);
    }
  }

  /** So is the bound per day, from any moment that leaves the day time for its codes. */
  lemma {:induction false} DayAttained(cfg: Verification.Config, now: int, k: nat)
    requires cfg.limitPerMinute >= 1 && cfg.limitPerDay >= 1 && k >= 1
    requires Verification.TodayStart(cfg, now) == Verification.TodayStart(cfg, Paused(now, cfg.limitPerDay - 1))
    ensures BothReach(cfg, Gate(now, [], 0), DayBurst(now, cfg.limitPerDay, k), DayGate(now, cfg.limitPerDay, k), k)
    ensures OnDay(cfg, DayGate(now, cfg.limitPerDay, k).rows, now) == cfg.limitPerDay + k - 1
  {
    BothLetPass(cfg, now, cfg.limitPerDay);
    DayGuarded(cfg, Paused(now, cfg.limitPerDay - 1));
    DayBurstReaches(now, cfg.limitPerDay, MinuteBack(), cfg.limitPerMinute, k);
    DayBurstReaches(now, cfg.limitPerDay, DayBack(cfg), cfg.limitPerDay, k);
    DayRowsCounted(cfg, now, cfg.limitPerDay, k);
  }

  // ---- The sequential service is the machine with one request at a time ----

  /** When the codes of an address were sent. */
  function Sent(rows: seq<Verification.Row>, email: string): seq<int> {
    if rows == [] then []
    else
      var last := rows[|rows| - 1];
      Sent(rows[..|rows| - 1], email) + if last.email == email then [last.createdAt] else []
  }

  function GateOf(s: Verification.State, email: string): Gate {
    Gate(s.now, Sent(s.rows, email), 0)
  }

  ghost predicate NoneAhead(s: Verification.State) {
    forall row | row in s.rows :: row.createdAt <= s.now
  }

  lemma SentSinceAppend(rows: seq<Verification.Row>, row: Verification.Row, email: string, lo: int)
    ensures |Verification.SentSince(rows + [row], email, lo)| ==
            |Verification.SentSince(rows, email, lo)| + if row.email == email && lo <= row.createdAt then 1 else 0
  {
    var before, after := Verification.SentSince(rows, email, lo), Verification.SentSince(rows + [row], email, lo);
    assert after == before + if row.email == email && lo <= row.createdAt then {|rows|} else {};
  }

  lemma {:induction false} SentCounted(rows: seq<Verification.Row>, email: string, lo: int, now: int)
    requires forall row | row in rows :: row.createdAt <= now
    ensures |Verification.SentSince(rows, email, lo)| == CountIn(Sent(rows, email), lo, now)
  {
    if rows == [] {
      assert Verification.SentSince(rows, email, lo) == {};
    } else {
      var init, last := rows[..|rows| - 1], rows[|rows| - 1];
      assert last in rows && forall row | row in init :: row in rows;
      assert init + [last] == rows;
      SentCounted(init, email, lo, now);
      SentSinceAppend(init, last, email, lo);
      SentAppend(init, last, email);
      if last.email == email {
        CountAppend(Sent(init, email), last.createdAt, lo, now);
      } else {
        assert Sent(init, email) + [] == Sent(init, email);
      }
    }
  }

  lemma {:induction false} SameSentSame(a: seq<Verification.Row>, b: seq<Verification.Row>, email: string)
    requires Verification.SameSent(a, b)
    ensures Sent(a, email) == Sent(b, email)
  {
    if a != [] {
      SameSentSame(a[..|a| - 1], b[..|b| - 1], email);
    }
  }

  lemma SentAppend(rows: seq<Verification.Row>, row: Verification.Row, email: string)
    ensures Sent(rows + [row], email) == Sent(rows, email) + if row.email == email then [row.createdAt] else []
  {
    assert (rows + [row])[..|rows|] == rows;
  }

  /** What a code that is sent does to the gate of an address. */
  lemma SendMovesGate(cfg: Verification.Config, s: Verification.State, e: Verification.Event, email: string)
    requires e.Send? && Verification.SendError(cfg, s, e.email, e.isSignup).None?
    ensures GateOf(Verification.Step(cfg, s, e), email) ==
            if e.email == email then After(After(GateOf(s, email), Check), Insert) else GateOf(s, email)
  {
    var ended := Verification.Invalidated(s.rows, e.email, s.now);
    SameSentSame(s.rows, ended, email);
    SentAppend(ended, Verification.NewRow(cfg, e.email, e.code, s.now), email);
  }

  /** The service looks back with the same counts. */
  lemma SendIsChecked(cfg: Verification.Config, s: Verification.State, email: string)
    requires NoneAhead(s) && Verification.RateError(cfg, s.rows, email, s.now).None?
    ensures MayHappen(GateOf(s, email), Check, MinuteBack(), cfg.limitPerMinute, 1)
    ensures MayHappen(GateOf(s, email), Check, DayBack(cfg), cfg.limitPerDay, 1)
  {
    SentCounted(s.rows, email, s.now - Verification.MINUTE, s.now);
    SentCounted(s.rows, email, Verification.TodayStart(cfg, s.now), s.now);
  }

  lemma StepIsGateSteps(cfg: Verification.Config, s: Verification.State, e: Verification.Event, email: string)
    returns (events: seq<GateEvent>)
    requires NoneAhead(s) && Verification.Enabled(s, e)
    ensures NoneAhead(Verification.Step(cfg, s, e))
    ensures BothReach(cfg, GateOf(s, email), events, GateOf(Verification.Step(cfg, s, e), email), 1)
  {
    var m := GateOf(s, email);
    events := [];
    assert BothReach(cfg, m, [], m, 1);
    match e
    case Tick(to) =>
      events := [Tick(to)];
      OneStep(m, Tick(to), MinuteBack(), cfg.limitPerMinute, 1);
      OneStep(m, Tick(to), DayBack(cfg), cfg.limitPerDay, 1);
    case Register(_) =>
    case Send(to, isSignup, code) =>
      if Verification.SendError(cfg, s, to, isSignup).None? {
        SendMovesGate(cfg, s, e, email);
        if to == email {
          SendIsChecked(cfg, s, email);
          CheckThenInsert(m, MinuteBack(), cfg.limitPerMinute, 1);
          CheckThenInsert(m, DayBack(cfg), cfg.limitPerDay, 1);
          events := [Check] + [Insert];
        }
      }
    case Verify(_, _, _, _) => SameSentSame(s.rows, Verification.Step(cfg, s, e).rows, email);
  }

  /** Every sequential run is, for each address, a run of the machine with no two requests in between. */
  lemma {:induction false} SequentialRuns(cfg: Verification.Config, s: Verification.State,
      run: seq<Verification.Event>, email: string)
    returns (events: seq<GateEvent>)
    requires NoneAhead(s) && Verification.Possible(cfg, s, run)
    ensures BothReach(cfg, GateOf(s, email), events, GateOf(Verification.Run(cfg, s, run), email), 1)
    decreases |run|
  {
    if run == [] {
      events := [];
    } else {
      var next := Verification.Step(cfg, s, run[0]);
      var first := StepIsGateSteps(cfg, s, run[0], email);
      var rest := SequentialRuns(cfg, next, run[1..], email);
      var m, n, o := GateOf(s, email), GateOf(next, email), GateOf(Verification.Run(cfg, s, run), email);
      events := first + rest;
      Chained(m, first, n, rest, o, MinuteBack(), cfg.limitPerMinute, 1);
      Chained(m, first, n, rest, o, DayBack(cfg), cfg.limitPerDay, 1);
    }
  }

  // ---- Reset tokens ----

  function FiveMinutesBack(): int -> int {
    t => t - ResetTokens.FIVE_MINUTES + 1
  }

  /** Tokens that validate at t, were t the present. */
  function ValidAt(rows: seq<int>, t: int): nat {
    CountIn(rows, t - ResetTokens.FIFTEEN_MINUTES + 1, t)
  }

  lemma {:induction false} CountSplit(rows: seq<int>, a: int, b: int, c: int)
    requires a <= b + 1 && b <= c
    ensures CountIn(rows, a, c) == CountIn(rows, a, b) + CountIn(rows, b + 1, c)
  {
    if rows != [] {
      CountSplit(rows[..|rows| - 1], a, b, c);
    }
  }

  lemma FiveMinuteWindow(m: Gate, k: nat, a: int)
    requires Held(m, FiveMinutesBack(), 1, k)
    ensures CountIn(m.rows, a, a + ResetTokens.FIVE_MINUTES - 1) <= k
  {
    assert Guarded(FiveMinutesBack(), a, a + ResetTokens.FIVE_MINUTES - 1);
    assert Claimed(m, a, a + ResetTokens.FIVE_MINUTES - 1) <= 1 + k - 1;
  }

  /** Reset tokens of a user that validate at time t, with overlapping requests: three times as many as may overlap. */
  lemma {:induction false} OverlappingResetTokens(now: int, events: seq<GateEvent>, k: nat, t: int)
    requires MayRun(Gate(now, [], 0), events, FiveMinutesBack(), 1, k)
    ensures ValidAt(RunAll(Gate(now, [], 0), events, FiveMinutesBack(), 1, k).rows, t) <= 3 * k
  {
    EmptyHeld(now, FiveMinutesBack(), 1, k);
    WindowsBounded(Gate(now, [], 0), events, FiveMinutesBack(), 1, k);
    var n := RunAll(Gate(now, [], 0), events, FiveMinutesBack(), 1, k);
    var five, start := ResetTokens.FIVE_MINUTES, t - ResetTokens.FIFTEEN_MINUTES + 1;
    FiveMinuteWindow(n, k, start);
    FiveMinuteWindow(n, k, start + five);
    FiveMinuteWindow(n, k, start + 2 * five);
    CountSplit(n.rows, start, start + five - 1, t);
    CountSplit(n.rows, start + five, start + 2 * five - 1, t);
  }

  lemma {:induction false} NoneCounted(rows: seq<int>, a: int, b: int)
    ensures CountIn(rows, a, b) == 0 <==> forall t | t in rows :: !(a <= t <= b)
  {
    if rows != [] {
      var init, last := rows[..|rows| - 1], rows[|rows| - 1];
      NoneCounted(init, a, b);
      assert rows == init + [last] && last in rows;
      if CountIn(rows, a, b) == 0 {
        forall t | t in rows ensures !(a <= t <= b) { assert t in init || t == last; }
      } else if !(a <= last <= b) {
        var t :| t in init && a <= t <= b;
        assert t in rows;
      }
    }
  }

  /** The gate's rows are the times of the user's tokens. */
  ghost predicate Mirrors(m: Gate, s: ResetTokens.State, user: int) {
    && m.now == s.now && (forall t | t in m.rows :: t <= m.now)
    && (forall row | row in s.tokens && s.tokens[row].userId == user :: s.tokens[row].createdAt in m.rows)
    && (forall t | t in m.rows ::
          exists row :: row in s.tokens && s.tokens[row].userId == user && s.tokens[row].createdAt == t)
  }

  /** The service looks back over the same time: a request passes exactly when the user has no recent token. */
  lemma RequestIsChecked(m: Gate, s: ResetTokens.State, user: int)
    requires Mirrors(m, s, user) && m.inFlight == 0
    ensures MayHappen(m, Check, FiveMinutesBack(), 1, 1) <==> forall row :: !ResetTokens.Recent(s, user, row)
  {
    NoneCounted(m.rows, FiveMinutesBack()(m.now), m.now);
    if t :| t in m.rows && FiveMinutesBack()(m.now) <= t <= m.now {
      var row :| row in s.tokens && s.tokens[row].userId == user && s.tokens[row].createdAt == t;
      assert ResetTokens.Recent(s, user, row);
    }
  }

  /** k requests at once, and again after five and after ten minutes. */
  function ThreeBursts(now: int, k: nat): seq<GateEvent> {
    Burst(1, k) + (([Tick(now + ResetTokens.FIVE_MINUTES)] + Burst(1, k))
        + ([Tick(now + 2 * ResetTokens.FIVE_MINUTES)] + Burst(1, k)))
  }

  lemma LaterBurst(m: Gate, k: nat)
    requires m.inFlight == 0 && k >= 1 && forall row | row in m.rows :: row <= m.now
    ensures var later := m.now + ResetTokens.FIVE_MINUTES;
            Reaches(m, [Tick(later)] + Burst(1, k), Gate(later, m.rows + Copies(k, later), 0), FiveMinutesBack(), 1, k)
  {
    var later := m.(now := m.now + ResetTokens.FIVE_MINUTES);
    OneStep(m, Tick(later.now), FiveMinutesBack(), 1, k);
    CountAhead(m.rows, FiveMinutesBack()(later.now), later.now);
    BurstReaches(later, 1, FiveMinutesBack(), 1, k);
    Chained(m, [Tick(later.now)], later, Burst(1, k), later.(rows := m.rows + Copies(k, later.now)),
        FiveMinutesBack(), 1, k);
  }

  /** Ten minutes after the first burst every token of the three is valid. */
  lemma {:induction false} TokensAttained(now: int, k: nat)
    requires k >= 1
    ensures var later := now + 2 * ResetTokens.FIVE_MINUTES;
            && MayRun(Gate(now, [], 0), ThreeBursts(now, k), FiveMinutesBack(), 1, k)
            && ValidAt(RunAll(Gate(now, [], 0), ThreeBursts(now, k), FiveMinutesBack(), 1, k).rows, later) == 3 * k
  {
    var t1, t2 := now + ResetTokens.FIVE_MINUTES, now + 2 * ResetTokens.FIVE_MINUTES;
    var m0 := Gate(now, [], 0);
    var m1 := Gate(now, [] + Copies(k, now), 0);
    var m2 := Gate(t1, m1.rows + Copies(k, t1), 0);
    var m3 := Gate(t2, m2.rows + Copies(k, t2), 0);
    BurstReaches(m0, 1, FiveMinutesBack(), 1, k);
    LaterBurst(m1, k);
    LaterBurst(m2, k);
    Chained(m1, [Tick(t1)] + Burst(1, k), m2, [Tick(t2)] + Burst(1, k), m3, FiveMinutesBack(), 1, k);
    Chained(m0, Burst(1, k), m1, ([Tick(t1)] + Burst(1, k)) + ([Tick(t2)] + Burst(1, k)), m3, FiveMinutesBack(), 1, k);
    CountWithCopies([], k, now, t2 - ResetTokens.FIFTEEN_MINUTES + 1, t2);
    CountWithCopies(m1.rows, k, t1, t2 - ResetTokens.FIFTEEN_MINUTES + 1, t2);
    CountWithCopies(m2.rows, k, t2, t2 - ResetTokens.FIFTEEN_MINUTES + 1, t2);
  }

  ghost predicate ThreeTokensHold(now: int, k: nat) {
    forall events, t | MayRun(Gate(now, [], 0), events, FiveMinutesBack(), 1, k) ::
      ValidAt(RunAll(Gate(now, [], 0), events, FiveMinutesBack(), 1, k).rows, t) <= 3
  }

  /** At most three tokens are valid in every run exactly when requests never overlap. */
  lemma {:induction false} ThreeTokensIff(now: int, k: nat)
    ensures ThreeTokensHold(now, k) <==> k <= 1
  {
    if k <= 1 {
      forall events, t | MayRun(Gate(now, [], 0), events, FiveMinutesBack(), 1, k)
        ensures ValidAt(RunAll(Gate(now, [], 0), events, FiveMinutesBack(), 1, k).rows, t) <= 3
      {
        OverlappingResetTokens(now, events, k, t);
      }
    } else {
      TokensAttained(now, k);
    }
  }

  // ---- Read the token, change the password, then delete it ----

  /**
   Whether the token is still in the table, the requests that have read it and not yet finished, and the changes made.
   */
  datatype Uses = Uses(present: bool, inFlight: nat, changes: nat)

  datatype UseEvent = Find | Finish

  predicate UseMay(m: Uses, e: UseEvent, k: nat) {
    match e
    case Find => m.present && m.inFlight < k
    case Finish => m.inFlight > 0
  }

  function Use(m: Uses, e: UseEvent): Uses
    requires e.Finish? ==> m.inFlight > 0
  {
    match e
    case Find => m.(inFlight := m.inFlight + 1)
    case Finish => Uses(false, m.inFlight - 1, m.changes + 1)
  }

  predicate UseRun(m: Uses, events: seq<UseEvent>, k: nat)
    decreases |events|
  {
    events == [] || (UseMay(m, events[0], k) && UseRun(Use(m, events[0]), events[1..], k))
  }

  function UseAll(m: Uses, events: seq<UseEvent>, k: nat): Uses
    requires UseRun(m, events, k)
    decreases |events|
  {
    if events == [] then m else UseAll(Use(m, events[0]), events[1..], k)
  }

  /** One token changes the password at most as often as its uses overlap. */
  lemma {:induction false} UsesBounded(m: Uses, events: seq<UseEvent>, k: nat)
    requires UseRun(m, events, k) && m.changes + m.inFlight <= k && (m.present ==> m.changes == 0)
    ensures UseAll(m, events, k).changes <= k
    decreases |events|
  {
    if events != [] {
      UsesBounded(Use(m, events[0]), events[1..], k);
    }
  }

  const UNUSED := Uses(true, 0, 0)

  lemma {:induction false} OverlappingResets(events: seq<UseEvent>, k: nat)
    requires UseRun(UNUSED, events, k)
    ensures UseAll(UNUSED, events, k).changes <= k
  {
    UsesBounded(UNUSED, events, k);
  }

  function Finds(n: nat): seq<UseEvent> {
    seq(n, _ => Find)
  }

  function Finishes(n: nat): seq<UseEvent> {
    seq(n, _ => Finish)
  }

  lemma {:induction false} FinishesRun(m: Uses, n: nat, k: nat)
    requires m.inFlight == n
    ensures UseRun(m, Finishes(n), k) && UseAll(m, Finishes(n), k).changes == m.changes + n
    decreases n
  {
    if n > 0 {
      assert Finishes(n)[1..] == Finishes(n - 1);
      FinishesRun(Use(m, Finish), n - 1, k);
    }
  }

  lemma {:induction false} FindsThenFinishes(m: Uses, n: nat, k: nat)
    requires m.present && m.inFlight + n == k
    ensures UseRun(m, Finds(n) + Finishes(k), k) && UseAll(m, Finds(n) + Finishes(k), k).changes == m.changes + k
    decreases n
  {
    if n == 0 {
      assert Finds(0) + Finishes(k) == Finishes(k);
      FinishesRun(m, k, k);
    } else {
      var all := Finds(n) + Finishes(k);
      assert all[0] == Find && all[1..] == Finds(n - 1) + Finishes(k);
      FindsThenFinishes(Use(m, Find), n - 1, k);
    }
  }

  /** If k requests find the token before any of them ends, it changes the password k times. */
  lemma {:induction false} ResetsAttained(k: nat)
    ensures UseRun(UNUSED, Finds(k) + Finishes(k), k)
    ensures UseAll(UNUSED, Finds(k) + Finishes(k), k).changes == k
  {
    FindsThenFinishes(UNUSED, k, k);
  }

  ghost predicate OneChangeHolds(k: nat) {
    forall events | UseRun(UNUSED, events, k) :: UseAll(UNUSED, events, k).changes <= 1
  }

  /** A token changes the password at most once in every run exactly when its uses never overlap. */
  lemma {:induction false} OneChangeIff(k: nat)
    ensures OneChangeHolds(k) <==> k <= 1
  {
    ResetsAttained(k);
    if k <= 1 {
      forall events | UseRun(UNUSED, events, k) ensures UseAll(UNUSED, events, k).changes <= 1 {
        OverlappingResets(events, k);
      }
    }
  }

  /** A reset the service carries out in one step is such a use with nothing in between. */
  lemma ResetIsUse(s: ResetTokens.State, row: int, password: string)
    requires ResetTokens.Allowed(s, row, password)
    ensures var n := ResetTokens.ResetOn(s, row, password);
            UseMay(UNUSED, Find, 1) && Use(Use(UNUSED, Find), Finish) == Uses(row in n.tokens, 0, |n.spent| - |s.spent|)
  {
  }
}
