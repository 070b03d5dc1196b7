/**
 Debounced cache invalidation.  A request arms a timer per pattern and replaces the timer of an earlier request; when
 the timer fires, the scan runs asynchronously and the pattern is forgotten only after it.  Between the two halves any
 other event may happen, including new requests for the same pattern.
 */
module Debounce {
  const DEFAULT_DEBOUNCE: nat := 500

  /** A live timer: armed by the request made at step `scheduledAt`, not to fire before `due`. */
  datatype Timer = Timer(pattern: string, scheduledAt: nat, due: nat)

  /**
   What started a scan: a fired timer, a sweep of the pending map (with or without a timer still live), or a forced
   request.
   */
  datatype Origin = ByTimer | Swept(live: bool) | Forced

  datatype Start = Start(pattern: string, at: nat, origin: Origin)

  datatype Phase = Scanning | Scanned | Failed | Finished

  /** One request; `opens` when no earlier request of the pattern was still waiting on the pending map's timer. */
  datatype Call = Call(pattern: string, at: nat, opens: bool)

  datatype State = State(step: nat, now: nat, pending: map<string, nat>, timers: map<nat, Timer>, nextTimer: nat,
                         started: seq<Start>, phases: seq<Phase>, calls: seq<Call>)

  datatype Event =
    | Advance(to: nat)
    | Invalidate(pattern: string, debounce: nat)
    | Force(pattern: string)
    | Fire(timer: nat)
    | ScanOk(run: nat)
    | ScanFail(run: nat)
    | Complete(run: nat)
    | Sweep(pattern: string, forget: bool)
    | Clear

  const EMPTY := State(0, 0, map[], map[], 0, [], [], [])

  function DebounceTime(debounce: nat): nat {
    if debounce == 0 then DEFAULT_DEBOUNCE else debounce
  }

  /** The pattern's map entry still has its timer running. */
  predicate Waiting(s: State, p: string) {
    p in s.pending && s.pending[p] in s.timers
  }

  predicate Enabled(s: State, e: Event) {
    match e
    case Advance(to) => s.now <= to
    case Fire(timer) => timer in s.timers && s.timers[timer].due <= s.now
    case ScanOk(run) => run < |s.phases| && s.phases[run] == Scanning
    case ScanFail(run) => run < |s.phases| && s.phases[run] == Scanning
    case Complete(run) => run < |s.phases| && run < |s.started| && s.phases[run] == Scanned
        && s.started[run].origin == ByTimer
    case Sweep(p, _) => p in s.pending
    case _ => true
  }

  function Begin(s: State, p: string, origin: Origin): State {
    s.(started := s.started + [Start(p, s.step, origin)], phases := s.phases + [Scanning])
  }

  function Disarm(s: State, p: string): State {
    if p in s.pending then s.(timers := s.timers - {s.pending[p]}) else s
  }

  function InvalidateOn(s: State, p: string, debounce: nat): State {
    var d := Disarm(s, p);
    d.(timers := d.timers[s.nextTimer := Timer(p, s.step, s.now + DebounceTime(debounce))],
       pending := d.pending[p := s.nextTimer],
       nextTimer := s.nextTimer + 1,
       calls := s.calls + [Call(p, s.step, !Waiting(s, p))])
  }

  function SweepOn(s: State, p: string, forget: bool): State {
    var d := Begin(Disarm(s, p), p, Swept(Waiting(s, p)));
    if forget then d.(pending := d.pending - {p}) else d
  }

  function Apply(s: State, e: Event): State
    requires Enabled(s, e)
  {
    match e
    case Advance(to) => s.(now := to)
    case Invalidate(p, debounce) => InvalidateOn(s, p, debounce)
    case Force(p) => Begin(s, p, Forced).(calls := s.calls + [Call(p, s.step, false)])
    case Fire(timer) => Begin(s, s.timers[timer].pattern, ByTimer).(timers := s.timers - {timer})
    case ScanOk(run) => s.(phases := s.phases[run := Scanned])
    case ScanFail(run) => s.(phases := s.phases[run := Failed])
    case Complete(run) => s.(phases := s.phases[run := Finished], pending := s.pending - {s.started[run].pattern})
    case Sweep(p, forget) => SweepOn(s, p, forget)
    case Clear => s.(pending := map[])
  }

  function Step(s: State, e: Event): State
    requires Enabled(s, e)
  {
    Apply(s, e).(step := s.step + 1)
  }

  predicate Possible(s: State, events: seq<Event>)
    decreases |events|
  {
    events == [] || (Enabled(s, events[0]) && Possible(Step(s, events[0]), events[1..]))
  }

  function Run(s: State, events: seq<Event>): State
    requires Possible(s, events)
    decreases |events|
  {
    if events == [] then s else Run(Step(s, events[0]), events[1..])
  }

  // ---- No request is lost ----

  /** A timer of the pattern, armed at or after the request, is still to fire. */
  ghost predicate LiveSince(s: State, c: Call) {
    exists t | t in s.timers :: s.timers[t].pattern == c.pattern && s.timers[t].scheduledAt >= c.at
  }

  /** The run is a scan of the request's pattern that started at or after it. */
  predicate ScanSince(s: State, c: Call, i: nat) {
    i < |s.started| && i < |s.phases| && s.started[i].pattern == c.pattern && s.started[i].at >= c.at
  }

  /** Such a scan is running or has gone through. */
  ghost predicate ServedSince(s: State, c: Call) {
    exists i: nat :: ScanSince(s, c, i) && s.phases[i] != Failed
  }

  /** Such scans have been made, and all of them failed: nothing is left that would delete the keys. */
  ghost predicate FailedSince(s: State, c: Call) {
    && !LiveSince(s, c)
    && (exists i: nat :: ScanSince(s, c, i))
    && (forall i: nat | ScanSince(s, c, i) :: s.phases[i] == Failed)
  }

  /** A live timer, or a scan that started in time, however it ended. */
  ghost predicate Covered(s: State, c: Call) {
    LiveSince(s, c) || exists i: nat :: ScanSince(s, c, i)
  }

  ghost predicate Sound(s: State) {
    && |s.phases| == |s.started|
    && (forall t | t in s.timers :: t < s.nextTimer && s.timers[t].scheduledAt < s.step)
    && (forall p | p in s.pending ::
        s.pending[p] < s.nextTimer
        && (s.pending[p] in s.timers ==> s.timers[s.pending[p]].pattern == p))
    && (forall c | c in s.calls :: c.at < s.step)
  }

  ghost predicate AllCovered(s: State) {
    forall c | c in s.calls :: Covered(s, c)
  }

  lemma StepSound(s: State, e: Event)
    requires Sound(s) && Enabled(s, e)
    ensures Sound(Step(s, e))
  {
  }

  /** Starting a scan covers every request of its pattern made so far. */
  lemma BeginCovers(s: State, n: State, origin: Origin, c: Call)
    requires n.started == s.started + [Start(c.pattern, s.step, origin)] && |n.phases| == |n.started|
    requires c.at <= s.step
    ensures Covered(n, c)
  {
    assert ScanSince(n, c, |s.started|);
  }

  /** Scans stay on record and timers of other patterns are untouched. */
  lemma CoverKept(s: State, n: State, c: Call)
    requires Covered(s, c) && s.started <= n.started && |n.phases| == |n.started|
    requires forall t | t in s.timers && s.timers[t].pattern == c.pattern :: t in n.timers && n.timers[t] == s.timers[t]
    ensures Covered(n, c)
  {
    if LiveSince(s, c) {
      var t :| t in s.timers && s.timers[t].pattern == c.pattern && s.timers[t].scheduledAt >= c.at;
      assert t in n.timers;
    } else {
      var i: nat :| ScanSince(s, c, i);
      assert n.started[i] == s.started[i];
      assert ScanSince(n, c, i);
    }
  }

  lemma NewTimerCovers(s: State, p: string, debounce: nat, c: Call)
    requires c.pattern == p && c.at <= s.step
    ensures Covered(Step(s, Invalidate(p, debounce)), c)
  {
    var n := Step(s, Invalidate(p, debounce));
    assert s.nextTimer in n.timers && n.timers[s.nextTimer].scheduledAt == s.step;
  }

  lemma StepCovers(s: State, e: Event, c: Call)
    requires Sound(s) && Enabled(s, e) && AllCovered(s) && c in Step(s, e).calls
    ensures Covered(Step(s, e), c)
  {
    var n := Step(s, e);
    assert c in s.calls || c.at == s.step;
    match e {
      case Invalidate(p, debounce) =>
        if c.pattern == p { NewTimerCovers(s, p, debounce, c); } else { CoverKept(s, n, c); }
      case Force(p) =>
        if c.pattern == p { BeginCovers(s, n, Forced, c); } else { CoverKept(s, n, c); }
      case Fire(timer) =>
        if c.pattern == s.timers[timer].pattern { BeginCovers(s, n, ByTimer, c); } else { CoverKept(s, n, c); }
      case Sweep(p, _) =>
        if c.pattern == p { BeginCovers(s, n, Swept(Waiting(s, p)), c); } else { CoverKept(s, n, c); }
      case _ => CoverKept(s, n, c);
    }
  }

  /**
   No invalidation request is forgotten: after any sequence of requests, firings, completions, failures, cleanups and
   shutdown steps in any interleaving, every request has a live timer armed at or after it, or a scan started at or
   after it.  Whether such a scan went through is the next theorem.
   */
  lemma {:induction false} NoLostInvalidation(s: State, events: seq<Event>)
    requires Sound(s) && AllCovered(s) && Possible(s, events)
    ensures Sound(Run(s, events)) && AllCovered(Run(s, events))
    decreases |events|
  {
    if events != [] {
      StepSound(s, events[0]);
      forall c | c in Step(s, events[0]).calls ensures Covered(Step(s, events[0]), c) {
        StepCovers(s, events[0], c);
      }
      NoLostInvalidation(Step(s, events[0]), events[1..]);
    }
  }

  /**
   Exactly when a request is served or still will be, over every run: unless scans of its pattern started at or after
   it, every one of them failed, and no timer is left.
   */
  lemma {:induction false} RequestServedIff(events: seq<Event>, c: Call)
    requires Possible(EMPTY, events) && c in Run(EMPTY, events).calls
    ensures var s := Run(EMPTY, events);
            LiveSince(s, c) || ServedSince(s, c) <==> !FailedSince(s, c)
  {
    NoLostInvalidation(EMPTY, events);
    assert Covered(Run(EMPTY, events), c);
  }

  ghost predicate NeverFails(events: seq<Event>) {
    forall e | e in events :: !e.ScanFail?
  }

  ghost predicate NoneFailed(s: State) {
    forall i | 0 <= i < |s.phases| :: s.phases[i] != Failed
  }

  lemma {:induction false} NoFailuresRun(s: State, events: seq<Event>)
    requires NoneFailed(s) && Possible(s, events) && NeverFails(events)
    ensures NoneFailed(Run(s, events))
    decreases |events|
  {
    if events != [] {
      assert events[0] in events;
      assert forall e | e in events[1..] :: e in events;
      NoFailuresRun(Step(s, events[0]), events[1..]);
    }
  }

  /** While no scan fails, every request is served or still will be. */
  lemma {:induction false} ServedWithoutFailures(events: seq<Event>, c: Call)
    requires Possible(EMPTY, events) && NeverFails(events) && c in Run(EMPTY, events).calls
    ensures LiveSince(Run(EMPTY, events), c) || ServedSince(Run(EMPTY, events), c)
  {
    NoFailuresRun(EMPTY, events);
    RequestServedIff(events, c);
  }

  // ---- One scan per burst ----

  function Live(s: State, p: string): set<nat> {
    set t | t in s.timers && s.timers[t].pattern == p
  }

  function Opened(calls: seq<Call>, p: string): nat {
    if calls == [] then 0
    else
      var last := calls[|calls| - 1];
      Opened(calls[..|calls| - 1], p) + if last.pattern == p && last.opens then 1 else 0
  }

  /** Scans that used up an armed timer. */
  function Spent(started: seq<Start>, p: string): nat {
    if started == [] then 0
    else
      var last := started[|started| - 1];
      Spent(started[..|started| - 1], p) + if last.pattern == p
          && (last.origin == ByTimer || last.origin == Swept(true)) then 1 else 0
  }

  /** Every burst of a pattern has either been scanned once or still holds exactly one live timer. */
  ghost predicate Balanced(s: State, p: string) {
    Opened(s.calls, p) == Spent(s.started, p) + |Live(s, p)|
  }

  lemma OpenedAppend(calls: seq<Call>, c: Call, p: string)
    ensures Opened(calls + [c], p) == Opened(calls, p) + if c.pattern == p && c.opens then 1 else 0
  {
    assert (calls + [c])[..|calls|] == calls;
  }

  lemma SpentAppend(started: seq<Start>, x: Start, p: string)
    ensures Spent(started + [x], p) ==
            Spent(started, p) + if x.pattern == p && (x.origin == ByTimer || x.origin == Swept(true)) then 1 else 0
  {
    assert (started + [x])[..|started|] == started;
  }

  lemma DisarmLive(s: State, p: string, q: string)
    requires Sound(s)
    ensures Live(Disarm(s, p), q) == if q == p && Waiting(s, p) then Live(s, q) - {s.pending[p]} else Live(s, q)
    ensures |Live(Disarm(s, p), q)| == |Live(s, q)| - if q == p && Waiting(s, p) then 1 else 0
  {
    if q == p && Waiting(s, p) { assert s.pending[p] in Live(s, q); }
  }

  /** Requests replace: the timers of a pattern grow by one exactly when nothing was waiting. */
  lemma InvalidateLive(s: State, p: string, debounce: nat, q: string)
    requires Sound(s)
    ensures |Live(Step(s, Invalidate(p, debounce)), q)| == |Live(s, q)| + if p == q && !Waiting(s, p) then 1 else 0
  {
    var n, d := Step(s, Invalidate(p, debounce)), Disarm(s, p);
    DisarmLive(s, p, q);
    assert s.nextTimer !in d.timers;
    if q == p {
      assert Live(n, q) == Live(d, q) + {s.nextTimer};
    } else {
      assert Live(n, q) == Live(d, q);
    }
  }

  lemma InvalidateBalanced(s: State, p: string, debounce: nat, q: string)
    requires Sound(s) && Balanced(s, q)
    ensures Balanced(Step(s, Invalidate(p, debounce)), q)
  {
    OpenedAppend(s.calls, Call(p, s.step, !Waiting(s, p)), q);
    InvalidateLive(s, p, debounce, q);
  }

  lemma ForceBalanced(s: State, p: string, q: string)
    requires Sound(s) && Balanced(s, q)
    ensures Balanced(Step(s, Force(p)), q)
  {
    OpenedAppend(s.calls, Call(p, s.step, false), q);
    SpentAppend(s.started, Start(p, s.step, Forced), q);
    assert Live(Step(s, Force(p)), q) == Live(s, q);
  }

  lemma FireBalanced(s: State, timer: nat, q: string)
    requires Sound(s) && Enabled(s, Fire(timer)) && Balanced(s, q)
    ensures Balanced(Step(s, Fire(timer)), q)
  {
    SpentAppend(s.started, Start(s.timers[timer].pattern, s.step, ByTimer), q);
    assert Live(Step(s, Fire(timer)), q) == Live(s, q) - {timer};
    assert timer in Live(s, q) <==> s.timers[timer].pattern == q;
  }

  lemma SweepBalanced(s: State, p: string, forget: bool, q: string)
    requires Sound(s) && Enabled(s, Sweep(p, forget)) && Balanced(s, q)
    ensures Balanced(Step(s, Sweep(p, forget)), q)
  {
    SpentAppend(s.started, Start(p, s.step, Swept(Waiting(s, p))), q);
    DisarmLive(s, p, q);
    assert Live(Step(s, Sweep(p, forget)), q) == Live(Disarm(s, p), q);
  }

  /** Events that arm no timer and start no scan. */
  predicate Passive(e: Event) {
    e.Advance? || e.ScanOk? || e.ScanFail? || e.Complete? || e.Clear?
  }

  lemma PassiveBalanced(s: State, e: Event, q: string)
    requires Sound(s) && Enabled(s, e) && Balanced(s, q) && Passive(e)
    ensures Balanced(Step(s, e), q)
  {
    assert Live(Step(s, e), q) == Live(s, q);
  }

  lemma StepBalanced(s: State, e: Event, q: string)
    requires Sound(s) && Enabled(s, e) && Balanced(s, q)
    ensures Balanced(Step(s, e), q)
  {
    match e
    case Invalidate(p, debounce) => InvalidateBalanced(s, p, debounce, q);
    case Force(p) => ForceBalanced(s, p, q);
    case Fire(timer) => FireBalanced(s, timer, q);
    case Sweep(p, forget) => SweepBalanced(s, p, forget, q);
    case _ => PassiveBalanced(s, e, q);
  }

  /**
   Bursts and scans balance over every run: the requests of a pattern that found nothing waiting are exactly as many as
   the scans that used up a timer plus the timers still live.
   */
  lemma {:induction false} OneScanPerBurst(s: State, events: seq<Event>, p: string)
    requires Sound(s) && Balanced(s, p) && Possible(s, events)
    ensures Balanced(Run(s, events), p)
    decreases |events|
  {
    if events != [] {
      StepSound(s, events[0]);
      StepBalanced(s, events[0], p);
      OneScanPerBurst(Step(s, events[0]), events[1..], p);
    }
  }

  /**
   Events of a burst: further requests, and anything that is not a sweep, the end of another scan of the pattern, or
   time reaching the timer.
   */
  predicate KeepsBurst(s: State, e: Event, p: string) {
    match e
    case Advance(to) => Waiting(s, p) && to < s.timers[s.pending[p]].due
    case Sweep(q, _) => q != p
    case Clear => false
    case Complete(run) => run < |s.started| && s.started[run].pattern != p
    case Fire(timer) => timer in s.timers && (s.timers[timer].pattern == p ==> p in s.pending && timer == s.pending[p])
    case _ => true
  }

  predicate Burst(s: State, events: seq<Event>, p: string)
    decreases |events|
  {
    events == [] || (Enabled(s, events[0]) && KeepsBurst(s, events[0], p) && Burst(Step(s, events[0]), events[1..], p))
  }

  predicate Armed(s: State, p: string) {
    Waiting(s, p) && s.now < s.timers[s.pending[p]].due
  }

  lemma BurstStep(s: State, e: Event, p: string)
    requires Sound(s) && Armed(s, p) && Enabled(s, e) && KeepsBurst(s, e, p)
    ensures Armed(Step(s, e), p)
    ensures Opened(Step(s, e).calls, p) == Opened(s.calls, p)
    ensures Spent(Step(s, e).started, p) == Spent(s.started, p)
  {
    match e {
      case Invalidate(q, debounce) =>
        OpenedAppend(s.calls, Call(q, s.step, !Waiting(s, q)), p);
      case Force(q) =>
        OpenedAppend(s.calls, Call(q, s.step, false), p);
        SpentAppend(s.started, Start(q, s.step, Forced), p);
      case Fire(timer) => SpentAppend(s.started, Start(s.timers[timer].pattern, s.step, ByTimer), p);
      case Sweep(q, _) => SpentAppend(s.started, Start(q, s.step, Swept(Waiting(s, q))), p);
      case _ =>
    }
  }

  /**
   Requests that keep coming before the armed timer is due collapse: no scan is started for the pattern meanwhile, no
   new burst is opened, and one timer is left to fire once.
   */
  lemma {:induction false} BurstCollapses(s: State, events: seq<Event>, p: string)
    requires Sound(s) && Armed(s, p) && Burst(s, events, p)
    ensures Possible(s, events)
    ensures Armed(Run(s, events), p)
    ensures Opened(Run(s, events).calls, p) == Opened(s.calls, p)
    ensures Spent(Run(s, events).started, p) == Spent(s.started, p)
    decreases |events|
  {
    if events != [] {
      StepSound(s, events[0]);
      BurstStep(s, events[0], p);
      BurstCollapses(Step(s, events[0]), events[1..], p);
    }
  }

  /** The state once the pattern's timer has come due and gone off. */
  function GoesOff(s: State, p: string): State
    requires Armed(s, p)
  {
    var timer := s.pending[p];
    Step(Step(s, Advance(s.timers[timer].due)), Fire(timer))
  }

  /**
   So a whole burst is one scan: when its timer finally goes off, one scan has started since the burst began and no
   timer of the pattern is left.
   */
  lemma {:induction false} BurstIsOneScan(s: State, events: seq<Event>, p: string)
    requires Sound(s) && Balanced(s, p) && Armed(s, p) && |Live(s, p)| == 1 && Burst(s, events, p)
    ensures Possible(s, events) && Armed(Run(s, events), p)
    ensures Spent(GoesOff(Run(s, events), p).started, p) == Spent(s.started, p) + 1
    ensures Live(GoesOff(Run(s, events), p), p) == {}
  {
    BurstCollapses(s, events, p);
    OneScanPerBurst(s, events, p);
    NoSoundnessLost(s, events);
    var m := Run(s, events);
    var timer := m.pending[p];
    var due := Step(m, Advance(m.timers[timer].due));
    StepBalanced(m, Advance(m.timers[timer].due), p);
    StepSound(m, Advance(m.timers[timer].due));
    StepBalanced(due, Fire(timer), p);
    SpentAppend(due.started, Start(p, due.step, ByTimer), p);
    assert timer in Live(m, p);
  }

  lemma {:induction false} NoSoundnessLost(s: State, events: seq<Event>)
    requires Sound(s) && Possible(s, events)
    ensures Sound(Run(s, events))
    decreases |events|
  {
    if events != [] {
      StepSound(s, events[0]);
      NoSoundnessLost(Step(s, events[0]), events[1..]);
    }
  }

  // ---- When a timer is due ----

  /**
   A request arms a timer of its own, due after exactly the time asked for, or after half a second when none is asked
   for.  It replaces the timer the map named; every other timer and entry stays, and no scan starts.
   */
  lemma RequestArms(s: State, p: string, debounce: nat)
    requires Sound(s)
    ensures var n := Step(s, Invalidate(p, debounce));
            && p in n.pending && n.pending[p] !in s.timers && n.pending[p] in n.timers
            && n.timers[n.pending[p]].pattern == p
            && n.timers[n.pending[p]].due == s.now + (if debounce > 0 then debounce else 500)
            && (p in s.pending ==> s.pending[p] !in n.timers)
            && (forall t | t in n.timers && t != n.pending[p] :: t in s.timers && n.timers[t] == s.timers[t])
            && (forall t | t in s.timers && !(p in s.pending && t == s.pending[p]) :: t in n.timers)
            && (forall q | q != p :: (q in n.pending <==> q in s.pending)
                  && (q in n.pending ==> n.pending[q] == s.pending[q]))
            && n.now == s.now && n.started == s.started && n.phases == s.phases
  {
  }

  /** It may go off from that time on, and not before. */
  lemma FiresWhenDue(s: State, p: string, debounce: nat, to: nat)
    requires Sound(s) && s.now <= to
    ensures var n := Step(s, Invalidate(p, debounce));
            Enabled(Step(n, Advance(to)), Fire(n.pending[p])) <==>
                to >= s.now + (if debounce > 0 then debounce else 500)
  {
    RequestArms(s, p, debounce);
  }

  /** A forced request starts its scan at once, is recorded as a request, and leaves timers and map alone. */
  lemma ForceMeans(s: State, p: string)
    ensures var n := Step(s, Force(p));
            && n.started == s.started + [Start(p, s.step, Forced)] && n.phases == s.phases + [Scanning]
            && n.calls == s.calls + [Call(p, s.step, false)]
            && n.timers == s.timers && n.pending == s.pending && n.now == s.now
  {
  }

  /**
   A scan runs until it is done or has failed; a failed one and a finished one stay so, and only a timer's scan that is
   done can finish.
   */
  lemma PhasesProgress(s: State, e: Event, i: nat)
    requires Enabled(s, e) && i < |s.phases|
    ensures i < |Step(s, e).phases|
    ensures var before, after := s.phases[i], Step(s, e).phases[i];
            && (before == Scanning ==> after == Scanning || after == Scanned || after == Failed)
            && (before == Scanned ==> after == Scanned || (after == Finished && s.started[i].origin == ByTimer))
            && (before == Failed || before == Finished ==> after == before)
            && (e == ScanFail(i) ==> after == Failed) && (e == ScanOk(i) ==> after == Scanned)
            && (e == Complete(i) ==> after == Finished)
  {
  }

  /**
   Requests with the same debounce that never wait for it: time always stops short of the last request's plus the
   debounce.  Everything else may happen in between but a sweep or the end of a scan of the pattern.
   */
  predicate InTime(s: State, events: seq<Event>, p: string, debounce: nat, asked: nat)
    decreases |events|
  {
    events == [] ||
    (Enabled(s, events[0])
     && (match events[0]
         case Advance(to) => to < asked + (if debounce > 0 then debounce else 500)
         case Invalidate(q, other) => q == p ==> other == debounce
         case Sweep(q, _) => q != p
         case Clear => false
         case Complete(run) => s.started[run].pattern != p
         case Fire(timer) => s.timers[timer].pattern == p ==> p in s.pending && timer == s.pending[p]
         case _ => true)
     && InTime(Step(s, events[0]), events[1..], p, debounce,
            if events[0].Invalidate? && events[0].pattern == p then s.now else asked))
  }

  function LastAsked(s: State, events: seq<Event>, p: string, asked: nat): nat
    requires Possible(s, events)
    decreases |events|
  {
    if events == [] then asked
    else
      LastAsked(Step(s, events[0]), events[1..], p,
          if events[0].Invalidate? && events[0].pattern == p then s.now else asked)
  }

  predicate DueAfter(s: State, p: string, debounce: nat, asked: nat) {
    Armed(s, p) && s.timers[s.pending[p]].due == asked + (if debounce > 0 then debounce else 500)
  }

  lemma StaysDue(s: State, e: Event, p: string, debounce: nat, asked: nat)
    requires Sound(s) && DueAfter(s, p, debounce, asked) && InTime(s, [e], p, debounce, asked)
    ensures Enabled(s, e) && KeepsBurst(s, e, p)
    ensures DueAfter(Step(s, e), p, debounce, if e.Invalidate? && e.pattern == p then s.now else asked)
  {
    if e.Invalidate? && e.pattern == p {
      RequestArms(s, p, debounce);
    }
  }

  lemma InTimeHead(s: State, events: seq<Event>, p: string, debounce: nat, asked: nat)
    requires events != [] && InTime(s, events, p, debounce, asked)
    ensures InTime(s, [events[0]], p, debounce, asked)
  {
    assert [events[0]][1..] == [];
  }

  lemma {:induction false} InTimeIsBurst(s: State, events: seq<Event>, p: string, debounce: nat, asked: nat)
    requires Sound(s) && DueAfter(s, p, debounce, asked) && InTime(s, events, p, debounce, asked)
    ensures Burst(s, events, p) && Possible(s, events)
    ensures DueAfter(Run(s, events), p, debounce, LastAsked(s, events, p, asked))
    decreases |events|
  {
    if events != [] {
      var e := events[0];
      InTimeHead(s, events, p, debounce, asked);
      StaysDue(s, e, p, debounce, asked);
      StepSound(s, e);
      InTimeIsBurst(Step(s, e), events[1..], p, debounce, if e.Invalidate? && e.pattern == p then s.now else asked);
    }
  }

  /**
   From any state: a request, and any others less than the debounce apart, start no scan of the pattern and open no
   further burst, and leave one timer in the map, due the debounce after the last request.
   */
  lemma {:induction false} GapsCollapse(s: State, events: seq<Event>, p: string, debounce: nat)
    requires Sound(s) && InTime(Step(s, Invalidate(p, debounce)), events, p, debounce, s.now)
    ensures var first := Step(s, Invalidate(p, debounce));
            && Possible(first, events)
            && var n := Run(first, events);
               && p in n.pending && n.pending[p] in n.timers
               && n.timers[n.pending[p]].due ==
                    LastAsked(first, events, p, s.now) + (if debounce > 0 then debounce else 500) > n.now
               && Opened(n.calls, p) == Opened(first.calls, p) && Spent(n.started, p) == Spent(s.started, p)
  {
    var first := Step(s, Invalidate(p, debounce));
    RequestArms(s, p, debounce);
    StepSound(s, Invalidate(p, debounce));
    InTimeIsBurst(first, events, p, debounce, s.now);
    BurstCollapses(first, events, p);
  }

  // ---- The pending map keeps track of the live timers ----

  /** Shutdown and cleanup can see every live timer. */
  ghost predicate Tracked(s: State) {
    forall t | t in s.timers :: s.timers[t].pattern in s.pending && s.pending[s.timers[t].pattern] == t
  }

  /**
   Finishing a scan forgets the pattern whatever its entry is by then: a newer timer is lost from view exactly when
   one is waiting.
   */
  lemma CompletionTracksIff(s: State, run: nat)
    requires Sound(s) && Tracked(s) && Enabled(s, Complete(run))
    ensures Tracked(Step(s, Complete(run))) <==> !Waiting(s, s.started[run].pattern)
  {
    var p := s.started[run].pattern;
    var n := Step(s, Complete(run));
    if Waiting(s, p) {
      assert s.pending[p] in n.timers && n.timers[s.pending[p]].pattern == p;
    }
  }

  /** A scan begun by a timer whose end has not run yet. */
  predicate Unfinished(s: State, run: nat) {
    run < |s.started| && run < |s.phases| && s.started[run].origin == ByTimer
        && (s.phases[run] == Scanning || s.phases[run] == Scanned)
  }

  ghost predicate Quiet(s: State) {
    && Tracked(s)
    && forall run: nat | Unfinished(s, run) :: !Waiting(s, s.started[run].pattern)
  }

  /** No request lands while its own pattern is being scanned by a timer, and shutdown ends with nothing waiting. */
  ghost predicate QuietEvent(s: State, e: Event) {
    match e
    case Invalidate(p, _) => forall run: nat | Unfinished(s, run) :: s.started[run].pattern != p
    case Clear => s.timers == map[]
    case _ => true
  }

  lemma QuietStep(s: State, e: Event)
    requires Sound(s) && Quiet(s) && Enabled(s, e) && QuietEvent(s, e)
    ensures Quiet(Step(s, e))
  {
    var n := Step(s, e);
    match e {
      case Complete(r) => CompletionTracksIff(s, r);
      case _ =>
    }
    forall run: nat | Unfinished(n, run) ensures !Waiting(n, n.started[run].pattern) {
      if run < |s.started| {
        assert Unfinished(s, run);
        assert n.started[run] == s.started[run];
      }
    }
  }

  ghost predicate QuietRun(s: State, events: seq<Event>)
    decreases |events|
  {
    events == [] || (Enabled(s, events[0]) && QuietEvent(s, events[0]) && QuietRun(Step(s, events[0]), events[1..]))
  }

  /**
   In runs where no request lands during its own pattern's scan, the map always shows every live timer: at most one
   per pattern.
   */
  lemma {:induction false} QuietRunsStayTracked(s: State, events: seq<Event>)
    requires Sound(s) && Quiet(s) && QuietRun(s, events)
    ensures Possible(s, events)
    ensures Sound(Run(s, events)) && Quiet(Run(s, events))
    decreases |events|
  {
    if events != [] {
      StepSound(s, events[0]);
      QuietStep(s, events[0]);
      QuietRunsStayTracked(Step(s, events[0]), events[1..]);
    }
  }

  // ---- Shutdown and cleanup ----

  function Sweeps(order: seq<string>, forget: bool): seq<Event> {
    if order == [] then [] else [Sweep(order[0], forget)] + Sweeps(order[1..], forget)
  }

  /** Each pending pattern once, in some order. */
  ghost predicate Lists(order: seq<string>, patterns: set<string>) {
    && (forall p :: p in order <==> p in patterns)
    && (forall i, j | 0 <= i < j < |order| :: order[i] != order[j])
  }

  /** Sweeping without forgetting stops exactly the timers the map entries name. */
  lemma {:induction false} SweepsDisarm(s: State, order: seq<string>)
    requires forall p | p in order :: p in s.pending
    ensures Possible(s, Sweeps(order, false))
    ensures var n := Run(s, Sweeps(order, false));
            && n.pending == s.pending && n.calls == s.calls
            && n.timers == s.timers - set p | p in order :: s.pending[p]
    decreases |order|
  {
    if order == [] {
      assert s.timers - {} == s.timers;
    } else {
      var n := Step(s, Sweep(order[0], false));
      assert Sweeps(order, false)[1..] == Sweeps(order[1..], false);
      SweepsDisarm(n, order[1..]);
      assert (set p | p in order :: s.pending[p]) == {s.pending[order[0]]} + set p | p in order[1..] ::
          n.pending[p] by {
        assert order == [order[0]] + order[1..];
      }
    }
  }

  lemma {:induction false} RunAppend(s: State, a: seq<Event>, b: seq<Event>)
    requires Possible(s, a) && Possible(Run(s, a), b)
    ensures Possible(s, a + b) && Run(s, a + b) == Run(Run(s, a), b)
    decreases |a|
  {
    if a == [] {
      assert a + b == b;
    } else {
      assert (a + b)[1..] == a[1..] + b;
      RunAppend(Step(s, a[0]), a[1..], b);
    }
  }

  /** What shutdown does: run every pending pattern now, then empty the map. */
  function ShutdownEvents(order: seq<string>): seq<Event> {
    Sweeps(order, false) + [Clear]
  }

  lemma {:induction false} ShutdownState(s: State, order: seq<string>)
    requires Lists(order, s.pending.Keys)
    ensures Possible(s, ShutdownEvents(order))
    ensures var n := Run(s, ShutdownEvents(order));
            && n.pending == map[] && n.calls == s.calls
            && n.timers == s.timers - set p | p in order :: s.pending[p]
  {
    SweepsDisarm(s, order);
    RunAppend(s, Sweeps(order, false), [Clear]);
  }

  /** Shutdown leaves no timer behind exactly when the map was tracking all of them. */
  lemma {:induction false} ShutdownStopsAllIffTracked(s: State, order: seq<string>)
    requires Sound(s) && Lists(order, s.pending.Keys)
    ensures Possible(s, ShutdownEvents(order))
    ensures Run(s, ShutdownEvents(order)).timers == map[] <==> Tracked(s)
  {
    ShutdownState(s, order);
    var n := Run(s, ShutdownEvents(order));
    var stopped := set p | p in order :: s.pending[p];
    assert n.timers == s.timers - stopped;
    if Tracked(s) {
      forall t ensures t !in n.timers {
        if t in s.timers { assert s.pending[s.timers[t].pattern] in stopped; }
      }
    } else {
      var t :| t in s.timers && !(s.timers[t].pattern in s.pending && s.pending[s.timers[t].pattern] == t);
      assert t in n.timers;
    }
  }

  /**
   What a pass over the map records: one running scan per pattern listed, and nothing that was there before changes.
   */
  ghost predicate PassRecorded(s: State, n: State, order: seq<string>)
    requires |s.phases| == |s.started|
  {
    && |n.phases| == |n.started| && s.started <= n.started && s.phases <= n.phases
    && (forall i | |s.started| <= i < |n.started| ::
        n.started[i].pattern in order && n.started[i].at >= s.step
        && n.phases[i] == Scanning)
    && (forall p | p in order :: ScannedSince(n, p, |s.started|))
  }

  ghost predicate ScannedSince(s: State, p: string, k: nat) {
    exists i | k <= i < |s.started| :: s.started[i].pattern == p
  }

  lemma PassCons(s: State, mid: State, n: State, order: seq<string>)
    requires order != [] && order[0] in s.pending && |s.phases| == |s.started|
    requires mid == Step(s, Sweep(order[0], false)) && PassRecorded(mid, n, order[1..])
    ensures PassRecorded(s, n, order)
  {
    assert mid.started == s.started + [Start(order[0], s.step, Swept(Waiting(s, order[0])))];
    assert n.started[|s.started|] == mid.started[|s.started|] && n.phases[|s.started|] == Scanning;
    forall p | p in order ensures ScannedSince(n, p, |s.started|) {
      if p == order[0] {
        assert n.started[|s.started|].pattern == p;
      } else {
        assert p in order[1..];
        var i :| |mid.started| <= i < |n.started| && n.started[i].pattern == p;
      }
    }
  }

  lemma {:induction false} SweepsRecord(s: State, order: seq<string>)
    requires |s.phases| == |s.started| && forall q | q in order :: q in s.pending
    ensures Possible(s, Sweeps(order, false))
    ensures PassRecorded(s, Run(s, Sweeps(order, false)), order)
    decreases |order|
  {
    if order != [] {
      var mid := Step(s, Sweep(order[0], false));
      assert Sweeps(order, false)[1..] == Sweeps(order[1..], false);
      SweepsRecord(mid, order[1..]);
      PassCons(s, mid, Run(mid, Sweeps(order[1..], false)), order);
    }
  }

  lemma {:induction false} ShutdownRecords(s: State, order: seq<string>)
    requires |s.phases| == |s.started| && Lists(order, s.pending.Keys)
    ensures Possible(s, ShutdownEvents(order))
    ensures PassRecorded(s, Run(s, ShutdownEvents(order)), order)
  {
    SweepsRecord(s, order);
    SweepsDisarm(s, order);
    RunAppend(s, Sweeps(order, false), [Clear]);
    var mid := Run(s, Sweeps(order, false));
    assert Run(mid, [Clear]) == Step(mid, Clear) by { assert [Clear][1..] == []; }
    forall p | p in order ensures ScannedSince(Step(mid, Clear), p, |s.started|) {
      assert ScannedSince(mid, p, |s.started|);
    }
  }

  /** When the map tracks all timers, shutdown has started a scan at or after every request ever made. */
  lemma ShutdownFlushesEverything(s: State, order: seq<string>, c: Call)
    requires Sound(s) && AllCovered(s) && Tracked(s) && Lists(order, s.pending.Keys) && c in s.calls
    ensures Possible(s, ShutdownEvents(order))
    ensures exists i: nat :: ScanSince(Run(s, ShutdownEvents(order)), c, i)
  {
    ShutdownState(s, order);
    ShutdownStopsAllIffTracked(s, order);
    NoLostInvalidation(s, ShutdownEvents(order));
    assert Covered(Run(s, ShutdownEvents(order)), c);
  }

  /** Exactly which requests a shutdown serves: those served before it, and those whose pattern is still in the map. */
  lemma {:induction false} ShutdownServesIff(s: State, order: seq<string>, c: Call)
    requires Sound(s) && Lists(order, s.pending.Keys) && c in s.calls
    ensures Possible(s, ShutdownEvents(order))
    ensures ServedSince(Run(s, ShutdownEvents(order)), c) <==> ServedSince(s, c) || c.pattern in s.pending
  {
    ShutdownRecords(s, order);
    var n := Run(s, ShutdownEvents(order));
    if ServedSince(s, c) {
      var i: nat :| ScanSince(s, c, i) && s.phases[i] != Failed;
      assert ScanSince(n, c, i) && n.phases[i] == s.phases[i];
    }
    if c.pattern in s.pending {
      assert ScannedSince(n, c.pattern, |s.started|);
      var i :| |s.started| <= i < |n.started| && n.started[i].pattern == c.pattern;
      assert ScanSince(n, c, i) && n.phases[i] == Scanning;
    }
    if ServedSince(n, c) {
      var i: nat :| ScanSince(n, c, i) && n.phases[i] != Failed;
      if i < |s.started| { assert ScanSince(s, c, i) && s.phases[i] == n.phases[i]; }
    }
  }

  lemma {:induction false} CleanupScansIff(s: State, stale: seq<string>, p: string, k: nat)
    requires |s.phases| == |s.started| && k <= |s.started|
    ensures ScannedSince(CleanupOn(s, stale), p, k) <==> ScannedSince(s, p, k) || (p in stale && p in s.pending)
    decreases |stale|
  {
    if stale != [] {
      var n := if stale[0] in s.pending then Step(s, Sweep(stale[0], true)) else s;
      CleanupScansIff(n, stale[1..], p, k);
      if stale[0] in s.pending {
        assert n.started == s.started + [Start(stale[0], s.step, Swept(Waiting(s, stale[0])))];
        if p == stale[0] { assert n.started[|s.started|].pattern == p; }
        if ScannedSince(s, p, k) {
          var i :| k <= i < |s.started| && s.started[i].pattern == p;
          assert n.started[i].pattern == p;
        }
        if ScannedSince(n, p, k) && p != stale[0] {
          var i :| k <= i < |n.started| && n.started[i].pattern == p;
          assert i < |s.started|;
        }
      }
      assert p in stale <==> p == stale[0] || p in stale[1..];
    }
  }

  /** A timer's scan of the pattern completes, older or not, or the pattern is cleaned up, or the map is cleared. */
  predicate Drops(s: State, e: Event, p: string)
    requires Enabled(s, e)
  {
    (e.Complete? && s.started[e.run].pattern == p) || (e.Sweep? && e.forget && e.pattern == p) || e.Clear?
  }

  predicate NeverDropped(s: State, events: seq<Event>, p: string)
    requires Possible(s, events)
    decreases |events|
  {
    events == [] || (!Drops(s, events[0], p) && NeverDropped(Step(s, events[0]), events[1..], p))
  }

  function StateAfter(s: State, events: seq<Event>, k: nat): (n: State)
    requires Possible(s, events) && k <= |events|
    ensures Possible(n, events[k..])
    decreases k
  {
    if k == 0 then s else
      assert events[1..][k - 1..] == events[k..];
      StateAfter(Step(s, events[0]), events[1..], k - 1)
  }

  /** The pattern is asked for at place k, and nothing drops it from then on. */
  predicate KeptSince(s: State, events: seq<Event>, p: string, k: nat)
    requires Possible(s, events)
  {
    && k < |events| && events[k].Invalidate? && events[k].pattern == p
    && NeverDropped(StateAfter(s, events, k + 1), events[k + 1..], p)
  }

  lemma KeptSinceShift(s: State, events: seq<Event>, p: string, k: nat)
    requires Possible(s, events) && events != []
    ensures KeptSince(s, events, p, k + 1) <==> KeptSince(Step(s, events[0]), events[1..], p, k)
  {
    if k + 1 < |events| {
      assert events[1..][k] == events[k + 1] && events[1..][k + 1..] == events[k + 2..];
    }
  }

  /**
   What the map remembers, over any run: a pattern that it had and nothing dropped, or one asked for and not dropped
   since.
   */
  lemma {:induction false} RememberedIff(s: State, events: seq<Event>, p: string)
    requires Possible(s, events)
    ensures p in Run(s, events).pending <==>
            (p in s.pending && NeverDropped(s, events, p)) || exists k: nat :: KeptSince(s, events, p, k)
    decreases |events|
  {
    if events == [] {
      assert forall k: nat :: !KeptSince(s, events, p, k);
    } else {
      var e, n, rest := events[0], Step(s, events[0]), events[1..];
      RememberedIff(n, rest, p);
      var asked := e.Invalidate? && e.pattern == p;
      assert p in n.pending <==> asked || (p in s.pending && !Drops(s, e, p));
      assert KeptSince(s, events, p, 0) <==> asked && NeverDropped(n, rest, p);
      if k: nat :| KeptSince(n, rest, p, k) {
        KeptSinceShift(s, events, p, k);
        assert KeptSince(s, events, p, k + 1);
      }
      if k: nat :| KeptSince(s, events, p, k) && k > 0 {
        KeptSinceShift(s, events, p, k - 1);
      }
    }
  }

  /**
   Exactly when a failed scan is made good.  Whatever happens after the failure, a cleanup that picks the pattern, or a
   shutdown, scans it again if and only if the map still names it then; the scan's own second half never runs.
   */
  lemma {:induction false} FailedScanRetriedIff(s: State, run: nat, events: seq<Event>, order: seq<string>,
      stale: seq<string>)
    requires Sound(s) && Enabled(s, ScanFail(run)) && Possible(Step(s, ScanFail(run)), events)
    requires Lists(order, Run(Step(s, ScanFail(run)), events).pending.Keys) && s.started[run].pattern in stale
    ensures !Enabled(Step(s, ScanFail(run)), Complete(run))
    ensures var n, p := Run(Step(s, ScanFail(run)), events), s.started[run].pattern;
            && Possible(n, ShutdownEvents(order))
            && (ScannedSince(Run(n, ShutdownEvents(order)), p, |n.started|) <==> p in n.pending)
            && (ScannedSince(CleanupOn(n, stale), p, |n.started|) <==> p in n.pending)
  {
    StepSound(s, ScanFail(run));
    NoSoundnessLost(Step(s, ScanFail(run)), events);
    var n, p := Run(Step(s, ScanFail(run)), events), s.started[run].pattern;
    ShutdownRecords(n, order);
    CleanupScansIff(n, stale, p, |n.started|);
    assert !ScannedSince(n, p, |n.started|);
  }

  // ---- Runs that reach the failures ----

  ghost predicate Reaches(s: State, events: seq<Event>, n: State) {
    Possible(s, events) && Run(s, events) == n
  }

  lemma Then(s: State, e: Event, rest: seq<Event>, n: State)
    requires Enabled(s, e) && Reaches(Step(s, e), rest, n)
    ensures Reaches(s, [e] + rest, n)
  {
    assert ([e] + rest)[1..] == rest;
  }

  /** A request, its timer goes off, and another request comes while the scan runs. */
  function TwoRequests(p: string): State {
    var s1 := Step(EMPTY, Invalidate(p, 0));
    var s2 := Step(s1, Advance(DEFAULT_DEBOUNCE));
    var s3 := if Enabled(s2, Fire(0)) then Step(s2, Fire(0)) else s2;
    Step(s3, Invalidate(p, 0))
  }

  lemma TwoRequestsShape(p: string)
    ensures var s := TwoRequests(p);
            && s.timers == map[1 := Timer(p, 3, 2 * DEFAULT_DEBOUNCE)] && s.pending == map[p := 1]
                && s.now == DEFAULT_DEBOUNCE
            && s.started == [Start(p, 2, ByTimer)] && s.phases == [Scanning] && s.step == 4 && s.nextTimer == 2
            && s.calls == [Call(p, 0, true), Call(p, 3, true)]
    ensures Reaches(EMPTY, [Invalidate(p, 0), Advance(DEFAULT_DEBOUNCE), Fire(0), Invalidate(p, 0)], TwoRequests(p))
  {
    var s1 := Step(EMPTY, Invalidate(p, 0));
    var s2 := Step(s1, Advance(DEFAULT_DEBOUNCE));
    assert Enabled(s2, Fire(0));
    var s3 := Step(s2, Fire(0));
    var s4 := Step(s3, Invalidate(p, 0));
    assert Reaches(s4, [], s4);
    Then(s3, Invalidate(p, 0), [], s4);
    Then(s2, Fire(0), [Invalidate(p, 0)], s4);
    Then(s1, Advance(DEFAULT_DEBOUNCE), [Fire(0)] + [Invalidate(p, 0)], s4);
    Then(EMPTY, Invalidate(p, 0), [Advance(DEFAULT_DEBOUNCE)] + ([Fire(0)] + [Invalidate(p, 0)]), s4);
    assert [Invalidate(p, 0)] + ([Advance(DEFAULT_DEBOUNCE)] + ([Fire(0)] + [Invalidate(p, 0)]))
        == [Invalidate(p, 0), Advance(DEFAULT_DEBOUNCE), Fire(0), Invalidate(p, 0)];
  }

  /**
   The first scan then completes: the second request's timer is live, the map does not name it, and shutdown leaves it
   running.
   */
  lemma CompletionLosesTrack(p: string)
    ensures var s := TwoRequests(p);
            && Enabled(s, ScanOk(0)) && Enabled(Step(s, ScanOk(0)), Complete(0))
            && var n := Step(Step(s, ScanOk(0)), Complete(0));
               && Tracked(s) && !Tracked(n) && Lists([], n.pending.Keys)
               && Possible(n, ShutdownEvents([])) && 1 in Run(n, ShutdownEvents([])).timers
  {
    TwoRequestsShape(p);
    var n := Step(Step(TwoRequests(p), ScanOk(0)), Complete(0));
    assert n.pending == map[] && n.pending.Keys == {};
    assert 1 in n.timers && n.timers[1].pattern == p;
    assert Reaches(Step(n, Clear), [], Step(n, Clear));
    Then(n, Clear, [], Step(n, Clear));
    assert ShutdownEvents([]) == [Clear] + [];
  }

  /** Both timers have gone off and both scans run. */
  function BothRunning(p: string): State {
    State(6, 2 * DEFAULT_DEBOUNCE, map[p := 1], map[], 2, [Start(p, 2, ByTimer), Start(p, 5, ByTimer)],
          [Scanning, Scanning], [Call(p, 0, true), Call(p, 3, true)])
  }

  lemma ReachBothRunning(p: string)
    ensures Reaches(TwoRequests(p), [Advance(2 * DEFAULT_DEBOUNCE)] + [Fire(1)], BothRunning(p))
  {
    TwoRequestsShape(p);
    var s := Step(TwoRequests(p), Advance(2 * DEFAULT_DEBOUNCE));
    assert Step(s, Fire(1)) == BothRunning(p);
    assert Reaches(BothRunning(p), [], BothRunning(p));
    Then(s, Fire(1), [], BothRunning(p));
    Then(TwoRequests(p), Advance(2 * DEFAULT_DEBOUNCE), [Fire(1)], BothRunning(p));
  }

  lemma {:induction false} Chained(s: State, a: seq<Event>, m: State, b: seq<Event>, n: State)
    requires Reaches(s, a, m) && Reaches(m, b, n)
    ensures Reaches(s, a + b, n)
    decreases |a|
  {
    if a == [] {
      assert a + b == b;
    } else {
      assert (a + b)[0] == a[0] && (a + b)[1..] == a[1..] + b;
      Chained(Step(s, a[0]), a[1..], m, b, n);
    }
  }

  /** The older scan completes after the newer one has failed. */
  function OlderCompleted(p: string): State {
    State(9, 2 * DEFAULT_DEBOUNCE, map[], map[], 2, [Start(p, 2, ByTimer), Start(p, 5, ByTimer)],
          [Finished, Failed], [Call(p, 0, true), Call(p, 3, true)])
  }

  lemma ReachOlderCompleted(p: string)
    ensures Reaches(BothRunning(p), [ScanFail(1)] + ([ScanOk(0)] + [Complete(0)]), OlderCompleted(p))
  {
    var s1 := Step(BothRunning(p), ScanFail(1));
    var s2 := Step(s1, ScanOk(0));
    assert Step(s2, Complete(0)) == OlderCompleted(p);
    assert Reaches(OlderCompleted(p), [], OlderCompleted(p));
    Then(s2, Complete(0), [], OlderCompleted(p));
    Then(s1, ScanOk(0), [Complete(0)], OlderCompleted(p));
    Then(BothRunning(p), ScanFail(1), [ScanOk(0)] + [Complete(0)], OlderCompleted(p));
  }

  /**
   Or the second request's timer goes off as well, its scan fails, and then the first scan completes: the map forgets
   the pattern, no timer is left, and the second request is lost to cleanup and shutdown alike.
   */
  lemma OlderCompletionLosesRequest(p: string)
    ensures var events := [Invalidate(p, 0), Advance(DEFAULT_DEBOUNCE), Fire(0), Invalidate(p, 0),
              Advance(2 * DEFAULT_DEBOUNCE), Fire(1), ScanFail(1), ScanOk(0), Complete(0)];
            && Possible(EMPTY, events)
            && var n := Run(EMPTY, events);
               Call(p, 3, true) in n.calls && FailedSince(n, Call(p, 3, true)) && p !in n.pending && n.timers == map[]
  {
    var a := [Invalidate(p, 0), Advance(DEFAULT_DEBOUNCE), Fire(0), Invalidate(p, 0)];
    var b := [Advance(2 * DEFAULT_DEBOUNCE)] + [Fire(1)];
    var c := [ScanFail(1)] + ([ScanOk(0)] + [Complete(0)]);
    TwoRequestsShape(p);
    ReachBothRunning(p);
    ReachOlderCompleted(p);
    Chained(TwoRequests(p), b, BothRunning(p), c, OlderCompleted(p));
    Chained(EMPTY, a, TwoRequests(p), b + c, OlderCompleted(p));
    assert a + (b + c) == [Invalidate(p, 0), Advance(DEFAULT_DEBOUNCE), Fire(0), Invalidate(p, 0),
        Advance(2 * DEFAULT_DEBOUNCE), Fire(1), ScanFail(1), ScanOk(0), Complete(0)];
    OlderCompletedLost(p);
  }

  lemma OlderCompletedLost(p: string)
    ensures Call(p, 3, true) in OlderCompleted(p).calls && FailedSince(OlderCompleted(p), Call(p, 3, true))
  {
    var n := OlderCompleted(p);
    assert n.calls[1] == Call(p, 3, true);
    assert ScanSince(n, Call(p, 3, true), 1);
  }

  /** From a fresh service, over every run: nothing is lost, and bursts balance scans for every pattern. */
  lemma FreshRuns(events: seq<Event>, p: string)
    requires Possible(EMPTY, events)
    ensures Sound(Run(EMPTY, events)) && AllCovered(Run(EMPTY, events)) && Balanced(Run(EMPTY, events), p)
  {
    NoLostInvalidation(EMPTY, events);
    OneScanPerBurst(EMPTY, events, p);
  }

  /** Cleanup: patterns found stale are run now and forgotten, unless their entry has gone meanwhile. */
  function CleanupOn(s: State, stale: seq<string>): State
    decreases |stale|
  {
    if stale == [] then s
    else CleanupOn(if stale[0] in s.pending then Step(s, Sweep(stale[0], true)) else s, stale[1..])
  }

  /** Cleanup loses nothing and keeps the map tracking every live timer. */
  lemma {:induction false} CleanupKeeps(s: State, stale: seq<string>)
    requires Sound(s) && AllCovered(s) && Quiet(s)
    ensures Sound(CleanupOn(s, stale)) && AllCovered(CleanupOn(s, stale)) && Quiet(CleanupOn(s, stale))
    ensures forall p | p in stale :: p !in CleanupOn(s, stale).pending
    ensures CleanupOn(s, stale).pending.Keys <= s.pending.Keys
    decreases |stale|
  {
    if stale != [] {
      var e := Sweep(stale[0], true);
      var n := if stale[0] in s.pending then Step(s, e) else s;
      if stale[0] in s.pending {
        assert Run(n, []) == n;
        assert Run(s, [e]) == n by { assert [e][1..] == []; }
        NoLostInvalidation(s, [e]);
        QuietStep(s, e);
      }
      CleanupKeeps(n, stale[1..]);
    }
  }

  // ---- The service ----

  class CacheService {
    var step: nat
    var now: nat
    var pendingInvalidations: map<string, nat>
    var timers: map<nat, Timer>
    var nextTimer: nat
    var started: seq<Start>
    var phases: seq<Phase>
    var calls: seq<Call>

    constructor ()
      ensures Contents() == EMPTY
    {
      step, now, nextTimer := 0, 0, 0;
      pendingInvalidations, timers := map[], map[];
      started, phases, calls := [], [], [];
    }

    function Contents(): State
      reads this
    {
      State(step, now, pendingInvalidations, timers, nextTimer, started, phases, calls)
    }

    /** A request: run at once when forced, otherwise replace the waiting timer. */
    method InvalidatePattern(pattern: string, force: bool, debounce: nat)
      modifies this
      ensures Contents() == Step(old(Contents()), if force then Force(pattern) else Invalidate(pattern, debounce))
    {
      if force {
        calls := calls + [Call(pattern, step, false)];
        BeginExecution(pattern, Forced);
        step := step + 1;
        return;
      }
      var debounceTime := if debounce != 0 then debounce else DEFAULT_DEBOUNCE;
      var waiting := false;
      if pattern in pendingInvalidations {
        waiting := pendingInvalidations[pattern] in timers;
        timers := timers - {pendingInvalidations[pattern]};
      }
      timers := timers[nextTimer := Timer(pattern, step, now + debounceTime)];
      pendingInvalidations := pendingInvalidations[pattern := nextTimer];
      calls := calls + [Call(pattern, step, !waiting)];
      nextTimer, step := nextTimer + 1, step + 1;
    }

    /** The part of an execution up to its first await. */
    method BeginExecution(pattern: string, origin: Origin)
      modifies this`started, this`phases
      ensures Contents() == Begin(old(Contents()), pattern, origin)
    {
      started := started + [Start(pattern, step, origin)];
      phases := phases + [Scanning];
    }

    /** A due timer goes off; its entry in the map stays until the scan is over. */
    method TimerFires(timer: nat)
      requires Enabled(Contents(), Fire(timer))
      modifies this
      ensures Contents() == Step(old(Contents()), Fire(timer))
    {
      var pattern := timers[timer].pattern;
      timers := timers - {timer};
      BeginExecution(pattern, ByTimer);
      step := step + 1;
    }

    /** The part of a timer's callback after the await. */
    method AfterExecution(run: nat)
      requires Enabled(Contents(), Complete(run))
      modifies this
      ensures Contents() == Step(old(Contents()), Complete(run))
    {
      pendingInvalidations := pendingInvalidations - {started[run].pattern};
      phases := phases[run := Finished];
      step := step + 1;
    }

    method RunNow(pattern: string, forget: bool)
      requires pattern in pendingInvalidations
      modifies this
      ensures Contents() == Step(old(Contents()), Sweep(pattern, forget))
    {
      var waiting := pendingInvalidations[pattern] in timers;
      timers := timers - {pendingInvalidations[pattern]};
      if forget {
        pendingInvalidations := pendingInvalidations - {pattern};
      }
      BeginExecution(pattern, Swept(waiting));
      step := step + 1;
    }

    method CleanupPendingInvalidations(stale: seq<string>)
      modifies this
      ensures Contents() == CleanupOn(old(Contents()), stale)
    {
      var i := 0;
      while i < |stale|
        invariant 0 <= i <= |stale|
        invariant CleanupOn(Contents(), stale[i..]) == CleanupOn(old(Contents()), stale)
      {
        assert stale[i..][1..] == stale[i + 1..];
        if stale[i] in pendingInvalidations {
          RunNow(stale[i], true);
        }
        i := i + 1;
      }
    }

    /** Runs every pending pattern now, in the map's order, and empties the map. */
    method OnModuleDestroy(order: seq<string>)
      requires Lists(order, pendingInvalidations.Keys)
      modifies this
      ensures Possible(old(Contents()), ShutdownEvents(order))
      ensures Contents() == Run(old(Contents()), ShutdownEvents(order))
    {
      ghost var s := Contents();
      SweepsDisarm(s, order);
      RunAppend(s, Sweeps(order, false), [Clear]);
      var i := 0;
      while i < |order|
        invariant 0 <= i <= |order|
        invariant pendingInvalidations == s.pending
        invariant Possible(Contents(), Sweeps(order[i..], false))
        invariant Run(Contents(), Sweeps(order[i..], false)) == Run(s, Sweeps(order, false))
      {
        assert order[i] in order;
        assert order[i..][1..] == order[i + 1..];
        assert Sweeps(order[i..], false)[1..] == Sweeps(order[i + 1..], false);
        RunNow(order[i], false);
        i := i + 1;
      }
      pendingInvalidations := map[];
      step := step + 1;
    }
  }
}
