/**
 Guesses of one verification code that overlap.  A guess reads the attempts stored with the code, is compared, and saves
 what it read plus one, whatever is stored by then; no lock is taken.  With up to `k` guesses in between, the most that
 can be compared is C(maxAttempts + k, maxAttempts) - 1.
 */
module GuessRaces {
  import Verification

  /** The attempts stored, what each guess under way has read, and the comparisons made so far. */
  datatype Guesses = Guesses(stored: nat, reading: seq<nat>, compared: nat)

  datatype Event = Read | Save(slot: nat)

  const START := Guesses(0, [], 0)

  predicate Enabled(m: Guesses, e: Event, most: nat, k: nat) {
    match e
    case Read => m.stored < most && |m.reading| < k
    case Save(slot) => slot < |m.reading|
  }

  function Step(m: Guesses, e: Event): Guesses
    requires e.Save? ==> e.slot < |m.reading|
  {
    match e
    case Read => Guesses(m.stored, m.reading + [m.stored], m.compared + 1)
    case Save(slot) => Guesses(m.reading[slot] + 1, m.reading[..slot] + m.reading[slot + 1..], m.compared)
  }

  predicate Possible(m: Guesses, events: seq<Event>, most: nat, k: nat)
    decreases |events|
  {
    events == [] || (Enabled(m, events[0], most, k) && Possible(Step(m, events[0]), events[1..], most, k))
  }

  function Run(m: Guesses, events: seq<Event>, most: nat, k: nat): Guesses
    requires Possible(m, events, most, k)
    decreases |events|
  {
    if events == [] then m else Run(Step(m, events[0]), events[1..], most, k)
  }

  // ---- Binomial coefficients ----

  function Choose(n: nat, k: nat): nat {
    if k == 0 then 1 else if n == 0 then 0 else Choose(n - 1, k - 1) + Choose(n - 1, k)
  }

  lemma {:induction false} ChooseMonotone(m: nat, n: nat, k: nat)
    requires m <= n
    ensures Choose(m, k) <= Choose(n, k)
    decreases n - m
  {
    if m < n && k > 0 {
      ChooseMonotone(m, n - 1, k);
    }
  }

  lemma {:induction false} ChooseOne(n: nat)
    ensures Choose(n, 1) == n
  {
    if n > 0 {
      ChooseOne(n - 1);
    }
  }

  lemma {:induction false} ChooseSelf(n: nat, k: nat)
    requires n <= k
    ensures Choose(n, k) == if n == k then 1 else 0
  {
    if n > 0 {
      ChooseSelf(n - 1, k - 1);
      ChooseSelf(n - 1, k);
    }
  }

  // ---- The bound ----

  /** How many of the values are at least w. */
  function AtLeast(values: seq<nat>, w: nat): nat {
    if values == [] then 0 else AtLeast(values[..|values| - 1], w) + if values[|values| - 1] >= w then 1 else 0
  }

  lemma {:induction false} AtLeastJoin(x: seq<nat>, y: seq<nat>, w: nat)
    ensures AtLeast(x + y, w) == AtLeast(x, w) + AtLeast(y, w)
  {
    if y == [] {
      assert x + y == x;
    } else {
      assert (x + y)[..|x + y| - 1] == x + y[..|y| - 1];
      AtLeastJoin(x, y[..|y| - 1], w);
    }
  }

  lemma {:induction false} AtLeastSize(values: seq<nat>, w: nat, v: nat)
    requires v <= w
    ensures AtLeast(values, w) <= AtLeast(values, v) <= |values|
    ensures v == 0 ==> AtLeast(values, v) == |values|
  {
    if values != [] {
      AtLeastSize(values[..|values| - 1], w, v);
    }
  }

  lemma {:induction false} NoneAtLeast(values: seq<nat>, w: nat)
    requires forall x | x in values :: x < w
    ensures AtLeast(values, w) == 0
  {
    if values != [] {
      var init := values[..|values| - 1];
      assert values[|values| - 1] in values;
      forall x | x in init ensures x < w { assert x in values; }
      NoneAtLeast(init, w);
    }
  }

  /**
   Of the k guesses that may be under way, how many hold at least w: those that have read it, and, since they would read
   what is stored, all that are free.
   */
  function Slots(m: Guesses, k: nat, w: nat): nat
    requires |m.reading| <= k
  {
    AtLeast(m.reading, w) + if m.stored >= w then k - |m.reading| else 0
  }

  /** The same for w from the limit down to one. */
  function Counts(m: Guesses, most: nat, k: nat): (c: seq<nat>)
    requires |m.reading| <= k
    ensures |c| == most && forall e | 0 <= e < most :: c[e] == Slots(m, k, most - e)
  {
    seq(most, e requires 0 <= e < most => Slots(m, k, most - e))
  }

  /** How far a machine has got; every save takes it further. */
  function Rank(c: seq<nat>): nat {
    if c == [] then 0 else Rank(c[..|c| - 1]) + Choose(|c| - 1 + c[|c| - 1], |c|)
  }

  lemma {:induction false} RankBelow(c: seq<nat>, n: nat)
    requires forall x | x in c :: x <= n
    ensures Rank(c) < Choose(|c| + n, |c|)
  {
    if c != [] {
      var init, last := c[..|c| - 1], |c| - 1;
      assert c[last] in c && forall x | x in init :: x in c;
      RankBelow(init, n);
      ChooseMonotone(last + c[last], last + n, |c|);
    }
  }

  /** One more at some place, and no less beyond it, outweighs whatever is lost before it. */
  lemma {:induction false} RankGrows(c: seq<nat>, d: seq<nat>, at: nat)
    requires |c| == |d| && at < |c|
    requires forall e | 0 <= e < at :: c[e] <= c[at]
    requires c[at] < d[at] && forall e | at < e < |c| :: c[e] <= d[e]
    ensures Rank(c) < Rank(d)
  {
    var last := |c| - 1;
    ChooseMonotone(last + c[last], last + d[last], |c|);
    if at < last {
      RankGrows(c[..last], d[..last], at);
    } else {
      RankBelow(c[..last], c[last]);
      ChooseMonotone(last + c[last] + 1, last + d[last], |c|);
    }
  }

  lemma {:induction false} RankFirst(c: seq<nat>, n: nat)
    requires c != []
    ensures Rank(c[0 := c[0] + n]) == Rank(c) + n
  {
    var d := c[0 := c[0] + n];
    if |c| == 1 {
      ChooseOne(c[0]);
      ChooseOne(d[0]);
      assert c[..0] == [] && d[..0] == [];
    } else {
      assert d[..|d| - 1] == c[..|c| - 1][0 := c[0] + n];
      RankFirst(c[..|c| - 1], n);
    }
  }

  predicate Fair(m: Guesses, most: nat, k: nat) {
    && |m.reading| <= k && m.stored <= most && (forall v | v in m.reading :: v < most)
    && m.compared <= |m.reading| + Rank(Counts(m, most, k))
  }

  lemma ReadFair(m: Guesses, most: nat, k: nat)
    requires Fair(m, most, k) && Enabled(m, Read, most, k)
    ensures Fair(Step(m, Read), most, k)
  {
    var n := Step(m, Read);
    forall e | 0 <= e < most ensures Counts(n, most, k)[e] == Counts(m, most, k)[e] {
      AtLeastJoin(m.reading, [m.stored], most - e);
    }
    assert Counts(n, most, k) == Counts(m, most, k);
  }

  /** What a save does to the guesses that hold at least w. */
  lemma SaveSlots(m: Guesses, k: nat, slot: nat, w: nat)
    requires |m.reading| <= k && slot < |m.reading|
    ensures var n, v := Step(m, Save(slot)), m.reading[slot];
            && (w <= v ==> Slots(n, k, w) >= Slots(m, k, w))
            && (w == v + 1 ==> Slots(n, k, w) > Slots(m, k, w))
  {
    var v := m.reading[slot];
    assert m.reading == m.reading[..slot] + [v] + m.reading[slot + 1..];
    AtLeastJoin(m.reading[..slot] + [v], m.reading[slot + 1..], w);
    AtLeastJoin(m.reading[..slot], [v], w);
    AtLeastJoin(m.reading[..slot], m.reading[slot + 1..], w);
  }

  lemma SaveRanks(m: Guesses, most: nat, k: nat, slot: nat)
    requires |m.reading| <= k && slot < |m.reading| && m.reading[slot] < most
    ensures Rank(Counts(m, most, k)) < Rank(Counts(Step(m, Save(slot)), most, k))
  {
    var n, v := Step(m, Save(slot)), m.reading[slot];
    var c, d, at := Counts(m, most, k), Counts(n, most, k), most - v - 1;
    forall e | 0 <= e < at ensures c[e] <= c[at] {
      AtLeastSize(m.reading, most - e, most - at);
    }
    forall e | at <= e < most ensures c[e] <= d[e] && (e == at ==> c[e] < d[e]) {
      SaveSlots(m, k, slot, most - e);
    }
    RankGrows(c, d, at);
  }

  lemma SaveFair(m: Guesses, most: nat, k: nat, slot: nat)
    requires Fair(m, most, k) && Enabled(m, Save(slot), most, k)
    ensures Fair(Step(m, Save(slot)), most, k)
  {
    var n := Step(m, Save(slot));
    assert m.reading[slot] in m.reading;
    forall v | v in n.reading ensures v in m.reading {}
    SaveRanks(m, most, k, slot);
  }

  lemma {:induction false} RunFair(m: Guesses, events: seq<Event>, most: nat, k: nat)
    requires Fair(m, most, k) && Possible(m, events, most, k)
    ensures Fair(Run(m, events, most, k), most, k)
    decreases |events|
  {
    if events != [] {
      match events[0] {
        case Read => ReadFair(m, most, k);
        case Save(slot) => SaveFair(m, most, k, slot);
      }
      RunFair(Step(m, events[0]), events[1..], most, k);
    }
  }

  lemma FairBound(m: Guesses, most: nat, k: nat)
    requires Fair(m, most, k)
    ensures m.compared < Choose(most + k, most)
  {
    var c := Counts(m, most, k);
    NoneAtLeast(m.reading, most);
    if most == 0 {
      AtLeastSize(m.reading, 0, 0);
    } else {
      var d := c[0 := c[0] + |m.reading|];
      RankFirst(c, |m.reading|);
      forall x | x in d ensures x <= k {
        var e :| 0 <= e < most && d[e] == x;
        AtLeastSize(m.reading, most - e, most - e);
      }
      RankBelow(d, k);
    }
  }

  /**
   Whatever the interleaving, if at most k guesses of a code are ever between reading and saving its attempts, fewer
   than C(most + k, most) are compared.
   */
  lemma {:induction false} OverlappingGuesses(events: seq<Event>, most: nat, k: nat)
    requires Possible(START, events, most, k)
    ensures Run(START, events, most, k).compared <= Choose(most + k, most) - 1
  {
    RunFair(START, events, most, k);
    FairBound(Run(START, events, most, k), most, k);
  }

  // ---- The bound is met ----

  ghost predicate Reaches(m: Guesses, events: seq<Event>, n: Guesses, most: nat, k: nat) {
    Possible(m, events, most, k) && Run(m, events, most, k) == n
  }

  lemma {:induction false} Chained(m: Guesses, a: seq<Event>, n: Guesses, b: seq<Event>, o: Guesses, most: nat, k: nat)
    requires Reaches(m, a, n, most, k) && Reaches(n, b, o, most, k)
    ensures Reaches(m, a + b, o, most, k)
    decreases |a|
  {
    if a == [] {
      assert a + b == b;
    } else {
      assert (a + b)[0] == a[0] && (a + b)[1..] == a[1..] + b;
      Chained(Step(m, a[0]), a[1..], n, b, o, most, k);
    }
  }

  lemma OneStep(m: Guesses, e: Event, most: nat, k: nat)
    requires Enabled(m, e, most, k)
    ensures Reaches(m, [e], Step(m, e), most, k)
  {
    assert [e][1..] == [];
    assert Possible(Step(m, e), [], most, k);
  }

  /**
   With `waiting` guesses held back: a guess reads, all that the others can do is done, and only then does it save,
   which puts back what it read plus one.  Then the same again with one attempt less.
   */
  function Schedule(waiting: nat, free: nat, left: nat): seq<Event>
    decreases free + left
  {
    if free == 0 || left == 0 then []
    else
      ([Read] + Schedule(waiting + 1, free - 1, left)) + ([Save(waiting)] + Schedule(waiting, free, left - 1))
  }

  /** How many guesses the schedule compares. */
  function Scheduled(free: nat, left: nat): nat
    decreases free + left
  {
    if free == 0 || left == 0 then 0 else 1 + Scheduled(free - 1, left) + Scheduled(free, left - 1)
  }

  lemma {:induction false} ScheduledIsChoose(free: nat, left: nat)
    ensures Scheduled(free, left) == Choose(free + left, left) - 1
    decreases free + left
  {
    if free == 0 {
      ChooseSelf(left, left);
    } else if left > 0 {
      ScheduledIsChoose(free - 1, left);
      ScheduledIsChoose(free, left - 1);
    }
  }

  lemma ThreeParts(m: Guesses, e: Event, a: seq<Event>, n: Guesses, f: Event, b: seq<Event>, o: Guesses, most: nat,
      k: nat)
    requires Enabled(m, e, most, k) && Reaches(Step(m, e), a, n, most, k)
    requires Enabled(n, f, most, k) && Reaches(Step(n, f), b, o, most, k)
    ensures Reaches(m, ([e] + a) + ([f] + b), o, most, k)
  {
    OneStep(m, e, most, k);
    Chained(m, [e], Step(m, e), a, n, most, k);
    OneStep(n, f, most, k);
    Chained(n, [f], Step(n, f), b, o, most, k);
    Chained(m, [e] + a, n, [f] + b, o, most, k);
  }

  /** Saving the guess that was held back leaves the others as they were. */
  lemma HeldSaved(m: Guesses, held: Guesses)
    requires held.reading == m.reading + [m.stored]
    ensures Step(held, Save(|m.reading|)) == Guesses(m.stored + 1, m.reading, held.compared)
  {
  }

  lemma {:induction false} ScheduleReaches(m: Guesses, free: nat, left: nat, most: nat, k: nat) returns (n: Guesses)
    requires m.stored + left == most && |m.reading| + free <= k
    ensures Reaches(m, Schedule(|m.reading|, free, left), n, most, k)
    ensures n.reading == m.reading && n.compared == m.compared + Scheduled(free, left)
    decreases free + left
  {
    var waiting := |m.reading|;
    if free == 0 || left == 0 {
      n := m;
    } else {
      var held := ScheduleReaches(Step(m, Read), free - 1, left, most, k);
      HeldSaved(m, held);
      n := ScheduleReaches(Step(held, Save(waiting)), free, left - 1, most, k);
      ThreeParts(m, Read, Schedule(waiting + 1, free - 1, left), held, Save(waiting),
          Schedule(waiting, free, left - 1), n, most, k);
    }
  }

  /** For every limit and every overlap some run compares that many. */
  lemma {:induction false} GuessesAttained(most: nat, k: nat)
    ensures Possible(START, Schedule(0, k, most), most, k)
    ensures Run(START, Schedule(0, k, most), most, k).compared == Choose(most + k, most) - 1
  {
    var n := ScheduleReaches(START, k, most, most, k);
    assert Reaches(START, Schedule(0, k, most), n, most, k);
    ScheduledIsChoose(k, most);
    assert k + most == most + k;
  }

  // ---- When the limit holds ----

  lemma {:induction false} ChooseExceeds(most: nat, k: nat)
    requires k >= 1
    ensures Choose(most + k, most) >= most + 1
    ensures k >= 2 && most >= 1 ==> Choose(most + k, most) > most + 1
    ensures k == 1 ==> Choose(most + k, most) == most + 1
    decreases most + k
  {
    if most > 0 {
      ChooseExceeds(most - 1, k);
      if k == 1 {
        ChooseSelf(most, most);
      } else {
        ChooseExceeds(most, k - 1);
      }
    }
  }

  ghost predicate LimitHolds(most: nat, k: nat) {
    forall events | Possible(START, events, most, k) :: Run(START, events, most, k).compared <= most
  }

  /** The limit bounds the comparisons of every run exactly when guesses never overlap, or none is allowed. */
  lemma {:induction false} GuessLimitIff(most: nat, k: nat)
    ensures LimitHolds(most, k) <==> k <= 1 || most == 0
  {
    GuessesAttained(most, k);
    if k == 0 {
      ChooseSelf(most, most);
    } else {
      ChooseExceeds(most, k);
    }
    if k <= 1 || most == 0 {
      forall events | Possible(START, events, most, k) ensures Run(START, events, most, k).compared <= most {
        OverlappingGuesses(events, most, k);
      }
    } else {
      assert !(Run(START, Schedule(0, k, most), most, k).compared <= most);
    }
  }

  // ---- The sequential service ----

  /**
   A guess the service takes in one step is a read and its save with nothing in between; the read is refused exactly
   when the service refuses a code that has not expired.
   */
  lemma GuessIsSteps(cfg: Verification.Config, s: Verification.State, i: nat, code: int, token: int, k: nat)
    requires i < |s.rows| && k >= 1 && s.now <= s.rows[i].expiresAt
    ensures var m := Guesses(s.rows[i].attemptCount, [], |s.compared|);
            var n := Verification.VerifyOn(cfg, s, i, code, token);
            && (Enabled(m, Read, cfg.maxAttempts, k) <==> !Verification.Refused(cfg, s.rows[i], s.now))
            && (Enabled(m, Read, cfg.maxAttempts, k) ==>
                  Step(Step(m, Read), Save(0)) == Guesses(n.rows[i].attemptCount, [], |n.compared|))
  {
  }
}
