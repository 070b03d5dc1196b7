/**
 E-mail verification codes: a table of sent codes per address, limits on how often codes are sent, expiry, a bound on
 guesses, and the session token a right guess is answered with.  Times are milliseconds.
 */
module Verification {
  import opened Wrappers
  import opened Sets

  const MINUTE: int := 60000
  const DAY: int := 86400000

  /** Limits and lifetimes, and the offset of local midnight. */
  datatype Config = Config(limitPerMinute: nat, limitPerDay: nat, maxAttempts: nat, expiresInMinutes: nat,
      utcOffset: int)

  /** One sent code; codes are compared by keyed hash, so equal hashes stand for equal codes. */
  datatype Row = Row(email: string, code: int, createdAt: int, expiresAt: int, attemptCount: nat,
                     isVerified: bool, verifiedAt: int, sessionToken: Option<int>)

  /** A session token handed out for an address. */
  datatype Issue = Issue(email: string, token: int)

  /**
   The table, the registered addresses, and what has been answered so far: the comparisons made and the tokens handed
   out.
   */
  datatype State = State(now: int, users: set<string>, rows: seq<Row>, compared: seq<string>, issued: seq<Issue>)

  datatype Error =
    | AlreadyRegistered | TooSoon | DailyLimit | NoCode | Expired | TooManyAttempts | WrongCode(attempts: nat)

  function DayOf(cfg: Config, t: int): int {
    (t + cfg.utcOffset) / DAY
  }

  function TodayStart(cfg: Config, t: int): int {
    DayOf(cfg, t) * DAY - cfg.utcOffset
  }

  // ---- Limits ----

  /** Codes sent to the address in the closed minute that starts at `t`. */
  function SentFrom(rows: seq<Row>, email: string, t: int): set<nat> {
    set i: nat | i < |rows| && rows[i].email == email && t <= rows[i].createdAt <= t + MINUTE
  }

  /** Codes sent to the address since `lo`. */
  function SentSince(rows: seq<Row>, email: string, lo: int): set<nat> {
    set i: nat | i < |rows| && rows[i].email == email && lo <= rows[i].createdAt
  }

  function RateError(cfg: Config, rows: seq<Row>, email: string, now: int): Option<Error> {
    if |SentSince(rows, email, now - MINUTE)| >= cfg.limitPerMinute then Some(TooSoon)
    else if |SentSince(rows, email, TodayStart(cfg, now))| >= cfg.limitPerDay then Some(DailyLimit)
    else None
  }

  // ---- Operations ----

  /** Codes not yet verified expire now. */
  function Invalidated(rows: seq<Row>, email: string, now: int): (r: seq<Row>)
    ensures |r| == |rows|
    ensures forall i | 0 <= i < |rows| ::
              r[i] == if rows[i].email == email && !rows[i].isVerified then rows[i].(expiresAt := now) else rows[i]
  {
    seq(|rows|, i requires 0 <= i < |rows| =>
      if rows[i].email == email && !rows[i].isVerified then rows[i].(expiresAt := now) else rows[i])
  }

  function SendError(cfg: Config, s: State, email: string, isSignup: bool): Option<Error> {
    if isSignup && email in s.users then Some(AlreadyRegistered) else RateError(cfg, s.rows, email, s.now)
  }

  function NewRow(cfg: Config, email: string, code: int, now: int): Row {
    Row(email, code, now, now + cfg.expiresInMinutes * MINUTE, 0, false, 0, None)
  }

  function SendOn(cfg: Config, s: State, email: string, isSignup: bool, code: int): State {
    if SendError(cfg, s, email, isSignup).Some? then s
    else s.(rows := Invalidated(s.rows, email, s.now) + [NewRow(cfg, email, code, s.now)])
  }

  /** The row a guess is compared with: unverified, and none unverified is newer. */
  ghost predicate IsNewest(rows: seq<Row>, email: string, i: nat) {
    && i < |rows| && rows[i].email == email && !rows[i].isVerified
    && forall j | 0 <= j < |rows| && rows[j].email == email
        && !rows[j].isVerified :: rows[j].createdAt <= rows[i].createdAt
  }

  ghost predicate NoneWaiting(rows: seq<Row>, email: string) {
    forall j | 0 <= j < |rows| :: rows[j].email == email ==> rows[j].isVerified
  }

  predicate Refused(cfg: Config, row: Row, now: int) {
    now > row.expiresAt || row.attemptCount >= cfg.maxAttempts
  }

  /** Every comparison counts as an attempt, right or wrong. */
  function Tried(row: Row, code: int, now: int, token: int): Row {
    var counted := row.(attemptCount := row.attemptCount + 1);
    if row.code == code then counted.(isVerified := true, verifiedAt := now, sessionToken := Some(token)) else counted
  }

  function VerifyOn(cfg: Config, s: State, i: nat, code: int, token: int): State
    requires i < |s.rows|
  {
    var row := s.rows[i];
    if Refused(cfg, row, s.now) then s
    else s.(rows := s.rows[i := Tried(row, code, s.now, token)],
            compared := s.compared + [row.email],
            issued := if row.code == code then s.issued + [Issue(row.email, token)] else s.issued)
  }

  predicate Accepts(cfg: Config, s: State, i: nat, code: int) {
    i < |s.rows| && !Refused(cfg, s.rows[i], s.now) && s.rows[i].code == code
  }

  ghost predicate StatusOk(rows: seq<Row>, email: string, token: int) {
    exists i | 0 <= i < |rows| :: rows[i].email == email && rows[i].isVerified && rows[i].sessionToken == Some(token)
  }

  // ---- Runs ----

  datatype Event =
    | Tick(to: int)
    | Register(email: string)
    | Send(email: string, isSignup: bool, code: int)
    | Verify(email: string, code: int, token: int, row: nat)

  ghost predicate Enabled(s: State, e: Event) {
    match e
    case Tick(to) => s.now <= to
    case Verify(email, _, _, row) => IsNewest(s.rows, email, row)
    case _ => true
  }

  function Step(cfg: Config, s: State, e: Event): State
    requires e.Verify? ==> e.row < |s.rows|
  {
    match e
    case Tick(to) => s.(now := to)
    case Register(email) => s.(users := s.users + {email})
    case Send(email, isSignup, code) => SendOn(cfg, s, email, isSignup, code)
    case Verify(_, code, token, row) => VerifyOn(cfg, s, row, code, token)
  }

  ghost predicate Possible(cfg: Config, s: State, events: seq<Event>)
    decreases |events|
  {
    events == [] || (Enabled(s, events[0]) && Possible(cfg, Step(cfg, s, events[0]), events[1..]))
  }

  ghost function Run(cfg: Config, s: State, events: seq<Event>): State
    requires Possible(cfg, s, events)
    decreases |events|
  {
    if events == [] then s else Run(cfg, Step(cfg, s, events[0]), events[1..])
  }

  const EMPTY := State(0, {}, [], [], [])

  lemma DayStarts(cfg: Config, t: int)
    ensures var start := TodayStart(cfg, t);
            start <= t < start + 24 * 60 * 60000 && (start + cfg.utcOffset) % (24 * 60 * 60000) == 0
  {
  }

  /** Exactly when a send is refused, and with which error. */
  lemma SendRefusedIff(cfg: Config, s: State, email: string, isSignup: bool)
    ensures var r := SendError(cfg, s, email, isSignup);
            var lastMinute := set i: nat | i < |s.rows| && s.rows[i].email == email
                                  && s.rows[i].createdAt >= s.now - 60000;
            var today := set i: nat | i < |s.rows| && s.rows[i].email == email
                             && s.rows[i].createdAt >= TodayStart(cfg, s.now);
            r == (if isSignup && email in s.users then Some(AlreadyRegistered)
                  else if |lastMinute| >= cfg.limitPerMinute then Some(TooSoon)
                  else if |today| >= cfg.limitPerDay then Some(DailyLimit)
                  else None)
  {
    assert SentSince(s.rows, email, s.now - 60000) ==
        set i: nat | i < |s.rows| && s.rows[i].email == email && s.rows[i].createdAt >= s.now - 60000;
    assert SentSince(s.rows, email, TodayStart(cfg, s.now)) ==
        set i: nat | i < |s.rows| && s.rows[i].email == email && s.rows[i].createdAt >= TodayStart(cfg, s.now);
  }

  /**
   What a guess does to the row it is compared with: nothing once the row has expired or its attempts are used up, and
   otherwise one attempt more, and the mark and the token when it is right.  No other row and no address changes.
   */
  lemma GuessMeans(cfg: Config, s: State, i: nat, code: int, token: int)
    requires i < |s.rows|
    ensures var n, row := VerifyOn(cfg, s, i, code, token), s.rows[i];
            && n.now == s.now && n.users == s.users && |n.rows| == |s.rows|
            && (forall j | 0 <= j < |s.rows| && j != i :: n.rows[j] == s.rows[j])
            && (if s.now > row.expiresAt || row.attemptCount >= cfg.maxAttempts then n == s
                else
                  && n.rows[i] == Row(row.email, row.code, row.createdAt, row.expiresAt, row.attemptCount + 1,
                       row.isVerified || row.code == code, if row.code == code then s.now else row.verifiedAt,
                       if row.code == code then Some(token) else row.sessionToken)
                  && n.compared == s.compared + [row.email]
                  && n.issued == s.issued + if row.code == code then [Issue(row.email, token)] else [])
    ensures Accepts(cfg, s, i, code) <==>
            s.now <= s.rows[i].expiresAt && s.rows[i].attemptCount < cfg.maxAttempts && s.rows[i].code == code
  {
  }

  /** Which row a guess is compared with, whether there is one, and when a token checks. */
  lemma RowsMean(rows: seq<Row>, email: string, token: int)
    ensures forall i: nat :: IsNewest(rows, email, i) <==>
              && i < |rows| && rows[i].email == email && rows[i].isVerified == false
              && forall j | 0 <= j < |rows| && rows[j].email == email && rows[j].isVerified == false ::
                   rows[i].createdAt >= rows[j].createdAt
    ensures NoneWaiting(rows, email) <==>
            !exists i :: 0 <= i < |rows| && rows[i].email == email && rows[i].isVerified == false
    ensures StatusOk(rows, email, token) <==>
            exists row :: row in rows && row.email == email && row.isVerified == true
                && row.sessionToken == Some(token)
  {
    if i :| 0 <= i < |rows| && rows[i].email == email && rows[i].isVerified && rows[i].sessionToken == Some(token) {
      assert rows[i] in rows;
    }
  }

  /** Signing up and waiting do what they say, and nothing to the codes. */
  lemma RegisterMeans(cfg: Config, s: State, email: string)
    ensures var n := Step(cfg, s, Register(email));
            && (forall other :: other in n.users <==> other in s.users || other == email)
            && n.rows == s.rows && n.now == s.now && n.compared == s.compared && n.issued == s.issued
  {
  }

  /** What an accepted send leaves behind: one more row, for that code, unverified and untried, with its expiry. */
  lemma SentCode(cfg: Config, s: State, email: string, isSignup: bool, code: int)
    requires SendError(cfg, s, email, isSignup).None?
    ensures var n := SendOn(cfg, s, email, isSignup, code);
            && |n.rows| == |s.rows| + 1
            && n.rows[|s.rows|] == Row(email, code, s.now, s.now + cfg.expiresInMinutes * 60000, 0, false, 0, None)
            && (forall i | 0 <= i < |s.rows| ::
                  n.rows[i] == if s.rows[i].email == email && !s.rows[i].isVerified
                               then s.rows[i].(expiresAt := s.now) else s.rows[i])
            && n.now == s.now && n.users == s.users && n.compared == s.compared && n.issued == s.issued
  {
  }

  /** A fresh code is accepted up to and at its expiry, and not after. */
  lemma FreshCodeAcceptedIff(cfg: Config, s: State, email: string, isSignup: bool, code: int, to: int, guess: int)
    requires SendError(cfg, s, email, isSignup).None? && s.now <= to
    ensures var n := Step(cfg, SendOn(cfg, s, email, isSignup, code), Tick(to));
            Accepts(cfg, n, |s.rows|, guess) <==>
                guess == code && to <= s.now + cfg.expiresInMinutes * 60000 && cfg.maxAttempts > 0
  {
    SentCode(cfg, s, email, isSignup, code);
  }

  // ---- Sending limits ----

  /** Codes sent to the address on one calendar day. */
  function SentOn(cfg: Config, rows: seq<Row>, email: string, day: int): set<nat> {
    set i: nat | i < |rows| && rows[i].email == email && DayOf(cfg, rows[i].createdAt) == day
  }

  ghost predicate Limited(cfg: Config, rows: seq<Row>) {
    && (forall email, t :: |SentFrom(rows, email, t)| <= cfg.limitPerMinute)
    && (forall email, day :: |SentOn(cfg, rows, email, day)| <= cfg.limitPerDay)
  }

  /** The same codes were sent at the same times to the same addresses. */
  ghost predicate SameSent(a: seq<Row>, b: seq<Row>) {
    |a| == |b| && forall i | 0 <= i < |a| :: a[i].email == b[i].email && a[i].createdAt == b[i].createdAt
  }

  lemma SameSentLimited(cfg: Config, a: seq<Row>, b: seq<Row>)
    requires SameSent(a, b) && Limited(cfg, a)
    ensures Limited(cfg, b)
  {
    forall email, t ensures |SentFrom(b, email, t)| <= cfg.limitPerMinute {
      assert SentFrom(b, email, t) == SentFrom(a, email, t);
    }
    forall email, day ensures |SentOn(cfg, b, email, day)| <= cfg.limitPerDay {
      assert SentOn(cfg, b, email, day) == SentOn(cfg, a, email, day);
    }
  }

  /**
   A window that ends no earlier than now started no earlier than a minute ago: the rate check has counted all of it.
   */
  lemma WindowCounted(rows: seq<Row>, row: Row, limit: nat, t: int)
    requires |SentSince(rows, row.email, row.createdAt - MINUTE)| < limit
    requires |SentFrom(rows, row.email, t)| <= limit
    ensures |SentFrom(rows + [row], row.email, t)| <= limit
  {
    var before, after := SentFrom(rows, row.email, t), SentFrom(rows + [row], row.email, t);
    if t <= row.createdAt <= t + MINUTE {
      assert after == before + {|rows|};
      SizeMonotone(before, SentSince(rows, row.email, row.createdAt - MINUTE));
    } else {
      assert after == before;
    }
  }

  lemma DayStartsBefore(cfg: Config, t: int, other: int)
    requires DayOf(cfg, other) == DayOf(cfg, t)
    ensures TodayStart(cfg, t) <= other
  {
  }

  lemma DayCounted(cfg: Config, rows: seq<Row>, row: Row, day: int)
    requires |SentSince(rows, row.email, TodayStart(cfg, row.createdAt))| < cfg.limitPerDay
    requires |SentOn(cfg, rows, row.email, day)| <= cfg.limitPerDay
    ensures |SentOn(cfg, rows + [row], row.email, day)| <= cfg.limitPerDay
  {
    var before, after := SentOn(cfg, rows, row.email, day), SentOn(cfg, rows + [row], row.email, day);
    if DayOf(cfg, row.createdAt) == day {
      assert after == before + {|rows|};
      forall i | i in before ensures i in SentSince(rows, row.email, TodayStart(cfg, row.createdAt)) {
        DayStartsBefore(cfg, row.createdAt, rows[i].createdAt);
      }
      SizeMonotone(before, SentSince(rows, row.email, TodayStart(cfg, row.createdAt)));
    } else {
      assert after == before;
    }
  }

  lemma AppendLimited(cfg: Config, rows: seq<Row>, row: Row)
    requires Limited(cfg, rows) && RateError(cfg, rows, row.email, row.createdAt).None?
    ensures Limited(cfg, rows + [row])
  {
    forall email, t ensures |SentFrom(rows + [row], email, t)| <= cfg.limitPerMinute {
      if email == row.email {
        WindowCounted(rows, row, cfg.limitPerMinute, t);
      } else {
        assert SentFrom(rows + [row], email, t) == SentFrom(rows, email, t);
      }
    }
    forall email, day ensures |SentOn(cfg, rows + [row], email, day)| <= cfg.limitPerDay {
      if email == row.email {
        DayCounted(cfg, rows, row, day);
      } else {
        assert SentOn(cfg, rows + [row], email, day) == SentOn(cfg, rows, email, day);
      }
    }
  }

  lemma SameRateError(cfg: Config, a: seq<Row>, b: seq<Row>, email: string, now: int)
    requires SameSent(a, b)
    ensures RateError(cfg, a, email, now) == RateError(cfg, b, email, now)
  {
    assert SentSince(a, email, now - MINUTE) == SentSince(b, email, now - MINUTE);
    assert SentSince(a, email, TodayStart(cfg, now)) == SentSince(b, email, TodayStart(cfg, now));
  }

  lemma StepLimited(cfg: Config, s: State, e: Event)
    requires Limited(cfg, s.rows) && Enabled(s, e)
    ensures Limited(cfg, Step(cfg, s, e).rows)
  {
    match e
    case Send(email, isSignup, code) =>
      if SendError(cfg, s, email, isSignup).None? {
        var ended := Invalidated(s.rows, email, s.now);
        SameSentLimited(cfg, s.rows, ended);
        SameRateError(cfg, s.rows, ended, email, s.now);
        AppendLimited(cfg, ended, NewRow(cfg, email, code, s.now));
      }
    case Verify(_, code, token, row) => SameSentLimited(cfg, s.rows, Step(cfg, s, e).rows);
    case _ =>
  }

  /**
   Over every run, every closed 60-second window holds at most `limitPerMinute` codes of an address, wherever the window
   starts, and every calendar day at most `limitPerDay`.
   */
  lemma {:induction false} RunLimited(cfg: Config, s: State, events: seq<Event>)
    requires Limited(cfg, s.rows) && Possible(cfg, s, events)
    ensures Limited(cfg, Run(cfg, s, events).rows)
    decreases |events|
  {
    if events != [] {
      StepLimited(cfg, s, events[0]);
      RunLimited(cfg, Step(cfg, s, events[0]), events[1..]);
    }
  }

  // ---- Only the newest code ----

  /** `j` is the last code sent to the address. */
  ghost predicate LastSent(rows: seq<Row>, email: string, j: nat) {
    j < |rows| && rows[j].email == email && forall k | j < k < |rows| :: rows[k].email != email
  }

  /** An unverified code that is not the last of its address expired when the last one was sent. */
  ghost predicate Superseded(rows: seq<Row>) {
    forall i: nat, last: nat | i < last < |rows| && LastSent(rows, rows[i].email, last) && !rows[i].isVerified ::
      rows[i].expiresAt == rows[last].createdAt
  }

  ghost predicate Ordered(s: State) {
    && (forall i | 0 <= i < |s.rows| :: s.rows[i].createdAt <= s.now)
    && (forall i, j | 0 <= i < j < |s.rows| :: s.rows[i].createdAt <= s.rows[j].createdAt)
    && Superseded(s.rows)
  }

  lemma SendSupersedes(cfg: Config, rows: seq<Row>, email: string, code: int, now: int)
    requires Superseded(rows)
    ensures Superseded(Invalidated(rows, email, now) + [NewRow(cfg, email, code, now)])
  {
    var after := Invalidated(rows, email, now) + [NewRow(cfg, email, code, now)];
    forall i: nat, last: nat | i < last < |after| && LastSent(after, after[i].email, last) && !after[i].isVerified
      ensures after[i].expiresAt == after[last].createdAt
    {
      if after[i].email == email {
        assert after[|rows|].email == email;
        assert last == |rows|;
      } else {
        assert forall k | last < k < |rows| :: after[k].email == rows[k].email;
        assert LastSent(rows, rows[i].email, last);
      }
    }
  }

  lemma VerifySupersedes(rows: seq<Row>, i: nat, row: Row)
    requires Superseded(rows) && i < |rows|
    requires row.email == rows[i].email && row.createdAt == rows[i].createdAt && row.expiresAt == rows[i].expiresAt
    requires rows[i].isVerified ==> row.isVerified
    ensures Superseded(rows[i := row])
  {
    var after := rows[i := row];
    forall a: nat, last: nat | a < last < |after| && LastSent(after, after[a].email, last) && !after[a].isVerified
      ensures after[a].expiresAt == after[last].createdAt
    {
      assert forall k | 0 <= k < |rows| :: after[k].email == rows[k].email;
      assert LastSent(rows, rows[a].email, last);
    }
  }

  lemma StepOrdered(cfg: Config, s: State, e: Event)
    requires Ordered(s) && Enabled(s, e)
    ensures Ordered(Step(cfg, s, e))
  {
    match e
    case Send(email, isSignup, code) => SendSupersedes(cfg, s.rows, email, code, s.now);
    case Verify(_, code, token, row) => VerifySupersedes(s.rows, row, Tried(s.rows[row], code, s.now, token));
    case _ =>
  }

  lemma {:induction false} RunOrdered(cfg: Config, s: State, events: seq<Event>)
    requires Ordered(s) && Possible(cfg, s, events)
    ensures Ordered(Run(cfg, s, events))
    decreases |events|
  {
    if events != [] {
      StepOrdered(cfg, s, events[0]);
      RunOrdered(cfg, Step(cfg, s, events[0]), events[1..]);
    }
  }

  lemma EmptyOrdered()
    ensures Ordered(EMPTY)
  {
  }

  /**
   After any run, which code of an address a guess can be accepted for: the last one sent, while it lives, and an
   earlier one exactly in the millisecond in which the last one was sent, because expiry is tested strictly.
   */
  lemma {:induction false} EarlierCodeAcceptedIff(cfg: Config, events: seq<Event>, email: string, i: nat, last: nat,
      code: int)
    requires Possible(cfg, EMPTY, events)
    requires IsNewest(Run(cfg, EMPTY, events).rows, email, i) && LastSent(Run(cfg, EMPTY, events).rows, email, last)
    ensures var s := Run(cfg, EMPTY, events);
            && i <= last
            && (i < last ==>
                  (Accepts(cfg, s, i, code) <==>
                    s.rows[i].code == code && s.rows[i].attemptCount < cfg.maxAttempts
                        && s.rows[last].createdAt == s.now))
  {
    EmptyOrdered();
    RunOrdered(cfg, EMPTY, events);
  }

  /**
   So a guess is accepted only for the last code sent to the address, or in the millisecond in which the last one was
   sent.
   */
  lemma {:induction false} OnlyLastCodeAccepted(cfg: Config, events: seq<Event>, email: string, i: nat, last: nat,
      code: int)
    requires Possible(cfg, EMPTY, events)
    requires IsNewest(Run(cfg, EMPTY, events).rows, email, i) && LastSent(Run(cfg, EMPTY, events).rows, email, last)
    requires Accepts(cfg, Run(cfg, EMPTY, events), i, code)
    ensures i == last || Run(cfg, EMPTY, events).rows[last].createdAt == Run(cfg, EMPTY, events).now
  {
    EarlierCodeAcceptedIff(cfg, events, email, i, last, code);
  }

  lemma FirstSend(cfg: Config, email: string, code: int)
    requires cfg.limitPerMinute >= 1 && cfg.limitPerDay >= 2
    ensures Step(cfg, EMPTY, Send(email, true, code)) == EMPTY.(rows := [NewRow(cfg, email, code, 0)])
  {
    assert SentSince([], email, 0 - MINUTE) == {};
    assert SentSince([], email, TodayStart(cfg, 0)) == {};
    assert Invalidated([], email, 0) == [];
  }

  lemma SecondSend(cfg: Config, s: State, email: string, first: int, code: int)
    requires cfg.limitPerMinute >= 1 && cfg.limitPerDay >= 2
    requires s.users == {} && s.now == 2 * MINUTE && s.rows == [NewRow(cfg, email, first, 0)]
    ensures Step(cfg, s, Send(email, true, code)) ==
            s.(rows := [NewRow(cfg, email, first, 0).(expiresAt := s.now), NewRow(cfg, email, code, s.now)])
  {
    assert SentSince(s.rows, email, s.now - MINUTE) == {};
    var today := SentSince(s.rows, email, TodayStart(cfg, s.now));
    assert today <= {0};
    SizeMonotone(today, {0});
    assert Invalidated(s.rows, email, s.now) == [NewRow(cfg, email, first, 0).(expiresAt := s.now)];
  }

  /**
   A run that reaches it, with one code a minute allowed: a code is sent, two minutes later another, that one is
   verified, and in the same millisecond the first one is accepted too.
   */
  lemma {:induction false} SupersededCodeAccepted(cfg: Config, email: string, first: int, second: int, token: int)
    requires cfg.limitPerMinute >= 1 && cfg.limitPerDay >= 2 && cfg.maxAttempts >= 1
    ensures var sent := Step(cfg, EMPTY, Send(email, true, first));
            var later := Step(cfg, sent, Tick(2 * MINUTE));
            var again := Step(cfg, later, Send(email, true, second));
            && Enabled(sent, Tick(2 * MINUTE)) && Enabled(again, Verify(email, second, token, 1))
            && Accepts(cfg, again, 1, second)
            && var verified := Step(cfg, again, Verify(email, second, token, 1));
               IsNewest(verified.rows, email, 0) && LastSent(verified.rows, email, 1)
                   && Accepts(cfg, verified, 0, first)
  {
    FirstSend(cfg, email, first);
    var later := Step(cfg, Step(cfg, EMPTY, Send(email, true, first)), Tick(2 * MINUTE));
    SecondSend(cfg, later, email, first, second);
  }

  // ---- Guesses ----

  function Attempts(rows: seq<Row>, email: string): nat {
    if rows == [] then 0
    else
      var last := rows[|rows| - 1];
      Attempts(rows[..|rows| - 1], email) + if last.email == email then last.attemptCount else 0
  }

  function Codes(rows: seq<Row>, email: string): nat {
    if rows == [] then 0
    else Codes(rows[..|rows| - 1], email) + if rows[|rows| - 1].email == email then 1 else 0
  }

  function Compared(compared: seq<string>, email: string): nat {
    if compared == [] then 0
    else Compared(compared[..|compared| - 1], email) + if compared[|compared| - 1] == email then 1 else 0
  }

  /** Both counts count: codes by the rows of the address, comparisons by the entries for it. */
  lemma {:induction false} CountsCount(rows: seq<Row>, compared: seq<string>, email: string)
    ensures Codes(rows, email) == |set i: nat | i < |rows| && rows[i].email == email|
    ensures Compared(compared, email) == multiset(compared)[email]
    decreases |rows| + |compared|
  {
    var codes := set i: nat | i < |rows| && rows[i].email == email;
    if rows == [] {
      assert codes == {};
    } else {
      var init := rows[..|rows| - 1];
      CountsCount(init, compared, email);
      var before := set i: nat | i < |init| && init[i].email == email;
      assert codes == before + if rows[|init|].email == email then {|init|} else {};
    }
    if compared != [] {
      CountsCount(rows, compared[..|compared| - 1], email);
      assert compared == compared[..|compared| - 1] + [compared[|compared| - 1]];
    }
  }

  lemma {:induction false} AttemptsSame(a: seq<Row>, b: seq<Row>, email: string)
    requires |a| == |b| && forall i | 0 <= i < |a| :: a[i].email == b[i].email && a[i].attemptCount == b[i].attemptCount
    ensures Attempts(a, email) == Attempts(b, email)
  {
    if a != [] {
      AttemptsSame(a[..|a| - 1], b[..|b| - 1], email);
    }
  }

  lemma {:induction false} AttemptsUpdate(rows: seq<Row>, i: nat, row: Row, email: string)
    requires i < |rows| && row.email == rows[i].email && row.attemptCount == rows[i].attemptCount + 1
    ensures Attempts(rows[i := row], email) == Attempts(rows, email) + if row.email == email then 1 else 0
  {
    var n := |rows| - 1;
    if i == n {
      assert rows[i := row][..n] == rows[..n];
    } else {
      AttemptsUpdate(rows[..n], i, row, email);
      assert rows[i := row][..n] == rows[..n][i := row];
    }
  }

  ghost predicate Counted(cfg: Config, s: State, email: string) {
    && Compared(s.compared, email) == Attempts(s.rows, email)
    && forall i | 0 <= i < |s.rows| :: s.rows[i].attemptCount <= cfg.maxAttempts
  }

  lemma SendCounted(cfg: Config, s: State, to: string, isSignup: bool, code: int, email: string)
    requires Counted(cfg, s, email)
    ensures Counted(cfg, SendOn(cfg, s, to, isSignup, code), email)
  {
    var ended := Invalidated(s.rows, to, s.now);
    AttemptsSame(s.rows, ended, email);
    assert (ended + [NewRow(cfg, to, code, s.now)])[..|ended|] == ended;
  }

  lemma VerifyCounted(cfg: Config, s: State, i: nat, code: int, token: int, email: string)
    requires Counted(cfg, s, email) && i < |s.rows|
    ensures Counted(cfg, VerifyOn(cfg, s, i, code, token), email)
  {
    if !Refused(cfg, s.rows[i], s.now) {
      AttemptsUpdate(s.rows, i, Tried(s.rows[i], code, s.now, token), email);
      assert (s.compared + [s.rows[i].email])[..|s.compared|] == s.compared;
    }
  }

  lemma StepCounted(cfg: Config, s: State, e: Event, email: string)
    requires Counted(cfg, s, email) && Enabled(s, e)
    ensures Counted(cfg, Step(cfg, s, e), email)
  {
    match e
    case Send(to, isSignup, code) => SendCounted(cfg, s, to, isSignup, code, email);
    case Verify(_, code, token, i) => VerifyCounted(cfg, s, i, code, token, email);
    case _ =>
  }

  lemma {:induction false} AttemptsBound(rows: seq<Row>, email: string, limit: nat)
    requires forall i | 0 <= i < |rows| :: rows[i].attemptCount <= limit
    ensures Attempts(rows, email) <= limit * Codes(rows, email)
  {
    if rows != [] {
      AttemptsBound(rows[..|rows| - 1], email, limit);
    }
  }

  /** Over every run, the guesses compared for an address are at most `maxAttempts` times the codes sent to it. */
  lemma {:induction false} GuessesBounded(cfg: Config, s: State, events: seq<Event>, email: string)
    requires Counted(cfg, s, email) && Possible(cfg, s, events)
    ensures Counted(cfg, Run(cfg, s, events), email)
    ensures Compared(Run(cfg, s, events).compared, email) <= cfg.maxAttempts * Codes(Run(cfg, s, events).rows, email)
    decreases |events|
  {
    if events == [] {
      AttemptsBound(s.rows, email, cfg.maxAttempts);
    } else {
      StepCounted(cfg, s, events[0], email);
      GuessesBounded(cfg, Step(cfg, s, events[0]), events[1..], email);
    }
  }

  // ---- Session tokens ----

  /** A verified row was answered in time, within its attempts, and its token was handed out. */
  ghost predicate FairlyVerified(cfg: Config, s: State, row: Row) {
    && row.sessionToken.Some?
    && row.createdAt <= row.verifiedAt <= row.expiresAt && row.verifiedAt <= s.now
    && 1 <= row.attemptCount <= cfg.maxAttempts
    && Issue(row.email, row.sessionToken.value) in s.issued
  }

  ghost predicate TokensTrue(cfg: Config, s: State) {
    && (forall i | 0 <= i < |s.rows| ::
        s.rows[i].createdAt <= s.now
        && (s.rows[i].isVerified ==> FairlyVerified(cfg, s, s.rows[i])))
    && (forall x | x in s.issued :: StatusOk(s.rows, x.email, x.token))
  }

  lemma StatusKept(a: seq<Row>, b: seq<Row>, email: string, token: int)
    requires StatusOk(a, email, token) && |a| <= |b|
    requires forall i | 0 <= i < |a| && a[i].isVerified ::
        b[i].email == a[i].email && b[i].isVerified
        && b[i].sessionToken == a[i].sessionToken
    ensures StatusOk(b, email, token)
  {
    var i :| 0 <= i < |a| && a[i].email == email && a[i].isVerified && a[i].sessionToken == Some(token);
    assert b[i].email == email && b[i].isVerified && b[i].sessionToken == Some(token);
  }

  lemma SendTokens(cfg: Config, s: State, email: string, isSignup: bool, code: int)
    requires TokensTrue(cfg, s)
    ensures TokensTrue(cfg, SendOn(cfg, s, email, isSignup, code))
  {
    var n := SendOn(cfg, s, email, isSignup, code);
    forall x | x in n.issued ensures StatusOk(n.rows, x.email, x.token) {
      StatusKept(s.rows, n.rows, x.email, x.token);
    }
  }

  lemma VerifyTokens(cfg: Config, s: State, i: nat, code: int, token: int)
    requires TokensTrue(cfg, s) && i < |s.rows| && !s.rows[i].isVerified
    ensures TokensTrue(cfg, VerifyOn(cfg, s, i, code, token))
  {
    var n := VerifyOn(cfg, s, i, code, token);
    forall x | x in n.issued ensures StatusOk(n.rows, x.email, x.token) {
      if x in s.issued {
        StatusKept(s.rows, n.rows, x.email, x.token);
      } else {
        assert n.rows[i].email == x.email && n.rows[i].isVerified && n.rows[i].sessionToken == Some(x.token);
      }
    }
  }

  lemma {:induction false} RunTokens(cfg: Config, s: State, events: seq<Event>)
    requires TokensTrue(cfg, s) && Possible(cfg, s, events)
    ensures TokensTrue(cfg, Run(cfg, s, events))
    decreases |events|
  {
    if events != [] {
      match events[0] {
        case Send(email, isSignup, code) => SendTokens(cfg, s, email, isSignup, code);
        case Verify(_, code, token, row) => VerifyTokens(cfg, s, row, code, token);
        case _ =>
      }
      RunTokens(cfg, Step(cfg, s, events[0]), events[1..]);
    }
  }

  /**
   After any run from an empty table a session token checks true for an address exactly when a right guess for that very
   address was answered with it, and then the guess came before the code expired and within its attempts.
   */
  lemma TokenChecksIffIssued(cfg: Config, events: seq<Event>, email: string, token: int)
    requires Possible(cfg, EMPTY, events)
    ensures var s := Run(cfg, EMPTY, events);
            && (StatusOk(s.rows, email, token) <==> Issue(email, token) in s.issued)
            && (StatusOk(s.rows, email, token) ==> exists i | 0 <= i < |s.rows| ::
                  s.rows[i].email == email && s.rows[i].sessionToken == Some(token)
                      && s.rows[i].verifiedAt <= s.rows[i].expiresAt)
  {
    RunTokens(cfg, EMPTY, events);
    var s := Run(cfg, EMPTY, events);
    if StatusOk(s.rows, email, token) {
      var i :| 0 <= i < |s.rows| && s.rows[i].email == email && s.rows[i].isVerified
          && s.rows[i].sessionToken == Some(token);
      assert FairlyVerified(cfg, s, s.rows[i]);
    }
  }

  /** All of it from an empty table. */
  lemma FreshRuns(cfg: Config, events: seq<Event>, email: string)
    requires Possible(cfg, EMPTY, events)
    ensures var s := Run(cfg, EMPTY, events);
            && Limited(cfg, s.rows) && Ordered(s)
            && Compared(s.compared, email) <= cfg.maxAttempts * Codes(s.rows, email)
  {
    forall e, t ensures |SentFrom(EMPTY.rows, e, t)| <= cfg.limitPerMinute { assert SentFrom(EMPTY.rows, e, t) == {}; }
    forall e, day ensures |SentOn(cfg, EMPTY.rows, e, day)| <=
        cfg.limitPerDay { assert SentOn(cfg, EMPTY.rows, e, day) == {}; }
    RunLimited(cfg, EMPTY, events);
    RunOrdered(cfg, EMPTY, events);
    GuessesBounded(cfg, EMPTY, events, email);
  }

  // ---- The service ----

  class EmailService {
    const cfg: Config
    var now: int
    var users: set<string>
    var rows: seq<Row>
    var compared: seq<string>
    var issued: seq<Issue>

    constructor (cfg: Config)
      ensures this.cfg == cfg && Contents() == EMPTY
    {
      this.cfg := cfg;
      now, users, rows, compared, issued := 0, {}, [], [], [];
    }

    function Contents(): State
      reads this
    {
      State(now, users, rows, compared, issued)
    }

    /** `count({ email, createdAt >= lo })`. */
    method CountSince(email: string, lo: int) returns (n: nat)
      ensures n == |SentSince(rows, email, lo)|
    {
      n := 0;
      ghost var seen: set<nat> := {};
      for i := 0 to |rows|
        invariant seen == set k: nat | k < i && rows[k].email == email && lo <= rows[k].createdAt
        invariant n == |seen|
      {
        if rows[i].email == email && lo <= rows[i].createdAt {
          n := n + 1;
          seen := seen + {i};
        }
      }
      assert seen == SentSince(rows, email, lo);
    }

    method CheckRateLimit(email: string) returns (error: Option<Error>)
      ensures error == RateError(cfg, rows, email, now)
    {
      var recentAttempts := CountSince(email, now - MINUTE);
      if recentAttempts >= cfg.limitPerMinute {
        return Some(TooSoon);
      }
      var todayAttempts := CountSince(email, TodayStart(cfg, now));
      if todayAttempts >= cfg.limitPerDay {
        return Some(DailyLimit);
      }
      error := None;
    }

    /** `update({ email, isVerified: false }, { expiresAt: now })`, row by row. */
    method InvalidateExistingCodes(email: string)
      modifies this`rows
      ensures rows == Invalidated(old(rows), email, now)
    {
      for i := 0 to |rows|
        invariant |rows| == |old(rows)|
        invariant forall k | 0 <= k < i :: rows[k] == Invalidated(old(rows), email, now)[k]
        invariant forall k | i <= k < |rows| :: rows[k] == old(rows)[k]
      {
        if rows[i].email == email && !rows[i].isVerified {
          rows := rows[i := rows[i].(expiresAt := now)];
        }
      }
    }

    method SendVerificationCode(email: string, isSignup: bool, code: int) returns (error: Option<Error>)
      modifies this
      ensures error == SendError(cfg, old(Contents()), email, isSignup)
      ensures Contents() == SendOn(cfg, old(Contents()), email, isSignup, code)
    {
      if isSignup && email in users {
        return Some(AlreadyRegistered);
      }
      error := CheckRateLimit(email);
      if error.Some? {
        return;
      }
      InvalidateExistingCodes(email);
      rows := rows + [NewRow(cfg, email, code, now)];
    }

    /** The newest unverified row of the address. */
    method FindNewest(email: string) returns (found: Option<nat>)
      ensures found.Some? ==> IsNewest(rows, email, found.value)
      ensures found.None? ==> NoneWaiting(rows, email)
    {
      found := None;
      for i := 0 to |rows|
        invariant found.Some? ==> found.value < i && rows[found.value].email == email && !rows[found.value].isVerified
        invariant found.Some? ==> forall j | 0 <= j < i && rows[j].email == email && !rows[j].isVerified ::
                                    rows[j].createdAt <= rows[found.value].createdAt
        invariant found.None? ==> forall j | 0 <= j < i :: rows[j].email == email ==> rows[j].isVerified
      {
        if rows[i].email == email && !rows[i].isVerified
            && (found.None? || rows[found.value].createdAt <= rows[i].createdAt) {
          found := Some(i);
        }
      }
    }

    /** A guess: compared with the newest unverified code, unless that is expired or used up. */
    method VerifyCode(email: string, code: int, token: int) returns (r: Result<int, Error>)
      modifies this
      ensures r == Err(NoCode) <==> NoneWaiting(old(rows), email)
      ensures r == Err(NoCode) ==> Contents() == old(Contents())
      ensures r != Err(NoCode) ==> exists i | 0 <= i < |old(rows)| ::
                && IsNewest(old(rows), email, i)
                && Contents() == VerifyOn(cfg, old(Contents()), i, code, token)
                && (r == Ok(token) <==> Accepts(cfg, old(Contents()), i, code))
                && (r.Err? ==> r.error == if now > old(rows)[i].expiresAt then Expired
                                          else if old(rows)[i].attemptCount >= cfg.maxAttempts then TooManyAttempts
                                          else WrongCode(old(rows)[i].attemptCount + 1))
    {
      var found := FindNewest(email);
      if found.None? {
        return Err(NoCode);
      }
      var i := found.value;
      var row := rows[i];
      assert IsNewest(old(rows), email, i);
      assert !NoneWaiting(rows, email);
      if now > row.expiresAt {
        return Err(Expired);
      }
      if row.attemptCount >= cfg.maxAttempts {
        return Err(TooManyAttempts);
      }
      row := row.(attemptCount := row.attemptCount + 1);
      compared := compared + [row.email];
      if row.code != code {
        rows := rows[i := row];
        return Err(WrongCode(row.attemptCount));
      }
      row := row.(isVerified := true, verifiedAt := now, sessionToken := Some(token));
      rows := rows[i := row];
      issued := issued + [Issue(row.email, token)];
      r := Ok(token);
    }

    method CheckVerificationStatus(email: string, token: int) returns (verified: bool)
      ensures verified <==> StatusOk(rows, email, token)
    {
      for i := 0 to |rows|
        invariant forall k | 0 <= k < i ::
            !(rows[k].email == email && rows[k].isVerified && rows[k].sessionToken == Some(token))
      {
        if rows[i].email == email && rows[i].isVerified && rows[i].sessionToken == Some(token) {
          return true;
        }
      }
      verified := false;
    }
  }
}
