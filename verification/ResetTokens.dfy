/**
 Password reset tokens: at most one request per five minutes leaves a token, a token lives fifteen minutes, and using it
 changes the password once.  Times are milliseconds; tokens are looked up by their hash.
 */
module ResetTokens {
  import opened Wrappers
  import opened Sets

  const FIVE_MINUTES: int := 300000
  const FIFTEEN_MINUTES: int := 900000

  datatype Provider = LOCAL | OAUTH

  datatype User = User(provider: Provider, password: Option<string>)

  datatype Token = Token(hash: int, userId: int, createdAt: int, expiresAt: int, used: bool)

  /**
   Users by id with their e-mail addresses, the token table by row id, and the tokens that have changed a password.
   */
  datatype State = State(now: int, emails: map<string, int>, users: map<int, User>, tokens: map<int, Token>,
      nextRow: int, spent: seq<int>)

  datatype Error = SocialLogin | InvalidToken | TokenExpired | SamePassword

  // ---- Requests ----

  predicate Recent(s: State, user: int, row: int) {
    row in s.tokens && s.tokens[row].userId == user && s.tokens[row].createdAt > s.now - FIVE_MINUTES
  }

  /** Expired tokens of the user are deleted. */
  function Cleaned(s: State, user: int): map<int, Token> {
    map row | row in s.tokens && !(s.tokens[row].userId == user && s.tokens[row].expiresAt < s.now) :: s.tokens[row]
  }

  function RequestError(s: State, email: string): Option<Error> {
    if email in s.emails && s.emails[email] in s.users
        && s.users[s.emails[email]].provider != LOCAL then Some(SocialLogin) else None
  }

  predicate Known(s: State, email: string) {
    email in s.emails && s.emails[email] in s.users && s.users[s.emails[email]].provider == LOCAL
  }

  /**
   A token is stored unless the address is unknown or the user has one from the last five minutes; nothing tells the
   caller which.
   */
  ghost function ForgotOn(s: State, email: string, hash: int): State {
    if !Known(s, email) then s
    else
      var user := s.emails[email];
      var cleaned := s.(tokens := Cleaned(s, user));
      if exists row :: Recent(cleaned, user, row) then cleaned
      else cleaned.(tokens := cleaned.tokens[s.nextRow := Token(hash, user, s.now, s.now + FIFTEEN_MINUTES, false)],
                    nextRow := s.nextRow + 1)
  }

  // ---- Use ----

  predicate Carries(s: State, row: int, hash: int) {
    row in s.tokens && s.tokens[row].hash == hash && !s.tokens[row].used
  }

  /** `validateResetToken`: strictly before expiry. */
  predicate ValidRow(s: State, row: int) {
    row in s.tokens && !s.tokens[row].used && s.tokens[row].expiresAt > s.now
  }

  /** `resetPassword` refuses only after expiry, so a token also works at the instant it expires. */
  predicate UsableRow(s: State, row: int) {
    row in s.tokens && !s.tokens[row].used && s.tokens[row].expiresAt >= s.now
  }

  ghost predicate Validates(s: State, hash: int) {
    exists row :: Carries(s, row, hash) && ValidRow(s, row)
  }

  predicate Allowed(s: State, row: int, password: string) {
    && UsableRow(s, row) && s.tokens[row].userId in s.users
    && s.users[s.tokens[row].userId].password != Some(password)
  }

  /** The password changes, the token is marked and then deleted: the clean-up matches the used token's own row. */
  function ResetOn(s: State, row: int, password: string): State
    requires row in s.tokens
  {
    if !Allowed(s, row, password) then s
    else
      var user := s.tokens[row].userId;
      s.(users := s.users[user := s.users[user].(password := Some(password))],
         tokens := s.tokens - {row},
         spent := s.spent + [s.tokens[row].hash])
  }

  // ---- Runs ----

  datatype Event = Tick(to: int) | Forgot(email: string, hash: int) | Reset(row: int, hash: int, password: string)

  /** Hashes are unique: the secret is a fresh UUID each time. */
  ghost predicate Fresh(s: State, hash: int) {
    hash !in s.spent && forall row | row in s.tokens :: s.tokens[row].hash != hash
  }

  ghost predicate Enabled(s: State, e: Event) {
    match e
    case Tick(to) => s.now <= to
    case Forgot(_, hash) => Fresh(s, hash)
    case Reset(row, hash, _) => Carries(s, row, hash)
  }

  ghost function Step(s: State, e: Event): State
    requires Enabled(s, e)
  {
    match e
    case Tick(to) => s.(now := to)
    case Forgot(email, hash) => ForgotOn(s, email, hash)
    case Reset(row, _, password) => ResetOn(s, row, password)
  }

  ghost predicate Possible(s: State, events: seq<Event>)
    decreases |events|
  {
    events == [] || (Enabled(s, events[0]) && Possible(Step(s, events[0]), events[1..]))
  }

  ghost function Run(s: State, events: seq<Event>): State
    requires Possible(s, events)
    decreases |events|
  {
    if events == [] then s else Run(Step(s, events[0]), events[1..])
  }

  // ---- Spacing ----

  predicate Apart(a: Token, b: Token) {
    a.createdAt + FIVE_MINUTES <= b.createdAt || b.createdAt + FIVE_MINUTES <= a.createdAt
  }

  /** Tokens of one user are five minutes apart, live fifteen minutes, and none is dated ahead. */
  ghost predicate Spaced(s: State) {
    && (forall row | row in s.tokens ::
          row < s.nextRow && s.tokens[row].createdAt <= s.now
              && s.tokens[row].expiresAt == s.tokens[row].createdAt + FIFTEEN_MINUTES)
    && (forall a, b | a in s.tokens && b in s.tokens && a != b
        && s.tokens[a].userId == s.tokens[b].userId :: Apart(s.tokens[a], s.tokens[b]))
  }

  /** A token is in the table once, and no longer once it has been used. */
  ghost predicate OneUse(s: State) {
    && (forall a, b | a in s.tokens && b in s.tokens && a != b :: s.tokens[a].hash != s.tokens[b].hash)
    && (forall row | row in s.tokens :: s.tokens[row].hash !in s.spent && !s.tokens[row].used)
    && (forall i, j | 0 <= i < j < |s.spent| :: s.spent[i] != s.spent[j])
  }

  lemma ForgotSpaced(s: State, email: string, hash: int)
    requires Spaced(s)
    ensures Spaced(ForgotOn(s, email, hash))
  {
    if Known(s, email) {
      var user := s.emails[email];
      var cleaned := s.(tokens := Cleaned(s, user));
      if forall row :: !Recent(cleaned, user, row) {
        forall row | row in cleaned.tokens && cleaned.tokens[row].userId == user
          ensures cleaned.tokens[row].createdAt + FIVE_MINUTES <= s.now
        {
          assert !Recent(cleaned, user, row);
        }
      }
    }
  }

  lemma ForgotOneUse(s: State, email: string, hash: int)
    requires OneUse(s) && Fresh(s, hash)
    ensures OneUse(ForgotOn(s, email, hash))
  {
  }

  lemma ResetKeeps(s: State, row: int, password: string)
    requires Spaced(s) && OneUse(s) && row in s.tokens
    ensures Spaced(ResetOn(s, row, password)) && OneUse(ResetOn(s, row, password))
  {
  }

  lemma StepKeeps(s: State, e: Event)
    requires Spaced(s) && OneUse(s) && Enabled(s, e)
    ensures Spaced(Step(s, e)) && OneUse(Step(s, e))
  {
    match e
    case Forgot(email, hash) =>
      ForgotSpaced(s, email, hash);
      ForgotOneUse(s, email, hash);
    case Reset(row, _, password) => ResetKeeps(s, row, password);
    case _ =>
  }

  lemma {:induction false} RunKeeps(s: State, events: seq<Event>)
    requires Spaced(s) && OneUse(s) && Possible(s, events)
    ensures Spaced(Run(s, events)) && OneUse(Run(s, events))
    decreases |events|
  {
    if events != [] {
      StepKeeps(s, events[0]);
      RunKeeps(Step(s, events[0]), events[1..]);
    }
  }

  // ---- Pigeonhole ----

  /** Members are pairwise at least `gap` apart. */
  ghost predicate GapsOf(times: set<int>, gap: int) {
    forall a, b | a in times && b in times && a < b :: a + gap <= b
  }

  /** Points at least `gap` apart in a window of k gaps, open at the bottom, are at most k. */
  lemma {:induction false} Pigeonhole(times: set<int>, gap: int, hi: int, k: nat)
    requires gap > 0 && GapsOf(times, gap)
    requires forall t | t in times :: hi - k * gap < t <= hi
    ensures |times| <= k
    decreases k
  {
    if times != {} {
      var top := TopMember(times);
      var rest := times - {top};
      assert 0 * gap == 0;
      forall t | t in rest ensures (hi - gap) - (k - 1) * gap < t <= hi - gap {
        assert t + gap <= top;
        assert (hi - gap) - (k - 1) * gap == hi - k * gap;
      }
      if k == 0 {
        assert false;
      }
      Pigeonhole(rest, gap, hi - gap, k - 1);
    }
  }

  lemma {:induction false} TopMember(times: set<int>) returns (top: int)
    requires times != {}
    ensures top in times && forall t | t in times :: t <= top
    decreases |times|
  {
    var x := Inhabited(times);
    var rest := times - {x};
    if rest == {} {
      top := x;
      assert forall t | t in times :: t == x || t in rest;
    } else {
      var y := TopMember(rest);
      top := if x > y then x else y;
      assert forall t | t in times :: t == x || t in rest;
    }
  }

  ghost function RowsOf(s: State, user: int, holds: (State, int) -> bool): set<int> {
    set row | row in s.tokens && s.tokens[row].userId == user && holds(s, row)
  }

  ghost function Times(s: State, rows: set<int>): set<int>
    requires rows <= s.tokens.Keys
  {
    set row | row in rows :: s.tokens[row].createdAt
  }

  lemma OneMoreTime(s: State, user: int, rows: set<int>, x: int)
    requires Spaced(s) && rows <= s.tokens.Keys && x in s.tokens && x !in rows
    requires s.tokens[x].userId == user && forall row | row in rows :: s.tokens[row].userId == user
    ensures s.tokens[x].createdAt !in Times(s, rows)
    ensures Times(s, rows + {x}) == Times(s, rows) + {s.tokens[x].createdAt}
    ensures forall t | t in Times(s, rows) ::
        t + FIVE_MINUTES <= s.tokens[x].createdAt
        || s.tokens[x].createdAt + FIVE_MINUTES <= t
  {
    forall row | row in rows ensures Apart(s.tokens[row], s.tokens[x]) {}
  }

  /** Rows of one user are told apart by their creation times. */
  lemma {:induction false} AsManyTimes(s: State, user: int, rows: set<int>)
    requires Spaced(s) && rows <= s.tokens.Keys && forall row | row in rows :: s.tokens[row].userId == user
    ensures |Times(s, rows)| == |rows| && GapsOf(Times(s, rows), FIVE_MINUTES)
    decreases |rows|
  {
    if rows != {} {
      var x := Inhabited(rows);
      AsManyTimes(s, user, rows - {x});
      OneMoreTime(s, user, rows - {x}, x);
      assert rows - {x} + {x} == rows;
    }
  }

  /** A user has at most three tokens that validate at any one time. */
  lemma AtMostThreeValid(s: State, user: int)
    requires Spaced(s)
    ensures |RowsOf(s, user, ValidRow)| <= 3
  {
    var rows := RowsOf(s, user, ValidRow);
    AsManyTimes(s, user, rows);
    Pigeonhole(Times(s, rows), FIVE_MINUTES, s.now, 3);
  }

  /** Counting the instant of expiry, which the reset itself accepts, at most four; a fourth is at that very instant. */
  lemma AtMostFourUsable(s: State, user: int)
    requires Spaced(s)
    ensures |RowsOf(s, user, UsableRow)| <= 4
    ensures |RowsOf(s, user, UsableRow)| == 4 ==> exists row :: row in s.tokens && s.tokens[row].expiresAt == s.now
  {
    var rows := RowsOf(s, user, UsableRow);
    AsManyTimes(s, user, rows);
    Pigeonhole(Times(s, rows), FIVE_MINUTES, s.now, 4);
    AtMostThreeValid(s, user);
    if forall row | row in s.tokens :: s.tokens[row].expiresAt != s.now {
      assert rows == RowsOf(s, user, ValidRow);
    }
  }

  /**
   The bound of four is met: with tokens five, ten and exactly fifteen minutes old a new request still goes through,
   and all four work.
   */
  lemma FourthAtExpiry(s: State, email: string, hash: int, a: int, b: int, c: int)
    requires Spaced(s) && OneUse(s) && Known(s, email) && (forall row :: !Recent(s, s.emails[email], row))
    requires {a, b, c} <= s.tokens.Keys && forall row | row in {a, b, c} :: s.tokens[row].userId == s.emails[email]
    requires s.tokens[a].createdAt == s.now - FIVE_MINUTES
    requires s.tokens[b].createdAt == s.now - 2 * FIVE_MINUTES
    requires s.tokens[c].createdAt == s.now - FIFTEEN_MINUTES
    ensures |RowsOf(ForgotOn(s, email, hash), s.emails[email], UsableRow)| == 4
  {
    var n, user := ForgotOn(s, email, hash), s.emails[email];
    ForgotSpaced(s, email, hash);
    AtMostFourUsable(n, user);
    var cleaned := s.(tokens := Cleaned(s, user));
    forall row ensures !Recent(cleaned, user, row) {
      assert Recent(cleaned, user, row) ==> Recent(s, user, row);
    }
    var four := {a, b, c, s.nextRow};
    assert |four| == 4;
    SizeMonotone(four, RowsOf(n, user, UsableRow));
  }

  /** A request by a known user none of whose tokens is recent or expired adds a token and nothing else. */
  lemma ForgotAdds(s: State, email: string, hash: int)
    requires Known(s, email)
    requires forall row | row in s.tokens :: s.tokens[row].createdAt + FIVE_MINUTES <= s.now <= s.tokens[row].expiresAt
    ensures ForgotOn(s, email, hash) ==
            s.(tokens := s.tokens[s.nextRow := Token(hash, s.emails[email], s.now, s.now + FIFTEEN_MINUTES, false)],
                nextRow := s.nextRow + 1)
  {
    var user := s.emails[email];
    var cleaned := Cleaned(s, user);
    forall row ensures row in cleaned <==> row in s.tokens {
      assert row in s.tokens ==> s.now <= s.tokens[row].expiresAt;
    }
    assert cleaned == s.tokens;
    assert forall row :: !Recent(s.(tokens := Cleaned(s, user)), user, row);
  }

  function Later(s: State, wait: int): State {
    s.(now := s.now + wait)
  }

  /** Four requests five minutes apart, from an empty table: at the fourth, all four tokens work. */
  lemma FourRequests(s: State, email: string, h0: int, h1: int, h2: int, h3: int)
    requires Initial(s) && s.nextRow == 0 && Known(s, email) && |{h0, h1, h2, h3}| == 4
    ensures var s1 := Later(ForgotOn(s, email, h0), FIVE_MINUTES);
            var s2 := Later(ForgotOn(s1, email, h1), FIVE_MINUTES);
            var s3 := Later(ForgotOn(s2, email, h2), FIVE_MINUTES);
            && Fresh(s, h0) && Fresh(s1, h1) && Fresh(s2, h2) && Fresh(s3, h3)
            && |RowsOf(ForgotOn(s3, email, h3), s.emails[email], UsableRow)| == 4
  {
    var user := s.emails[email];
    ForgotAdds(s, email, h0);
    var s1 := Later(ForgotOn(s, email, h0), FIVE_MINUTES);
    ForgotAdds(s1, email, h1);
    var s2 := Later(ForgotOn(s1, email, h1), FIVE_MINUTES);
    ForgotAdds(s2, email, h2);
    var s3 := Later(ForgotOn(s2, email, h2), FIVE_MINUTES);
    ForgotAdds(s3, email, h3);
    AllUsable(ForgotOn(s3, email, h3), user);
  }

  lemma AllUsable(s: State, user: int)
    requires s.tokens.Keys == {0, 1, 2, 3}
    requires forall row | row in s.tokens :: s.tokens[row].userId == user && UsableRow(s, row)
    ensures |RowsOf(s, user, UsableRow)| == 4
  {
    assert RowsOf(s, user, UsableRow) == s.tokens.Keys;
  }

  // ---- One change per token ----

  const EMPTY_TOKENS: map<int, Token> := map[]

  ghost predicate Initial(s: State) {
    s.tokens == EMPTY_TOKENS && s.spent == []
  }

  /** Over every run: at most three valid tokens per user at any time, and no token changes a password twice. */
  lemma TokensOverRuns(s: State, events: seq<Event>, user: int)
    requires Initial(s) && Possible(s, events)
    ensures |RowsOf(Run(s, events), user, ValidRow)| <= 3
    ensures forall i, j | 0 <= i < j < |Run(s, events).spent| :: Run(s, events).spent[i] != Run(s, events).spent[j]
  {
    RunKeeps(s, events);
    AtMostThreeValid(Run(s, events), user);
  }

  lemma SpentStays(s: State, e: Event, hash: int)
    requires hash in s.spent && Enabled(s, e)
    ensures hash in Step(s, e).spent
  {
  }

  /**
   Once a token has changed a password it never validates again and can never be presented again, whatever happens
   later.
   */
  lemma {:induction false} UsedTokenStaysGone(s: State, events: seq<Event>, hash: int)
    requires Spaced(s) && OneUse(s) && hash in s.spent && Possible(s, events)
    ensures hash in Run(s, events).spent
    ensures !Validates(Run(s, events), hash) && forall row :: !Carries(Run(s, events), row, hash)
    decreases |events|
  {
    if events == [] {
      assert forall row | row in s.tokens :: s.tokens[row].hash !in s.spent;
    } else {
      StepKeeps(s, events[0]);
      SpentStays(s, events[0], hash);
      UsedTokenStaysGone(Step(s, events[0]), events[1..], hash);
    }
  }

  /** A reset leaves the user's other tokens alone: each of them validates after it exactly when it did before. */
  lemma OtherTokensSurvive(s: State, row: int, password: string, hash: int)
    requires OneUse(s) && row in s.tokens && hash != s.tokens[row].hash
    ensures Validates(ResetOn(s, row, password), hash) <==> Validates(s, hash)
  {
    var n := ResetOn(s, row, password);
    if r :| Carries(s, r, hash) && ValidRow(s, r) {
      assert Carries(n, r, hash) && ValidRow(n, r);
    }
    if r :| Carries(n, r, hash) && ValidRow(n, r) {
      assert Carries(s, r, hash) && ValidRow(s, r);
    }
  }

  /** So an accepted reset leaves the user without a valid token exactly when there was none besides the one used. */
  lemma ResetClearsIff(s: State, row: int, password: string)
    requires Allowed(s, row, password)
    ensures var user := s.tokens[row].userId;
            RowsOf(ResetOn(s, row, password), user, ValidRow) == {} <==> RowsOf(s, user, ValidRow) <= {row}
  {
    var user := s.tokens[row].userId;
    var before, after := RowsOf(s, user, ValidRow), RowsOf(ResetOn(s, row, password), user, ValidRow);
    forall r ensures r in after <==> r in before && r != row {}
  }

  /** Two requests five minutes apart, and a reset with the first token. */
  function TwoThenReset(s: State, email: string, h0: int, h1: int, password: string): seq<Event> {
    [Forgot(email, h0)] + ([Tick(s.now + FIVE_MINUTES)] + ([Forgot(email, h1)] + [Reset(0, h0, password)]))
  }

  lemma Then(s: State, e: Event, rest: seq<Event>)
    requires Enabled(s, e) && Possible(Step(s, e), rest)
    ensures Possible(s, [e] + rest) && Run(s, [e] + rest) == Run(Step(s, e), rest)
  {
    assert ([e] + rest)[1..] == rest;
  }

  lemma ResetRuns(s: State, hash: int, password: string)
    requires Carries(s, 0, hash)
    ensures Possible(s, [Reset(0, hash, password)])
    ensures Run(s, [Reset(0, hash, password)]) == ResetOn(s, 0, password)
  {
    var e := Reset(0, hash, password);
    assert [e][1..] == [];
    assert Possible(ResetOn(s, 0, password), []);
  }

  /** The two tokens, as the second request leaves them. */
  lemma TwoTokens(s: State, email: string, h0: int, h1: int) returns (s1: State, s2: State)
    requires Initial(s) && s.nextRow == 0 && Known(s, email) && h0 != h1
    ensures s1 == ForgotOn(s, email, h0) && s2 == ForgotOn(Later(s1, FIVE_MINUTES), email, h1)
    ensures Fresh(s, h0) && Fresh(Later(s1, FIVE_MINUTES), h1)
    ensures s2 == Later(s, FIVE_MINUTES).(nextRow := 2,
                tokens := map[0 := Token(h0, s.emails[email], s.now, s.now + FIFTEEN_MINUTES, false),
                              1 := Token(h1, s.emails[email], s2.now, s2.now + FIFTEEN_MINUTES, false)])
  {
    ForgotAdds(s, email, h0);
    s1 := ForgotOn(s, email, h0);
    ForgotAdds(Later(s1, FIVE_MINUTES), email, h1);
    s2 := ForgotOn(Later(s1, FIVE_MINUTES), email, h1);
  }

  /** From an empty table: the password is changed with the first token, and the second one goes on validating. */
  lemma OtherTokenOutlivesReset(s: State, email: string, h0: int, h1: int, password: string)
    requires Initial(s) && s.nextRow == 0 && Known(s, email) && h0 != h1
    requires s.users[s.emails[email]].password != Some(password)
    ensures var events := TwoThenReset(s, email, h0, h1, password);
            && Possible(s, events)
            && Run(s, events).spent == [h0] && Validates(Run(s, events), h1)
  {
    var s1, s2 := TwoTokens(s, email, h0, h1);
    assert Carries(s2, 0, h0);
    ResetRuns(s2, h0, password);
    Then(Later(s1, FIVE_MINUTES), Forgot(email, h1), [Reset(0, h0, password)]);
    Then(s1, Tick(s.now + FIVE_MINUTES), [Forgot(email, h1)] + [Reset(0, h0, password)]);
    Then(s, Forgot(email, h0), [Tick(s.now + FIVE_MINUTES)] + ([Forgot(email, h1)] + [Reset(0, h0, password)]));
    assert Carries(ResetOn(s2, 0, password), 1, h1) && ValidRow(ResetOn(s2, 0, password), 1);
  }

  // ---- What a request does ----

  /** A local account stands behind the address. */
  predicate LocalAccount(s: State, email: string) {
    email in s.emails && s.emails[email] in s.users && s.users[s.emails[email]].provider == LOCAL
  }

  /** Only a social account is told anything, and only a local one changes the table. */
  lemma RequestAnsweredIff(s: State, email: string, hash: int)
    ensures RequestError(s, email) ==
            if email in s.emails && s.emails[email] in s.users && s.users[s.emails[email]].provider == OAUTH
            then Some(SocialLogin) else None
    ensures !LocalAccount(s, email) ==> ForgotOn(s, email, hash) == s
  {
  }

  /**
   A request of a local account takes the user's expired tokens out and leaves every other token; it stores one that
   expires in fifteen minutes, unless one of the user's that stays is younger than five minutes.
   */
  lemma RequestMeans(s: State, email: string, hash: int)
    requires LocalAccount(s, email) && forall row | row in s.tokens :: row < s.nextRow
    ensures var n, user := ForgotOn(s, email, hash), s.emails[email];
            var stays := set row | row in s.tokens
                             && !(s.tokens[row].userId == user && s.tokens[row].expiresAt < s.now);
            var young := set row | row in stays && s.tokens[row].userId == user
                             && s.tokens[row].createdAt > s.now - 300000;
            && n.now == s.now && n.users == s.users && n.emails == s.emails && n.spent == s.spent
            && (forall row | row in stays :: row in n.tokens && n.tokens[row] == s.tokens[row])
            && (young != {} ==> n.tokens.Keys == stays && n.nextRow == s.nextRow)
            && (young == {} ==>
                  && n.tokens.Keys == stays + {s.nextRow} && n.nextRow == s.nextRow + 1
                  && n.tokens[s.nextRow] == Token(hash, user, s.now, s.now + 900000, false))
  {
    var user := s.emails[email];
    var cleaned := s.(tokens := Cleaned(s, user));
    var stays := set row | row in s.tokens && !(s.tokens[row].userId == user && s.tokens[row].expiresAt < s.now);
    assert cleaned.tokens.Keys == stays;
    var young := set row | row in stays && s.tokens[row].userId == user && s.tokens[row].createdAt > s.now - 300000;
    if young != {} {
      var row := Inhabited(young);
      assert Recent(cleaned, user, row);
    } else {
      forall row ensures !Recent(cleaned, user, row) { assert row !in young; }
    }
  }

  /** A token is found by its hash while it is unused, and validates until it expires. */
  lemma TokenFoundIff(s: State, hash: int)
    ensures forall row :: Carries(s, row, hash) <==>
              row in s.tokens && s.tokens[row].hash == hash && s.tokens[row].used == false
    ensures Validates(s, hash) <==>
            exists row :: row in s.tokens && s.tokens[row].hash == hash && s.tokens[row].used == false
                && s.tokens[row].expiresAt > s.now
  {
    forall row ensures Carries(s, row, hash) && ValidRow(s, row) <==>
        row in s.tokens && s.tokens[row].hash == hash && s.tokens[row].used == false
            && s.tokens[row].expiresAt > s.now {}
  }

  // ---- What happens to passwords ----

  /** The reset of this row is carried out: the token is there, unused and not expired, and the password is another. */
  predicate Accepted(s: State, row: int, password: string) {
    && row in s.tokens && s.tokens[row].used == false && s.tokens[row].expiresAt >= s.now
    && s.tokens[row].userId in s.users && s.users[s.tokens[row].userId].password != Some(password)
  }

  /** `users` with the password of one of them set. */
  predicate OnlyPasswordSet(users: map<int, User>, users': map<int, User>, user: int, password: string) {
    && users'.Keys == users.Keys && user in users
    && users'[user] == User(users[user].provider, Some(password))
    && forall u | u in users && u != user :: users'[u] == users[u]
  }

  /** An accepted reset sets the password of the token's user, and nothing else of any user; a refused one sets none. */
  lemma ResetSetsPassword(s: State, row: int, password: string)
    requires row in s.tokens
    ensures var n := ResetOn(s, row, password);
            && (Accepted(s, row, password) ==>
                  && OnlyPasswordSet(s.users, n.users, s.tokens[row].userId, password)
                  && n.tokens == s.tokens - {row} && n.spent == s.spent + [s.tokens[row].hash])
            && (!Accepted(s, row, password) ==> n == s)
            && n.now == s.now && n.emails == s.emails && n.nextRow == s.nextRow
  {
  }

  /** The password the last accepted reset of the user has set, if there was one. */
  ghost function LastReset(s: State, events: seq<Event>, user: int): Option<string>
    requires Possible(s, events)
    decreases |events|
  {
    if events == [] then None
    else
      var e, later := events[0], LastReset(Step(s, events[0]), events[1..], user);
      if later.Some? then later
      else if e.Reset? && Accepted(s, e.row, e.password) && s.tokens[e.row].userId == user then Some(e.password)
      else None
  }

  /** The tokens whose resets were accepted, in order. */
  ghost function Redeemed(s: State, events: seq<Event>): seq<int>
    requires Possible(s, events)
    decreases |events|
  {
    if events == [] then []
    else
      var e := events[0];
      (if e.Reset? && Accepted(s, e.row, e.password) then [s.tokens[e.row].hash] else [])
          + Redeemed(Step(s, e), events[1..])
  }

  lemma StepPasswords(s: State, e: Event, user: int)
    requires Enabled(s, e) && user in s.users
    ensures user in Step(s, e).users
    ensures Step(s, e).users[user] ==
            if e.Reset? && Accepted(s, e.row, e.password) && s.tokens[e.row].userId == user
            then s.users[user].(password := Some(e.password)) else s.users[user]
    ensures Step(s, e).spent ==
            s.spent + if e.Reset? && Accepted(s, e.row, e.password) then [s.tokens[e.row].hash] else []
  {
    match e
    case Reset(row, _, password) => ResetSetsPassword(s, row, password);
    case _ =>
  }

  /**
   Over every run a user's password is the one the last accepted reset of that user has set, and without one the
   password is what it was; nothing else of the user changes, and the tokens spent are the tokens redeemed.
   */
  lemma {:induction false} PasswordsOverRuns(s: State, events: seq<Event>, user: int)
    requires Possible(s, events) && user in s.users
    ensures var n, last := Run(s, events), LastReset(s, events, user);
            && user in n.users && n.users[user].provider == s.users[user].provider
            && n.users[user].password == (if last.Some? then last else s.users[user].password)
            && n.spent == s.spent + Redeemed(s, events)
    decreases |events|
  {
    if events != [] {
      StepPasswords(s, events[0], user);
      PasswordsOverRuns(Step(s, events[0]), events[1..], user);
    }
  }

  /** So a token sets a password at most once: over every run from an empty table no token is redeemed twice. */
  lemma {:induction false} RedeemedOnce(s: State, events: seq<Event>, user: int)
    requires Initial(s) && Possible(s, events) && user in s.users
    ensures forall i, j | 0 <= i < j < |Redeemed(s, events)| :: Redeemed(s, events)[i] != Redeemed(s, events)[j]
  {
    TokensOverRuns(s, events, user);
    PasswordsOverRuns(s, events, user);
    assert Run(s, events).spent == Redeemed(s, events);
  }

  // ---- The service ----

  class AuthService {
    var now: int
    var emails: map<string, int>
    var users: map<int, User>
    var tokens: map<int, Token>
    var nextRow: int
    var spent: seq<int>

    constructor (now: int, emails: map<string, int>, users: map<int, User>)
      ensures Contents() == State(now, emails, users, map[], 0, [])
      ensures Initial(Contents())
    {
      this.now, this.emails, this.users := now, emails, users;
      tokens, nextRow, spent := map[], 0, [];
    }

    function Contents(): State
      reads this
    {
      State(now, emails, users, tokens, nextRow, spent)
    }

    method ForgotPassword(email: string, hash: int) returns (error: Option<Error>)
      modifies this`tokens, this`nextRow
      ensures error == RequestError(old(Contents()), email)
      ensures Contents() == ForgotOn(old(Contents()), email, hash)
    {
      if email !in emails || emails[email] !in users {
        return None;
      }
      var user := emails[email];
      if users[user].provider != LOCAL {
        return Some(SocialLogin);
      }
      tokens := map row | row in tokens && !(tokens[row].userId == user && tokens[row].expiresAt < now) :: tokens[row];
      ghost var cleaned := Contents();
      if row :| row in tokens && tokens[row].userId == user && tokens[row].createdAt > now - FIVE_MINUTES {
        assert Recent(cleaned, user, row);
        return None;
      }
      assert forall row :: !Recent(cleaned, user, row);
      tokens := tokens[nextRow := Token(hash, user, now, now + FIFTEEN_MINUTES, false)];
      nextRow := nextRow + 1;
      error := None;
    }

    method ValidateResetToken(hash: int) returns (valid: bool)
      ensures valid <==> Validates(Contents(), hash)
    {
      if row :| row in tokens && tokens[row].hash == hash && !tokens[row].used && tokens[row].expiresAt > now {
        assert Carries(Contents(), row, hash) && ValidRow(Contents(), row);
        return true;
      }
      valid := false;
    }

    method ResetPassword(hash: int, password: string) returns (error: Option<Error>)
      requires forall row | row in tokens :: tokens[row].userId in users
      modifies this
      ensures error == Some(InvalidToken) <==> forall row :: !Carries(old(Contents()), row, hash)
      ensures error == Some(InvalidToken) ==> Contents() == old(Contents())
      ensures error != Some(InvalidToken) ==> exists row ::
                && Carries(old(Contents()), row, hash)
                && Contents() == ResetOn(old(Contents()), row, password)
                && (error.None? <==> Allowed(old(Contents()), row, password))
                && (error == Some(TokenExpired) <==> old(tokens)[row].expiresAt < now)
    {
      ghost var s := Contents();
      if row :| row in tokens && tokens[row].hash == hash && !tokens[row].used {
        assert Carries(s, row, hash);
        var token := tokens[row];
        if token.expiresAt < now {
          return Some(TokenExpired);
        }
        if users[token.userId].password == Some(password) {
          return Some(SamePassword);
        }
        users := users[token.userId := users[token.userId].(password := Some(password))];
        tokens := tokens[row := token.(used := true)];
        spent := spent + [hash];
        tokens := map r | r in tokens && !(tokens[r].userId == token.userId && r == row) :: tokens[r];
        assert tokens == s.tokens - {row};
        return None;
      }
      assert forall row :: !Carries(s, row, hash);
      error := Some(InvalidToken);
    }
  }
}
