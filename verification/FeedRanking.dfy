/**
 The hot and top rankings: three sorted sets per sort order, refilled together from one list of scored rows, and read
 back as a prefix.  The point is that the per-source sets stay projections of the set for all sources.
 */
module FeedRanking {
  import opened Wrappers
  import opened Keyset
  import opened FeedKinds

  const BLOG := "blog"
  const COMMUNITY := "community"

  /** `Number(...)` of a score column. */
  datatype Score = NaN | Num(value: real)

  datatype RankedRow = RankedRow(id: string, sourceType: string, hotScore: Score, topScore: Score)

  datatype RankingKey = RankingKey(filter: FilterType, sort: SortType)

  datatype RankedEntry = RankedEntry(sourceType: string, id: string)

  /** A sorted set: one score per member. */
  type Zset = map<string, real>

  // ---- Members ----

  function Member(sourceType: string, id: string): string {
    sourceType + ":" + id
  }

  /** `split(":")`. */
  function Split(s: string): (parts: seq<string>)
    ensures parts != []
    ensures forall p | p in parts :: ':' !in p
    ensures |parts| == 1 <==> ':' !in s
  {
    if s == "" then [""]
    else
      var rest := Split(s[1..]);
      if s[0] == ':' then [""] + rest else [[s[0]] + rest[0]] + rest[1..]
  }

  predicate KnownSource(sourceType: string) {
    sourceType == BLOG || sourceType == COMMUNITY
  }

  function ParseMember(member: string): Option<RankedEntry> {
    var parts := Split(member);
    if |parts| >= 2 && KnownSource(parts[0]) && |parts[1]| > 0 then Some(RankedEntry(parts[0], parts[1])) else None
  }

  lemma {:induction false} SplitAtFirstColon(a: string, b: string)
    requires ':' !in a
    ensures Split(a + ":" + b) == [a] + Split(b)
  {
    if a == "" {
      assert (a + ":" + b)[1..] == b;
    } else {
      SplitAtFirstColon(a[1..], b);
      assert (a + ":" + b)[1..] == a[1..] + ":" + b;
      assert (a + ":" + b)[0] == a[0];
      assert [a[0]] + a[1..] == a;
    }
  }

  lemma {:induction false} SplitWhole(s: string)
    ensures ':' !in s ==> Split(s) == [s]
  {
    if s != "" && ':' !in s {
      SplitWhole(s[1..]);
      assert [s[0]] + s[1..] == s;
    }
  }

  /** A member parses back to its row exactly when the source is known and the id is not empty and has no colon. */
  lemma MemberRoundTrip(sourceType: string, id: string)
    ensures ParseMember(Member(sourceType, id)) == Some(RankedEntry(sourceType, id))
            <==> (sourceType == "blog" || sourceType == "community") && id != "" && ':' !in id
  {
    if ':' !in sourceType {
      SplitAtFirstColon(sourceType, id);
      SplitWhole(id);
    }
  }

  // ---- Order of a sorted set ----

  predicate LexLess(a: string, b: string) {
    if b == "" then false
    else if a == "" then true
    else a[0] < b[0] || (a[0] == b[0] && LexLess(a[1..], b[1..]))
  }

  lemma {:induction false} LexTransitive(a: string, b: string, c: string)
    requires LexLess(a, b) && LexLess(b, c)
    ensures LexLess(a, c)
  {
    if a != "" && a[0] == b[0] && b[0] == c[0] {
      LexTransitive(a[1..], b[1..], c[1..]);
    }
  }

  lemma {:induction false} LexTotal(a: string, b: string)
    ensures !LexLess(a, a)
    ensures a == b || LexLess(a, b) || LexLess(b, a)
  {
    if a != "" {
      LexTotal(a[1..], if b == "" then "" else b[1..]);
      if b != "" && a[0] == b[0] && a[1..] == b[1..] {
        assert a == [a[0]] + a[1..] == [b[0]] + b[1..] == b;
      }
    }
  }

  /** Lower score first, then members in byte order; a reversed range reads this downwards. */
  predicate ZLess(a: (string, real), b: (string, real)) {
    a.1 < b.1 || (a.1 == b.1 && LexLess(a.0, b.0))
  }

  lemma ZOrder()
    ensures StrictTotal(ZLess)
  {
    forall x ensures !ZLess(x, x) { LexTotal(x.0, x.0); }
    forall x, y ensures x == y || ZLess(x, y) || ZLess(y, x) { LexTotal(x.0, y.0); }
    forall x, y, z | ZLess(x, y) && ZLess(y, z) ensures ZLess(x, z) {
      if LexLess(x.0, y.0) && LexLess(y.0, z.0) { LexTransitive(x.0, y.0, z.0); }
    }
  }

  function Scored(z: Zset): set<(string, real)> {
    set m | m in z :: (m, z[m])
  }

  function Ranking(z: Zset): seq<(string, real)> {
    ZOrder();
    Desc(ZLess, Scored(z))
  }

  function Members(scored: seq<(string, real)>): (members: seq<string>)
    ensures |members| == |scored| && forall i | 0 <= i < |scored| :: members[i] == scored[i].0
  {
    if scored == [] then [] else [scored[0].0] + Members(scored[1..])
  }

  /** `zrevrange key 0 limit-1`. */
  function ZRevRange(z: Zset, limit: nat): seq<string> {
    Members(Take(Ranking(z), limit))
  }

  // ---- Refilling ----

  function ScoreOf(row: RankedRow, sort: SortType): Score {
    if sort == HOT then row.hotScore else row.topScore
  }

  predicate Goes(row: RankedRow, filter: FilterType) {
    match filter
    case ALL => true
    case BLOG_ONLY => row.sourceType == BLOG
    case COMMUNITY_ONLY => row.sourceType == COMMUNITY
  }

  /** One row added to the sorted set of one filter. */
  function Added(z: Zset, row: RankedRow, sort: SortType, filter: FilterType): Zset {
    if ScoreOf(row, sort).NaN? || !Goes(row, filter) then z
    else z[Member(row.sourceType, row.id) := ScoreOf(row, sort).value]
  }

  /** What the sorted set of one filter holds after all rows have been added: the last score of each member. */
  function Filled(rows: seq<RankedRow>, sort: SortType, filter: FilterType): Zset {
    if rows == [] then map[]
    else
      Added(Filled(rows[..|rows| - 1], sort, filter), rows[|rows| - 1], sort, filter)
  }

  predicate IsRankingSupported(sort: SortType) {
    sort == HOT || sort == TOP
  }

  function ParseAll(members: seq<string>): (entries: seq<RankedEntry>) {
    if members == [] then []
    else
      var rest := ParseAll(members[1..]);
      var entry := ParseMember(members[0]);
      if entry.Some? then [entry.value] + rest else rest
  }

  class FeedRankingService {
    var zsets: map<RankingKey, Zset>

    constructor ()
      ensures zsets == map[]
    {
      zsets := map[];
    }

    function Zset(key: RankingKey): Zset
      reads this
    {
      if key in zsets then zsets[key] else map[]
    }

    method Zadd(key: RankingKey, score: real, member: string)
      modifies this
      ensures Zset(key) == old(Zset(key))[member := score]
      ensures forall other: RankingKey | other != key :: Zset(other) == old(Zset(other))
    {
      zsets := zsets[key := Zset(key)[member := score]];
    }

    method AddRow(sort: SortType, row: RankedRow)
      modifies this
      ensures Zset(RankingKey(ALL, sort)) == Added(old(Zset(RankingKey(ALL, sort))), row, sort, ALL)
      ensures Zset(RankingKey(BLOG_ONLY, sort)) == Added(old(Zset(RankingKey(BLOG_ONLY, sort))), row, sort, BLOG_ONLY)
      ensures Zset(RankingKey(COMMUNITY_ONLY, sort)) ==
          Added(old(Zset(RankingKey(COMMUNITY_ONLY, sort))), row, sort, COMMUNITY_ONLY)
      ensures forall key: RankingKey | key.sort != sort :: Zset(key) == old(Zset(key))
    {
      var member := Member(row.sourceType, row.id);
      var score := ScoreOf(row, sort);
      if score.NaN? {
        return;
      }
      Zadd(RankingKey(ALL, sort), score.value, member);
      if row.sourceType == BLOG {
        Zadd(RankingKey(BLOG_ONLY, sort), score.value, member);
      } else if row.sourceType == COMMUNITY {
        Zadd(RankingKey(COMMUNITY_ONLY, sort), score.value, member);
      }
    }

    /** Drops the three sets of one sort order and refills them from the rows; the other sort order keeps its sets. */
    method StoreRanking(sort: SortType, rows: seq<RankedRow>)
      modifies this
      ensures Zset(RankingKey(ALL, sort)) == Filled(rows, sort, ALL)
      ensures Zset(RankingKey(BLOG_ONLY, sort)) == Filled(rows, sort, BLOG_ONLY)
      ensures Zset(RankingKey(COMMUNITY_ONLY, sort)) == Filled(rows, sort, COMMUNITY_ONLY)
      ensures forall key: RankingKey | key.sort != sort :: Zset(key) == old(Zset(key))
    {
      zsets := zsets - {RankingKey(ALL, sort), RankingKey(BLOG_ONLY, sort), RankingKey(COMMUNITY_ONLY, sort)};
      for i := 0 to |rows|
        invariant Zset(RankingKey(ALL, sort)) == Filled(rows[..i], sort, ALL)
        invariant Zset(RankingKey(BLOG_ONLY, sort)) == Filled(rows[..i], sort, BLOG_ONLY)
        invariant Zset(RankingKey(COMMUNITY_ONLY, sort)) == Filled(rows[..i], sort, COMMUNITY_ONLY)
        invariant forall key: RankingKey | key.sort != sort :: Zset(key) == old(Zset(key))
      {
        assert rows[..i + 1][..i] == rows[..i] && rows[..i + 1][i] == rows[i];
        AddRow(sort, rows[i]);
      }
      assert rows[..|rows|] == rows;
    }

    function GetRankedEntries(filter: FilterType, sort: SortType, limit: int): seq<RankedEntry>
      reads this
    {
      if !IsRankingSupported(sort) || limit <= 0 then []
      else ParseAll(ZRevRange(Zset(RankingKey(filter, sort)), limit))
    }
  }

  // ---- Projections ----

  /** What the ranking query delivers: rows of the two sources with plain ids. */
  predicate PlainRow(row: RankedRow) {
    KnownSource(row.sourceType) && row.id != "" && ':' !in row.id
  }

  predicate FromSource(member: string, filter: FilterType) {
    match filter
    case ALL => true
    case BLOG_ONLY => Split(member)[0] == BLOG
    case COMMUNITY_ONLY => Split(member)[0] == COMMUNITY
  }

  predicate PlainMember(member: string) {
    ParseMember(member).Some?
  }

  ghost predicate ProjectionOf(part: Zset, whole: Zset, filter: FilterType) {
    forall m :: (m in part <==> m in whole && FromSource(m, filter)) && (m in part ==> part[m] == whole[m])
  }

  lemma RowMember(row: RankedRow, filter: FilterType)
    requires PlainRow(row)
    ensures PlainMember(Member(row.sourceType, row.id))
    ensures FromSource(Member(row.sourceType, row.id), filter) <==> Goes(row, filter)
  {
    MemberRoundTrip(row.sourceType, row.id);
  }

  /**
   Each set of a source holds exactly the members of the full set that come from that source, with the same scores.
   */
  lemma {:induction false} FilledIsProjection(rows: seq<RankedRow>, sort: SortType, filter: FilterType)
    requires forall row | row in rows :: PlainRow(row)
    ensures ProjectionOf(Filled(rows, sort, filter), Filled(rows, sort, ALL), filter)
    ensures forall m | m in Filled(rows, sort, ALL) :: PlainMember(m)
  {
    if rows != [] {
      var before := rows[..|rows| - 1];
      FilledIsProjection(before, sort, filter);
      RowMember(rows[|rows| - 1], filter);
    }
  }

  function InSource(filter: FilterType): ((string, real)) -> bool {
    (x: (string, real)) => FromSource(x.0, filter)
  }

  /**
   Reading a source's set downwards is reading the full set and skipping the other source: same members, same order.
   */
  lemma {:induction false} RankingIsProjection(rows: seq<RankedRow>, sort: SortType, filter: FilterType)
    requires forall row | row in rows :: PlainRow(row)
    ensures Ranking(Filled(rows, sort, filter)) == Where(Ranking(Filled(rows, sort, ALL)), InSource(filter))
  {
    var part, whole := Filled(rows, sort, filter), Filled(rows, sort, ALL);
    FilledIsProjection(rows, sort, filter);
    ProjectedScores(part, whole, filter);
    ProjectedRanking(part, whole, InSource(filter));
  }

  lemma ProjectedRanking(part: Zset, whole: Zset, p: ((string, real)) -> bool)
    requires Scored(part) == set x | x in Scored(whole) && p(x)
    ensures Ranking(part) == Where(Ranking(whole), p)
  {
    ZOrder();
    FilterThenSort(ZLess, Scored(part), Scored(whole), p);
  }

  lemma {:induction false} FilterThenSort<T(!new)>(lt: (T, T) -> bool, part: set<T>, whole: set<T>, p: T -> bool)
    requires StrictTotal(lt) && part == set x | x in whole && p(x)
    ensures Desc(lt, part) == Where(Desc(lt, whole), p)
  {
    FilterCommutes(lt, whole, p);
  }

  lemma ProjectedScores(part: Zset, whole: Zset, filter: FilterType)
    requires ProjectionOf(part, whole, filter)
    ensures Scored(part) == set x | x in Scored(whole) && InSource(filter)(x)
  {
    forall x ensures x in Scored(part) <==> x in Scored(whole) && InSource(filter)(x) {
      assert x in Scored(part) ==> x.0 in part && part[x.0] == x.1;
      assert x in Scored(whole) ==> x.0 in whole && whole[x.0] == x.1;
      if x.0 in part && part[x.0] == x.1 { assert (x.0, part[x.0]) in Scored(part); }
      if x.0 in whole && whole[x.0] == x.1 { assert (x.0, whole[x.0]) in Scored(whole); }
    }
  }

  /** The two source sets are disjoint and together hold every member of the full set. */
  lemma SourcesPartition(rows: seq<RankedRow>, sort: SortType)
    requires forall row | row in rows :: PlainRow(row)
    ensures Filled(rows, sort, BLOG_ONLY).Keys !! Filled(rows, sort, COMMUNITY_ONLY).Keys
    ensures Filled(rows, sort, BLOG_ONLY).Keys + Filled(rows, sort, COMMUNITY_ONLY).Keys == Filled(rows, sort, ALL).Keys
  {
    FilledIsProjection(rows, sort, BLOG_ONLY);
    FilledIsProjection(rows, sort, COMMUNITY_ONLY);
  }

  predicate EntryGoes(e: RankedEntry, filter: FilterType) {
    match filter
    case ALL => true
    case BLOG_ONLY => e.sourceType == BLOG
    case COMMUNITY_ONLY => e.sourceType == COMMUNITY
  }

  function EntryFilter(filter: FilterType): RankedEntry -> bool {
    e => EntryGoes(e, filter)
  }

  ghost predicate AllPlain(scored: seq<(string, real)>) {
    forall x | x in scored :: PlainMember(x.0)
  }

  lemma EntriesCons(scored: seq<(string, real)>)
    requires scored != [] && AllPlain(scored)
    ensures AllPlain(scored[1..])
    ensures Members(scored) == [scored[0].0] + Members(scored[1..])
    ensures ParseAll(Members(scored)) == [ParseMember(scored[0].0).value] + ParseAll(Members(scored[1..]))
  {
    assert scored[0] in scored;
  }

  lemma TakeHead<T>(s: seq<T>, n: nat)
    requires s != [] && n > 0
    ensures Take(s, n) == [s[0]] + Take(s[1..], n - 1)
  {
  }

  lemma {:induction false} EntriesTake(scored: seq<(string, real)>, n: nat)
    requires AllPlain(scored)
    ensures ParseAll(Members(Take(scored, n))) == Take(ParseAll(Members(scored)), n)
  {
    if scored != [] && n > 0 {
      EntriesCons(scored);
      EntriesTake(scored[1..], n - 1);
      var first, rest := scored[0], Take(scored[1..], n - 1);
      TakeHead(scored, n);
      assert ([first] + rest)[1..] == rest;
      assert AllPlain([first] + rest);
      EntriesCons([first] + rest);
      TakeCons(ParseMember(first.0).value, ParseAll(Members(scored[1..])), n);
    }
  }

  lemma {:induction false} EntriesWhere(scored: seq<(string, real)>, filter: FilterType)
    requires AllPlain(scored)
    ensures AllPlain(Where(scored, InSource(filter)))
    ensures ParseAll(Members(Where(scored, InSource(filter)))) == Where(ParseAll(Members(scored)), EntryFilter(filter))
  {
    if scored != [] {
      EntriesCons(scored);
      EntriesWhere(scored[1..], filter);
      var kept := Where(scored[1..], InSource(filter));
      if InSource(filter)(scored[0]) {
        assert ([scored[0]] + kept)[1..] == kept;
        EntriesCons([scored[0]] + kept);
      }
    }
  }

  /**
   After a refill, the first n entries of a source are the first n of that source in the full ranking: asking for a
   source with a limit never skips, adds or reorders entries against the list of all sources.
   */
  lemma {:induction false} RankedPrefix(rows: seq<RankedRow>, sort: SortType, filter: FilterType, n: nat)
    requires forall row | row in rows :: PlainRow(row)
    ensures ParseAll(ZRevRange(Filled(rows, sort, filter), n))
            == Take(Where(ParseAll(Members(Ranking(Filled(rows, sort, ALL)))), EntryFilter(filter)), n)
  {
    var whole := Filled(rows, sort, ALL);
    FilledIsProjection(rows, sort, ALL);
    RankingPlain(whole);
    RankingIsProjection(rows, sort, filter);
    EntriesWhere(Ranking(whole), filter);
    EntriesTake(Where(Ranking(whole), InSource(filter)), n);
  }

  /**
   Reading a ranking that has been refilled, and not since: the first `limit` entries of the filter in the full ranking,
   and nothing for the recent sort or a limit below one.
   */
  lemma {:induction false} RankedEntriesArePrefix(service: FeedRankingService, rows: seq<RankedRow>, sort: SortType,
      filter: FilterType, limit: int)
    requires service.Zset(RankingKey(filter, sort)) == Filled(rows, sort, filter)
    requires forall row | row in rows :: PlainRow(row)
    ensures service.GetRankedEntries(filter, sort, limit) ==
            if sort == RECENT || limit <= 0 then []
            else Take(Where(ParseAll(Members(Ranking(Filled(rows, sort, ALL)))), EntryFilter(filter)), limit)
  {
    if sort != RECENT && limit > 0 {
      RankedPrefix(rows, sort, filter, limit);
    }
  }

  lemma RankingPlain(z: Zset)
    requires forall m | m in z :: PlainMember(m)
    ensures AllPlain(Ranking(z))
  {
    ZOrder();
    forall x | x in Ranking(z) ensures PlainMember(x.0) {
      assert x in Scored(z);
    }
  }

  /** Every scored row is in the ranking of its source, and nothing else is. */
  lemma {:induction false} RankingHoldsRows(rows: seq<RankedRow>, sort: SortType, filter: FilterType, member: string)
    ensures member in Filled(rows, sort, filter) <==>
            exists i | 0 <= i < |rows| ::
              Goes(rows[i], filter) && ScoreOf(rows[i], sort).Num? && member == Member(rows[i].sourceType, rows[i].id)
  {
    if rows != [] {
      var before := rows[..|rows| - 1];
      RankingHoldsRows(before, sort, filter, member);
      var last := rows[|rows| - 1];
      assert forall i | 0 <= i < |before| :: before[i] == rows[i];
    }
  }

  // ---- What the ranking orders by ----

  /** The score of a row in the hot and in the top ranking; the recent sort has no ranking. */
  predicate HasScore(row: RankedRow, sort: SortType, score: real) {
    (sort == HOT ==> row.hotScore == Num(score)) && (sort != HOT ==> row.topScore == Num(score))
  }

  /** A filter takes both sources or the one it names. */
  predicate Takes(filter: FilterType, row: RankedRow) {
    filter == ALL || (filter == BLOG_ONLY && row.sourceType == "blog")
        || (filter == COMMUNITY_ONLY && row.sourceType == "community")
  }

  /** Each row of the refill names another member. */
  ghost predicate MembersDiffer(rows: seq<RankedRow>) {
    forall i, j | 0 <= i < j < |rows| ::
      rows[i].sourceType + ":" + rows[i].id != rows[j].sourceType + ":" + rows[j].id
  }

  /** The set of a filter holds each row the filter takes under the score of its sort order. */
  lemma {:induction false} RowScored(rows: seq<RankedRow>, sort: SortType, filter: FilterType, i: nat, score: real)
    requires i < |rows| && MembersDiffer(rows) && Takes(filter, rows[i]) && HasScore(rows[i], sort, score)
    ensures var member := rows[i].sourceType + ":" + rows[i].id;
            member in Filled(rows, sort, filter) && Filled(rows, sort, filter)[member] == score
  {
    var last := |rows| - 1;
    if i < last {
      assert rows[i].sourceType + ":" + rows[i].id != rows[last].sourceType + ":" + rows[last].id;
      RowScored(rows[..last], sort, filter, i, score);
    }
  }

  /** Read downwards, scores never rise, and equal scores come in falling byte order of their members. */
  lemma RankingFalls(z: Zset, i: nat, j: nat)
    requires i < j < |Ranking(z)|
    ensures var a, b := Ranking(z)[i], Ranking(z)[j];
            a.0 in z && z[a.0] == a.1 && b.0 in z && z[b.0] == b.1 && (a.1 > b.1 || (a.1 == b.1 && LexLess(b.0, a.0)))
  {
    ZOrder();
    assert Ranking(z)[i] in Scored(z) && Ranking(z)[j] in Scored(z);
    assert ZLess(Ranking(z)[j], Ranking(z)[i]);
  }

  /**
   The hot ranking orders by the hot score and the top ranking by the top score: of two rows the filter takes, the one
   with the larger score of that sort order comes first.
   */
  lemma {:induction false} LargerScoreFirst(rows: seq<RankedRow>, sort: SortType, filter: FilterType, i: nat, j: nat,
      a: real, b: real) returns (x: nat, y: nat)
    requires i < |rows| && j < |rows| && MembersDiffer(rows) && Takes(filter, rows[i]) && Takes(filter, rows[j])
    requires HasScore(rows[i], sort, a) && HasScore(rows[j], sort, b) && a > b
    ensures var ranking := Ranking(Filled(rows, sort, filter));
            && x < y < |ranking|
            && ranking[x] == (rows[i].sourceType + ":" + rows[i].id, a)
            && ranking[y] == (rows[j].sourceType + ":" + rows[j].id, b)
  {
    ZOrder();
    var z := Filled(rows, sort, filter);
    RowScored(rows, sort, filter, i, a);
    RowScored(rows, sort, filter, j, b);
    var first, second := (rows[i].sourceType + ":" + rows[i].id, a), (rows[j].sourceType + ":" + rows[j].id, b);
    assert first in Scored(z) && second in Scored(z);
    assert first in Ranking(z) && second in Ranking(z);
    x :| 0 <= x < |Ranking(z)| && Ranking(z)[x] == first;
    y :| 0 <= y < |Ranking(z)| && Ranking(z)[y] == second;
    if y < x { RankingFalls(z, y, x); }
  }
}
