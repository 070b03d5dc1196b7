/**
 Slugs for new blogs.  Sign-up replaces each foreign character and then merges hyphens; the administrator command
 replaces whole runs at once.  Both then drop a hyphen at either end.
 */
module Slugs {
  predicate Plain(c: char) {
    'a' <= c <= 'z' || '0' <= c <= '9'
  }

  /** `replace(/[^a-z0-9]/g, "-")`. */
  function Hyphenate(s: string): (r: string)
    ensures |r| == |s|
    ensures forall i | 0 <= i < |s| :: r[i] == if Plain(s[i]) then s[i] else '-'
  {
    if s == "" then "" else [if Plain(s[0]) then s[0] else '-'] + Hyphenate(s[1..])
  }

  /** `replace(/-+/g, "-")`: of a run of hyphens the last one stays. */
  function MergeHyphens(s: string): string {
    if s == "" then ""
    else if s[0] == '-' && |s| > 1 && s[1] == '-' then MergeHyphens(s[1..])
    else [s[0]] + MergeHyphens(s[1..])
  }

  /** The characters after a leading run of foreign ones. */
  function SkipForeign(s: string): (r: string)
    ensures |r| <= |s|
    ensures r != "" ==> Plain(r[0])
    ensures s != "" && !Plain(s[0]) ==> |r| < |s|
  {
    if s != "" && !Plain(s[0]) then SkipForeign(s[1..]) else s
  }

  /** `replace(/[^a-z0-9]+/g, "-")`. */
  function ReplaceRuns(s: string): string
    decreases |s|
  {
    if s == "" then ""
    else if Plain(s[0]) then [s[0]] + ReplaceRuns(s[1..])
    else "-" + ReplaceRuns(SkipForeign(s))
  }

  /** `replace(/^-|-$/g, "")`. */
  function TrimHyphens(s: string): string {
    var t := if s != "" && s[0] == '-' then s[1..] else s;
    if t != "" && t[|t| - 1] == '-' then t[..|t| - 1] else t
  }

  /** Sign-up, before the length rule. */
  function TwoPass(s: string): string {
    TrimHyphens(MergeHyphens(Hyphenate(s)))
  }

  /** Administrator command, before the length rule. */
  function OnePass(s: string): string {
    TrimHyphens(ReplaceRuns(s))
  }

  function CreateSlug(lower: string): string {
    var slug := OnePass(lower);
    if |slug| >= 3 then (if |slug| > 50 then slug[..50] else slug) else "admin-blog"
  }

  lemma {:induction false} MergedRuns(s: string)
    ensures MergeHyphens(Hyphenate(s)) == ReplaceRuns(s)
    decreases |s|
  {
    if s != "" {
      var h := Hyphenate(s);
      assert h[1..] == Hyphenate(s[1..]);
      if Plain(s[0]) {
        MergedRuns(s[1..]);
      } else {
        RunMerges(s);
        MergedRuns(SkipForeign(s));
      }
    }
  }

  lemma {:induction false} RunMerges(s: string)
    requires s != "" && !Plain(s[0])
    ensures MergeHyphens(Hyphenate(s)) == "-" + MergeHyphens(Hyphenate(SkipForeign(s)))
    decreases |s|
  {
    var h := Hyphenate(s);
    assert h[1..] == Hyphenate(s[1..]);
    if |s| > 1 && !Plain(s[1]) {
      RunMerges(s[1..]);
      assert h[1] == '-';
    } else {
      assert SkipForeign(s) == s[1..];
    }
  }

  /** The two ways of making a slug agree on every input. */
  lemma TwoPassIsOnePass(s: string)
    ensures TwoPass(s) == OnePass(s)
  {
    MergedRuns(s);
  }

  /** Only plain characters and single hyphens between them. */
  predicate WellFormed(s: string) {
    && (forall i | 0 <= i < |s| :: Plain(s[i]) || s[i] == '-')
    && (forall i | 1 <= i < |s| :: s[i] == '-' ==> s[i - 1] != '-')
    && (s != "" ==> s[0] != '-' && s[|s| - 1] != '-')
  }

  predicate SingleHyphens(s: string) {
    && (forall i | 0 <= i < |s| :: Plain(s[i]) || s[i] == '-')
    && (forall i | 1 <= i < |s| :: s[i] == '-' ==> s[i - 1] != '-')
  }

  lemma {:induction false} RunsAreSingle(s: string)
    ensures SingleHyphens(ReplaceRuns(s))
    ensures s != "" ==> ReplaceRuns(s) != "" && ReplaceRuns(s)[0] == if Plain(s[0]) then s[0] else '-'
    ensures s == "" ==> ReplaceRuns(s) == ""
    decreases |s|
  {
    if s != "" {
      if Plain(s[0]) { RunsAreSingle(s[1..]); } else { RunsAreSingle(SkipForeign(s)); }
    }
  }

  lemma TrimmedIsWellFormed(s: string)
    requires SingleHyphens(s)
    ensures WellFormed(TrimHyphens(s))
  {
  }

  lemma {:induction false} SingleRunsUnchanged(s: string)
    requires SingleHyphens(s)
    ensures ReplaceRuns(s) == s
    decreases |s|
  {
    if s != "" {
      assert s == [s[0]] + s[1..];
      if !Plain(s[0]) {
        assert |s| > 1 ==> Plain(s[1]);
        assert SkipForeign(s) == s[1..];
      }
      SingleRunsUnchanged(s[1..]);
    }
  }

  /** Slugs are well formed, and making a slug of a slug changes nothing. */
  lemma SlugIdempotent(s: string)
    ensures WellFormed(TwoPass(s))
    ensures TwoPass(TwoPass(s)) == TwoPass(s)
  {
    TwoPassIsOnePass(s);
    RunsAreSingle(s);
    TrimmedIsWellFormed(ReplaceRuns(s));
    TwoPassIsOnePass(TwoPass(s));
    SingleRunsUnchanged(TwoPass(s));
  }

  // ---- A slug is the words of its source ----

  /** The leading run of small letters and digits. */
  function Word(s: string): (w: string)
    ensures |w| <= |s|
  {
    if s != "" && ('a' <= s[0] <= 'z' || '0' <= s[0] <= '9') then [s[0]] + Word(s[1..]) else ""
  }

  /** All such runs, in order. */
  function Words(s: string): seq<string>
    decreases |s|
  {
    if s == "" then []
    else if Word(s) == "" then Words(s[1..])
    else [Word(s)] + Words(s[|Word(s)|..])
  }

  function Joined(words: seq<string>): string {
    if words == [] then "" else if |words| == 1 then words[0] else words[0] + "-" + Joined(words[1..])
  }

  /** One hyphen for the foreign characters a text ends with. */
  function Tail(s: string): string {
    if s != "" && !Plain(s[|s| - 1]) then "-" else ""
  }

  lemma {:induction false} WordSplits(s: string)
    requires s != "" && Plain(s[0])
    ensures var w := Word(s);
            && w != "" && w == s[..|w|] && (|w| < |s| ==> !Plain(s[|w|])) && forall i | 0 <= i < |w| :: Plain(w[i])
    ensures ReplaceRuns(s) == Word(s) + ReplaceRuns(s[|Word(s)|..])
  {
    assert s == [s[0]] + s[1..];
    if |s| > 1 && Plain(s[1]) {
      WordSplits(s[1..]);
      assert s[|Word(s)|..] == s[1..][|Word(s[1..])|..];
    } else {
      assert Word(s[1..]) == "" && s[|Word(s)|..] == s[1..];
    }
  }

  lemma {:induction false} SkipKeepsWords(s: string)
    ensures Words(SkipForeign(s)) == Words(s)
    ensures SkipForeign(s) != "" ==> SkipForeign(s)[|SkipForeign(s)| - 1] == s[|s| - 1]
  {
    if s != "" && !Plain(s[0]) { SkipKeepsWords(s[1..]); }
  }

  lemma {:induction false} NoWordsNone(s: string)
    requires SkipForeign(s) == "" && s != ""
    ensures !Plain(s[|s| - 1])
  {
    if |s| > 1 { NoWordsNone(s[1..]); }
  }

  lemma OnlyWord(s: string)
    requires s != "" && Plain(s[0]) && s[|Word(s)|..] == ""
    ensures ReplaceRuns(s) == Word(s) && Words(s) == [Word(s)] && Tail(s) == ""
  {
    WordSplits(s);
    assert s == Word(s) && Plain(s[|s| - 1]);
  }

  lemma JoinMore(w: string, words: seq<string>, tail: string)
    requires words != []
    ensures w + ("-" + (Joined(words) + tail)) == Joined([w] + words) + tail
  {
    assert ([w] + words)[1..] == words;
    assert Joined([w] + words) == w + "-" + Joined(words);
  }

  /** A word, foreign characters, and what comes after them. */
  lemma OneMoreWord(s: string, w: string, rest: string, q: string)
    requires s != "" && Plain(s[0]) && w == Word(s) && rest == s[|w|..] && rest != "" && q == SkipForeign(rest)
    ensures ReplaceRuns(s) == w + ("-" + ReplaceRuns(q)) && Words(s) == [w] + Words(q)
    ensures |q| < |s| && (q == "" ==> Tail(s) == "-") && (q != "" ==> Tail(s) == Tail(q))
  {
    WordSplits(s);
    SkipKeepsWords(rest);
    TailOfRest(s, rest, q);
  }

  lemma TailOfRest(s: string, rest: string, q: string)
    requires rest != "" && |rest| <= |s| && rest == s[|s| - |rest|..] && q == SkipForeign(rest)
    ensures (q == "" ==> Tail(s) == "-") && (q != "" ==> Tail(s) == Tail(q))
  {
    assert s[|s| - 1] == rest[|rest| - 1];
    SkipKeepsWords(rest);
    if q == "" { NoWordsNone(rest); }
  }

  /** From the first plain character on, replacing runs writes the words and a hyphen for a foreign end. */
  lemma {:induction false} RunsAreWords(s: string)
    requires s != "" ==> Plain(s[0])
    ensures ReplaceRuns(s) == Joined(Words(s)) + Tail(s)
    ensures s != "" ==> Words(s) != []
    decreases |s|
  {
    if s != "" {
      var w := Word(s);
      var rest := s[|w|..];
      if rest == "" {
        OnlyWord(s);
      } else {
        var q := SkipForeign(rest);
        OneMoreWord(s, w, rest, q);
        RunsAreWords(q);
        if q != "" {
          JoinMore(w, Words(q), Tail(q));
        }
      }
    }
  }

  lemma {:induction false} JoinedEnds(s: string)
    requires s != "" ==> Plain(s[0])
    ensures var j := Joined(Words(s)); j != "" ==> j[0] != '-' && j[|j| - 1] != '-'
    decreases |s|
  {
    if s != "" {
      WordSplits(s);
      var rest := s[|Word(s)|..];
      SkipKeepsWords(rest);
      JoinedEnds(SkipForeign(rest));
      RunsAreWords(SkipForeign(rest));
      NonemptyJoined(SkipForeign(rest));
      assert Words(s) == [Word(s)] + Words(SkipForeign(rest));
    }
  }

  lemma NonemptyJoined(s: string)
    requires s != "" ==> Plain(s[0])
    ensures Words(s) != [] ==> Joined(Words(s)) != ""
  {
    if s != "" { WordSplits(s); }
  }

  lemma Trimmed(lead: string, j: string, tail: string)
    requires lead in {"", "-"} && tail in {"", "-"} && (j != "" ==> j[0] != '-' && j[|j| - 1] != '-')
    requires j == "" ==> tail == ""
    ensures TrimHyphens(lead + (j + tail)) == j
  {
    assert (j + tail)[..|j|] == j;
    if lead == "-" { assert ("-" + (j + tail))[1..] == j + tail; } else { assert "" + (j + tail) == j + tail; }
  }

  /** A slug is the words of its source joined by single hyphens, whatever stands between them and at the ends. */
  lemma SlugIsWords(s: string)
    ensures OnePass(s) == Joined(Words(s)) && TwoPass(s) == Joined(Words(s))
  {
    TwoPassIsOnePass(s);
    var q := SkipForeign(s);
    SkipKeepsWords(s);
    RunsAreWords(q);
    JoinedEnds(q);
    Trimmed(if s != "" && !Plain(s[0]) then "-" else "", Joined(Words(q)), Tail(q));
  }

  /** The administrator slug: at most fifty characters of it, or a fixed one when it is shorter than three. */
  lemma AdminSlug(lower: string)
    ensures var slug := Joined(Words(lower));
            && (|slug| < 3 ==> CreateSlug(lower) == "admin-blog")
            && (|slug| >= 3 ==> CreateSlug(lower) <= slug && |CreateSlug(lower)| == if |slug| < 50 then |slug| else 50)
  {
    SlugIsWords(lower);
  }

  /** Cutting at fifty characters keeps a slug well formed exactly when the cut does not fall right after a hyphen. */
  lemma CutSlugWellFormedIff(lower: string)
    ensures WellFormed(CreateSlug(lower)) <==> !(|OnePass(lower)| > 50 && OnePass(lower)[49] == '-')
  {
    SlugIdempotent(lower);
    TwoPassIsOnePass(lower);
  }

  /** Forty-nine letters, a hyphen and two more letters lose their end and keep the hyphen. */
  lemma CutLeavesHyphen()
    ensures var name := seq(49, _ => 'a') + "-bb";
            OnePass(name) == name && !WellFormed(CreateSlug(name))
  {
    var name := seq(49, _ => 'a') + "-bb";
    SingleRunsUnchanged(name);
    CutSlugWellFormedIff(name);
  }
}
