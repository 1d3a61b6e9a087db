/**
 `_scope_covers_dir` of `vault_fs.py`: a prefix test standing in for "could
 any read pattern match something below this directory?". The prefix test is
 complete for exactly the patterns `PrefixSafe` describes.
 */
module VaultDir {
  import opened Common
  import opened Paths
  import opened Glob
  import opened Text
  import opened VaultScope

  /** `pattern.split("*")[0]`. */
  function BeforeStar(pattern: string): string {
    if pattern == "" || pattern[0] == '*' then "" else [pattern[0]] + BeforeStar(pattern[1..])
  }

  function LiteralLead(pattern: string): string {
    StripSlashes(BeforeStar(pattern))
  }

  predicate PatternCovers(pattern: string, dir: string) {
    || pattern == "**"
    || dir + "/" <= pattern || dir + "/**" <= pattern
    || "**/" <= pattern
    || LiteralLead(pattern) + "/" <= dir || dir == LiteralLead(pattern)
  }

  /** `_scope_covers_dir`. */
  predicate CoversDir(scope: Option<Scope>, dir: string) {
    && scope.Some?
    && var patterns := PatternsFor(scope.value, "read");
    exists i :: 0 <= i < |patterns| && PatternCovers(patterns[i], dir)
  }

  /** `path` names something under `dir`. */
  predicate Below(dir: string, path: string) {
    dir + "/" <= path
  }

  /** The prefix test never hides a directory the pattern reaches into, among the paths `normalise` lets through. */
  ghost predicate Complete(pattern: string) {
    forall dir, path :: NormalPath(dir) && NormalPath(path) && Below(dir, path) && Matches(pattern, path) ==>
      PatternCovers(pattern, dir)
  }

  /** Index of the first segment holding a star, or the number of segments. */
  function FirstStar(ps: seq<string>): (f: nat)
    ensures f <= |ps|
    ensures f < |ps| ==> '*' in ps[f]
    ensures forall i :: 0 <= i < f ==> '*' !in ps[i]
  {
    if ps == [] || '*' in ps[0] then 0 else 1 + FirstStar(ps[1..])
  }

  /**
   No lone star leading to further segments, and no `?` in a segment that both
   precedes every star and has more pattern after it. (A pattern with an empty
   segment matches nothing below any directory.)
   */
  predicate PrefixSafe(ps: seq<string>) {
    || "" in ps
    || ps == ["*"]
    || (ps != [] && ps[0] == "**")
    || (ps != [] && ps[0] != "*" && forall i :: 0 <= i < FirstStar(ps) && i < |ps| - 1 ==> '?' !in ps[i])
  }

  // ---- strings and segments ---------------------------------------------------

  lemma {:induction false} SplitAppend(a: string, b: string)
    ensures Split(a + "/" + b) == Split(a) + Split(b)
  {
    SplitSlashFree(a);
    SplitSlashFree(b);
    JoinSplit(a);
    JoinSplit(b);
    JoinAppend(Split(a), Split(b));
    SplitJoin(Split(a) + Split(b));
  }

  lemma PrefixThenSegments(a: string, s: string)
    requires a + "/" <= s
    ensures |Split(a)| < |Split(s)| && Split(s)[..|Split(a)|] == Split(a)
  {
    var b := s[|a| + 1..];
    assert s == a + "/" + b;
    SplitAppend(a, b);
  }

  lemma SegmentsThenPrefix(a: string, s: string, rest: seq<string>)
    requires rest != [] && Split(s) == Split(a) + rest
    ensures a + "/" <= s
  {
    JoinAppend(Split(a), rest);
    JoinSplit(a);
    JoinSplit(s);
  }

  /** Starting with a directory and a separator is starting with its segments, and going on. */
  lemma PrefixSegments(a: string, s: string)
    ensures a + "/" <= s <==> |Split(a)| < |Split(s)| && Split(s)[..|Split(a)|] == Split(a)
  {
    var n := |Split(a)|;
    if a + "/" <= s { PrefixThenSegments(a, s); }
    if n < |Split(s)| && Split(s)[..n] == Split(a) {
      assert Split(s) == Split(s)[..n] + Split(s)[n..];
      SegmentsThenPrefix(a, s, Split(s)[n..]);
    }
  }

  lemma {:induction false} BeforeStarWhole(s: string, t: string)
    requires '*' !in s && (t == "" || t[0] == '*')
    ensures BeforeStar(s + t) == s
  {
    if s == "" {
      assert s + t == t;
    } else {
      assert (s + t)[1..] == s[1..] + t;
      BeforeStarWhole(s[1..], t);
    }
  }

  lemma {:induction false} JoinEnds(ps: seq<string>)
    requires |ps| >= 1 && SlashFree(ps) && NonEmptySegments(ps)
    ensures Join(ps) != "" && Join(ps)[|Join(ps)| - 1] != '/' && Join(ps)[0] == ps[0][0]
  {
    if |ps| == 1 {
      assert ps[0][|ps[0]| - 1] in ps[0];
    } else {
      JoinEnds(ps[1..]);
    }
  }

  lemma StripOneSlash(s: string)
    requires s != "" && s[|s| - 1] != '/'
    ensures StripSlashes(s) == s && StripSlashes(s + "/") == s
  {
    assert (s + "/")[..|s|] == s;
  }

  lemma LeadIsWhole(lead: string)
    requires lead != "" && '*' !in lead && lead[|lead| - 1] != '/'
    ensures LiteralLead(lead) == lead
  {
    StripOneSlash(lead);
    BeforeStarWhole(lead, "");
    assert lead + "" == lead;
  }

  lemma LeadThenStar(pattern: string, lead: string, rest: string)
    requires lead != "" && '*' !in lead && lead[|lead| - 1] != '/' && rest != "" && rest[0] == '*'
    requires pattern == lead + "/" + rest
    ensures LiteralLead(pattern) == lead
  {
    StripOneSlash(lead);
    BeforeStarWhole(lead + "/", rest);
  }

  lemma LeadFacts(ps: seq<string>, f: nat)
    requires SlashFree(ps) && NonEmptySegments(ps) && 1 <= f <= |ps| && forall i :: 0 <= i < f ==> '*' !in ps[i]
    ensures var lead := Join(ps[..f]); lead != "" && '*' !in lead && lead[|lead| - 1] != '/'
  {
    JoinEnds(ps[..f]);
    InJoin(ps[..f], '*');
  }

  lemma RestFacts(ps: seq<string>, f: nat)
    requires SlashFree(ps) && NonEmptySegments(ps) && StarConfined(ps) && 1 <= f < |ps| && '*' in ps[f]
    ensures Join(ps) == Join(ps[..f]) + "/" + Join(ps[f..])
    ensures Join(ps[f..]) != "" && Join(ps[f..])[0] == '*'
  {
    assert ps == ps[..f] + ps[f..];
    JoinAppend(ps[..f], ps[f..]);
    JoinEnds(ps[f..]);
  }

  /** The literal prefix is the segments before the first star. */
  lemma LiteralLeadSegments(ps: seq<string>)
    requires |ps| >= 1 && SlashFree(ps) && NonEmptySegments(ps) && StarConfined(ps) && FirstStar(ps) >= 1
    ensures LiteralLead(Join(ps)) == Join(ps[..FirstStar(ps)])
  {
    var f := FirstStar(ps);
    LeadFacts(ps, f);
    if f == |ps| {
      assert ps[..f] == ps;
      LeadIsWhole(Join(ps[..f]));
    } else {
      RestFacts(ps, f);
      LeadThenStar(Join(ps), Join(ps[..f]), Join(ps[f..]));
    }
  }

  /** The prefix test on segments: the directory and the pattern's literal lead, one within the other. */
  predicate SegmentsCover(ps: seq<string>, ds: seq<string>) {
    || (|ds| < |ps| && ps[..|ds|] == ds)
    || (FirstStar(ps) <= |ds| && ds[..FirstStar(ps)] == ps[..FirstStar(ps)])
  }

  /** The prefix test, read off the segments of a pattern that does not start with a star. */
  lemma CoversSegments(pattern: string, dir: string)
    requires StarConfined(Split(pattern)) && NonEmptySegments(Split(pattern)) && FirstStar(Split(pattern)) >= 1
    ensures PatternCovers(pattern, dir) <==> SegmentsCover(Split(pattern), Split(dir))
  {
    var ps, ds := Split(pattern), Split(dir);
    SplitSlashFree(pattern);
    SplitSlashFree(dir);
    JoinSplit(pattern);
    JoinSplit(dir);
    JoinEnds(ps);
    var f := FirstStar(ps);
    LiteralLeadSegments(ps);
    SplitJoin(ps[..f]);
    PrefixSegments(dir, pattern);
    PrefixSegments(LiteralLead(pattern), dir);
    if dir + "/**" <= pattern { assert dir + "/" <= pattern; }
    assert pattern[0] == ps[0][0] && ps[0][0] in ps[0];
    assert dir == LiteralLead(pattern) <==> ds == ps[..f];
    assert f == |ds| ==> ds[..f] == ds;
  }

  // ---- a safe pattern is covered ------------------------------------------------

  lemma {:induction false} EmptySegmentNeverMatches(ps: seq<string>, ss: seq<string>)
    requires "" in ps && NonEmptySegments(ss)
    ensures !GlobMatch(ps, ss)
    decreases |ps|, |ss|
  {
    if ps[0] == "**" {
      EmptySegmentNeverMatches(ps[1..], ss);
      if ss != [] { EmptySegmentNeverMatches(ps, ss[1..]); }
    } else if ss != [] && ps[0] != "" {
      assert ps == [ps[0]] + ps[1..];
      EmptySegmentNeverMatches(ps[1..], ss[1..]);
    }
  }

  /** Before the first star, a match goes segment by segment; with no star it has the pattern's length. */
  lemma {:induction false} MatchPrefix(ps: seq<string>, ss: seq<string>)
    requires GlobMatch(ps, ss)
    ensures |ss| >= FirstStar(ps)
    ensures FirstStar(ps) == |ps| ==> |ss| == |ps|
    ensures forall i :: 0 <= i < FirstStar(ps) ==> LiteralMatch(ps[i], ss[i])
  {
    if ps != [] && '*' !in ps[0] {
      MatchPrefix(ps[1..], ss[1..]);
      forall i | 0 <= i < FirstStar(ps) ensures LiteralMatch(ps[i], ss[i]) {
        if i > 0 { assert ps[i] == ps[1..][i - 1] && ss[i] == ss[1..][i - 1]; }
      }
    }
  }

  lemma NoQuestionMarkEqual(p: string, s: string)
    requires LiteralMatch(p, s) && '?' !in p
    ensures p == s
  {
    forall i | 0 <= i < |p| ensures p[i] == s[i] {
      assert p[i] in p;
    }
  }

  lemma SafeIsComplete(pattern: string)
    requires StarConfined(Split(pattern)) && PrefixSafe(Split(pattern))
    ensures Complete(pattern)
  {
    forall dir, path | NormalPath(dir) && NormalPath(path) && Below(dir, path) && Matches(pattern, path)
      ensures PatternCovers(pattern, dir)
    {
      SafeCovers(pattern, dir, path);
    }
  }

  /** The segment-level reason: the directory agrees with the pattern as far as both go. */
  lemma SafeSegments(ps: seq<string>, ss: seq<string>, n: nat)
    requires GlobMatch(ps, ss) && n < |ss| && ps != [] && '*' !in ps[0]
    requires forall i :: 0 <= i < FirstStar(ps) && i < |ps| - 1 ==> '?' !in ps[i]
    ensures SegmentsCover(ps, ss[..n])
  {
    var f := FirstStar(ps);
    MatchPrefix(ps, ss);
    forall i | 0 <= i < f && i < |ps| - 1 ensures ps[i] == ss[i] {
      NoQuestionMarkEqual(ps[i], ss[i]);
    }
  }

  lemma SafeCovers(pattern: string, dir: string, path: string)
    requires StarConfined(Split(pattern)) && PrefixSafe(Split(pattern))
    requires CleanPath(path) && Below(dir, path) && Matches(pattern, path)
    ensures PatternCovers(pattern, dir)
  {
    MatchesMeansSegmentMatch(pattern, path);
    PrefixSegments(dir, path);
    SafeCoversBySegments(pattern, dir, Split(path));
  }

  lemma SafeCoversBySegments(pattern: string, dir: string, ss: seq<string>)
    requires StarConfined(Split(pattern)) && PrefixSafe(Split(pattern))
    requires GlobMatch(Split(pattern), ss) && NonEmptySegments(ss)
    requires |Split(dir)| < |ss| && ss[..|Split(dir)|] == Split(dir)
    ensures PatternCovers(pattern, dir)
  {
    var ps := Split(pattern);
    JoinSplit(pattern);
    if "" in ps {
      EmptySegmentNeverMatches(ps, ss);
    } else if ps[0] == "**" {
      if |ps| > 1 { assert pattern == "**" + "/" + Join(ps[1..]); }
    } else if ps == ["*"] {
      GlobMatchLast("*", ss);
    } else {
      assert NonEmptySegments(ps) by {
        forall i | 0 <= i < |ps| ensures ps[i] != "" { assert ps[i] in ps; }
      }
      SafeSegments(ps, ss, |Split(dir)|);
      CoversSegments(pattern, dir);
    }
  }

  // ---- the shortest path a pattern matches ----------------------------------------

  /** A segment a clean path may have. */
  predicate CleanSegment(s: string) {
    '\0' !in s && '\\' !in s && s !in ["", ".", ".."]
  }

  predicate CleanSegmentsOnly(ss: seq<string>) {
    forall i :: 0 <= i < |ss| ==> CleanSegment(ss[i])
  }

  lemma CleanBySegments(ss: seq<string>)
    requires |ss| >= 1 && SlashFree(ss)
    ensures CleanPath(Join(ss)) <==> 0 < |Join(ss)| <= MAX_PATH && CleanSegmentsOnly(ss)
  {
    SplitJoin(ss);
    InJoin(ss, '\0');
    InJoin(ss, '\\');
  }

  function Shortest(ps: seq<string>): seq<string> {
    Sample(ps, "a")
  }

  lemma FillIsLeast(p: string, s: string)
    requires p != "**" && ('*' in p ==> p == "*") && SegmentMatch(p, s) && CleanSegment(s)
    ensures CleanSegment(Fill(p)) && |Fill(p)| <= |s|
    ensures IsSpace(Fill(p)[0]) ==> IsSpace(s[0])
    ensures IsSpace(Fill(p)[|Fill(p)| - 1]) ==> IsSpace(s[|s| - 1])
  {
    if p != "*" {
      var q := Fill(p);
      assert forall i :: 0 <= i < |q| ==> q[i] == s[i] || q[i] == 'x';
      assert q == "." ==> s == ".";
      assert q == ".." ==> s == "..";
    }
  }

  /** Whatever clean path a pattern matches, the shortest one is no longer and as clean. */
  lemma {:induction false} ShortestIsLeast(ps: seq<string>, ss: seq<string>)
    requires ps != [] && StarConfined(ps) && GlobMatch(ps, ss) && CleanSegmentsOnly(ss)
    ensures var m := Shortest(ps);
            && m != [] && ss != [] && CleanSegmentsOnly(m) && 1 <= |Join(m)| <= |Join(ss)|
            && (IsSpace(EndOf(m)) ==> IsSpace(EndOf(ss)))
            && (ps[0] != "**" && IsSpace(m[0][0]) ==> IsSpace(ss[0][0]))
    decreases |ps|, |ss|
  {
    if ps == ["**"] {
      assert Shortest(ps) == ["a"];
      JoinNotEmpty(ss);
    } else if ps[0] == "**" {
      if GlobMatch(ps[1..], ss) {
        ShortestIsLeast(ps[1..], ss);
      } else {
        ShortestIsLeast(ps, ss[1..]);
        EndOfRest(ss);
      }
    } else {
      FillIsLeast(ps[0], ss[0]);
      if |ps| == 1 {
        assert Shortest(ps) == [Fill(ps[0])] && ss == [ss[0]];
      } else {
        ShortestIsLeast(ps[1..], ss[1..]);
        var m := Shortest(ps);
        assert m[0] == Fill(ps[0]) && m[1..] == Shortest(ps[1..]);
        EndOfRest(ss);
        EndOfRest(m);
      }
    }
  }

  /** The last character of the joined path. */
  function EndOf(ss: seq<string>): char
    requires ss != [] && CleanSegmentsOnly(ss)
  {
    ss[|ss| - 1][|ss[|ss| - 1]| - 1]
  }

  lemma EndOfRest(ss: seq<string>)
    requires |ss| >= 2 && CleanSegmentsOnly(ss)
    ensures EndOf(ss[1..]) == EndOf(ss) && |Join(ss)| == |ss[0]| + 1 + |Join(ss[1..])|
  {
    var rest := ss[1..];
    assert rest[|rest| - 1] == ss[|ss| - 1];
    assert Join(ss) == ss[0] + "/" + Join(rest);
  }

  lemma JoinNotEmpty(ss: seq<string>)
    requires ss != [] && CleanSegmentsOnly(ss)
    ensures |Join(ss)| >= 1
  {}

  lemma {:induction false} EndsOfJoin(ss: seq<string>)
    requires ss != [] && CleanSegmentsOnly(ss)
    ensures Join(ss) != "" && Join(ss)[0] == ss[0][0] && Join(ss)[|Join(ss)| - 1] == EndOf(ss)
  {
    if |ss| > 1 {
      EndsOfJoin(ss[1..]);
      EndOfRest(ss);
      LongerEnds(ss[0], Join(ss[1..]));
    }
  }

  lemma LongerEnds(head: string, rest: string)
    requires head != "" && rest != ""
    ensures var s := head + "/" + rest; s[0] == head[0] && s[|s| - 1] == rest[|rest| - 1]
  {}

  lemma NormalBySegments(ss: seq<string>)
    requires ss != [] && SlashFree(ss) && CleanSegmentsOnly(ss)
    ensures NormalPath(Join(ss)) <==>
            |Join(ss)| <= MAX_PATH && !IsSpace(ss[0][0]) && (IsSpace(EndOf(ss)) ==> |Join(ss)| < MAX_PATH)
  {
    CleanBySegments(ss);
    EndsOfJoin(ss);
  }

  /**
   The pattern filled in as a path: `x` for every `?`, `a` for `*` and for a
   closing `**`, nothing for any other `**`.
   */
  function FilledIn(pattern: string): string {
    Join(Shortest(Split(pattern)))
  }

  /** If the filled-in pattern is no path of the vault, the pattern matches none. */
  lemma MatchedMeansFillable(pattern: string, path: string)
    requires StarConfined(Split(pattern)) && Split(pattern)[0] != "**" && NormalPath(path) && Matches(pattern, path)
    ensures NormalPath(FilledIn(pattern))
  {
    var ps, ss := Split(pattern), Split(path);
    SplitSlashFree(pattern);
    SplitSlashFree(path);
    JoinSplit(path);
    MatchesMeansSegmentMatch(pattern, path);
    SampleMatches(ps, "a");
    CleanBySegments(ss);
    ShortestIsLeast(ps, ss);
    NormalBySegments(ss);
    NormalBySegments(Shortest(ps));
  }

  // ---- an unsafe pattern is not covered ---------------------------------------------

  lemma LoneStarNotCovered(tail: string)
    ensures !PatternCovers("*/" + tail, "a")
  {
    var pattern := "*/" + tail;
    assert pattern[0] == '*' && pattern[1] == '/';
    assert ("a" + "/")[0] == 'a' && ("a" + "/**")[0] == 'a';
    assert LiteralLead(pattern) == "";
    assert ("" + "/")[0] == '/';
  }

  lemma DifferNotCovered(ps: seq<string>, ds: seq<string>)
    requires 1 <= |ds| < |ps| && |ds| <= FirstStar(ps) && ps[|ds| - 1] != ds[|ds| - 1]
    ensures !SegmentsCover(ps, ds)
  {
    assert ps[..|ds|][|ds| - 1] != ds[|ds| - 1];
    assert ds[..|ds|] == ds;
  }

  /** The shortest path goes on below the segments before the first star, which it fills in. */
  lemma {:induction false} ShortestLead(ps: seq<string>, n: nat)
    requires n < |ps| && n <= FirstStar(ps)
    ensures |Shortest(ps)| > n && forall i :: 0 <= i < n ==> Shortest(ps)[i] == Fill(ps[i])
    decreases |ps|
  {
    if n > 0 {
      ShortestLead(ps[1..], n - 1);
      var m := Shortest(ps);
      assert m[1..] == Shortest(ps[1..]) && m[0] == Fill(ps[0]);
      forall i | 0 <= i < n ensures m[i] == Fill(ps[i]) {
        if i > 0 { assert m[i] == m[1..][i - 1] && ps[i] == ps[1..][i - 1]; }
      }
    } else if |ps| > 1 {
      ShortestLead(ps[1..], 0);
    }
  }

  lemma QuestionMarkNotCovered(pattern: string, n: nat)
    requires StarConfined(Split(pattern)) && NonEmptySegments(Split(pattern))
    requires 1 <= n < |Split(pattern)| && n <= FirstStar(Split(pattern)) && '?' in Split(pattern)[n - 1]
    ensures n < |Shortest(Split(pattern))| && !PatternCovers(pattern, Join(Shortest(Split(pattern))[..n]))
  {
    var ps := Split(pattern);
    var ds := Shortest(ps)[..n] by { ShortestLead(ps, n); }
    SplitSlashFree(pattern);
    ShortestLead(ps, n);
    SampleMatches(ps, "a");
    FillMatches(ps[n - 1]);
    DifferNotCovered(ps, ds);
    SplitJoin(ds);
    CoversSegments(pattern, Join(ds));
  }

  /** How deep to look for a directory an unsafe pattern reaches into unseen. */
  lemma UnsafeDepth(ps: seq<string>) returns (n: nat)
    requires ps != [] && !PrefixSafe(ps)
    ensures NonEmptySegments(ps) && 1 <= n < |ps| && ps[0] != "**"
    ensures if ps[0] == "*" then n == 1 else n <= FirstStar(ps) && '?' in ps[n - 1]
  {
    forall i | 0 <= i < |ps| ensures ps[i] != "" { assert ps[i] in ps; }
    if ps[0] == "*" {
      n := 1;
      assert ps == [ps[0]] + ps[1..];
    } else {
      var i :| 0 <= i < FirstStar(ps) && i < |ps| - 1 && '?' in ps[i];
      n := i + 1;
    }
  }

  /** A path's leading segments are a directory above it, and as normal as it is. */
  lemma LeadIsNormal(ss: seq<string>, n: nat)
    requires SlashFree(ss) && 1 <= n < |ss| && NormalPath(Join(ss))
    ensures NormalPath(Join(ss[..n])) && Below(Join(ss[..n]), Join(ss))
  {
    CleanBySegments(ss);
    SplitJoin(ss);
    SplitJoin(ss[..n]);
    PrefixSegments(Join(ss[..n]), Join(ss));
    EndsOfJoin(ss);
    EndsOfJoin(ss[..n]);
    CleanBySegments(ss[..n]);
  }

  /**
   An unsafe pattern that can be filled in matches a path of the vault below a
   directory of the vault that is refused.
   */
  lemma UnsafeIsIncomplete(pattern: string) returns (dir: string, path: string)
    requires StarConfined(Split(pattern)) && !PrefixSafe(Split(pattern)) && NormalPath(FilledIn(pattern))
    ensures NormalPath(dir) && NormalPath(path) && Below(dir, path)
    ensures Matches(pattern, path) && !PatternCovers(pattern, dir)
  {
    var ps := Split(pattern);
    var m := Shortest(ps);
    var n := UnsafeDepth(ps);
    SplitSlashFree(pattern);
    SampleMatches(ps, "a");
    if ps[0] == "*" {
      ShortestLead(ps[1..], 0);
      assert m[0] == "a";
      JoinSplit(pattern);
      LoneStarNotCovered(Join(ps[1..]));
      assert m[..1] == ["a"];
    } else {
      QuestionMarkNotCovered(pattern, n);
    }
    dir, path := Join(m[..n]), FilledIn(pattern);
    LeadIsNormal(m, n);
    SplitJoin(m);
    MatchesMeansSegmentMatch(pattern, path);
  }

  /**
   The prefix test is complete for a pattern exactly when the pattern is
   prefix-safe, or filled in is no path of the vault.
   */
  lemma CompleteIffPrefixSafe(pattern: string)
    requires StarConfined(Split(pattern))
    ensures Complete(pattern) <==> PrefixSafe(Split(pattern)) || !NormalPath(FilledIn(pattern))
  {
    if PrefixSafe(Split(pattern)) {
      SafeIsComplete(pattern);
    } else if NormalPath(FilledIn(pattern)) {
      var dir, path := UnsafeIsIncomplete(pattern);
    } else {
      forall path | NormalPath(path) ensures !Matches(pattern, path) {
        if Matches(pattern, path) { MatchedMeansFillable(pattern, path); }
      }
    }
  }

  /** So a scope of prefix-safe read patterns never hides a directory it reaches into. */
  lemma SafeScopeLists(scope: Scope, dir: string, path: string)
    requires forall p :: p in PatternsFor(scope, "read") ==> StarConfined(Split(p)) && PrefixSafe(Split(p))
    requires CleanPath(path) && Below(dir, path) && Permits(Some(scope), "read", path) == Ok(true)
    ensures CoversDir(Some(scope), dir)
  {
    var patterns := PatternsFor(scope, "read");
    var i :| 0 <= i < |patterns| && Matches(patterns[i], path);
    SafeCovers(patterns[i], dir, path);
  }

  // ---- which directories are listed ---------------------------------------------------

  /** The pattern starts anywhere, goes on below the directory, or has its literal start at or above it. */
  predicate Leads(ps: seq<string>, ds: seq<string>)
    requires ps != []
  {
    || ps[0] == "**"
    || (|ds| < |ps| && ps[..|ds|] == ds)
    || (ps[0] != "*" && FirstStar(ps) <= |ds| && ds[..FirstStar(ps)] == ps[..FirstStar(ps)])
  }

  lemma StarLeadCovers(pattern: string, dir: string)
    requires Split(pattern)[0] == "*" && NormalPath(dir)
    ensures PatternCovers(pattern, dir) <==> dir + "/" <= pattern
  {
    JoinSplit(pattern);
    SplitWhole("**");
    assert pattern != "" && pattern[0] == '*';
    if "**/" <= pattern { PrefixSegments("**", pattern); }
    assert LiteralLead(pattern) == "";
    assert dir[0] != '/' by { LastSegmentEnds(dir); }
    if dir + "/**" <= pattern { assert dir + "/" <= pattern; }
  }

  lemma CoversMeans(pattern: string, dir: string)
    requires StarConfined(Split(pattern)) && NonEmptySegments(Split(pattern)) && NormalPath(dir)
    ensures PatternCovers(pattern, dir) <==> Leads(Split(pattern), Split(dir))
  {
    var ps := Split(pattern);
    JoinSplit(pattern);
    if ps[0] == "**" {
      if |ps| > 1 { assert pattern == "**" + "/" + Join(ps[1..]); }
    } else if ps[0] == "*" {
      StarLeadCovers(pattern, dir);
      PrefixSegments(dir, pattern);
    } else {
      CoversSegments(pattern, dir);
    }
  }

  /** A directory is listed exactly when there is a scope and one of its read patterns leads into it. */
  lemma DirListedIff(scope: Option<Scope>, dir: string)
    requires NormalPath(dir)
    requires scope.Some? && "read" in scope.value ==>
               forall p :: p in scope.value["read"] ==> StarConfined(Split(p)) && NonEmptySegments(Split(p))
    ensures CoversDir(scope, dir) <==>
            && scope.Some? && "read" in scope.value
            && exists p :: p in scope.value["read"] && Leads(Split(p), Split(dir))
  {
    if scope.Some? && "read" in scope.value {
      var patterns := scope.value["read"];
      forall p | p in patterns ensures PatternCovers(p, dir) <==> Leads(Split(p), Split(dir)) { CoversMeans(p, dir); }
      if exists p :: p in patterns && Leads(Split(p), Split(dir)) {
        var p :| p in patterns && Leads(Split(p), Split(dir));
        var i :| 0 <= i < |patterns| && patterns[i] == p;
      }
    }
  }

  /** The smallest patterns that go wrong: a star and a file name read `a/<file>`, yet `a` is refused. */
  lemma LoneStarIsHidden(file: string)
    requires NormalPath(file) && |file| + 2 < MAX_PATH && '/' !in file && '*' !in file && '?' !in file
    ensures NormalPath("a") && NormalPath("a/" + file) && Below("a", "a/" + file)
    ensures Matches("*/" + file, "a/" + file) && !PatternCovers("*/" + file, "a")
  {
    LoneStarNotCovered(file);
    SplitWhole("a");
    SplitWhole(file);
    SplitCons("a", file);
    assert "a" + "/" + file == "a/" + file;
    StarThenSeparator(file, "a/" + file);
    LastLiteral(file, file);
    assert CutAt("a/" + file, 1) && ("a/" + file)[2..] == file;
    forall i | 0 <= i < |file| ensures file[i] != '?' { assert file[i] in file; }
    ChildIsNormal(file);
  }

  lemma ChildIsNormal(file: string)
    requires NormalPath(file) && |file| + 2 < MAX_PATH && '/' !in file
    ensures NormalPath("a") && NormalPath("a/" + file)
  {
    var ss := ["a", file];
    assert Join([file]) == file && Join(["a"]) == "a";
    SplitWhole(file);
    CleanBySegments([file]);
    NormalBySegments(["a"]);
    assert ss[1..] == [file] && Join(ss) == "a/" + file;
    assert CleanSegment([file][0]);
    NormalBySegments(ss);
  }
}
