/**
 The glob compiler of `vault.py`: a character loop that turns a pattern into a
 regular expression, and the segment-wise meaning an operator reads into the
 pattern. `MatchesMeansSegmentMatch` proves the two agree on every path.
 */
module Glob {
  import opened Paths

  // ---- regular expressions ------------------------------------------------

  /** The fragment of Python's `re` syntax the compiler emits. */
  datatype Regex =
    | Empty
    | Char(c: char)
    | NotSeparator            // [^/]
    | Dot                     // .   (never a newline)
    | Cat(first: Regex, second: Regex)
    | Star(body: Regex)

  function Plus(body: Regex): Regex {
    Cat(body, Star(body))
  }

  /** Whole-string acceptance, which is what `match` with a closing `\Z` decides. */
  predicate Accepts(r: Regex, s: string)
    decreases r, |s|
  {
    match r
    case Empty => s == ""
    case Char(c) => s == [c]
    case NotSeparator => |s| == 1 && s[0] != '/'
    case Dot => |s| == 1 && s[0] != '\n'
    case Cat(a, b) => exists k :: 0 <= k <= |s| && Accepts(a, s[..k]) && Accepts(b, s[k..])
    case Star(a) => s == "" || exists k :: 0 < k <= |s| && Accepts(a, s[..k]) && Accepts(r, s[k..])
  }

  // ---- the compiler ---------------------------------------------------------

  /** What one step of the loop appends to `out`. */
  datatype Piece = Directories | Anything | Within | One | Literal(c: char)

  /** The regular expression a piece is written as. */
  function Source(piece: Piece): Regex {
    match piece
    case Directories => Star(Cat(Plus(NotSeparator), Char('/')))   // (?:[^/]+/)*
    case Anything => Star(Dot)                                       // .*
    case Within => Star(NotSeparator)                                // [^/]*
    case One => NotSeparator                                         // [^/]
    case Literal(c) => Char(c)                                       // re.escape
  }

  /** The piece emitted at the front of a non-empty pattern, and how many characters it covers. */
  function FirstPiece(pattern: string): (r: (Piece, nat))
    requires pattern != ""
    ensures 1 <= r.1 <= |pattern|
  {
    if |pattern| >= 2 && pattern[0] == '*' && pattern[1] == '*' then
      if |pattern| >= 3 && pattern[2] == '/' then (Directories, 3) else (Anything, 2)
    else if pattern[0] == '*' then (Within, 1)
    else if pattern[0] == '?' then (One, 1)
    else (Literal(pattern[0]), 1)
  }

  /** The pieces the compiler appends for `pattern`, in order. */
  function Pieces(pattern: string): seq<Piece>
    decreases |pattern|
  {
    if pattern == "" then []
    else var (piece, width) := FirstPiece(pattern); [piece] + Pieces(pattern[width..])
  }

  /** `"".join(out)`, read as a regular expression. */
  function Concat(pieces: seq<Piece>): Regex {
    if pieces == [] then Empty else Cat(Source(pieces[0]), Concat(pieces[1..]))
  }

  /** `_compiled`: the source's index loop over the pattern. */
  method Compile(pattern: string) returns (r: Regex)
    ensures r == Concat(Pieces(pattern))
  {
    var out: seq<Piece> := [];
    var i, n := 0, |pattern|;
    while i < n
      invariant 0 <= i <= n
      invariant Pieces(pattern) == out + Pieces(pattern[i..])
    {
      var piece, width := Literal(pattern[i]), 1;
      if i + 3 <= n && pattern[i] == '*' && pattern[i + 1] == '*' && pattern[i + 2] == '/' {
        piece, width := Directories, 3;
      } else if i + 2 <= n && pattern[i] == '*' && pattern[i + 1] == '*' {
        piece, width := Anything, 2;
      } else if pattern[i] == '*' {
        piece := Within;
      } else if pattern[i] == '?' {
        piece := One;
      }
      PiecesAt(pattern, i, piece, width);
      out, i := out + [piece], i + width;
    }
    assert pattern[i..] == "" && out + [] == out;
    r := Concat(out);
  }

  lemma PiecesAt(pattern: string, i: nat, piece: Piece, width: nat)
    requires i < |pattern| && FirstPiece(pattern[i..]) == (piece, width)
    ensures i + width <= |pattern|
    ensures forall out: seq<Piece> :: out + Pieces(pattern[i..]) == (out + [piece]) + Pieces(pattern[i + width..])
  {
    assert pattern[i..][width..] == pattern[i + width..];
  }

  predicate Matches(pattern: string, path: string) {
    Accepts(Concat(Pieces(pattern)), path)
  }

  // ---- the segment-wise reference -----------------------------------------

  /** Rule 4 of `validate_scope`: a star is a whole segment, alone or doubled. */
  predicate StarConfined(segments: seq<string>) {
    forall i :: 0 <= i < |segments| && '*' in segments[i] ==> segments[i] == "*" || segments[i] == "**"
  }

  /** A segment without stars matches character by character; `?` stands for any one character. */
  predicate LiteralMatch(p: string, s: string) {
    && |p| == |s|
    && forall i :: 0 <= i < |p| ==> if p[i] == '?' then s[i] != '/' else s[i] == p[i]
  }

  predicate SegmentMatch(p: string, s: string) {
    if p == "*" then true else LiteralMatch(p, s)
  }

  /**
   What a pattern means, segment by segment: `*` is one segment, a `**` with
   more pattern after it is any number of non-empty segments, and a closing
   `**` is one or more segments holding no newline.
   */
  predicate GlobMatch(ps: seq<string>, ss: seq<string>)
    decreases |ps|, |ss|
  {
    if ps == [] then ss == []
    else if ps == ["**"] then |ss| >= 1 && forall i :: 0 <= i < |ss| ==> '\n' !in ss[i]
    else if ps[0] == "**" then
      || GlobMatch(ps[1..], ss)
      || (|ss| >= 1 && ss[0] != "" && GlobMatch(ps, ss[1..]))
    else |ss| >= 1 && SegmentMatch(ps[0], ss[0]) && GlobMatch(ps[1..], ss[1..])
  }

  lemma {:induction false} NoSegmentsNoMatch(ps: seq<string>)
    requires ps != []
    ensures !GlobMatch(ps, [])
  {
    if |ps| > 1 { NoSegmentsNoMatch(ps[1..]); }
  }

  // ---- what each piece accepts ----------------------------------------------

  /** A cut of `s` at its first separator. */
  predicate CutAt(s: string, k: int) {
    0 <= k < |s| && s[k] == '/' && '/' !in s[..k]
  }

  /** Zero or more non-empty names, each followed by a separator. */
  ghost predicate DirectoryRun(s: string)
    decreases |s|
  {
    s == "" || exists k :: CutAt(s, k) && k > 0 && DirectoryRun(s[k + 1..])
  }

  ghost predicate Denotes(piece: Piece, s: string) {
    match piece
    case Directories => DirectoryRun(s)
    case Anything => '\n' !in s
    case Within => '/' !in s
    case One => |s| == 1 && s[0] != '/'
    case Literal(c) => s == [c]
  }

  lemma {:induction false} StarOfOne(letter: Regex, bad: char, s: string)
    requires (letter == NotSeparator && bad == '/') || (letter == Dot && bad == '\n')
    ensures Accepts(Star(letter), s) <==> bad !in s
    decreases |s|
  {
    if s != "" {
      StarOfOne(letter, bad, s[1..]);
      if Accepts(Star(letter), s) {
        var k :| 0 < k <= |s| && Accepts(letter, s[..k]) && Accepts(Star(letter), s[k..]);
        assert s == [s[0]] + s[1..];
      }
      if bad !in s {
        assert Accepts(letter, s[..1]);
      }
    }
  }

  lemma PlusAccepts(s: string)
    ensures Accepts(Plus(NotSeparator), s) <==> s != "" && '/' !in s
  {
    if s != "" {
      StarOfOne(NotSeparator, '/', s[1..]);
      if Accepts(Plus(NotSeparator), s) {
        var k :| 0 <= k <= |s| && Accepts(NotSeparator, s[..k]) && Accepts(Star(NotSeparator), s[k..]);
        assert s == [s[0]] + s[1..];
      }
      if '/' !in s {
        assert Accepts(NotSeparator, s[..1]);
      }
    }
  }

  lemma SeparatorLast(r: Regex, s: string)
    requires |s| >= 1
    ensures Accepts(Cat(r, Char('/')), s) <==> s[|s| - 1] == '/' && Accepts(r, s[..|s| - 1])
  {
    var n := |s| - 1;
    if Accepts(Cat(r, Char('/')), s) {
      var k :| 0 <= k <= |s| && Accepts(r, s[..k]) && Accepts(Char('/'), s[k..]);
      assert |s[k..]| == 1 && s[k..][0] == s[k];
    }
    if s[n] == '/' {
      assert s[n..] == ['/'];
    }
  }

  /** One directory: a non-empty name and its separator. */
  lemma DirectoryAccepts(name: string, s: string)
    requires |s| >= 1 && name == s[..|s| - 1]
    ensures Accepts(Source(Directories).body, s) <==> name != "" && s[|s| - 1] == '/' && '/' !in name
  {
    SeparatorLast(Plus(NotSeparator), s);
    PlusAccepts(name);
  }

  lemma {:induction false} DirectoriesAccept(s: string)
    ensures Accepts(Source(Directories), s) <==> DirectoryRun(s)
    decreases |s|
  {
    var dir := Source(Directories).body;
    if s != "" && Accepts(Source(Directories), s) {
      var j :| 0 < j <= |s| && Accepts(dir, s[..j]) && Accepts(Star(dir), s[j..]);
      FirstDirectory(s, j);
    }
    if s != "" && DirectoryRun(s) {
      var k :| CutAt(s, k) && k > 0 && DirectoryRun(s[k + 1..]);
      assert s[..k + 1][..k] == s[..k];
      DirectoryAccepts(s[..k], s[..k + 1]);
      DirectoriesAccept(s[k + 1..]);
    }
  }

  lemma {:induction false} FirstDirectory(s: string, j: int)
    requires 0 < j <= |s| && Accepts(Source(Directories).body, s[..j]) && Accepts(Source(Directories), s[j..])
    ensures DirectoryRun(s)
    decreases |s|, 0
  {
    assert s[..j][..j - 1] == s[..j - 1];
    DirectoryAccepts(s[..j - 1], s[..j]);
    DirectoriesAccept(s[j..]);
    assert CutAt(s, j - 1) && DirectoryRun(s[j - 1 + 1..]);
  }

  lemma PieceAccepts(piece: Piece, s: string)
    ensures Accepts(Source(piece), s) <==> Denotes(piece, s)
  {
    match piece
    case Directories => DirectoriesAccept(s);
    case Anything => StarOfOne(Dot, '\n', s);
    case Within => StarOfOne(NotSeparator, '/', s);
    case One =>
    case Literal(c) =>
  }

  // ---- a pattern, piece by piece ------------------------------------------------

  /** The front of `s` is what `piece` denotes, the rest is in `rest`. */
  ghost predicate Then(piece: Piece, rest: string -> bool, s: string) {
    exists k :: 0 <= k <= |s| && Denotes(piece, s[..k]) && rest(s[k..])
  }

  function Language(pattern: string): string -> bool {
    (s: string) => Matches(pattern, s)
  }

  lemma MatchesUnfolds(piece: Piece, tail: string, pattern: string, s: string)
    requires pattern != "" && FirstPiece(pattern).0 == piece && pattern[FirstPiece(pattern).1..] == tail
    ensures Matches(pattern, s) <==> Then(piece, Language(tail), s)
  {
    var pieces := Pieces(pattern);
    assert pieces == [piece] + Pieces(tail);
    assert pieces[1..] == Pieces(tail);
    CatAccepts(piece, Concat(Pieces(tail)), Language(tail), s);
  }

  lemma CatAccepts(piece: Piece, r: Regex, rest: string -> bool, s: string)
    requires forall t :: rest(t) <==> Accepts(r, t)
    ensures Accepts(Cat(Source(piece), r), s) <==> Then(piece, rest, s)
  {
    forall k | 0 <= k <= |s| ensures Accepts(Source(piece), s[..k]) <==> Denotes(piece, s[..k]) {
      PieceAccepts(piece, s[..k]);
    }
  }

  // Each kind of piece, read off the string.

  lemma ThenLetter(piece: Piece, rest: string -> bool, s: string)
    requires piece.One? || piece.Literal?
    ensures Then(piece, rest, s) <==> |s| >= 1 && Denotes(piece, s[..1]) && rest(s[1..])
  {}

  lemma ThenWithin(rest: string -> bool, after: string -> bool, s: string)
    requires forall t :: rest(t) <==> |t| >= 1 && t[0] == '/' && after(t[1..])
    ensures Then(Within, rest, s) <==> exists k :: CutAt(s, k) && after(s[k + 1..])
  {
    if k :| 0 <= k <= |s| && Denotes(Within, s[..k]) && rest(s[k..]) {
      assert s[k..][1..] == s[k + 1..];
      assert CutAt(s, k);
    }
    if k :| CutAt(s, k) && after(s[k + 1..]) {
      assert s[k..][1..] == s[k + 1..];
      assert Denotes(Within, s[..k]) && rest(s[k..]);
    }
  }

  /** Slicing around a cut commutes with slicing at a later point. */
  lemma SliceFacts(s: string, k: nat, n: nat)
    requires k < n <= |s|
    ensures s[..n][..k] == s[..k]
    ensures s[..n][k + 1..] == s[k + 1..][..n - k - 1]
    ensures s[n..] == s[k + 1..][n - k - 1..]
  {}

  lemma ThenDirectoriesAdvance(rest: string -> bool, s: string, k: int)
    requires CutAt(s, k) && k > 0 && Then(Directories, rest, s[k + 1..])
    ensures Then(Directories, rest, s)
  {
    var u := s[k + 1..];
    var m :| 0 <= m <= |u| && DirectoryRun(u[..m]) && rest(u[m..]);
    SliceFacts(s, k, k + 1 + m);
    assert CutAt(s[..k + 1 + m], k);
    assert DirectoryRun(s[..k + 1 + m]);
  }

  lemma RetreatPast(rest: string -> bool, s: string, n: nat, k: nat)
    requires k < n <= |s| && CutAt(s[..n], k) && DirectoryRun(s[..n][k + 1..]) && rest(s[n..])
    ensures CutAt(s, k) && Then(Directories, rest, s[k + 1..])
  {
    SliceFacts(s, k, n);
    var u, m := s[k + 1..], n - k - 1;
    assert Denotes(Directories, u[..m]) && rest(u[m..]);
  }

  lemma ThenDirectoriesRetreat(rest: string -> bool, s: string) returns (k: int)
    requires Then(Directories, rest, s) && !rest(s)
    ensures CutAt(s, k) && k > 0 && Then(Directories, rest, s[k + 1..])
  {
    var n :| 0 <= n <= |s| && Denotes(Directories, s[..n]) && rest(s[n..]);
    assert s[0..] == s;
    k := FirstCutOfRun(s[..n]);
    RetreatPast(rest, s, n, k);
  }

  lemma FirstCutOfRun(t: string) returns (k: int)
    requires t != "" && DirectoryRun(t)
    ensures CutAt(t, k) && k > 0 && DirectoryRun(t[k + 1..])
  {
    k :| CutAt(t, k) && k > 0 && DirectoryRun(t[k + 1..]);
  }

  /** Skip no directory, or one and try again. */
  lemma ThenDirectories(rest: string -> bool, s: string)
    ensures Then(Directories, rest, s) <==>
            rest(s) || exists k :: CutAt(s, k) && k > 0 && Then(Directories, rest, s[k + 1..])
  {
    if Then(Directories, rest, s) && !rest(s) {
      var k := ThenDirectoriesRetreat(rest, s);
    }
    if rest(s) {
      assert s[..0] == "" && s[0..] == s;
    }
    if k :| CutAt(s, k) && k > 0 && Then(Directories, rest, s[k + 1..]) {
      ThenDirectoriesAdvance(rest, s, k);
    }
  }

  /** Nothing after the piece: it has to take the whole string. */
  lemma ThenNothing(piece: Piece, s: string)
    ensures Then(piece, Language(""), s) <==> Denotes(piece, s)
  {
    assert s[..|s|] == s && s[|s|..] == "";
    if k :| 0 <= k <= |s| && Denotes(piece, s[..k]) && Language("")(s[k..]) {
      assert s[..k] == s;
    }
  }

  // ---- one pattern segment at a time -------------------------------------------------

  /** A star-free stretch of pattern takes exactly as many characters as it has. */
  lemma {:induction false} LiteralPrefix(p: string, tail: string, s: string)
    requires '*' !in p
    ensures Matches(p + tail, s) <==> |s| >= |p| && LiteralMatch(p, s[..|p|]) && Matches(tail, s[|p|..])
  {
    if p == "" {
      assert p + tail == tail && s[0..] == s;
    } else {
      var whole, piece := p + tail, FirstPiece(p + tail).0;
      assert whole[1..] == p[1..] + tail;
      MatchesUnfolds(piece, p[1..] + tail, whole, s);
      ThenLetter(piece, Language(p[1..] + tail), s);
      if |s| >= 1 {
        LiteralPrefix(p[1..], tail, s[1..]);
        if |s| >= |p| {
          assert s[1..][..|p[1..]|] == s[..|p|][1..] && s[1..][|p[1..]|..] == s[|p|..];
          LiteralHead(p, s[..|p|]);
        }
      }
    }
  }

  lemma LiteralHead(p: string, t: string)
    requires |p| >= 1 && |t| == |p|
    ensures LiteralMatch(p, t) <==>
            (if p[0] == '?' then t[0] != '/' else t[0] == p[0]) && LiteralMatch(p[1..], t[1..])
  {
    if (if p[0] == '?' then t[0] != '/' else t[0] == p[0]) && LiteralMatch(p[1..], t[1..]) {
      forall i | 0 <= i < |p|
        ensures if p[i] == '?' then t[i] != '/' else t[i] == p[i]
      {
        if i > 0 { assert p[1..][i - 1] == p[i] && t[1..][i - 1] == t[i]; }
      }
    }
  }

  lemma SeparatorThen(tail: string, s: string)
    ensures Matches("/" + tail, s) <==> |s| >= 1 && s[0] == '/' && Matches(tail, s[1..])
  {
    var whole := "/" + tail;
    assert whole[1..] == tail;
    MatchesUnfolds(Literal('/'), tail, whole, s);
    ThenLetter(Literal('/'), Language(tail), s);
  }

  lemma StarThenSeparator(tail: string, s: string)
    ensures Matches("*/" + tail, s) <==> exists k :: CutAt(s, k) && Matches(tail, s[k + 1..])
  {
    var whole := "*/" + tail;
    assert whole[1..] == "/" + tail;
    MatchesUnfolds(Within, "/" + tail, whole, s);
    forall t ensures Language("/" + tail)(t) <==> |t| >= 1 && t[0] == '/' && Language(tail)(t[1..]) {
      SeparatorThen(tail, t);
    }
    ThenWithin(Language("/" + tail), Language(tail), s);
  }

  lemma LiteralThenSeparator(p: string, tail: string, s: string)
    requires '*' !in p && '/' !in p
    ensures Matches(p + "/" + tail, s) <==>
            exists k :: CutAt(s, k) && LiteralMatch(p, s[..k]) && Matches(tail, s[k + 1..])
  {
    assert p + "/" + tail == p + ("/" + tail);
    LiteralPrefix(p, "/" + tail, s);
    if |s| >= |p| {
      SeparatorThen(tail, s[|p|..]);
      if LiteralMatch(p, s[..|p|]) { LiteralSlashFree(p, s[..|p|]); }
      if |s| > |p| { assert s[|p|..][1..] == s[|p| + 1..]; }
    }
  }

  lemma DoubleStarThenSeparator(tail: string, s: string)
    ensures Matches("**/" + tail, s) <==>
            || Matches(tail, s)
            || exists k :: CutAt(s, k) && k > 0 && Matches("**/" + tail, s[k + 1..])
  {
    var whole := "**/" + tail;
    assert whole[3..] == tail;
    forall t ensures Matches(whole, t) <==> Then(Directories, Language(tail), t) {
      MatchesUnfolds(Directories, tail, whole, t);
    }
    ThenDirectories(Language(tail), s);
  }

  // ---- path strings against path segments --------------------------------------

  lemma ConcatCut(a: string, b: string, k: int)
    requires '/' !in a
    ensures CutAt(a + "/" + b, k) <==> k == |a|
    ensures (a + "/" + b)[..|a|] == a && (a + "/" + b)[|a| + 1..] == b
  {
    var s := a + "/" + b;
    assert s[|a|] == '/' && s[..|a|] == a;
    if |a| < k < |s| { assert s[..k][|a|] == '/'; }
    if 0 <= k < |a| { assert s[k] == a[k]; }
  }

  /** The only cut of a joined path at its first separator is after the first segment. */
  lemma JoinCut(ss: seq<string>, k: int)
    requires |ss| >= 1 && SlashFree(ss)
    ensures CutAt(Join(ss), k) <==> |ss| >= 2 && k == |ss[0]|
    ensures |ss| >= 2 ==> Join(ss)[..|ss[0]|] == ss[0] && Join(ss)[|ss[0]| + 1..] == Join(ss[1..])
  {
    if |ss| >= 2 {
      ConcatCut(ss[0], Join(ss[1..]), k);
    }
  }

  lemma OneSegmentOrMore(ss: seq<string>)
    requires |ss| >= 1 && SlashFree(ss)
    ensures '/' in Join(ss) <==> |ss| >= 2
  {
    if |ss| >= 2 {
      var s := Join(ss);
      assert s == ss[0] + "/" + Join(ss[1..]);
      assert s[|ss[0]|] == '/';
    }
  }

  lemma LiteralSlashFree(p: string, s: string)
    requires '/' !in p && LiteralMatch(p, s)
    ensures '/' !in s
  {
    forall i | 0 <= i < |s| ensures s[i] != '/' {
      assert p[i] in p;
    }
  }

  lemma LastLiteral(p: string, s: string)
    requires '*' !in p
    ensures Matches(p, s) <==> LiteralMatch(p, s)
  {
    LiteralPrefix(p, "", s);
    assert p + "" == p;
    assert |s| == |p| ==> s[..|p|] == s;
  }

  lemma LastStars(s: string)
    ensures Matches("*", s) <==> '/' !in s
    ensures Matches("**", s) <==> '\n' !in s
  {
    assert "*"[1..] == "" && "**"[2..] == "";
    MatchesUnfolds(Within, "", "*", s);
    MatchesUnfolds(Anything, "", "**", s);
    ThenNothing(Within, s);
    ThenNothing(Anything, s);
  }

  lemma GlobMatchLast(p: string, ss: seq<string>)
    requires p != "**"
    ensures GlobMatch([p], ss) <==> |ss| == 1 && SegmentMatch(p, ss[0])
  {
    assert [p][0] == p && [p][1..] == [];
    assert |ss| >= 1 ==> (ss[1..] == [] <==> |ss| == 1);
  }

  /** The last pattern segment. */
  lemma LastSegment(p: string, ss: seq<string>)
    requires |ss| >= 1 && SlashFree(ss) && '/' !in p && StarConfined([p])
    ensures Matches(p, Join(ss)) <==> GlobMatch([p], ss)
  {
    var s := Join(ss);
    OneSegmentOrMore(ss);
    LastStars(s);
    if p == "**" {
      InJoin(ss, '\n');
    } else {
      GlobMatchLast(p, ss);
      assert [p][0] == p;
      if p != "*" {
        LastLiteral(p, s);
        if LiteralMatch(p, s) { LiteralSlashFree(p, s); }
      }
    }
  }

  /** The compiler and the segment-wise reading agree, on segment lists. */
  lemma {:induction false} JoinedMatch(ps: seq<string>, ss: seq<string>)
    requires |ps| >= 1 && SlashFree(ps) && StarConfined(ps)
    requires |ss| >= 1 && SlashFree(ss)
    ensures Matches(Join(ps), Join(ss)) <==> GlobMatch(ps, ss)
    decreases |ps|, |ss|
  {
    if |ps| == 1 {
      assert ps == [ps[0]];
      LastSegment(ps[0], ss);
    } else {
      var p, tail := ps[0], Join(ps[1..]);
      var s := Join(ss);
      forall k ensures CutAt(s, k) <==> |ss| >= 2 && k == |ss[0]| { JoinCut(ss, k); }
      JoinCut(ss, |ss[0]|);
      if |ss| == 1 {
        assert ss[1..] == [];
        NoSegmentsNoMatch(ps[1..]);
        NoSegmentsNoMatch(ps);
      }
      if p == "**" {
        assert Join(ps) == "**/" + tail;
        DoubleStarThenSeparator(tail, s);
        JoinedMatch(ps[1..], ss);
        if |ss| >= 2 { JoinedMatch(ps, ss[1..]); }
      } else {
        if p == "*" {
          assert Join(ps) == "*/" + tail;
          StarThenSeparator(tail, s);
        } else {
          LiteralThenSeparator(p, tail, s);
        }
        if |ss| >= 2 { JoinedMatch(ps[1..], ss[1..]); }
      }
    }
  }

  /**
   For every star-confined pattern and every path whatsoever, the compiled
   expression accepts the path exactly when the segments match.
   */
  lemma MatchesMeansSegmentMatch(pattern: string, path: string)
    requires StarConfined(Split(pattern))
    ensures Matches(pattern, path) <==> GlobMatch(Split(pattern), Split(path))
  {
    SplitSlashFree(pattern);
    SplitSlashFree(path);
    JoinSplit(pattern);
    JoinSplit(path);
    JoinedMatch(Split(pattern), Split(path));
  }

  // ---- the reading in the documentation --------------------------------------

  /** As `GlobMatch`, with a closing `**` standing for any one or more segments. */
  predicate DocumentedMatch(ps: seq<string>, ss: seq<string>)
    decreases |ps|, |ss|
  {
    if ps == [] then ss == []
    else if ps == ["**"] then |ss| >= 1
    else if ps[0] == "**" then
      || DocumentedMatch(ps[1..], ss)
      || (|ss| >= 1 && ss[0] != "" && DocumentedMatch(ps, ss[1..]))
    else |ss| >= 1 && SegmentMatch(ps[0], ss[0]) && DocumentedMatch(ps[1..], ss[1..])
  }

  lemma {:induction false} NewlineFreeAgrees(ps: seq<string>, ss: seq<string>)
    requires forall i :: 0 <= i < |ss| ==> '\n' !in ss[i]
    ensures GlobMatch(ps, ss) <==> DocumentedMatch(ps, ss)
    decreases |ps|, |ss|
  {
    if ps != [] && ps != ["**"] {
      if ps[0] == "**" { NewlineFreeAgrees(ps[1..], ss); }
      if |ss| >= 1 {
        if ps[0] == "**" { NewlineFreeAgrees(ps, ss[1..]); } else { NewlineFreeAgrees(ps[1..], ss[1..]); }
      }
    }
  }

  /** On newline-free paths the compiler does what `vault.py` documents. */
  lemma MatchesAsDocumented(pattern: string, path: string)
    requires StarConfined(Split(pattern)) && '\n' !in path
    ensures Matches(pattern, path) <==> DocumentedMatch(Split(pattern), Split(path))
  {
    MatchesMeansSegmentMatch(pattern, path);
    JoinSplit(path);
    InJoin(Split(path), '\n');
    NewlineFreeAgrees(Split(pattern), Split(path));
  }

  /** With a newline anywhere in the path `**` alone does not: `.` stops there. */
  lemma NewlineDefeatsDoubleStar(path: string)
    requires '\n' in path
    ensures !Matches("**", path) && DocumentedMatch(Split("**"), Split(path))
  {
    SplitWhole("**");
    JoinSplit(path);
    InJoin(Split(path), '\n');
    assert Split("**") == ["**"];
    MatchesMeansSegmentMatch("**", path);
  }

  /** The documentation is right about a path, whatever the pattern, exactly when the path has no newline. */
  lemma PathAgreesIffNewlineFree(path: string)
    ensures (forall pattern :: StarConfined(Split(pattern)) ==>
               (Matches(pattern, path) <==> DocumentedMatch(Split(pattern), Split(path))))
            <==> '\n' !in path
  {
    if '\n' in path {
      NewlineDefeatsDoubleStar(path);
      SplitWhole("**");
      assert StarConfined(Split("**"));
    } else {
      forall pattern | StarConfined(Split(pattern))
        ensures Matches(pattern, path) <==> DocumentedMatch(Split(pattern), Split(path))
      {
        MatchesAsDocumented(pattern, path);
      }
    }
  }

  // ---- a path made to measure ---------------------------------------------------

  /** A segment `p` matches that holds no `?`. */
  function Fill(p: string): string {
    if '*' in p then "a" else seq(|p|, i requires 0 <= i < |p| => if p[i] == '?' then 'x' else p[i])
  }

  /** A shortest path a pattern matches, `close` standing for its closing `**`. */
  function Sample(ps: seq<string>, close: string): seq<string> {
    if ps == [] then []
    else if ps == ["**"] then [close]
    else if ps[0] == "**" then Sample(ps[1..], close)
    else [Fill(ps[0])] + Sample(ps[1..], close)
  }

  lemma FillMatches(p: string)
    requires '/' !in p && ('*' in p ==> p == "*")
    ensures SegmentMatch(p, Fill(p)) && '/' !in Fill(p) && '?' !in Fill(p)
  {}

  lemma {:induction false} SampleMatches(ps: seq<string>, close: string)
    requires SlashFree(ps) && StarConfined(ps) && '/' !in close
    ensures SlashFree(Sample(ps, close)) && DocumentedMatch(ps, Sample(ps, close))
    ensures '\n' !in close ==> GlobMatch(ps, Sample(ps, close))
  {
    if ps != [] && ps != ["**"] {
      var ss := Sample(ps, close);
      SampleMatches(ps[1..], close);
      if ps[0] != "**" {
        FillMatches(ps[0]);
        assert ss[1..] == Sample(ps[1..], close);
      }
    }
  }

  lemma {:induction false} SampleCloses(ps: seq<string>, close: string)
    requires ps != [] && ps[|ps| - 1] == "**"
    ensures Sample(ps, close) != [] && Sample(ps, close)[|Sample(ps, close)| - 1] == close
  {
    if |ps| > 1 {
      SampleCloses(ps[1..], close);
    } else {
      assert ps == ["**"];
    }
  }

  lemma {:induction false} ClosingStarsStopAtNewline(ps: seq<string>, ss: seq<string>)
    requires ps != [] && ps[|ps| - 1] == "**" && GlobMatch(ps, ss)
    ensures ss != [] && '\n' !in ss[|ss| - 1]
    decreases |ps|, |ss|
  {
    if |ps| == 1 {
      assert ps == ["**"];
    } else if ps[0] != "**" {
      ClosingStarsStopAtNewline(ps[1..], ss[1..]);
    } else if GlobMatch(ps[1..], ss) {
      ClosingStarsStopAtNewline(ps[1..], ss);
    } else {
      ClosingStarsStopAtNewline(ps, ss[1..]);
    }
  }

  lemma {:induction false} OpenEndAgrees(ps: seq<string>, ss: seq<string>)
    requires ps != [] ==> ps[|ps| - 1] != "**"
    ensures GlobMatch(ps, ss) <==> DocumentedMatch(ps, ss)
    decreases |ps|, |ss|
  {
    if ps != [] {
      if ps[0] == "**" { OpenEndAgrees(ps[1..], ss); }
      if |ss| >= 1 {
        if ps[0] == "**" { OpenEndAgrees(ps, ss[1..]); } else { OpenEndAgrees(ps[1..], ss[1..]); }
      }
    }
  }

  /** A path a pattern closing with `**` should match, but for the newline at its end. */
  lemma ClosingDisagrees(pattern: string) returns (path: string)
    requires StarConfined(Split(pattern)) && Split(pattern)[|Split(pattern)| - 1] == "**"
    ensures !Matches(pattern, path) && DocumentedMatch(Split(pattern), Split(path))
  {
    var ps := Split(pattern);
    var ss := Sample(ps, "\n");
    path := Join(ss);
    SplitSlashFree(pattern);
    SampleMatches(ps, "\n");
    SampleCloses(ps, "\n");
    SplitJoin(ss);
    NewlineCloses(ps, ss);
    MatchesMeansSegmentMatch(pattern, path);
  }

  lemma NewlineCloses(ps: seq<string>, ss: seq<string>)
    requires ps != [] && ps[|ps| - 1] == "**" && ss != [] && ss[|ss| - 1] == "\n"
    ensures !GlobMatch(ps, ss)
  {
    if GlobMatch(ps, ss) { ClosingStarsStopAtNewline(ps, ss); }
  }

  /**
   The documentation is right about a pattern, whatever the path, exactly when
   the pattern does not close with `**`.
   */
  lemma PatternAgreesIffNotClosing(pattern: string)
    requires StarConfined(Split(pattern))
    ensures (forall path :: Matches(pattern, path) <==> DocumentedMatch(Split(pattern), Split(path)))
            <==> Split(pattern)[|Split(pattern)| - 1] != "**"
  {
    if Split(pattern)[|Split(pattern)| - 1] == "**" {
      var path := ClosingDisagrees(pattern);
      assert !(Matches(pattern, path) <==> DocumentedMatch(Split(pattern), Split(path)));
    } else {
      forall path ensures Matches(pattern, path) <==> DocumentedMatch(Split(pattern), Split(path)) {
        MatchesMeansSegmentMatch(pattern, path);
        OpenEndAgrees(Split(pattern), Split(path));
      }
    }
  }
}
