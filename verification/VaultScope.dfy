/**
 `vault.py` around the compiler: normalising a path, deciding whether a scope
 permits an action on it, and refusing malformed scope documents.
 */
module VaultScope {
  import opened Common
  import opened Paths
  import opened Glob
  import opened Text

  // ---- normalising a path ---------------------------------------------------

  const MAX_PATH := 1024

  datatype PathError =
    | EmptyPath | TooLong | NullByte | Backslash | Absolute
    | ParentSegment | CurrentSegment | EmptySegment

  function StripSlashes(s: string): string {
    if s != "" && s[|s| - 1] == '/' then StripSlashes(s[..|s| - 1]) else s
  }

  function BadSegment(segments: seq<string>): Option<PathError> {
    if segments == [] then None
    else if segments[0] == ".." then Some(ParentSegment)
    else if segments[0] == "." then Some(CurrentSegment)
    else if segments[0] == "" then Some(EmptySegment)
    else BadSegment(segments[1..])
  }

  function Normalise(raw: string): Result<string, PathError> {
    var path := Strip(raw);
    if path == "" then Err(EmptyPath)
    else if |path| > MAX_PATH then Err(TooLong)
    else if '\0' in path then Err(NullByte)
    else if '\\' in path then Err(Backslash)
    else if path[0] == '/' then Err(Absolute)
    else
      var segments := Split(StripSlashes(path));
      match BadSegment(segments)
      case Some(e) => Err(e)
      case None => Ok(Join(segments))
  }

  /** A well-formed vault path, whoever wrote it. */
  predicate CleanPath(path: string) {
    && 0 < |path| <= MAX_PATH && '\0' !in path && '\\' !in path
    && forall i :: 0 <= i < |Split(path)| ==> Split(path)[i] !in ["", ".", ".."]
  }

  lemma {:induction false} BadSegmentDecides(segments: seq<string>)
    ensures BadSegment(segments) == None <==>
            forall i :: 0 <= i < |segments| ==> segments[i] !in ["", ".", ".."]
  {
    if segments != [] {
      BadSegmentDecides(segments[1..]);
      if BadSegment(segments) == None {
        forall i | 0 <= i < |segments| ensures segments[i] !in ["", ".", ".."] {
          if i > 0 { assert segments[i] == segments[1..][i - 1]; }
        }
      }
      if forall i :: 0 <= i < |segments| ==> segments[i] !in ["", ".", ".."] {
        assert forall i :: 0 <= i < |segments[1..]| ==> segments[1..][i] == segments[i + 1];
      }
    }
  }

  lemma {:induction false} StripSlashesFacts(s: string)
    ensures StripSlashes(s) <= s
    ensures StripSlashes(s) != "" ==> StripSlashes(s)[|StripSlashes(s)| - 1] != '/'
    ensures forall i :: |StripSlashes(s)| <= i < |s| ==> s[i] == '/'
    ensures s != "" && s[0] != '/' ==> StripSlashes(s) != ""
  {
    if s != "" && s[|s| - 1] == '/' { StripSlashesFacts(s[..|s| - 1]); }
  }

  lemma {:induction false} LastSegmentEnds(s: string)
    ensures s != "" && s[|s| - 1] == '/' <==> |Split(s)| >= 2 && Split(s)[|Split(s)| - 1] == ""
    ensures s != "" && s[0] == '/' ==> Split(s)[0] == ""
  {
    if s != "" { LastSegmentEnds(s[1..]); }
  }

  function SegmentFor(e: PathError): string {
    match e
    case ParentSegment => ".."
    case CurrentSegment => "."
    case _ => ""
  }

  lemma {:induction false} FirstBadSegment(segments: seq<string>)
    ensures BadSegment(segments).Some? ==>
              exists i :: 0 <= i < |segments|
                && (forall j :: 0 <= j < i ==> segments[j] !in ["", ".", ".."])
                && segments[i] == SegmentFor(BadSegment(segments).value)
    ensures BadSegment(segments) in {None, Some(ParentSegment), Some(CurrentSegment), Some(EmptySegment)}
  {
    if segments != [] && segments[0] !in ["", ".", ".."] && BadSegment(segments).Some? {
      var rest := segments[1..];
      FirstBadSegment(rest);
      var i :| 0 <= i < |rest| && (forall j :: 0 <= j < i ==> rest[j] !in ["", ".", ".."])
        && rest[i] == SegmentFor(BadSegment(rest).value);
      assert segments[i + 1] == rest[i];
      assert forall j :: 1 <= j < i + 1 ==> segments[j] == rest[j - 1];
    }
  }

  /**
   Which fault is found: the checks on the whole text in their order, then the
   first bad segment; else the trimmed text.
   */
  lemma NormaliseDecides(raw: string)
    ensures var s, r := Strip(raw), Normalise(raw);
            if s == "" then r == Err(EmptyPath)
            else if |s| > 1024 then r == Err(TooLong)
            else if '\0' in s then r == Err(NullByte)
            else if '\\' in s then r == Err(Backslash)
            else if s[0] == '/' then r == Err(Absolute)
            else
              var segments := Split(StripSlashes(s));
              if forall i :: 0 <= i < |segments| ==> segments[i] !in ["", ".", ".."] then r == Ok(StripSlashes(s))
              else
                exists i :: 0 <= i < |segments|
                  && (forall j :: 0 <= j < i ==> segments[j] !in ["", ".", ".."])
                  && match segments[i]
                     case ".." => r == Err(ParentSegment)
                     case "." => r == Err(CurrentSegment)
                     case "" => r == Err(EmptySegment)
                     case _ => false
  {
    var s := Strip(raw);
    var segments := Split(StripSlashes(s));
    BadSegmentDecides(segments);
    FirstBadSegment(segments);
    JoinSplit(StripSlashes(s));
  }

  /** What comes out is clean, and is the input with only its ends trimmed. */
  lemma NormaliseIsClean(raw: string)
    requires Normalise(raw).Ok?
    ensures CleanPath(Normalise(raw).value) && !IsSpace(Normalise(raw).value[0])
    ensures Normalise(raw).value == StripSlashes(Strip(raw))
  {
    var path := Strip(raw);
    StripFrontFacts(raw);
    StripBackFacts(StripFront(raw));
    StripSlashesFacts(path);
    var q := StripSlashes(path);
    JoinSplit(q);
    BadSegmentDecides(Split(q));
  }

  /** A clean path with no whitespace at its ends is already normal. */
  lemma CleanIsNormal(path: string)
    requires CleanPath(path) && !IsSpace(path[0]) && !IsSpace(path[|path| - 1])
    ensures Normalise(path) == Ok(path)
  {
    LastSegmentEnds(path);
    BadSegmentDecides(Split(path));
    JoinSplit(path);
    assert StripBack(StripFront(path)) == path;
    assert Split(path)[0] != "" && Split(path)[|Split(path)| - 1] != "";
    assert StripSlashes(path) == path;
  }

  /** What is left of the input between its outer whitespace and its closing separators. */
  function Core(raw: string): string {
    StripSlashes(Strip(raw))
  }

  /**
   Normalising an accepted input twice is normalising it once exactly when its
   closing separators do not follow whitespace.
   */
  lemma NormaliseAgain(raw: string)
    requires Normalise(raw).Ok?
    ensures Core(raw) != ""
    ensures Normalise(Normalise(raw).value) == Normalise(raw) <==> !IsSpace(Core(raw)[|Core(raw)| - 1])
  {
    var path := Normalise(raw).value;
    NormaliseIsClean(raw);
    if IsSpace(path[|path| - 1]) {
      assert StripFront(path) == path;
      StripBackFacts(path[..|path| - 1]);
      StripSlashesFacts(StripBack(path));
      assert |StripSlashes(StripBack(path))| < |path|;
      if Normalise(path).Ok? { NormaliseIsClean(path); }
    } else {
      CleanIsNormal(path);
    }
  }

  /** The smallest input that changes twice: the separator goes first, then the space it hid. */
  lemma SpaceBeforeSeparator()
    ensures Normalise("a /") == Ok("a ") && Normalise("a ") == Ok("a")
  {
    SplitWhole("a ");
    SpaceThenSeparator("a ");
    assert "a " + "/" == "a /";
    CleanEndsStay("a");
    assert "a "[..1] == "a";
    SplitWhole("a");
    CleanIsNormal("a");
    JoinSplit("a");
    assert StripFront("a ") == "a ";
    assert Strip("a ") == "a";
  }

  /** A clean path whose last character is no separator is what its own text with a separator added normalises to. */
  lemma SpaceThenSeparator(path: string)
    requires CleanPath(path) && !IsSpace(path[0]) && |path| < MAX_PATH
    ensures Normalise(path + "/") == Ok(path)
  {
    var raw := path + "/";
    LastSegmentEnds(path);
    BadSegmentDecides(Split(path));
    JoinSplit(path);
    assert Split(path)[0] != "" && Split(path)[|Split(path)| - 1] != "";
    CleanEndsStay(raw);
    assert raw[..|path|] == path;
    assert StripSlashes(raw) == StripSlashes(path) == path;
  }

  /** The paths the vault ever decides about. */
  predicate NormalPath(path: string) {
    CleanPath(path) && !IsSpace(path[0]) && (IsSpace(path[|path| - 1]) ==> |path| < MAX_PATH)
  }

  /** They are exactly what `normalise` returns. */
  lemma NormalPathsAreNormalised(path: string)
    ensures NormalPath(path) <==> exists raw :: Normalise(raw) == Ok(path)
  {
    if NormalPath(path) {
      if IsSpace(path[|path| - 1]) {
        SpaceThenSeparator(path);
        assert Normalise(path + "/") == Ok(path);
      } else {
        CleanIsNormal(path);
        assert Normalise(path) == Ok(path);
      }
    }
    if raw :| Normalise(raw) == Ok(path) {
      NormaliseIsClean(raw);
      StripBackFacts(StripFront(raw));
      StripSlashesFacts(Strip(raw));
    }
  }

  /** A newline inside a path is accepted. */
  lemma NewlineIsNormal()
    ensures Normalise("a\nb") == Ok("a\nb")
  {
    SplitWhole("a\nb");
    CleanIsNormal("a\nb");
  }

  // ---- deciding --------------------------------------------------------------

  const ACTIONS := ["read", "write", "quarantine", "promote"]
  const SCOPE_KEYS := ACTIONS + ["deny"]

  /** A stored scope: the pattern list under each key it carries. */
  type Scope = map<string, seq<string>>

  function PatternsFor(scope: Scope, key: string): seq<string> {
    if key in scope then scope[key] else []
  }

  predicate AnyMatches(patterns: seq<string>, path: string) {
    exists i :: 0 <= i < |patterns| && Matches(patterns[i], path)
  }

  datatype ActionError = UnknownAction

  /** A missing or empty scope grants nothing; `deny` is asked first. */
  function Permits(scope: Option<Scope>, action: string, path: string): Result<bool, ActionError> {
    if action !in ACTIONS then Err(UnknownAction)
    else if scope.None? || scope.value == map[] then Ok(false)
    else if AnyMatches(PatternsFor(scope.value, "deny"), path) then Ok(false)
    else Ok(AnyMatches(PatternsFor(scope.value, action), path))
  }

  // ---- validating a scope document ----------------------------------------------

  datatype Entry = Written(text: string) | NotText

  datatype Field = Null | Patterns(entries: seq<Entry>) | NotAList

  type Document = map<string, Field>

  datatype ScopeError =
    | UnknownKey
    | KeyNotAList(key: string)
    | NotAPattern(key: string)
    | Traversal(key: string)
    | CurrentDirectory(key: string)
    | PartialWildcard(key: string)
    | WriteWithoutRead
    | DenyAlsoIn(action: string)

  function SegmentFault(key: string, segment: string): Option<ScopeError> {
    if segment == ".." then Some(Traversal(key))
    else if segment == "." then Some(CurrentDirectory(key))
    else if '*' in segment && segment != "*" && segment != "**" then Some(PartialWildcard(key))
    else None
  }

  function SegmentsFault(key: string, segments: seq<string>): Option<ScopeError> {
    if segments == [] then None
    else if SegmentFault(key, segments[0]).Some? then SegmentFault(key, segments[0])
    else SegmentsFault(key, segments[1..])
  }

  /** `_validate_pattern`. */
  function PatternFault(key: string, pattern: string): Option<ScopeError> {
    SegmentsFault(key, Split(pattern))
  }

  predicate GoodPattern(pattern: string) {
    && pattern != ""
    && StarConfined(Split(pattern))
    && forall i :: 0 <= i < |Split(pattern)| ==> Split(pattern)[i] !in [".", ".."]
  }

  predicate GoodEntry(entry: Entry) {
    entry.Written? && GoodPattern(entry.text)
  }

  predicate GoodField(field: Field) {
    match field
    case Null => true
    case NotAList => false
    case Patterns(entries) => forall i :: 0 <= i < |entries| ==> GoodEntry(entries[i])
  }

  function FieldOf(doc: Document, key: string): Field {
    if key in doc then doc[key] else Null
  }

  /** The patterns written under a key, as a set. */
  function PatternSet(doc: Document, key: string): set<string> {
    match FieldOf(doc, key)
    case Patterns(entries) => set e | e in entries && e.Written? :: e.text
    case _ => {}
  }

  /** The four rules, with the two shape rules that precede them. */
  predicate WellFormed(doc: Document) {
    && (forall key :: key in doc ==> key in SCOPE_KEYS)
    && (forall key :: key in SCOPE_KEYS ==> GoodField(FieldOf(doc, key)))
    && PatternSet(doc, "write") <= PatternSet(doc, "read")
    && (forall action :: action in ACTIONS ==> PatternSet(doc, "deny") !! PatternSet(doc, action))
  }

  /** The fault an error names is really in the document. */
  predicate Names(doc: Document, error: ScopeError) {
    match error
    case UnknownKey => exists key :: key in doc && key !in SCOPE_KEYS
    case KeyNotAList(key) => FieldOf(doc, key).NotAList?
    case NotAPattern(key) => FieldOf(doc, key).Patterns? &&
      exists e :: e in FieldOf(doc, key).entries && (e.NotText? || e.text == "")
    case Traversal(key) => exists p :: p in PatternSet(doc, key) && ".." in Split(p)
    case CurrentDirectory(key) => exists p :: p in PatternSet(doc, key) && "." in Split(p)
    case PartialWildcard(key) => exists p :: p in PatternSet(doc, key) && !StarConfined(Split(p))
    case WriteWithoutRead => !(PatternSet(doc, "write") <= PatternSet(doc, "read"))
    case DenyAlsoIn(action) => action in ACTIONS && !(PatternSet(doc, "deny") !! PatternSet(doc, action))
  }

  lemma {:induction false} SegmentsFaultDecides(key: string, segments: seq<string>)
    ensures SegmentsFault(key, segments) == None <==>
            StarConfined(segments) && forall i :: 0 <= i < |segments| ==> segments[i] !in [".", ".."]
    ensures SegmentsFault(key, segments).Some? ==>
            match SegmentsFault(key, segments).value
            case Traversal(k) => k == key && ".." in segments
            case CurrentDirectory(k) => k == key && "." in segments
            case PartialWildcard(k) => k == key && !StarConfined(segments)
            case _ => false
  {
    if segments != [] {
      SegmentsFaultDecides(key, segments[1..]);
      assert segments == [segments[0]] + segments[1..];
      assert forall i :: 0 <= i < |segments[1..]| ==> segments[1..][i] == segments[i + 1];
      if SegmentsFault(key, segments) == None {
        forall i | 0 <= i < |segments|
          ensures segments[i] !in [".", ".."]
          ensures '*' in segments[i] ==> segments[i] == "*" || segments[i] == "**"
        {
          if i > 0 { assert segments[i] == segments[1..][i - 1]; }
        }
      }
    }
  }

  /** The loop over one key's list. */
  method CheckField(ghost doc: Document, key: string, field: Field) returns (fault: Option<ScopeError>)
    requires field == FieldOf(doc, key)
    ensures fault == None <==> GoodField(field)
    ensures fault.Some? ==> Names(doc, fault.value)
  {
    if field.Null? { return None; }
    if field.NotAList? { return Some(KeyNotAList(key)); }
    var entries := field.entries;
    for i := 0 to |entries|
      invariant forall j :: 0 <= j < i ==> GoodEntry(entries[j])
    {
      var e := entries[i];
      if e.NotText? || e.text == "" { return Some(NotAPattern(key)); }
      SegmentsFaultDecides(key, Split(e.text));
      var found := PatternFault(key, e.text);
      if found.Some? {
        assert e.text in PatternSet(doc, key);
        return found;
      }
    }
    return None;
  }

  /** `validate_scope`. */
  method ValidateScope(doc: Document) returns (fault: Option<ScopeError>)
    ensures fault == None <==> WellFormed(doc)
    ensures fault.Some? ==> Names(doc, fault.value)
    ensures fault == Some(UnknownKey) <==>
            exists key :: key in doc && key !in {"read", "write", "quarantine", "promote", "deny"}
  {
    assert forall key :: key in SCOPE_KEYS <==> key in {"read", "write", "quarantine", "promote", "deny"};
    if exists key :: key in doc && key !in SCOPE_KEYS { return Some(UnknownKey); }
    for i := 0 to |SCOPE_KEYS|
      invariant forall j :: 0 <= j < i ==> GoodField(FieldOf(doc, SCOPE_KEYS[j]))
    {
      var key := SCOPE_KEYS[i];
      fault := CheckField(doc, key, FieldOf(doc, key));
      if fault.Some? { return; }
    }
    if !(PatternSet(doc, "write") <= PatternSet(doc, "read")) { return Some(WriteWithoutRead); }
    for i := 0 to |ACTIONS|
      invariant forall j :: 0 <= j < i ==> PatternSet(doc, "deny") !! PatternSet(doc, ACTIONS[j])
    {
      var overlap := PatternSet(doc, "deny") * PatternSet(doc, ACTIONS[i]);
      if overlap != {} {
        assert exists p :: p in overlap;
        return Some(DenyAlsoIn(ACTIONS[i]));
      }
      assert forall p :: p in PatternSet(doc, "deny") && p in PatternSet(doc, ACTIONS[i]) ==> p in overlap;
    }
    return None;
  }

  // ---- a validated scope decides segment-wise ----------------------------------------

  /** `scope` holds exactly the patterns a valid document lists under each key. */
  predicate Stores(scope: Scope, doc: Document) {
    && WellFormed(doc)
    && forall key :: key in SCOPE_KEYS ==> (set p | p in PatternsFor(scope, key)) == PatternSet(doc, key)
  }

  predicate Grants(doc: Document, key: string, path: string) {
    exists p :: p in PatternSet(doc, key) && GlobMatch(Split(p), Split(path))
  }

  lemma StoredMatches(scope: Scope, doc: Document, key: string, path: string)
    requires Stores(scope, doc) && key in SCOPE_KEYS
    ensures AnyMatches(PatternsFor(scope, key), path) <==> Grants(doc, key, path)
  {
    var patterns := PatternsFor(scope, key);
    assert (set p | p in patterns) == PatternSet(doc, key);
    assert GoodField(FieldOf(doc, key));
    forall p | p in patterns ensures Matches(p, path) <==> GlobMatch(Split(p), Split(path)) {
      assert p in PatternSet(doc, key);
      assert GoodPattern(p);
      MatchesMeansSegmentMatch(p, path);
    }
    if Grants(doc, key, path) {
      var p :| p in PatternSet(doc, key) && GlobMatch(Split(p), Split(path));
      assert p in patterns;
      var i :| 0 <= i < |patterns| && patterns[i] == p;
    }
  }

  /** What a valid scope permits, said without regular expressions: a grant no denial covers. */
  lemma PermitsMeaning(scope: Scope, doc: Document, action: string, path: string)
    requires Stores(scope, doc) && action in ACTIONS
    ensures Permits(Some(scope), action, path) == Ok(Grants(doc, action, path) && !Grants(doc, "deny", path))
  {
    assert action in SCOPE_KEYS && "deny" in SCOPE_KEYS;
    StoredMatches(scope, doc, action, path);
    StoredMatches(scope, doc, "deny", path);
    assert scope == map[] ==> PatternsFor(scope, action) == [];
  }

  /** For any scope whatever: who has none may nothing, and a grant stands unless some denial covers the path. */
  lemma PermitsIff(scope: Option<Scope>, action: string, path: string)
    ensures Permits(scope, action, path).Err? <==> action !in {"read", "write", "quarantine", "promote"}
    ensures Permits(scope, action, path) == Ok(true) <==>
            && action in {"read", "write", "quarantine", "promote"}
            && scope.Some? && action in scope.value
            && (exists p :: p in scope.value[action] && Matches(p, path))
            && !("deny" in scope.value && exists p :: p in scope.value["deny"] && Matches(p, path))
  {
    assert action in ACTIONS <==> action in {"read", "write", "quarantine", "promote"};
    if scope.Some? {
      AnyMatchesMember(PatternsFor(scope.value, action), path);
      AnyMatchesMember(PatternsFor(scope.value, "deny"), path);
    }
  }

  lemma AnyMatchesMember(patterns: seq<string>, path: string)
    ensures AnyMatches(patterns, path) <==> exists p :: p in patterns && Matches(p, path)
  {
    if exists p :: p in patterns && Matches(p, path) {
      var p :| p in patterns && Matches(p, path);
      var i :| 0 <= i < |patterns| && patterns[i] == p;
    }
  }

  /** The first rule's purpose: whoever may write a path may read it. */
  lemma WriteImpliesRead(scope: Scope, doc: Document, path: string)
    requires Stores(scope, doc) && Permits(Some(scope), "write", path) == Ok(true)
    ensures Permits(Some(scope), "read", path) == Ok(true)
  {
    PermitsMeaning(scope, doc, "write", path);
    PermitsMeaning(scope, doc, "read", path);
  }
}
