/**
 `manifest.py`: checking a declared parameter, coercing a submitted value to
 its type, and validating a whole submission, which a resubmitted job goes
 through a second time with the values it stored.
 */
module Manifest {
  import opened Common
  import opened Text

  /**
   A JSON value. A float is held as its `repr`, which determines it; a list or
   an object as its `str`, the only thing asked of it.
   */
  datatype Value = Null | Bool(b: bool) | Int(n: int) | Float(repr: string) | Str(s: string) | Other(text: string)

  datatype ParameterType = STRING | INTEGER | FLOAT | BOOLEAN | FILE | LOOKUP_CHOICE

  datatype Parameter = Parameter(
    name: string, kind: ParameterType, required: bool, default: Value, choices: Option<seq<string>>)

  // ---- the declaration ----------------------------------------------------------

  datatype ManifestFault = NoChoices | DefaultNotAChoice | ChoicesNotAllowed | RequiredWithDefault

  function CheckParameter(p: Parameter): Option<ManifestFault> {
    if p.kind.LOOKUP_CHOICE? && (p.choices.None? || p.choices.value == []) then Some(NoChoices)
    else if p.kind.LOOKUP_CHOICE? && !p.default.Null? && !(p.default.Str? && p.default.s in p.choices.value) then
      Some(DefaultNotAChoice)
    else if !p.kind.LOOKUP_CHOICE? && p.choices.Some? then Some(ChoicesNotAllowed)
    else if p.required && !p.default.Null? then Some(RequiredWithDefault)
    else None
  }

  /** Which declarations are refused, and as what. */
  lemma CheckDecides(p: Parameter)
    ensures CheckParameter(p) == None <==>
            && (p.kind == LOOKUP_CHOICE ==>
                  && p.choices.Some? && p.choices.value != []
                  && (p.default == Null || exists c :: c in p.choices.value && p.default == Str(c)))
            && (p.kind != LOOKUP_CHOICE ==> p.choices == None)
            && (p.required ==> p.default == Null)
    ensures CheckParameter(p) == Some(NoChoices) <==> p.kind == LOOKUP_CHOICE && p.choices in {None, Some([])}
    ensures CheckParameter(p) == Some(ChoicesNotAllowed) <==> p.kind != LOOKUP_CHOICE && p.choices != None
    ensures CheckParameter(p) == Some(RequiredWithDefault) ==> p.required && p.default != Null
  {
    assert p.choices.Some? ==> p.choices == Some(p.choices.value);
    if p.default.Str? && p.choices.Some? && p.default.s in p.choices.value {
      assert p.default == Str(p.default.s);
    }
  }

  /** What a registered manifest satisfies. */
  predicate Registered(params: seq<Parameter>) {
    && (forall i :: 0 <= i < |params| ==> CheckParameter(params[i]).None?)
    && (forall i, j :: 0 <= i < j < |params| ==> params[i].name != params[j].name)
  }

  // ---- numbers as text ------------------------------------------------------------

  /** Longer decimal texts are refused by `int` and never produced by `str`. */
  const MAX_DIGITS := 4300

  function DigitChar(d: nat): char
    requires d < 10
  {
    ('0' as int + d) as char
  }

  predicate IsDigit(c: char) {
    '0' <= c <= '9'
  }

  function DigitOf(c: char): (d: nat)
    requires IsDigit(c)
    ensures d < 10
  {
    c as int - '0' as int
  }

  /** Digits, with single underscores allowed between two of them. */
  function ParseNat(s: string): Option<nat> {
    if s == "" || !IsDigit(s[|s| - 1]) then None
    else if |s| == 1 then Some(DigitOf(s[0]))
    else
      var before := s[..|s| - 1];
      match ParseNat(if before[|before| - 1] == '_' then before[..|before| - 1] else before)
      case None => None
      case Some(n) => Some(10 * n + DigitOf(s[|s| - 1]))
  }

  function DigitCount(s: string): nat {
    if s == "" then 0 else DigitCount(s[..|s| - 1]) + if IsDigit(s[|s| - 1]) then 1 else 0
  }

  predicate Signed(s: string) {
    s != "" && (s[0] == '-' || s[0] == '+')
  }

  /** Python's `int(text)`. */
  function ParseInt(text: string): Option<int> {
    var s := Strip(text);
    var digits := if Signed(s) then s[1..] else s;
    match ParseNat(digits)
    case None => None
    case Some(n) => if DigitCount(digits) > MAX_DIGITS then None else Some(if s[0] == '-' then 0 - n else n)
  }

  function PrintNat(n: nat): string {
    if n < 10 then [DigitChar(n)] else PrintNat(n / 10) + [DigitChar(n % 10)]
  }

  function PrintInt(n: int): string {
    if n < 0 then "-" + PrintNat(-n) else PrintNat(n)
  }

  lemma {:induction false} PrintNatIsDigits(n: nat)
    ensures PrintNat(n) != "" && forall i :: 0 <= i < |PrintNat(n)| ==> IsDigit(PrintNat(n)[i])
  {
    if n >= 10 { PrintNatIsDigits(n / 10); }
  }

  lemma {:induction false} ParsePrintNat(n: nat)
    ensures ParseNat(PrintNat(n)) == Some(n) && DigitCount(PrintNat(n)) == |PrintNat(n)|
  {
    var s := PrintNat(n);
    PrintNatIsDigits(n);
    if n < 10 {
      assert s[..0] == "";
    } else {
      var before := PrintNat(n / 10);
      ParsePrintNat(n / 10);
      PrintNatIsDigits(n / 10);
      assert s[..|s| - 1] == before && before[|before| - 1] != '_';
    }
  }

  /** Digits and underscores, a digit at either end and no two underscores together. */
  predicate NumberShaped(s: string) {
    && s != "" && IsDigit(s[0]) && IsDigit(s[|s| - 1])
    && (forall i :: 0 <= i < |s| ==> IsDigit(s[i]) || s[i] == '_')
    && (forall i :: 0 <= i < |s| - 1 ==> IsDigit(s[i]) || IsDigit(s[i + 1]))
  }

  /** The text before the last digit, without the underscore that may part them. */
  function Shorter(s: string): string
    requires |s| >= 2
  {
    var before := s[..|s| - 1];
    if before[|before| - 1] == '_' then before[..|before| - 1] else before
  }

  lemma {:induction false} ParsesIffShaped(s: string)
    ensures ParseNat(s).Some? <==> NumberShaped(s)
    decreases |s|
  {
    if |s| >= 2 && IsDigit(s[|s| - 1]) {
      var t := Shorter(s);
      ParsesIffShaped(t);
      ShapedShorter(s);
    }
  }

  lemma ShapedShorter(s: string)
    requires |s| >= 2 && IsDigit(s[|s| - 1])
    ensures NumberShaped(s) <==> NumberShaped(Shorter(s))
  {
    var t := Shorter(s);
    assert t <= s && |s| - 2 <= |t| <= |s| - 1 && (|t| == |s| - 2 ==> s[|s| - 2] == '_');
    if NumberShaped(s) {
      assert |t| == |s| - 2 ==> t != "" && IsDigit(s[|s| - 3]);
      assert |t| == |s| - 1 ==> IsDigit(s[|s| - 2]);
    }
  }

  /** The number the digits of a text stand for, the first counting most, whatever lies between them. */
  function Denotes(s: string): nat {
    if s == "" then 0
    else if IsDigit(s[|s| - 1]) then 10 * Denotes(s[..|s| - 1]) + DigitOf(s[|s| - 1])
    else Denotes(s[..|s| - 1])
  }

  /** What is read is the number the digits denote. */
  lemma {:induction false} ParsesToItsDigits(s: string)
    requires ParseNat(s).Some?
    ensures ParseNat(s).value == Denotes(s)
    decreases |s|
  {
    var before := s[..|s| - 1];
    if |s| == 1 {
      assert before == "" && Denotes("") == 0;
    } else {
      ParsesToItsDigits(Shorter(s));
      assert Denotes(before) == Denotes(Shorter(s));
    }
  }

  /** What `int` makes of the digits after any sign. */
  function Unsigned(digits: string): Option<nat> {
    if NumberShaped(digits) && DigitCount(digits) <= 4300 then Some(Denotes(digits)) else None
  }

  /** `int` ignores outer white space and a leading plus, and negates after a leading minus. */
  lemma SignDecides(text: string)
    ensures var s := Strip(text);
            if s == "" then ParseInt(text) == None
            else match s[0]
                 case '+' =>
                   ParseInt(text) == (match Unsigned(s[1..]) case None => None case Some(n) => Some(n as int))
                 case '-' => ParseInt(text) == (match Unsigned(s[1..]) case None => None case Some(n) => Some(0 - n))
                 case _ => ParseInt(text) == (match Unsigned(s) case None => None case Some(n) => Some(n as int))
  {
    var s := Strip(text);
    if s != "" {
      var digits := if s[0] == '+' || s[0] == '-' then s[1..] else s;
      ParsesIffShaped(digits);
      if ParseNat(digits).Some? { ParsesToItsDigits(digits); }
    }
  }

  /** No text of `k` digits denotes a number that prints longer. */
  lemma {:induction false} PrintsNoLonger(s: string)
    requires ParseNat(s).Some?
    ensures |PrintNat(ParseNat(s).value)| <= DigitCount(s)
    decreases |s|
  {
    if |s| == 1 {
      assert s[..0] == "" && DigitCount("") == 0;
    } else {
      var before := s[..|s| - 1];
      var shorter := if before[|before| - 1] == '_' then before[..|before| - 1] else before;
      PrintsNoLonger(shorter);
    }
  }

  function Magnitude(n: int): nat {
    if n < 0 then -n else n
  }

  /** What `int` makes of digits that begin and end as digits do, and of the same behind a minus. */
  function Read(digits: string): Option<nat> {
    if DigitCount(digits) <= MAX_DIGITS then ParseNat(digits) else None
  }

  lemma DigitsReadBack(digits: string)
    requires digits != "" && IsDigit(digits[0]) && IsDigit(digits[|digits| - 1])
    ensures ParseInt(digits) == match Read(digits) case None => None case Some(n) => Some(n as int)
  {
    CleanEndsStay(digits);
  }

  lemma NegatedReadBack(digits: string)
    requires digits != "" && IsDigit(digits[|digits| - 1])
    ensures ParseInt("-" + digits) == match Read(digits) case None => None case Some(n) => Some(0 - n)
  {
    var s := "-" + digits;
    CleanEndsStay(s);
    assert s[1..] == digits;
  }

  lemma PrintedDigits(m: nat)
    ensures var digits := PrintNat(m);
            && digits != "" && IsDigit(digits[0]) && IsDigit(digits[|digits| - 1])
            && Read(digits) == if |digits| <= MAX_DIGITS then Some(m) else None
  {
    PrintNatIsDigits(m);
    ParsePrintNat(m);
  }

  /** A printed number reads back as itself, unless it is too long to be read at all. */
  lemma PrintedReadsBack(n: int)
    ensures ParseInt(PrintInt(n)) == if |PrintNat(Magnitude(n))| <= MAX_DIGITS then Some(n) else None
  {
    PrintedDigits(Magnitude(n));
    if n < 0 { NegatedReadBack(PrintNat(-n)); } else { DigitsReadBack(PrintNat(n)); }
  }

  /** A number that was read prints and reads back as itself. */
  lemma PrintedIntParses(text: string)
    requires ParseInt(text).Some?
    ensures ParseInt(PrintInt(ParseInt(text).value)) == ParseInt(text)
  {
    var s := Strip(text);
    PrintsNoLonger(if Signed(s) then s[1..] else s);
    PrintedReadsBack(ParseInt(text).value);
  }

  // ---- coercing one value -----------------------------------------------------------

  datatype Reason = NotABoolean | GotABoolean | NotAnInteger | NotANumber | NotAChoice

  /** `str(value)`. */
  function TextOf(v: Value): string {
    match v
    case Null => "None"
    case Bool(b) => if b then "True" else "False"
    case Int(n) => PrintInt(n)
    case Float(repr) => repr
    case Str(s) => s
    case Other(text) => text
  }

  function LowerChar(c: char): char {
    if 'A' <= c <= 'Z' then (c as int + 32) as char else c
  }

  function Lower(s: string): string {
    seq(|s|, i requires 0 <= i < |s| => LowerChar(s[i]))
  }

  /** `_coerce`; `parse` is Python's `float`, giving the `repr` of what it reads. */
  function Coerce(p: Parameter, v: Value, parse: string -> Option<string>): Result<Value, Reason> {
    match p.kind
    case BOOLEAN =>
      if v.Bool? then Ok(v)
      else
        var word := Lower(Strip(TextOf(v)));
        if word in ["true", "1", "yes", "on"] then Ok(Bool(true))
        else if word in ["false", "0", "no", "off"] then Ok(Bool(false))
        else Err(NotABoolean)
    case INTEGER =>
      if v.Bool? then Err(GotABoolean)
      else (match ParseInt(TextOf(v)) case Some(n) => Ok(Int(n)) case None => Err(NotAnInteger))
    case FLOAT =>
      if v.Bool? then Err(GotABoolean)
      else (match parse(Strip(TextOf(v))) case Some(repr) => Ok(Float(repr)) case None => Err(NotANumber))
    case LOOKUP_CHOICE =>
      if p.choices.Some? && TextOf(v) in p.choices.value then Ok(Str(TextOf(v))) else Err(NotAChoice)
    case _ => Ok(Str(TextOf(v)))
  }

  /** The text is the word, in either case. */
  predicate Spells(s: string, word: string) {
    && |s| == |word|
    && forall i :: 0 <= i < |s| ==> s[i] == word[i] || ('A' <= s[i] <= 'Z' && s[i] as int + 32 == word[i] as int)
  }

  lemma LowerSpells(s: string, word: string)
    requires forall i :: 0 <= i < |word| ==> !('A' <= word[i] <= 'Z')
    ensures Lower(s) == word <==> Spells(s, word)
  {
    var t := Lower(s);
    assert |t| == |s| && forall i :: 0 <= i < |s| ==> t[i] == LowerChar(s[i]);
    if Spells(s, word) {
      assert forall i :: 0 <= i < |s| ==> t[i] == word[i];
    }
  }

  /**
   What comes of each type: which words are booleans, what is refused a boolean,
   and that only text is taken as text.
   */
  lemma CoerceDecides(p: Parameter, v: Value, parse: string -> Option<string>)
    ensures p.kind == BOOLEAN ==>
              var s, r := Strip(TextOf(v)), Coerce(p, v, parse);
              && (r == Ok(Bool(true)) <==>
                    v == Bool(true)
                    || (!v.Bool? && (Spells(s, "true") || Spells(s, "1") || Spells(s, "yes") || Spells(s, "on"))))
              && (r == Ok(Bool(false)) <==>
                    v == Bool(false)
                    || (!v.Bool? && (Spells(s, "false") || Spells(s, "0") || Spells(s, "no") || Spells(s, "off"))))
              && (r in {Ok(Bool(true)), Ok(Bool(false))} || r == Err(NotABoolean))
    ensures p.kind == INTEGER ==>
              && (v.Bool? <==> Coerce(p, v, parse) == Err(GotABoolean))
              && (forall n :: Coerce(p, v, parse) == Ok(Int(n)) <==> !v.Bool? && ParseInt(TextOf(v)) == Some(n))
              && (Coerce(p, v, parse).Ok? ==> Coerce(p, v, parse).value.Int?)
    ensures p.kind == FLOAT ==>
              && (v.Bool? <==> Coerce(p, v, parse) == Err(GotABoolean))
              && (forall f :: Coerce(p, v, parse) == Ok(Float(f)) <==> !v.Bool? && parse(Strip(TextOf(v))) == Some(f))
              && (Coerce(p, v, parse).Ok? ==> Coerce(p, v, parse).value.Float?)
    ensures p.kind == LOOKUP_CHOICE ==>
              Coerce(p, v, parse) ==
              if p.choices != None && TextOf(v) in p.choices.value then Ok(Str(TextOf(v))) else Err(NotAChoice)
    ensures p.kind in {STRING, FILE} ==> Coerce(p, v, parse) == Ok(Str(TextOf(v)))
  {
    if p.kind == BOOLEAN && !v.Bool? {
      var s := Strip(TextOf(v));
      LowerSpells(s, "true"); LowerSpells(s, "1"); LowerSpells(s, "yes"); LowerSpells(s, "on");
      LowerSpells(s, "false"); LowerSpells(s, "0"); LowerSpells(s, "no"); LowerSpells(s, "off");
    }
  }

  /** `str` of the scalars, as Python writes them. */
  lemma ScalarTexts(n: int, s: string)
    ensures TextOf(Bool(true)) == "True" && TextOf(Bool(false)) == "False" && TextOf(Str(s)) == s
    ensures |PrintNat(Magnitude(n))| <= 4300 ==> ParseInt(TextOf(Int(n))) == Some(n)
  {
    PrintedReadsBack(n);
  }

  /** What Python promises of `float` and `repr`: a printed float reads back as itself. */
  ghost predicate ReadsBack(parse: string -> Option<string>) {
    forall s :: parse(s).Some? ==> parse(Strip(parse(s).value)) == parse(s)
  }

  /** Coercing an accepted value again changes nothing. */
  lemma CoerceAgain(p: Parameter, v: Value, parse: string -> Option<string>)
    requires ReadsBack(parse) && Coerce(p, v, parse).Ok?
    ensures !Coerce(p, v, parse).value.Null? && Coerce(p, Coerce(p, v, parse).value, parse) == Coerce(p, v, parse)
  {
    if p.kind.INTEGER? {
      PrintedIntParses(TextOf(v));
    }
  }

  /** The default of a checked choice is one of the choices, so it coerces to itself. */
  lemma ChoiceDefaultIsFixed(p: Parameter, parse: string -> Option<string>)
    requires CheckParameter(p).None? && p.kind.LOOKUP_CHOICE? && !p.default.Null?
    ensures Coerce(p, p.default, parse) == Ok(p.default)
  {}

  // ---- validating a submission ---------------------------------------------------------

  datatype Fault = Unknown(names: set<string>) | BadValue(name: string, reason: Reason) | Missing(names: set<string>)

  type Values = map<string, Value>

  function Names(params: seq<Parameter>): set<string> {
    set i | 0 <= i < |params| :: params[i].name
  }

  /** An explicit null counts as not given. */
  predicate Supplied(raw: Values, name: string) {
    name in raw && !raw[name].Null?
  }

  predicate Bad(p: Parameter, raw: Values, parse: string -> Option<string>) {
    Supplied(raw, p.name) && Coerce(p, raw[p.name], parse).Err?
  }

  predicate Lacking(p: Parameter, raw: Values) {
    !Supplied(raw, p.name) && p.default.Null? && p.required
  }

  function Lack(params: seq<Parameter>, raw: Values): set<string> {
    set i | 0 <= i < |params| && Lacking(params[i], raw) :: params[i].name
  }

  /** What one parameter contributes to the result. */
  predicate Contributes(p: Parameter, raw: Values, parse: string -> Option<string>, result: Values) {
    if Supplied(raw, p.name) then p.name in result && Coerce(p, raw[p.name], parse) == Ok(result[p.name])
    else if !p.default.Null? then p.name in result && result[p.name] == p.default
    else p.name !in result
  }

  /** What a submission must be for `result` to be what is stored. */
  predicate Accepts(params: seq<Parameter>, raw: Values, parse: string -> Option<string>, result: Values) {
    && raw.Keys <= Names(params) && result.Keys <= Names(params) && Lack(params, raw) == {}
    && forall i :: 0 <= i < |params| ==> Contributes(params[i], raw, parse, result)
  }

  /** Why a submission is refused, if it is: unknown names, else the first bad value, else all that is missing. */
  predicate Refuses(params: seq<Parameter>, raw: Values, parse: string -> Option<string>, fault: Fault) {
    match fault
    case Unknown(names) => names == raw.Keys - Names(params) && names != {}
    case BadValue(name, reason) =>
      && raw.Keys <= Names(params)
      && exists i :: 0 <= i < |params| && params[i].name == name && Supplied(raw, name)
           && Coerce(params[i], raw[name], parse) == Err(reason)
           && forall j :: 0 <= j < i ==> !Bad(params[j], raw, parse)
    case Missing(names) =>
      && raw.Keys <= Names(params) && names == Lack(params, raw) && names != {}
      && forall j :: 0 <= j < |params| ==> !Bad(params[j], raw, parse)
  }

  ghost predicate Answers(params: seq<Parameter>, raw: Values, parse: string -> Option<string>,
      answer: Result<Values, Fault>)
  {
    match answer
    case Ok(result) => Accepts(params, raw, parse, result)
    case Err(fault) => Refuses(params, raw, parse, fault)
  }

  lemma OneMore(params: seq<Parameter>, k: nat, raw: Values)
    requires k < |params|
    ensures Names(params[..k + 1]) == Names(params[..k]) + {params[k].name}
    ensures Lack(params[..k + 1], raw) ==
            Lack(params[..k], raw) + if Lacking(params[k], raw) then {params[k].name} else {}
  {
    assert params[..k + 1] == params[..k] + [params[k]];
  }

  predicate SoFar(params: seq<Parameter>, k: nat, raw: Values, parse: string -> Option<string>, result: Values)
    requires k <= |params|
  {
    && result.Keys <= Names(params[..k])
    && forall i :: 0 <= i < k ==> !Bad(params[i], raw, parse) && Contributes(params[i], raw, parse, result)
  }

  lemma SoFarOneMore(params: seq<Parameter>, k: nat, raw: Values, parse: string -> Option<string>, result: Values,
      more: Values)
    requires Registered(params) && k < |params| && SoFar(params, k, raw, parse, result)
    requires !Bad(params[k], raw, parse) && Contributes(params[k], raw, parse, more)
    requires more == result || (params[k].name in more && more == result[params[k].name := more[params[k].name]])
    ensures SoFar(params, k + 1, raw, parse, more)
  {
    OneMore(params, k, raw);
    forall i | 0 <= i < k ensures Contributes(params[i], raw, parse, more) {
      assert Contributes(params[i], raw, parse, result) && params[i].name != params[k].name;
    }
  }

  lemma NotYet(params: seq<Parameter>, k: nat, raw: Values, parse: string -> Option<string>, result: Values)
    requires Registered(params) && k < |params| && SoFar(params, k, raw, parse, result)
    ensures params[k].name !in result
  {}

  lemma FirstBad(params: seq<Parameter>, k: nat, raw: Values, parse: string -> Option<string>, result: Values,
      reason: Reason)
    requires k < |params| && SoFar(params, k, raw, parse, result) && raw.Keys <= Names(params)
    requires Supplied(raw, params[k].name) && Coerce(params[k], raw[params[k].name], parse) == Err(reason)
    ensures Refuses(params, raw, parse, BadValue(params[k].name, reason))
  {}

  /** `validate_params`. */
  method ValidateParams(params: seq<Parameter>, raw: Values, parse: string -> Option<string>)
    returns (answer: Result<Values, Fault>)
    requires Registered(params)
    ensures Answers(params, raw, parse, answer)
  {
    var unknown := raw.Keys - Names(params);
    if unknown != {} { return Err(Unknown(unknown)); }
    assert raw.Keys <= Names(params) by {
      assert forall name :: name in raw.Keys ==> name in Names(params) || name in unknown;
    }
    var result: Values := map[];
    var missing: set<string> := {};
    for k := 0 to |params|
      invariant SoFar(params, k, raw, parse, result) && missing == Lack(params[..k], raw)
    {
      var p, before := params[k], result;
      OneMore(params, k, raw);
      NotYet(params, k, raw, parse, result);
      if Supplied(raw, p.name) {
        match Coerce(p, raw[p.name], parse) {
          case Ok(v) => result := result[p.name := v];
          case Err(reason) =>
            FirstBad(params, k, raw, parse, result, reason);
            return Err(BadValue(p.name, reason));
        }
      } else if !p.default.Null? {
        result := result[p.name := p.default];
      } else if p.required {
        missing := missing + {p.name};
      }
      SoFarOneMore(params, k, raw, parse, before, result);
    }
    assert params[..|params|] == params;
    if missing != {} { return Err(Missing(missing)); }
    return Ok(result);
  }

  lemma SameValues(params: seq<Parameter>, raw: Values, parse: string -> Option<string>, a: Values, b: Values)
    requires Accepts(params, raw, parse, a) && Accepts(params, raw, parse, b)
    ensures a == b
  {
    forall name | name in Names(params) ensures name in a <==> name in b {
      var i :| 0 <= i < |params| && params[i].name == name;
      assert Contributes(params[i], raw, parse, a) && Contributes(params[i], raw, parse, b);
    }
    forall name | name in a && name in b ensures a[name] == b[name] {
      var i :| 0 <= i < |params| && params[i].name == name;
      assert Contributes(params[i], raw, parse, a) && Contributes(params[i], raw, parse, b);
    }
    assert a.Keys == b.Keys;
  }

  lemma NotBoth(params: seq<Parameter>, raw: Values, parse: string -> Option<string>, stored: Values, fault: Fault)
    requires Accepts(params, raw, parse, stored)
    ensures !Refuses(params, raw, parse, fault)
  {
    if fault.BadValue? {
      forall i | 0 <= i < |params| && params[i].name == fault.name && Supplied(raw, fault.name)
        ensures Coerce(params[i], raw[fault.name], parse) != Err(fault.reason)
      {
        assert Contributes(params[i], raw, parse, stored);
      }
    }
  }

  lemma SameFault(params: seq<Parameter>, raw: Values, parse: string -> Option<string>, a: Fault, b: Fault)
    requires Refuses(params, raw, parse, a) && Refuses(params, raw, parse, b)
    ensures a == b
  {
    if a.BadValue? && b.BadValue? {
      var i :| 0 <= i < |params| && params[i].name == a.name && Supplied(raw, a.name)
        && Coerce(params[i], raw[a.name], parse) == Err(a.reason)
        && forall j :: 0 <= j < i ==> !Bad(params[j], raw, parse);
      var k :| 0 <= k < |params| && params[k].name == b.name && Supplied(raw, b.name)
        && Coerce(params[k], raw[b.name], parse) == Err(b.reason)
        && forall j :: 0 <= j < k ==> !Bad(params[j], raw, parse);
      assert Bad(params[i], raw, parse) && Bad(params[k], raw, parse);
    }
  }

  /** There is exactly one answer to a submission, so `Answers` decides what `ValidateParams` returns. */
  lemma AnswerIsUnique(params: seq<Parameter>, raw: Values, parse: string -> Option<string>,
                       a: Result<Values, Fault>, b: Result<Values, Fault>)
    requires Answers(params, raw, parse, a) && Answers(params, raw, parse, b)
    ensures a == b
  {
    match (a, b)
    case (Ok(x), Ok(y)) => SameValues(params, raw, parse, x, y);
    case (Ok(x), Err(f)) => NotBoth(params, raw, parse, x, f);
    case (Err(f), Ok(x)) => NotBoth(params, raw, parse, x, f);
    case (Err(f), Err(g)) => SameFault(params, raw, parse, f, g);
  }

  // ---- resubmission ------------------------------------------------------------------------

  /** Given no value, the parameter falls back on a default that its own type would leave as it is, or on none. */
  predicate DefaultStays(p: Parameter, raw: Values, parse: string -> Option<string>) {
    !Supplied(raw, p.name) && !p.default.Null? ==> Coerce(p, p.default, parse) == Ok(p.default)
  }

  lemma ContributesAgain(p: Parameter, raw: Values, parse: string -> Option<string>, stored: Values)
    requires ReadsBack(parse) && Contributes(p, raw, parse, stored) && !Lacking(p, raw)
    ensures Contributes(p, stored, parse, stored) <==> DefaultStays(p, raw, parse)
    ensures !Lacking(p, stored)
  {
    if Supplied(raw, p.name) { CoerceAgain(p, raw[p.name], parse); }
  }

  lemma NoneLacking(params: seq<Parameter>, raw: Values)
    ensures Lack(params, raw) == {} <==> forall i :: 0 <= i < |params| ==> !Lacking(params[i], raw)
  {
    if Lack(params, raw) == {} {
      forall i | 0 <= i < |params| ensures !Lacking(params[i], raw) {
        var name := params[i].name;
        assert Lacking(params[i], raw) ==> name in Lack(params, raw);
      }
    }
  }

  /**
   Resubmitting what was stored stores the same again exactly when every default
   it fell back on has its declared type.
   */
  lemma ResubmissionKeepsIffDefaultsStay(params: seq<Parameter>, raw: Values, parse: string -> Option<string>,
      stored: Values)
    requires ReadsBack(parse) && Accepts(params, raw, parse, stored)
    ensures Accepts(params, stored, parse, stored) <==>
            forall i :: 0 <= i < |params| ==> DefaultStays(params[i], raw, parse)
  {
    NoneLacking(params, raw);
    NoneLacking(params, stored);
    forall i | 0 <= i < |params|
      ensures Contributes(params[i], stored, parse, stored) <==> DefaultStays(params[i], raw, parse)
      ensures !Lacking(params[i], stored)
    {
      ContributesAgain(params[i], raw, parse, stored);
    }
  }

  /** Whatever a resubmission stores, every later one stores too. */
  lemma SecondResubmissionIsStable(params: seq<Parameter>, raw: Values, parse: string -> Option<string>,
                                   stored: Values, again: Values)
    requires ReadsBack(parse) && Accepts(params, raw, parse, stored) && Accepts(params, stored, parse, again)
    ensures Accepts(params, again, parse, again)
  {
    NoneLacking(params, raw);
    forall i | 0 <= i < |params| ensures DefaultStays(params[i], stored, parse) {
      var p := params[i];
      assert Contributes(p, raw, parse, stored);
      if Supplied(raw, p.name) { CoerceAgain(p, raw[p.name], parse); }
    }
    ResubmissionKeepsIffDefaultsStay(params, stored, parse, again);
  }

  /** Defaults are not checked against their type, so a stored submission may be refused when it is submitted again. */
  lemma LooseDefaultIsRefusedLater(name: string, parse: string -> Option<string>)
    ensures var params := [Parameter(name, INTEGER, false, Str("many"), None)];
            var stored: Values := map[name := Str("many")];
            && Registered(params) && Accepts(params, map[], parse, stored)
            && Refuses(params, stored, parse, BadValue(name, NotAnInteger))
  {
    var p := Parameter(name, INTEGER, false, Str("many"), None);
    var params: seq<Parameter>, stored: Values := [p], map[name := Str("many")];
    CleanEndsStay("many");
    assert Coerce(p, p.default, parse) == Err(NotAnInteger);
    assert params[0] == p && Names(params) == {name};
  }

  /** Nor need it keep its value: text is stored the second time where a number was the first. */
  lemma LooseDefaultChangesLater(name: string, parse: string -> Option<string>)
    ensures var params := [Parameter(name, STRING, false, Int(7), None)];
            && Registered(params) && Accepts(params, map[], parse, map[name := Int(7)])
            && Accepts(params, map[name := Int(7)], parse, map[name := Str("7")])
  {
    var p := Parameter(name, STRING, false, Int(7), None);
    var params := [p];
    assert PrintInt(7) == "7";
    assert params[0] == p && Names(params) == {name};
  }

  /** A required parameter of a registered manifest is never left to a default. */
  lemma RequiredIsSupplied(params: seq<Parameter>, raw: Values, parse: string -> Option<string>, stored: Values, i: nat)
    requires Registered(params) && Accepts(params, raw, parse, stored) && i < |params| && params[i].required
    ensures Supplied(raw, params[i].name)
  {
    NoneLacking(params, raw);
    assert CheckParameter(params[i]).None?;
  }
}
