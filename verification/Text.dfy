/** The white space Python's `str.strip` removes. */
module Text {
  /** `str.isspace` of one character. */
  predicate IsSpace(c: char) {
    var n := c as int;
    || 0x09 <= n <= 0x0d || 0x1c <= n <= 0x20 || n == 0x85 || n == 0xa0 || n == 0x1680
    || 0x2000 <= n <= 0x200a || n == 0x2028 || n == 0x2029 || n == 0x202f || n == 0x205f || n == 0x3000
  }

  function StripFront(s: string): string {
    if s != "" && IsSpace(s[0]) then StripFront(s[1..]) else s
  }

  function StripBack(s: string): string {
    if s != "" && IsSpace(s[|s| - 1]) then StripBack(s[..|s| - 1]) else s
  }

  function Strip(s: string): string {
    StripBack(StripFront(s))
  }

  lemma {:induction false} StripFrontFacts(s: string)
    ensures |StripFront(s)| <= |s| && StripFront(s) == s[|s| - |StripFront(s)|..]
    ensures StripFront(s) != "" ==> !IsSpace(StripFront(s)[0])
    ensures forall i :: 0 <= i < |s| - |StripFront(s)| ==> IsSpace(s[i])
  {
    if s != "" && IsSpace(s[0]) {
      StripFrontFacts(s[1..]);
      assert forall i :: 1 <= i < |s| ==> s[i] == s[1..][i - 1];
    }
  }

  lemma {:induction false} StripBackFacts(s: string)
    ensures StripBack(s) <= s
    ensures StripBack(s) != "" ==> !IsSpace(StripBack(s)[|StripBack(s)| - 1])
    ensures forall i :: |StripBack(s)| <= i < |s| ==> IsSpace(s[i])
  {
    if s != "" && IsSpace(s[|s| - 1]) { StripBackFacts(s[..|s| - 1]); }
  }

  lemma CleanEndsStay(s: string)
    requires s != "" && !IsSpace(s[0]) && !IsSpace(s[|s| - 1])
    ensures Strip(s) == s
  {}

  /** Stripping takes the white space off both ends and nothing else. */
  lemma StripTakesOnlySpace(s: string) returns (front: string, back: string)
    ensures s == front + Strip(s) + back
    ensures (forall i :: 0 <= i < |front| ==> IsSpace(front[i])) && (forall i :: 0 <= i < |back| ==> IsSpace(back[i]))
    ensures Strip(s) != "" ==> !IsSpace(Strip(s)[0]) && !IsSpace(Strip(s)[|Strip(s)| - 1])
  {
    var rest := StripFront(s);
    StripFrontFacts(s);
    StripBackFacts(rest);
    front, back := s[..|s| - |rest|], rest[|Strip(s)|..];
  }
}
