/** Stripping, splitting and casing of texts, over the ASCII letters. */
module TextTools {

  /** The characters `str.isspace` accepts. */
  predicate IsSpace(c: char) {
    var n := c as int;
    9 <= n <= 13 || 28 <= n <= 32 || n == 0x85 || n == 0xA0 || n == 0x1680 || 0x2000 <= n <= 0x200A
    || n == 0x2028 || n == 0x2029 || n == 0x202F || n == 0x205F || n == 0x3000
  }

  function StripLeft(s: string): string {
    if s != "" && IsSpace(s[0]) then StripLeft(s[1..]) else s
  }

  function StripRight(s: string): string {
    if s != "" && IsSpace(s[|s| - 1]) then StripRight(s[..|s| - 1]) else s
  }

  function Strip(s: string): string {
    StripRight(StripLeft(s))
  }

  /** Nothing to strip. */
  predicate Trim(s: string) {
    s != "" ==> !IsSpace(s[0]) && !IsSpace(s[|s| - 1])
  }

  lemma {:induction false} StripRightIs(s: string)
    ensures StripRight(s) <= s
    ensures StripRight(s) != "" ==> !IsSpace(StripRight(s)[|StripRight(s)| - 1])
    decreases |s|
  {
    if s != "" && IsSpace(s[|s| - 1]) {
      StripRightIs(s[..|s| - 1]);
    }
  }

  lemma {:induction false} StripLeftIs(s: string)
    ensures StripLeft(s) != "" ==> !IsSpace(StripLeft(s)[0])
  {
    if s != "" && IsSpace(s[0]) {
      StripLeftIs(s[1..]);
    }
  }

  lemma TrimStays(s: string)
    requires Trim(s)
    ensures Strip(s) == s
  {
  }

  lemma StripIsTrim(s: string)
    ensures Trim(Strip(s)) && Strip(Strip(s)) == Strip(s)
  {
    StripLeftIs(s);
    StripRightIs(StripLeft(s));
    TrimStays(Strip(s));
  }

  predicate IsUpperLetter(c: char) {
    'A' <= c <= 'Z'
  }

  predicate IsLowerLetter(c: char) {
    'a' <= c <= 'z'
  }

  function Lower(s: string): (r: string)
    ensures |r| == |s| && forall i | 0 <= i < |s| :: r[i] == if IsUpperLetter(s[i]) then (s[i] as int + 32) as char
            else s[i]
  {
    seq(|s|, i requires 0 <= i < |s| => if IsUpperLetter(s[i]) then (s[i] as int + 32) as char else s[i])
  }

  function Upper(s: string): (r: string)
    ensures |r| == |s| && forall i | 0 <= i < |s| :: r[i] == if IsLowerLetter(s[i]) then (s[i] as int - 32) as char
            else s[i]
  {
    seq(|s|, i requires 0 <= i < |s| => if IsLowerLetter(s[i]) then (s[i] as int - 32) as char else s[i])
  }

  predicate IsSeparator(c: char) {
    c == '_' || c == '-' || IsSpace(c)
  }

  /** The words between runs of separators; `word` is the one being read. */
  function WordsFrom(s: string, word: string): seq<string> {
    if s == "" then if word == "" then [] else [word]
    else if IsSeparator(s[0]) then (if word == "" then [] else [word]) + WordsFrom(s[1..], "")
    else WordsFrom(s[1..], word + [s[0]])
  }

  predicate NoSeparator(s: string) {
    forall i | 0 <= i < |s| :: !IsSeparator(s[i])
  }

  predicate OnlySeparators(s: string) {
    forall i | 0 <= i < |s| :: IsSeparator(s[i])
  }

  lemma {:induction false} WordsAre(s: string, word: string)
    requires NoSeparator(word)
    ensures var ws := WordsFrom(s, word); forall i | 0 <= i < |ws| :: ws[i] != "" && NoSeparator(ws[i])
    ensures WordsFrom(s, word) == [] <==> word == "" && OnlySeparators(s)
    decreases |s|
  {
    if s != "" {
      assert s == [s[0]] + s[1..];
      if IsSeparator(s[0]) {
        WordsAre(s[1..], "");
      } else {
        WordsAre(s[1..], word + [s[0]]);
      }
    }
  }

  function JoinWith(parts: seq<string>, between: string): string {
    if parts == [] then "" else if |parts| == 1 then parts[0] else parts[0] + between + JoinWith(parts[1..], between)
  }

  lemma {:induction false} JoinIsTrim(parts: seq<string>, between: string)
    requires forall i | 0 <= i < |parts| :: parts[i] != "" && Trim(parts[i])
    ensures Trim(JoinWith(parts, between)) && (JoinWith(parts, between) == "" <==> parts == [])
  {
    if |parts| > 1 {
      JoinIsTrim(parts[1..], between);
      var rest := JoinWith(parts[1..], between);
      var all := parts[0] + between + rest;
      assert all[0] == parts[0][0] && all[|all| - 1] == rest[|rest| - 1];
    }
  }
}
