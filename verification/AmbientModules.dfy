/** The regular expression compiled from ambient module names, and what it means. */
module AmbientModules {
  import opened Basics
  import opened Text

  /** The characters that the escaping function of the regex library escapes. */
  predicate IsMeta(c: char) {
    || c == '\\' || c == '.' || c == '+' || c == '*' || c == '?' || c == '(' || c == ')' || c == '|' || c == '['
    || c == ']' || c == '{' || c == '}' || c == '^' || c == '$' || c == '#' || c == '&' || c == '-' || c == '~'
  }

  function EscapeChar(c: char): string {
    if IsMeta(c) then ['\\', c] else [c]
  }

  function Escape(s: string): string {
    if s == "" then "" else EscapeChar(s[0]) + Escape(s[1..])
  }

  /** Every escaped star, left to right, replaced by a run of anything. */
  function StarsToRuns(s: string): string {
    ReplaceAll(s, "\\*", ".*")
  }

  /** The regex of one quoted name. */
  function Part(name: string): string {
    StarsToRuns(Escape(TrimMatches(name, '"')))
  }

  function Parts(names: seq<string>): string
    requires names != []
  {
    Part(names[0]) + if |names| == 1 then "" else "|" + Parts(names[1..])
  }

  function RegexOf(names: seq<string>): string
    requires names != []
  {
    "^(" + Parts(names) + ")$"
  }

  method ToRegexString(names: seq<string>) returns (regex: string)
    requires names != []
    ensures regex == RegexOf(names)
  {
    regex := "^(";
    var last := |names| - 1;
    for i := 0 to |names|
      invariant if i < |names| then regex + Parts(names[i..]) == "^(" + Parts(names) else regex == "^(" + Parts(names)
    {
      ghost var before, rest := regex, names[i..];
      var part := Part(names[i]);
      regex := regex + part;
      if i != last {
        regex := regex + "|";
        assert rest[1..] == names[i + 1..];
        assert before + (part + ("|" + Parts(names[i + 1..]))) == regex + Parts(names[i + 1..]);
      } else {
        assert before + (part + "") == regex;
      }
    }
    regex := regex + ")$";
  }

  // ---------------------------------------------------------------------------
  // Reading the string back: literals, `.*` and top-level alternatives
  // ---------------------------------------------------------------------------

  datatype Token = Literal(c: char) | AnyRun

  /** Characters that do not stand for themselves in a regex. */
  predicate IsSyntax(c: char) {
    || c == '\\' || c == '.' || c == '+' || c == '*' || c == '?' || c == '(' || c == ')' || c == '|' || c == '['
    || c == '{' || c == '^' || c == '$'
  }

  /** Characters that a backslash makes stand for themselves: ASCII ones, but for
      letters, digits and angle brackets. */
  predicate IsEscapable(c: char) {
    && (c as int) < 128 && c != '<' && c != '>'
    && !('0' <= c <= '9') && !('A' <= c <= 'Z') && !('a' <= c <= 'z')
  }

  /** The token at the head of `s` and its length; None when there is no such token. */
  function ReadToken(s: string): Option<(Token, nat)>
    requires s != ""
  {
    if s[0] == '\\' then (if |s| >= 2 && IsEscapable(s[1]) then Some((Literal(s[1]), 2)) else None)
    else if s[0] == '.' then (if |s| >= 2 && s[1] == '*' then Some((AnyRun, 2)) else None)
    else if IsSyntax(s[0]) then None
    else Some((Literal(s[0]), 1))
  }

  /** Puts tokens in front of the first alternative. */
  function OntoFirst(ts: seq<Token>, rest: Option<seq<seq<Token>>>): (r: Option<seq<seq<Token>>>)
    ensures r.Some? ==> r.value != []
  {
    if rest.None? || rest.value == [] then None else Some([ts + rest.value[0]] + rest.value[1..])
  }

  function ReadAlternatives(s: string): (r: Option<seq<seq<Token>>>)
    ensures r.Some? ==> r.value != []
    decreases |s|
  {
    if s == "" then Some([[]])
    else if s[0] == '|' then
      var rest := ReadAlternatives(s[1..]);
      if rest.None? then None else Some([[]] + rest.value)
    else
      var token := ReadToken(s);
      if token.None? then None else
      var rest := ReadAlternatives(s[token.value.1..]);
      OntoFirst([token.value.0], rest)
  }

  function ReadRegex(r: string): Option<seq<seq<Token>>> {
    if |r| >= 4 && "^(" <= r && r[|r| - 2..] == ")$" then ReadAlternatives(r[2..|r| - 2]) else None
  }

  /** Whether the tokens match the whole of `s`; a run does not cross a newline. */
  predicate TokensMatch(ts: seq<Token>, s: string)
    decreases |ts|
  {
    if ts == [] then s == "" else
    match ts[0]
    case Literal(c) => s != "" && s[0] == c && TokensMatch(ts[1..], s[1..])
    case AnyRun => exists k :: 0 <= k <= |s| && '\n' !in s[..k] && TokensMatch(ts[1..], s[k..])
  }

  predicate RegexMatches(r: string, s: string) {
    var alternatives := ReadRegex(r);
    alternatives.Some? && exists i :: 0 <= i < |alternatives.value| && TokensMatch(alternatives.value[i], s)
  }

  // ---------------------------------------------------------------------------
  // What a wildcard name means: the stars filled in, one text each
  // ---------------------------------------------------------------------------

  function Stars(name: string): nat {
    if name == "" then 0 else Stars(name[1..]) + if name[0] == '*' then 1 else 0
  }

  function Fill(name: string, gaps: seq<string>): string
    requires |gaps| == Stars(name)
  {
    if name == "" then ""
    else if name[0] == '*' then gaps[0] + Fill(name[1..], gaps[1..])
    else [name[0]] + Fill(name[1..], gaps)
  }

  ghost predicate Fills(name: string, gaps: seq<string>, s: string) {
    |gaps| == Stars(name) && Fill(name, gaps) == s
  }

  ghost predicate OneLine(gaps: seq<string>) {
    forall i :: 0 <= i < |gaps| ==> '\n' !in gaps[i]
  }

  ghost predicate WildcardMatches(name: string, s: string) {
    exists gaps :: Fills(name, gaps, s)
  }

  ghost predicate WildcardMatchesInLine(name: string, s: string) {
    exists gaps :: Fills(name, gaps, s) && OneLine(gaps)
  }

  function Pattern(name: string): seq<Token> {
    if name == "" then [] else [if name[0] == '*' then AnyRun else Literal(name[0])] + Pattern(name[1..])
  }

  // ---------------------------------------------------------------------------
  // The string reads back as the patterns of the names
  // ---------------------------------------------------------------------------

  function EncodeToken(t: Token): string {
    if t.AnyRun? then ".*" else EscapeChar(t.c)
  }

  function Encode(ts: seq<Token>): string {
    if ts == [] then "" else EncodeToken(ts[0]) + Encode(ts[1..])
  }

  lemma NoLeadingStar(s: string)
    ensures Escape(s) != "" ==> Escape(s)[0] != '*'
  {
  }

  lemma ReplaceAtPattern(pat: string, sub: string, rest: string)
    requires pat != ""
    ensures ReplaceAll(pat + rest, pat, sub) == sub + ReplaceAll(rest, pat, sub)
  {
    assert (pat + rest)[|pat|..] == rest;
  }

  lemma ReplaceAtStar(rest: string)
    ensures StarsToRuns("\\*" + rest) == ".*" + StarsToRuns(rest)
  {
    ReplaceAtPattern("\\*", ".*", rest);
  }

  lemma ReplaceElsewhere(c: char, rest: string)
    requires c != '\\' || rest == "" || rest[0] != '*'
    ensures StarsToRuns([c] + rest) == [c] + StarsToRuns(rest)
  {
    var s, pat := [c] + rest, "\\*";
    assert s[1..] == rest;
    if c != '\\' {
      assert s[0] != pat[0];
    } else if rest != "" {
      assert s[1] != pat[1];
    }
  }

  lemma ReplaceAfterEscape(c: char, rest: string)
    requires c != '*' && (rest == "" || rest[0] != '*')
    ensures StarsToRuns(['\\', c] + rest) == ['\\', c] + StarsToRuns(rest)
  {
    var tail := [c] + rest;
    ReplaceElsewhere('\\', tail);
    ReplaceElsewhere(c, rest);
    assert ['\\', c] + rest == ['\\'] + tail;
    assert ['\\'] + ([c] + StarsToRuns(rest)) == ['\\', c] + StarsToRuns(rest);
  }

  lemma ReplaceAtChar(c: char, rest: string)
    requires rest == "" || rest[0] != '*'
    ensures StarsToRuns(EscapeChar(c) + rest) ==
            (if c == '*' then ".*" else EscapeChar(c)) + StarsToRuns(rest)
  {
    if c == '*' {
      assert EscapeChar(c) == "\\*";
      ReplaceAtStar(rest);
    } else if IsMeta(c) {
      ReplaceAfterEscape(c, rest);
    } else {
      ReplaceElsewhere(c, rest);
    }
  }

  /** Replacing the escaped stars turns exactly the stars of the name into runs. */
  lemma {:induction false} EscapedStarsBecomeRuns(s: string)
    ensures StarsToRuns(Escape(s)) == Encode(Pattern(s))
  {
    if s != "" {
      EscapedStarsBecomeRuns(s[1..]);
      NoLeadingStar(s[1..]);
      ReplaceAtChar(s[0], Escape(s[1..]));
      assert Pattern(s)[1..] == Pattern(s[1..]);
    }
  }

  lemma OntoFirstTwice(t: Token, ts: seq<Token>, rest: Option<seq<seq<Token>>>)
    ensures OntoFirst([t], OntoFirst(ts, rest)) == OntoFirst([t] + ts, rest)
  {
    if rest.Some? && rest.value != [] {
      assert [t] + (ts + rest.value[0]) == [t] + ts + rest.value[0];
      assert ([ts + rest.value[0]] + rest.value[1..])[1..] == rest.value[1..];
    }
  }

  /** Reading an encoded pattern, then whatever starts the next alternative. */
  lemma {:induction false} ReadEncoded(ts: seq<Token>, after: string)
    requires forall t :: t in ts ==> t != Literal('*')
    requires after == "" || after[0] == '|'
    ensures ReadAlternatives(Encode(ts) + after) == OntoFirst(ts, ReadAlternatives(after))
    decreases |ts|
  {
    if ts == [] {
      OntoFirstNothing(after);
    } else {
      assert ts[0] in ts && forall x :: x in ts[1..] ==> x in ts;
      ReadEncoded(ts[1..], after);
      ReadTokenThen(ts[0], Encode(ts[1..]), after);
      OntoFirstTwice(ts[0], ts[1..], ReadAlternatives(after));
      assert [ts[0]] + ts[1..] == ts;
    }
  }

  lemma OntoFirstNothing(after: string)
    ensures ReadAlternatives("" + after) == OntoFirst([], ReadAlternatives(after))
  {
    var rest := ReadAlternatives(after);
    assert "" + after == after;
    if rest.Some? {
      assert [] + rest.value[0] == rest.value[0];
      assert [[] + rest.value[0]] + rest.value[1..] == rest.value;
    }
  }

  lemma ReadTokenThen(t: Token, more: string, after: string)
    requires t != Literal('*')
    ensures ReadAlternatives(EncodeToken(t) + more + after) == OntoFirst([t], ReadAlternatives(more + after))
  {
    var s := EncodeToken(t) + (more + after);
    assert EncodeToken(t) + more + after == s;
    TokenAtHead(t, more + after);
    ReadOneToken(s, t, more + after);
  }

  lemma ReadOneToken(s: string, t: Token, tail: string)
    requires s != "" && s[0] != '|' && ReadToken(s).Some?
    requires var (t', n) := ReadToken(s).value; t' == t && n <= |s| && s[n..] == tail
    ensures ReadAlternatives(s) == OntoFirst([t], ReadAlternatives(tail))
  {
  }

  lemma TokenAtHead(t: Token, tail: string)
    requires t != Literal('*')
    ensures var s, n := EncodeToken(t) + tail, |EncodeToken(t)|;
            n > 0 && s[0] != '|' && ReadToken(s) == Some((t, n)) && s[n..] == tail
  {
    var s, e := EncodeToken(t) + tail, EncodeToken(t);
    assert s[0] == e[0] && (|e| == 2 ==> s[1] == e[1]);
  }

  function Patterns(names: seq<string>): seq<seq<Token>> {
    if names == [] then [] else [Pattern(TrimMatches(names[0], '"'))] + Patterns(names[1..])
  }

  lemma {:induction false} PatternHasNoStarLiteral(name: string)
    ensures forall t :: t in Pattern(name) ==> t != Literal('*')
  {
    if name != "" {
      PatternHasNoStarLiteral(name[1..]);
    }
  }

  lemma {:induction false} PartsReadBack(names: seq<string>)
    requires names != []
    ensures ReadAlternatives(Parts(names)) == Some(Patterns(names))
    decreases |names|
  {
    var name := TrimMatches(names[0], '"');
    EscapedStarsBecomeRuns(name);
    PatternHasNoStarLiteral(name);
    assert Pattern(name) + [] == Pattern(name);
    if |names| == 1 {
      ReadEncoded(Pattern(name), "");
      assert Parts(names) == Encode(Pattern(name)) + "";
      assert ReadAlternatives("") == Some([[]]);
      assert [Pattern(name)] + [[]][1..] == [Pattern(name)];
      assert Patterns(names[1..]) == [];
    } else {
      var after := "|" + Parts(names[1..]);
      assert after[1..] == Parts(names[1..]);
      PartsReadBack(names[1..]);
      assert ReadAlternatives(after) == Some([[]] + Patterns(names[1..]));
      ReadEncoded(Pattern(name), after);
      assert ([[]] + Patterns(names[1..]))[1..] == Patterns(names[1..]);
    }
  }

  /** The compiled string is a well-formed regex whose alternatives are the
      patterns of the names, in order. */
  lemma RegexReadsBack(names: seq<string>)
    requires names != []
    ensures ReadRegex(RegexOf(names)) == Some(Patterns(names))
  {
    PartsReadBack(names);
    var r := RegexOf(names);
    assert r[2..|r| - 2] == Parts(names) && r[|r| - 2..] == ")$";
  }

  // ---------------------------------------------------------------------------
  // A pattern matches what its name means
  // ---------------------------------------------------------------------------

  lemma {:induction false} MatchGivesGaps(name: string, s: string) returns (gaps: seq<string>)
    requires TokensMatch(Pattern(name), s)
    ensures Fills(name, gaps, s) && OneLine(gaps)
    decreases |name|
  {
    if name == "" {
      gaps := [];
    } else {
      var ts := Pattern(name);
      assert ts[1..] == Pattern(name[1..]);
      if name[0] == '*' {
        var k :| 0 <= k <= |s| && '\n' !in s[..k] && TokensMatch(ts[1..], s[k..]);
        var rest := MatchGivesGaps(name[1..], s[k..]);
        gaps := [s[..k]] + rest;
        assert gaps[1..] == rest && s[..k] + s[k..] == s;
      } else {
        gaps := MatchGivesGaps(name[1..], s[1..]);
        assert [s[0]] + s[1..] == s;
      }
    }
  }

  lemma {:induction false} GapsGiveMatch(name: string, gaps: seq<string>)
    requires |gaps| == Stars(name) && OneLine(gaps)
    ensures TokensMatch(Pattern(name), Fill(name, gaps))
    decreases |name|
  {
    if name != "" {
      var ts, s := Pattern(name), Fill(name, gaps);
      assert ts[1..] == Pattern(name[1..]);
      if name[0] == '*' {
        GapsGiveMatch(name[1..], gaps[1..]);
        var k := |gaps[0]|;
        assert s[..k] == gaps[0] && s[k..] == Fill(name[1..], gaps[1..]);
      } else {
        GapsGiveMatch(name[1..], gaps);
        assert s[0] == name[0] && s[1..] == Fill(name[1..], gaps);
      }
    }
  }

  lemma PatternMeansName(name: string, s: string)
    ensures TokensMatch(Pattern(name), s) <==> WildcardMatchesInLine(name, s)
  {
    if TokensMatch(Pattern(name), s) {
      var gaps := MatchGivesGaps(name, s);
    }
    if WildcardMatchesInLine(name, s) {
      var gaps :| Fills(name, gaps, s) && OneLine(gaps);
      GapsGiveMatch(name, gaps);
    }
  }

  lemma {:induction false} GapsComeFromText(name: string, gaps: seq<string>)
    requires |gaps| == Stars(name) && '\n' !in Fill(name, gaps)
    ensures OneLine(gaps)
    decreases |name|
  {
    if name != "" {
      var s := Fill(name, gaps);
      if name[0] == '*' {
        var rest := Fill(name[1..], gaps[1..]);
        assert forall c :: c in gaps[0] || c in rest ==> c in s;
        GapsComeFromText(name[1..], gaps[1..]);
        assert gaps == [gaps[0]] + gaps[1..];
      } else {
        assert forall c :: c in Fill(name[1..], gaps) ==> c in s;
        GapsComeFromText(name[1..], gaps);
      }
    }
  }

  lemma {:induction false} PatternsAt(names: seq<string>, i: nat)
    requires i < |names|
    ensures |Patterns(names)| == |names| && Patterns(names)[i] == Pattern(TrimMatches(names[i], '"'))
  {
    if i > 0 {
      PatternsAt(names[1..], i - 1);
    } else if |names| > 1 {
      PatternsAt(names[1..], 0);
    }
  }

  /** For every text, the regex accepts it exactly when some trimmed name matches
      with stars that stay on one line. */
  lemma RegexMeansNamesInLine(names: seq<string>, s: string)
    requires names != []
    ensures RegexMatches(RegexOf(names), s) <==>
            exists i :: 0 <= i < |names| && WildcardMatchesInLine(TrimMatches(names[i], '"'), s)
  {
    RegexReadsBack(names);
    var ps := Patterns(names);
    PatternsAt(names, 0);
    forall i | 0 <= i < |names|
      ensures TokensMatch(ps[i], s) <==> WildcardMatchesInLine(TrimMatches(names[i], '"'), s)
    {
      PatternsAt(names, i);
      PatternMeansName(TrimMatches(names[i], '"'), s);
    }
  }

  /** On a specifier without newlines, that is plain wildcard matching. */
  lemma RegexMeansNames(names: seq<string>, s: string)
    requires names != [] && '\n' !in s
    ensures RegexMatches(RegexOf(names), s) <==>
            exists i :: 0 <= i < |names| && WildcardMatches(TrimMatches(names[i], '"'), s)
  {
    RegexMeansNamesInLine(names, s);
    forall i | 0 <= i < |names|
      ensures WildcardMatches(TrimMatches(names[i], '"'), s) <==>
              WildcardMatchesInLine(TrimMatches(names[i], '"'), s)
    {
      var name := TrimMatches(names[i], '"');
      if WildcardMatches(name, s) {
        var gaps :| Fills(name, gaps, s);
        GapsComeFromText(name, gaps);
      }
    }
  }
}
