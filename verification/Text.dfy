/** String operations shared by the models. */
module Text {

  /** Replaces the occurrences of `pat`, found left to right without overlap. */
  function ReplaceAll(s: string, pat: string, sub: string): string
    requires pat != ""
  {
    if s == "" then ""
    else if pat <= s then sub + ReplaceAll(s[|pat|..], pat, sub)
    else [s[0]] + ReplaceAll(s[1..], pat, sub)
  }

  function TrimStart(s: string, c: char): string {
    if s != "" && s[0] == c then TrimStart(s[1..], c) else s
  }

  function TrimEnd(s: string, c: char): string {
    if s != "" && s[|s| - 1] == c then TrimEnd(s[..|s| - 1], c) else s
  }

  function TrimMatches(s: string, c: char): string {
    TrimEnd(TrimStart(s, c), c)
  }

  ghost predicate Only(s: string, c: char) {
    forall i :: 0 <= i < |s| ==> s[i] == c
  }

  lemma {:induction false} TrimStartSplits(s: string, c: char) returns (front: string)
    ensures Only(front, c) && s == front + TrimStart(s, c)
    ensures TrimStart(s, c) != "" ==> TrimStart(s, c)[0] != c
  {
    front := "";
    if s != "" && s[0] == c {
      front := TrimStartSplits(s[1..], c);
      front := [c] + front;
    }
  }

  lemma {:induction false} TrimEndSplits(s: string, c: char) returns (back: string)
    ensures Only(back, c) && s == TrimEnd(s, c) + back
    ensures TrimEnd(s, c) != "" ==> TrimEnd(s, c)[|TrimEnd(s, c)| - 1] != c
  {
    back := "";
    if s != "" && s[|s| - 1] == c {
      back := TrimEndSplits(s[..|s| - 1], c);
      back := back + [c];
    }
  }

  /** Trimming takes off all of the character at both ends and nothing else. */
  lemma TrimMatchesSplits(s: string, c: char) returns (front: string, back: string)
    ensures var r := TrimMatches(s, c);
            && Only(front, c) && Only(back, c) && s == front + r + back
            && (r != "" ==> r[0] != c && r[|r| - 1] != c)
  {
    front := TrimStartSplits(s, c);
    back := TrimEndSplits(TrimStart(s, c), c);
  }
}
