/** The scanner that collects the comments at the head of a script, and the
    grammar of script heads it reads. */
module LeadingComments {
  import opened Basics

  /** The Unicode White_Space property. */
  predicate IsWhitespace(c: char) {
    var n := c as int;
    || 0x9 <= n <= 0xD || n == 0x20 || n == 0x85 || n == 0xA0 || n == 0x1680
    || 0x2000 <= n <= 0x200A || n == 0x2028 || n == 0x2029 || n == 0x202F || n == 0x205F || n == 0x3000
  }

  /** The characters with the Unicode property White_Space. */
  const WHITE_SPACE :=
    "\U{9}\U{A}\U{B}\U{C}\U{D}\U{20}\U{85}\U{A0}\U{1680}\U{2000}\U{2001}\U{2002}\U{2003}\U{2004}\U{2005}\U{2006}" +
    "\U{2007}\U{2008}\U{2009}\U{200A}\U{2028}\U{2029}\U{202F}\U{205F}\U{3000}"

  lemma WhitespaceIsUnicode(c: char)
    ensures IsWhitespace(c) <==> c in WHITE_SPACE
  {
    if 0x9 <= c as int <= 0xD {
      assert c == WHITE_SPACE[c as int - 0x9];
    } else if 0x2000 <= c as int <= 0x200A {
      assert c == WHITE_SPACE[9 + c as int - 0x2000];
    }
    assert WHITE_SPACE[5] == ' ' && WHITE_SPACE[6] == '\U{85}' && WHITE_SPACE[7] == '\U{A0}' && WHITE_SPACE[8] == '\U{1680}';
    assert WHITE_SPACE[20] == '\U{2028}' && WHITE_SPACE[21] == '\U{2029}' && WHITE_SPACE[22] == '\U{202F}';
    assert WHITE_SPACE[23] == '\U{205F}' && WHITE_SPACE[24] == '\U{3000}';
  }

  // ---------------------------------------------------------------------------
  // The scan as a function
  // ---------------------------------------------------------------------------

  function SkipSpace(s: string): (r: string)
    ensures |r| <= |s|
  {
    if s != "" && IsWhitespace(s[0]) then SkipSpace(s[1..]) else s
  }

  function LineText(s: string): string {
    if s == "" || s[0] == '\n' then "" else [s[0]] + LineText(s[1..])
  }

  /** What follows the first newline. */
  function AfterLine(s: string): (r: string)
    ensures |r| <= |s|
  {
    if s == "" then "" else if s[0] == '\n' then s[1..] else AfterLine(s[1..])
  }

  predicate Closes(s: string) {
    |s| >= 2 && s[0] == '*' && s[1] == '/'
  }

  function BlockText(s: string): string {
    if s == "" || Closes(s) then "" else [s[0]] + BlockText(s[1..])
  }

  /** What follows the first end-of-block mark. */
  function AfterBlock(s: string): (r: string)
    ensures |r| <= |s|
  {
    if s == "" then "" else if Closes(s) then s[2..] else AfterBlock(s[1..])
  }

  predicate StartsComment(t: string) {
    |t| >= 2 && t[0] == '/' && (t[1] == '/' || t[1] == '*')
  }

  function ScanComments(s: string): seq<string>
    decreases |s|
  {
    var t := SkipSpace(s);
    if |t| < 2 || t[0] != '/' then []
    else if t[1] == '/' then [LineText(t[2..])] + ScanComments(AfterLine(t[2..]))
    else if t[1] == '*' then [BlockText(t[2..])] + ScanComments(AfterBlock(t[2..]))
    else []
  }

  function Scan(s: string): seq<string> {
    ScanComments(if "#!" <= s then AfterLine(s) else s)
  }

  /** The scanner itself: one pass over the characters with a single position. */
  method GetLeadingComments(text: string) returns (results: seq<string>)
    ensures results == Scan(text)
  {
    var pos := 0;
    if "#!" <= text {
      pos := SkipLine(text, 0);
    } else {
      assert text[0..] == text;
    }
    results := [];
    while pos < |text|
      invariant 0 <= pos <= |text|
      invariant results + ScanComments(text[pos..]) == Scan(text)
      decreases |text| - pos
    {
      var found, comment, next := ReadComment(text, pos);
      if !found {
        break;
      }
      Regroup(results, [comment], ScanComments(text[next..]));
      results, pos := results + [comment], next;
    }
    assert pos == |text| ==> text[pos..] == "";
  }

  /** What one comment, or none, at the head of `t` contributes to the scan. */
  lemma ScanOne(s: string, t: string)
    requires t == SkipSpace(s)
    ensures ScanComments(s) ==
            if !StartsComment(t) then []
            else if t[1] == '/' then [LineText(t[2..])] + ScanComments(AfterLine(t[2..]))
            else [BlockText(t[2..])] + ScanComments(AfterBlock(t[2..]))
  {
  }

  /** One round of the loop: whitespace, then a comment if there is one. */
  method ReadComment(text: string, from: nat) returns (found: bool, comment: string, next: nat)
    requires from < |text|
    ensures found ==> from < next <= |text|
    ensures ScanComments(text[from..]) == if found then [comment] + ScanComments(text[next..]) else []
  {
    var pos := SkipWhitespace(text, from);
    ScanOne(text[from..], text[pos..]);
    comment, next, found := "", pos, false;
    if pos + 1 < |text| && text[pos] == '/' {
      assert text[pos..][2..] == text[pos + 2..];
      if text[pos + 1] == '/' {
        comment, next := ReadLine(text, pos + 2);
        found := true;
      } else if text[pos + 1] == '*' {
        comment, next := ReadBlock(text, pos + 2);
        found := true;
      }
    }
  }

  method SkipWhitespace(text: string, from: nat) returns (pos: nat)
    requires from <= |text|
    ensures from <= pos <= |text| && text[pos..] == SkipSpace(text[from..])
  {
    pos := from;
    while pos < |text| && IsWhitespace(text[pos])
      invariant from <= pos <= |text|
      invariant SkipSpace(text[pos..]) == SkipSpace(text[from..])
    {
      assert text[pos..][1..] == text[pos + 1..];
      pos := pos + 1;
    }
  }

  /** The position after the first newline at or after `from`. */
  method SkipLine(text: string, from: nat) returns (pos: nat)
    requires from <= |text|
    ensures from <= pos <= |text| && text[pos..] == AfterLine(text[from..])
  {
    var comment;
    comment, pos := ReadLine(text, from);
  }

  method ReadLine(text: string, from: nat) returns (comment: string, pos: nat)
    requires from <= |text|
    ensures from <= pos <= |text| && comment == LineText(text[from..]) && text[pos..] == AfterLine(text[from..])
  {
    comment, pos := "", from;
    while pos < |text|
      invariant from <= pos <= |text|
      invariant comment + LineText(text[pos..]) == LineText(text[from..])
      invariant AfterLine(text[pos..]) == AfterLine(text[from..])
    {
      var c := text[pos];
      assert text[pos..][0] == c && text[pos..][1..] == text[pos + 1..];
      pos := pos + 1;
      if c == '\n' {
        return;
      }
      comment := comment + [c];
    }
  }

  lemma BlockAt(text: string, pos: nat)
    requires pos < |text|
    ensures var closes := text[pos] == '*' && pos + 1 < |text| && text[pos + 1] == '/';
            && (closes ==> BlockText(text[pos..]) == "" && AfterBlock(text[pos..]) == text[pos + 2..])
            && (!closes ==>
                  && BlockText(text[pos..]) == [text[pos]] + BlockText(text[pos + 1..])
                  && AfterBlock(text[pos..]) == AfterBlock(text[pos + 1..]))
  {
    var s := text[pos..];
    assert s[1..] == text[pos + 1..];
    assert |s| >= 2 ==> s[2..] == text[pos + 2..];
  }

  method ReadBlock(text: string, from: nat) returns (comment: string, pos: nat)
    requires from <= |text|
    ensures from <= pos <= |text| && comment == BlockText(text[from..]) && text[pos..] == AfterBlock(text[from..])
  {
    comment, pos := "", from;
    while pos < |text|
      invariant from <= pos <= |text|
      invariant comment + BlockText(text[pos..]) == BlockText(text[from..])
      invariant AfterBlock(text[pos..]) == AfterBlock(text[from..])
    {
      BlockAt(text, pos);
      var c := text[pos];
      pos := pos + 1;
      if c == '*' && pos < |text| && text[pos] == '/' {
        pos := pos + 1;
        return;
      }
      assert comment + ([c] + BlockText(text[pos..])) == comment + [c] + BlockText(text[pos..]);
      comment := comment + [c];
    }
  }

  // ---------------------------------------------------------------------------
  // The grammar of script heads
  // ---------------------------------------------------------------------------

  datatype Comment = Line(text: string) | Block(text: string)

  datatype Piece = Piece(space: string, comment: Comment)

  /** What ends a head: other text, or a comment the text ends in the middle of. */
  datatype Tail =
    | Rest(space: string, text: string)
    | OpenLine(space: string, text: string)
    | OpenBlock(space: string, text: string)

  /** A script is nothing but an unfinished shebang line, or an optional shebang
      line followed by comments and a tail. */
  datatype Head =
    | OnlyShebang(line: string)
    | Shebang(line: string, pieces: seq<Piece>, tail: Tail)
    | Plain(pieces: seq<Piece>, tail: Tail)

  ghost predicate AllSpace(s: string) {
    forall i :: 0 <= i < |s| ==> IsWhitespace(s[i])
  }

  /** The end-of-block mark occurs in `s`. */
  ghost predicate HasClose(s: string) {
    exists i :: 0 <= i < |s| && Closes(s[i..])
  }

  ghost predicate ValidPiece(p: Piece) {
    AllSpace(p.space) && if p.comment.Line? then '\n' !in p.comment.text else !HasClose(p.comment.text)
  }

  ghost predicate ValidTail(t: Tail) {
    && AllSpace(t.space)
    && match t
       case Rest(_, text) =>
         && (text != "" ==> !IsWhitespace(text[0]))
         && !StartsComment(text)
       case OpenLine(_, text) => '\n' !in text
       case OpenBlock(_, text) => !HasClose(text)
  }

  ghost predicate ValidBody(pieces: seq<Piece>, tail: Tail) {
    (forall i :: 0 <= i < |pieces| ==> ValidPiece(pieces[i])) && ValidTail(tail)
  }

  ghost predicate Valid(h: Head) {
    match h
    case OnlyShebang(line) => '\n' !in line
    case Shebang(line, pieces, tail) => '\n' !in line && ValidBody(pieces, tail)
    case Plain(pieces, tail) => ValidBody(pieces, tail) && !("#!" <= PrintBody(pieces, tail))
  }

  function PrintComment(c: Comment): string {
    match c
    case Line(text) => "//" + text + "\n"
    case Block(text) => "/*" + text + "*/"
  }

  function PrintTail(t: Tail): string {
    match t
    case Rest(space, text) => space + text
    case OpenLine(space, text) => space + ("//" + text)
    case OpenBlock(space, text) => space + ("/*" + text)
  }

  function PrintBody(pieces: seq<Piece>, tail: Tail): string {
    if pieces == [] then PrintTail(tail)
    else pieces[0].space + (PrintComment(pieces[0].comment) + PrintBody(pieces[1..], tail))
  }

  function Print(h: Head): string {
    match h
    case OnlyShebang(line) => "#!" + line
    case Shebang(line, pieces, tail) => "#!" + line + "\n" + PrintBody(pieces, tail)
    case Plain(pieces, tail) => PrintBody(pieces, tail)
  }

  function BodyComments(pieces: seq<Piece>, tail: Tail): seq<string> {
    if pieces == [] then (if tail.Rest? then [] else [tail.text])
    else [pieces[0].comment.text] + BodyComments(pieces[1..], tail)
  }

  function Comments(h: Head): seq<string> {
    if h.OnlyShebang? then [] else BodyComments(h.pieces, h.tail)
  }

  // ---------------------------------------------------------------------------
  // Scanning a printed head gives its comments back
  // ---------------------------------------------------------------------------

  lemma {:induction false} SkipPrintedSpace(space: string, rest: string)
    requires AllSpace(space)
    ensures SkipSpace(space + rest) == SkipSpace(rest)
  {
    if space == "" {
      assert space + rest == rest;
    } else {
      assert (space + rest)[1..] == space[1..] + rest;
      SkipPrintedSpace(space[1..], rest);
    }
  }

  lemma {:induction false} ReadPrintedLine(text: string, rest: string)
    requires '\n' !in text
    ensures LineText(text + "\n" + rest) == text && AfterLine(text + "\n" + rest) == rest
  {
    var s := text + "\n" + rest;
    if text == "" {
      assert s == "\n" + rest && s[1..] == rest;
    } else {
      assert s[0] == text[0] && s[1..] == text[1..] + "\n" + rest;
      ReadPrintedLine(text[1..], rest);
    }
  }

  lemma {:induction false} ReadOpenLine(text: string)
    requires '\n' !in text
    ensures LineText(text) == text && AfterLine(text) == ""
  {
    if text != "" {
      ReadOpenLine(text[1..]);
    }
  }

  lemma NoCloseTail(text: string)
    requires text != "" && !HasClose(text)
    ensures !Closes(text) && !HasClose(text[1..])
  {
    assert text[0..] == text;
    forall i | 0 <= i < |text[1..]| ensures !Closes(text[1..][i..]) {
      assert text[1..][i..] == text[i + 1..];
    }
  }

  lemma {:induction false} ReadPrintedBlock(text: string, rest: string)
    requires !HasClose(text)
    ensures BlockText(text + "*/" + rest) == text && AfterBlock(text + "*/" + rest) == rest
  {
    var s := text + "*/" + rest;
    if text == "" {
      assert s == "*/" + rest && s[2..] == rest;
    } else {
      NoCloseTail(text);
      assert s[0] == text[0] && s[1..] == text[1..] + "*/" + rest;
      assert s[1] == if |text| > 1 then text[1] else '*';
      ReadPrintedBlock(text[1..], rest);
    }
  }

  lemma {:induction false} ReadOpenBlock(text: string)
    requires !HasClose(text)
    ensures BlockText(text) == text && AfterBlock(text) == ""
  {
    if text != "" {
      NoCloseTail(text);
      ReadOpenBlock(text[1..]);
    }
  }

  lemma ScanPrintedComment(space: string, c: Comment, rest: string)
    requires ValidPiece(Piece(space, c))
    ensures ScanComments(space + (PrintComment(c) + rest)) == [c.text] + ScanComments(rest)
  {
    var t := PrintComment(c) + rest;
    SkipPrintedSpace(space, t);
    ScanOne(space + t, t);
    if c.Line? {
      PrintedLineParts(c.text, rest);
    } else {
      PrintedBlockParts(c.text, rest);
    }
  }

  lemma PrintedLineParts(text: string, rest: string)
    requires '\n' !in text
    ensures var t := PrintComment(Line(text)) + rest;
            t[0] == '/' && t[1] == '/' && LineText(t[2..]) == text && AfterLine(t[2..]) == rest
  {
    var t := PrintComment(Line(text)) + rest;
    assert t[2..] == text + "\n" + rest;
    ReadPrintedLine(text, rest);
  }

  lemma PrintedBlockParts(text: string, rest: string)
    requires !HasClose(text)
    ensures var t := PrintComment(Block(text)) + rest;
            t[0] == '/' && t[1] == '*' && BlockText(t[2..]) == text && AfterBlock(t[2..]) == rest
  {
    var t := PrintComment(Block(text)) + rest;
    assert t[2..] == text + "*/" + rest;
    ReadPrintedBlock(text, rest);
  }

  lemma ScanPrintedTail(tail: Tail)
    requires ValidTail(tail)
    ensures ScanComments(PrintTail(tail)) == BodyComments([], tail)
  {
    assert ScanComments("") == [];
    match tail
    case Rest(space, text) =>
      SkipPrintedSpace(space, text);
    case OpenLine(space, text) =>
      SkipPrintedSpace(space, "//" + text);
      assert ("//" + text)[2..] == text;
      ReadOpenLine(text);
    case OpenBlock(space, text) =>
      SkipPrintedSpace(space, "/*" + text);
      assert ("/*" + text)[2..] == text;
      ReadOpenBlock(text);
  }

  lemma {:induction false} ScanPrintedBody(pieces: seq<Piece>, tail: Tail)
    requires ValidBody(pieces, tail)
    ensures ScanComments(PrintBody(pieces, tail)) == BodyComments(pieces, tail)
    decreases |pieces|
  {
    if pieces == [] {
      ScanPrintedTail(tail);
    } else {
      ScanPrintedBody(pieces[1..], tail);
      ScanPrintedComment(pieces[0].space, pieces[0].comment, PrintBody(pieces[1..], tail));
    }
  }

  lemma ScanInvertsPrint(h: Head)
    requires Valid(h)
    ensures Scan(Print(h)) == Comments(h)
  {
    match h
    case OnlyShebang(line) =>
      ReadOpenLine("#!" + line);
    case Shebang(line, pieces, tail) =>
      var body := PrintBody(pieces, tail);
      assert Print(h) == ("#!" + line) + "\n" + body;
      ReadPrintedLine("#!" + line, body);
      ScanPrintedBody(pieces, tail);
    case Plain(pieces, tail) =>
      ScanPrintedBody(pieces, tail);
  }

  // ---------------------------------------------------------------------------
  // Every text is a printed head, so the above covers every input
  // ---------------------------------------------------------------------------

  lemma {:induction false} SplitSpace(s: string) returns (space: string)
    ensures AllSpace(space) && s == space + SkipSpace(s)
    ensures SkipSpace(s) != "" ==> !IsWhitespace(SkipSpace(s)[0])
  {
    if s != "" && IsWhitespace(s[0]) {
      space := SplitSpace(s[1..]);
      space := [s[0]] + space;
    } else {
      space := "";
    }
  }

  lemma {:induction false} SplitLine(s: string)
    ensures '\n' !in LineText(s)
    ensures s == LineText(s) || s == LineText(s) + "\n" + AfterLine(s)
  {
    if s != "" && s[0] != '\n' {
      var c, rest := [s[0]], s[1..];
      SplitLine(rest);
      assert s == c + rest;
      assert c + (LineText(rest) + "\n" + AfterLine(rest)) == (c + LineText(rest)) + "\n" + AfterLine(rest);
    }
  }

  lemma {:induction false} SplitBlock(s: string)
    ensures !HasClose(BlockText(s))
    ensures s == BlockText(s) || s == BlockText(s) + "*/" + AfterBlock(s)
    ensures BlockText(s) <= s
  {
    if s != "" && !Closes(s) {
      SplitBlock(s[1..]);
      var text := BlockText(s);
      forall i | 0 <= i < |text| ensures !Closes(text[i..]) {
        if i == 0 {
          assert text[0..] == text;
          assert |text| >= 2 ==> text[1] == BlockText(s[1..])[0] == s[1];
        } else {
          assert text[i..] == text[1..][i - 1..] && text[1..] == BlockText(s[1..]);
        }
      }
    }
  }

  /** A text that starts a comment is that comment and what follows it, or is the
      unfinished comment whole. */
  lemma SplitComment(space: string, t: string) returns (done: bool, c: Comment, rest: string, tail: Tail)
    requires AllSpace(space) && StartsComment(t)
    ensures done ==> ValidPiece(Piece(space, c)) && t == PrintComment(c) + rest
    ensures !done ==> ValidTail(tail) && !tail.Rest? && PrintTail(tail) == space + t
  {
    if t[1] == '/' {
      done, c, rest, tail := SplitLineComment(space, t);
    } else {
      done, c, rest, tail := SplitBlockComment(space, t);
    }
  }

  lemma SplitLineComment(space: string, t: string) returns (done: bool, c: Comment, rest: string, tail: Tail)
    requires AllSpace(space) && StartsComment(t) && t[1] == '/'
    ensures done ==> ValidPiece(Piece(space, c)) && t == PrintComment(c) + rest
    ensures !done ==> ValidTail(tail) && !tail.Rest? && PrintTail(tail) == space + t
  {
    var body := t[2..];
    SplitLine(body);
    assert t == "//" + body;
    done := body != LineText(body);
    c, rest, tail := Line(LineText(body)), AfterLine(body), OpenLine(space, body);
    if done {
      PrintedLine(c.text, rest);
    }
  }

  lemma PrintedLine(text: string, rest: string)
    ensures "//" + (text + "\n" + rest) == PrintComment(Line(text)) + rest
  {
  }

  lemma SplitBlockComment(space: string, t: string) returns (done: bool, c: Comment, rest: string, tail: Tail)
    requires AllSpace(space) && StartsComment(t) && t[1] == '*'
    ensures done ==> ValidPiece(Piece(space, c)) && t == PrintComment(c) + rest
    ensures !done ==> ValidTail(tail) && !tail.Rest? && PrintTail(tail) == space + t
  {
    var body := t[2..];
    SplitBlock(body);
    assert t == "/*" + body;
    done := body != BlockText(body);
    c, rest, tail := Block(BlockText(body)), AfterBlock(body), OpenBlock(space, body);
    if done {
      PrintedBlock(c.text, rest);
    }
  }

  lemma PrintedBlock(text: string, rest: string)
    ensures "/*" + (text + "*/" + rest) == PrintComment(Block(text)) + rest
  {
  }

  lemma Prepend(p: Piece, pieces: seq<Piece>, tail: Tail)
    requires ValidPiece(p) && ValidBody(pieces, tail)
    ensures ValidBody([p] + pieces, tail)
    ensures PrintBody([p] + pieces, tail) == p.space + (PrintComment(p.comment) + PrintBody(pieces, tail))
  {
    assert ([p] + pieces)[1..] == pieces;
  }

  lemma {:induction false} ParseBody(s: string) returns (pieces: seq<Piece>, tail: Tail)
    ensures ValidBody(pieces, tail) && PrintBody(pieces, tail) == s
    decreases |s|
  {
    var space := SplitSpace(s);
    var t := SkipSpace(s);
    pieces, tail := [], Rest(space, t);
    if StartsComment(t) {
      var done, c, rest, open := SplitComment(space, t);
      if done {
        pieces, tail := ParseBody(rest);
        Prepend(Piece(space, c), pieces, tail);
        pieces := [Piece(space, c)] + pieces;
      } else {
        tail := open;
      }
    }
  }

  lemma ParseShebang(body: string) returns (h: Head)
    ensures Valid(h) && Print(h) == "#!" + body
  {
    SplitLine(body);
    if body == LineText(body) {
      h := OnlyShebang(body);
    } else {
      var line, rest := LineText(body), AfterLine(body);
      var pieces, tail := ParseBody(rest);
      h := Shebang(line, pieces, tail);
      assert "#!" + (line + "\n" + rest) == "#!" + line + "\n" + rest;
    }
  }

  /** Every text is the print of a valid head. */
  lemma Parse(s: string) returns (h: Head)
    ensures Valid(h) && Print(h) == s
  {
    if "#!" <= s {
      assert s == "#!" + s[2..];
      h := ParseShebang(s[2..]);
    } else {
      var pieces, tail := ParseBody(s);
      h := Plain(pieces, tail);
    }
  }

  /** So for every text there is exactly one answer, that of its grammar. */
  lemma ScanMeansGrammar(s: string)
    ensures exists h :: Valid(h) && Print(h) == s
    ensures forall h :: Valid(h) && Print(h) == s ==> Comments(h) == Scan(s)
  {
    var h := Parse(s);
    forall h | Valid(h) && Print(h) == s ensures Comments(h) == Scan(s) {
      ScanInvertsPrint(h);
    }
  }
}
