/** The writer that puts a prefix in front of every line of a stream, whatever
    pieces the stream arrives in. */
module PrefixedWriting {
  import opened Basics

  newtype Byte = n: int | 0 <= n < 256

  type Bytes = seq<Byte>

  const NEWLINE: Byte := 10

  // ---------------------------------------------------------------------------
  // Lines of a text
  // ---------------------------------------------------------------------------

  /** The index of the first newline, or the length. */
  function LineEnd(t: Bytes): (k: nat)
    ensures k <= |t| && (forall i :: 0 <= i < k ==> t[i] != NEWLINE) && (k < |t| ==> t[k] == NEWLINE)
  {
    if t == [] || t[0] == NEWLINE then 0 else 1 + LineEnd(t[1..])
  }

  /** The whole lines of a text, newlines included. */
  function Lines(t: Bytes): seq<Bytes>
    decreases |t|
  {
    var k := LineEnd(t);
    if k == |t| then [] else [t[..k + 1]] + Lines(t[k + 1..])
  }

  /** What follows the last newline. */
  function OpenLine(t: Bytes): Bytes
    decreases |t|
  {
    var k := LineEnd(t);
    if k == |t| then t else OpenLine(t[k + 1..])
  }

  function Flatten(parts: seq<Bytes>): Bytes {
    if parts == [] then [] else parts[0] + Flatten(parts[1..])
  }

  lemma {:induction false} FlattenConcat(a: seq<Bytes>, b: seq<Bytes>)
    ensures Flatten(a + b) == Flatten(a) + Flatten(b)
  {
    if a == [] {
      assert a + b == b;
    } else {
      assert (a + b)[1..] == a[1..] + b;
      FlattenConcat(a[1..], b);
    }
  }

  lemma LineEndUnique(t: Bytes, k: nat)
    requires k <= |t| && (forall i :: 0 <= i < k ==> t[i] != NEWLINE) && (k < |t| ==> t[k] == NEWLINE)
    ensures LineEnd(t) == k
  {
  }

  /** A line ends at its only newline; an open line has none. */
  ghost predicate Whole(line: Bytes) {
    line != [] && LineEnd(line) == |line| - 1
  }

  ghost predicate Open(t: Bytes) {
    LineEnd(t) == |t|
  }

  ghost predicate AllWhole(lines: seq<Bytes>) {
    forall i :: 0 <= i < |lines| ==> Whole(lines[i])
  }

  /** A whole line in front is the first of the lines. */
  lemma PeelLine(line: Bytes, rest: Bytes)
    requires Whole(line)
    ensures Lines(line + rest) == [line] + Lines(rest) && OpenLine(line + rest) == OpenLine(rest)
  {
    var t := line + rest;
    LineEndUnique(t, |line| - 1);
    assert t[..|line|] == line && t[|line|..] == rest;
  }

  lemma FirstLine(t: Bytes) returns (line: Bytes, rest: Bytes)
    requires !Open(t)
    ensures Whole(line) && t == line + rest
  {
    var k := LineEnd(t);
    line, rest := t[..k + 1], t[k + 1..];
    LineEndUnique(line, k);
  }

  lemma FlattenCons(line: Bytes, lines: seq<Bytes>)
    ensures Flatten([line] + lines) == line + Flatten(lines)
  {
    assert ([line] + lines)[1..] == lines;
  }

  /** A text is made up of its lines, each whole, and its open line. */
  lemma {:induction false} LinesMakeUpText(t: Bytes)
    ensures Flatten(Lines(t)) + OpenLine(t) == t && AllWhole(Lines(t)) && Open(OpenLine(t))
    decreases |t|
  {
    if !Open(t) {
      var line, rest := FirstLine(t);
      LinesMakeUpText(rest);
      PeelLine(line, rest);
      FlattenCons(line, Lines(rest));
      Regroup(line, Flatten(Lines(rest)), OpenLine(rest));
    }
  }

  /** And whole lines with an open line behind them are the lines of what they make up. */
  lemma {:induction false} LinesAreUnique(lines: seq<Bytes>, open: Bytes)
    requires AllWhole(lines) && Open(open)
    ensures Lines(Flatten(lines) + open) == lines && OpenLine(Flatten(lines) + open) == open
    decreases |lines|
  {
    if lines == [] {
      assert Flatten(lines) + open == open;
    } else {
      var rest := Flatten(lines[1..]) + open;
      LinesAreUnique(lines[1..], open);
      Regroup(lines[0], Flatten(lines[1..]), open);
      PeelLine(lines[0], rest);
    }
  }

  /** Two pieces without newline are one. */
  lemma OpenConcat(t: Bytes, more: Bytes)
    requires Open(t)
    ensures LineEnd(t + more) == |t| + LineEnd(more)
  {
    LineEndUnique(t + more, |t| + LineEnd(more));
  }

  /** A text without newlines only lengthens the open line. */
  lemma AppendOpen(t: Bytes, more: Bytes)
    requires Open(more)
    ensures Lines(t + more) == Lines(t) && OpenLine(t + more) == OpenLine(t) + more
  {
    var lines, open := Lines(t), OpenLine(t);
    LinesMakeUpText(t);
    OpenConcat(open, more);
    LinesAreUnique(lines, open + more);
    Regroup(Flatten(lines), open, more);
  }

  /** The end of a line completes the open line. */
  lemma AppendLine(t: Bytes, line: Bytes)
    requires Whole(line)
    ensures Lines(t + line) == Lines(t) + [OpenLine(t) + line] && OpenLine(t + line) == []
  {
    var lines, open := Lines(t), OpenLine(t);
    LinesMakeUpText(t);
    OpenConcat(open, line);
    LinesAreUnique(lines + [open + line], []);
    FlattenConcat(lines, [open + line]);
    FlattenCons(open + line, []);
    Regroup(Flatten(lines), open, line);
    assert Flatten(lines + [open + line]) + [] == t + line;
  }

  // ---------------------------------------------------------------------------
  // What the inner writer should receive
  // ---------------------------------------------------------------------------

  function Prefixed(prefix: Bytes, lines: seq<Bytes>): seq<Bytes> {
    if lines == [] then [] else [prefix + lines[0]] + Prefixed(prefix, lines[1..])
  }

  lemma {:induction false} PrefixedConcat(prefix: Bytes, a: seq<Bytes>, line: Bytes)
    ensures Prefixed(prefix, a + [line]) == Prefixed(prefix, a) + [prefix + line]
  {
    if a != [] {
      assert (a + [line])[1..] == a[1..] + [line];
      PrefixedConcat(prefix, a[1..], line);
    }
  }

  /** The line being assembled, with its prefix; nothing at the start of a line. */
  function Buffered(prefix: Bytes, segment: Bytes): Bytes {
    if OpenLine(segment) == [] then [] else prefix + OpenLine(segment)
  }

  /** The writes a flushed segment causes: its whole lines, then its open line. */
  function SegmentWrites(prefix: Bytes, segment: Bytes): seq<Bytes> {
    Prefixed(prefix, Lines(segment)) + if OpenLine(segment) == [] then [] else [Buffered(prefix, segment)]
  }

  function FlushedWrites(prefix: Bytes, segments: seq<Bytes>): seq<Bytes> {
    if segments == [] then []
    else FlushedWrites(prefix, segments[..|segments| - 1]) + SegmentWrites(prefix, segments[|segments| - 1])
  }

  /** A flush adds the open line to what the whole lines already caused. */
  lemma FlushSegment(prefix: Bytes, flushed: seq<Bytes>, segment: Bytes)
    ensures FlushedWrites(prefix, flushed + [segment]) ==
            FlushedWrites(prefix, flushed) + Prefixed(prefix, Lines(segment))
            + (if OpenLine(segment) == [] then [] else [Buffered(prefix, segment)])
    ensures Prefixed(prefix, Lines([])) == [] && Buffered(prefix, []) == []
  {
    assert (flushed + [segment])[..|flushed|] == flushed;
  }

  class PrefixedWriter {
    const prefix: Bytes
    /** The inner writer, as the pieces written to it. */
    var inner: seq<Bytes>
    var lineBuf: Bytes
    var atLineStart: bool
    /** The input: the segments ended by a flush, and the one since. */
    ghost var flushed: seq<Bytes>
    ghost var segment: Bytes

    ghost predicate Valid()
      reads this
    {
      && inner == FlushedWrites(prefix, flushed) + Prefixed(prefix, Lines(segment))
      && lineBuf == Buffered(prefix, segment)
      && (atLineStart <==> OpenLine(segment) == [])
    }

    constructor (prefix: Bytes)
      ensures Valid() && this.prefix == prefix && inner == [] && flushed == [] && segment == []
    {
      this.prefix := prefix;
      inner, lineBuf, atLineStart, flushed, segment := [], [], true, [], [];
    }

    method Write(buf: Bytes) returns (n: nat)
      requires Valid()
      modifies this
      ensures Valid() && n == |buf|
      ensures flushed == old(flushed) && segment == old(segment) + buf
    {
      var rest := buf;
      while rest != []
        invariant Valid() && flushed == old(flushed) && segment + rest == old(segment) + buf
        decreases |rest|
      {
        StartLine();
        var pos := LineEnd(rest);
        if pos < |rest| {
          LineEndUnique(rest[..pos + 1], pos);
          assert rest == rest[..pos + 1] + rest[pos + 1..];
          EndLine(rest[..pos + 1]);
          rest := rest[pos + 1..];
        } else {
          ExtendLine(rest);
          rest := [];
        }
      }
      n := |buf|;
    }

    /** As `Valid`, with the prefix of the current line already in the buffer. */
    ghost predicate InLine()
      reads this
    {
      && inner == FlushedWrites(prefix, flushed) + Prefixed(prefix, Lines(segment))
      && lineBuf == prefix + OpenLine(segment)
      && !atLineStart
    }

    /** Puts the prefix into the buffer if a line is about to start. */
    method StartLine()
      requires Valid()
      modifies this`lineBuf, this`atLineStart
      ensures InLine()
    {
      if atLineStart {
        lineBuf := lineBuf + prefix;
        atLineStart := false;
      }
    }

    /** Takes the rest of a line, newline included, and passes the line on. */
    method EndLine(line: Bytes)
      requires InLine() && Whole(line)
      modifies this
      ensures Valid() && flushed == old(flushed) && segment == old(segment) + line
    {
      AppendLine(segment, line);
      PrefixedConcat(prefix, Lines(segment), OpenLine(segment) + line);
      assert prefix + OpenLine(segment) + line == prefix + (OpenLine(segment) + line);
      lineBuf := lineBuf + line;
      inner := inner + [lineBuf];
      lineBuf := [];
      atLineStart := true;
      segment := segment + line;
    }

    /** Takes a piece without newline into the buffer. */
    method ExtendLine(piece: Bytes)
      requires InLine() && piece != [] && Open(piece)
      modifies this
      ensures Valid() && flushed == old(flushed) && segment == old(segment) + piece
    {
      AppendOpen(segment, piece);
      assert prefix + OpenLine(segment) + piece == prefix + (OpenLine(segment) + piece);
      lineBuf := lineBuf + piece;
      segment := segment + piece;
    }

    method Flush()
      requires Valid()
      modifies this
      ensures Valid() && lineBuf == []
      ensures flushed == old(flushed) + [old(segment)] && segment == []
    {
      FlushSegment(prefix, flushed, segment);
      if lineBuf != [] {
        inner := inner + [lineBuf];
        lineBuf := [];
        atLineStart := true;
      }
      flushed := flushed + [segment];
      segment := [];
    }

    /** Any sequence of writes and flushes: what has been passed on, piece by piece,
        and what is buffered depend only on the text between flushes. */
    method Perform(ops: seq<Op>)
      requires Valid() && flushed == [] && segment == []
      modifies this
      ensures Valid()
      ensures (flushed, segment) == Segments(ops)
      ensures inner == FlushedWrites(prefix, Segments(ops).0) + Prefixed(prefix, Lines(Segments(ops).1))
      ensures lineBuf == Buffered(prefix, Segments(ops).1)
    {
      for i := 0 to |ops|
        invariant Valid() && (flushed, segment) == Segments(ops[..i])
      {
        assert ops[..i + 1][..i] == ops[..i];
        match ops[i]
        case WriteOp(buf) => var n := Write(buf);
        case FlushOp => Flush();
      }
      assert ops[..|ops|] == ops;
    }
  }

  datatype Op = WriteOp(buf: Bytes) | FlushOp

  /** The segments ended by a flush, and the text written since. */
  function Segments(ops: seq<Op>): (seq<Bytes>, Bytes) {
    if ops == [] then ([], []) else
    var (done, open) := Segments(ops[..|ops| - 1]);
    match ops[|ops| - 1]
    case WriteOp(buf) => (done, open + buf)
    case FlushOp => (done + [open], [])
  }

  // ---------------------------------------------------------------------------
  // The bytes passed on and buffered are the text with the prefix inserted
  // ---------------------------------------------------------------------------

  /** The text with the prefix in front of each byte that starts a line. */
  function Insert(prefix: Bytes, t: Bytes, lineStart: bool): Bytes
    decreases |t|
  {
    if t == [] then [] else
    (if lineStart then prefix else []) + [t[0]] + Insert(prefix, t[1..], t[0] == NEWLINE)
  }

  lemma {:induction false} InsertInLine(prefix: Bytes, t: Bytes, rest: Bytes)
    requires Open(t)
    ensures Insert(prefix, t + rest, false) == t + Insert(prefix, rest, false)
    decreases |t|
  {
    if t == [] {
      assert t + rest == rest;
    } else {
      assert (t + rest)[1..] == t[1..] + rest;
      InsertInLine(prefix, t[1..], rest);
    }
  }

  /** Inserting at the start of a line that ends at its only newline. */
  lemma InsertLine(prefix: Bytes, line: Bytes, rest: Bytes)
    requires Whole(line)
    ensures Insert(prefix, line + rest, true) == prefix + line + Insert(prefix, rest, true)
  {
    var body, s := line[..|line| - 1], line + rest;
    LineEndUnique(body, |body|);
    var tail := [NEWLINE] + rest;
    assert s == body + tail && tail[1..] == rest;
    assert Insert(prefix, tail, false) == [NEWLINE] + Insert(prefix, rest, true);
    assert line == body + [NEWLINE];
    InsertAtStart(prefix, s);
    InsertInLine(prefix, body, tail);
  }

  lemma InsertAtStart(prefix: Bytes, t: Bytes)
    requires t != []
    ensures Insert(prefix, t, true) == prefix + Insert(prefix, t, false)
  {
  }

  lemma InsertOpen(prefix: Bytes, t: Bytes)
    requires Open(t)
    ensures Insert(prefix, t, true) == if t == [] then [] else prefix + t
  {
    if t != [] {
      InsertAtStart(prefix, t);
      InsertInLine(prefix, t, []);
      assert t + [] == t;
    }
  }

  /** Whole lines and an open line, each with the prefix, are what they make up with
      the prefix inserted. */
  lemma {:induction false} PrefixedIsInserted(prefix: Bytes, lines: seq<Bytes>, open: Bytes)
    requires AllWhole(lines) && Open(open)
    ensures Flatten(Prefixed(prefix, lines)) + (if open == [] then [] else prefix + open) ==
            Insert(prefix, Flatten(lines) + open, true)
    decreases |lines|
  {
    var last := if open == [] then [] else prefix + open;
    if lines == [] {
      InsertOpen(prefix, open);
      assert Flatten(lines) + open == open;
    } else {
      var line, more := lines[0], Prefixed(prefix, lines[1..]);
      PrefixedIsInserted(prefix, lines[1..], open);
      InsertLine(prefix, line, Flatten(lines[1..]) + open);
      Regroup(line, Flatten(lines[1..]), open);
      FlattenCons(prefix + line, more);
      Regroup(prefix + line, Flatten(more), last);
    }
  }

  /** The writes for a segment, joined up, are the segment with prefixes. */
  lemma WritesAreInserted(prefix: Bytes, t: Bytes)
    ensures Flatten(Prefixed(prefix, Lines(t))) + Buffered(prefix, t) == Insert(prefix, t, true)
  {
    LinesMakeUpText(t);
    PrefixedIsInserted(prefix, Lines(t), OpenLine(t));
  }

  function InsertAll(prefix: Bytes, segments: seq<Bytes>): Bytes {
    if segments == [] then []
    else InsertAll(prefix, segments[..|segments| - 1]) + Insert(prefix, segments[|segments| - 1], true)
  }

  lemma {:induction false} FlushedWritesAreInserted(prefix: Bytes, segments: seq<Bytes>)
    ensures Flatten(FlushedWrites(prefix, segments)) == InsertAll(prefix, segments)
  {
    if segments != [] {
      var before, t := segments[..|segments| - 1], segments[|segments| - 1];
      FlushedWritesAreInserted(prefix, before);
      SegmentWritesAreInserted(prefix, t);
      FlattenConcat(FlushedWrites(prefix, before), SegmentWrites(prefix, t));
    }
  }

  lemma SegmentWritesAreInserted(prefix: Bytes, t: Bytes)
    ensures Flatten(SegmentWrites(prefix, t)) == Insert(prefix, t, true)
  {
    WritesAreInserted(prefix, t);
    var last := if OpenLine(t) == [] then [] else [Buffered(prefix, t)];
    FlattenConcat(Prefixed(prefix, Lines(t)), last);
    assert Flatten(last) == Buffered(prefix, t);
  }

  /** Bytes passed on plus bytes buffered: the segments between flushes, each with
      the prefix at every line start. */
  lemma OutputIsPrefixedInput(w: PrefixedWriter)
    requires w.Valid()
    ensures Flatten(w.inner) + w.lineBuf == InsertAll(w.prefix, w.flushed) + Insert(w.prefix, w.segment, true)
    ensures w.atLineStart <==> w.lineBuf == []
  {
    FlushedWritesAreInserted(w.prefix, w.flushed);
    WritesAreInserted(w.prefix, w.segment);
    FlattenConcat(FlushedWrites(w.prefix, w.flushed), Prefixed(w.prefix, Lines(w.segment)));
  }
}
