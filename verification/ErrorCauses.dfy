/** Printing an error with its chain of causes, when the chain may run into an
    error it already contains. */
module ErrorCauses {
  import opened Basics
  import opened Text

  /** Everything the comparison of errors looks at besides the exception message. */
  datatype Details = Details(
    name: Option<string>,
    message: Option<string>,
    stack: Option<string>,
    frames: seq<string>,
    sourceLine: Option<string>,
    sourceLineFrameIndex: Option<nat>)

  datatype JsError = JsError(details: Details, exceptionMessage: string, cause: Option<JsError>)

  function WithoutPromise(message: string): string {
    ReplaceAll(message, " (in promise) ", " ")
  }

  /** The same error, compared by its fields; the cause is left out. */
  predicate Same(a: JsError, b: JsError) {
    && a.details == b.details
    && (a.exceptionMessage == b.exceptionMessage
        || WithoutPromise(a.exceptionMessage) == WithoutPromise(b.exceptionMessage))
  }

  /** Nothing that is shown of the two errors tells them apart: the six fields are
      equal, and so are the messages once " (in promise) " is read as " ". */
  ghost predicate Indistinguishable(a: JsError, b: JsError) {
    && a.details.name == b.details.name
    && a.details.message == b.details.message
    && a.details.stack == b.details.stack
    && a.details.frames == b.details.frames
    && a.details.sourceLine == b.details.sourceLine
    && a.details.sourceLineFrameIndex == b.details.sourceLineFrameIndex
    && ReplaceAll(a.exceptionMessage, " (in promise) ", " ") == ReplaceAll(b.exceptionMessage, " (in promise) ", " ")
  }

  lemma SameIsIndistinguishable(a: JsError, b: JsError)
    ensures Same(a, b) <==> Indistinguishable(a, b)
  {
    assert a.details == Details(a.details.name, a.details.message, a.details.stack, a.details.frames,
                                a.details.sourceLine, a.details.sourceLineFrameIndex);
  }

  /** The comparison is an equivalence, though it is written as an alternative. */
  lemma SameIsEquivalence(a: JsError, b: JsError, c: JsError)
    ensures Same(a, a)
    ensures Same(a, b) ==> Same(b, a)
    ensures Same(a, b) && Same(b, c) ==> Same(a, c)
  {
  }

  // ---------------------------------------------------------------------------
  // Finding the first cause that repeats
  // ---------------------------------------------------------------------------

  datatype Reference = Reference(source: JsError, target: JsError)

  /** The index of the first error in the list that is the same as `e`, or the length. */
  function IndexOfSame(history: seq<JsError>, e: JsError): (k: nat)
    ensures k <= |history| && (k < |history| ==> Same(e, history[k]))
    ensures forall i :: 0 <= i < k ==> !Same(e, history[i])
  {
    if history == [] || Same(e, history[0]) then 0 else 1 + IndexOfSame(history[1..], e)
  }

  function Find(history: seq<JsError>, e: JsError): Option<Reference>
    decreases e
  {
    if e.cause.None? then None else
    var history' := history + [e];
    var k := IndexOfSame(history', e.cause.value);
    if k < |history'| then Some(Reference(e, history'[k])) else Find(history', e.cause.value)
  }

  method FindRecursiveCause(e: JsError) returns (r: Option<Reference>)
    ensures r == Find([], e)
  {
    var history, current := [], e;
    while current.cause.Some?
      invariant Find(history, current) == Find([], e)
      decreases current
    {
      var cause := current.cause.value;
      history := history + [current];
      var k := IndexOfSame(history, cause);
      if k < |history| {
        return Some(Reference(current, history[k]));
      }
      current := cause;
    }
    r := None;
  }

  function Chain(e: JsError): (c: seq<JsError>)
    ensures |c| > 0 && c[0] == e
  {
    [e] + if e.cause.Some? then Chain(e.cause.value) else []
  }

  lemma ChainTail(e: JsError)
    requires e.cause.Some?
    ensures Chain(e)[1..] == Chain(e.cause.value)
  {
  }

  ghost predicate Distinct(c: seq<JsError>) {
    forall i, j :: 0 <= i < j < |c| ==> !Same(c[i], c[j])
  }

  /** The chain first repeats at `j + 1`, where it meets its error `i` again. */
  ghost predicate FirstRepeat(c: seq<JsError>, i: nat, j: nat) {
    i <= j && j + 1 < |c| && Distinct(c[..j + 1]) && Same(c[j + 1], c[i])
  }

  lemma DistinctExtend(history: seq<JsError>, e: JsError)
    requires Distinct(history) && IndexOfSame(history, e) == |history|
    ensures Distinct(history + [e])
  {
    var c := history + [e];
    forall i, j | 0 <= i < j < |c| ensures !Same(c[i], c[j]) {
      if j == |history| {
        SameIsEquivalence(c[i], e, e);
      }
    }
  }

  lemma RepeatHere(history: seq<JsError>, rest: seq<JsError>, k: nat)
    requires Distinct(history) && k < |history| && rest != [] && Same(rest[0], history[k])
    ensures FirstRepeat(history + rest, k, |history| - 1)
  {
    var c := history + rest;
    assert c[..|history|] == history && c[|history|] == rest[0] && c[k] == history[k];
  }

  lemma {:induction false} FindReaches(history: seq<JsError>, e: JsError) returns (i: nat, j: nat)
    requires Distinct(history + [e])
    ensures var r, c := Find(history, e), history + Chain(e);
            && (r.None? ==> Distinct(c))
            && (r.Some? ==> FirstRepeat(c, i, j) && r.value == Reference(c[j], c[i]))
    decreases e
  {
    i, j := 0, 0;
    var history' := history + [e];
    if e.cause.None? {
      assert Chain(e) == [e];
    } else {
      var cause := e.cause.value;
      ChainTail(e);
      assert history + Chain(e) == history' + Chain(cause);
      var k := IndexOfSame(history', cause);
      if k < |history'| {
        i, j := k, |history|;
        RepeatHere(history', Chain(cause), k);
        assert (history' + Chain(cause))[j] == e && (history' + Chain(cause))[i] == history'[k];
      } else {
        DistinctExtend(history', cause);
        i, j := FindReaches(history', cause);
      }
    }
  }

  lemma RepeatIsNotDistinct(c: seq<JsError>, i: nat, j: nat)
    requires FirstRepeat(c, i, j)
    ensures !Distinct(c)
  {
    SameIsEquivalence(c[j + 1], c[i], c[i]);
    assert Same(c[i], c[j + 1]);
  }

  /** The search finds nothing exactly when no error of the chain repeats. */
  lemma {:induction false} FindsFirstRepeat(e: JsError) returns (i: nat, j: nat)
    ensures Find([], e).None? <==> Distinct(Chain(e))
    ensures Find([], e).Some? ==>
              FirstRepeat(Chain(e), i, j) && Find([], e).value == Reference(Chain(e)[j], Chain(e)[i])
  {
    var c := Chain(e);
    i, j := FindReaches([], e);
    assert [] + c == c;
    if Find([], e).Some? {
      RepeatIsNotDistinct(c, i, j);
    }
  }

  // ---------------------------------------------------------------------------
  // Printing
  // ---------------------------------------------------------------------------

  /** The output, piece by piece; `Message` stands for an error's own text. */
  datatype Piece =
    | Message(text: string)
    | RefMarker(index: nat)
    | CausedBy
    | CircularMarker(index: nat)

  function Format(e: JsError, circular: Option<Reference>, index: nat): seq<Piece>
    decreases e
  {
    [Message(e.exceptionMessage)]
    + (if circular.Some? && Same(e, circular.value.target) then [RefMarker(index)] else [])
    + (if e.cause.None? then []
       else if circular.Some? && Same(e, circular.value.source) then [CausedBy, CircularMarker(index)]
       else [CausedBy] + Format(e.cause.value, circular, index))
  }

  /** A list of errors printed one as the cause of the other, with the reference
      marker on the one at `marked`. */
  function Printed(c: seq<JsError>, marked: int): seq<Piece> {
    if c == [] then [] else
    [Message(c[0].exceptionMessage)] + (if marked == 0 then [RefMarker(1)] else [])
    + (if |c| == 1 then [] else [CausedBy] + Printed(c[1..], marked - 1))
  }

  lemma {:induction false} FormatWithoutRepeat(e: JsError, marked: int)
    requires marked < 0
    ensures Format(e, None, 1) == Printed(Chain(e), marked)
    decreases e
  {
    if e.cause.Some? {
      ChainTail(e);
      FormatWithoutRepeat(e.cause.value, marked - 1);
    }
  }

  /** In a chain whose errors up to `j` differ, an error before `j` is the same as
      error `i` only where it is error `i`. */
  lemma SameOnlyAt(c: seq<JsError>, i: nat, j: nat, k: nat)
    requires j < |c| && Distinct(c[..j + 1]) && i <= j && k <= j
    ensures Same(c[k], c[i]) <==> k == i
  {
    var d := c[..j + 1];
    assert d[i] == c[i] && d[k] == c[k];
    SameIsEquivalence(c[k], c[i], c[i]);
    SameIsEquivalence(c[i], c[k], c[k]);
  }

  lemma {:induction false} FormatWithRepeat(c: seq<JsError>, i: nat, j: nat, k: nat)
    requires FirstRepeat(c, i, j) && k <= j && Chain(c[k]) == c[k..]
    ensures Format(c[k], Some(Reference(c[j], c[i])), 1) == Printed(c[k..j + 1], i - k) + [CausedBy, CircularMarker(1)]
    decreases j - k
  {
    if k < j {
      HasCause(c, k);
      FormatWithRepeat(c, i, j, k + 1);
      FormatStep(c, i, j, k);
    } else {
      FormatStop(c, i, j);
    }
  }

  lemma {:induction false} FormatStep(c: seq<JsError>, i: nat, j: nat, k: nat)
    requires FirstRepeat(c, i, j) && k < j && c[k].cause == Some(c[k + 1])
    requires Format(c[k + 1], Some(Reference(c[j], c[i])), 1) ==
             Printed(c[k + 1..j + 1], i - (k + 1)) + [CausedBy, CircularMarker(1)]
    ensures Format(c[k], Some(Reference(c[j], c[i])), 1) == Printed(c[k..j + 1], i - k) + [CausedBy, CircularMarker(1)]
  {
    SameOnlyAt(c, i, j, k);
    SameOnlyAt(c, j, j, k);
    var part := c[k..j + 1];
    assert part[1..] == c[k + 1..j + 1] && part[0] == c[k];
    FormatOne(c[k], Some(Reference(c[j], c[i])), Printed(part[1..], i - k - 1));
    PrintedTwo(part, i - k);
  }

  lemma {:induction false} FormatStop(c: seq<JsError>, i: nat, j: nat)
    requires FirstRepeat(c, i, j) && Chain(c[j]) == c[j..]
    ensures Format(c[j], Some(Reference(c[j], c[i])), 1) == Printed(c[j..j + 1], i - j) + [CausedBy, CircularMarker(1)]
  {
    HasCause(c, j);
    SameOnlyAt(c, i, j, j);
    SameOnlyAt(c, j, j, j);
    assert c[j..j + 1] == [c[j]];
    PrintedOne(c[j], i - j);
    FormatLast(c[j], Some(Reference(c[j], c[i])));
  }

  lemma {:induction false} HasCause(c: seq<JsError>, k: nat)
    requires k + 1 < |c| && Chain(c[k]) == c[k..]
    ensures c[k].cause == Some(c[k + 1]) && Chain(c[k + 1]) == c[k + 1..]
  {
    assert |Chain(c[k])| >= 2;
    ChainTail(c[k]);
    assert c[k..][1..] == c[k + 1..];
  }

  /** The error the reference comes from. */
  lemma {:induction false} FormatLast(e: JsError, circular: Option<Reference>)
    requires circular.Some? && e.cause.Some? && Same(e, circular.value.source)
    ensures Format(e, circular, 1) ==
            [Message(e.exceptionMessage)] + (if Same(e, circular.value.target) then [RefMarker(1)] else [])
            + [CausedBy, CircularMarker(1)]
  {
  }

  lemma PrintedOne(e: JsError, marked: int)
    ensures Printed([e], marked) ==
            [Message(e.exceptionMessage)] + (if marked == 0 then [RefMarker(1)] else [])
  {
  }

  lemma PrintedTwo(c: seq<JsError>, marked: int)
    requires |c| > 1
    ensures Printed(c, marked) ==
            [Message(c[0].exceptionMessage)] + (if marked == 0 then [RefMarker(1)] else [])
            + ([CausedBy] + Printed(c[1..], marked - 1))
  {
  }

  /** One error that is not the source of the reference, and its cause. */
  lemma {:induction false} FormatOne(e: JsError, circular: Option<Reference>, rest: seq<Piece>)
    requires circular.Some? && e.cause.Some? && !Same(e, circular.value.source)
    requires Format(e.cause.value, circular, 1) == rest + [CausedBy, CircularMarker(1)]
    ensures Format(e, circular, 1) ==
            ([Message(e.exceptionMessage)] + (if Same(e, circular.value.target) then [RefMarker(1)] else [])
             + ([CausedBy] + rest)) + [CausedBy, CircularMarker(1)]
  {
  }

  /** What is printed: the whole chain without markers when nothing repeats;
      otherwise the errors before the first repeat, a reference marker on the one
      that repeats, and a circular marker where the repetition would start. */
  lemma PrintsUpToFirstRepeat(e: JsError) returns (i: nat, j: nat)
    ensures Distinct(Chain(e)) ==> Format(e, Find([], e), 1) == Printed(Chain(e), -1)
    ensures !Distinct(Chain(e)) ==>
              && FirstRepeat(Chain(e), i, j)
              && Format(e, Find([], e), 1) == Printed(Chain(e)[..j + 1], i) + [CausedBy, CircularMarker(1)]
  {
    i, j := FindsFirstRepeat(e);
    var c := Chain(e);
    if Find([], e).None? {
      FormatWithoutRepeat(e, -1);
    } else {
      assert c[0..] == c && c[0..j + 1] == c[..j + 1];
      FormatWithRepeat(c, i, j, 0);
    }
  }

  method FormatJsError(e: JsError) returns (out: seq<Piece>)
    ensures out == Format(e, Find([], e), 1)
    ensures NoneAlike(Chain(e)) ==> out == Printed(Chain(e), -1)
    ensures !NoneAlike(Chain(e)) ==> exists i: nat, j: nat ::
                && FirstAlike(Chain(e), i, j)
                && out == Printed(Chain(e)[..j + 1], i) + [CausedBy, CircularMarker(1)]
  {
    var circular := FindRecursiveCause(e);
    out := Format(e, circular, 1);
    ghost var i, j := PrintsUpToFirstAlike(e);
  }

  /** The same, in terms of what tells errors apart. */
  lemma PrintsUpToFirstAlike(e: JsError) returns (i: nat, j: nat)
    ensures NoneAlike(Chain(e)) ==> Format(e, Find([], e), 1) == Printed(Chain(e), -1)
    ensures !NoneAlike(Chain(e)) ==>
              && FirstAlike(Chain(e), i, j)
              && Format(e, Find([], e), 1) == Printed(Chain(e)[..j + 1], i) + [CausedBy, CircularMarker(1)]
  {
    i, j := PrintsUpToFirstRepeat(e);
    var c := Chain(e);
    DistinctIsNoneAlike(c);
    if !Distinct(c) {
      DistinctIsNoneAlike(c[..j + 1]);
      SameIsIndistinguishable(c[j + 1], c[i]);
    }
  }

  /** Any two errors of the list can be told apart. */
  ghost predicate NoneAlike(c: seq<JsError>) {
    forall i, j :: 0 <= i < j < |c| ==> !Indistinguishable(c[i], c[j])
  }

  /** The errors up to `j` can be told apart; the next one cannot from error `i`. */
  ghost predicate FirstAlike(c: seq<JsError>, i: nat, j: nat) {
    i <= j && j + 1 < |c| && NoneAlike(c[..j + 1]) && Indistinguishable(c[j + 1], c[i])
  }

  lemma DistinctIsNoneAlike(c: seq<JsError>)
    ensures Distinct(c) <==> NoneAlike(c)
  {
    forall i, j | 0 <= i < j < |c| ensures Same(c[i], c[j]) <==> Indistinguishable(c[i], c[j]) {
      SameIsIndistinguishable(c[i], c[j]);
    }
  }

  /** Where error `k` is printed: behind two pieces for each error before it, and
      behind the reference marker if that comes earlier. */
  function Place(k: nat, marked: int): nat {
    2 * k + if 0 <= marked < k then 1 else 0
  }

  /** Error `k` of the list is printed at its place as its message, behind a line of
      cause unless it is the first, with the marker behind it if it is marked. */
  ghost predicate PrintedAt(p: seq<Piece>, c: seq<JsError>, marked: int, k: nat)
    requires k < |c|
  {
    && |p| == 2 * |c| - 1 + (if 0 <= marked < |c| then 1 else 0)
    && p[Place(k, marked)] == Message(c[k].exceptionMessage)
    && (k == marked ==> p[Place(k, marked) + 1] == RefMarker(1))
    && (k > 0 ==> p[Place(k, marked) - 1] == CausedBy)
  }

  /** Errors are printed in order, each as its message and with the line of cause
      between; the reference marker stands right behind the error that it marks. */
  lemma {:induction false} PrintedInOrder(c: seq<JsError>, marked: int, k: nat)
    requires k < |c|
    ensures PrintedAt(Printed(c, marked), c, marked, k)
    decreases |c|
  {
    if |c| == 1 {
      assert c == [c[0]];
      PrintedOne(c[0], marked);
    } else {
      PrintedInOrder(c[1..], marked - 1, if k == 0 then 0 else k - 1);
      PrintedTwo(c, marked);
      OneMoreInFront(Printed(c[1..], marked - 1), c, marked, k);
    }
  }

  lemma OneMoreInFront(rest: seq<Piece>, c: seq<JsError>, marked: int, k: nat)
    requires 1 < |c| && k < |c| && PrintedAt(rest, c[1..], marked - 1, if k == 0 then 0 else k - 1)
    ensures PrintedAt([Message(c[0].exceptionMessage)] + (if marked == 0 then [RefMarker(1)] else [])
                      + ([CausedBy] + rest), c, marked, k)
  {
    var h := if marked == 0 then 3 else 2;
    assert k > 0 ==> Place(k, marked) == h + Place(k - 1, marked - 1);
  }

  /** Message, possible marker and rest, counted apart. */
  lemma CountParts(m: string, marked: bool, rest: seq<Piece>, p: Piece)
    requires p.RefMarker? || p.CircularMarker?
    ensures Count([Message(m)] + (if marked then [RefMarker(1)] else []) + rest, p) ==
            (if marked && p == RefMarker(1) then 1 else 0) + Count(rest, p)
  {
    var head, mark := [Message(m)], if marked then [RefMarker(1)] else [];
    CountOne(Message(m), p);
    CountOne(RefMarker(1), p);
    CountConcat(head, mark, p);
    CountConcat(head + mark, rest, p);
  }

  lemma {:induction false} MarkersInPrinted(c: seq<JsError>, marked: int, p: Piece)
    requires p == RefMarker(1) || p == CircularMarker(1)
    ensures Count(Printed(c, marked), p) == if p == RefMarker(1) && 0 <= marked < |c| then 1 else 0
    decreases |c|
  {
    if |c| == 1 {
      assert c == [c[0]];
      PrintedOne(c[0], marked);
      CountParts(c[0].exceptionMessage, marked == 0, [], p);
      assert Printed(c, marked) + [] == Printed(c, marked);
    } else if |c| > 1 {
      var rest := Printed(c[1..], marked - 1);
      MarkersInPrinted(c[1..], marked - 1, p);
      PrintedTwo(c, marked);
      CountOne(CausedBy, p);
      CountConcat([CausedBy], rest, p);
      CountParts(c[0].exceptionMessage, marked == 0, [CausedBy] + rest, p);
    }
  }

  /** A circular chain shows exactly one marker of each kind, any other chain none. */
  lemma OneMarkerOfEachKind(e: JsError, p: Piece)
    requires p == RefMarker(1) || p == CircularMarker(1)
    ensures Count(Format(e, Find([], e), 1), p) == if Distinct(Chain(e)) then 0 else 1
  {
    var i, j := PrintsUpToFirstRepeat(e);
    if Distinct(Chain(e)) {
      MarkersInPrinted(Chain(e), -1, p);
    } else {
      MarkersInPrinted(Chain(e)[..j + 1], i, p);
      CountOne(CausedBy, p);
      CountOne(CircularMarker(1), p);
      CountConcat([CausedBy], [CircularMarker(1)], p);
      assert [CausedBy, CircularMarker(1)] == [CausedBy] + [CircularMarker(1)];
      CountConcat(Printed(Chain(e)[..j + 1], i), [CausedBy, CircularMarker(1)], p);
    }
  }
}
