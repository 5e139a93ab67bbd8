/** The dynamic-route registry on values. `R` is the identity of a route object:
    the id map and the method:path index both hold identities, and an edit changes
    the object behind them, so the index can go stale. */
module RouteRegistry {
  import opened Basics

  datatype Route = Route(id: string, path: string, httpMethod: string, routeType: string, isActive: bool, usageCount: nat)

  /** One entry of an update request; a None value is an explicit null. */
  datatype Edit =
    | SetPath(value: Option<string>)
    | SetMethod(value: Option<string>)
    | SetType(value: Option<string>)
    | SetOther

  datatype State<R> = State(routes: map<string, R>, index: map<string, R>, objects: map<R, Route>)

  /** How an operation ends; `Raised` covers every exception the source lets out. */
  datatype Outcome = Done | NotFound | Raised

  datatype Event<R> =
    | Create(ref: R, id: string, path: string, httpMethod: string, routeType: string)
    | Update(id: string, edits: seq<Edit>)
    | Delete(id: string)
    | Toggle(id: string, isActive: bool)
    | Use(id: string)

  const PREFIX := "/dynamic/"
  const ROUTE_TYPES := {"json", "html", "redirect", "proxy", "echo", "static"}

  function UpperChar(c: char): char {
    if 'a' <= c <= 'z' then (c as int - 32) as char else c
  }

  function Upper(s: string): (r: string)
    ensures |r| == |s| && forall i :: 0 <= i < |s| ==> r[i] == UpperChar(s[i])
  {
    if s == "" then "" else [UpperChar(s[0])] + Upper(s[1..])
  }

  const LOWER := "abcdefghijklmnopqrstuvwxyz"
  const UPPER := "ABCDEFGHIJKLMNOPQRSTUVWXYZ"

  /** Letters of the lower alphabet become those of the upper one, all else stays. */
  lemma UpperByAlphabet(c: char)
    ensures forall i :: 0 <= i < 26 ==> UpperChar(LOWER[i]) == UPPER[i]
    ensures c !in LOWER ==> UpperChar(c) == c
  {
    assert forall i :: 0 <= i < 26 ==> LOWER[i] as int == 'a' as int + i && UPPER[i] as int == 'A' as int + i;
    if 'a' <= c <= 'z' {
      assert LOWER[c as int - 'a' as int] == c;
    }
  }

  function StripSlashes(s: string): string {
    if s != "" && s[0] == '/' then StripSlashes(s[1..]) else s
  }

  function NormalPath(path: string): (r: string)
    ensures PREFIX <= r
  {
    if PREFIX <= path then path else PREFIX + StripSlashes(path)
  }

  /** A path without the prefix keeps what follows its leading slashes, all of them
      taken off; a path with the prefix stays as it is. */
  lemma {:induction false} NormalPathSplits(path: string) returns (slashes: nat)
    ensures slashes <= |path| && (forall i :: 0 <= i < slashes ==> path[i] == '/')
    ensures slashes < |path| ==> path[slashes] != '/'
    ensures StripSlashes(path) == path[slashes..]
    ensures NormalPath(path) == if PREFIX <= path then path else PREFIX + path[slashes..]
  {
    if path != "" && path[0] == '/' {
      slashes := NormalPathSplits(path[1..]);
      slashes := slashes + 1;
    } else {
      slashes := 0;
    }
  }

  function KeyOf(httpMethod: string, path: string): string {
    httpMethod + ":" + path
  }

  function Key(r: Route): string {
    KeyOf(r.httpMethod, r.path)
  }

  // ---------------------------------------------------------------------------
  // Operations
  // ---------------------------------------------------------------------------

  /** None when the assignment raises. */
  function ApplyEdit(r: Route, e: Edit): Option<Route> {
    match e
    case SetPath(v) => if v.Some? then Some(r.(path := NormalPath(v.value))) else None
    case SetMethod(v) => if v.Some? then Some(r.(httpMethod := Upper(v.value))) else None
    case SetType(v) => if v.Some? && v.value in ROUTE_TYPES then Some(r.(routeType := v.value)) else None
    case SetOther => Some(r)
  }

  /** The edited route, and whether every edit went through; edits before a
      failing one stay. */
  function ApplyEdits(r: Route, edits: seq<Edit>): (res: (Route, bool))
    ensures res.0.id == r.id
    decreases |edits|
  {
    if edits == [] then (r, true) else
    match ApplyEdit(r, edits[0])
    case None => (r, false)
    case Some(r') => ApplyEdits(r', edits[1..])
  }

  /** An edit that does not raise. */
  predicate GoodEdit(e: Edit) {
    match e
    case SetPath(v) => v.Some?
    case SetMethod(v) => v.Some?
    case SetType(v) => v.Some? && v.value in ROUTE_TYPES
    case SetOther => true
  }

  /** The number of edits before the first one that raises. */
  function GoodPrefix(edits: seq<Edit>): (n: nat)
    ensures n <= |edits| && (forall i :: 0 <= i < n ==> GoodEdit(edits[i])) && (n < |edits| ==> !GoodEdit(edits[n]))
  {
    if edits == [] || !GoodEdit(edits[0]) then 0 else 1 + GoodPrefix(edits[1..])
  }

  /** The path, method and type a list of edits asks for last, or the old ones. */
  function PathAfter(path: string, edits: seq<Edit>): string {
    if edits == [] then path
    else if edits[|edits| - 1].SetPath? && edits[|edits| - 1].value.Some? then NormalPath(edits[|edits| - 1].value.value)
    else PathAfter(path, edits[..|edits| - 1])
  }

  function MethodAfter(httpMethod: string, edits: seq<Edit>): string {
    if edits == [] then httpMethod
    else if edits[|edits| - 1].SetMethod? && edits[|edits| - 1].value.Some? then Upper(edits[|edits| - 1].value.value)
    else MethodAfter(httpMethod, edits[..|edits| - 1])
  }

  function TypeAfter(routeType: string, edits: seq<Edit>): string {
    if edits == [] then routeType
    else if edits[|edits| - 1].SetType? && edits[|edits| - 1].value.Some? then edits[|edits| - 1].value.value
    else TypeAfter(routeType, edits[..|edits| - 1])
  }

  /** A route with what the edits ask for last. */
  function Edited(r: Route, edits: seq<Edit>): Route {
    r.(path := PathAfter(r.path, edits),
       httpMethod := MethodAfter(r.httpMethod, edits),
       routeType := TypeAfter(r.routeType, edits))
  }

  lemma {:induction false} ApplyEditsSnoc(r: Route, edits: seq<Edit>, e: Edit)
    requires forall i :: 0 <= i < |edits| ==> GoodEdit(edits[i])
    ensures ApplyEdits(r, edits).1
    ensures ApplyEdits(r, edits + [e]) ==
            var r' := ApplyEdits(r, edits).0;
            if GoodEdit(e) then (ApplyEdit(r', e).value, true) else (r', false)
    decreases |edits|
  {
    if edits == [] {
      assert edits + [e] == [e] && [e][1..] == [];
    } else {
      assert GoodEdit(edits[0]);
      assert (edits + [e])[1..] == edits[1..] + [e];
      ApplyEditsSnoc(ApplyEdit(r, edits[0]).value, edits[1..], e);
    }
  }

  lemma {:induction false} GoodEditsApply(r: Route, edits: seq<Edit>)
    requires forall i :: 0 <= i < |edits| ==> GoodEdit(edits[i])
    ensures ApplyEdits(r, edits) == (Edited(r, edits), true)
    decreases |edits|
  {
    if edits != [] {
      var before, e := edits[..|edits| - 1], edits[|edits| - 1];
      assert before + [e] == edits;
      GoodEditsApply(r, before);
      ApplyEditsSnoc(r, before, e);
    }
  }

  lemma {:induction false} EditsAfterBadOne(r: Route, edits: seq<Edit>, n: nat)
    requires n < |edits| && !GoodEdit(edits[n]) && (forall i :: 0 <= i < n ==> GoodEdit(edits[i]))
    ensures ApplyEdits(r, edits) == (ApplyEdits(r, edits[..n]).0, false)
    decreases n
  {
    if n > 0 {
      assert GoodEdit(edits[0]);
      assert edits[..n][1..] == edits[1..][..n - 1];
      EditsAfterBadOne(ApplyEdit(r, edits[0]).value, edits[1..], n - 1);
    }
  }

  /** An update goes through exactly when every edit is good. In any case the route
      ends up with what the edits before the first bad one ask for last. */
  lemma EditsOutcome(r: Route, edits: seq<Edit>)
    ensures ApplyEdits(r, edits) == (Edited(r, edits[..GoodPrefix(edits)]), GoodPrefix(edits) == |edits|)
    ensures GoodPrefix(edits) == |edits| <==> forall i :: 0 <= i < |edits| ==> GoodEdit(edits[i])
  {
    var n := GoodPrefix(edits);
    GoodEditsApply(r, edits[..n]);
    if n < |edits| {
      EditsAfterBadOne(r, edits, n);
    } else {
      assert edits[..n] == edits;
    }
  }

  function Empty<R>(): State<R> {
    State(map[], map[], map[])
  }

  function Add<R>(s: State<R>, ref: R, r: Route): State<R> {
    State(s.routes[r.id := ref], s.index[Key(r) := ref], s.objects[ref := r])
  }

  function NewRoute(id: string, path: string, httpMethod: string, routeType: string): Route {
    Route(id, NormalPath(path), Upper(httpMethod), routeType, true, 0)
  }

  predicate Wf<R>(s: State<R>) {
    && (forall id :: id in s.routes ==> s.routes[id] in s.objects && s.objects[s.routes[id]].id == id)
    && (forall k :: k in s.index ==> s.index[k] in s.objects)
  }

  /** Moves the index entry of a route whose key changed; None when the old entry is missing. */
  function Rekey<R>(index: map<string, R>, oldKey: string, newKey: string, ref: R): Option<map<string, R>> {
    if oldKey == newKey then Some(index)
    else if oldKey !in index then None
    else Some((index - {oldKey})[newKey := ref])
  }

  function Apply<R>(s: State<R>, e: Event<R>): (State<R>, Outcome)
    requires Wf(s)
  {
    match e
    case Create(ref, id, path, httpMethod, routeType) =>
      if routeType in ROUTE_TYPES then (Add(s, ref, NewRoute(id, path, httpMethod, routeType)), Done)
      else (s, Raised)
    case Update(id, edits) =>
      if id !in s.routes then (s, NotFound) else
      var ref := s.routes[id];
      var (r, ok) := ApplyEdits(s.objects[ref], edits);
      var s' := s.(objects := s.objects[ref := r]);
      if !ok then (s', Raised) else
      var index := Rekey(s.index, Key(s.objects[ref]), Key(r), ref);
      if index.None? then (s', Raised) else (s'.(index := index.value), Done)
    case Delete(id) =>
      if id !in s.routes then (s, NotFound) else
      var key := Key(s.objects[s.routes[id]]);
      var s' := s.(routes := s.routes - {id});
      if key in s.index then (s'.(index := s.index - {key}), Done) else (s', Raised)
    case Toggle(id, isActive) =>
      if id !in s.routes then (s, NotFound) else
      var ref := s.routes[id];
      (s.(objects := s.objects[ref := s.objects[ref].(isActive := isActive)]), Done)
    case Use(id) =>
      if id !in s.routes then (s, NotFound) else
      var ref := s.routes[id];
      (s.(objects := s.objects[ref := s.objects[ref].(usageCount := s.objects[ref].usageCount + 1)]), Done)
  }

  function Lookup<R>(s: State<R>, httpMethod: string, path: string): Option<R> {
    var key := KeyOf(Upper(httpMethod), path);
    if key in s.index then Some(s.index[key]) else None
  }

  /** A created object is a new one. */
  predicate FreshRef<R>(s: State<R>, e: Event<R>) {
    e.Create? ==> e.ref !in s.objects
  }

  lemma ApplyWf<R>(s: State<R>, e: Event<R>)
    requires Wf(s) && FreshRef(s, e)
    ensures Wf(Apply(s, e).0)
  {
  }

  // ---------------------------------------------------------------------------
  // Soundness: an index entry points to a live route filed under its own key
  // ---------------------------------------------------------------------------

  predicate Live<R(==)>(s: State<R>, ref: R) {
    ref in s.objects && s.objects[ref].id in s.routes && s.routes[s.objects[ref].id] == ref
  }

  predicate Sound<R(==)>(s: State<R>) {
    forall k :: k in s.index ==> Live(s, s.index[k]) && Key(s.objects[s.index[k]]) == k
  }

  /** The index finds route `id` under its current key. */
  predicate Indexed<R(==)>(s: State<R>, id: string)
    requires Wf(s) && id in s.routes
  {
    var key := Key(s.objects[s.routes[id]]);
    key in s.index && s.index[key] == s.routes[id]
  }

  /** The two ways to leave a stale entry behind: an update of an indexed route with
      a bad edit, whose edits before the first bad one ask for another key, and a new
      route that takes over the id of an indexed route with another key. */
  predicate Strands<R(==)>(s: State<R>, e: Event<R>)
    requires Wf(s)
  {
    match e
    case Update(id, edits) =>
      && id in s.routes && Indexed(s, id)
      && var r, n := s.objects[s.routes[id]], GoodPrefix(edits);
         n < |edits| && KeyOf(MethodAfter(r.httpMethod, edits[..n]), PathAfter(r.path, edits[..n])) != Key(r)
    case Create(_, id, path, httpMethod, routeType) =>
      && routeType in ROUTE_TYPES && id in s.routes && Indexed(s, id)
      && Key(NewRoute(id, path, httpMethod, routeType)) != Key(s.objects[s.routes[id]])
    case _ => false
  }

  lemma StrandedIsUnsound<R>(s: State<R>, e: Event<R>)
    requires Wf(s) && Sound(s) && FreshRef(s, e) && Strands(s, e)
    ensures !Sound(Apply(s, e).0)
  {
    var s' := Apply(s, e).0;
    var key := Key(s.objects[s.routes[e.id]]);
    if e.Update? {
      EditsOutcome(s.objects[s.routes[e.id]], e.edits);
    }
    assert key in s'.index && s'.index[key] == s.routes[e.id];
  }

  lemma UpdateSound<R>(s: State<R>, e: Event<R>)
    requires Wf(s) && Sound(s) && e.Update? && !Strands(s, e)
    ensures Sound(Apply(s, e).0)
  {
    if e.id in s.routes {
      EditsOutcome(s.objects[s.routes[e.id]], e.edits);
      var s', ref := Apply(s, e).0, s.routes[e.id];
      forall k | k in s'.index
        ensures Live(s', s'.index[k]) && Key(s'.objects[s'.index[k]]) == k
      {
        if k in s.index && s'.index[k] == s.index[k] {
          assert Live(s, s.index[k]) && Key(s.objects[s.index[k]]) == k;
        }
      }
    }
  }

  lemma CreateSound<R>(s: State<R>, e: Event<R>)
    requires Wf(s) && Sound(s) && e.Create? && FreshRef(s, e) && !Strands(s, e)
    ensures Sound(Apply(s, e).0)
  {
    var s' := Apply(s, e).0;
    if e.routeType in ROUTE_TYPES {
      forall k | k in s'.index
        ensures Live(s', s'.index[k]) && Key(s'.objects[s'.index[k]]) == k
      {
        if s'.index[k] != e.ref {
          assert k in s.index && Live(s, s.index[k]) && Key(s.objects[s.index[k]]) == k;
        }
      }
    }
  }

  lemma OtherSound<R>(s: State<R>, e: Event<R>)
    requires Wf(s) && Sound(s) && (e.Delete? || e.Toggle? || e.Use?)
    ensures Sound(Apply(s, e).0)
  {
    var s' := Apply(s, e).0;
    forall k | k in s'.index
      ensures Live(s', s'.index[k]) && Key(s'.objects[s'.index[k]]) == k
    {
      assert Live(s, s.index[k]) && Key(s.objects[s.index[k]]) == k;
    }
  }

  /** An operation keeps the index sound exactly when it does not strand an entry,
      whether it succeeds or raises, and whatever keys collide. */
  lemma SoundIffNotStranded<R>(s: State<R>, e: Event<R>)
    requires Wf(s) && Sound(s) && FreshRef(s, e)
    ensures Sound(Apply(s, e).0) <==> !Strands(s, e)
  {
    if Strands(s, e) {
      StrandedIsUnsound(s, e);
    } else {
      match e
      case Update(_, _) => UpdateSound(s, e);
      case Create(_, _, _, _, _) => CreateSound(s, e);
      case _ => OtherSound(s, e);
    }
  }

  // ---------------------------------------------------------------------------
  // Completeness: lookup by path finds every live route
  // ---------------------------------------------------------------------------

  predicate Complete<R(==)>(s: State<R>)
    requires Wf(s)
  {
    forall id :: id in s.routes ==> Indexed(s, id)
  }

  predicate DistinctKeys<R>(s: State<R>)
    requires Wf(s)
  {
    forall a, b :: a in s.routes && b in s.routes && a != b ==>
      Key(s.objects[s.routes[a]]) != Key(s.objects[s.routes[b]])
  }

  lemma CompleteMeansDistinct<R>(s: State<R>)
    requires Wf(s) && Complete(s)
    ensures DistinctKeys(s)
  {
    forall a, b | a in s.routes && b in s.routes && a != b
      ensures Key(s.objects[s.routes[a]]) != Key(s.objects[s.routes[b]])
    {
      assert Indexed(s, a) && Indexed(s, b);
    }
  }

  lemma UpdateKeepsIndexed<R>(s: State<R>, e: Event<R>, id: string)
    requires Wf(s) && Complete(s) && e.Update? && !Strands(s, e) && id in s.routes
    requires Wf(Apply(s, e).0) && DistinctKeys(Apply(s, e).0)
    ensures Indexed(Apply(s, e).0, id)
  {
    var s' := Apply(s, e).0;
    assert Indexed(s, id);
    if e.id in s.routes {
      EditsOutcome(s.objects[s.routes[e.id]], e.edits);
    }
    if e.id in s.routes && e.id != id {
      assert Indexed(s, e.id);
      assert s.routes[e.id] != s.routes[id];
      assert Key(s'.objects[s'.routes[id]]) != Key(s'.objects[s'.routes[e.id]]);
    }
  }

  lemma CreateKeepsIndexed<R>(s: State<R>, e: Event<R>, id: string)
    requires Wf(s) && Complete(s) && e.Create? && FreshRef(s, e) && id in Apply(s, e).0.routes
    requires Wf(Apply(s, e).0) && DistinctKeys(Apply(s, e).0)
    ensures Indexed(Apply(s, e).0, id)
  {
    var s' := Apply(s, e).0;
    if id in s.routes {
      assert Indexed(s, id);
    }
    if e.routeType in ROUTE_TYPES && id != e.id {
      assert Key(s'.objects[s'.routes[id]]) != Key(s'.objects[s'.routes[e.id]]);
    }
  }

  lemma OtherKeepsIndexed<R>(s: State<R>, e: Event<R>, id: string)
    requires Wf(s) && Complete(s) && (e.Delete? || e.Toggle? || e.Use?) && id in Apply(s, e).0.routes
    requires Wf(Apply(s, e).0)
    ensures Indexed(Apply(s, e).0, id)
  {
    assert Indexed(s, id);
    if e.Delete? && e.id in s.routes {
      CompleteMeansDistinct(s);
      assert Key(s.objects[s.routes[id]]) != Key(s.objects[s.routes[e.id]]);
    }
  }

  lemma CompleteStep<R>(s: State<R>, e: Event<R>)
    requires Wf(s) && Complete(s) && FreshRef(s, e) && !Strands(s, e)
    requires Wf(Apply(s, e).0) && DistinctKeys(Apply(s, e).0)
    ensures Complete(Apply(s, e).0)
  {
    forall id | id in Apply(s, e).0.routes
      ensures Indexed(Apply(s, e).0, id)
    {
      match e
      case Update(_, _) => UpdateKeepsIndexed(s, e, id);
      case Create(_, _, _, _, _) => CreateKeepsIndexed(s, e, id);
      case _ => OtherKeepsIndexed(s, e, id);
    }
  }

  /** While the index agrees with the id map, no operation meets a missing entry:
      an update raises only on a bad value, and a delete never does. */
  lemma NoMissingEntry<R>(s: State<R>, e: Event<R>)
    requires Wf(s) && Complete(s)
    ensures e.Delete? ==> Apply(s, e).1 == if e.id in s.routes then Done else NotFound
    ensures e.Update? && e.id in s.routes ==>
              (Apply(s, e).1 == Raised <==> exists i :: 0 <= i < |e.edits| && !GoodEdit(e.edits[i]))
  {
    if (e.Delete? || e.Update?) && e.id in s.routes {
      assert Indexed(s, e.id);
      if e.Update? {
        EditsOutcome(s.objects[s.routes[e.id]], e.edits);
      }
    }
  }

  // ---------------------------------------------------------------------------
  // Stored paths and methods are in normal form
  // ---------------------------------------------------------------------------

  predicate Normal(r: Route) {
    PREFIX <= r.path && Upper(r.httpMethod) == r.httpMethod
  }

  predicate AllNormal<R>(s: State<R>) {
    forall ref :: ref in s.objects ==> Normal(s.objects[ref])
  }

  lemma UpperTwice(s: string)
    ensures Upper(Upper(s)) == Upper(s)
  {
  }

  lemma {:induction false} EditsNormal(r: Route, edits: seq<Edit>)
    requires Normal(r)
    ensures Normal(ApplyEdits(r, edits).0)
    decreases |edits|
  {
    if edits != [] && ApplyEdit(r, edits[0]).Some? {
      if edits[0].SetMethod? { UpperTwice(edits[0].value.value); }
      EditsNormal(ApplyEdit(r, edits[0]).value, edits[1..]);
    }
  }

  lemma StepNormal<R>(s: State<R>, e: Event<R>)
    requires Wf(s) && AllNormal(s)
    ensures AllNormal(Apply(s, e).0)
  {
    match e
    case Create(_, _, _, httpMethod, _) => UpperTwice(httpMethod);
    case Update(id, edits) =>
      if id in s.routes {
        EditsNormal(s.objects[s.routes[id]], edits);
      }
    case _ =>
  }

  // ---------------------------------------------------------------------------
  // Runs
  // ---------------------------------------------------------------------------

  /** Every object the run creates is new when it is created. */
  predicate FreshRun<R>(s: State<R>, es: seq<Event<R>>)
    requires Wf(s)
    decreases |es|
  {
    es != [] ==> FreshRef(s, es[0]) && (ApplyWf(s, es[0]); FreshRun(Apply(s, es[0]).0, es[1..]))
  }

  /** The following hold of every state along a run, the first included. */

  predicate AlwaysSound<R(==)>(s: State<R>, es: seq<Event<R>>)
    requires Wf(s) && FreshRun(s, es)
    decreases |es|
  {
    Sound(s) && (es != [] ==> (ApplyWf(s, es[0]); AlwaysSound(Apply(s, es[0]).0, es[1..])))
  }

  predicate AlwaysComplete<R(==)>(s: State<R>, es: seq<Event<R>>)
    requires Wf(s) && FreshRun(s, es)
    decreases |es|
  {
    Complete(s) && (es != [] ==> (ApplyWf(s, es[0]); AlwaysComplete(Apply(s, es[0]).0, es[1..])))
  }

  predicate AlwaysDistinctKeys<R>(s: State<R>, es: seq<Event<R>>)
    requires Wf(s) && FreshRun(s, es)
    decreases |es|
  {
    DistinctKeys(s) && (es != [] ==> (ApplyWf(s, es[0]); AlwaysDistinctKeys(Apply(s, es[0]).0, es[1..])))
  }

  predicate AlwaysNormal<R>(s: State<R>, es: seq<Event<R>>)
    requires Wf(s) && FreshRun(s, es)
    decreases |es|
  {
    AllNormal(s) && (es != [] ==> (ApplyWf(s, es[0]); AlwaysNormal(Apply(s, es[0]).0, es[1..])))
  }

  /** No event of the run strands an entry. */
  predicate NeverStrands<R(==)>(s: State<R>, es: seq<Event<R>>)
    requires Wf(s) && FreshRun(s, es)
    decreases |es|
  {
    es != [] ==> !Strands(s, es[0]) && (ApplyWf(s, es[0]); NeverStrands(Apply(s, es[0]).0, es[1..]))
  }

  /** The index is sound in every state of a run exactly when no event of the run
      strands an entry. Collisions and missing keys are allowed. */
  lemma {:induction false} RunSound<R>(s: State<R>, es: seq<Event<R>>)
    requires Wf(s) && Sound(s) && FreshRun(s, es)
    ensures AlwaysSound(s, es) <==> NeverStrands(s, es)
    decreases |es|
  {
    if es != [] {
      ApplyWf(s, es[0]);
      SoundIffNotStranded(s, es[0]);
      if Sound(Apply(s, es[0]).0) {
        RunSound(Apply(s, es[0]).0, es[1..]);
      }
    }
  }

  /** Every edit of the run is good, and every created route gets an unused id. */
  predicate Orderly<R>(s: State<R>, es: seq<Event<R>>)
    requires Wf(s) && FreshRun(s, es)
    decreases |es|
  {
    es != [] ==>
      && (es[0].Update? ==> forall i :: 0 <= i < |es[0].edits| ==> GoodEdit(es[0].edits[i]))
      && (es[0].Create? ==> es[0].id !in s.routes)
      && (ApplyWf(s, es[0]); Orderly(Apply(s, es[0]).0, es[1..]))
  }

  lemma {:induction false} OrderlyNeverStrands<R>(s: State<R>, es: seq<Event<R>>)
    requires Wf(s) && FreshRun(s, es) && Orderly(s, es)
    ensures NeverStrands(s, es)
    decreases |es|
  {
    if es != [] {
      ApplyWf(s, es[0]);
      OrderlyNeverStrands(Apply(s, es[0]).0, es[1..]);
    }
  }

  /** So with good values and unused ids the index is sound in every state, whatever
      keys collide and whatever updates and deletes meet a missing key. */
  lemma OrderlyRunIsSound<R>(s: State<R>, es: seq<Event<R>>)
    requires Wf(s) && Sound(s) && FreshRun(s, es) && Orderly(s, es)
    ensures AlwaysSound(s, es)
  {
    OrderlyNeverStrands(s, es);
    RunSound(s, es);
  }

  /** The index is sound and finds every live route throughout a run exactly when
      no two live routes ever share a key and no event strands an entry. */
  lemma {:induction false} RunComplete<R>(s: State<R>, es: seq<Event<R>>)
    requires Wf(s) && Sound(s) && Complete(s) && FreshRun(s, es)
    ensures AlwaysSound(s, es) && AlwaysComplete(s, es) <==> AlwaysDistinctKeys(s, es) && NeverStrands(s, es)
    decreases |es|
  {
    CompleteMeansDistinct(s);
    if es != [] {
      var next := Apply(s, es[0]).0;
      ApplyWf(s, es[0]);
      SoundIffNotStranded(s, es[0]);
      if !Strands(s, es[0]) {
        if Complete(next) {
          RunComplete(next, es[1..]);
        } else if DistinctKeys(next) {
          CompleteStep(s, es[0]);
        }
      }
    }
  }

  /** In every run, raising operations included, every stored path starts with the
      prefix and every stored method is upper case. */
  lemma {:induction false} RunNormal<R>(s: State<R>, es: seq<Event<R>>)
    requires Wf(s) && AllNormal(s) && FreshRun(s, es)
    ensures AlwaysNormal(s, es)
    decreases |es|
  {
    if es != [] {
      ApplyWf(s, es[0]);
      StepNormal(s, es[0]);
      RunNormal(Apply(s, es[0]).0, es[1..]);
    }
  }

  /** Looking a live route up by its own method, in any letter case, and path. */
  lemma LookupFinds<R>(s: State<R>, id: string, httpMethod: string)
    requires Wf(s) && AllNormal(s) && Complete(s) && id in s.routes
    requires Upper(httpMethod) == Upper(s.objects[s.routes[id]].httpMethod)
    ensures Lookup(s, httpMethod, s.objects[s.routes[id]].path) == Some(s.routes[id])
  {
    assert Normal(s.objects[s.routes[id]]) && Indexed(s, id);
  }

  /** Whatever a lookup returns is a live route that now has the upper-cased method and
      the path asked for. If the index is complete, a lookup returns nothing only when
      no live route has them. */
  lemma LookupIsExact<R>(s: State<R>, httpMethod: string, path: string)
    requires Wf(s) && Sound(s)
    ensures var r := Lookup(s, httpMethod, path);
            r.Some? ==> Live(s, r.value) && Key(s.objects[r.value]) == Upper(httpMethod) + ":" + path
    ensures Complete(s) ==>
              (Lookup(s, httpMethod, path).None? <==>
               forall id :: id in s.routes ==> Key(s.objects[s.routes[id]]) != Upper(httpMethod) + ":" + path)
  {
    var key := Upper(httpMethod) + ":" + path;
    if key in s.index {
      assert Live(s, s.index[key]) && Key(s.objects[s.index[key]]) == key;
    } else if Complete(s) {
      forall id | id in s.routes ensures Key(s.objects[s.routes[id]]) != key {
        assert Indexed(s, id);
      }
    }
  }

  // ---------------------------------------------------------------------------
  // What each operation does, in every state
  // ---------------------------------------------------------------------------

  /** The entry under the old key is now under the new one; all others are as before. */
  ghost predicate Moved<R>(before: map<string, R>, after: map<string, R>, oldKey: string, newKey: string, ref: R) {
    if oldKey == newKey then after == before else
    && oldKey !in after && newKey in after && after[newKey] == ref
    && (forall k :: k != oldKey && k != newKey ==> (k in after <==> k in before))
    && (forall k :: k != oldKey && k != newKey && k in before ==> after[k] == before[k])
  }

  lemma RekeyMoves<R>(index: map<string, R>, oldKey: string, newKey: string, ref: R)
    ensures var r := Rekey(index, oldKey, newKey, ref);
            && (r.None? <==> oldKey != newKey && oldKey !in index)
            && (r.Some? ==> Moved(index, r.value, oldKey, newKey, ref))
  {
  }

  /** An update raises exactly on a bad edit or when it has to move an entry that is
      missing. In any case the route gets what its edits ask for before the first bad
      one; the index changes only if the update goes through with another key. */
  lemma UpdateEffect<R>(s: State<R>, id: string, edits: seq<Edit>)
    requires Wf(s) && id in s.routes
    ensures var ref, (s', outcome) := s.routes[id], Apply(s, Update(id, edits));
            var r, r' := s.objects[ref], Edited(s.objects[ref], edits[..GoodPrefix(edits)]);
            && outcome != NotFound && s'.routes == s.routes && s'.objects == s.objects[ref := r']
            && (outcome == Raised <==>
                (exists i :: 0 <= i < |edits| && !GoodEdit(edits[i])) || (Key(r') != Key(r) && Key(r) !in s.index))
            && (outcome == Raised ==> s'.index == s.index)
            && (outcome == Done ==> Moved(s.index, s'.index, Key(r), Key(r'), ref))
  {
    var ref := s.routes[id];
    var r, r' := s.objects[ref], Edited(s.objects[ref], edits[..GoodPrefix(edits)]);
    EditsOutcome(r, edits);
    RekeyMoves(s.index, Key(r), Key(r'), ref);
  }

  /** A delete forgets the id in any case, and raises exactly when the index has no
      entry under the route's key; otherwise that entry, and no other, goes. */
  lemma DeleteEffect<R>(s: State<R>, id: string)
    requires Wf(s) && id in s.routes
    ensures var (s', outcome) := Apply(s, Delete(id));
            var key := Key(s.objects[s.routes[id]]);
            && outcome != NotFound && s'.objects == s.objects
            && (forall x :: x in s'.routes <==> x in s.routes && x != id)
            && (forall x :: x in s'.routes ==> s'.routes[x] == s.routes[x])
            && (outcome == Raised <==> key !in s.index)
            && (forall k :: k in s'.index <==> k in s.index && k != key)
            && (forall k :: k in s'.index ==> s'.index[k] == s.index[k])
  {
  }

  /** The state at the end of a run. */
  function RunAll<R>(s: State<R>, es: seq<Event<R>>): State<R>
    requires Wf(s) && FreshRun(s, es)
    decreases |es|
  {
    if es == [] then s else (ApplyWf(s, es[0]); RunAll(Apply(s, es[0]).0, es[1..]))
  }

  lemma UsesAndToggles<R>(s: State<R>, e: Event<R>, id: string)
    requires Wf(s) && FreshRef(s, e) && id in s.routes
    requires !(e.Create? && e.id == id) && e != Delete(id)
    ensures var s' := Apply(s, e).0;
            && id in s'.routes && s'.routes[id] == s.routes[id] && s.routes[id] in s'.objects
            && var r, r' := s.objects[s.routes[id]], s'.objects[s.routes[id]];
               && r'.usageCount == r.usageCount + (if e == Use(id) then 1 else 0)
               && r'.isActive == if e.Toggle? && e.id == id then e.isActive else r.isActive
  {
    if e.Update? && e.id in s.routes {
      EditsOutcome(s.objects[s.routes[e.id]], e.edits);
    }
  }

  /** While a route is neither deleted nor replaced, its usage count grows by one for
      every use of it, and nothing else changes it. */
  lemma {:induction false} UsageCountsUses<R>(s: State<R>, es: seq<Event<R>>, id: string)
    requires Wf(s) && FreshRun(s, es) && id in s.routes
    requires forall i :: 0 <= i < |es| ==> !(es[i].Create? && es[i].id == id) && es[i] != Delete(id)
    ensures var s' := RunAll(s, es);
            && id in s'.routes && s'.routes[id] == s.routes[id] && s.routes[id] in s'.objects
            && s'.objects[s.routes[id]].usageCount == s.objects[s.routes[id]].usageCount + Count(es, Use(id))
    decreases |es|
  {
    if es != [] {
      ApplyWf(s, es[0]);
      UsesAndToggles(s, es[0], id);
      UsageCountsUses(Apply(s, es[0]).0, es[1..], id);
    }
  }

  /** And it is active or not as the last toggle of it says, `last` being the number of
      events up to that toggle, or as it was if there was none. */
  lemma {:induction false} LastToggleDecides<R>(s: State<R>, es: seq<Event<R>>, id: string, last: nat)
    requires Wf(s) && FreshRun(s, es) && id in s.routes && last <= |es|
    requires forall i :: 0 <= i < |es| ==> !(es[i].Create? && es[i].id == id) && es[i] != Delete(id)
    requires forall i :: last <= i < |es| ==> !(es[i].Toggle? && es[i].id == id)
    requires last > 0 ==> es[last - 1].Toggle? && es[last - 1].id == id
    ensures var s' := RunAll(s, es);
            && id in s'.routes && s'.routes[id] in s'.objects
            && s'.objects[s'.routes[id]].isActive ==
               if last > 0 then es[last - 1].isActive else s.objects[s.routes[id]].isActive
    decreases |es|
  {
    if es != [] {
      ApplyWf(s, es[0]);
      UsesAndToggles(s, es[0], id);
      LastToggleDecides(Apply(s, es[0]).0, es[1..], id, if last > 0 then last - 1 else 0);
    }
  }

  /** A collision followed by a delete hides a route that is still live. */
  lemma CollisionHidesRoute()
    ensures var s := Empty<nat>();
            var create1 := Create(1, "a", "x", "get", "json");
            var create2 := Create(2, "b", "/x", "GET", "json");
            var s2 := Apply(Apply(s, create1).0, create2).0;
            var s3 := Apply(s2, Delete("b")).0;
            && Wf(s2) && Apply(s2, Delete("b")).1 == Done && Sound(s3) && Live(s3, 1)
            && Lookup(s3, "GET", "/dynamic/x") == None
            && Apply(s3, Delete("a")).1 == Raised
  {
    var s := Empty<nat>();
    var r1, r2 := NewRoute("a", "x", "get", "json"), NewRoute("b", "/x", "GET", "json");
    assert StripSlashes("/x") == StripSlashes("x") by { assert "/x"[1..] == "x"; }
    assert Upper("get") == Upper("GET") == "GET";
    var s2 := Add(Add(s, 1, r1), 2, r2);
    assert Key(r1) == Key(r2) == KeyOf("GET", "/dynamic/x");
    assert s2.routes == map["a" := 1, "b" := 2] && s2.index == map[Key(r1) := 2];
  }

  /** An update whose method is fine and whose type is not leaves a stale entry. */
  lemma FailedUpdateStrands()
    ensures var s := Apply(Empty<nat>(), Create(1, "a", "x", "GET", "json")).0;
            var e := Update("a", [SetMethod(Some("POST")), SetType(Some("xml"))]);
            && Wf(s) && Sound(s) && Apply(s, e).1 == Raised && !Sound(Apply(s, e).0)
  {
    var r := NewRoute("a", "x", "GET", "json");
    var s := Add(Empty<nat>(), 1, r);
    var e := Update("a", [SetMethod(Some("POST")), SetType(Some("xml"))]);
    assert s.routes == map["a" := 1] && s.index == map[Key(r) := 1];
    var r' := r.(httpMethod := Upper("POST"));
    assert !GoodEdit(e.edits[1]) && GoodPrefix(e.edits) == 1;
    assert e.edits[..1][..0] == [];
    assert Key(r)[0] == 'G' && Key(r')[0] == 'P';
    StrandedIsUnsound<nat>(s, e);
  }
}
